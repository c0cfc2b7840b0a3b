/** The world state as the `vm.StateDB` interface presents it: accounts by address, with the
    wrapping 256-bit balance arithmetic of the interface's implementations. */
module World {
  import opened Words

  type Address = nat

  datatype Account = Account(nonce: uint64, balance: uint256, code: seq<byte>,
                             hasStorage: bool, newContract: bool)

  const EMPTY_ACCOUNT := Account(0, 0, [], false, false)

  /** `refund` is the refund counter that SSTORE-like operations feed during execution. */
  datatype World = World(accounts: map<Address, Account>, refund: uint64)

  predicate Exist(w: World, a: Address) { a in w.accounts }

  function Get(w: World, a: Address): Account {
    if a in w.accounts then w.accounts[a] else EMPTY_ACCOUNT
  }

  function Put(w: World, a: Address, x: Account): World {
    w.(accounts := w.accounts[a := x])
  }

  function Balance(w: World, a: Address): uint256 { Get(w, a).balance }

  function Nonce(w: World, a: Address): uint64 { Get(w, a).nonce }

  function SetNonce(w: World, a: Address, n: uint64): World {
    Put(w, a, Get(w, a).(nonce := n))
  }

  function SetCode(w: World, a: Address, code: seq<byte>): World {
    Put(w, a, Get(w, a).(code := code))
  }

  function AddBalance(w: World, a: Address, amount: uint256): World {
    Put(w, a, Get(w, a).(balance := Wrap256(Balance(w, a) + amount)))
  }

  function SubBalance(w: World, a: Address, amount: uint256): World {
    Put(w, a, Get(w, a).(balance := Wrap256(Balance(w, a) - amount)))
  }

  function CreateAccount(w: World, a: Address): World { Put(w, a, EMPTY_ACCOUNT) }

  function CreateContract(w: World, a: Address): World {
    Put(w, a, Get(w, a).(newContract := true))
  }

  predicate CanTransfer(w: World, from: Address, amount: uint256) { Balance(w, from) >= amount }

  function Transfer(w: World, from: Address, to: Address, amount: uint256): World {
    AddBalance(SubBalance(w, from, amount), to, amount)
  }

  /** An account in use that holds no code, as one that signs messages is. */
  predicate Signer(w: World, a: Address) { Nonce(w, a) > 0 && Get(w, a).code == [] }

  /** A signer stays one, with its nonce. */
  predicate Undisturbed(before: World, after: World, a: Address) {
    Signer(before, a) ==> Signer(after, a) && Nonce(after, a) == Nonce(before, a)
  }

  ghost function Sum(m: map<Address, Account>): nat
    decreases |m|
  {
    if m == map[] then 0 else
      var a :| a in m;
      m[a].balance + Sum(m - {a})
  }

  /** An account the world does not have, or has just created, is without nonce, balance, code, storage
      and flag. */
  lemma BlankIs(w: World, a: Address)
    ensures Get(CreateAccount(w, a), a) == Account(0, 0, [], false, false)
    ensures !Exist(w, a) ==> Get(w, a) == Account(0, 0, [], false, false)
    ensures forall b :: b != a ==> Get(CreateAccount(w, a), b) == Get(w, b)
  {
  }

  /** Sum of the balances of all accounts. */
  ghost function Total(w: World): nat { Sum(w.accounts) }

  /** What running code for the account `self` does to a world whose supply fits a word: the supply is
      kept, and every signer but `self` left alone. */
  ghost predicate Keeps(self: Address, before: World, after: World) {
    Total(before) < U256 ==>
      Total(after) == Total(before) && forall a :: a != self ==> Undisturbed(before, after, a)
  }

  lemma KeepsChain(self: Address, first: World, second: World, third: World)
    requires Keeps(self, first, second) && Keeps(self, second, third)
    ensures Keeps(self, first, third)
  {
    if Total(first) < U256 {
      forall a | a != self
        ensures Undisturbed(first, third, a)
      {
        assert Undisturbed(first, second, a) && Undisturbed(second, third, a);
      }
    }
  }

  lemma {:induction false} SumWithout(m: map<Address, Account>, a: Address)
    requires a in m
    ensures Sum(m) == m[a].balance + Sum(m - {a})
    decreases |m|
  {
    var b :| b in m && Sum(m) == m[b].balance + Sum(m - {b});
    if b != a {
      SumWithout(m - {b}, a);
      SumWithout(m - {a}, b);
      assert m - {a} - {b} == m - {b} - {a};
    }
  }

  lemma TotalPut(w: World, a: Address, x: Account)
    ensures Total(Put(w, a, x)) == Total(w) - Balance(w, a) + x.balance
    ensures Balance(w, a) <= Total(w)
  {
    var m := Put(w, a, x).accounts;
    SumWithout(m, a);
    if a in w.accounts {
      SumWithout(w.accounts, a);
      assert m - {a} == w.accounts - {a};
    } else {
      assert m - {a} == w.accounts;
    }
  }

  /** A credit that keeps the supply below 2^256 does not wrap. */
  lemma CreditTotal(w: World, a: Address, amount: uint256)
    requires Total(w) + amount < U256
    ensures Balance(AddBalance(w, a, amount), a) == Balance(w, a) + amount
    ensures Total(AddBalance(w, a, amount)) == Total(w) + amount
  {
    TotalPut(w, a, AddBalance(w, a, amount).accounts[a]);
  }

  lemma DebitTotal(w: World, a: Address, amount: uint256)
    requires amount <= Balance(w, a)
    ensures Balance(SubBalance(w, a, amount), a) == Balance(w, a) - amount
    ensures Total(SubBalance(w, a, amount)) == Total(w) - amount
  {
    TotalPut(w, a, SubBalance(w, a, amount).accounts[a]);
  }

  lemma TransferTotal(w: World, from: Address, to: Address, amount: uint256)
    requires CanTransfer(w, from, amount) && Total(w) < U256
    ensures Total(Transfer(w, from, to, amount)) == Total(w)
  {
    DebitTotal(w, from, amount);
    CreditTotal(SubBalance(w, from, amount), to, amount);
  }
}
