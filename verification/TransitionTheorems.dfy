/** The promises of the state transition: conservation of ether for signed transactions, exactly when
    an admitted sender can pay, and nonces and books over whole runs of messages. */
module TransitionTheorems {
  import opened Words
  import opened World
  import opened Intrinsic
  import opened Evm
  import opened Transition
  import opened TransitionProperties

  /** Applying a signed transaction under London rules burns exactly the base fee of the gas used and
      the blob fee; before London, or with fee checks off, only the blob fee. The sender may be the
      coinbase, and execution may be any fair one. The transaction is payable, which is exactly when
      admission guarantees that its sender can pay. */
  lemma EtherConservation(m: Machine, block: Block, depth: nat, w: World, pool: uint64, tx: Transaction,
                          baseFee: Option<nat>)
    requires FairMachine(m) && Total(w) < U256 && WellPriced(tx)
    requires baseFee == Some(block.baseFee) || (baseFee == None && !m.rules.london)
    requires Payable(m.rules, block, TransactionToMessage(tx, baseFee))
    ensures var msg := TransactionToMessage(tx, baseFee);
            var o := Applied(m, block, depth, w, pool, msg);
            o.result.Done? ==>
              Total(w) - Total(o.world)
              == (if m.rules.london && !FeesSkipped(block, msg) then o.result.usedGas * block.baseFee else 0)
                 + BlobFee(m.rules, block, msg)
  {
    var msg := TransactionToMessage(tx, baseFee);
    TransactionsAreSound(m.rules, block, tx, baseFee);
    OneMessage(m, block, depth, w, pool, msg);
    assert BurnPerGas(m.rules, block, msg)
           == if m.rules.london && !FeesSkipped(block, msg) then block.baseFee else 0;
  }

  lemma RequiredIsUnsigned(rules: Rules, block: Block, msg: Message)
    requires Sound(rules, block, msg)
    ensures 0 <= Required(rules, msg)
  {
    MulMono(msg.gasLimit, 0, msg.gasFeeCap);
    MulMono(BlobGasUsed(msg), 0, msg.blobGasFeeCap);
  }

  /** In particular if the fee of blobs that are charged for was checked. */
  lemma EtherConservationByBlobFee(m: Machine, block: Block, depth: nat, w: World, pool: uint64, tx: Transaction,
                                   baseFee: Option<nat>)
    requires FairMachine(m) && Total(w) < U256 && WellPriced(tx)
    requires baseFee == Some(block.baseFee) || (baseFee == None && !m.rules.london)
    requires BlobFeeEnforced(m.rules, block, TransactionToMessage(tx, baseFee))
    ensures var msg := TransactionToMessage(tx, baseFee);
            var o := Applied(m, block, depth, w, pool, msg);
            o.result.Done? ==>
              Total(w) - Total(o.world)
              == (if m.rules.london && !FeesSkipped(block, msg) then o.result.usedGas * block.baseFee else 0)
                 + BlobFee(m.rules, block, msg)
  {
    TransactionsAreSound(m.rules, block, tx, baseFee);
    EnforcedIsPayable(m.rules, block, TransactionToMessage(tx, baseFee));
    EtherConservation(m, block, depth, w, pool, tx, baseFee);
  }

  /** Exactly when admission guarantees that a sender can pay: when the charge and the value are within
      the balance it requires. `msg` is any sound message that some world admits. */
  lemma AffordableIff(rules: Rules, block: Block, msg: Message)
    requires Sound(rules, block, msg) && exists w :: Admission(rules, block, w, msg).None?
    ensures (forall w :: Admission(rules, block, w, msg).None?
                         ==> Charge(rules, block, msg) + msg.value <= Balance(w, msg.from))
            <==> Charge(rules, block, msg) + msg.value <= Required(rules, msg)
  {
    var admitted :| Admission(rules, block, admitted, msg).None?;
    assert FeeError(rules, block, msg).None? && BlobError(rules, block, msg).None?;
    assert FundsError(rules, admitted, msg).None?;
    RequiredIsUnsigned(rules, block, msg);
    if Charge(rules, block, msg) + msg.value > Required(rules, msg) {
      var w := World(map[msg.from := Account(msg.nonce, Required(rules, msg), [], false, false)], 0);
      assert AccountError(admitted, msg).None?;
      assert Admission(rules, block, w, msg).None?;
    }
  }

  /** That is so for every message when blobs that are charged for have their fee checked; and for one
      that pays its full cap, only then. */
  lemma AffordableByBlobFee(rules: Rules, block: Block, msg: Message)
    requires Sound(rules, block, msg) && BlobError(rules, block, msg).None?
    ensures BlobFeeEnforced(rules, block, msg) ==> Charge(rules, block, msg) + msg.value <= Required(rules, msg)
    ensures msg.gasPrice == msg.gasFeeCap ==>
      (Charge(rules, block, msg) + msg.value <= Required(rules, msg) <==> BlobFeeEnforced(rules, block, msg))
  {
    if BlobFeeEnforced(rules, block, msg) {
      EnforcedIsPayable(rules, block, msg);
    } else {
      MulMono(BlobGasUsed(msg), 1, block.blobBaseFee);
    }
  }

  /** The unchecked blob fee at work: a penniless sender is admitted, and its balance wraps around. */
  lemma SkippedBlobFeeMintsEther()
    ensures var block := Block(0, 0, 1, true);
            var rules := Rules(true, true, true, true, true, true);
            var msg := Message(Some(5), 7, 0, 0, 21000, 0, 0, 0, [], None, 0, Some([Hash(1, 0)]), false);
            var w := World(map[], 0);
            Admission(rules, block, w, msg).None?
            && Balance(Debited(rules, block, w, msg), 7) == U256 - BLOB_GAS_PER_BLOB
  {
    var hashes := [Hash(1, 0)];
    assert hashes[..0] == [];
  }

  /** Messages sent by transactions, ready for the theorems over runs. */
  ghost predicate AllSound(rules: Rules, block: Block, msgs: seq<Message>) {
    forall i :: 0 <= i < |msgs| ==> Sound(rules, block, msgs[i]) && Payable(rules, block, msgs[i])
  }

  predicate AllChecked(msgs: seq<Message>) { forall i :: 0 <= i < |msgs| ==> !msgs[i].skipAccountChecks }

  /** The outcomes of a run of messages; a panic ends the run. */
  function Run(m: Machine, block: Block, depth: nat, w: World, pool: uint64, msgs: seq<Message>): (run: seq<Outcome>)
    ensures |run| <= |msgs|
    decreases |msgs|
  {
    if msgs == [] then []
    else
      var o := Applied(m, block, depth, w, pool, msgs[0]);
      [o] + (if o.result.Panicked? then [] else Run(m, block, depth, o.world, o.pool, msgs[1..]))
  }

  function FinalWorld(w: World, run: seq<Outcome>): World {
    if run == [] then w else run[|run| - 1].world
  }

  function FinalPool(pool: uint64, run: seq<Outcome>): uint64 {
    if run == [] then pool else run[|run| - 1].pool
  }

  lemma SettledLeavesNonces(rules: Rules, block: Block, pool: uint64, msg: Message, x: ExecResult, a: Address)
    ensures var w := Settled(rules, block, pool, msg, x).world;
            Nonce(w, a) == Nonce(x.world, a) && Get(w, a).code == Get(x.world, a).code
  {
  }

  /** What a message does to nonces, on both paths and whatever error the execution ended with: an
      accepted one raises its sender's from the message's own by one and leaves every other signer
      alone, a rejected one changes none. */
  lemma NonceStep(m: Machine, block: Block, depth: nat, w: World, pool: uint64, msg: Message)
    requires FairMachine(m) && Total(w) < U256 && depth <= CALL_CREATE_DEPTH
    requires Sound(m.rules, block, msg) && Payable(m.rules, block, msg) && !msg.skipAccountChecks
    ensures var o := Applied(m, block, depth, w, pool, msg);
            match o.result
            case Done(_, _, _, _) =>
              && Nonce(w, msg.from) == msg.nonce && Get(w, msg.from).code == []
              && Nonce(o.world, msg.from) == msg.nonce + 1 && Get(o.world, msg.from).code == []
              && forall a :: a != msg.from ==> Undisturbed(w, o.world, a)
            case Rejected(_) =>
              forall a :: Nonce(o.world, a) == Nonce(w, a) && Get(o.world, a).code == Get(w, a).code
            case Panicked => true
  {
    if Admission(m.rules, block, w, msg).None? {
      var w1 := Debited(m.rules, block, w, msg);
      AdmittedIsAffordable(m.rules, block, w, msg);
      LateErrorsAreNotFunds(m.rules, block, w, msg);
      assert AccountError(w, msg).None?;
      if LateError(m.rules, w1, msg).None? {
        TotalPut(w, msg.from, Get(w, msg.from));
        var gas := msg.gasLimit - IntrinsicOf(m.rules, msg).value;
        var x := Execution(m, depth, w1, msg, gas);
        ExecutionIsFair(m, depth, w1, msg, gas);
        var o := Settled(m.rules, block, pool, msg, x);
        AppliedIsSettled(m, block, depth, w, pool, msg);
        forall a
          ensures Nonce(o.world, a) == Nonce(x.world, a) && Get(o.world, a).code == Get(x.world, a).code
          ensures a != msg.from ==> Undisturbed(w, o.world, a)
        {
          SettledLeavesNonces(m.rules, block, pool, msg, x, a);
          assert Undisturbed(w, w1, a);
          assert a != msg.from ==> Undisturbed(w1, x.world, a);
        }
      }
    }
  }

  /** The nonces of the accepted messages of `a`, in the order of acceptance. */
  function AcceptedNonces(run: seq<Outcome>, msgs: seq<Message>, a: Address): seq<uint64>
    requires |run| <= |msgs|
  {
    if run == [] then []
    else (if run[0].result.Done? && msgs[0].from == a then [msgs[0].nonce] else [])
         + AcceptedNonces(run[1..], msgs[1..], a)
  }

  lemma AcceptedCons(o: Outcome, rest: seq<Outcome>, msgs: seq<Message>, a: Address)
    requires |rest| < |msgs|
    ensures AcceptedNonces([o] + rest, msgs, a)
         == (if o.result.Done? && msgs[0].from == a then [msgs[0].nonce] else []) + AcceptedNonces(rest, msgs[1..], a)
  {
    assert ([o] + rest)[1..] == rest;
  }

  lemma MessageMovesNonce(m: Machine, block: Block, depth: nat, w: World, pool: uint64, msg: Message, a: Address)
    requires FairMachine(m) && Total(w) < U256 && depth <= CALL_CREATE_DEPTH
    requires Sound(m.rules, block, msg) && Payable(m.rules, block, msg) && !msg.skipAccountChecks
    ensures var o := Applied(m, block, depth, w, pool, msg);
            !o.result.Panicked? ==>
              && Total(o.world) < U256
              && if o.result.Done? && msg.from == a
                 then msg.nonce == Nonce(w, a) && Signer(o.world, a) && Nonce(o.world, a) == msg.nonce + 1
                 else Undisturbed(w, o.world, a)
  {
    OneMessage(m, block, depth, w, pool, msg);
    NonceStep(m, block, depth, w, pool, msg);
  }

  predicate Consecutive(nonces: seq<uint64>) { forall i :: 0 <= i < |nonces| ==> nonces[i] == nonces[0] + i }

  lemma ConsecutiveCons(first: uint64, rest: seq<uint64>)
    requires Consecutive(rest) && (rest != [] ==> rest[0] == first + 1)
    ensures Consecutive([first] + rest)
  {
  }

  /** Over any run, the accepted messages of an account carry consecutive nonces: none is skipped, and
      none is accepted twice. The first carries the nonce of the account at the start, if it was in use
      by then; whatever others run or create, only its own messages move it on. */
  lemma {:induction false} NoncesAreConsecutive(m: Machine, block: Block, depth: nat, w: World, pool: uint64,
                                                msgs: seq<Message>, a: Address)
    requires FairMachine(m) && Total(w) < U256 && depth <= CALL_CREATE_DEPTH
    requires AllSound(m.rules, block, msgs) && AllChecked(msgs)
    ensures var run := Run(m, block, depth, w, pool, msgs);
            |run| <= |msgs| &&
            var nonces := AcceptedNonces(run, msgs, a);
            && Consecutive(nonces)
            && (nonces != [] && Signer(w, a) ==> nonces[0] == Nonce(w, a))
    decreases |msgs|
  {
    if msgs == [] {
    } else {
      var o := Applied(m, block, depth, w, pool, msgs[0]);
      MessageMovesNonce(m, block, depth, w, pool, msgs[0], a);
      var rest := if o.result.Panicked? then [] else Run(m, block, depth, o.world, o.pool, msgs[1..]);
      if !o.result.Panicked? {
        NoncesAreConsecutive(m, block, depth, o.world, o.pool, msgs[1..], a);
      }
      AcceptedCons(o, rest, msgs, a);
      if o.result.Done? && msgs[0].from == a {
        ConsecutiveCons(msgs[0].nonce, AcceptedNonces(rest, msgs[1..], a));
      }
    }
  }

  function Losses(rules: Rules, block: Block, w: World, run: seq<Outcome>, msgs: seq<Message>): int
    requires |run| <= |msgs|
    decreases |run|
  {
    if run == [] then 0
    else Loss(rules, block, w, msgs[0], run[0].result) + Losses(rules, block, run[0].world, run[1..], msgs[1..])
  }

  function GasBought(msgs: seq<Message>): nat {
    if msgs == [] then 0 else msgs[0].gasLimit + GasBought(msgs[1..])
  }

  function Leftover(o: Outcome, msg: Message): int {
    if o.result.Done? then msg.gasLimit - o.result.usedGas else 0
  }

  function Leftovers(run: seq<Outcome>, msgs: seq<Message>): int
    requires |run| <= |msgs|
  {
    if run == [] then 0
    else Leftover(run[0], msgs[0]) + Leftovers(run[1..], msgs[1..])
  }

  lemma OneMessageBooks(m: Machine, block: Block, depth: nat, w: World, pool: uint64, msg: Message)
    requires FairMachine(m) && Total(w) < U256 && !OverpricedButFree(m.rules, msg) && pool + msg.gasLimit <= MAX_UINT64
    requires Sound(m.rules, block, msg) && Payable(m.rules, block, msg)
    ensures var o := Applied(m, block, depth, w, pool, msg);
            && !o.result.Panicked?
            && 0 <= Leftover(o, msg) <= msg.gasLimit
            && o.pool == pool + Leftover(o, msg)
            && 0 <= Loss(m.rules, block, w, msg, o.result) == Total(w) - Total(o.world)
  {
    OneMessage(m, block, depth, w, pool, msg);
  }

  lemma BooksCons(rules: Rules, block: Block, w: World, pool: uint64, o: Outcome, rest: seq<Outcome>,
                  msgs: seq<Message>)
    requires |rest| < |msgs|
    ensures FinalWorld(w, [o] + rest) == FinalWorld(o.world, rest)
    ensures FinalPool(pool, [o] + rest) == FinalPool(o.pool, rest)
    ensures Losses(rules, block, w, [o] + rest, msgs)
         == Loss(rules, block, w, msgs[0], o.result) + Losses(rules, block, o.world, rest, msgs[1..])
    ensures Leftovers([o] + rest, msgs)
         == Leftover(o, msgs[0]) + Leftovers(rest, msgs[1..])
  {
    assert ([o] + rest)[1..] == rest;
  }

  /** Over any run whose gas limits fit in the pool: no message panics, the pool ends with the start
      and all leftovers, never less than it began with, and the supply falls by the sum of losses. */
  lemma {:induction false} RunBooks(m: Machine, block: Block, depth: nat, w: World, pool: uint64, msgs: seq<Message>)
    requires FairMachine(m) && Total(w) < U256 && AllSound(m.rules, block, msgs)
    requires forall i :: 0 <= i < |msgs| ==> !OverpricedButFree(m.rules, msgs[i])
    requires pool + GasBought(msgs) <= MAX_UINT64
    ensures var run := Run(m, block, depth, w, pool, msgs);
            && |run| == |msgs|
            && (forall i :: 0 <= i < |run| ==> !run[i].result.Panicked?)
            && FinalPool(pool, run) == pool + Leftovers(run, msgs)
            && 0 <= Leftovers(run, msgs) <= GasBought(msgs)
            && Total(FinalWorld(w, run)) == Total(w) - Losses(m.rules, block, w, run, msgs)
    decreases |msgs|
  {
    if msgs == [] {
    } else {
      var o := Applied(m, block, depth, w, pool, msgs[0]);
      OneMessageBooks(m, block, depth, w, pool, msgs[0]);
      var rest := Run(m, block, depth, o.world, o.pool, msgs[1..]);
      RunBooks(m, block, depth, o.world, o.pool, msgs[1..]);
      BooksCons(m.rules, block, w, pool, o, rest, msgs);
    }
  }
}
