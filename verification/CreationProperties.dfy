/** What a contract creation guarantees, for every fair interpreter. */
module CreationProperties {
  import opened Words
  import opened World
  import opened Evm

  lemma EndowedKeeps(rules: Rules, w: World, caller: Address, address: Address, value: uint256)
    requires Total(w) < U256 && CanTransfer(w, caller, value) && caller != address
    ensures Total(Endowed(rules, w, caller, address, value)) == Total(w)
    ensures Nonce(Endowed(rules, w, caller, address, value), caller) == Nonce(w, caller)
  {
    var w1 := if Exist(w, address) then w else CreateAccount(w, address);
    TotalPut(w, address, EMPTY_ACCOUNT);
    assert Total(w1) == Total(w);
    var w2 := CreateContract(w1, address);
    TotalPut(w1, address, w2.accounts[address]);
    var w3 := if rules.eip158 then SetNonce(w2, address, 1) else w2;
    TotalPut(w2, address, SetNonce(w2, address, 1).accounts[address]);
    TransferTotal(w3, caller, address, value);
  }

  /** The init code runs in a world where the new account is a contract, has received the value from
      the caller, and under EIP-158 rules starts at nonce one. */
  lemma EndowedAccount(rules: Rules, w: World, caller: Address, address: Address, value: uint256)
    requires Balance(w, address) + value < U256 && CanTransfer(w, caller, value) && caller != address
    ensures var e := Endowed(rules, w, caller, address, value);
            && Get(e, caller) == Get(w, caller).(balance := Balance(w, caller) - value)
            && Get(e, address) == Get(w, address).(balance := Balance(w, address) + value, newContract := true,
                                                   nonce := if rules.eip158 then 1 else Nonce(w, address))
            && e.refund == w.refund
            && forall a :: a != caller && a != address ==> Get(e, a) == Get(w, a)
  {
    var w1 := if Exist(w, address) then w else CreateAccount(w, address);
    assert Get(w1, address) == Get(w, address);
  }

  /** Whatever becomes of the code a run returned, be it deployed, refused or rolled back: no gas or
      ether is gained or lost by it, and a signer the run left alone is left alone. */
  lemma DeployKeeps(rules: Rules, snapshots: bool, w: World, caller: Address, address: Address, value: uint256,
                    gas: uint64, run: ExecResult)
    requires Total(w) < U256 && CanTransfer(w, caller, value) && Nonce(w, caller) > 0 && !Occupied(w, address)
    requires run.gas <= gas && Keeps(address, Endowed(rules, w, caller, address, value), run.world)
    ensures var r := Deploy(rules, snapshots, w, address, run);
            && r.gas <= gas
            && Total(r.world) == Total(w)
            && forall a :: Undisturbed(w, r.world, a)
  {
    var e, r := Endowed(rules, w, caller, address, value), Deploy(rules, snapshots, w, address, run);
    EndowedKeeps(rules, w, caller, address, value);
    TotalPut(run.world, address, SetCode(run.world, address, run.ret).accounts[address]);
    forall a | Signer(w, a)
      ensures Signer(r.world, a) && Nonce(r.world, a) == Nonce(w, a)
    {
      assert a != address && Signer(e, a) && Nonce(e, a) == Nonce(w, a);
      assert Undisturbed(e, run.world, a);
    }
  }

  lemma BumpKeeps(w: World, caller: Address)
    requires Nonce(w, caller) + 1 < U64
    ensures Total(Bump(w, caller)) == Total(w) && Balance(Bump(w, caller), caller) == Balance(w, caller)
    ensures Nonce(Bump(w, caller), caller) == Nonce(w, caller) + 1
    ensures Get(Bump(w, caller), caller).code == Get(w, caller).code
    ensures forall a :: a != caller ==> Get(Bump(w, caller), a) == Get(w, a)
  {
    TotalPut(w, caller, Bump(w, caller).accounts[caller]);
  }

  /** A creation whose init code ran fairly returns no more gas than it got, keeps the supply and every
      signer but its caller, and raises the nonce of a caller without code by exactly one, whatever
      happens, unless it was refused up front. */
  lemma CreationIsFair(m: Machine, depth: nat, w: World, caller: Address, code: seq<byte>, gas: uint64,
                       value: uint256, address: Address)
    requires Fair(m.run) && Total(w) < U256
    ensures var r := Creation(m, depth, w, caller, code, gas, value, address);
            && r.gas <= gas
            && Keeps(caller, w, r.world)
            && (Get(w, caller).code == [] ==>
                && Get(r.world, caller).code == []
                && Nonce(r.world, caller)
                   == Nonce(w, caller) + (if Refusal(depth, w, caller, value).None? then 1 else 0))
  {
    if Refusal(depth, w, caller, value).None? {
      var w1 := Bump(w, caller);
      BumpKeeps(w, caller);
      var r := Creation(m, depth, w, caller, code, gas, value, address);
      if !Occupied(w1, address) {
        var e := Endowed(m.rules, w1, caller, address, value);
        var run := InitRun(m, w1, caller, address, code, gas, value);
        EndowedKeeps(m.rules, w1, caller, address, value);
        assert FairResult(e, Frame(caller, address, code, gas, value), run);
        DeployKeeps(m.rules, m.snapshots, w1, caller, address, value, gas, run);
        assert Undisturbed(w1, r.world, caller);
      }
      forall a | a != caller ensures Undisturbed(w, r.world, a) {
        assert Get(w1, a) == Get(w, a);
        assert Undisturbed(w1, r.world, a);
      }
    }
  }

  /** Code is deployed exactly when the init code succeeded, the code obeys the size limit and the
      0xEF ban of the active rules, and the per-byte deposit could be paid; and then it was paid. */
  lemma CreationDeploysIff(m: Machine, depth: nat, w: World, caller: Address, code: seq<byte>, gas: uint64,
                           value: uint256, address: Address)
    requires Runs(depth, w, caller, value, address)
    ensures var run := InitRun(m, Bump(w, caller), caller, address, code, gas, value);
            var r := Creation(m, depth, w, caller, code, gas, value, address);
            && (r.err.None? <==> && run.err.None?
                                 && (m.rules.eip158 ==> |run.ret| <= MAX_CODE_SIZE)
                                 && (m.rules.london && run.ret != [] ==> run.ret[0] != 0xEF)
                                 && DepositGas(run.ret) <= run.gas)
            && (r.err.None? ==> Get(r.world, address) == Get(run.world, address).(code := run.ret))
            && (r.err.None? ==> forall a :: a != address ==> Get(r.world, a) == Get(run.world, a))
            && (r.err.None? && (m.rules.eip158 || |run.ret| * CREATE_DATA_GAS < U64)
                ==> r.gas + |run.ret| * CREATE_DATA_GAS == run.gas)
  {
  }

  /** A failed creation that is rolled back leaves only the raised nonce when snapshots work, keeps
      its gas for a revert alone, and deploys nothing. The stub snapshot leaves the run's changes. */
  lemma FailedCreation(m: Machine, depth: nat, w: World, caller: Address, code: seq<byte>, gas: uint64,
                       value: uint256, address: Address)
    requires Runs(depth, w, caller, value, address)
    ensures var run := InitRun(m, Bump(w, caller), caller, address, code, gas, value);
            var r := Creation(m, depth, w, caller, code, gas, value, address);
            r.err.Some? ==>
              && (RollsBack(m.rules, r.err.value) ==>
                  && r.gas == (if r.err.value == ErrExecutionReverted then run.gas else 0)
                  && (m.snapshots ==> r.world == Bump(w, caller))
                  && (!m.snapshots ==> r.world == run.world))
              && (!RollsBack(m.rules, r.err.value) ==> r.world == run.world && r.gas == run.gas)
              && (m.rules.homestead ==> RollsBack(m.rules, r.err.value))
  {
  }

  /** Two hundred for each byte, as a word. */
  lemma DepositGasIs(code: seq<byte>)
    ensures DepositGas(code) == |code| * 200 % 0x1_0000_0000_0000_0000
  {
    WrapProduct(|code|, 200);
  }

  /** Which error a creation ends with once its init code ran: the run's own, then a code too long, then
      a code that starts with 0xEF, then a deposit that cannot be paid. What the run returned is handed
      on, and so is its gas if the run reverted or ran out of gas to store code before Homestead. */
  lemma CreationErrorIs(m: Machine, depth: nat, w: World, caller: Address, code: seq<byte>, gas: uint64,
                        value: uint256, address: Address)
    requires Runs(depth, w, caller, value, address)
    ensures var run := InitRun(m, Bump(w, caller), caller, address, code, gas, value);
            var r := Creation(m, depth, w, caller, code, gas, value, address);
            var tooLong := m.rules.eip158 && |run.ret| > 24576;
            var banned := m.rules.london && run.ret != [] && run.ret[0] == 0xEF;
            var unpaid := run.gas < |run.ret| * 200 % 0x1_0000_0000_0000_0000;
            && r.ret == run.ret
            && (run.err.Some? ==> r.err == run.err)
            && (run.err.None? && tooLong ==> r.err == Some(ErrMaxCodeSizeExceeded))
            && (run.err.None? && !tooLong && banned ==> r.err == Some(ErrInvalidCode))
            && (run.err.None? && !tooLong && !banned && unpaid ==> r.err == Some(ErrCodeStoreOutOfGas))
            && (run.err.None? && !tooLong && !banned && !unpaid ==> r.err == None)
            && (r.err.Some? ==>
                r.gas == if run.err == Some(ErrExecutionReverted) then run.gas
                         else if m.rules.homestead then 0
                         else if run.err == Some(ErrCodeStoreOutOfGas) then run.gas
                         else if run.err.None? && !tooLong && !banned then run.gas
                         else 0)
  {
    var run := InitRun(m, Bump(w, caller), caller, address, code, gas, value);
    DepositGasIs(run.ret);
  }

  /** The creations that stop before the init code runs: at too great a depth, without the value, or at
      the last nonce they change nothing and keep their gas; at an address with a nonce, code or storage
      they raise the caller's nonce and lose it. */
  lemma CreationStopsIff(m: Machine, depth: nat, w: World, caller: Address, code: seq<byte>, gas: uint64,
                         value: uint256, address: Address)
    ensures var r := Creation(m, depth, w, caller, code, gas, value, address);
            var poor := Get(w, caller).balance < value;
            var last := Get(w, caller).nonce == 0xFFFF_FFFF_FFFF_FFFF;
            var there := Get(w, address);
            var taken := there.nonce != 0 || there.code != [] || there.hasStorage || address == caller;
            && (depth > 1024 ==> r == ExecResult(w, [], gas, Some(ErrDepth)))
            && (depth <= 1024 && poor ==> r == ExecResult(w, [], gas, Some(ErrInsufficientBalance)))
            && (depth <= 1024 && !poor && last ==> r == ExecResult(w, [], gas, Some(ErrNonceUintOverflow)))
            && (depth <= 1024 && !poor && !last && taken ==>
                && r.ret == [] && r.gas == 0 && r.err == Some(ErrContractAddressCollision)
                && Get(r.world, caller) == Get(w, caller).(nonce := Get(w, caller).nonce + 1)
                && forall a :: a != caller ==> Get(r.world, a) == Get(w, a))
            && (depth <= 1024 && !poor && !last && !taken <==> Runs(depth, w, caller, value, address))
  {
  }

  /** The init code runs with the creation's own caller, address, code, gas and value: an interpreter that
      hands its frame back shows it. */
  lemma InitRunIsAsked(m: Machine, depth: nat, w: World, caller: Address, code: seq<byte>, gas: uint64,
                       value: uint256, address: Address)
    requires Runs(depth, w, caller, value, address)
    requires forall w, f {:trigger m.run(w, f)} ::
      m.run(w, f) == ExecResult(w, f.code, f.gas, Some(OtherError(f.caller + f.self + f.value)))
    ensures var r := Creation(m, depth, w, caller, code, gas, value, address);
            r.ret == code && r.err == Some(OtherError(caller + address + value)) && (!m.rules.homestead ==> r.gas == 0)
  {
  }

  /** Failing rolls everything back, whatever a fair run did, if and only if snapshots work and the
      rules are those of Homestead or later: before them an unpaid deposit leaves the run's changes. */
  lemma RestoresIff(rules: Rules, snapshots: bool, w: World, caller: Address, address: Address, value: uint256,
                    gas: uint64)
    requires Total(w) < U256 && CanTransfer(w, caller, value) && Nonce(w, caller) > 0 && !Occupied(w, address)
    ensures snapshots && rules.homestead <==>
      forall run: ExecResult ::
        (&& run.gas <= gas && Keeps(address, Endowed(rules, w, caller, address, value), run.world)
         && Verdict(rules, run).Some?)
        ==> Deploy(rules, snapshots, w, address, run).world == w
  {
    EndowedKeeps(rules, w, caller, address, value);
    var changed := SetNonce(w, address, 1);
    TotalPut(w, address, changed.accounts[address]);
    assert Nonce(changed, address) != Nonce(w, address);
    if !snapshots {
      var reverted := ExecResult(changed, [], 0, Some(ErrExecutionReverted));
      assert Deploy(rules, snapshots, w, address, reverted).world == changed;
    } else if !rules.homestead {
      var unpaid := ExecResult(changed, [0], 0, None);
      assert Verdict(rules, unpaid) == Some(ErrCodeStoreOutOfGas);
      assert Deploy(rules, snapshots, w, address, unpaid).world == changed;
    }
  }

  /** With the stub snapshot, a creation that fails after a run that left the new account's nonce alone
      never restores the world. */
  lemma StubSnapshotDoesNotRestore(m: Machine, depth: nat, w: World, caller: Address, code: seq<byte>, gas: uint64,
                                   value: uint256, address: Address)
    requires Runs(depth, w, caller, value, address) && !m.snapshots && m.rules.eip158 && m.rules.homestead
    requires Nonce(InitRun(m, Bump(w, caller), caller, address, code, gas, value).world, address) == 1
    ensures Creation(m, depth, w, caller, code, gas, value, address).err.Some?
            ==> Creation(m, depth, w, caller, code, gas, value, address).world != Bump(w, caller)
  {
  }

  /** The message call of the sources is still a stub that hands nothing back; with it, a machine is
      fair as soon as its interpreter is. */
  lemma StubCallIsFair(m: Machine)
    requires Fair(m.run) && forall w: World, f: Frame :: m.call(w, f) == ExecResult(w, [], 0, None)
    ensures FairMachine(m)
  {
  }
}
