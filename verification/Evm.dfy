/** Contract creation: the step-by-step method of the EVM, its outcome as a function of the
    world before, and what that outcome guarantees. Running the init code is abstract. */
module Evm {
  import opened Words
  import opened World

  const CALL_CREATE_DEPTH := 1024
  const MAX_CODE_SIZE := 24576
  const CREATE_DATA_GAS := 200

  datatype VmError =
    | ErrDepth | ErrInsufficientBalance | ErrNonceUintOverflow | ErrContractAddressCollision
    | ErrMaxCodeSizeExceeded | ErrInvalidCode | ErrCodeStoreOutOfGas | ErrExecutionReverted
    | ErrStackUnderflow(have: nat, required: nat) | ErrStackOverflow(have: nat, limit: nat)
    | ErrOutOfGas | ErrGasUintOverflow | ErrStopToken | OtherError(code: nat)

  /** What an execution leaves behind. */
  datatype ExecResult = ExecResult(world: World, ret: seq<byte>, gas: uint64, err: Option<VmError>)

  /** The contract environment an execution starts in. */
  datatype Frame = Frame(caller: Address, self: Address, code: seq<byte>, gas: uint64, value: uint256)

  datatype Rules = Rules(homestead: bool, eip158: bool, istanbul: bool, london: bool, shanghai: bool, cancun: bool)

  /** The rules of the block, the interpreter and the message call as black boxes, and the address
      derivation. `snapshots` says whether `RevertToSnapshot` restores the state (its interface)
      or does nothing (the stub). */
  datatype Machine = Machine(rules: Rules, snapshots: bool,
                             run: (World, Frame) -> ExecResult,
                             call: (World, Frame) -> ExecResult,
                             createAddress: (Address, uint64) -> Address)

  ghost predicate FairResult(w: World, f: Frame, r: ExecResult) {
    Total(w) < U256 ==> r.gas <= f.gas && Keeps(f.self, w, r.world)
  }

  /** What is assumed of an execution: it returns no more gas than it was given, moves ether without
      making or burning any, and leaves every signer alone but the account it runs for. */
  ghost predicate Fair(exec: (World, Frame) -> ExecResult) {
    forall w: World, f: Frame {:trigger exec(w, f)} :: FairResult(w, f, exec(w, f))
  }

  /** A message call runs the code its account has, so that it leaves that account alone too if it is
      a signer. */
  ghost predicate FairMachine(m: Machine) {
    && Fair(m.run)
    && Fair(m.call)
    && forall w: World, f: Frame {:trigger m.call(w, f)} :: Total(w) < U256 ==>
         Undisturbed(w, m.call(w, f).world, f.self)
  }

  /** Something already lives at the address: a nonce, code or storage. */
  predicate Occupied(w: World, a: Address) {
    Nonce(w, a) != 0 || Get(w, a).code != [] || Get(w, a).hasStorage
  }

  /** The world the init code runs in: the account exists as a new contract, and holds the value. */
  function Endowed(rules: Rules, w: World, caller: Address, address: Address, value: uint256): World {
    var w1 := if Exist(w, address) then w else CreateAccount(w, address);
    var w2 := CreateContract(w1, address);
    var w3 := if rules.eip158 then SetNonce(w2, address, 1) else w2;
    Transfer(w3, caller, address, value)
  }

  function DepositGas(code: seq<byte>): uint64 { Wrap64(Wrap64(|code|) * CREATE_DATA_GAS) }

  /** Why the code an init run returned is not deployed, if it is not. */
  function Verdict(rules: Rules, run: ExecResult): Option<VmError> {
    if run.err.Some? then run.err
    else if rules.eip158 && |run.ret| > MAX_CODE_SIZE then Some(ErrMaxCodeSizeExceeded)
    else if |run.ret| >= 1 && run.ret[0] == 0xEF && rules.london then Some(ErrInvalidCode)
    else if run.gas < DepositGas(run.ret) then Some(ErrCodeStoreOutOfGas)
    else None
  }

  /** Errors for which the state is rolled back; before Homestead an unpaid deposit is not one. */
  predicate RollsBack(rules: Rules, err: VmError) { rules.homestead || err != ErrCodeStoreOutOfGas }

  /** Why a creation stops before anything is changed. */
  function Refusal(depth: nat, w: World, caller: Address, value: uint256): Option<VmError> {
    if depth > CALL_CREATE_DEPTH then Some(ErrDepth)
    else if !CanTransfer(w, caller, value) then Some(ErrInsufficientBalance)
    else if Nonce(w, caller) + 1 >= U64 then Some(ErrNonceUintOverflow)
    else None
  }

  function Bump(w: World, caller: Address): World
    requires Nonce(w, caller) + 1 < U64
  {
    SetNonce(w, caller, Nonce(w, caller) + 1)
  }

  function InitRun(m: Machine, w: World, caller: Address, address: Address, code: seq<byte>, gas: uint64,
                   value: uint256): ExecResult
  {
    m.run(Endowed(m.rules, w, caller, address, value), Frame(caller, address, code, gas, value))
  }

  /** What becomes of a creation whose init code ran, from the world `w` that holds the bumped nonce. */
  function Deploy(rules: Rules, snapshots: bool, w: World, address: Address, run: ExecResult): ExecResult {
    match Verdict(rules, run)
    case None => ExecResult(SetCode(run.world, address, run.ret), run.ret, run.gas - DepositGas(run.ret), None)
    case Some(e) =>
      ExecResult(if RollsBack(rules, e) && snapshots then w else run.world,
                 run.ret,
                 if RollsBack(rules, e) && e != ErrExecutionReverted then 0 else run.gas,
                 Some(e))
  }

  /** Whether a creation gets as far as running the init code. */
  predicate Runs(depth: nat, w: World, caller: Address, value: uint256, address: Address) {
    Refusal(depth, w, caller, value).None? && !Occupied(Bump(w, caller), address)
  }

  /** The outcome of a creation that stops before the init code runs. */
  function Stopped(depth: nat, w: World, caller: Address, gas: uint64, value: uint256): ExecResult {
    var refusal := Refusal(depth, w, caller, value);
    if refusal.Some? then ExecResult(w, [], gas, refusal)
    else ExecResult(Bump(w, caller), [], 0, Some(ErrContractAddressCollision))
  }

  /** The outcome of a creation at a given address. */
  function Creation(m: Machine, depth: nat, w: World, caller: Address, code: seq<byte>, gas: uint64,
                    value: uint256, address: Address): ExecResult
  {
    if !Runs(depth, w, caller, value, address) then Stopped(depth, w, caller, gas, value)
    else
      var w1 := Bump(w, caller);
      Deploy(m.rules, m.snapshots, w1, address, InitRun(m, w1, caller, address, code, gas, value))
  }

  function NewAddress(m: Machine, w: World, caller: Address): Address {
    m.createAddress(caller, Nonce(w, caller))
  }

  /** The machine with its mutable world and call depth. */
  class EVM {
    var world: World
    var depth: nat
    const machine: Machine

    constructor (machine: Machine, world: World)
      ensures this.machine == machine && this.world == world && depth == 0
    {
      this.machine := machine;
      this.world := world;
      depth := 0;
    }

    /** The part of the creation after the init code has run. */
    method Finish(address: Address, snapshot: World, run: ExecResult)
      returns (contractGas: uint64, err: Option<VmError>)
      modifies this`world
      ensures ExecResult(world, run.ret, contractGas, err)
           == Deploy(machine.rules, machine.snapshots, snapshot, address, run)
    {
      world, err, contractGas := run.world, run.err, run.gas;
      if err.None? && machine.rules.eip158 && |run.ret| > MAX_CODE_SIZE {
        err := Some(ErrMaxCodeSizeExceeded);
      }
      if err.None? && |run.ret| >= 1 && run.ret[0] == 0xEF && machine.rules.london {
        err := Some(ErrInvalidCode);
      }
      if err.None? {
        var createDataGas := DepositGas(run.ret);
        if contractGas < createDataGas {
          err := Some(ErrCodeStoreOutOfGas);
        } else {
          contractGas := contractGas - createDataGas;
          world := SetCode(world, address, run.ret);
        }
      }
      assert err == Verdict(machine.rules, run);
      if err.Some? && (machine.rules.homestead || err != Some(ErrCodeStoreOutOfGas)) {
        if machine.snapshots {
          world := snapshot;
        }
        if err != Some(ErrExecutionReverted) {
          contractGas := 0;
        }
      }
    }

    method CreateAt(caller: Address, code: seq<byte>, gas: uint64, value: uint256, address: Address)
      returns (ret: seq<byte>, createAddress: Address, leftOverGas: uint64, err: Option<VmError>)
      modifies this`world
      ensures ExecResult(world, ret, leftOverGas, err)
           == Creation(machine, depth, old(world), caller, code, gas, value, address)
      ensures createAddress == if Runs(depth, old(world), caller, value, address) then address else 0
    {
      if depth > CALL_CREATE_DEPTH {
        return [], 0, gas, Some(ErrDepth);
      }
      if !CanTransfer(world, caller, value) {
        return [], 0, gas, Some(ErrInsufficientBalance);
      }
      var nonce: int := Nonce(world, caller);
      if Wrap64(nonce + 1) < nonce {
        return [], 0, gas, Some(ErrNonceUintOverflow);
      }
      world := SetNonce(world, caller, Wrap64(nonce + 1));
      if Nonce(world, address) != 0 || Get(world, address).code != [] || Get(world, address).hasStorage {
        return [], 0, 0, Some(ErrContractAddressCollision);
      }
      var snapshot := world;
      assert snapshot == Bump(old(world), caller);
      if !Exist(world, address) {
        world := CreateAccount(world, address);
      }
      world := CreateContract(world, address);
      if machine.rules.eip158 {
        world := SetNonce(world, address, 1);
      }
      world := Transfer(world, caller, address, value);
      assert world == Endowed(machine.rules, snapshot, caller, address, value);

      ghost var started := InitRun(machine, snapshot, caller, address, code, gas, value);
      var run := machine.run(world, Frame(caller, address, code, gas, value));
      assert run == started;
      leftOverGas, err := Finish(address, snapshot, run);
      return run.ret, address, leftOverGas, err;
    }

    method Create(caller: Address, code: seq<byte>, gas: uint64, value: uint256)
      returns (ret: seq<byte>, contractAddr: Address, leftOverGas: uint64, err: Option<VmError>)
      modifies this`world
      ensures var address := NewAddress(machine, old(world), caller);
              && ExecResult(world, ret, leftOverGas, err)
                 == Creation(machine, depth, old(world), caller, code, gas, value, address)
              && contractAddr == if Runs(depth, old(world), caller, value, address) then address else 0
    {
      contractAddr := machine.createAddress(caller, Nonce(world, caller));
      ret, contractAddr, leftOverGas, err := CreateAt(caller, code, gas, value, contractAddr);
    }
  }
}
