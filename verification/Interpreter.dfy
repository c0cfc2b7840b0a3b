/** The interpreter: the loop over a frame, with the call depth, the read-only flag and the register
    pool it shares with the frames it nests. */
module Interpreter {
  import opened Words
  import opened World
  import opened Evm
  import opened RegPool
  import opened Frames

  class Memory {
    var store: seq<byte>

    constructor ()
      ensures store == []
    {
      store := [];
    }

    method Resize(size: uint64)
      modifies this
      ensures store == Grown(old(store), size)
    {
      if |store| < size {
        store := store + seq(size - |store|, i => 0);
      }
    }
  }

  class Contract {
    const self: Address
    const code: seq<byte>
    var gas: uint64

    constructor (self: Address, code: seq<byte>, gas: uint64)
      ensures this.self == self && this.code == code && this.gas == gas
    {
      this.self, this.code, this.gas := self, code, gas;
    }

    method UseGas(amount: uint64) returns (ok: bool)
      modifies this
      ensures ok <==> amount <= old(gas)
      ensures gas == if ok then old(gas) - amount else old(gas)
    {
      if gas < amount {
        return false;
      }
      gas := gas - amount;
      ok := true;
    }

    function GetOp(n: uint64): byte { OpAt(code, n) }
  }

  /** One call of `Run`, as seen just after its flags are set. */
  datatype Entry = Entry(depth: nat, readOnly: bool)

  /** The entries made while a frame at `depth` runs: all deeper, none beyond the limit, and none
      writable below a read-only one. */
  ghost predicate Disciplined(before: seq<Entry>, after: seq<Entry>, depth: nat, readOnly: bool) {
    && before <= after
    && forall i :: |before| <= i < |after| ==>
         && depth < after[i].depth <= CALL_CREATE_DEPTH + 1
         && (readOnly ==> after[i].readOnly)
  }

  lemma StillDisciplined(first: seq<Entry>, second: seq<Entry>, third: seq<Entry>, depth: nat, readOnly: bool)
    requires Disciplined(first, second, depth, readOnly) && Disciplined(second, third, depth, readOnly)
    ensures Disciplined(first, third, depth, readOnly)
  {
  }

  /** What a frame one level down enters in the log is in order for this frame too. */
  lemma NestedDisciplined(before: seq<Entry>, after: seq<Entry>, depth: nat, readOnly: bool, ro: bool)
    requires depth <= CALL_CREATE_DEPTH && (readOnly ==> ro)
    requires Disciplined(before + [Entry(depth + 1, ro)], after, depth + 1, ro)
    ensures Disciplined(before, after, depth, readOnly)
  {
    var longer := before + [Entry(depth + 1, ro)];
    assert after[|before|] == longer[|before|];
    assert before <= longer;
  }

  /** How a call of `Run` ends: with a result, or in the panic of the register pool. */
  datatype RunResult = Returned(ret: seq<byte>, err: Option<VmError>) | Panicked

  /** How running `code` from `start` ends: in an outcome of the frame, with every step in the pool, or
      in a panic of the frame. */
  ghost predicate Ends(chain: Chain, code: seq<byte>, start: View, trace: seq<StepRecord>, res: RunResult,
                       gas: uint64, env: Env, list: seq<RegKey>)
  {
    match res
    case Panicked => FramePanics(chain, code, start)
    case Returned(ret, err) =>
      && FrameOutcome(chain, code, start, FrameResult(env, ret, gas, err))
      && (code != [] ==> Ran(chain, code, start, trace, FrameResult(env, ret, gas, err), list))
  }

  /** Bounds on the calls still to come, within a frame and of `Run`: there are none beyond the limit. */
  function FrameRank(depth: nat): nat { if depth <= CALL_CREATE_DEPTH then 2 * Rank(depth) + 1 else 0 }

  function RunRank(depth: nat): nat { if depth <= CALL_CREATE_DEPTH then 2 * Rank(depth) else 1 }

  class Interpreter {
    const chain: Chain
    const pool: RegPool
    var depth: nat
    var readOnly: bool
    var returnData: seq<byte>
    var env: Env
    ghost var log: seq<Entry>

    constructor (chain: Chain, pool: RegPool, env: Env)
      ensures this.chain == chain && this.pool == pool && this.env == env
      ensures depth == 0 && !readOnly && log == []
    {
      this.chain, this.pool, this.env := chain, pool, env;
      depth, readOnly, returnData, log := 0, false, [], [];
    }

    function See(contract: Contract, mem: Memory, pc: uint64, stack: seq<nat>, reg: nat): View
      reads this, contract, mem
    {
      View(env, contract.self, pc, contract.gas, stack, mem.store, depth, readOnly, returnData, reg)
    }

    /** The view the loop goes on with after the outcome `o`. */
    function Ahead(contract: Contract, mem: Memory, o: StepOutcome): View
      reads this, contract, mem
    {
      See(contract, mem, Wrap64(1 + o.pc as int), o.stack, 0)
    }

    /** The checks and charges that precede an operation. */
    method Charge(op: Operation, contract: Contract, mem: Memory, pc: uint64, stack: seq<nat>) returns (c: Charges)
      modifies contract, mem
      ensures c == ChargesOf(op, old(See(contract, mem, pc, stack, 0)))
      ensures contract.gas == old(contract.gas) - c.constant - (if c.Paid? then c.dynamic else 0)
      ensures mem.store == if c.Paid? then Grown(old(mem.store), c.size) else old(mem.store)
    {
      if |stack| < op.minStack {
        return Refused(ErrStackUnderflow(|stack|, op.minStack), 0);
      } else if |stack| > op.maxStack {
        return Refused(ErrStackOverflow(|stack|, op.maxStack), 0);
      }
      var ok := contract.UseGas(op.constantGas);
      if !ok {
        return Refused(ErrOutOfGas, 0);
      }
      c := Paid(op.constantGas, 0, 0, 0);
      if op.dynamicGas.Some? {
        var memSize, memorySize: uint64 := 0, 0;
        var view := See(contract, mem, pc, stack, 0);
        if op.memorySize.Some? {
          var (size, overflow) := op.memorySize.value(view);
          if overflow {
            return Refused(ErrGasUintOverflow, op.constantGas);
          }
          var rounded := RoundUp(size);
          if rounded.None? {
            return Refused(ErrGasUintOverflow, op.constantGas);
          }
          memSize, memorySize := size, rounded.value;
        }
        var cost := op.dynamicGas.value(view, memorySize);
        if cost.None? {
          return Refused(ErrOutOfGas, op.constantGas);
        }
        ok := contract.UseGas(cost.value);
        if !ok {
          return Refused(ErrOutOfGas, op.constantGas);
        }
        if memorySize > 0 {
          mem.Resize(memorySize);
        }
        c := Paid(op.constantGas, cost.value, memSize, memorySize);
      }
    }

    /** Appends the register and executes the operation, paid for in the frame `before`; None is a panic. */
    method Perform(opcode: byte, contract: Contract, mem: Memory, pc: uint64, stack: seq<nat>, ghost before: View)
      returns (o: Option<StepOutcome>)
      requires pool.Valid() && MeteredTable(chain.table) && ChargesOf(chain.table(opcode), before).Paid?
      requires See(contract, mem, pc, stack, |pool.regkeyList|)
            == Ready(chain.table(opcode), before, |pool.regkeyList|)
      requires forall x :: x in stack ==> x < |pool.regkeyList|
      modifies this, pool
      ensures depth == old(depth) && readOnly == old(readOnly)
      ensures Disciplined(old(log), log, depth, readOnly)
      ensures Grew(old(pool.regkeyList), pool.regkeyList)
      ensures chain.table(opcode).minStack > MAX_PARAMS ==> o.None?
      ensures o.None? ==>
        OperationPanics(chain, chain.table(opcode), old(See(contract, mem, pc, stack, |pool.regkeyList|)))
      ensures o.Some? ==>
        var me := |old(pool.regkeyList)|;
        && pool.Valid()
        && me < |pool.regkeyList|
        && pool.regkeyList[me].index
           == Index(Wrap64(depth), pc, Wrap64(Visits(old(pool.regkeyList), Wrap64(depth), pc)))
        && Wired(pool.regkeyList[me].reg, stack, chain.table(opcode).minStack)
        && Performed(chain, chain.table(opcode), old(See(contract, mem, pc, stack, me)), o.value)
      decreases FrameRank(depth), 2
    {
      var op := chain.table(opcode);
      PaidIsCovered(op, before);
      var reg := pool.Append(pc, Wrap64(depth), stack, op.minStack);
      if reg.None? {
        return None;
      }
      var view := See(contract, mem, pc, stack, reg.value);
      assert MeteredEffect(op, before.gas, Ready(op, before, reg.value), op.execute(view));
      match op.execute(view)
      case Direct(outcome) => o := Some(outcome);
      case Nested(call, resume) =>
        var nested := Nest(view, call);
        if nested.None? {
          return None;
        }
        o := Some(resume(nested.value));
    }

    /** Takes over what the operation of the iteration `r` leaves behind. */
    method TakeOver(o: StepOutcome, contract: Contract, mem: Memory, ghost r: StepRecord)
      requires r.end == Stepped(o) && r.at.self == contract.self && r.at.depth == depth && r.at.readOnly == readOnly
      modifies this`env, this`returnData, contract, mem
      ensures env == o.env && contract.gas == o.gas && mem.store == o.mem && returnData == o.returnData
      ensures Ahead(contract, mem, o) == Next(r)
    {
      env, contract.gas, mem.store, returnData := o.env, o.gas, o.mem, o.returnData;
    }

    /** Performs the operation and takes over what it leaves behind; None is a panic. */
    method Advance(opcode: byte, contract: Contract, mem: Memory, pc: uint64, stack: seq<nat>, ghost before: View)
      returns (o: Option<StepOutcome>, ghost r: StepRecord)
      requires pool.Valid() && MeteredTable(chain.table) && ChargesOf(chain.table(opcode), before).Paid?
      requires See(contract, mem, pc, stack, |pool.regkeyList|)
            == Ready(chain.table(opcode), before, |pool.regkeyList|)
      requires forall x :: x in stack ==> x < |pool.regkeyList|
      modifies this, pool, contract, mem
      ensures depth == old(depth) && readOnly == old(readOnly)
      ensures Disciplined(old(log), log, depth, readOnly)
      ensures Grew(old(pool.regkeyList), pool.regkeyList)
      ensures o.None? ==>
        OperationPanics(chain, chain.table(opcode), old(See(contract, mem, pc, stack, |pool.regkeyList|)))
      ensures o.Some? ==>
        && pool.Valid()
        && r.op == opcode && r.before == before && r.end == Stepped(o.value)
        && r.at == old(See(contract, mem, pc, stack, |pool.regkeyList|))
        && r.at.reg < |pool.regkeyList| && RegisterOf(chain, r, pool.regkeyList[r.at.reg])
        && Performed(chain, chain.table(opcode), r.at, o.value)
        && env == o.value.env && contract.gas == o.value.gas
        && Ahead(contract, mem, o.value) == Next(r)
      decreases FrameRank(depth), 3
    {
      ghost var at := See(contract, mem, pc, stack, |pool.regkeyList|);
      o := Perform(opcode, contract, mem, pc, stack, before);
      r := StepRecord(opcode, before, at, if o.Some? then Stepped(o.value) else Failed(ErrStopToken));
      if o.Some? {
        TakeOver(o.value, contract, mem, r);
      }
    }

    /** One iteration of the loop, with its record; false is a panic. */
    method Iterate(contract: Contract, mem: Memory, pc: uint64, stack: seq<nat>)
      returns (ok: bool, end: Iteration, ghost r: StepRecord)
      requires pool.Valid() && MeteredTable(chain.table)
      requires forall x :: x in stack ==> x < |pool.regkeyList|
      modifies this, pool, contract, mem
      ensures depth == old(depth) && readOnly == old(readOnly)
      ensures Disciplined(old(log), log, depth, readOnly)
      ensures Grew(old(pool.regkeyList), pool.regkeyList)
      ensures !ok ==> IterationPanics(chain, contract.code, old(See(contract, mem, pc, stack, 0)))
      ensures ok ==>
        && pool.Valid()
        && r.before == old(See(contract, mem, pc, stack, 0)) && r.end == end
        && Legal(chain, contract.code, r)
        && FrameResult(env, RetOf(end), contract.gas, ErrOf(end)) == ResultOf(r)
      ensures ok && end.Stepped? ==>
        && Ahead(contract, mem, end.outcome) == Next(r)
        && r.at.reg == |old(pool.regkeyList)| < |pool.regkeyList|
        && RegisterOf(chain, r, pool.regkeyList[r.at.reg])
      decreases FrameRank(depth), 4
    {
      var opcode := contract.GetOp(pc);
      ghost var before := See(contract, mem, pc, stack, 0);
      PaidIsCovered(chain.table(opcode), before);
      var c := Charge(chain.table(opcode), contract, mem, pc, stack);
      if c.Refused? {
        end := Failed(c.error);
        return true, end, StepRecord(opcode, before, See(contract, mem, pc, stack, 0), end);
      }
      var o;
      o, r := Advance(opcode, contract, mem, pc, stack, before);
      ok, end := o.Some?, if o.Some? then Stepped(o.value) else Failed(ErrStopToken);
    }

    /** One iteration of a run from `start`, which goes on or ends with it. */
    method Turn(contract: Contract, mem: Memory, pc: uint64, stack: seq<nat>, ghost start: View,
                ghost trace: seq<StepRecord>)
      returns (ok: bool, end: Iteration, ghost longer: seq<StepRecord>)
      requires pool.Valid() && MeteredTable(chain.table)
      requires forall x :: x in stack ==> x < |pool.regkeyList|
      requires Running(chain, contract.code, start, trace, See(contract, mem, pc, stack, 0), pool.regkeyList)
      modifies this, pool, contract, mem
      ensures depth == old(depth) && readOnly == old(readOnly)
      ensures Disciplined(old(log), log, depth, readOnly)
      ensures Grew(old(pool.regkeyList), pool.regkeyList)
      ensures !ok ==> IterationPanics(chain, contract.code, old(See(contract, mem, pc, stack, 0)))
      ensures ok ==> pool.Valid()
      ensures ok && end.Stepped? && end.outcome.err.None? ==>
        var o := end.outcome;
        && contract.gas < old(contract.gas)
        && (forall x :: x in o.stack ==> x < |pool.regkeyList|)
        && Running(chain, contract.code, start, longer, See(contract, mem, Wrap64(1 + o.pc as int), o.stack, 0),
                   pool.regkeyList)
      ensures ok && (end.Failed? || end.outcome.err.Some?) ==>
        Ran(chain, contract.code, start, longer, FrameResult(env, RetOf(end), contract.gas, ErrOf(end)),
            pool.regkeyList)
      decreases FrameRank(depth), 5
    {
      ghost var keysBefore := pool.regkeyList;
      ghost var r;
      ok, end, r := Iterate(contract, mem, pc, stack);
      if ok {
        if GoesOn(r) { StackStaysPooled(chain, contract.code, r, |keysBefore|); }
        RunningSteps(chain, contract.code, start, trace, keysBefore, r, pool.regkeyList);
      }
      longer := trace + [r];
    }

    /** The loop of one frame, with the record of its execution. */
    method Loop(contract: Contract) returns (res: RunResult, ghost trace: seq<StepRecord>)
      requires pool.Valid() && MeteredTable(chain.table) && contract.code != []
      modifies this, pool, contract
      ensures depth == old(depth) && readOnly == old(readOnly)
      ensures Disciplined(old(log), log, depth, readOnly)
      ensures Grew(old(pool.regkeyList), pool.regkeyList)
      ensures res.Returned? ==> pool.Valid()
      ensures var start := View(old(env), contract.self, 0, old(contract.gas), [], [], depth, readOnly,
                                old(returnData), 0);
        if res.Panicked? then FramePanics(chain, contract.code, start)
        else Ran(chain, contract.code, start, trace, FrameResult(env, res.ret, contract.gas, res.err), pool.regkeyList)
      decreases FrameRank(depth), 6
    {
      var mem := new Memory();
      var stack: seq<nat> := [];
      var pc: uint64 := 0;
      ghost var start := See(contract, mem, pc, stack, 0);
      trace := [];
      while true
        invariant depth == old(depth) && readOnly == old(readOnly)
        invariant Disciplined(old(log), log, depth, readOnly)
        invariant Grew(old(pool.regkeyList), pool.regkeyList) && pool.Valid()
        invariant forall x :: x in stack ==> x < |pool.regkeyList|
        invariant Running(chain, contract.code, start, trace, See(contract, mem, pc, stack, 0), pool.regkeyList)
        decreases contract.gas
      {
        ghost var logBefore, keysBefore := log, pool.regkeyList;
        ghost var earlier := trace;
        var ok, end;
        ok, end, trace := Turn(contract, mem, pc, stack, start, trace);
        StillDisciplined(old(log), logBefore, log, depth, readOnly);
        StillGrew(old(pool.regkeyList), keysBefore, pool.regkeyList);
        if !ok {
          assert FramePanics(chain, contract.code, start) by { assert Open(earlier); }
          return Panicked, trace;
        }
        if end.Failed? || end.outcome.err.Some? {
          return Returned(RetOf(end), ErrOf(end)), trace;
        }
        stack, pc := end.outcome.stack, Wrap64(1 + end.outcome.pc as int);
      }
    }

    /** The frame once its flags are set: nothing happens without code. */
    method Enter(contract: Contract) returns (res: RunResult, ghost trace: seq<StepRecord>)
      requires pool.Valid() && MeteredTable(chain.table)
      modifies this, pool, contract
      ensures depth == old(depth) && readOnly == old(readOnly)
      ensures Disciplined(old(log), log, depth, readOnly)
      ensures Grew(old(pool.regkeyList), pool.regkeyList)
      ensures res.Returned? ==> pool.Valid()
      ensures var start := View(old(env), contract.self, 0, old(contract.gas), [], [], depth, readOnly,
                                old(returnData), 0);
              Ends(chain, contract.code, start, trace, res, contract.gas, env, pool.regkeyList)
      decreases FrameRank(depth), 7
    {
      if |contract.code| == 0 {
        res, trace := Returned([], None), [];
      } else {
        res, trace := Loop(contract);
      }
    }

    /** Runs a contract in a frame of its own, at any depth. The flags are put back on every exit, a
        panic included. */
    method Run(contract: Contract, readOnlyCall: bool) returns (res: RunResult, ghost trace: seq<StepRecord>)
      requires pool.Valid() && MeteredTable(chain.table)
      modifies this, pool, contract
      ensures depth == old(depth) && readOnly == old(readOnly)
      ensures var ro := readOnly || readOnlyCall;
              Disciplined(old(log) + [Entry(depth + 1, ro)], log, depth + 1, ro)
      ensures Grew(old(pool.regkeyList), pool.regkeyList)
      ensures res.Returned? ==> pool.Valid()
      ensures FitsRegisters(chain.table) ==> res.Returned?
      ensures var start := View(old(env), contract.self, 0, old(contract.gas), [], [], depth + 1,
                                readOnly || readOnlyCall, [], 0);
              Ends(chain, contract.code, start, trace, res, contract.gas, env, pool.regkeyList)
      decreases RunRank(depth), 0
    {
      depth := depth + 1;
      var entered := readOnlyCall && !readOnly;
      if entered {
        readOnly := true;
      }
      returnData := [];
      log := log + [Entry(depth, readOnly)];
      ghost var start := View(env, contract.self, 0, contract.gas, [], [], depth, readOnly, [], 0);
      res, trace := Enter(contract);
      if FitsRegisters(chain.table) { FittingFrame(chain, contract.code, start); }
      if entered {
        readOnly := false;
      }
      depth := depth - 1;
    }

    /** Runs code in a frame one level below the frame `v`; None is a panic. */
    method Below(v: View, self: Address, code: seq<byte>, gas: uint64, ro: bool) returns (r: Option<FrameResult>)
      requires pool.Valid() && MeteredTable(chain.table)
      requires v.depth == depth <= CALL_CREATE_DEPTH && v.readOnly == readOnly
      modifies this, pool
      ensures depth == old(depth) && readOnly == old(readOnly)
      ensures Disciplined(old(log), log, depth, readOnly)
      ensures Grew(old(pool.regkeyList), pool.regkeyList)
      ensures r.None? ==> FramePanics(chain, code, Inner(v, old(env), self, gas, ro))
      ensures r.Some? ==>
        && pool.Valid() && env == r.value.env
        && FrameOutcome(chain, code, Inner(v, old(env), self, gas, ro), r.value)
      decreases RunRank(depth), 1
    {
      var child := new Contract(self, code, gas);
      ghost var logBefore := log;
      var res, trace := Run(child, ro);
      NestedDisciplined(logBefore, log, depth, readOnly, readOnly || ro);
      r := if res.Panicked? then None else Some(FrameResult(env, res.ret, child.gas, res.err));
    }

    /** A creation by the frame `v`; None is a panic. */
    method Create(v: View, call: NestedCall) returns (r: Option<FrameResult>)
      requires pool.Valid() && MeteredTable(chain.table)
      requires v.depth == depth && v.readOnly == readOnly && call.CreateFrame? && env == call.env
      modifies this, pool
      ensures depth == old(depth) && readOnly == old(readOnly)
      ensures Disciplined(old(log), log, depth, readOnly)
      ensures Grew(old(pool.regkeyList), pool.regkeyList)
      ensures r.None? ==> NestedPanics(chain, v, call)
      ensures r.Some? ==> pool.Valid() && env == r.value.env && NestedOutcome(chain, v, call, r.value)
      decreases FrameRank(depth), 0
    {
      var w := env.world;
      if !Runs(depth, w, v.self, call.value, call.address) {
        r := Some(InEnv(Stopped(depth, w, v.self, call.gas, call.value), env.rest));
        env := r.value.env;
        return;
      }
      var snapshot := Bump(w, v.self);
      env := Env(Endowed(chain.rules, snapshot, v.self, call.address, call.value), env.rest);
      ghost var endowed := env;
      var run := Below(v, call.address, call.code, call.gas, false);
      if run.None? {
        return None;
      }
      assert FrameOutcome(chain, call.code, Inner(v, endowed, call.address, call.gas, false), run.value);
      r := Some(Deployed(chain, snapshot, call.address, run.value));
      env := r.value.env;
    }

    /** The frame an operation of the frame `v` asks for; None is a panic. */
    method Nest(v: View, call: NestedCall) returns (r: Option<FrameResult>)
      requires pool.Valid() && MeteredTable(chain.table)
      requires v.depth == depth && v.readOnly == readOnly && (call.CallFrame? ==> depth <= CALL_CREATE_DEPTH)
      modifies this, pool
      ensures depth == old(depth) && readOnly == old(readOnly)
      ensures Disciplined(old(log), log, depth, readOnly)
      ensures Grew(old(pool.regkeyList), pool.regkeyList)
      ensures r.None? ==> NestedPanics(chain, v, call)
      ensures r.Some? ==> pool.Valid() && NestedOutcome(chain, v, call, r.value)
      decreases FrameRank(depth), 1
    {
      env := call.env;
      match call
      case CreateFrame(_, _, _, _, _) => r := Create(v, call);
      case CallFrame(_, self, code, gas, ro) => r := Below(v, self, code, gas, ro);
    }
  }
}
