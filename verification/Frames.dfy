/** Frames of execution as values: what an operation sees and may do, what one iteration of the
    interpreter loop does, executions made of such iterations and of the executions nested in them, and
    what they keep. Operations are black boxes whose effect may depend on all they see and may run or
    create another frame. */
module Frames {
  import opened Words
  import opened World
  import opened Evm
  import opened CreationProperties
  import opened RegPool

  const STACK_LIMIT := 1024
  const STOP := 0

  /** The state outside a frame: the world, and everything else (origin, callers and inputs of frames,
      register values, caches) as `rest`. */
  datatype Env = Env(world: World, rest: nat)

  /** All an operation can see; `self` is the account its frame runs for, `reg` the register just
      appended for it. */
  datatype View = View(env: Env, self: Address, pc: uint64, gas: uint64, stack: seq<nat>, mem: seq<byte>, depth: nat,
                       readOnly: bool, returnData: seq<byte>, reg: nat)

  datatype StepOutcome = StepOutcome(env: Env, pc: uint64, gas: uint64, stack: seq<nat>, mem: seq<byte>,
                                     returnData: seq<byte>, ret: seq<byte>, err: Option<VmError>)

  /** A frame an operation asks for: running code for an account, or creating a contract. */
  datatype NestedCall =
    | CallFrame(env: Env, self: Address, code: seq<byte>, gas: uint64, readOnly: bool)
    | CreateFrame(env: Env, address: Address, code: seq<byte>, gas: uint64, value: uint256)

  /** What a frame leaves behind. */
  datatype FrameResult = FrameResult(env: Env, ret: seq<byte>, gas: uint64, err: Option<VmError>)

  datatype Effect =
    | Direct(outcome: StepOutcome)
    | Nested(call: NestedCall, resume: FrameResult -> StepOutcome)

  /** `pops` and `pushes` are what the implementation takes from and leaves on the stack. A memory
      size function returns the size and whether it overflowed; a gas function fails with None. */
  datatype Operation = Operation(constantGas: uint64, dynamicGas: Option<(View, uint64) -> Option<uint64>>,
                                 minStack: nat, maxStack: nat, memorySize: Option<View -> (uint64, bool)>,
                                 execute: View -> Effect, pops: nat, pushes: nat)

  type JumpTable = byte -> Operation

  /** The chain the frames run on; `snapshots` says whether rolling back restores the world. */
  datatype Chain = Chain(table: JumpTable, rules: Rules, snapshots: bool)

  /** Memory expansion in whole words: None is an overflow of uint64. */
  function RoundUp(size: uint64): (r: Option<uint64>)
    ensures r.None? <==> size > U64 - 32
    ensures r.Some? ==> r.value % 32 == 0 && size <= r.value < size + 32
  {
    if ToWordSize(size) * 32 > MAX_UINT64 then None else Some(ToWordSize(size) * 32)
  }

  /** Reading past the end of the code gives STOP. */
  function OpAt(code: seq<byte>, n: uint64): byte { if n < |code| then code[n] else STOP }

  /** What the checks and charges before an operation come to. `constant` is what was charged before
      the refusal; `size` is the memory size to grow to, `requested` the size asked for. */
  datatype Charges = Refused(error: VmError, constant: uint64)
                   | Paid(constant: uint64, dynamic: uint64, requested: nat, size: uint64)

  function ChargesOf(op: Operation, v: View): Charges {
    if |v.stack| < op.minStack then Refused(ErrStackUnderflow(|v.stack|, op.minStack), 0)
    else if |v.stack| > op.maxStack then Refused(ErrStackOverflow(|v.stack|, op.maxStack), 0)
    else if v.gas < op.constantGas then Refused(ErrOutOfGas, 0)
    else if op.dynamicGas.None? then Paid(op.constantGas, 0, 0, 0)
    else
      var u := v.(gas := v.gas - op.constantGas);
      var (memSize, overflow) := if op.memorySize.Some? then op.memorySize.value(u) else (0, false);
      if overflow || RoundUp(memSize).None? then Refused(ErrGasUintOverflow, op.constantGas)
      else
        var cost := op.dynamicGas.value(u, RoundUp(memSize).value);
        if cost.None? || u.gas < cost.value then Refused(ErrOutOfGas, op.constantGas)
        else Paid(op.constantGas, cost.value, memSize, RoundUp(memSize).value)
  }

  /** Memory grown to `size` with zeros. */
  function Grown(mem: seq<byte>, size: nat): (r: seq<byte>)
    ensures mem <= r && |r| == Max(|mem|, size)
    ensures forall i :: |mem| <= i < |r| ==> r[i] == 0
  {
    if |mem| < size then mem + seq(size - |mem|, i => 0) else mem
  }

  /** The view an operation runs on once it is paid for: with its gas taken, its memory grown, and its
      register appended. */
  function Ready(op: Operation, v: View, reg: nat): View
    requires ChargesOf(op, v).Paid?
  {
    var c := ChargesOf(op, v);
    v.(gas := v.gas - c.constant - c.dynamic, mem := Grown(v.mem, c.size), reg := reg)
  }

  /** What stops an operation before it runs, in order, and what one that runs has paid: its constant gas,
      and the price its gas function asks, of the frame without the constant gas, for memory in whole
      words. */
  lemma ChargesAre(op: Operation, v: View)
    ensures var c, height := ChargesOf(op, v), |v.stack|;
            var fits := op.minStack <= height <= op.maxStack;
            var u := if v.gas >= op.constantGas then v.(gas := v.gas - op.constantGas) else v;
            var asked := if op.memorySize.Some? then op.memorySize.value(u) else (0, false);
            var tooLarge := asked.1 || asked.0 > 0xFFFF_FFFF_FFFF_FFFF - 31;
            && (height < op.minStack <==> c == Refused(ErrStackUnderflow(height, op.minStack), 0))
            && (height >= op.minStack && height > op.maxStack
                <==> c == Refused(ErrStackOverflow(height, op.maxStack), 0))
            && (fits && v.gas < op.constantGas ==> c == Refused(ErrOutOfGas, 0))
            && (fits && v.gas >= op.constantGas && op.dynamicGas.None? ==> c == Paid(op.constantGas, 0, 0, 0))
            && (fits && v.gas >= op.constantGas && op.dynamicGas.Some? && tooLarge
                ==> c == Refused(ErrGasUintOverflow, op.constantGas))
            && (fits && v.gas >= op.constantGas && op.dynamicGas.Some? && !tooLarge ==>
                && RoundUp(asked.0).Some?
                && var size, price := RoundUp(asked.0).value, op.dynamicGas.value(u, RoundUp(asked.0).value);
                   c == if price.None? || price.value > u.gas then Refused(ErrOutOfGas, op.constantGas)
                        else Paid(op.constantGas, price.value, asked.0, size))
  {
  }

  /** An operation runs on its frame less its charges, with zeros appended to the memory up to the size
      paid for, and its own register. */
  lemma ReadyIs(op: Operation, v: View, reg: nat)
    requires ChargesOf(op, v).Paid?
    ensures var c, at := ChargesOf(op, v), Ready(op, v, reg);
            && at == v.(gas := at.gas, mem := at.mem, reg := reg)
            && at.gas + c.constant + c.dynamic == v.gas
            && |at.mem| == (if |v.mem| < c.size then c.size else |v.mem|)
            && (forall i :: 0 <= i < |at.mem| ==> at.mem[i] == if i < |v.mem| then v.mem[i] else 0)
  {
  }

  /** What an iteration that ran its operation on `v` and began with `gas` may come to: it makes no gas
      and costs some unless it ends the frame, does not resize memory, and puts no register on the stack
      but its own and those it found there. Unless it ends the frame, it pops and pushes what it
      declares. */
  ghost predicate Tame(op: Operation, gas: uint64, v: View, o: StepOutcome) {
    && o.gas <= gas
    && (o.err.None? ==> o.gas < gas)
    && |o.mem| == |v.mem|
    && (forall x :: x in o.stack ==> x in v.stack || x == v.reg)
    && (o.err.None? ==> |o.stack| == |v.stack| - op.pops + op.pushes)
  }

  /** The iteration is in order whatever a frame asked for gives back, up to the gas it got; and a call
      checks the depth first, as a creation does. */
  ghost predicate MeteredEffect(op: Operation, gas: uint64, v: View, e: Effect) {
    match e
    case Direct(o) => Tame(op, gas, v, o)
    case Nested(call, resume) =>
      && (call.CallFrame? ==> v.depth <= CALL_CREATE_DEPTH)
      && forall r: FrameResult :: r.gas <= call.gas ==> Tame(op, gas, v, resume(r))
  }

  /** Supply and signers are kept, before a nested frame and, whatever that frame did that keeps them,
      after it, be it by rolling back. The code to run for another account is none if it has none. */
  ghost predicate ConservingEffect(v: View, e: Effect) {
    match e
    case Direct(o) => Keeps(v.self, v.env.world, o.env.world)
    case Nested(call, resume) =>
      && Keeps(v.self, v.env.world, call.env.world)
      && (call.CallFrame? && call.self != v.self && Signer(call.env.world, call.self) ==> call.code == [])
      && forall r: FrameResult :: Keeps(v.self, v.env.world, r.env.world) ==>
           Keeps(v.self, v.env.world, resume(r).env.world)
  }

  /** The stack an operation may be executed on. */
  predicate Admits(op: Operation, v: View) { op.minStack <= |v.stack| <= op.maxStack }

  /** What is assumed of operations for gas, stack and memory. The gas is that of the iteration as a
      whole: what was charged ahead for a nested frame may come back. */
  ghost predicate Metered(op: Operation) {
    && op.maxStack == STACK_LIMIT + op.pops - op.pushes
    && forall v: View, reg: nat {:trigger Ready(op, v, reg)} :: ChargesOf(op, v).Paid? ==>
         MeteredEffect(op, v.gas, Ready(op, v, reg), op.execute(Ready(op, v, reg)))
  }

  /** What is assumed of operations for ether and nonces. */
  ghost predicate Conserving(op: Operation) {
    forall v: View {:trigger op.execute(v)} :: Admits(op, v) ==> ConservingEffect(v, op.execute(v))
  }

  ghost predicate MeteredTable(table: JumpTable) { forall b: byte :: Metered(table(b)) }

  ghost predicate ConservingTable(table: JumpTable) { forall b: byte :: Conserving(table(b)) }

  /** No operation has more parameters than a register can hold. */
  ghost predicate FitsRegisters(table: JumpTable) { forall b: byte :: table(b).minStack <= MAX_PARAMS }

  datatype Iteration = Failed(error: VmError) | Stepped(outcome: StepOutcome)

  /** One iteration of the loop: the frame when it began, the frame its operation ran in, and how it
      ended. */
  datatype StepRecord = StepRecord(op: byte, before: View, at: View, end: Iteration)

  /** The frame below `v` as its loop finds it. */
  function Inner(v: View, env: Env, self: Address, gas: uint64, readOnly: bool): View {
    View(env, self, 0, gas, [], [], v.depth + 1, v.readOnly || readOnly, [], 0)
  }

  function InEnv(x: ExecResult, rest: nat): FrameResult { FrameResult(Env(x.world, rest), x.ret, x.gas, x.err) }

  /** What becomes of a creation whose init code left `run` behind. */
  function Deployed(chain: Chain, w: World, address: Address, run: FrameResult): FrameResult {
    InEnv(Deploy(chain.rules, chain.snapshots, w, address, ExecResult(run.env.world, run.ret, run.gas, run.err)),
          run.env.rest)
  }

  /** A nested frame begins one level deeper at the start of its code, with nothing on its stack or in its
      memory, and read-only if it is asked to be or the frame that asked already is. */
  lemma InnerIs(v: View, env: Env, self: Address, gas: uint64, readOnly: bool)
    ensures var w := Inner(v, env, self, gas, readOnly);
            && w.depth == v.depth + 1 && w.pc == 0 && w.stack == [] && w.mem == [] && w.returnData == []
            && w.env == env && w.self == self && w.gas == gas
            && (w.readOnly <==> readOnly || v.readOnly)
  {
  }

  /** Whether the loop goes on after an iteration, and the frame it goes on with. */
  predicate GoesOn(r: StepRecord) { r.end.Stepped? && r.end.outcome.err.None? }

  function Next(r: StepRecord): View
    requires r.end.Stepped?
  {
    var o := r.end.outcome;
    View(o.env, r.at.self, Wrap64(1 + o.pc as int), o.gas, o.stack, o.mem, r.at.depth, r.at.readOnly, o.returnData, 0)
  }

  /** What a frame returns after its last iteration; the stop token is no error. */
  function RetOf(end: Iteration): seq<byte> { if end.Failed? then [] else end.outcome.ret }

  function ErrOf(end: Iteration): Option<VmError> {
    match end
    case Failed(e) => Some(e)
    case Stepped(o) => if o.err == Some(ErrStopToken) then None else o.err
  }

  /** What a frame leaves behind if this is its last iteration. */
  function ResultOf(r: StepRecord): FrameResult {
    match r.end
    case Failed(_) => FrameResult(r.at.env, RetOf(r.end), r.at.gas, ErrOf(r.end))
    case Stepped(o) => FrameResult(o.env, RetOf(r.end), o.gas, ErrOf(r.end))
  }

  /** The execution may go on. */
  predicate Open(trace: seq<StepRecord>) { trace == [] || GoesOn(trace[|trace| - 1]) }

  /** The frame an open execution from `start` has reached. */
  function Reached(start: View, trace: seq<StepRecord>): View
    requires Open(trace)
  {
    if trace == [] then start else Next(trace[|trace| - 1])
  }

  /** The execution has ended and left `res` behind. */
  predicate Finished(trace: seq<StepRecord>, res: FrameResult) {
    !Open(trace) && res == ResultOf(trace[|trace| - 1])
  }

  /** How many frames deep a frame can still nest, for recursion over nested frames. */
  function Rank(depth: nat): nat { if depth <= CALL_CREATE_DEPTH then CALL_CREATE_DEPTH + 1 - depth else 0 }

  /** The outcome `o` of executing `op` on the view `v`, if a register can hold its parameters: its own,
      or that of resuming after the nested frame it asked for. */
  ghost predicate Performed(chain: Chain, op: Operation, v: View, o: StepOutcome)
    decreases Rank(v.depth), 0, 1
  {
    && op.minStack <= MAX_PARAMS
    && match op.execute(v)
       case Direct(outcome) => o == outcome
       case Nested(call, resume) => exists r: FrameResult :: NestedOutcome(chain, v, call, r) && o == resume(r)
  }

  /** The iteration does what the loop body does: it reads the code, charges, grows memory, and
      executes the operation on what results. */
  ghost predicate Legal(chain: Chain, code: seq<byte>, r: StepRecord)
    decreases Rank(r.before.depth), 1, 0
  {
    && r.op == OpAt(code, r.before.pc)
    && match ChargesOf(chain.table(r.op), r.before)
       case Refused(e, constant) => r.end == Failed(e) && r.at == r.before.(gas := r.before.gas - constant)
       case Paid(_, _, _, _) =>
         && r.at == Ready(chain.table(r.op), r.before, r.at.reg)
         && r.end.Stepped?
         && Performed(chain, chain.table(r.op), r.at, r.end.outcome)
  }

  /** An execution of `code` from the frame `start`: legal iterations, each beginning where the ones
      before it went on to. */
  ghost predicate Execution(chain: Chain, code: seq<byte>, start: View, trace: seq<StepRecord>)
    decreases Rank(start.depth), 2, |trace|
  {
    trace == [] ||
    var earlier, r := trace[..|trace| - 1], trace[|trace| - 1];
    && Execution(chain, code, start, earlier)
    && Open(earlier)
    && r.before == Reached(start, earlier)
    && r.before.depth == start.depth
    && Legal(chain, code, r)
  }

  /** What running `code` from `start` leaves behind: nothing happens without code, and otherwise the
      code is executed to its end. */
  ghost predicate FrameOutcome(chain: Chain, code: seq<byte>, start: View, res: FrameResult)
    decreases Rank(start.depth), 3, 0
  {
    if code == [] then res == FrameResult(start.env, [], start.gas, None)
    else exists trace :: Execution(chain, code, start, trace) && Finished(trace, res)
  }

  /** The outcome of a nested frame: that of running its code one level deeper, after the steps of a
      creation and before its end if it is one. */
  ghost predicate NestedOutcome(chain: Chain, v: View, call: NestedCall, r: FrameResult)
    decreases Rank(v.depth), 0, 0
  {
    match call
    case CallFrame(env, self, code, gas, readOnly) =>
      v.depth <= CALL_CREATE_DEPTH && FrameOutcome(chain, code, Inner(v, env, self, gas, readOnly), r)
    case CreateFrame(env, address, code, gas, value) =>
      if !Runs(v.depth, env.world, v.self, value, address)
      then r == InEnv(Stopped(v.depth, env.world, v.self, gas, value), env.rest)
      else
        var w := Bump(env.world, v.self);
        var endowed := Env(Endowed(chain.rules, w, v.self, address, value), env.rest);
        exists run: FrameResult ::
          && FrameOutcome(chain, code, Inner(v, endowed, address, gas, false), run)
          && r == Deployed(chain, w, address, run)
  }

  /** Executing `op` on `v` panics: a register cannot hold its parameters, or a nested frame panics. */
  ghost predicate OperationPanics(chain: Chain, op: Operation, v: View)
    decreases Rank(v.depth), 0, 1
  {
    op.minStack > MAX_PARAMS || (op.execute(v).Nested? && NestedPanics(chain, v, op.execute(v).call))
  }

  /** The iteration from `v` panics, its operation having been paid for. */
  ghost predicate IterationPanics(chain: Chain, code: seq<byte>, v: View)
    decreases Rank(v.depth), 1, 0
  {
    var op := chain.table(OpAt(code, v.pc));
    ChargesOf(op, v).Paid? && exists reg :: OperationPanics(chain, op, Ready(op, v, reg))
  }

  /** Running `code` from `start` panics: an execution reaches an iteration that does. */
  ghost predicate FramePanics(chain: Chain, code: seq<byte>, start: View)
    decreases Rank(start.depth), 3, 0
  {
    code != [] && exists trace ::
      && Execution(chain, code, start, trace)
      && Open(trace)
      && Reached(start, trace).depth == start.depth
      && IterationPanics(chain, code, Reached(start, trace))
  }

  ghost predicate NestedPanics(chain: Chain, v: View, call: NestedCall)
    decreases Rank(v.depth), 0, 0
  {
    match call
    case CallFrame(env, self, code, gas, readOnly) =>
      v.depth <= CALL_CREATE_DEPTH && FramePanics(chain, code, Inner(v, env, self, gas, readOnly))
    case CreateFrame(env, address, code, gas, value) =>
      && Runs(v.depth, env.world, v.self, value, address)
      && var endowed := Env(Endowed(chain.rules, Bump(env.world, v.self), v.self, address, value), env.rest);
         FramePanics(chain, code, Inner(v, endowed, address, gas, false))
  }

  /** What a finished execution leaves behind is what its last iteration does: after a step, the
      operation's own return value and error, but that stopping is no error; after a refusal, the
      refusal and nothing returned. */
  lemma FinishedIs(trace: seq<StepRecord>, res: FrameResult)
    requires Finished(trace, res)
    ensures trace != [] && var last := trace[|trace| - 1];
            match last.end
            case Failed(e) => res == FrameResult(last.at.env, [], last.at.gas, Some(e))
            case Stepped(o) =>
              && res.env == o.env && res.ret == o.ret && res.gas == o.gas
              && (o.err == Some(ErrStopToken) ==> res.err == None)
              && (o.err != Some(ErrStopToken) ==> res.err == o.err)
  {
  }

  lemma Extend(chain: Chain, code: seq<byte>, start: View, trace: seq<StepRecord>, r: StepRecord)
    requires Execution(chain, code, start, trace) && Open(trace)
    requires r.before == Reached(start, trace) && Legal(chain, code, r)
    ensures Execution(chain, code, start, trace + [r])
    ensures GoesOn(r) <==> Open(trace + [r])
    ensures GoesOn(r) ==> Reached(start, trace + [r]) == Next(r)
    ensures !GoesOn(r) ==> Finished(trace + [r], ResultOf(r))
  {
    assert (trace + [r])[..|trace|] == trace;
  }

  /** The pool only ever grows at its end. */
  predicate Grew(before: seq<RegKey>, after: seq<RegKey>) {
    |before| <= |after| && after[..|before|] == before
  }

  lemma StillGrew(first: seq<RegKey>, second: seq<RegKey>, third: seq<RegKey>)
    requires Grew(first, second) && Grew(second, third)
    ensures Grew(first, third)
  {
    assert third[..|first|] == third[..|second|][..|first|];
  }

  /** The pool entry of the step: its depth and position, wired to the stack it ran on. */
  ghost predicate RegisterOf(chain: Chain, r: StepRecord, key: RegKey) {
    && key.index.depth == Wrap64(r.at.depth) && key.index.pc == r.at.pc
    && Wired(key.reg, r.at.stack, chain.table(r.op).minStack)
  }

  /** Every step of the execution has its register in the pool. */
  ghost predicate Registered(chain: Chain, trace: seq<StepRecord>, list: seq<RegKey>) {
    forall i :: 0 <= i < |trace| && trace[i].end.Stepped? ==>
      trace[i].at.reg < |list| && RegisterOf(chain, trace[i], list[trace[i].at.reg])
  }

  /** A run from `start` that has reached the frame `here` and may go on. */
  ghost predicate Running(chain: Chain, code: seq<byte>, start: View, trace: seq<StepRecord>, here: View,
                          list: seq<RegKey>)
  {
    && Execution(chain, code, start, trace)
    && Open(trace)
    && here == Reached(start, trace)
    && Registered(chain, trace, list)
  }

  /** A run that has ended. */
  ghost predicate Ran(chain: Chain, code: seq<byte>, start: View, trace: seq<StepRecord>, res: FrameResult,
                      list: seq<RegKey>)
  {
    Execution(chain, code, start, trace) && Finished(trace, res) && Registered(chain, trace, list)
  }

  /** One more legal step keeps the run going or ends it. */
  lemma RunningSteps(chain: Chain, code: seq<byte>, start: View, trace: seq<StepRecord>, list: seq<RegKey>,
                     r: StepRecord, longer: seq<RegKey>)
    requires Running(chain, code, start, trace, r.before, list) && Legal(chain, code, r) && Grew(list, longer)
    requires r.end.Stepped? ==> r.at.reg < |longer| && RegisterOf(chain, r, longer[r.at.reg])
    ensures GoesOn(r) ==> Running(chain, code, start, trace + [r], Next(r), longer)
    ensures !GoesOn(r) ==> Ran(chain, code, start, trace + [r], ResultOf(r), longer)
  {
    Extend(chain, code, start, trace, r);
    assert forall k :: 0 <= k < |list| ==> longer[..|list|][k] == longer[k];
    assert Registered(chain, trace + [r], longer);
  }

  /** An operation that is let through has a stack within its bounds, has been paid for in full, and
      gets memory in whole words that cover its request. */
  lemma PaidIsCovered(op: Operation, v: View)
    ensures var c := ChargesOf(op, v);
            c.Paid? ==>
              && Admits(op, v)
              && c.constant == op.constantGas && c.constant + c.dynamic <= v.gas
              && c.size % 32 == 0 && c.requested <= c.size < c.requested + 32
    ensures ChargesOf(op, v).Refused? ==> ChargesOf(op, v).constant <= v.gas
  {
  }

  /** What a metered operation makes of its frame, nested frame or not. */
  lemma {:induction false} PerformedIsTame(chain: Chain, op: Operation, v: View, reg: nat, o: StepOutcome)
    requires MeteredTable(chain.table) && Metered(op) && ChargesOf(op, v).Paid?
    requires Performed(chain, op, Ready(op, v, reg), o)
    ensures Tame(op, v.gas, Ready(op, v, reg), o)
    decreases Rank(v.depth), 0, 1
  {
    var at := Ready(op, v, reg);
    var e := op.execute(at);
    assert MeteredEffect(op, v.gas, at, e);
    if e.Nested? {
      var r :| NestedOutcome(chain, at, e.call, r) && o == e.resume(r);
      NestedSpends(chain, at, e.call, r);
    }
  }

  /** One legal iteration of metered operations: the stack stays within the limit, and gas goes down if
      it goes on. */
  lemma {:induction false} StepIsTame(chain: Chain, code: seq<byte>, r: StepRecord)
    requires MeteredTable(chain.table) && Legal(chain, code, r) && r.end.Stepped?
    ensures var op, o := chain.table(r.op), r.end.outcome;
            && Admits(op, r.at)
            && Tame(op, r.before.gas, r.at, o)
            && (GoesOn(r) ==> |o.stack| <= STACK_LIMIT && o.gas < r.before.gas)
    decreases Rank(r.before.depth), 1, 0
  {
    PaidIsCovered(chain.table(r.op), r.before);
    PerformedIsTame(chain, chain.table(r.op), r.before, r.at.reg, r.end.outcome);
  }

  /** An execution never has more gas than at its start. */
  lemma {:induction false} ExecutionSpends(chain: Chain, code: seq<byte>, start: View, trace: seq<StepRecord>)
    requires MeteredTable(chain.table) && Execution(chain, code, start, trace)
    ensures trace != [] ==> ResultOf(trace[|trace| - 1]).gas <= start.gas
    decreases Rank(start.depth), 2, |trace|
  {
    if trace == [] {
    } else {
      var earlier, r := trace[..|trace| - 1], trace[|trace| - 1];
      ExecutionSpends(chain, code, start, earlier);
      PaidIsCovered(chain.table(r.op), r.before);
      if r.end.Stepped? {
        StepIsTame(chain, code, r);
      }
    }
  }

  lemma {:induction false} FrameSpends(chain: Chain, code: seq<byte>, start: View, res: FrameResult)
    requires MeteredTable(chain.table) && FrameOutcome(chain, code, start, res)
    ensures res.gas <= start.gas
    decreases Rank(start.depth), 3, 0
  {
    if code == [] {
    } else {
      var trace :| Execution(chain, code, start, trace) && Finished(trace, res);
      ExecutionSpends(chain, code, start, trace);
    }
  }

  lemma {:induction false} NestedSpends(chain: Chain, v: View, call: NestedCall, r: FrameResult)
    requires MeteredTable(chain.table) && NestedOutcome(chain, v, call, r)
    ensures r.gas <= call.gas
    decreases Rank(v.depth), 0, 0
  {
    match call
    case CallFrame(env, self, code, gas, readOnly) =>
      FrameSpends(chain, code, Inner(v, env, self, gas, readOnly), r);
    case CreateFrame(env, address, code, gas, value) =>
      if Runs(v.depth, env.world, v.self, value, address) {
        var w := Bump(env.world, v.self);
        var inner := Inner(v, Env(Endowed(chain.rules, w, v.self, address, value), env.rest), address, gas, false);
        var run: FrameResult :| FrameOutcome(chain, code, inner, run) && r == Deployed(chain, w, address, run);
        FrameSpends(chain, code, inner, run);
      }
  }

  lemma DeployedKeeps(chain: Chain, w: World, caller: Address, address: Address, value: uint256, run: FrameResult)
    requires CanTransfer(w, caller, value) && Nonce(w, caller) + 1 < U64 && !Occupied(Bump(w, caller), address)
    requires Keeps(address, Endowed(chain.rules, Bump(w, caller), caller, address, value), run.env.world)
    ensures Keeps(caller, w, Deployed(chain, Bump(w, caller), address, run).env.world)
  {
    if Total(w) < U256 {
      var w1 := Bump(w, caller);
      BumpKeeps(w, caller);
      var x := ExecResult(run.env.world, run.ret, run.gas, run.err);
      DeployKeeps(chain.rules, chain.snapshots, w1, caller, address, value, run.gas, x);
      var after := Deploy(chain.rules, chain.snapshots, w1, address, x).world;
      forall a | a != caller
        ensures Undisturbed(w, after, a)
      {
        assert Undisturbed(w1, after, a);
      }
    }
  }

  lemma StoppedKeeps(depth: nat, w: World, caller: Address, gas: uint64, value: uint256)
    ensures Keeps(caller, w, Stopped(depth, w, caller, gas, value).world)
  {
    if Refusal(depth, w, caller, value).None? {
      BumpKeeps(w, caller);
    }
  }

  /** What a conserving operation makes of the world, nested frame or not. */
  lemma {:induction false} PerformedKeeps(chain: Chain, op: Operation, v: View, o: StepOutcome)
    requires ConservingTable(chain.table) && Conserving(op) && Admits(op, v) && Performed(chain, op, v, o)
    ensures Keeps(v.self, v.env.world, o.env.world)
    decreases Rank(v.depth), 0, 1
  {
    var e := op.execute(v);
    assert ConservingEffect(v, e);
    if e.Nested? {
      var r :| NestedOutcome(chain, v, e.call, r) && o == e.resume(r);
      NestedKeeps(chain, v, e.call, r);
      KeepsChain(v.self, v.env.world, e.call.env.world, r.env.world);
    }
  }

  /** An execution, of any length and with any frames nested in it, keeps the supply and every signer
      but its own account. */
  lemma {:induction false} ExecutionKeeps(chain: Chain, code: seq<byte>, start: View, trace: seq<StepRecord>)
    requires ConservingTable(chain.table) && Execution(chain, code, start, trace)
    ensures trace != [] ==>
      var last := trace[|trace| - 1];
      last.at.self == start.self && Keeps(start.self, start.env.world, ResultOf(last).env.world)
    decreases Rank(start.depth), 2, |trace|
  {
    if trace == [] {
    } else {
      var earlier, r := trace[..|trace| - 1], trace[|trace| - 1];
      ExecutionKeeps(chain, code, start, earlier);
      if r.end.Stepped? {
        PaidIsCovered(chain.table(r.op), r.before);
        PerformedKeeps(chain, chain.table(r.op), r.at, r.end.outcome);
        KeepsChain(start.self, start.env.world, r.at.env.world, r.end.outcome.env.world);
      }
    }
  }

  lemma {:induction false} FrameKeeps(chain: Chain, code: seq<byte>, start: View, res: FrameResult)
    requires ConservingTable(chain.table) && FrameOutcome(chain, code, start, res)
    ensures Keeps(start.self, start.env.world, res.env.world)
    ensures code == [] ==> res.env == start.env
    decreases Rank(start.depth), 3, 0
  {
    if code == [] {
    } else {
      var trace :| Execution(chain, code, start, trace) && Finished(trace, res);
      ExecutionKeeps(chain, code, start, trace);
    }
  }

  /** A nested frame keeps the supply and every signer but the account it was asked for by: a creation
      reaches only an address nothing lived at, and a call runs code only of accounts that have some. */
  lemma {:induction false} NestedKeeps(chain: Chain, v: View, call: NestedCall, r: FrameResult)
    requires ConservingTable(chain.table) && NestedOutcome(chain, v, call, r)
    requires call.CallFrame? && call.self != v.self && Signer(call.env.world, call.self) ==> call.code == []
    ensures Keeps(v.self, call.env.world, r.env.world)
    decreases Rank(v.depth), 0, 0
  {
    match call
    case CallFrame(env, self, code, gas, readOnly) =>
      FrameKeeps(chain, code, Inner(v, env, self, gas, readOnly), r);
    case CreateFrame(env, address, code, gas, value) =>
      if Runs(v.depth, env.world, v.self, value, address) {
        var w := Bump(env.world, v.self);
        var inner := Inner(v, Env(Endowed(chain.rules, w, v.self, address, value), env.rest), address, gas, false);
        var run: FrameResult :| FrameOutcome(chain, code, inner, run) && r == Deployed(chain, w, address, run);
        FrameKeeps(chain, code, inner, run);
        DeployedKeeps(chain, env.world, v.self, address, value, run);
      } else {
        StoppedKeeps(v.depth, env.world, v.self, gas, value);
      }
  }

  /** The stack of a step that goes on holds registers of the pool, its own included; gas went down. */
  lemma StackStaysPooled(chain: Chain, code: seq<byte>, r: StepRecord, n: nat)
    requires MeteredTable(chain.table) && Legal(chain, code, r) && GoesOn(r)
    requires r.at.reg == n && forall x :: x in r.before.stack ==> x < n
    ensures forall x :: x in r.end.outcome.stack ==> x <= n
    ensures r.end.outcome.gas < r.before.gas
  {
    StepIsTame(chain, code, r);
  }

  lemma {:induction false} FittingNested(chain: Chain, v: View, call: NestedCall)
    requires FitsRegisters(chain.table)
    ensures !NestedPanics(chain, v, call)
    decreases Rank(v.depth), 0
  {
    match call
    case CallFrame(env, self, code, gas, readOnly) =>
      if v.depth <= CALL_CREATE_DEPTH {
        FittingFrame(chain, code, Inner(v, env, self, gas, readOnly));
      }
    case CreateFrame(env, address, code, gas, value) =>
      if Runs(v.depth, env.world, v.self, value, address) {
        var endowed := Env(Endowed(chain.rules, Bump(env.world, v.self), v.self, address, value), env.rest);
        FittingFrame(chain, code, Inner(v, endowed, address, gas, false));
      }
  }

  /** Where the registers hold the parameters of every operation, nothing panics. */
  lemma {:induction false} FittingFrame(chain: Chain, code: seq<byte>, start: View)
    requires FitsRegisters(chain.table)
    ensures !FramePanics(chain, code, start)
    decreases Rank(start.depth), 1
  {
    if FramePanics(chain, code, start) {
      var trace :|
        && Execution(chain, code, start, trace) && Open(trace)
        && Reached(start, trace).depth == start.depth && IterationPanics(chain, code, Reached(start, trace));
      var v := Reached(start, trace);
      var op := chain.table(OpAt(code, v.pc));
      var reg :| OperationPanics(chain, op, Ready(op, v, reg));
      FittingNested(chain, Ready(op, v, reg), op.execute(Ready(op, v, reg)).call);
    }
  }
}
