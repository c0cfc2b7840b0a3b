/** What every execution of a frame keeps, for any well-behaved table: the stack and memory bounds,
    the gas ledger, and the bound on the number of iterations. */
module InterpreterProperties {
  import opened Words
  import opened World
  import opened Evm
  import opened RegPool
  import opened Frames
  import opened Interpreter

  predicate Fresh(start: View) { start.stack == [] && start.mem == [] }

  function ChargedBy(chain: Chain, r: StepRecord): nat {
    match ChargesOf(chain.table(r.op), r.before)
    case Refused(_, constant) => constant
    case Paid(constant, dynamic, _, _) => constant + dynamic
  }

  /** What the operation itself took beyond its charges, or less than nothing if it gave back some. */
  function TakenBy(r: StepRecord): int {
    match r.end
    case Failed(_) => 0
    case Stepped(o) => r.at.gas - o.gas
  }

  function Spent(chain: Chain, trace: seq<StepRecord>): int {
    if trace == [] then 0
    else
      var r := trace[|trace| - 1];
      Spent(chain, trace[..|trace| - 1]) + ChargedBy(chain, r) + TakenBy(r)
  }

  function GasLeft(start: View, trace: seq<StepRecord>): uint64 {
    if trace == [] then start.gas else ResultOf(trace[|trace| - 1]).gas
  }

  /** A legal iteration takes whole words of memory to whole words, never less, and covers what the
      operation asked for; its charges and takings account for the gas. */
  lemma LegalStep(chain: Chain, code: seq<byte>, r: StepRecord)
    requires MeteredTable(chain.table) && Legal(chain, code, r) && |r.before.mem| % 32 == 0
    ensures |r.at.mem| % 32 == 0 && r.before.mem <= r.at.mem
    ensures r.end.Stepped? ==>
      && Admits(chain.table(r.op), r.at)
      && ChargesOf(chain.table(r.op), r.before).Paid?
      && ChargesOf(chain.table(r.op), r.before).requested <= |r.at.mem|
      && |r.end.outcome.mem| == |r.at.mem|
    ensures 0 <= ChargedBy(chain, r) + TakenBy(r)
    ensures r.before.gas == ResultOf(r).gas + ChargedBy(chain, r) + TakenBy(r)
    ensures GoesOn(r) ==> |r.end.outcome.stack| <= STACK_LIMIT && r.end.outcome.gas < r.before.gas
  {
    PaidIsCovered(chain.table(r.op), r.before);
    if r.end.Stepped? {
      StepIsTame(chain, code, r);
    }
  }

  /** Gas left plus all charges plus all takings is the gas at the start; each iteration that goes on
      costs at least one unit, so there are at most one more iterations than units. */
  lemma {:induction false} GasLedger(chain: Chain, code: seq<byte>, start: View, trace: seq<StepRecord>)
    requires MeteredTable(chain.table) && Execution(chain, code, start, trace) && Fresh(start)
    ensures start.gas == GasLeft(start, trace) + Spent(chain, trace)
    ensures |trace| <= start.gas + 1
    ensures Open(trace) ==> |trace| + GasLeft(start, trace) <= start.gas
    ensures Open(trace) ==> |Reached(start, trace).mem| % 32 == 0 && |Reached(start, trace).stack| <= STACK_LIMIT
    decreases |trace|
  {
    if trace == [] {
    } else {
      var earlier, r := trace[..|trace| - 1], trace[|trace| - 1];
      GasLedger(chain, code, start, earlier);
      LegalStep(chain, code, r);
    }
  }

  lemma {:induction false} PrefixExecution(chain: Chain, code: seq<byte>, start: View, trace: seq<StepRecord>, n: nat)
    requires Execution(chain, code, start, trace) && n <= |trace|
    ensures Execution(chain, code, start, trace[..n])
    ensures n < |trace| ==>
      Open(trace[..n]) && trace[n].before == Reached(start, trace[..n]) && Legal(chain, code, trace[n])
    decreases |trace|
  {
    if n == |trace| {
      assert trace[..n] == trace;
    } else {
      var earlier := trace[..|trace| - 1];
      if n < |trace| - 1 {
        PrefixExecution(chain, code, start, earlier, n);
      }
      assert earlier[..n] == trace[..n];
    }
  }

  lemma OnlyTheLastEnds(chain: Chain, code: seq<byte>, start: View, trace: seq<StepRecord>, i: nat)
    requires Execution(chain, code, start, trace) && i + 1 < |trace|
    ensures GoesOn(trace[i])
  {
    PrefixExecution(chain, code, start, trace, i + 1);
    assert trace[..i + 1][i] == trace[i];
  }

  /** At every iteration: the stack is within the limit, memory is whole words, and an operation that
      ran found its stack within bounds and its memory covering its request. */
  lemma FrameInvariant(chain: Chain, code: seq<byte>, start: View, trace: seq<StepRecord>, i: nat)
    requires MeteredTable(chain.table) && Execution(chain, code, start, trace) && Fresh(start) && i < |trace|
    ensures var r := trace[i];
            && |r.before.stack| <= 1024
            && |r.before.mem| % 32 == 0 && |r.at.mem| % 32 == 0
            && |r.before.mem| <= |r.at.mem|
            && i + r.before.gas <= start.gas
            && (r.end.Stepped? ==>
                && Admits(chain.table(r.op), r.at)
                && ChargesOf(chain.table(r.op), r.before).Paid?
                && ChargesOf(chain.table(r.op), r.before).requested <= |r.at.mem|)
  {
    PrefixExecution(chain, code, start, trace, i);
    GasLedger(chain, code, start, trace[..i]);
    LegalStep(chain, code, trace[i]);
  }

  /** Memory never shrinks from one iteration to a later one. */
  lemma {:induction false} MemoryNeverShrinks(chain: Chain, code: seq<byte>, start: View, trace: seq<StepRecord>,
                                              i: nat, j: nat)
    requires MeteredTable(chain.table) && Execution(chain, code, start, trace) && Fresh(start) && i <= j < |trace|
    ensures |trace[i].at.mem| <= |trace[j].at.mem|
    decreases j
  {
    if i == j {
    } else {
      MemoryNeverShrinks(chain, code, start, trace, i, j - 1);
      FrameInvariant(chain, code, start, trace, j - 1);
      FrameInvariant(chain, code, start, trace, j);
      PrefixExecution(chain, code, start, trace, j);
      PrefixExecution(chain, code, start, trace, j - 1);
      LegalStep(chain, code, trace[j - 1]);
    }
  }

  lemma {:induction false} OutcomeExists(chain: Chain, op: Operation, v: View, reg: nat)
    returns (o: Option<StepOutcome>)
    requires MeteredTable(chain.table) && Metered(op) && ChargesOf(op, v).Paid?
    ensures if o.Some? then Performed(chain, op, Ready(op, v, reg), o.value)
            else OperationPanics(chain, op, Ready(op, v, reg))
    decreases Rank(v.depth), 0, 1
  {
    var at := Ready(op, v, reg);
    assert MeteredEffect(op, v.gas, at, op.execute(at));
    if op.minStack > MAX_PARAMS {
      return None;
    }
    match op.execute(at)
    case Direct(outcome) => o := Some(outcome);
    case Nested(call, resume) =>
      var r := NestedFrameEnds(chain, at, call);
      o := if r.None? then None else Some(resume(r.value));
  }

  lemma {:induction false} IterationExists(chain: Chain, code: seq<byte>, v: View) returns (r: Option<StepRecord>)
    requires MeteredTable(chain.table)
    ensures if r.Some? then r.value.before == v && Legal(chain, code, r.value) else IterationPanics(chain, code, v)
    decreases Rank(v.depth), 1, 0
  {
    var opcode := OpAt(code, v.pc);
    var op := chain.table(opcode);
    PaidIsCovered(op, v);
    match ChargesOf(op, v)
    case Refused(e, constant) =>
      r := Some(StepRecord(opcode, v, v.(gas := v.gas - constant), Failed(e)));
    case Paid(_, _, _, _) =>
      var o := OutcomeExists(chain, op, v, 0);
      r := if o.None? then None else Some(StepRecord(opcode, v, Ready(op, v, 0), Stepped(o.value)));
  }

  lemma {:induction false} ExecutionEnds(chain: Chain, code: seq<byte>, start: View, trace: seq<StepRecord>)
    returns (whole: Option<seq<StepRecord>>)
    requires MeteredTable(chain.table) && Execution(chain, code, start, trace) && Open(trace) && code != []
    ensures if whole.Some? then Execution(chain, code, start, whole.value) && !Open(whole.value)
            else FramePanics(chain, code, start)
    decreases Rank(start.depth), 2, Reached(start, trace).gas
  {
    var r := IterationExists(chain, code, Reached(start, trace));
    if r.None? {
      return None;
    }
    Extend(chain, code, start, trace, r.value);
    whole := Some(trace + [r.value]);
    if GoesOn(r.value) {
      StepIsTame(chain, code, r.value);
      whole := ExecutionEnds(chain, code, start, whole.value);
    }
  }

  /** Every frame ends: its iterations lead to a result or to the panic of the register pool, in the
      frames nested in it as well. */
  lemma {:induction false} EveryFrameEnds(chain: Chain, code: seq<byte>, start: View)
    returns (res: Option<FrameResult>)
    requires MeteredTable(chain.table)
    ensures if res.Some? then FrameOutcome(chain, code, start, res.value) else FramePanics(chain, code, start)
    decreases Rank(start.depth), 3, 0
  {
    if code == [] {
      res := Some(FrameResult(start.env, [], start.gas, None));
    } else {
      var trace := ExecutionEnds(chain, code, start, []);
      res := if trace.None? then None else Some(ResultOf(trace.value[|trace.value| - 1]));
    }
  }

  lemma {:induction false} NestedFrameEnds(chain: Chain, v: View, call: NestedCall) returns (r: Option<FrameResult>)
    requires MeteredTable(chain.table) && (call.CallFrame? ==> v.depth <= CALL_CREATE_DEPTH)
    ensures if r.Some? then NestedOutcome(chain, v, call, r.value) else NestedPanics(chain, v, call)
    decreases Rank(v.depth), 0, 0
  {
    match call
    case CallFrame(env, self, code, gas, readOnly) =>
      r := EveryFrameEnds(chain, code, Inner(v, env, self, gas, readOnly));
    case CreateFrame(env, address, code, gas, value) =>
      if Runs(v.depth, env.world, v.self, value, address) {
        var w := Bump(env.world, v.self);
        var endowed := Env(Endowed(chain.rules, w, v.self, address, value), env.rest);
        var run := EveryFrameEnds(chain, code, Inner(v, endowed, address, gas, false));
        r := if run.None? then None else Some(Deployed(chain, w, address, run.value));
      } else {
        r := Some(InEnv(Stopped(v.depth, env.world, v.self, gas, value), env.rest));
      }
  }

  /** The frame as the loop finds it when run from outside: depth one, writable, nothing on the stack. */
  function Outermost(w: World, f: Frame, rest: nat): View {
    View(Env(w, rest), f.self, 0, f.gas, [], [], 1, false, [], 0)
  }

  /** What running a frame from outside yields. */
  ghost predicate Yields(chain: Chain, w: World, f: Frame, x: ExecResult) {
    exists rest, rest' ::
      FrameOutcome(chain, f.code, Outermost(w, f, rest), FrameResult(Env(x.world, rest'), x.ret, x.gas, x.err))
  }

  /** A new interpreter yields a result for every world and frame, unless it reaches an operation with
      more parameters than a register holds. */
  method Execute(chain: Chain, w: World, f: Frame) returns (x: Option<ExecResult>)
    requires MeteredTable(chain.table)
    ensures if x.Some? then Yields(chain, w, f, x.value) else FramePanics(chain, f.code, Outermost(w, f, 0))
    ensures FitsRegisters(chain.table) ==> x.Some?
  {
    var pool := new RegPool();
    var interpreter := new Interpreter(chain, pool, Env(w, 0));
    var contract := new Contract(f.self, f.code, f.gas);
    var res, trace := interpreter.Run(contract, false);
    if res.Panicked? {
      return None;
    }
    var env := interpreter.env;
    var left := ExecResult(env.world, res.ret, contract.gas, res.err);
    assert FrameOutcome(chain, f.code, Outermost(w, f, 0),
                        FrameResult(Env(left.world, env.rest), left.ret, left.gas, left.err));
    x := Some(left);
  }

  ghost predicate Interprets(chain: Chain, run: (World, Frame) -> ExecResult) {
    forall w: World, f: Frame {:trigger run(w, f)} :: Yields(chain, w, f, run(w, f))
  }

  lemma YieldIsFair(chain: Chain, w: World, f: Frame, x: ExecResult)
    requires MeteredTable(chain.table) && ConservingTable(chain.table) && Yields(chain, w, f, x)
    ensures x.gas <= f.gas && Keeps(f.self, w, x.world)
    ensures f.code == [] ==> x.world == w
  {
    var rest, rest' :|
      FrameOutcome(chain, f.code, Outermost(w, f, rest), FrameResult(Env(x.world, rest'), x.ret, x.gas, x.err));
    var start, res := Outermost(w, f, rest), FrameResult(Env(x.world, rest'), x.ret, x.gas, x.err);
    FrameSpends(chain, f.code, start, res);
    FrameKeeps(chain, f.code, start, res);
  }

  /** An interpreter over metered and conserving operations is fair: what is assumed of single operations
      gives what message execution needs of whole runs, nested calls and creations included. */
  lemma InterpreterIsFair(chain: Chain, run: (World, Frame) -> ExecResult)
    requires MeteredTable(chain.table) && ConservingTable(chain.table) && Interprets(chain, run)
    ensures Fair(run)
  {
    forall w: World, f: Frame ensures FairResult(w, f, run(w, f)) {
      YieldIsFair(chain, w, f, run(w, f));
    }
  }

  /** What a message call yields where it does what its documentation says: it moves the value, runs the
      code of the account called, and reverses the state on an error. */
  ghost predicate CallYields(chain: Chain, w: World, f: Frame, x: ExecResult) {
    if !CanTransfer(w, f.caller, f.value) then x == ExecResult(w, [], f.gas, Some(ErrInsufficientBalance))
    else
      exists run: ExecResult ::
        && Yields(chain, Transfer(w, f.caller, f.self, f.value), f.(code := Get(w, f.self).code), run)
        && x == if run.err.None? then run
                else ExecResult(w, run.ret, if run.err == Some(ErrExecutionReverted) then run.gas else 0, run.err)
  }

  lemma TransferDisturbsNobody(w: World, from: Address, to: Address, value: uint256, a: Address)
    ensures var w1 := Transfer(w, from, to, value);
            Undisturbed(w, w1, a) && Signer(w1, a) == Signer(w, a) && Get(w1, a).code == Get(w, a).code
  {
  }

  /** Such a message call is fair, and leaves the account called alone if that is a signer: what the
      stub that stands in its place may be replaced with. */
  lemma MessageCallIsFair(chain: Chain, w: World, f: Frame, x: ExecResult)
    requires MeteredTable(chain.table) && ConservingTable(chain.table) && CallYields(chain, w, f, x)
    ensures FairResult(w, f, x)
    ensures Total(w) < U256 ==> Undisturbed(w, x.world, f.self)
  {
    if Total(w) < U256 && CanTransfer(w, f.caller, f.value) {
      var w1, g := Transfer(w, f.caller, f.self, f.value), f.(code := Get(w, f.self).code);
      TransferTotal(w, f.caller, f.self, f.value);
      var run: ExecResult :| Yields(chain, w1, g, run) && (run.err.None? ==> x == run) && x.gas <= run.gas
                             && (run.err.Some? ==> x.world == w);
      YieldIsFair(chain, w1, g, run);
      forall a
        ensures a != f.self || Signer(w, a) ==> Undisturbed(w, run.world, a)
      {
        TransferDisturbsNobody(w, f.caller, f.self, f.value, a);
        assert a != f.self ==> Undisturbed(w1, run.world, a);
      }
    }
  }

  lemma YieldsOrPanics(chain: Chain, w: World, f: Frame)
    requires MeteredTable(chain.table)
    ensures (exists x :: Yields(chain, w, f, x)) || FramePanics(chain, f.code, Outermost(w, f, 0))
    ensures FitsRegisters(chain.table) ==> exists x :: Yields(chain, w, f, x)
  {
    var ended := EveryFrameEnds(chain, f.code, Outermost(w, f, 0));
    if FitsRegisters(chain.table) { FittingFrame(chain, f.code, Outermost(w, f, 0)); }
    if ended.Some? {
      var res := ended.value;
      var x := ExecResult(res.env.world, res.ret, res.gas, res.err);
      assert res == FrameResult(Env(x.world, res.env.rest), x.ret, x.gas, x.err);
      assert Yields(chain, w, f, x);
    }
  }

  /** What running a frame yields, as a function; nothing is handed back where there is only a panic. */
  ghost function Interpreted(chain: Chain, w: World, f: Frame): (x: ExecResult)
    requires MeteredTable(chain.table)
    ensures
      || Yields(chain, w, f, x)
      || (x == ExecResult(w, [], 0, None) && FramePanics(chain, f.code, Outermost(w, f, 0)))
    ensures FitsRegisters(chain.table) ==> Yields(chain, w, f, x)
  {
    YieldsOrPanics(chain, w, f);
    if exists x :: Yields(chain, w, f, x) then
      var x :| Yields(chain, w, f, x);
      x
    else ExecResult(w, [], 0, None)
  }

  function Left(v: View, env: Env, gas: uint64, err: Option<VmError>): StepOutcome {
    StepOutcome(env, v.pc, gas, v.stack, v.mem, v.returnData, [], err)
  }

  function StopEffect(v: View): Effect { Direct(Left(v, v.env, v.gas, Some(ErrStopToken))) }

  /** Ends its frame at no cost. */
  function StopOperation(): Operation {
    Operation(0, None, 0, STACK_LIMIT, None, (v: View) => StopEffect(v), 0, 0)
  }

  function CallEffect(v: View, target: Address): Effect {
    if v.depth > CALL_CREATE_DEPTH then Direct(Left(v, v.env, v.gas, None))
    else Nested(CallFrame(v.env, target, Get(v.env.world, target).code, Max(v.gas - 1, 0), false),
                (r: FrameResult) => Left(v, if r.err.Some? then v.env else r.env, Wrap64(v.gas + r.gas), None))
  }

  /** Runs the code of an account as the world has it, and rolls the world back if that fails. Half the
      gas is charged ahead for it, and what it leaves is handed back. */
  function CallOperation(target: View -> Address): Operation {
    Operation(1, Some((v: View, size: uint64) => Some(v.gas / 2)), 0, STACK_LIMIT, None,
              (v: View) => CallEffect(v, target(v)), 0, 0)
  }

  function CreateEffect(v: View, target: Address): Effect {
    Nested(CreateFrame(v.env, target, v.mem, v.gas, 0), (r: FrameResult) => Left(v, r.env, r.gas, None))
  }

  /** Creates a contract whose init code is the memory. */
  function CreateOperation(target: View -> Address): Operation {
    Operation(1, None, 0, STACK_LIMIT, None, (v: View) => CreateEffect(v, target(v)), 0, 0)
  }

  function EchoEffect(v: View): Effect {
    Direct(Left(v, Env(v.env.world, 2 * v.depth + if v.readOnly then 1 else 0), v.gas, Some(OtherError(v.self))))
  }

  /** Ends its frame with an error that names the account it runs for, leaving the depth and the read-only
      flag outside. */
  function EchoOperation(): Operation {
    Operation(0, None, 0, STACK_LIMIT, None, (v: View) => EchoEffect(v), 0, 0)
  }

  lemma EchoReturns(chain: Chain, b: byte, start: View, res: FrameResult)
    requires chain.table(b) == EchoOperation() && Fresh(start) && start.pc == 0
    requires FrameOutcome(chain, [b], start, res)
    ensures var rest := 2 * start.depth + if start.readOnly then 1 else 0;
            res == FrameResult(Env(start.env.world, rest), [], start.gas, Some(OtherError(start.self)))
  {
    var trace :| Execution(chain, [b], start, trace) && Finished(trace, res);
    PrefixExecution(chain, [b], start, trace, 0);
    var r: StepRecord := trace[0];
    var op := EchoOperation();
    assert ChargesOf(op, start) == Paid(0, 0, 0, 0) && op.execute(r.at) == EchoEffect(r.at);
    assert !GoesOn(r);
    if |trace| > 1 {
      OnlyTheLastEnds(chain, [b], start, trace, 0);
      assert false;
    }
    FinishedIs(trace, res);
  }

  /** A call runs one level deeper, for the account it names, with the gas it names and read-only if it or
      the frame that asks is; its frame's result is handed back. Code that shows its frame shows it. */
  lemma CalledFrameIs(chain: Chain, b: byte, v: View, env: Env, self: Address, gas: uint64, ro: bool, r: FrameResult)
    requires chain.table(b) == EchoOperation()
    requires NestedOutcome(chain, v, CallFrame(env, self, [b], gas, ro), r)
    ensures var rest := 2 * (v.depth + 1) + if ro || v.readOnly then 1 else 0;
            r == FrameResult(Env(env.world, rest), [], gas, Some(OtherError(self)))
  {
    EchoReturns(chain, b, Inner(v, env, self, gas, ro), r);
  }

  /** So does the init code of a creation that runs, for the new account and read-only as the frame that
      asks is; the world it began in, its error and its gas are those of a creation that failed. */
  lemma CreatedFrameIs(chain: Chain, b: byte, v: View, env: Env, address: Address, gas: uint64, value: uint256,
                       r: FrameResult)
    requires chain.table(b) == EchoOperation() && chain.rules.homestead
    requires Runs(v.depth, env.world, v.self, value, address)
    requires NestedOutcome(chain, v, CreateFrame(env, address, [b], gas, value), r)
    ensures r.env.rest == 2 * (v.depth + 1) + if v.readOnly then 1 else 0
    ensures r.err == Some(OtherError(address)) && r.gas == 0 && r.ret == []
    ensures var w := Bump(env.world, v.self);
            r.env.world == if chain.snapshots then w else Endowed(chain.rules, w, v.self, address, value)
  {
    var w := Bump(env.world, v.self);
    var start := Inner(v, Env(Endowed(chain.rules, w, v.self, address, value), env.rest), address, gas, false);
    var run: FrameResult :| FrameOutcome(chain, [b], start, run) && r == Deployed(chain, w, address, run);
    EchoReturns(chain, b, start, run);
  }

  function PushEffect(v: View): Effect { Direct(Left(v, v.env, v.gas, None).(stack := v.stack + [v.reg])) }

  /** Pushes its register, if the stack has `n` items, and looks at all of those. */
  function DupOperation(n: nat): Operation {
    Operation(1, None, n, STACK_LIMIT - 1, None, (v: View) => PushEffect(v), n, n + 1)
  }

  lemma StopMeetsAssumptions()
    ensures Metered(StopOperation()) && Conserving(StopOperation())
  {
    var op := StopOperation();
    forall v: View
      ensures op.execute(v) == StopEffect(v) && ConservingEffect(v, StopEffect(v))
    {
    }
    forall v: View, reg: nat | ChargesOf(op, v).Paid?
      ensures MeteredEffect(op, v.gas, Ready(op, v, reg), op.execute(Ready(op, v, reg)))
    {
      assert op.execute(Ready(op, v, reg)) == StopEffect(Ready(op, v, reg));
    }
  }

  lemma CallMeetsAssumptions(target: View -> Address)
    ensures Metered(CallOperation(target)) && Conserving(CallOperation(target))
  {
    var op := CallOperation(target);
    forall v: View
      ensures op.execute(v) == CallEffect(v, target(v)) && ConservingEffect(v, CallEffect(v, target(v)))
    {
    }
    forall v: View, reg: nat | ChargesOf(op, v).Paid?
      ensures MeteredEffect(op, v.gas, Ready(op, v, reg), op.execute(Ready(op, v, reg)))
    {
      var at := Ready(op, v, reg);
      assert at.gas == v.gas - 1 - (v.gas - 1) / 2 && at.mem == v.mem;
      assert op.execute(at) == CallEffect(at, target(at));
    }
  }

  lemma CreateMeetsAssumptions(target: View -> Address)
    ensures Metered(CreateOperation(target)) && Conserving(CreateOperation(target))
  {
    var op := CreateOperation(target);
    forall v: View
      ensures op.execute(v) == CreateEffect(v, target(v)) && ConservingEffect(v, CreateEffect(v, target(v)))
    {
    }
    forall v: View, reg: nat | ChargesOf(op, v).Paid?
      ensures MeteredEffect(op, v.gas, Ready(op, v, reg), op.execute(Ready(op, v, reg)))
    {
      var at := Ready(op, v, reg);
      assert op.execute(at) == CreateEffect(at, target(at));
    }
  }

  lemma DupMeetsAssumptions(n: nat)
    ensures Metered(DupOperation(n)) && Conserving(DupOperation(n))
  {
    var op := DupOperation(n);
    forall v: View
      ensures op.execute(v) == PushEffect(v) && ConservingEffect(v, PushEffect(v))
    {
    }
    forall v: View, reg: nat | ChargesOf(op, v).Paid?
      ensures MeteredEffect(op, v.gas, Ready(op, v, reg), op.execute(Ready(op, v, reg)))
    {
      var at := Ready(op, v, reg);
      assert op.execute(at) == PushEffect(at);
    }
  }

  function SmallTable(target: View -> Address): JumpTable {
    (b: byte) =>
      if b == 0xF0 then CreateOperation(target)
      else if b == 0xF1 then CallOperation(target)
      else if b == 0x60 then DupOperation(0)
      else if b == 0x86 then DupOperation(7)
      else StopOperation()
  }

  /** The assumptions on tables are met by calls of any account, the origin and the caller included, by
      creations at any address, by pushes, and by free operations that end the frame. */
  lemma SmallTableMeetsAssumptions(target: View -> Address)
    ensures MeteredTable(SmallTable(target)) && ConservingTable(SmallTable(target)) && FitsRegisters(SmallTable(target))
  {
    var table := SmallTable(target);
    StopMeetsAssumptions();
    CallMeetsAssumptions(target);
    CreateMeetsAssumptions(target);
    DupMeetsAssumptions(0);
    DupMeetsAssumptions(7);
    forall b: byte
      ensures Metered(table(b)) && Conserving(table(b)) && table(b).minStack <= MAX_PARAMS
    {
      assert table(b) in {CreateOperation(target), CallOperation(target), DupOperation(0), DupOperation(7),
                          StopOperation()};
    }
  }

  /** Code that only stops returns no error and keeps its gas, wherever it is run. */
  lemma StopReturnsCleanly(target: View -> Address, rules: Rules, snapshots: bool, start: View, res: FrameResult)
    requires Fresh(start) && start.pc == 0
    requires FrameOutcome(Chain(SmallTable(target), rules, snapshots), [0], start, res)
    ensures res == FrameResult(start.env, [], start.gas, None)
  {
    var chain := Chain(SmallTable(target), rules, snapshots);
    var trace :| Execution(chain, [0], start, trace) && Finished(trace, res);
    PrefixExecution(chain, [0], start, trace, 0);
    var r: StepRecord := trace[0];
    var op := StopOperation();
    assert chain.table(0) == op && ChargesOf(op, start) == Paid(0, 0, 0, 0);
    assert op.execute(r.at) == StopEffect(r.at);
    assert !GoesOn(r);
    if |trace| > 1 {
      OnlyTheLastEnds(chain, [0], start, trace, 0);
      assert false;
    }
    FinishedIs(trace, res);
  }

  /** The same with one more operation, which looks at eight stack items. */
  function WideTable(target: View -> Address): JumpTable {
    (b: byte) => if b == 0x87 then DupOperation(8) else SmallTable(target)(b)
  }

  /** Pushes eight registers and looks at them all. */
  const WIDE_CODE: seq<byte> := [0x60, 0x60, 0x60, 0x60, 0x60, 0x60, 0x60, 0x60, 0x87]

  lemma {:induction false} PushesReach(chain: Chain, start: View, n: nat) returns (trace: seq<StepRecord>)
    requires chain.table(0x60) == DupOperation(0) && Fresh(start) && start.pc == 0 && n <= 8 < start.gas
    ensures Execution(chain, WIDE_CODE, start, trace) && Open(trace)
    ensures var v := Reached(start, trace);
            v.pc == n && |v.stack| == n && v.gas == start.gas - n && v.depth == start.depth
    decreases n
  {
    if n == 0 {
      trace := [];
    } else {
      trace := PushesReach(chain, start, n - 1);
      var v, op := Reached(start, trace), DupOperation(0);
      var at := Ready(op, v, 0);
      assert op.execute(at) == PushEffect(at);
      var r := StepRecord(0x60, v, at, Stepped(PushEffect(at).outcome));
      assert Legal(chain, WIDE_CODE, r);
      Extend(chain, WIDE_CODE, start, trace, r);
      trace := trace + [r];
    }
  }

  /** Metered and conserving operations can panic: eight pushes and one operation with eight parameters. */
  lemma WideTablePanics(target: View -> Address, rules: Rules, snapshots: bool, start: View)
    requires Fresh(start) && start.pc == 0 && 8 < start.gas
    ensures MeteredTable(WideTable(target)) && ConservingTable(WideTable(target))
    ensures FramePanics(Chain(WideTable(target), rules, snapshots), WIDE_CODE, start)
  {
    var chain := Chain(WideTable(target), rules, snapshots);
    SmallTableMeetsAssumptions(target);
    DupMeetsAssumptions(8);
    forall b: byte
      ensures Metered(chain.table(b)) && Conserving(chain.table(b))
    {
      assert chain.table(b) == if b == 0x87 then DupOperation(8) else SmallTable(target)(b);
    }
    assert chain.table(0x60) == DupOperation(0) && chain.table(0x87) == DupOperation(8);
    var trace := PushesReach(chain, start, 8);
    assert OperationPanics(chain, DupOperation(8), Ready(DupOperation(8), Reached(start, trace), 0));
    assert IterationPanics(chain, WIDE_CODE, Reached(start, trace));
  }
}
