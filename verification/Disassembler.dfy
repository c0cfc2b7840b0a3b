/** The bytecode iterator: a stateful parser proved against a recursive decoder, whose output tiles
    the code and is inverse to serialising. */
module Disassembler {
  import opened Words

  const PUSH0 := 0x5f
  const PUSH32 := 0x7f

  type Code = s: seq<byte> | |s| < 0x8000_0000_0000_0000 witness []

  predicate IsPush(op: byte) { PUSH0 <= op <= PUSH32 }

  /** How many bytes of argument an opcode carries. */
  function Width(op: byte): nat { if IsPush(op) then op - PUSH0 else 0 }

  /** The opcodes 0x5f to 0x7f push, and carry none to thirty-two bytes in turn; no other carries any. */
  lemma WidthIs(op: byte)
    ensures IsPush(op) <==> 0x5f <= op <= 0x7f
    ensures IsPush(op) ==> op == 0x5f + Width(op)
    ensures !IsPush(op) ==> Width(op) == 0
    ensures Width(0x5f) == 0 && Width(0x60) == 1 && Width(0x7f) == 32
  {
  }

  datatype Instr = Instr(pc: nat, op: byte, arg: seq<byte>)

  /** `error` is the position of a push whose argument is cut off by the end of the code. */
  datatype Listing = Listing(instrs: seq<Instr>, error: Option<nat>)

  function Decode(code: seq<byte>, pc: nat): Listing
    decreases |code| - pc
  {
    if pc >= |code| then Listing([], None)
    else
      var next := pc + 1 + Width(code[pc]);
      if next > |code| then Listing([], Some(pc))
      else
        var rest := Decode(code, next);
        Listing([Instr(pc, code[pc], code[pc + 1..next])] + rest.instrs, rest.error)
  }

  class InstructionIterator {
    const code: Code
    var pc: uint64
    var arg: Option<seq<byte>>
    var op: byte
    var error: Option<nat>
    var started: bool

    constructor (code: Code)
      ensures this.code == code && Valid() && Rest() == Decode(code, 0) && error.None?
    {
      this.code := code;
      pc, arg, op, error, started := 0, None, 0, None, false;
    }

    ghost predicate Valid()
      reads this
    {
      && pc <= |code|
      && (!started ==> pc == 0 && arg.None? && error.None?)
      && (error.Some? ==> arg.None?)
      && (started && error.None? && pc < |code| ==>
            && op == code[pc]
            && pc + 1 + Width(op) <= |code|
            && arg == if IsPush(op) then Some(code[pc + 1..pc + 1 + Width(op)]) else None)
    }

    function Arg(): seq<byte>
      reads this
    {
      if arg.Some? then arg.value else []
    }

    /** What is still to come. */
    ghost function Rest(): Listing
      requires Valid()
      reads this
    {
      if error.Some? then Listing([], error)
      else if started && pc < |code| then Decode(code, pc + 1 + Width(op))
      else if started then Listing([], None)
      else Decode(code, 0)
    }

    /** Moves to the next instruction of the listing; false at its end, where the error shows. Once
        nothing is to come nothing ever is, so false stays false. */
    method Next() returns (more: bool)
      requires Valid()
      modifies this
      ensures Valid()
      ensures more <==> old(Rest()).instrs != []
      ensures more ==> Instr(pc, op, Arg()) == old(Rest()).instrs[0]
                       && Rest() == Listing(old(Rest()).instrs[1..], old(Rest()).error)
                       && error.None?
      ensures !more ==> Rest() == old(Rest()) && error == old(Rest()).error
    {
      if error.Some? || |code| <= pc {
        return false;
      }
      if started {
        if arg.Some? {
          pc := pc + |arg.value|;
          arg := None;
        }
        pc := pc + 1;
      } else {
        started := true;
      }
      if |code| <= pc {
        return false;
      }
      op := code[pc];
      if IsPush(op) {
        var a := op - PUSH0;
        var u := pc + 1 + a;
        if |code| < u {
          error := Some(pc);
          return false;
        }
        arg := Some(code[pc + 1..u]);
      } else {
        arg := None;
      }
      more := true;
    }
  }

  lemma TakeOne(done: seq<Instr>, left: seq<Instr>)
    requires left != []
    ensures done + left == done + [left[0]] + left[1..]
  {
    assert left == [left[0]] + left[1..];
  }

  /** The lines of the listing, or the error; the text of a line is left to its instruction. */
  method Disassemble(script: Code) returns (r: Result<seq<Instr>, nat>)
    ensures r == match Decode(script, 0).error
                 case None => Ok(Decode(script, 0).instrs)
                 case Some(pc) => Err(pc)
  {
    var instrs := [];
    ghost var all := Decode(script, 0);
    ghost var left := all.instrs;
    var it := new InstructionIterator(script);
    var more := it.Next();
    while more
      invariant instrs + left == all.instrs && more == (left != [])
      invariant it.Valid() && it.Rest() == Listing(if more then left[1..] else [], all.error)
      invariant more ==> Instr(it.pc, it.op, it.Arg()) == left[0]
      invariant !more ==> it.error == all.error
      decreases left
    {
      TakeOne(instrs, left);
      left := left[1..];
      instrs := instrs + [Instr(it.pc, it.op, it.Arg())];
      more := it.Next();
    }
    assert instrs == all.instrs;
    if it.error.Some? {
      return Err(it.error.value);
    }
    r := Ok(instrs);
  }

  /** The instructions follow each other without gaps from `pc`, each with its full argument. */
  ghost predicate Tiles(instrs: seq<Instr>, pc: nat) {
    instrs == [] ||
    (instrs[0].pc == pc && |instrs[0].arg| == Width(instrs[0].op)
     && Tiles(instrs[1..], pc + 1 + |instrs[0].arg|))
  }

  function Serialize(instrs: seq<Instr>): seq<byte> {
    if instrs == [] then [] else [instrs[0].op] + instrs[0].arg + Serialize(instrs[1..])
  }

  lemma SlicesJoin(code: seq<byte>, pc: nat, next: nat, end: nat)
    requires pc < next <= end <= |code|
    ensures code[pc..end] == [code[pc]] + code[pc + 1..next] + code[next..end]
  {
  }

  /** The listing tiles the code from `pc` and spells it back, up to the truncated push if there is
      one; and there is one exactly where a push reaches past the end. */
  lemma {:induction false} DecodeTiles(code: seq<byte>, pc: nat)
    requires pc <= |code|
    ensures var l := Decode(code, pc);
            && Tiles(l.instrs, pc)
            && (l.error.None? ==> Serialize(l.instrs) == code[pc..])
            && (l.error.Some? ==> pc <= l.error.value < |code|
                                  && Serialize(l.instrs) == code[pc..l.error.value]
                                  && l.error.value + 1 + Width(code[l.error.value]) > |code|)
    decreases |code| - pc
  {
    if pc == |code| {
    } else {
      var next := pc + 1 + Width(code[pc]);
      if next <= |code| {
        DecodeTiles(code, next);
        var l := Decode(code, pc);
        var rest := Decode(code, next);
        assert l.instrs[1..] == rest.instrs && l.error == rest.error;
        var end := if l.error.Some? then l.error.value else |code|;
        SlicesJoin(code, pc, next, end);
        assert Serialize(rest.instrs) == code[next..end];
      }
    }
  }

  lemma DecodeStep(code: seq<byte>, i: Instr, next: nat)
    requires next == i.pc + 1 + Width(i.op) <= |code| && code[i.pc] == i.op && code[i.pc + 1..next] == i.arg
    ensures var rest := Decode(code, next);
            Decode(code, i.pc) == Listing([i] + rest.instrs, rest.error)
  {
  }

  /** Serialising any tiled instruction list and decoding it gives the list back. */
  lemma {:induction false} SerializeDecodes(instrs: seq<Instr>, before: seq<byte>)
    requires Tiles(instrs, |before|)
    ensures Decode(before + Serialize(instrs), |before|) == Listing(instrs, None)
    decreases |instrs|
  {
    if instrs == [] {
      assert before + Serialize(instrs) == before;
    } else {
      var i := instrs[0];
      var longer := before + [i.op] + i.arg;
      var code := longer + Serialize(instrs[1..]);
      assert before + Serialize(instrs) == code;
      SerializeDecodes(instrs[1..], longer);
      assert |longer| == |before| + 1 + Width(i.op) && code[|before|] == i.op;
      assert code[|before| + 1..|longer|] == i.arg;
      DecodeStep(code, i, |longer|);
    }
  }

  /** Accepted scripts with the same listing are the same script. */
  lemma ListingIsInjective(a: seq<byte>, b: seq<byte>)
    requires Decode(a, 0).error.None? && Decode(b, 0).error.None?
    ensures Decode(a, 0) == Decode(b, 0) <==> a == b
  {
    DecodeTiles(a, 0);
    DecodeTiles(b, 0);
    assert a[0..] == a && b[0..] == b;
  }

  /** A script is accepted exactly when some tiled instruction list serialises to it. */
  lemma AcceptedIff(code: seq<byte>)
    ensures Decode(code, 0).error.None? <==> exists l :: Tiles(l, 0) && Serialize(l) == code
  {
    DecodeTiles(code, 0);
    if Decode(code, 0).error.None? {
      assert code[0..] == code;
      assert Tiles(Decode(code, 0).instrs, 0) && Serialize(Decode(code, 0).instrs) == code;
    }
    forall l | Tiles(l, 0) && Serialize(l) == code
      ensures Decode(code, 0).error.None?
    {
      SerializeDecodes(l, []);
      assert [] + Serialize(l) == code;
    }
  }
}
