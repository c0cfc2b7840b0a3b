/** The pool of symbolic registers: one register per executed operation, keyed by call depth,
    program counter and visit number, and linked to the registers on top of the stack. A pointer
    to a register is its position in the pool. */
module RegPool {
  import opened Words

  datatype Index = Index(depth: uint64, pc: uint64, loop: uint64)

  datatype Reg = Reg(index: Index, R4: Option<nat>, R3: Option<nat>, R2: Option<nat>, R1: Option<nat>,
                     R0: Option<nat>, M: Option<nat>, L: Option<nat>, me: nat)

  datatype RegKey = RegKey(index: Index, reg: Reg)

  const MAX_PARAMS := 7

  /** The i-th parameter, counted from the top of the stack. */
  function Param(r: Reg, i: nat): Option<nat>
    requires i < MAX_PARAMS
  {
    match i
    case 0 => r.L
    case 1 => r.M
    case 2 => r.R0
    case 3 => r.R1
    case 4 => r.R2
    case 5 => r.R3
    case _ => r.R4
  }

  /** The initialiser of one parameter field. */
  function SetParam(r: Reg, i: nat, param: Option<nat>): (r': Reg)
    requires i < MAX_PARAMS
    ensures r'.index == r.index && r'.me == r.me
    ensures forall j :: 0 <= j < MAX_PARAMS ==> Param(r', j) == if j == i then param else Param(r, j)
  {
    match i
    case 0 => r.(L := param)
    case 1 => r.(M := param)
    case 2 => r.(R0 := param)
    case 3 => r.(R1 := param)
    case 4 => r.(R2 := param)
    case 5 => r.(R3 := param)
    case _ => r.(R4 := param)
  }

  function CheckParam(stack: seq<nat>, offset: nat): Option<nat> {
    if offset >= |stack| then None else Some(stack[|stack| - offset - 1])
  }

  /** The parameters of `r` are the top `n` items of `stack`, top first, and nothing else. */
  ghost predicate Wired(r: Reg, stack: seq<nat>, n: nat) {
    n <= |stack| && n <= MAX_PARAMS &&
    forall i :: 0 <= i < MAX_PARAMS ==> Param(r, i) == if i < n then Some(stack[|stack| - 1 - i]) else None
  }

  /** Which field holds which stack item. */
  lemma WiredFields(r: Reg, stack: seq<nat>, n: nat)
    requires Wired(r, stack, n)
    ensures var top := |stack|;
            && r.L == (if n > 0 then Some(stack[top - 1]) else None)
            && r.M == (if n > 1 then Some(stack[top - 2]) else None)
            && r.R0 == (if n > 2 then Some(stack[top - 3]) else None)
            && r.R1 == (if n > 3 then Some(stack[top - 4]) else None)
            && r.R2 == (if n > 4 then Some(stack[top - 5]) else None)
            && r.R3 == (if n > 5 then Some(stack[top - 6]) else None)
            && r.R4 == (if n > 6 then Some(stack[top - 7]) else None)
  {
    assert Param(r, 0) == r.L && Param(r, 1) == r.M && Param(r, 2) == r.R0 && Param(r, 3) == r.R1;
    assert Param(r, 4) == r.R2 && Param(r, 5) == r.R3 && Param(r, 6) == r.R4;
  }

  /** None is the panic on an eighth parameter. */
  method NewReg(index: Index, me: nat, stack: seq<nat>, minStack: nat) returns (r: Option<Reg>)
    requires minStack <= |stack|
    ensures r.None? <==> minStack > MAX_PARAMS
    ensures r.Some? ==> r.value.index == index && r.value.me == me && Wired(r.value, stack, minStack)
  {
    var reg := Reg(index, None, None, None, None, None, None, None, me);
    for i := 0 to minStack
      invariant i <= MAX_PARAMS
      invariant reg.index == index && reg.me == me && Wired(reg, stack, i)
    {
      var param := CheckParam(stack, i);
      if i >= MAX_PARAMS {
        return None;
      }
      reg := SetParam(reg, i, param);
    }
    r := Some(reg);
  }

  /** How many entries of the list were made at this depth and program counter. */
  function Visits(list: seq<RegKey>, depth: uint64, pc: uint64): nat {
    if list == [] then 0
    else
      var last := list[|list| - 1].index;
      Visits(list[..|list| - 1], depth, pc) + (if last.depth == depth && last.pc == pc then 1 else 0)
  }

  /** Every entry is numbered by the visits before it, modulo the word size. */
  ghost predicate Numbered(list: seq<RegKey>) {
    forall k :: 0 <= k < |list| ==>
      && list[k].reg.index == list[k].index
      && list[k].reg.me == k
      && list[k].index.loop == Wrap64(Visits(list[..k], list[k].index.depth, list[k].index.pc))
  }

  /** Parameters point to strictly earlier entries. */
  ghost predicate Backward(list: seq<RegKey>) {
    forall k, i :: 0 <= k < |list| && 0 <= i < MAX_PARAMS && Param(list[k].reg, i).Some?
      ==> Param(list[k].reg, i).value < k
  }

  /** The table holds the last visit number given out, where there was a visit. */
  ghost predicate Tallied(table: map<(uint64, uint64), uint64>, list: seq<RegKey>) {
    forall d: uint64, p: uint64 ::
      var n := Visits(list, d, p);
      ((d, p) in table <==> n > 0) && (n > 0 ==> table[(d, p)] == Wrap64(n - 1))
  }

  lemma WrapNext(n: nat)
    ensures n > 0 ==> Wrap64(1 + Wrap64(n - 1)) == Wrap64(n)
  {
    if n > 0 {
      WrapSum(1, n - 1);
    }
  }

  lemma AppendKeepsTally(table: map<(uint64, uint64), uint64>, list: seq<RegKey>, e: RegKey)
    requires Tallied(table, list)
    ensures Tallied(table[(e.index.depth, e.index.pc) := Wrap64(Visits(list, e.index.depth, e.index.pc))], list + [e])
  {
    assert (list + [e])[..|list|] == list;
  }

  lemma AppendKeepsShape(list: seq<RegKey>, e: RegKey, stack: seq<nat>, n: nat)
    requires Numbered(list) && Backward(list)
    requires e.reg.index == e.index && e.reg.me == |list|
    requires e.index.loop == Wrap64(Visits(list, e.index.depth, e.index.pc))
    requires Wired(e.reg, stack, n) && forall x :: x in stack ==> x < |list|
    ensures Numbered(list + [e]) && Backward(list + [e])
  {
    var longer := list + [e];
    assert longer[..|list|] == list;
    forall k | 0 <= k < |longer|
      ensures longer[k].index.loop == Wrap64(Visits(longer[..k], longer[k].index.depth, longer[k].index.pc))
    {
      assert longer[..k] == list[..k];
    }
    forall k, i | 0 <= k < |longer| && 0 <= i < MAX_PARAMS && Param(longer[k].reg, i).Some?
      ensures Param(longer[k].reg, i).value < k
    {
      if k == |list| { assert stack[|stack| - 1 - i] in stack; }
    }
  }

  class RegPool {
    var regkeyList: seq<RegKey>
    var loopLookUpTable: map<(uint64, uint64), uint64>

    ghost predicate Valid()
      reads this
    {
      && Numbered(regkeyList)
      && Backward(regkeyList)
      && Tallied(loopLookUpTable, regkeyList)
    }

    constructor ()
      ensures Valid() && regkeyList == []
    {
      regkeyList := [];
      loopLookUpTable := map[];
    }

    method Lookup(pc: uint64, depth: uint64) returns (loop: uint64)
      modifies this`loopLookUpTable
      ensures loop == if (depth, pc) in old(loopLookUpTable) then Wrap64(1 + old(loopLookUpTable)[(depth, pc)] as int)
                      else 0
      ensures loopLookUpTable == old(loopLookUpTable)[(depth, pc) := loop]
    {
      var query := (depth, pc);
      if query in loopLookUpTable {
        loopLookUpTable := loopLookUpTable[query := Wrap64(1 + loopLookUpTable[query] as int)];
      } else {
        loopLookUpTable := loopLookUpTable[query := 0];
      }
      loop := loopLookUpTable[query];
    }

    /** Adds the register of one executed operation; None is the panic of `NewReg`. */
    method Append(pc: uint64, depth: uint64, stack: seq<nat>, minStack: nat) returns (r: Option<nat>)
      requires Valid() && minStack <= |stack|
      requires forall x :: x in stack ==> x < |regkeyList|
      modifies this
      ensures r.None? <==> minStack > MAX_PARAMS
      ensures r.None? ==> regkeyList == old(regkeyList)
      ensures r.Some? ==>
        && Valid()
        && r.value == |old(regkeyList)|
        && |regkeyList| == |old(regkeyList)| + 1
        && regkeyList[..|old(regkeyList)|] == old(regkeyList)
        && regkeyList[r.value].index
           == Index(depth, pc, Wrap64(Visits(old(regkeyList), depth, pc)))
        && Wired(regkeyList[r.value].reg, stack, minStack)
    {
      ghost var before := regkeyList;
      var loop := Lookup(pc, depth);
      WrapNext(Visits(before, depth, pc));
      assert loop == Wrap64(Visits(before, depth, pc));
      var index := Index(depth, pc, loop);
      var reg := NewReg(index, |regkeyList|, stack, minStack);
      if reg.None? {
        return None;
      }
      regkeyList := regkeyList + [RegKey(index, reg.value)];
      AppendKeepsShape(before, RegKey(index, reg.value), stack, minStack);
      AppendKeepsTally(old(loopLookUpTable), before, RegKey(index, reg.value));
      r := Some(|regkeyList| - 1);
    }
  }

  lemma {:induction false} VisitsGrow(list: seq<RegKey>, i: nat, j: nat, depth: uint64, pc: uint64)
    requires i <= j <= |list|
    ensures Visits(list[..i], depth, pc) <= Visits(list[..j], depth, pc)
    ensures i < j && list[i].index.depth == depth && list[i].index.pc == pc
            ==> Visits(list[..i], depth, pc) < Visits(list[..j], depth, pc)
    ensures Visits(list[..j], depth, pc) <= j
    decreases j
  {
    if i < j {
      assert list[..j][..j - 1] == list[..j - 1];
      VisitsGrow(list, i, j - 1, depth, pc);
    } else if j > 0 {
      assert list[..j][..j - 1] == list[..j - 1];
      VisitsGrow(list, j - 1, j - 1, depth, pc);
    }
  }

  /** While the pool holds at most 2^64 entries, no two entries share an index. */
  lemma KeysAreUnique(list: seq<RegKey>, i: nat, j: nat)
    requires Numbered(list) && |list| <= U64 && i < j < |list|
    ensures list[i].index != list[j].index
  {
    var index := list[i].index;
    VisitsGrow(list, i, j, index.depth, index.pc);
    VisitsGrow(list, i, i, index.depth, index.pc);
  }

  /** The visit numbers at each depth and program counter are exactly 0, 1, ..., n-1, in order:
      the entry numbered `v` exists, and every entry before it there has a smaller number. */
  lemma {:induction false} VisitsAreConsecutive(list: seq<RegKey>, depth: uint64, pc: uint64, v: nat) returns (k: nat)
    requires Numbered(list) && |list| <= U64 && v < Visits(list, depth, pc)
    ensures k < |list| && v < U64 && list[k].index == Index(depth, pc, v)
    ensures forall j :: 0 <= j < k && list[j].index.depth == depth && list[j].index.pc == pc
                        ==> list[j].index.loop < v
    decreases |list|
  {
    var n := |list| - 1;
    var last := list[n].index;
    var shorter := list[..n];
    assert Numbered(shorter) by {
      assert forall m :: 0 <= m < n ==> shorter[..m] == list[..m];
    }
    if v < Visits(shorter, depth, pc) {
      k := VisitsAreConsecutive(shorter, depth, pc, v);
    } else {
      k := n;
      assert list[..n][..n] == list[..n];
      VisitsGrow(list, n, n, depth, pc);
      forall j | 0 <= j < k && list[j].index.depth == depth && list[j].index.pc == pc
        ensures list[j].index.loop < v
      {
        VisitsGrow(list, j, n, depth, pc);
        VisitsGrow(list, j, j, depth, pc);
      }
    }
  }

  /** The expression a register stands for. */
  datatype Expr = Absent | Node(index: Index, params: seq<Expr>)

  /** Unfolding follows the parameters and ends because they point backward. */
  ghost function Unfold(list: seq<RegKey>, k: nat): (e: Expr)
    requires Backward(list) && k < |list|
    ensures e.Node? && e.index == list[k].index && |e.params| == MAX_PARAMS
    ensures forall i :: 0 <= i < MAX_PARAMS ==>
      e.params[i] == UnfoldParam(list, k, i)
    decreases k, 1
  {
    Node(list[k].index,
         [UnfoldParam(list, k, 0), UnfoldParam(list, k, 1), UnfoldParam(list, k, 2), UnfoldParam(list, k, 3),
          UnfoldParam(list, k, 4), UnfoldParam(list, k, 5), UnfoldParam(list, k, 6)])
  }

  ghost function UnfoldParam(list: seq<RegKey>, k: nat, i: nat): Expr
    requires Backward(list) && k < |list| && i < MAX_PARAMS
    decreases k, 0
  {
    var p := Param(list[k].reg, i);
    if p.None? then Absent else Unfold(list, p.value)
  }

  /** Each parameter unfolds to what the register it points to stands for. */
  lemma UnfoldIs(list: seq<RegKey>, k: nat, i: nat)
    requires Backward(list) && k < |list| && i < MAX_PARAMS
    ensures var p, e := Param(list[k].reg, i), Unfold(list, k);
            && (p.None? ==> e.params[i] == Absent)
            && (p.Some? ==> e.params[i] == Unfold(list, p.value) && e.params[i].Node?)
  {
    assert Unfold(list, k).params[i] == UnfoldParam(list, k, i);
  }

  lemma PrefixBackward(list: seq<RegKey>, longer: seq<RegKey>)
    requires Backward(longer) && |list| <= |longer| && longer[..|list|] == list
    ensures Backward(list)
  {
    forall k, i | 0 <= k < |list| && 0 <= i < MAX_PARAMS && Param(list[k].reg, i).Some?
      ensures Param(list[k].reg, i).value < k
    {
      assert longer[k] == list[k];
    }
  }

  /** Later registers never change what an earlier one stands for. */
  lemma {:induction false} UnfoldIsStable(list: seq<RegKey>, longer: seq<RegKey>, k: nat)
    requires Backward(longer) && |list| <= |longer| && longer[..|list|] == list && k < |list|
    ensures Backward(list)
    ensures Unfold(longer, k) == Unfold(list, k)
    decreases k
  {
    PrefixBackward(list, longer);
    forall i | 0 <= i < MAX_PARAMS
      ensures UnfoldParam(longer, k, i) == UnfoldParam(list, k, i)
    {
      assert longer[k] == list[k];
      var p := Param(list[k].reg, i);
      if p.Some? {
        UnfoldIsStable(list, longer, p.value);
      }
    }
    assert Unfold(longer, k).params == Unfold(list, k).params;
  }
}
