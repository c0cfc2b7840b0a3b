/** Reads are invisible, and undoing the journal newest first restores what any reader can see. */
module StateDBProperties {
  import opened Words
  import opened StateDB

  /** No getter tells the two objects apart. */
  ghost predicate SameObject(x: StateObject, y: StateObject) {
    && x.nonce == y.nonce && x.balance == y.balance && x.root == y.root && x.codeHash == y.codeHash
    && x.newContract == y.newContract
    && forall key :: Committed(x, key) == Committed(y, key) && Current(x, key) == Current(y, key)
  }

  ghost predicate SameLook(x: Option<StateObject>, y: Option<StateObject>) {
    if x.None? || y.None? then x == y else SameObject(x.value, y.value)
  }

  /** No lookup tells the two databases apart. */
  ghost predicate Indistinguishable(x: DB, y: DB) {
    x.destructed == y.destructed && forall a :: SameLook(Look(x, a), Look(y, a))
  }

  /** What each slot reads as: an uncommitted write before a pending one, that before a cached original,
      and zero where there is none. */
  lemma SlotIs(o: StateObject, key: Key)
    ensures key in o.dirtyStorage ==> Current(o, key) == o.dirtyStorage[key]
    ensures key !in o.dirtyStorage ==> Current(o, key) == Committed(o, key)
    ensures key in o.pendingStorage ==> Committed(o, key) == o.pendingStorage[key]
    ensures key !in o.pendingStorage && key in o.originStorage ==> Committed(o, key) == o.originStorage[key]
    ensures key !in o.pendingStorage && key !in o.originStorage ==> Committed(o, key) == 0
    ensures Cached(o, key) == o.(originStorage := Cached(o, key).originStorage)
    ensures Cached(o, key).originStorage
         == if key in o.pendingStorage || key in o.originStorage then o.originStorage else o.originStorage[key := 0]
  {
  }

  /** A lookup finds what is live, nothing for a destructed account, and otherwise an account without
      nonce, balance, code or storage, which it inserts. */
  lemma LookIs(db: DB, a: Address)
    ensures a in db.objects ==> Look(db, a) == Some(db.objects[a]) && Touch(db, a) == db
    ensures a !in db.objects && a in db.destructed ==> Look(db, a) == None && Touch(db, a) == db
    ensures a !in db.objects && a !in db.destructed ==>
      && Look(db, a) == Some(StateObject(0, 0, EMPTY_ROOT, EMPTY_CODE_HASH, map[], map[], map[], false))
      && Touch(db, a) == db.(objects := db.objects[a := Look(db, a).value])
  {
  }

  /** Making an account a contract raises its flag and nothing else, with one entry if the flag was down. */
  lemma ContractedIs(db: DB, a: Address)
    ensures Contracted(db, a).None? <==> a !in db.objects && a in db.destructed
    ensures Contracted(db, a).Some? ==>
      var after, was := Contracted(db, a).value, Look(db, a).value;
      && Look(after, a) == Some(was.(newContract := true))
      && (forall b :: b != a ==> Look(after, b) == Look(db, b))
      && after.entries == db.entries + (if was.newContract then [] else [CreateContractChange(a)])
      && after.dirties == db.dirties && after.destructed == db.destructed
  {
  }

  /** Creating an account overwrites it with an empty one and counts it. */
  lemma CreatedIs(db: DB, a: Address)
    ensures var after := Created(db, a);
            && Look(after, a) == Some(StateObject(0, 0, EMPTY_ROOT, EMPTY_CODE_HASH, map[], map[], map[], false))
            && (forall b :: b != a ==> Look(after, b) == Look(db, b))
            && after.entries == db.entries + [CreateObjectChange(a)]
            && after.dirties == db.dirties[a := 1 + if a in db.dirties then db.dirties[a] else 0]
            && after.destructed == db.destructed
  {
  }

  /** Undoing an entry drops the account, or lowers its flag; a destructed account that is not live has
      none to lower. */
  lemma RevertedIs(db: DB, a: Address)
    ensures Reverted(db, CreateObjectChange(a)) == Some(db.(objects := db.objects - {a}))
    ensures Reverted(db, CreateContractChange(a)).None? <==> a !in db.objects && a in db.destructed
    ensures Reverted(db, CreateContractChange(a)).Some? ==>
      var after := Reverted(db, CreateContractChange(a)).value;
      && Look(after, a) == Some(Look(db, a).value.(newContract := false))
      && (forall b :: b != a ==> Look(after, b) == Look(db, b))
      && after.entries == db.entries && after.dirties == db.dirties && after.destructed == db.destructed
  {
  }

  /** Reads, and creations guarded as contract creation guards them. */
  datatype Op = ReadAccount(a: Address) | ReadSlot(a: Address, key: Key) | Deploy(a: Address)

  /** None is a nil dereference. */
  function Do(db: DB, op: Op): Option<DB> {
    match op
    case ReadAccount(a) => Some(Touch(db, a))
    case ReadSlot(a, key) => Some(SlotRead(db, a, key))
    case Deploy(a) =>
      var touched := Touch(db, a);
      Contracted(if Look(db, a).Some? then touched else Created(touched, a), a)
  }

  function DoAll(db: DB, ops: seq<Op>): Option<DB> {
    if ops == [] then Some(db)
    else
      var before := DoAll(db, ops[..|ops| - 1]);
      if before.None? then None else Do(before.value, ops[|ops| - 1])
  }

  /** Undoes the entries, newest first. */
  function Unwind(db: DB, entries: seq<JournalEntry>): Option<DB>
    decreases |entries|
  {
    if entries == [] then Some(db)
    else
      var r := Reverted(db, entries[|entries| - 1]);
      if r.None? then None else Unwind(r.value, entries[..|entries| - 1])
  }

  /** Reads change nothing that a reader can see. */
  lemma ReadsAreInvisible(db: DB, op: Op)
    requires !op.Deploy?
    ensures Do(db, op).Some? && Indistinguishable(Do(db, op).value, db) && Do(db, op).value.entries == db.entries
  {
  }

  lemma FlagIsNoSlot(x: StateObject, y: StateObject, flag: bool)
    requires SameObject(x, y)
    ensures SameObject(x.(newContract := flag), y.(newContract := flag))
  {
    forall key
      ensures Committed(x.(newContract := flag), key) == Committed(y.(newContract := flag), key)
      ensures Current(x.(newContract := flag), key) == Current(y.(newContract := flag), key)
    {
      assert Committed(x, key) == Committed(y, key) && Current(x, key) == Current(y, key);
    }
  }

  lemma LooksChain(x: DB, y: DB, z: DB)
    requires Indistinguishable(x, y) && Indistinguishable(y, z)
    ensures Indistinguishable(x, z)
  {
    forall a
      ensures SameLook(Look(x, a), Look(z, a))
    {
      assert SameLook(Look(x, a), Look(y, a)) && SameLook(Look(y, a), Look(z, a));
    }
  }

  lemma RevertedLooks(x: DB, y: DB, e: JournalEntry, b: Address)
    requires Indistinguishable(x, y) && Reverted(x, e).Some? && Reverted(y, e).Some?
    ensures SameLook(Look(Reverted(x, e).value, b), Look(Reverted(y, e).value, b))
  {
    assert SameLook(Look(x, b), Look(y, b));
    if b == e.account && e.CreateContractChange? {
      FlagIsNoSlot(Look(x, b).value, Look(y, b).value, false);
    }
  }

  /** Undoing an entry treats indistinguishable databases alike. */
  lemma RevertRespectsLooks(x: DB, y: DB, e: JournalEntry)
    requires Indistinguishable(x, y)
    ensures Reverted(x, e).Some? <==> Reverted(y, e).Some?
    ensures Reverted(x, e).Some? ==> Indistinguishable(Reverted(x, e).value, Reverted(y, e).value)
  {
    var a := e.account;
    assert SameLook(Look(x, a), Look(y, a));
    if Reverted(x, e).Some? {
      var rx, ry := Reverted(x, e).value, Reverted(y, e).value;
      forall b
        ensures SameLook(Look(rx, b), Look(ry, b))
      {
        RevertedLooks(x, y, e, b);
      }
    }
  }

  lemma {:induction false} UnwindRespectsLooks(x: DB, y: DB, entries: seq<JournalEntry>)
    requires Indistinguishable(x, y)
    ensures Unwind(x, entries).Some? <==> Unwind(y, entries).Some?
    ensures Unwind(x, entries).Some? ==> Indistinguishable(Unwind(x, entries).value, Unwind(y, entries).value)
    decreases |entries|
  {
    if entries == [] {
    } else {
      var e := entries[|entries| - 1];
      RevertRespectsLooks(x, y, e);
      if Reverted(x, e).Some? {
        UnwindRespectsLooks(Reverted(x, e).value, Reverted(y, e).value, entries[..|entries| - 1]);
      }
    }
  }

  lemma {:induction false} UnwindSplits(db: DB, early: seq<JournalEntry>, late: seq<JournalEntry>)
    ensures Unwind(db, early + late)
         == (var r := Unwind(db, late); if r.None? then None else Unwind(r.value, early))
    decreases |late|
  {
    if late == [] {
      assert early + late == early;
    } else {
      var e := late[|late| - 1];
      var r := Reverted(db, e);
      assert (early + late)[..|early + late| - 1] == early + late[..|late| - 1];
      if r.Some? {
        UnwindSplits(r.value, early, late[..|late| - 1]);
      }
    }
  }

  lemma DeployUnwinds(db: DB, a: Address)
    ensures Do(db, Deploy(a)).Some?
    ensures var after := Do(db, Deploy(a)).value;
            && |after.entries| >= |db.entries| && after.entries[..|db.entries|] == db.entries
            && var added := after.entries[|db.entries|..];
               Unwind(after, added).Some? && Indistinguishable(Unwind(after, added).value, db)
  {
    var after := Do(db, Deploy(a)).value;
    var added := after.entries[|db.entries|..];
    var undone := CreateContractChange(a);
    if Look(db, a).None? {
      assert added == [CreateObjectChange(a), undone];
      assert added[..1] == [CreateObjectChange(a)];
      var r := Reverted(after, undone).value;
      assert Unwind(r, [CreateObjectChange(a)]) == Unwind(Reverted(r, CreateObjectChange(a)).value, []);
    } else if Look(db, a).value.newContract {
      assert added == [];
    } else {
      assert added == [undone];
      assert added[..0] == [];
    }
  }

  /** One operation never fails, journals something at most, and is undone by its own entries. */
  lemma OneOpUnwinds(db: DB, op: Op)
    ensures Do(db, op).Some?
    ensures var after := Do(db, op).value;
            && |after.entries| >= |db.entries| && after.entries[..|db.entries|] == db.entries
            && var added := after.entries[|db.entries|..];
               Unwind(after, added).Some? && Indistinguishable(Unwind(after, added).value, db)
  {
    var after := Do(db, op).value;
    var added := after.entries[|db.entries|..];
    match op
    case ReadAccount(_) =>
      ReadsAreInvisible(db, op);
      assert added == [];
    case ReadSlot(_, _) =>
      ReadsAreInvisible(db, op);
      assert added == [];
    case Deploy(a) => DeployUnwinds(db, a);
  }

  lemma UnwindBoth(after: DB, before: DB, db: DB, early: seq<JournalEntry>, late: seq<JournalEntry>)
    requires Unwind(after, late).Some? && Indistinguishable(Unwind(after, late).value, before)
    requires Unwind(before, early).Some? && Indistinguishable(Unwind(before, early).value, db)
    ensures Unwind(after, early + late).Some? && Indistinguishable(Unwind(after, early + late).value, db)
  {
    var middle := Unwind(after, late).value;
    UnwindSplits(after, early, late);
    UnwindRespectsLooks(middle, before, early);
    LooksChain(Unwind(middle, early).value, Unwind(before, early).value, db);
  }

  lemma AddedSince(first: seq<JournalEntry>, second: seq<JournalEntry>, third: seq<JournalEntry>)
    requires |first| <= |second| <= |third| && second[..|first|] == first && third[..|second|] == second
    ensures third[..|first|] == first
    ensures third[|first|..] == second[|first|..] + third[|second|..]
  {
    assert third == second + third[|second|..];
  }

  /** Any run of reads and guarded creations, undone newest entry first: nothing dereferences a missing
      account on the way there or back, and in the end no reader can tell anything happened. */
  lemma {:induction false} UnwindingRestores(db: DB, ops: seq<Op>)
    ensures DoAll(db, ops).Some?
    ensures var after := DoAll(db, ops).value;
            && |after.entries| >= |db.entries| && after.entries[..|db.entries|] == db.entries
            && var undone := Unwind(after, after.entries[|db.entries|..]);
               undone.Some? && Indistinguishable(undone.value, db)
    decreases |ops|
  {
    var n := |db.entries|;
    if ops == [] {
    } else {
      var earlier, op := ops[..|ops| - 1], ops[|ops| - 1];
      UnwindingRestores(db, earlier);
      var before := DoAll(db, earlier).value;
      OneOpUnwinds(before, op);
      var after := Do(before, op).value;
      var early, late := before.entries[n..], after.entries[|before.entries|..];
      AddedSince(db.entries, before.entries, after.entries);
      UnwindBoth(after, before, db, early, late);
    }
  }

  function Creations(entries: seq<JournalEntry>, a: Address): nat {
    if entries == [] then 0
    else Creations(entries[..|entries| - 1], a) + (if entries[|entries| - 1] == CreateObjectChange(a) then 1 else 0)
  }

  /** `dirties` counts the creations of each account. */
  ghost predicate Counted(db: DB) {
    forall a :: Creations(db.entries, a) == if a in db.dirties then db.dirties[a] else 0
  }

  lemma JournalledCounts(db: DB, e: JournalEntry)
    requires Counted(db)
    ensures Counted(Journalled(db, e))
  {
    assert (db.entries + [e])[..|db.entries|] == db.entries;
  }

  lemma {:induction false} RunsKeepCounts(db: DB, ops: seq<Op>)
    requires Counted(db)
    ensures DoAll(db, ops).Some? && Counted(DoAll(db, ops).value)
    decreases |ops|
  {
    UnwindingRestores(db, ops);
    if ops == [] {
    } else {
      RunsKeepCounts(db, ops[..|ops| - 1]);
      var before, op := DoAll(db, ops[..|ops| - 1]).value, ops[|ops| - 1];
      if op.Deploy? {
        var touched := Touch(before, op.a);
        JournalledCounts(touched, CreateObjectChange(op.a));
        var ready := if Look(before, op.a).Some? then touched else Created(touched, op.a);
        JournalledCounts(ready.(objects := ready.objects[op.a := ready.objects[op.a].(newContract := true)]),
                         CreateContractChange(op.a));
      }
    }
  }

  /** Without the guard, undoing a creation restores the account exactly when there was none, or when
      it was still as empty as a fresh one and could not come back destructed. */
  lemma UnguardedCreationRestoresIff(db: DB, a: Address)
    ensures var undone := Reverted(Created(db, a), CreateObjectChange(a));
            undone.Some? &&
            (Indistinguishable(undone.value, db)
             <==> Look(db, a).None? || (a !in db.destructed && SameObject(Look(db, a).value, EMPTY_OBJECT)))
  {
    var undone := Reverted(Created(db, a), CreateObjectChange(a)).value;
    assert forall b :: b != a ==> Look(undone, b) == Look(db, b);
    assert Look(undone, a) == if a in db.destructed then None else Some(EMPTY_OBJECT);
    assert Indistinguishable(undone, db) <==> SameLook(Look(undone, a), Look(db, a));
  }
}
