/** The state database: accounts that come into being when they are read, storage caches, and the
    journal of creations with its entries' undo operations. */
module StateDB {
  import opened Words

  type Address = nat
  type Key = nat
  type Value = nat

  datatype StateObject = StateObject(nonce: uint64, balance: uint256, root: nat, codeHash: nat,
                                     originStorage: map<Key, Value>, dirtyStorage: map<Key, Value>,
                                     pendingStorage: map<Key, Value>, newContract: bool)

  const EMPTY_ROOT: nat := 1
  const EMPTY_CODE_HASH: nat := 2

  /** What `newObject` builds for an account without data; the hashes stand for the fixed hashes of
      the empty trie and of empty code. */
  const EMPTY_OBJECT := StateObject(0, 0, EMPTY_ROOT, EMPTY_CODE_HASH, map[], map[], map[], false)

  datatype JournalEntry = CreateObjectChange(account: Address) | CreateContractChange(account: Address)

  /** The fields of the database; `destructed` holds the accounts destructed in this block. */
  datatype DB = DB(objects: map<Address, StateObject>, destructed: set<Address>, entries: seq<JournalEntry>,
                   dirties: map<Address, nat>)

  /** Finding an account inserts it unless it was destructed. */
  function Touch(db: DB, a: Address): DB {
    if a in db.objects || a in db.destructed then db else db.(objects := db.objects[a := EMPTY_OBJECT])
  }

  /** What a lookup finds. */
  function Look(db: DB, a: Address): Option<StateObject> {
    if a in db.objects then Some(db.objects[a]) else if a in db.destructed then None else Some(EMPTY_OBJECT)
  }

  function Committed(o: StateObject, key: Key): Value {
    if key in o.pendingStorage then o.pendingStorage[key]
    else if key in o.originStorage then o.originStorage[key]
    else 0
  }

  function Current(o: StateObject, key: Key): Value {
    if key in o.dirtyStorage then o.dirtyStorage[key] else Committed(o, key)
  }

  /** The object after a read of a slot, which fills the cache of origin values. */
  function Cached(o: StateObject, key: Key): StateObject {
    if key in o.pendingStorage || key in o.originStorage then o
    else o.(originStorage := o.originStorage[key := 0])
  }

  function Journalled(db: DB, e: JournalEntry): DB {
    var entries := db.entries + [e];
    match e
    case CreateObjectChange(a) =>
      db.(entries := entries, dirties := db.dirties[a := (if a in db.dirties then db.dirties[a] else 0) + 1])
    case CreateContractChange(_) => db.(entries := entries)
  }

  function Created(db: DB, a: Address): DB {
    var journalled := Journalled(db, CreateObjectChange(a));
    journalled.(objects := journalled.objects[a := EMPTY_OBJECT])
  }

  /** None is the nil dereference for a destructed account. */
  function Contracted(db: DB, a: Address): Option<DB> {
    var touched := Touch(db, a);
    if a !in touched.objects then None
    else if touched.objects[a].newContract then Some(touched)
    else Some(Journalled(touched.(objects := touched.objects[a := touched.objects[a].(newContract := true)]),
                         CreateContractChange(a)))
  }

  /** Undoing one entry; None is a nil dereference. */
  function Reverted(db: DB, e: JournalEntry): Option<DB> {
    match e
    case CreateObjectChange(a) => Some(db.(objects := db.objects - {a}))
    case CreateContractChange(a) =>
      var touched := Touch(db, a);
      if a !in touched.objects then None
      else Some(touched.(objects := touched.objects[a := touched.objects[a].(newContract := false)]))
  }

  function SlotRead(db: DB, a: Address, key: Key): DB {
    var touched := Touch(db, a);
    if a in touched.objects then touched.(objects := touched.objects[a := Cached(touched.objects[a], key)]) else touched
  }

  class StateDB {
    var stateObjects: map<Address, StateObject>
    var stateObjectsDestruct: set<Address>
    var entries: seq<JournalEntry>
    var dirties: map<Address, nat>

    constructor (destructed: set<Address>)
      ensures Fields() == DB(map[], destructed, [], map[])
    {
      stateObjects, stateObjectsDestruct, entries, dirties := map[], destructed, [], map[];
    }

    function Fields(): DB
      reads this
    {
      DB(stateObjects, stateObjectsDestruct, entries, dirties)
    }

    method GetStateObject(addr: Address) returns (o: Option<StateObject>)
      modifies this`stateObjects
      ensures o == old(Look(Fields(), addr))
      ensures Fields() == old(Touch(Fields(), addr))
    {
      if addr in stateObjects {
        return Some(stateObjects[addr]);
      }
      if addr in stateObjectsDestruct {
        return None;
      }
      stateObjects := stateObjects[addr := EMPTY_OBJECT];
      o := Some(EMPTY_OBJECT);
    }

    method Exist(addr: Address) returns (b: bool)
      modifies this`stateObjects
      ensures b == old(Look(Fields(), addr)).Some?
      ensures Fields() == old(Touch(Fields(), addr))
    {
      var o := GetStateObject(addr);
      b := o.Some?;
    }

    method GetBalance(addr: Address) returns (b: uint256)
      modifies this`stateObjects
      ensures b == match old(Look(Fields(), addr)) case None => 0 case Some(o) => o.balance
      ensures Fields() == old(Touch(Fields(), addr))
    {
      var o := GetStateObject(addr);
      b := if o.Some? then o.value.balance else 0;
    }

    method GetNonce(addr: Address) returns (n: uint64)
      modifies this`stateObjects
      ensures n == match old(Look(Fields(), addr)) case None => 0 case Some(o) => o.nonce
      ensures Fields() == old(Touch(Fields(), addr))
    {
      var o := GetStateObject(addr);
      n := if o.Some? then o.value.nonce else 0;
    }

    method GetCommittedState(addr: Address, key: Key) returns (v: Value)
      modifies this`stateObjects
      ensures v == match old(Look(Fields(), addr)) case None => 0 case Some(o) => Committed(o, key)
      ensures Fields() == old(SlotRead(Fields(), addr, key))
    {
      var found := GetStateObject(addr);
      if found.None? {
        return 0;
      }
      var o := found.value;
      if key in o.pendingStorage {
        return o.pendingStorage[key];
      }
      if key in o.originStorage {
        return o.originStorage[key];
      }
      stateObjects := stateObjects[addr := o.(originStorage := o.originStorage[key := 0])];
      v := 0;
    }

    method GetState(addr: Address, key: Key) returns (v: Value)
      modifies this`stateObjects
      ensures v == match old(Look(Fields(), addr)) case None => 0 case Some(o) => Current(o, key)
      ensures Fields() == old(SlotRead(Fields(), addr, key))
    {
      var origin := GetCommittedState(addr, key);
      if addr !in stateObjects {
        return 0;
      }
      var dirty := stateObjects[addr].dirtyStorage;
      v := if key in dirty then dirty[key] else origin;
    }

    method Append(e: JournalEntry)
      modifies this`entries, this`dirties
      ensures Fields() == old(Journalled(Fields(), e))
    {
      entries := entries + [e];
      if e.CreateObjectChange? {
        var n := if e.account in dirties then dirties[e.account] else 0;
        dirties := dirties[e.account := n + 1];
      }
    }

    method CreateAccount(addr: Address)
      modifies this`stateObjects, this`entries, this`dirties
      ensures Fields() == old(Created(Fields(), addr))
    {
      Append(CreateObjectChange(addr));
      stateObjects := stateObjects[addr := EMPTY_OBJECT];
    }

    /** False is the nil dereference. */
    method CreateContract(addr: Address) returns (ok: bool)
      modifies this`stateObjects, this`entries, this`dirties
      ensures ok <==> old(Contracted(Fields(), addr)).Some?
      ensures ok ==> Fields() == old(Contracted(Fields(), addr)).value
      ensures !ok ==> Fields() == old(Fields())
    {
      var obj := GetStateObject(addr);
      if obj.None? {
        return false;
      }
      if !obj.value.newContract {
        stateObjects := stateObjects[addr := obj.value.(newContract := true)];
        Append(CreateContractChange(addr));
      }
      ok := true;
    }

    method Revert(e: JournalEntry) returns (ok: bool)
      modifies this`stateObjects
      ensures ok <==> old(Reverted(Fields(), e)).Some?
      ensures ok ==> Fields() == old(Reverted(Fields(), e)).value
    {
      match e
      case CreateObjectChange(a) =>
        stateObjects := stateObjects - {a};
        ok := true;
      case CreateContractChange(a) =>
        var obj := GetStateObject(a);
        if obj.None? {
          return false;
        }
        stateObjects := stateObjects[a := obj.value.(newContract := false)];
        ok := true;
    }
  }
}
