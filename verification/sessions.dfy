/**
 Whole sessions of managed writes: single operations, change sets and update
 messages, including those that stop with an error half way.
 */
module Sessions {
  import opened Names
  import opened Records
  import opened Database
  import opened Memory
  import opened Validation
  import opened Management
  import opened ManagementTheorems
  import opened ChangeSets
  import opened ChangeRuns
  import opened Updates
  import opened ChangeLaws
  import opened UpdateLaws

  datatype Action =
    | Single(op: ManagerOp)
    | ChangeSet(changes: seq<Change>)
    | Update(zone: BarFree, rrs: seq<UpdateRR>)

  ghost function Outcome(db: Db, action: Action): Db {
    match action
    case Single(op) => (match Meaning(db, op) case Ok(after) => after case Err => db)
    case ChangeSet(changes) => if Accepted(db, changes) then ApplyAll(db, changes).db else db
    case Update(zone, rrs) => (match NormalizeZoneName(zone) case Err => db case Ok(z) => UpdateAll(db, z, rrs))
  }

  ghost function AfterAll(db: Db, actions: seq<Action>): Db {
    if actions == [] then db else Outcome(AfterAll(db, actions[..|actions| - 1]), actions[|actions| - 1])
  }

  /** The stores that an action brings about one after the other, the last of which it leaves. */
  ghost predicate IsCourse(stores: seq<Db>, action: Action)
    requires stores != []
  {
    var last := stores[|stores| - 1];
    match action
    case Single(op) =>
      (match Meaning(stores[0], op) case Ok(after) => stores == [stores[0], after] case Err => |stores| == 1)
    case ChangeSet(changes) =>
      if !Accepted(stores[0], changes) then |stores| == 1
      else IsChain(stores, changes) && (|stores| <= |changes| ==> ApplyOne(last, changes[|stores| - 1]).Err?)
    case Update(zone, rrs) =>
      if IsNormalFormOf(".", zone) then |stores| == 1
      else exists z: BarFree ::
             && IsNormalFormOf(z, zone) && IsUpdateChain(stores, z, rrs)
             && (|stores| <= |rrs| ==> UpdateOne(last, z, rrs[|stores| - 1]).Err?)
  }

  /** An action takes its course from the store as it is, step by step, until it is done or a step fails. */
  lemma OutcomeExactly(db: Db, action: Action) returns (stores: seq<Db>)
    requires Sound(db)
    ensures stores != [] && stores[0] == db && stores[|stores| - 1] == Outcome(db, action)
    ensures IsCourse(stores, action)
  {
    hide Sound, Meaning, Accepted, ApplyAll, UpdateAll, Applied, ApplyOne, UpdateOne, IsNormalFormOf, IsNormalZone,
      IsChain, IsUpdateChain;
    match action {
      case Single(op) =>
        stores := match Meaning(db, op) case Ok(after) => [db, after] case Err => [db];
      case ChangeSet(changes) =>
        stores := [db];
        if Accepted(db, changes) {
          stores := BatchExactly(db, changes);
        }
      case Update(zone, rrs) =>
        stores := [db];
        UpdateZone(zone);
        if NormalizeZoneName(zone).Ok? {
          stores := UpdateIsChain(db, NormalizeZoneName(zone).value, rrs);
        }
    }
  }

  lemma UpdateZone(zone: BarFree)
    ensures NormalizeZoneName(zone).Err? <==> IsNormalFormOf(".", zone)
    ensures NormalizeZoneName(zone).Ok? ==>
              IsNormalZone(NormalizeZoneName(zone).value) && IsNormalFormOf(NormalizeZoneName(zone).value, zone)
  {
    NormalizeExactly(zone, ".");
    NormalizeExactly(zone, Normalize(zone));
    NormalizeZoneNameFacts(zone);
    hide IsNormalFormOf, IsNormalZone;
  }

  lemma OutcomeKeepsSound(db: Db, action: Action)
    requires Sound(db)
    ensures Sound(Outcome(db, action))
  {
    hide Sound, Meaning, Accepted, UpdateAll, ApplyAll, NormalizeZoneName;
    match action
    case Single(op) =>
      if Meaning(db, op).Ok? {
        MeaningKeepsSound(db, op);
      }
    case ChangeSet(changes) => BatchKeepsSound(db, changes);
    case Update(zone, rrs) =>
      NormalizeZoneNameFacts(zone);
      if NormalizeZoneName(zone).Ok? {
        UpdateIsFold(db, NormalizeZoneName(zone).value, rrs);
      }
  }

  /**
   From an empty store every sequence of managed writes, failed ones included,
   keeps every zone valid: SOA only at the apex and at most one, at most one
   CNAME per owner and nothing beside it.
   */
  lemma {:induction false} EverySessionIsValid(actions: seq<Action>)
    ensures Sound(AfterAll(EMPTY, actions))
  {
    if actions != [] {
      hide Sound, Outcome;
      EverySessionIsValid(actions[..|actions| - 1]);
      OutcomeKeepsSound(AfterAll(EMPTY, actions[..|actions| - 1]), actions[|actions| - 1]);
    }
  }

  method Perform(m: Manager, action: Action)
    requires m.store.Valid()
    modifies m.store
    ensures m.store.Valid() && m.store.db == Outcome(old(m.store.db), action)
    ensures Advances(old(m.store.db), old(m.store.revision), m.store.db, m.store.revision)
  {
    hide WellFormed, Represents, Meaning, Accepted, UpdateAll, ApplyAll, NormalizeZoneName, Totals, Applied;
    match action {
      case ChangeSet(changes) =>
        var result := ApplyChanges(m, changes);
      case Update(zone, rrs) =>
        var z := NormalizeZoneName(zone);
        if z.Ok? {
          var ok := ApplyUpdate(m, z.value, rrs);
        }
      case Single(op) => PerformOp(m, op);
    }
  }

  method PerformOp(m: Manager, op: ManagerOp)
    requires m.store.Valid()
    modifies m.store
    ensures m.store.Valid() && m.store.db == Outcome(old(m.store.db), Single(op))
    ensures Advances(old(m.store.db), old(m.store.revision), m.store.db, m.store.revision)
  {
    hide WellFormed, Represents, Meaning, RRSetRecords;
    match op {
      case UpsertZone(zone) => var ok := m.UpsertZone(zone);
      case DeleteZone(zone) => var ok := m.DeleteZone(zone);
      case UpsertRecord(record) => var ok := m.UpsertRecord(record);
      case DeleteRecord(record) => var ok := m.DeleteRecord(record);
      case UpsertRRSet(zone, name, rrtype, records) => var saved := m.UpsertRRSet(zone, name, rrtype, records);
      case DeleteRRSet(zone, name, rrtype) => var deleted := m.DeleteRRSet(zone, name, rrtype);
      case DeleteName(zone, name) => var deleted := m.DeleteName(zone, name);
    }
  }

  /** The same for the methods: a fresh store, any actions, valid zones at the end. */
  method RunSession(actions: seq<Action>) returns (store: MemoryStore)
    ensures store.Valid() && store.db == AfterAll(EMPTY, actions) && AllValid(store.db)
  {
    hide WellFormed, Represents, Outcome, AllValid;
    store := new MemoryStore();
    var m := new Manager(store);
    for i := 0 to |actions|
      invariant fresh(store) && m.store == store && store.Valid() && store.db == AfterAll(EMPTY, actions[..i])
    {
      Perform(m, actions[i]);
      assert actions[..i + 1][..i] == actions[..i];
    }
    assert actions[..|actions|] == actions;
    EverySessionIsValid(actions);
  }
}
