/**
 Change sets: a dry run over per-zone lists decides whether a batch may be
 applied; the batch is then applied change by change.
 */
module ChangeSets {
  import opened Names
  import opened Ordering
  import opened Records
  import opened Database
  import opened Memory
  import opened Validation
  import opened Management

  datatype ChangeKind =
    | ChangeUpsertZone | ChangeDeleteZone | ChangeUpsertRecord | ChangeDeleteRecord
    | ChangeUpsertRRSet | ChangeDeleteRRSet | ChangeDeleteName | ChangeOther

  /** A zone may be named in up to four places; which of them counts differs between dry run and real run. */
  datatype Change = Change(
    kind: ChangeKind,
    zone: BarFree,
    zoneName: BarFree,
    record: Record,
    records: seq<Record>,
    name: BarFree,
    rrtype: Uint16)
  {
    function ZoneName(): BarFree {
      if zone != "" then zone else zoneName
    }
  }

  datatype ChangeResult = ChangeResult(
    applied: int, zonesUpserted: int, zonesDeleted: int, recordsUpserted: int, recordsDeleted: int)

  // ------------------------------------------------------------ the real run

  /** The manager operation that a change stands for. */
  function OpOf(c: Change): Option<ManagerOp> {
    match c.kind
    case ChangeUpsertZone => Some(ManagerOp.UpsertZone(c.ZoneName()))
    case ChangeDeleteZone => Some(ManagerOp.DeleteZone(c.ZoneName()))
    case ChangeUpsertRecord => Some(ManagerOp.UpsertRecord(c.record))
    case ChangeDeleteRecord => Some(ManagerOp.DeleteRecord(c.record))
    case ChangeUpsertRRSet => Some(ManagerOp.UpsertRRSet(c.ZoneName(), c.name, c.rrtype, c.records))
    case ChangeDeleteRRSet => Some(ManagerOp.DeleteRRSet(c.ZoneName(), c.name, c.rrtype))
    case ChangeDeleteName => Some(ManagerOp.DeleteName(c.ZoneName(), c.name))
    case ChangeOther => None
  }

  ghost function ApplyOne(db: Db, c: Change): Result<Db> {
    match OpOf(c) case None => Err case Some(op) => Meaning(db, op)
  }

  datatype Batch = Batch(db: Db, ok: bool)

  /** Changes are applied in order until one fails; what was applied stays. */
  ghost function ApplyAll(db: Db, changes: seq<Change>): Batch {
    if changes == [] then Batch(db, true)
    else
      var before := ApplyAll(db, changes[..|changes| - 1]);
      if !before.ok then before
      else match ApplyOne(before.db, changes[|changes| - 1])
        case Err => before.(ok := false)
        case Ok(after) => Batch(after, true)
  }

  /** What one change adds to the counters: zones by kind, records by how many were written or lost. */
  ghost function Tally(db: Db, c: Change): ChangeResult {
    var lost := match ApplyOne(db, c) case Err => 0 case Ok(after) => |db.records| - |after.records|;
    var written := match RRSetRecords(c.ZoneName(), c.name, c.rrtype, c.records) case Err => 0 case Ok(rs) => |rs|;
    match c.kind
    case ChangeUpsertZone => ChangeResult(1, 1, 0, 0, 0)
    case ChangeDeleteZone => ChangeResult(1, 0, 1, 0, 0)
    case ChangeUpsertRecord => ChangeResult(1, 0, 0, 1, 0)
    case ChangeDeleteRecord => ChangeResult(1, 0, 0, 0, 1)
    case ChangeUpsertRRSet => ChangeResult(1, 0, 0, written, 0)
    case ChangeDeleteRRSet => ChangeResult(1, 0, 0, 0, lost)
    case ChangeDeleteName => ChangeResult(1, 0, 0, 0, lost)
    case ChangeOther => ChangeResult(0, 0, 0, 0, 0)
  }

  function Plus(a: ChangeResult, b: ChangeResult): ChangeResult {
    ChangeResult(a.applied + b.applied, a.zonesUpserted + b.zonesUpserted, a.zonesDeleted + b.zonesDeleted,
                 a.recordsUpserted + b.recordsUpserted, a.recordsDeleted + b.recordsDeleted)
  }

  ghost function Totals(db: Db, changes: seq<Change>): ChangeResult {
    if changes == [] then ChangeResult(0, 0, 0, 0, 0)
    else
      var init := changes[..|changes| - 1];
      Plus(Totals(db, init), Tally(ApplyAll(db, init).db, changes[|changes| - 1]))
  }

  // ------------------------------------------------------------- the dry run

  function NormalizeChangeZone(c: Change): Result<BarFree> {
    if c.zone != "" then NormalizeZoneName(c.zone)
    else if c.zoneName != "" then NormalizeZoneName(c.zoneName)
    else if c.record.zone != "" then NormalizeZoneName(c.record.zone)
    else if c.records != [] && c.records[0].zone != "" then NormalizeZoneName(c.records[0].zone)
    else Err
  }

  datatype PreviewState = PreviewState(present: bool, records: seq<Record>)

  type Previews = map<BarFree, PreviewState>

  ghost function LoadState(db: Db, zone: BarFree): PreviewState {
    PreviewState(zone in db.zones, match ListRecords(db, ZoneFilter(zone)) case Err => [] case Ok(rs) => rs)
  }

  function OtherKey(k: RecordKey): Record -> bool {
    (r: Record) => r.Key() != k
  }

  function OutsideRRset(zone: BarFree, name: BarFree, rrtype: Uint16): Record -> bool {
    (r: Record) => !(r.zone == zone && r.name == name && r.rrtype == rrtype)
  }

  function OutsideName(zone: BarFree, name: BarFree): Record -> bool {
    (r: Record) => !(r.zone == zone && r.name == name)
  }

  ghost function PreviewOne(st: PreviewState, zone: BarFree, c: Change): Result<PreviewState> {
    match c.kind
    case ChangeUpsertZone => Ok(st.(present := true))
    case ChangeDeleteZone => Ok(PreviewState(false, []))
    case ChangeUpsertRecord =>
      (match NormalizeRecord(c.record)
       case Err => Err
       case Ok(r) => Ok(PreviewState(true, FirstPerKey(st.records + [r]))))
    case ChangeDeleteRecord =>
      (match NormalizeRecord(c.record)
       case Err => Err
       case Ok(r) => Ok(st.(records := Filter(st.records, OtherKey(r.Key())))))
    case ChangeUpsertRRSet =>
      (match RRSetRecords(zone, c.name, c.rrtype, c.records)
       case Err => Err
       case Ok(rs) =>
         RRSetRecordsFacts(zone, c.name, c.rrtype, c.records);
         Ok(PreviewState(true, FirstPerKey(Filter(st.records, NotReplacedBy(rs[0])) + rs))))
    case ChangeDeleteRRSet =>
      (match NormalizeRRSetLookup(zone, c.name)
       case Err => Err
       case Ok((z, n)) => Ok(st.(records := Filter(st.records, OutsideRRset(z, n, c.rrtype)))))
    case ChangeDeleteName =>
      (match NormalizeRRSetLookup(zone, c.name)
       case Err => Err
       case Ok((z, n)) => Ok(st.(records := Filter(st.records, OutsideName(z, n)))))
    case ChangeOther => Err
  }

  ghost function StateOf(db: Db, states: Previews, zone: BarFree): PreviewState {
    if zone in states then states[zone] else LoadState(db, zone)
  }

  /** The dry run reads every zone from the store as it was before the batch. */
  ghost function PreviewNext(db: Db, states: Previews, c: Change): Result<Previews> {
    match NormalizeChangeZone(c)
    case Err => Err
    case Ok(zone) =>
      match PreviewOne(StateOf(db, states, zone), zone, c)
      case Err => Err
      case Ok(st) => Ok(states[zone := st])
  }

  ghost function PreviewAll(db: Db, changes: seq<Change>): Result<Previews> {
    if changes == [] then Ok(map[])
    else match PreviewAll(db, changes[..|changes| - 1])
      case Err => Err
      case Ok(states) => PreviewNext(db, states, changes[|changes| - 1])
  }

  /** A touched zone is checked by the strong rules unless it ends up absent or empty. */
  ghost predicate StateValid(zone: BarFree, st: PreviewState) {
    || !st.present || st.records == []
    || match NormalizeZoneName(zone) case Err => false case Ok(z) => ListValid(z, st.records, true)
  }

  ghost predicate AllStatesValid(states: Previews) {
    forall z :: z in states ==> StateValid(z, states[z])
  }

  ghost predicate Accepted(db: Db, changes: seq<Change>) {
    PreviewAll(db, changes).Ok? && AllStatesValid(PreviewAll(db, changes).value)
  }

  // ---------------------------------------------------------------- methods

  method PreviewChange(st: PreviewState, zone: BarFree, c: Change) returns (next: Result<PreviewState>)
    ensures next == PreviewOne(st, zone, c)
  {
    hide NormalizeRecord, RRSetRecords, NormalizeRRSetLookup, Filter, FirstPerKey, Record.Key, OfRRset, DistinctKeys;
    match c.kind {
      case ChangeUpsertZone => next := Ok(st.(present := true));
      case ChangeDeleteZone => next := Ok(PreviewState(false, []));
      case ChangeUpsertRecord =>
        var r := NormalizeRecord(c.record);
        if r.Err? {
          return Err;
        }
        var merged := UpsertRecords(st.records, [r.value]);
        next := Ok(PreviewState(true, merged));
      case ChangeDeleteRecord =>
        var r := NormalizeRecord(c.record);
        if r.Err? {
          return Err;
        }
        next := Ok(st.(records := Filter(st.records, OtherKey(r.value.Key()))));
      case ChangeUpsertRRSet =>
        var rs := NormalizeRRSetRecords(zone, c.name, c.rrtype, c.records);
        if rs.Err? {
          return Err;
        }
        RRSetRecordsFacts(zone, c.name, c.rrtype, c.records);
        var filtered := Filter(st.records, NotReplacedBy(rs.value[0]));
        var merged := UpsertRecords(filtered, rs.value);
        next := Ok(PreviewState(true, merged));
      case ChangeDeleteRRSet =>
        var target := NormalizeRRSetLookup(zone, c.name);
        if target.Err? {
          return Err;
        }
        next := Ok(st.(records := Filter(st.records, OutsideRRset(target.value.0, target.value.1, c.rrtype))));
      case ChangeDeleteName =>
        var target := NormalizeRRSetLookup(zone, c.name);
        if target.Err? {
          return Err;
        }
        next := Ok(st.(records := Filter(st.records, OutsideName(target.value.0, target.value.1))));
      case ChangeOther => next := Err;
    }
  }

  method LoadPreviewZoneState(m: Manager, states: Previews, zone: BarFree) returns (st: PreviewState)
    requires m.store.Valid() && IsNormalZone(zone)
    ensures st == StateOf(m.store.db, states, zone)
  {
    hide WellFormed, Represents, IsNormalZone, ListsZone, Database.ListRecords, NormalizeZoneName;
    if zone in states {
      return states[zone];
    }
    NormalizeZoneNameFacts(zone);
    var has := m.HasZone(zone);
    ZoneListing(m.store.db, zone);
    var listed := m.store.ListRecords(ZoneFilter(zone));
    st := PreviewState(has.value, listed.value);
  }

  method PreviewChanges(m: Manager, changes: seq<Change>) returns (previews: Result<Previews>)
    requires m.store.Valid()
    ensures previews == PreviewAll(m.store.db, changes)
  {
    hide WellFormed, Represents, PreviewOne, StateOf, NormalizeChangeZone;
    var states: Previews := map[];
    for i := 0 to |changes|
      invariant PreviewAll(m.store.db, changes[..i]) == Ok(states)
    {
      assert changes[..i + 1][..i] == changes[..i];
      ChangeZoneNormal(changes[i]);
      var zone := NormalizeChangeZone(changes[i]);
      if zone.Err? {
        PreviewFails(m.store.db, changes, i + 1);
        return Err;
      }
      var st := LoadPreviewZoneState(m, states, zone.value);
      var next := PreviewChange(st, zone.value, changes[i]);
      if next.Err? {
        PreviewFails(m.store.db, changes, i + 1);
        return Err;
      }
      states := states[zone.value := next.value];
    }
    assert changes[..|changes|] == changes;
    return Ok(states);
  }

  lemma ChangeZoneNormal(c: Change)
    ensures NormalizeChangeZone(c).Ok? ==> IsNormalZone(NormalizeChangeZone(c).value)
  {
    hide NormalizeZoneName, IsNormalZone;
    NormalizeZoneNameFacts(c.zone);
    NormalizeZoneNameFacts(c.zoneName);
    NormalizeZoneNameFacts(c.record.zone);
    if c.records != [] {
      NormalizeZoneNameFacts(c.records[0].zone);
    }
  }

  lemma {:induction false} PreviewFails(db: Db, changes: seq<Change>, i: nat)
    requires i <= |changes| && PreviewAll(db, changes[..i]).Err?
    ensures PreviewAll(db, changes).Err?
    decreases |changes| - i
  {
    hide PreviewNext;
    if i < |changes| {
      assert changes[..i + 1][..i] == changes[..i];
      PreviewFails(db, changes, i + 1);
    } else {
      assert changes[..i] == changes;
    }
  }

  method ValidatePreviewZoneStates(states: Previews) returns (ok: bool)
    ensures ok <==> AllStatesValid(states)
  {
    hide ListValid, NormalizeZoneName;
    var touched := AnyOrder(states.Keys);
    for i := 0 to |touched|
      invariant forall j :: 0 <= j < i ==> StateValid(touched[j], states[touched[j]])
    {
      ElemsMember(touched, touched[i]);
      var zone := touched[i];
      var st := states[zone];
      if st.present && |st.records| > 0 {
        var valid := ValidateZoneRecords(zone, st.records, true);
        if !valid {
          return false;
        }
      }
    }
    forall z | z in states ensures StateValid(z, states[z]) {
      ElemsMember(touched, z);
    }
    return true;
  }

  method ValidateChanges(m: Manager, changes: seq<Change>) returns (ok: bool)
    requires m.store.Valid()
    ensures ok <==> Accepted(m.store.db, changes)
  {
    hide WellFormed, Represents, PreviewAll, AllStatesValid, NormalizeZoneName;
    var previews := PreviewChanges(m, changes);
    if previews.Err? {
      return false;
    }
    ok := ValidatePreviewZoneStates(previews.value);
  }

  lemma {:induction false} TouchedNormal(db: Db, changes: seq<Change>)
    ensures PreviewAll(db, changes).Ok? ==>
              forall z :: z in PreviewAll(db, changes).value ==> IsNormalZone(z) && NormalizeZoneName(z) == Ok(z)
  {
    hide PreviewOne, StateOf, NormalizeChangeZone, IsNormalZone, NormalizeZoneName;
    if changes != [] && PreviewAll(db, changes).Ok? {
      var last := changes[|changes| - 1];
      TouchedNormal(db, changes[..|changes| - 1]);
      ChangeZoneNormal(last);
      NormalizeZoneNameFacts(NormalizeChangeZone(last).value);
    }
  }

  /** Validate the batch, then apply it change by change; a failing change stops it where it stands. */
  method ApplyChanges(m: Manager, changes: seq<Change>) returns (result: Result<ChangeResult>)
    requires m.store.Valid()
    modifies m.store
    ensures m.store.Valid()
    ensures m.store.db ==
            if Accepted(old(m.store.db), changes) then ApplyAll(old(m.store.db), changes).db else old(m.store.db)
    ensures result.Ok? <==> Accepted(old(m.store.db), changes) && ApplyAll(old(m.store.db), changes).ok
    ensures result.Ok? ==> result.value == Totals(old(m.store.db), changes)
    ensures Advances(old(m.store.db), old(m.store.revision), m.store.db, m.store.revision)
  {
    hide WellFormed, Represents, Accepted, ApplyOne, Tally, Plus;
    var valid := ValidateChanges(m, changes);
    if !valid {
      return Err;
    }
    ghost var before, revision := m.store.db, m.store.revision;
    var counts := ChangeResult(0, 0, 0, 0, 0);
    for i := 0 to |changes|
      invariant m.store.Valid() && ApplyAll(before, changes[..i]) == Batch(m.store.db, true)
      invariant counts == Totals(before, changes[..i])
      invariant Advances(before, revision, m.store.db, m.store.revision)
    {
      assert changes[..i + 1][..i] == changes[..i];
      var next := ApplyChange(m, changes[i], counts);
      if next.Err? {
        BatchStops(before, changes, i + 1);
        return Err;
      }
      counts := next.value;
    }
    assert changes[..|changes|] == changes;
    return Ok(counts);
  }

  lemma {:induction false} BatchStops(db: Db, changes: seq<Change>, i: nat)
    requires i <= |changes| && !ApplyAll(db, changes[..i]).ok
    ensures ApplyAll(db, changes) == ApplyAll(db, changes[..i])
    decreases |changes| - i
  {
    hide ApplyOne;
    if i < |changes| {
      assert changes[..i + 1][..i] == changes[..i];
      BatchStops(db, changes, i + 1);
    } else {
      assert changes[..i] == changes;
    }
  }

  method ApplyChange(m: Manager, c: Change, counts: ChangeResult) returns (next: Result<ChangeResult>)
    requires m.store.Valid()
    modifies m.store
    ensures m.store.Valid() && Commits(old(m.store.db), ApplyOne(old(m.store.db), c), next.Ok?, m.store.db)
    ensures next.Ok? ==> next.value == Plus(counts, Tally(old(m.store.db), c))
    ensures Advances(old(m.store.db), old(m.store.revision), m.store.db, m.store.revision)
  {
    hide WellFormed, Represents, Meaning;
    next := Err;
    match c.kind {
      case ChangeUpsertZone =>
        var ok := m.UpsertZone(c.ZoneName());
        if ok {
          next := Ok(counts.(applied := counts.applied + 1, zonesUpserted := counts.zonesUpserted + 1));
        }
      case ChangeDeleteZone =>
        var ok := m.DeleteZone(c.ZoneName());
        if ok {
          next := Ok(counts.(applied := counts.applied + 1, zonesDeleted := counts.zonesDeleted + 1));
        }
      case ChangeUpsertRecord =>
        var ok := m.UpsertRecord(c.record);
        if ok {
          next := Ok(counts.(applied := counts.applied + 1, recordsUpserted := counts.recordsUpserted + 1));
        }
      case ChangeDeleteRecord =>
        var ok := m.DeleteRecord(c.record);
        if ok {
          next := Ok(counts.(applied := counts.applied + 1, recordsDeleted := counts.recordsDeleted + 1));
        }
      case ChangeUpsertRRSet =>
        var saved := m.UpsertRRSet(c.ZoneName(), c.name, c.rrtype, c.records);
        if saved.Ok? {
          next := Ok(counts.(applied := counts.applied + 1, recordsUpserted := counts.recordsUpserted + |saved.value|));
        }
      case ChangeDeleteRRSet =>
        var deleted := m.DeleteRRSet(c.ZoneName(), c.name, c.rrtype);
        if deleted.Ok? {
          next := Ok(counts.(applied := counts.applied + 1, recordsDeleted := counts.recordsDeleted + deleted.value));
        }
      case ChangeDeleteName =>
        var deleted := m.DeleteName(c.ZoneName(), c.name);
        if deleted.Ok? {
          next := Ok(counts.(applied := counts.applied + 1, recordsDeleted := counts.recordsDeleted + deleted.value));
        }
      case ChangeOther =>
    }
  }
}
