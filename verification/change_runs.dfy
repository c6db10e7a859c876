/**
 Whole change sets: under conditions a caller can read off the changes, the dry
 run predicts the real run, and every touched zone ends strongly valid.
 */
module ChangeRuns {
  import opened Names
  import opened Ordering
  import opened Records
  import opened Database
  import opened Validation
  import opened Management
  import opened ManagementTheorems
  import opened ChangeSets
  import opened ChangeTheorems

  ghost predicate OneClass(db: Db, cls: Uint16) {
    forall k :: k in db.records ==> db.records[k].cls == cls
  }

  function EffectiveClass(r: Record): Uint16 {
    if r.cls == 0 then CLASS_INET else r.cls
  }

  /** One record class throughout, no RRset of type ANY, and record changes that name their record's zone. */
  ghost predicate Uniform(c: Change, cls: Uint16) {
    match c.kind
    case ChangeUpsertRecord =>
      NormalizeChangeZone(c) == NormalizeZoneName(c.record.zone) && EffectiveClass(c.record) == cls
    case ChangeDeleteRecord => NormalizeChangeZone(c) == NormalizeZoneName(c.record.zone)
    case ChangeUpsertRRSet => c.rrtype != TYPE_ANY && forall r :: r in c.records ==> EffectiveClass(r) == cls
    case ChangeDeleteRRSet => c.rrtype != TYPE_ANY
    case _ => true
  }

  ghost predicate AllOfClass(records: seq<Record>, zone: BarFree, cls: Uint16) {
    forall r :: r in records ==> r.cls == cls && r.zone == zone
  }

  /** A zone is exactly as it was: its existence, its keys and its records. */
  ghost predicate SameZone(db: Db, after: Db, zone: BarFree) {
    && (zone in db.zones <==> zone in after.zones) && ZoneKeys(db, zone) == ZoneKeys(after, zone)
    && forall k :: k in ZoneKeys(db, zone) && k in after.records ==> after.records[k] == db.records[k]
  }

  ghost predicate Tracks(db: Db, st: PreviewState, zone: BarFree, cls: Uint16) {
    InSync(st, db, zone) && DistinctKeys(st.records) && AllOfClass(st.records, zone, cls)
  }

  /** Dry run and real run after the same changes: touched zones in sync, untouched zones unchanged. */
  ghost predicate Tracked(db0: Db, db: Db, states: Previews, cls: Uint16) {
    && WellFormed(db) && OneClass(db, cls)
    && (forall z :: z in states ==> Tracks(db, states[z], z, cls))
    && (forall z: BarFree :: z !in states ==> SameZone(db0, db, z))
  }

  // ------------------------------------------------------ one class suffices

  lemma TracksMirrors(db: Db, st: PreviewState, zone: BarFree, cls: Uint16)
    requires OneClass(db, cls) && Tracks(db, st, zone, cls)
    ensures Mirrors(st, db, zone)
  {
    hide Record.Key, DistinctKeys;
    forall r | r in st.records ensures r.zone == zone && r.Key() in db.records && db.records[r.Key()].cls == r.cls {
      assert r.Key() in KeysOf(st.records);
    }
  }

  lemma LoadTracks(db0: Db, db: Db, zone: BarFree, cls: Uint16)
    requires WellFormed(db0) && OneClass(db0, cls) && IsNormalZone(zone) && SameZone(db0, db, zone)
    ensures Tracks(db, LoadState(db0, zone), zone, cls)
  {
    hide WellFormed, IsNormalZone, DistinctKeys, Database.ListRecords;
    ZoneListing(db0, zone);
    var rs := ListRecords(db0, ZoneFilter(zone)).value;
    assert forall r :: r in rs ==> Stored(db0, r);
  }

  lemma {:induction false} NormalizeEachClass(
    zone: BarFree, name: BarFree, rrtype: Uint16, records: seq<Record>, cls: Uint16)
    requires forall r :: r in records ==> EffectiveClass(r) == cls
    ensures NormalizeEach(zone, name, rrtype, records).Ok? ==>
              forall r :: r in NormalizeEach(zone, name, rrtype, records).value ==> r.cls == cls
  {
    if records != [] {
      var init, last := records[..|records| - 1], records[|records| - 1];
      assert last in records && forall r :: r in init ==> r in records;
      NormalizeEachClass(zone, name, rrtype, init, cls);
      NormalizedClass(last, zone, name, rrtype);
      hide NormalizeRRSetRecord;
    }
  }

  lemma NormalizedClass(r: Record, zone: BarFree, name: BarFree, rrtype: Uint16)
    ensures NormalizeRRSetRecord(r, zone, name, rrtype).Ok? ==>
              NormalizeRRSetRecord(r, zone, name, rrtype).value.cls == EffectiveClass(r)
    ensures NormalizeRecord(r).Ok? ==> NormalizeRecord(r).value.cls == EffectiveClass(r)
  {
    hide NormalizeZoneName, NormalizeName, TrimSpace, IsSubDomain;
  }

  lemma RRSetClass(zone: BarFree, name: BarFree, rrtype: Uint16, records: seq<Record>, cls: Uint16)
    requires RRSetRecords(zone, name, rrtype, records).Ok? && forall r :: r in records ==> EffectiveClass(r) == cls
    ensures forall r :: r in RRSetRecords(zone, name, rrtype, records).value ==> r.cls == cls
  {
    hide NormalizeRRSetLookup, NormalizeEach, FirstPerKey, KeysOf, DistinctKeys;
    var (z, n) := NormalizeRRSetLookup(zone, name).value;
    NormalizeEachClass(z, n, rrtype, records, cls);
    FirstPerKeyFacts(NormalizeEach(z, n, rrtype, records).value);
  }

  /** Uniform changes meet the exact condition at every store of that one class. */
  lemma UniformAgrees(db: Db, zone: BarFree, c: Change, cls: Uint16)
    requires WellFormed(db) && OneClass(db, cls) && Uniform(c, cls) && NormalizeChangeZone(c) == Ok(zone)
    ensures StepAgrees(db, zone, c)
  {
    hide NormalizeRecord, NormalizeZoneName, NormalizeName, RRSetRecords, NormalizeChangeZone, Record.Key,
      EffectiveClass, WellFormed, OfRRset, DistinctKeys, NormalizeRRSetLookup;
    if c.kind.ChangeUpsertRRSet? && RRSetRecords(zone, c.name, c.rrtype, c.records).Ok? {
      RRSetRecordsFacts(zone, c.name, c.rrtype, c.records);
      RRSetClass(zone, c.name, c.rrtype, c.records, cls);
      var rs := RRSetRecords(zone, c.name, c.rrtype, c.records).value;
      assert rs[0] in rs;
      RemovedKeys(db, rs[0].zone, rs[0].name, rs[0].rrtype);
    }
  }

  // ------------------------------------------------------- what a step keeps

  lemma MeaningKeepsWellFormed(db: Db, op: ManagerOp)
    requires WellFormed(db) && Meaning(db, op).Ok?
    ensures WellFormed(Meaning(db, op).value)
  {
    hide WellFormed, NormalizeRecord, RRSetRecords, NormalizeRRSetLookup, NormalizeZoneName, OfRRset, Record.Key,
      IsNormalRecord, DistinctKeys, WithRecords, WithoutRRset, WeaklyValid, Apply;
    match op {
      case UpsertZone(zone) => ApplyKeepsWellFormed(db, SaveZone(zone));
      case DeleteZone(zone) => ApplyKeepsWellFormed(db, StoreOp.DeleteZone(zone));
      case UpsertRecord(record) =>
        NormalizeRecordFacts(record);
        WithRecordWellFormed(db, NormalizeRecord(record).value);
      case DeleteRecord(record) => ApplyKeepsWellFormed(db, StoreOp.DeleteRecord(record));
      case UpsertRRSet(zone, name, rrtype, records) =>
        RRSetRecordsFacts(zone, name, rrtype, records);
        var rs := RRSetRecords(zone, name, rrtype, records).value;
        RRsetNormal(rs);
        WithoutRRsetWellFormed(db, rs[0].zone, rs[0].name, rs[0].rrtype);
        WithRecordsWellFormed(WithoutRRset(db, rs[0].zone, rs[0].name, rs[0].rrtype), rs);
      case DeleteRRSet(zone, name, rrtype) =>
        var (z, n) := NormalizeRRSetLookup(zone, name).value;
        WithoutRRsetWellFormed(db, z, n, rrtype);
      case DeleteName(zone, name) =>
        var (z, n) := NormalizeRRSetLookup(zone, name).value;
        WithoutRRsetWellFormed(db, z, n, TYPE_ANY);
    }
  }

  lemma WithoutRRsetWellFormed(db: Db, zone: BarFree, name: BarFree, rrtype: Uint16)
    requires WellFormed(db)
    ensures WellFormed(WithoutRRset(db, zone, name, rrtype))
  {
    hide IsNormalRecord, IsNormalZone, Record.Key, RRsetKeys;
  }

  /** A change writes only records of its own class and zone; everything else that remains is as it was. */
  ghost predicate OnlyWrites(db: Db, after: Db, zone: BarFree, cls: Uint16) {
    forall k :: k in after.records ==>
      (k in db.records && after.records[k] == db.records[k]) || (k.zone == zone && after.records[k].cls == cls)
  }

  lemma OnlyWritesKeepsClass(db: Db, after: Db, zone: BarFree, cls: Uint16)
    requires OneClass(db, cls) && OnlyWrites(db, after, zone, cls)
    ensures OneClass(after, cls)
  {
  }

  lemma StepWrites(db: Db, zone: BarFree, c: Change, cls: Uint16)
    requires Uniform(c, cls) && NormalizeChangeZone(c) == Ok(zone) && ApplyOne(db, c).Ok?
    ensures OnlyWrites(db, ApplyOne(db, c).value, zone, cls)
  {
    hide NormalizeRecord, NormalizeZoneName, NormalizeName, RRSetRecords, NormalizeChangeZone, Record.Key,
      EffectiveClass, OfRRset, DistinctKeys, NormalizeRRSetLookup, WithRecords, RRsetKeys, WeaklyValid, ZoneKeys;
    match c.kind {
      case ChangeUpsertZone =>
      case ChangeDeleteZone =>
      case ChangeUpsertRecord =>
        RecordZone(c.record);
        NormalizedClass(c.record, "", "", 0);
        NameAndTypeInKey(NormalizeRecord(c.record).value);
      case ChangeDeleteRecord =>
      case ChangeUpsertRRSet =>
        RRSetRecordsFacts(c.ZoneName(), c.name, c.rrtype, c.records);
        LookupZone(c.ZoneName(), c.name);
        NamedZone(c, zone);
        RRSetClass(c.ZoneName(), c.name, c.rrtype, c.records, cls);
        var rs := RRSetRecords(c.ZoneName(), c.name, c.rrtype, c.records).value;
        ReplaceWrites(db, rs, cls);
      case ChangeDeleteRRSet =>
      case ChangeDeleteName =>
    }
  }

  lemma ReplaceWrites(db: Db, rs: seq<Record>, cls: Uint16)
    requires rs != [] && DistinctKeys(rs) && forall r :: r in rs ==> r.cls == cls
    requires forall r :: r in rs ==> OfRRset(r, rs[0].zone, rs[0].name, rs[0].rrtype)
    ensures OnlyWrites(db, WithRecords(WithoutRRset(db, rs[0].zone, rs[0].name, rs[0].rrtype), rs), rs[0].zone, cls)
  {
    hide Record.Key, OfRRset, DistinctKeys, WithRecords, RRsetKeys;
    var bare := WithoutRRset(db, rs[0].zone, rs[0].name, rs[0].rrtype);
    var after := WithRecords(bare, rs);
    AllInZone(rs);
    forall k | k in after.records
      ensures (k in db.records && after.records[k] == db.records[k])
              || (k.zone == rs[0].zone && after.records[k].cls == cls)
    {
      WithRecordsAt(bare, rs, k);
      if k in KeysOf(rs) {
        var r :| r in rs && r.Key() == k;
        assert Stored(after, r);
        NameAndTypeInKey(r);
      }
    }
  }

  // ----------------------------------------------------- the preview's lists

  lemma PreviewKeepsLists(st: PreviewState, zone: BarFree, c: Change, cls: Uint16)
    requires DistinctKeys(st.records) && AllOfClass(st.records, zone, cls)
    requires Uniform(c, cls) && NormalizeChangeZone(c) == Ok(zone) && IsNormalZone(zone) && PreviewOne(st, zone, c).Ok?
    ensures DistinctKeys(PreviewOne(st, zone, c).value.records)
    ensures AllOfClass(PreviewOne(st, zone, c).value.records, zone, cls)
  {
    hide NormalizeRecord, NormalizeZoneName, NormalizeName, RRSetRecords, NormalizeChangeZone, Record.Key,
      EffectiveClass, OfRRset, DistinctKeys, NormalizeRRSetLookup, FirstPerKey, Filter, KeysOf, IsNormalZone;
    match c.kind {
      case ChangeUpsertZone =>
      case ChangeDeleteZone => NoDistinctKeys();
      case ChangeUpsertRecord =>
        RecordZone(c.record);
        NormalizedClass(c.record, "", "", 0);
        FirstPerKeyFacts(st.records + [NormalizeRecord(c.record).value]);
      case ChangeDeleteRecord =>
        FilterKeeps(st.records, OtherKey(NormalizeRecord(c.record).value.Key()), zone, cls);
      case ChangeUpsertRRSet =>
        NormalizeZoneNameFacts(zone);
        RRSetRecordsFacts(zone, c.name, c.rrtype, c.records);
        LookupZone(zone, c.name);
        RRSetClass(zone, c.name, c.rrtype, c.records, cls);
        var rs := RRSetRecords(zone, c.name, c.rrtype, c.records).value;
        AllInZone(rs);
        FilterKeeps(st.records, NotReplacedBy(rs[0]), zone, cls);
        FirstPerKeyFacts(Filter(st.records, NotReplacedBy(rs[0])) + rs);
      case ChangeDeleteRRSet =>
        var (z, n) := NormalizeRRSetLookup(zone, c.name).value;
        FilterKeeps(st.records, OutsideRRset(z, n, c.rrtype), zone, cls);
      case ChangeDeleteName =>
        var (z, n) := NormalizeRRSetLookup(zone, c.name).value;
        FilterKeeps(st.records, OutsideName(z, n), zone, cls);
    }
  }

  lemma NoDistinctKeys()
    ensures DistinctKeys([])
  {
  }

  lemma FilterKeeps(records: seq<Record>, keep: Record -> bool, zone: BarFree, cls: Uint16)
    requires DistinctKeys(records) && AllOfClass(records, zone, cls)
    ensures DistinctKeys(Filter(records, keep)) && AllOfClass(Filter(records, keep), zone, cls)
  {
    hide DistinctKeys, Filter;
    FilterKeepsDistinctKeys(records, keep);
    FilterElems(records, keep);
  }

  // -------------------------------------------------------------- simulation

  lemma OthersTracked(db: Db, after: Db, st: PreviewState, z: BarFree, zone: BarFree, cls: Uint16)
    requires Tracks(db, st, z, cls) && SameElsewhere(db, after, zone) && z != zone
    ensures Tracks(after, st, z, cls)
  {
    hide KeysOf, ZoneKeys, DistinctKeys;
  }

  lemma UntouchedSame(db0: Db, db: Db, after: Db, z: BarFree, zone: BarFree, cls: Uint16)
    requires SameZone(db0, db, z) && SameElsewhere(db, after, zone) && OnlyWrites(db, after, zone, cls) && z != zone
    ensures SameZone(db0, after, z)
  {
  }

  lemma StepTracked(db0: Db, db: Db, states: Previews, c: Change, cls: Uint16)
    requires WellFormed(db0) && OneClass(db0, cls) && Tracked(db0, db, states, cls) && Uniform(c, cls)
    requires PreviewNext(db0, states, c).Ok? && ApplyOne(db, c).Ok?
    ensures Tracked(db0, ApplyOne(db, c).value, PreviewNext(db0, states, c).value, cls)
  {
    hide WellFormed, OneClass, InSync, DistinctKeys, AllOfClass, SameZone, SameElsewhere, OnlyWrites, Uniform,
      PreviewOne, NormalizeChangeZone, Mirrors, LoadState, IsNormalZone, StepAgrees, Meaning, OpOf;
    ChangeZoneNormal(c);
    var zone := NormalizeChangeZone(c).value;
    var st := StateOf(db0, states, zone);
    if zone !in states {
      LoadTracks(db0, db, zone, cls);
    }
    assert Tracks(db, st, zone, cls);
    TracksMirrors(db, st, zone, cls);
    UniformAgrees(db, zone, c, cls);
    StepExact(db, st, zone, c);
    PreviewKeepsLists(st, zone, c, cls);
    StepWrites(db, zone, c, cls);
    var after := ApplyOne(db, c).value;
    OnlyWritesKeepsClass(db, after, zone, cls);
    MeaningKeepsWellFormed(db, OpOf(c).value);
    var states' := PreviewNext(db0, states, c).value;
    forall z | z in states' && z != zone ensures Tracks(after, states'[z], z, cls) {
      OthersTracked(db, after, states[z], z, zone, cls);
    }
    forall z: BarFree | z !in states' ensures SameZone(db0, after, z) {
      UntouchedSame(db0, db, after, z, zone, cls);
    }
  }

  lemma {:induction false} RunTracked(db: Db, changes: seq<Change>, cls: Uint16)
    requires WellFormed(db) && OneClass(db, cls) && forall i :: 0 <= i < |changes| ==> Uniform(changes[i], cls)
    requires PreviewAll(db, changes).Ok? && ApplyAll(db, changes).ok
    ensures Tracked(db, ApplyAll(db, changes).db, PreviewAll(db, changes).value, cls)
  {
    if changes == [] {
    } else {
      hide WellFormed, OneClass, Tracked, Uniform, PreviewNext, ApplyOne;
      var init, last := changes[..|changes| - 1], changes[|changes| - 1];
      RunTracked(db, init, cls);
      StepTracked(db, ApplyAll(db, init).db, PreviewAll(db, init).value, last, cls);
    }
  }

  /**
   If a uniform change set is applied successfully, the dry run had predicted it:
   every touched zone exists and holds keys exactly as previewed, and every
   other zone is unchanged.
   */
  lemma PreviewPredictsApply(db: Db, changes: seq<Change>, cls: Uint16)
    requires WellFormed(db) && OneClass(db, cls) && forall i :: 0 <= i < |changes| ==> Uniform(changes[i], cls)
    requires PreviewAll(db, changes).Ok? && ApplyAll(db, changes).ok
    ensures var after, states := ApplyAll(db, changes).db, PreviewAll(db, changes).value;
            && (forall z :: z in states ==> InSync(states[z], after, z))
            && (forall z: BarFree :: z !in states ==> SameZone(db, after, z))
  {
    hide WellFormed, OneClass, InSync, SameZone, DistinctKeys, AllOfClass, Uniform;
    RunTracked(db, changes, cls);
  }

  /** Every zone touched by a successful uniform change set is strongly valid at the end. */
  lemma TouchedZonesEndStrong(db: Db, changes: seq<Change>, cls: Uint16, zone: BarFree)
    requires WellFormed(db) && OneClass(db, cls) && forall i :: 0 <= i < |changes| ==> Uniform(changes[i], cls)
    requires Accepted(db, changes) && ApplyAll(db, changes).ok && zone in PreviewAll(db, changes).value
    ensures StronglyValid(zone, ZoneKeys(ApplyAll(db, changes).db, zone))
  {
    hide WellFormed, OneClass, DistinctKeys, AllOfClass, Uniform, SameZone, ListValid, StronglyValid, WeaklyValid,
      KeysOf, ZoneKeys, NormalizeZoneName, IsNormalZone;
    RunTracked(db, changes, cls);
    var after, st := ApplyAll(db, changes).db, PreviewAll(db, changes).value[zone];
    assert Tracks(after, st, zone, cls) && StateValid(zone, st);
    TouchedNormal(db, changes);
    ListValidIsKeyValid(zone, st.records, true);
    NothingIsStrong(zone);
    AbsentZoneIsEmpty(after, zone);
    if st.records == [] {
      EmptyKeys();
    }
  }

  lemma NothingIsStrong(zone: string)
    ensures StronglyValid(zone, {})
  {
  }

  lemma EmptyKeys()
    ensures KeysOf([]) == {}
  {
  }

  lemma AbsentZoneIsEmpty(db: Db, zone: BarFree)
    requires WellFormed(db)
    ensures zone !in db.zones ==> ZoneKeys(db, zone) == {}
  {
  }

  // ------------------------------------------------------ when a batch applies

  lemma {:induction false} BatchKeepsSound(db: Db, changes: seq<Change>)
    requires Sound(db)
    ensures Sound(ApplyAll(db, changes).db)
  {
    hide Sound, Meaning, OpOf;
    if changes != [] {
      var init, last := changes[..|changes| - 1], changes[|changes| - 1];
      BatchKeepsSound(db, init);
      var before := ApplyAll(db, init);
      if before.ok && ApplyOne(before.db, last).Ok? {
        MeaningKeepsSound(before.db, OpOf(last).value);
      }
    }
  }

  /** Zone and RRset changes carry their zone where the real run looks for it. */
  predicate NamesZone(c: Change) {
    c.kind.ChangeUpsertRecord? || c.kind.ChangeDeleteRecord? || c.ZoneName() != ""
  }

  lemma UnnamedFails(db: Db, c: Change)
    requires !NamesZone(c)
    ensures ApplyOne(db, c).Err?
  {
    hide NormalizeZoneName, NormalizeName, NormalizeEach, FirstPerKey, NormalizeRecord, ReplaceRRset, WithoutRRset,
      WithoutZone;
    EmptyZoneName();
  }

  ghost predicate WeakState(zone: BarFree, st: PreviewState) {
    WeaklyValid(zone, KeysOf(st.records))
  }

  ghost predicate AllWeak(states: Previews) {
    forall z :: z in states ==> WeakState(z, states[z])
  }

  lemma FilteredStaysWeak(zone: BarFree, st: PreviewState, keep: Record -> bool)
    requires WeakState(zone, st)
    ensures WeakState(zone, st.(records := Filter(st.records, keep)))
  {
    hide WeaklyValid, Record.Key, Filter;
    FilterElems(st.records, keep);
    ValidSubset(zone, KeysOf(Filter(st.records, keep)), KeysOf(st.records));
  }

  /** A previewed change is accepted by the real run if and only if it leaves the preview weakly valid. */
  lemma StepApplies(db: Db, st: PreviewState, zone: BarFree, c: Change)
    requires WellFormed(db) && Mirrors(st, db, zone) && WeakState(zone, st)
    requires NormalizeChangeZone(c) == Ok(zone) && NamesZone(c) && PreviewOne(st, zone, c).Ok?
    requires c.kind.ChangeUpsertRecord? ==> NormalizeZoneName(c.record.zone) == Ok(zone)
    ensures ApplyOne(db, c).Ok? <==> WeakState(zone, PreviewOne(st, zone, c).value)
  {
    hide WellFormed, NormalizeRecord, NormalizeZoneName, NormalizeName, NormalizeRRSetLookup, RRSetRecords,
      Record.Key, FirstPerKey, Filter, WithRecords, WithoutRRset, OfRRset, DistinctKeys, WeaklyValid, WithoutZone,
      KeysOf, ZoneKeys, ReplacedKeys;
    assert NamesZone(c) && !c.kind.ChangeUpsertRecord? && !c.kind.ChangeDeleteRecord? ==>
        NormalizeZoneName(c.ZoneName()) == Ok(zone);
    match c.kind {
      case ChangeUpsertZone =>
      case ChangeDeleteZone => NothingIsWeak(zone);
      case ChangeUpsertRecord =>
        RecordZone(c.record);
        var r := NormalizeRecord(c.record).value;
        MergedKeys(st.records, [r]);
        SingleKey(r);
      case ChangeDeleteRecord => FilteredStaysWeak(zone, st, OtherKey(NormalizeRecord(c.record).value.Key()));
      case ChangeUpsertRRSet =>
        SameTarget(c.ZoneName(), zone, c.name, c.rrtype, c.records);
        RRSetRecordsFacts(zone, c.name, c.rrtype, c.records);
        LookupZone(zone, c.name);
        FixedZone(c.ZoneName(), zone);
        var rs := RRSetRecords(zone, c.name, c.rrtype, c.records).value;
        KeptKeys(db, st, rs[0]);
        MergedKeys(Filter(st.records, NotReplacedBy(rs[0])), rs);
      case ChangeDeleteRRSet =>
        SameTarget(c.ZoneName(), zone, c.name, c.rrtype, c.records);
        var (z, n) := NormalizeRRSetLookup(zone, c.name).value;
        FilteredStaysWeak(zone, st, OutsideRRset(z, n, c.rrtype));
      case ChangeDeleteName =>
        SameTarget(c.ZoneName(), zone, c.name, c.rrtype, c.records);
        var (z, n) := NormalizeRRSetLookup(zone, c.name).value;
        FilteredStaysWeak(zone, st, OutsideName(z, n));
    }
  }

  lemma FixedZone(raw: BarFree, zone: BarFree)
    requires NormalizeZoneName(raw) == Ok(zone)
    ensures NormalizeZoneName(zone) == Ok(zone)
  {
    NormalizeZoneNameFacts(raw);
    NormalizeZoneNameFacts(zone);
  }

  lemma NothingIsWeak(zone: string)
    ensures WeaklyValid(zone, KeysOf([]))
  {
    EmptyKeys();
  }

  /** Every zone in the dry run of these changes obeys the weak rules. */
  ghost predicate PreviewWeak(db: Db, changes: seq<Change>) {
    PreviewAll(db, changes).Ok? && AllWeak(PreviewAll(db, changes).value)
  }

  ghost predicate EveryPrefixWeak(db: Db, changes: seq<Change>) {
    forall i :: 0 <= i <= |changes| ==> PreviewWeak(db, changes[..i])
  }

  lemma PrefixSplit(db: Db, init: seq<Change>, last: Change)
    ensures EveryPrefixWeak(db, init + [last]) <==> EveryPrefixWeak(db, init) && PreviewWeak(db, init + [last])
  {
    hide PreviewWeak;
    var all := init + [last];
    assert forall i :: 0 <= i <= |init| ==> all[..i] == init[..i];
    assert all[..|all|] == all;
    if EveryPrefixWeak(db, all) {
      assert PreviewWeak(db, all[..|all|]);
      forall i | 0 <= i <= |init| ensures PreviewWeak(db, init[..i]) {
        assert PreviewWeak(db, all[..i]);
      }
    }
  }

  lemma TrackedIsWeak(db: Db, st: PreviewState, zone: BarFree, cls: Uint16)
    requires AllValid(db) && Tracks(db, st, zone, cls)
    ensures WeakState(zone, st)
  {
    hide WeaklyValid, ZoneKeys, KeysOf;
    assert WeaklyValid(zone, ZoneKeys(db, zone));
  }

  /** One more change: it is applied if and only if the dry run stays weakly valid. */
  lemma NextApplies(db0: Db, db: Db, states: Previews, c: Change, cls: Uint16)
    requires Sound(db0) && OneClass(db0, cls) && Sound(db) && Tracked(db0, db, states, cls) && Uniform(c, cls)
    requires PreviewNext(db0, states, c).Ok?
    ensures ApplyOne(db, c).Ok? <==>
            NamesZone(c) && AllWeak(PreviewNext(db0, states, c).value)
  {
    hide WellFormed, AllValid, OneClass, InSync, DistinctKeys, AllOfClass, SameZone, PreviewOne, WeakState,
      NormalizeChangeZone, NormalizeZoneName, Mirrors, LoadState, IsNormalZone, Meaning, OpOf;
    ChangeZoneNormal(c);
    var zone := NormalizeChangeZone(c).value;
    var st := StateOf(db0, states, zone);
    if zone !in states {
      LoadTracks(db0, db, zone, cls);
    }
    assert Tracks(db, st, zone, cls);
    TracksMirrors(db, st, zone, cls);
    TrackedIsWeak(db, st, zone, cls);
    if NamesZone(c) {
      StepApplies(db, st, zone, c);
    } else {
      UnnamedFails(db, c);
    }
    forall z | z in states ensures WeakState(z, states[z]) { TrackedIsWeak(db, states[z], z, cls); }
    var states' := PreviewNext(db0, states, c).value;
    assert zone in states' && states'[zone] == PreviewOne(st, zone, c).value;
    assert forall z :: z in states' && z != zone ==> z in states && states'[z] == states[z];
  }

  /**
   Acceptance looks at the end of the batch only; whether a previewed uniform
   batch is applied to its end depends on the dry run after every prefix, and on
   zones being named where the real run looks for them.
   */
  lemma {:induction false} AppliesExactly(db: Db, changes: seq<Change>, cls: Uint16)
    requires Sound(db) && OneClass(db, cls) && PreviewAll(db, changes).Ok?
    requires forall i :: 0 <= i < |changes| ==> Uniform(changes[i], cls)
    ensures ApplyAll(db, changes).ok <==>
            EveryPrefixWeak(db, changes) && forall i :: 0 <= i < |changes| ==> NamesZone(changes[i])
  {
    hide *;
    if changes == [] {
      NothingApplies(db);
    } else {
      var init, last := changes[..|changes| - 1], changes[|changes| - 1];
      assert changes == init + [last];
      BatchSnoc(db, init, last);
      AppliesExactly(db, init, cls);
      PrefixSplit(db, init, last);
      if ApplyAll(db, init).ok {
        SoundIsWellFormed(db);
        RunTracked(db, init, cls);
        BatchKeepsSound(db, init);
        NextApplies(db, ApplyAll(db, init).db, PreviewAll(db, init).value, last, cls);
        PreviewWeakSnoc(db, init, last);
      }
    }
  }

  lemma NothingApplies(db: Db)
    ensures ApplyAll(db, []).ok && EveryPrefixWeak(db, [])
  {
    forall i | 0 <= i <= 0 ensures PreviewWeak(db, [][..i]) {}
  }

  lemma BatchSnoc(db: Db, init: seq<Change>, last: Change)
    ensures PreviewAll(db, init + [last]) ==
            match PreviewAll(db, init) case Err => Err case Ok(states) => PreviewNext(db, states, last)
    ensures ApplyAll(db, init + [last]).ok <==> ApplyAll(db, init).ok && ApplyOne(ApplyAll(db, init).db, last).Ok?
  {
    hide PreviewNext, ApplyOne;
    assert (init + [last])[..|init|] == init;
  }

  lemma PreviewWeakSnoc(db: Db, init: seq<Change>, last: Change)
    requires PreviewAll(db, init + [last]).Ok?
    ensures PreviewWeak(db, init + [last]) <==> AllWeak(PreviewAll(db, init + [last]).value)
  {
    hide PreviewAll, WeakState;
  }
}
