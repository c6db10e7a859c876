/**
 How well the dry run of a change set predicts the real run.
 */
module ChangeTheorems {
  import opened Names
  import opened Ordering
  import opened Records
  import opened Database
  import opened Validation
  import opened Management
  import opened ManagementTheorems
  import opened ChangeSets

  /** The dry run and the store agree on a zone: whether it exists, and which keys it holds. */
  ghost predicate InSync(st: PreviewState, db: Db, zone: BarFree) {
    (st.present <==> zone in db.zones) && KeysOf(st.records) == ZoneKeys(db, zone)
  }

  /** Agreement, and the list carries the classes that the store holds. */
  ghost predicate Mirrors(st: PreviewState, db: Db, zone: BarFree) {
    && InSync(st, db, zone) && DistinctKeys(st.records)
    && forall r :: r in st.records ==>
         r.zone == zone && r.Key() in db.records && db.records[r.Key()].cls == r.cls
  }

  ghost predicate SameElsewhere(db: Db, after: Db, zone: BarFree) {
    forall z: BarFree :: z != zone ==> (z in db.zones <==> z in after.zones) && ZoneKeys(db, z) == ZoneKeys(after, z)
  }

  /**
   When a change does the same in both runs. Record changes must name the zone
   of their record; RRset deletions must not ask for all types while others are
   present; RRset upserts must not meet records of another type or class that
   only the real deletion would remove.
   */
  ghost predicate StepAgrees(db: Db, zone: BarFree, c: Change) {
    match c.kind
    case ChangeUpsertZone => true
    case ChangeDeleteZone => true
    case ChangeUpsertRecord => NormalizeZoneName(c.record.zone) == Ok(zone)
    case ChangeDeleteRecord =>
      NormalizeZoneName(c.record.zone) == Ok(zone)
      || forall r :: NormalizeRecord(c.record) == Ok(r) ==> r.Key() !in db.records
    case ChangeUpsertRRSet =>
      (match RRSetRecords(zone, c.name, c.rrtype, c.records)
       case Err => true
       case Ok(rs) => rs != [] ==> OnlyReplacesItsClass(db, rs))
    case ChangeDeleteRRSet =>
      c.rrtype != TYPE_ANY || OnlyAnyAt(db, zone, NormalizeName(c.name))
    case ChangeDeleteName => true
    case ChangeOther => true
  }

  ghost predicate OnlyAnyAt(db: Db, zone: BarFree, name: BarFree) {
    forall k :: k in db.records && k.zone == zone && k.name == name ==> k.rrtype == TYPE_ANY
  }

  /** Whatever a lookup of the RRset finds is of the first new record's type and class, or is itself new. */
  ghost predicate OnlyReplacesItsClass(db: Db, rs: seq<Record>)
    requires rs != []
  {
    forall k :: k in RRsetKeys(db, rs[0].zone, rs[0].name, rs[0].rrtype, CLASS_ANY) ==>
      (k.rrtype == rs[0].rrtype && db.records[k].cls == rs[0].cls) || k in KeysOf(rs)
  }

  // --------------------------------------------------------- lists and keys

  lemma FilterByKey(xs: seq<Record>, keep: Record -> bool, keepKey: RecordKey -> bool)
    requires forall r :: r in xs ==> keep(r) == keepKey(r.Key())
    ensures KeysOf(Filter(xs, keep)) == set k | k in KeysOf(xs) && keepKey(k)
  {
    hide Record.Key;
    FilterElems(xs, keep);
  }

  predicate DifferentKeys(a: Record, b: Record) {
    a.Key() != b.Key()
  }

  lemma FilterKeepsDistinctKeys(xs: seq<Record>, keep: Record -> bool)
    requires DistinctKeys(xs)
    ensures DistinctKeys(Filter(xs, keep))
  {
    hide Record.Key, Filter;
    FilterPairwise(xs, keep, DifferentKeys);
    assert PairwiseWhere(xs, keep, DifferentKeys);
  }

  lemma MergedKeys(xs: seq<Record>, ys: seq<Record>)
    ensures KeysOf(FirstPerKey(xs + ys)) == KeysOf(xs) + KeysOf(ys)
  {
    hide *;
    FirstPerKeyFacts(xs + ys);
    KeysOfConcat(xs, ys);
  }

  lemma SingleKey(r: Record)
    ensures KeysOf([r]) == {r.Key()}
  {
    hide Record.Key;
  }

  // ------------------------------------------------------------ step by step

  lemma UpsertRecordExact(db: Db, st: PreviewState, zone: BarFree, r: Record)
    requires Mirrors(st, db, zone)
    ensures var st', after := PreviewState(true, FirstPerKey(st.records + [r])), WithRecord(db, r);
            InSync(st', after, zone) && SameElsewhere(db, after, zone) <==> r.zone == zone
  {
    NameAndTypeInKey(r);
    MergedKeys(st.records, [r]);
    SingleKey(r);
    var after := WithRecord(db, r);
    forall z: BarFree ensures ZoneKeys(after, z) == ZoneKeys(db, z) + (if z == r.zone then {r.Key()} else {}) {
      ZoneKeysWithRecord(db, r, z);
    }
    hide Record.Key, FirstPerKey, ZoneKeys, DistinctKeys, KeysOf;
    assert r.zone != zone ==> r.Key() !in ZoneKeys(after, zone) by { ZoneKeysHave(after, zone, r.Key()); }
    forall z: BarFree | z != zone && r.zone == zone ensures ZoneKeys(after, z) == ZoneKeys(db, z) {
      assert ZoneKeys(db, z) + {} == ZoneKeys(db, z);
    }
  }

  lemma ZoneKeysHave(db: Db, zone: BarFree, k: RecordKey)
    ensures k in ZoneKeys(db, zone) <==> k in db.records && k.zone == zone
  {
  }

  lemma DeleteRecordExact(db: Db, st: PreviewState, zone: BarFree, r: Record)
    requires Mirrors(st, db, zone)
    ensures var st', after := st.(records := Filter(st.records, OtherKey(r.Key()))), WithoutKeys(db, {r.Key()});
            InSync(st', after, zone) && SameElsewhere(db, after, zone) <==> r.zone == zone || r.Key() !in db.records
  {
    NameAndTypeInKey(r);
    var k := r.Key();
    var after := WithoutKeys(db, {k});
    FilterByKey(st.records, OtherKey(k), (k': RecordKey) => k' != k);
    forall z: BarFree ensures ZoneKeys(after, z) == ZoneKeys(db, z) - {k} {
      ZoneKeysWithoutKeys(db, {k}, z);
    }
    hide Record.Key, Filter, DistinctKeys, KeysOf, ZoneKeys;
    assert forall k' :: k' in KeysOf(Filter(st.records, OtherKey(k))) <==> k' in ZoneKeys(db, zone) && k' != k;
    forall z: BarFree ensures k in ZoneKeys(db, z) <==> k in db.records && k.zone == z { ZoneKeysHave(db, z, k); }
    if k !in db.records || r.zone == zone {
      forall z: BarFree | z != zone ensures ZoneKeys(after, z) == ZoneKeys(db, z) {
        assert k !in ZoneKeys(db, z);
      }
    } else {
      assert k in ZoneKeys(db, r.zone) && k !in ZoneKeys(after, r.zone);
    }
  }

  lemma DeleteNameExact(db: Db, st: PreviewState, zone: BarFree, name: BarFree)
    requires WellFormed(db) && Mirrors(st, db, zone)
    ensures var st' := st.(records := Filter(st.records, OutsideName(zone, name)));
            var after := WithoutRRset(db, zone, name, TYPE_ANY);
            InSync(st', after, zone) && SameElsewhere(db, after, zone)
  {
    hide Record.Key, DistinctKeys, WellFormed, RRsetKeys, Filter;
    RemovedKeys(db, zone, name, TYPE_ANY);
    forall r { NameAndTypeInKey(r); }
    FilterByKey(st.records, OutsideName(zone, name), (k: RecordKey) => !(k.zone == zone && k.name == name));
    forall z: BarFree {
      ZoneKeysWithoutKeys(db, RRsetKeys(db, zone, name, TYPE_ANY, CLASS_ANY), z);
    }
  }

  lemma RemovedKeys(db: Db, zone: BarFree, name: BarFree, rrtype: Uint16)
    requires WellFormed(db)
    ensures RRsetKeys(db, zone, name, rrtype, CLASS_ANY) ==
            set k | k in db.records && k.zone == zone && k.name == name && (rrtype == TYPE_ANY || k.rrtype == rrtype)
  {
    forall k | k in db.records ensures
      InRRset(db.records[k], zone, name, rrtype, CLASS_ANY) <==>
      k.zone == zone && k.name == name && (rrtype == TYPE_ANY || k.rrtype == rrtype)
    {
      NameAndTypeInKey(db.records[k]);
      assert db.records[k].Key() == k;
    }
  }

  lemma DeleteRRSetExact(db: Db, st: PreviewState, zone: BarFree, name: BarFree, rrtype: Uint16)
    requires WellFormed(db) && Mirrors(st, db, zone)
    ensures var st' := st.(records := Filter(st.records, OutsideRRset(zone, name, rrtype)));
            var after := WithoutRRset(db, zone, name, rrtype);
            InSync(st', after, zone) && SameElsewhere(db, after, zone)
            <==> rrtype != TYPE_ANY || OnlyAnyAt(db, zone, name)
  {
    hide Record.Key, DistinctKeys, WellFormed, RRsetKeys;
    RemovedKeys(db, zone, name, rrtype);
    forall r { NameAndTypeInKey(r); }
    var keepKey := (k: RecordKey) => !(k.zone == zone && k.name == name && k.rrtype == rrtype);
    FilterByKey(st.records, OutsideRRset(zone, name, rrtype), keepKey);
    forall z: BarFree {
      ZoneKeysWithoutKeys(db, RRsetKeys(db, zone, name, rrtype, CLASS_ANY), z);
    }
    var after := WithoutRRset(db, zone, name, rrtype);
    assert SameElsewhere(db, after, zone);
    if rrtype == TYPE_ANY {
      if k :| k in db.records && k.zone == zone && k.name == name && k.rrtype != TYPE_ANY {
        assert k in ZoneKeys(db, zone) && k !in ZoneKeys(after, zone);
      }
    }
  }

  lemma KeptKeys(db: Db, st: PreviewState, first: Record)
    requires Mirrors(st, db, first.zone)
    ensures KeysOf(Filter(st.records, NotReplacedBy(first))) == ZoneKeys(db, first.zone) - ReplacedKeys(db, first)
  {
    var filtered := Filter(st.records, NotReplacedBy(first));
    FilterElems(st.records, NotReplacedBy(first));
    forall r { NameAndTypeInKey(r); }
    hide Record.Key, Filter;
    forall k ensures k in KeysOf(filtered) <==> k in ZoneKeys(db, first.zone) - ReplacedKeys(db, first) {
      if k in ZoneKeys(db, first.zone) {
        assert k in KeysOf(st.records);
        var r :| r in st.records && r.Key() == k;
        if r' :| r' in filtered && r'.Key() == k {
          assert r' in st.records && r' == r by { SameKeySameRecord(st.records, r, r'); }
        }
      }
    }
  }

  lemma SameKeySameRecord(xs: seq<Record>, a: Record, b: Record)
    requires DistinctKeys(xs) && a in xs && b in xs && a.Key() == b.Key()
    ensures a == b
  {
    hide Record.Key;
    var i :| 0 <= i < |xs| && xs[i] == a;
    var j :| 0 <= j < |xs| && xs[j] == b;
  }

  lemma UpsertRRSetExact(db: Db, st: PreviewState, rs: seq<Record>)
    requires WellFormed(db) && rs != [] && Mirrors(st, db, rs[0].zone)
    requires forall r :: r in rs ==> OfRRset(r, rs[0].zone, rs[0].name, rs[0].rrtype)
    ensures var st' := PreviewState(true, FirstPerKey(Filter(st.records, NotReplacedBy(rs[0])) + rs));
            var after := WithRecords(WithoutRRset(db, rs[0].zone, rs[0].name, rs[0].rrtype), rs);
            InSync(st', after, rs[0].zone) && SameElsewhere(db, after, rs[0].zone) <==> OnlyReplacesItsClass(db, rs)
  {
    hide Record.Key, FirstPerKey, Filter, DistinctKeys, KeysOf, OfRRset, WithRecords, WellFormed;
    var first := rs[0];
    var bare := WithoutRRset(db, first.zone, first.name, first.rrtype);
    var after := WithRecords(bare, rs);
    KeptKeys(db, st, first);
    MergedKeys(Filter(st.records, NotReplacedBy(first)), rs);
    AllInZone(rs);
    WithRecordsZones(bare, rs, first.zone);
    RemovedKeys(db, first.zone, first.name, first.rrtype);
    ReplacedAreRemoved(db, first);
    forall z: BarFree { ZoneKeysReplaced(db, rs, z); }
    var removed, replaced := RRsetKeys(db, first.zone, first.name, first.rrtype, CLASS_ANY), ReplacedKeys(db, first);
    assert forall k :: k in removed && !(k.rrtype == first.rrtype && db.records[k].cls == first.cls)
                       <==> k in removed - replaced;
    hide RRsetKeys, ReplacedKeys;
    assert ZoneKeys(db, first.zone) - replaced + KeysOf(rs) == ZoneKeys(db, first.zone) - removed + KeysOf(rs)
      <==> removed - replaced <= KeysOf(rs) by { SwapRemoved(ZoneKeys(db, first.zone), removed, replaced, KeysOf(rs)); }
  }

  lemma SwapRemoved(all: set<RecordKey>, removed: set<RecordKey>, replaced: set<RecordKey>, added: set<RecordKey>)
    requires replaced <= removed <= all
    ensures all - replaced + added == all - removed + added <==> removed - replaced <= added
  {
    if removed - replaced <= added {
    } else {
      var k :| k in removed - replaced && k !in added;
      assert k in all - replaced + added && k !in all - removed + added;
    }
  }

  // ----------------------------------------------------------- any one change

  /** A successful change of zones or RRsets names its zone where the real run looks for it. */
  lemma NamedZone(c: Change, zone: BarFree)
    requires NormalizeChangeZone(c) == Ok(zone) && NormalizeZoneName(c.ZoneName()).Ok?
    ensures NormalizeZoneName(c.ZoneName()) == Ok(zone)
  {
    assert c.zone == "" && c.zoneName == "" ==> NormalizeZoneName(c.ZoneName()).Err? by { EmptyZoneName(); }
    hide NormalizeZoneName;
  }

  lemma EmptyZoneName()
    ensures NormalizeZoneName("") == Err
  {
    assert Lower("") == "" && TrimSpace("") == "";
  }

  lemma SameTarget(raw: BarFree, zone: BarFree, name: BarFree, rrtype: Uint16, records: seq<Record>)
    requires NormalizeZoneName(raw) == Ok(zone)
    ensures NormalizeRRSetLookup(raw, name) == NormalizeRRSetLookup(zone, name)
    ensures RRSetRecords(raw, name, rrtype, records) == RRSetRecords(zone, name, rrtype, records)
  {
    NormalizeZoneNameFacts(raw);
    NormalizeZoneNameFacts(zone);
    hide NormalizeZoneName, NormalizeName, NormalizeEach, FirstPerKey;
  }

  lemma LookupZone(zone: BarFree, name: BarFree)
    requires NormalizeRRSetLookup(zone, name).Ok?
    ensures NormalizeZoneName(zone) == Ok(NormalizeRRSetLookup(zone, name).value.0)
    ensures NormalizeRRSetLookup(zone, name).value.1 == NormalizeName(name)
  {
    hide NormalizeZoneName, NormalizeName;
  }

  lemma RecordZone(record: Record)
    requires NormalizeRecord(record).Ok?
    ensures NormalizeZoneName(record.zone) == Ok(NormalizeRecord(record).value.zone)
  {
    hide NormalizeZoneName, NormalizeName, TrimSpace;
  }

  ghost predicate BothSucceed(db: Db, st: PreviewState, zone: BarFree, c: Change) {
    NormalizeChangeZone(c) == Ok(zone) && PreviewOne(st, zone, c).Ok? && ApplyOne(db, c).Ok?
  }

  /** After one change that both runs accept, they still agree if and only if StepAgrees held before it. */
  lemma StepExact(db: Db, st: PreviewState, zone: BarFree, c: Change)
    requires WellFormed(db) && Mirrors(st, db, zone) && BothSucceed(db, st, zone, c)
    ensures var st', after := PreviewOne(st, zone, c).value, ApplyOne(db, c).value;
            InSync(st', after, zone) && SameElsewhere(db, after, zone) <==> StepAgrees(db, zone, c)
  {
    hide Mirrors, InSync, SameElsewhere, WellFormed, NormalizeRecord, NormalizeZoneName, NormalizeName,
      NormalizeRRSetLookup, RRSetRecords, NormalizeChangeZone, Record.Key, FirstPerKey, Filter,
      OnlyReplacesItsClass, WithRecords, WithoutRRset, OfRRset, DistinctKeys, WeaklyValid, WithoutZone;
    match c.kind {
      case ChangeUpsertZone =>
        NamedZone(c, zone);
        UpsertZoneExact(db, st, zone);
      case ChangeDeleteZone =>
        NamedZone(c, zone);
        DeleteZoneExact(db, zone);
      case ChangeUpsertRecord =>
        RecordZone(c.record);
        UpsertRecordExact(db, st, zone, NormalizeRecord(c.record).value);
      case ChangeDeleteRecord =>
        RecordZone(c.record);
        DeleteRecordExact(db, st, zone, NormalizeRecord(c.record).value);
      case ChangeUpsertRRSet =>
        RRSetRecordsFacts(c.ZoneName(), c.name, c.rrtype, c.records);
        LookupZone(c.ZoneName(), c.name);
        NamedZone(c, zone);
        SameTarget(c.ZoneName(), zone, c.name, c.rrtype, c.records);
        UpsertRRSetExact(db, st, RRSetRecords(zone, c.name, c.rrtype, c.records).value);
      case ChangeDeleteRRSet =>
        LookupZone(c.ZoneName(), c.name);
        NamedZone(c, zone);
        SameTarget(c.ZoneName(), zone, c.name, c.rrtype, c.records);
        DeleteRRSetExact(db, st, zone, NormalizeName(c.name), c.rrtype);
      case ChangeDeleteName =>
        LookupZone(c.ZoneName(), c.name);
        NamedZone(c, zone);
        SameTarget(c.ZoneName(), zone, c.name, c.rrtype, c.records);
        DeleteNameExact(db, st, zone, NormalizeName(c.name));
    }
  }

  lemma UpsertZoneExact(db: Db, st: PreviewState, zone: BarFree)
    requires Mirrors(st, db, zone)
    ensures var after := db.(zones := db.zones + {zone});
            InSync(st.(present := true), after, zone) && SameElsewhere(db, after, zone)
  {
    hide Record.Key, KeysOf, DistinctKeys;
    var after := db.(zones := db.zones + {zone});
    forall z: BarFree ensures ZoneKeys(after, z) == ZoneKeys(db, z) {}
  }

  lemma DeleteZoneExact(db: Db, zone: BarFree)
    ensures InSync(PreviewState(false, []), WithoutZone(db, zone), zone)
    ensures SameElsewhere(db, WithoutZone(db, zone), zone)
  {
    forall z: BarFree { ZoneKeysWithoutZone(db, zone, z); }
    hide ZoneKeys;
  }

  /** Asking the real run to delete all types at an owner goes further than its dry run. */
  lemma AnyTypeDiverges(db: Db, st: PreviewState, r: Record, c: Change)
    requires WellFormed(db) && Stored(db, r) && r.rrtype != TYPE_ANY && Mirrors(st, db, r.zone)
    requires c.kind == ChangeDeleteRRSet && c.rrtype == TYPE_ANY && NormalizeName(c.name) == r.name
    requires BothSucceed(db, st, r.zone, c)
    ensures var st', after := PreviewOne(st, r.zone, c).value, ApplyOne(db, c).value;
            !(InSync(st', after, r.zone) && SameElsewhere(db, after, r.zone))
  {
    NameAndTypeInKey(r);
    hide Mirrors, InSync, SameElsewhere, WellFormed, BothSucceed, PreviewOne, ApplyOne, NormalizeName, Record.Key;
    StepExact(db, st, r.zone, c);
    assert r.Key() in db.records;
  }

  // ------------------------------------------------- accepted but not applied

  function UpsertChange(r: Record): Change {
    Change(ChangeUpsertRecord, r.zone, "", r, [], "", 0)
  }

  function DeleteChange(r: Record): Change {
    Change(ChangeDeleteRecord, r.zone, "", r, [], "", 0)
  }

  /**
   Acceptance does not imply success: validation looks at the end of the batch,
   application checks every step. Replacing a zone's only record by a CNAME at
   its owner, upsert first, is accepted and then stops before writing anything.
   */
  lemma AcceptedBatchMayStop(db: Db, r: Record, alias: Record)
    requires WellFormed(db) && Stored(db, r) && ZoneKeys(db, r.zone) == {r.Key()}
    requires IsNormalRecord(alias) && alias.zone == r.zone && alias.name == r.name
    requires alias.rrtype == TYPE_CNAME && alias.Key() != r.Key()
    ensures var changes := [UpsertChange(alias), DeleteChange(r)];
            Accepted(db, changes) && ApplyAll(db, changes) == Batch(db, false)
  {
    hide WellFormed, IsNormalRecord, Record.Key, PreviewOne, ListValid, LoadState, NormalizeChangeZone, ApplyOne,
      NormalizeZoneName;
    var changes := [UpsertChange(alias), DeleteChange(r)];
    assert changes[..1] == [UpsertChange(alias)] && changes[..1][..0] == [];
    StoredIsNormal(db, r);
    ChangeZones(alias);
    ChangeZones(r);
    LoneZone(db, r);
    PreviewSwap(LoadState(db, r.zone), r, alias);
    LoneAliasValid(alias);
    UpsertRefused(db, r, alias);
    var mid := PreviewState(true, [r, alias]);
    assert PreviewAll(db, []) == Ok(map[]);
    assert PreviewAll(db, changes[..1]) == Ok(map[r.zone := mid]);
    assert map[r.zone := mid][r.zone := PreviewState(true, [alias])] == map[r.zone := PreviewState(true, [alias])];
    assert PreviewAll(db, changes) == Ok(map[r.zone := PreviewState(true, [alias])]);
    assert ApplyAll(db, []) == Batch(db, true);
    assert ApplyAll(db, changes[..1]) == Batch(db, false);
  }

  lemma StoredIsNormal(db: Db, r: Record)
    requires WellFormed(db) && Stored(db, r)
    ensures IsNormalRecord(r)
  {
    hide IsNormalRecord, Record.Key;
  }

  lemma ChangeZones(r: Record)
    requires IsNormalRecord(r)
    ensures NormalizeChangeZone(UpsertChange(r)) == Ok(r.zone) && NormalizeChangeZone(DeleteChange(r)) == Ok(r.zone)
    ensures NormalizeZoneName(r.zone) == Ok(r.zone) && NormalizeRecord(r) == Ok(r)
  {
    NormalZoneOf(r);
    NormalizeRecordFacts(r);
  }

  lemma LoneZone(db: Db, r: Record)
    requires WellFormed(db) && Stored(db, r) && IsNormalRecord(r) && ZoneKeys(db, r.zone) == {r.Key()}
    ensures LoadState(db, r.zone) == PreviewState(true, [r])
  {
    NormalZoneOf(r);
    NameAndTypeInKey(r);
    ZoneListing(db, r.zone);
    assert r.zone in db.zones;
    hide WellFormed, IsNormalRecord, IsNormalZone, Database.ListRecords, Record.Key, NormalizeZoneName;
    var rs := ListRecords(db, ZoneFilter(r.zone)).value;
    forall x | x in rs ensures x == r {
      assert x.Key() in KeysOf(rs);
    }
    LoneKey(rs, r);
  }

  lemma KeysDiffer(rs: seq<Record>, i: nat, j: nat)
    requires DistinctKeys(rs) && i < j < |rs|
    ensures rs[i].Key() != rs[j].Key() && rs[i] in rs && rs[j] in rs
  {
    hide Record.Key;
  }

  lemma LoneKey(rs: seq<Record>, r: Record)
    requires DistinctKeys(rs) && KeysOf(rs) == {r.Key()}
    requires forall x :: x in rs ==> x == r
    ensures rs == [r]
  {
    hide Record.Key;
    assert r.Key() in KeysOf(rs);
    assert forall i :: 0 <= i < |rs| ==> rs[i] in rs;
    if |rs| > 1 {
      KeysDiffer(rs, 0, 1);
      assert false;
    }
  }

  lemma PreviewSwap(st: PreviewState, r: Record, alias: Record)
    requires st == PreviewState(true, [r]) && NormalizeRecord(r) == Ok(r) && NormalizeRecord(alias) == Ok(alias)
    requires alias.Key() != r.Key()
    ensures var mid := PreviewState(true, [r, alias]);
            && PreviewOne(st, r.zone, UpsertChange(alias)) == Ok(mid)
            && PreviewOne(mid, r.zone, DeleteChange(r)) == Ok(PreviewState(true, [alias]))
  {
    hide NormalizeRecord, Record.Key;
    FirstPerKeySnoc([], r);
    FirstPerKeySnoc([r], alias);
    assert [] + [r] == [r] && [r] + [alias] == [r, alias];
    FilterPair(r, alias, OtherKey(r.Key()));
  }

  lemma FilterPair(a: Record, b: Record, keep: Record -> bool)
    requires !keep(a) && keep(b)
    ensures Filter([a, b], keep) == [b]
  {
    assert Filter([b], keep) == [b];
  }

  lemma LoneAliasValid(alias: Record)
    requires alias.rrtype == TYPE_CNAME
    ensures ListValid(alias.zone, [alias], true)
  {
  }

  lemma UpsertRefused(db: Db, r: Record, alias: Record)
    requires ZoneKeys(db, r.zone) == {r.Key()} && alias.zone == r.zone && alias.name == r.name
    requires alias.rrtype == TYPE_CNAME && alias.Key() != r.Key() && NormalizeRecord(alias) == Ok(alias)
    ensures ApplyOne(db, UpsertChange(alias)) == Err
  {
    NameAndTypeInKey(r);
    NameAndTypeInKey(alias);
    hide NormalizeRecord, Record.Key;
    assert r.Key() in KeysWith(db, alias) && alias.Key() in KeysWith(db, alias);
  }
}
