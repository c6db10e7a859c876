/**
 What manager operations keep and what they leave behind, stated on the store.
 */
module ManagementTheorems {
  import opened Names
  import opened Ordering
  import opened Records
  import opened Database
  import opened Validation
  import opened Management

  // --------------------------------------------------- keys zone by zone

  lemma ZoneKeysWithoutKeys(db: Db, ks: set<RecordKey>, z: string)
    ensures ZoneKeys(WithoutKeys(db, ks), z) == ZoneKeys(db, z) - ks
  {
  }

  lemma ZoneKeysWithoutZone(db: Db, zone: BarFree, z: string)
    ensures ZoneKeys(WithoutZone(db, zone), z) == if z == zone then {} else ZoneKeys(db, z)
  {
  }

  lemma ZoneKeysWithRecord(db: Db, r: Record, z: string)
    ensures ZoneKeys(WithRecord(db, r), z) == ZoneKeys(db, z) + (if z == r.zone then {r.Key()} else {})
  {
    NameAndTypeInKey(r);
    hide Record.Key;
  }

  lemma {:induction false} ZoneKeysWithRecords(db: Db, rs: seq<Record>, zone: BarFree, z: string)
    requires forall r :: r in rs ==> r.zone == zone
    ensures ZoneKeys(WithRecords(db, rs), z) == ZoneKeys(db, z) + (if z == zone then KeysOf(rs) else {})
  {
    if rs == [] {
      NoRecords(db);
    } else {
      hide *;
      var init, last := rs[..|rs| - 1], rs[|rs| - 1];
      assert rs == init + [last] && last in rs && forall r :: r in init ==> r in rs;
      WithRecordsSnoc(db, init, last);
      KeysOfAppend(init, last);
      ZoneKeysWithRecords(db, init, zone, z);
      ZoneKeysWithRecord(WithRecords(db, init), last, z);
    }
  }

  lemma AllInZone(rs: seq<Record>)
    requires rs != [] && forall r :: r in rs ==> OfRRset(r, rs[0].zone, rs[0].name, rs[0].rrtype)
    ensures forall r :: r in rs ==> r.zone == rs[0].zone
  {
    hide IsNormalRecord;
  }

  lemma ZoneKeysReplaced(db: Db, rs: seq<Record>, z: string)
    requires rs != [] && forall r :: r in rs ==> OfRRset(r, rs[0].zone, rs[0].name, rs[0].rrtype)
    ensures var after := WithRecords(WithoutRRset(db, rs[0].zone, rs[0].name, rs[0].rrtype), rs);
            ZoneKeys(after, z) == ZoneKeys(db, z) - RRsetKeys(db, rs[0].zone, rs[0].name, rs[0].rrtype, CLASS_ANY)
                                  + (if z == rs[0].zone then KeysOf(rs) else {})
  {
    hide OfRRset, KeysOf, ZoneKeys, RRsetKeys, WithRecords;
    AllInZone(rs);
    var bare := WithoutRRset(db, rs[0].zone, rs[0].name, rs[0].rrtype);
    ZoneKeysWithRecords(bare, rs, rs[0].zone, z);
    ZoneKeysWithoutKeys(db, RRsetKeys(db, rs[0].zone, rs[0].name, rs[0].rrtype, CLASS_ANY), z);
  }

  // -------------------------------------------------------------- validity

  ghost predicate Sound(db: Db) {
    WellFormed(db) && AllValid(db)
  }

  lemma SoundIsWellFormed(db: Db)
    requires Sound(db)
    ensures WellFormed(db)
  {
    hide WellFormed, AllValid;
  }

  lemma SubsetKeepsValid(db: Db, after: Db)
    requires AllValid(db) && forall z: BarFree :: ZoneKeys(after, z) <= ZoneKeys(db, z)
    ensures AllValid(after)
  {
    hide WeaklyValid, ZoneKeys;
    forall z: BarFree ensures WeaklyValid(z, ZoneKeys(after, z)) {
      assert WeaklyValid(z, ZoneKeys(db, z));
      ValidSubset(z, ZoneKeys(after, z), ZoneKeys(db, z));
    }
  }

  lemma SaveKeepsSound(db: Db, r: Record)
    requires Sound(db) && IsNormalRecord(r) && SaveValid(db, r).Ok?
    ensures Sound(SaveValid(db, r).value)
  {
    hide WeaklyValid, ZoneKeys, WellFormed, IsNormalRecord, Record.Key, WithRecord;
    WithRecordWellFormed(db, r);
    forall z: BarFree ensures WeaklyValid(z, ZoneKeys(WithRecord(db, r), z)) {
      ZoneKeysWithRecord(db, r, z);
      assert ZoneKeys(db, z) + {} == ZoneKeys(db, z);
      assert WeaklyValid(z, ZoneKeys(db, z));
      assert z == r.zone ==> ZoneKeys(WithRecord(db, r), z) == KeysWith(db, r);
    }
  }

  lemma RemoveKeepsSound(db: Db, ks: set<RecordKey>)
    requires Sound(db)
    ensures Sound(WithoutKeys(db, ks))
  {
    hide AllValid, IsNormalRecord, IsNormalZone, Record.Key;
    forall z: BarFree ensures ZoneKeys(WithoutKeys(db, ks), z) <= ZoneKeys(db, z) {
      ZoneKeysWithoutKeys(db, ks, z);
    }
    SubsetKeepsValid(db, WithoutKeys(db, ks));
  }

  lemma RemoveZoneKeepsSound(db: Db, zone: BarFree)
    requires Sound(db)
    ensures Sound(WithoutZone(db, zone))
  {
    hide AllValid, WellFormed;
    WithoutZoneWellFormed(db, zone);
    forall z: BarFree ensures ZoneKeys(WithoutZone(db, zone), z) <= ZoneKeys(db, z) {
      ZoneKeysWithoutZone(db, zone, z);
    }
    SubsetKeepsValid(db, WithoutZone(db, zone));
  }

  lemma ReplaceKeepsSound(db: Db, rs: seq<Record>)
    requires Sound(db) && rs != []
    requires forall r :: r in rs ==> OfRRset(r, rs[0].zone, rs[0].name, rs[0].rrtype)
    requires ReplaceRRset(db, rs).Ok?
    ensures Sound(ReplaceRRset(db, rs).value)
  {
    hide WeaklyValid, ZoneKeys, RRsetKeys, KeysOf, WellFormed, OfRRset, WithRecords, ReplacedKeys;
    var first := rs[0];
    RRsetNormal(rs);
    RemoveKeepsSound(db, RRsetKeys(db, first.zone, first.name, first.rrtype, CLASS_ANY));
    var bare := WithoutRRset(db, first.zone, first.name, first.rrtype);
    WithRecordsWellFormed(bare, rs);
    ReplacedAreRemoved(db, first);
    forall z: BarFree ensures WeaklyValid(z, ZoneKeys(WithRecords(bare, rs), z)) {
      ZoneKeysReplaced(db, rs, z);
      assert WeaklyValid(z, ZoneKeys(db, z));
      if z == first.zone {
        ValidSubset(z, ZoneKeys(WithRecords(bare, rs), z), KeysWithRRset(db, rs));
      } else {
        ValidSubset(z, ZoneKeys(WithRecords(bare, rs), z), ZoneKeys(db, z));
      }
    }
  }

  lemma RRsetNormal(rs: seq<Record>)
    requires rs != [] && forall r :: r in rs ==> OfRRset(r, rs[0].zone, rs[0].name, rs[0].rrtype)
    ensures forall r :: r in rs ==> IsNormalRecord(r)
  {
    hide IsNormalRecord;
  }

  lemma SaveZoneKeepsSound(db: Db, z: BarFree)
    requires Sound(db) && IsNormalZone(z)
    ensures Sound(db.(zones := db.zones + {z}))
  {
    hide WeaklyValid, IsNormalRecord, Record.Key, IsNormalZone;
    var after := db.(zones := db.zones + {z});
    forall z': BarFree ensures WeaklyValid(z', ZoneKeys(after, z')) {
      assert ZoneKeys(after, z') == ZoneKeys(db, z');
      assert WeaklyValid(z', ZoneKeys(db, z'));
    }
  }

  /** Every manager operation keeps every zone valid. */
  lemma MeaningKeepsSound(db: Db, op: ManagerOp)
    requires Sound(db) && Meaning(db, op).Ok?
    ensures Sound(Meaning(db, op).value)
  {
    hide Sound, NormalizeRecord, RRSetRecords, NormalizeRRSetLookup, ReplaceRRset, SaveValid, WithoutRRset,
      NormalizeZoneName, OfRRset, Record.Key, IsNormalRecord, DistinctKeys;
    match op {
      case UpsertZone(zone) =>
        NormalizeZoneNameFacts(zone);
        SaveZoneKeepsSound(db, NormalizeZoneName(zone).value);
      case DeleteZone(zone) => RemoveZoneKeepsSound(db, NormalizeZoneName(zone).value);
      case UpsertRecord(record) =>
        NormalizeRecordFacts(record);
        SaveKeepsSound(db, NormalizeRecord(record).value);
      case DeleteRecord(record) => RemoveKeepsSound(db, {NormalizeRecord(record).value.Key()});
      case UpsertRRSet(zone, name, rrtype, records) =>
        RRSetRecordsFacts(zone, name, rrtype, records);
        ReplaceKeepsSound(db, RRSetRecords(zone, name, rrtype, records).value);
      case DeleteRRSet(zone, name, rrtype) =>
        var (z, n) := NormalizeRRSetLookup(zone, name).value;
        RemoveRRsetKeepsSound(db, z, n, rrtype);
      case DeleteName(zone, name) =>
        var (z, n) := NormalizeRRSetLookup(zone, name).value;
        RemoveRRsetKeepsSound(db, z, n, TYPE_ANY);
    }
  }

  lemma RemoveRRsetKeepsSound(db: Db, zone: BarFree, name: BarFree, rrtype: Uint16)
    requires Sound(db)
    ensures Sound(WithoutRRset(db, zone, name, rrtype))
  {
    hide Sound, RRsetKeys;
    RemoveKeepsSound(db, RRsetKeys(db, zone, name, rrtype, CLASS_ANY));
  }

  // ---------------------------------------------------- replacing an RRset

  lemma {:induction false} WithRecordsAt(db: Db, rs: seq<Record>, k: RecordKey)
    requires DistinctKeys(rs)
    ensures forall r :: r in rs ==> Stored(WithRecords(db, rs), r)
    ensures k !in KeysOf(rs) ==>
      (k in WithRecords(db, rs).records <==> k in db.records)
      && (k in db.records ==> WithRecords(db, rs).records[k] == db.records[k])
  {
    hide *;
    if rs == [] {
      NoRecords(db);
    } else {
      var init, last := rs[..|rs| - 1], rs[|rs| - 1];
      assert rs == init + [last];
      WithRecordsSnoc(db, init, last);
      LastKeyIsNew(init, last);
      KeysOfAppend(init, last);
      WithRecordsAt(db, init, k);
      WithRecordAt(WithRecords(db, init), last, k);
    }
  }

  lemma LastKeyIsNew(init: seq<Record>, last: Record)
    requires DistinctKeys(init + [last])
    ensures DistinctKeys(init) && forall r :: r in init ==> r.Key() != last.Key()
  {
    hide Record.Key;
    var rs := init + [last];
    assert forall i :: 0 <= i < |init| ==> init[i] == rs[i];
    forall r | r in init ensures r.Key() != last.Key() {
      var i :| 0 <= i < |init| && init[i] == r;
      assert rs[i].Key() != rs[|init|].Key();
    }
  }

  lemma WithRecordAt(db: Db, r: Record, k: RecordKey)
    ensures Stored(WithRecord(db, r), r)
    ensures forall x :: Stored(db, x) && x.Key() != r.Key() ==> Stored(WithRecord(db, r), x)
    ensures k != r.Key() ==>
      (k in WithRecord(db, r).records <==> k in db.records)
      && (k in db.records ==> WithRecord(db, r).records[k] == db.records[k])
  {
    hide Record.Key;
  }

  /**
   A successful RRset upsert leaves, where a lookup of that owner and type finds
   records, exactly the new records, and everything else as it was.
   */
  lemma UpsertRRSetExactly(db: Db, zone: BarFree, name: BarFree, rrtype: Uint16, records: seq<Record>, k: RecordKey)
    requires WellFormed(db) && Meaning(db, ManagerOp.UpsertRRSet(zone, name, rrtype, records)).Ok?
    ensures var after := Meaning(db, ManagerOp.UpsertRRSet(zone, name, rrtype, records)).value;
            var rs := RRSetRecords(zone, name, rrtype, records).value;
            var old' := RRsetKeys(db, rs[0].zone, rs[0].name, rrtype, CLASS_ANY);
            && (forall r :: r in rs ==> Stored(after, r))
            && RRsetKeys(after, rs[0].zone, rs[0].name, rrtype, CLASS_ANY) == KeysOf(rs)
            && (k !in KeysOf(rs) && k !in old' ==>
                  (k in after.records <==> k in db.records) && (k in db.records ==> after.records[k] == db.records[k]))
  {
    hide RRSetRecords, OfRRset, WeaklyValid, WellFormed, Record.Key, NormalizeRRSetLookup, KeysOf, DistinctKeys,
      KeysWithRRset;
    RRSetRecordsFacts(zone, name, rrtype, records);
    var rs := RRSetRecords(zone, name, rrtype, records).value;
    var bare := WithoutRRset(db, rs[0].zone, rs[0].name, rrtype);
    WithRecordsAt(bare, rs, k);
    NewRRsetKeys(db, rs);
  }

  lemma NewRRsetKeys(db: Db, rs: seq<Record>)
    requires WellFormed(db) && rs != [] && DistinctKeys(rs)
    requires forall r :: r in rs ==> OfRRset(r, rs[0].zone, rs[0].name, rs[0].rrtype)
    ensures var after := WithRecords(WithoutRRset(db, rs[0].zone, rs[0].name, rs[0].rrtype), rs);
            RRsetKeys(after, rs[0].zone, rs[0].name, rs[0].rrtype, CLASS_ANY) == KeysOf(rs)
  {
    var first := rs[0];
    var bare := WithoutRRset(db, first.zone, first.name, first.rrtype);
    var after := WithRecords(bare, rs);
    forall k
      ensures k in RRsetKeys(after, first.zone, first.name, first.rrtype, CLASS_ANY) <==> k in KeysOf(rs)
    {
      hide Record.Key, DistinctKeys, IsNormalRecord;
      WithRecordsAt(bare, rs, k);
      if k in KeysOf(rs) {
        var r :| r in rs && r.Key() == k;
        assert Stored(after, r) && OfRRset(r, first.zone, first.name, first.rrtype);
      }
    }
  }
}
