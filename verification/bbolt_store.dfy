/**
 The bbolt repository: one flat bucket of records keyed by their key text and
 searched by key prefix.
 */
module Bbolt {
  import opened Names
  import opened Ordering
  import opened Records
  import opened KeyEncoding
  import opened Database
  import opened Memory

  type Bucket = map<string, Record>

  /** The bucket holds exactly these records, each at its own key text. */
  ghost predicate Backs(bucket: Bucket, records: map<RecordKey, Record>) {
    && (forall k :: k in records ==> Encode(k) in bucket && bucket[Encode(k)] == records[k])
    && (forall t :: t in bucket ==> bucket[t].Key() in records && Encode(bucket[t].Key()) == t)
  }

  lemma PutBacks(bucket: Bucket, records: map<RecordKey, Record>, r: Record)
    requires Backs(bucket, records)
    ensures Backs(bucket[Encode(r.Key()) := r], records[r.Key() := r])
  {
    hide Record.Key, Encode;
    forall k | k in records && k != r.Key() ensures Encode(k) != Encode(r.Key()) {
      EncodeInjective(k, r.Key());
    }
  }

  lemma RemoveBacks(bucket: Bucket, records: map<RecordKey, Record>, k: RecordKey)
    requires Backs(bucket, records)
    ensures Backs(bucket - {Encode(k)}, records - {k})
  {
    hide Record.Key, Encode;
    forall k' | k' in records && k' != k ensures Encode(k') != Encode(k) {
      EncodeInjective(k', k);
    }
  }

  /** Deleting the keys that start with "zone|" deletes the records of that zone and no others. */
  lemma RemoveZoneBacks(bucket: Bucket, rest: Bucket, db: Db, zone: BarFree)
    requires Backs(bucket, db.records)
    requires rest == map t | t in bucket && !HasPrefix(t, zone + "|") :: bucket[t]
    ensures Backs(rest, WithoutZone(db, zone).records)
  {
    hide Record.Key, Encode;
    forall k: RecordKey { KeyInZone(zone, k); }
  }

  lemma KeyInZone(zone: BarFree, k: RecordKey)
    ensures HasPrefix(Encode(k), zone + "|") <==> k.zone == zone
  {
    var rest := k.name + "|" + FiveDigits(k.rrtype) + "|" + k.fingerprint;
    assert Encode(k) == k.zone + "|" + rest;
    ZonePrefixExact(zone, k.zone, rest);
  }

  lemma NormalizedZone(record: Record)
    ensures NormalizeRecord(record).Ok? ==>
              var zone := NormalizeRecord(record).value.zone; NormalizeZoneName(zone) == Ok(zone)
  {
    NormalizeRecordFacts(record);
    if NormalizeRecord(record).Ok? {
      NormalizeZoneNameFacts(NormalizeRecord(record).value.zone);
    }
  }

  class BboltStore {
    var zones: set<BarFree>
    var bucket: Bucket
    var revision: nat
    ghost var db: Db

    ghost predicate Valid()
      reads this
    {
      zones == db.zones && WellFormed(db) && Backs(bucket, db.records)
    }

    constructor ()
      ensures Valid() && db == EMPTY && revision == 0
    {
      zones, bucket, revision := {}, map[], 0;
      db := EMPTY;
    }

    method SaveZone(zone: BarFree) returns (ok: bool)
      requires Valid()
      modifies this
      ensures Valid() && Effect(old(db), old(revision), StoreOp.SaveZone(zone), ok, db, revision)
      ensures bucket == old(bucket)
    {
      hide WellFormed, Backs, NormalizeZoneName;
      ApplyKeepsWellFormed(db, StoreOp.SaveZone(zone));
      var normalized := NormalizeZoneName(zone);
      if normalized.Err? {
        return false;
      }
      zones := zones + {normalized.value};
      revision := revision + 1;
      db := db.(zones := db.zones + {normalized.value});
      return true;
    }

    method DeleteZone(zone: BarFree) returns (ok: bool)
      requires Valid()
      modifies this
      ensures Valid() && Effect(old(db), old(revision), StoreOp.DeleteZone(zone), ok, db, revision)
    {
      hide WellFormed, Backs, NormalizeZoneName;
      ApplyKeepsWellFormed(db, StoreOp.DeleteZone(zone));
      var normalized := NormalizeZoneName(zone);
      if normalized.Err? {
        return false;
      }
      zones := zones - {normalized.value};
      DeleteKeysWithPrefix(normalized.value + "|");
      RemoveZoneBacks(old(bucket), bucket, db, normalized.value);
      revision := revision + 1;
      db := WithoutZone(db, normalized.value);
      return true;
    }

    /** Collect the matching keys, then delete them one by one. */
    method DeleteKeysWithPrefix(prefix: string)
      modifies this`bucket
      ensures bucket == map t | t in old(bucket) && !HasPrefix(t, prefix) :: old(bucket)[t]
    {
      hide HasPrefix;
      ghost var before := bucket;
      var matching := set t | t in bucket && HasPrefix(t, prefix);
      var keys := AnyOrder(matching);
      for i := 0 to |keys|
        invariant bucket == before - Elems(keys[..i])
      {
        assert keys[..i + 1] == keys[..i] + [keys[i]];
        ElemsAppend(keys[..i], [keys[i]]);
        bucket := bucket - {keys[i]};
      }
      assert keys[..|keys|] == keys;
    }

    method SaveRecord(record: Record) returns (ok: bool)
      requires Valid()
      modifies this
      ensures Valid() && Effect(old(db), old(revision), StoreOp.SaveRecord(record), ok, db, revision)
    {
      hide WellFormed, Backs, NormalizeZoneName, NormalizeRecord, Record.Key, Encode;
      ApplyKeepsWellFormed(db, StoreOp.SaveRecord(record));
      NormalizedZone(record);
      var normalized := NormalizeRecord(record);
      if normalized.Err? {
        return false;
      }
      var r := normalized.value;
      var saved := SaveZone(r.zone);
      PutBacks(bucket, db.records, r);
      bucket := bucket[Encode(r.Key()) := r];
      revision := revision + 1;
      db := db.(records := db.records[r.Key() := r]);
      return true;
    }

    method DeleteRecord(record: Record) returns (ok: bool)
      requires Valid()
      modifies this
      ensures Valid() && Effect(old(db), old(revision), StoreOp.DeleteRecord(record), ok, db, revision)
    {
      hide WellFormed, Backs, NormalizeRecord, Record.Key, Encode;
      ApplyKeepsWellFormed(db, StoreOp.DeleteRecord(record));
      var normalized := NormalizeRecord(record);
      if normalized.Err? {
        return false;
      }
      var k := normalized.value.Key();
      RemoveBacks(bucket, db.records, k);
      bucket := bucket - {Encode(k)};
      revision := revision + 1;
      db := WithoutKeys(db, {k});
      return true;
    }

    /** Any one operation. */
    method Perform(op: StoreOp) returns (ok: bool)
      requires Valid()
      modifies this
      ensures Valid() && Effect(old(db), old(revision), op, ok, db, revision)
    {
      hide WellFormed, Backs, Apply;
      match op {
        case SaveZone(zone) => ok := SaveZone(zone);
        case DeleteZone(zone) => ok := DeleteZone(zone);
        case SaveRecord(record) => ok := SaveRecord(record);
        case DeleteRecord(record) => ok := DeleteRecord(record);
      }
    }

    method ListZones() returns (names: seq<BarFree>)
      requires Valid()
      ensures names == Database.ListZones(db)
    {
      var values := AnyOrder(zones);
      StrLessTotal();
      SortIsListing(values, ZoneLess);
      names := Sort(values, ZoneLess);
      ListingIs(names, zones, ZoneLess);
    }

    /** The bucket scan: an empty prefix is no restriction. */
    method ScanRecordsByPrefix(prefix: string) returns (values: seq<Record>)
      requires Valid()
      ensures Distinct(values)
      ensures forall r :: r in values <==> Stored(db, r) && HasPrefix(Encode(r.Key()), prefix)
    {
      values := AnyOrder(set t | t in bucket && HasPrefix(t, prefix) :: bucket[t]);
      forall r ensures r in values <==> Stored(db, r) && HasPrefix(Encode(r.Key()), prefix) {
        hide Record.Key, Encode, HasPrefix;
        ElemsMember(values, r);
      }
    }

    method LookupByPrefix(zone: BarFree, name: string, qtype: Uint16, qclass: Uint16) returns (values: seq<Record>)
      requires Valid() && IsFqdn(name)
      ensures values == Found(db, zone, name, qtype, qclass)
    {
      var scanned := ScanRecordsByPrefix(RecordPrefix(zone, name, qtype));
      var keep := (r: Record) => qclass == CLASS_ANY || r.cls == qclass;
      forall r ensures r in RRset(db, zone, name, qtype, qclass) <==> r in scanned && keep(r) {
        assert r.Key().zone == r.zone && r.Key().name == r.name && r.Key().rrtype == r.rrtype;
        assert IsHex(r.Key().fingerprint);
        LookupPrefixExact(zone, name, qtype, r.Key());
        hide Record.Key, Encode, RecordPrefix;
      }
      ByDataTotal();
      FilterSortIsListing(scanned, keep, ByData, RRset(db, zone, name, qtype, qclass));
      values := Sort(Filter(scanned, keep), ByData);
    }

    method Lookup(zone: BarFree, name: string, qtype: Uint16, qclass: Uint16) returns (found: Result<seq<Record>>)
      requires Valid()
      ensures found == Database.Lookup(db, zone, name, qtype, qclass)
    {
      match NormalizeLookup(zone, name)
      case Err => found := Err;
      case Ok((z, n)) =>
        var values := LookupByPrefix(z, n, qtype, qclass);
        found := Ok(values);
    }

    method LookupAll(zone: BarFree, name: string, qclass: Uint16) returns (found: Result<seq<Record>>)
      requires Valid()
      ensures found == Database.Lookup(db, zone, name, TYPE_ANY, qclass)
    {
      match NormalizeLookup(zone, name)
      case Err => found := Err;
      case Ok((z, n)) =>
        var values := LookupByPrefix(z, n, TYPE_ANY, qclass);
        found := Ok(values);
    }

    method ListRecords(filter: RecordFilter) returns (listed: Result<seq<Record>>)
      requires Valid()
      ensures listed == Database.ListRecords(db, filter)
    {
      match NormalizeRecordFilter(filter)
      case Err => listed := Err;
      case Ok(f) =>
        var scanned := ScanRecordsByPrefix(RecordListPrefix(f));
        var keep := (r: Record) => RecordMatchesFilter(r, f);
        forall r ensures r in Selected(db, f) <==> r in scanned && keep(r) {
          hide Record.Key, Encode, RecordListPrefix, HasPrefix, RecordMatchesFilter;
          if RecordMatchesFilter(r, f) {
            ListPrefixCovers(f, r);
          }
        }
        ByRecordTotal();
        FilterSortIsListing(scanned, keep, ByRecord, Selected(db, f));
        listed := Ok(Sort(Filter(scanned, keep), ByRecord));
    }
  }

  /** Narrowing a listing to the filter's prefix loses no matching record. */
  lemma ListPrefixCovers(f: RecordFilter, r: Record)
    requires RecordMatchesFilter(r, f)
    ensures HasPrefix(Encode(r.Key()), RecordListPrefix(f))
  {
    if f.zone != "" {
      if f.name == "" {
        KeyInZone(f.zone, r.Key());
      } else {
        var t := if f.rrtype == 0 then TYPE_ANY else f.rrtype;
        PrefixExact(f.zone, f.name, t, r.zone, r.name, r.rrtype, r.Key().fingerprint);
      }
    }
  }
}
