/**
 Importing seed data: the seed is checked by itself with the strong rules and
 then written straight to the store.
 */
module Seeding {
  import opened Names
  import opened Ordering
  import opened Records
  import opened Database
  import opened Memory
  import opened Validation
  import opened Management
  import opened ManagementTheorems
  import opened ChangeTheorems

  datatype SeedData = SeedData(zones: seq<BarFree>, records: seq<Record>)

  datatype ImportResult = ImportResult(zones: nat, records: nat)

  ghost function NormalizeZones(zones: seq<BarFree>): Result<set<BarFree>> {
    if zones == [] then Ok({})
    else match NormalizeZones(zones[..|zones| - 1])
      case Err => Err
      case Ok(rest) =>
        match NormalizeZoneName(zones[|zones| - 1]) case Err => Err case Ok(z) => Ok(rest + {z})
  }

  ghost function NormalizeRecords(records: seq<Record>): Result<seq<Record>> {
    if records == [] then Ok([])
    else match NormalizeRecords(records[..|records| - 1])
      case Err => Err
      case Ok(rest) =>
        match NormalizeRecord(records[|records| - 1]) case Err => Err case Ok(r) => Ok(rest + [r])
  }

  function ZonesOf(records: seq<Record>): set<BarFree> {
    set r | r in records :: r.zone
  }

  function OfZone(zone: BarFree): Record -> bool {
    (r: Record) => r.zone == zone
  }

  ghost predicate SeedValid(records: seq<Record>) {
    forall z :: z in ZonesOf(records) ==> ListValid(z, Filter(records, OfZone(z)), true)
  }

  /** The zones and the first record per key that a seed stands for, if it is acceptable. */
  ghost function Collected(seed: SeedData): Result<(set<BarFree>, seq<Record>)> {
    match NormalizeZones(seed.zones)
    case Err => Err
    case Ok(zones) =>
      match NormalizeRecords(seed.records)
      case Err => Err
      case Ok(rs) =>
        var unique := FirstPerKey(rs);
        if SeedValid(unique) then Ok((zones + ZonesOf(rs), unique)) else Err
  }

  ghost function Imported(db: Db, seed: SeedData): Result<Db> {
    match Collected(seed)
    case Err => Err
    case Ok((zones, rs)) => Ok(WithRecords(db.(zones := db.zones + zones), rs))
  }

  // ------------------------------------------------------------------ methods

  method CollectSeedZones(seed: SeedData) returns (zones: Result<set<BarFree>>)
    ensures zones == NormalizeZones(seed.zones)
  {
    hide NormalizeZoneName;
    var names: set<BarFree> := {};
    for i := 0 to |seed.zones|
      invariant NormalizeZones(seed.zones[..i]) == Ok(names)
    {
      assert seed.zones[..i + 1][..i] == seed.zones[..i];
      var z := NormalizeZoneName(seed.zones[i]);
      if z.Err? {
        ZonesFail(seed.zones, i + 1);
        return Err;
      }
      names := names + {z.value};
    }
    assert seed.zones[..|seed.zones|] == seed.zones;
    return Ok(names);
  }

  lemma {:induction false} ZonesFail(zones: seq<BarFree>, i: nat)
    requires i <= |zones| && NormalizeZones(zones[..i]).Err?
    ensures NormalizeZones(zones).Err?
    decreases |zones| - i
  {
    hide NormalizeZoneName;
    if i < |zones| {
      assert zones[..i + 1][..i] == zones[..i];
      ZonesFail(zones, i + 1);
    } else {
      assert zones[..i] == zones;
    }
  }

  /** Normalise each record, collect its zone, and keep the first record of each key. */
  method CollectSeedRecords(seed: SeedData, zones: set<BarFree>) returns (result: Result<(set<BarFree>, seq<Record>)>)
    ensures result == match NormalizeRecords(seed.records)
                      case Err => Err
                      case Ok(rs) => Ok((zones + ZonesOf(rs), FirstPerKey(rs)))
  {
    hide NormalizeRecord, Record.Key, FirstPerKey, KeysOf, ZonesOf;
    var names, unique, keys: set<RecordKey> := zones, [], {};
    ghost var all: seq<Record> := [];
    NothingYet();
    NoZones();
    for i := 0 to |seed.records|
      invariant NormalizeRecords(seed.records[..i]) == Ok(all)
      invariant names == zones + ZonesOf(all) && unique == FirstPerKey(all) && keys == KeysOf(unique)
    {
      assert seed.records[..i + 1][..i] == seed.records[..i];
      var r := NormalizeRecord(seed.records[i]);
      if r.Err? {
        RecordsFail(seed.records, i + 1);
        return Err;
      }
      FirstPerKeySnoc(all, r.value);
      ZonesOfAppend(all, r.value);
      KeysOfAppend(unique, r.value);
      names := names + {r.value.zone};
      if r.value.Key() !in keys {
        keys := keys + {r.value.Key()};
        unique := unique + [r.value];
      }
      all := all + [r.value];
    }
    assert seed.records[..|seed.records|] == seed.records;
    return Ok((names, unique));
  }

  lemma NoZones()
    ensures ZonesOf([]) == {}
  {
  }

  lemma ZonesOfAppend(rs: seq<Record>, r: Record)
    ensures ZonesOf(rs + [r]) == ZonesOf(rs) + {r.zone}
  {
    assert forall x :: x in rs + [r] <==> x in rs || x == r;
  }

  lemma {:induction false} RecordsFail(records: seq<Record>, i: nat)
    requires i <= |records| && NormalizeRecords(records[..i]).Err?
    ensures NormalizeRecords(records).Err?
    decreases |records| - i
  {
    hide NormalizeRecord;
    if i < |records| {
      assert records[..i + 1][..i] == records[..i];
      RecordsFail(records, i + 1);
    } else {
      assert records[..i] == records;
    }
  }

  method ValidateRecordsByZone(records: seq<Record>) returns (ok: bool)
    requires forall r :: r in records ==> IsNormalRecord(r)
    ensures ok <==> SeedValid(records)
  {
    hide IsNormalRecord, ListValid, Filter, NormalizeZoneName;
    var zones: seq<BarFree> := AnyOrder<BarFree>(ZonesOf(records));
    for i := 0 to |zones|
      invariant forall j :: 0 <= j < i ==> ListValid(zones[j], Filter(records, OfZone(zones[j])), true)
    {
      ElemsMember(zones, zones[i]);
      var r :| r in records && r.zone == zones[i];
      NormalZoneOf(r);
      var valid := ValidateZoneRecords(zones[i], Filter(records, OfZone(zones[i])), true);
      if !valid {
        return false;
      }
    }
    forall z | z in ZonesOf(records) ensures ListValid(z, Filter(records, OfZone(z)), true) {
      ElemsMember(zones, z);
    }
    return true;
  }

  /** Collect, check, then write zones and records; nothing is written if the seed is refused. */
  method ImportSeedData(store: MemoryStore, seed: SeedData) returns (result: Result<ImportResult>)
    requires store.Valid()
    modifies store
    ensures store.Valid() && Commits(old(store.db), Imported(old(store.db), seed), result.Ok?, store.db)
    ensures result.Ok? ==> result.value == ImportResult(|Collected(seed).value.0|, |Collected(seed).value.1|)
    ensures Advances(old(store.db), old(store.revision), store.db, store.revision)
  {
    hide WellFormed, Represents, NormalizeZones, NormalizeRecords, FirstPerKey, SeedValid, IsNormalRecord, ZonesOf,
      KeysOf, DistinctKeys;
    var zones := CollectSeedZones(seed);
    if zones.Err? {
      return Err;
    }
    var collected := CollectSeedRecords(seed, zones.value);
    if collected.Err? {
      return Err;
    }
    var (names, rs) := collected.value;
    CollectedNormal(seed);
    var valid := ValidateRecordsByZone(rs);
    if !valid {
      return Err;
    }
    SaveSeedZones(store, names);
    SaveSeedRecords(store, rs);
    return Ok(ImportResult(|names|, |rs|));
  }

  method SaveSeedZones(store: MemoryStore, names: set<BarFree>)
    requires store.Valid() && forall z :: z in names ==> IsNormalZone(z)
    modifies store
    ensures store.Valid() && store.db == old(store.db).(zones := old(store.db).zones + names)
    ensures Advances(old(store.db), old(store.revision), store.db, store.revision)
  {
    hide WellFormed, Represents, NormalizeZoneName, IsNormalZone;
    ghost var before, revision := store.db, store.revision;
    var rest := names;
    while rest != {}
      invariant rest <= names && store.Valid()
      invariant store.db == before.(zones := before.zones + (names - rest))
      invariant Advances(before, revision, store.db, store.revision)
      decreases rest
    {
      var z :| z in rest;
      NormalizeZoneNameFacts(z);
      var ok := store.SaveZone(z);
      rest := rest - {z};
    }
  }

  method SaveSeedRecords(store: MemoryStore, rs: seq<Record>)
    requires store.Valid() && forall r :: r in rs ==> IsNormalRecord(r)
    modifies store
    ensures store.Valid() && store.db == WithRecords(old(store.db), rs)
    ensures Advances(old(store.db), old(store.revision), store.db, store.revision)
  {
    hide WellFormed, Represents, NormalizeRecord, IsNormalRecord, Record.Key;
    ghost var before, revision := store.db, store.revision;
    for i := 0 to |rs|
      invariant store.Valid() && store.db == WithRecords(before, rs[..i])
      invariant Advances(before, revision, store.db, store.revision)
    {
      assert rs[i] in rs;
      NormalizeRecordFacts(rs[i]);
      var ok := store.SaveRecord(rs[i]);
      assert rs[..i + 1][..i] == rs[..i];
    }
    assert rs[..|rs|] == rs;
  }

  lemma {:induction false} NormalizedZones(zones: seq<BarFree>)
    ensures NormalizeZones(zones).Ok? ==> forall z :: z in NormalizeZones(zones).value ==> IsNormalZone(z)
  {
    hide NormalizeZoneName, IsNormalZone;
    if zones != [] {
      NormalizedZones(zones[..|zones| - 1]);
      NormalizeZoneNameFacts(zones[|zones| - 1]);
    }
  }

  lemma {:induction false} NormalizedRecords(records: seq<Record>)
    ensures NormalizeRecords(records).Ok? ==> forall r :: r in NormalizeRecords(records).value ==> IsNormalRecord(r)
  {
    hide NormalizeRecord, IsNormalRecord;
    if records != [] {
      NormalizedRecords(records[..|records| - 1]);
      NormalizeRecordFacts(records[|records| - 1]);
    }
  }

  lemma CollectedNormal(seed: SeedData)
    requires NormalizeZones(seed.zones).Ok? && NormalizeRecords(seed.records).Ok?
    ensures var rs := NormalizeRecords(seed.records).value;
            && (forall z :: z in NormalizeZones(seed.zones).value + ZonesOf(rs) ==> IsNormalZone(z))
            && (forall r :: r in FirstPerKey(rs) ==> IsNormalRecord(r))
  {
    hide NormalizeZones, NormalizeRecords, FirstPerKey, IsNormal, IsSubDomain, KeysOf, DistinctKeys;
    NormalizedZones(seed.zones);
    NormalizedRecords(seed.records);
    FirstPerKeyFacts(NormalizeRecords(seed.records).value);
  }

  // ----------------------------------------------------------------- theorems

  lemma {:induction false} ZoneKeysOfMixed(db: Db, rs: seq<Record>, z: BarFree)
    ensures ZoneKeys(WithRecords(db, rs), z) == ZoneKeys(db, z) + KeysOf(Filter(rs, OfZone(z)))
  {
    hide Record.Key;
    WithRecordsKeys(db, rs);
    FilterElems(rs, OfZone(z));
    forall r { NameAndTypeInKey(r); }
    var after := WithRecords(db, rs);
    hide WithRecords, Filter;
    forall k ensures k in ZoneKeys(after, z) <==> k in ZoneKeys(db, z) + KeysOf(Filter(rs, OfZone(z))) {
      assert k in after.records.Keys <==> k in db.records.Keys || k in KeysOf(rs);
      if k in KeysOf(rs) {
        var r :| r in rs && r.Key() == k;
      }
    }
  }

  /** Importing into zones without records leaves each of them strongly valid, with exactly the first record per key. */
  lemma ImportIntoEmptyZones(db: Db, seed: SeedData, z: BarFree)
    requires Imported(db, seed).Ok? && z in Collected(seed).value.0 && ZoneKeys(db, z) == {}
    ensures var after, rs := Imported(db, seed).value, Collected(seed).value.1;
            && StronglyValid(z, ZoneKeys(after, z))
            && ZoneKeys(after, z) == KeysOf(Filter(rs, OfZone(z)))
            && (forall r :: r in rs ==> Stored(after, r))
  {
    hide NormalizeZones, NormalizeRecords, FirstPerKey, ListValid, WithRecords, StronglyValid, WeaklyValid,
      DistinctKeys, Record.Key, Filter, KeysOf, ZoneKeys;
    var rs := Collected(seed).value.1;
    FirstPerKeyFacts(NormalizeRecords(seed.records).value);
    var base := db.(zones := db.zones + Collected(seed).value.0);
    BaseKeys(db, base, z);
    ZoneKeysOfMixed(base, rs, z);
    StoredAfter(base, rs);
    FilterKeepsDistinctKeys(rs, OfZone(z));
    ListValidIsKeyValid(z, Filter(rs, OfZone(z)), true);
    if z !in ZonesOf(rs) {
      NoneOfZone(rs, z);
    }
    assert ZoneKeys(Imported(db, seed).value, z) == KeysOf(Filter(rs, OfZone(z)));
  }

  lemma BaseKeys(db: Db, base: Db, z: BarFree)
    requires base.records == db.records
    ensures ZoneKeys(base, z) == ZoneKeys(db, z)
  {
  }

  lemma StoredAfter(db: Db, rs: seq<Record>)
    requires DistinctKeys(rs)
    ensures forall r :: r in rs ==> Stored(WithRecords(db, rs), r)
  {
    hide DistinctKeys, WithRecords, Stored, Record.Key;
    forall r | r in rs ensures Stored(WithRecords(db, rs), r) {
      WithRecordsAt(db, rs, r.Key());
    }
  }

  lemma NoneOfZone(rs: seq<Record>, z: BarFree)
    requires z !in ZonesOf(rs)
    ensures Filter(rs, OfZone(z)) == [] && StronglyValid(z, KeysOf([]))
  {
    hide Record.Key;
    FilterLength(rs, OfZone(z));
    forall r | r in rs ensures !OfZone(z)(r) {
      assert r.zone in ZonesOf(rs);
    }
  }

  /** Two keys that the rules do not allow in one zone. */
  predicate Clash(a: RecordKey, b: RecordKey) {
    a != b && ((a.rrtype == TYPE_SOA && b.rrtype == TYPE_SOA)
               || (a.name == b.name && (a.rrtype == TYPE_CNAME || b.rrtype == TYPE_CNAME)))
  }

  ghost predicate NoClash(a: set<RecordKey>, b: set<RecordKey>) {
    forall x, y :: x in a && y in b ==> !Clash(x, y)
  }

  lemma UnionIsValid(zone: string, a: set<RecordKey>, b: set<RecordKey>)
    requires WeaklyValid(zone, a) && WeaklyValid(zone, b)
    ensures WeaklyValid(zone, a + b) <==> NoClash(a, b)
  {
    var u := a + b;
    if NoClash(a, b) {
      forall x, y | x in u && y in u ensures !Clash(x, y) {
        assert Clash(x, y) == Clash(y, x);
      }
      assert forall x, y :: x in u && y in u && x.rrtype == y.rrtype == TYPE_SOA && x != y ==> Clash(x, y);
      assert forall x, y :: x in u && y in u && x.name == y.name && x.rrtype == TYPE_CNAME && x != y ==> Clash(x, y);
    } else {
      var x, y :| x in a && y in b && Clash(x, y);
      assert x in u && y in u;
    }
  }

  /** An import keeps a valid zone valid if and only if none of its records clashes with a stored one. */
  lemma ImportKeepsValidExactly(db: Db, seed: SeedData, z: BarFree)
    requires WeaklyValid(z, ZoneKeys(db, z)) && Imported(db, seed).Ok?
    ensures var after, rs := Imported(db, seed).value, Collected(seed).value.1;
            WeaklyValid(z, ZoneKeys(after, z)) <==> NoClash(ZoneKeys(db, z), KeysOf(Filter(rs, OfZone(z))))
  {
    hide NormalizeZones, NormalizeRecords, FirstPerKey, ListValid, WithRecords, WeaklyValid, DistinctKeys,
      Record.Key, Filter, KeysOf, ZoneKeys, HasApexNS;
    var rs := Collected(seed).value.1;
    FirstPerKeyFacts(NormalizeRecords(seed.records).value);
    var base := db.(zones := db.zones + Collected(seed).value.0);
    BaseKeys(db, base, z);
    ZoneKeysOfMixed(base, rs, z);
    FilterKeepsDistinctKeys(rs, OfZone(z));
    ListValidIsKeyValid(z, Filter(rs, OfZone(z)), true);
    if z !in ZonesOf(rs) {
      NoneOfZone(rs, z);
    }
    UnionIsValid(z, ZoneKeys(db, z), KeysOf(Filter(rs, OfZone(z))));
  }

  /** Over a zone that holds records the import is not checked: a seeded record may land beside a stored CNAME. */
  lemma ImportMayBreakZone(db: Db, stored: Record, r: Record)
    requires WellFormed(db) && Stored(db, stored) && stored.rrtype == TYPE_CNAME
    requires IsNormalRecord(r) && r.zone == stored.zone && r.name == stored.name
    requires r.rrtype != TYPE_SOA && r.Key() != stored.Key()
    ensures Imported(db, SeedData([], [r])).Ok?
    ensures !WeaklyValid(r.zone, ZoneKeys(Imported(db, SeedData([], [r])).value, r.zone))
  {
    hide WellFormed, IsNormalRecord, NormalizeRecord, Record.Key, Collected, WithRecords, WeaklyValid, ZoneKeys;
    SingleSeed(r);
    var base := db.(zones := db.zones + {r.zone});
    NoRecords(base);
    WithRecordsSnoc(base, [], r);
    assert [] + [r] == [r];
    BesideCname(base, stored, r);
  }

  lemma BesideCname(db: Db, stored: Record, r: Record)
    requires Stored(db, stored) && stored.rrtype == TYPE_CNAME
    requires r.zone == stored.zone && r.name == stored.name && r.Key() != stored.Key()
    ensures !WeaklyValid(r.zone, ZoneKeys(WithRecord(db, r), r.zone))
  {
    NameAndTypeInKey(r);
    NameAndTypeInKey(stored);
    hide Record.Key;
    assert stored.Key() in ZoneKeys(WithRecord(db, r), r.zone) && r.Key() in ZoneKeys(WithRecord(db, r), r.zone);
  }

  lemma SingleSeed(r: Record)
    requires IsNormalRecord(r) && r.rrtype != TYPE_SOA
    ensures Collected(SeedData([], [r])) == Ok(({r.zone}, [r]))
  {
    hide IsNormalRecord, NormalizeRecord, Record.Key, SeedValid, Filter;
    NormalizeRecordFacts(r);
    assert [r][..0] == [] && [] + [r] == [r];
    assert NormalizeRecords([r]) == Ok([r]);
    assert FirstPerKey([r]) == [r];
    assert {} + ZonesOf([r]) == {r.zone};
    SingleSeedValid(r);
  }

  lemma SingleSeedValid(r: Record)
    requires r.rrtype != TYPE_SOA
    ensures SeedValid([r])
  {
    forall z | z in ZonesOf([r]) ensures ListValid(z, Filter([r], OfZone(z)), true) {
      assert [r][1..] == [] && [r] + [] == [r];
      assert Filter([r], OfZone(z)) == [r];
    }
  }
}
