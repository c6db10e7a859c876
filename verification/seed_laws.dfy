/**
 What a seed import means, said about the lists of the seed: which zones exist
 afterwards, which records are stored, and when a seed is accepted.
 */
module SeedLaws {
  import opened Names
  import opened Ordering
  import opened Records
  import opened Database
  import opened StoreLaws
  import opened Validation
  import opened Management
  import opened ManagementTheorems
  import opened ChangeTheorems
  import opened Seeding

  /** The zone is named in the list of zones, or by one of the records. */
  ghost predicate NamesZone(seed: SeedData, z: BarFree) {
    || (exists i :: 0 <= i < |seed.zones| && IsNormalFormOf(z, seed.zones[i]))
    || (exists i :: 0 <= i < |seed.records| && IsNormalFormOf(z, seed.records[i].zone))
  }

  /** Each seed record in normal form. */
  ghost predicate AreNormal(list: seq<Record>, records: seq<Record>) {
    |list| == |records| && forall i :: 0 <= i < |records| ==> IsNormalRecordOf(list[i], records[i])
  }

  ghost predicate HasNormal(r: Record) {
    exists n :: IsNormalRecordOf(n, r)
  }

  lemma HasNormalExactly(r: Record)
    ensures NormalizeRecord(r).Ok? <==> HasNormal(r)
  {
    hide NormalizeRecord, IsNormalRecordOf;
    forall n { NormalizeRecordExactly(r, n); }
  }

  lemma {:induction false} ZonesExactly(zones: seq<BarFree>)
    ensures NormalizeZones(zones).Ok? <==> forall i :: 0 <= i < |zones| ==> !IsNormalFormOf(".", zones[i])
    ensures NormalizeZones(zones).Ok? ==>
              forall z: BarFree :: z in NormalizeZones(zones).value <==>
                exists i :: 0 <= i < |zones| && IsNormalFormOf(z, zones[i])
  {
    hide NormalizeZoneName, IsNormalFormOf;
    if zones != [] {
      var init, last := zones[..|zones| - 1], zones[|zones| - 1];
      ZonesExactly(init);
      ZoneAccepted(last);
      assert forall i :: 0 <= i < |init| ==> init[i] == zones[i];
      forall z: BarFree {
        NormalizeZoneNameExactly(last, z);
      }
    }
  }

  lemma ZoneAccepted(zone: BarFree)
    ensures NormalizeZoneName(zone).Ok? <==> !IsNormalFormOf(".", zone)
    ensures NormalizeZoneName(zone).Ok? ==> !IsNormalFormOf(".", zone) && NormalizeZoneName(zone).value != "."
  {
    NormalizeExactly(zone, ".");
    hide IsNormalFormOf;
  }

  lemma {:induction false} RecordsExactly(records: seq<Record>, list: seq<Record>)
    ensures NormalizeRecords(records) == Ok(list) <==> AreNormal(list, records)
    ensures NormalizeRecords(records).Ok? <==> forall i :: 0 <= i < |records| ==> HasNormal(records[i])
  {
    hide NormalizeRecord, IsNormalRecordOf, HasNormal;
    if records == [] {
    } else {
      var init, last := records[..|records| - 1], records[|records| - 1];
      var front := if list == [] then [] else list[..|list| - 1];
      RecordsExactly(init, front);
      HasNormalExactly(last);
      assert forall i :: 0 <= i < |init| ==> init[i] == records[i];
      if list != [] {
        assert list == front + [list[|list| - 1]];
        NormalizeRecordExactly(last, list[|list| - 1]);
      }
    }
  }

  lemma {:induction false} WithRecordsAllZones(db: Db, rs: seq<Record>)
    ensures WithRecords(db, rs).zones == db.zones + ZonesOf(rs)
  {
    if rs == [] {
      NoRecords(db);
    } else {
      var init, last := rs[..|rs| - 1], rs[|rs| - 1];
      assert rs == init + [last];
      hide *;
      WithRecordsAllZones(db, init);
      WithRecordsSnoc(db, init, last);
      WithRecordKeys(WithRecords(db, init), last);
      ZonesOfAppend(init, last);
    }
  }

  lemma FirstZones(rs: seq<Record>)
    ensures ZonesOf(FirstPerKey(rs)) <= ZonesOf(rs)
  {
    FirstPerKeyFacts(rs);
    hide FirstPerKey, KeysOf, DistinctKeys;
  }

  /** The normal form of a record lies in the normal form of its zone. */
  lemma ZonesOfNormal(list: seq<Record>, records: seq<Record>, z: BarFree)
    requires AreNormal(list, records)
    ensures z in ZonesOf(list) <==> exists i :: 0 <= i < |records| && IsNormalFormOf(z, records[i].zone)
  {
    forall i | 0 <= i < |records| ensures IsNormalFormOf(z, records[i].zone) <==> z == list[i].zone {
      NormalFormUnique(z, list[i].zone, records[i].zone);
    }
    hide IsNormalFormOf, IsNormalRecordOf;
    if z in ZonesOf(list) {
      var r :| r in list && r.zone == z;
      var i :| 0 <= i < |list| && list[i] == r;
      assert IsNormalFormOf(z, records[i].zone);
    }
    if i :| 0 <= i < |records| && IsNormalFormOf(z, records[i].zone) {
      assert list[i] in list;
    }
  }

  lemma NormalFormUnique(a: string, b: string, s: string)
    requires IsNormalFormOf(b, s)
    ensures IsNormalFormOf(a, s) <==> a == b
  {
    NormalizeExactly(s, a);
    NormalizeExactly(s, b);
  }

  /** What is collected from an acceptable seed: the zones it names, and the first normal record of each key. */
  lemma CollectedExactly(seed: SeedData) returns (list: seq<Record>)
    requires Collected(seed).Ok?
    ensures AreNormal(list, seed.records) && Collected(seed).value.1 == FirstPerKey(list)
    ensures forall z :: z in Collected(seed).value.0 <==> NamesZone(seed, z)
  {
    hide NormalizeZones, NormalizeRecords, FirstPerKey, SeedValid, IsNormalFormOf, AreNormal, ZonesOf, KeysOf;
    list := NormalizeRecords(seed.records).value;
    RecordsExactly(seed.records, list);
    ZonesExactly(seed.zones);
    forall z: BarFree { ZonesOfNormal(list, seed.records, z); }
    assert forall z :: z in Collected(seed).value.0 <==> z in NormalizeZones(seed.zones).value || z in ZonesOf(list);
  }

  /**
   After an import the zones are the old ones and exactly those that the seed
   names, the first record of each key of the seed is stored, and every key that is
   not in the seed is as it was.
   */
  lemma ImportExactly(db: Db, seed: SeedData) returns (list: seq<Record>)
    requires Imported(db, seed).Ok?
    ensures AreNormal(list, seed.records)
    ensures var after := Imported(db, seed).value;
            && (forall z: BarFree :: z in after.zones <==> z in db.zones || NamesZone(seed, z))
            && (forall i, r :: FirstIs(list, i, r) ==> Stored(after, r))
            && (forall k :: k !in KeysOf(list) ==> SameAt(db, after, k))
  {
    hide Collected, FirstPerKey, AreNormal, NamesZone, ZonesOf, KeysOf, FirstIs, WithRecords, DistinctKeys, Record.Key,
      Stored;
    list := CollectedExactly(seed);
    FirstPerKeyFacts(list);
    var base := db.(zones := db.zones + Collected(seed).value.0);
    WithRecordsAllZones(base, FirstPerKey(list));
    CollectedZonesCover(seed);
    var after := Imported(db, seed).value;
    forall i, r | FirstIs(list, i, r) ensures Stored(after, r) {
      FirstPerKeyExactly(list, r);
      WithRecordsAt(base, FirstPerKey(list), r.Key());
    }
    forall k | k !in KeysOf(list) ensures SameAt(db, after, k) {
      WithRecordsAt(base, FirstPerKey(list), k);
    }
  }

  lemma CollectedZonesCover(seed: SeedData)
    requires Collected(seed).Ok?
    ensures ZonesOf(Collected(seed).value.1) <= Collected(seed).value.0
  {
    hide NormalizeZones, NormalizeRecords, FirstPerKey, SeedValid, ZonesOf;
    FirstZones(NormalizeRecords(seed.records).value);
  }

  /** The keys of the seed in one zone. */
  ghost function SeedKeys(list: seq<Record>, z: BarFree): set<RecordKey> {
    set k | k in KeysOf(list) && k.zone == z
  }

  lemma ShareOfZone(list: seq<Record>, z: BarFree)
    ensures var share := Filter(FirstPerKey(list), OfZone(z));
            DistinctKeys(share) && KeysOf(share) == SeedKeys(list, z)
  {
    hide Record.Key, FirstPerKey, Filter, DistinctKeys, KeysOf;
    FirstPerKeyFacts(list);
    FilterKeepsDistinctKeys(FirstPerKey(list), OfZone(z));
    forall r { NameAndTypeInKey(r); }
    FilterByKey(FirstPerKey(list), OfZone(z), (k: RecordKey) => k.zone == z);
  }

  /** Every zone of the seed's records is strongly valid by the seed alone. */
  ghost predicate SeedStrong(list: seq<Record>) {
    forall z: BarFree :: StronglyValid(z, SeedKeys(list, z))
  }

  lemma SeedValidExactly(list: seq<Record>)
    ensures SeedValid(FirstPerKey(list)) <==> SeedStrong(list)
  {
    hide Record.Key, FirstPerKey, Filter, DistinctKeys, KeysOf, StronglyValid, ListValid, SeedKeys, ZonesOf;
    forall z: BarFree
      ensures ListValid(z, Filter(FirstPerKey(list), OfZone(z)), true) <==> StronglyValid(z, SeedKeys(list, z))
    {
      ShareOfZone(list, z);
      ListValidIsKeyValid(z, Filter(FirstPerKey(list), OfZone(z)), true);
    }
    forall z: BarFree | z !in ZonesOf(FirstPerKey(list)) ensures StronglyValid(z, SeedKeys(list, z)) {
      NoneOfZone(FirstPerKey(list), z);
      ShareOfZone(list, z);
    }
  }

  /** A seed is accepted if and only if all of it has normal forms and its records make strongly valid zones. */
  lemma ImportAcceptedExactly(db: Db, seed: SeedData)
    ensures Imported(db, seed).Ok? <==>
            && (forall i :: 0 <= i < |seed.zones| ==> !IsNormalFormOf(".", seed.zones[i]))
            && exists list :: AreNormal(list, seed.records) && SeedStrong(list)
  {
    hide NormalizeZones, NormalizeRecords, FirstPerKey, SeedValid, SeedStrong, IsNormalFormOf, AreNormal, ZonesOf,
      WithRecords;
    ZonesExactly(seed.zones);
    if NormalizeRecords(seed.records).Ok? {
      var list := NormalizeRecords(seed.records).value;
      RecordsExactly(seed.records, list);
      SeedValidExactly(list);
    }
    forall list | AreNormal(list, seed.records) ensures NormalizeRecords(seed.records) == Ok(list) {
      RecordsExactly(seed.records, list);
    }
  }
}
