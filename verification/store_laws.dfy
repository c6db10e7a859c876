/**
 What the store operations and reads mean, said about the given texts and the
 stored fields.
 */
module StoreLaws {
  import opened Names
  import opened Ordering
  import opened Records
  import opened Database

  /** Nothing changes at this key. */
  ghost predicate SameAt(db: Db, after: Db, k: RecordKey) {
    (k in db.records <==> k in after.records) && (k in db.records ==> after.records[k] == db.records[k])
  }

  // ------------------------------------------------------------------- writes

  /** The record is there, its zone exists, and nothing else has changed. */
  ghost predicate Puts(db: Db, after: Db, n: Record) {
    && Stored(after, n) && after.zones == db.zones + {n.zone}
    && forall k :: k != n.Key() ==> SameAt(db, after, k)
  }

  /** The record is not there, and nothing else has changed. */
  ghost predicate Takes(db: Db, after: Db, n: Record) {
    && n.Key() !in after.records && after.zones == db.zones
    && forall k :: k != n.Key() ==> SameAt(db, after, k)
  }

  /** Saving a zone adds its normal form to the zones; only the root is refused. */
  lemma SaveZoneExactly(db: Db, zone: BarFree, z: BarFree)
    requires IsNormalFormOf(z, zone)
    ensures var result := Apply(db, SaveZone(zone));
            && (result.Err? <==> z == ".")
            && (result.Ok? ==> result.value == Db(db.zones + {z}, db.records))
  {
    NormalizeZoneNameExactly(zone, z);
    NormalizeExactly(zone, z);
    hide IsNormalFormOf, Normalize;
  }

  /** Deleting a zone takes away the zone and the records of that zone, and nothing else. */
  lemma DeleteZoneExactly(db: Db, zone: BarFree, z: BarFree, k: RecordKey)
    requires IsNormalFormOf(z, zone)
    ensures var result := Apply(db, DeleteZone(zone));
            && (result.Err? <==> z == ".")
            && (result.Ok? ==>
                  && result.value.zones == db.zones - {z}
                  && (if k.zone == z then k !in result.value.records else SameAt(db, result.value, k)))
  {
    NormalizeZoneNameExactly(zone, z);
    NormalizeExactly(zone, z);
    hide IsNormalFormOf, Normalize;
  }

  /** Saving a record puts its normal form at its key and its zone among the zones, and changes nothing else. */
  lemma SaveRecordExactly(db: Db, record: Record, n: Record, k: RecordKey)
    requires IsNormalRecordOf(n, record)
    ensures var result := Apply(db, SaveRecord(record));
            && result.Ok? && Stored(result.value, n) && result.value.zones == db.zones + {n.zone}
            && (k != n.Key() ==> SameAt(db, result.value, k))
  {
    NormalizeRecordExactly(record, n);
    hide IsNormalRecordOf, NormalizeRecord, Record.Key;
  }

  /** Deleting a record takes away the record of its key, whatever that record's TTL, and nothing else. */
  lemma DeleteRecordExactly(db: Db, record: Record, n: Record, k: RecordKey)
    requires IsNormalRecordOf(n, record)
    ensures var result := Apply(db, DeleteRecord(record));
            && result.Ok? && result.value.zones == db.zones && n.Key() !in result.value.records
            && (k != n.Key() ==> SameAt(db, result.value, k))
  {
    NormalizeRecordExactly(record, n);
    hide IsNormalRecordOf, NormalizeRecord, Record.Key;
  }

  /** A record without a normal form is neither saved nor deleted. */
  lemma BadRecordRefused(db: Db, record: Record)
    requires forall n :: !IsNormalRecordOf(n, record)
    ensures Apply(db, SaveRecord(record)).Err? && Apply(db, DeleteRecord(record)).Err?
  {
    if NormalizeRecord(record).Ok? {
      NormalizeRecordExactly(record, NormalizeRecord(record).value);
    }
    hide IsNormalRecordOf, NormalizeRecord, Record.Key;
  }

  /** Saving a stored record again with another TTL or other case replaces it. */
  lemma ResaveReplaces(db: Db, stored: Record, again: Record)
    requires WellFormed(db) && Stored(db, stored) && SameRecord(stored, again) && IsNormalRecord(again)
    ensures var result := Apply(db, SaveRecord(again));
            && result.Ok? && result.value.records.Keys == db.records.Keys
            && Stored(result.value, again) && (again != stored ==> !Stored(result.value, stored))
            && result.value.zones == db.zones
  {
    hide WellFormed, IsNormalRecord, NormalizeRecord, Record.Key, SameUpToCase;
    SameKeyExactly(stored, again);
    NormalizeRecordFacts(again);
    ZoneOfStored(db, stored);
    assert db.zones + {again.zone} == db.zones;
  }

  lemma ZoneOfStored(db: Db, r: Record)
    requires WellFormed(db) && Stored(db, r)
    ensures r.zone in db.zones && IsNormalRecord(r)
  {
    assert r.Key().zone == r.zone;
    hide Record.Key, IsNormalRecord;
  }

  /** The TTL alone: one record, with the new TTL. */
  lemma NewTtlReplaces(db: Db, r: Record, ttl: Uint32)
    requires WellFormed(db) && Stored(db, r)
    ensures var result := Apply(db, SaveRecord(r.(ttl := ttl)));
            result == Ok(db.(records := db.records[r.Key() := r.(ttl := ttl)]))
  {
    hide WellFormed, IsNormalRecord, NormalizeRecord, Record.Key, SameUpToCase;
    var again := r.(ttl := ttl);
    SameUpToCaseReflexive(r.data);
    SameKeyExactly(r, again);
    ZoneOfStored(db, r);
    NormalTtl(r, ttl);
    NormalizeRecordFacts(again);
    assert db.zones + {r.zone} == db.zones;
  }

  lemma NormalTtl(r: Record, ttl: Uint32)
    ensures IsNormalRecord(r) <==> IsNormalRecord(r.(ttl := ttl))
  {
  }

  lemma SameUpToCaseReflexive(s: string)
    ensures SameUpToCase(s, s)
  {
    SameLower(s, s);
  }

  // -------------------------------------------------------------------- reads

  /** The list holds exactly the stored records that fit, each once. */
  ghost predicate Holds(db: Db, list: seq<Record>, fits: Record -> bool) {
    Distinct(list) && forall r :: r in list <==> Stored(db, r) && fits(r)
  }

  /** The stored records of a zone and owner, of the asked type and class or of any. */
  function AskedFor(zone: string, name: string, qtype: Uint16, qclass: Uint16): Record -> bool {
    (r: Record) =>
      && r.zone == zone && r.name == name
      && (qtype == TYPE_ANY || qtype == r.rrtype) && (qclass == CLASS_ANY || qclass == r.cls)
  }

  ghost predicate InDataOrder(list: seq<Record>) {
    forall i, j :: 0 <= i < j < |list| ==> list[i].data == list[j].data || StrLess(list[i].data, list[j].data)
  }

  lemma ByDataExactly(a: Record, b: Record)
    ensures ByData(a, b) ==> a.data == b.data || StrLess(a.data, b.data)
  {
  }

  lemma FoundExactly(db: Db, zone: string, name: string, qtype: Uint16, qclass: Uint16)
    requires WellFormed(db)
    ensures Holds(db, Found(db, zone, name, qtype, qclass), AskedFor(zone, name, qtype, qclass))
    ensures InDataOrder(Found(db, zone, name, qtype, qclass))
  {
    ByDataTotal();
    var list := Found(db, zone, name, qtype, qclass);
    ListingDistinct(list, ByData);
    forall r ensures r in list <==> Stored(db, r) && AskedFor(zone, name, qtype, qclass)(r) {
      FoundMember(db, zone, name, qtype, qclass, r);
      hide Found, Record.Key, WellFormed;
    }
    hide Found, Record.Key, WellFormed, ByData;
    forall i, j | 0 <= i < j < |list| ensures list[i].data == list[j].data || StrLess(list[i].data, list[j].data) {
      ByDataExactly(list[i], list[j]);
    }
  }

  /** A lookup answers for the normal forms of its texts: the stored records asked for, once each, in data order. */
  lemma LookupExactly(db: Db, zone: BarFree, name: string, qtype: Uint16, qclass: Uint16, z: BarFree, n: string)
    requires WellFormed(db) && IsNormalFormOf(z, zone) && IsNormalFormOf(n, name)
    ensures var found := Lookup(db, zone, name, qtype, qclass);
            && (found.Ok? <==> z != "." && IsSubDomain(z, n))
            && (found.Ok? ==> Holds(db, found.value, AskedFor(z, n, qtype, qclass)) && InDataOrder(found.value))
  {
    NormalizeZoneNameExactly(zone, z);
    NormalizeExactly(zone, z);
    NormalizeExactly(name, n);
    hide IsNormalFormOf, Normalize, Found, Holds, InDataOrder, WellFormed, IsSubDomain;
    FoundExactly(db, z, n, qtype, qclass);
  }

  /** What a filter asks for: an empty text, type 0 or ANY and class 0 or ANY ask for everything. */
  ghost predicate Wanted(f: RecordFilter, r: Record) {
    && (f.zone == "" || IsNormalFormOf(r.zone, f.zone))
    && (f.name == "" || IsNormalFormOf(r.name, f.name))
    && (f.rrtype == 0 || f.rrtype == TYPE_ANY || f.rrtype == r.rrtype)
    && (f.cls == 0 || f.cls == CLASS_ANY || f.cls == r.cls)
  }

  /** A filter is refused if it names the root, or an owner outside the zone it names. */
  ghost predicate Acceptable(f: RecordFilter) {
    && (f.zone != "" ==> !IsNormalFormOf(".", f.zone))
    && (f.name != "" ==> !IsNormalFormOf(".", f.name))
    && (f.zone != "" && f.name != "" ==>
          forall z, n :: IsNormalFormOf(z, f.zone) && IsNormalFormOf(n, f.name) ==> IsSubDomain(z, n))
  }

  lemma FilterExactly(f: RecordFilter)
    ensures NormalizeRecordFilter(f).Ok? <==> Acceptable(f)
    ensures NormalizeRecordFilter(f).Ok? ==>
              forall r: Record :: r.rrtype != 0 && r.cls != 0 ==>
                (RecordMatchesFilter(r, NormalizeRecordFilter(f).value) <==> Wanted(f, r))
  {
    forall s, n { NormalizeExactly(s, n); }
    NormalizeIsNormal(f.zone);
    NormalizeIsNormal(f.name);
    assert Normalize(f.zone) != "" && Normalize(f.name) != "";
    hide IsNormalFormOf, Normalize, IsSubDomain;
  }

  /** A listing holds the stored records that the filter wants, once each, by zone, owner, type and data. */
  lemma ListRecordsExactly(db: Db, f: RecordFilter)
    requires WellFormed(db)
    ensures ListRecords(db, f).Ok? <==> Acceptable(f)
    ensures ListRecords(db, f).Ok? ==>
              var list := ListRecords(db, f).value;
              && Distinct(list) && SortedBy(list, ByRecord)
              && forall r :: r in list <==> Stored(db, r) && Wanted(f, r)
  {
    FilterExactly(f);
    if NormalizeRecordFilter(f).Ok? {
      ByRecordTotal();
      var g := NormalizeRecordFilter(f).value;
      var list := Listing(Selected(db, g), ByRecord);
      ListingDistinct(list, ByRecord);
      hide NormalizeRecordFilter, Wanted, Acceptable, RecordMatchesFilter, ByRecord;
      forall r ensures r in list <==> Stored(db, r) && Wanted(f, r) {
        ListingMember(Selected(db, g), ByRecord, r);
        SelectedMember(db, g, r);
      }
    }
  }

  lemma SelectedMember(db: Db, g: RecordFilter, r: Record)
    requires WellFormed(db)
    ensures r in Selected(db, g) <==> Stored(db, r) && RecordMatchesFilter(r, g)
    ensures Stored(db, r) ==> r.rrtype != 0 && r.cls != 0
  {
    hide Record.Key, RecordMatchesFilter;
  }

  /** Zones are listed once each, in dictionary order. */
  lemma ListZonesExactly(db: Db)
    ensures var names := ListZones(db);
            && (forall z :: z in names <==> z in db.zones)
            && forall i, j :: 0 <= i < j < |names| ==> StrLess(names[i], names[j])
  {
    StrLessTotal();
    hide StrLess;
    var names := ListZones(db);
    forall z: BarFree ensures z in names <==> z in db.zones { ElemsMember(names, z); }
    assert forall i, j :: 0 <= i < j < |names| ==> ZoneLess(names[i], names[j]);
  }
}
