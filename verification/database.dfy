/**
 The plain map that both stores implement: a set of zones and one record per
 key. Every read is a function of this value.
 */
module Database {
  import opened Names
  import opened Ordering
  import opened Records

  datatype Db = Db(zones: set<BarFree>, records: map<RecordKey, Record>)

  const EMPTY: Db := Db({}, map[])

  ghost predicate Keyed(records: map<RecordKey, Record>) {
    forall k :: k in records ==> records[k].Key() == k
  }

  /** Every record is normalised, sits at its own key, and its zone exists. */
  ghost predicate WellFormed(db: Db) {
    && (forall z :: z in db.zones ==> IsNormalZone(z))
    && Keyed(db.records)
    && (forall k :: k in db.records ==> IsNormalRecord(db.records[k]))
    && (forall k :: k in db.records ==> k.zone in db.zones)
  }

  ghost predicate Stored(db: Db, r: Record) {
    r.Key() in db.records && db.records[r.Key()] == r
  }

  datatype StoreOp =
    | SaveZone(zone: BarFree)
    | DeleteZone(zone: BarFree)
    | SaveRecord(record: Record)
    | DeleteRecord(record: Record)

  /** What a store operation means; Err leaves the store as it was. */
  ghost function Apply(db: Db, op: StoreOp): Result<Db> {
    match op
    case SaveZone(zone) =>
      (match NormalizeZoneName(zone)
       case Err => Err
       case Ok(z) => Ok(db.(zones := db.zones + {z})))
    case DeleteZone(zone) =>
      (match NormalizeZoneName(zone)
       case Err => Err
       case Ok(z) => Ok(WithoutZone(db, z)))
    case SaveRecord(record) =>
      (match NormalizeRecord(record)
       case Err => Err
       case Ok(r) => Ok(WithRecord(db, r)))
    case DeleteRecord(record) =>
      (match NormalizeRecord(record)
       case Err => Err
       case Ok(r) => Ok(WithoutKeys(db, {r.Key()})))
  }

  /** The store after an operation, whether or not it succeeded. */
  ghost function After(db: Db, op: StoreOp): Db {
    match Apply(db, op) case Ok(after) => after case Err => db
  }

  ghost function WithRecord(db: Db, r: Record): Db {
    Db(db.zones + {r.zone}, db.records[r.Key() := r])
  }

  ghost function WithoutKeys(db: Db, ks: set<RecordKey>): Db {
    db.(records := db.records - ks)
  }

  ghost function ZoneKeys(db: Db, zone: string): set<RecordKey> {
    set k | k in db.records && k.zone == zone
  }

  ghost function WithoutZone(db: Db, zone: BarFree): Db {
    Db(db.zones - {zone}, db.records - ZoneKeys(db, zone))
  }

  /** The keys of the records that a lookup of (zone, name, type, class) finds. */
  ghost function RRsetKeys(db: Db, zone: string, name: string, qtype: Uint16, qclass: Uint16): set<RecordKey> {
    set k | k in db.records && InRRset(db.records[k], zone, name, qtype, qclass)
  }

  ghost function RRset(db: Db, zone: string, name: string, qtype: Uint16, qclass: Uint16): set<Record> {
    set k | k in RRsetKeys(db, zone, name, qtype, qclass) :: db.records[k]
  }

  /** The records of an RRset in the order lookups return them. */
  ghost function Found(db: Db, zone: string, name: string, qtype: Uint16, qclass: Uint16): seq<Record> {
    ByDataTotal();
    Listing(RRset(db, zone, name, qtype, qclass), ByData)
  }

  ghost function Lookup(db: Db, zone: BarFree, name: string, qtype: Uint16, qclass: Uint16): Result<seq<Record>> {
    match NormalizeLookup(zone, name)
    case Err => Err
    case Ok((z, n)) => Ok(Found(db, z, n, qtype, qclass))
  }

  ghost function Selected(db: Db, f: RecordFilter): set<Record> {
    set k | k in db.records && RecordMatchesFilter(db.records[k], f) :: db.records[k]
  }

  ghost function ListRecords(db: Db, f: RecordFilter): Result<seq<Record>> {
    match NormalizeRecordFilter(f)
    case Err => Err
    case Ok(g) => ByRecordTotal(); Ok(Listing(Selected(db, g), ByRecord))
  }

  predicate ZoneLess(a: BarFree, b: BarFree) {
    StrLess(a, b)
  }

  ghost function ListZones(db: Db): seq<BarFree> {
    StrLessTotal();
    Listing(db.zones, ZoneLess)
  }

  // -------------------------------------------------------------- invariants

  lemma WithRecordWellFormed(db: Db, r: Record)
    requires WellFormed(db) && IsNormalRecord(r)
    ensures WellFormed(WithRecord(db, r))
  {
    assert IsNormalZone(r.zone);
    assert r.Key().zone == r.zone;
    hide Record.Key;
  }

  lemma WithoutZoneWellFormed(db: Db, zone: BarFree)
    requires WellFormed(db)
    ensures WellFormed(WithoutZone(db, zone))
  {
    hide Record.Key;
  }

  lemma ApplyKeepsWellFormed(db: Db, op: StoreOp)
    requires WellFormed(db)
    ensures Apply(db, op).Ok? ==> WellFormed(Apply(db, op).value)
  {
    match op
    case SaveZone(zone) => NormalizeZoneNameFacts(zone);
    case DeleteZone(zone) => WithoutZoneWellFormed(db, NormalizeName(zone));
    case SaveRecord(record) =>
      NormalizeRecordFacts(record);
      if NormalizeRecord(record).Ok? {
        WithRecordWellFormed(db, NormalizeRecord(record).value);
      }
    case DeleteRecord(record) =>
  }

  lemma FoundMember(db: Db, zone: string, name: string, qtype: Uint16, qclass: Uint16, r: Record)
    requires WellFormed(db)
    ensures r in Found(db, zone, name, qtype, qclass) <==>
            Stored(db, r) && InRRset(r, zone, name, qtype, qclass)
  {
    ByDataTotal();
    ListingMember(RRset(db, zone, name, qtype, qclass), ByData, r);
  }

  /** A lookup comes back empty exactly when no stored record fits it. */
  lemma FoundEmpty(db: Db, zone: string, name: string, qtype: Uint16, qclass: Uint16)
    requires WellFormed(db)
    ensures Found(db, zone, name, qtype, qclass) == [] <==> RRsetKeys(db, zone, name, qtype, qclass) == {}
  {
    ByDataTotal();
    var s := RRset(db, zone, name, qtype, qclass);
    ElemsEmpty(Listing(s, ByData));
    if RRsetKeys(db, zone, name, qtype, qclass) != {} {
      var k :| k in RRsetKeys(db, zone, name, qtype, qclass);
      assert db.records[k] in s;
    }
  }
}
