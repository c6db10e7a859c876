/**
 The manager: validated writes on one store. Each operation has a meaning on
 the plain map; the methods reach it through loops of single store writes.
 */
module Management {
  import opened Names
  import opened Ordering
  import opened Records
  import opened Database
  import opened Memory
  import opened Validation

  datatype ManagerOp =
    | UpsertZone(zone: BarFree)
    | DeleteZone(zone: BarFree)
    | UpsertRecord(record: Record)
    | DeleteRecord(record: Record)
    | UpsertRRSet(zone: BarFree, name: BarFree, rrtype: Uint16, records: seq<Record>)
    | DeleteRRSet(zone: BarFree, name: BarFree, rrtype: Uint16)
    | DeleteName(zone: BarFree, name: BarFree)

  // ----------------------------------------------------------- normalisation

  function NormalizeRRSetLookup(zone: BarFree, name: BarFree): Result<(BarFree, BarFree)> {
    match NormalizeZoneName(zone)
    case Err => Err
    case Ok(z) =>
      var n := NormalizeName(name);
      if n == "." || !IsSubDomain(z, n) then Err else Ok((z, n))
  }

  /** Fill in what the record leaves open; then it must belong to the RRset. */
  function NormalizeRRSetRecord(r: Record, zone: BarFree, name: BarFree, rrtype: Uint16): Result<Record> {
    var candidate := r.(
      zone := if r.zone == "" then zone else r.zone,
      name := if r.name == "" then name else r.name,
      rrtype := if r.rrtype == 0 then rrtype else r.rrtype);
    match NormalizeRecord(candidate)
    case Err => Err
    case Ok(n) => if n.zone != zone || n.name != name || n.rrtype != rrtype then Err else Ok(n)
  }

  ghost function NormalizeEach(zone: BarFree, name: BarFree, rrtype: Uint16, records: seq<Record>)
    : Result<seq<Record>>
  {
    if records == [] then Ok([])
    else match NormalizeEach(zone, name, rrtype, records[..|records| - 1])
      case Err => Err
      case Ok(rest) =>
        match NormalizeRRSetRecord(records[|records| - 1], zone, name, rrtype)
        case Err => Err
        case Ok(r) => Ok(rest + [r])
  }

  /** The records of a new RRset: non-empty, of one zone, owner and type, one per key. */
  ghost function RRSetRecords(zone: BarFree, name: BarFree, rrtype: Uint16, records: seq<Record>): Result<seq<Record>> {
    if records == [] then Err
    else match NormalizeRRSetLookup(zone, name)
      case Err => Err
      case Ok((z, n)) =>
        if rrtype == 0 then Err
        else match NormalizeEach(z, n, rrtype, records)
          case Err => Err
          case Ok(rs) => Ok(FirstPerKey(rs))
  }

  /** Every record of a normalised RRset is stored shape and sits at the RRset's zone, owner and type. */
  ghost predicate OfRRset(r: Record, zone: BarFree, name: BarFree, rrtype: Uint16) {
    IsNormalRecord(r) && r.zone == zone && r.name == name && r.rrtype == rrtype
  }

  lemma {:induction false} NormalizeEachFacts(zone: BarFree, name: BarFree, rrtype: Uint16, records: seq<Record>)
    requires NormalizeEach(zone, name, rrtype, records).Ok?
    ensures var rs := NormalizeEach(zone, name, rrtype, records).value;
            |rs| == |records| && forall r :: r in rs ==> OfRRset(r, zone, name, rrtype)
  {
    if records != [] {
      var last := records[|records| - 1];
      NormalizeEachFacts(zone, name, rrtype, records[..|records| - 1]);
      NormalizedRRsetRecord(last, zone, name, rrtype);
      hide OfRRset, NormalizeRRSetRecord;
    }
  }

  lemma NormalizedRRsetRecord(r: Record, zone: BarFree, name: BarFree, rrtype: Uint16)
    ensures NormalizeRRSetRecord(r, zone, name, rrtype).Ok? ==>
              OfRRset(NormalizeRRSetRecord(r, zone, name, rrtype).value, zone, name, rrtype)
  {
    hide NormalizeRecord, IsNormalRecord;
    var candidate := r.(
      zone := if r.zone == "" then zone else r.zone,
      name := if r.name == "" then name else r.name,
      rrtype := if r.rrtype == 0 then rrtype else r.rrtype);
    NormalizeRecordFacts(candidate);
  }

  lemma RRSetRecordsFacts(zone: BarFree, name: BarFree, rrtype: Uint16, records: seq<Record>)
    requires RRSetRecords(zone, name, rrtype, records).Ok?
    ensures var rs := RRSetRecords(zone, name, rrtype, records).value;
            && rs != [] && DistinctKeys(rs)
            && NormalizeRRSetLookup(zone, name) == Ok((rs[0].zone, rs[0].name)) && rs[0].rrtype == rrtype
            && forall r :: r in rs ==> OfRRset(r, rs[0].zone, rs[0].name, rrtype)
  {
    hide NormalizeRRSetLookup, NormalizeEach, FirstPerKey, OfRRset, DistinctKeys, KeysOf;
    var (z, n) := NormalizeRRSetLookup(zone, name).value;
    NormalizeEachFacts(z, n, rrtype, records);
    var rs := NormalizeEach(z, n, rrtype, records).value;
    FirstPerKeyFacts(rs);
    var first := FirstPerKey(rs)[0];
    assert first in FirstPerKey(rs) && OfRRset(first, z, n, rrtype);
    RRsetHead(first, z, n, rrtype);
  }

  lemma RRsetHead(r: Record, zone: BarFree, name: BarFree, rrtype: Uint16)
    requires OfRRset(r, zone, name, rrtype)
    ensures r.zone == zone && r.name == name && r.rrtype == rrtype
  {
    hide IsNormalRecord;
  }

  /** What the dry run keeps: anything of another owner, type or class than the first new record. */
  function NotReplacedBy(target: Record): Record -> bool {
    (r: Record) => !(r.name == target.name && r.rrtype == target.rrtype && r.cls == target.cls)
  }

  // ----------------------------------------------------------------- meanings

  ghost function WithRecords(db: Db, rs: seq<Record>): Db {
    if rs == [] then db else WithRecord(WithRecords(db, rs[..|rs| - 1]), rs[|rs| - 1])
  }

  /** The zone's keys once a record is added. */
  ghost function KeysWith(db: Db, r: Record): set<RecordKey> {
    ZoneKeys(db, r.zone) + {r.Key()}
  }

  /** The keys that the dry run of an RRset upsert removes: the class of the first new record decides. */
  ghost function ReplacedKeys(db: Db, first: Record): set<RecordKey> {
    set k | k in ZoneKeys(db, first.zone) && k.name == first.name && k.rrtype == first.rrtype
            && db.records[k].cls == first.cls
  }

  ghost function KeysWithRRset(db: Db, rs: seq<Record>): set<RecordKey>
    requires rs != []
  {
    ZoneKeys(db, rs[0].zone) - ReplacedKeys(db, rs[0]) + KeysOf(rs)
  }

  ghost function SaveValid(db: Db, r: Record): Result<Db> {
    if WeaklyValid(r.zone, KeysWith(db, r)) then Ok(WithRecord(db, r)) else Err
  }

  ghost function WithoutRRset(db: Db, zone: BarFree, name: BarFree, rrtype: Uint16): Db {
    WithoutKeys(db, RRsetKeys(db, zone, name, rrtype, CLASS_ANY))
  }

  ghost function ReplaceRRset(db: Db, rs: seq<Record>): Result<Db>
    requires rs != []
  {
    if WeaklyValid(rs[0].zone, KeysWithRRset(db, rs))
    then Ok(WithRecords(WithoutRRset(db, rs[0].zone, rs[0].name, rs[0].rrtype), rs))
    else Err
  }

  /** What a manager operation does to the store; Err leaves it as it was. */
  ghost function Meaning(db: Db, op: ManagerOp): Result<Db> {
    match op
    case UpsertZone(zone) => Apply(db, SaveZone(zone))
    case DeleteZone(zone) => Apply(db, StoreOp.DeleteZone(zone))
    case UpsertRecord(record) =>
      (match NormalizeRecord(record)
       case Err => Err
       case Ok(r) => SaveValid(db, r))
    case DeleteRecord(record) => Apply(db, StoreOp.DeleteRecord(record))
    case UpsertRRSet(zone, name, rrtype, records) =>
      (match RRSetRecords(zone, name, rrtype, records)
       case Err => Err
       case Ok(rs) => RRSetRecordsFacts(zone, name, rrtype, records); ReplaceRRset(db, rs))
    case DeleteRRSet(zone, name, rrtype) =>
      (match NormalizeRRSetLookup(zone, name)
       case Err => Err
       case Ok((z, n)) => Ok(WithoutRRset(db, z, n, rrtype)))
    case DeleteName(zone, name) =>
      (match NormalizeRRSetLookup(zone, name)
       case Err => Err
       case Ok((z, n)) => Ok(WithoutRRset(db, z, n, TYPE_ANY)))
  }

  /** All of the meaning, or nothing. */
  ghost predicate Commits(before: Db, meaning: Result<Db>, ok: bool, after: Db) {
    match meaning case Ok(db) => ok && after == db case Err => !ok && after == before
  }

  /** The store never changes under an unchanged revision. */
  ghost predicate Advances(before: Db, revision: nat, after: Db, revision': nat) {
    revision < revision' || (revision == revision' && before == after)
  }

  // -------------------------------------------------- facts for the methods

  function ZoneFilter(zone: BarFree): RecordFilter {
    RecordFilter(zone, "", 0, 0)
  }

  /** Listing a zone gives each of its records once. */
  ghost predicate ListsZone(db: Db, zone: BarFree, records: seq<Record>) {
    && KeysOf(records) == ZoneKeys(db, zone) && DistinctKeys(records)
    && forall r :: r in records ==> Stored(db, r) && r.zone == zone
  }

  lemma ZoneFilterIsNormal(zone: BarFree)
    requires IsNormalZone(zone)
    ensures NormalizeRecordFilter(ZoneFilter(zone)) == Ok(ZoneFilter(zone))
  {
    NormalizeIdempotent(zone);
  }

  lemma ZoneListing(db: Db, zone: BarFree)
    requires WellFormed(db) && IsNormalZone(zone)
    ensures ListRecords(db, ZoneFilter(zone)).Ok? && ListsZone(db, zone, ListRecords(db, ZoneFilter(zone)).value)
  {
    ZoneFilterIsNormal(zone);
    ByRecordTotal();
    var s := Selected(db, ZoneFilter(zone));
    ListingListsZone(db, zone, Listing(s, ByRecord), s);
  }

  lemma ListingListsZone(db: Db, zone: BarFree, records: seq<Record>, s: set<Record>)
    requires Keyed(db.records) && IsListing(records, s, ByRecord) && s == Selected(db, ZoneFilter(zone))
    requires StrictTotal(ByRecord) && zone != ""
    ensures ListsZone(db, zone, records)
  {
    ListingDistinct(records, ByRecord);
    forall r ensures r in records <==> Stored(db, r) && r.zone == zone {
      hide Record.Key, SortedBy;
      ElemsMember(records, r);
    }
    forall k: RecordKey ensures k in KeysOf(records) <==> k in ZoneKeys(db, zone) {
      hide SortedBy;
      if k in ZoneKeys(db, zone) {
        assert db.records[k] in records;
      }
    }
    assert forall i :: 0 <= i < |records| ==> records[i] in records;
  }

  /** The records of a lookup in all classes are exactly the records behind its keys. */
  lemma FoundKeys(db: Db, zone: BarFree, name: BarFree, rrtype: Uint16)
    requires WellFormed(db)
    ensures var rs := Found(db, zone, name, rrtype, CLASS_ANY);
            && KeysOf(rs) == RRsetKeys(db, zone, name, rrtype, CLASS_ANY) && DistinctKeys(rs)
            && forall r :: r in rs ==> Stored(db, r) && IsNormalRecord(r)
  {
    ByDataTotal();
    var rs := Found(db, zone, name, rrtype, CLASS_ANY);
    ListingDistinct(rs, ByData);
    forall r ensures r in rs <==> Stored(db, r) && InRRset(r, zone, name, rrtype, CLASS_ANY) {
      FoundMember(db, zone, name, rrtype, CLASS_ANY, r);
    }
    hide Found, InRRset, IsNormalRecord;
    forall k ensures k in KeysOf(rs) <==> k in RRsetKeys(db, zone, name, rrtype, CLASS_ANY) {
      if k in RRsetKeys(db, zone, name, rrtype, CLASS_ANY) {
        assert db.records[k] in rs;
      }
    }
    assert forall i :: 0 <= i < |rs| ==> rs[i] in rs;
  }

  lemma {:induction false} KeysOfSize(rs: seq<Record>)
    requires DistinctKeys(rs)
    ensures |KeysOf(rs)| == |rs|
  {
    hide Record.Key;
    if rs != [] {
      var init, last := rs[..|rs| - 1], rs[|rs| - 1];
      assert rs == init + [last];
      KeysOfSize(init);
      KeysOfAppend(init, last);
      assert last.Key() !in KeysOf(init);
    }
  }

  lemma WithRecordsSnoc(db: Db, init: seq<Record>, last: Record)
    ensures WithRecords(db, init + [last]) == WithRecord(WithRecords(db, init), last)
  {
    assert (init + [last])[..|init|] == init;
  }

  lemma WithRecordKeys(db: Db, r: Record)
    ensures WithRecord(db, r).records.Keys == db.records.Keys + {r.Key()}
    ensures WithRecord(db, r).zones == db.zones + {r.zone}
  {
    hide Record.Key;
  }

  lemma {:induction false} WithRecordsKeys(db: Db, rs: seq<Record>)
    ensures WithRecords(db, rs).records.Keys == db.records.Keys + KeysOf(rs)
  {
    if rs != [] {
      hide *;
      var init, last := rs[..|rs| - 1], rs[|rs| - 1];
      assert rs == init + [last];
      WithRecordsSnoc(db, init, last);
      KeysOfAppend(init, last);
      WithRecordsKeys(db, init);
      WithRecordKeys(WithRecords(db, init), last);
    }
  }

  lemma {:induction false} WithRecordsZones(db: Db, rs: seq<Record>, zone: BarFree)
    requires forall r :: r in rs ==> r.zone == zone
    ensures WithRecords(db, rs).zones == if rs == [] then db.zones else db.zones + {zone}
  {
    if rs != [] {
      hide *;
      var init, last := rs[..|rs| - 1], rs[|rs| - 1];
      assert rs == init + [last] && last in rs && forall r :: r in init ==> r in rs;
      WithRecordsSnoc(db, init, last);
      WithRecordsZones(db, init, zone);
      WithRecordKeys(WithRecords(db, init), last);
      NoRecords(db);
    }
  }

  lemma NoRecords(db: Db)
    ensures WithRecords(db, []) == db
  {
  }

  lemma {:induction false} WithRecordsWellFormed(db: Db, rs: seq<Record>)
    requires WellFormed(db) && forall r :: r in rs ==> IsNormalRecord(r)
    ensures WellFormed(WithRecords(db, rs))
  {
    hide WellFormed, IsNormalRecord, WithRecord;
    if rs != [] {
      WithRecordsWellFormed(db, rs[..|rs| - 1]);
      WithRecordWellFormed(WithRecords(db, rs[..|rs| - 1]), rs[|rs| - 1]);
    }
  }

  /**
   Once the dry run of an RRset upsert is valid, no later check can fail: after
   the old RRset is gone and some new records are in, adding the next one stays
   within the keys of the dry run.
   */
  lemma NextSaveIsValid(db: Db, rs: seq<Record>, i: nat)
    requires WellFormed(db) && rs != [] && i < |rs|
    requires forall r :: r in rs ==> OfRRset(r, rs[0].zone, rs[0].name, rs[0].rrtype)
    requires WeaklyValid(rs[0].zone, KeysWithRRset(db, rs))
    ensures var now := WithRecords(WithoutRRset(db, rs[0].zone, rs[0].name, rs[0].rrtype), rs[..i]);
            WeaklyValid(rs[0].zone, KeysWith(now, rs[i]))
  {
    hide Record.Key, OfRRset, WithRecords, WeaklyValid, WellFormed, RRsetKeys, ReplacedKeys;
    var first := rs[0];
    var bare := WithoutRRset(db, first.zone, first.name, first.rrtype);
    var now := WithRecords(bare, rs[..i]);
    PrefixInZone(rs, i);
    WithRecordsKeys(bare, rs[..i]);
    ReplacedAreRemoved(db, first);
    assert rs[i] in rs && forall r :: r in rs[..i] ==> r in rs;
    assert KeysOf(rs[..i]) <= KeysOf(rs) && rs[i].Key() in KeysOf(rs);
    assert ZoneKeys(now, first.zone) <= ZoneKeys(bare, first.zone) + KeysOf(rs[..i]);
    ValidSubset(first.zone, KeysWith(now, rs[i]), KeysWithRRset(db, rs));
  }

  lemma PrefixInZone(rs: seq<Record>, i: nat)
    requires rs != [] && i < |rs| && forall r :: r in rs ==> OfRRset(r, rs[0].zone, rs[0].name, rs[0].rrtype)
    ensures rs[i].zone == rs[0].zone && forall r :: r in rs[..i] ==> r.zone == rs[0].zone
  {
    hide IsNormalRecord;
    assert rs[i] in rs;
    forall r | r in rs[..i] ensures r.zone == rs[0].zone {
      assert r in rs;
    }
  }

  /** The dry run removes no more than the real deletion, which ignores class. */
  lemma ReplacedAreRemoved(db: Db, first: Record)
    requires WellFormed(db)
    ensures ReplacedKeys(db, first) <= RRsetKeys(db, first.zone, first.name, first.rrtype, CLASS_ANY)
  {
    forall k | k in ReplacedKeys(db, first)
      ensures k in RRsetKeys(db, first.zone, first.name, first.rrtype, CLASS_ANY)
    {
      NameAndTypeInKey(db.records[k]);
    }
  }

  /** Normalise the records of an RRset, keeping the first of each key; any misfit refuses them all. */
  method NormalizeRRSetRecords(zone: BarFree, name: BarFree, rrtype: Uint16, records: seq<Record>)
    returns (rs: Result<seq<Record>>)
    ensures rs == RRSetRecords(zone, name, rrtype, records)
  {
    hide NormalizeRRSetLookup, NormalizeRRSetRecord, Record.Key, KeysOf;
    if |records| == 0 {
      return Err;
    }
    var target := NormalizeRRSetLookup(zone, name);
    if target.Err? || rrtype == 0 {
      return Err;
    }
    var (z, n) := target.value;
    var keys: set<RecordKey> := {};
    var unique: seq<Record> := [];
    ghost var normalized: seq<Record> := [];
    NothingYet();
    for i := 0 to |records|
      invariant NormalizeEach(z, n, rrtype, records[..i]) == Ok(normalized)
      invariant unique == FirstPerKey(normalized) && keys == KeysOf(unique)
    {
      assert records[..i + 1][..i] == records[..i];
      var r := NormalizeRRSetRecord(records[i], z, n, rrtype);
      if r.Err? {
        EachFails(z, n, rrtype, records, i + 1);
        return Err;
      }
      assert (normalized + [r.value])[..|normalized|] == normalized;
      KeysOfAppend(unique, r.value);
      normalized := normalized + [r.value];
      if r.value.Key() !in keys {
        keys := keys + {r.value.Key()};
        unique := unique + [r.value];
      }
    }
    assert records[..|records|] == records;
    return Ok(unique);
  }

  class Manager {
    const store: MemoryStore

    constructor (repo: MemoryStore)
      ensures store == repo
    {
      store := repo;
    }

    method UpsertZone(zone: BarFree) returns (ok: bool)
      requires store.Valid()
      modifies store
      ensures store.Valid() && Commits(old(store.db), Meaning(old(store.db), ManagerOp.UpsertZone(zone)), ok, store.db)
      ensures Advances(old(store.db), old(store.revision), store.db, store.revision)
    {
      hide WellFormed, Represents;
      NormalizeZoneNameFacts(zone);
      var normalized := NormalizeZoneName(zone);
      if normalized.Err? {
        return false;
      }
      NormalizeZoneNameFacts(normalized.value);
      ok := store.SaveZone(normalized.value);
    }

    method DeleteZone(zone: BarFree) returns (ok: bool)
      requires store.Valid()
      modifies store
      ensures store.Valid() && Commits(old(store.db), Meaning(old(store.db), ManagerOp.DeleteZone(zone)), ok, store.db)
      ensures Advances(old(store.db), old(store.revision), store.db, store.revision)
    {
      hide WellFormed, Represents;
      NormalizeZoneNameFacts(zone);
      var normalized := NormalizeZoneName(zone);
      if normalized.Err? {
        return false;
      }
      NormalizeZoneNameFacts(normalized.value);
      ok := store.DeleteZone(normalized.value);
    }

    /** Search the zone list for a name. */
    method HasZone(name: BarFree) returns (found: Result<bool>)
      requires store.Valid()
      ensures found == match NormalizeZoneName(name) case Err => Err case Ok(z) => Ok(z in store.db.zones)
    {
      hide WellFormed, Represents, NormalizeZoneName, ZoneLess;
      var normalized := NormalizeZoneName(name);
      if normalized.Err? {
        return Err;
      }
      var zones := store.ListZones();
      ZonesListed(store.db);
      for i := 0 to |zones|
        invariant normalized.value !in zones[..i]
      {
        if zones[i] == normalized.value {
          ElemsMember(zones, zones[i]);
          return Ok(true);
        }
      }
      ElemsMember(zones, normalized.value);
      return Ok(false);
    }

    /** Dry run of one record on the zone's list, checked by the weak rules. */
    method ValidateRecordUpsert(r: Record) returns (ok: bool)
      requires store.Valid() && IsNormalRecord(r)
      ensures ok <==> WeaklyValid(r.zone, KeysWith(store.db, r))
    {
      NormalZoneOf(r);
      hide WellFormed, Represents, Record.Key, WeaklyValid, ListValid, DistinctKeys, IsNormalRecord, IsNormalZone,
        FirstPerKey, KeysOf, NormalizeZoneName;
      var current := store.ListRecords(ZoneFilter(r.zone));
      ZoneListing(store.db, r.zone);
      var preview := UpsertRecords(current.value, [r]);
      FirstPerKeyFacts(current.value + [r]);
      KeysOfAppend(current.value, r);
      ListValidIsKeyValid(r.zone, preview, false);
      ok := ValidateZoneRecords(r.zone, preview, false);
    }

    method UpsertRecord(record: Record) returns (ok: bool)
      requires store.Valid()
      modifies store
      ensures store.Valid()
      ensures Commits(old(store.db), Meaning(old(store.db), ManagerOp.UpsertRecord(record)), ok, store.db)
      ensures Advances(old(store.db), old(store.revision), store.db, store.revision)
    {
      hide WellFormed, Represents, NormalizeRecord, IsNormalRecord, WeaklyValid, Record.Key;
      NormalizeRecordFacts(record);
      var normalized := NormalizeRecord(record);
      if normalized.Err? {
        return false;
      }
      NormalizeRecordFacts(normalized.value);
      var valid := ValidateRecordUpsert(normalized.value);
      if !valid {
        return false;
      }
      ok := store.SaveRecord(normalized.value);
    }

    method DeleteRecord(record: Record) returns (ok: bool)
      requires store.Valid()
      modifies store
      ensures store.Valid()
      ensures Commits(old(store.db), Meaning(old(store.db), ManagerOp.DeleteRecord(record)), ok, store.db)
      ensures Advances(old(store.db), old(store.revision), store.db, store.revision)
    {
      hide WellFormed, Represents, NormalizeRecord, IsNormalRecord, Record.Key;
      NormalizeRecordFacts(record);
      var normalized := NormalizeRecord(record);
      if normalized.Err? {
        return false;
      }
      NormalizeRecordFacts(normalized.value);
      ok := store.DeleteRecord(normalized.value);
    }

    /** Delete listed records one by one, counting them; stored records never fail to delete. */
    method DeleteRecords(records: seq<Record>) returns (deleted: nat)
      requires store.Valid() && forall r :: r in records ==> IsNormalRecord(r)
      modifies store
      ensures store.Valid() && store.db == WithoutKeys(old(store.db), KeysOf(records)) && deleted == |records|
      ensures Advances(old(store.db), old(store.revision), store.db, store.revision)
    {
      hide WellFormed, Represents, NormalizeRecord, IsNormalRecord, Record.Key;
      deleted := 0;
      ghost var before, revision := store.db, store.revision;
      assert before.records - KeysOf([]) == before.records;
      for i := 0 to |records|
        invariant store.Valid() && deleted == i
        invariant store.db == WithoutKeys(before, KeysOf(records[..i]))
        invariant Advances(before, revision, store.db, store.revision)
      {
        assert records[i] in records;
        NormalizeRecordFacts(records[i]);
        var ok := DeleteRecord(records[i]);
        assert records[..i + 1] == records[..i] + [records[i]];
        KeysOfAppend(records[..i], records[i]);
        assert before.records - KeysOf(records[..i]) - {records[i].Key()} == before.records - KeysOf(records[..i + 1]);
        deleted := deleted + 1;
      }
      assert records[..|records|] == records;
    }

    /** Remove an RRset in every class; the count is the drop in the number of stored records. */
    method DeleteRRSet(zone: BarFree, name: BarFree, rrtype: Uint16) returns (deleted: Result<nat>)
      requires store.Valid()
      modifies store
      ensures store.Valid()
      ensures var meaning := Meaning(old(store.db), ManagerOp.DeleteRRSet(zone, name, rrtype));
              Commits(old(store.db), meaning, deleted.Ok?, store.db)
      ensures deleted.Ok? ==> deleted.value == |old(store.db.records)| - |store.db.records|
      ensures Advances(old(store.db), old(store.revision), store.db, store.revision)
    {
      hide WellFormed, Represents, NormalizeRRSetLookup, NormalizeLookup, Found, RRsetKeys, KeysOf;
      RRSetLookupNormal(zone, name);
      match NormalizeRRSetLookup(zone, name) {
        case Err => deleted := Err;
        case Ok((z, n)) =>
          ghost var before := store.db;
          var records := store.Lookup(z, n, rrtype, CLASS_ANY);
          FoundKeys(store.db, z, n, rrtype);
          var count := DeleteRecords(records.value);
          RemovedCount(before, z, n, rrtype);
          deleted := Ok(count);
      }
    }

    /** The same for every type at an owner. */
    method DeleteName(zone: BarFree, name: BarFree) returns (deleted: Result<nat>)
      requires store.Valid()
      modifies store
      ensures store.Valid()
      ensures Commits(old(store.db), Meaning(old(store.db), ManagerOp.DeleteName(zone, name)), deleted.Ok?, store.db)
      ensures deleted.Ok? ==> deleted.value == |old(store.db.records)| - |store.db.records|
      ensures Advances(old(store.db), old(store.revision), store.db, store.revision)
    {
      hide WellFormed, Represents, NormalizeRRSetLookup, NormalizeLookup, Found, RRsetKeys, KeysOf;
      RRSetLookupNormal(zone, name);
      match NormalizeRRSetLookup(zone, name) {
        case Err => deleted := Err;
        case Ok((z, n)) =>
          ghost var before := store.db;
          var records := store.LookupAll(z, n, CLASS_ANY);
          FoundKeys(store.db, z, n, TYPE_ANY);
          var count := DeleteRecords(records.value);
          RemovedCount(before, z, n, TYPE_ANY);
          deleted := Ok(count);
      }
    }

    /** Dry run of an RRset replacement on the zone's list. */
    method ValidateRRSetUpsert(rs: seq<Record>) returns (ok: bool)
      requires store.Valid() && rs != [] && IsNormalRecord(rs[0])
      ensures ok <==> WeaklyValid(rs[0].zone, KeysWithRRset(store.db, rs))
    {
      NormalZoneOf(rs[0]);
      hide WellFormed, Represents, Record.Key, WeaklyValid, ListValid, DistinctKeys, IsNormalRecord, IsNormalZone,
        FirstPerKey, NormalizeZoneName, ListsZone, KeysOf, ReplacedKeys;
      var target := rs[0];
      var current := store.ListRecords(ZoneFilter(target.zone));
      ZoneListing(store.db, target.zone);
      var filtered := Filter(current.value, NotReplacedBy(target));
      FilteredKeys(store.db, target, current.value);
      var preview := UpsertRecords(filtered, rs);
      FirstPerKeyFacts(filtered + rs);
      KeysOfConcat(filtered, rs);
      ListValidIsKeyValid(target.zone, preview, false);
      ok := ValidateZoneRecords(target.zone, preview, false);
    }

    /** Replace an RRset: everything or nothing, although it is written record by record. */
    method UpsertRRSet(zone: BarFree, name: BarFree, rrtype: Uint16, records: seq<Record>)
      returns (saved: Result<seq<Record>>)
      requires store.Valid()
      modifies store
      ensures store.Valid()
      ensures var meaning := Meaning(old(store.db), ManagerOp.UpsertRRSet(zone, name, rrtype, records));
              Commits(old(store.db), meaning, saved.Ok?, store.db)
      ensures saved.Ok? ==> saved == RRSetRecords(zone, name, rrtype, records)
      ensures Advances(old(store.db), old(store.revision), store.db, store.revision)
    {
      hide WellFormed, Represents, RRSetRecords, NormalizeRRSetLookup, OfRRset, KeysWithRRset, WeaklyValid,
        DistinctKeys, NormalizeRecord, IsNormalRecord, RRsetKeys, Record.Key;
      var normalized := NormalizeRRSetRecords(zone, name, rrtype, records);
      if normalized.Err? {
        return Err;
      }
      RRSetRecordsFacts(zone, name, rrtype, records);
      var rs := normalized.value;
      assert rs[0] in rs;
      RRsetRecordNormal(rs[0], rs[0].zone, rs[0].name, rrtype);
      var valid := ValidateRRSetUpsert(rs);
      if !valid {
        return Err;
      }
      ghost var before := store.db;
      RRSetLookupFixed(zone, name);
      var deleted := DeleteRRSet(rs[0].zone, rs[0].name, rrtype);
      SaveEach(before, rs);
      return Ok(rs);
    }

    /** Save the records of a validated RRset one by one; no save can fail. */
    method SaveEach(ghost before: Db, rs: seq<Record>)
      requires store.Valid() && WellFormed(before) && rs != []
      requires forall r :: r in rs ==> OfRRset(r, rs[0].zone, rs[0].name, rs[0].rrtype)
      requires WeaklyValid(rs[0].zone, KeysWithRRset(before, rs))
      requires store.db == WithoutRRset(before, rs[0].zone, rs[0].name, rs[0].rrtype)
      modifies store
      ensures store.Valid() && store.db == WithRecords(old(store.db), rs)
      ensures Advances(old(store.db), old(store.revision), store.db, store.revision)
    {
      hide WellFormed, Represents, OfRRset, KeysWithRRset, WeaklyValid, WithoutRRset, NormalizeRecord,
        IsNormalRecord, Record.Key;
      ghost var bare, revision := store.db, store.revision;
      for i := 0 to |rs|
        invariant store.Valid() && store.db == WithRecords(bare, rs[..i])
        invariant Advances(bare, revision, store.db, store.revision)
      {
        assert rs[i] in rs;
        RRsetRecordNormal(rs[i], rs[0].zone, rs[0].name, rs[0].rrtype);
        NextSaveIsValid(before, rs, i);
        var ok := UpsertRecord(rs[i]);
        assert rs[..i + 1][..i] == rs[..i];
      }
      assert rs[..|rs|] == rs;
    }
  }

  // ------------------------------------------------- small facts, one a step

  lemma ZonesListed(db: Db)
    ensures Elems(ListZones(db)) == db.zones
  {
    StrLessTotal();
  }

  lemma NormalZoneOf(r: Record)
    requires IsNormalRecord(r)
    ensures IsNormalZone(r.zone) && NormalizeZoneName(r.zone) == Ok(r.zone)
  {
    NormalizeZoneNameFacts(r.zone);
  }

  /** A normalised RRset target is found where it was asked for. */
  lemma RRSetLookupNormal(zone: BarFree, name: BarFree)
    ensures NormalizeRRSetLookup(zone, name).Ok? ==>
              var (z, n) := NormalizeRRSetLookup(zone, name).value; NormalizeLookup(z, n) == Ok((z, n))
  {
    NormalizeZoneNameFacts(zone);
    NormalizeIdempotent(zone);
    NormalizeIdempotent(name);
    NormalizeIdempotent(NormalizeName(zone));
    NormalizeIdempotent(NormalizeName(name));
  }

  lemma RRSetLookupFixed(zone: BarFree, name: BarFree)
    ensures NormalizeRRSetLookup(zone, name).Ok? ==>
              var (z, n) := NormalizeRRSetLookup(zone, name).value; NormalizeRRSetLookup(z, n) == Ok((z, n))
  {
    NormalizeIdempotent(zone);
    NormalizeIdempotent(name);
  }

  lemma RemovedCount(db: Db, zone: BarFree, name: BarFree, rrtype: Uint16)
    requires WellFormed(db)
    ensures |Found(db, zone, name, rrtype, CLASS_ANY)| ==
            |db.records| - |WithoutRRset(db, zone, name, rrtype).records|
  {
    hide *;
    FoundKeys(db, zone, name, rrtype);
    KeysOfSize(Found(db, zone, name, rrtype, CLASS_ANY));
    WithoutRRsetSize(db, zone, name, rrtype);
  }

  lemma WithoutRRsetSize(db: Db, zone: BarFree, name: BarFree, rrtype: Uint16)
    ensures |db.records| - |WithoutRRset(db, zone, name, rrtype).records|
            == |RRsetKeys(db, zone, name, rrtype, CLASS_ANY)|
  {
    hide InRRset;
    RemoveSize(db.records, RRsetKeys(db, zone, name, rrtype, CLASS_ANY));
  }

  lemma RemoveSize(records: map<RecordKey, Record>, ks: set<RecordKey>)
    requires ks <= records.Keys
    ensures |records - ks| == |records| - |ks|
  {
    var rest := records - ks;
    assert rest.Keys == records.Keys - ks;
    assert |rest.Keys| == |rest| && |records.Keys| == |records|;
  }

  lemma NothingYet()
    ensures FirstPerKey([]) == [] && KeysOf([]) == {}
    ensures forall zone, name, rrtype :: NormalizeEach(zone, name, rrtype, []) == Ok([])
  {
  }

  lemma {:induction false} EachFails(zone: BarFree, name: BarFree, rrtype: Uint16, records: seq<Record>, i: nat)
    requires i <= |records| && NormalizeEach(zone, name, rrtype, records[..i]).Err?
    ensures NormalizeEach(zone, name, rrtype, records).Err?
    decreases |records| - i
  {
    hide NormalizeRRSetRecord;
    if i < |records| {
      assert records[..i + 1][..i] == records[..i];
      EachFails(zone, name, rrtype, records, i + 1);
    } else {
      assert records[..i] == records;
    }
  }

  lemma RRsetRecordNormal(r: Record, zone: BarFree, name: BarFree, rrtype: Uint16)
    requires OfRRset(r, zone, name, rrtype)
    ensures IsNormalRecord(r) && NormalizeRecord(r) == Ok(r) && r.zone == zone && r.name == name && r.rrtype == rrtype
  {
    hide IsNormalRecord;
    NormalizeRecordFacts(r);
  }

  lemma KeysOfConcat(a: seq<Record>, b: seq<Record>)
    ensures KeysOf(a + b) == KeysOf(a) + KeysOf(b)
  {
    hide Record.Key;
    assert forall r :: r in a + b <==> r in a || r in b;
  }

  lemma FilteredKeys(db: Db, target: Record, current: seq<Record>)
    requires WellFormed(db) && ListsZone(db, target.zone, current)
    ensures KeysOf(Filter(current, NotReplacedBy(target))) == ZoneKeys(db, target.zone) - ReplacedKeys(db, target)
  {
    var filtered := Filter(current, NotReplacedBy(target));
    FilterElems(current, NotReplacedBy(target));
    forall r { NameAndTypeInKey(r); }
    hide Record.Key, WellFormed, Filter;
    forall k ensures k in KeysOf(filtered) <==> k in ZoneKeys(db, target.zone) - ReplacedKeys(db, target) {
      if k in ZoneKeys(db, target.zone) {
        var r :| r in current && r.Key() == k;
        assert Stored(db, r);
      }
    }
  }
}
