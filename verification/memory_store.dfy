/**
 The in-memory repository: a table of rows keyed by (zone, name) text, whose
 columns are keyed by the record key text.
 */
module Memory {
  import opened Names
  import opened Ordering
  import opened Records
  import opened KeyEncoding
  import opened Database

  type Table = map<string, map<string, Record>>

  ghost predicate Sits(r: Record, row: string, col: string, records: map<RecordKey, Record>) {
    r.Key() in records && Row(r.Key()) == row && Encode(r.Key()) == col
  }

  ghost predicate Holds(table: Table, k: RecordKey, r: Record) {
    Row(k) in table && Encode(k) in table[Row(k)] && table[Row(k)][Encode(k)] == r
  }

  /** The table holds exactly these records, each at its own row and column. */
  ghost predicate Represents(table: Table, records: map<RecordKey, Record>) {
    && (forall k :: k in records ==> Holds(table, k, records[k]))
    && (forall row, col :: row in table && col in table[row] ==> Sits(table[row][col], row, col, records))
  }

  function RowOf(table: Table, row: string): map<string, Record> {
    if row in table then table[row] else map[]
  }

  function Put(table: Table, row: string, col: string, r: Record): Table {
    table[row := RowOf(table, row)[col := r]]
  }

  function Remove(table: Table, row: string, col: string): Table {
    if row in table then table[row := table[row] - {col}] else table
  }

  lemma PutRepresents(table: Table, records: map<RecordKey, Record>, r: Record)
    requires Represents(table, records)
    ensures Represents(Put(table, Row(r.Key()), Encode(r.Key()), r), records[r.Key() := r])
  {
    hide Record.Key, Row, Encode;
    var k := r.Key();
    var table' := Put(table, Row(k), Encode(k), r);
    forall k' | k' in records && k' != k
      ensures Holds(table', k', records[k'])
    {
      assert Holds(table, k', records[k']);
      EncodeInjective(k', k);
    }
    assert Holds(table', k, r);
    forall row, col | row in table' && col in table'[row] && !(row == Row(k) && col == Encode(k))
      ensures Sits(table'[row][col], row, col, records[k := r])
    {
      assert Sits(table[row][col], row, col, records);
    }
  }

  lemma RemoveRepresents(table: Table, records: map<RecordKey, Record>, k: RecordKey)
    requires Represents(table, records)
    ensures Represents(Remove(table, Row(k), Encode(k)), records - {k})
  {
    hide Record.Key, Row, Encode;
    var table' := Remove(table, Row(k), Encode(k));
    forall k' | k' in records && k' != k
      ensures Holds(table', k', records[k'])
    {
      EncodeInjective(k', k);
    }
    forall row, col | row in table' && col in table'[row]
      ensures Sits(table'[row][col], row, col, records - {k})
    {
      assert Sits(table[row][col], row, col, records);
    }
  }

  /** Removing the rows that start with "zone|" removes the records of that zone and no others. */
  lemma RemoveRowsRepresents(table: Table, rest: Table, db: Db, zone: BarFree)
    requires Represents(table, db.records)
    requires forall row :: row in rest <==> row in table && !HasPrefix(row, zone + "|")
    requires forall row :: row in rest ==> rest[row] == table[row]
    ensures Represents(rest, WithoutZone(db, zone).records)
  {
    hide Record.Key, Row, Encode;
    forall k: RecordKey { RowInZone(zone, k); }
  }

  lemma RowInZone(zone: BarFree, k: RecordKey)
    ensures HasPrefix(Row(k), zone + "|") <==> k.zone == zone
  {
    assert Row(k) == k.zone + "|" + (k.name + "|");
    ZonePrefixExact(zone, k.zone, k.name + "|");
  }

  /** A row read gives the records of that zone and name. */
  lemma RowHolds(table: Table, db: Db, zone: BarFree, name: string, r: Record)
    requires Represents(table, db.records) && Keyed(db.records)
    ensures r in RowOf(table, RowText(zone, name)).Values <==>
            Stored(db, r) && r.zone == zone && r.name == name
  {
    var row := RowText(zone, name);
    RowTextInjective(zone, name, r.Key());
    assert r.Key().zone == r.zone && r.Key().name == r.name;
    hide Record.Key, Row, Encode, RowText;
    if r in RowOf(table, row).Values {
      var col :| col in table[row] && table[row][col] == r;
      assert Sits(r, row, col, db.records);
    }
  }

  lemma RowValues(table: Table, db: Db, row: string, r: Record)
    requires Represents(table, db.records) && Keyed(db.records) && row in table
    ensures r in table[row].Values <==> Stored(db, r) && Row(r.Key()) == row
  {
    hide Record.Key, Row, Encode;
    if r in table[row].Values {
      var col :| col in table[row] && table[row][col] == r;
      assert Sits(r, row, col, db.records);
      assert Holds(table, r.Key(), db.records[r.Key()]);
    } else if Stored(db, r) {
      assert Holds(table, r.Key(), r);
    }
  }

  lemma RowsExist(table: Table, db: Db)
    requires Represents(table, db.records)
    ensures forall r :: Stored(db, r) ==> Row(r.Key()) in table
  {
    hide Record.Key, Row, Encode;
    forall r | Stored(db, r) ensures Row(r.Key()) in table {
      assert Holds(table, r.Key(), r);
    }
  }

  ghost function InRows(db: Db, rows: set<string>): set<Record> {
    set k | k in db.records && Row(k) in rows :: db.records[k]
  }

  lemma InRowsMember(db: Db, rows: set<string>, r: Record)
    requires Keyed(db.records)
    ensures r in InRows(db, rows) <==> Stored(db, r) && Row(r.Key()) in rows
  {
    hide Record.Key, Row;
  }

  lemma RowIsInRows(table: Table, db: Db, row: string)
    requires Represents(table, db.records) && Keyed(db.records) && row in table
    ensures table[row].Values == InRows(db, {row})
  {
    hide *;
    forall r ensures r in table[row].Values <==> r in InRows(db, {row}) {
      RowValues(table, db, row, r);
      InRowsMember(db, {row}, r);
    }
  }

  lemma InRowsNone(db: Db)
    ensures InRows(db, {}) == {}
  {
  }

  lemma InRowsSplit(db: Db, rows: set<string>, row: string)
    requires Keyed(db.records) && row !in rows
    ensures InRows(db, rows + {row}) == InRows(db, rows) + InRows(db, {row})
    ensures InRows(db, rows) !! InRows(db, {row})
  {
    hide Record.Key, Row;
  }

  /** The stored effect of an operation: all of it with a newer revision, or nothing. */
  ghost predicate Effect(before: Db, rev: nat, op: StoreOp, ok: bool, after: Db, rev': nat) {
    match Apply(before, op)
    case Ok(db) => ok && after == db && rev < rev'
    case Err => !ok && after == before && rev == rev'
  }

  class MemoryStore {
    var zones: set<BarFree>
    var table: Table
    var revision: nat
    ghost var db: Db

    ghost predicate Valid()
      reads this
    {
      zones == db.zones && WellFormed(db) && Represents(table, db.records)
    }

    constructor ()
      ensures Valid() && db == EMPTY && revision == 0
    {
      zones, table, revision := {}, map[], 0;
      db := EMPTY;
    }

    method SaveZone(zone: BarFree) returns (ok: bool)
      requires Valid()
      modifies this
      ensures Valid() && Effect(old(db), old(revision), StoreOp.SaveZone(zone), ok, db, revision)
    {
      hide WellFormed, Represents, NormalizeZoneName, NormalizeRecord, Record.Key, Row, Encode;
      ApplyKeepsWellFormed(db, StoreOp.SaveZone(zone));
      var normalized := NormalizeZoneName(zone);
      if normalized.Err? {
        return false;
      }
      zones := zones + {normalized.value};
      revision := revision + 1;
      db := db.(zones := db.zones + {normalized.value});
      return true;
    }

    method DeleteZone(zone: BarFree) returns (ok: bool)
      requires Valid()
      modifies this
      ensures Valid() && Effect(old(db), old(revision), StoreOp.DeleteZone(zone), ok, db, revision)
    {
      hide WellFormed, Represents, NormalizeZoneName, NormalizeRecord, Record.Key, Row, Encode;
      ApplyKeepsWellFormed(db, StoreOp.DeleteZone(zone));
      var normalized := NormalizeZoneName(zone);
      if normalized.Err? {
        return false;
      }
      zones := zones - {normalized.value};
      DeleteRecordRowsByZone(normalized.value);
      revision := revision + 1;
      db := WithoutZone(db, normalized.value);
      return true;
    }

    method DeleteRecordRowsByZone(zone: BarFree)
      requires Represents(table, db.records)
      modifies this`table
      ensures Represents(table, WithoutZone(db, zone).records)
    {
      ghost var before := table;
      var rowPrefix := zone + "|";
      var rest := table.Keys;
      while rest != {}
        invariant rest <= before.Keys
        invariant forall row :: row in table <==> row in before && (row in rest || !HasPrefix(row, rowPrefix))
        invariant forall row :: row in table ==> table[row] == before[row]
        decreases rest
      {
        var row :| row in rest;
        rest := rest - {row};
        if HasPrefix(row, rowPrefix) {
          table := table - {row};
        }
      }
      RemoveRowsRepresents(before, table, db, zone);
    }

    method SaveRecord(record: Record) returns (ok: bool)
      requires Valid()
      modifies this
      ensures Valid() && Effect(old(db), old(revision), StoreOp.SaveRecord(record), ok, db, revision)
    {
      hide WellFormed, Represents, NormalizeZoneName, NormalizeRecord, Record.Key, Row, Encode;
      ApplyKeepsWellFormed(db, StoreOp.SaveRecord(record));
      var normalized := NormalizeRecord(record);
      if normalized.Err? {
        return false;
      }
      var r := normalized.value;
      PutRepresents(table, db.records, r);
      zones := zones + {r.zone};
      table := Put(table, Row(r.Key()), Encode(r.Key()), r);
      revision := revision + 1;
      db := WithRecord(db, r);
      return true;
    }

    method DeleteRecord(record: Record) returns (ok: bool)
      requires Valid()
      modifies this
      ensures Valid() && Effect(old(db), old(revision), StoreOp.DeleteRecord(record), ok, db, revision)
    {
      hide WellFormed, Represents, NormalizeZoneName, NormalizeRecord, Record.Key, Row, Encode;
      ApplyKeepsWellFormed(db, StoreOp.DeleteRecord(record));
      var normalized := NormalizeRecord(record);
      if normalized.Err? {
        return false;
      }
      var r := normalized.value;
      RemoveRepresents(table, db.records, r.Key());
      table := Remove(table, Row(r.Key()), Encode(r.Key()));
      revision := revision + 1;
      db := WithoutKeys(db, {r.Key()});
      return true;
    }

    /** Any one operation. */
    method Perform(op: StoreOp) returns (ok: bool)
      requires Valid()
      modifies this
      ensures Valid() && Effect(old(db), old(revision), op, ok, db, revision)
    {
      hide WellFormed, Represents, Apply;
      match op {
        case SaveZone(zone) => ok := SaveZone(zone);
        case DeleteZone(zone) => ok := DeleteZone(zone);
        case SaveRecord(record) => ok := SaveRecord(record);
        case DeleteRecord(record) => ok := DeleteRecord(record);
      }
    }

    method ListZones() returns (names: seq<BarFree>)
      requires Valid()
      ensures names == Database.ListZones(db)
    {
      var values := AnyOrder(zones);
      StrLessTotal();
      SortIsListing(values, ZoneLess);
      names := Sort(values, ZoneLess);
      ListingIs(names, zones, ZoneLess);
    }

    method Lookup(zone: BarFree, name: string, qtype: Uint16, qclass: Uint16) returns (found: Result<seq<Record>>)
      requires Valid()
      ensures found == Database.Lookup(db, zone, name, qtype, qclass)
    {
      match NormalizeLookup(zone, name)
      case Err => found := Err;
      case Ok((z, n)) =>
        var values := LookupRecords(z, n, qtype, qclass);
        found := Ok(values);
    }

    method LookupAll(zone: BarFree, name: string, qclass: Uint16) returns (found: Result<seq<Record>>)
      requires Valid()
      ensures found == Database.Lookup(db, zone, name, TYPE_ANY, qclass)
    {
      match NormalizeLookup(zone, name)
      case Err => found := Err;
      case Ok((z, n)) =>
        var values := LookupRecords(z, n, TYPE_ANY, qclass);
        found := Ok(values);
    }

    method LookupRecords(zone: BarFree, name: string, qtype: Uint16, qclass: Uint16) returns (values: seq<Record>)
      requires Valid()
      ensures values == Found(db, zone, name, qtype, qclass)
    {
      var row := AnyOrder(RowOf(table, RowText(zone, name)).Values);
      var keep := (r: Record) => (qtype == TYPE_ANY || r.rrtype == qtype) && (qclass == CLASS_ANY || r.cls == qclass);
      forall r ensures r in RRset(db, zone, name, qtype, qclass) <==> r in row && keep(r) {
        hide Record.Key, RowText;
        assert r in row <==> r in Elems(row);
        RowHolds(table, db, zone, name, r);
      }
      ByDataTotal();
      FilterSortIsListing(row, keep, ByData, RRset(db, zone, name, qtype, qclass));
      values := Sort(Filter(row, keep), ByData);
    }

    method ListRecords(filter: RecordFilter) returns (listed: Result<seq<Record>>)
      requires Valid()
      ensures listed == Database.ListRecords(db, filter)
    {
      match NormalizeRecordFilter(filter)
      case Err => listed := Err;
      case Ok(f) =>
        var candidates := RecordCandidates(f);
        var keep := (r: Record) => RecordMatchesFilter(r, f);
        forall r ensures r in Selected(db, f) <==> r in candidates && keep(r) {
          hide Record.Key;
        }
        ByRecordTotal();
        FilterSortIsListing(candidates, keep, ByRecord, Selected(db, f));
        listed := Ok(Sort(Filter(candidates, keep), ByRecord));
    }

    /** Three access paths; each yields every stored record the filter can match. */
    method RecordCandidates(f: RecordFilter) returns (records: seq<Record>)
      requires Valid()
      ensures Distinct(records)
      ensures forall r :: r in records ==> Stored(db, r)
      ensures forall k :: k in db.records && RecordMatchesFilter(db.records[k], f) ==> db.records[k] in records
    {
      if f.zone != "" && f.name != "" {
        records := AnyOrder(RowOf(table, RowText(f.zone, f.name)).Values);
        forall r ensures r in records <==> r in Elems(records) {}
        forall r { RowHolds(table, db, f.zone, f.name, r); }
      } else {
        records := RowsStartingWith(if f.zone != "" then f.zone + "|" else "");
        forall k: RecordKey | f.zone != "" { RowInZone(f.zone, k); }
      }
    }

    method RowRecords(row: string) returns (values: seq<Record>)
      requires Valid() && row in table
      ensures Distinct(values) && Elems(values) == InRows(db, {row})
    {
      hide Represents, Elems, Distinct, InRows;
      RowIsInRows(table, db, row);
      values := AnyOrder(table[row].Values);
    }

    method RowsStartingWith(rowPrefix: string) returns (records: seq<Record>)
      requires Valid()
      ensures Distinct(records)
      ensures forall r :: r in records <==> Stored(db, r) && HasPrefix(Row(r.Key()), rowPrefix)
    {
      RowsExist(table, db);
      assert Keyed(db.records);
      hide *;
      records := [];
      ghost var done: set<string> := {};
      InRowsNone(db);
      var rest := table.Keys;
      while rest != {}
        invariant rest <= table.Keys
        invariant done == set row | row in table.Keys - rest && HasPrefix(row, rowPrefix)
        invariant Distinct(records) && Elems(records) == InRows(db, done)
        decreases rest
      {
        var row :| row in rest;
        rest := rest - {row};
        if HasPrefix(row, rowPrefix) {
          var values := RowRecords(row);
          InRowsSplit(db, done, row);
          DistinctAppend(records, values);
          ElemsAppend(records, values);
          records := records + values;
          done := done + {row};
        }
      }
      forall r ensures r in records <==> Stored(db, r) && HasPrefix(Row(r.Key()), rowPrefix) {
        ElemsMember(records, r);
        InRowsMember(db, done, r);
      }
    }
  }
}
