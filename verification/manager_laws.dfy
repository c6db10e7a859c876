/**
 What the manager operations mean, said about the given texts, the stored
 records and the zone rules.
 */
module ManagementLaws {
  import opened Names
  import opened Ordering
  import opened Records
  import opened Database
  import opened StoreLaws
  import opened Validation
  import opened Management
  import opened ManagementTheorems

  // ------------------------------------------------------------ single records

  /** A record is saved if and only if it has a normal form and its zone stays weakly valid with it. */
  lemma UpsertRecordExactly(db: Db, record: Record, n: Record, k: RecordKey)
    requires IsNormalRecordOf(n, record)
    ensures var result := Meaning(db, ManagerOp.UpsertRecord(record));
            && (result.Ok? <==> WeaklyValid(n.zone, ZoneKeys(db, n.zone) + {n.Key()}))
            && (result.Ok? ==>
                  && Stored(result.value, n) && result.value.zones == db.zones + {n.zone}
                  && (k != n.Key() ==> SameAt(db, result.value, k)))
  {
    NormalizeRecordExactly(record, n);
    hide IsNormalRecordOf, NormalizeRecord, Record.Key, WeaklyValid, ZoneKeys;
  }

  /** In a valid store a record can always be given a new TTL; it stays one record. */
  lemma UpsertNewTtl(db: Db, r: Record, ttl: Uint32)
    requires Sound(db) && Stored(db, r)
    ensures Meaning(db, ManagerOp.UpsertRecord(r.(ttl := ttl))) ==
            Ok(db.(records := db.records[r.Key() := r.(ttl := ttl)]))
  {
    hide AllValid, NormalizeRecord, IsNormalRecord, Record.Key, WeaklyValid, WellFormed;
    ZoneOfStored(db, r);
    NormalTtl(r, ttl);
    NormalizeRecordFacts(r.(ttl := ttl));
    NewTtlReplaces(db, r, ttl);
    TtlNotInKey(r, ttl);
    StoredKeysStay(db, r);
  }

  lemma TtlNotInKey(r: Record, ttl: Uint32)
    ensures r.(ttl := ttl).Key() == r.Key()
  {
    SameUpToCaseReflexive(r.data);
    SameKeyExactly(r, r.(ttl := ttl));
  }

  lemma StoredKeysStay(db: Db, r: Record)
    requires AllValid(db) && Stored(db, r)
    ensures WeaklyValid(r.zone, ZoneKeys(db, r.zone) + {r.Key()})
  {
    NameAndTypeInKey(r);
    hide Record.Key, WeaklyValid;
    assert WeaklyValid(r.zone, ZoneKeys(db, r.zone));
    assert ZoneKeys(db, r.zone) + {r.Key()} == ZoneKeys(db, r.zone);
  }

  // ------------------------------------------------------------------- RRsets

  /** A target is usable if neither name is the root and the owner lies in the zone. */
  predicate Usable(z: string, n: string) {
    z != "." && n != "." && IsSubDomain(z, n)
  }

  lemma TargetExactly(zone: BarFree, name: BarFree, z: BarFree, n: BarFree)
    requires IsNormalFormOf(z, zone) && IsNormalFormOf(n, name)
    ensures NormalizeRRSetLookup(zone, name) == if Usable(z, n) then Ok((z, n)) else Err
  {
    NormalizeZoneNameExactly(zone, z);
    NormalizeExactly(zone, z);
    NormalizeExactly(name, n);
    hide IsNormalFormOf, Normalize, IsSubDomain;
  }

  /** Keys are gone at the owner, of the type or of all, and stand everywhere else. */
  ghost predicate Removes(db: Db, after: Db, z: BarFree, n: BarFree, rrtype: Uint16) {
    && after.zones == db.zones
    && forall k: RecordKey ::
         if k.zone == z && k.name == n && (rrtype == TYPE_ANY || k.rrtype == rrtype) then k !in after.records
         else SameAt(db, after, k)
  }

  lemma WithoutRRsetRemoves(db: Db, z: BarFree, n: BarFree, rrtype: Uint16)
    requires WellFormed(db)
    ensures Removes(db, WithoutRRset(db, z, n, rrtype), z, n, rrtype)
  {
    forall k | k in db.records ensures
      InRRset(db.records[k], z, n, rrtype, CLASS_ANY) <==>
      k.zone == z && k.name == n && (rrtype == TYPE_ANY || k.rrtype == rrtype)
    {
      NameAndTypeInKey(db.records[k]);
      assert db.records[k].Key() == k;
    }
    hide WellFormed, Record.Key, InRRset;
  }

  /** Deleting an RRset removes its records of every class, and nothing else; type ANY removes all types. */
  lemma DeleteRRSetExactly(db: Db, zone: BarFree, name: BarFree, rrtype: Uint16, z: BarFree, n: BarFree)
    requires WellFormed(db) && IsNormalFormOf(z, zone) && IsNormalFormOf(n, name)
    ensures var result := Meaning(db, ManagerOp.DeleteRRSet(zone, name, rrtype));
            (result.Ok? <==> Usable(z, n)) && (result.Ok? ==> Removes(db, result.value, z, n, rrtype))
  {
    hide WellFormed, IsNormalFormOf, NormalizeRRSetLookup, Usable, WithoutRRset, Removes;
    TargetExactly(zone, name, z, n);
    WithoutRRsetRemoves(db, z, n, rrtype);
  }

  /** Deleting a name removes every record at the owner, and nothing else. */
  lemma DeleteNameExactly(db: Db, zone: BarFree, name: BarFree, z: BarFree, n: BarFree)
    requires WellFormed(db) && IsNormalFormOf(z, zone) && IsNormalFormOf(n, name)
    ensures var result := Meaning(db, ManagerOp.DeleteName(zone, name));
            (result.Ok? <==> Usable(z, n)) && (result.Ok? ==> Removes(db, result.value, z, n, TYPE_ANY))
  {
    hide WellFormed, IsNormalFormOf, NormalizeRRSetLookup, Usable, WithoutRRset, Removes;
    TargetExactly(zone, name, z, n);
    WithoutRRsetRemoves(db, z, n, TYPE_ANY);
  }

  /** m is r at this zone, owner and type, where r leaves them open or agrees. */
  ghost predicate Completes(m: Record, r: Record, z: BarFree, n: BarFree, rrtype: Uint16) {
    && IsNormalRecord(m) && m.zone == z && m.name == n && m.rrtype == rrtype
    && (r.zone == "" || IsNormalFormOf(z, r.zone)) && (r.name == "" || IsNormalFormOf(n, r.name))
    && (r.rrtype == 0 || r.rrtype == rrtype)
    && m.ttl == r.ttl && m.cls == (if r.cls == 0 then CLASS_INET else r.cls) && IsTrimOf(m.data, r.data)
  }

  lemma CompletesExactly(m: Record, r: Record, z: BarFree, n: BarFree, rrtype: Uint16)
    requires IsNormal(z) && IsNormal(n)
    ensures NormalizeRRSetRecord(r, z, n, rrtype) == Ok(m) <==> Completes(m, r, z, n, rrtype)
  {
    hide IsNormalFormOf, IsTrimOf, IsNormal, IsNormalRecord, NormalizeRecord;
    var candidate := r.(
      zone := if r.zone == "" then z else r.zone,
      name := if r.name == "" then n else r.name,
      rrtype := if r.rrtype == 0 then rrtype else r.rrtype);
    NormalizeRecordExactly(candidate, m);
    NormalNameStands(z, m.zone);
    NormalNameStands(n, m.name);
  }

  lemma {:induction false} NormalizeEachExactly(
    z: BarFree, n: BarFree, rrtype: Uint16, records: seq<Record>, list: seq<Record>)
    ensures NormalizeEach(z, n, rrtype, records) == Ok(list) <==>
            |list| == |records|
            && forall i :: 0 <= i < |records| ==> NormalizeRRSetRecord(records[i], z, n, rrtype) == Ok(list[i])
  {
    hide NormalizeRRSetRecord;
    if records != [] && list != [] {
      var init, last := records[..|records| - 1], list[..|list| - 1];
      NormalizeEachExactly(z, n, rrtype, init, last);
      assert list == last + [list[|list| - 1]];
      assert forall i :: 0 <= i < |init| ==> init[i] == records[i];
    }
  }

  ghost predicate CanComplete(r: Record, z: BarFree, n: BarFree, rrtype: Uint16) {
    exists m :: Completes(m, r, z, n, rrtype)
  }

  lemma CanCompleteExactly(r: Record, z: BarFree, n: BarFree, rrtype: Uint16)
    requires IsNormal(z) && IsNormal(n)
    ensures NormalizeRRSetRecord(r, z, n, rrtype).Ok? <==> CanComplete(r, z, n, rrtype)
  {
    hide NormalizeRRSetRecord, Completes, IsNormal;
    forall m { CompletesExactly(m, r, z, n, rrtype); }
  }

  /** The new records are usable: there are some, of a proper type, and each can be completed. */
  ghost predicate CanCompleteAll(z: BarFree, n: BarFree, rrtype: Uint16, records: seq<Record>) {
    && records != [] && Usable(z, n) && rrtype != 0
    && forall i :: 0 <= i < |records| ==> CanComplete(records[i], z, n, rrtype)
  }

  ghost predicate CompletesAll(list: seq<Record>, records: seq<Record>, z: BarFree, n: BarFree, rrtype: Uint16) {
    |list| == |records| && forall i :: 0 <= i < |records| ==> Completes(list[i], records[i], z, n, rrtype)
  }

  lemma {:induction false} EachCompletes(z: BarFree, n: BarFree, rrtype: Uint16, records: seq<Record>)
    requires IsNormal(z) && IsNormal(n)
    ensures NormalizeEach(z, n, rrtype, records).Ok? <==>
            forall i :: 0 <= i < |records| ==> CanComplete(records[i], z, n, rrtype)
  {
    hide NormalizeRRSetRecord, CanComplete, IsNormal;
    if records != [] {
      var init, last := records[..|records| - 1], records[|records| - 1];
      assert forall i :: 0 <= i < |init| ==> init[i] == records[i];
      EachCompletes(z, n, rrtype, init);
      CanCompleteExactly(last, z, n, rrtype);
    }
  }

  lemma EachCompleted(z: BarFree, n: BarFree, rrtype: Uint16, records: seq<Record>)
    requires IsNormal(z) && IsNormal(n) && NormalizeEach(z, n, rrtype, records).Ok?
    ensures CompletesAll(NormalizeEach(z, n, rrtype, records).value, records, z, n, rrtype)
  {
    hide NormalizeRRSetRecord, NormalizeEach, Completes, IsNormal;
    var list := NormalizeEach(z, n, rrtype, records).value;
    NormalizeEachExactly(z, n, rrtype, records, list);
    forall i | 0 <= i < |records| ensures Completes(list[i], records[i], z, n, rrtype) {
      CompletesExactly(list[i], records[i], z, n, rrtype);
    }
  }

  /**
   The records of a new RRset: each given record completed, and of those the
   first per key; refused if and only if the target or one of them is unusable.
   */
  lemma NewRRSetExactly(zone: BarFree, name: BarFree, rrtype: Uint16, records: seq<Record>, z: BarFree, n: BarFree)
    returns (list: seq<Record>)
    requires IsNormalFormOf(z, zone) && IsNormalFormOf(n, name)
    ensures RRSetRecords(zone, name, rrtype, records).Ok? <==> CanCompleteAll(z, n, rrtype, records)
    ensures RRSetRecords(zone, name, rrtype, records).Ok? ==>
              && CompletesAll(list, records, z, n, rrtype)
              && RRSetRecords(zone, name, rrtype, records).value == FirstPerKey(list)
  {
    hide IsNormalFormOf, NormalizeRRSetLookup, NormalizeEach, FirstPerKey, CanComplete, CompletesAll, Usable, IsNormal;
    NormalFormIsNormal(z, zone);
    NormalFormIsNormal(n, name);
    TargetExactly(zone, name, z, n);
    EachCompletes(z, n, rrtype, records);
    list := [];
    if NormalizeEach(z, n, rrtype, records).Ok? {
      list := NormalizeEach(z, n, rrtype, records).value;
      EachCompleted(z, n, rrtype, records);
    }
  }

  /** The keys of a zone once the RRset of a type and class at an owner gives way to new ones. */
  ghost function KeysAfterSwap(db: Db, first: Record, added: set<RecordKey>): set<RecordKey> {
    added + set k | k in db.records && k.zone == first.zone
                    && (k.name != first.name || k.rrtype != first.rrtype || db.records[k].cls != first.cls)
  }

  /** An RRset is accepted if and only if its zone is weakly valid once the old records of its class give way. */
  lemma UpsertRRSetAcceptedExactly(db: Db, zone: BarFree, name: BarFree, rrtype: Uint16, records: seq<Record>)
    ensures var rs := RRSetRecords(zone, name, rrtype, records);
            && (rs.Ok? ==> rs.value != [])
            && (Meaning(db, ManagerOp.UpsertRRSet(zone, name, rrtype, records)).Ok? <==>
                  rs.Ok? && WeaklyValid(rs.value[0].zone, KeysAfterSwap(db, rs.value[0], KeysOf(rs.value))))
  {
    hide RRSetRecords, WeaklyValid, KeysOf, OfRRset, DistinctKeys, NormalizeRRSetLookup;
    if RRSetRecords(zone, name, rrtype, records).Ok? {
      RRSetRecordsFacts(zone, name, rrtype, records);
      var rs := RRSetRecords(zone, name, rrtype, records).value;
      assert KeysWithRRset(db, rs) == KeysAfterSwap(db, rs[0], KeysOf(rs));
    }
  }

  lemma NormalFormIsNormal(n: string, s: string)
    requires IsNormalFormOf(n, s)
    ensures IsNormal(n)
  {
    NormalizeExactly(s, n);
    NormalizeIsNormal(s);
  }
}
