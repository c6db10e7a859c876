/**
 What change sets mean: each kind of change on the store, the batch as a chain
 of stores, what the counters count, and when a batch is accepted.
 */
module ChangeLaws {
  import opened Names
  import opened Ordering
  import opened Records
  import opened Database
  import opened StoreLaws
  import opened Validation
  import opened Management
  import opened ManagementTheorems
  import opened ManagementLaws
  import opened ChangeSets
  import opened ChangeTheorems

  // ----------------------------------------------------------- single changes

  /** The store after a change of each kind, said about the texts of the change. */
  ghost predicate HasEffect(db: Db, after: Db, c: Change) {
    var named := if c.zone != "" then c.zone else c.zoneName;
    match c.kind
    case ChangeUpsertZone => exists z: BarFree :: IsNormalFormOf(z, named) && AddsZone(db, after, z)
    case ChangeDeleteZone => exists z: BarFree :: IsNormalFormOf(z, named) && RemovesZone(db, after, z)
    case ChangeUpsertRecord => exists n :: IsNormalRecordOf(n, c.record) && Puts(db, after, n)
    case ChangeDeleteRecord => exists n :: IsNormalRecordOf(n, c.record) && Takes(db, after, n)
    case ChangeUpsertRRSet =>
      exists z: BarFree, n: BarFree ::
        IsNormalFormOf(z, named) && IsNormalFormOf(n, c.name) && SwapsRRset(db, after, z, n, c.rrtype, c.records)
    case ChangeDeleteRRSet =>
      exists z: BarFree, n: BarFree ::
        IsNormalFormOf(z, named) && IsNormalFormOf(n, c.name) && Removes(db, after, z, n, c.rrtype)
    case ChangeDeleteName =>
      exists z: BarFree, n: BarFree ::
        IsNormalFormOf(z, named) && IsNormalFormOf(n, c.name) && Removes(db, after, z, n, TYPE_ANY)
    case ChangeOther => false
  }

  ghost predicate AddsZone(db: Db, after: Db, z: BarFree) {
    after == Db(db.zones + {z}, db.records)
  }

  ghost predicate RemovesZone(db: Db, after: Db, z: BarFree) {
    && after.zones == db.zones - {z}
    && forall k: RecordKey :: if k.zone == z then k !in after.records else SameAt(db, after, k)
  }

  /** The records of the type at the owner are exactly the first per key of the completed ones. */
  ghost predicate SwapsRRset(db: Db, after: Db, z: BarFree, n: BarFree, rrtype: Uint16, records: seq<Record>) {
    && after.zones == db.zones + {z}
    && exists list ::
         && CompletesAll(list, records, z, n, rrtype)
         && (forall i, r :: FirstIs(list, i, r) ==> Stored(after, r))
         && forall k: RecordKey :: k !in KeysOf(list) ==>
              if k.zone == z && k.name == n && (rrtype == TYPE_ANY || k.rrtype == rrtype) then k !in after.records
              else SameAt(db, after, k)
  }

  lemma NormalFormOfZone(text: BarFree)
    ensures IsNormalFormOf(NormalizeName(text), text)
  {
    NormalizeExactly(text, Normalize(text));
  }

  /** Every applied change has the effect of its kind. */
  lemma AppliedChangeHasEffect(db: Db, c: Change)
    requires WellFormed(db) && ApplyOne(db, c).Ok?
    ensures HasEffect(db, ApplyOne(db, c).value, c)
  {
    hide WellFormed, Meaning, IsNormalFormOf, IsNormalRecordOf, AddsZone, RemovesZone, Puts, Takes,
      SwapsRRset, Removes;
    match c.kind {
      case ChangeUpsertZone => ZoneAdded(db, c.ZoneName());
      case ChangeDeleteZone => ZoneRemoved(db, c.ZoneName());
      case ChangeUpsertRecord => RecordPut(db, c.record);
      case ChangeDeleteRecord => RecordTaken(db, c.record);
      case ChangeUpsertRRSet => RRsetSwapped(db, c.ZoneName(), c.name, c.rrtype, c.records);
      case ChangeDeleteRRSet =>
        NormalFormOfZone(c.ZoneName());
        NormalFormOfZone(c.name);
        DeleteRRSetExactly(db, c.ZoneName(), c.name, c.rrtype, NormalizeName(c.ZoneName()), NormalizeName(c.name));
      case ChangeDeleteName =>
        NormalFormOfZone(c.ZoneName());
        NormalFormOfZone(c.name);
        DeleteNameExactly(db, c.ZoneName(), c.name, NormalizeName(c.ZoneName()), NormalizeName(c.name));
    }
  }

  lemma ZoneAdded(db: Db, zone: BarFree)
    requires Meaning(db, ManagerOp.UpsertZone(zone)).Ok?
    ensures var z := NormalizeName(zone);
            IsNormalFormOf(z, zone) && AddsZone(db, Meaning(db, ManagerOp.UpsertZone(zone)).value, z)
  {
    hide IsNormalFormOf, Apply;
    NormalFormOfZone(zone);
    SaveZoneExactly(db, zone, NormalizeName(zone));
  }

  lemma ZoneRemoved(db: Db, zone: BarFree)
    requires Meaning(db, ManagerOp.DeleteZone(zone)).Ok?
    ensures var z := NormalizeName(zone);
            IsNormalFormOf(z, zone) && RemovesZone(db, Meaning(db, ManagerOp.DeleteZone(zone)).value, z)
  {
    hide IsNormalFormOf, Apply, SameAt;
    NormalFormOfZone(zone);
    var z, after := NormalizeName(zone), Meaning(db, ManagerOp.DeleteZone(zone)).value;
    forall k: RecordKey ensures if k.zone == z then k !in after.records else SameAt(db, after, k) {
      DeleteZoneExactly(db, zone, z, k);
    }
    DeleteZoneExactly(db, zone, z, RecordKey("", "", 0, ""));
  }

  lemma RecordPut(db: Db, record: Record)
    requires Meaning(db, ManagerOp.UpsertRecord(record)).Ok?
    ensures exists n :: IsNormalRecordOf(n, record)
                        && Puts(db, Meaning(db, ManagerOp.UpsertRecord(record)).value, n)
  {
    hide IsNormalRecordOf, NormalizeRecord, WeaklyValid, Record.Key, SameAt;
    var n := NormalizeRecord(record).value;
    NormalizeRecordExactly(record, n);
    forall k { UpsertRecordExactly(db, record, n, k); }
  }

  lemma RecordTaken(db: Db, record: Record)
    requires Meaning(db, ManagerOp.DeleteRecord(record)).Ok?
    ensures exists n :: IsNormalRecordOf(n, record)
                        && Takes(db, Meaning(db, ManagerOp.DeleteRecord(record)).value, n)
  {
    hide IsNormalRecordOf, NormalizeRecord, Record.Key, SameAt;
    var n := NormalizeRecord(record).value;
    NormalizeRecordExactly(record, n);
    forall k { DeleteRecordExactly(db, record, n, k); }
  }

  lemma RRsetSwapped(db: Db, zone: BarFree, name: BarFree, rrtype: Uint16, records: seq<Record>)
    requires WellFormed(db) && Meaning(db, ManagerOp.UpsertRRSet(zone, name, rrtype, records)).Ok?
    ensures var z, n := NormalizeName(zone), NormalizeName(name);
            && IsNormalFormOf(z, zone) && IsNormalFormOf(n, name)
            && var after := Meaning(db, ManagerOp.UpsertRRSet(zone, name, rrtype, records)).value;
               SwapsRRset(db, after, z, n, rrtype, records)
  {
    hide WellFormed, IsNormalFormOf, RRSetRecords, CompletesAll, FirstPerKey, FirstIs, KeysOf, OfRRset, DistinctKeys,
      WeaklyValid, WithRecords, WithoutRRset, SameAt, Record.Key, NormalizeRRSetLookup, KeysWithRRset;
    var z, n := NormalizeName(zone), NormalizeName(name);
    NormalFormOfZone(zone);
    NormalFormOfZone(name);
    var list := NewRRSetExactly(zone, name, rrtype, records, z, n);
    RRSetRecordsFacts(zone, name, rrtype, records);
    TargetExactly(zone, name, z, n);
    var rs := RRSetRecords(zone, name, rrtype, records).value;
    FirstPerKeyFacts(list);
    AllInZone(rs);
    var after := WithRecords(WithoutRRset(db, z, n, rrtype), rs);
    WithRecordsZones(WithoutRRset(db, z, n, rrtype), rs, z);
    WithoutRRsetRemoves(db, z, n, rrtype);
    forall i, r | FirstIs(list, i, r) ensures Stored(after, r) {
      FirstPerKeyExactly(list, r);
      WithRecordsAt(WithoutRRset(db, z, n, rrtype), rs, r.Key());
    }
    forall k: RecordKey | k !in KeysOf(list)
      ensures if k.zone == z && k.name == n && (rrtype == TYPE_ANY || k.rrtype == rrtype) then k !in after.records
              else SameAt(db, after, k)
    {
      WithRecordsAt(WithoutRRset(db, z, n, rrtype), rs, k);
      SameThrough(db, WithoutRRset(db, z, n, rrtype), after, k);
    }
  }

  lemma SameThrough(a: Db, b: Db, c: Db, k: RecordKey)
    ensures SameAt(b, c, k) <==>
            (k in c.records <==> k in b.records) && (k in b.records ==> c.records[k] == b.records[k])
    ensures SameAt(a, b, k) && SameAt(b, c, k) ==> SameAt(a, c, k)
    ensures k !in b.records && SameAt(b, c, k) ==> k !in c.records
  {
  }

  /** The dry run files a change under the first of its four zone names that is given. */
  lemma ChangeZoneExactly(c: Change, i: nat)
    ensures var names := [c.zone, c.zoneName, c.record.zone, if c.records == [] then "" else c.records[0].zone];
            && (i < 4 && names[i] != "" && (forall j :: 0 <= j < i ==> names[j] == "") ==>
                  NormalizeChangeZone(c) == NormalizeZoneName(names[i]))
            && ((forall j :: 0 <= j < 4 ==> names[j] == "") ==> NormalizeChangeZone(c) == Err)
  {
    hide NormalizeZoneName;
    var names := [c.zone, c.zoneName, c.record.zone, if c.records == [] then "" else c.records[0].zone];
    assert names[0] == c.zone && names[1] == c.zoneName && names[2] == c.record.zone;
    assert names[3] == if c.records == [] then "" else c.records[0].zone;
  }

  // ------------------------------------------------------------------ batches

  /** Each store is the one before it after one change. */
  ghost predicate IsChain(stores: seq<Db>, changes: seq<Change>) {
    |stores| <= |changes| + 1
    && forall i :: 0 < i < |stores| ==> ApplyOne(stores[i - 1], changes[i - 1]) == Ok(stores[i])
  }

  /** A batch is applied change by change: to its end, or up to the first change that fails. */
  lemma {:induction false} BatchExactly(db: Db, changes: seq<Change>) returns (stores: seq<Db>)
    ensures stores != [] && stores[0] == db && IsChain(stores, changes)
    ensures ApplyAll(db, changes).db == stores[|stores| - 1]
    ensures ApplyAll(db, changes).ok <==> |stores| == |changes| + 1
    ensures |stores| <= |changes| ==> ApplyOne(stores[|stores| - 1], changes[|stores| - 1]).Err?
  {
    hide ApplyOne;
    if changes == [] {
      stores := [db];
    } else {
      var init, last := changes[..|changes| - 1], changes[|changes| - 1];
      stores := BatchExactly(db, init);
      assert forall i :: 0 <= i < |init| ==> init[i] == changes[i];
      if |stores| == |changes| && ApplyOne(stores[|stores| - 1], last).Ok? {
        stores := stores + [ApplyOne(stores[|stores| - 1], last).value];
      }
    }
  }

  // ----------------------------------------------------------------- counters

  /** The positions of one kind of change. */
  ghost function Positions(changes: seq<Change>, kind: ChangeKind): set<int> {
    set i | 0 <= i < |changes| && changes[i].kind == kind
  }

  ghost function Sum(xs: seq<int>): int {
    if xs == [] then 0 else Sum(xs[..|xs| - 1]) + xs[|xs| - 1]
  }

  /** How many records an RRset upsert writes: one per key of the new RRset. */
  ghost function Written(c: Change): int {
    if c.kind != ChangeUpsertRRSet then 0
    else match RRSetRecords(if c.zone != "" then c.zone else c.zoneName, c.name, c.rrtype, c.records)
      case Err => 0
      case Ok(rs) => |rs|
  }

  /** How many stored records an RRset or name deletion takes away. */
  ghost function Lost(before: Db, after: Db, c: Change): int {
    if c.kind != ChangeDeleteRRSet && c.kind != ChangeDeleteName then 0 else |before.records| - |after.records|
  }

  ghost function WrittenBy(changes: seq<Change>): seq<int> {
    seq(|changes|, i requires 0 <= i < |changes| => Written(changes[i]))
  }

  ghost function LostBy(db: Db, changes: seq<Change>): seq<int> {
    seq(|changes|, i requires 0 <= i < |changes| =>
      Lost(ApplyAll(db, changes[..i]).db, ApplyAll(db, changes[..i + 1]).db, changes[i]))
  }

  lemma PositionsOf(init: seq<Change>, last: Change, kind: ChangeKind)
    ensures Positions(init + [last], kind) ==
            if last.kind == kind then Positions(init, kind) + {|init|} else Positions(init, kind)
    ensures |init| !in Positions(init, kind)
  {
    var all := init + [last];
    forall i ensures i in Positions(all, kind) <==> i in Positions(init, kind) || (i == |init| && last.kind == kind) {
      assert 0 <= i < |init| ==> all[i] == init[i];
    }
  }

  lemma PositionsSnoc(init: seq<Change>, last: Change, kind: ChangeKind)
    ensures |Positions(init + [last], kind)| == |Positions(init, kind)| + if last.kind == kind then 1 else 0
  {
    hide Positions;
    PositionsOf(init, last, kind);
  }

  lemma SumSnoc(xs: seq<int>, x: int)
    ensures Sum(xs + [x]) == Sum(xs) + x
  {
    assert (xs + [x])[..|xs|] == xs;
  }

  /** What one applied change adds to the counters. */
  ghost predicate CountsChange(before: Db, after: Db, c: Change, t: ChangeResult) {
    && t.applied == 1
    && t.zonesUpserted == (if c.kind == ChangeUpsertZone then 1 else 0)
    && t.zonesDeleted == (if c.kind == ChangeDeleteZone then 1 else 0)
    && t.recordsUpserted == (if c.kind == ChangeUpsertRecord then 1 else 0) + Written(c)
    && t.recordsDeleted == (if c.kind == ChangeDeleteRecord then 1 else 0) + Lost(before, after, c)
  }

  lemma TallyExactly(db: Db, c: Change)
    requires ApplyOne(db, c).Ok?
    ensures CountsChange(db, ApplyOne(db, c).value, c, Tally(db, c))
  {
    hide Meaning, RRSetRecords;
  }

  /** Every counter of an applied batch, by what it counts. */
  ghost predicate CountsBatch(db: Db, changes: seq<Change>, totals: ChangeResult) {
    && totals.applied == |changes|
    && totals.zonesUpserted == |Positions(changes, ChangeUpsertZone)|
    && totals.zonesDeleted == |Positions(changes, ChangeDeleteZone)|
    && totals.recordsUpserted == |Positions(changes, ChangeUpsertRecord)| + Sum(WrittenBy(changes))
    && totals.recordsDeleted == |Positions(changes, ChangeDeleteRecord)| + Sum(LostBy(db, changes))
  }

  /**
   The counters of an applied batch: the changes, the zone upserts and deletions,
   the record upserts with the records of new RRsets, and the record deletions
   with the records lost to RRset and name deletions.
   */
  lemma {:induction false} TotalsExactly(db: Db, changes: seq<Change>)
    requires ApplyAll(db, changes).ok
    ensures CountsBatch(db, changes, Totals(db, changes))
  {
    hide *;
    if changes == [] {
      NothingCounted(db);
    } else {
      var init, last := changes[..|changes| - 1], changes[|changes| - 1];
      assert changes == init + [last];
      TotalsSnoc(db, init, last);
      TotalsExactly(db, init);
      TallyExactly(ApplyAll(db, init).db, last);
      CountsSnoc(db, init, last, Totals(db, init), Tally(ApplyAll(db, init).db, last));
    }
  }

  lemma NothingCounted(db: Db)
    ensures CountsBatch(db, [], Totals(db, []))
  {
    assert forall kind :: Positions([], kind) == {};
  }

  lemma CountsSnoc(db: Db, init: seq<Change>, last: Change, totals: ChangeResult, t: ChangeResult)
    requires CountsBatch(db, init, totals)
    requires CountsChange(ApplyAll(db, init).db, ApplyAll(db, init + [last]).db, last, t)
    ensures CountsBatch(db, init + [last], Plus(totals, t))
  {
    hide ApplyAll, Positions, Sum, Written, Lost, WrittenBy, LostBy;
    PositionsSnoc(init, last, ChangeUpsertZone);
    PositionsSnoc(init, last, ChangeDeleteZone);
    PositionsSnoc(init, last, ChangeUpsertRecord);
    PositionsSnoc(init, last, ChangeDeleteRecord);
    WrittenSnoc(init, last);
    LostSnoc(db, init, last);
  }

  lemma TotalsSnoc(db: Db, init: seq<Change>, last: Change)
    requires ApplyAll(db, init + [last]).ok
    ensures ApplyAll(db, init).ok && ApplyOne(ApplyAll(db, init).db, last) == Ok(ApplyAll(db, init + [last]).db)
    ensures Totals(db, init + [last]) == Plus(Totals(db, init), Tally(ApplyAll(db, init).db, last))
  {
    hide ApplyOne, Tally, Plus;
    assert (init + [last])[..|init|] == init;
  }

  lemma WrittenSnoc(init: seq<Change>, last: Change)
    ensures Sum(WrittenBy(init + [last])) == Sum(WrittenBy(init)) + Written(last)
  {
    hide Sum, Written;
    assert WrittenBy(init + [last]) == WrittenBy(init) + [Written(last)];
    SumSnoc(WrittenBy(init), Written(last));
  }

  lemma LostSnoc(db: Db, init: seq<Change>, last: Change)
    ensures Sum(LostBy(db, init + [last])) ==
            Sum(LostBy(db, init)) + Lost(ApplyAll(db, init).db, ApplyAll(db, init + [last]).db, last)
  {
    hide ApplyAll, Lost, Sum;
    var all := init + [last];
    var before, lost := LostBy(db, init), Lost(ApplyAll(db, init).db, ApplyAll(db, all).db, last);
    forall i | 0 <= i < |init| ensures LostBy(db, all)[i] == before[i] {
      assert all[..i] == init[..i] && all[..i + 1] == init[..i + 1];
    }
    assert all[..|init|] == init && all[..|init| + 1] == all;
    assert LostBy(db, all)[|init|] == lost;
    hide LostBy;
    assert LostLength(db, all) && LostLength(db, init) by { LostLengths(db, all); LostLengths(db, init); }
    assert LostBy(db, all) == before + [lost];
    SumSnoc(before, lost);
  }

  ghost predicate LostLength(db: Db, changes: seq<Change>) {
    |LostBy(db, changes)| == |changes|
  }

  lemma LostLengths(db: Db, changes: seq<Change>)
    ensures LostLength(db, changes)
  {
  }

  // --------------------------------------------------------------- acceptance

  lemma PreviewKeepsDistinct(st: PreviewState, zone: BarFree, c: Change)
    requires DistinctKeys(st.records) && PreviewOne(st, zone, c).Ok?
    ensures DistinctKeys(PreviewOne(st, zone, c).value.records)
  {
    hide NormalizeRecord, RRSetRecords, NormalizeRRSetLookup, Record.Key, DistinctKeys, FirstPerKey, Filter, KeysOf,
      OfRRset;
    match c.kind {
      case ChangeUpsertZone =>
      case ChangeDeleteZone => NoKeys();
      case ChangeUpsertRecord => FirstPerKeyFacts(st.records + [NormalizeRecord(c.record).value]);
      case ChangeDeleteRecord =>
        FilterKeepsDistinctKeys(st.records, OtherKey(NormalizeRecord(c.record).value.Key()));
      case ChangeUpsertRRSet =>
        RRSetRecordsFacts(zone, c.name, c.rrtype, c.records);
        var rs := RRSetRecords(zone, c.name, c.rrtype, c.records).value;
        FirstPerKeyFacts(Filter(st.records, NotReplacedBy(rs[0])) + rs);
      case ChangeDeleteRRSet =>
        var (z, n) := NormalizeRRSetLookup(zone, c.name).value;
        FilterKeepsDistinctKeys(st.records, OutsideRRset(z, n, c.rrtype));
      case ChangeDeleteName =>
        var (z, n) := NormalizeRRSetLookup(zone, c.name).value;
        FilterKeepsDistinctKeys(st.records, OutsideName(z, n));
    }
  }

  lemma NoKeys()
    ensures DistinctKeys([])
  {
  }

  lemma {:induction false} PreviewsDistinct(db: Db, changes: seq<Change>)
    requires WellFormed(db) && PreviewAll(db, changes).Ok?
    ensures forall z :: z in PreviewAll(db, changes).value ==> DistinctKeys(PreviewAll(db, changes).value[z].records)
  {
    hide WellFormed, PreviewOne, DistinctKeys, NormalizeChangeZone, LoadState;
    if changes != [] {
      var init, last := changes[..|changes| - 1], changes[|changes| - 1];
      PreviewsDistinct(db, init);
      ChangeZoneNormal(last);
      var zone := NormalizeChangeZone(last).value;
      LoadDistinct(db, zone);
      PreviewKeepsDistinct(StateOf(db, PreviewAll(db, init).value, zone), zone, last);
    }
  }

  lemma LoadDistinct(db: Db, zone: BarFree)
    requires WellFormed(db) && IsNormalZone(zone)
    ensures DistinctKeys(LoadState(db, zone).records)
  {
    hide WellFormed, IsNormalZone, DistinctKeys, Database.ListRecords;
    ZoneListing(db, zone);
  }

  /** A batch is accepted if and only if it previews and every zone left present is strongly valid. */
  lemma AcceptedExactly(db: Db, changes: seq<Change>)
    requires WellFormed(db)
    ensures Accepted(db, changes) <==>
            && PreviewAll(db, changes).Ok?
            && forall z :: z in PreviewAll(db, changes).value ==>
                 var st := PreviewAll(db, changes).value[z];
                 st.present ==> StronglyValid(z, KeysOf(st.records))
  {
    hide WellFormed, PreviewAll, StronglyValid, ListValid, KeysOf, DistinctKeys, NormalizeZoneName, IsNormalZone;
    if PreviewAll(db, changes).Ok? {
      PreviewsDistinct(db, changes);
      TouchedNormal(db, changes);
      var states := PreviewAll(db, changes).value;
      forall z | z in states
        ensures StateValid(z, states[z]) <==> (states[z].present ==> StronglyValid(z, KeysOf(states[z].records)))
      {
        ListValidIsKeyValid(z, states[z].records, true);
        NothingStrong(z);
      }
    }
  }

  lemma NothingStrong(zone: string)
    ensures StronglyValid(zone, KeysOf([]))
  {
  }
}
