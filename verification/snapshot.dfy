/**
 Zone snapshots: a zone's records in order and grouped into RRsets.
 */
module Snapshots {
  import opened Names
  import opened Ordering
  import opened Records

  /** What the records of one RRset have in common. */
  datatype GroupKey = GroupKey(zone: BarFree, name: BarFree, cls: Uint16, rrtype: Uint16)

  datatype RRSet = RRSet(key: GroupKey, records: seq<Record>)

  datatype ZoneSnapshot = ZoneSnapshot(zone: BarFree, records: seq<Record>, rrsets: seq<RRSet>)

  function GroupOf(r: Record): GroupKey {
    GroupKey(r.zone, r.name, r.cls, r.rrtype)
  }

  function InGroup(k: GroupKey): Record -> bool {
    (r: Record) => GroupOf(r) == k
  }

  /** compareRRSets: by zone, name, type and class. */
  predicate GroupLess(a: GroupKey, b: GroupKey) {
    if a.zone != b.zone then StrLess(a.zone, b.zone)
    else if a.name != b.name then StrLess(a.name, b.name)
    else if a.rrtype != b.rrtype then a.rrtype < b.rrtype
    else a.cls < b.cls
  }

  lemma GroupLessTotal()
    ensures StrictTotal(GroupLess)
  {
    StrLessTotal();
    hide StrLess;
  }

  /** Groups are ordered by zone, owner, type and class, in that order. */
  lemma GroupLessExactly(a: GroupKey, b: GroupKey)
    ensures StrLess(a.zone, b.zone) ==> GroupLess(a, b)
    ensures a.zone == b.zone && StrLess(a.name, b.name) ==> GroupLess(a, b)
    ensures a.zone == b.zone && a.name == b.name && a.rrtype < b.rrtype ==> GroupLess(a, b)
    ensures a.zone == b.zone && a.name == b.name && a.rrtype == b.rrtype && a.cls < b.cls ==> GroupLess(a, b)
  {
    StrLessTotal();
    hide StrLess;
  }

  ghost function Groups(records: seq<Record>): set<GroupKey> {
    set r | r in records :: GroupOf(r)
  }

  function Flatten(rrsets: seq<RRSet>): seq<Record> {
    if rrsets == [] then [] else Flatten(rrsets[..|rrsets| - 1]) + rrsets[|rrsets| - 1].records
  }

  /** Strictly ordered RRsets, each non-empty, in data order and uniform in zone, name, class and type. */
  ghost predicate IsCanonical(rrsets: seq<RRSet>) {
    && (forall i, j :: 0 <= i < j < |rrsets| ==> GroupLess(rrsets[i].key, rrsets[j].key))
    && (forall i :: 0 <= i < |rrsets| ==> IsGroup(rrsets[i]))
  }

  ghost predicate IsGroup(rrset: RRSet) {
    && rrset.records != [] && Ascending(rrset.records, ByData)
    && forall r :: r in rrset.records ==> GroupOf(r) == rrset.key
  }

  /** Every record lies in an RRset of its own zone, name, class and type. */
  ghost predicate IsUniform(rrsets: seq<RRSet>) {
    forall i, r :: 0 <= i < |rrsets| && r in rrsets[i].records ==>
      var key := rrsets[i].key; r.zone == key.zone && r.name == key.name && r.cls == key.cls && r.rrtype == key.rrtype
  }

  // ----------------------------------------------------------------- theorems

  lemma CanonicalIsUniform(rrsets: seq<RRSet>)
    requires IsCanonical(rrsets)
    ensures IsUniform(rrsets)
  {
    hide GroupLess, Ascending, ByData;
  }

  lemma KeysDiffer(rrsets: seq<RRSet>, i: nat, j: nat)
    requires IsCanonical(rrsets) && i < |rrsets| && j < |rrsets| && rrsets[i].key == rrsets[j].key
    ensures i == j
  {
    GroupLessTotal();
    hide GroupLess, IsGroup;
  }

  lemma {:induction false} FlattenElems(rrsets: seq<RRSet>, r: Record)
    ensures r in Flatten(rrsets) <==> exists i :: 0 <= i < |rrsets| && r in rrsets[i].records
  {
    if rrsets != [] {
      var init, last := rrsets[..|rrsets| - 1], rrsets[|rrsets| - 1];
      FlattenElems(init, r);
      assert r in Flatten(rrsets) <==> r in Flatten(init) || r in last.records;
      assert forall i :: 0 <= i < |init| ==> init[i] == rrsets[i];
      if r in Flatten(init) {
        var i :| 0 <= i < |init| && r in init[i].records;
        assert r in rrsets[i].records;
      }
      if i :| 0 <= i < |rrsets| && r in rrsets[i].records {
        assert i == |init| || r in init[i].records;
      }
    }
  }

  /** An RRset holds every occurrence of every record of its zone, name, class and type. */
  lemma {:induction false} GroupHoldsItsRecords(rrsets: seq<RRSet>, i: nat, r: Record)
    requires IsCanonical(rrsets) && i < |rrsets| && GroupOf(r) == rrsets[i].key
    ensures multiset(rrsets[i].records)[r] == multiset(Flatten(rrsets))[r]
  {
    hide GroupLess, GroupOf, Ascending;
    var init, last := rrsets[..|rrsets| - 1], rrsets[|rrsets| - 1];
    assert Flatten(rrsets) == Flatten(init) + last.records;
    if i < |init| {
      GroupHoldsItsRecords(init, i, r);
      OnlyInItsGroup(rrsets, i, |init|, r);
    } else if r in Flatten(init) {
      FlattenElems(init, r);
      var j :| 0 <= j < |init| && r in init[j].records;
      assert r in rrsets[j].records;
      OnlyInItsGroup(rrsets, i, j, r);
    }
  }

  lemma OnlyInItsGroup(rrsets: seq<RRSet>, i: nat, j: nat, r: Record)
    requires IsCanonical(rrsets) && i < |rrsets| && j < |rrsets| && i != j && GroupOf(r) == rrsets[i].key
    ensures r !in rrsets[j].records
  {
    hide GroupLess, GroupOf, Ascending;
    if r in rrsets[j].records {
      KeysDiffer(rrsets, i, j);
      assert false;
    }
  }

  lemma KeyIsGroup(rrsets: seq<RRSet>, i: nat)
    requires IsCanonical(rrsets) && i < |rrsets|
    ensures rrsets[i].key in Groups(Flatten(rrsets))
  {
    hide GroupOf, GroupLess, Ascending, Flatten;
    var r := rrsets[i].records[0];
    FlattenElems(rrsets, r);
    assert r in rrsets[i].records && GroupOf(r) == rrsets[i].key;
  }

  lemma GroupIsKey(rrsets: seq<RRSet>, k: GroupKey) returns (i: nat)
    requires IsCanonical(rrsets) && k in Groups(Flatten(rrsets))
    ensures i < |rrsets| && rrsets[i].key == k
  {
    hide GroupOf, GroupLess, Ascending, Flatten;
    var r :| r in Flatten(rrsets) && GroupOf(r) == k;
    FlattenElems(rrsets, r);
    i :| 0 <= i < |rrsets| && r in rrsets[i].records;
  }

  lemma KeysAreGroups(rrsets: seq<RRSet>, keys: seq<GroupKey>)
    requires IsCanonical(rrsets)
    requires |keys| == |rrsets| && forall i :: 0 <= i < |keys| ==> keys[i] == rrsets[i].key
    ensures IsListing(keys, Groups(Flatten(rrsets)), GroupLess)
  {
    hide GroupLess, Flatten, IsGroup, Groups;
    forall i | 0 <= i < |keys| ensures keys[i] in Groups(Flatten(rrsets)) { KeyIsGroup(rrsets, i); }
    forall k | k in Groups(Flatten(rrsets)) ensures k in keys {
      var i := GroupIsKey(rrsets, k);
      assert keys[i] == k;
    }
    assert forall k :: k in Elems(keys) <==> k in Groups(Flatten(rrsets));
  }

  /** The RRsets are determined by the records, repetitions included: there is only one canonical grouping. */
  lemma GroupingUnique(a: seq<RRSet>, b: seq<RRSet>)
    requires IsCanonical(a) && IsCanonical(b) && multiset(Flatten(a)) == multiset(Flatten(b))
    ensures a == b
  {
    hide GroupLess, Ascending, Flatten, GroupOf, IsGroup;
    GroupLessTotal();
    var ka := seq(|a|, i requires 0 <= i < |a| => a[i].key);
    var kb := seq(|b|, i requires 0 <= i < |b| => b[i].key);
    KeysAreGroups(a, ka);
    KeysAreGroups(b, kb);
    SameGroups(Flatten(a), Flatten(b));
    ListingUnique(ka, kb, Groups(Flatten(a)), GroupLess);
    forall i | 0 <= i < |a| ensures a[i] == b[i] {
      assert a[i].key == ka[i] == kb[i] == b[i].key;
      SameGroup(a, b, i);
    }
  }

  lemma SameGroups(xs: seq<Record>, ys: seq<Record>)
    requires multiset(xs) == multiset(ys)
    ensures Groups(xs) == Groups(ys)
  {
    assert forall r :: r in xs <==> r in multiset(xs);
    assert forall r :: r in ys <==> r in multiset(ys);
  }

  lemma SameGroup(a: seq<RRSet>, b: seq<RRSet>, i: nat)
    requires IsCanonical(a) && IsCanonical(b) && multiset(Flatten(a)) == multiset(Flatten(b))
    requires i < |a| && i < |b| && a[i].key == b[i].key
    ensures a[i] == b[i]
  {
    hide GroupLess, ByData, Flatten, GroupOf;
    forall r ensures multiset(a[i].records)[r] == multiset(b[i].records)[r] {
      if GroupOf(r) == a[i].key {
        GroupHoldsItsRecords(a, i, r);
        GroupHoldsItsRecords(b, i, r);
      } else {
        assert r !in a[i].records && r !in b[i].records;
      }
    }
    ByDataTotal();
    AscendingUnique(a[i].records, b[i].records, ByData);
  }

  // ------------------------------------------------------------------ methods

  /**
   Group records in a map, then list the groups in order, whatever order the map
   yields them in: the result is a permutation of the records, canonically grouped.
   */
  method BuildRRSets(records: seq<Record>) returns (rrsets: seq<RRSet>)
    ensures IsCanonical(rrsets) && IsUniform(rrsets) && multiset(Flatten(rrsets)) == multiset(records)
  {
    hide ByData, GroupLess, Groups, Filter, GroupsInOrder, IsCanonical, IsUniform;
    var groups := CollectGroups(records);
    GroupLessTotal();
    var keys := AnyOrder(groups.Keys);
    SortIsListing(keys, GroupLess);
    rrsets := ListGroups(records, groups, Sort(keys, GroupLess));
    CanonicalGroups(records, Sort(keys, GroupLess), rrsets);
    SameRecords(records, Sort(keys, GroupLess), rrsets);
    CanonicalIsUniform(rrsets);
  }

  /** The records of each key, sorted by data. */
  ghost predicate GroupsInOrder(records: seq<Record>, keys: seq<GroupKey>, rrsets: seq<RRSet>) {
    && |rrsets| == |keys|
    && forall i :: 0 <= i < |keys| ==> rrsets[i] == RRSet(keys[i], Sort(Filter(records, InGroup(keys[i])), ByData))
  }

  method ListGroups(records: seq<Record>, groups: map<GroupKey, seq<Record>>, keys: seq<GroupKey>)
    returns (rrsets: seq<RRSet>)
    requires Elems(keys) == groups.Keys
    requires forall k :: k in groups ==> groups[k] == Filter(records, InGroup(k))
    ensures GroupsInOrder(records, keys, rrsets)
  {
    hide ByData, Filter, InGroup, Sort;
    rrsets := [];
    for i := 0 to |keys|
      invariant GroupsInOrder(records, keys[..i], rrsets)
    {
      ElemsMember(keys, keys[i]);
      rrsets := rrsets + [RRSet(keys[i], Sort(groups[keys[i]], ByData))];
    }
    assert keys[..|keys|] == keys;
  }

  lemma SortedGroup(records: seq<Record>, k: GroupKey)
    requires k in Groups(records)
    ensures IsGroup(RRSet(k, Sort(Filter(records, InGroup(k)), ByData)))
  {
    hide ByData, GroupOf, Sort, Filter;
    ByDataTotal();
    var group := Filter(records, InGroup(k));
    SortAscends(group, ByData);
    FilterElems(records, InGroup(k));
    forall r ensures r in Sort(group, ByData) <==> r in group {
      assert r in Sort(group, ByData) <==> r in multiset(Sort(group, ByData));
      assert r in group <==> r in multiset(group);
    }
    var r :| r in records && GroupOf(r) == k;
    assert r in Sort(group, ByData);
  }

  lemma CanonicalGroups(records: seq<Record>, keys: seq<GroupKey>, rrsets: seq<RRSet>)
    requires GroupsInOrder(records, keys, rrsets) && IsListing(keys, Groups(records), GroupLess)
    ensures IsCanonical(rrsets)
  {
    hide ByData, GroupLess, Groups, Filter, Sort, IsGroup;
    forall i | 0 <= i < |keys| ensures IsGroup(rrsets[i]) {
      ElemsMember(keys, keys[i]);
      SortedGroup(records, keys[i]);
    }
  }

  lemma SameRecords(records: seq<Record>, keys: seq<GroupKey>, rrsets: seq<RRSet>)
    requires GroupsInOrder(records, keys, rrsets) && Elems(keys) == Groups(records) && IsCanonical(rrsets)
    ensures multiset(Flatten(rrsets)) == multiset(records)
  {
    forall r ensures multiset(Flatten(rrsets))[r] == multiset(records)[r] {
      SameCount(records, keys, rrsets, r);
    }
  }

  lemma SameCount(records: seq<Record>, keys: seq<GroupKey>, rrsets: seq<RRSet>, r: Record)
    requires GroupsInOrder(records, keys, rrsets) && Elems(keys) == Groups(records) && IsCanonical(rrsets)
    ensures multiset(Flatten(rrsets))[r] == multiset(records)[r]
  {
    hide ByData, GroupLess, Filter, Sort, GroupOf, Flatten, Ascending;
    if GroupOf(r) in Groups(records) {
      ElemsMember(keys, GroupOf(r));
      var i :| 0 <= i < |keys| && keys[i] == GroupOf(r);
      var group := Filter(records, InGroup(keys[i]));
      ByDataTotal();
      SortAscends(group, ByData);
      FilterCount(records, InGroup(keys[i]), r);
      GroupHoldsItsRecords(rrsets, i, r);
    } else {
      assert r !in records;
      NotListed(keys, rrsets, r);
    }
  }

  lemma NotListed(keys: seq<GroupKey>, rrsets: seq<RRSet>, r: Record)
    requires IsCanonical(rrsets) && |keys| == |rrsets| && GroupOf(r) !in Elems(keys)
    requires forall i :: 0 <= i < |keys| ==> rrsets[i].key == keys[i]
    ensures r !in Flatten(rrsets)
  {
    hide GroupLess, GroupOf, Flatten, Ascending;
    FlattenElems(rrsets, r);
    forall i | 0 <= i < |rrsets| ensures r !in rrsets[i].records {
      ElemsMember(keys, keys[i]);
      assert IsGroup(rrsets[i]);
    }
  }

  method CollectGroups(records: seq<Record>) returns (groups: map<GroupKey, seq<Record>>)
    ensures groups.Keys == Groups(records)
    ensures forall k :: k in groups ==> groups[k] == Filter(records, InGroup(k))
  {
    hide GroupOf;
    groups := map[];
    for i := 0 to |records|
      invariant groups.Keys == Groups(records[..i])
      invariant forall k :: k in groups ==> groups[k] == Filter(records[..i], InGroup(k))
    {
      var r := records[i];
      assert records[..i + 1] == records[..i] + [r];
      assert Groups(records[..i + 1]) == Groups(records[..i]) + {GroupOf(r)};
      forall k { FilterSnoc(records[..i], r, InGroup(k)); }
      if GroupOf(r) !in groups {
        NoMember(records[..i], GroupOf(r));
      }
      groups := groups[GroupOf(r) := (if GroupOf(r) in groups then groups[GroupOf(r)] else []) + [r]];
    }
    assert records[..|records|] == records;
  }

  lemma NoMember(records: seq<Record>, k: GroupKey)
    requires k !in Groups(records)
    ensures Filter(records, InGroup(k)) == []
  {
    FilterLength(records, InGroup(k));
    forall r | r in records ensures !InGroup(k)(r) {
      assert GroupOf(r) in Groups(records);
    }
  }

  lemma {:induction false} FilterSnoc<T>(xs: seq<T>, x: T, keep: T -> bool)
    ensures Filter(xs + [x], keep) == Filter(xs, keep) + (if keep(x) then [x] else [])
  {
    if xs == [] {
      assert xs + [x] == [x] && [x][1..] == [];
      assert Filter([x], keep) == (if keep(x) then [x] else []) + Filter([], keep);
    } else {
      FilterSnoc(xs[1..], x, keep);
      assert (xs + [x])[1..] == xs[1..] + [x];
      var first, middle := if keep(xs[0]) then [xs[0]] else [], Filter(xs[1..], keep);
      assert Filter(xs + [x], keep) == first + Filter(xs[1..] + [x], keep);
      assert first + (middle + [x]) == first + middle + [x] && first + (middle + []) == first + middle + [];
    }
  }

  method BuildZoneSnapshot(zone: BarFree, records: seq<Record>) returns (snapshot: ZoneSnapshot)
    ensures snapshot.zone == zone
    ensures Ascending(snapshot.records, ByRecord) && multiset(snapshot.records) == multiset(records)
    ensures IsCanonical(snapshot.rrsets) && IsUniform(snapshot.rrsets)
    ensures multiset(Flatten(snapshot.rrsets)) == multiset(records)
  {
    hide ByRecord, IsCanonical, IsUniform, Flatten;
    ByRecordTotal();
    SortAscends(records, ByRecord);
    var sorted := Sort(records, ByRecord);
    var rrsets := BuildRRSets(sorted);
    snapshot := ZoneSnapshot(zone, sorted, rrsets);
  }
}
