/**
 The rules a zone must satisfy, on record keys and on the lists of records that
 the manager checks before it writes.
 */
module Validation {
  import opened Names
  import opened Ordering
  import opened Records
  import opened Database

  /** SOA records live at the apex. */
  ghost predicate SoaAtApex(zone: string, ks: set<RecordKey>) {
    forall k :: k in ks && k.rrtype == TYPE_SOA ==> k.name == zone
  }

  ghost predicate OneSoa(ks: set<RecordKey>) {
    forall a, b :: a in ks && b in ks && a.rrtype == b.rrtype == TYPE_SOA ==> a == b
  }

  /** An owner with a CNAME has that one record and nothing beside it. */
  ghost predicate CnameAlone(ks: set<RecordKey>) {
    forall a, b :: a in ks && b in ks && a.name == b.name && a.rrtype == TYPE_CNAME ==> a == b
  }

  ghost predicate WeaklyValid(zone: string, ks: set<RecordKey>) {
    SoaAtApex(zone, ks) && OneSoa(ks) && CnameAlone(ks)
  }

  /** A zone with an SOA has an NS record at its apex. */
  ghost predicate HasApexNS(zone: string, ks: set<RecordKey>) {
    (exists k :: k in ks && k.rrtype == TYPE_SOA)
    ==> exists k :: k in ks && k.rrtype == TYPE_NS && k.name == zone
  }

  ghost predicate StronglyValid(zone: string, ks: set<RecordKey>) {
    WeaklyValid(zone, ks) && HasApexNS(zone, ks)
  }

  /** Every zone of the store obeys the weak rules. */
  ghost predicate AllValid(db: Db) {
    forall z: BarFree :: WeaklyValid(z, ZoneKeys(db, z))
  }

  lemma ValidSubset(zone: string, small: set<RecordKey>, large: set<RecordKey>)
    requires small <= large && WeaklyValid(zone, large)
    ensures WeaklyValid(zone, small)
  {
  }

  ghost function KeysOf(records: seq<Record>): set<RecordKey> {
    set r | r in records :: r.Key()
  }

  ghost predicate DistinctKeys(records: seq<Record>) {
    forall i, j :: 0 <= i < j < |records| ==> records[i].Key() != records[j].Key()
  }

  // ------------------------------------------------------------ list checking

  predicate NotBothSoa(a: Record, b: Record) {
    a.rrtype != TYPE_SOA || b.rrtype != TYPE_SOA
  }

  /** Two records may share an owner only if neither is a CNAME. */
  predicate MayCoexist(a: Record, b: Record) {
    a.name == b.name ==> a.rrtype != TYPE_CNAME && b.rrtype != TYPE_CNAME
  }

  /** The rules on a list, where a repeated entry counts twice. */
  ghost predicate ListValid(zone: string, records: seq<Record>, requireApexNS: bool) {
    && (forall r :: r in records && r.rrtype == TYPE_SOA ==> r.name == zone)
    && Pairwise(records, NotBothSoa)
    && (requireApexNS && (exists r :: r in records && r.rrtype == TYPE_SOA)
        ==> exists r :: r in records && r.rrtype == TYPE_NS && r.name == zone)
    && Pairwise(records, MayCoexist)
  }

  method ValidateZoneRecords(zone: BarFree, records: seq<Record>, requireApexNS: bool) returns (ok: bool)
    ensures ok <==> match NormalizeZoneName(zone) case Err => false case Ok(z) => ListValid(z, records, requireApexNS)
  {
    hide NormalizeZoneName;
    var normalized := NormalizeZoneName(zone);
    if normalized.Err? {
      return false;
    }
    var z := normalized.value;
    if |records| == 0 {
      return true;
    }
    var placed := ValidateSOAPlacement(z, records);
    if !placed {
      return false;
    }
    var atApex := (r: Record) => r.name == z && r.rrtype == TYPE_SOA;
    var apexSOA := Filter(records, atApex);
    SoaCount(z, records);
    FilterLength(records, atApex);
    if |apexSOA| > 1 {
      return false;
    }
    var apexNS := (r: Record) => r.name == z && r.rrtype == TYPE_NS;
    FilterLength(records, apexNS);
    if requireApexNS && |apexSOA| > 0 && |Filter(records, apexNS)| == 0 {
      return false;
    }
    ok := ValidateCNAMEConflicts(records);
  }

  method ValidateSOAPlacement(zone: BarFree, records: seq<Record>) returns (ok: bool)
    ensures ok <==> forall r :: r in records && r.rrtype == TYPE_SOA ==> r.name == zone
  {
    for i := 0 to |records|
      invariant forall j :: 0 <= j < i && records[j].rrtype == TYPE_SOA ==> records[j].name == zone
    {
      if records[i].rrtype == TYPE_SOA && records[i].name != zone {
        return false;
      }
    }
    return true;
  }

  lemma SoaCount(zone: BarFree, records: seq<Record>)
    requires forall r :: r in records && r.rrtype == TYPE_SOA ==> r.name == zone
    ensures |Filter(records, (r: Record) => r.name == zone && r.rrtype == TYPE_SOA)| <= 1
       <==> Pairwise(records, NotBothSoa)
  {
    var atApex := (r: Record) => r.name == zone && r.rrtype == TYPE_SOA;
    var apex := Filter(records, atApex);
    FilterPairwise(records, atApex, NotBothSoa);
    FilterElems(records, atApex);
    assert |apex| > 1 ==> !NotBothSoa(apex[0], apex[1]) by {
      assert forall i :: 0 <= i < |apex| ==> apex[i] in apex;
    }
  }

  /** Records are grouped by owner; each group is checked for its CNAMEs. */
  method ValidateCNAMEConflicts(records: seq<Record>) returns (ok: bool)
    ensures ok <==> Pairwise(records, MayCoexist)
  {
    var names: seq<BarFree> := AnyOrder<BarFree>(set r | r in records :: r.name);
    forall r | r in records ensures r.name in names {
      ElemsMember(names, r.name);
    }
    for i := 0 to |names|
      invariant forall j :: 0 <= j < i ==> GroupOk(records, names[j])
    {
      var name := names[i];
      var group := Filter(records, (r: Record) => r.name == name);
      var cnames := Filter(group, (r: Record) => r.rrtype == TYPE_CNAME);
      GroupCheck(records, name);
      if |cnames| > 1 || (|cnames| != 0 && |group| != |cnames|) {
        assert !GroupOk(records, names[i]);
        GroupsCover(records, names);
        return false;
      }
    }
    GroupsCover(records, names);
    return true;
  }

  ghost predicate GroupOk(records: seq<Record>, name: string) {
    forall i, j :: 0 <= i < j < |records| && records[i].name == name && records[j].name == name
      ==> MayCoexist(records[i], records[j])
  }

  lemma GroupsCover(records: seq<Record>, names: seq<BarFree>)
    requires forall r :: r in records ==> r.name in names
    ensures Pairwise(records, MayCoexist) <==> forall j :: 0 <= j < |names| ==> GroupOk(records, names[j])
  {
    if forall j :: 0 <= j < |names| ==> GroupOk(records, names[j]) {
      forall a, b | 0 <= a < b < |records| ensures MayCoexist(records[a], records[b]) {
        assert records[a] in records;
        var j :| 0 <= j < |names| && names[j] == records[a].name;
        assert GroupOk(records, names[j]);
      }
    }
  }

  /** The two counts of a group say that no CNAME shares its owner. */
  lemma GroupCheck(records: seq<Record>, name: string)
    ensures var group := Filter(records, (r: Record) => r.name == name);
            var cnames := Filter(group, (r: Record) => r.rrtype == TYPE_CNAME);
            GroupOk(records, name) <==> |cnames| <= 1 && (|cnames| == 0 || |group| == |cnames|)
  {
    var sameName, isCname := (r: Record) => r.name == name, (r: Record) => r.rrtype == TYPE_CNAME;
    var group := Filter(records, sameName);
    assert GroupOk(records, name) <==> PairwiseWhere(records, sameName, MayCoexist);
    hide GroupOk, PairwiseWhere, Filter;
    FilterElems(records, sameName);
    FilterPairwise(records, sameName, MayCoexist);
    FilterLength(group, isCname);
    GroupOfTwo(group);
  }

  lemma GroupOfTwo(group: seq<Record>)
    requires forall a, b :: a in group && b in group ==> a.name == b.name
    ensures |group| > 1 ==>
      (Pairwise(group, MayCoexist) <==> forall r :: r in group ==> r.rrtype != TYPE_CNAME)
  {
    if |group| > 1 && Pairwise(group, MayCoexist) {
      forall r | r in group ensures r.rrtype != TYPE_CNAME {
        var i :| 0 <= i < |group| && group[i] == r;
        var j := if i == 0 then 1 else 0;
        assert group[j] in group;
        assert MayCoexist(group[i], group[j]) || MayCoexist(group[j], group[i]);
      }
    }
  }

  // --------------------------------------------------- lists and sets of keys

  lemma NameAndTypeInKey(r: Record)
    ensures r.Key().zone == r.zone && r.Key().name == r.name && r.Key().rrtype == r.rrtype
  {
  }

  /** On a list without repeated keys the list rules are the rules on its keys. */
  lemma ListValidIsKeyValid(zone: string, records: seq<Record>, strong: bool)
    requires DistinctKeys(records)
    ensures ListValid(zone, records, strong) <==>
            if strong then StronglyValid(zone, KeysOf(records)) else WeaklyValid(zone, KeysOf(records))
  {
    forall r { NameAndTypeInKey(r); }
    hide Record.Key;
    var ks := KeysOf(records);
    SoaPairs(records);
    CnamePairs(records);
    assert SoaAtApex(zone, ks) <==> forall r :: r in records && r.rrtype == TYPE_SOA ==> r.name == zone by {
      assert forall r :: r in records ==> r.Key() in ks;
    }
    ApexNSAgrees(zone, records);
  }

  lemma ApexNSAgrees(zone: string, records: seq<Record>)
    ensures HasApexNS(zone, KeysOf(records)) <==>
      ((exists r :: r in records && r.rrtype == TYPE_SOA)
       ==> exists r :: r in records && r.rrtype == TYPE_NS && r.name == zone)
  {
    forall r { NameAndTypeInKey(r); }
    hide Record.Key;
    var ks := KeysOf(records);
    assert forall r :: r in records ==> r.Key() in ks;
    if k :| k in ks && k.rrtype == TYPE_SOA {
      var r :| r in records && r.Key() == k;
      assert r.rrtype == TYPE_SOA;
    }
    if k :| k in ks && k.rrtype == TYPE_NS && k.name == zone {
      var r :| r in records && r.Key() == k;
      assert r.rrtype == TYPE_NS && r.name == zone;
    }
  }

  lemma SoaPairs(records: seq<Record>)
    requires DistinctKeys(records)
    ensures Pairwise(records, NotBothSoa) <==> OneSoa(KeysOf(records))
  {
    forall r { NameAndTypeInKey(r); }
    hide Record.Key;
    var ks := KeysOf(records);
    assert forall r :: r in records ==> r.Key() in ks;
    if OneSoa(ks) {
      forall i, j | 0 <= i < j < |records| ensures NotBothSoa(records[i], records[j]) {
        assert records[i] in records && records[j] in records;
      }
    } else {
      var a, b :| a in ks && b in ks && a.rrtype == b.rrtype == TYPE_SOA && a != b;
      var i :| 0 <= i < |records| && records[i].Key() == a;
      var j :| 0 <= j < |records| && records[j].Key() == b;
      assert !NotBothSoa(records[i], records[j]) && !NotBothSoa(records[j], records[i]);
    }
  }

  lemma CnamePairs(records: seq<Record>)
    requires DistinctKeys(records)
    ensures Pairwise(records, MayCoexist) <==> CnameAlone(KeysOf(records))
  {
    forall r { NameAndTypeInKey(r); }
    hide Record.Key;
    var ks := KeysOf(records);
    assert forall r :: r in records ==> r.Key() in ks;
    if CnameAlone(ks) {
      forall i, j | 0 <= i < j < |records| ensures MayCoexist(records[i], records[j]) {
        assert records[i] in records && records[j] in records;
      }
    } else {
      var a, b :| a in ks && b in ks && a.name == b.name && a.rrtype == TYPE_CNAME && a != b;
      var i :| 0 <= i < |records| && records[i].Key() == a;
      var j :| 0 <= j < |records| && records[j].Key() == b;
      assert !MayCoexist(records[i], records[j]) && !MayCoexist(records[j], records[i]);
    }
  }

  // ------------------------------------------------------------ merging lists

  /** The first record of every key, in order. */
  ghost function FirstPerKey(records: seq<Record>): seq<Record> {
    if records == [] then []
    else
      var rest := FirstPerKey(records[..|records| - 1]);
      var last := records[|records| - 1];
      if last.Key() in KeysOf(rest) then rest else rest + [last]
  }

  lemma {:induction false} FirstPerKeyFacts(records: seq<Record>)
    ensures KeysOf(FirstPerKey(records)) == KeysOf(records)
    ensures DistinctKeys(FirstPerKey(records))
    ensures forall r :: r in FirstPerKey(records) ==> r in records
    ensures records != [] ==> FirstPerKey(records) != [] && FirstPerKey(records)[0] == records[0]
  {
    hide Record.Key;
    if records != [] {
      var init, last := records[..|records| - 1], records[|records| - 1];
      FirstPerKeyFacts(init);
      assert records == init + [last];
      KeysOfAppend(init, last);
      KeysOfAppend(FirstPerKey(init), last);
    }
  }

  /** r is the i-th record and the first of its key. */
  ghost predicate FirstIs(records: seq<Record>, i: int, r: Record) {
    0 <= i < |records| && records[i] == r && forall j :: 0 <= j < i ==> records[j].Key() != r.Key()
  }

  /** Exactly the first records of the keys are kept. */
  lemma {:induction false} FirstPerKeyExactly(records: seq<Record>, r: Record)
    ensures r in FirstPerKey(records) <==> exists i :: FirstIs(records, i, r)
  {
    hide Record.Key, FirstIs, KeysOf, DistinctKeys;
    if records == [] {
      assert forall i :: !FirstIs([], i, r) by { NoFirst(r); }
    } else {
      hide FirstPerKey;
      var n := |records| - 1;
      var init, last := records[..n], records[n];
      assert records == init + [last];
      FirstPerKeySnoc(init, last);
      FirstPerKeyExactly(init, r);
      FirstPerKeyFacts(init);
      LastIsFirst(init, last);
      LastIsOnly(records, r);
      forall i ensures FirstIs(init, i, r) <==> i != n && FirstIs(records, i, r) { FirstInInit(records, i, r); }
      assert (exists i :: FirstIs(records, i, r)) <==> (exists i :: FirstIs(init, i, r)) || FirstIs(records, n, r);
      assert FirstIs(records, n, r) <==> r == last && last.Key() !in KeysOf(init);
    }
  }

  lemma NoFirst(r: Record)
    ensures forall i :: !FirstIs([], i, r)
  {
  }

  lemma LastIsOnly(records: seq<Record>, r: Record)
    requires records != []
    ensures FirstIs(records, |records| - 1, r) ==> r == records[|records| - 1]
  {
  }

  lemma LastIsFirst(init: seq<Record>, last: Record)
    ensures last.Key() in KeysOf(init) <==> !FirstIs(init + [last], |init|, last)
  {
    hide Record.Key;
    var records := init + [last];
    assert forall j :: 0 <= j < |init| ==> records[j] == init[j] && init[j] in init;
    if last.Key() in KeysOf(init) {
      var x :| x in init && x.Key() == last.Key();
      var j :| 0 <= j < |init| && init[j] == x;
      assert records[j].Key() == last.Key();
    }
  }

  lemma FirstInInit(records: seq<Record>, i: int, r: Record)
    requires records != []
    ensures FirstIs(records[..|records| - 1], i, r) <==> i != |records| - 1 && FirstIs(records, i, r)
  {
    hide Record.Key;
    var init := records[..|records| - 1];
    assert forall j :: 0 <= j < |init| ==> init[j] == records[j];
  }

  lemma KeysOfAppend(rs: seq<Record>, r: Record)
    ensures KeysOf(rs + [r]) == KeysOf(rs) + {r.Key()}
    ensures DistinctKeys(rs) && r.Key() !in KeysOf(rs) ==> DistinctKeys(rs + [r])
  {
    hide Record.Key;
    assert forall x :: x in rs + [r] <==> x in rs || x == r;
    assert forall i :: 0 <= i < |rs| ==> rs[i] in rs;
  }

  lemma FirstPerKeySnoc(records: seq<Record>, r: Record)
    ensures FirstPerKey(records + [r]) ==
            FirstPerKey(records) + (if r.Key() in KeysOf(FirstPerKey(records)) then [] else [r])
  {
    hide Record.Key, KeysOf;
    assert (records + [r])[..|records|] == records;
  }

  /** Append the replacements, keeping the earlier record when a key repeats. */
  method UpsertRecords(records: seq<Record>, replacements: seq<Record>) returns (merged: seq<Record>)
    ensures merged == FirstPerKey(records + replacements)
  {
    hide Record.Key;
    var all := records + replacements;
    var keys: set<RecordKey> := {};
    merged := [];
    for i := 0 to |all|
      invariant merged == FirstPerKey(all[..i]) && keys == KeysOf(merged)
    {
      assert all[..i + 1][..i] == all[..i];
      KeysOfAppend(merged, all[i]);
      if all[i].Key() !in keys {
        keys := keys + {all[i].Key()};
        merged := merged + [all[i]];
      }
    }
    assert all[..|all|] == all;
  }
}
