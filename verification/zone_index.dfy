/**
 Zone matching: a prefix index over label-reversed names finds the most
 specific zone that contains a name.
 */
module Zones {
  import opened Names
  import opened Ordering
  import opened Records

  // ------------------------------------------------------------------ labels

  /** strings.Split(s, "."). */
  function Split(s: string): (labels: seq<string>)
    ensures labels != []
  {
    SplitFrom(s, "")
  }

  function SplitFrom(s: string, head: string): (labels: seq<string>)
    ensures labels != []
  {
    if s == [] then [head]
    else if s[0] == '.' then [head] + SplitFrom(s[1..], "")
    else SplitFrom(s[1..], head + [s[0]])
  }

  /** The labels of a fully qualified name; the root has none. */
  function Labels(name: string): seq<string> {
    var trimmed := if IsFqdn(name) then name[..|name| - 1] else name;
    if trimmed == "" then [] else Split(trimmed)
  }

  /** Each label followed by a dot. */
  function Dotted(labels: seq<string>): string {
    if labels == [] then "" else labels[0] + "." + Dotted(labels[1..])
  }

  function Reversed<T>(xs: seq<T>): seq<T> {
    seq(|xs|, i requires 0 <= i < |xs| => xs[|xs| - 1 - i])
  }

  ghost predicate DotFree(labels: seq<string>) {
    forall l :: l in labels ==> '.' !in l
  }

  ghost predicate IsSuffix<T>(a: seq<T>, b: seq<T>) {
    |a| <= |b| && b[|b| - |a|..] == a
  }

  lemma DottedCons(l: string, labels: seq<string>)
    ensures Dotted([l] + labels) == l + "." + Dotted(labels)
  {
    assert ([l] + labels)[1..] == labels;
  }

  lemma {:induction false} SplitFromDotFree(s: string, head: string)
    requires '.' !in head
    ensures DotFree(SplitFrom(s, head))
    decreases |s|
  {
    if s != [] && s[0] == '.' {
      SplitFromDotFree(s[1..], "");
    } else if s != [] {
      SplitFromDotFree(s[1..], head + [s[0]]);
    }
  }

  lemma {:induction false} SplitFromDotted(s: string, head: string)
    ensures Dotted(SplitFrom(s, head)) == head + s + "."
    decreases |s|
  {
    if s == [] {
      DottedCons(head, []);
      assert [head] + [] == [head] && head + s == head;
    } else if s[0] == '.' {
      SplitFromDotted(s[1..], "");
      DottedCons(head, SplitFrom(s[1..], ""));
      assert "" + s[1..] + "." == s[1..] + ".";
      assert head + "." + (s[1..] + ".") == head + s + ".";
    } else {
      SplitFromDotted(s[1..], head + [s[0]]);
      assert head + [s[0]] + s[1..] == head + s;
    }
  }

  lemma SplitFacts(s: string)
    ensures DotFree(Split(s)) && Dotted(Split(s)) == s + "."
  {
    SplitFromDotFree(s, "");
    SplitFromDotted(s, "");
    assert "" + s == s;
  }

  /** Labels cut a name at its dots and lose nothing. */
  lemma LabelsFacts(name: string)
    requires IsFqdn(name)
    ensures DotFree(Labels(name))
    ensures name != "." ==> Labels(name) != [] && Dotted(Labels(name)) == name
    ensures name == "." ==> Labels(name) == []
  {
    var trimmed := name[..|name| - 1];
    assert name == trimmed + ".";
    SplitFacts(trimmed);
  }

  lemma {:induction false} DottedAppend(a: seq<string>, b: seq<string>)
    ensures Dotted(a + b) == Dotted(a) + Dotted(b)
  {
    if a == [] {
      assert a + b == b;
    } else {
      DottedAppend(a[1..], b);
      assert (a + b)[1..] == a[1..] + b;
    }
  }

  lemma FirstLabel(a: string, c: string, p: string, q: string)
    requires '.' !in a && '.' !in c
    ensures a + "." + p <= c + "." + q <==> a == c && p <= q
  {
    if a == c {
      PrefixAfter(a + ".", p, q);
    } else if a + "." + p <= c + "." + q {
      SameFirstLabel(a, c, p, q);
    }
  }

  lemma SameFirstLabel(a: string, c: string, p: string, q: string)
    requires '.' !in a && '.' !in c && a + "." + p <= c + "." + q
    ensures a == c
  {
    var x, y := a + "." + p, c + "." + q;
    assert x[|a|] == '.' && y[|c|] == '.';
    assert forall i :: 0 <= i < |a| ==> x[i] == a[i];
    assert forall i :: 0 <= i < |c| ==> y[i] == c[i];
    assert forall i :: 0 <= i < |x| ==> x[i] == y[i];
    assert |a| == |c|;
  }

  /** Dotted text is uniquely decodable: text prefixes are label prefixes. */
  lemma {:induction false} DottedPrefix(a: seq<string>, b: seq<string>)
    requires DotFree(a) && DotFree(b)
    ensures Dotted(a) <= Dotted(b) <==> a <= b
  {
    if a != [] {
      if b != [] {
        FirstLabel(a[0], b[0], Dotted(a[1..]), Dotted(b[1..]));
        DottedPrefix(a[1..], b[1..]);
        assert a == [a[0]] + a[1..] && b == [b[0]] + b[1..];
      } else {
        assert |Dotted(a)| > 0;
      }
    }
  }

  lemma DottedInjective(a: seq<string>, b: seq<string>)
    requires DotFree(a) && DotFree(b) && Dotted(a) == Dotted(b)
    ensures a == b
  {
    DottedPrefix(a, b);
    DottedPrefix(b, a);
  }

  lemma {:induction false} DottedEndsInDot(a: seq<string>)
    requires a != []
    ensures IsFqdn(Dotted(a))
  {
    if |a| > 1 {
      DottedEndsInDot(a[1..]);
    }
  }

  /** Containment of names is containment of their labels, from the right. */
  lemma SubDomainIsLabelSuffix(parent: string, child: string)
    requires IsFqdn(parent) && IsFqdn(child)
    ensures IsSubDomain(parent, child) <==> IsSuffix(Labels(parent), Labels(child))
  {
    LabelsFacts(parent);
    LabelsFacts(child);
    if parent != "." {
      if IsSubDomain(parent, child) && child != parent {
        SubDomainGivesSuffix(parent, child);
      }
      if IsSuffix(Labels(parent), Labels(child)) {
        SuffixGivesSubDomain(parent, child);
      }
    }
  }

  lemma SubDomainGivesSuffix(parent: string, child: string)
    requires IsFqdn(parent) && IsFqdn(child) && parent != "." && child != parent && IsSubDomain(parent, child)
    ensures IsSuffix(Labels(parent), Labels(child))
  {
    LabelsFacts(parent);
    LabelsFacts(child);
    var before := child[..|child| - |parent| - 1];
    assert child == before + "." + parent;
    hide Labels, Split, Dotted;
    SplitFacts(before);
    var front, back := Split(before), Labels(parent);
    DottedAppend(front, back);
    DotFreeAppend(front, back);
    DottedInjective(front + back, Labels(child));
    assert (front + back)[|front|..] == back;
  }

  lemma DotFreeAppend(a: seq<string>, b: seq<string>)
    requires DotFree(a) && DotFree(b)
    ensures DotFree(a + b)
  {
  }

  lemma SuffixGivesSubDomain(parent: string, child: string)
    requires IsFqdn(parent) && IsFqdn(child) && parent != "." && IsSuffix(Labels(parent), Labels(child))
    ensures IsSubDomain(parent, child)
  {
    LabelsFacts(parent);
    LabelsFacts(child);
    var p, c := Labels(parent), Labels(child);
    var front := c[..|c| - |p|];
    assert c == front + p;
    DottedAppend(front, p);
    assert child == Dotted(front) + parent;
    if front != [] {
      DottedEndsInDot(front);
    }
  }

  lemma SuffixIsReversedPrefix<T>(a: seq<T>, b: seq<T>)
    ensures IsSuffix(a, b) <==> Reversed(a) <= Reversed(b)
  {
    var ra, rb := Reversed(a), Reversed(b);
    if IsSuffix(a, b) {
      forall i | 0 <= i < |ra| ensures ra[i] == rb[i] {
        assert b[|b| - |a|..][|a| - 1 - i] == a[|a| - 1 - i];
      }
    }
    if ra <= rb {
      assert forall i :: 0 <= i < |a| ==> a[i] == ra[|a| - 1 - i] == rb[|a| - 1 - i] == b[|b| - |a| + i];
    }
  }

  // ---------------------------------------------------------- reversed names

  function ReversedName(name: string): string {
    Dotted(Reversed(Labels(name)))
  }

  /** The reversed text of a zone starts the reversed text of exactly the names it contains. */
  lemma ReversedPrefixIsSubDomain(zone: string, name: string)
    requires IsFqdn(zone) && IsFqdn(name)
    ensures ReversedName(zone) <= ReversedName(name) <==> IsSubDomain(zone, name)
  {
    LabelsFacts(zone);
    LabelsFacts(name);
    DottedPrefix(Reversed(Labels(zone)), Reversed(Labels(name)));
    SuffixIsReversedPrefix(Labels(zone), Labels(name));
    SubDomainIsLabelSuffix(zone, name);
  }

  lemma ReversedNameInjective(a: string, b: string)
    requires IsFqdn(a) && IsFqdn(b) && ReversedName(a) == ReversedName(b)
    ensures a == b
  {
    ReversedPrefixIsSubDomain(a, b);
    ReversedPrefixIsSubDomain(b, a);
    LabelsFacts(a);
    LabelsFacts(b);
    SubDomainIsLabelSuffix(a, b);
    SubDomainIsLabelSuffix(b, a);
  }

  /** strings.Join(labels, ".") + ".". */
  function Joined(labels: seq<string>): string
    requires labels != []
  {
    (if |labels| == 1 then labels[0] else labels[0] + "." + Joined(labels[1..])[..|Joined(labels[1..])| - 1]) + "."
  }

  lemma {:induction false} JoinedIsDotted(labels: seq<string>)
    requires labels != []
    ensures Joined(labels) == Dotted(labels)
  {
    if |labels| > 1 {
      JoinedIsDotted(labels[1..]);
      DottedEndsInDot(labels[1..]);
    } else {
      assert labels[1..] == [];
    }
  }

  method ReverseInPlace(labels: array<string>)
    modifies labels
    ensures labels[..] == Reversed(old(labels[..]))
  {
    ghost var was := labels[..];
    var left, right := 0, labels.Length - 1;
    while left < right
      invariant 0 <= left && right == labels.Length - 1 - left && left <= right + 1
      invariant forall i :: 0 <= i < labels.Length && (i < left || right < i) ==> labels[i] == was[|was| - 1 - i]
      invariant forall i :: left <= i <= right ==> labels[i] == was[i]
    {
      labels[left], labels[right] := labels[right], labels[left];
      left, right := left + 1, right - 1;
    }
  }

  /** Split at the dots, reverse the labels in place, print them with a final dot. */
  method ReverseDNSName(name: string) returns (reversed: string)
    ensures reversed == ReversedName(name)
  {
    hide Split, Dotted, Joined;
    var trimmed := if IsFqdn(name) then name[..|name| - 1] else name;
    if trimmed == "" {
      DottedNone();
      return "";
    }
    var split := Split(trimmed);
    var labels := new string[|split|](i requires 0 <= i < |split| => split[i]);
    assert labels[..] == split;
    ReverseInPlace(labels);
    JoinedIsDotted(labels[..]);
    reversed := Joined(labels[..]);
  }

  lemma DottedNone()
    ensures Dotted(Reversed([])) == ""
  {
  }

  // ------------------------------------------------------------------- index

  /** z is the listed zone with the most labels among those that contain the name. */
  ghost predicate IsBest(zones: set<BarFree>, name: string, z: BarFree) {
    && z in zones && IsSubDomain(z, name)
    && forall z' :: z' in zones && IsSubDomain(z', name) ==> |Labels(z')| <= |Labels(z)|
  }

  lemma BestUnique(zones: set<BarFree>, name: string, a: BarFree, b: BarFree)
    requires IsFqdn(a) && IsFqdn(b) && IsFqdn(name)
    requires IsBest(zones, name, a) && IsBest(zones, name, b)
    ensures a == b
  {
    SubDomainIsLabelSuffix(a, name);
    SubDomainIsLabelSuffix(b, name);
    LabelsFacts(a);
    LabelsFacts(b);
  }

  /** The naive search that the index stands for. */
  ghost function MatchZone(zones: set<BarFree>, name: string): Option<BarFree> {
    if exists z :: IsBest(zones, name, z) then
      var z :| IsBest(zones, name, z);
      Some(z)
    else
      None
  }

  ghost predicate AllFqdn(zones: set<BarFree>) {
    forall z :: z in zones ==> IsFqdn(z)
  }

  type Trie = map<string, BarFree>

  datatype ZoneIndex = ZoneIndex(names: seq<BarFree>, trie: Trie)

  ghost predicate Indexes(index: ZoneIndex, zones: set<BarFree>) {
    && Elems(index.names) == zones
    && AllFqdn(zones)
    && (forall z :: z in zones ==> ReversedName(z) in index.trie && index.trie[ReversedName(z)] == z)
    && (forall t :: t in index.trie ==> index.trie[t] in zones && ReversedName(index.trie[t]) == t)
  }

  predicate LongestFirst(a: BarFree, b: BarFree) {
    if |a| != |b| then |a| > |b| else StrLess(a, b)
  }

  lemma LongestFirstTotal()
    ensures StrictTotal<BarFree>(LongestFirst)
  {
    StrLessTotal();
  }

  ghost predicate LongerThenDictionary(names: seq<BarFree>) {
    forall i, j :: 0 <= i < j < |names| ==>
      |names[i]| > |names[j]| || (|names[i]| == |names[j]| && StrLess(names[i], names[j]))
  }

  /** The distinct zone names, longest first, then alphabetically. */
  method UniqueSortedZoneNames(zones: seq<BarFree>) returns (names: seq<BarFree>)
    ensures IsListing(names, Elems(zones), LongestFirst)
    ensures LongerThenDictionary(names)
  {
    var unique: seq<BarFree> := AnyOrder<BarFree>(Elems(zones));
    LongestFirstTotal();
    SortIsListing<BarFree>(unique, LongestFirst);
    names := Sort<BarFree>(unique, LongestFirst);
  }

  method NewZoneIndex(zones: seq<BarFree>) returns (index: ZoneIndex)
    requires AllFqdn(Elems(zones))
    ensures Indexes(index, Elems(zones))
  {
    hide ReversedName, Labels, LongestFirst, SortedBy, IsFqdn, LongerThenDictionary;
    var names := UniqueSortedZoneNames(zones);
    var trie: Trie := map[];
    for i := 0 to |names|
      invariant Indexes(ZoneIndex(names[..i], trie), Elems(names[..i]))
    {
      ElemsMember(names, names[i]);
      var reversed := ReverseDNSName(names[i]);
      assert names[..i + 1] == names[..i] + [names[i]];
      ElemsAppend(names[..i], [names[i]]);
      PutIndexes(names[..i], trie, names[i]);
      trie := trie[reversed := names[i]];
    }
    assert names[..|names|] == names;
    index := ZoneIndex(names, trie);
  }

  lemma PutIndexes(names: seq<BarFree>, trie: Trie, z: BarFree)
    requires Indexes(ZoneIndex(names, trie), Elems(names)) && IsFqdn(z)
    ensures Indexes(ZoneIndex(names + [z], trie[ReversedName(z) := z]), Elems(names) + {z})
  {
    hide ReversedName;
    ElemsAppend(names, [z]);
    forall z' | z' in Elems(names) ensures ReversedName(z') == ReversedName(z) ==> z' == z {
      if ReversedName(z') == ReversedName(z) {
        ReversedNameInjective(z', z);
      }
    }
  }

  /** The stored key that is the longest prefix of the text, if any is one. */
  method LongestPrefix(trie: Trie, text: string) returns (hit: Option<BarFree>)
    ensures hit.Some? ==>
      exists n :: 0 <= n <= |text| && text[..n] in trie && trie[text[..n]] == hit.value
                  && forall m :: n < m <= |text| ==> text[..m] !in trie
    ensures hit.None? ==> forall n :: 0 <= n <= |text| ==> text[..n] !in trie
  {
    var n := |text|;
    while text[..n] !in trie && n > 0
      invariant 0 <= n <= |text|
      invariant forall m :: n < m <= |text| ==> text[..m] !in trie
    {
      n := n - 1;
    }
    hit := if text[..n] in trie then Some(trie[text[..n]]) else None;
  }

  /** A longer matching key names a zone with at least as many labels. */
  lemma LongerKeyMoreLabels(a: BarFree, b: BarFree, text: string)
    requires IsFqdn(a) && IsFqdn(b)
    requires ReversedName(a) <= text && ReversedName(b) <= text && |ReversedName(a)| <= |ReversedName(b)|
    ensures |Labels(a)| <= |Labels(b)|
  {
    assert ReversedName(a) <= ReversedName(b);
    ReversedPrefixIsSubDomain(a, b);
    SubDomainIsLabelSuffix(a, b);
  }

  lemma BestIsMatch(zones: set<BarFree>, name: string, z: BarFree)
    requires IsFqdn(name) && AllFqdn(zones) && IsBest(zones, name, z)
    ensures MatchZone(zones, name) == Some(z)
  {
    var best := MatchZone(zones, name).value;
    assert IsBest(zones, name, best);
    BestUnique(zones, name, z, best);
  }

  /** The index returns the most specific zone containing the name, or none if none contains it. */
  method Match(index: ZoneIndex, ghost zones: set<BarFree>, name: string) returns (zone: Option<BarFree>)
    requires Indexes(index, zones) && IsFqdn(name)
    ensures zone == MatchZone(zones, name)
    ensures zone.Some? ==> IsBest(zones, name, zone.value)
    ensures zone.None? ==> forall z :: z in zones ==> !IsSubDomain(z, name)
  {
    hide ReversedName, Labels, IsSubDomain;
    var reversed := ReverseDNSName(name);
    var hit := LongestPrefix(index.trie, reversed);
    forall z | z in zones ensures ReversedName(z) <= reversed <==> IsSubDomain(z, name) {
      ReversedPrefixIsSubDomain(z, name);
    }
    forall z | z in zones && IsSubDomain(z, name) ensures reversed[..|ReversedName(z)|] in index.trie {
      assert reversed[..|ReversedName(z)|] == ReversedName(z);
    }
    zone := if hit.Some? && IsSubDomain(hit.value, name) then hit else None;
    if hit.Some? {
      var best := hit.value;
      forall z | z in zones && IsSubDomain(z, name) ensures |Labels(z)| <= |Labels(best)| {
        LongerKeyMoreLabels(z, best, reversed);
      }
      BestIsMatch(zones, name, best);
    }
  }

  /** A best match exists as soon as any listed zone contains the name. */
  lemma {:induction false} SomeBest(zones: set<BarFree>, name: string, z: BarFree) returns (best: BarFree)
    requires z in zones && IsSubDomain(z, name)
    ensures IsBest(zones, name, best)
    decreases |zones|
  {
    hide Labels, IsSubDomain;
    if z' :| z' in zones - {z} && IsSubDomain(z', name) {
      best := SomeBest(zones - {z}, name, z');
      if |Labels(best)| < |Labels(z)| {
        best := z;
      }
    } else {
      best := z;
    }
  }

  lemma MatchIsBest(zones: set<BarFree>, name: string)
    ensures MatchZone(zones, name).Some? ==> IsBest(zones, name, MatchZone(zones, name).value)
    ensures MatchZone(zones, name).None? ==> forall z :: z in zones ==> !IsSubDomain(z, name)
  {
    hide Labels, IsSubDomain;
    if z :| z in zones && IsSubDomain(z, name) {
      var best := SomeBest(zones, name, z);
    }
  }

  /** A new zone takes over a served name exactly when it contains the name and has more labels. */
  lemma MatchAfterNewZone(zones: set<BarFree>, zone: BarFree, name: string)
    requires AllFqdn(zones) && IsFqdn(zone) && IsFqdn(name)
    ensures var before, after := MatchZone(zones, name), MatchZone(zones + {zone}, name);
            before.Some? ==> after.Some? && (before != after <==>
              IsSubDomain(zone, name) && |Labels(before.value)| < |Labels(zone)|)
  {
    hide Labels, IsSubDomain, MatchZone, IsFqdn;
    MatchIsBest(zones, name);
    MatchIsBest(zones + {zone}, name);
    if MatchZone(zones, name).Some? {
      var old' := MatchZone(zones, name).value;
      if IsSubDomain(zone, name) && |Labels(old')| < |Labels(zone)| {
        BestIsMatch(zones + {zone}, name, zone);
        assert zone != old';
      } else {
        BestIsMatch(zones + {zone}, name, old');
      }
    }
  }
}
