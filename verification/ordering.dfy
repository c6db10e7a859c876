/**
 Lexicographic order on text, sorting by a comparator, and the fact that makes
 sorted results deterministic: a set has exactly one strictly sorted listing.
 */
module Ordering {

  predicate StrLess(a: string, b: string) {
    b != [] && (a == [] || a[0] < b[0] || (a[0] == b[0] && StrLess(a[1..], b[1..])))
  }

  lemma StrLessIrreflexive(a: string)
    ensures !StrLess(a, a)
  {
  }

  lemma StrLessTransitive(a: string, b: string, c: string)
    requires StrLess(a, b) && StrLess(b, c)
    ensures StrLess(a, c)
  {
  }

  lemma {:induction false} StrLessConnected(a: string, b: string)
    requires a != b
    ensures StrLess(a, b) || StrLess(b, a)
  {
    if a != [] && b != [] && a[0] == b[0] {
      assert a == [a[0]] + a[1..] && b == [b[0]] + b[1..];
      StrLessConnected(a[1..], b[1..]);
    }
  }

  /** The texts agree up to k, where a ends or has the smaller character. */
  ghost predicate DiffersAt(a: string, b: string, k: int) {
    0 <= k <= |a| && k < |b| && a[..k] == b[..k] && (k == |a| || a[k] < b[k])
  }

  /** The order is the dictionary order. */
  lemma {:induction false} StrLessExactly(a: string, b: string)
    ensures StrLess(a, b) <==> exists k :: DiffersAt(a, b, k)
  {
    if b == [] {
    } else if a == [] || a[0] != b[0] {
      assert DiffersAt(a, b, 0) <==> a == [] || a[0] < b[0];
      if k :| DiffersAt(a, b, k) && k > 0 {
        assert a[..k][0] == b[..k][0];
      }
    } else {
      StrLessExactly(a[1..], b[1..]);
      if k :| DiffersAt(a[1..], b[1..], k) {
        assert a[..k + 1] == [a[0]] + a[1..][..k] && b[..k + 1] == [b[0]] + b[1..][..k];
        assert DiffersAt(a, b, k + 1);
      }
      if k :| DiffersAt(a, b, k) {
        assert k > 0;
        assert a[1..][..k - 1] == a[..k][1..] && b[1..][..k - 1] == b[..k][1..];
        assert DiffersAt(a[1..], b[1..], k - 1);
      }
    }
  }

  ghost predicate StrictTotal<T(!new)>(less: (T, T) -> bool) {
    && (forall x :: !less(x, x))
    && (forall x, y, z :: less(x, y) && less(y, z) ==> less(x, z))
    && (forall x, y :: x != y ==> less(x, y) || less(y, x))
  }

  lemma StrLessTotal()
    ensures StrictTotal(StrLess)
  {
    forall x { StrLessIrreflexive(x); }
    forall x, y, z | StrLess(x, y) && StrLess(y, z) ensures StrLess(x, z) { StrLessTransitive(x, y, z); }
    forall x, y | x != y ensures StrLess(x, y) || StrLess(y, x) { StrLessConnected(x, y); }
  }

  function Elems<T>(xs: seq<T>): set<T> {
    set x | x in xs
  }

  lemma ElemsMember<T>(xs: seq<T>, x: T)
    ensures x in Elems(xs) <==> x in xs
  {
  }

  ghost predicate Distinct<T>(xs: seq<T>) {
    forall i, j :: 0 <= i < j < |xs| ==> xs[i] != xs[j]
  }

  lemma DistinctAppend<T>(a: seq<T>, b: seq<T>)
    requires Distinct(a) && Distinct(b) && Elems(a) !! Elems(b)
    ensures Distinct(a + b)
  {
    forall i, j | 0 <= i < |a| <= j < |a + b| ensures (a + b)[i] != (a + b)[j] {
      assert a[i] in Elems(a) && b[j - |a|] in Elems(b);
    }
  }

  ghost predicate SortedBy<T>(xs: seq<T>, less: (T, T) -> bool) {
    forall i, j :: 0 <= i < j < |xs| ==> less(xs[i], xs[j])
  }

  /** xs lists the members of s, each once, in order. */
  ghost predicate IsListing<T>(xs: seq<T>, s: set<T>, less: (T, T) -> bool) {
    SortedBy(xs, less) && Elems(xs) == s
  }

  function Insert<T>(x: T, xs: seq<T>, less: (T, T) -> bool): seq<T> {
    if xs == [] || less(x, xs[0]) then [x] + xs else [xs[0]] + Insert(x, xs[1..], less)
  }

  lemma ElemsAppend<T>(a: seq<T>, b: seq<T>)
    ensures Elems(a + b) == Elems(a) + Elems(b)
  {
  }

  lemma ElemsEmpty<T>(a: seq<T>)
    ensures Elems(a) == {} <==> a == []
  {
    if a != [] {
      assert a[0] in Elems(a);
    }
  }

  lemma {:induction false} InsertElems<T>(x: T, xs: seq<T>, less: (T, T) -> bool)
    ensures Elems(Insert(x, xs, less)) == Elems(xs) + {x}
    ensures |Insert(x, xs, less)| == |xs| + 1
  {
    if xs == [] || less(x, xs[0]) {
      ElemsAppend([x], xs);
    } else {
      InsertElems(x, xs[1..], less);
      ElemsAppend([xs[0]], Insert(x, xs[1..], less));
      ElemsAppend([xs[0]], xs[1..]);
      assert xs == [xs[0]] + xs[1..];
    }
  }

  lemma {:induction false} InsertSorted<T(!new)>(x: T, xs: seq<T>, less: (T, T) -> bool)
    requires StrictTotal(less) && SortedBy(xs, less) && x !in xs
    ensures SortedBy(Insert(x, xs, less), less)
  {
    if xs == [] || less(x, xs[0]) {
    } else {
      InsertSorted(x, xs[1..], less);
      InsertElems(x, xs[1..], less);
      var ys := Insert(x, xs[1..], less);
      forall j | 0 <= j < |ys| ensures less(xs[0], ys[j]) {
        assert ys[j] in Elems(ys);
        assert ys[j] == x || ys[j] in xs[1..];
      }
    }
  }

  function Sort<T>(xs: seq<T>, less: (T, T) -> bool): seq<T> {
    if xs == [] then [] else Insert(xs[0], Sort(xs[1..], less), less)
  }

  /** Sorting a duplicate-free list yields the listing of its members. */
  lemma {:induction false} SortIsListing<T(!new)>(xs: seq<T>, less: (T, T) -> bool)
    requires StrictTotal(less)
    requires Distinct(xs)
    ensures IsListing(Sort(xs, less), Elems(xs), less)
    ensures |Sort(xs, less)| == |xs|
  {
    if xs != [] {
      SortIsListing(xs[1..], less);
      var ys := Sort(xs[1..], less);
      assert xs[0] !in xs[1..];
      assert forall y :: y in ys <==> y in Elems(ys);
      InsertSorted(xs[0], ys, less);
      InsertElems(xs[0], ys, less);
      assert Elems(xs) == Elems(xs[1..]) + {xs[0]};
    }
  }

  lemma FirstIsLeast<T(!new)>(a: seq<T>, s: set<T>, less: (T, T) -> bool, x: T)
    requires IsListing(a, s, less) && x in s
    ensures a != [] && (x == a[0] || less(a[0], x))
  {
    assert x in Elems(a);
    var i :| 0 <= i < |a| && a[i] == x;
  }

  lemma ListingTail<T(!new)>(a: seq<T>, s: set<T>, less: (T, T) -> bool)
    requires StrictTotal(less) && IsListing(a, s, less) && a != []
    ensures IsListing(a[1..], s - {a[0]}, less)
  {
    ElemsAppend([a[0]], a[1..]);
    assert a == [a[0]] + a[1..];
    assert a[0] !in a[1..];
    assert a[0] !in Elems(a[1..]);
  }

  /** A set has at most one listing under a strict total order. */
  lemma {:induction false} ListingUnique<T(!new)>(a: seq<T>, b: seq<T>, s: set<T>, less: (T, T) -> bool)
    requires StrictTotal(less) && IsListing(a, s, less) && IsListing(b, s, less)
    ensures a == b
    decreases |a|
  {
    if s == {} {
      ElemsEmpty(a);
      ElemsEmpty(b);
    } else {
      var x :| x in s;
      FirstIsLeast(a, s, less, x);
      FirstIsLeast(b, s, less, x);
      assert a[0] in Elems(a) && b[0] in Elems(b);
      FirstIsLeast(a, s, less, b[0]);
      FirstIsLeast(b, s, less, a[0]);
      ListingTail(a, s, less);
      ListingTail(b, s, less);
      ListingUnique(a[1..], b[1..], s - {a[0]}, less);
      assert a == [a[0]] + a[1..] && b == [b[0]] + b[1..];
    }
  }

  /** The listing of s. */
  ghost function Listing<T(!new)>(s: set<T>, less: (T, T) -> bool): (xs: seq<T>)
    requires StrictTotal(less)
    ensures IsListing(xs, s, less)
  {
    if s == {} then
      []
    else
      var x :| x in s;
      var rest := Listing(s - {x}, less);
      assert x !in rest by { assert x !in Elems(rest); }
      InsertSorted(x, rest, less);
      InsertElems(x, rest, less);
      Insert(x, rest, less)
  }

  lemma ListingIs<T(!new)>(xs: seq<T>, s: set<T>, less: (T, T) -> bool)
    requires StrictTotal(less) && IsListing(xs, s, less)
    ensures xs == Listing(s, less)
  {
    ListingUnique(xs, Listing(s, less), s, less);
  }

  lemma ListingMember<T(!new)>(s: set<T>, less: (T, T) -> bool, x: T)
    requires StrictTotal(less)
    ensures x in Listing(s, less) <==> x in s
  {
    assert x in Listing(s, less) <==> x in Elems(Listing(s, less));
  }

  /** A strictly sorted list holds nothing twice. */
  lemma ListingDistinct<T(!new)>(xs: seq<T>, less: (T, T) -> bool)
    requires StrictTotal(less) && SortedBy(xs, less)
    ensures Distinct(xs)
  {
    forall i, j | 0 <= i < j < |xs| ensures xs[i] != xs[j] {
      assert less(xs[i], xs[j]);
    }
  }

  // --------------------------------------------------- lists with repetitions

  /** Sorted, with repetitions allowed. */
  ghost predicate Ascending<T>(xs: seq<T>, less: (T, T) -> bool) {
    forall i, j :: 0 <= i < j < |xs| ==> !less(xs[j], xs[i])
  }

  lemma ConsAscending<T>(x: T, xs: seq<T>, less: (T, T) -> bool)
    requires Ascending(xs, less) && forall y :: y in xs ==> !less(y, x)
    ensures Ascending([x] + xs, less)
  {
  }

  lemma {:induction false} InsertAscending<T(!new)>(x: T, xs: seq<T>, less: (T, T) -> bool)
    requires StrictTotal(less) && Ascending(xs, less)
    ensures Ascending(Insert(x, xs, less), less) && multiset(Insert(x, xs, less)) == multiset(xs) + multiset{x}
  {
    if xs != [] {
      forall y | y in xs ensures y == xs[0] || less(xs[0], y) { FirstOfAscending(xs, less, y); }
    }
    if xs == [] || less(x, xs[0]) {
      ConsAscending(x, xs, less);
    } else {
      TailAscending(xs, less);
      hide Ascending;
      InsertAscending(x, xs[1..], less);
      assert xs == [xs[0]] + xs[1..];
      var ys := Insert(x, xs[1..], less);
      forall y | y in ys ensures !less(y, xs[0]) {
        assert y in multiset(ys);
        assert y == x || y in xs[1..];
      }
      ConsAscending(xs[0], ys, less);
    }
  }

  /** Sorting permutes. */
  lemma {:induction false} SortAscends<T(!new)>(xs: seq<T>, less: (T, T) -> bool)
    requires StrictTotal(less)
    ensures Ascending(Sort(xs, less), less) && multiset(Sort(xs, less)) == multiset(xs)
  {
    if xs != [] {
      SortAscends(xs[1..], less);
      InsertAscending(xs[0], Sort(xs[1..], less), less);
      assert xs == [xs[0]] + xs[1..];
    }
  }

  lemma FirstOfAscending<T(!new)>(xs: seq<T>, less: (T, T) -> bool, x: T)
    requires StrictTotal(less) && Ascending(xs, less) && x in xs
    ensures x == xs[0] || less(xs[0], x)
  {
    var i :| 0 <= i < |xs| && xs[i] == x;
    assert i > 0 ==> !less(xs[i], xs[0]);
  }

  lemma TailCounts<T>(xs: seq<T>)
    requires xs != []
    ensures multiset(xs[1..]) == multiset(xs) - multiset{xs[0]}
  {
    assert xs == [xs[0]] + xs[1..];
  }

  lemma TailAscending<T>(xs: seq<T>, less: (T, T) -> bool)
    requires xs != [] && Ascending(xs, less)
    ensures Ascending(xs[1..], less)
  {
  }

  lemma SameFirst<T(!new)>(a: seq<T>, b: seq<T>, less: (T, T) -> bool)
    requires StrictTotal(less) && Ascending(a, less) && Ascending(b, less) && multiset(a) == multiset(b) && a != []
    ensures b != [] && a[0] == b[0]
  {
    assert a[0] in multiset(b);
    assert b[0] in multiset(a);
    hide Ascending;
    FirstOfAscending(a, less, b[0]);
    FirstOfAscending(b, less, a[0]);
  }

  /** A multiset has exactly one ascending list. */
  lemma {:induction false} AscendingUnique<T(!new)>(a: seq<T>, b: seq<T>, less: (T, T) -> bool)
    requires StrictTotal(less) && Ascending(a, less) && Ascending(b, less) && multiset(a) == multiset(b)
    ensures a == b
  {
    hide *;
    if a == [] {
      assert |b| == |multiset(b)| == 0;
    } else {
      SameFirst(a, b, less);
      TailCounts(a);
      TailCounts(b);
      TailAscending(a, less);
      TailAscending(b, less);
      AscendingUnique(a[1..], b[1..], less);
      assert a == [a[0]] + a[1..] && b == [b[0]] + b[1..];
    }
  }

  lemma {:induction false} FilterCount<T>(xs: seq<T>, keep: T -> bool, x: T)
    ensures multiset(Filter(xs, keep))[x] == if keep(x) then multiset(xs)[x] else 0
  {
    if xs != [] {
      FilterCount(xs[1..], keep, x);
      assert xs == [xs[0]] + xs[1..];
    }
  }

  /** The elements of a set in some order, as a Go map iteration yields them. */
  method AnyOrder<T(==)>(s: set<T>) returns (xs: seq<T>)
    ensures Elems(xs) == s
    ensures Distinct(xs)
    ensures |xs| == |s|
  {
    xs := [];
    var rest := s;
    while rest != {}
      invariant rest <= s
      invariant Elems(xs) == s - rest
      invariant Distinct(xs)
      invariant |xs| + |rest| == |s|
      decreases rest
    {
      var x :| x in rest;
      assert x !in Elems(xs);
      ElemsAppend(xs, [x]);
      xs := xs + [x];
      rest := rest - {x};
    }
  }

  function Filter<T>(xs: seq<T>, keep: T -> bool): seq<T> {
    if xs == [] then []
    else (if keep(xs[0]) then [xs[0]] else []) + Filter(xs[1..], keep)
  }

  lemma {:induction false} FilterElems<T>(xs: seq<T>, keep: T -> bool)
    ensures forall x :: x in Filter(xs, keep) <==> x in xs && keep(x)
  {
    if xs != [] {
      FilterElems(xs[1..], keep);
      assert forall x :: x in xs <==> x == xs[0] || x in xs[1..];
    }
  }

  lemma {:induction false} FilterDistinct<T>(xs: seq<T>, keep: T -> bool)
    requires Distinct(xs)
    ensures Distinct(Filter(xs, keep))
  {
    if xs != [] {
      FilterDistinct(xs[1..], keep);
      FilterElems(xs[1..], keep);
      assert xs[0] !in xs[1..];
    }
  }

  /** Filtering and then sorting a duplicate-free list gives the listing of what passes. */
  lemma FilterSortIsListing<T(!new)>(xs: seq<T>, keep: T -> bool, less: (T, T) -> bool, s: set<T>)
    requires StrictTotal(less)
    requires Distinct(xs)
    requires forall x :: x in s <==> x in xs && keep(x)
    ensures Sort(Filter(xs, keep), less) == Listing(s, less)
  {
    FilterElems(xs, keep);
    FilterDistinct(xs, keep);
    var ys := Filter(xs, keep);
    assert Elems(ys) == s;
    SortIsListing(ys, less);
    ListingIs(Sort(ys, less), s, less);
  }

  /** Every earlier element stands in a relation to every later one. */
  ghost predicate Pairwise<T>(xs: seq<T>, rel: (T, T) -> bool) {
    forall i, j :: 0 <= i < j < |xs| ==> rel(xs[i], xs[j])
  }

  ghost predicate PairwiseWhere<T>(xs: seq<T>, keep: T -> bool, rel: (T, T) -> bool) {
    forall i, j :: 0 <= i < j < |xs| && keep(xs[i]) && keep(xs[j]) ==> rel(xs[i], xs[j])
  }

  lemma PairwiseCons<T>(x: T, xs: seq<T>, rel: (T, T) -> bool)
    ensures Pairwise([x] + xs, rel) <==> Pairwise(xs, rel) && forall y :: y in xs ==> rel(x, y)
  {
    var all := [x] + xs;
    if Pairwise(all, rel) {
      forall i, j | 0 <= i < j < |xs| ensures rel(xs[i], xs[j]) {
        assert rel(all[i + 1], all[j + 1]);
      }
      forall y | y in xs ensures rel(x, y) {
        var j :| 0 <= j < |xs| && xs[j] == y;
        assert rel(all[0], all[j + 1]);
      }
    }
  }

  lemma PairwiseWhereCons<T>(x: T, xs: seq<T>, keep: T -> bool, rel: (T, T) -> bool)
    ensures PairwiseWhere([x] + xs, keep, rel) <==>
            PairwiseWhere(xs, keep, rel) && forall y :: y in xs && keep(x) && keep(y) ==> rel(x, y)
  {
    var all := [x] + xs;
    if PairwiseWhere(all, keep, rel) {
      forall i, j | 0 <= i < j < |xs| && keep(xs[i]) && keep(xs[j]) ensures rel(xs[i], xs[j]) {
        assert keep(all[i + 1]) && keep(all[j + 1]);
      }
      forall y | y in xs && keep(x) && keep(y) ensures rel(x, y) {
        var j :| 0 <= j < |xs| && xs[j] == y;
        assert keep(all[0]) && keep(all[j + 1]);
      }
    }
  }

  /** A filtered list is pairwise related when the passing elements of the list are. */
  lemma {:induction false} FilterPairwise<T>(xs: seq<T>, keep: T -> bool, rel: (T, T) -> bool)
    ensures Pairwise(Filter(xs, keep), rel) <==> PairwiseWhere(xs, keep, rel)
  {
    if xs != [] {
      var x, rest := xs[0], xs[1..];
      var kept := Filter(rest, keep);
      assert Filter(xs, keep) == if keep(x) then [x] + kept else kept;
      assert xs == [x] + rest;
      hide Filter, Pairwise, PairwiseWhere;
      FilterPairwise(rest, keep, rel);
      FilterElems(rest, keep);
      PairwiseWhereCons(x, rest, keep, rel);
      PairwiseCons(x, kept, rel);
      if keep(x) {
        assert Filter(xs, keep) == [x] + kept;
        assert Pairwise(Filter(xs, keep), rel) <==> Pairwise(kept, rel) && forall y :: y in kept ==> rel(x, y);
        assert PairwiseWhere(xs, keep, rel) <==>
               PairwiseWhere(rest, keep, rel) && forall y :: y in rest && keep(y) ==> rel(x, y);
        assert (forall y :: y in kept ==> rel(x, y)) ==> (forall y :: y in rest && keep(y) ==> rel(x, y));
        assert (forall y :: y in rest && keep(y) ==> rel(x, y)) ==> (forall y :: y in kept ==> rel(x, y));
      } else {
        assert PairwiseWhere(xs, keep, rel) <==> PairwiseWhere(rest, keep, rel);
      }
    }
  }

  lemma {:induction false} FilterLength<T>(xs: seq<T>, keep: T -> bool)
    ensures |Filter(xs, keep)| <= |xs|
    ensures |Filter(xs, keep)| == |xs| <==> forall x :: x in xs ==> keep(x)
    ensures |Filter(xs, keep)| == 0 <==> forall x :: x in xs ==> !keep(x)
  {
    if xs != [] {
      FilterLength(xs[1..], keep);
      assert forall x :: x in xs <==> x == xs[0] || x in xs[1..];
    }
  }
}
