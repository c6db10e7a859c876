/**
 Domain names as the server handles them: text that is lower-cased, trimmed and
 made fully qualified before it is compared or stored.
 */
module Names {

  datatype Option<+T> = None | Some(value: T)

  /** The error paths of the server, without the error's wording. */
  datatype Result<+T> = Ok(value: T) | Err

  function LowerChar(c: char): char {
    if 'A' <= c <= 'Z' then (c as int + 32) as char else c
  }

  function Lower(s: string): string {
    seq(|s|, i requires 0 <= i < |s| => LowerChar(s[i]))
  }

  predicate IsSpace(c: char) {
    c == ' ' || 9 <= c as int <= 13
  }

  function TrimLeft(s: string): string {
    if s != [] && IsSpace(s[0]) then TrimLeft(s[1..]) else s
  }

  function TrimRight(s: string): string {
    if s != [] && IsSpace(s[|s| - 1]) then TrimRight(s[..|s| - 1]) else s
  }

  function TrimSpace(s: string): string {
    TrimRight(TrimLeft(s))
  }

  predicate IsFqdn(s: string) {
    s != [] && s[|s| - 1] == '.'
  }

  function Fqdn(s: string): string {
    if IsFqdn(s) then s else s + "."
  }

  /** The normalisation shared by zones, owners, filters and CNAME targets. */
  function Normalize(s: string): string {
    Fqdn(TrimSpace(Lower(s)))
  }

  /** The order of operations that Resolve applies to the question name. */
  function NormalizeQuestion(s: string): string {
    Fqdn(Lower(TrimSpace(s)))
  }

  /** What normalisation establishes, stated without mentioning it. */
  ghost predicate IsNormal(s: string) {
    && IsFqdn(s)
    && !IsSpace(s[0])
    && forall i :: 0 <= i < |s| ==> !('A' <= s[i] <= 'Z')
  }

  /** True when child lies at or below parent; the root is above every name. */
  predicate IsSubDomain(parent: string, child: string) {
    || parent == "."
    || child == parent
    || (|parent| < |child| && child[|child| - |parent|..] == parent && child[|child| - |parent| - 1] == '.')
  }

  // ---------------------------------------------------------------- trimming

  ghost predicate NoEdgeSpace(s: string) {
    s != [] ==> !IsSpace(s[0]) && !IsSpace(s[|s| - 1])
  }

  ghost predicate AllSpace(s: string) {
    forall c :: c in s ==> IsSpace(c)
  }

  lemma {:induction false} TrimLeftStarts(s: string)
    ensures TrimLeft(s) != [] ==> !IsSpace(TrimLeft(s)[0])
  {
    if s != [] && IsSpace(s[0]) {
      TrimLeftStarts(s[1..]);
    }
  }

  lemma {:induction false} TrimRightEnds(s: string)
    ensures TrimRight(s) != [] ==> !IsSpace(TrimRight(s)[|TrimRight(s)| - 1])
  {
    if s != [] && IsSpace(s[|s| - 1]) {
      TrimRightEnds(s[..|s| - 1]);
    }
  }

  lemma {:induction false} TrimLeftSplit(s: string) returns (left: string)
    ensures s == left + TrimLeft(s) && AllSpace(left)
  {
    if s != [] && IsSpace(s[0]) {
      var rest := TrimLeftSplit(s[1..]);
      left := [s[0]] + rest;
      assert s == [s[0]] + s[1..];
    } else {
      left := "";
    }
  }

  lemma {:induction false} TrimRightSplit(s: string) returns (right: string)
    ensures s == TrimRight(s) + right && AllSpace(right)
  {
    if s != [] && IsSpace(s[|s| - 1]) {
      var init := s[..|s| - 1];
      var rest := TrimRightSplit(init);
      right := rest + [s[|s| - 1]];
      var kept := TrimRight(init);
      assert TrimRight(s) == kept;
      hide TrimRight;
      assert s == (kept + rest) + [s[|s| - 1]] == kept + right;
    } else {
      right := "";
    }
  }

  lemma TrimSpaceShape(s: string)
    ensures NoEdgeSpace(TrimSpace(s))
    ensures forall c :: c in TrimSpace(s) ==> c in s
  {
    var rest := TrimLeft(s);
    TrimLeftStarts(s);
    TrimRightEnds(rest);
    var left := TrimLeftSplit(s);
    var right := TrimRightSplit(rest);
    assert TrimSpace(s) == TrimRight(rest);
    hide TrimLeft, TrimRight, TrimSpace;
    assert TrimRight(rest) != [] ==> TrimRight(rest)[0] == rest[0];
  }

  lemma TrimSpaceIdentity(s: string)
    requires NoEdgeSpace(s)
    ensures TrimSpace(s) == s
  {
  }

  lemma {:induction false} LowerTrimLeft(s: string)
    ensures TrimLeft(Lower(s)) == Lower(TrimLeft(s))
  {
    if s != [] && IsSpace(s[0]) {
      LowerTrimLeft(s[1..]);
      assert Lower(s)[1..] == Lower(s[1..]);
    }
  }

  lemma {:induction false} LowerTrimRight(s: string)
    ensures TrimRight(Lower(s)) == Lower(TrimRight(s))
  {
    if s != [] && IsSpace(s[|s| - 1]) {
      LowerTrimRight(s[..|s| - 1]);
      assert Lower(s)[..|s| - 1] == Lower(s[..|s| - 1]);
    }
  }

  /** Lower-casing and trimming commute, so the two normalisations agree. */
  lemma NormalizationsAgree(s: string)
    ensures NormalizeQuestion(s) == Normalize(s)
  {
    LowerTrimLeft(s);
    LowerTrimRight(TrimLeft(s));
  }

  lemma NormalizeIsNormal(s: string)
    ensures IsNormal(Normalize(s))
  {
    TrimSpaceShape(Lower(s));
    var t := TrimSpace(Lower(s));
    assert forall i :: 0 <= i < |t| ==> t[i] in Lower(s);
  }

  lemma NormalIsFixed(s: string)
    requires IsNormal(s)
    ensures Normalize(s) == s
  {
    assert Lower(s) == s;
    TrimSpaceIdentity(s);
  }

  /** Normalising is idempotent, and its fixed points are exactly the normal names. */
  lemma NormalizeIdempotent(s: string)
    ensures Normalize(Normalize(s)) == Normalize(s)
    ensures Normalize(s) == s <==> IsNormal(s)
  {
    NormalizeIsNormal(s);
    NormalIsFixed(Normalize(s));
    if IsNormal(s) {
      NormalIsFixed(s);
    }
  }

  lemma NormalizeKeepsBarFree(s: string)
    requires '|' !in s
    ensures '|' !in Normalize(s)
  {
    TrimSpaceShape(Lower(s));
  }

  /** What follows a common beginning decides the prefix relation. */
  lemma PrefixAfter(a: string, p: string, w: string)
    ensures a + p <= a + w <==> p <= w
  {
    if p <= w {
      assert a + w == (a + p) + w[|p|..];
    }
    if a + p <= a + w {
      assert forall i :: 0 <= i < |p| ==> p[i] == (a + p)[|a| + i] == (a + w)[|a| + i] == w[i];
    }
  }

  // ------------------------------------------- normal forms, said outright

  const CAPITALS: string := "ABCDEFGHIJKLMNOPQRSTUVWXYZ"
  const SMALL_LETTERS: string := "abcdefghijklmnopqrstuvwxyz"

  lemma Alphabets()
    ensures |CAPITALS| == |SMALL_LETTERS| == 26
    ensures forall i :: 0 <= i < 26 ==>
              CAPITALS[i] as int == 'A' as int + i && SMALL_LETTERS[i] as int == 'a' as int + i
  {
  }

  /** l is c, or the small letter in the place of the capital c. */
  ghost predicate IsLowerOf(l: char, c: char) {
    if c in CAPITALS then
      exists i :: 0 <= i < |CAPITALS| && CAPITALS[i] == c && i < |SMALL_LETTERS| && SMALL_LETTERS[i] == l
    else l == c
  }

  lemma LowerCharExactly(l: char, c: char)
    ensures LowerChar(c) == l <==> IsLowerOf(l, c)
  {
    Alphabets();
    hide CAPITALS, SMALL_LETTERS;
    if 'A' <= c <= 'Z' {
      var i := c as int - 'A' as int;
      assert CAPITALS[i] == c;
      assert SMALL_LETTERS[i] == LowerChar(c);
    }
  }

  ghost predicate SameLetter(x: char, y: char) {
    exists l :: IsLowerOf(l, x) && IsLowerOf(l, y)
  }

  lemma SameLetterExactly(x: char, y: char)
    ensures SameLetter(x, y) <==> LowerChar(x) == LowerChar(y)
  {
    forall l, c { LowerCharExactly(l, c); }
    hide IsLowerOf, LowerChar;
    assert IsLowerOf(LowerChar(x), x);
  }

  /** Letter by letter the same, capitals and small letters not told apart. */
  ghost predicate SameUpToCase(a: string, b: string) {
    |a| == |b| && forall i :: 0 <= i < |a| ==> SameLetter(a[i], b[i])
  }

  lemma SameLower(a: string, b: string)
    ensures Lower(a) == Lower(b) <==> SameUpToCase(a, b)
  {
    hide SameLetter, LowerChar;
    var la, lb := Lower(a), Lower(b);
    assert |la| == |a| && |lb| == |b|;
    assert forall i :: 0 <= i < |a| ==> la[i] == LowerChar(a[i]);
    assert forall i :: 0 <= i < |b| ==> lb[i] == LowerChar(b[i]);
    forall x, y { SameLetterExactly(x, y); }
  }

  /** The white space of ASCII: space, tab, line feed, vertical tab, form feed, carriage return. */
  const BLANKS: string := " \t\n\U{000B}\U{000C}\r"

  lemma SpaceExactly(c: char)
    ensures IsSpace(c) <==> c in BLANKS
  {
    assert BLANKS == [' ', 9 as char, 10 as char, 11 as char, 12 as char, 13 as char];
  }

  /** mid is s without the blanks at both ends. */
  ghost predicate Trims(s: string, left: string, mid: string, right: string) {
    && s == left + mid + right
    && (forall c :: c in left || c in right ==> c in BLANKS)
    && (mid != "" ==> mid[0] !in BLANKS && mid[|mid| - 1] !in BLANKS)
  }

  lemma TrimsExactly(s: string, left: string, mid: string, right: string)
    ensures Trims(s, left, mid, right) <==>
            s == left + mid + right && AllSpace(left) && AllSpace(right) && NoEdgeSpace(mid)
  {
    forall c { SpaceExactly(c); }
    hide BLANKS, IsSpace;
  }

  ghost predicate IsTrimOf(t: string, s: string) {
    exists left, right :: Trims(s, left, t, right)
  }

  lemma {:induction false} TrimLeftSkips(left: string, rest: string)
    requires AllSpace(left)
    ensures TrimLeft(left + rest) == TrimLeft(rest)
  {
    if left == "" {
      assert left + rest == rest;
    } else {
      assert left[0] in left && (left + rest)[1..] == left[1..] + rest;
      TrimLeftSkips(left[1..], rest);
    }
  }

  lemma {:induction false} TrimRightSkips(rest: string, right: string)
    requires AllSpace(right)
    ensures TrimRight(rest + right) == TrimRight(rest)
  {
    if right == "" {
      assert rest + right == rest;
    } else {
      var n := |right| - 1;
      assert right[n] in right && (rest + right)[..|rest| + n] == rest + right[..n];
      TrimRightSkips(rest, right[..n]);
    }
  }

  lemma TrimSpaceExactly(s: string, t: string)
    ensures TrimSpace(s) == t <==> IsTrimOf(t, s)
  {
    if TrimSpace(s) == t {
      TrimSpaceShape(s);
      hide TrimLeft, TrimRight;
      var left := TrimLeftSplit(s);
      var right := TrimRightSplit(TrimLeft(s));
      assert left + (t + right) == left + t + right;
      TrimsExactly(s, left, t, right);
      assert Trims(s, left, t, right);
    }
    if left, right :| Trims(s, left, t, right) {
      TrimmedIsTrim(s, left, t, right);
    }
  }

  lemma TrimmedIsTrim(s: string, left: string, t: string, right: string)
    requires Trims(s, left, t, right)
    ensures TrimSpace(s) == t
  {
    TrimsExactly(s, left, t, right);
    hide Trims;
    assert left + t + right == left + (t + right);
    TrimLeftSkips(left, t + right);
    if t == "" {
      assert t + right == right + "";
      TrimLeftSkips(right, "");
    } else {
      assert (t + right)[0] == t[0];
      TrimRightSkips(t, right);
    }
  }

  /** n is t in small letters, with a final dot if t has none. */
  ghost predicate IsLowerFqdnOf(n: string, t: string) {
    && (forall i :: 0 <= i < |t| && i < |n| ==> IsLowerOf(n[i], t[i]))
    && if t != [] && t[|t| - 1] == '.' then |n| == |t| else |n| == |t| + 1 && n[|t|] == '.'
  }

  lemma LowerFqdnExactly(n: string, t: string)
    ensures Fqdn(Lower(t)) == n <==> IsLowerFqdnOf(n, t)
  {
    forall l, c { LowerCharExactly(l, c); }
    hide IsLowerOf;
    assert t != [] ==> (LowerChar(t[|t| - 1]) == '.' <==> t[|t| - 1] == '.');
    hide LowerChar;
    var low := Lower(t);
    assert forall i :: 0 <= i < |t| ==> low[i] == LowerChar(t[i]);
    if IsLowerFqdnOf(n, t) {
      assert forall i :: 0 <= i < |t| ==> n[i] == low[i];
      assert n == Fqdn(low);
    }
  }

  /** n is s without the blanks at its ends, in small letters, with a final dot. */
  ghost predicate IsNormalFormOf(n: string, s: string) {
    exists t :: IsTrimOf(t, s) && IsLowerFqdnOf(n, t)
  }

  /** Normalisation computes exactly the normal form. */
  lemma NormalizeExactly(s: string, n: string)
    ensures Normalize(s) == n <==> IsNormalFormOf(n, s)
  {
    NormalizationsAgree(s);
    TrimSpaceExactly(s, TrimSpace(s));
    LowerFqdnExactly(n, TrimSpace(s));
    assert Normalize(s) == Fqdn(Lower(TrimSpace(s)));
    hide IsTrimOf, IsLowerFqdnOf, Fqdn, Lower, TrimSpace, Normalize;
    if t :| IsTrimOf(t, s) && IsLowerFqdnOf(n, t) {
      TrimSpaceExactly(s, t);
    }
  }

  /** A normal name is its own normal form, and the only one. */
  lemma NormalNameStands(n: string, m: string)
    requires IsNormal(n)
    ensures IsNormalFormOf(m, n) <==> m == n
  {
    NormalizeExactly(n, m);
    NormalIsFixed(n);
  }
}
