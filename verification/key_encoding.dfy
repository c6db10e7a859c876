/**
 Record keys printed as one string, and the prefixes the stores search by.
 */
module KeyEncoding {
  import opened Names
  import opened Ordering
  import opened Records

  function Digit(n: nat): char
    requires n < 10
  {
    (n + 48) as char
  }

  /** "%05d": a uint16 always takes exactly five digits. */
  function FiveDigits(n: Uint16): string {
    var tens := n / 10;
    var hundreds := tens / 10;
    var thousands := hundreds / 10;
    [Digit(thousands / 10), Digit(thousands % 10), Digit(hundreds % 10), Digit(tens % 10), Digit(n % 10)]
  }

  function RowText(zone: string, name: string): string {
    zone + "|" + name + "|"
  }

  function KeyText(zone: string, name: string, rrtype: Uint16, fingerprint: string): string {
    RowText(zone, name) + FiveDigits(rrtype) + "|" + fingerprint
  }

  function RecordPrefix(zone: string, name: string, qtype: Uint16): string {
    if qtype == TYPE_ANY then RowText(zone, name) else RowText(zone, name) + FiveDigits(qtype) + "|"
  }

  predicate HasPrefix(s: string, prefix: string) {
    prefix <= s
  }

  function Row(k: RecordKey): string {
    RowText(k.zone, k.name)
  }

  function Encode(k: RecordKey): string {
    KeyText(k.zone, k.name, k.rrtype, k.fingerprint)
  }

  function RecordListPrefix(f: RecordFilter): string {
    if f.zone == "" then ""
    else if f.name == "" then f.zone + "|"
    else if f.rrtype == 0 then RecordPrefix(f.zone, f.name, TYPE_ANY)
    else RecordPrefix(f.zone, f.name, f.rrtype)
  }

  lemma FiveDigitsInjective(a: Uint16, b: Uint16)
    ensures FiveDigits(a) == FiveDigits(b) ==> a == b
  {
    if FiveDigits(a) == FiveDigits(b) {
      assert FiveDigits(a)[0] == FiveDigits(b)[0] && FiveDigits(a)[1] == FiveDigits(b)[1];
      assert FiveDigits(a)[2] == FiveDigits(b)[2] && FiveDigits(a)[3] == FiveDigits(b)[3];
      assert FiveDigits(a)[4] == FiveDigits(b)[4];
    }
  }

  /** The five characters are the decimal digits of the number. */
  lemma FiveDigitsExactly(n: Uint16)
    ensures var s := FiveDigits(n);
            && |s| == 5 && (forall c :: c in s ==> '0' <= c <= '9')
            && n == 10000 * (s[0] - '0') as int + 1000 * (s[1] - '0') as int + 100 * (s[2] - '0') as int
                    + 10 * (s[3] - '0') as int + (s[4] - '0') as int
  {
  }

  /** A separator-terminated field that starts a longer text is its first field. */
  lemma FirstField(a: string, c: string, rest: string)
    requires '|' !in a && '|' !in c
    ensures a + "|" <= c + "|" + rest <==> a == c
  {
    var whole := c + "|" + rest;
    if a + "|" <= whole {
      assert (a + "|")[|a|] == whole[|a|];
      assert forall i :: 0 <= i < |a| ==> a[i] == (a + "|")[i] == whole[i];
      assert |a| >= |c| && whole[|c|] == '|';
      assert |a| == |c|;
      assert forall i :: 0 <= i < |a| ==> whole[i] == c[i];
    }
  }

  /** Rows: the text of (zone, name) starts exactly the keys of that zone and name. */
  lemma RowPrefixExact(z: string, n: string, zone: string, name: string, rest: string)
    requires '|' !in z && '|' !in n && '|' !in zone && '|' !in name
    ensures RowText(z, n) <= RowText(zone, name) + rest <==> z == zone && n == name
  {
    var whole := RowText(zone, name) + rest;
    assert whole == zone + "|" + (name + "|" + rest);
    assert RowText(z, n) == (z + "|") + (n + "|");
    if RowText(z, n) <= whole {
      assert z + "|" <= whole;
      FirstField(z, zone, name + "|" + rest);
      PrefixAfter(z + "|", n + "|", name + "|" + rest);
      FirstField(n, name, rest);
    }
  }

  /**
   The lookup prefix of (zone, name, type) starts a key exactly when zone and
   name agree and the type agrees or any type was asked for.
   */
  lemma PrefixExact(z: string, n: string, t: Uint16, zone: string, name: string, rrtype: Uint16, fingerprint: string)
    requires '|' !in z && '|' !in n && '|' !in zone && '|' !in name
    ensures RecordPrefix(z, n, t) <= KeyText(zone, name, rrtype, fingerprint)
       <==> z == zone && n == name && (t == TYPE_ANY || t == rrtype)
  {
    var rest := FiveDigits(rrtype) + "|" + fingerprint;
    assert KeyText(zone, name, rrtype, fingerprint) == RowText(zone, name) + rest;
    RowPrefixExact(z, n, zone, name, rest);
    if t != TYPE_ANY {
      var p := FiveDigits(t) + "|";
      assert RecordPrefix(z, n, t) == RowText(z, n) + p;
      if z == zone && n == name {
        PrefixAfter(RowText(z, n), p, rest);
        assert p <= rest <==> FiveDigits(t) == FiveDigits(rrtype) by {
          assert p[..5] == FiveDigits(t) && rest[..5] == FiveDigits(rrtype) && rest[5] == '|';
          assert p == p[..5] + "|" && rest[..6] == rest[..5] + "|";
          assert p <= rest <==> p == rest[..6];
        }
        FiveDigitsInjective(t, rrtype);
      } else {
        assert RowText(z, n) <= RecordPrefix(z, n, t);
      }
    }
  }

  /** The exactness that every lookup by prefix relies on, for one stored key text. */
  ghost predicate PrefixesAreExact(zone: string, name: string, rrtype: Uint16, fingerprint: string) {
    forall z: BarFree, n: BarFree, t: Uint16 ::
      RecordPrefix(z, n, t) <= KeyText(zone, name, rrtype, fingerprint)
      <==> z == zone && n == name && (t == TYPE_ANY || t == rrtype)
  }

  /** Searching by prefix is exact for a key if and only if its zone and owner are free of the separator. */
  lemma ExactIffBarFree(zone: string, name: string, rrtype: Uint16, fingerprint: string)
    ensures PrefixesAreExact(zone, name, rrtype, fingerprint) <==> '|' !in zone && '|' !in name
  {
    if '|' !in zone && '|' !in name {
      forall z: BarFree, n: BarFree, t: Uint16
        ensures RecordPrefix(z, n, t) <= KeyText(zone, name, rrtype, fingerprint)
           <==> z == zone && n == name && (t == TYPE_ANY || t == rrtype)
      {
        PrefixExact(z, n, t, zone, name, rrtype, fingerprint);
      }
    } else {
      MisleadingPrefix(zone, name, rrtype, fingerprint);
    }
  }

  /** Cutting a text at its first two separators gives a prefix that names something else. */
  lemma MisleadingPrefix(zone: string, name: string, rrtype: Uint16, fingerprint: string)
    requires '|' in zone || '|' in name
    ensures exists z: BarFree, n: BarFree ::
      RecordPrefix(z, n, TYPE_ANY) <= KeyText(zone, name, rrtype, fingerprint) && (z != zone || n != name)
  {
    var text := KeyText(zone, name, rrtype, fingerprint);
    assert text[|zone|] == '|' && text[|zone| + 1 + |name|] == '|';
    var i := FirstBar(text);
    var after := text[i + 1..];
    assert after[|zone| + |name| - i] == '|';
    var j := FirstBar(after);
    var z: BarFree, n: BarFree := text[..i], after[..j];
    assert RowText(z, n) == text[..i + 1 + j + 1];
    assert RecordPrefix(z, n, TYPE_ANY) <= text;
  }

  lemma FirstBar(s: string) returns (i: nat)
    requires '|' in s
    ensures i < |s| && s[i] == '|' && '|' !in s[..i]
    ensures forall j :: 0 <= j < |s| && s[j] == '|' ==> i <= j
  {
    i := 0;
    while s[i] != '|'
      invariant i < |s| && '|' !in s[..i] && '|' in s[i..]
      decreases |s| - i
    {
      assert s[..i + 1] == s[..i] + [s[i]];
      assert s[i..] == [s[i]] + s[i + 1..];
      i := i + 1;
    }
  }

  /** A separator inside owners makes two different records print the same key text. */
  lemma SeparatorCausesClash(t: Uint16, fp: string)
    ensures var inner := "b.a.|a.|b.a."; var zone2 := "a.|b.a.";
            && IsSubDomain("a.", inner) && IsSubDomain(zone2, zone2)
            && KeyText("a.", inner, t, fp) == KeyText(zone2, zone2, t, fp)
  {
    assert "b.a.|a.|b.a."[10..] == "a.";
    assert RowText("a.", "b.a.|a.|b.a.") == RowText("a.|b.a.", "a.|b.a.");
  }

  /** Deleting a zone by the prefix "zone|" reaches exactly the rows of that zone. */
  lemma ZonePrefixExact(z: BarFree, zone: BarFree, rest: string)
    ensures z + "|" <= zone + "|" + rest <==> z == zone
  {
    FirstField(z, zone, rest);
  }

  /** A row is found by its text even when the asked name is a raw CNAME target. */
  lemma RowTextInjective(z: BarFree, n: string, k: RecordKey)
    ensures RowText(z, n) == Row(k) <==> z == k.zone && n == k.name
  {
    if RowText(z, n) == Row(k) {
      var asked, held := (z + "|") + (n + "|"), k.zone + "|" + (k.name + "|");
      assert asked == RowText(z, n) && held == Row(k);
      assert z + "|" <= held;
      FirstField(z, k.zone, k.name + "|");
      assert asked[|z| + 1..] == n + "|" && held[|z| + 1..] == k.name + "|";
      assert n == (n + "|")[..|n|] && k.name == (k.name + "|")[..|k.name|];
    }
  }

  /** The same for the prefix scan, given that owners end in a dot and digits do not. */
  lemma LookupPrefixExact(z: BarFree, n: string, t: Uint16, k: RecordKey)
    requires IsFqdn(n) && IsHex(k.fingerprint)
    ensures RecordPrefix(z, n, t) <= Encode(k) <==> z == k.zone && n == k.name && (t == TYPE_ANY || t == k.rrtype)
  {
    if '|' !in n {
      PrefixExact(z, n, t, k.zone, k.name, k.rrtype, k.fingerprint);
    } else {
      var rest := FiveDigits(k.rrtype) + "|" + k.fingerprint;
      var held := k.zone + "|" + (k.name + "|" + rest);
      assert Encode(k) == held;
      assert RowText(z, n) == (z + "|") + (n + "|");
      if RecordPrefix(z, n, t) <= held {
        assert RowText(z, n) <= held;
        assert z + "|" <= held;
        FirstField(z, k.zone, k.name + "|" + rest);
        PrefixAfter(z + "|", n + "|", k.name + "|" + rest);
        DottedFieldHasNoBar(n, k.name, rest);
      }
    }
  }

  lemma DottedFieldHasNoBar(n: string, name: BarFree, rest: string)
    requires IsFqdn(n) && n + "|" <= name + "|" + rest
    requires '.' !in rest
    ensures '|' !in n
  {
    var whole := name + "|" + rest;
    assert n[|n| - 1] == (n + "|")[|n| - 1] == whole[|n| - 1];
    assert |n| - 1 < |name| by {
      assert forall i :: |name| < i < |whole| ==> whole[i] == rest[i - |name| - 1];
      assert whole[|name|] == '|';
    }
    assert n == whole[..|n|] == name[..|n|];
  }

  /** The printed key determines every field of the key. */
  lemma EncodeInjective(a: RecordKey, b: RecordKey)
    ensures Encode(a) == Encode(b) ==> a == b
  {
    if Encode(a) == Encode(b) {
      assert RecordPrefix(a.zone, a.name, a.rrtype) <= Encode(a) && RowText(a.zone, a.name) <= Encode(a);
      PrefixExact(a.zone, a.name, TYPE_ANY, b.zone, b.name, b.rrtype, b.fingerprint);
      var row := Row(a);
      assert Encode(a) == row + (FiveDigits(a.rrtype) + "|" + a.fingerprint);
      assert Encode(b) == row + (FiveDigits(b.rrtype) + "|" + b.fingerprint);
      var ra, rb := FiveDigits(a.rrtype) + "|" + a.fingerprint, FiveDigits(b.rrtype) + "|" + b.fingerprint;
      assert ra == Encode(a)[|row|..] && rb == Encode(b)[|row|..];
      assert ra[..5] == FiveDigits(a.rrtype) && rb[..5] == FiveDigits(b.rrtype);
      assert ra[6..] == a.fingerprint && rb[6..] == b.fingerprint;
      FiveDigitsInjective(a.rrtype, b.rrtype);
    }
  }
}
