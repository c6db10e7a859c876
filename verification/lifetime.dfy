/**
 How long a reply may be cached, given the TTLs of its records in order. The
 running minimum starts over at a zero, so only the TTLs after the last zero count.
 */
module Lifetimes {
  import opened Records

  /** time.Duration: int64 nanoseconds. */
  type Duration = d: int | -0x8000_0000_0000_0000 <= d < 0x8000_0000_0000_0000
  const SECOND: Duration := 1_000_000_000

  function TTLs(records: seq<Record>): seq<Uint32> {
    seq(|records|, i requires 0 <= i < |records| => records[i].ttl)
  }

  lemma TTLsExactly(records: seq<Record>)
    ensures forall t :: t in TTLs(records) <==> exists r :: r in records && r.ttl == t
    ensures forall r :: r in records ==> r.ttl in TTLs(records)
  {
    var ttls := TTLs(records);
    assert forall i :: 0 <= i < |records| ==> ttls[i] == records[i].ttl;
  }

  ghost function AfterLastZero(ttls: seq<Uint32>): seq<Uint32> {
    if 0 in ttls then AfterLastZero(ttls[1..]) else ttls
  }

  /** The negative lifetime if no TTL counts, otherwise the least of the counting ones and the maximum. */
  ghost predicate IsLifetime(ttls: seq<Uint32>, maximum: Duration, negative: Duration, life: Duration) {
    var counting := AfterLastZero(ttls);
    if counting == [] then life == negative
    else
      && life <= maximum && (forall t :: t in counting ==> life <= t * SECOND)
      && (life == maximum || exists t :: t in counting && life == t * SECOND)
  }

  /** No counted or uncounted TTL other than zero is exceeded. */
  ghost predicate RespectsNonZero(ttls: seq<Uint32>, life: Duration) {
    forall t :: t in ttls && t != 0 ==> life <= t * SECOND
  }

  lemma {:induction false} AfterLastZeroShape(ttls: seq<Uint32>)
    ensures exists k :: 0 <= k <= |ttls| && AfterLastZero(ttls) == ttls[k..] && (k > 0 ==> ttls[k - 1] == 0)
    ensures 0 !in AfterLastZero(ttls)
  {
    if 0 in ttls {
      AfterLastZeroShape(ttls[1..]);
      var k :| 0 <= k <= |ttls[1..]| && AfterLastZero(ttls[1..]) == ttls[1..][k..] && (k > 0 ==> ttls[1..][k - 1] == 0);
      assert ttls[1..][k..] == ttls[k + 1..];
      assert k == 0 ==> 0 !in ttls[1..];
    } else {
      assert ttls[0..] == ttls;
    }
  }

  lemma {:induction false} AfterLastZeroSnoc(ttls: seq<Uint32>, t: Uint32)
    ensures AfterLastZero(ttls + [t]) == if t == 0 then [] else AfterLastZero(ttls) + [t]
  {
    if ttls == [] {
      assert ttls + [t] == [t] && [t][1..] == [];
      assert AfterLastZero([]) == [] && [] + [t] == [t];
    } else {
      AfterLastZeroSnoc(ttls[1..], t);
      assert (ttls + [t])[1..] == ttls[1..] + [t];
      assert 0 in ttls + [t] <==> 0 in ttls || t == 0;
      if t == 0 {
        assert AfterLastZero(ttls + [t]) == AfterLastZero(ttls[1..] + [t]);
      }
    }
  }

  /** A cached reply outlives none of its records if and only if no TTL is zero. */
  lemma OutlivesNoneExactly(ttls: seq<Uint32>, maximum: Duration, negative: Duration, life: Duration)
    requires maximum > 0 && negative > 0 && IsLifetime(ttls, maximum, negative, life)
    ensures (forall t :: t in ttls ==> life <= t * SECOND) <==> 0 !in ttls
  {
    AfterLastZeroShape(ttls);
  }

  /** The TTLs that the last zero hides. */
  ghost function Hidden(ttls: seq<Uint32>): seq<Uint32> {
    AfterLastZeroShape(ttls);
    ttls[..|ttls| - |AfterLastZero(ttls)|]
  }

  /**
   The records with a TTL are respected if and only if those that the last zero
   hides are; a zero at the end hides all of them behind the negative lifetime.
   */
  lemma NonZeroRespectedExactly(ttls: seq<Uint32>, maximum: Duration, negative: Duration, life: Duration)
    requires IsLifetime(ttls, maximum, negative, life)
    ensures RespectsNonZero(ttls, life) <==> RespectsNonZero(Hidden(ttls), life)
    ensures 0 !in ttls ==> Hidden(ttls) == []
  {
    AfterLastZeroShape(ttls);
    var counting := AfterLastZero(ttls);
    assert ttls == Hidden(ttls) + counting;
    assert forall t :: t in ttls <==> t in Hidden(ttls) || t in counting;
  }

  /** A shorter TTL in front of a zero is forgotten. */
  lemma ZeroHidesShorter(short: Uint32, long: Uint32, maximum: Duration, negative: Duration, life: Duration)
    requires 0 < short < long && short * SECOND < maximum && IsLifetime([short, 0, long], maximum, negative, life)
    ensures short * SECOND < life && !RespectsNonZero([short, 0, long], life)
  {
    var ttls := [short, 0, long];
    AfterLastZeroSnoc([short], 0);
    AfterLastZeroSnoc([short, 0], long);
    assert ttls == [short] + [0] + [long] && [short] + [0] == [short, 0];
    assert ttls[0] == short && short in [short, 0, long];
  }
}
