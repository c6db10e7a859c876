/**
 What an authoritative answer is, as a function of the stored records: exact
 matches, CNAME chains, negative replies and the additional section.
 */
module Authority {
  import opened Names
  import opened Ordering
  import opened Records
  import opened Database

  const RCODE_SUCCESS: nat := 0
  const RCODE_FORMAT_ERROR: nat := 1
  const RCODE_SERVER_FAILURE: nat := 2
  const RCODE_NAME_ERROR: nat := 3
  const RCODE_NOT_IMPLEMENTED: nat := 4
  const RCODE_REFUSED: nat := 5

  /** A reply; a resource record is represented by the record it is printed from. */
  datatype Resolution = Resolution(
    rcode: nat, answer: seq<Record>, authority: seq<Record>, extra: seq<Record>, authoritative: bool)
  {
    predicate IsNegative() {
      rcode == RCODE_NAME_ERROR || (rcode == RCODE_SUCCESS && answer == [])
    }
  }

  const SERVER_FAILURE: Resolution := Resolution(RCODE_SERVER_FAILURE, [], [], [], true)
  const NOT_IMPLEMENTED: Resolution := Resolution(RCODE_NOT_IMPLEMENTED, [], [], [], true)
  const REFUSED: Resolution := Resolution(RCODE_REFUSED, [], [], [], false)
  const FORMAT_ERROR: Resolution := Resolution(RCODE_FORMAT_ERROR, [], [], [], false)

  datatype Question = Question(name: string, qtype: Uint16, qclass: Uint16) {
    /** The question inside one zone. */
    function In(zone: BarFree): Query {
      Query(zone, name, qtype, qclass)
    }
  }

  /** A question inside one zone. */
  datatype Query = Query(zone: BarFree, name: string, qtype: Uint16, qclass: Uint16)

  ghost predicate InZone(q: Query) {
    IsNormalZone(q.zone) && IsNormal(q.name) && IsSubDomain(q.zone, q.name)
  }

  ghost function At(db: Db, q: Query, owner: string, qtype: Uint16): seq<Record> {
    Found(db, q.zone, owner, qtype, q.qclass)
  }

  // ------------------------------------------------------ additional section

  /** First occurrences of what has not been seen yet, in order. */
  function Fresh<T(==)>(xs: seq<T>, seen: set<T>): seq<T> {
    if xs == [] then []
    else if xs[0] in seen then Fresh(xs[1..], seen)
    else [xs[0]] + Fresh(xs[1..], seen + {xs[0]})
  }

  /** The text after the last space, which holds the host of MX and SRV data. */
  function LastField(s: string): string {
    if s == [] || s[|s| - 1] == ' ' then "" else LastField(s[..|s| - 1]) + [s[|s| - 1]]
  }

  function AdditionalTarget(r: Record): string {
    if r.rrtype == TYPE_CNAME || r.rrtype == TYPE_NS then r.data
    else if r.rrtype == TYPE_MX || r.rrtype == TYPE_SRV then LastField(r.data)
    else ""
  }

  function NormalizeAdditionalTarget(target: string): string {
    var normalized := NormalizeQuestion(target);
    if normalized == "." then "" else normalized
  }

  /** The in-zone host that an answer record points at, if any. */
  function PointsAt(zone: string, r: Record): Option<string> {
    var target := NormalizeAdditionalTarget(AdditionalTarget(r));
    if target == "" || !IsSubDomain(zone, target) then None else Some(target)
  }

  function PointedAt(zone: string, answer: seq<Record>): seq<string> {
    if answer == [] then []
    else (match PointsAt(zone, answer[0]) case None => [] case Some(t) => [t]) + PointedAt(zone, answer[1..])
  }

  function AdditionalTargets(zone: string, answer: seq<Record>): seq<string> {
    Fresh(PointedAt(zone, answer), {})
  }

  ghost function Addresses(db: Db, q: Query, target: string): seq<Record> {
    At(db, q, target, TYPE_A) + At(db, q, target, TYPE_AAAA)
  }

  ghost function AllAddresses(db: Db, q: Query, targets: seq<string>): seq<Record> {
    if targets == [] then [] else Addresses(db, q, targets[0]) + AllAddresses(db, q, targets[1..])
  }

  ghost function Additional(db: Db, q: Query, answer: seq<Record>): seq<Record> {
    Fresh(AllAddresses(db, q, AdditionalTargets(q.zone, answer)), Elems(answer))
  }

  // ----------------------------------------------------------------- replies

  ghost function SOA(db: Db, q: Query): seq<Record> {
    At(db, q, q.zone, TYPE_SOA)
  }

  ghost function Answered(db: Db, q: Query, answer: seq<Record>): Resolution {
    Resolution(RCODE_SUCCESS, answer, [], Additional(db, q, answer), true)
  }

  ghost function Negative(db: Db, q: Query): Resolution {
    Resolution(if At(db, q, q.name, TYPE_ANY) == [] then RCODE_NAME_ERROR else RCODE_SUCCESS,
               [], SOA(db, q), [], true)
  }

  ghost function NoData(db: Db, q: Query, answer: seq<Record>): Resolution {
    Resolution(RCODE_SUCCESS, answer, SOA(db, q), Additional(db, q, answer), true)
  }

  // ------------------------------------------------------------- CNAME walks

  ghost function Cnames(db: Db, q: Query, owner: string): seq<Record> {
    At(db, q, owner, TYPE_CNAME)
  }

  /** Where the CNAME at an owner leads, empty when there is none. */
  ghost function Target(db: Db, q: Query, owner: string): string {
    var cnames := Cnames(db, q, owner);
    if cnames == [] then "" else cnames[|cnames| - 1].CNAME()
  }

  /** The target stays in the zone and may be looked at. */
  ghost predicate Stays(db: Db, q: Query, owner: string) {
    var target := Target(db, q, owner);
    target != "" && q.qtype != TYPE_CNAME && IsSubDomain(q.zone, target)
  }

  /** The walk passes over an owner when its target is in the zone and has no data of the asked type. */
  ghost predicate Hops(db: Db, q: Query, owner: string) {
    Stays(db, q, owner) && At(db, q, Target(db, q, owner), q.qtype) == []
  }

  /** The owner reached after k hops from the query name, standing still at an ending. */
  ghost function Walk(db: Db, q: Query, k: nat): string {
    if k == 0 then q.name
    else
      var owner := Walk(db, q, k - 1);
      if Hops(db, q, owner) then Target(db, q, owner) else owner
  }

  ghost predicate HopsUntil(db: Db, q: Query, k: nat) {
    forall i :: 0 <= i < k ==> Hops(db, q, Walk(db, q, i))
  }

  /** The walk ends at its k-th owner. */
  ghost predicate EndsAt(db: Db, q: Query, k: nat) {
    HopsUntil(db, q, k) && !Hops(db, q, Walk(db, q, k))
  }

  /** The CNAME records of the first k owners. */
  ghost function Trail(db: Db, q: Query, k: nat): seq<Record> {
    if k == 0 then [] else Trail(db, q, k - 1) + Cnames(db, q, Walk(db, q, k - 1))
  }

  /** The reply for a walk that ends at its k-th owner. */
  ghost function EndReply(db: Db, q: Query, k: nat): Resolution {
    var owner := Walk(db, q, k);
    if Cnames(db, q, owner) == [] then
      (if k == 0 then Negative(db, q) else NoData(db, q, Trail(db, q, k)))
    else if Stays(db, q, owner) then
      Answered(db, q, Trail(db, q, k + 1) + At(db, q, Target(db, q, owner), q.qtype))
    else
      Answered(db, q, Trail(db, q, k + 1))
  }

  /** The reply of a bounded walk: that of its ending, or a failure if none lies within the bound. */
  ghost function ChainReply(db: Db, q: Query, bound: nat): Resolution {
    if k: nat :| k < bound && EndsAt(db, q, k) then EndReply(db, q, k) else SERVER_FAILURE
  }

  ghost function ResolveAuthoritative(db: Db, q: Query, bound: nat): Resolution {
    if q.qclass != CLASS_INET && q.qclass != CLASS_ANY then NOT_IMPLEMENTED
    else
      var exact := At(db, q, q.name, q.qtype);
      if exact != [] then Answered(db, q, exact)
      else if q.qtype == TYPE_ANY then Negative(db, q)
      else ChainReply(db, q, bound)
  }

  // --------------------------------------------------------- walks that loop

  lemma EndUnique(db: Db, q: Query, j: nat, k: nat)
    requires EndsAt(db, q, j) && EndsAt(db, q, k)
    ensures j == k
  {
    hide Hops, Walk;
    assert j < k ==> Hops(db, q, Walk(db, q, j));
    assert k < j ==> Hops(db, q, Walk(db, q, k));
  }

  lemma ChainReplyAt(db: Db, q: Query, bound: nat, k: nat)
    requires k < bound && EndsAt(db, q, k)
    ensures ChainReply(db, q, bound) == EndReply(db, q, k)
  {
    forall j: nat | EndsAt(db, q, j) ensures j == k { EndUnique(db, q, j, k); }
  }

  lemma WalkStep(db: Db, q: Query, i: nat)
    ensures Hops(db, q, Walk(db, q, i)) ==> Walk(db, q, i + 1) == Target(db, q, Walk(db, q, i))
  {
    hide Hops, Target;
  }

  lemma {:induction false} WalkShift(db: Db, q: Query, i: nat, j: nat, d: nat)
    requires Walk(db, q, i) == Walk(db, q, j)
    ensures Walk(db, q, i + d) == Walk(db, q, j + d)
  {
    hide Hops, Target;
    if d > 0 {
      WalkShift(db, q, i, j, d - 1);
    }
  }

  /** A walk that comes back to an owner it has passed never ends. */
  lemma {:induction false} ReentryNeverEnds(db: Db, q: Query, i: nat, j: nat, k: nat)
    requires i < j && Walk(db, q, i) == Walk(db, q, j) && HopsUntil(db, q, j)
    ensures HopsUntil(db, q, k)
  {
    hide Hops, Walk;
    if k > j {
      ReentryNeverEnds(db, q, i, j, k - 1);
      WalkShift(db, q, i, j, k - 1 - j);
      assert Walk(db, q, k - 1) == Walk(db, q, i + (k - 1 - j));
    }
  }

  /** Up to its ending a walk visits pairwise distinct owners. */
  lemma EndedWalkIsSimple(db: Db, q: Query, k: nat, i: nat, j: nat)
    requires EndsAt(db, q, k) && i < j <= k
    ensures Walk(db, q, i) != Walk(db, q, j)
  {
    if Walk(db, q, i) == Walk(db, q, j) {
      ReentryNeverEnds(db, q, i, j, k + 1);
      assert false;
    }
  }

  /**
   The server fails exactly when none of the first `bound` owners is an ending;
   coming back to an earlier owner is one way for that to happen.
   */
  lemma FailureCharacterisation(db: Db, q: Query, bound: nat)
    ensures ChainReply(db, q, bound).rcode == RCODE_SERVER_FAILURE <==> HopsUntil(db, q, bound)
    ensures (exists i: nat, j: nat :: i < j && Walk(db, q, i) == Walk(db, q, j) && HopsUntil(db, q, j))
            ==> ChainReply(db, q, bound) == SERVER_FAILURE
  {
    if !HopsUntil(db, q, bound) {
      var k := FirstEnding(db, q, bound);
      ChainReplyAt(db, q, bound, k);
    }
    if i: nat, j: nat :| i < j && Walk(db, q, i) == Walk(db, q, j) && HopsUntil(db, q, j) {
      ReentryNeverEnds(db, q, i, j, bound);
    }
  }

  lemma {:induction false} FirstEnding(db: Db, q: Query, bound: nat) returns (k: nat)
    requires !HopsUntil(db, q, bound)
    ensures k < bound && EndsAt(db, q, k)
  {
    hide Hops, Walk;
    if HopsUntil(db, q, bound - 1) {
      k := bound - 1;
    } else {
      k := FirstEnding(db, q, bound - 1);
    }
  }

  lemma TargetFacts(db: Db, q: Query, owner: string)
    ensures Cnames(db, q, owner) == [] <==> Target(db, q, owner) == ""
    ensures Target(db, q, owner) != "" ==> IsNormal(Target(db, q, owner))
  {
    var cnames := Cnames(db, q, owner);
    if cnames != [] {
      ByDataTotal();
      var last := cnames[|cnames| - 1];
      ListingMember(RRset(db, q.zone, owner, TYPE_CNAME, q.qclass), ByData, last);
      NormalizeIsNormal(last.data);
    }
  }

  /** Every owner on the walk is a normal name inside the zone. */
  lemma {:induction false} WalkStaysInZone(db: Db, q: Query, k: nat)
    requires InZone(q)
    ensures InZone(q.(name := Walk(db, q, k)))
  {
    if k > 0 {
      WalkStaysInZone(db, q, k - 1);
      TargetFacts(db, q, Walk(db, q, k - 1));
    }
  }
}
