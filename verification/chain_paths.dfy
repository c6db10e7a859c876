/**
 CNAME chains seen from the store alone: which alias paths it holds, and that
 the bounded walk answers exactly those it has time to follow.
 */
module ChainPaths {
  import opened Names
  import opened Ordering
  import opened Records
  import opened Database
  import opened Validation
  import opened Authority
  import opened AuthorityTheorems

  /** The record belongs to the zone and class that the query asks about. */
  ghost predicate Visible(db: Db, q: Query, r: Record) {
    Stored(db, r) && r.zone == q.zone && (q.qclass == CLASS_ANY || r.cls == q.qclass)
  }

  /** Nothing is left to follow: the target is outside the zone, has the data, or has no alias. */
  ghost predicate Ended(db: Db, q: Query, target: string) {
    !IsSubDomain(q.zone, target) || At(db, q, target, q.qtype) != [] || Cnames(db, q, target) == []
  }

  /** An alias path of stored records from the query name to a target where it ends. */
  ghost predicate IsEndedPath(db: Db, q: Query, path: seq<Record>, target: string) {
    && IsAliasPath(q, path)
    && (forall r :: r in path ==> Visible(db, q, r))
    && LeadsTo(path[|path| - 1], target) && Ended(db, q, target)
  }

  /** Finding out that a target has no data takes one more iteration than finding data or leaving the zone. */
  ghost predicate EndsWithoutData(db: Db, q: Query, target: string) {
    IsSubDomain(q.zone, target) && At(db, q, target, q.qtype) == []
  }

  ghost function Iterations(db: Db, q: Query, path: seq<Record>, target: string): nat {
    if EndsWithoutData(db, q, target) then |path| + 1 else |path|
  }

  /** An ended path that the loop can follow within its bound. */
  ghost predicate Fits(db: Db, q: Query, path: seq<Record>, target: string, bound: nat) {
    IsEndedPath(db, q, path, target) && Iterations(db, q, path, target) <= bound
  }

  ghost function PathData(db: Db, q: Query, target: string): seq<Record> {
    if IsSubDomain(q.zone, target) then At(db, q, target, q.qtype) else []
  }

  /** An alias query that the chain loop is asked to answer, in a weakly valid zone. */
  ghost predicate AliasQuery(db: Db, q: Query) {
    && WellFormed(db) && InZone(q) && CnameAlone(ZoneKeys(db, q.zone))
    && AskedClass(q) && q.qtype != TYPE_CNAME && q.qtype != TYPE_ANY && Cnames(db, q, q.name) != []
  }

  // ------------------------------------------------------ from paths to walks

  lemma VisibleCname(db: Db, q: Query, r: Record)
    requires WellFormed(db) && CnameAlone(ZoneKeys(db, q.zone)) && Visible(db, q, r) && r.rrtype == TYPE_CNAME
    ensures Cnames(db, q, r.name) == [r] && forall target :: LeadsTo(r, target) ==> Target(db, q, r.name) == target
  {
    forall target { CnameExactly(r, target); }
    hide LeadsTo;
    FoundMember(db, q.zone, r.name, TYPE_CNAME, q.qclass, r);
    SingleCname(db, q, r.name);
  }

  /** An owner with an alias has no data of any other type. */
  lemma AliasHasNoData(db: Db, q: Query, r: Record)
    requires WellFormed(db) && CnameAlone(ZoneKeys(db, q.zone)) && Visible(db, q, r) && r.rrtype == TYPE_CNAME
    requires q.qtype != TYPE_CNAME && q.qtype != TYPE_ANY
    ensures At(db, q, r.name, q.qtype) == []
  {
    FoundEmpty(db, q.zone, r.name, q.qtype, q.qclass);
    NameAndTypeInKey(r);
    hide Record.Key;
    var ks := RRsetKeys(db, q.zone, r.name, q.qtype, q.qclass);
    forall k | k in ks ensures k in ZoneKeys(db, q.zone) && k.name == r.name && k.rrtype == q.qtype {
      NameAndTypeInKey(db.records[k]);
    }
    assert r.Key() in ZoneKeys(db, q.zone);
    assert ks == {};
  }

  /** An alias at the name leaves no exact match, so the chain decides. */
  lemma AliasGoesToChain(db: Db, q: Query, bound: nat)
    requires AliasQuery(db, q)
    ensures ResolveAuthoritative(db, q, bound) == ChainReply(db, q, bound)
  {
    var r := Cnames(db, q, q.name)[0];
    assert r in Cnames(db, q, q.name);
    FoundMember(db, q.zone, q.name, TYPE_CNAME, q.qclass, r);
    AliasHasNoData(db, q, r);
    hide Found, ChainReply, WellFormed, CnameAlone;
  }

  /** The walk passes along the path. */
  lemma {:induction false} WalkFollowsPath(db: Db, q: Query, path: seq<Record>, target: string, i: nat)
    requires AliasQuery(db, q) && IsEndedPath(db, q, path, target) && i < |path|
    ensures HopsUntil(db, q, i) && Walk(db, q, i) == path[i].name
  {
    hide WellFormed, InZone, CnameAlone, Cnames, At, Visible, LeadsTo, Target, Walk, Ended, IsSubDomain;
    WalkStart(db, q);
    if i > 0 {
      WalkFollowsPath(db, q, path, target, i - 1);
      PathHops(db, q, path, target, i - 1);
      WalkStep(db, q, i - 1);
    }
  }

  lemma PathHops(db: Db, q: Query, path: seq<Record>, target: string, i: nat)
    requires AliasQuery(db, q) && IsEndedPath(db, q, path, target) && i + 1 < |path|
    ensures Hops(db, q, path[i].name) && Target(db, q, path[i].name) == path[i + 1].name
  {
    hide WellFormed, CnameAlone, Cnames, At, Visible, LeadsTo, Target, Ended, IsSubDomain;
    assert path[i] in path && path[i + 1] in path;
    VisibleCname(db, q, path[i]);
    VisibleCname(db, q, path[i + 1]);
    AliasHasNoData(db, q, path[i + 1]);
    TargetFacts(db, q, path[i].name);
  }

  lemma {:induction false} TrailIsPath(db: Db, q: Query, path: seq<Record>, target: string, n: nat)
    requires AliasQuery(db, q) && IsEndedPath(db, q, path, target) && n <= |path|
    ensures Trail(db, q, n) == path[..n]
  {
    hide WellFormed, InZone, CnameAlone, Cnames, Visible, LeadsTo, Target, Walk, Ended, IsSubDomain;
    if n > 0 {
      TrailIsPath(db, q, path, target, n - 1);
      WalkFollowsPath(db, q, path, target, n - 1);
      assert path[n - 1] in path;
      VisibleCname(db, q, path[n - 1]);
      assert path[..n] == path[..n - 1] + [path[n - 1]];
    }
  }

  /** The walk ends where the path ends, after as many iterations as the ending needs. */
  lemma WalkEndsWithPath(db: Db, q: Query, path: seq<Record>, target: string)
    requires AliasQuery(db, q) && IsEndedPath(db, q, path, target)
    ensures var k := Iterations(db, q, path, target) - 1;
            && EndsAt(db, q, k) && Aliases(db, q, k) == |path|
            && Target(db, q, Walk(db, q, |path| - 1)) == target
  {
    hide WellFormed, InZone, CnameAlone, Cnames, At, Visible, Record.CNAME, Target, Walk, IsSubDomain, LeadsTo;
    var n := |path|;
    assert path[n - 1] in path;
    WalkFollowsPath(db, q, path, target, n - 1);
    VisibleCname(db, q, path[n - 1]);
    TargetFacts(db, q, path[n - 1].name);
    TargetFacts(db, q, target);
    if EndsWithoutData(db, q, target) {
      WalkStep(db, q, n - 1);
    }
  }

  /** Every ended path that fits the bound is the answer, followed by the data at its end. */
  lemma EndedPathIsAnswered(db: Db, q: Query, bound: nat, path: seq<Record>, target: string)
    requires AliasQuery(db, q) && Fits(db, q, path, target, bound)
    ensures var reply := ResolveAuthoritative(db, q, bound);
            && reply.rcode == RCODE_SUCCESS && reply.authoritative && reply.answer == path + PathData(db, q, target)
            && reply.authority == if EndsWithoutData(db, q, target) then SOA(db, q) else []
  {
    hide WellFormed, InZone, CnameAlone, Cnames, At, Visible, Record.CNAME, Target, Walk, IsSubDomain, EndsAt,
      ChainReply, EndReply, SOA, Trail, Aliases, EndData, ResolveAuthoritative, LeadsTo;
    var k := Iterations(db, q, path, target) - 1;
    AliasGoesToChain(db, q, bound);
    WalkEndsWithPath(db, q, path, target);
    ChainReplyAt(db, q, bound, k);
    EndReplyShape(db, q, k);
    LastTargetEnds(db, q, k);
    TrailIsPath(db, q, path, target, |path|);
    assert path[..|path|] == path;
  }

  // ------------------------------------------------------ from walks to paths

  lemma {:induction false} TrailVisible(db: Db, q: Query, k: nat, r: Record)
    requires WellFormed(db) && r in Trail(db, q, k)
    ensures Visible(db, q, r)
  {
    hide WellFormed, Walk, Found, Visible;
    if r in Trail(db, q, k - 1) {
      TrailVisible(db, q, k - 1, r);
    } else {
      FoundMember(db, q.zone, Walk(db, q, k - 1), TYPE_CNAME, q.qclass, r);
      SeenIsVisible(db, q, Walk(db, q, k - 1), r);
    }
  }

  lemma SeenIsVisible(db: Db, q: Query, owner: string, r: Record)
    requires Stored(db, r) && InRRset(r, q.zone, owner, TYPE_CNAME, q.qclass)
    ensures Visible(db, q, r)
  {
    hide Record.Key;
  }

  /** A walk that ends within the bound is an ended path of the store that fits it. */
  lemma EndedWalkIsPath(db: Db, q: Query, bound: nat, k: nat) returns (path: seq<Record>, target: string)
    requires AliasQuery(db, q) && EndsAt(db, q, k) && k < bound
    ensures Fits(db, q, path, target, bound)
  {
    hide WellFormed, InZone, CnameAlone, Cnames, At, Visible, Record.CNAME, Target, Walk, IsSubDomain, EndsAt,
      Trail, SOA, LeadsTo;
    var n := Aliases(db, q, k);
    AliasOwners(db, q, k);
    AliasPathFromWalk(db, q, k, n);
    forall r | r in Trail(db, q, n) ensures Visible(db, q, r) { TrailVisible(db, q, n, r); }
    EndingKind(db, q, k);
    path, target := Trail(db, q, n), Target(db, q, Walk(db, q, n - 1));
  }

  lemma EndingKind(db: Db, q: Query, k: nat)
    requires EndsAt(db, q, k) && Aliases(db, q, k) > 0 && q.qtype != TYPE_CNAME
    ensures var last := Target(db, q, Walk(db, q, Aliases(db, q, k) - 1));
            Ended(db, q, last) && (EndsWithoutData(db, q, last) <==> Aliases(db, q, k) == k)
  {
    hide At, IsSubDomain, Cnames, Target, Walk;
    var owner := Walk(db, q, k);
    TargetFacts(db, q, owner);
    if Cnames(db, q, owner) == [] {
      NextOwner(db, q, k, k);
      assert Hops(db, q, Walk(db, q, k - 1));
    }
  }

  /**
   The server fails exactly when the store holds no ended path from the query
   name that the bound allows: the aliases run in a circle, or on for too long.
   */
  lemma FailsExactlyWithoutPath(db: Db, q: Query, bound: nat)
    requires AliasQuery(db, q)
    ensures ResolveAuthoritative(db, q, bound).rcode == RCODE_SERVER_FAILURE
       <==> !exists path, target :: Fits(db, q, path, target, bound)
  {
    assert RCODE_SUCCESS != RCODE_SERVER_FAILURE;
    hide *;
    AliasGoesToChain(db, q, bound);
    if path, target :| Fits(db, q, path, target, bound) {
      EndedPathIsAnswered(db, q, bound, path, target);
    } else {
      FailureCharacterisation(db, q, bound);
      if !HopsUntil(db, q, bound) {
        var k := FirstEnding(db, q, bound);
        var path, target := EndedWalkIsPath(db, q, bound, k);
      }
    }
  }
}
