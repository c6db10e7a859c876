/**
 What authoritative replies guarantee, for every store and every question.
 */
module AuthorityTheorems {
  import opened Names
  import opened Ordering
  import opened Records
  import opened Database
  import opened StoreLaws
  import opened Validation
  import opened Authority

  // -------------------------------------------------------------- CNAME paths

  /** In a valid zone an owner has at most one CNAME record, and it is found by its owner and type. */
  lemma SingleCname(db: Db, q: Query, owner: string)
    requires WellFormed(db) && CnameAlone(ZoneKeys(db, q.zone))
    ensures |Cnames(db, q, owner)| <= 1
    ensures forall r :: r in Cnames(db, q, owner) ==> r.name == owner && r.rrtype == TYPE_CNAME
  {
    ByDataTotal();
    var cnames := Cnames(db, q, owner);
    forall r | r in cnames
      ensures r.name == owner && r.rrtype == TYPE_CNAME && r.Key() in ZoneKeys(db, q.zone) && Stored(db, r)
    {
      FoundMember(db, q.zone, owner, TYPE_CNAME, q.qclass, r);
      NameAndTypeInKey(r);
    }
    ListingDistinct(cnames, ByData);
    assert forall i :: 0 <= i < |cnames| ==> cnames[i] in cnames;
    hide Record.Key;
    assert |cnames| > 1 ==> cnames[0].Key() == cnames[1].Key() by {
      forall r { NameAndTypeInKey(r); }
    }
  }

  /** r is the CNAME of the i-th owner. */
  ghost predicate LinkAt(db: Db, q: Query, r: Record, i: nat) {
    r.name == Walk(db, q, i) && r.rrtype == TYPE_CNAME && r.CNAME() == Target(db, q, Walk(db, q, i))
  }

  lemma CnameLink(db: Db, q: Query, i: nat)
    requires WellFormed(db) && CnameAlone(ZoneKeys(db, q.zone)) && Cnames(db, q, Walk(db, q, i)) != []
    ensures |Cnames(db, q, Walk(db, q, i))| == 1 && LinkAt(db, q, Cnames(db, q, Walk(db, q, i))[0], i)
  {
    SingleCname(db, q, Walk(db, q, i));
    hide Walk, Found, WellFormed, CnameAlone, Record.CNAME;
    var cnames := Cnames(db, q, Walk(db, q, i));
    assert cnames[0] in cnames;
  }

  /** The i-th record of the trail is the CNAME of the i-th owner. */
  lemma {:induction false} TrailIsLinked(db: Db, q: Query, k: nat)
    requires WellFormed(db) && CnameAlone(ZoneKeys(db, q.zone))
    requires forall i :: 0 <= i < k ==> Cnames(db, q, Walk(db, q, i)) != []
    ensures |Trail(db, q, k)| == k
    ensures forall i :: 0 <= i < k ==> LinkAt(db, q, Trail(db, q, k)[i], i)
  {
    hide Walk, Cnames, LinkAt, WellFormed, CnameAlone;
    if k > 0 {
      TrailIsLinked(db, q, k - 1);
      CnameLink(db, q, k - 1);
      assert Trail(db, q, k) == Trail(db, q, k - 1) + Cnames(db, q, Walk(db, q, k - 1));
    }
  }

  lemma HoppedHasCname(db: Db, q: Query, k: nat)
    requires HopsUntil(db, q, k)
    ensures forall i :: 0 <= i < k ==> Cnames(db, q, Walk(db, q, i)) != []
  {
    forall i | 0 <= i < k ensures Cnames(db, q, Walk(db, q, i)) != [] {
      TargetFacts(db, q, Walk(db, q, i));
    }
  }

  /** A linked path of CNAME records from the query name, through distinct owners inside the zone. */
  ghost predicate IsAliasPath(q: Query, path: seq<Record>) {
    && path != [] && path[0].name == q.name
    && (forall i :: 0 <= i < |path| ==> path[i].rrtype == TYPE_CNAME)
    && (forall i :: 0 <= i < |path| ==> IsSubDomain(q.zone, path[i].name))
    && (forall i :: 0 < i < |path| ==> LeadsTo(path[i - 1], path[i].name))
    && (forall i, j :: 0 <= i < j < |path| ==> path[i].name != path[j].name)
  }

  /** The three ways an alias path may end at its last target. */
  ghost predicate IsPathEnd(db: Db, q: Query, last: string, data: seq<Record>, authority: seq<Record>) {
    if !IsSubDomain(q.zone, last) then data == [] && authority == []
    else if At(db, q, last, q.qtype) != [] then data == At(db, q, last, q.qtype) && authority == []
    else Cnames(db, q, last) == [] && data == [] && authority == SOA(db, q)
  }

  /** How many records of the answer are the aliases. */
  ghost function Aliases(db: Db, q: Query, k: nat): nat {
    if Cnames(db, q, Walk(db, q, k)) == [] then k else k + 1
  }

  /**
   In a weakly valid zone, a walk that starts at an alias and ends within the
   bound is answered by a linked path of distinct in-zone owners followed by
   exactly what its ending calls for.
   */
  lemma ChainAnswerIsPath(db: Db, q: Query, bound: nat, k: nat)
    requires WellFormed(db) && InZone(q) && WeaklyValid(q.zone, ZoneKeys(db, q.zone))
    requires q.qtype != TYPE_CNAME && Cnames(db, q, q.name) != []
    requires k < bound && EndsAt(db, q, k)
    ensures var reply, n := ChainReply(db, q, bound), Aliases(db, q, k);
            && reply.rcode == RCODE_SUCCESS && 0 < n <= |reply.answer|
            && IsAliasPath(q, reply.answer[..n])
            && exists target :: LeadsTo(reply.answer[n - 1], target)
                                && IsPathEnd(db, q, target, reply.answer[n..], reply.authority)
  {
    assert CnameAlone(ZoneKeys(db, q.zone));
    hide *;
    ChainReplyAt(db, q, bound, k);
    AliasOwners(db, q, k);
    EndReplyShape(db, q, k);
    var n := Aliases(db, q, k);
    AliasPathFromWalk(db, q, k, n);
    LastTargetEnds(db, q, k);
    var reply, trail := EndReply(db, q, k), Trail(db, q, n);
    assert reply.answer[..n] == trail && reply.answer[n..] == EndData(db, q, k);
    assert LeadsTo(reply.answer[n - 1], Target(db, q, Walk(db, q, n - 1)));
  }

  lemma AliasOwners(db: Db, q: Query, k: nat)
    requires EndsAt(db, q, k) && Cnames(db, q, q.name) != []
    ensures 0 < Aliases(db, q, k) <= k + 1
    ensures forall i :: 0 <= i < Aliases(db, q, k) ==> Cnames(db, q, Walk(db, q, i)) != []
  {
    hide Hops, Cnames, Walk;
    WalkStart(db, q);
    HoppedHasCname(db, q, k);
  }

  lemma EndReplyShape(db: Db, q: Query, k: nat)
    requires 0 < Aliases(db, q, k)
    ensures EndReply(db, q, k).rcode == RCODE_SUCCESS && EndReply(db, q, k).authoritative
    ensures EndReply(db, q, k).answer == Trail(db, q, Aliases(db, q, k)) + EndData(db, q, k)
  {
    hide Walk, Target, Cnames, Stays, At, Additional, SOA, Trail;
  }

  /** What the answer holds after the aliases. */
  ghost function EndData(db: Db, q: Query, k: nat): seq<Record> {
    var owner := Walk(db, q, k);
    if Cnames(db, q, owner) != [] && Stays(db, q, owner) then At(db, q, Target(db, q, owner), q.qtype) else []
  }

  lemma LastTargetEnds(db: Db, q: Query, k: nat)
    requires EndsAt(db, q, k) && Aliases(db, q, k) > 0 && q.qtype != TYPE_CNAME
    ensures IsPathEnd(db, q, Target(db, q, Walk(db, q, Aliases(db, q, k) - 1)), EndData(db, q, k),
                      EndReply(db, q, k).authority)
  {
    hide At, Additional, SOA, Trail, Cnames, Target, Walk, IsSubDomain;
    var owner := Walk(db, q, k);
    TargetFacts(db, q, owner);
    if Cnames(db, q, owner) == [] {
      NextOwner(db, q, k, k);
      assert Hops(db, q, Walk(db, q, k - 1));
    }
  }

  lemma NextOwner(db: Db, q: Query, k: nat, i: nat)
    requires EndsAt(db, q, k) && 0 < i <= k
    ensures Walk(db, q, i) == Target(db, q, Walk(db, q, i - 1))
  {
    hide Hops, Target;
    assert Hops(db, q, Walk(db, q, i - 1));
  }

  ghost predicate Linked(db: Db, q: Query, path: seq<Record>) {
    forall i :: 0 <= i < |path| ==> LinkAt(db, q, path[i], i)
  }

  lemma PathInZone(db: Db, q: Query, path: seq<Record>, i: nat)
    requires InZone(q) && Linked(db, q, path) && i < |path|
    ensures IsSubDomain(q.zone, path[i].name) && path[i].name != ""
  {
    hide Walk, Target, IsSubDomain, Record.CNAME;
    WalkStaysInZone(db, q, i);
    assert LinkAt(db, q, path[i], i);
  }

  lemma PathConnected(db: Db, q: Query, path: seq<Record>, k: nat, i: nat)
    requires InZone(q) && EndsAt(db, q, k) && Linked(db, q, path) && 0 < i < |path| <= k + 1
    ensures LeadsTo(path[i - 1], path[i].name)
  {
    hide Walk, Target, EndsAt, Record.CNAME, IsNormalFormOf, InZone;
    NextOwner(db, q, k, i);
    PathInZone(db, q, path, i);
    assert LinkAt(db, q, path[i - 1], i - 1) && LinkAt(db, q, path[i], i);
    CnameExactly(path[i - 1], path[i].name);
  }

  lemma PathSimple(db: Db, q: Query, path: seq<Record>, k: nat, i: nat, j: nat)
    requires EndsAt(db, q, k) && Linked(db, q, path) && i < j < |path| <= k + 1
    ensures path[i].name != path[j].name
  {
    hide Walk, Target, EndsAt, Record.CNAME;
    EndedWalkIsSimple(db, q, k, i, j);
    assert LinkAt(db, q, path[i], i) && LinkAt(db, q, path[j], j);
  }

  lemma AliasPathFromWalk(db: Db, q: Query, k: nat, n: nat)
    requires WellFormed(db) && InZone(q) && CnameAlone(ZoneKeys(db, q.zone))
    requires EndsAt(db, q, k) && 0 < n <= k + 1
    requires forall i :: 0 <= i < n ==> Cnames(db, q, Walk(db, q, i)) != []
    ensures |Trail(db, q, n)| == n && IsAliasPath(q, Trail(db, q, n))
    ensures LeadsTo(Trail(db, q, n)[n - 1], Target(db, q, Walk(db, q, n - 1)))
  {
    hide Walk, EndsAt, Target, Cnames, Trail, WellFormed, CnameAlone, InZone, IsSubDomain, Record.CNAME, LinkAt,
      LeadsTo;
    var path := Trail(db, q, n);
    TrailIsLinked(db, q, n);
    assert Linked(db, q, path);
    PathEnds(db, q, path);
    forall i | 0 <= i < n ensures IsSubDomain(q.zone, path[i].name) { PathInZone(db, q, path, i); }
    forall i | 0 < i < n ensures LeadsTo(path[i - 1], path[i].name) { PathConnected(db, q, path, k, i); }
    forall i, j | 0 <= i < j < n ensures path[i].name != path[j].name { PathSimple(db, q, path, k, i, j); }
  }

  lemma PathEnds(db: Db, q: Query, path: seq<Record>)
    requires Linked(db, q, path) && path != []
    ensures forall i :: 0 <= i < |path| ==> path[i].rrtype == TYPE_CNAME
    ensures path[0].name == q.name && LeadsTo(path[|path| - 1], Target(db, q, Walk(db, q, |path| - 1)))
  {
    hide Walk, Target, Record.CNAME, IsNormalFormOf;
    WalkStart(db, q);
    var last := path[|path| - 1];
    assert LinkAt(db, q, path[0], 0) && LinkAt(db, q, last, |path| - 1);
    CnameExactly(last, last.CNAME());
  }

  lemma WalkStart(db: Db, q: Query)
    ensures Walk(db, q, 0) == q.name
  {
  }

  // ----------------------------------------------------------- response codes

  ghost predicate AskedClass(q: Query) {
    q.qclass == CLASS_INET || q.qclass == CLASS_ANY
  }

  lemma FoundByType(db: Db, q: Query, owner: string, t: Uint16)
    requires WellFormed(db) && At(db, q, owner, t) != []
    ensures At(db, q, owner, TYPE_ANY) != []
  {
    FoundEmpty(db, q.zone, owner, t, q.qclass);
    FoundEmpty(db, q.zone, owner, TYPE_ANY, q.qclass);
    assert RRsetKeys(db, q.zone, owner, t, q.qclass) <= RRsetKeys(db, q.zone, owner, TYPE_ANY, q.qclass);
  }

  /** NXDOMAIN means exactly that the zone has no record of the asked class at the name. */
  lemma NameErrorExactly(db: Db, q: Query, bound: nat)
    requires WellFormed(db) && AskedClass(q) && bound > 0
    ensures ResolveAuthoritative(db, q, bound).rcode == RCODE_NAME_ERROR
       <==> RRsetKeys(db, q.zone, q.name, TYPE_ANY, q.qclass) == {}
  {
    FoundEmpty(db, q.zone, q.name, TYPE_ANY, q.qclass);
    if At(db, q, q.name, TYPE_ANY) == [] {
      assert At(db, q, q.name, q.qtype) == [] by {
        if At(db, q, q.name, q.qtype) != [] { FoundByType(db, q, q.name, q.qtype); }
      }
      assert Cnames(db, q, q.name) == [] by {
        if Cnames(db, q, q.name) != [] { FoundByType(db, q, q.name, TYPE_CNAME); }
      }
      TargetFacts(db, q, q.name);
      assert EndsAt(db, q, 0);
      ChainReplyAt(db, q, bound, 0);
    }
  }

  /** The SOA records that a reply carries: those stored at the apex of the zone, of the asked class. */
  lemma ApexSOAExactly(db: Db, q: Query)
    requires WellFormed(db)
    ensures Holds(db, SOA(db, q), AskedFor(q.zone, q.zone, TYPE_SOA, q.qclass))
  {
    hide WellFormed, Found, AskedFor, Holds;
    FoundExactly(db, q.zone, q.zone, TYPE_SOA, q.qclass);
  }

  /** Without data of the type or an alias the reply is negative; whether anything is stored decides its code. */
  lemma NegativeExactly(db: Db, q: Query, bound: nat)
    requires WellFormed(db) && AskedClass(q) && bound > 0
    requires forall r :: Stored(db, r) ==> !AskedFor(q.zone, q.name, q.qtype, q.qclass)(r)
    requires forall r :: Stored(db, r) ==> !AskedFor(q.zone, q.name, TYPE_CNAME, q.qclass)(r)
    ensures var reply := ResolveAuthoritative(db, q, bound);
            && reply.answer == [] && reply.extra == [] && reply.authoritative
            && Holds(db, reply.authority, AskedFor(q.zone, q.zone, TYPE_SOA, q.qclass))
            && (if exists r :: Stored(db, r) && AskedFor(q.zone, q.name, TYPE_ANY, q.qclass)(r)
                then reply.rcode == RCODE_SUCCESS else reply.rcode == RCODE_NAME_ERROR)
  {
    hide WellFormed, Found, AskedFor, Record.Key, InRRset;
    ApexSOAExactly(db, q);
    NothingFound(db, q, q.qtype);
    NothingFound(db, q, TYPE_CNAME);
    NothingFound(db, q, TYPE_ANY);
    TargetFacts(db, q, q.name);
    assert EndsAt(db, q, 0);
    ChainReplyAt(db, q, bound, 0);
  }

  lemma NothingFound(db: Db, q: Query, qtype: Uint16)
    requires WellFormed(db)
    ensures At(db, q, q.name, qtype) == [] <==>
            forall r :: Stored(db, r) ==> !AskedFor(q.zone, q.name, qtype, q.qclass)(r)
  {
    hide WellFormed, Found, AskedFor, Record.Key;
    FoundExactly(db, q.zone, q.name, qtype, q.qclass);
    var found := At(db, q, q.name, qtype);
    assert found != [] ==> found[0] in found;
  }

  /** Every negative reply carries exactly the apex SOA records of the asked class and nothing else. */
  lemma NegativeCarriesSOA(db: Db, q: Query, bound: nat)
    requires AskedClass(q) && ResolveAuthoritative(db, q, bound).IsNegative()
    ensures ResolveAuthoritative(db, q, bound) ==
            Resolution(ResolveAuthoritative(db, q, bound).rcode, [], SOA(db, q), [], true)
  {
    if At(db, q, q.name, q.qtype) == [] && q.qtype != TYPE_ANY {
      if k: nat :| k < bound && EndsAt(db, q, k) {
        ChainReplyAt(db, q, bound, k);
        NegativeEnding(db, q, k);
      }
    }
  }

  lemma NegativeEnding(db: Db, q: Query, k: nat)
    requires EndsAt(db, q, k)
    ensures EndReply(db, q, k).IsNegative() ==> EndReply(db, q, k) == Negative(db, q)
  {
    hide Walk, Hops, Cnames, Stays, At, Additional, SOA, Target;
    HoppedHasCname(db, q, k);
    assert k > 0 ==> Trail(db, q, k) == Trail(db, q, k - 1) + Cnames(db, q, Walk(db, q, k - 1));
    assert Trail(db, q, k + 1) == Trail(db, q, k) + Cnames(db, q, Walk(db, q, k));
  }

  // ------------------------------------------------------- additional section

  lemma {:induction false} FreshMembers<T>(xs: seq<T>, seen: set<T>)
    ensures forall x :: x in Fresh(xs, seen) <==> x in xs && x !in seen
    ensures Distinct(Fresh(xs, seen))
    decreases |xs|
  {
    if xs != [] {
      assert forall x :: x in xs <==> x == xs[0] || x in xs[1..];
      if xs[0] in seen {
        FreshMembers(xs[1..], seen);
      } else {
        FreshMembers(xs[1..], seen + {xs[0]});
        var rest := Fresh(xs[1..], seen + {xs[0]});
        assert xs[0] !in rest;
        assert Fresh(xs, seen) == [xs[0]] + rest;
      }
    }
  }

  lemma {:induction false} PointedAtMembers(zone: string, answer: seq<Record>, t: string)
    ensures t in PointedAt(zone, answer) <==> exists a :: a in answer && PointsAt(zone, a) == Some(t)
  {
    if answer != [] {
      PointedAtMembers(zone, answer[1..], t);
      assert forall a :: a in answer <==> a == answer[0] || a in answer[1..];
      hide PointsAt;
      var first := match PointsAt(zone, answer[0]) case None => [] case Some(t) => [t];
      assert PointedAt(zone, answer) == first + PointedAt(zone, answer[1..]);
    }
  }

  predicate EndsInBlank(s: string) {
    s != "" && s[|s| - 1] == ' '
  }

  /** The text after the last blank, or all of it. */
  ghost predicate IsLastField(field: string, data: string) {
    ' ' !in field && exists front :: data == front + field && (front == "" || EndsInBlank(front))
  }

  lemma {:induction false} LastFieldExactly(data: string, field: string)
    ensures LastField(data) == field <==> IsLastField(field, data)
  {
    hide IsLastField;
    if data == "" || data[|data| - 1] == ' ' {
      NoLastField(data, field);
    } else {
      var init, last := data[..|data| - 1], data[|data| - 1];
      assert data == init + [last];
      if field == "" {
        SomeLastField(data);
      } else {
        LastFieldExactly(init, field[..|field| - 1]);
        LastFieldStep(init, last, field);
        assert field == field[..|field| - 1] + [field[|field| - 1]];
      }
    }
  }

  lemma NoLastField(data: string, field: string)
    requires data == "" || EndsInBlank(data)
    ensures IsLastField(field, data) <==> field == ""
  {
    assert data == data + "";
    forall front { FieldEnds(front, field); }
    hide EndsInBlank;
  }

  lemma FieldEnds(front: string, field: string)
    ensures ' ' !in field && field != "" ==> front + field != "" && !EndsInBlank(front + field)
  {
  }

  lemma SomeLastField(data: string)
    requires data != "" && data[|data| - 1] != ' '
    ensures !IsLastField("", data)
  {
    assert forall front :: data == front + "" ==> front == data;
  }

  lemma LastFieldStep(init: string, last: char, field: string)
    requires last != ' ' && field != ""
    ensures IsLastField(field, init + [last]) <==>
            field[|field| - 1] == last && IsLastField(field[..|field| - 1], init)
  {
    var short := field[..|field| - 1];
    forall front ensures init + [last] == front + field <==> field[|field| - 1] == last && init == front + short {
      LastCharacter(init, last, front, field);
    }
    assert field == short + [field[|field| - 1]];
    assert ' ' !in field <==> ' ' !in short && field[|field| - 1] != ' ';
    hide EndsInBlank;
  }

  lemma LastCharacter(init: string, last: char, front: string, field: string)
    requires field != ""
    ensures init + [last] == front + field <==>
            field[|field| - 1] == last && init == front + field[..|field| - 1]
  {
    var short, end := field[..|field| - 1], field[|field| - 1];
    assert front + field == (front + short) + [end];
    if init + [last] == front + field {
      assert (init + [last])[..|init|] == init && ((front + short) + [end])[..|front + short|] == front + short;
      assert |init| == |front + short|;
    }
  }

  /** The host in the data of an alias, name server, mail exchange or service record. */
  ghost predicate HostOf(host: string, r: Record) {
    || ((r.rrtype == TYPE_CNAME || r.rrtype == TYPE_NS) && host == r.data)
    || ((r.rrtype == TYPE_MX || r.rrtype == TYPE_SRV) && IsLastField(host, r.data))
  }

  /** The record points to this name: the normal form of its host, if that is not the root. */
  ghost predicate PointsTo(r: Record, target: string) {
    target != "." && exists host :: HostOf(host, r) && IsNormalFormOf(target, host)
  }

  lemma HostExactly(r: Record, host: string)
    ensures HostOf(host, r) ==> host == AdditionalTarget(r)
    ensures !HostOf(AdditionalTarget(r), r) ==> AdditionalTarget(r) == "" && forall h :: !HostOf(h, r)
  {
    LastFieldExactly(r.data, host);
    LastFieldExactly(r.data, LastField(r.data));
    hide IsLastField, LastField;
  }

  lemma PointsAtExactly(zone: string, r: Record, t: string)
    ensures PointsAt(zone, r) == Some(t) <==> PointsTo(r, t) && IsSubDomain(zone, t)
  {
    var host := AdditionalTarget(r);
    NormalizationsAgree(host);
    NormalizeIsNormal(host);
    NormalizeExactly(host, t);
    HostExactly(r, host);
    RootOfNothing();
    assert NormalizeAdditionalTarget(host) == if Normalize(host) == "." then "" else Normalize(host);
    assert Normalize(host) != "";
    hide NormalizeAdditionalTarget, Normalize, HostOf, IsNormalFormOf, AdditionalTarget, IsSubDomain;
    if PointsTo(r, t) {
      var h :| HostOf(h, r) && IsNormalFormOf(t, h);
      HostExactly(r, h);
    }
  }

  lemma RootOfNothing()
    ensures Normalize("") == "."
  {
    assert Lower("") == "" && TrimSpace("") == "";
  }

  lemma {:induction false} AllAddressesMembers(db: Db, q: Query, targets: seq<string>, r: Record)
    requires WellFormed(db)
    ensures r in AllAddresses(db, q, targets) <==>
            && Stored(db, r) && r.name in targets && r.zone == q.zone
            && (r.rrtype == TYPE_A || r.rrtype == TYPE_AAAA)
            && (q.qclass == CLASS_ANY || r.cls == q.qclass)
  {
    if targets != [] {
      AllAddressesMembers(db, q, targets[1..], r);
      FoundMember(db, q.zone, targets[0], TYPE_A, q.qclass, r);
      FoundMember(db, q.zone, targets[0], TYPE_AAAA, q.qclass, r);
      hide Found, WellFormed, Record.Key;
      assert r.name in targets <==> r.name == targets[0] || r.name in targets[1..];
      assert AllAddresses(db, q, targets) == Addresses(db, q, targets[0]) + AllAddresses(db, q, targets[1..]);
    }
  }

  /** A stored address, in the zone and class of the query, of a host that the answer points to. */
  ghost predicate IsAddressFor(db: Db, q: Query, answer: seq<Record>, r: Record) {
    && Stored(db, r) && r.zone == q.zone && (q.qclass == CLASS_ANY || r.cls == q.qclass)
    && (r.rrtype == TYPE_A || r.rrtype == TYPE_AAAA)
    && exists a :: a in answer && PointsTo(a, r.name)
  }

  lemma AddressForTarget(db: Db, q: Query, answer: seq<Record>, r: Record)
    requires WellFormed(db)
    ensures IsAddressFor(db, q, answer, r) <==>
            && Stored(db, r) && r.zone == q.zone && (q.qclass == CLASS_ANY || r.cls == q.qclass)
            && (r.rrtype == TYPE_A || r.rrtype == TYPE_AAAA) && r.name in PointedAt(q.zone, answer)
  {
    PointedAtMembers(q.zone, answer, r.name);
    if Stored(db, r) && r.zone == q.zone {
      assert IsSubDomain(q.zone, r.name) by { hide Record.Key; }
      forall a { PointsAtExactly(q.zone, a, r.name); }
    }
    hide PointsAt, PointsTo, PointedAt, WellFormed, Record.Key;
  }

  /**
   The additional section holds, once each and not repeating the answer, exactly
   the stored addresses of the hosts that the answer points to.
   */
  lemma AdditionalExactly(db: Db, q: Query, answer: seq<Record>)
    requires WellFormed(db)
    ensures Distinct(Additional(db, q, answer))
    ensures forall r :: r in Additional(db, q, answer) <==> r !in answer && IsAddressFor(db, q, answer, r)
  {
    var targets := AdditionalTargets(q.zone, answer);
    FreshMembers(AllAddresses(db, q, targets), Elems(answer));
    FreshMembers(PointedAt(q.zone, answer), {});
    forall r ensures r in Additional(db, q, answer) <==> r !in answer && IsAddressFor(db, q, answer, r) {
      AllAddressesMembers(db, q, targets, r);
      AddressForTarget(db, q, answer, r);
      hide PointedAt, IsAddressFor, WellFormed, Record.Key;
    }
  }

  // ------------------------------------------------------------ whole replies

  /** Every reply's additional section is that of its answer. */
  lemma ReplyExtra(db: Db, q: Query, bound: nat)
    ensures ResolveAuthoritative(db, q, bound).extra == Additional(db, q, ResolveAuthoritative(db, q, bound).answer)
  {
    hide At, Trail, Target, Walk, EndsAt, Stays, Cnames;
    assert Additional(db, q, []) == [];
  }

  /** In every reply, each address that the answer calls for is in the answer or, once, in the additional section. */
  lemma ReplyExtraExactly(db: Db, q: Query, bound: nat)
    requires WellFormed(db)
    ensures var reply := ResolveAuthoritative(db, q, bound);
            && Distinct(reply.extra)
            && forall r :: r in reply.extra <==> r !in reply.answer && IsAddressFor(db, q, reply.answer, r)
  {
    hide ResolveAuthoritative, Additional, IsAddressFor, WellFormed;
    ReplyExtra(db, q, bound);
    AdditionalExactly(db, q, ResolveAuthoritative(db, q, bound).answer);
  }

  /** Data of the asked type at the name is answered: all of it, each record once, in data order, nothing else. */
  lemma ExactMatchAnswered(db: Db, q: Query, bound: nat, held: Record)
    requires WellFormed(db) && AskedClass(q)
    requires Stored(db, held) && AskedFor(q.zone, q.name, q.qtype, q.qclass)(held)
    ensures var reply := ResolveAuthoritative(db, q, bound);
            && reply.rcode == RCODE_SUCCESS && reply.authoritative && reply.authority == []
            && Holds(db, reply.answer, AskedFor(q.zone, q.name, q.qtype, q.qclass)) && InDataOrder(reply.answer)
  {
    FoundExactly(db, q.zone, q.name, q.qtype, q.qclass);
    hide Found, WellFormed, Record.Key, Additional, ChainReply, AskedFor;
    assert held in At(db, q, q.name, q.qtype);
  }

  lemma ReplyCodes(db: Db, q: Query, bound: nat)
    ensures ResolveAuthoritative(db, q, bound).rcode in
            {RCODE_SUCCESS, RCODE_SERVER_FAILURE, RCODE_NAME_ERROR, RCODE_NOT_IMPLEMENTED}
    ensures ResolveAuthoritative(db, q, bound).authoritative
  {
    hide At, Additional, Trail, Target, Walk, EndsAt, Stays, Cnames, SOA;
  }

  /** Other classes than IN and ANY are not implemented. */
  lemma OtherClassNotImplemented(db: Db, q: Query, bound: nat)
    ensures ResolveAuthoritative(db, q, bound).rcode == RCODE_NOT_IMPLEMENTED <==> !AskedClass(q)
    ensures !AskedClass(q) ==> ResolveAuthoritative(db, q, bound) == Resolution(RCODE_NOT_IMPLEMENTED, [], [], [], true)
  {
    hide At, Additional, Trail, Target, Walk, EndsAt, Stays, Cnames, SOA;
  }
}
