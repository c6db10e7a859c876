/**
 The resolver: a zone index cached by store revision, a response cache keyed by
 revision, and the loops that build authoritative replies.
 */
module Resolving {
  import opened Names
  import opened Ordering
  import opened Records
  import opened Database
  import opened Memory
  import opened Zones
  import opened Lifetimes
  import opened Authority
  import opened AuthorityTheorems

  datatype CacheKey = CacheKey(revision: nat, question: Question)

  /** The question as it is matched, cached and answered. */
  function Normalized(asked: Question): Question {
    asked.(name := NormalizeQuestion(asked.name))
  }

  /** One iteration of the CNAME loop. */
  datatype CnameStep = CnameStep(found: bool, done: bool, target: string, answer: seq<Record>)

  /** The reply computed from the store alone, with no cache anywhere. */
  ghost function Uncached(db: Db, asked: Question, bound: nat): Resolution {
    var question := Normalized(asked);
    if question.name == "." then FORMAT_ERROR else InMatchedZone(db, question, bound)
  }

  ghost function InMatchedZone(db: Db, question: Question, bound: nat): Resolution {
    match MatchZone(db.zones, question.name)
    case None => REFUSED
    case Some(zone) => ResolveAuthoritative(db, question.In(zone), bound)
  }

  // ------------------------------------------------------- cache coherence

  /** No entry is from the future, and entries of the present are right. */
  ghost predicate CoherentReplies(cache: map<CacheKey, Resolution>, db: Db, revision: nat, bound: nat) {
    && (forall k :: k in cache ==> k.revision <= revision)
    && (forall k :: k in cache && k.revision == revision ==>
          cache[k] == InMatchedZone(db, k.question, bound))
  }

  ghost predicate CoherentZones(index: ZoneIndex, loaded: bool, version: nat, db: Db, revision: nat) {
    loaded ==> version <= revision && (version == revision ==> Indexes(index, db.zones))
  }

  /** A newer revision makes every cached reply and the cached index unusable rather than wrong. */
  lemma NewerRevisionKeepsCoherence(
    cache: map<CacheKey, Resolution>, index: ZoneIndex, loaded: bool, version: nat,
    db: Db, revision: nat, bound: nat, db': Db, revision': nat)
    requires CoherentReplies(cache, db, revision, bound) && CoherentZones(index, loaded, version, db, revision)
    requires revision < revision' || (db == db' && revision == revision')
    ensures CoherentReplies(cache, db', revision', bound) && CoherentZones(index, loaded, version, db', revision')
  {
    hide InMatchedZone, Indexes;
  }

  lemma RememberKeepsCoherence(
    cache: map<CacheKey, Resolution>, db: Db, revision: nat, bound: nat, key: CacheKey, reply: Resolution)
    requires CoherentReplies(cache, db, revision, bound) && key.revision == revision
    requires reply == InMatchedZone(db, key.question, bound)
    ensures CoherentReplies(cache[key := reply], db, revision, bound)
  {
    hide InMatchedZone;
  }

  lemma CachedReply(cache: map<CacheKey, Resolution>, db: Db, revision: nat, bound: nat, key: CacheKey)
    requires CoherentReplies(cache, db, revision, bound) && key in cache && key.revision == revision
    ensures cache[key] == InMatchedZone(db, key.question, bound)
  {
    hide InMatchedZone;
  }

  lemma UncachedCases(db: Db, asked: Question, bound: nat)
    ensures var question := Normalized(asked);
            && IsNormal(question.name)
            && Uncached(db, asked, bound) ==
               if question.name == "." then FORMAT_ERROR else InMatchedZone(db, question, bound)
  {
    hide MatchZone, ResolveAuthoritative;
    NormalizationsAgree(asked.name);
    NormalizeIsNormal(asked.name);
  }

  /**
   What is asked is the normal form of the name: the root is a format error, a
   name in no zone is refused, and any other name is answered by the zone with the
   most labels that contains it.
   */
  lemma UncachedExactly(db: Db, asked: Question, bound: nat, name: string)
    requires WellFormed(db) && IsNormalFormOf(name, asked.name)
    ensures var reply := Uncached(db, asked, bound);
            && (reply.rcode == RCODE_FORMAT_ERROR <==> name == ".")
            && (reply.rcode == RCODE_REFUSED <==> name != "." && forall z :: z in db.zones ==> !IsSubDomain(z, name))
            && (reply.rcode == RCODE_FORMAT_ERROR || reply.rcode == RCODE_REFUSED ==>
                  reply == Resolution(reply.rcode, [], [], [], false))
            && (forall z :: name != "." && IsBest(db.zones, name, z) ==>
                  reply == ResolveAuthoritative(db, Query(z, name, asked.qtype, asked.qclass), bound))
  {
    NormalizeExactly(asked.name, name);
    NormalizationsAgree(asked.name);
    NormalizeIsNormal(asked.name);
    StoredZones(db);
    hide IsNormalFormOf, MatchZone, Normalize, NormalizeQuestion, WellFormed, ResolveAuthoritative, Labels, IsSubDomain;
    MatchIsBest(db.zones, name);
    forall z { ReplyCodes(db, Query(z, name, asked.qtype, asked.qclass), bound); }
    forall z | IsBest(db.zones, name, z) ensures MatchZone(db.zones, name) == Some(z) {
      BestIsMatch(db.zones, name, z);
    }
  }

  // -------------------------------------------------- facts for the loops

  lemma StoredZones(db: Db)
    requires WellFormed(db)
    ensures Elems(ListZones(db)) == db.zones && AllFqdn(db.zones)
  {
    StrLessTotal();
  }

  lemma NormalIsFqdn(name: string)
    requires IsNormal(name)
    ensures IsFqdn(name)
  {
  }

  lemma BestIsStored(db: Db, name: string, z: BarFree)
    requires WellFormed(db) && IsBest(db.zones, name, z)
    ensures IsNormalZone(z) && IsSubDomain(z, name)
  {
  }

  lemma LookupInZone(db: Db, q: Query, qtype: Uint16)
    requires InZone(q)
    ensures Lookup(db, q.zone, q.name, qtype, q.qclass) == Ok(Found(db, q.zone, q.name, qtype, q.qclass))
  {
    NormalizeZoneNameFacts(q.zone);
    NormalIsFixed(q.name);
  }

  lemma {:induction false} FreshAppend<T>(xs: seq<T>, x: T, seen: set<T>)
    ensures Fresh(xs + [x], seen) == Fresh(xs, seen) + (if x in xs || x in seen then [] else [x])
    decreases |xs|
  {
    if xs == [] {
      assert xs + [x] == [x] && [x][1..] == [];
    } else {
      var seen' := if xs[0] in seen then seen else seen + {xs[0]};
      FreshAppend(xs[1..], x, seen');
      assert (xs + [x])[1..] == xs[1..] + [x];
      assert x in xs <==> x == xs[0] || x in xs[1..];
    }
  }

  lemma {:induction false} PointedAtAppend(zone: string, answer: seq<Record>, r: Record)
    ensures PointedAt(zone, answer + [r]) ==
            PointedAt(zone, answer) + (match PointsAt(zone, r) case None => [] case Some(t) => [t])
  {
    hide PointsAt;
    if answer == [] {
      assert answer + [r] == [r] && [r][1..] == [];
    } else {
      PointedAtAppend(zone, answer[1..], r);
      assert (answer + [r])[1..] == answer[1..] + [r];
    }
  }

  lemma {:induction false} AllAddressesAppend(db: Db, q: Query, targets: seq<string>, t: string)
    ensures AllAddresses(db, q, targets + [t]) == AllAddresses(db, q, targets) + Addresses(db, q, t)
  {
    hide Addresses;
    if targets == [] {
      assert targets + [t] == [t] && [t][1..] == [];
    } else {
      AllAddressesAppend(db, q, targets[1..], t);
      assert (targets + [t])[1..] == targets[1..] + [t];
    }
  }

  lemma PointsInZone(zone: BarFree, r: Record)
    requires IsNormalZone(zone) && PointsAt(zone, r).Some?
    ensures IsNormal(PointsAt(zone, r).value) && IsSubDomain(zone, PointsAt(zone, r).value)
  {
    NormalizationsAgree(AdditionalTarget(r));
    NormalizeIsNormal(AdditionalTarget(r));
  }

  class Resolver {
    const store: MemoryStore
    const maxCNAMEChain: nat
    const maxCacheTTL: Duration
    const negativeTTL: Duration

    var cache: map<CacheKey, Resolution>
    var zones: ZoneIndex
    var zonesLoaded: bool
    var zonesVersion: nat

    ghost predicate Configured() {
      maxCNAMEChain > 0 && maxCacheTTL > 0 && negativeTTL > 0
    }

    ghost predicate Coherent(db: Db, revision: nat)
      reads this
    {
      && CoherentReplies(cache, db, revision, maxCNAMEChain)
      && CoherentZones(zones, zonesLoaded, zonesVersion, db, revision)
    }

    ghost predicate Valid()
      reads this, store
    {
      store.Valid() && Configured() && Coherent(store.db, store.revision)
    }

    /** The defaults: thirty and ten seconds, eight hops. */
    constructor (repo: MemoryStore)
      requires repo.Valid()
      ensures Valid() && store == repo
      ensures maxCNAMEChain == 8 && maxCacheTTL == 30 * SECOND && negativeTTL == 10 * SECOND
    {
      store, maxCNAMEChain, maxCacheTTL, negativeTTL := repo, 8, 30 * SECOND, 10 * SECOND;
      cache, zones, zonesLoaded, zonesVersion := map[], ZoneIndex([], map[]), false, 0;
    }

    method Resolve(asked: Question) returns (reply: Resolution)
      requires Valid()
      modifies this
      ensures Valid() && reply == Uncached(store.db, asked, maxCNAMEChain)
      ensures var question := Normalized(asked);
              cache == if question.name == "." || MatchZone(store.db.zones, question.name).None? then old(cache)
                       else old(cache)[CacheKey(store.revision, question) := reply]
    {
      hide MatchZone, ResolveAuthoritative, Normalized, WellFormed, Represents, Uncached, CoherentReplies,
        CoherentZones, IsSubDomain, IsNormal;
      UncachedCases(store.db, asked, maxCNAMEChain);
      var question := Normalized(asked);
      if question.name == "." {
        return FORMAT_ERROR;
      }
      var matched := MatchStoredZone(question.name);
      if matched.None? {
        return REFUSED;
      }
      var key := CacheKey(store.revision, question);
      if key in cache {
        CachedReply(cache, store.db, store.revision, maxCNAMEChain, key);
        assert cache == cache[key := cache[key]];
        return cache[key];
      }
      reply := Authoritative(question.In(matched.value));
      var ttl := CacheTTLFor(reply);
      if ttl > 0 {
        RememberKeepsCoherence(cache, store.db, store.revision, maxCNAMEChain, key, reply);
        cache := cache[key := reply];
      }
    }

    method MatchStoredZone(name: string) returns (zone: Option<BarFree>)
      requires Valid() && IsNormal(name)
      modifies this`zones, this`zonesLoaded, this`zonesVersion
      ensures Valid() && zone == MatchZone(store.db.zones, name)
      ensures zone.Some? ==> IsNormalZone(zone.value) && IsSubDomain(zone.value, name)
    {
      hide MatchZone, IsBest, Represents, Indexes, WellFormed, CoherentReplies, IsSubDomain, IsNormal, Listing,
        Database.ListZones;
      StoredZones(store.db);
      var revision := store.revision;
      if !(zonesVersion == revision && zonesLoaded) {
        var names := store.ListZones();
        var index := NewZoneIndex(names);
        zones, zonesLoaded, zonesVersion := index, true, revision;
      }
      assert Indexes(zones, store.db.zones);
      NormalIsFqdn(name);
      zone := Match(zones, store.db.zones, name);
      if zone.Some? {
        BestIsStored(store.db, name, zone.value);
      }
    }

    /** A lookup inside the zone, which cannot fail. */
    method Find(q: Query, owner: string, qtype: Uint16) returns (records: seq<Record>)
      requires store.Valid() && InZone(q.(name := owner))
      ensures records == At(store.db, q, owner, qtype)
    {
      LookupInZone(store.db, q.(name := owner), qtype);
      var found := store.Lookup(q.zone, owner, qtype, q.qclass);
      records := found.value;
    }

    method Authoritative(q: Query) returns (reply: Resolution)
      requires store.Valid() && InZone(q)
      ensures reply == ResolveAuthoritative(store.db, q, maxCNAMEChain)
    {
      hide At, Additional, ChainReply;
      if q.qclass != CLASS_INET && q.qclass != CLASS_ANY {
        return NOT_IMPLEMENTED;
      }
      var exact := Find(q, q.name, q.qtype);
      if |exact| > 0 {
        reply := Success(q, exact);
      } else if q.qtype == TYPE_ANY {
        reply := NegativeResponse(q);
      } else {
        reply := ResolveCNAMEChain(q);
      }
    }

    method Success(q: Query, answer: seq<Record>) returns (reply: Resolution)
      requires store.Valid() && InZone(q)
      ensures reply == Answered(store.db, q, answer)
    {
      var extra := AdditionalRecords(q, answer);
      reply := Resolution(RCODE_SUCCESS, answer, [], extra, true);
    }

    method NegativeResponse(q: Query) returns (reply: Resolution)
      requires store.Valid() && InZone(q)
      ensures reply == Negative(store.db, q)
    {
      hide At;
      var all := Find(q, q.name, TYPE_ANY);
      var authority := Find(q, q.zone, TYPE_SOA);
      reply := Resolution(if |all| == 0 then RCODE_NAME_ERROR else RCODE_SUCCESS, [], authority, [], true);
    }

    method CNAMETerminalNoData(q: Query, answer: seq<Record>) returns (reply: Resolution)
      requires store.Valid() && InZone(q)
      ensures reply == NoData(store.db, q, answer)
    {
      hide At;
      var authority := Find(q, q.zone, TYPE_SOA);
      var extra := AdditionalRecords(q, answer);
      reply := Resolution(RCODE_SUCCESS, answer, authority, extra, true);
    }

    /** Follow aliases, remembering the owners seen, for at most maxCNAMEChain iterations. */
    method ResolveCNAMEChain(q: Query) returns (reply: Resolution)
      requires store.Valid() && InZone(q)
      ensures reply == ChainReply(store.db, q, maxCNAMEChain)
    {
      hide *;
      var current := q.name;
      var visited := {current};
      var answer := [];
      ghost var db := store.db;
      LoopStart(db, q);
      for i := 0 to maxCNAMEChain
        invariant LoopState(db, q, i, current, visited, answer)
      {
        LoopOwner(db, q, i, current, visited, answer);
        var step := NextCNAMEStep(q, current);
        if !step.found {
          LoopNotFound(db, q, maxCNAMEChain, i, current, visited, answer, step);
          if current == q.name {
            reply := NegativeResponse(q);
          } else {
            reply := CNAMETerminalNoData(q, answer);
          }
          return;
        }
        if step.done {
          LoopDone(db, q, maxCNAMEChain, i, current, visited, answer, step);
          reply := Success(q, answer + step.answer);
          return;
        }
        if step.target in visited {
          LoopSeen(db, q, maxCNAMEChain, i, current, visited, answer, step);
          return SERVER_FAILURE;
        }
        LoopHop(db, q, i, current, visited, answer, step);
        visited := visited + {step.target};
        answer := answer + step.answer;
        current := step.target;
      }
      LoopExhausted(db, q, maxCNAMEChain, current, visited, answer);
      return SERVER_FAILURE;
    }

    method NextCNAMEStep(q: Query, current: string) returns (step: CnameStep)
      requires store.Valid() && InZone(q) && InZone(q.(name := current))
      ensures IsStep(store.db, q, current, step)
    {
      hide At, Found, Record.CNAME;
      var cnames := Find(q, current, TYPE_CNAME);
      if |cnames| == 0 {
        return CnameStep(false, false, "", []);
      }
      TargetFacts(store.db, q, current);
      var target := cnames[|cnames| - 1].CNAME();
      if target == "" || q.qtype == TYPE_CNAME || !IsSubDomain(q.zone, target) {
        return CnameStep(true, true, "", cnames);
      }
      var data := Find(q, target, q.qtype);
      if |data| > 0 {
        return CnameStep(true, true, "", cnames + data);
      }
      return CnameStep(true, false, target, cnames);
    }

    method AdditionalRecords(q: Query, answer: seq<Record>) returns (extra: seq<Record>)
      requires store.Valid() && InZone(q)
      ensures extra == Additional(store.db, q, answer)
    {
      hide Fresh, AllAddresses, Addresses, PointedAt, WellFormed, Represents, IsNormal, IsSubDomain;
      var targets := CollectTargets(q.zone, answer);
      var seen := Elems(answer);
      extra := [];
      ghost var listed: seq<Record> := [];
      NothingListed(store.db, q, answer);
      for i := 0 to |targets|
        invariant listed == AllAddresses(store.db, q, targets[..i])
        invariant extra == Fresh(listed, Elems(answer)) && seen == Elems(answer) + Elems(listed)
      {
        assert targets[i] in targets;
        var found := LookupAddresses(q, targets[i]);
        ghost var before := listed;
        for j := 0 to |found|
          invariant listed == before + found[..j]
          invariant extra == Fresh(listed, Elems(answer)) && seen == Elems(answer) + Elems(listed)
        {
          FreshAppend(listed, found[j], Elems(answer));
          ElemsAppend(listed, [found[j]]);
          assert found[..j + 1] == found[..j] + [found[j]];
          if found[j] !in seen {
            seen := seen + {found[j]};
            extra := extra + [found[j]];
          }
          listed := listed + [found[j]];
        }
        assert found[..|found|] == found;
        AllAddressesAppend(store.db, q, targets[..i], targets[i]);
        assert targets[..i + 1] == targets[..i] + [targets[i]];
      }
      assert targets[..|targets|] == targets;
    }

    method CollectTargets(zone: BarFree, answer: seq<Record>) returns (targets: seq<string>)
      requires IsNormalZone(zone)
      ensures targets == AdditionalTargets(zone, answer)
      ensures forall t :: t in targets ==> IsNormal(t) && IsSubDomain(zone, t)
    {
      hide Fresh, PointedAt, PointsAt, IsNormal, IsSubDomain;
      targets := [];
      NoTargets(zone);
      for i := 0 to |answer|
        invariant targets == AdditionalTargets(zone, answer[..i])
        invariant forall t :: t in targets ==> IsNormal(t) && IsSubDomain(zone, t)
      {
        assert answer[..i + 1] == answer[..i] + [answer[i]];
        PointedAtAppend(zone, answer[..i], answer[i]);
        var target := PointsAt(zone, answer[i]);
        if target.None? {
          assert PointedAt(zone, answer[..i]) + [] == PointedAt(zone, answer[..i]);
        } else {
          PointsInZone(zone, answer[i]);
          FreshAppend(PointedAt(zone, answer[..i]), target.value, {});
          FreshMembers(PointedAt(zone, answer[..i]), {});
          if target.value !in targets {
            targets := targets + [target.value];
          }
        }
      }
      assert answer[..|answer|] == answer;
    }

    method LookupAddresses(q: Query, target: string) returns (records: seq<Record>)
      requires store.Valid() && InZone(q.(name := target))
      ensures records == Addresses(store.db, q, target)
    {
      hide At;
      var a := Find(q, target, TYPE_A);
      var aaaa := Find(q, target, TYPE_AAAA);
      records := a + aaaa;
    }

    /** The lifetime of a cached reply: positive, bounded by the settings, decided by the TTLs after the last zero. */
    method CacheTTLFor(reply: Resolution) returns (ttl: Duration)
      requires Configured()
      ensures IsLifetime(TTLs(reply.answer + reply.authority + reply.extra), maxCacheTTL, negativeTTL, ttl)
      ensures 0 < ttl && (ttl <= maxCacheTTL || ttl == negativeTTL)
      ensures var all := reply.answer + reply.authority + reply.extra;
              (forall r :: r in all ==> ttl <= r.ttl * SECOND) <==> (forall r :: r in all ==> r.ttl != 0)
    {
      var all := reply.answer + reply.authority + reply.extra;
      var minTTL: Uint32 := 0;
      for i := 0 to |all|
        invariant var counting := AfterLastZero(TTLs(all[..i]));
                  if minTTL == 0 then counting == []
                  else minTTL in counting && forall t :: t in counting ==> minTTL <= t
      {
        var t := all[i].ttl;
        assert TTLs(all[..i + 1]) == TTLs(all[..i]) + [t];
        AfterLastZeroSnoc(TTLs(all[..i]), t);
        if minTTL == 0 || t < minTTL {
          minTTL := t;
        }
      }
      assert all[..|all|] == all;
      if minTTL == 0 {
        ttl := negativeTTL;
      } else {
        ttl := minTTL * SECOND;
        if maxCacheTTL > 0 && ttl > maxCacheTTL {
          ttl := maxCacheTTL;
        }
      }
      OutlivesNoneExactly(TTLs(all), maxCacheTTL, negativeTTL, ttl);
      TTLsExactly(all);
    }

    method Evict(key: CacheKey)
      requires Valid()
      modifies this`cache
      ensures Valid() && cache == old(cache) - {key}
    {
      cache := cache - {key};
    }
  }

  // --------------------------------------------------------- the CNAME loop

  lemma NothingListed(db: Db, q: Query, answer: seq<Record>)
    ensures AllAddresses(db, q, []) == [] && Fresh<Record>([], Elems(answer)) == []
  {
  }

  lemma NoTargets(zone: BarFree)
    ensures AdditionalTargets(zone, []) == []
  {
  }

  /** What the answer gains at an owner where the walk ends. */
  ghost function LastGain(db: Db, q: Query, owner: string): seq<Record> {
    Cnames(db, q, owner) + (if Stays(db, q, owner) then At(db, q, Target(db, q, owner), q.qtype) else [])
  }

  ghost predicate IsStep(db: Db, q: Query, owner: string, step: CnameStep) {
    && (step.found <==> Cnames(db, q, owner) != [])
    && (step.found ==> (step.done <==> !Hops(db, q, owner)))
    && (step.found && step.done ==> step.answer == LastGain(db, q, owner))
    && (step.found && !step.done ==> step.answer == Cnames(db, q, owner) && step.target == Target(db, q, owner))
  }

  /** The owners that the walk has reached in i hops. */
  ghost function Owners(db: Db, q: Query, i: nat): set<string> {
    {Walk(db, q, i)} + (if i == 0 then {} else Owners(db, q, i - 1))
  }

  lemma {:induction false} OwnerPosition(db: Db, q: Query, i: nat, n: string) returns (j: nat)
    requires n in Owners(db, q, i)
    ensures j <= i && Walk(db, q, j) == n
  {
    hide Walk;
    if n == Walk(db, q, i) {
      j := i;
    } else {
      j := OwnerPosition(db, q, i - 1, n);
    }
  }

  /** After i iterations: the walk's i-th owner, the owners so far, and their CNAMEs. */
  ghost predicate LoopState(db: Db, q: Query, i: nat, current: string, visited: set<string>, answer: seq<Record>) {
    && HopsUntil(db, q, i)
    && current == Walk(db, q, i)
    && visited == Owners(db, q, i)
    && answer == Trail(db, q, i)
  }

  lemma LoopStart(db: Db, q: Query)
    ensures LoopState(db, q, 0, q.name, {q.name}, [])
  {
    hide Hops;
  }

  lemma LoopOwner(db: Db, q: Query, i: nat, current: string, visited: set<string>, answer: seq<Record>)
    requires InZone(q) && LoopState(db, q, i, current, visited, answer)
    ensures InZone(q.(name := current))
  {
    hide Walk, Hops, InZone, Trail;
    WalkStaysInZone(db, q, i);
  }

  lemma LoopNotFound(
    db: Db, q: Query, bound: nat, i: nat, current: string, visited: set<string>, answer: seq<Record>, step: CnameStep)
    requires LoopState(db, q, i, current, visited, answer) && i < bound && IsStep(db, q, current, step) && !step.found
    ensures ChainReply(db, q, bound) == if current == q.name then Negative(db, q) else NoData(db, q, answer)
  {
    hide Walk, Trail, Hops, Cnames, Target, ChainReply, Negative, NoData, Answered, LastGain;
    NoCnameNoHop(db, q, current);
    assert EndsAt(db, q, i);
    ChainReplyAt(db, q, bound, i);
    WalkStart(db, q);
    if i > 0 {
      EndedWalkIsSimple(db, q, i, 0, i);
    }
  }

  lemma NoCnameNoHop(db: Db, q: Query, owner: string)
    ensures Cnames(db, q, owner) == [] ==> !Hops(db, q, owner)
  {
    TargetFacts(db, q, owner);
    hide Cnames, Target;
  }

  lemma TrailStep(db: Db, q: Query, i: nat)
    ensures Trail(db, q, i + 1) == Trail(db, q, i) + Cnames(db, q, Walk(db, q, i))
  {
    hide Walk, Cnames;
  }

  lemma LoopDone(
    db: Db, q: Query, bound: nat, i: nat, current: string, visited: set<string>, answer: seq<Record>, step: CnameStep)
    requires LoopState(db, q, i, current, visited, answer) && i < bound
    requires IsStep(db, q, current, step) && step.found && step.done
    ensures ChainReply(db, q, bound) == Answered(db, q, answer + step.answer)
  {
    hide Walk, Trail, Hops, Cnames, Target, Stays, At, ChainReply, Negative, NoData, Answered;
    assert EndsAt(db, q, i);
    ChainReplyAt(db, q, bound, i);
    TrailStep(db, q, i);
    var cnames, data := Cnames(db, q, current), At(db, q, Target(db, q, current), q.qtype);
    assert answer + (cnames + data) == (answer + cnames) + data;
    assert answer + (cnames + []) == answer + cnames;
  }

  lemma LoopSeen(
    db: Db, q: Query, bound: nat, i: nat, current: string, visited: set<string>, answer: seq<Record>, step: CnameStep)
    requires LoopState(db, q, i, current, visited, answer)
    requires IsStep(db, q, current, step) && step.found && !step.done && step.target in visited
    ensures ChainReply(db, q, bound) == SERVER_FAILURE
  {
    hide Walk, Trail, Hops, Cnames, Target, ChainReply, LastGain;
    WalkStep(db, q, i);
    var j := OwnerPosition(db, q, i, step.target);
    assert HopsUntil(db, q, i + 1);
    FailureCharacterisation(db, q, bound);
  }

  lemma LoopHop(db: Db, q: Query, i: nat, current: string, visited: set<string>, answer: seq<Record>, step: CnameStep)
    requires LoopState(db, q, i, current, visited, answer)
    requires IsStep(db, q, current, step) && step.found && !step.done
    ensures LoopState(db, q, i + 1, step.target, visited + {step.target}, answer + step.answer)
  {
    hide Walk, Trail, Hops, Cnames, Target, LastGain;
    WalkStep(db, q, i);
    TrailStep(db, q, i);
    assert Owners(db, q, i + 1) == Owners(db, q, i) + {step.target};
  }

  lemma LoopExhausted(db: Db, q: Query, bound: nat, current: string, visited: set<string>, answer: seq<Record>)
    requires LoopState(db, q, bound, current, visited, answer)
    ensures ChainReply(db, q, bound) == SERVER_FAILURE
  {
    hide Walk, Trail, Hops;
  }
}
