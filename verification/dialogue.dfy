/**
 The authoritative reply as a dialogue with the store: one lookup at a time,
 the next one chosen by what the earlier ones found. This is the shape of the
 resolver that matters when writers change the store between two lookups.
 */
module Dialogue {
  import opened Names
  import opened Ordering
  import opened Records
  import opened Database
  import opened Authority
  import opened AuthorityTheorems
  import opened Resolving

  /** What is looked up, in the zone and class of the query. */
  datatype Ask = Ask(owner: string, qtype: Uint16)

  datatype Stage =
    | AskExact
    | AskCname(i: nat, current: string, visited: set<string>, answer: seq<Record>)
    | AskData(i: nat, current: string, visited: set<string>, answer: seq<Record>, cnames: seq<Record>, target: string)
    | AskAll
    | AskAuthority(rcode: nat)
    | AskNoDataAuthority(answer: seq<Record>)
    | AskAddresses(answer: seq<Record>, authority: seq<Record>, next: Ask, todo: seq<Ask>, listed: seq<Record>)
    | Finished(reply: Resolution)

  /** The lookup that a stage is waiting for. */
  function Asked(q: Query, stage: Stage): Option<Ask> {
    match stage
    case AskExact => Some(Ask(q.name, q.qtype))
    case AskCname(_, current, _, _) => Some(Ask(current, TYPE_CNAME))
    case AskData(_, _, _, _, _, target) => Some(Ask(target, q.qtype))
    case AskAll => Some(Ask(q.name, TYPE_ANY))
    case AskAuthority(_) => Some(Ask(q.zone, TYPE_SOA))
    case AskNoDataAuthority(_) => Some(Ask(q.zone, TYPE_SOA))
    case AskAddresses(_, _, next, _, _) => Some(next)
    case Finished(_) => None
  }

  // ------------------------------------------------------------------- stages

  function AddressAsks(targets: seq<string>): seq<Ask> {
    if targets == [] then [] else [Ask(targets[0], TYPE_A), Ask(targets[0], TYPE_AAAA)] + AddressAsks(targets[1..])
  }

  function NextAddress(answer: seq<Record>, authority: seq<Record>, todo: seq<Ask>, listed: seq<Record>): Stage {
    if todo == [] then Finished(Resolution(RCODE_SUCCESS, answer, authority, Fresh(listed, Elems(answer)), true))
    else AskAddresses(answer, authority, todo[0], todo[1..], listed)
  }

  /** A reply is complete but for its additional section. */
  function Succeed(q: Query, answer: seq<Record>, authority: seq<Record>): Stage {
    NextAddress(answer, authority, AddressAsks(AdditionalTargets(q.zone, answer)), [])
  }

  function Chain(bound: nat, i: nat, current: string, visited: set<string>, answer: seq<Record>): Stage {
    if i < bound then AskCname(i, current, visited, answer) else Finished(SERVER_FAILURE)
  }

  function Start(q: Query): Stage {
    if q.qclass != CLASS_INET && q.qclass != CLASS_ANY then Finished(NOT_IMPLEMENTED) else AskExact
  }

  function FeedCname(q: Query, stage: Stage, found: seq<Record>): Stage
    requires stage.AskCname?
  {
    if found == [] then
      if stage.current == q.name then AskAll else AskNoDataAuthority(stage.answer)
    else
      var target := found[|found| - 1].CNAME();
      if target == "" || q.qtype == TYPE_CNAME || !IsSubDomain(q.zone, target) then
        Succeed(q, stage.answer + found, [])
      else
        AskData(stage.i, stage.current, stage.visited, stage.answer, found, target)
  }

  function FeedData(q: Query, bound: nat, stage: Stage, found: seq<Record>): Stage
    requires stage.AskData?
  {
    if found != [] then Succeed(q, stage.answer + stage.cnames + found, [])
    else if stage.target in stage.visited then Finished(SERVER_FAILURE)
    else Chain(bound, stage.i + 1, stage.target, stage.visited + {stage.target}, stage.answer + stage.cnames)
  }

  /** The stage after a lookup has come back. */
  function Feed(q: Query, bound: nat, stage: Stage, found: seq<Record>): Stage {
    match stage
    case AskExact =>
      if found != [] then Succeed(q, found, [])
      else if q.qtype == TYPE_ANY then AskAll
      else Chain(bound, 0, q.name, {q.name}, [])
    case AskCname(_, _, _, _) => FeedCname(q, stage, found)
    case AskData(_, _, _, _, _, _) => FeedData(q, bound, stage, found)
    case AskAll => AskAuthority(if found == [] then RCODE_NAME_ERROR else RCODE_SUCCESS)
    case AskAuthority(rcode) => Finished(Resolution(rcode, [], found, [], true))
    case AskNoDataAuthority(answer) => Succeed(q, answer, found)
    case AskAddresses(answer, authority, _, todo, listed) => NextAddress(answer, authority, todo, listed + found)
    case Finished(_) => stage
  }

  // ------------------------------------------------------- a store that stands

  ghost function FoundFor(db: Db, q: Query, asks: seq<Ask>): seq<Record> {
    if asks == [] then [] else At(db, q, asks[0].owner, asks[0].qtype) + FoundFor(db, q, asks[1..])
  }

  /** What a stage knows if every lookup so far was answered from this one store. */
  ghost predicate OnTrack(db: Db, q: Query, bound: nat, stage: Stage) {
    var reply := ResolveAuthoritative(db, q, bound);
    match stage
    case AskExact => AskedClass(q)
    case AskCname(i, current, visited, answer) =>
      reply == ChainReply(db, q, bound) && i < bound && LoopState(db, q, i, current, visited, answer)
    case AskData(i, current, visited, answer, cnames, target) =>
      && reply == ChainReply(db, q, bound) && i < bound && LoopState(db, q, i, current, visited, answer)
      && cnames == Cnames(db, q, current) && cnames != [] && target == Target(db, q, current) && Stays(db, q, current)
    case AskAll => reply == Negative(db, q)
    case AskAuthority(rcode) => reply == Negative(db, q) && rcode == reply.rcode
    case AskNoDataAuthority(answer) => reply == NoData(db, q, answer)
    case AskAddresses(answer, authority, next, todo, listed) =>
      var extra := Fresh(listed + FoundFor(db, q, [next] + todo), Elems(answer));
      reply == Resolution(RCODE_SUCCESS, answer, authority, extra, true)
    case Finished(r) => reply == r
  }

  lemma {:induction false} AddressesFound(db: Db, q: Query, targets: seq<string>)
    ensures FoundFor(db, q, AddressAsks(targets)) == AllAddresses(db, q, targets)
  {
    hide At;
    if targets != [] {
      var rest := AddressAsks(targets[1..]);
      var asks := AddressAsks(targets);
      AddressesFound(db, q, targets[1..]);
      assert asks == [Ask(targets[0], TYPE_A), Ask(targets[0], TYPE_AAAA)] + rest;
      assert asks[1..][1..] == rest && asks[1..][0] == Ask(targets[0], TYPE_AAAA);
      assert FoundFor(db, q, asks[1..]) == At(db, q, targets[0], TYPE_AAAA) + FoundFor(db, q, rest);
    }
  }

  lemma NextAddressOnTrack(
    db: Db, q: Query, bound: nat, answer: seq<Record>, authority: seq<Record>, todo: seq<Ask>, listed: seq<Record>)
    requires ResolveAuthoritative(db, q, bound) ==
             Resolution(RCODE_SUCCESS, answer, authority, Fresh(listed + FoundFor(db, q, todo), Elems(answer)), true)
    ensures OnTrack(db, q, bound, NextAddress(answer, authority, todo, listed))
  {
    hide At, ResolveAuthoritative, Fresh;
    if todo == [] {
      assert listed + [] == listed;
    } else {
      assert [todo[0]] + todo[1..] == todo;
    }
  }

  lemma SucceedOnTrack(db: Db, q: Query, bound: nat, answer: seq<Record>, authority: seq<Record>)
    requires ResolveAuthoritative(db, q, bound) ==
             Resolution(RCODE_SUCCESS, answer, authority, Additional(db, q, answer), true)
    ensures OnTrack(db, q, bound, Succeed(q, answer, authority))
  {
    hide ResolveAuthoritative, Fresh, AllAddresses, AddressAsks, FoundFor, AdditionalTargets, OnTrack, NextAddress;
    var targets := AdditionalTargets(q.zone, answer);
    AddressesFound(db, q, targets);
    assert [] + AllAddresses(db, q, targets) == AllAddresses(db, q, targets);
    NextAddressOnTrack(db, q, bound, answer, authority, AddressAsks(targets), []);
  }

  lemma StartOnTrack(db: Db, q: Query, bound: nat)
    ensures OnTrack(db, q, bound, Start(q))
  {
    hide At, ChainReply;
  }

  lemma ChainOnTrack(
    db: Db, q: Query, bound: nat, i: nat, current: string, visited: set<string>, answer: seq<Record>)
    requires ResolveAuthoritative(db, q, bound) == ChainReply(db, q, bound) && i <= bound
    requires LoopState(db, q, i, current, visited, answer)
    ensures OnTrack(db, q, bound, Chain(bound, i, current, visited, answer))
  {
    hide LoopState, ResolveAuthoritative, ChainReply;
    if i == bound {
      LoopExhausted(db, q, bound, current, visited, answer);
    }
  }

  lemma FeedExactOnTrack(db: Db, q: Query, bound: nat)
    requires AskedClass(q)
    ensures OnTrack(db, q, bound, Feed(q, bound, AskExact, At(db, q, q.name, q.qtype)))
  {
    hide At, ChainReply, LoopState, Additional, OnTrack, Succeed, Chain, Negative;
    var exact := At(db, q, q.name, q.qtype);
    if exact != [] {
      SucceedOnTrack(db, q, bound, exact, []);
    } else if q.qtype == TYPE_ANY {
      AllOnTrack(db, q, bound);
    } else {
      LoopStart(db, q);
      ChainOnTrack(db, q, bound, 0, q.name, {q.name}, []);
    }
  }

  lemma AllOnTrack(db: Db, q: Query, bound: nat)
    requires ResolveAuthoritative(db, q, bound) == Negative(db, q)
    ensures OnTrack(db, q, bound, AskAll)
  {
    hide ResolveAuthoritative, Negative;
  }

  lemma NoDataOnTrack(db: Db, q: Query, bound: nat, answer: seq<Record>)
    requires ResolveAuthoritative(db, q, bound) == NoData(db, q, answer)
    ensures OnTrack(db, q, bound, AskNoDataAuthority(answer))
  {
    hide ResolveAuthoritative, NoData;
  }

  /** The step of the CNAME loop that a pair of lookups amounts to. */
  lemma FeedCnameOnTrack(db: Db, q: Query, bound: nat, stage: Stage)
    requires stage.AskCname? && OnTrack(db, q, bound, stage)
    ensures OnTrack(db, q, bound, FeedCname(q, stage, Cnames(db, q, stage.current)))
  {
    hide LoopState, ResolveAuthoritative, ChainReply, Walk, At, Additional, Negative, NoData, Record.CNAME,
      Succeed, IsSubDomain;
    var i, current, visited, answer := stage.i, stage.current, stage.visited, stage.answer;
    var cnames := Cnames(db, q, current);
    TargetFacts(db, q, current);
    if cnames == [] {
      LoopNotFound(db, q, bound, i, current, visited, answer, CnameStep(false, false, "", []));
      if current == q.name {
        AllOnTrack(db, q, bound);
      } else {
        NoDataOnTrack(db, q, bound, answer);
      }
    } else if !Stays(db, q, current) {
      assert cnames + [] == cnames;
      LoopDone(db, q, bound, i, current, visited, answer, CnameStep(true, true, "", cnames));
      SucceedOnTrack(db, q, bound, answer + cnames, []);
    }
  }

  lemma FeedDataOnTrack(db: Db, q: Query, bound: nat, stage: Stage)
    requires stage.AskData? && OnTrack(db, q, bound, stage)
    ensures OnTrack(db, q, bound, FeedData(q, bound, stage, At(db, q, stage.target, q.qtype)))
  {
    hide LoopState, ResolveAuthoritative, ChainReply, Walk, At, Additional, Negative, NoData, Record.CNAME,
      Succeed, IsSubDomain, Cnames, Target, Stays, Chain;
    var i, current, visited, answer := stage.i, stage.current, stage.visited, stage.answer;
    var cnames, data := stage.cnames, At(db, q, stage.target, q.qtype);
    if data != [] {
      LoopDone(db, q, bound, i, current, visited, answer, CnameStep(true, true, "", cnames + data));
      assert answer + (cnames + data) == answer + cnames + data;
      SucceedOnTrack(db, q, bound, answer + cnames + data, []);
    } else {
      var step := CnameStep(true, false, stage.target, cnames);
      if stage.target in stage.visited {
        LoopSeen(db, q, bound, i, current, visited, answer, step);
      } else {
        LoopHop(db, q, i, current, visited, answer, step);
        ChainOnTrack(db, q, bound, i + 1, stage.target, visited + {stage.target}, answer + cnames);
      }
    }
  }

  lemma FeedRestOnTrack(db: Db, q: Query, bound: nat, stage: Stage)
    requires OnTrack(db, q, bound, stage)
    requires stage.AskAll? || stage.AskAuthority? || stage.AskNoDataAuthority?
    ensures var ask := Asked(q, stage).value;
            OnTrack(db, q, bound, Feed(q, bound, stage, At(db, q, ask.owner, ask.qtype)))
  {
    hide ResolveAuthoritative, At, Additional, Succeed;
    if stage.AskNoDataAuthority? {
      SucceedOnTrack(db, q, bound, stage.answer, SOA(db, q));
    }
  }

  lemma FeedAddressOnTrack(db: Db, q: Query, bound: nat, stage: Stage)
    requires OnTrack(db, q, bound, stage) && stage.AskAddresses?
    ensures OnTrack(db, q, bound, Feed(q, bound, stage, At(db, q, stage.next.owner, stage.next.qtype)))
  {
    hide ResolveAuthoritative, At, Fresh, NextAddress;
    var asks := [stage.next] + stage.todo;
    var found := At(db, q, stage.next.owner, stage.next.qtype);
    assert asks[0] == stage.next && asks[1..] == stage.todo;
    assert stage.listed + FoundFor(db, q, asks) == stage.listed + found + FoundFor(db, q, stage.todo);
    NextAddressOnTrack(db, q, bound, stage.answer, stage.authority, stage.todo, stage.listed + found);
  }

  lemma FeedOnTrack(db: Db, q: Query, bound: nat, stage: Stage)
    requires OnTrack(db, q, bound, stage) && Asked(q, stage).Some?
    ensures var ask := Asked(q, stage).value;
            OnTrack(db, q, bound, Feed(q, bound, stage, At(db, q, ask.owner, ask.qtype)))
  {
    hide At, FeedCname, FeedData, NextAddress, Succeed, Chain, ResolveAuthoritative, LoopState, Stays, Target, Negative,
      NoData, ChainReply, Fresh, FoundFor;
    match stage {
      case AskExact => FeedExactOnTrack(db, q, bound);
      case AskCname(_, _, _, _) => FeedCnameOnTrack(db, q, bound, stage);
      case AskData(_, _, _, _, _, _) => FeedDataOnTrack(db, q, bound, stage);
      case AskAll => FeedRestOnTrack(db, q, bound, stage);
      case AskAuthority(_) => FeedRestOnTrack(db, q, bound, stage);
      case AskNoDataAuthority(_) => FeedRestOnTrack(db, q, bound, stage);
      case AskAddresses(_, _, _, _, _) => FeedAddressOnTrack(db, q, bound, stage);
    }
  }

  // -------------------------------------------------------------- transcripts

  /** A lookup that was made and what it found. */
  datatype Exchange = Exchange(ask: Ask, found: seq<Record>)

  ghost function StageAfter(q: Query, bound: nat, talk: seq<Exchange>): Stage {
    if talk == [] then Start(q)
    else Feed(q, bound, StageAfter(q, bound, talk[..|talk| - 1]), talk[|talk| - 1].found)
  }

  /** Each lookup is the one its stage was waiting for. */
  ghost predicate IsTranscript(q: Query, bound: nat, talk: seq<Exchange>) {
    forall i :: 0 <= i < |talk| ==> Asked(q, StageAfter(q, bound, talk[..i])) == Some(talk[i].ask)
  }

  ghost predicate AnsweredBy(db: Db, q: Query, talk: seq<Exchange>) {
    forall i :: 0 <= i < |talk| ==> talk[i].found == At(db, q, talk[i].ask.owner, talk[i].ask.qtype)
  }

  lemma {:induction false} TranscriptOnTrack(db: Db, q: Query, bound: nat, talk: seq<Exchange>)
    requires IsTranscript(q, bound, talk) && AnsweredBy(db, q, talk)
    ensures OnTrack(db, q, bound, StageAfter(q, bound, talk))
  {
    hide OnTrack, Feed, Asked, Start, At;
    if talk == [] {
      StartOnTrack(db, q, bound);
    } else {
      var init, last := talk[..|talk| - 1], talk[|talk| - 1];
      assert forall i :: 0 <= i < |init| ==> init[..i] == talk[..i] && init[i] == talk[i];
      TranscriptOnTrack(db, q, bound, init);
      FeedOnTrack(db, q, bound, StageAfter(q, bound, init));
    }
  }

  /** A dialogue that is answered from one store ends in the authoritative reply of that store. */
  lemma DialogueIsAuthoritative(db: Db, q: Query, bound: nat, talk: seq<Exchange>)
    requires IsTranscript(q, bound, talk) && AnsweredBy(db, q, talk) && StageAfter(q, bound, talk).Finished?
    ensures StageAfter(q, bound, talk).reply == ResolveAuthoritative(db, q, bound)
  {
    hide StageAfter, IsTranscript, AnsweredBy, ResolveAuthoritative;
    TranscriptOnTrack(db, q, bound, talk);
  }

  // ------------------------------------------------- every dialogue comes to an end

  /** Two numbers that, read in order, get smaller with every lookup. */
  function Phase(stage: Stage): nat {
    match stage
    case AskExact => 5
    case AskCname(_, _, _, _) => 4
    case AskData(_, _, _, _, _, _) => 4
    case AskAll => 3
    case AskAuthority(_) => 2
    case AskNoDataAuthority(_) => 2
    case AskAddresses(_, _, _, _, _) => 1
    case Finished(_) => 0
  }

  function Remaining(bound: nat, stage: Stage): int {
    match stage
    case AskCname(i, _, _, _) => 2 * (bound - i) + 1
    case AskData(i, _, _, _, _, _) => 2 * (bound - i)
    case AskAddresses(_, _, _, todo, _) => |todo|
    case _ => 0
  }

  ghost predicate WithinBound(bound: nat, stage: Stage) {
    stage.AskCname? || stage.AskData? ==> stage.i < bound
  }

  lemma FeedProgresses(q: Query, bound: nat, stage: Stage, found: seq<Record>)
    requires Asked(q, stage).Some? && WithinBound(bound, stage)
    ensures var next := Feed(q, bound, stage, found);
            && WithinBound(bound, next) && 0 <= Remaining(bound, next)
            && (Phase(next) < Phase(stage)
                || (Phase(next) == Phase(stage) && Remaining(bound, next) < Remaining(bound, stage)))
  {
    hide Fresh, AdditionalTargets, AddressAsks, IsSubDomain, Record.CNAME;
  }

  lemma {:induction false} StageWithinBound(q: Query, bound: nat, talk: seq<Exchange>)
    ensures WithinBound(bound, StageAfter(q, bound, talk))
  {
    hide Feed;
    if talk != [] {
      var before := StageAfter(q, bound, talk[..|talk| - 1]);
      StageWithinBound(q, bound, talk[..|talk| - 1]);
      if Asked(q, before).Some? {
        FeedProgresses(q, bound, before, talk[|talk| - 1].found);
      } else {
        FinishedStays(q, bound, before, talk[|talk| - 1].found);
      }
    }
  }

  lemma FinishedStays(q: Query, bound: nat, stage: Stage, found: seq<Record>)
    requires Asked(q, stage).None?
    ensures stage.Finished? && Feed(q, bound, stage, found) == stage
  {
  }

  lemma TranscriptSnoc(q: Query, bound: nat, talk: seq<Exchange>, last: Exchange)
    requires IsTranscript(q, bound, talk) && Asked(q, StageAfter(q, bound, talk)) == Some(last.ask)
    ensures IsTranscript(q, bound, talk + [last])
    ensures StageAfter(q, bound, talk + [last]) == Feed(q, bound, StageAfter(q, bound, talk), last.found)
  {
    hide Feed, Asked, Start;
    var longer := talk + [last];
    assert forall i :: 0 <= i <= |talk| ==> longer[..i] == talk[..i];
    assert talk[..|talk|] == talk;
  }

  // ----------------------------------------------- every lookup stays in the zone

  ghost predicate OwnerInZone(q: Query, owner: string) {
    IsNormal(owner) && IsSubDomain(q.zone, owner)
  }

  ghost predicate StageInZone(q: Query, stage: Stage) {
    match stage
    case AskCname(_, current, _, _) => OwnerInZone(q, current)
    case AskData(_, _, _, _, _, target) => OwnerInZone(q, target)
    case AskAddresses(_, _, next, todo, _) =>
      OwnerInZone(q, next.owner) && forall a :: a in todo ==> OwnerInZone(q, a.owner)
    case _ => true
  }

  lemma {:induction false} AddressAsksInZone(q: Query, targets: seq<string>)
    requires forall t :: t in targets ==> OwnerInZone(q, t)
    ensures forall a :: a in AddressAsks(targets) ==> OwnerInZone(q, a.owner)
  {
    hide OwnerInZone;
    if targets != [] {
      AddressAsksInZone(q, targets[1..]);
    }
  }

  lemma SucceedInZone(q: Query, answer: seq<Record>, authority: seq<Record>)
    requires InZone(q)
    ensures StageInZone(q, Succeed(q, answer, authority))
  {
    var targets := AdditionalTargets(q.zone, answer);
    forall t | t in targets ensures OwnerInZone(q, t) {
      FreshMembers(PointedAt(q.zone, answer), {});
      PointedAtMembers(q.zone, answer, t);
      var a :| a in answer && PointsAt(q.zone, a) == Some(t);
      PointsInZone(q.zone, a);
    }
    hide OwnerInZone, AdditionalTargets, AddressAsks, Fresh;
    AddressAsksInZone(q, targets);
  }

  lemma CnameTargetNormal(r: Record)
    ensures r.CNAME() != "" ==> IsNormal(r.CNAME())
  {
    NormalizeIsNormal(r.data);
  }

  lemma FeedInZone(q: Query, bound: nat, stage: Stage, found: seq<Record>)
    requires InZone(q) && StageInZone(q, stage)
    ensures StageInZone(q, Feed(q, bound, stage, found))
  {
    hide Succeed, Fresh, IsNormal, IsSubDomain, Record.CNAME, InZone;
    match stage {
      case AskExact =>
        SucceedInZone(q, found, []);
        assert InZone(q) ==> OwnerInZone(q, q.name) by { OwnNameInZone(q); }
      case AskCname(_, _, _, answer) =>
        SucceedInZone(q, answer + found, []);
        if found != [] {
          CnameTargetNormal(found[|found| - 1]);
        }
      case AskData(_, _, _, answer, cnames, _) => SucceedInZone(q, answer + cnames + found, []);
      case AskNoDataAuthority(answer) => SucceedInZone(q, answer, found);
      case _ =>
    }
  }

  lemma OwnNameInZone(q: Query)
    requires InZone(q)
    ensures OwnerInZone(q, q.name)
  {
  }

  /** In every dialogue, whatever it is told, each lookup is of a normal name in the zone and so cannot fail. */
  lemma {:induction false} LookupsNeverFail(db: Db, q: Query, bound: nat, talk: seq<Exchange>)
    requires InZone(q)
    ensures StageInZone(q, StageAfter(q, bound, talk))
    ensures var asked := Asked(q, StageAfter(q, bound, talk));
            asked.Some? ==> Lookup(db, q.zone, asked.value.owner, asked.value.qtype, q.qclass)
                            == Ok(At(db, q, asked.value.owner, asked.value.qtype))
  {
    if talk != [] {
      LookupsNeverFail(db, q, bound, talk[..|talk| - 1]);
      FeedInZone(q, bound, StageAfter(q, bound, talk[..|talk| - 1]), talk[|talk| - 1].found);
    }
    var stage := StageAfter(q, bound, talk);
    hide Feed, StageAfter, Found, Lookup;
    AskedInZone(q, stage);
    if Asked(q, stage).Some? {
      var ask := Asked(q, stage).value;
      LookupInZone(db, q.(name := ask.owner), ask.qtype);
    }
  }

  lemma AskedInZone(q: Query, stage: Stage)
    requires InZone(q) && StageInZone(q, stage)
    ensures Asked(q, stage).Some? ==> InZone(q.(name := Asked(q, stage).value.owner))
  {
  }
}
