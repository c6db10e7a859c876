/**
 Resolvers and writers interleaving on one store. Writers change the store in
 any number of steps, then bump the revision, then return. Resolvers read the
 revision, consult or fill the caches, and look records up one at a time.
 */
module Freshness {
  import opened Names
  import opened Records
  import opened Database
  import opened Zones
  import opened Authority
  import opened Resolving
  import opened Dialogue

  type Id = nat

  /** A read of the zone list: when, under which revision, and what was seen. */
  datatype ZoneRead = ZoneRead(at: nat, revision: nat, zones: set<BarFree>)

  /** A record lookup: when, what was asked and what was found. */
  datatype RecordRead = RecordRead(at: nat, exchange: Exchange)

  /** Everything a reply was built from: the zone list, the zone matched in it, the lookups. */
  datatype Trace = Trace(listed: ZoneRead, zone: BarFree, lookups: seq<RecordRead>)

  datatype Writer = Quiet | Dirty(last: nat)

  /** `must` holds the last change of every write that had returned when the resolver started. */
  datatype Reader =
    | Idle
    | Begun(must: set<nat>, question: Question)
    | Versioned(must: set<nat>, question: Question, version: nat)
    | Listed(must: set<nat>, question: Question, listed: ZoneRead)
    | Zoned(must: set<nat>, question: Question, listed: ZoneRead)
    | Refused(must: set<nat>, question: Question, listed: ZoneRead)
    | Keyed(must: set<nat>, question: Question, listed: ZoneRead, zone: BarFree, revision: nat)
    | Looking(must: set<nat>, question: Question, trace: Trace, revision: nat)
    | Done(must: set<nat>, question: Question, own: ZoneRead, trace: Trace, hit: bool, revision: nat)

  /**
   `history` lists every content the store has had; `reached[r]` is the newest
   content when the revision became r; `returned` holds the last change of every
   write that has returned, the initial content among them.
   */
  datatype State = State(
    bound: nat,
    history: seq<Db>,
    revision: nat,
    reached: seq<nat>,
    returned: set<nat>,
    index: Option<ZoneRead>,
    cache: map<CacheKey, Trace>,
    writers: map<Id, Writer>,
    readers: map<Id, Reader>)

  function WriterOf(s: State, w: Id): Writer {
    if w in s.writers then s.writers[w] else Quiet
  }

  function ReaderOf(s: State, r: Id): Reader {
    if r in s.readers then s.readers[r] else Idle
  }

  ghost function Init(db: Db, bound: nat): State {
    State(bound, [db], 0, [0], {0}, None, map[], map[], map[])
  }

  /** Questions as Resolve matches and caches them; the root gets a format error before anything is read. */
  ghost predicate Askable(question: Question) {
    IsNormal(question.name) && question.name != "."
  }

  function Talk(lookups: seq<RecordRead>): seq<Exchange> {
    seq(|lookups|, i requires 0 <= i < |lookups| => lookups[i].exchange)
  }

  /** How far the dialogue behind a trace has come. */
  ghost function StageOf(bound: nat, question: Question, trace: Trace): Stage {
    StageAfter(question.In(trace.zone), bound, Talk(trace.lookups))
  }

  ghost predicate Complete(bound: nat, question: Question, trace: Trace) {
    StageOf(bound, question, trace).Finished?
  }

  datatype Step =
    | Mutate(w: Id, content: Db)
    | Bump(w: Id)
    | Begin(r: Id, question: Question)
    | ReadVersion(r: Id)
    | UseIndex(r: Id)
    | ListZones(r: Id)
    | PublishIndex(r: Id)
    | Refuse(r: Id)
    | ReadRevision(r: Id)
    | Hit(r: Id)
    | Miss(r: Id)
    | Look(r: Id)
    | Answer(r: Id, remember: bool)
    | Finish(r: Id)
    | Evict(key: CacheKey)

  function Now(s: State): int {
    |s.history| - 1
  }

  function Move(s: State, r: Id, reader: Reader): State {
    s.(readers := s.readers[r := reader])
  }

  /** The lookup that the dialogue is waiting for, answered by the store as it is now. */
  ghost function ReadNow(s: State, q: Query, ask: Ask): RecordRead
    requires s.history != []
  {
    RecordRead(Now(s), Exchange(ask, At(s.history[Now(s)], q, ask.owner, ask.qtype)))
  }

  ghost function NextWriter(s: State, step: Step): Option<State>
    requires step.Mutate? || step.Bump?
  {
    match step
    case Mutate(w, content) =>
      Some(s.(history := s.history + [content], writers := s.writers[w := Dirty(|s.history|)]))
    case Bump(w) =>
      match WriterOf(s, w)
      case Quiet => None
      case Dirty(last) =>
        if s.history == [] then None
        else Some(s.(revision := s.revision + 1, reached := s.reached + [Now(s)],
                     returned := s.returned + {last}, writers := s.writers[w := Quiet]))
  }

  /** Finding the zone: reuse the index of the revision just read, or list the zones and publish a new one. */
  ghost function NextMatching(s: State, step: Step): Option<State>
    requires step.Begin? || step.ReadVersion? || step.UseIndex? || step.ListZones? || step.PublishIndex? || step.Refuse?
  {
    match (step, ReaderOf(s, step.r))
    case (Begin(r, question), Idle) =>
      if Askable(question) then Some(Move(s, r, Begun(s.returned, question))) else None
    case (ReadVersion(r), Begun(must, question)) => Some(Move(s, r, Versioned(must, question, s.revision)))
    case (UseIndex(r), Versioned(must, question, version)) =>
      if s.index.Some? && s.index.value.revision == version
      then Some(Move(s, r, Zoned(must, question, s.index.value))) else None
    case (ListZones(r), Versioned(must, question, version)) =>
      if s.history == [] then None
      else Some(Move(s, r, Listed(must, question, ZoneRead(Now(s), version, s.history[Now(s)].zones))))
    case (PublishIndex(r), Listed(must, question, listed)) =>
      Some(Move(s.(index := Some(listed)), r, Zoned(must, question, listed)))
    case (Refuse(r), Zoned(must, question, listed)) =>
      if MatchZone(listed.zones, question.name).None? then Some(Move(s, r, Refused(must, question, listed))) else None
    case _ => None
  }

  /** Replying: key the cache by the revision read now, take what it holds or look records up one at a time. */
  ghost function NextReplying(s: State, step: Step): Option<State>
    requires step.ReadRevision? || step.Hit? || step.Miss? || step.Look? || step.Answer? || step.Finish?
  {
    match (step, ReaderOf(s, step.r))
    case (ReadRevision(r), Zoned(must, question, listed)) =>
      (match MatchZone(listed.zones, question.name)
       case None => None
       case Some(zone) => Some(Move(s, r, Keyed(must, question, listed, zone, s.revision))))
    case (Hit(r), Keyed(must, question, listed, _, revision)) =>
      if CacheKey(revision, question) in s.cache
      then Some(Move(s, r, Done(must, question, listed, s.cache[CacheKey(revision, question)], true, revision)))
      else None
    case (Miss(r), Keyed(must, question, listed, zone, revision)) =>
      Some(Move(s, r, Looking(must, question, Trace(listed, zone, []), revision)))
    case (Look(r), Looking(must, question, trace, revision)) =>
      (match Asked(question.In(trace.zone), StageOf(s.bound, question, trace))
       case None => None
       case Some(ask) =>
         if s.history == [] then None
         else
           var lookups := trace.lookups + [ReadNow(s, question.In(trace.zone), ask)];
           Some(Move(s, r, Looking(must, question, trace.(lookups := lookups), revision))))
    case (Answer(r, remember), Looking(must, question, trace, revision)) =>
      if !Complete(s.bound, question, trace) then None
      else
        var s' := if remember then s.(cache := s.cache[CacheKey(revision, question) := trace]) else s;
        Some(Move(s', r, Done(must, question, trace.listed, trace, false, revision)))
    case (Finish(r), Done(_, _, _, _, _, _)) => Some(Move(s, r, Idle))
    case (Finish(r), Refused(_, _, _)) => Some(Move(s, r, Idle))
    case _ => None
  }

  /** The state after a step, if the step is possible. */
  ghost function Next(s: State, step: Step): Option<State> {
    match step
    case Mutate(_, _) => NextWriter(s, step)
    case Bump(_) => NextWriter(s, step)
    case Begin(_, _) => NextMatching(s, step)
    case ReadVersion(_) => NextMatching(s, step)
    case UseIndex(_) => NextMatching(s, step)
    case ListZones(_) => NextMatching(s, step)
    case PublishIndex(_) => NextMatching(s, step)
    case Refuse(_) => NextMatching(s, step)
    case ReadRevision(_) => NextReplying(s, step)
    case Hit(_) => NextReplying(s, step)
    case Miss(_) => NextReplying(s, step)
    case Look(_) => NextReplying(s, step)
    case Answer(_, _) => NextReplying(s, step)
    case Finish(_) => NextReplying(s, step)
    case Evict(key) => Some(s.(cache := s.cache - {key}))
  }

  /** The state after a list of steps, if all of them are possible in turn. */
  ghost function Run(s: State, steps: seq<Step>): Option<State> {
    if steps == [] then Some(s)
    else match Run(s, steps[..|steps| - 1])
      case None => None
      case Some(before) => Next(before, steps[|steps| - 1])
  }

  // -------------------------------------------------------------- invariant

  /** Revisions are reached in order, at contents that exist; the newest content has returned or is being written. */
  ghost predicate Clock(s: State) {
    && s.history != [] && |s.reached| == s.revision + 1
    && (forall i :: 0 <= i < |s.reached| ==> 0 <= s.reached[i] < |s.history|)
    && (forall i, j :: 0 <= i <= j < |s.reached| ==> s.reached[i] <= s.reached[j])
    && (forall m :: m in s.returned ==> m <= s.reached[s.revision])
    && (forall w :: w in s.writers && s.writers[w].Dirty? ==> s.writers[w].last < |s.history|)
    && (Now(s) in s.returned || exists w :: w in s.writers && s.writers[w] == Dirty(Now(s)))
  }

  /** A zone read saw a real content, no older than the revision it is filed under. */
  ghost predicate GoodZones(s: State, read: ZoneRead) {
    && read.revision < |s.reached| && s.reached[read.revision] <= read.at < |s.history|
    && read.zones == s.history[read.at].zones
  }

  /** A lookup saw a real content, no older than a given revision. */
  ghost predicate GoodRead(s: State, q: Query, read: RecordRead, revision: nat) {
    && revision < |s.reached| && s.reached[revision] <= read.at < |s.history|
    && read.exchange.found == At(s.history[read.at], q, read.exchange.ask.owner, read.exchange.ask.qtype)
  }

  /** The zone was matched in the list, and the lookups are those of the resolver's dialogue in that zone. */
  ghost predicate Matched(bound: nat, question: Question, trace: Trace) {
    && MatchZone(trace.listed.zones, question.name) == Some(trace.zone)
    && IsTranscript(question.In(trace.zone), bound, Talk(trace.lookups))
  }

  ghost predicate GoodTrace(s: State, question: Question, trace: Trace, revision: nat) {
    && GoodZones(s, trace.listed) && trace.listed.revision <= revision
    && Matched(s.bound, question, trace)
    && forall i :: 0 <= i < |trace.lookups| ==> GoodRead(s, question.In(trace.zone), trace.lookups[i], revision)
  }

  ghost predicate Covers(s: State, must: set<nat>, revision: nat) {
    revision < |s.reached| && forall m :: m in must ==> m <= s.reached[revision]
  }

  /** A zone read that no write returned before the resolver's start has overtaken. */
  ghost predicate OwnZones(s: State, must: set<nat>, listed: ZoneRead) {
    Covers(s, must, listed.revision) && GoodZones(s, listed)
  }

  ghost predicate GoodReader(s: State, reader: Reader) {
    match reader
    case Idle => true
    case Begun(must, question) => Askable(question) && Covers(s, must, s.revision)
    case Versioned(must, question, version) => Askable(question) && Covers(s, must, version)
    case Listed(must, question, listed) => Askable(question) && OwnZones(s, must, listed)
    case Zoned(must, question, listed) => Askable(question) && OwnZones(s, must, listed)
    case Refused(must, question, listed) =>
      Askable(question) && OwnZones(s, must, listed) && MatchZone(listed.zones, question.name).None?
    case Keyed(must, question, listed, zone, revision) =>
      && Askable(question) && OwnZones(s, must, listed) && MatchZone(listed.zones, question.name) == Some(zone)
      && Covers(s, must, revision) && listed.revision <= revision
    case Looking(must, question, trace, revision) =>
      && Askable(question) && OwnZones(s, must, trace.listed)
      && Covers(s, must, revision) && GoodTrace(s, question, trace, revision)
    case Done(must, question, own, trace, hit, revision) =>
      && Askable(question) && OwnZones(s, must, own) && MatchZone(own.zones, question.name).Some?
      && Covers(s, must, revision) && GoodTrace(s, question, trace, revision)
      && Complete(s.bound, question, trace) && (!hit ==> trace.listed == own)
  }

  ghost predicate GoodEntry(s: State, key: CacheKey, trace: Trace) {
    GoodTrace(s, key.question, trace, key.revision) && Complete(s.bound, key.question, trace)
  }

  ghost predicate Inv(s: State) {
    && Clock(s)
    && (s.index.Some? ==> GoodZones(s, s.index.value))
    && (forall k :: k in s.cache ==> GoodEntry(s, k, s.cache[k]))
    && (forall r :: r in s.readers ==> GoodReader(s, s.readers[r]))
  }

  /** Contents, revisions and returns only ever accumulate. */
  ghost predicate Grows(s: State, s': State) {
    s.bound == s'.bound && s.history <= s'.history && s.reached <= s'.reached && s.revision <= s'.revision
  }

  lemma TraceKept(s: State, s': State, question: Question, trace: Trace, revision: nat)
    requires Grows(s, s') && GoodTrace(s, question, trace, revision)
    ensures GoodTrace(s', question, trace, revision)
  {
    hide At, Matched;
  }

  lemma ReaderKept(s: State, s': State, reader: Reader)
    requires Grows(s, s') && Clock(s) && Clock(s') && GoodReader(s, reader)
    ensures GoodReader(s', reader)
  {
    hide At, Askable, MatchZone, Complete, GoodTrace;
    if reader.Looking? || reader.Done? {
      TraceKept(s, s', reader.question, reader.trace, reader.revision);
    }
  }

  lemma StepGrows(s: State, step: Step)
    requires Clock(s) && Next(s, step).Some?
    ensures Grows(s, Next(s, step).value) && Clock(Next(s, step).value)
  {
    if step.Mutate? || step.Bump? {
      WriterGrows(s, step);
    } else {
      OthersStand(s, step);
    }
  }

  lemma WriterGrows(s: State, step: Step)
    requires Clock(s) && (step.Mutate? || step.Bump?) && NextWriter(s, step).Some?
    ensures Grows(s, NextWriter(s, step).value) && Clock(NextWriter(s, step).value)
  {
    var s' := NextWriter(s, step).value;
    if step.Mutate? {
      assert s'.writers[step.w] == Dirty(Now(s'));
    } else if w :| w in s.writers && s.writers[w] == Dirty(Now(s)) && w != step.w {
      assert s'.writers[w] == Dirty(Now(s'));
    }
  }

  /** Only writers change the store and its clock. */
  lemma OthersStand(s: State, step: Step)
    requires Next(s, step).Some? && !step.Mutate? && !step.Bump?
    ensures var s' := Next(s, step).value;
            && s'.bound == s.bound && s'.history == s.history && s'.reached == s.reached && s'.revision == s.revision
            && s'.returned == s.returned && s'.writers == s.writers
  {
    hide At, MatchZone, Askable, StageOf, Complete, Asked;
  }

  lemma InvInit(db: Db, bound: nat)
    ensures Inv(Init(db, bound))
  {
  }

  lemma IndexStands(s: State, step: Step)
    requires Next(s, step).Some? && !step.PublishIndex?
    ensures Next(s, step).value.index == s.index
  {
    hide At, MatchZone, Askable, StageOf, Complete, Asked;
  }

  lemma StepIndex(s: State, step: Step)
    requires Inv(s) && Next(s, step).Some?
    ensures var s' := Next(s, step).value; s'.index.Some? ==> GoodZones(s', s'.index.value)
  {
    hide MatchZone, Askable, Clock, GoodEntry, Covers, NextWriter, NextReplying;
    StepGrows(s, step);
    if step.PublishIndex? {
      assert GoodReader(s, ReaderOf(s, step.r));
    } else {
      hide Next, GoodReader;
      IndexStands(s, step);
    }
  }

  /** A step other than a remembered answer adds nothing to the cache. */
  lemma CacheOnlyShrinks(s: State, step: Step)
    requires Next(s, step).Some? && !step.Answer?
    ensures forall k :: k in Next(s, step).value.cache ==> k in s.cache && Next(s, step).value.cache[k] == s.cache[k]
  {
    hide At, MatchZone, Askable, StageOf, Complete, Asked;
  }

  lemma EntryKept(s: State, s': State, key: CacheKey, trace: Trace)
    requires Grows(s, s') && GoodEntry(s, key, trace)
    ensures GoodEntry(s', key, trace)
  {
    hide GoodTrace, Complete;
    TraceKept(s, s', key.question, trace, key.revision);
  }

  lemma StepCache(s: State, step: Step, k: CacheKey)
    requires Inv(s) && Next(s, step).Some? && k in Next(s, step).value.cache
    ensures GoodEntry(Next(s, step).value, k, Next(s, step).value.cache[k])
  {
    hide Clock, GoodEntry, GoodTrace, Complete, OwnZones, Covers, Askable, MatchZone, Grows;
    var s' := Next(s, step).value;
    StepGrows(s, step);
    if step.Answer? {
      AnswerCache(s, step, k);
    } else {
      hide Next;
      CacheOnlyShrinks(s, step);
      EntryKept(s, s', k, s.cache[k]);
    }
  }

  lemma AnswerCache(s: State, step: Step, k: CacheKey)
    requires Inv(s) && step.Answer? && Next(s, step).Some? && k in Next(s, step).value.cache
    requires Grows(s, Next(s, step).value)
    ensures GoodEntry(Next(s, step).value, k, Next(s, step).value.cache[k])
  {
    hide Clock, GoodTrace, Complete, OwnZones, Covers, Askable, MatchZone, Grows, GoodZones;
    var reader := ReaderOf(s, step.r);
    assert GoodReader(s, reader);
    TraceKept(s, Next(s, step).value, reader.question, reader.trace, reader.revision);
    if k in s.cache {
      TraceKept(s, Next(s, step).value, k.question, s.cache[k], k.revision);
    }
  }

  /** The reader that a step moves, if any. */
  function Moved(step: Step): Option<Id> {
    if step.Mutate? || step.Bump? || step.Evict? then None else Some(step.r)
  }

  lemma MovedOnly(s: State, step: Step)
    requires Next(s, step).Some?
    ensures var s' := Next(s, step).value;
            s'.readers == if Moved(step).Some? then s.readers[step.r := ReaderOf(s', step.r)] else s.readers
  {
    hide At, MatchZone, Askable, StageOf, Complete, Asked;
  }

  lemma StepFindsZone(s: State, step: Step)
    requires Inv(s) && Next(s, step).Some?
    requires step.Begin? || step.ReadVersion? || step.UseIndex? || step.ListZones? || step.PublishIndex? || step.Refuse?
    ensures GoodReader(Next(s, step).value, ReaderOf(Next(s, step).value, step.r))
  {
    hide At, MatchZone, Askable, StageOf, Complete, Asked, GoodTrace, GoodEntry;
    assert GoodReader(s, ReaderOf(s, step.r));
  }

  lemma StepKeys(s: State, step: Step)
    requires Inv(s) && Next(s, step).Some? && (step.ReadRevision? || step.Finish?)
    ensures GoodReader(Next(s, step).value, ReaderOf(Next(s, step).value, step.r))
  {
    hide At, MatchZone, Askable, Complete, Asked, GoodTrace, GoodEntry;
    assert GoodReader(s, ReaderOf(s, step.r));
    OthersStand(s, step);
  }

  lemma StepReplies(s: State, step: Step)
    requires Inv(s) && Next(s, step).Some? && (step.Hit? || step.Answer?)
    ensures GoodReader(Next(s, step).value, ReaderOf(Next(s, step).value, step.r))
  {
    hide At, MatchZone, Askable, Complete, Asked, GoodTrace, Clock, OwnZones, Covers;
    var reader, s' := ReaderOf(s, step.r), Next(s, step).value;
    assert GoodReader(s, reader);
    OthersStand(s, step);
    if step.Hit? {
      var key := CacheKey(reader.revision, reader.question);
      assert GoodEntry(s, key, s.cache[key]);
      TraceKept(s, s', key.question, s.cache[key], key.revision);
      OwnStands(s, s', reader.must, reader.listed, reader.revision);
    } else {
      TraceKept(s, s', reader.question, reader.trace, reader.revision);
      TraceMatched(s, reader.question, reader.trace, reader.revision);
      OwnStands(s, s', reader.must, reader.trace.listed, reader.revision);
    }
  }

  lemma TraceMatched(s: State, question: Question, trace: Trace, revision: nat)
    requires GoodTrace(s, question, trace, revision)
    ensures MatchZone(trace.listed.zones, question.name) == Some(trace.zone)
  {
    hide At, MatchZone;
  }

  lemma StepMisses(s: State, step: Step)
    requires Inv(s) && Next(s, step).Some? && step.Miss?
    ensures GoodReader(Next(s, step).value, ReaderOf(Next(s, step).value, step.r))
  {
    hide At, MatchZone, Askable, Complete, Asked, GoodRead, GoodEntry;
    assert GoodReader(s, ReaderOf(s, step.r));
  }

  lemma StepLooks(s: State, step: Step)
    requires Inv(s) && Next(s, step).Some? && step.Look?
    ensures GoodReader(Next(s, step).value, ReaderOf(Next(s, step).value, step.r))
  {
    hide At, MatchZone, Askable, Complete, Asked, GoodEntry, StageOf, GoodTrace, OwnZones, ReadNow;
    var reader, s' := ReaderOf(s, step.r), Next(s, step).value;
    assert GoodReader(s, reader);
    OthersStand(s, step);
    LookedTrace(s, reader.question, reader.trace, reader.revision);
    var looked := ReaderOf(s', step.r);
    TraceKept(s, s', looked.question, looked.trace, looked.revision);
    OwnStands(s, s', reader.must, reader.trace.listed, reader.revision);
  }

  /** One more lookup of the current store keeps a trace good. */
  lemma LookedTrace(s: State, question: Question, trace: Trace, revision: nat)
    requires Clock(s) && GoodTrace(s, question, trace, revision) && revision < |s.reached|
    ensures var q := question.In(trace.zone);
            var ask := Asked(q, StageOf(s.bound, question, trace));
            ask.Some? ==>
              GoodTrace(s, question, trace.(lookups := trace.lookups + [ReadNow(s, q, ask.value)]), revision)
  {
    hide At, MatchZone, Asked, StageAfter, IsTranscript, GoodZones;
    var q := question.In(trace.zone);
    var stage := StageOf(s.bound, question, trace);
    if Asked(q, stage).Some? {
      var read := ReadNow(s, q, Asked(q, stage).value);
      TranscriptSnoc(q, s.bound, Talk(trace.lookups), read.exchange);
      assert Talk(trace.lookups + [read]) == Talk(trace.lookups) + [read.exchange];
      NowIsGood(s, q, read, revision);
    }
  }

  lemma NowIsGood(s: State, q: Query, read: RecordRead, revision: nat)
    requires Clock(s) && revision < |s.reached|
    requires read.at == Now(s)
    requires read.exchange.found == At(s.history[Now(s)], q, read.exchange.ask.owner, read.exchange.ask.qtype)
    ensures GoodRead(s, q, read, revision)
  {
    hide At;
  }

  lemma OwnStands(s: State, s': State, must: set<nat>, listed: ZoneRead, revision: nat)
    requires s'.history == s.history && s'.reached == s.reached
    requires OwnZones(s, must, listed) && Covers(s, must, revision)
    ensures OwnZones(s', must, listed) && Covers(s', must, revision)
  {
  }

  lemma StepMoved(s: State, step: Step)
    requires Inv(s) && Next(s, step).Some? && Moved(step).Some?
    ensures GoodReader(Next(s, step).value, ReaderOf(Next(s, step).value, step.r))
  {
    hide Next, Inv, GoodReader;
    if step.Look? {
      StepLooks(s, step);
    } else if step.Miss? {
      StepMisses(s, step);
    } else if step.ReadRevision? || step.Finish? {
      StepKeys(s, step);
    } else if step.Hit? || step.Answer? {
      StepReplies(s, step);
    } else {
      StepFindsZone(s, step);
    }
  }

  lemma StepReader(s: State, step: Step, r: Id)
    requires Inv(s) && Next(s, step).Some? && r in Next(s, step).value.readers
    ensures GoodReader(Next(s, step).value, Next(s, step).value.readers[r])
  {
    hide Next, GoodReader, Clock, GoodEntry, Grows, GoodZones;
    StepGrows(s, step);
    MovedOnly(s, step);
    if Moved(step).Some? {
      StepMoved(s, step);
    }
    if r in s.readers {
      ReaderKept(s, Next(s, step).value, s.readers[r]);
    }
  }

  /** Every step of every thread keeps the invariant. */
  lemma InvStep(s: State, step: Step)
    requires Inv(s) && Next(s, step).Some?
    ensures Inv(Next(s, step).value)
  {
    hide Next, GoodReader, GoodEntry, GoodZones, Clock;
    var s' := Next(s, step).value;
    StepGrows(s, step);
    StepIndex(s, step);
    forall k | k in s'.cache ensures GoodEntry(s', k, s'.cache[k]) { StepCache(s, step, k); }
    forall r | r in s'.readers ensures GoodReader(s', s'.readers[r]) { StepReader(s, step, r); }
  }

  lemma {:induction false} InvRun(db: Db, bound: nat, steps: seq<Step>)
    ensures Run(Init(db, bound), steps).Some? ==> Inv(Run(Init(db, bound), steps).value)
  {
    hide Inv, Next;
    InvInit(db, bound);
    if steps != [] && Run(Init(db, bound), steps).Some? {
      InvRun(db, bound, steps[..|steps| - 1]);
      InvStep(Run(Init(db, bound), steps[..|steps| - 1]).value, steps[|steps| - 1]);
    }
  }

  // ---------------------------------------------------------- fresh replies

  lemma {:induction false} RunAppend(s: State, first: seq<Step>, rest: seq<Step>)
    ensures Run(s, first + rest) == match Run(s, first) case None => None case Some(t) => Run(t, rest)
    decreases |rest|
  {
    hide Next;
    if rest == [] {
      assert first + rest == first;
    } else {
      RunAppend(s, first, rest[..|rest| - 1]);
      assert (first + rest)[..|first + rest| - 1] == first + rest[..|rest| - 1];
    }
  }

  ghost predicate NoRestart(steps: seq<Step>, r: Id) {
    forall i :: 0 <= i < |steps| ==> !(steps[i].Begin? && steps[i].r == r)
  }

  /** The resolver is idle, or still at the question it started with. */
  ghost predicate Serves(s: State, r: Id, must: set<nat>, question: Question) {
    ReaderOf(s, r).Idle? || (ReaderOf(s, r).must == must && ReaderOf(s, r).question == question)
  }

  lemma StepServes(s: State, step: Step, r: Id, must: set<nat>, question: Question)
    requires Next(s, step).Some? && !(step.Begin? && step.r == r) && Serves(s, r, must, question)
    ensures Serves(Next(s, step).value, r, must, question)
  {
    hide At, MatchZone, Askable, StageOf, Complete, Asked;
  }

  lemma {:induction false} RunServes(s: State, rest: seq<Step>, r: Id, must: set<nat>, question: Question)
    requires Run(s, rest).Some? && NoRestart(rest, r) && Serves(s, r, must, question)
    ensures Serves(Run(s, rest).value, r, must, question)
    decreases |rest|
  {
    hide Next, Serves;
    if rest != [] {
      var init := rest[..|rest| - 1];
      RunServes(s, init, r, must, question);
      StepServes(Run(s, init).value, rest[|rest| - 1], r, must, question);
    }
  }

  /** Every lookup of the trace was made no earlier than content m, and found what the store held then. */
  ghost predicate ReadsSince(s: State, question: Question, trace: Trace, m: nat) {
    forall i :: 0 <= i < |trace.lookups| ==>
      var read := trace.lookups[i];
      && m <= read.at < |s.history|
      && read.exchange.found ==
         At(s.history[read.at], question.In(trace.zone), read.exchange.ask.owner, read.exchange.ask.qtype)
  }

  ghost predicate Replied(reader: Reader) {
    reader.Refused? || reader.Done?
  }

  ghost function ReplyOf(s: State, reader: Reader): Resolution
    requires Replied(reader) && (reader.Done? ==> Complete(s.bound, reader.question, reader.trace))
  {
    if reader.Refused? then REFUSED else StageOf(s.bound, reader.question, reader.trace).reply
  }

  /** A cached reply was taken whose zone had been matched under an older revision. */
  predicate TookOldMatch(reader: Reader) {
    reader.Done? && reader.hit && reader.trace.listed.revision != reader.revision
  }

  /** The zone list that decided the reply, unless a cached one took its place. */
  ghost predicate ZonesSince(s: State, reader: Reader, m: nat)
    requires Replied(reader)
  {
    if reader.Refused? then
      m <= reader.listed.at < |s.history| && reader.listed.zones == s.history[reader.listed.at].zones
    else
      && m <= reader.own.at < |s.history| && reader.own.zones == s.history[reader.own.at].zones
      && (!TookOldMatch(reader) ==>
            m <= reader.trace.listed.at < |s.history|
            && reader.trace.listed.zones == s.history[reader.trace.listed.at].zones)
  }

  /** A run in which resolver r starts on a question after `first` and has replied at the end of `rest`. */
  ghost predicate Replies(db: Db, bound: nat, first: seq<Step>, r: Id, question: Question, rest: seq<Step>) {
    && NoRestart(rest, r)
    && Run(Init(db, bound), first).Some?
    && Run(Init(db, bound), first + [Begin(r, question)] + rest).Some?
    && Replied(ReaderOf(Run(Init(db, bound), first + [Begin(r, question)] + rest).value, r))
  }

  /**
   In every interleaving, a resolver that starts after a write has returned
   never replies from a record lookup made before that write's last change; and
   unless it took a cached reply whose zone was matched under an older revision,
   the zone list it used is no older either.
   */
  lemma FreshReplies(db: Db, bound: nat, first: seq<Step>, r: Id, question: Question, rest: seq<Step>, m: nat)
    requires Replies(db, bound, first, r, question, rest)
    ensures m in Run(Init(db, bound), first).value.returned ==>
      var s := Run(Init(db, bound), first + [Begin(r, question)] + rest).value;
      var reader := ReaderOf(s, r);
      && reader.question == question && ZonesSince(s, reader, m)
      && (reader.Done? ==> ReadsSince(s, question, reader.trace, m))
  {
    hide Next, Inv;
    StartedReader(db, bound, first, r, question, rest);
    InvRun(db, bound, first + [Begin(r, question)] + rest);
    if m in Run(Init(db, bound), first).value.returned {
      RepliedIsFresh(Run(Init(db, bound), first + [Begin(r, question)] + rest).value, r, m);
    }
  }

  lemma StartedReader(db: Db, bound: nat, first: seq<Step>, r: Id, question: Question, rest: seq<Step>)
    requires Replies(db, bound, first, r, question, rest)
    ensures var s := Run(Init(db, bound), first + [Begin(r, question)] + rest).value;
            ReaderOf(s, r).must == Run(Init(db, bound), first).value.returned && ReaderOf(s, r).question == question
  {
    hide Next;
    var begin := [Begin(r, question)];
    RunAppend(Init(db, bound), first + begin, rest);
    RunAppend(Init(db, bound), first, begin);
    var s0 := Run(Init(db, bound), first).value;
    var s1 := Run(s0, begin).value;
    BeginServes(s0, r, question);
    RunServes(s1, rest, r, s0.returned, question);
  }

  lemma BeginServes(s: State, r: Id, question: Question)
    requires Run(s, [Begin(r, question)]).Some?
    ensures Serves(Run(s, [Begin(r, question)]).value, r, s.returned, question)
  {
    assert Run(s, []) == Some(s);
    assert [Begin(r, question)][..0] == [];
  }

  lemma RepliedIsFresh(s: State, r: Id, m: nat)
    requires Inv(s) && Replied(ReaderOf(s, r)) && m in ReaderOf(s, r).must
    ensures ZonesSince(s, ReaderOf(s, r), m)
    ensures var reader := ReaderOf(s, r); reader.Done? ==> ReadsSince(s, reader.question, reader.trace, m)
  {
    hide At, MatchZone, Clock, Matched, Complete, Askable;
    var reader := ReaderOf(s, r);
    assert GoodReader(s, reader);
    if reader.Done? {
      var q := reader.question.In(reader.trace.zone);
      assert forall i :: 0 <= i < |reader.trace.lookups| ==> GoodRead(s, q, reader.trace.lookups[i], reader.revision);
    }
  }

  // ------------------------------------------------ replies of a quiet store

  ghost predicate AllQuiet(s: State) {
    forall w :: WriterOf(s, w).Quiet?
  }

  ghost predicate NoWrites(steps: seq<Step>) {
    forall i :: 0 <= i < |steps| ==> !steps[i].Mutate?
  }

  lemma QuietStep(s: State, step: Step)
    requires AllQuiet(s) && !step.Mutate? && Next(s, step).Some?
    ensures Next(s, step).value.history == s.history && AllQuiet(Next(s, step).value)
  {
    if !step.Bump? {
      OthersStand(s, step);
      assert forall w :: WriterOf(Next(s, step).value, w) == WriterOf(s, w);
    }
  }

  lemma {:induction false} QuietRun(s: State, rest: seq<Step>)
    requires AllQuiet(s) && NoWrites(rest) && Run(s, rest).Some?
    ensures Run(s, rest).value.history == s.history && AllQuiet(Run(s, rest).value)
  {
    if rest != [] {
      hide Next, AllQuiet;
      QuietRun(s, rest[..|rest| - 1]);
      QuietStep(Run(s, rest[..|rest| - 1]).value, rest[|rest| - 1]);
    }
  }

  /** The reply follows from the store as it is, in the zone that was matched. */
  ghost predicate IsCurrent(s: State, reader: Reader, current: Db, bound: nat)
    requires Replied(reader)
  {
    if reader.Refused? then MatchZone(current.zones, reader.question.name).None?
    else
      && Complete(s.bound, reader.question, reader.trace)
      && ReplyOf(s, reader) == ResolveAuthoritative(current, reader.question.In(reader.trace.zone), bound)
      && MatchZone(current.zones, reader.question.name).Some?
  }

  /** The zone behind the reply is the one that the store as it is would match. */
  ghost predicate RightZone(reader: Reader, current: Db)
    requires Replied(reader)
  {
    reader.Done? ==> MatchZone(current.zones, reader.question.name) == Some(reader.trace.zone)
  }

  /**
   While no write is under way, a resolver replies, from whatever the caches
   hold, as the current store does in the zone it matched; that zone is the right
   one unless a cached reply was matched under an older revision.
   */
  lemma QuietReplies(db: Db, bound: nat, first: seq<Step>, r: Id, question: Question, rest: seq<Step>)
    requires Replies(db, bound, first, r, question, rest)
    requires AllQuiet(Run(Init(db, bound), first).value) && NoWrites(rest)
    ensures var s0 := Run(Init(db, bound), first).value;
            var s := Run(Init(db, bound), first + [Begin(r, question)] + rest).value;
            var reader := ReaderOf(s, r);
            && s0.history != [] && s.history == s0.history && IsCurrent(s, reader, s0.history[Now(s0)], bound)
            && (!TookOldMatch(reader) ==> RightZone(reader, s0.history[Now(s0)]))
  {
    hide Next, Inv, IsCurrent, RightZone, AllQuiet, ZonesSince, ReadsSince;
    var s0 := Run(Init(db, bound), first).value;
    InvRun(db, bound, first);
    NewestReturned(s0);
    QuietHistory(db, bound, first, r, question, rest);
    FreshReplies(db, bound, first, r, question, rest, Now(s0));
    InvRun(db, bound, first + [Begin(r, question)] + rest);
    BoundStands(db, bound, first + [Begin(r, question)] + rest);
    NewestIsCurrent(Run(Init(db, bound), first + [Begin(r, question)] + rest).value, r);
  }

  lemma NewestReturned(s: State)
    requires Inv(s)
    ensures s.history != [] && (AllQuiet(s) ==> Now(s) in s.returned)
  {
    hide GoodEntry, GoodReader, GoodZones;
    if w :| w in s.writers && s.writers[w] == Dirty(Now(s)) {
      assert WriterOf(s, w).Dirty?;
    }
  }

  lemma QuietHistory(db: Db, bound: nat, first: seq<Step>, r: Id, question: Question, rest: seq<Step>)
    requires Replies(db, bound, first, r, question, rest)
    requires AllQuiet(Run(Init(db, bound), first).value) && NoWrites(rest)
    ensures Run(Init(db, bound), first + [Begin(r, question)] + rest).value.history
            == Run(Init(db, bound), first).value.history
  {
    hide Next, AllQuiet;
    var begin := [Begin(r, question)];
    assert first + begin + rest == first + (begin + rest);
    RunAppend(Init(db, bound), first, begin + rest);
    QuietRun(Run(Init(db, bound), first).value, begin + rest);
  }

  lemma {:induction false} BoundStands(db: Db, bound: nat, steps: seq<Step>)
    requires Run(Init(db, bound), steps).Some?
    ensures Run(Init(db, bound), steps).value.bound == bound
  {
    if steps != [] {
      hide Next;
      var init := steps[..|steps| - 1];
      BoundStands(db, bound, init);
      InvRun(db, bound, init);
      StepGrows(Run(Init(db, bound), init).value, steps[|steps| - 1]);
    }
  }

  /** Reads no older than the newest content are reads of the newest content. */
  lemma NewestIsCurrent(s: State, r: Id)
    requires Inv(s) && Replied(ReaderOf(s, r)) && s.history != [] && ZonesSince(s, ReaderOf(s, r), Now(s))
    requires var reader := ReaderOf(s, r); reader.Done? ==> ReadsSince(s, reader.question, reader.trace, Now(s))
    ensures IsCurrent(s, ReaderOf(s, r), s.history[Now(s)], s.bound)
    ensures var reader := ReaderOf(s, r);
            !TookOldMatch(reader) ==> RightZone(reader, s.history[Now(s)])
  {
    hide At, MatchZone, Askable, Clock, StageAfter, IsTranscript, ResolveAuthoritative, GoodEntry;
    var reader, current := ReaderOf(s, r), s.history[Now(s)];
    assert GoodReader(s, reader);
    if reader.Done? {
      var q := reader.question.In(reader.trace.zone);
      assert AnsweredBy(current, q, Talk(reader.trace.lookups));
      DialogueIsAuthoritative(current, q, s.bound, Talk(reader.trace.lookups));
    }
  }

  // ------------------------------------------------------ a fixed zone set

  ghost predicate KeepsZones(steps: seq<Step>, zones: set<BarFree>) {
    forall i :: 0 <= i < |steps| && steps[i].Mutate? ==> steps[i].content.zones == zones
  }

  lemma HistoryStep(s: State, step: Step)
    requires Next(s, step).Some?
    ensures Next(s, step).value.history == if step.Mutate? then s.history + [step.content] else s.history
  {
    if !step.Mutate? && !step.Bump? {
      OthersStand(s, step);
    }
  }

  lemma {:induction false} ZonesNeverChange(db: Db, bound: nat, steps: seq<Step>)
    requires KeepsZones(steps, db.zones) && Run(Init(db, bound), steps).Some?
    ensures var s := Run(Init(db, bound), steps).value;
            forall i :: 0 <= i < |s.history| ==> s.history[i].zones == db.zones
  {
    if steps != [] {
      hide Next;
      var init := steps[..|steps| - 1];
      ZonesNeverChange(db, bound, init);
      HistoryStep(Run(Init(db, bound), init).value, steps[|steps| - 1]);
    }
  }

  /** While no zone comes or goes, every reply of every interleaving is from the right zone. */
  lemma FixedZonesAlwaysRight(db: Db, bound: nat, steps: seq<Step>, r: Id)
    requires KeepsZones(steps, db.zones) && Run(Init(db, bound), steps).Some?
    requires Replied(ReaderOf(Run(Init(db, bound), steps).value, r))
    ensures var reader := ReaderOf(Run(Init(db, bound), steps).value, r);
            MatchZone(db.zones, reader.question.name) == if reader.Refused? then None else Some(reader.trace.zone)
  {
    hide Next, Run, At, MatchZone, IsTranscript, Complete, Askable;
    InvRun(db, bound, steps);
    ZonesNeverChange(db, bound, steps);
    var s := Run(Init(db, bound), steps).value;
    assert GoodReader(s, ReaderOf(s, r));
  }

  /**
   With a fixed zone set and no write under way, every resolver that starts now
   gives the reply of the current store, computed without caches.
   */
  lemma QuietFixedReplies(db: Db, bound: nat, first: seq<Step>, r: Id, question: Question, rest: seq<Step>)
    requires Replies(db, bound, first, r, question, rest)
    requires AllQuiet(Run(Init(db, bound), first).value) && NoWrites(rest)
    requires KeepsZones(first, db.zones)
    ensures var s0 := Run(Init(db, bound), first).value;
            var s := Run(Init(db, bound), first + [Begin(r, question)] + rest).value;
            var reader := ReaderOf(s, r);
            && s0.history != [] && (reader.Done? ==> Complete(s.bound, reader.question, reader.trace))
            && ReplyOf(s, reader) == InMatchedZone(s0.history[Now(s0)], question, bound)
  {
    hide Next, Run, Complete, ResolveAuthoritative, MatchZone, AllQuiet, RightZone;
    var begin := [Begin(r, question)];
    var steps := first + begin + rest;
    assert KeepsZones(steps, db.zones);
    StartedReader(db, bound, first, r, question, rest);
    QuietReplies(db, bound, first, r, question, rest);
    FixedZonesAlwaysRight(db, bound, steps, r);
    ZonesNeverChange(db, bound, first);
  }

  // ----------------------------------------------------- stale zones on a hit

  lemma Extend(s: State, steps: seq<Step>, t: State, step: Step)
    requires Run(s, steps) == Some(t)
    ensures Run(s, steps + [step]) == Next(t, step)
  {
    hide Next;
    assert (steps + [step])[..|steps|] == steps;
  }

  lemma Advance(s: State, steps: seq<Step>, t: State, step: Step) returns (steps': seq<Step>, t': State)
    requires Run(s, steps) == Some(t) && Next(t, step).Some?
    ensures steps' == steps + [step] && t' == Next(t, step).value && Run(s, steps') == Some(t')
  {
    Extend(s, steps, t, step);
    steps', t' := steps + [step], Next(t, step).value;
  }

  lemma StartOf(s: State)
    ensures Run(s, []) == Some(s)
  {
  }

  /** A resolver lists the zones and publishes its index. */
  lemma MatchSteps(s0: State, before: seq<Step>, s: State, r: Id, question: Question)
    returns (steps: seq<Step>, t: State)
    requires Run(s0, before) == Some(s) && s.history != [] && ReaderOf(s, r).Idle? && Askable(question)
    ensures Run(s0, steps) == Some(t)
    ensures var listed := ZoneRead(Now(s), s.revision, s.history[Now(s)].zones);
            t == Move(s.(index := Some(listed)), r, Zoned(s.returned, question, listed))
  {
    hide Run, Askable, MatchZone, NextWriter, NextReplying;
    steps, t := Advance(s0, before, s, Begin(r, question));
    steps, t := Advance(s0, steps, t, ReadVersion(r));
    steps, t := Advance(s0, steps, t, ListZones(r));
    steps, t := Advance(s0, steps, t, PublishIndex(r));
  }

  /** Left alone, a resolver brings its lookups to an end. */
  lemma {:induction false} LooksFinish(s0: State, before: seq<Step>, s: State, r: Id)
    returns (steps: seq<Step>, t: State, trace: Trace)
    requires Run(s0, before) == Some(s) && s.history != [] && ReaderOf(s, r).Looking?
    ensures var reader := ReaderOf(s, r);
            && Run(s0, steps) == Some(t)
            && t == Move(s, r, Looking(reader.must, reader.question, trace, reader.revision))
            && trace.listed == reader.trace.listed && trace.zone == reader.trace.zone
            && Complete(s.bound, reader.question, trace)
    decreases Phase(StageOf(s.bound, ReaderOf(s, r).question, ReaderOf(s, r).trace)),
      Remaining(s.bound, StageOf(s.bound, ReaderOf(s, r).question, ReaderOf(s, r).trace))
  {
    hide Run, At, Asked, Feed, Phase, Remaining, StageAfter;
    var reader := ReaderOf(s, r);
    var q := reader.question.In(reader.trace.zone);
    var stage := StageOf(s.bound, reader.question, reader.trace);
    if Asked(q, stage).None? {
      FinishedStays(q, s.bound, stage, []);
      steps, t, trace := before, s, reader.trace;
    } else {
      var read := ReadNow(s, q, Asked(q, stage).value);
      StageAfterSnoc(q, s.bound, Talk(reader.trace.lookups), read.exchange);
      assert Talk(reader.trace.lookups + [read]) == Talk(reader.trace.lookups) + [read.exchange];
      StageWithinBound(q, s.bound, Talk(reader.trace.lookups));
      FeedProgresses(q, s.bound, stage, read.exchange.found);
      steps, t := Advance(s0, before, s, Look(r));
      steps, t, trace := LooksFinish(s0, steps, t, r);
    }
  }

  lemma StageAfterSnoc(q: Query, bound: nat, talk: seq<Exchange>, last: Exchange)
    ensures StageAfter(q, bound, talk + [last]) == Feed(q, bound, StageAfter(q, bound, talk), last.found)
  {
    hide Feed, Start;
    assert (talk + [last])[..|talk|] == talk;
  }

  /** A resolver that has matched its zone looks everything up and files its reply. */
  lemma AnswerSteps(s0: State, before: seq<Step>, s: State, r: Id, zone: BarFree)
    returns (steps: seq<Step>, t: State, trace: Trace)
    requires Run(s0, before) == Some(s) && s.history != [] && ReaderOf(s, r).Zoned?
    requires MatchZone(ReaderOf(s, r).listed.zones, ReaderOf(s, r).question.name) == Some(zone)
    ensures var reader := ReaderOf(s, r);
            && Run(s0, steps) == Some(t) && trace.listed == reader.listed && trace.zone == zone
            && t.history == s.history && t.revision == s.revision && t.returned == s.returned
            && t.cache == s.cache[CacheKey(s.revision, reader.question) := trace]
            && t.readers.Keys == s.readers.Keys + {r}
  {
    hide Run, At, MatchZone, StageOf, Complete;
    var reader := ReaderOf(s, r);
    steps, t := Advance(s0, before, s, ReadRevision(r));
    steps, t := Advance(s0, steps, t, Miss(r));
    steps, t, trace := LooksFinish(s0, steps, t, r);
    steps, t := Advance(s0, steps, t, Answer(r, true));
  }

  /** One write after another brings the store through a list of contents. */
  lemma {:induction false} WriteSteps(s0: State, before: seq<Step>, s: State, contents: seq<Db>)
    returns (steps: seq<Step>, t: State)
    requires Run(s0, before) == Some(s) && s.history != [] && Now(s) in s.returned && WriterOf(s, 0).Quiet?
    ensures Run(s0, steps) == Some(t) && WriterOf(t, 0).Quiet?
    ensures t.history == s.history + contents && Now(t) in t.returned
    ensures t.readers == s.readers && t.cache == s.cache
    decreases |contents|
  {
    hide Run;
    if contents == [] {
      assert s.history + contents == s.history;
      steps, t := before, s;
    } else {
      steps, t := Advance(s0, before, s, Mutate(0, contents[0]));
      steps, t := Advance(s0, steps, t, Bump(0));
      assert t.history + contents[1..] == s.history + contents;
      steps, t := WriteSteps(s0, steps, t, contents[1..]);
    }
  }

  /**
   The store goes through these contents; a resolver that starts after the last
   write has returned replies from a cached entry, in a zone that the last
   content does not match.
   */
  ghost predicate StaleHit(contents: seq<Db>, bound: nat, question: Question, steps: seq<Step>, r: Id)
    requires contents != []
  {
    var run := Run(Init(contents[0], bound), steps);
    && run.Some? && run.value.history == contents
    && var reader := ReaderOf(run.value, r);
       && reader.Done? && reader.hit && reader.question == question && |contents| - 1 in reader.must
       && !RightZone(reader, contents[|contents| - 1])
  }

  /** The name was matched in the i-th content and is matched in the last one, by different zones. */
  ghost predicate ZoneMoved(contents: seq<Db>, i: int, name: string) {
    && 0 <= i < |contents|
    && MatchZone(contents[i].zones, name).Some? && MatchZone(contents[|contents| - 1].zones, name).Some?
    && MatchZone(contents[i].zones, name) != MatchZone(contents[|contents| - 1].zones, name)
  }

  /** A slow resolver matches its zone in the i-th content and files its reply after the last write. */
  lemma SlowResolver(contents: seq<Db>, i: nat, bound: nat, question: Question)
    returns (steps: seq<Step>, s: State)
    requires i < |contents| && Askable(question) && MatchZone(contents[i].zones, question.name).Some?
    ensures Run(Init(contents[0], bound), steps) == Some(s)
    ensures s.history == contents && Now(s) in s.returned && s.readers.Keys == {0}
    ensures var key := CacheKey(s.revision, question);
            key in s.cache && Some(s.cache[key].zone) == MatchZone(contents[i].zones, question.name)
  {
    hide Run, MatchZone, Askable;
    var s0 := Init(contents[0], bound);
    StartOf(s0);
    steps, s := WriteSteps(s0, [], s0, contents[1..i + 1]);
    assert s.history == contents[..i + 1];
    steps, s := MatchSteps(s0, steps, s, 0, question);
    steps, s := WriteSteps(s0, steps, s, contents[i + 1..]);
    assert s.history == contents;
    var trace;
    steps, s, trace := AnswerSteps(s0, steps, s, 0, MatchZone(contents[i].zones, question.name).value);
  }

  lemma StaleRun(contents: seq<Db>, i: nat, bound: nat, question: Question) returns (steps: seq<Step>)
    requires contents != [] && Askable(question) && ZoneMoved(contents, i, question.name)
    ensures StaleHit(contents, bound, question, steps, 1)
  {
    hide Run, MatchZone, Askable, Init, NextWriter, StageOf, Asked;
    var s0 := Init(contents[0], bound);
    var s;
    steps, s := SlowResolver(contents, i, bound, question);
    steps, s := MatchSteps(s0, steps, s, 1, question);
    steps, s := Advance(s0, steps, s, ReadRevision(1));
    steps, s := Advance(s0, steps, s, Hit(1));
  }

  /** What a stale hit replies: the answer of the last content, in the zone matched in an earlier one. */
  lemma StaleHitReply(contents: seq<Db>, bound: nat, question: Question, steps: seq<Step>, r: Id) returns (i: nat)
    requires contents != [] && StaleHit(contents, bound, question, steps, r)
    ensures Askable(question) && ZoneMoved(contents, i, question.name)
    ensures var s := Run(Init(contents[0], bound), steps).value;
            var reader := ReaderOf(s, r);
            && Complete(s.bound, question, reader.trace)
            && ReplyOf(s, reader) ==
               ResolveAuthoritative(contents[|contents| - 1],
                                    question.In(MatchZone(contents[i].zones, question.name).value), bound)
  {
    hide Next, Run, At, MatchZone, IsTranscript, Askable, StageAfter, ResolveAuthoritative, Clock, GoodEntry;
    InvRun(contents[0], bound, steps);
    BoundStands(contents[0], bound, steps);
    var s := Run(Init(contents[0], bound), steps).value;
    var reader, last := ReaderOf(s, r), contents[|contents| - 1];
    assert GoodReader(s, reader);
    RepliedIsFresh(s, r, |contents| - 1);
    i := reader.trace.listed.at;
    var q := question.In(reader.trace.zone);
    assert AnsweredBy(last, q, Talk(reader.trace.lookups));
    DialogueIsAuthoritative(last, q, bound, Talk(reader.trace.lookups));
  }

  /**
   Zone matching is not covered by the revision key. For any contents that the
   store goes through, a later resolver can be given a cached reply from the
   wrong zone if and only if the name is matched in the last content and was
   matched by another zone in an earlier one.
   */
  lemma StaleZoneExactly(contents: seq<Db>, bound: nat, question: Question)
    requires contents != []
    ensures (exists steps, r :: StaleHit(contents, bound, question, steps, r))
       <==> Askable(question) && exists i :: ZoneMoved(contents, i, question.name)
  {
    hide StaleHit, Askable, MatchZone;
    if steps, r :| StaleHit(contents, bound, question, steps, r) {
      var i := StaleHitReply(contents, bound, question, steps, r);
    }
    if i :| Askable(question) && ZoneMoved(contents, i, question.name) {
      var steps := StaleRun(contents, i, bound, question);
    }
  }

  /** Creating a zone, one change of the store, does so exactly for the names that it takes over from a served zone. */
  lemma NewZoneStaleExactly(db: Db, zone: BarFree, bound: nat, question: Question)
    requires WellFormed(db) && IsNormalZone(zone) && Askable(question)
    ensures (exists steps, r :: StaleHit([db, db.(zones := db.zones + {zone})], bound, question, steps, r))
       <==> && IsSubDomain(zone, question.name) && MatchZone(db.zones, question.name).Some?
            && |Labels(MatchZone(db.zones, question.name).value)| < |Labels(zone)|
  {
    hide StaleHit, Askable, MatchZone, Labels;
    var contents := [db, db.(zones := db.zones + {zone})];
    StaleZoneExactly(contents, bound, question);
    assert IsFqdn(question.name) by { AskableIsFqdn(question); }
    assert AllFqdn(db.zones) && IsFqdn(zone);
    MatchAfterNewZone(db.zones, zone, question.name);
    assert (exists i :: ZoneMoved(contents, i, question.name)) <==> ZoneMoved(contents, 0, question.name);
  }

  lemma AskableIsFqdn(question: Question)
    requires Askable(question)
    ensures IsFqdn(question.name)
  {
  }
}
