/**
 Whole sequential runs of one resolver over one store: writes to the store,
 managed writes, seed imports, evictions and questions in any order. The caches
 are invisible in the replies.
 */
module CacheTransparency {
  import opened Names
  import opened Records
  import opened Database
  import opened Memory
  import opened Zones
  import opened Authority
  import opened Resolving
  import opened Management
  import opened Sessions
  import opened Seeding

  datatype Step =
    | Write(op: StoreOp)
    | Manage(action: Action)
    | Import(seed: SeedData)
    | Evict(key: CacheKey)
    | Ask(question: Question)

  /** What a step does to the store, whether or not it succeeds. */
  ghost function AfterStep(db: Db, step: Step): Db {
    match step
    case Write(op) => After(db, op)
    case Manage(action) => Outcome(db, action)
    case Import(seed) => (match Imported(db, seed) case Ok(after) => after case Err => db)
    case Evict(_) => db
    case Ask(_) => db
  }

  /** The replies of a run in which every question is answered from the store alone. */
  ghost function Expected(db: Db, steps: seq<Step>, bound: nat): seq<Resolution>
    decreases |steps|
  {
    if steps == [] then []
    else
      (if steps[0].Ask? then [Uncached(db, steps[0].question, bound)] else [])
      + Expected(AfterStep(db, steps[0]), steps[1..], bound)
  }

  /** The store that a run leaves. */
  ghost function AfterSteps(db: Db, steps: seq<Step>): Db
    decreases |steps|
  {
    if steps == [] then db else AfterSteps(AfterStep(db, steps[0]), steps[1..])
  }

  /** A question after any steps is answered, last of all, from the store that those steps leave. */
  lemma {:induction false} LastReply(db: Db, before: seq<Step>, question: Question, bound: nat)
    ensures Expected(db, before + [Ask(question)], bound) ==
            Expected(db, before, bound) + [Uncached(AfterSteps(db, before), question, bound)]
    decreases |before|
  {
    hide Uncached, AfterStep;
    var steps := before + [Ask(question)];
    if before == [] {
      assert steps == [Ask(question)] && steps[1..] == [];
      assert Expected(AfterStep(db, steps[0]), [], bound) == [];
    } else {
      LastReply(AfterStep(db, before[0]), before[1..], question, bound);
      assert steps[0] == before[0] && steps[1..] == before[1..] + [Ask(question)];
    }
  }

  lemma ExpectedAt(db: Db, steps: seq<Step>, i: nat, bound: nat)
    requires i < |steps|
    ensures Expected(db, steps[i..], bound) ==
            (if steps[i].Ask? then [Uncached(db, steps[i].question, bound)] else [])
            + Expected(AfterStep(db, steps[i]), steps[i + 1..], bound)
  {
    hide Uncached, AfterStep;
    assert steps[i..][1..] == steps[i + 1..];
  }

  lemma NothingExpected(db: Db, bound: nat)
    ensures Expected(db, [], bound) == []
  {
  }

  /** The steps that write. */
  method Change(manager: Manager, step: Step)
    requires manager.store.Valid() && (step.Write? || step.Manage? || step.Import?)
    modifies manager.store
    ensures manager.store.Valid() && manager.store.db == AfterStep(old(manager.store.db), step)
    ensures Advances(old(manager.store.db), old(manager.store.revision), manager.store.db, manager.store.revision)
  {
    hide WellFormed, Represents, Apply, Outcome, Imported, Collected;
    match step {
      case Write(op) => var ok := manager.store.Perform(op);
      case Manage(action) => Sessions.Perform(manager, action);
      case Import(seed) => var result := ImportSeedData(manager.store, seed);
    }
  }

  method ChangeUnder(resolver: Resolver, manager: Manager, step: Step)
    requires resolver.Valid() && manager.store == resolver.store && (step.Write? || step.Manage? || step.Import?)
    modifies resolver.store
    ensures resolver.Valid() && resolver.store.db == AfterStep(old(resolver.store.db), step)
  {
    hide WellFormed, Represents, AfterStep, CoherentReplies, CoherentZones;
    var store := resolver.store;
    ghost var db, revision := store.db, store.revision;
    Change(manager, step);
    NewerRevisionKeepsCoherence(
      resolver.cache, resolver.zones, resolver.zonesLoaded, resolver.zonesVersion,
      db, revision, resolver.maxCNAMEChain, store.db, store.revision);
  }

  /** Whatever is written, imported, evicted and asked, every reply is the one an uncached resolver would give. */
  method Run(resolver: Resolver, manager: Manager, steps: seq<Step>) returns (replies: seq<Resolution>)
    requires resolver.Valid() && manager.store == resolver.store
    modifies resolver, resolver.store
    ensures resolver.Valid()
    ensures replies == Expected(old(resolver.store.db), steps, resolver.maxCNAMEChain)
  {
    hide WellFormed, Represents, After, Outcome, Imported, Uncached, CoherentReplies, CoherentZones, Expected,
      Normalized, MatchZone;
    ghost var expected := Expected(resolver.store.db, steps, resolver.maxCNAMEChain);
    replies := [];
    for i := 0 to |steps|
      invariant resolver.Valid()
      invariant replies + Expected(resolver.store.db, steps[i..], resolver.maxCNAMEChain) == expected
    {
      ExpectedAt(resolver.store.db, steps, i, resolver.maxCNAMEChain);
      match steps[i] {
        case Evict(key) => resolver.Evict(key);
        case Ask(question) =>
          var reply := resolver.Resolve(question);
          replies := replies + [reply];
        case _ => ChangeUnder(resolver, manager, steps[i]);
      }
    }
    assert steps[|steps|..] == [];
    NothingExpected(resolver.store.db, resolver.maxCNAMEChain);
  }
}
