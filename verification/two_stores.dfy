/**
 Replaying one list of operations on both repositories: every read agrees, and
 both agree with the plain map.
 */
module TwoStores {
  import opened Names
  import opened Records
  import opened Database
  import opened Memory
  import opened Bbolt

  /** The plain map after a list of operations, failed ones having no effect. */
  ghost function Replay(db: Db, ops: seq<StoreOp>): Db {
    if ops == [] then db else After(Replay(db, ops[..|ops| - 1]), ops[|ops| - 1])
  }

  /** Each operation acts on what the ones before it have left. */
  lemma {:induction false} ReplayIsChain(db: Db, ops: seq<StoreOp>) returns (stores: seq<Db>)
    ensures |stores| == |ops| + 1 && stores[0] == db && stores[|ops|] == Replay(db, ops)
    ensures forall i :: 0 <= i < |ops| ==> stores[i + 1] == After(stores[i], ops[i])
  {
    hide After;
    if ops == [] {
      stores := [db];
    } else {
      var init := ops[..|ops| - 1];
      stores := ReplayIsChain(db, init);
      assert forall i :: 0 <= i < |init| ==> init[i] == ops[i];
      stores := stores + [Replay(db, ops)];
    }
  }

  datatype ReadRequest = ReadRequest(zone: BarFree, name: string, qtype: Uint16, qclass: Uint16, filter: RecordFilter)

  datatype Reads = Reads(
    zones: seq<BarFree>,
    lookup: Result<seq<Record>>,
    lookupAll: Result<seq<Record>>,
    listed: Result<seq<Record>>)

  ghost function ReadAll(db: Db, q: ReadRequest): Reads {
    Reads(
      ListZones(db),
      Lookup(db, q.zone, q.name, q.qtype, q.qclass),
      Lookup(db, q.zone, q.name, TYPE_ANY, q.qclass),
      ListRecords(db, q.filter))
  }

  method ReplayInMemory(ops: seq<StoreOp>) returns (store: MemoryStore)
    ensures fresh(store) && store.Valid() && store.db == Replay(EMPTY, ops)
  {
    hide WellFormed, Represents, Apply;
    store := new MemoryStore();
    for i := 0 to |ops|
      invariant fresh(store) && store.Valid() && store.db == Replay(EMPTY, ops[..i])
    {
      var ok := store.Perform(ops[i]);
      assert ops[..i + 1][..i] == ops[..i];
    }
    assert ops[..|ops|] == ops;
  }

  method ReplayInBbolt(ops: seq<StoreOp>) returns (store: BboltStore)
    ensures fresh(store) && store.Valid() && store.db == Replay(EMPTY, ops)
  {
    hide WellFormed, Backs, Apply;
    store := new BboltStore();
    for i := 0 to |ops|
      invariant fresh(store) && store.Valid() && store.db == Replay(EMPTY, ops[..i])
    {
      var ok := store.Perform(ops[i]);
      assert ops[..i + 1][..i] == ops[..i];
    }
    assert ops[..|ops|] == ops;
  }

  /** After the same operations the two stores answer every read alike. */
  method ReadBoth(ops: seq<StoreOp>, q: ReadRequest) returns (memory: Reads, bbolt: Reads)
    ensures memory == bbolt == ReadAll(Replay(EMPTY, ops), q)
  {
    var m := ReplayInMemory(ops);
    var b := ReplayInBbolt(ops);
    var zones := m.ListZones();
    var lookup := m.Lookup(q.zone, q.name, q.qtype, q.qclass);
    var lookupAll := m.LookupAll(q.zone, q.name, q.qclass);
    var listed := m.ListRecords(q.filter);
    memory := Reads(zones, lookup, lookupAll, listed);
    zones := b.ListZones();
    lookup := b.Lookup(q.zone, q.name, q.qtype, q.qclass);
    lookupAll := b.LookupAll(q.zone, q.name, q.qclass);
    listed := b.ListRecords(q.filter);
    bbolt := Reads(zones, lookup, lookupAll, listed);
  }
}
