/**
 Dynamic updates in the manner of RFC 2136: each update record is one manager
 operation, and a message is applied record by record until one is refused.
 */
module Updates {
  import opened Names
  import opened Ordering
  import opened Records
  import opened Database
  import opened Memory
  import opened Validation
  import opened Management
  import opened ManagementTheorems
  import opened ChangeTheorems

  /** A record of the update section; the data is its printed fields joined by blanks. */
  datatype UpdateRR = UpdateRR(name: BarFree, ttl: Uint32, cls: Uint16, rrtype: Uint16, data: string)

  function RecordFromRR(zone: BarFree, rr: UpdateRR): Result<Record> {
    NormalizeRecord(Record(zone, rr.name, rr.ttl, rr.cls, rr.rrtype, rr.data))
  }

  /** Class ANY deletes an RRset or a name, class NONE deletes one record, any other class adds. */
  function OpFor(zone: BarFree, rr: UpdateRR): Result<ManagerOp> {
    if rr.cls == CLASS_ANY then
      Ok(if rr.rrtype == TYPE_ANY then ManagerOp.DeleteName(zone, rr.name)
         else ManagerOp.DeleteRRSet(zone, rr.name, rr.rrtype))
    else
      match RecordFromRR(zone, rr)
      case Err => Err
      case Ok(r) =>
        if rr.cls == CLASS_NONE then Ok(ManagerOp.DeleteRecord(r.(cls := CLASS_INET)))
        else Ok(ManagerOp.UpsertRecord(r))
  }

  ghost function UpdateOne(db: Db, zone: BarFree, rr: UpdateRR): Result<Db> {
    match OpFor(zone, rr) case Err => Err case Ok(op) => Meaning(db, op)
  }

  /** How many records of the message are applied before one is refused. */
  ghost function Applied(db: Db, zone: BarFree, rrs: seq<UpdateRR>): (n: nat)
    ensures n <= |rrs|
    decreases |rrs|
  {
    if rrs == [] then 0
    else match UpdateOne(db, zone, rrs[0])
      case Err => 0
      case Ok(after) => 1 + Applied(after, zone, rrs[1..])
  }

  ghost function UpdateAll(db: Db, zone: BarFree, rrs: seq<UpdateRR>): Db
    decreases |rrs|
  {
    if rrs == [] then db
    else match UpdateOne(db, zone, rrs[0])
      case Err => db
      case Ok(after) => UpdateAll(after, zone, rrs[1..])
  }

  // ----------------------------------------------- the meaning of the records

  /** The records of other zones, owners or types. */
  ghost function Outside(records: map<RecordKey, Record>, zone: BarFree, owner: BarFree, rrtype: Uint16)
    : map<RecordKey, Record>
  {
    map k | k in records && !(k.zone == zone && k.name == owner && (rrtype == TYPE_ANY || k.rrtype == rrtype))
      :: records[k]
  }

  /**
   The four forms of section 2.5 of RFC 2136: add to an RRset, delete an RRset,
   delete all RRsets of a name, delete one record. As in the server, the apex is
   not protected and any class other than ANY and NONE adds.
   */
  ghost function Effect2136(records: map<RecordKey, Record>, zone: BarFree, rr: UpdateRR): map<RecordKey, Record> {
    var owner := NormalizeName(rr.name);
    if rr.cls == CLASS_ANY then
      Outside(records, zone, owner, rr.rrtype)
    else
      match RecordFromRR(zone, rr)
      case Err => records
      case Ok(r) => if rr.cls == CLASS_NONE then records - {r.(cls := CLASS_INET).Key()} else records[r.Key() := r]
  }

  ghost function Fold2136(records: map<RecordKey, Record>, zone: BarFree, rrs: seq<UpdateRR>): map<RecordKey, Record>
    decreases |rrs|
  {
    if rrs == [] then records else Fold2136(Effect2136(records, zone, rrs[0]), zone, rrs[1..])
  }

  lemma DeleteEffect(db: Db, zone: BarFree, name: BarFree, rrtype: Uint16)
    requires WellFormed(db)
    ensures WithoutRRset(db, zone, name, rrtype).records ==
            Outside(db.records, zone, name, rrtype)
  {
    hide WellFormed, RRsetKeys;
    RemovedKeys(db, zone, name, rrtype);
  }

  /** An accepted update record has exactly the effect of its form. */
  lemma AcceptedUpdate(db: Db, zone: BarFree, rr: UpdateRR)
    requires WellFormed(db) && IsNormalZone(zone) && UpdateOne(db, zone, rr).Ok?
    ensures UpdateOne(db, zone, rr).value.records == Effect2136(db.records, zone, rr)
  {
    hide WellFormed, NormalizeRecord, NormalizeName, NormalizeRRSetLookup, NormalizeZoneName, IsNormalZone,
      IsNormalRecord, Record.Key, WithoutRRset, WeaklyValid;
    if rr.cls == CLASS_ANY {
      LookupZone(zone, rr.name);
      NormalizeZoneNameFacts(zone);
      DeleteEffect(db, zone, NormalizeName(rr.name), rr.rrtype);
    } else {
      var r := RecordFromRR(zone, rr).value;
      NormalizeRecordFacts(Record(zone, rr.name, rr.ttl, rr.cls, rr.rrtype, rr.data));
      NormalizeRecordFacts(r);
      ReclassedNormal(r);
      NormalizeRecordFacts(r.(cls := CLASS_INET));
    }
  }

  lemma ReclassedNormal(r: Record)
    requires IsNormalRecord(r)
    ensures IsNormalRecord(r.(cls := CLASS_INET))
  {
    hide IsNormal, IsSubDomain, NoEdgeSpace;
  }

  lemma UpdateKeepsSound(db: Db, zone: BarFree, rr: UpdateRR)
    requires Sound(db) && UpdateOne(db, zone, rr).Ok?
    ensures Sound(UpdateOne(db, zone, rr).value)
  {
    hide Sound, Meaning, OpFor;
    MeaningKeepsSound(db, OpFor(zone, rr).value);
  }

  /**
   A message leaves the fold of the records before the first refused one: of all
   of them when it succeeds. Zones stay valid either way.
   */
  lemma {:induction false} UpdateIsFold(db: Db, zone: BarFree, rrs: seq<UpdateRR>)
    requires Sound(db) && IsNormalZone(zone)
    ensures var n, after := Applied(db, zone, rrs), UpdateAll(db, zone, rrs);
            && after.records == Fold2136(db.records, zone, rrs[..n]) && Sound(after)
            && (n < |rrs| ==> UpdateOne(after, zone, rrs[n]).Err?)
    decreases |rrs|
  {
    hide IsNormalZone, UpdateOne, Effect2136, Sound;
    if rrs == [] {
    } else if UpdateOne(db, zone, rrs[0]).Ok? {
      var after := UpdateOne(db, zone, rrs[0]).value;
      var n := Applied(after, zone, rrs[1..]);
      SoundIsWellFormed(db);
      AcceptedUpdate(db, zone, rrs[0]);
      UpdateKeepsSound(db, zone, rrs[0]);
      UpdateIsFold(after, zone, rrs[1..]);
      assert rrs[..n + 1][1..] == rrs[1..][..n];
    }
  }

  method ApplyUpdateRR(m: Manager, zone: BarFree, rr: UpdateRR) returns (ok: bool)
    requires m.store.Valid()
    modifies m.store
    ensures m.store.Valid() && Commits(old(m.store.db), UpdateOne(old(m.store.db), zone, rr), ok, m.store.db)
    ensures Advances(old(m.store.db), old(m.store.revision), m.store.db, m.store.revision)
  {
    hide WellFormed, Represents, Meaning, NormalizeRecord;
    if rr.cls == CLASS_ANY {
      var deleted;
      if rr.rrtype == TYPE_ANY {
        deleted := m.DeleteName(zone, rr.name);
      } else {
        deleted := m.DeleteRRSet(zone, rr.name, rr.rrtype);
      }
      return deleted.Ok?;
    }
    var record := RecordFromRR(zone, rr);
    if record.Err? {
      return false;
    }
    if rr.cls == CLASS_NONE {
      ok := m.DeleteRecord(record.value.(cls := CLASS_INET));
    } else {
      ok := m.UpsertRecord(record.value);
    }
  }

  /** Apply the records of a message in order, stopping at the first that is refused. */
  method ApplyUpdate(m: Manager, zone: BarFree, rrs: seq<UpdateRR>) returns (ok: bool)
    requires m.store.Valid()
    modifies m.store
    ensures m.store.Valid() && m.store.db == UpdateAll(old(m.store.db), zone, rrs)
    ensures ok <==> Applied(old(m.store.db), zone, rrs) == |rrs|
    ensures Advances(old(m.store.db), old(m.store.revision), m.store.db, m.store.revision)
  {
    hide WellFormed, Represents, UpdateOne;
    ghost var before, revision := m.store.db, m.store.revision;
    for i := 0 to |rrs|
      invariant m.store.Valid()
      invariant UpdateAll(before, zone, rrs) == UpdateAll(m.store.db, zone, rrs[i..])
      invariant Applied(before, zone, rrs) == i + Applied(m.store.db, zone, rrs[i..])
      invariant Advances(before, revision, m.store.db, m.store.revision)
    {
      assert rrs[i..][1..] == rrs[i + 1..];
      var applied := ApplyUpdateRR(m, zone, rrs[i]);
      if !applied {
        return false;
      }
    }
    return true;
  }
}
