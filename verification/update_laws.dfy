/**
 What dynamic updates mean, said about the update records: the four forms of
 section 2.5 of RFC 2136, when a record is refused, and in what order they act.
 */
module UpdateLaws {
  import opened Names
  import opened Ordering
  import opened Records
  import opened Database
  import opened StoreLaws
  import opened Validation
  import opened Management
  import opened ManagementTheorems
  import opened ManagementLaws
  import opened Updates

  /** The stored form of an update record: its fields in the zone of the message. */
  ghost predicate IsUpdateRecord(n: Record, zone: BarFree, rr: UpdateRR) {
    && IsNormalRecord(n) && n.zone == zone && IsNormalFormOf(n.name, rr.name)
    && n.ttl == rr.ttl && n.rrtype == rr.rrtype && IsTrimOf(n.data, rr.data)
    && n.cls == (if rr.cls == 0 then CLASS_INET else rr.cls)
  }

  lemma UpdateRecordExactly(n: Record, zone: BarFree, rr: UpdateRR)
    requires IsNormalZone(zone)
    ensures RecordFromRR(zone, rr) == Ok(n) <==> IsUpdateRecord(n, zone, rr)
  {
    NormalizeRecordExactly(Record(zone, rr.name, rr.ttl, rr.cls, rr.rrtype, rr.data), n);
    NormalNameStands(zone, n.zone);
    hide IsNormalFormOf, IsTrimOf, IsNormal, IsSubDomain, NoEdgeSpace, NormalizeRecord;
  }

  lemma UpdateRecordNormal(n: Record, zone: BarFree, rr: UpdateRR)
    requires IsUpdateRecord(n, zone, rr)
    ensures IsNormalRecord(n) && n.zone == zone
  {
    hide IsNormalRecord, IsNormalFormOf, IsTrimOf;
  }

  /** What an update record does to the stored records. */
  ghost predicate HasUpdateEffect(db: Db, after: Db, zone: BarFree, rr: UpdateRR) {
    if rr.cls == CLASS_ANY then
      exists owner: BarFree :: IsNormalFormOf(owner, rr.name) && Removes(db, after, zone, owner, rr.rrtype)
    else if rr.cls == CLASS_NONE then
      exists n :: IsUpdateRecord(n, zone, rr) && Takes(db, after, n.(cls := CLASS_INET))
    else
      exists n :: IsUpdateRecord(n, zone, rr) && Puts(db, after, n)
  }

  lemma OwnerOf(rr: UpdateRR)
    ensures IsNormalFormOf(NormalizeName(rr.name), rr.name)
  {
    NormalizeExactly(rr.name, Normalize(rr.name));
  }

  lemma DeletionExactly(db: Db, zone: BarFree, rr: UpdateRR, owner: BarFree)
    requires WellFormed(db) && IsNormalZone(zone) && rr.cls == CLASS_ANY && IsNormalFormOf(owner, rr.name)
    ensures UpdateOne(db, zone, rr).Ok? <==> Usable(zone, owner)
    ensures UpdateOne(db, zone, rr).Ok? ==> Removes(db, UpdateOne(db, zone, rr).value, zone, owner, rr.rrtype)
  {
    hide WellFormed, IsNormalFormOf, IsNormal, Meaning, Usable, Removes;
    NormalNameStands(zone, zone);
    DeleteRRSetExactly(db, zone, rr.name, rr.rrtype, zone, owner);
    DeleteNameExactly(db, zone, rr.name, zone, owner);
  }

  lemma RemovalExactly(db: Db, zone: BarFree, rr: UpdateRR, n: Record)
    requires IsNormalZone(zone) && rr.cls == CLASS_NONE && IsUpdateRecord(n, zone, rr)
    ensures UpdateOne(db, zone, rr).Ok? && Takes(db, UpdateOne(db, zone, rr).value, n.(cls := CLASS_INET))
  {
    hide IsUpdateRecord, IsNormalRecord, IsNormalZone, RecordFromRR, Record.Key, Apply, Takes;
    UpdateRecordExactly(n, zone, rr);
    UpdateRecordNormal(n, zone, rr);
    ReclassedNormal(n);
    DeleteTakes(db, n.(cls := CLASS_INET));
  }

  lemma DeleteTakes(db: Db, r: Record)
    requires IsNormalRecord(r)
    ensures Apply(db, StoreOp.DeleteRecord(r)).Ok? && Takes(db, Apply(db, StoreOp.DeleteRecord(r)).value, r)
  {
    hide IsNormalRecord, IsNormalRecordOf, NormalizeRecord, Record.Key, SameAt, Apply;
    NormalStands(r);
    forall k { DeleteRecordExactly(db, r, r, k); }
    DeleteRecordExactly(db, r, r, r.Key());
  }

  lemma NormalStands(r: Record)
    requires IsNormalRecord(r)
    ensures IsNormalRecordOf(r, r)
  {
    NormalizeRecordFacts(r);
    NormalizeRecordExactly(r, r);
    hide IsNormalRecord, IsNormalRecordOf, NormalizeRecord;
  }

  lemma AdditionExactly(db: Db, zone: BarFree, rr: UpdateRR, n: Record)
    requires IsNormalZone(zone) && rr.cls != CLASS_ANY && rr.cls != CLASS_NONE && IsUpdateRecord(n, zone, rr)
    ensures UpdateOne(db, zone, rr).Ok? <==> WeaklyValid(zone, ZoneKeys(db, zone) + {n.Key()})
    ensures UpdateOne(db, zone, rr).Ok? ==> Puts(db, UpdateOne(db, zone, rr).value, n)
  {
    hide IsUpdateRecord, IsNormalRecord, IsNormalRecordOf, IsNormalZone, NormalizeRecord, Record.Key, SameAt, Meaning,
      WeaklyValid, ZoneKeys, RecordFromRR;
    UpdateRecordExactly(n, zone, rr);
    UpdateRecordNormal(n, zone, rr);
    NormalStands(n);
    forall k { UpsertRecordExactly(db, n, n, k); }
    UpsertRecordExactly(db, n, n, n.Key());
  }

  /**
   A deletion is refused if and only if its owner is the root or outside the zone;
   a record is refused if it has no stored form, and an added one also if the zone
   would not stay valid.
   */
  lemma RefusedExactly(db: Db, zone: BarFree, rr: UpdateRR)
    requires WellFormed(db) && IsNormalZone(zone)
    ensures UpdateOne(db, zone, rr).Ok? <==>
            if rr.cls == CLASS_ANY then
              exists owner: BarFree :: IsNormalFormOf(owner, rr.name) && Usable(zone, owner)
            else
              exists n :: IsUpdateRecord(n, zone, rr)
                          && (rr.cls == CLASS_NONE || WeaklyValid(zone, ZoneKeys(db, zone) + {n.Key()}))
  {
    hide WellFormed, IsNormalZone, IsNormalFormOf, IsUpdateRecord, Usable, WeaklyValid, ZoneKeys, Meaning, RecordFromRR,
      Takes, Puts, Removes, Record.Key;
    if rr.cls == CLASS_ANY {
      OwnerOf(rr);
      forall owner: BarFree | IsNormalFormOf(owner, rr.name) { DeletionExactly(db, zone, rr, owner); }
    } else {
      forall n { UpdateRecordExactly(n, zone, rr); }
      if RecordFromRR(zone, rr).Ok? {
        var n := RecordFromRR(zone, rr).value;
        if rr.cls == CLASS_NONE {
          RemovalExactly(db, zone, rr, n);
        } else {
          AdditionExactly(db, zone, rr, n);
        }
      }
    }
  }

  /** An accepted update record has the effect of its form. */
  lemma AcceptedHasEffect(db: Db, zone: BarFree, rr: UpdateRR)
    requires WellFormed(db) && IsNormalZone(zone) && UpdateOne(db, zone, rr).Ok?
    ensures HasUpdateEffect(db, UpdateOne(db, zone, rr).value, zone, rr)
  {
    hide WellFormed, IsNormalZone, IsNormalFormOf, IsUpdateRecord, Usable, WeaklyValid, ZoneKeys, Meaning, RecordFromRR,
      Takes, Puts, Removes, Record.Key;
    if rr.cls == CLASS_ANY {
      OwnerOf(rr);
      DeletionExactly(db, zone, rr, NormalizeName(rr.name));
    } else {
      var n := RecordFromRR(zone, rr).value;
      UpdateRecordExactly(n, zone, rr);
      if rr.cls == CLASS_NONE {
        RemovalExactly(db, zone, rr, n);
      } else {
        AdditionExactly(db, zone, rr, n);
      }
    }
  }

  /** Each store is the one before it after one update record. */
  ghost predicate IsUpdateChain(stores: seq<Db>, zone: BarFree, rrs: seq<UpdateRR>) {
    |stores| <= |rrs| + 1
    && forall i :: 0 <= i < |stores| - 1 ==> HasUpdateEffect(stores[i], stores[i + 1], zone, rrs[i])
  }

  lemma ChainCons(db: Db, rest: seq<Db>, zone: BarFree, rrs: seq<UpdateRR>)
    requires rrs != [] && rest != [] && IsUpdateChain(rest, zone, rrs[1..])
    requires HasUpdateEffect(db, rest[0], zone, rrs[0])
    ensures IsUpdateChain([db] + rest, zone, rrs)
  {
    hide HasUpdateEffect;
    var stores := [db] + rest;
    forall i | 0 <= i < |stores| - 1 ensures HasUpdateEffect(stores[i], stores[i + 1], zone, rrs[i]) {
      if i > 0 {
        assert stores[i] == rest[i - 1] && stores[i + 1] == rest[i] && rrs[i] == rrs[1..][i - 1];
      }
    }
  }

  /**
   A message acts record by record in the order of the message: to its end, or up
   to the first record that is refused by the store as it then is.
   */
  lemma {:induction false} UpdateIsChain(db: Db, zone: BarFree, rrs: seq<UpdateRR>) returns (stores: seq<Db>)
    requires Sound(db) && IsNormalZone(zone)
    ensures stores != [] && stores[0] == db && stores[|stores| - 1] == UpdateAll(db, zone, rrs)
    ensures IsUpdateChain(stores, zone, rrs) && |stores| == Applied(db, zone, rrs) + 1
    ensures |stores| <= |rrs| ==> UpdateOne(stores[|stores| - 1], zone, rrs[|stores| - 1]).Err?
    decreases |rrs|
  {
    hide IsNormalZone, UpdateOne, Sound, HasUpdateEffect;
    if rrs != [] && UpdateOne(db, zone, rrs[0]).Ok? {
      var after := UpdateOne(db, zone, rrs[0]).value;
      SoundIsWellFormed(db);
      AcceptedHasEffect(db, zone, rrs[0]);
      UpdateKeepsSound(db, zone, rrs[0]);
      var rest := UpdateIsChain(after, zone, rrs[1..]);
      ChainCons(db, rest, zone, rrs);
      stores := [db] + rest;
    } else {
      stores := [db];
    }
  }
}
