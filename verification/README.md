# A verified model of an authoritative DNS engine

This project models the `dnsserver` package in Dafny: an authoritative DNS engine
with a revisioned store, a caching resolver, a manager that validates every write,
change sets with a dry run, dynamic updates and seed import. It proves what the
parts promise each other, for every input, every run and every interleaving.

`dafny verify dfyconfig.toml` checks the whole project.

## How the model is laid out

Everything meets in one plain value, `Database.Db`: a set of zones and a map from
record key to record. Store operations, manager operations, change sets, update
messages and replies all have a meaning as functions of that value. The classes and
methods are written as the code is written (row table, prefix scan, loops, caches,
one store write at a time) and each is proved to have exactly its meaning. The
theorems are then about the meanings, and the meanings themselves are characterised by
laws that speak only of the given texts and the stored fields: what a normal form is,
when two records are the same, which records a reply holds, what each change does.

| files | what they hold |
|---|---|
| `names`, `ordering`, `records` | name normalisation, orders and sorting, records, keys, filters |
| `key_encoding` | keys printed as one string; when a prefix search is exact |
| `database`, `store_laws`, `memory_store`, `bbolt_store`, `two_stores` | the plain map and its laws, the two repositories that refine it, and their agreement |
| `zone_index` | the prefix index on label-reversed names against the most specific suffix |
| `resolution`, `resolution_theorems`, `chain_paths` | replies as functions of the store; CNAME chains, response codes, additional section |
| `lifetime`, `resolver`, `cache_transparency` | cache lifetimes; the resolver with its two caches; sequential runs |
| `dialogue`, `freshness` | a reply as a dialogue of single lookups; resolvers and writers interleaving |
| `validation`, `manager`, `manager_theorems` | zone rules on lists and on keys; the manager; what each operation keeps and leaves behind |
| `manager_laws`, `change_laws`, `update_laws`, `seed_laws` | what each operation, change, update record and import does, in terms of its input and the stored records only |
| `change_sets`, `change_theorems`, `change_runs` | dry run and real run of a batch; when they agree; when a batch applies |
| `updates`, `sessions`, `seeding`, `snapshot` | dynamic updates, whole sessions, seed import, RRset grouping |

The main results, each for all inputs:

* **Caches are invisible.** Over any sequence of store writes, manager operations, change
  sets, updates, imports, evictions and questions every reply is the one computed from
  the store alone (`CacheTransparency.Run`).
* **Replies are fresh.** In every interleaving of writers and resolvers a resolver that
  starts after a write returned uses no record lookup made before that write's last
  change (`Freshness.FreshReplies`). When no write is under way and the zone set is
  fixed, it gives the uncached reply of the current store, although its lookups and
  those behind the cache were made one by one (`Freshness.QuietFixedReplies`). A cached
  reply from the wrong zone is possible if and only if the name is matched now and was
  matched by another zone in an earlier content (`Freshness.StaleZoneExactly`).
* **CNAME chains are exact.** The alias paths held by the store, defined without
  mentioning the loop, are answered exactly when they fit the bound, and SERVFAIL means
  that none does (`ChainPaths`).
* **The dry run predicts the real run.** Step by step the agreement holds if and only if
  a stated condition on the change holds (`ChangeTheorems.StepExact`); over whole uniform
  batches it always does (`ChangeRuns.PreviewPredictsApply`). An accepted batch may still
  stop (`ChangeTheorems.AcceptedBatchMayStop`); it applies to its end if and only if the
  dry run is weakly valid after every prefix and zone and RRset changes carry their own
  zone (`ChangeRuns.AppliesExactly`).
* **Zones stay valid.** Every session of manager operations, change sets and update
  messages, failed ones included, keeps SOA at the apex and single and CNAMEs alone
  (`Sessions.EverySessionIsValid`).
* **Two stores, one map.** Row table and ordered-key scan answer every read alike
  (`TwoStores.ReadBoth`), because prefixes of printed keys are exact if and only if zone
  and owner are free of `|` (`KeyEncoding.ExactIffBarFree`).

"Weakly valid" is what `validateZoneRecords` checks without the apex NS requirement,
"strongly valid" is with it.

Where the code does less than a reader may expect, the model follows the code and says
exactly when the expectation holds:

| expectation | shown to fail by | holds exactly when |
|---|---|---|
| a lookup prefix names one zone, owner and type | `KeyEncoding.SeparatorCausesClash` | zone and owner have no `\|` (`ExactIffBarFree`) |
| no cached reply outlives its records | `Lifetimes.ZeroHidesShorter` | no record has TTL zero (`OutlivesNoneExactly`); those with a TTL are respected when the ones hidden by the last zero are (`NonZeroRespectedExactly`) |
| a cached reply is from the zone that matches the name now | `Freshness.StaleRun` | no earlier content matched the name by another zone, or nothing matches it now (`StaleZoneExactly`) |
| dry run and real run agree after a change | `ChangeTheorems.AnyTypeDiverges` | `StepAgrees` holds before it (`StepExact`) |
| an accepted batch applies | `ChangeTheorems.AcceptedBatchMayStop` | every prefix is weakly valid and zone and RRset changes carry their own zone (`AppliesExactly`) |
| a seed import keeps zones valid | `Seeding.ImportMayBreakZone` | no seed record clashes with a stored one (`ImportKeepsValidExactly`) |

## Model

| member | source | states |
|---|---|---|
| Names.NormalizeIdempotent | dnsserver/record.go:28-35 | normalising twice is normalising once, and the names it leaves alone are exactly the lower-case, fully qualified ones without a leading blank |
| Names.NormalizationsAgree | dnsserver/resolver.go:152-156 | trimming then lower-casing, as for questions, equals lower-casing then trimming, as for stored names |
| Names.NormalizeExactly | dnsserver/record.go:28-35 | the normal form of a text is the text without white space at its ends, each capital replaced by its small letter, with a final dot |
| Names.SameLower | dnsserver/record.go:70-82 | two texts have one lower-case form if and only if they are letter by letter the same up to case |
| Ordering.StrLessExactly | dnsserver/store_helpers.go:28-64 | texts are compared in dictionary order: at the first difference the smaller character, or the end, comes first |
| Records.NormalizeRecordFacts | dnsserver/record.go:37-68 | normalised records have the stored shape, and a record is its own normal form if and only if it has that shape |
| Records.NormalizeRecordExactly | dnsserver/record.go:37-68 | a record is accepted as n if and only if n has the normal forms of its names, its trimmed data, its TTL and type, its class or IN, and the stored shape |
| Records.NormalizeZoneNameExactly | dnsserver/record.go:28-35 | a zone name is accepted with its normal form unless that is the root |
| Records.SameKeyExactly | dnsserver/record.go:70-82 | records of one zone, owner, type, class and, up to case, data share a key whatever their TTLs; short of a fingerprint collision no others do |
| Records.CnameExactly | dnsserver/record.go:119-125 | an alias leads to the normal form of its data, to the data itself if that is a normal name, and other types lead nowhere |
| Records.ByRecordExactly | dnsserver/store_helpers.go:28-49 | records are ordered by zone, then owner, then type, then data |
| KeyEncoding.PrefixExact | dnsserver/record.go:84-91 | the lookup prefix of (zone, name, type) starts a printed key if and only if zone and name agree and the type agrees or is ANY |
| KeyEncoding.LookupPrefixExact | dnsserver/store/bbolt/records.go:52-66 | the same when the asked name is any fully qualified text, even one with separators in it |
| KeyEncoding.ExactIffBarFree | dnsserver/record.go:70-91 | prefix search is exact for a key if and only if its zone and owner are free of the separator |
| KeyEncoding.SeparatorCausesClash | dnsserver/record.go:70-82 | two records of different zones and owners containing the separator print the same key |
| KeyEncoding.EncodeInjective | dnsserver/record.go:70-82 | the printed key determines zone, owner, type and fingerprint |
| KeyEncoding.FiveDigitsExactly | dnsserver/record.go:70-91 | the type is printed as the five decimal digits of its number |
| KeyEncoding.ZonePrefixExact | dnsserver/store_memory.go:172-179 | the prefix of a zone deletion reaches the keys of that zone and of no zone whose name it begins |
| Database.ApplyKeepsWellFormed | dnsserver/store_memory.go:40-101 | every store operation keeps records normalised, at their own key, and in an existing zone |
| StoreLaws.SaveZoneExactly | dnsserver/store_memory.go:40-51 | the zones gain the normal form of the text and the records stay; only the root is refused |
| StoreLaws.DeleteZoneExactly | dnsserver/store_memory.go:53-65 | the zone and every record of it are gone, every other key is as it was |
| StoreLaws.SaveRecordExactly | dnsserver/store_memory.go:76-88 | the normal form of the record is stored, its zone exists, every other key is as it was |
| StoreLaws.DeleteRecordExactly | dnsserver/store_memory.go:90-101 | the key of the record is gone, every other key is as it was |
| StoreLaws.ResaveReplaces | dnsserver/store_memory.go:76-88 | saving a stored record again with another TTL or case replaces it and leaves the set of keys alone |
| StoreLaws.NewTtlReplaces | dnsserver/store_memory.go:76-88 | saving a stored record with a new TTL changes that TTL and nothing else |
| StoreLaws.LookupExactly | dnsserver/store_helpers.go:10-26 | a lookup gives the stored records of the normal forms of its texts, of the type and class or of any, once each in data order; it fails exactly for the root as zone or a name outside the zone |
| StoreLaws.ListRecordsExactly | dnsserver/record_filter.go:10-75 | a listing gives the stored records whose zone, owner, type and class the filter names or leaves open, once each in order; it fails exactly for a filter that names the root or an owner outside its zone |
| StoreLaws.ListZonesExactly | dnsserver/store_memory.go:67-74 | the zones once each in dictionary order |
| Memory.MemoryStore.SaveZone | dnsserver/store_memory.go:40-51 | adds exactly the normalised zone under a newer revision, or changes nothing |
| Memory.MemoryStore.DeleteZone | dnsserver/store_memory.go:53-65 | removes exactly that zone and its records under a newer revision, or changes nothing |
| Memory.MemoryStore.SaveRecord | dnsserver/store_memory.go:76-88 | puts exactly the normalised record at its key and its zone in the zone set, or changes nothing |
| Memory.MemoryStore.DeleteRecord | dnsserver/store_memory.go:90-101 | removes exactly the record's key, keeping the row table in step with the map, or changes nothing |
| Memory.MemoryStore.ListZones | dnsserver/store_memory.go:67-74 | lists each zone once in ascending order |
| Memory.MemoryStore.ListRecords | dnsserver/store_memory.go:103-117 | by whichever access path, returns exactly the records that match the filter, in record order |
| Memory.MemoryStore.RecordCandidates | dnsserver/store_memory.go:147-170 | all three access paths yield only stored records, once each, and miss none that the filter matches |
| Memory.MemoryStore.Lookup | dnsserver/store_memory.go:119-126 | returns exactly the records of the zone, owner, type and class in data order, or fails on a bad zone or an outside name |
| Memory.MemoryStore.LookupAll | dnsserver/store_memory.go:128-135 | returns exactly the records of the zone and owner of any type, or fails likewise |
| Memory.MemoryStore.LookupRecords | dnsserver/store_memory.go:137-145 | one row read, filtered and sorted, is the map's RRset |
| Memory.RemoveRowsRepresents | dnsserver/store_memory.go:172-179 | dropping the rows that start with the zone's text drops that zone's records and no others |
| Bbolt.BboltStore.SaveZone | dnsserver/store/bbolt/store.go:87-103 | the same store effect on the flat bucket, records untouched |
| Bbolt.BboltStore.DeleteZone | dnsserver/store/bbolt/store.go:105-148 | collecting and deleting keys by prefix removes exactly that zone's records |
| Bbolt.BboltStore.SaveRecord | dnsserver/store/bbolt/store.go:170-190 | saving the zone and then the record has the effect of one record save on the map |
| Bbolt.BboltStore.DeleteRecord | dnsserver/store/bbolt/store.go:192-208 | removes exactly the record's key |
| Bbolt.BboltStore.ListZones | dnsserver/store/bbolt/store.go:150-168 | lists each zone once in ascending order |
| Bbolt.BboltStore.ListRecords | dnsserver/store/bbolt/records.go:14-28 | the prefix scan of a filter loses no match and the filtered scan is exactly the matching records in order |
| Bbolt.BboltStore.Lookup | dnsserver/store/bbolt/records.go:30-39 | the prefix scan returns exactly the map's RRset in data order |
| Bbolt.BboltStore.LookupAll | dnsserver/store/bbolt/records.go:41-50 | the prefix scan of all types returns exactly the owner's records |
| Bbolt.BboltStore.ScanRecordsByPrefix | dnsserver/store/bbolt/records.go:68-82 | yields each stored record whose printed key starts with the prefix once, and nothing else |
| TwoStores.ReadBoth | dnsserver/store/bbolt/records.go:14-91 | after any list of operations both stores give the same zones, lookups and listings, those of the plain map |
| TwoStores.ReplayIsChain | dnsserver/store_memory.go:40-101 | each operation of a list acts on what the ones before it have left |
| Zones.SubDomainIsLabelSuffix | dnsserver/zone_index.go:29-43 | textual containment of names is the label-suffix relation |
| Zones.ReversedPrefixIsSubDomain | dnsserver/zone_index.go:29-57 | reversed texts are string prefixes if and only if the name lies in the zone, so the final containment check never rejects a hit |
| Zones.ReverseDNSName | dnsserver/zone_index.go:45-57 | swapping labels in place yields the labels in reverse, each followed by a dot |
| Zones.UniqueSortedZoneNames | dnsserver/resolver.go:233-256 | the names without repetition, longest first and then alphabetically |
| Zones.NewZoneIndex | dnsserver/zone_index.go:16-27 | the index maps reversed names to zones and back, for exactly the listed zones |
| Zones.Match | dnsserver/zone_index.go:29-43 | returns the listed zone with the most labels that contains the name, and none if and only if none contains it |
| Zones.MatchAfterNewZone | dnsserver/zone_index.go:29-43 | a new zone takes over a served name if and only if it contains the name and has more labels than the zone that served it |
| Validation.ValidateZoneRecords | dnsserver/validation.go:13-35 | accepts a list if and only if SOAs are at the apex and at most one, CNAMEs share no owner, and, if asked, an SOA comes with an apex NS |
| Validation.ValidateSOAPlacement | dnsserver/validation.go:98-109 | accepts if and only if every SOA is at the apex |
| Validation.ValidateCNAMEConflicts | dnsserver/validation.go:141-175 | grouping by owner and counting accepts if and only if no two records share an owner with a CNAME among them |
| Validation.ListValidIsKeyValid | dnsserver/validation.go:13-35 | on lists without repeated keys the checks on the list are the rules on its set of keys, both weak and strong |
| Validation.ValidSubset | dnsserver/validation.go:13-35 | weak validity is closed under removing records |
| Validation.UpsertRecords | dnsserver/validation.go:77-90 | the loop with a growing key set keeps the first record of every key, in order |
| Validation.FirstPerKeyFacts | dnsserver/validation.go:77-90 | keeping the first per key loses no key, repeats none and invents no record |
| Validation.FirstPerKeyExactly | dnsserver/validation.go:77-90 | a record is kept if and only if no record before it has its key |
| Authority.ReentryNeverEnds | dnsserver/resolver_authoritative.go:70-103 | a walk that returns to an owner it has passed never finds an ending |
| Authority.EndedWalkIsSimple | dnsserver/resolver_authoritative.go:160-167 | up to its ending a walk visits pairwise distinct owners |
| Authority.FailureCharacterisation | dnsserver/resolver_authoritative.go:70-103 | SERVFAIL if and only if none of the owners within the bound is an ending, and always when the walk re-enters itself |
| AuthorityTheorems.ChainAnswerIsPath | dnsserver/resolver_authoritative.go:70-145 | in a weakly valid zone the answer is a linked path of distinct in-zone owners from the query name, followed by what its ending calls for |
| ChainPaths.EndedPathIsAnswered | dnsserver/resolver_authoritative.go:70-145 | every alias path in the store, each record's data naming the next owner, that reaches data, leaves the zone or runs out within the bound is the answer, with the data at its end and SOA only when there is none |
| ChainPaths.FailsExactlyWithoutPath | dnsserver/resolver_authoritative.go:70-103 | SERVFAIL if and only if the store holds no ended alias path whose length, plus one when it ends without data, is within the bound |
| AuthorityTheorems.NameErrorExactly | dnsserver/resolver_authoritative.go:209-230 | NXDOMAIN if and only if the zone has no record of the asked class at the name |
| AuthorityTheorems.ExactMatchAnswered | dnsserver/resolver_authoritative.go:31-68 | if a stored record has the name, type and class, the answer is all such records, once each in data order, successful, authoritative and without authority section |
| AuthorityTheorems.NegativeExactly | dnsserver/resolver_authoritative.go:147-158 | without such a record and without an alias the reply is empty but for the apex SOA; it is NXDOMAIN if nothing is stored at the name and successful otherwise |
| AuthorityTheorems.ApexSOAExactly | dnsserver/resolver_authoritative.go:232-244 | the SOA records of a reply are the stored ones at the apex of the asked class |
| AuthorityTheorems.OtherClassNotImplemented | dnsserver/resolver_authoritative.go:11-17 | a reply is NOTIMP, and empty, if and only if the class is neither IN nor ANY |
| AuthorityTheorems.NegativeCarriesSOA | dnsserver/resolver_authoritative.go:209-244 | every negative reply has no answer, no additional records, and exactly the apex SOA records of the class as authority |
| AuthorityTheorems.AdditionalExactly | dnsserver/resolver_additional.go:11-97 | the additional section holds, once each and not repeating the answer, exactly the stored addresses of the hosts in the answer's CNAME, NS, MX and SRV data |
| AuthorityTheorems.PointsAtExactly | dnsserver/resolver_additional.go:43-80 | a target is the normal form of the data of CNAME and NS records and of the last field of MX and SRV data, if it lies in the zone and is not the root |
| AuthorityTheorems.ReplyExtraExactly | dnsserver/resolver_authoritative.go:169-207 | in every reply of every kind the additional section is exactly that of its own answer |
| Resolving.Resolver.Resolve | dnsserver/resolver.go:152-193 | whatever the caches hold, the reply is the one computed from the store alone; the reply is remembered under the current revision and nothing else in the cache changes |
| Resolving.UncachedExactly | dnsserver/resolver.go:152-169 | the root is a format error, a name in no zone is refused, and any other name gets the authoritative reply of the zone with the most labels that contains its normal form |
| Resolving.Resolver.MatchStoredZone | dnsserver/resolver.go:195-220 | whether the index is reused or rebuilt, the zone is the most specific one of the current zone set |
| Resolving.Resolver.Authoritative | dnsserver/resolver_authoritative.go:11-68 | the branches on class, type and exact match yield the reply that the store calls for |
| Resolving.Resolver.ResolveCNAMEChain | dnsserver/resolver_authoritative.go:70-103 | the loop with its visited set and step bound returns the reply of the walk's ending, or SERVFAIL if none lies within the bound |
| Resolving.Resolver.NextCNAMEStep | dnsserver/resolver_authoritative.go:105-145 | one step is found, finished or a hop exactly as the store's CNAMEs and the target's data say, and contributes the right records |
| Resolving.Resolver.NegativeResponse | dnsserver/resolver_authoritative.go:209-244 | gives the negative reply of the store for the original name |
| Resolving.Resolver.AdditionalRecords | dnsserver/resolver_additional.go:11-41 | the nested loops with a seen set compute the first unseen occurrences of the targets' addresses |
| Resolving.Resolver.CollectTargets | dnsserver/resolver_additional.go:43-80 | collects each in-zone target once, in order, every one of them a normal name in the zone |
| Resolving.Resolver.LookupAddresses | dnsserver/resolver_additional.go:82-97 | finds all A and then all AAAA records of the target |
| Resolving.Resolver.CacheTTLFor | dnsserver/resolver_cache.go:20-42 | the lifetime is the least of the maximum and the TTLs after the last zero, or the negative lifetime if there are none; it is positive, fits int64 nanoseconds, and outlives no record if and only if no TTL is zero |
| Lifetimes.OutlivesNoneExactly | dnsserver/resolver_cache.go:25-30 | a cached reply outlives none of its records if and only if no TTL is zero |
| Lifetimes.NonZeroRespectedExactly | dnsserver/resolver_cache.go:25-41 | the records with a TTL are respected if and only if those in front of the last zero are |
| Lifetimes.ZeroHidesShorter | dnsserver/resolver_cache.go:25-30 | a TTL in front of a zero and a longer one is exceeded |
| Resolving.NewerRevisionKeepsCoherence | dnsserver/resolver.go:171-190 | any change of the store under a newer revision leaves both caches coherent: old entries become unusable, not wrong |
| CacheTransparency.Run | dnsserver/resolver.go:152-220 | over any sequence of store writes, manager operations, change sets, updates, imports, evictions and questions the replies are those of a resolver without caches |
| CacheTransparency.LastReply | dnsserver/resolver.go:152-193 | a question after any steps is answered from the store that those steps leave |
| Dialogue.DialogueIsAuthoritative | dnsserver/resolver_authoritative.go:11-244 | lookups made one at a time, each chosen by what the earlier ones found, end in the authoritative reply of the store if all were answered from it |
| Dialogue.LookupsNeverFail | dnsserver/resolver_authoritative.go:246-266 | whatever the lookups return, each next one is of a normal name in the zone, so the store never rejects it |
| Dialogue.FeedProgresses | dnsserver/resolver_authoritative.go:70-103 | whatever the lookups return, every lookup brings the reply nearer its end |
| Freshness.InvStep | dnsserver/resolver.go:152-220 | every step of every writer and resolver keeps: each lookup behind an entry keyed by a revision was made after that revision was reached |
| Freshness.InvRun | dnsserver/resolver.go:152-220 | the invariant holds in every reachable state of every interleaving |
| Freshness.FreshReplies | dnsserver/store_memory.go:76-101 | a resolver that starts after a write has returned never replies from a lookup made before that write's last change, refuses only by a zone list as new, and on a miss matches its zone in one |
| Freshness.QuietReplies | dnsserver/resolver.go:152-193 | while no write is under way every reply, cached or not, is the current store's reply in the zone that was matched, and that zone is right unless a cached reply had matched it under an older revision |
| Freshness.QuietFixedReplies | dnsserver/resolver.go:152-193 | if moreover the zone set is fixed, every reply is the uncached reply of the current store |
| Freshness.FixedZonesAlwaysRight | dnsserver/resolver.go:195-220 | while no zone comes or goes, every reply of every interleaving is from the zone that serves the name |
| Freshness.StaleZoneExactly | dnsserver/resolver.go:158-181 | for any contents the store goes through, some run lets a resolver started after the last write reply from a cached entry of the wrong zone if and only if the name is matched in the last content and was matched by another zone in an earlier one |
| Freshness.StaleHitReply | dnsserver/resolver.go:158-181 | such a reply is the last content's answer inside the zone matched in an earlier one |
| Freshness.NewZoneStaleExactly | dnsserver/store_memory.go:40-51 | creating a zone does this exactly for the names it contains that a zone with fewer labels served |
| Management.NextSaveIsValid | dnsserver/manager_rrset.go:53-96 | once the RRset dry run is valid, every later single-record check in the loop passes |
| Management.NormalizeRRSetRecords | dnsserver/manager_rrset.go:197-247 | yields the new RRset, first per key, or fails if it is empty, untyped or any record does not belong to it |
| Management.Manager.UpsertZone | dnsserver/manager.go:54-75 | does exactly its meaning on the store or nothing, and never under an unchanged revision |
| Management.Manager.DeleteZone | dnsserver/manager.go:77-97 | removes exactly the zone and its records or nothing |
| Management.Manager.HasZone | dnsserver/manager_rrset.go:14-47 | true if and only if the normalised name is a zone of the store |
| Management.Manager.ValidateRecordUpsert | dnsserver/manager_validation.go:15-24 | accepts if and only if the zone's keys with the new one are weakly valid |
| Management.Manager.UpsertRecord | dnsserver/manager.go:116-147 | saves the record if and only if the zone stays weakly valid, and otherwise changes nothing |
| Management.Manager.DeleteRecord | dnsserver/manager.go:149-175 | removes exactly the record's key or nothing |
| Management.Manager.DeleteRecords | dnsserver/manager_rrset.go:162-174 | removes exactly the listed keys one by one without failing, and counts them |
| Management.Manager.DeleteRRSet | dnsserver/manager_rrset.go:98-124 | removes exactly the RRset in all classes and returns the drop in the number of stored records |
| Management.Manager.DeleteName | dnsserver/manager_rrset.go:126-152 | removes exactly the owner's records and returns the drop in the number of stored records |
| Management.Manager.ValidateRRSetUpsert | dnsserver/manager_validation.go:26-58 | accepts if and only if the zone's keys, with the first record's RRset of its class replaced, are weakly valid |
| Management.Manager.UpsertRRSet | dnsserver/manager_rrset.go:53-96 | all or nothing, although it is written record by record |
| Management.Manager.SaveEach | dnsserver/manager_rrset.go:83-92 | after the dry run no save of the loop fails, and all new records are in |
| ManagementLaws.UpsertRecordExactly | dnsserver/manager.go:116-147 | a record is saved, in normal form and alone, if and only if its zone stays weakly valid with its key |
| ManagementLaws.UpsertNewTtl | dnsserver/manager.go:116-147 | in a valid store an upsert with a new TTL always succeeds and leaves one record, with that TTL |
| ManagementLaws.DeleteRRSetExactly | dnsserver/manager_rrset.go:98-124 | exactly the keys of the zone, owner and type are gone, of all types for ANY; it fails exactly for the root or an owner outside the zone |
| ManagementLaws.DeleteNameExactly | dnsserver/manager_rrset.go:126-152 | exactly the keys of the owner are gone, with the same failures |
| ManagementLaws.NewRRSetExactly | dnsserver/manager_rrset.go:197-247 | a new RRset is its records with open zones, owners and types filled in, first per key; it is refused if and only if the target or one of the records is unusable |
| ManagementLaws.UpsertRRSetAcceptedExactly | dnsserver/manager_validation.go:26-58 | an RRset is accepted if and only if its zone is weakly valid with the new keys in place of those of its owner, type and first record's class |
| ManagementTheorems.UpsertRRSetExactly | dnsserver/manager_rrset.go:53-96 | success leaves exactly the deduplicated new records at that owner and type and every other record as it was |
| ManagementTheorems.MeaningKeepsSound | dnsserver/manager_validation.go:15-43 | every manager operation keeps every zone weakly valid and the store well formed |
| ChangeSets.PreviewChange | dnsserver/manager_validation.go:188-284 | each kind of change turns the preview list into its dry-run meaning or fails |
| ChangeSets.LoadPreviewZoneState | dnsserver/manager_validation.go:160-186 | gives the zone's state so far, or its existence and records in the store before the batch |
| ChangeSets.PreviewChanges | dnsserver/manager_validation.go:73-115 | the growing map of states is the fold of the dry-run meanings, failing at the first that fails |
| ChangeSets.ValidatePreviewZoneStates | dnsserver/manager_validation.go:117-136 | accepts if and only if every touched zone that exists with records passes the strong rules |
| ChangeSets.ValidateChanges | dnsserver/manager_change.go:45-57 | accepts if and only if the whole batch previews and every touched zone ends acceptable |
| ChangeSets.ApplyChange | dnsserver/manager_change.go:94-196 | does exactly the change's meaning or nothing, and counts zones and records written or lost |
| ChangeSets.ApplyChanges | dnsserver/manager_change.go:74-92 | a refused batch changes nothing; an accepted one leaves the effects up to the first failing change, and on success the counters are the batch's totals |
| ChangeLaws.AppliedChangeHasEffect | dnsserver/manager_change.go:94-196 | each kind of change adds or removes its zone, puts or takes its record, swaps or removes its RRset, or clears its name, for the texts it gives, and touches nothing else |
| ChangeLaws.BatchExactly | dnsserver/manager_change.go:74-92 | a batch runs through a chain of stores, one change each, to its end or to the first change that fails there |
| ChangeLaws.TotalsExactly | dnsserver/manager_change.go:117-188 | the counters of an applied batch are its length, its numbers of zone upserts and deletions, its record upserts plus the sizes of its new RRsets, and its record deletions plus the records lost to RRset and name deletions |
| ChangeLaws.ChangeZoneExactly | dnsserver/validation.go:55-69 | a change is filed under the first non-empty one of its zone, zone name, record's zone and first record's zone |
| ChangeLaws.AcceptedExactly | dnsserver/manager_validation.go:60-136 | a batch is accepted if and only if it previews and every touched zone left present is strongly valid |
| ChangeTheorems.StepExact | dnsserver/manager_validation.go:188-284 | after a change that both runs take, the dry run's zone existence and keys equal the store's and other zones' keys are unchanged, if and only if StepAgrees held before it |
| ChangeTheorems.AnyTypeDiverges | dnsserver/manager_validation.go:258-270 | deleting the RRset of type ANY where another type is stored makes the two runs differ |
| ChangeTheorems.AcceptedBatchMayStop | dnsserver/manager_change.go:74-92 | for every zone with one record, replacing it by a CNAME with the upsert first is accepted and then stops without any effect |
| ChangeRuns.PreviewPredictsApply | dnsserver/manager_change.go:74-115 | after a successful uniform batch every touched zone exists and holds keys as previewed, and every other zone is unchanged |
| ChangeRuns.TouchedZonesEndStrong | dnsserver/manager_validation.go:117-136 | every zone touched by a successful uniform batch is strongly valid, although each step checks only the weak rules |
| ChangeRuns.AppliesExactly | dnsserver/manager_change.go:74-115 | a previewed uniform batch is applied to its end if and only if the dry run is weakly valid after every prefix of it and its zone and RRset changes carry their own zone |
| Updates.ApplyUpdateRR | dnsserver/update.go:81-203 | one update record does exactly its manager operation or nothing |
| Updates.ApplyUpdate | dnsserver/update.go:71-79 | applies the records before the first refused one, and succeeds if and only if none is refused |
| Updates.AcceptedUpdate | dnsserver/update.go:81-132 | an accepted record has exactly the effect of its form in sections 2.5.1 to 2.5.4 of RFC 2136: add, delete an RRset, delete a name, delete one record |
| Updates.UpdateIsFold | dnsserver/update.go:71-203 | a message leaves the fold of those effects over the records before the first refused one, with all zones valid |
| UpdateLaws.UpdateRecordExactly | dnsserver/record.go:127-151 | an update record is stored with its own name, TTL, class, type and data in normal form, in the zone of the message |
| UpdateLaws.AcceptedHasEffect | dnsserver/update.go:81-203 | an accepted record removes its RRset or its name, takes its record in class IN, or puts its record, and touches nothing else |
| UpdateLaws.RefusedExactly | dnsserver/update.go:81-153 | a deletion is refused exactly for a bad owner, a record without stored form is refused, and an addition also if the zone would not stay weakly valid |
| UpdateLaws.UpdateIsChain | dnsserver/update.go:71-79 | a message runs through a chain of stores in the order of its records, to its end or to the first record refused there |
| Sessions.EverySessionIsValid | dnsserver/manager_validation.go:15-43 | from an empty store, after any managed writes including failed ones, every zone is weakly valid |
| Sessions.OutcomeExactly | dnsserver/manager_change.go:74-92 | an action leaves the last store of its course: the operation's, the batch's or the message's chain |
| Sessions.RunSession | dnsserver/manager.go:116-175 | the manager methods on a fresh store reach that state |
| Seeding.CollectSeedZones | dnsserver/bootstrap.go:62-77 | collects the normalised zones, or fails if one is bad |
| Seeding.CollectSeedRecords | dnsserver/bootstrap.go:79-99 | collects the records' zones and the first record per key, or fails if one is bad |
| Seeding.ValidateRecordsByZone | dnsserver/validation.go:37-53 | accepts if and only if each zone's share of the seed passes the strong rules |
| Seeding.ImportSeedData | dnsserver/manager.go:201-243 | writes all of the collected zones and records or nothing, and counts them |
| Seeding.SaveSeedZones | dnsserver/bootstrap.go:101-111 | adds exactly the named zones |
| Seeding.SaveSeedRecords | dnsserver/bootstrap.go:113-129 | writes exactly the given records over the store |
| SeedLaws.ImportExactly | dnsserver/manager.go:201-243 | after an import the zones are the old ones and exactly those named by the seed's zones and records, the first record per key is stored in normal form, every key outside the seed is as it was |
| SeedLaws.ImportAcceptedExactly | dnsserver/manager.go:201-224 | a seed is accepted if and only if no zone is the root, every record has a normal form, and the first records per key make strongly valid zones |
| SeedLaws.CollectedExactly | dnsserver/bootstrap.go:62-99 | what is collected, and counted, is the zones the seed names and its first normal record per key |
| Seeding.ImportIntoEmptyZones | dnsserver/manager.go:201-243 | importing into zones without records leaves each strongly valid with exactly the first record per key |
| Seeding.ImportKeepsValidExactly | dnsserver/manager.go:201-243 | an import keeps a valid zone weakly valid if and only if no seed record clashes with a stored one |
| Seeding.ImportMayBreakZone | dnsserver/manager.go:201-243 | a seed record at the owner of a stored CNAME is imported and leaves the zone invalid |
| Snapshots.BuildRRSets | dnsserver/snapshot.go:41-79 | the RRsets are strictly ordered, non-empty, in data order, uniform in zone, name, class and type, and together a permutation of the records, repetitions included |
| Snapshots.BuildZoneSnapshot | dnsserver/snapshot.go:28-39 | the records sorted in record order, a permutation of the given ones, with their RRsets |
| Snapshots.GroupHoldsItsRecords | dnsserver/snapshot.go:41-79 | each RRset holds every occurrence of every record of its zone, name, class and type |
| Snapshots.GroupingUnique | dnsserver/snapshot.go:85-106 | records have only one such grouping, so neither their order nor the map's matters |
| Snapshots.GroupLessExactly | dnsserver/snapshot.go:85-106 | RRsets are ordered by zone, then owner, then type, then class |

## Left out

- Names that contain `|`: zones and owners in the model are free of it, as the exactness of key prefixes requires (`KeyEncoding.ExactIffBarFree`). CNAME and additional targets may contain it.
- Backslash escapes in names, empty labels as errors, and case or white space outside ASCII.
- SHA-256 itself: the fingerprint in a key is an arbitrary function of class and lower-cased data that yields sixteen hex digits, so record identity is the key.
- Printing and parsing resource records (`dns.NewRR`, `rr.String`, `RecordFromRR` field splitting, freezing and materialising cached replies): assumed to round-trip, so a resource record is the record it is printed from.
- Ties that the code's sort leaves in any order: broken by the remaining fields, so that listings are functions of the set of records.
- Error kinds, wrapping, logging and contexts: success or failure only.
- Cache eviction policies and clocks: an entry may vanish at any step.
- The trie library, ordered sets and tables: a map searched for its longest stored prefix, sets and maps.
- bbolt files and transactions: one flat map, no input/output failure.
- Sockets, message handling, the lookup client, the HTTP admin server, configuration: no model.
- Header checks of an update message and the update path without a manager: the model starts at the update section and has a manager.
- Repositories without a revision: the resolver then uses a constant, and the cache results do not apply.
- Concurrent managers: validate-then-save is not locked in the code, so manager runs are sequential. Resolvers and store writers do interleave in `Freshness`.
- The resolver and the manager over the bbolt store: they are modelled over the memory store; `TwoStores.ReadBoth` shows that reads agree.
- Empty non-terminals and delegations: the resolver gives them no special treatment, and neither does the model.
- The snapshot that a change preview returns: `buildChangePreview` only packs the states that `ChangeSets` speaks of.
- Freshness.FreshReplies: does not claim a fresh zone list on a cached hit whose zone was matched under an older revision; `Freshness.StaleZoneExactly` says when the code does not provide it.
- Reads that see a mixture of two contents: listing the zones and reading a row are single steps in `Freshness`, while the sharded maps behind them may show some entries from before a concurrent write and some from after.
- The apex protection of section 3.4.2 of RFC 2136 and its class check: the server deletes apex SOA and NS records and adds records of any other class, and so does the model.
- ChangeRuns.PreviewPredictsApply: speaks of keys and not of TTLs, because the dry run keeps the old record when a key repeats and the real run stores the new one; it asks for one record class, RRset types other than ANY, and record changes that name their record's zone, and `ChangeTheorems.StepExact` gives the exact condition of each step.
- ChangeRuns.TouchedZonesEndStrong: asks for the same uniformity.
- ChangeRuns.AppliesExactly: asks for the same uniformity.
- Seeding.ImportSeedData: promises nothing about validity by itself; `Seeding.ImportKeepsValidExactly` says when it is kept.
