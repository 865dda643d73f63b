# QuarkDB, verified in Dafny

QuarkDB is a Redis-like store that is replicated with Raft. This project models its most intricate
parts and proves what they promise. `dafny verify dfyconfig.toml` checks everything.

| files | what they model |
|---|---|
| `StoreModel`, `StoreSpec`, `StoreOperations`, `StateMachine`, `Transactions` | The state machine: Redis types encoded as records of one flat ordered map, with a descriptor per key, a write batch on top and a cache of lease deadlines. `Store` is an object with those parts, which reads, writes and sweeps by name as rocksdb does; every command is proved against a specification on plain maps, sets and sequences. An assert or throw of the source is an assertion that holds, or an outcome with the exact condition for it. |
| `CommandLaws` | What each command does as a client sees it: its reply, what the reading commands answer afterwards, and that nothing else changes; deques as queues and stacks. |
| `StoreRuns`, `StoreHistories`, `VersionedTransactions`, `StoreLaws` | What follows over whole runs, and over histories of many transactions, commits and restarts: the terms of leases and their exclusion until the deadline, versions and revisions, migration between two hashes, paging, and where the source's assumptions end. |
| `KeyLocators`, `ByteOrder`, `Names`, `Sweeps` | How records are named in rocksdb, which names collide, in which order iterators meet them, and what they meet under a prefix. |
| `Collisions`, `Cloning` | What the commands do to records that share a name, exactly when that is what they should do, and the loop of HCLONE over records that it writes itself. |
| `PendingQueue`, `WriteProtocol`, `WriteTracker`, `BufferedWriter` | Pipelined requests of many connections behind one journal: a state machine with one invariant, theorems over all its runs, and the objects proved to take its steps. |
| `CommitTracker` | How a leader computes the commit index while match indexes change under its hands. |
| `RespProtocol`, `RespReader`, `RespParser`, `RespSession` | Requests on the wire: a resumable parser over a chunked, zero-copy reader, and the printer. |
| `StagedIteration`, `MultiMap`, `Publisher`, `Subscriptions` | The index of subscriptions and its iterators under concurrent change, and the protocol of subscribing. |
| `Glob`, `Scan`, `StoreScan` | The glob matcher, and SCAN, HSCAN and SSCAN with their cursors. |
| `XxHash`, `XxRounds` | Streaming and one-shot xxHash. |

Locks make a method of the source atomic where they are held throughout; a protocol that takes
several locks, or none, is modelled as a state machine over its smaller steps. `FullIterator::next`
locks up to three times: there `Advance` and `SearchRound` are the atomic pieces. Clocks, the link,
the network and other members' entries are parameters or arbitrary events.

What does not hold of the code is stated as it is:

- Record names are not unique: field `#x` of key `a|` and field `x` of key `a#` share one rocksdb key, and so do fields of one locality hash under the hints `a|` and `a#` (`KeyLocators.CollisionExample`; exactly which records do: `KeyLocators.LocatorCollision`). After `HSET a| #x 1`, `HGET a# x` answers, `HSET a# x 2` changes the field of `a|`, and `HDEL a# x` throws; after `LHSET k #x a| 1`, `LHGET k x a#` answers (`Collisions.TwinFieldRead`, `TwinFieldSet`, `TwinHint`). `Collisions.NamesApart` is the condition, one lookup for each record that a command touches, and `Names.ReadIsRight`, `HgetRight`, `HsetRight`, `HitsRight`, `SaddRight`, `LhsetRight`, `LhgetRight` and `LhlocdelRight` say that it is exact.
- Records of one key can lie under the prefix of another even if all names differ. After `HSET a# x 1` and `HSET a| y 1`, `DEL a|` throws over a count of 2 against a size of 1, and `HCLONE` from `a|` fails its assert (`Sweeps.TwinHashes`). `Sweeps.SweepCounts` says exactly when, for hashes, sets, versioned hashes and deques.
- `HCLONE` between twin keys can come upon its own copies, and then need not end: `HSET a| ! 1` and `HCLONE a| a#` in one transaction (`Cloning.ChasesIs`, `CloneNeverEnds`, `CloneExample`). Records that are still in the batch are iterated together with what is written meanwhile; for records in the database that depends on where the iterator over the batch stands, which is rocksdb's own affair.
- `LEASE_GET` of a key of another type fails an assert of the dispatcher (`StateMachine.LeaseGetOther`).
- `SET` with an empty value and `SMOVE` onto the same key leave a store that no sequence of commands could (`StoreLaws.SetNeedsText`, `StoreLaws.SmoveNeedsTwoKeys`). The parser rejects empty arguments.
- A versioned hash that is deleted after the same transaction has updated it can trip an assert: `VHSET`, `DEL`, `VHSET`, or `VHSET`, then `DEL` or `FLUSHALL`, then `VHDEL` (`VersionedTransactions.SetAfterDeletion`, `DeleteAfterDeletion`; exactly when: `RevisionAssertInRun`).
- `dequeScanBack` with a count beyond the index wraps around and never advances (`StoreLaws.PageWrapsAround`).
- `LHDEL_WITH_FALLBACK` leaves the field behind if both hashes hold it (`StoreLaws.MigrationDelete`).
- `FullIterator` searches for ever if another thread erases a staged key (`MultiMap.SearchingForever`, `Publisher.StagedKeyErased`).
- A membership change can leave the journal behind what a majority has until the next report (`CommitTracker.MembershipChangeUncovers`; exactly when not: `MembershipChangeCovers`).

## Model

| member | source | states |
|---|---|---|
| `StateMachine.Store.constructor` | src/StateMachine.cc:167-174 | a database that was just created is consistent: clock and last applied index 0, no records, no events |
| `StateMachine.Store.Open` | src/StateMachine.cc:1025-1055 | a write operation opens exactly when the key is absent or of the right type, and then sees the descriptor that the abstract store calls for |
| `StateMachine.Store.Finalize` | src/StateMachine.cc:1164-1179 | which descriptor record is staged: a tombstone for size 0 unless the hash is versioned, otherwise the new size, skipped if nothing changed and the update is not forced |
| `StateMachine.Store.Get` | src/storage/StagingArea.hh:98-108 | a read by name, which is a read of the record meant if no other one has that name |
| `StateMachine.Store.WriteAs` | src/storage/StagingArea.hh:110-132 | a write by name keeps the records by name and those by key and slot together |
| `StateMachine.Store.Hset` | src/StateMachine.cc:507-516 | puts the field into the map, size counter and records still encode the store, and the reply says whether the field is new; if a field of a twin key has the name, it is that one which changes |
| `StateMachine.Store.Hmset` | src/StateMachine.cc:518-531 | all fields in argument order, repeated ones included; the counter rises by the distinct new ones; if the names are clear |
| `StateMachine.Store.Hsetnx` | src/StateMachine.cc:533-545 | writes only under a name that nothing has |
| `StateMachine.Store.Hdel` | src/StateMachine.cc:595-612 | removes and counts what it finds under the names of the fields, and throws exactly if that is more than the hash has; if the names are clear, those are the distinct fields that were there, and the last one takes the key away |
| `StateMachine.Store.Hget` | src/StateMachine.cc:326-331 | reads through the batch what the abstract hash holds, or the namesake of the field in a twin key |
| `StateMachine.Store.Hclone` | src/StateMachine.cc:1472-1508 | steps an iterator over the source and copies every field into a key that must not exist; its assert on the size fails exactly if a twin of the source has records under its prefix; exactly when the iterator comes upon its own copies; otherwise the copy is right |
| `Cloning.CloneMeets` | src/StateMachine.cc:1491-1506 | the iterator comes upon a copy if and only if the copy of some field lies ahead of it under the prefix of the source |
| `Cloning.ChasesIs` | src/StateMachine.cc:1491-1506 | which copies those are: source and target are twins, and the field comes before its own name with a hash sign put in front, or taken off |
| `Cloning.CloneNeverEnds` | src/StateMachine.cc:1491-1506 | into the twin that ends in a hash sign, an iterator that sees the copies never ends once it stands on such a field |
| `Cloning.CloneExample` | src/StateMachine.cc:1491-1506 | such a source, target and field |
| `StateMachine.Store.Length` | src/StateMachine.cc:614-632 | the counter in the descriptor is the true number of elements, for every collection type |
| `StateMachine.Store.Set` | src/StateMachine.cc:1226-1232 | stores a non-empty text |
| `StateMachine.Store.Sadd` | src/StateMachine.cc:886-901 | adds the arguments, except those whose names are taken, counting the new ones once; set union if the names are clear |
| `StateMachine.Store.Srem` | src/StateMachine.cc:911-922 | removes and counts what it finds under the names, throwing exactly if that is more than the set has; set difference if the names are clear |
| `StateMachine.Store.Smove` | src/StateMachine.cc:924-956 | moves one element between two different sets, both counters right, if its name in the source is clear; the target is left alone if the name is taken there |
| `StateMachine.Store.Place` | src/StateMachine.cc:369-401 | in each of its three cases (same hint, other hint, new field) the two tables again hold exactly one record per field under its indexed hint |
| `StateMachine.Store.Lhset` | src/StateMachine.cc:419-426 | one field of the plain map is set, whatever hint it had before; under a name that another field has, that field is set |
| `StateMachine.Store.Lhmset` | src/StateMachine.cc:403-417 | fields set in argument order, each by name |
| `StateMachine.Store.Lhdel` | src/StateMachine.cc:449-466 | removes fields from both tables; all asserts on deletions hold |
| `StateMachine.Store.Lhlocdel` | src/StateMachine.cc:428-447 | removes a field only if it is stored under the given hint; exactly what it does if another field has that name, its assert included |
| `StateMachine.Store.Lhget` | src/StateMachine.cc:468-505 | the answer is the value of the plain map for every hint, right, wrong or empty, unless another field has the name under that hint; both checks hold |
| `StateMachine.Store.LhsetAndDelFallback` | src/Dispatcher.cc:343-348 | sets in the locality hash and deletes from the fallback hash; if the names are clear |
| `StateMachine.Store.LhdelWithFallback` | src/Dispatcher.cc:349-357 | deletes from the fallback only if the locality hash did not have the field; if its name is clear |
| `StateMachine.Store.LhgetWithFallback` | src/Dispatcher.cc:704-720 | asks the locality hash first |
| `StateMachine.Store.ConvertHashField` | src/Dispatcher.cc:358-381 | moves a field or does nothing; its throws and asserts never fire if the names are clear |
| `StateMachine.Store.DequePush` | src/StateMachine.cc:1234-1261 | pushing at either end is concatenation (reversed in front); records lie at start+1 .. end-1 and the descriptor says so |
| `StateMachine.Store.DequePop` | src/StateMachine.cc:1680-1712 | takes what DequePopSpec says, which by CommandLaws.PopLaw is the first item from the left and the last from the right, and leaves the others in their order |
| `StateMachine.Store.DequeTrimFront` | src/StateMachine.cc:1271-1302 | leaves the last items; every record it deletes is there |
| `StateMachine.Store.DequeScanBack` | src/StateMachine.cc:820-869 | one page from the back, for every type of key, every cursor and every count, wrap-around included; both asserts on the iterator hold if no twin deque has records under the prefix |
| `StateMachine.Store.ReadItems` | src/StateMachine.cc:853-866 | the iterator steps from record to record, each of which must be the next item |
| `StateMachine.Store.Vhset` | src/StateMachine.cc:1372-1399 | writes the field, bumps the version unless the descriptor is already in this batch, records the update; if the name is clear |
| `StateMachine.Store.Vhdel` | src/StateMachine.cc:1401-1432 | likewise for deletions; one that removes nothing bumps nothing and still stages the descriptor |
| `StateMachine.Store.AddRevision` | src/storage/VersionedHashRevisionTracker.cc:34-49 | appends to the revision of the key; the assert on its number holds |
| `StateMachine.Store.AdvanceClock` | src/StateMachine.cc:1315-1333 | releases exactly the leases whose deadline is reached, terminates, and no check in the loop fires |
| `StateMachine.Store.MaybeAdvanceClock` | src/StateMachine.cc:1517-1536 | the clock moves only forward |
| `StateMachine.Store.LeaseAcquire` | src/StateMachine.cc:1576-1636 | acquired, extended or refused, on the terms that StoreRuns.LeaseTerms states (from the time of the command for the duration asked); descriptor, holder, event and cache agree afterwards |
| `StateMachine.Store.LeaseGet` | src/StateMachine.cc:1335-1358 | reports the live lease after the clock update; the dispatcher throws exactly if the key has another type |
| `StateMachine.LeaseGetOther` | src/Dispatcher.cc:410-423 | SET k v, LEASE_GET k: the assert on the status fails |
| `StateMachine.Store.LeaseRelease` | src/StateMachine.cc:1638-1668 | removes lease, event and cache entry; THROW_ON_ERROR and the cache never complain |
| `StateMachine.Store.RemoveAllWithPrefix` | src/StateMachine.cc:1725-1740 | deletes exactly the names that begin with the prefix, whoever they belong to, internal ones excepted, and counts them; they are as many as the records that have them |
| `StateMachine.Store.DelKey` | src/StateMachine.cc:1742-1788 | removes every record of one key of any type, or throws over the count: exactly if a key of the same type disturbs its sweep |
| `StateMachine.Store.Del` | src/StateMachine.cc:1742-1788 | removes the named keys and counts those that existed; throws exactly if one of them is disturbed when its turn comes |
| `StateMachine.Store.FlushAll` | src/StateMachine.cc:1871-1878 | an empty store with an empty expiration cache; clock and last applied index survive |
| `StateMachine.Store.Commit` | src/StateMachine.cc:2065-2084 | accepts exactly the next journal index; the database then shows what the batch showed |
| `StateMachine.Store.Reopen` | src/StateMachine.cc:1304-1313 | a process that opens a database finds what was committed last and rebuilds the cache |
| `StateMachine.Store.LoadExpirationCache` | src/StateMachine.cc:1304-1313 | the cache becomes the set of deadlines of the live leases; no lease is cached twice |
| `StateMachine.Store.Dispatch` | src/Dispatcher.cc:120-128 | every command whose records have names of their own (Collisions.NamesApart), on any store that the constructor, commands, commits and restarts lead to, does what the step function says and keeps names, records, counters, indexes, batch marks and expiration cache in agreement, or throws, exactly in the three cases of Throws: DEL and HCLONE of a key that is not alone, LEASE_GET of a key of another type |
| `Transactions.Execute` | src/Dispatcher.cc:120-146 | a journal transaction is a run of its commands followed by one commit; if a command throws, those before it were run and the database is as before |
| `Transactions.Create` | src/StateMachine.cc:148-160 | a new store stands at the beginning of every history |
| `Transactions.Perform` | src/Dispatcher.cc:120-146 | the object takes every event of a history: commands, commits of the next index, restarts that lose what was not committed; after a throw, or a command whose names are not apart, a restart can follow |
| `StoreSpec.PushAllIsConcatenation` | src/StateMachine.cc:1234-1253 | pushing items one by one is concatenation, reversed at the front, and the start index moves by their number |
| `StoreSpec.TrimAllIsSuffix` | src/StateMachine.cc:1271-1302 | dropping items one by one leaves a suffix at the right index |
| `StoreModel.RemoveAllIsDifference` | src/StateMachine.cc:595-612 | deleting fields one by one, repeated ones included, is set difference on the keys |
| `StoreOperations.FoundEntries` | src/StateMachine.cc:1757-1762 | the records that a hash, set or versioned hash has of its own are as many as its descriptor says (Sweeps.SweepCounts says when a sweep finds just those) |
| `StoreOperations.FoundItems` | src/StateMachine.cc:1757-1762 | likewise for deques |
| `StoreOperations.FoundIndexes` | src/StateMachine.cc:1763-1775 | likewise for the index of a locality hash |
| `StoreOperations.FoundData` | src/StateMachine.cc:1763-1775 | and for its fields: the two tables have the same size |
| `Sweeps.PrefixMeets` | src/StateMachine.cc:1725-1740 | exactly which records begin with the prefix that DEL, HCLONE or FLUSHALL seek to |
| `Sweeps.SweepIsFound` | src/StateMachine.cc:1742-1788 | a sweep finds the records of its key and no other, if and only if no key of the same type disturbs: one that ends in a hash sign where this ends in a bar, or the other way round with a field that begins with a hash sign |
| `Sweeps.SweepCounts` | src/StateMachine.cc:1757-1762 | so the count equals the size in the descriptor if and only if the key is alone |
| `Sweeps.OtherSweeps` | src/StateMachine.cc:1763-1775 | the tables of a locality hash, and the whole store, are always found as they are |
| `Sweeps.TwinHashes` | src/StateMachine.cc:1757-1762 | HSET of twin keys and DEL of one: two records swept, one counted, though no two records share a name |
| `Sweeps.SweptByName` | src/StateMachine.cc:1725-1740 | the names that a sweep meets are as many as the records, one for one |
| `Sweeps.SeekFinds` | src/StateMachine.cc:853-856 | Seek finds a record that is there |
| `Sweeps.CursorBack` | src/StateMachine.cc:826-858 | the index in a cursor comes back from its eight bytes |
| `Sweeps.NextFindsItem` | src/StateMachine.cc:858-866 | without twins the record behind item i is item i + 1 |
| `StoreOperations.RecordsAreAll` | src/StateMachine.cc:1742-1788 | what DEL removes is all that the key owns |
| `StoreLaws.PutAllLast` | src/StateMachine.cc:518-531 | of several values for one field the last wins; other fields are untouched |
| `StoreLaws.PlaceAllLast` | src/StateMachine.cc:403-417 | likewise for locality hashes, hint included |
| `StoreLaws.AddAndDropAll` | src/StateMachine.cc:886-922 | SADD and SREM with repeated arguments are union and difference |
| `StoreLaws.MigrationGet` | src/Dispatcher.cc:704-720 | get on the two hashes seen as one map |
| `StoreLaws.MigrationSet` | src/Dispatcher.cc:343-348 | put on the combined map; the hashes stay disjoint |
| `StoreLaws.MigrationDelete` | src/Dispatcher.cc:349-357 | remove on the combined map, which succeeds exactly unless both hashes hold the field |
| `StoreLaws.MigrationConvert` | src/Dispatcher.cc:358-381 | converting a field moves its value to the new name, or does nothing; under the same name the combined map does not change; exactly when the tables stay apart |
| `StoreLaws.PagesAreAll` | src/StateMachine.cc:820-869 | following the cursors of dequeScanBack yields every item once, in order, for every page size that never wraps around |
| `StoreLaws.PageWrapsAround` | src/StateMachine.cc:843-851 | a page is empty although items remain if and only if the count exceeds the index it starts from; its cursor then leads back |
| `StoreLaws.SetNeedsText` | src/StateMachine.cc:1226-1232 | SET leaves a representable store if and only if the value is not empty |
| `StoreLaws.SmoveNeedsTwoKeys` | src/StateMachine.cc:924-956 | SMOVE with source equal to destination breaks the counter if and only if the element is there |
| `CommandLaws.SetLaw` | src/StateMachine.cc:1226-1232 | SET: the key holds the text and nothing else changes; another type is refused and the store left as it was |
| `CommandLaws.HsetLaw` | src/StateMachine.cc:507-516 | after HSET, HGET answers the new value for this field and the old answer for every other; the reply is 1 exactly if HGET found nothing before |
| `CommandLaws.HsetnxLaw` | src/StateMachine.cc:533-545 | a field that HGET finds is left alone and answered by 0 |
| `CommandLaws.HmsetLaw` | src/StateMachine.cc:518-531 | HGET answers the last value given for a field, and the old answer for the others |
| `CommandLaws.HdelLaw` | src/StateMachine.cc:595-612 | HGET no longer finds the fields named and still finds the others; the reply counts the distinct fields that were found before |
| `CommandLaws.HcloneLaw` | src/StateMachine.cc:1472-1508 | afterwards HGET answers alike on both keys; a target that exists is never written |
| `CommandLaws.HgetLaw` | src/StateMachine.cc:326-331 | a key of another type, a missing field and a value are told apart |
| `CommandLaws.SaddLaw` | src/StateMachine.cc:886-901 | members are those given and those before; the reply counts the distinct new ones |
| `CommandLaws.SremLaw` | src/StateMachine.cc:911-922 | members are those before that were not given; the reply counts the distinct ones removed |
| `CommandLaws.SmoveLaw` | src/StateMachine.cc:924-956 | the element leaves the source, is in the target, and no other member of either changes; 0 and no change if the source lacks it |
| `CommandLaws.LhgetLaw` | src/StateMachine.cc:468-505 | a key of another type, a missing field and a value are told apart, whatever the hint |
| `CommandLaws.LhsetLaw` | src/StateMachine.cc:419-426 | LHGET answers the new value, the field has the new hint and no other; other fields keep value and hint |
| `CommandLaws.LhmsetLaw` | src/StateMachine.cc:403-417 | value and hint of the last placement of a field count |
| `CommandLaws.LhdelLaw` | src/StateMachine.cc:449-466 | exactly the fields named are gone; the reply counts the distinct ones that were there |
| `CommandLaws.LhlocdelLaw` | src/StateMachine.cc:428-447 | the field goes exactly if it has the hint given |
| `CommandLaws.LhsetAndDelFallbackLaw` | src/Dispatcher.cc:343-348 | the field is in the locality hash with its value and hint and no longer in the fallback; all others answer as before, on both keys |
| `CommandLaws.LhdelWithFallbackLaw` | src/Dispatcher.cc:349-357 | one deletion: in the locality hash if the field is there, otherwise in the fallback |
| `CommandLaws.LhgetWithFallbackLaw` | src/Dispatcher.cc:704-720 | the fallback is asked exactly if the locality hash has no such field |
| `CommandLaws.ConvertHashFieldLaw` | src/Dispatcher.cc:358-381 | exactly one of four outcomes; on success the value has moved under the new name and hint, and everything else answers as before |
| `CommandLaws.VhsetLaw` | src/StateMachine.cc:1372-1399 | the reply is the version that the hash then has, one more than before exactly for the first update of a transaction; the field has the value, the update is appended to the revision, other keys and revisions are untouched |
| `CommandLaws.VhdelLaw` | src/StateMachine.cc:1401-1432 | likewise, and the version rises only if one of the fields was there |
| `CommandLaws.PopLaw` | src/StateMachine.cc:1680-1712 | a pop from the left answers the first item and leaves the rest, from the right the last item and leaves what is before it; empty and wrong type are told apart and change nothing |
| `CommandLaws.PushLaw` | src/StateMachine.cc:1234-1261 | a push to the back appends the items in order, one to the front puts them in reverse order before the others; the reply is the new length |
| `CommandLaws.FirstPush` | src/StateMachine.cc:1234-1261 | a new deque starts in the middle of the 64-bit index range |
| `CommandLaws.PopUndoesPush` | src/StateMachine.cc:1680-1712 | pushing and popping at one end gives back the item and the whole store |
| `CommandLaws.PopManyLaw` | src/StateMachine.cc:1680-1712 | n pops answer the first n items in order, or the last n from the end |
| `CommandLaws.FirstInFirstOut` | src/StateMachine.cc:1234-1261 | items pushed at one end of a new deque are popped at the other in the same order, and the store is then as before |
| `CommandLaws.LastInFirstOut` | src/StateMachine.cc:1680-1712 | and at the same end in reverse order |
| `CommandLaws.TrimLaw` | src/StateMachine.cc:1271-1302 | the last items stay, as many as asked, in order; the reply is the number removed |
| `CommandLaws.PageLaw` | src/StateMachine.cc:820-869 | a page is the last count items before the cursor, or all if there are no more; the new cursor is the index of its first item, and empty exactly if nothing is left |
| `CommandLaws.DelLaw` | src/StateMachine.cc:1742-1788 | exactly the keys named are gone; the reply is how many distinct ones there were |
| `CommandLaws.FlushAllLaw` | src/StateMachine.cc:1871-1878 | no key is left; clock, last applied index and recorded revisions stay |
| `CommandLaws.CommitLaw` | src/StateMachine.cc:2065-2084 | keys and clock stay, the batch and the revisions are gone |
| `CommandLaws.StoredDescriptor` | src/storage/KeyDescriptor.hh:305-318 | type, size and the two numbers of every kind of descriptor |
| `CommandLaws.StoredRecords` | src/storage/KeyLocators.hh:92-290 | for every kind of key, which records it has and what is in them |
| `StoreRuns.HoldStep` | src/StateMachine.cc:1576-1668 | no command other than release, DEL, FLUSHALL or the deadline takes a lease from its holder |
| `StoreHistories.HoldHistory` | src/StateMachine.cc:1576-1668 | the holder keeps the lease through any number of transactions and restarts, while no command frees the key and no restart comes before the commit |
| `StoreHistories.CommittedHold` | src/StateMachine.cc:1576-1668 | once the hold is committed, no restart ends it |
| `StoreHistories.TakeoverNeedsFreeing` | src/StateMachine.cc:1576-1636 | over whole histories with any commands and timestamps, in one transaction or many: if another holder is not turned away, the hold was ended before |
| `StoreHistories.CommittedTakeover` | src/StateMachine.cc:1576-1636 | for a committed hold: the key was released, deleted or flushed, or its deadline was reached |
| `StoreRuns.LeaseTerms` | src/StateMachine.cc:1576-1636 | a lease is granted or renewed exactly if the key has no other type and nobody else holds it; it runs from c, the larger of clock and timestamp, until c + duration, and the reply says so; otherwise the key keeps its value and a refusal names the lease in the way |
| `StoreRuns.LeaseElsewhere` | src/StateMachine.cc:1315-1333 | acquiring drops, of all other keys, exactly the leases whose deadline the clock reaches |
| `StoreRuns.LeaseShownTerms` | src/StateMachine.cc:1335-1358 | LEASE_GET shows a lease exactly while it runs |
| `StoreRuns.LeaseReleased` | src/StateMachine.cc:1638-1668 | a release removes the lease that runs, says whether there was one, and touches nothing else but what expires |
| `StoreRuns.StepFits` | src/StateMachine.cc:1164-1179 | no command leaves an empty collection, a lease past its deadline or an index out of range |
| `StoreHistories.ExclusiveUntilDeadline` | src/StateMachine.cc:1576-1636 | exclusion until from + duration: after a grant by any event of a history, while nobody renews, releases, deletes or flushes it and no restart loses it, another holder is refused, with the terms of that lease, exactly before from + duration, and is granted the lease when it brings the clock there |
| `StoreHistories.CommittedUntilDeadline` | src/StateMachine.cc:1576-1636 | the same once the grant is committed, whatever restarts follow |
| `StoreHistories.NoGapNoRepetition` | src/StateMachine.cc:2065-2084 | over any history with restarts the last applied index is the number of entries committed, and the next entry carries the next number |
| `StoreRuns.CompetitorRefused` | src/StateMachine.cc:1576-1610 | a competitor is refused if and only if its timestamp lies before the deadline |
| `StoreHistories.ClockHistory` | src/StateMachine.cc:1517-1536 | neither the stored clock nor the stored journal index goes back, over commits and restarts, whatever timestamps arrive |
| `StoreHistories.ClockRun` | src/StateMachine.cc:1517-1536 | nor does the clock of a running process |
| `StoreRuns.CacheEventsLeases` | src/StateMachine.cc:1304-1333 | cache, stored events and live leases are the same pairs, all later than the clock |
| `VersionedTransactions.OneVersionPerTransaction` | src/StateMachine.cc:1372-1432 | a transaction raises a version by one or zero, as its first versioned command decides, and replaying the recorded updates on the old contents gives the new ones |
| `VersionedTransactions.RevisionAssertInRun` | src/storage/VersionedHashRevisionTracker.cc:34-41 | after any commands of a transaction the assert holds exactly unless the hash was deleted since its revision was recorded, and then for VHSET if the number is 0 or 1 and for VHDEL if it is 0 |
| `VersionedTransactions.NoConflictInRun` | src/storage/VersionedHashRevisionTracker.cc:34-41 | so it holds throughout a transaction in which no DEL or FLUSHALL deletes a hash whose revision is recorded |
| `VersionedTransactions.RevisionStaysFit` | src/storage/VersionedHashRevisionTracker.cc:34-41 | each command keeps a recorded revision number equal to the version, or the hash is gone |
| `VersionedTransactions.DeletedThenVersioned` | src/storage/VersionedHashRevisionTracker.cc:34-41 | after DEL or FLUSHALL in the same transaction VHSET is safe if and only if the recorded number is 0 or 1, VHDEL if and only if it is 0 |
| `VersionedTransactions.SetAfterDeletion` | src/storage/VersionedHashRevisionTracker.cc:34-41 | VHSET, DEL, VHSET on a hash at version 1 trips the assert |
| `VersionedTransactions.DeleteAfterDeletion` | src/storage/VersionedHashRevisionTracker.cc:34-41 | VHSET on a new hash, DEL or FLUSHALL, VHDEL trips it too |
| `KeyLocators.EscapedCollision` | src/storage/KeyLocators.hh:92-109 | exactly which pairs of key and field are written as the same bytes |
| `KeyLocators.EscapedPrefix` | src/storage/KeyLocators.hh:92-109 | exactly which records begin like those of a given key |
| `KeyLocators.LocatorCollision` | src/storage/KeyLocators.hh:43-293 | exactly which two records of any kind share a rocksdb key |
| `KeyLocators.InjectiveWithoutTwins` | src/storage/KeyLocators.hh:43-293 | without keys or hints that differ only in a final hash sign or bar, no two records collide |
| `KeyLocators.CollisionExample` | src/storage/KeyLocators.hh:92-109 | two different fields of two different keys that share one record |
| `KeyLocators.NamesakeIs` | src/storage/KeyLocators.hh:43-293 | each record has at most one namesake, which can be computed |
| `KeyLocators.BigEndianBack` | src/StateMachine.cc:826-858 | the eight bytes of an index, read back |
| `Names.ReadByName` | src/storage/StagingArea.hh:98-108 | a read by name is a read of the record meant if and only if its namesake is not there; otherwise it reads the namesake |
| `Names.ReadIsRight` | src/storage/StagingArea.hh:98-108 | in terms of the store: exactly if the record is clear |
| `Names.WriteByName` | src/storage/StagingArea.hh:110-132 | a write by name whose name is free keeps the two views together |
| `Names.LinkedIsApart` | src/storage/KeyLocators.hh:92-109 | in a store that is in order no two records share a name |
| `Names.CommitByName` | src/StateMachine.cc:2065-2084 | the batch written to the database by name is the batch written by key and slot |
| `Collisions.HgetRight` | src/StateMachine.cc:326-331 | HGET is right if and only if the type is wrong or the field is clear |
| `Collisions.HsetRight` | src/StateMachine.cc:507-545 | so are HSET and HSETNX |
| `Collisions.HitsRight` | src/StateMachine.cc:595-612 | what HDEL and SREM remove contains the fields that are there, and is no more if and only if all fields named are clear |
| `Collisions.HdelRight` | src/StateMachine.cc:595-612 | the reply of HDEL is right if and only if they are |
| `Collisions.SaddRight` | src/StateMachine.cc:886-901 | SADD is right if and only if all elements are clear |
| `Collisions.LhsetRight` | src/StateMachine.cc:369-426 | LHSET is right if and only if no other field has the name under that hint |
| `Collisions.LhgetRight` | src/StateMachine.cc:468-505 | LHGET is right for every hint except one under which another field, with another value, has the name |
| `Collisions.LhlocdelRight` | src/StateMachine.cc:428-447 | LHLOCDEL likewise |
| `Collisions.TwinFieldRead` | src/StateMachine.cc:595-612 | HSET a| #x 1, then HDEL a# x finds more than there is, and HGET a# x answers |
| `Collisions.TwinFieldSet` | src/StateMachine.cc:507-516 | then HSET a# x 2 changes the field of the other key, and DEL a| finds what it counts |
| `Collisions.TwinHint` | src/StateMachine.cc:428-505 | LHSET k #x a| 1, then LHGET k x a# answers and LHLOCDEL k x a# asserts |
| `KeyLocators.EntryPrefix` | src/StateMachine.cc:1725-1740 | exactly which records begin with the prefix of a hash, set or versioned hash |
| `KeyLocators.ItemPrefix` | src/StateMachine.cc:1725-1740 | exactly which begin with that of a deque |
| `KeyLocators.LocalityPrefix` | src/StateMachine.cc:1763-1775 | and with those of the tables of a locality hash: their own only |
| `KeyLocators.BigEndianOrder` | src/StateMachine.cc:1234-1253 | the eight-byte encoding of indexes keeps their order |
| `KeyLocators.EscapeBytes` | src/storage/KeyLocators.hh:92-109 | a bar before each hash sign, all other bytes as they are |
| `KeyLocators.Layout` | src/storage/KeyLocators.hh:43-290 | the bytes of every kind of record name: type letters, escaped key, two hash signs, field or eight-byte number |
| `KeyLocators.LocalityLayout` | src/storage/KeyLocators.hh:153-252 | the bytes of the two tables of a locality hash |
| `KeyLocators.ItemsByIndex` | src/StateMachine.cc:856-866 | an iterator meets the items of a deque by index |
| `KeyLocators.EventsByDeadline` | src/StateMachine.cc:1304-1313 | an iterator meets expiration events by deadline |
| `KeyLocators.ExtractPrefix` | src/storage/ReverseLocator.hh:32-66 | the loop that reads a key back computes the recursive reading of its bytes |
| `KeyLocators.ExtractRoundTrip` | src/storage/ReverseLocator.hh:32-66 | a key comes back from its record if and only if it does not end in a bar in front of a hash sign or of nothing |
| `PendingQueue.AddWriteSound` | src/Connection.cc:118-142 | a write at the end of the journal passes the check against the last index and leaves the queue sound |
| `PendingQueue.DispatchedSound` | src/Connection.cc:144-179 | after the front write is applied the queue is empty or waits for a later write; responses so far answer the requests in order |
| `PendingQueue.FlushedSound` | src/Connection.cc:31-47 | a flushed queue has answered everything and forgets its last index |
| `PendingQueue.ReadYourWrites` | src/Connection.cc:144-179 | what is executed after an acknowledged write of the same connection sees that write |
| `PendingQueue.DrainExecutes` | src/Connection.cc:144-179 | every request in front of the first write is answered by its execution at this point of the history, ready responses as they are, in order, and nothing behind that write is touched |
| `PendingQueue.DispatchedExecutes` | src/Connection.cc:144-179 | likewise after the write in front, itself executed right after its entry |
| `PendingQueue.FlushedRefuses` | src/Connection.cc:31-47 | every request that waits is refused with the reason given, ready responses leave as they are, in order |
| `PendingQueue.ReadAnswered` | src/Connection.cc:118-142 | a read is executed at once if nothing waits, and goes to the end of the queue otherwise |
| `PendingQueue.ReadySent` | src/Connection.cc:101-116 | the same for a ready response |
| `WriteTracker.Pending.AppendResponse` | src/Connection.cc:101-116 | sent at once on an empty queue, otherwise queued |
| `WriteTracker.Pending.AddPendingTransaction` | src/Connection.cc:118-142 | reads on an idle queue run at once, all else waits in order |
| `WriteTracker.Pending.DispatchPending` | src/Connection.cc:144-179 | applies the committed write and answers up to the next one, as PendingQueue.DispatchedExecutes says: each request by its execution; none of its three corruption throws fires |
| `WriteTracker.Pending.FlushPending` | src/Connection.cc:31-47 | every waiting request is refused, every ready response delivered |
| `WriteTracker.Tracker.Connect` | src/Connection.cc:203-206 | a new connection joins the system with an empty queue of its own |
| `WriteTracker.Tracker.PopIndex` | src/raft/RaftBlockedWrites.cc:28-38 | takes the entry for one index out of the tracker |
| `WriteTracker.Tracker.ApplySingleCommit` | src/raft/RaftWriteTracker.cc:46-70 | applies the next journal entry, through its queue if one waits; the blocking index never goes backwards |
| `WriteTracker.Tracker.UpdatedCommitIndex` | src/raft/RaftWriteTracker.cc:72-77 | applies every committed entry, once and in order |
| `WriteTracker.Tracker.Append` | src/raft/RaftWriteTracker.cc:97-109 | journal, tracker and queue take the write together, or, if the journal refuses it, none does |
| `WriteTracker.Tracker.Service` | src/raft/RaftDispatcher.cc:431-453 | a client write keeps the invariant of the whole system, whether it is taken or the caller has to start over |
| `WriteTracker.Tracker.Flush` | src/raft/RaftBlockedWrites.cc:45-51 | flushing a queue once per waiting write is flushing it once |
| `WriteTracker.Tracker.AppendEntries` | src/raft/RaftDispatcher.cc:524-566 | every waiting client is answered; then, if the previous entry matches, the entries of another leader replace uncommitted ones only |
| `WriteProtocol.StepKeeps` | src/raft/RaftWriteTracker.cc:46-109 | every event (connects, disconnects, reads, writes, commits, applies, flushes, entries from another leader) keeps: queues sound, tracker exactly the waiting writes, applied a prefix of the journal, acknowledgements true and unique |
| `WriteProtocol.RunKeeps` | src/raft/RaftWriteTracker.cc:46-109 | so in every reachable state, with any number of connections; the next entry can always be applied |
| `WriteProtocol.ResponsesInOrder` | src/Connection.cc:101-179 | over all runs each connection gets one response per request, in order, never from an older state than before, and reads its own writes |
| `WriteProtocol.AcknowledgedForGood` | src/raft/RaftWriteTracker.cc:46-77 | an acknowledged write stays in the history at the index the journal gave it, in all later states |
| `WriteProtocol.AllAnswered` | src/Connection.cc:144-179 | once the journal is applied, nothing waits and every attached connection has all its responses |
| `WriteProtocol.ResponseExplained` | src/Connection.cc:31-179 | over all runs: a request is refused only when leadership is lost or another leader sends entries, with that reason; every other request is executed, on the state that the entries applied by then led to; ready responses leave as given |
| `WriteProtocol.AskedInOrder` | src/Connection.cc:101-142 | over all runs, a queue was asked exactly what its connection asked, in that order, each write at the end of the journal |
| `WriteProtocol.ReadAnsweredAtOnce` | src/Connection.cc:118-142 | a read on a connection that waits for nothing is answered in the same step |
| `WriteProtocol.AppliedAnswersAll` | src/Connection.cc:144-179 | applying an entry answers the write that waits for it and every request behind it up to the next write |
| `WriteProtocol.NothingAfterDisconnect` | src/Connection.cc:144-179 | over all runs, a connection that is gone gets nothing more |
| `WriteProtocol.StepJournal` | src/raft/RaftWriteTracker.cc:97-109 | what each event does to journal and commit index |
| `WriteProtocol.RunGrows` | src/StateMachine.cc:2065-2084 | committed and applied entries and sent responses are never taken back |
| `WriteProtocol.StepGrows` | src/StateMachine.cc:2065-2084 | the history grows by one entry at an application and not otherwise |
| `WriteProtocol.ApplyAcksOnce` | src/raft/RaftWriteTracker.cc:46-70 | no entry is acknowledged twice, not even to two connections |
| `BufferedWriter.Writer.Send` | src/BufferedWriter.cc:53-68 | whether buffered, flushed around or too large, a response comes right after everything sent before |
| `BufferedWriter.Writer.Flush` | src/BufferedWriter.cc:42-51 | everything sent has reached the link |
| `BufferedWriter.Writer.SetActive` | src/BufferedWriter.cc:36-40 | switching buffering never reorders or loses bytes |
| `CommitTracker.PickedIsQuorumValue` | src/raft/RaftCommitTracker.cc:145-151 | the element picked after sorting is the largest index that a strict majority, leader included, has |
| `CommitTracker.QuorumValueUnique` | src/raft/RaftCommitTracker.cc:145-151 | there is only one such index |
| `CommitTracker.StepKeepsInv` | src/raft/RaftCommitTracker.cc:35-158 | whatever threads do in between, the commit index stays below the journal's end, so setCommitIndex does not throw |
| `CommitTracker.StepNeverUncommits` | src/raft/RaftCommitTracker.cc:115-129 | the journal's commit index never goes down, even if match indexes do |
| `CommitTracker.OnlyTargetsCount` | src/raft/RaftCommitTracker.cc:143-149 | a registered server that is not a target has no influence |
| `CommitTracker.SetMatchCovers` | src/raft/RaftCommitTracker.cc:35-42 | whoever raises what a majority has is still to report at least that value |
| `CommitTracker.ReportCovers` | src/raft/RaftCommitTracker.cc:154-158 | the early return never drops a report that is needed |
| `CommitTracker.FinishCovers` | src/raft/RaftCommitTracker.cc:131-152 | recalculating restores the property from any state, even if match indexes are written while they are read |
| `CommitTracker.NothingForgotten` | src/raft/RaftCommitTracker.cc:35-158 | between membership changes, once all reports are in, the journal has committed what a majority has |
| `CommitTracker.MembershipChangeCovers` | src/raft/RaftCommitTracker.cc:76-97 | a membership change leaves nothing forgotten if and only if no majority of the new members has an entry beyond the commit index, or beyond a value still to be reported |
| `CommitTracker.MembershipChangeUncovers` | src/raft/RaftCommitTracker.cc:76-97 | an example in which the journal is left behind |
| `CommitTracker.LeaderCommit.UpdateTargets` | src/raft/RaftCommitTracker.cc:76-97 | the targets are replaced; known servers keep their match indexes |
| `CommitTracker.LeaderCommit.GetHandler` | src/raft/RaftCommitTracker.cc:66-74 | registers a server at 0 or finds it as it is |
| `CommitTracker.LeaderCommit.CollectIndexes` | src/raft/RaftCommitTracker.cc:143-149 | the list holds every target's match index once, in whatever order |
| `CommitTracker.LeaderCommit.Recalculate` | src/raft/RaftCommitTracker.cc:131-152 | hands exactly the quorum value to updateCommitIndex |
| `CommitTracker.LeaderCommit.UpdateCommitIndex` | src/raft/RaftCommitTracker.cc:115-129 | commits or marks itself as lagging; the journal accepts |
| `CommitTracker.LeaderCommit.Updated` | src/raft/RaftCommitTracker.cc:154-158 | values up to the commit index are ignored, others cause a recalculation |
| `CommitTracker.Journal.SetCommitIndex` | src/raft/RaftJournal.cc:257-272 | accepts no index in the past |
| `RespProtocol.ResumeSplits` | src/RedisParser.cc:49-150 | stopping anywhere and going on later gives the same as reading in one go |
| `RespProtocol.AnyChunking` | src/RedisParser.cc:49-83 | however a stream is cut, the requests fetched are those of the whole stream |
| `RespProtocol.ReadPrintedRequest` | src/Formatter.cc:97-105 | a printed request is read back exactly if it is welcome, otherwise the connection is shut down |
| `RespProtocol.DecodePrinted` | src/Formatter.cc:134-142 | parsing a series of printed requests gives them back up to the first unwelcome one |
| `RespProtocol.PrintedRoundTrip` | src/Formatter.cc:134-142 | printed, cut into any pieces and fetched, the requests arrive as they were if and only if all are welcome (no empty element; small ones from strangers) |
| `RespProtocol.StrtolDecimal` | src/RedisParser.cc:107-112 | sizes survive printing and strtol |
| `RespProtocol.PrintedBytes` | src/Formatter.cc:97-105 | every printed request, byte for byte: 42, the number of elements, 13 10; then each element in its place: 36, its size, 13 10, itself, 13 10 |
| `RespProtocol.PrintedPing` | src/Formatter.cc:134-142 | the fourteen bytes of PING |
| `RespProtocol.DecimalNumerals` | src/Formatter.cc:97-105 | numbers are printed in decimal, and read back as such |
| `RespProtocol.FirstLine` | src/RedisParser.cc:49-117 | for every first line: it breaks the connection unless it begins with byte 42 and ends with 13 10 around what strtol takes; from a stranger it announces at most four elements |
| `RespProtocol.ElementLine` | src/RedisParser.cc:85-150 | for every element: byte 36, a size, 13 10, as many bytes, 13 10, or the connection is shut down; from a stranger at most 1048575 bytes |
| `RespProtocol.LastElement` | src/RedisParser.cc:70-83 | a complete request is handed out unless an element was empty |
| `RespProtocol.StrtolReads` | src/RedisParser.cc:105-112 | white space, sign and digits, up to a zero byte, are read as the number shown if it lies inside the bounds of a long |
| `RespProtocol.StrtolOnly` | src/RedisParser.cc:105-112 | nothing else is read as a number, but the empty text, as 0 |
| `RespReader.Reader.ReadFromLink` | src/BufferedReader.cc:43-66 | every byte received is kept, in order, and no byte received earlier is overwritten |
| `RespReader.Reader.CanConsume` | src/BufferedReader.cc:68-84 | the count of buffered bytes is right; 0 exactly if too few have been received |
| `RespReader.Reader.ConsumeInternal` | src/BufferedReader.cc:86-112 | the next bytes of the stream, across buffers |
| `RespReader.Reader.Consume` | src/BufferedReader.cc:114-119 | all or nothing: the next bytes of the stream, or no change |
| `RespReader.Reader.ConsumePinned` | src/BufferedReader.cc:121-138 | the same through a view into a live buffer or a copy |
| `RespReader.Reader.TakeView` | src/BufferedReader.cc:125-133 | the view points at the next bytes of the stream |
| `RespReader.PinnedStays` | src/memory/PinnedBuffer.hh:98-104 | a buffer handed out keeps its contents through all later reads |
| `RespReader.PinnedReads` | src/memory/PinnedBuffer.hh:98-104 | what a caller sees through a view is what was received |
| `RespReader.SuffixRemoved` | src/memory/PinnedBuffer.hh:166-174 | dropping a suffix works alike on views and copies |
| `RespParser.Parser.ReadNumber` | src/RedisParser.cc:85-117 | one line read byte by byte, resumable, with the checks of the source |
| `RespParser.Parser.ReadElement` | src/RedisParser.cc:119-150 | one element, or a state from which the same stream still means the same |
| `RespParser.Parser.Fetch` | src/RedisParser.cc:49-83 | a request exactly if the stream holds one here, in the bytes that RespProtocol.FirstLine and ElementLine spell out; on a slow link nothing is lost and nothing more could be read |
| `RespSession.ServePrinted` | src/Connection.cc:272-301 | the parser object, fed printed requests by any link: what it hands out is a prefix of what was sent, and all of it once all bytes are in |
| `RespParser.ServeAll` | src/Connection.cc:272-301 | repeated fetches deliver the requests of the stream in order, wherever it stalls |
| `StagedIteration.Collect` | src/pubsub/ThreadSafeMultiMap.hh:138-163 | the stage is the first elements after the last one, in order |
| `StagedIteration.RefillFits` | src/pubsub/ThreadSafeMultiMap.hh:117-163 | refilling after arbitrary changes neither skips nor repeats anything that was there all along |
| `StagedIteration.WalkComplete` | src/pubsub/ThreadSafeMultiMap.hh:117-163 | a finished iteration has returned all that was always there, ascending, once |
| `MultiMap.ThreadSafeMultiMap.Insert` | src/pubsub/ThreadSafeMultiMap.hh:50-55 | adds one pair; the counter is the number of pairs |
| `MultiMap.ThreadSafeMultiMap.Erase` | src/pubsub/ThreadSafeMultiMap.hh:60-76 | removes one pair and never keeps an empty set |
| `MultiMap.KeyIterator.Next` | src/pubsub/ThreadSafeMultiMap.hh:117-163 | advances whatever others did to the map, for every stage size of at least 1 |
| `MultiMap.MatchIterator.Next` | src/pubsub/ThreadSafeMultiMap.hh:210-268 | likewise over the values of one key, even if the key has gone |
| `MultiMap.FullIterator.Next` | src/pubsub/ThreadSafeMultiMap.hh:311-332 | advances to the next value or key whatever others have done, if the key that comes next in the stage, when it is needed, has not been erased |
| `MultiMap.FullIterator.SearchRound` | src/pubsub/ThreadSafeMultiMap.hh:356-367 | one round of the search, which leaves the key iterator where it is |
| `MultiMap.FullIterator.FindValidMatchIter` | src/pubsub/ThreadSafeMultiMap.hh:356-367 | ends at once if the key in front is still there |
| `MultiMap.SearchingForever` | src/pubsub/ThreadSafeMultiMap.hh:356-367 | from any state of the iterators, the loop goes on for ever if and only if the staged key in front has been erased |
| `Publisher.StagedKeyErased` | src/pubsub/ThreadSafeMultiMap.hh:311-367 | such a state is reached: two keys staged, the second erased by another thread, and the iterator moved on |
| `Publisher.NextAfterErase` | src/pubsub/ThreadSafeMultiMap.hh:311-332 | alone at work, after an erase, the search ends at the first pair that is left |
| `Publisher.PurgeListeners` | src/pubsub/Publisher.cc:59-69 | without interference each pair is visited once and the map ends empty |
| `Subscriptions.StepKeeps` | src/pubsub/Publisher.cc:71-129 | any interleaving of commands and publishers keeps own sets, shared index and counter in agreement, and unsubscribed topics silent; what is delivered is in GetsWhatIsOwed |
| `Subscriptions.NothingAfterUnsubscribe` | src/Connection.cc:49-87 | no message on a topic comes after its unsubscribe confirmation until the connection subscribes again |
| `Subscriptions.CountersAgree` | src/pubsub/Publisher.cc:135-206 | between commands the counter is the number of distinct topics, in the tracker as in the shared maps |
| `Subscriptions.Delivered` | src/Connection.cc:69-87 | an attached listener with the topic in its set gets exactly this message at the end of its queue, any other nothing; one that is gone leaves the index |
| `Subscriptions.GetsWhatIsOwed` | src/Connection.cc:69-87 | over all runs, the messages in a connection's queue are exactly those that publishers handed to it while its last request on the topic was to subscribe and it was there: each once, in order |
| `Subscriptions.NothingLostOnceConfirmed` | src/Connection.cc:69-87 | over all runs, from the confirmation of a subscription to the next unsubscribe or disconnect, every delivery on the topic adds its message |
| `Subscriptions.CommandSteps` | src/pubsub/Publisher.cc:71-190 | the steps of a command: own set, index, and a confirmation with the number of topics the connection then has |
| `Subscriptions.ConfirmationCounts` | src/pubsub/Publisher.cc:135-206 | over all runs, the count in each confirmation is the number of distinct topics at that moment, with the topic among them or not |
| `Subscriptions.CommandsBegin` | src/Connection.cc:49-67 | a command changes the connection's own set first |
| `Glob.StringMatch` | deps/StringMatchLen.h:44-164 | says yes if and only if the string matches the pattern, in the declarative sense of star, question mark, class, escape and literal; terminates |
| `Glob.MatchStar` | deps/StringMatchLen.h:49-64 | trying the rest at every position decides the star |
| `Glob.MatchClass` | deps/StringMatchLen.h:72-132 | decides membership in a class, ranges in either order and signed, unterminated classes included |
| `Glob.StarStar` | deps/StringMatchLen.h:50-53 | collapsing stars changes nothing |
| `Glob.StarMeans` | deps/StringMatchLen.h:49-64 | byte 42 stands for any string; the empty pattern matches only the empty string |
| `Glob.ByteMeans` | deps/StringMatchLen.h:65-153 | byte 63 stands for any one byte, 92 makes the next byte ordinary, others stand for themselves |
| `Glob.ClassMeans` | deps/StringMatchLen.h:71-132 | a written class accepts the bytes it lists and those between the ends of its ranges, or with a caret all others |
| `Scan.ScanKeys` | src/StateMachine.cc:1824-1869 | one page of SCAN |
| `Scan.ScanFields` | src/StateMachine.cc:684-708 | one page of HSCAN or SSCAN |
| `Scan.PagesCoverAll` | src/StateMachine.cc:684-708 | following cursors from empty to empty terminates and lists everything once, in order, for every count of at least 1 |
| `Scan.PageReaches` | src/StateMachine.cc:684-708 | a page goes over the first count records in range, or all if there are no more; its cursor is the name of the next one, and empty exactly if there is none |
| `Scan.ScanFindsAll` | src/StateMachine.cc:1824-1869 | pruning by the literal beginning of the pattern gives the same as filtering the whole keyspace |
| `Scan.FieldScanFindsAll` | src/StateMachine.cc:795-818 | everything behind the prefix of the key |
| `StoreScan.RowsExist` | src/StateMachine.cc:1824-1869 | the rows of a store in strict order exist if and only if no two records share a name |
| `StoreScan.ScanYields` | src/StateMachine.cc:1824-1869 | on the records of a store: exactly the keys that match, once and in order |
| `StoreScan.FieldScanYields` | src/StateMachine.cc:684-708 | on the records of a store: exactly the fields of a hash or set that is alone, with their values, once and in order |
| `Scan.ExtractPatternPrefix` | src/storage/PatternMatching.hh:37-50 | the part before the first special character |
| `Scan.PrefixEnds` | src/storage/PatternMatching.hh:37-50 | that part goes up to the first of the five special bytes and no further |
| `Scan.MatchesBeginWithPrefix` | src/storage/PatternMatching.hh:32-50 | whatever matches begins with that part |
| `XxHash.OneShot` | deps/xxhash/xxhash.cc:351-389 | computes the hash of the whole input |
| `XxHash.StripesAppend` | deps/xxhash/xxhash.cc:451-505 | hashing an extended input only needs the lanes and what did not fill a stripe |
| `XxHash.Absorber.Absorb` | deps/xxhash/xxhash.cc:465-505 | after any update, lanes and buffer are those of all input so far |
| `XxHash.StaysLarge` | deps/xxhash/xxhash.cc:464-465 | the flag for long inputs is right although the 32-bit counter wraps around |
| `XxHash.State32.Digest` | deps/xxhash/xxhash.cc:521-542 | the streaming digest is the one-shot hash |
| `XxHash.State64.Update` | deps/xxhash/xxhash.cc:911-966 | the 64-bit form absorbs likewise |
| `XxHash.State64.Digest` | deps/xxhash/xxhash.cc:979-1002 | the streaming digest is the one-shot hash, for lengths that fit the counter |
| `XxHash.HashInPieces32` | deps/xxhash/xxhash.cc:451-542 | for every way of cutting an input into updates |
| `XxHash.HashInPieces64` | deps/xxhash/xxhash.cc:911-1002 | for every way of cutting an input into updates |
| `XxRounds.RoundsLawful` | deps/xxhash/xxhash.cc:440-446 | the third lane of a fresh state is the seed, which the digest of short inputs relies on |
| `XxRounds.Xxh32InPieces` | deps/xxhash/xxhash.cc:260-389 | XXH32 with its real constants and rounds |
| `XxRounds.Xxh64InPieces` | deps/xxhash/xxhash.cc:664-852 | XXH64 with its real constants and rounds |
| `XxRounds.EmptyInput` | deps/xxhash/xxhash.cc:351-389 | the published hashes of the empty input |
| `XxRounds.Steps32` | deps/xxhash/xxhash.cc:263-335 | each step of XXH32 on given words: constants, rotations, lanes of a fresh state |
| `XxRounds.Steps64` | deps/xxhash/xxhash.cc:665-685 | the rounds of XXH64 on given words |
| `XxRounds.LastSteps64` | deps/xxhash/xxhash.cc:687-800 | the last steps of XXH64 on given words |
| `XxRounds.Merged64` | deps/xxhash/xxhash.cc:810-852 | the merging of four given lanes |
| `XxRounds.WordBytes` | deps/xxhash/xxhash.cc:232-247 | words are read least significant byte first |
| `XxRounds.WordFirst` | deps/xxhash/xxhash.cc:290-335 | the tail is taken from its front |

## Left out

- hincrby, hincrbyfloat: number parsing and floating point on top of the same hash writes.
- hexists, hkeys, hvals, hgetall, smembers, vhgetall, exists, getType: reads of the same records that the modelled commands keep in order.
- sismember inside a write transaction reads the database instead of the batch; not modelled.
- lhscan: with a wildcard and a cursor it does not page completely.
- Configuration records, bulk load mode, reset and forceResetLastApplied, checkpoints, compaction, statistics.
- WriteOperation is a descriptor value in the model; its destructor, which terminates the process if finalize was forgotten, is not modelled.
- KeyDescriptor and lease records are values; their serialization to bytes is not modelled.
- Sizes, versions and lengths are unbounded integers, except deque indexes, deadlines and the counters of xxHash, whose limits are explicit.
- StateMachine.Store.Hclone: stops with the outcome `met` where its iterator comes upon a copy that it has written itself.
- StateMachine.Store.Hdel: says what is counted and when it throws, but not what the store looks like after a record of another key was deleted, because its counters then no longer fit its records.
- StateMachine.Store.Srem: likewise.
- StateMachine.Store.Smove: requires different keys; the other case is `StoreLaws.SmoveNeedsTwoKeys`. Says nothing if the name of the element in the source belongs to another set.
- StateMachine.Store.Vhdel: says nothing if the name of a field belongs to another hash.
- StateMachine.Store.Vhset: likewise, except for the reply.
- StateMachine.Store.Hmset: likewise.
- StateMachine.Store.LhsetAndDelFallback: says nothing if a name belongs to another field or hash; so do LhdelWithFallback and ConvertHashField.
- StateMachine.Store.Set: requires a non-empty value; the other case is `StoreLaws.SetNeedsText`.
- StateMachine.Store.DequePush: requires indexes that stay in 64 bits, as they do for any number of pushes that fits in memory.
- StateMachine.Store.LeaseAcquire: requires a deadline that fits in 64 bits.
- StateMachine.Store.Dispatch: says nothing of the store after a command whose records have the names of others, except for HSET, HSETNX, SADD and the commands on locality hashes, whose own contracts do. Leaves the assert on revision numbers to `VersionedTransactions.RevisionAssertInRun`.
- Transactions.Execute: requires that the records of each command are apart; a command whose records are not is an event of `Transactions.Perform`.
- StateMachine.Store.RemoveAllWithPrefix: visits names in arbitrary order.
- KeyLocators.ExtractPrefix: the shortcut of EscapedPrefixExtractor that avoids copying is not modelled.
- WriteTracker.Tracker.Append: whether the journal refuses the entry is a parameter, because entries have no terms here.
- WriteTracker.Tracker.AppendEntries: whether the previous entry matches, and from where on entries differ, are parameters.
- WriteTracker.Pending.DispatchPending: responses are tagged with how they came about, not formatted; the formatting of errors and arrays is not modelled.
- WriteProtocol.StepKeeps: journal entries have no terms; which entries another leader may send is Raft's own safety and is a parameter here.
- CommitTracker.LeaderCommit.Recalculate: reads all match indexes at once; the interleaving of those reads with writers is in the protocol (ReadOne, Finish).
- CommitTracker.LeaderCommit.UpdateTargets: requires a membership list that names no server twice.
- CommitTracker: the thread that commits alone in a single-node cluster is one event; the current-term condition is not in this class.
- RespParser.Parser.Fetch: sizes that are negative or do not fit an int end in the outcome Outside, where the source resizes or wraps around; purge is not modelled.
- RespReader.Reader.ReadFromLink: byte counts are unbounded; TLS and polling are behind the arbitrary Recv.
- RespProtocol: responses other than arrays of bulk strings.
- MultiMap.FullIterator.Next: requires that the search ends; when it does not is `MultiMap.SearchingForever`.
- Publisher: formatting of messages, the asynchronous publishing thread and pattern lookup, which runs the modelled iterators and matcher.
- Subscriptions: connections, the tracker and the shared maps are values of a state machine, not objects; purging is left out there.
- Glob.StringMatch: requires a non-empty string, no class that ends inside an escape, and a harmless byte after the pattern; case-insensitive matching is not modelled.
- Glob.MatchClass: requires a class that does not end inside an escape, where the source reads past the pattern.
- Scan.ScanKeys: works on the ordered list of records, with the patterns that `Glob.StringMatch` takes; the words that the dispatcher puts around cursors are not modelled.
- XxHash: alignment and byte order of the machine, and the canonical representation.
- Raft elections, the replicator, the journal's storage, authentication, configuration files and tools.
