# Verified model of the Josefina store and leader election

Josefina keeps its data in a log-structured key/value store and elects a leader among its nodes.
This project models those two cores, and two smaller ones beside them, in Dafny, and proves what
they promise. `dafny verify dfyconfig.toml` checks everything.

**The store** (`internal/store`). A store is a row of append-only byte segments and an in-memory
index `id -> (segment, offset, length)`. `Put` and `Delete` append framed records, a full segment
rotates and leaves a snapshot of the index behind, `Compact` rewrites the live records, and opening
replays the last segment over the snapshot. Modules, bottom up:

- `Bytes`, `Record`: big-endian integers, CRC-32C, the record codec and the parser of raw segments.
- `Sorting`, `Directory`: byte-wise string order, `sort.Strings`, the names of the segment files and
  the order in which a directory of them is loaded.
- `Log`: scanning a segment, replaying segments into an index, and the plain map a log means.
- `Snapshot`: the snapshot codec, including what the reader makes of a file that ends early.
- `StoreState`: every operation as a function on the whole state (bytes, index, key list, counters,
  snapshot file). `order` arguments are the order in which Go happens to walk the index map.
- `StoreLaws`, `CompactLaws`, `Paging`, `KeyLists`, `TornTail`: what single operations keep and mean.
- `StoreRuns`, `KeyRuns`, `PagingRuns`, `Counters`: whole runs. `StoreRuns.CheckedRefinesMap` is the
  main theorem: the store answers every run of checked calls like a plain map.
- `FailingRuns`: runs on which the store does not keep what one would expect.
- `Segment`, `FileStore`: the objects as the program has them, each method proved to do what the
  function of the same name in `StoreState` says.
- `WriterQueue`: the goroutine that writes a segment file, at every interleaving with its caller.
- `WorkerPool`, `Iteration`: the producer, the bounded channel and the workers of `Iterate`, by
  themselves and on the pages of a store.

**The election** (`pkg/jdb/raft.go`). `RaftNode` has the handlers of one node, as functions and as
the methods of an object; `RaftCluster` is the transition system over nodes and calls in flight,
with the history of votes, wins and accepted heartbeats; `RaftVotes` says what each message does in
a reachable cluster; `RaftSafety` says when at most one node can be elected in a term. It is the leader election of section 5.2 of Ongaro and Ousterhout, "In
Search of an Understandable Consensus Algorithm".

**Value matching** (`internal/dbs`). `LikeStar` is the star pattern of `like`; `Ordering` is the
comparison of values of mixed types, with the rounding of 64-bit integers to doubles.

Where a property that one would expect is false of the code, the code is kept as it is, a lemma
exhibits a failing input, and another says exactly when the property holds:

- A store reopened after `Compact` may list deleted ids again, because `Compact` does not rewrite
  the snapshot (`FailingRuns.DeletedIdReturns`; exactly when: `StoreLaws.RecoveryExact`).
- From the millionth segment on, files are loaded out of order, and a Put can be forgotten
  (`FailingRuns.MillionthPutLost`; exactly when: `Directory.LoadOrder`, `StoreLaws.RecoveryExact`).
- `Compact` computes a payload offset in `uint16`; ids over 65524 bytes get other bytes as their
  payload (`FailingRuns.CompactLosesLongId`; exactly when: `CompactLaws.CompactExact`).
- Pages can omit ids some time after a reopening (`PagingRuns.PageAfterReopen`; exactly when:
  `Paging.PageExact` for all pages, `Paging.SliceExact` for one, `KeyRuns.RunReopenKeys` for what the
  reopening leaves), and a page that reaches past the end panics (`Paging.PageLaw`).
- A snapshot that skips a ref has too high an entry count and decodes to an index with an entry for
  the empty id (`Snapshot.SnapshotRoundTrip`).
- With the configuration file as shipped, which makes every node its own peer, two nodes can win
  the same term (`RaftSafety.ShippedConfig`; exactly when: `RaftSafety.ElectionSafetyExact`, and
  `RaftSafety.ErrorSafetyExact` when vote calls may fail).
- A star between other characters is compared literally (`LikeStar.InnerStarFails`; exactly when the
  glob meaning is met: `LikeStar.PatternMeaning`; what the code does instead: `LikeStar.CodeMeaning`).
- A callback that asks to stop does not stop the other workers at once (`WorkerPool.StopMayBeLate`;
  exactly what it stops: `WorkerPool.StopperStops`, `WorkerPool.CancelExact`).
- NaN compares as equal to every number, so comparison through it is not transitive
  (`Ordering.NaNBreaksTransitivity`; exactly when: `Ordering.TransitiveExact`, and
  `Ordering.Transitive` for strict steps), and `between` accepts it where `more_eq` and `less_eq` do
  not (`Ordering.BetweenNaN`; exactly when: `Ordering.BetweenExact`).

Assumptions made throughout: reads see what has been written (the writer goroutine is drained);
each operation runs to completion before the next; offsets stay below 2^63 because `MaxSegment`
does; a call that may write a snapshot, or a reopening within a run, finds at most 999999 segments
and fewer than 2^64 ids; a payload is the JSON text, taken as bytes.

## Model

| member | source | states |
|---|---|---|
| Bytes.BigEndianRoundTrip | internal/store/types.go:29-56 | a big-endian load returns the stored value for every width and every value that fits it |
| Bytes.PutUint32 | internal/store/types.go:29-31 | the four bytes written in place are the big-endian digits of the value; every other byte of the slice is untouched |
| Bytes.PutUint16 | internal/store/types.go:38-40 | the two bytes written in place are the big-endian digits of the value; every other byte of the slice is untouched |
| Record.NewRecordHeaderAt | internal/store/store.go:35-64 | succeeds exactly on ids of 1 to 65535 bytes and payloads below 2^32, with the right error otherwise; the buffer filled in place is the framed header |
| Record.ParseEncoded | internal/store/store.go:306-359 | the replay parser reads back exactly the record that was framed, whatever bytes follow it |
| Record.ParseTorn | internal/store/store.go:306-359 | no proper prefix of a framed record parses as a record |
| Record.ParseSound | internal/store/store.go:318-350 | a record parsed from arbitrary bytes lies inside them, has the stored fields, and a non-empty payload has the stored checksum |
| Record.ParseExact | internal/store/store.go:306-359 | on arbitrary bytes the replay parser returns a record if and only if the bytes begin with its fields, it has an id, and its payload, unless empty, has the stored checksum |
| Record.FieldsAt | internal/store/segment.go:222-249 | at any offset where a framed record lies, the header fields, id, status and payload are found where the readers look for them |
| Log.ScanTorn | internal/store/store.go:299-362 | scanning complete records followed by a torn one yields exactly the complete records, in order |
| Log.ScanAppend | internal/store/segment.go:197-215 | a record written at the end of a clean segment adds exactly itself to what a scan finds, and the segment size is the sum of the record sizes |
| Log.AppendReplay | internal/store/store.go:226-264 | appending one record, with or without rotation, changes the replayed index and the meaning of the log by exactly one step, at the ref the append returns |
| Log.ReplayAgrees | internal/store/store.go:478-490 | index equals log: the index replayed from clean segments names exactly the live ids, and each ref leads to an Active record with that id and the last value put |
| Sorting.SortEnumerates | internal/store/compact.go:26-27 | sorting any enumeration of a set of ids gives its strictly increasing enumeration |
| Sorting.SortedUnique | internal/store/compact.go:26-27 | a set of ids has one sorted enumeration, so the order of the map walk does not matter |
| Sorting.LessExact | internal/store/store.go:156-158 | one string is below another if and only if, at their first difference, it ends or has the smaller byte |
| Directory.LoadOrder | internal/store/store.go:151-190 | the files of a directory written segment by segment are loaded in that order if and only if there are at most 999999 of them, and then with the contents of the segments |
| Directory.LoadedFrom | internal/store/store.go:151-190 | whatever their number, loading finds as many segments as were written, each with the contents of one of them |
| Directory.MillionthLoaded | internal/store/store.go:151-190 | of a million segments the last one loaded is the last but one written |
| Directory.NameOrder | internal/store/store.go:196-198 | up to 999999 the zero-padded names sort like their numbers |
| Directory.FirstName | internal/store/store.go:196-198 | the first segment file is segment-000001.dat |
| Directory.MillionthName | internal/store/store.go:196-198 | the millionth name sorts before its predecessor |
| Snapshot.SnapshotRoundTrip | internal/store/snapshot.go:19-133 | whatever order the map is walked in, decoding an encoded index succeeds and returns the index if and only if no ref points into the current segment |
| Snapshot.DecodeExact | internal/store/snapshot.go:77-109 | a snapshot file is accepted if and only if it has ten bytes, the stored checksum and the magic; each error says which of these failed first |
| Snapshot.ReadEntriesBack | internal/store/snapshot.go:40-55 | reading the entries of a walk restores every ref that was not skipped; left-over count is read from an empty buffer |
| Snapshot.ReadPastEnd | internal/store/snapshot.go:111-130 | an entry count that is too large makes the reader install the empty id |
| StoreLaws.OpenEmpty | internal/store/store.go:184-186 | open on empty directories succeeds with one empty segment and nothing in the store |
| StoreLaws.OpenExact | internal/store/store.go:758-801 | open fails exactly on a snapshot file that the decoder refuses, with its error; otherwise it has the loaded segments, their bytes as Size and zero counters |
| StoreLaws.FreshInv | internal/store/store.go:184-186 | the store that open makes of empty directories satisfies the invariant and means the empty map |
| StoreLaws.RotateSnapshot | internal/store/store.go:234-242 | at every rotation the snapshot decodes to the whole index and its ids in the order of the walk: no ref points into the segment just opened, so the entry count is exact |
| StoreLaws.AppendLaw | internal/store/store.go:226-264 | the record goes behind the last segment if the two fit MaxSegment together, and otherwise alone into a new one with a snapshot of the index before it, where its ref says; clean segments, the packing bound and the snapshot invariant are kept, and nothing else changes but Size |
| StoreLaws.RefusedLaw | internal/store/store.go:226-247 | a record the header refuses returns that error and changes no id's value; a segment is opened all the same if the record would not have fit, and Size counts it |
| StoreLaws.PutLaw | internal/store/store.go:513-548 | Put succeeds exactly on encodable records, sets that one id of the map, and keeps the invariant either way |
| StoreLaws.PutEffect | internal/store/store.go:513-548 | which arguments give which error; a failure leaves index, keys and the two counters alone, a success changes one id and the one counter that the id calls for; an empty id changes nothing |
| StoreLaws.DeleteLaw | internal/store/store.go:555-585 | Delete never fails, answers whether the id was in the map, removes it with one tombstone more, keeps the invariant, and changes nothing for an absent id |
| StoreLaws.ReadBack | internal/store/segment.go:256-274 | reading where a record was written returns that record, checksum verified |
| StoreLaws.ReadExact | internal/store/segment.go:256-274 | wherever the bytes describe a record, reading returns it if its payload, empty or not, has the stored checksum, and a corrupted record otherwise |
| StoreLaws.ReadSound | internal/store/segment.go:222-274 | on arbitrary bytes at any offset, a record that is read is described there and has the stored checksum, and a corrupted one is described there and has not |
| StoreLaws.GetLaw | internal/store/store.go:605-621 | Get returns the last value put under an id, and finds nothing for every other id |
| StoreLaws.ReopenIndex | internal/store/store.go:758-801 | opening a store's directories succeeds, finds all segments, up to 999999 of them in written order, and builds the snapshot's index with the last segment loaded replayed over it |
| StoreLaws.RecoveryExact | internal/store/store.go:758-801 | opening finds the segments in written order and rebuilds the live index if and only if there are at most 999999 of them and snapshot and sealed segments agree on every id the last segment does not touch |
| StoreLaws.FreshSnapshotSettles | internal/store/store.go:226-242 | that condition holds whenever no Compact has run since the last rotation, or no rotation has happened |
| StoreLaws.RecoveryLaw | internal/store/store.go:758-801 | up to 999999 segments and under that condition the reopened store has the same log, index and snapshot and satisfies the invariant |
| CompactLaws.WrappedShort | internal/store/compact.go:73-74 | up to 65524 bytes of id the uint16 payload offset is right |
| CompactLaws.CompactReadLaw | internal/store/compact.go:63-81 | what Compact reads behind a ref is the id length and the bytes at the wrapped offset of the record |
| CompactLaws.PackLaw | internal/store/compact.go:60-102 | the rewrite of any live ids never fails: one record each, clean and packed segments, and a new index equal to their replay |
| CompactLaws.LiveSize | internal/store/compact.go:83-89 | the live records of a segment are together no larger than the segment |
| CompactLaws.CompactLaw | internal/store/compact.go:16-132 | Compact keeps the invariant, holds one record per live id and no dead one, closes no segment early, leaves the keys sorted and complete, carries every payload over as read, and of counters and snapshot changes only the tombstones, to zero |
| CompactLaws.CompactExact | internal/store/compact.go:16-132 | Compact preserves the map if and only if every live payload equals the bytes at its wrapped offset; ids of at most 65524 bytes always do |
| CompactLaws.WrappedLong | internal/store/compact.go:73-74 | with an id of 65525 bytes what Compact reads in place of a payload below 2^24 bytes starts with a zero byte |
| CompactLaws.RebuildIndexLaw | internal/store/store.go:478-490 | rebuildIndexes builds the replayed index whatever the key list was |
| CompactLaws.RebuildPackKeys | internal/store/store.go:271-292 | replaying a rewrite lists its ids in the order they were written, without repetition |
| CompactLaws.PruneLaw | internal/store/store.go:727-739 | Prune does not fail and leaves exactly the state that Compact leaves, key list included |
| KeyLists.RemoveAt | internal/store/store.go:286-292 | deleting removes the first occurrence from the key list and no other entry |
| KeyLists.RebuildKeysExact | internal/store/store.go:271-292 | after a replay of arbitrary bytes over a table with the right key list, the list has every live id, so one of the index's length is right; it has each once if no Active record names an id live at that point, and only then if the Deleted ones name live ids |
| StoreRuns.ApplyRefines | internal/store/store.go:378-621 | each legal call keeps the invariant and is the same call on a plain map, with the same answer, pages included |
| StoreRuns.RunRefines | internal/store/store.go:378-801 | along every legal run from any store that satisfies the invariant, it answers like a plain map that starts from what its log means |
| StoreRuns.RunRefinesMap | internal/store/store.go:378-801 | open on an empty directory succeeds, and along every legal run of Put, Delete, Get, page, Compact, Prune and reopen from there the store answers like a plain map, and its log means that map |
| StoreRuns.CheckedRefinesMap | internal/store/store.go:378-801 | a run is legal, so all of this holds, if no Put has an id over 65524 bytes, no reopening comes between a compaction and the next rotation, and no page meets a key list of the right length with the wrong ids; nothing is asked of Compact and Prune |
| StoreRuns.StaleNeedsCompact | internal/store/compact.go:122-129 | without Compact and Prune every point of a legal run is fit for a reopening |
| StoreRuns.RunRecovers | internal/store/store.go:226-242 | at the end of every legal run Get reads the map, the segments are packed, the index is the replay of the bytes, and with at most 999999 segments, unless a Compact came after the last rotation, a reopened store has the same segments, index and values |
| FailingRuns.StaleRevives | internal/store/compact.go:122-129 | after Compact a reopened store lists every deleted id that the old snapshot still names |
| FailingRuns.DeletedIdReturns | internal/store/compact.go:122-129 | for every segment size there is a run Put, Delete, Compact after which reopening brings the deleted id back |
| FailingRuns.CompactLosesLongId | internal/store/compact.go:73-81 | Put any payload below 2^24 bytes that does not start with a zero byte under any id of 65525 bytes, then Compact: Get returned the payload before and other bytes after |
| FailingRuns.MillionthPutLost | internal/store/store.go:151-198 | with segments smaller than the records, after 999998 Puts of one id and one of another, which opens segment 1000000, Get finds the last id and a reopened store does not |
| Paging.AllIdsListed | internal/store/store.go:400-404 | the listing a page is cut from has each live id once, in strictly increasing or strictly decreasing order |
| Paging.PageLaw | internal/store/store.go:378-420 | with a key list that will be rebuilt or lists the live ids, a page has the limit ids from the offset on of the sorted or reverse-sorted live ids with their refs, delivered exactly when there are so many; without a limit all of them, exactly from offset 0; past the end it is empty; the key list is left as the whole listing in that direction |
| Paging.PageExact | internal/store/store.go:390-404 | in either direction all pages are right, and likewise the full listing, if and only if the key list will be rebuilt or lists the live ids |
| Paging.SliceExact | internal/store/store.go:390-416 | whatever the key list holds, a page inside the list is delivered, and is right if and only if the list is rebuilt or has each id of the page at that id's rank |
| KeyRuns.ApplyKeysOk | internal/store/store.go:286-292 | Put, Delete, Get, a page call, Compact and Prune keep the key list duplicate-free and within the live ids |
| KeyRuns.ReopenKeys | internal/store/store.go:758-801 | right after any reopening every page is right; the key list is duplicate-free and within the live ids if no record replayed puts an id live at that point, and only then if the deletions replayed name live ids |
| KeyRuns.RunReopenKeys | internal/store/store.go:271-292 | at any point of a legal run with a fresh snapshot a reopening leaves such a key list if and only if no id was put in the last segment that was live already |
| KeyRuns.RunKeysOk | internal/store/store.go:286-292 | along legal runs in which every reopening is of that kind the key list is always duplicate-free and within the ids of the map |
| KeyRuns.NewIdsGood | internal/store/store.go:271-292 | every reopening is of that kind in a run whose Puts name only absent ids and whose reopenings find a fresh snapshot |
| PagingRuns.RunPage | internal/store/store.go:378-420 | along such runs, reopenings and earlier page calls included, each page call is legal and gives the slice of the sorted ids of the plain map with their live refs, or panics exactly if the slice leaves the list |
| PagingRuns.TwoPuts | internal/store/store.go:528-536 | two Puts of one id that fit the first segment leave its record there twice and no snapshot |
| PagingRuns.PageAfterReopen | internal/store/store.go:271-280 | the run Put, Put of the same id, reopen, Put of another id is legal, and then the full page in either direction is not the list of live ids |
| Counters.RunCounts | internal/store/store.go:528-573 | on runs of reads, pages, deletions and successful writes the log holds WAL plus TombStones records, WAL is live ids plus deletion records, and Size is the number of bytes |
| TornTail.RebuildSound | internal/store/store.go:299-362 | rebuilding from arbitrary bytes over any index: an id that the records touch has no ref or one that lies inside the segment, names an Active record with that id, and has a matching checksum if not empty; every other id keeps its ref |
| TornTail.OpenSound | internal/store/store.go:758-801 | opening any directory with any snapshot that decodes: the same of the last segment over the snapshot's index |
| TornTail.RebuildAllSound | internal/store/store.go:478-490 | rebuilding from segments of arbitrary bytes, every ref is sound in the segment it names |
| TornTail.RebuildTorn | internal/store/store.go:299-362 | on complete records followed by a torn one, rebuilding applies exactly the complete records, in order |
| Segment.Segment.WriteRecord | internal/store/segment.go:197-215 | on success the file grows by exactly the framed record and the ref is the old end of the file; on error nothing is written |
| Segment.Segment.Read | internal/store/segment.go:256-274 | returns what ReadRecord says of the file at that offset, including each error |
| Segment.Segment.ReadNext | internal/store/store.go:306-350 | returns the record at an offset, or nothing for any reason the replay stops |
| FileStore.FileStore.LoadSegments | internal/store/store.go:151-183 | the loop over the sorted names makes one segment object for each file, in name order, and sums their sizes |
| FileStore.FileStore.constructor | internal/store/store.go:151-190 | segments hold the files of the directory in the order of their names, an empty directory gets one empty segment, Size is the number of bytes |
| FileStore.FileStore.TryLoadSnapshot | internal/store/snapshot.go:77-133 | the loop installs exactly the decoded table, or returns the decoder's error |
| FileStore.FileStore.CreateSnapshot | internal/store/snapshot.go:19-71 | the file is the encoding of the index along the order in which the map was walked |
| FileStore.FileStore.RebuildIndex | internal/store/store.go:299-362 | the replay loop ends on any bytes and leaves the fold of the scanned records over index and keys |
| FileStore.FileStore.DeleteIndex | internal/store/store.go:286-292 | the id leaves the index, and its first occurrence leaves the key list |
| FileStore.FileStore.Open | internal/store/store.go:758-801 | the object opened on a directory has the state StoreState.Open computes, or its error is returned |
| FileStore.FileStore.AppendRecord | internal/store/store.go:226-264 | the new state and the ref or error are those of StoreState.AppendRecord for the walk order taken |
| FileStore.FileStore.Put | internal/store/store.go:513-548 | the whole new state and the error are those of StoreState.Put |
| FileStore.FileStore.Delete | internal/store/store.go:555-585 | the whole new state and the answer are those of StoreState.Delete |
| FileStore.FileStore.Get | internal/store/store.go:605-621 | the answer is that of StoreState.Get |
| FileStore.FileStore.Rewrite | internal/store/compact.go:37-102 | the rewrite loop writes only new segments and ends with the packed segments and index, or reports the error of the first record that fails |
| FileStore.FileStore.Compact | internal/store/compact.go:16-132 | the whole new state is that of StoreState.Compact; the flag is false exactly if the rewrite fails, and then state and segments are as they were |
| FileStore.FileStore.RebuildIndexes | internal/store/store.go:478-490 | the loop over all segments leaves the table StoreState.RebuildAll computes |
| FileStore.FileStore.Prune | internal/store/store.go:727-739 | the whole new state is that of StoreState.Prune; the error of a failed Compact is returned and nothing is rebuilt |
| FileStore.FileStore.GetRecords | internal/store/store.go:378-420 | the page or panic, and the new key list, are those of Paging.GetRecords for the walk order taken |
| WriterQueue.QueueLaw | internal/store/segment.go:91-125 | on any initial file, between calls, at every interleaving, size is file plus pending bytes and the two are the initial file and then the records in call order; after Close the file is just that, and scans back to the old records and the new |
| WriterQueue.Progress | internal/store/segment.go:91-125 | neither the caller nor the loop can be stuck while there is something to do |
| WriterQueue.EveryLog | internal/store/segment.go:91-215 | every sequence of encodable records can be written to any file and the segment closed, and then the file is the old one followed by them |
| WorkerPool.RunPartition | internal/store/store.go:628-721 | at every interleaving unsent, queued, in-flight, handled and dropped ids partition the selection |
| WorkerPool.ExactlyOnce | internal/store/store.go:628-721 | no id is handled twice or handled and still elsewhere; if every read succeeded and every callback returned (true, nil), all are handled and no error is returned |
| WorkerPool.ErrorExact | internal/store/store.go:646-654 | no error is returned if and only if no read and no callback failed; otherwise it is the error of the first that did |
| WorkerPool.CancelExact | internal/store/store.go:646-702 | the context is cancelled if and only if a read failed or a callback returned false or an error |
| WorkerPool.StopperStops | internal/store/store.go:684-702 | a worker whose read failed or whose callback returned false or an error never takes an id again; after (true, nil) it goes on |
| WorkerPool.StopMayBeLate | internal/store/store.go:664-711 | after a callback asked to stop, the producer may pass an id over and still send the next, and another worker may call back for it |
| WorkerPool.Progress | internal/store/store.go:659-718 | a pool that has not returned can always take a step |
| WorkerPool.RunTerminates | internal/store/store.go:659-720 | every run is bounded by a measure of its start, and one that cannot be extended has returned |
| WorkerPool.SingleWorkerOrder | internal/store/store.go:659-715 | one worker handles the ids in page order, and nothing after the first failed read, false or error |
| Iteration.IterateLaw | internal/store/store.go:628-721 | at any point of a legal run, any number of workers and any interleaving: no read fails, the callbacks get entries of the plain map for distinct ids of the page, one worker in page order up to the first that does not return (true, nil), and if all do exactly the requested slice of the map |
| RaftNode.VoteExact | pkg/jdb/raft.go:190-216 | a vote is granted exactly in a later term, or in the node's own if it has voted for no other; a refusal changes nothing; a repeated request changes nothing and gets the same answer |
| RaftNode.NoSecondVote | pkg/jdb/raft.go:190-216 | however a node goes on after granting a vote, it refuses every other candidate in that term |
| RaftNode.Node.VoteReturned | pkg/jdb/raft.go:102-128 | a granted vote counts exactly for a Candidate in its ballot's term, and makes it Leader exactly when the votes reach the quorum of the calls that have not failed; a higher term makes the node a follower without a vote |
| RaftNode.Node.HandleRequestVote | pkg/jdb/raft.go:190-216 | granted exactly in a later term, or in the node's own if it has voted for no other; a later term makes it a follower, and a refusal changes nothing |
| RaftNode.Node.HandleHeartbeat | pkg/jdb/raft.go:223-251 | accepted exactly in a term the node has not left, and then it follows the sender in that term, its vote forgotten exactly if the term is later; a refusal changes nothing |
| RaftCluster.StepInv | pkg/jdb/raft.go:91-251 | every step of the cluster keeps the invariant |
| RaftCluster.RunInv | pkg/jdb/raft.go:91-251 | one vote per term for any peers lists, delays and call errors: each node votes for at most one candidate in a term, leaders and heartbeats belong to won terms, terms never fall |
| RaftVotes.GrantExact | pkg/jdb/raft.go:190-216 | in every reachable state a vote request is granted if and only if its term is at least the voter's and the history has no vote of the voter in that term for another candidate |
| RaftVotes.StepRoles | pkg/jdb/raft.go:91-251 | a raised term makes a follower; within a term a role changes only by a win or an accepted heartbeat, and so does the leader a node knows |
| RaftVotes.StepLearns | pkg/jdb/raft.go:91-251 | a node never stays below a term that a request, reply or heartbeat tells it |
| RaftVotes.BeatSpreads | pkg/jdb/raft.go:148-251 | a leader's heartbeat to any other node it lists, of no higher term, makes that node its follower |
| RaftSafety.WinnerQuorum | pkg/jdb/raft.go:97-126 | every winner of a term has the votes of a quorum of distinct nodes |
| RaftSafety.SafeRun | pkg/jdb/raft.go:40-42 | with an odd number of nodes that list exactly the others and no call errors, no reachable state has two winners of one term |
| RaftSafety.LeaderAgreement | pkg/jdb/raft.go:148-251 | under the same conditions all heartbeats accepted in a term name the one node elected in it |
| RaftSafety.UnsafeRun | pkg/jdb/raft.go:97-126 | at every other size of a uniform cluster there is a run without call errors that elects two nodes in one term |
| RaftSafety.ElectionSafetyExact | pkg/jdb/raft.go:40-126 | without call errors all reachable states are safe if and only if the nodes list the others and are odd in number or two, or a single node lists itself |
| RaftSafety.ErrorSafetyExact | pkg/jdb/raft.go:106-124 | when vote calls may fail, if and only if there are at most three nodes that list the others, or one that lists itself |
| RaftSafety.ShippedConfig | config.json:2-6 | three nodes that all list all three can elect two leaders in the same term |
| LikeStar.Agrees | internal/dbs/helppers.go:95-128 | for a non-empty pattern without inner star the code matches a value exactly when the glob does |
| LikeStar.InnerStarFails | internal/dbs/helppers.go:104-126 | a pattern with an inner star misses the value left when its stars are removed, which the glob matches |
| LikeStar.PatternMeaning | internal/dbs/helppers.go:95-128 | the code and the glob agree on all values if and only if the pattern is not empty and has no inner star |
| LikeStar.CodeMeaning | internal/dbs/helppers.go:95-128 | a pattern of stars, core, stars matches exactly the values that are its core, character by character, with anything before it if there are leading stars and anything behind it if there are trailing ones |
| LikeStar.StarsMeaning | internal/dbs/helppers.go:95-111 | a pattern of stars only, or empty, matches every value |
| Ordering.RoundMonotone | internal/dbs/helppers.go:31-36 | rounding integers to doubles, ties to even, is monotone |
| Ordering.RoundNearest | internal/dbs/helppers.go:31-36 | float64 of an integer below 2^64 in absolute value is a double, no double is nearer, and of two as near it is the one with the even mantissa |
| Ordering.CompareMeaning | internal/dbs/helppers.go:190-253 | times compare on the time line, strings at their first difference, numbers as doubles except a negative integer with an unsigned one; nothing across these kinds |
| Ordering.Antisymmetric | internal/dbs/helppers.go:190-253 | both directions compare with opposite results, or neither compares |
| Ordering.Transitive | internal/dbs/helppers.go:190-253 | where all pairs compare, comparison through a value that is not NaN is transitive, and after a strict step it is strict exactly if the outer values are not NaN |
| Ordering.TransitiveExact | internal/dbs/helppers.go:190-253 | comparison through a value is transitive for all outer values if and only if it is not NaN |
| Ordering.NaNBreaksTransitivity | internal/dbs/helppers.go:246-252 | 2 and NaN and NaN and 1 compare as equal, 2 and 1 do not |
| Ordering.IntegerOrder | internal/dbs/helppers.go:221-252 | on integers comparison never contradicts the numeric order, equals it up to 2^53, and is refused exactly for a negative against an unsigned |
| Ordering.MoreEqExact | internal/dbs/condition.go:398-460 | more_eq on a scalar bound is comparison with result 0 or 1, without NaN and for bounds of the basic numeric types |
| Ordering.LessEqExact | internal/dbs/condition.go:260-322 | less_eq on a scalar bound is comparison with result 0 or -1, without NaN and for bounds of the basic numeric types |
| Ordering.BetweenExact | internal/dbs/condition.go:607-632 | between follows from more_eq and less_eq, and the converse holds exactly without NaN and for bounds of the basic numeric types |
| Ordering.BetweenNaN | internal/dbs/condition.go:607-632 | between accepts a NaN exactly if both bounds are numbers, and any number for NaN bounds, where more_eq and less_eq accept none |

## Left out

- File handles, directory renames, `Sync`, environment settings and logging; segment contents stay readable although the program closes the sealed file.
- Concurrency between store operations: reads that race the segment writer, and a `Put` or `Delete` that lands between the copy and the swap of `Compact`. The goroutine that `appendRecord` starts for a compaction is an ordinary Compact between two operations.
- Appending after a torn tail; the torn bytes stay in the file, so torn-tail recovery is a claim about one replay.
- A crash between opening a new segment and writing its snapshot, and a crash inside `Compact`.
- `Keys`, `Empty`, `IsExist`, `WriteHeader` and the `OnPut` and `OnDelete` callbacks.
- JSON encoding and decoding of values: payloads are bytes, and a value that does not encode is not modelled.
- The panic of a worker of `Iterate` on a page whose key list names an id that is not live; `Iteration.IterateLaw` is about pages of a key list that fits (`Paging.KeysFit`).
- The CRC-32C polynomial: checksums are computed with it, but the theorems hold for any function.
- A negative `MaxSegment`, and more bytes than an int64 counts.
- Clocks and timeouts of the election, its liveness, node restarts, and `onChangeLeader`, which adds nothing to the protocol state.
- Lists and nested documents as condition values, `getBetweenRange`, secondary indexes, schema helpers, transactions, triggers and the JavaScript VM.
- RPC, HTTP, websocket, auth, cache and session code, and the earlier copies under `pkg/old`.
