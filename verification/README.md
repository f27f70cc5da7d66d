# bitdb, verified

A Dafny model of the hard parts of bitdb: the Raft election layer, the
Bitcask-style storage engine with its batches, recovery and merge, the skip
list behind the index, the JSON parser and printer, the arena, the serializer
and the work-stealing coroutine pool. `dafny verify dfyconfig.toml` checks all
of it.

Code that changes state in place is a class or a method with loops, proved
against a function that says what the step means; the theorems are about those
functions and about whole runs.

## What is proved

**Raft** (`raft_node`, `raft_cluster`, `raft_safety`, `raft_logs`, `raft_stale`). A cluster
of any size takes steps in any order over a set of messages that may be lost,
repeated and reordered; timeouts are steps that may happen at any time. The
code remembers the term it asked in but never compares it with the current
one, and it clears its vote when it steps down within a term. Election Safety
therefore needs a hypothesis about replies, `TimelyRun`, and holds under it in
every run. `VoteReplyExact` says for one vote reply exactly when the invariant
survives it, and `TwoLeadersInOneTerm` is a run of three nodes without the
hypothesis in which two nodes lead one term. Append replies always meet the
hypothesis, because the codec writes none of their fields and the response they
are read into starts zeroed (bitdb/net/rpc/rpc_value.h:36), so that timely vote
replies alone are enough (`WireElectionSafety`); for the same reason no run ever commits or applies
anything (`NothingIsEverApplied`). Commit and apply safety is proved for
arbitrary append replies. `raft_logs` says what the handlers mean for the logs,
in terms of the logs alone: a vote goes exactly to a log no older than one's own,
so that in every timely run a leader was elected by a majority of such voters
(`LeadersWereAhead`); an append is accepted exactly after a matching entry,
merges exactly its entries, and delivered again or late it changes nothing.

**Storage** (`coding`, `crc32c`, `log_record`, `disk`, `replay`, `db`, `batch`,
`store_runs`, `store_paths`, `merge`). The bytes on disk are concatenations of encoded
records. The meaning of a log is a fold, `ReplayLog`; the running database, the
recovery scan, batches and merge are all tied to it. Recovery succeeds exactly
when the log replays and no file is empty, and `CrashRecovers` shows that at
every moment of every run the log replays to exactly the committed map. When
every record fits a file, no file is empty but between its opening and the
write it was opened for, and so recovery never fails after a crash at any other
moment (`RecoveryNeverFails`). Otherwise empty files do arise: from a merge
followed by a close, and from a record larger than a file that finds the
current one empty (`WriteLeavesEmptyFile`). Every write and every commit of the
database, whatever the size limit, is a path of that transition system, and a
crash can cut it off after any of its steps (`CommitIsSteps`, `CutCommit`). No
file ever exceeds the size limit, but with a single record. A record that is read
always has the checksum of its own bytes, and damage within four adjacent bytes
that leaves its length never goes unseen (`DamageIsSeen`). A commit whose tombstone names a key that is not
indexed leaves a log that can no longer be recovered (`FinishIsAtomic`).
Merge completes exactly when there are files, none is empty and some key is
live; with no live key the original dereferences a null file.

**Skip list** (`lex`, `skiplist_nodes`, `skiplist`). For every sequence of
insertions and removals and every choice of heights the list equals a map, its
levels are the sorted lists of the nodes tall enough for them, and iteration
visits every key once in order. `Prev` from the first node lands on the head.

**JSON** (`json`, `json_grammar`, `json_roundtrip`, `json_parser`). A text is
parsed to a value exactly if it is the text of a tree of the grammar that means
it, with any white space and comments between the tokens (`ParseExact`); of two
entries with one key the last counts. For every value without
doubles and every text that may follow, parsing the printed form returns the
value and stops right behind it if and only if the strings are well escaped,
the dictionaries sorted and the integers non-negative. The quote search that
counts backslashes agrees with a left-to-right scan on every text.

**Smaller cores**. `arena`: disjoint, aligned regions inside owned blocks and a
bound on waste. `serializer`: a schema-directed round trip that holds exactly
when every length fits its size field. `pool`, `pool_runs`: conservation,
pinning and the exit rule over every interleaving. A stop loses no accepted job,
however the pool goes on, if and only if no call of ScheduleById is under way
when it happens (`StopLosesNothingExactly`).

Where comments and code disagree the model follows the code. The record layout
allows five bytes for a varint (bitdb/data/log_record.h:27-33) while the length
constant says four (bitdb/utils/coding.h:8); the header buffer has room for
five, the buffer for transaction ids does not.

## Model

| member | source | states |
|---|---|---|
| `RaftNode.Raft.constructor` | bitdb/raft/raft.h:183-206 | a new node is a follower in term 0 without a vote, with the log its storage holds |
| `RaftNode.Raft.BeginNewTerm` | bitdb/raft/raft.h:673-681 | changes the term and forgets the followers, nothing else |
| `RaftNode.Raft.BecomeFollower` | bitdb/raft/raft.h:684-689 | clears the vote, also when the term stays the same |
| `RaftNode.Raft.BecomeCandidate` | bitdb/raft/raft.h:692-697 | votes for itself in the given term |
| `RaftNode.Raft.BecomeLeader` | bitdb/raft/raft.h:700-705 | keeps term and vote; next and match indices are reset for every node |
| `RaftNode.Raft.RequestVote` | bitdb/raft/raft.h:271-305 | the whole new state and the reply, for stopped, stale, equal and larger terms |
| `RaftNode.Raft.Campaign` | bitdb/raft/raft.h:621-645 | the next term, a vote for itself, and the request that goes out |
| `RaftNode.Raft.ReceiveVote` | bitdb/raft/raft.h:413-439 | the state after a vote reply, with the term it was asked in left uncompared |
| `RaftNode.Raft.AppendEntries` | bitdb/raft/raft.h:308-393 | the state and the reply for stale terms, heartbeats, mismatches and merges |
| `RaftNode.Raft.MergeEntries` | bitdb/raft/raft.h:354-380 | the merged log for any entries that match at their predecessor |
| `RaftNode.Raft.FirstDisagreement` | bitdb/raft/raft.h:356-371 | the loop finds the length of the longest agreeing prefix |
| `RaftNode.AgreeingIsLongest` | bitdb/raft/raft.h:356-371 | all positions before it agree in term and the one at it does not |
| `RaftNode.Raft.AddLogAt` | bitdb/raft/raft_storage.h:39-50 | grows the log if needed and overwrites exactly the given positions |
| `RaftNode.Overwrite` | bitdb/raft/raft_storage.h:39-50 | the new entries stand at their positions, all other old entries are kept, a gap is blank, and the length is exactly what is needed |
| `RaftNode.Raft.CountMatching` | bitdb/raft/raft.h:478-483 | one plus the number of followers that hold the position |
| `RaftNode.Raft.AdvanceCommit` | bitdb/raft/raft.h:473-489 | the commit index becomes the last position of the term that a majority holds |
| `RaftNode.CommitFrom` | bitdb/raft/raft.h:473-489 | the result is the old commit index or a later position inside the log |
| `RaftNode.Raft.ReceiveAppendReply` | bitdb/raft/raft.h:461-497 | the leader's state after a reply: step down, advance, or walk back |
| `RaftNode.Raft.NewCommand` | bitdb/raft/raft.h:247-258 | only a running leader appends, one entry of its own term |
| `RaftNode.Raft.RunApply` | bitdb/raft/raft.h:609-615 | every committed slot is applied once, in order, with all reads in range |
| `RaftCluster.MajoritiesMeet` | bitdb/raft/raft.h:432-438 | two sets of voters that both pass the majority test share a voter |
| `RaftCluster.NoSecondLeader` | bitdb/raft/raft.h:429-438 | a candidate cannot reach a majority in a term that another node has won |
| `RaftCluster.LeaderSeesNoRival` | bitdb/raft/raft.h:320-348 | no append of a leader's own term ever reaches that leader |
| `RaftCluster.TallyKeeps` | bitdb/raft/raft.h:429-438 | counting a vote, and winning by it, keeps the cluster invariant |
| `RaftCluster.VoteKeeps` | bitdb/raft/raft.h:402-440 | a timely vote reply keeps the cluster invariant |
| `RaftCluster.AppendKeeps` | bitdb/raft/raft.h:308-393 | an append or a heartbeat keeps the cluster invariant although it clears votes |
| `RaftCluster.AppendReplyKeeps` | bitdb/raft/raft.h:461-497 | a timely append reply keeps the cluster invariant |
| `RaftCluster.StepKeepsInv` | bitdb/raft/raft.h:246-705 | so does every step |
| `RaftCluster.RunsKeepInv` | bitdb/raft/raft.h:246-705 | the invariant holds in every state of every timely run of any number of nodes |
| `RaftSafety.ElectionSafety` | bitdb/raft/raft.h:402-440 | two nodes that lead the same term, at whatever moments of a timely run, are one node |
| `RaftSafety.RunGrows` | bitdb/raft/raft.h:284-287 | in every timely run terms never decrease at any node, and no vote or victory is ever unmade |
| `RaftSafety.VoteDiscipline` | bitdb/raft/raft.h:284-301 | in every timely run, of two different votes of a node in one term one was for itself, and it never leads that term |
| `RaftSafety.SecondVoteFollowsALeader` | bitdb/raft/raft.h:320-348 | when replies are handled in the term they were asked in, a node votes again after its self-vote only once another node has led that term |
| `RaftSafety.LeaderAppendsOnly` | bitdb/raft/raft.h:308-348 | in every timely run leadership is lost only to a larger term; until then the log only grows, by entries of that term |
| `RaftSafety.AppendAdvances` | bitdb/raft/raft.h:351-388 | an append never shrinks the log or moves the commit index back or outside the log |
| `RaftSafety.RunCommitsSafely` | bitdb/raft/raft.h:604-618 | in every run, timely or not: log and commit index never go back, the commit index stays inside the log, slots are applied once and in order |
| `RaftSafety.NothingIsEverApplied` | bitdb/raft/raft_protocol.h:87-93 | with replies as the codec delivers them, no run ever commits or applies anything |
| `RaftSafety.ReplicationOvershoots` | bitdb/raft/raft.h:582-596 | an accepted replication always makes the receiver's log longer than the leader's |
| `RaftLogs.NewerIsAnOrder` | bitdb/raft/raft.h:292-297 | the comparison of logs by last term, then length, is a total preorder, and an entry of no smaller term makes a log newer |
| `RaftLogs.ExtensionIsNewer` | bitdb/raft/raft.h:292-297 | a log whose terms do not decrease is strictly newer than each of its beginnings |
| `RaftLogs.GrantsExactly` | bitdb/raft/raft.h:284-301 | a campaign gets a vote if and only if the voter runs, is in no later term, has not voted for another in that term, and its log is no newer than the candidate's |
| `RaftLogs.VoteRequestExact` | bitdb/raft/raft.h:278-305 | for any request: the reply, and that nothing but term, role, vote and followers changes, and when |
| `RaftLogs.RequestTells` | bitdb/raft/raft.h:629-635 | a request carries the sender's new term and id, and the length and last term of its log |
| `RaftLogs.MajorityOutnumbersTheRest` | bitdb/raft/raft.h:432-434 | the majority test holds exactly for sets of nodes that outnumber the others |
| `RaftLogs.VoteReplyElects` | bitdb/raft/raft.h:413-438 | a candidate leads after a reply if and only if its voters then outnumber the others; what else changes |
| `RaftLogs.VotesAreCast` | bitdb/raft/raft.h:288-301 | in every run a vote for another node was cast on a request for it, in that term |
| `RaftLogs.RequestsComeFromCampaigns` | bitdb/raft/raft.h:632-644 | in every run a request was sent by its candidate's campaign, with the log it had then |
| `RaftLogs.VotersAreBehind` | bitdb/raft/raft.h:288-301 | in every run, timely or not: when a node voted for another, its log was no newer than the one the other campaigned with |
| `RaftLogs.CandidateKeepsLog` | bitdb/raft/raft.h:247-258 | in every timely run a candidate or leader has the log it campaigned with, continued by entries of its term |
| `RaftLogs.LeadersWereAhead` | bitdb/raft/raft.h:402-440 | in every timely run a leader was elected by a majority of nodes whose logs were no newer than the beginning of its own |
| `RaftLogs.AppendExact` | bitdb/raft/raft.h:308-393 | for any append: the reply and the new state; with entries it succeeds if and only if the log holds an entry of that term at the place before them, and otherwise the log is unchanged |
| `RaftLogs.AppendMerges` | bitdb/raft/raft.h:351-388 | the log after an accepted append, place by place, and the commit index |
| `RaftLogs.MergedAgrees` | bitdb/raft/raft.h:354-380 | it then has the term of every sent entry at the entry's place |
| `RaftLogs.AppendTwice` | bitdb/raft/raft.h:308-393 | an append that is delivered twice has the effect of one delivery |
| `RaftLogs.LateAppendTakesNothingBack` | bitdb/raft/raft.h:354-380 | an older append with fewer of the same entries takes nothing back |
| `RaftLogs.SendsTheRest` | bitdb/raft/raft.h:582-596 | a leader sends the rest of its log from the follower's next position on, with the place and term of the entry before |
| `RaftLogs.ReplicationReaches` | bitdb/raft/raft.h:571-600 | from every state what a leader sends can arrive at once, and is merged exactly if it matches |
| `RaftLogs.ReplicationShifts` | bitdb/raft/raft.h:582-596 | every sent entry's term then stands one place further than in the leader's log |
| `RaftLogs.CommitIsLast` | bitdb/raft/raft.h:473-489 | the loop yields the last position that has the term and is held by most, or the old index if there is none |
| `RaftLogs.AppendReplyExact` | bitdb/raft/raft.h:461-497 | for any append reply: the new state; a raised commit index has the reply's term, is held by most, and is the last such position |
| `RaftLogs.HeartbeatReaches` | bitdb/raft/raft.h:648-670 | a heartbeat can arrive at once, and makes its receiver a follower of its term, or changes nothing |
| `RaftLogs.StopIsForGood` | bitdb/raft/raft.h:279-282 | in every run a stopped node never votes and never changes its log again |
| `RaftSafety.VoteReplyExact` | bitdb/raft/raft.h:412-438 | a vote reply keeps the invariant if and only if it is timely or its sender voted in the current term too |
| `RaftSafety.WireRepliesAreTimely` | bitdb/raft/raft_protocol.h:91-92 | an append reply as decoded from the wire always meets the hypothesis |
| `RaftSafety.WireRunIsTimely` | bitdb/net/rpc/rpc_value.h:20-36 | with append replies read from the wire into a zeroed response, a run is timely as soon as its vote replies are |
| `RaftSafety.WireElectionSafety` | bitdb/raft/raft.h:402-440 | with the codec as written, timely vote replies alone give Election Safety |
| `RaftSafety.InTermIsTimely` | bitdb/raft/raft.h:413-438 | handling replies only in the term they were asked in is enough for the hypothesis |
| `RaftStale.TwoLeadersInOneTerm` | bitdb/raft/raft.h:413-438 | a run of three nodes in which two lead term 2, because a reply of term 1 is counted in term 2 |
| `Coding.EncodeVarint` | bitdb/utils/coding.cpp:6-19 | the loop writes the base-128 groups, low group first |
| `Coding.VarintSpells` | bitdb/utils/coding.cpp:6-19 | the groups spell the value, all bytes but the last have the high bit, and no group is wasted |
| `Coding.VarintLength` | bitdb/data/transaction_record.cpp:8-9 | four bytes are enough exactly below 2^28, five for every 32-bit value |
| `Coding.VarintPrefixFree` | bitdb/utils/coding.cpp:6-19 | two encodings followed by anything are equal only for equal values and rests |
| `Coding.RunDecoder` | bitdb/utils/coding.cpp:21-41 | the decoding loop equals the recursive reading, also past the end of the input |
| `Coding.DecodeExact` | bitdb/utils/coding.cpp:21-72 | on every input: decoding ends at the first byte without the high bit, which must be among the first five, and gives what the groups spell, up to a multiple of 2^32 |
| `Coding.Varint32RoundTrip` | bitdb/utils/coding.cpp:21-41 | every 32-bit value is read back, with its length, whatever follows |
| `Coding.Varint64RoundTrip` | bitdb/utils/coding.cpp:55-72 | a 64-bit value is read back if and only if it is below 2^31 |
| `Coding.EncodeFixed32` | bitdb/utils/coding.h:35-46 | four little-endian bytes are written, and the rest of the buffer is kept |
| `Coding.Fixed32Bytes` | bitdb/utils/coding.h:35-46 | byte i is the value divided by 256^i, modulo 256 |
| `Coding.Fixed32RoundTrip` | bitdb/utils/coding.h:62-68 | the reader undoes the writer, whatever follows |
| `Crc32c.ExtendConcat` | bitdb/data/log_record.cpp:70-78 | extending by two pieces is extending by their concatenation |
| `Crc32c.CheckValue` | bitdb/data/log_record.cpp:36-37 | the checksum of the digits 1 to 9 is the check value of CRC-32C |
| `Crc32c.BurstIsSeen` | bitdb/data/data_file.cpp:80-86 | two texts of one length that differ, and only within four adjacent bytes, have different checksums |
| `LogRecords.EncodeLogRecord` | bitdb/data/log_record.cpp:14-44 | the filled and patched buffer is checksum, type, lengths, key and value; nothing for an empty key |
| `LogRecords.HeaderRoundTrip` | bitdb/data/log_record.cpp:46-63 | the header is read back with its exact length from any longer text |
| `LogRecords.PiecewiseCrc` | bitdb/data/log_record.cpp:65-79 | the checksum computed in pieces is the one written for the whole |
| `LogRecords.FrameReads` | bitdb/data/data_file.cpp:79-88 | a body behind any checksum is read back if and only if the checksum is its own, and is corrupt otherwise |
| `LogRecords.ReadChecks` | bitdb/data/data_file.cpp:79-88 | on every file: a read yields a record only with the checksum of its own bytes, and says corrupt only without it |
| `LogRecords.DamageIsSeen` | bitdb/data/data_file.cpp:79-86 | a written record that was damaged within four adjacent bytes, so that its bytes still are a record of that length, is always reported as corrupt |
| `LogRecords.ZeroesAreRefused` | bitdb/data/data_file.cpp:58-60 | zero bytes are never taken for a record |
| `LogRecords.ReadEncoded` | bitdb/data/data_file.cpp:31-89 | a record between any bytes is read back with its length, also when the header read is cut short by the end of the file |
| `LogRecords.ReadBoundary` | bitdb/data/data_file.cpp:31-89 | at every record boundary of a file: that record, the end, or an error for an empty file |
| `LogRecords.ScanFile` | bitdb/db.cpp:444-481 | the scan ends and recovers exactly the sequence of records and their offsets |
| `LogRecords.CStrIdentity` | bitdb/data/transaction_record.cpp:15 | passing a string through a C pointer keeps it if and only if it has no zero byte |
| `LogRecords.EncodeLogRecordWithTxnID` | bitdb/data/transaction_record.cpp:7-17 | the loop puts the id's varint before the key |
| `LogRecords.TxnKeyRoundTrip` | bitdb/data/transaction_record.cpp:19-25 | id and key are separated again; the key is unchanged exactly when it has no zero byte |
| `LogRecords.PstRoundTrip` | bitdb/data/log_record.cpp:81-96 | a position is read back if and only if its offset is below 2^31 |
| `LogRecords.LargeOffset` | bitdb/utils/coding.cpp:61-65 | every offset from 2^31 on is read back wrong |
| `Disk.DiskAppend` | bitdb/data/data_file.cpp:91-99 | appending a record to the last file keeps all files well formed |
| `Disk.ReadPlaced` | bitdb/data/data_file.cpp:31-89 | reading at the position of any entry in any file returns that entry's record |
| `Disk.PositionsAreUnique` | bitdb/db.cpp:287-295 | no two entries share a position |
| `Replay.EntryRoundTrip` | bitdb/db.cpp:453 | key, transaction id, value and type survive writing and scanning |
| `Replay.ReplayPut` | bitdb/db.cpp:455-459 | a plain record makes its key live at its position and touches no other key |
| `Replay.ReplayDelete` | bitdb/db.cpp:434-442 | a plain tombstone removes its key, or fails if the key is not there |
| `Replay.ReplayFacts` | bitdb/db.cpp:453-488 | every live position is one of the log's, never a tombstone's, and the recovered id is at least every id in the log |
| `Replay.UpdateAllWrites` | bitdb/db.cpp:461-467 | applying a batch fails exactly when a tombstone names a missing key, and otherwise has the user's effect |
| `Replay.ApplyWritesAt` | bitdb/batch.cpp:65-72 | after a batch a key has what the batch says about it, and otherwise what it had |
| `Replay.UnfinishedIsInvisible` | bitdb/db.cpp:468-474 | any part of a batch without its finish record changes nothing a user can see, and waits under its id |
| `Replay.FinishIsAtomic` | bitdb/batch.cpp:58-63 | the finish record shows the whole batch at once and leaves nothing of it waiting, or makes the log unrecoverable exactly when a tombstone names a missing key |
| `Db.WriteLeavesEmptyFile` | bitdb/db.cpp:271-285 | a write leaves an empty file behind exactly when an earlier one was empty or it is larger than a whole file and finds the current one empty |
| `Db.StoredFiled` | bitdb/db.cpp:271-295 | the files after a write, byte by byte: behind the last file if that keeps the limit, and otherwise in a new one |
| `Db.StoredLimited` | bitdb/db.cpp:276-285 | a write keeps every file within the limit, but for a single record |
| `Db.StoredPacked` | bitdb/db.cpp:276-285 | a write opens a file only for a record that does not fit the one before |
| `Db.FilesAreFull` | bitdb/db.cpp:264-297 | whatever is written: the files hold it in order, within the limit, and each as full as can be |
| `Db.ApplyPending` | bitdb/db.cpp:462-466 | the loop over a finished transaction computes the whole batch or stops at the missing key |
| `Db.LoadRecord` | bitdb/db.cpp:453-478 | one record of the scan advances index, pending batches and largest id as the log's meaning does |
| `Db.LoadFile` | bitdb/db.cpp:444-481 | a file is scanned to its end exactly when it is not empty and its records replay |
| `Db.LoadIndex` | bitdb/db.cpp:399-492 | recovery, from the index the hints gave and over the files that are not skipped, succeeds exactly when none of them is empty and they replay, and then yields index, largest id and write offset |
| `Db.DB.Open` | bitdb/db.cpp:29-45 | opening succeeds under the same condition and serves the contents of the log |
| `Db.DB.NewActiveDataFile` | bitdb/db.cpp:299-308 | a new empty last file; everything before it is kept |
| `Db.DB.AppendLogRecord` | bitdb/db.cpp:264-297 | the record becomes the last entry of the log, at the returned position; it goes behind the last file exactly if that keeps the limit, every other byte stays, and no file passes the limit but with a single record |
| `Db.DB.Put` | bitdb/db.cpp:56-70 | the map gains the key; an empty key is refused and changes nothing |
| `Db.DB.Get` | bitdb/db.cpp:72-88 | the value is the map's, and not found exactly when the key is not in it |
| `Db.DB.Delete` | bitdb/db.cpp:90-108 | the map loses the key; nothing is written for a missing key |
| `Db.LiveRead` | bitdb/db.cpp:517-541 | the index leads to a record on disk with the live value, never to a tombstone |
| `Lex.LessExact` | bitdb/ds/skiplist.h:195 | one key is below another if and only if it ends, or has the smaller character, where they first differ |
| `Lex.EmplaceSorted` | bitdb/batch.cpp:15-17 | an insert keeps the order, ignores a key that is there and otherwise adds exactly one entry |
| `Batch.WriteBatch.Put` | bitdb/batch.cpp:10-19 | the first put of a key is kept in key order, a second one is ignored |
| `Batch.WriteBatch.Rollback` | bitdb/batch.cpp:77-90 | clears the batch once, and only before it is committed |
| `Batch.WriteBatch.AppendAll` | bitdb/batch.cpp:52-57 | the loop appends one record for each pending write, in key order, notes each position and leaves each record under its encoded key |
| `Batch.WriteBatch.AppendBatch` | bitdb/batch.cpp:49-63 | after the finish record the log means the old contents with the whole batch applied, or is unrecoverable exactly when a tombstone names a missing key |
| `Batch.WriteBatch.IndexAll` | bitdb/batch.cpp:65-72 | the index update agrees with replaying the batch, and stops at a missing key |
| `Batch.WriteBatch.Commit` | bitdb/batch.cpp:37-75 | status, log and pending records for every batch, also one that was committed before; for one that was not, the map changes by the whole batch and index and id stay what recovery would compute |
| `Batch.RenamedIsCommittable` | bitdb/batch.cpp:52-53 | what a commit leaves pending can be committed again |
| `Batch.SecondCommitRenames` | bitdb/batch.cpp:52-57 | the records such a second commit appends carry the same values under other keys, where recovery then shows them |
| `StoreRuns.AppendIsSteps` | bitdb/db.cpp:271-295 | whatever the size limit, a write of the database is at most two rotations and one append of the transition system, and one rotation if the record fits a file |
| `StoreRuns.FinishKeeps` | bitdb/batch.cpp:58-73 | the end of a commit keeps the store invariant |
| `StoreRuns.StepKeeps` | bitdb/db.cpp:264-297 | so does every put, delete, rotation, commit step, crash and reopen |
| `StoreRuns.RunsKeepInv` | bitdb/db.cpp:399-492 | in every state of every run the log on disk replays to exactly the committed map |
| `StoreRuns.CrashRecovers` | bitdb/db.cpp:399-492 | in every run, whatever the record sizes: a crash at any moment, also inside a commit, loses nothing committed and shows nothing uncommitted |
| `StoreRuns.NoFileStaysEmpty` | bitdb/db.cpp:276-288 | in every run whose records fit a file, a file is empty exactly between its opening and the write it was opened for |
| `StoreRuns.RecoveryNeverFails` | bitdb/db.cpp:399-492 | so in such a run recovery succeeds, with exactly the committed map, after a crash at any moment but that one |
| `StoreRuns.FilesStayLimited` | bitdb/db.cpp:276-288 | in every run whose writes find room no file exceeds the limit, but with a single record |
| `StoreRuns.NoFileIsTooLarge` | bitdb/db.cpp:276-288 | so if the records fit a file, no file on disk is ever larger than the limit |
| `StoreRuns.FreshIds` | bitdb/db.cpp:476-488 | an idle store's id is at least every id on disk, so a crashed batch is never finished by a later one |
| `StorePaths.WriteIsSteps` | bitdb/db.cpp:264-297 | from every open state and for every limit, a due write is a path of rotations and one append, to exactly the files the limit asks for |
| `StorePaths.CommitIsSteps` | bitdb/batch.cpp:49-73 | from every reachable idle state and for every limit, a commit is a path that appends every record and the finish record, and commits nothing before its last step |
| `StorePaths.CutCommit` | bitdb/batch.cpp:49-63 | after any run, a crash can follow any step of a commit, and the disk then replays to what was committed before it, or after the last step to all of it |
| `Merge.WriteHintRecord` | bitdb/data/data_file.cpp:147-153 | a hint is added to the file; a hint for the empty key adds nothing |
| `Merge.LoadHints` | bitdb/db.cpp:494-515 | loading a hint file yields exactly the map it was written from, and fails exactly when it is empty |
| `Merge.GetNonMergedFileID` | bitdb/db.cpp:389-397 | the marker file gives back the file id that Merge wrote |
| `Merge.MergeRecord` | bitdb/db.cpp:235-245 | a record is copied exactly when the index points at it, and the copy stays compact |
| `Merge.PointedAt` | bitdb/db.cpp:236-238 | the index points at a record only if that record is the live one |
| `Merge.MergeFile` | bitdb/db.cpp:226-248 | one file is merged to its end exactly when it is not empty |
| `Merge.MergeDb` | bitdb/db.cpp:167-262 | when the merge completes; the contents and every read of the running database are unchanged; the new log holds one record for each key with its current value, the hint file its positions and the marker file the last merged id |
| `Merge.CompactSize` | bitdb/db.cpp:235-245 | the new log has as many records as there are keys, and no file exactly when there is none |
| `Merge.HintsLoad` | bitdb/data/log_record.cpp:81-96 | the hints of a merged log below two gigabytes a file all load |
| `SkipNodes.SplicedBefore` | bitdb/ds/skiplist.h:48-51 | a new node changes where a level leads only from its predecessor at that level |
| `SkipNodes.LinkLevel` | bitdb/ds/skiplist.h:48-51 | linking one level leaves every other level as it was |
| `SkipNodes.LinkTop` | bitdb/ds/skiplist.h:53-59 | on a level that was empty only the head has to change |
| `SkipNodes.UnlinkLevel` | bitdb/ds/skiplist.h:68-70 | unlinking one level leaves every other level as it was |
| `SkipNodes.EntryCount` | bitdb/ds/skiplist.h:21 | there are as many keys as nodes behind the head |
| `SkipLists.SkipList.constructor` | bitdb/ds/skiplist.h:18 | a new list is empty |
| `SkipLists.SkipList.Find` | bitdb/ds/skiplist.h:29-35 | the map's value, or nothing exactly when the key is missing |
| `SkipLists.SkipList.Insert` | bitdb/ds/skiplist.h:37-61 | the map gains the key for every drawn height; an existing node is kept, otherwise one node of that height is added at the key's place |
| `SkipLists.SkipList.Link` | bitdb/ds/skiplist.h:46-59 | after both loops every level is linked through the new node |
| `SkipLists.SkipList.Remove` | bitdb/ds/skiplist.h:63-81 | the map loses the key and its value is returned; a missing key changes nothing |
| `SkipLists.SkipList.Unlink` | bitdb/ds/skiplist.h:68-70 | after the loop every level passes the node by |
| `SkipLists.SkipList.LowerLevel` | bitdb/ds/skiplist.h:76-78 | the level becomes the height of the tallest node, or one |
| `SkipLists.SkipList.FindNode` | bitdb/ds/skiplist.h:163-181 | the node with the key, or null exactly when there is none |
| `SkipLists.SkipList.FindInsertPoint` | bitdb/ds/skiplist.h:183-203 | that node, or at every level the last node before the key |
| `SkipLists.SkipList.FindPrevNodes` | bitdb/ds/skiplist.h:205-221 | at every level the last node before the key |
| `SkipLists.SkipList.FindRemovePoint` | bitdb/ds/skiplist.h:223-230 | the node with the key and its predecessors, or null exactly when there is none |
| `SkipLists.SkipList.FindLast` | bitdb/ds/skiplist.h:235-246 | the walk from above the highest level lands on the last node, or the head |
| `SkipLists.SkipList.SizeCounts` | bitdb/ds/skiplist.h:21 | the size is the number of keys |
| `SkipLists.LevelsAreSortedLists` | bitdb/ds/skiplist.h:248-253 | following the pointers of a level from the head runs through exactly the nodes tall enough, ordered by the first character in which their keys differ; from the list's level on there are none |
| `SkipLists.Iterator.Next` | bitdb/ds/skiplist.h:99-102 | the next node in key order |
| `SkipLists.Iterator.Prev` | bitdb/ds/skiplist.h:104-113 | the node before; the head from the first node, and then no further |
| `SkipLists.Iterator.Seek` | bitdb/ds/skiplist.h:115-120 | the node with exactly the key, or none |
| `SkipLists.Iterator.SeekToFirst` | bitdb/ds/skiplist.h:122 | the smallest key of the map, or none exactly if it is empty |
| `SkipLists.Iterator.SeekToLast` | bitdb/ds/skiplist.h:124-129 | the largest key of the map, or none exactly if it is empty |
| `SkipLists.ListKeys` | bitdb/db.cpp:129-142 | every key once, ordered by the first character in which they differ, with every write inside the buffer sized beforehand |
| `SkipLists.Run` | bitdb/ds/skiplist.h:37-81 | any run of insertions and removals, with any heights, leaves the list a map would be, and its size |
| `Json.CloseFrom` | bitdb/common/json/parser.cpp:99-122 | the first quote that a left-to-right scan finds unescaped |
| `JsonRoundTrip.StringExact` | bitdb/common/json/parser.cpp:99-122 | a quoted string is read back if and only if it is well escaped |
| `JsonRoundTrip.AssignSorted` | bitdb/common/json/parser.cpp:173 | setting an entry keeps the keys sorted and adds nothing else |
| `JsonRoundTrip.AssignIsUpdate` | bitdb/common/json/parser.cpp:173 | it is map update: the key now has the value and every other entry is as it was |
| `JsonRoundTrip.BeforeExact` | bitdb/common/json/parser.cpp:173 | keys are ordered by the first character in which they differ |
| `JsonRoundTrip.ParsedClean` | bitdb/common/json/parser.cpp:13-188 | every parsed value has well-escaped strings, sorted dictionaries and 32-bit integers |
| `JsonRoundTrip.NumberRoundTrip` | bitdb/common/json/parser.cpp:70-84 | the digits of any number are read as its low 32 bits after saturation |
| `JsonRoundTrip.DecimalFront` | bitdb/common/json/parser.cpp:82-84 | the first digit counts for as many tens as digits follow it |
| `JsonRoundTrip.ToIntWraps` | bitdb/common/json/parser.cpp:83 | what is read is the 32-bit integer congruent to the number, cut off at the largest long |
| `JsonRoundTrip.PrintThenParse` | bitdb/common/json/jobject.cpp:31-85 | the printed text of a clean value is read back, or rejected exactly when it holds a negative integer |
| `JsonRoundTrip.RoundTripExact` | bitdb/common/json/parser.cpp:13-188 | for every value without doubles: read back, and up to exactly its end, if and only if it is clean and non-negative |
| `JsonRoundTrip.WholeText` | bitdb/common/json/parser.cpp:7-11 | whole texts, with any white space around the value, are consumed entirely |
| `JsonRoundTrip.ReprintStable` | bitdb/common/json/parser.cpp:13-188 | printing what was parsed and parsing it again changes nothing if and only if no number in it is negative |
| `JsonRoundTrip.OverflowIsNotStable` | bitdb/common/json/parser.cpp:82-84 | every number whose low 32 bits read as negative comes back negative, and its own text is then rejected |
| `JsonRoundTrip.CommentsAreSkipped` | bitdb/common/json/parser.cpp:190-209 | a line of comment in front of a value makes no difference |
| `JsonRoundTrip.OpenCommentIsMet` | bitdb/common/json/parser.cpp:190-209 | a comment without an end of line is told apart |
| `JsonGrammar.GapThenToken` | bitdb/common/json/parser.cpp:37-48 | white space and lines of comment, in any mixture, are skipped up to the next token |
| `JsonGrammar.ParsesTree` | bitdb/common/json/parser.cpp:13-188 | the text of every well-formed tree is parsed to what the tree means, and up to its end |
| `JsonGrammar.Derive` | bitdb/common/json/parser.cpp:13-188 | every text that is parsed is the text of such a tree |
| `JsonGrammar.ParseExact` | bitdb/common/json/parser.cpp:13-209 | for every text: it is parsed to a value and a rest if and only if it is the text of a tree that means the value, and the rest |
| `JsonGrammar.LastPairCounts` | bitdb/common/json/parser.cpp:153-188 | a dictionary has exactly the last pair of each key, in key order |
| `JsonGrammar.PrintIsBare` | bitdb/common/json/jobject.cpp:31-85 | the printer writes the tokens of a value in the grammar, with nothing between them |
| `JsonParser.RunParity` | bitdb/common/json/parser.cpp:225-233 | on every text, counting backslashes backwards and reading forwards agree |
| `JsonParser.Parser.Init` | bitdb/common/json/parser.cpp:211-223 | trailing white space is dropped and the cursor reset |
| `JsonParser.Parser.SkipComment` | bitdb/common/json/parser.cpp:190-209 | whole lines of comment and the white space after them are skipped; a comment without an end of line is told apart |
| `JsonParser.Parser.GetNextToken` | bitdb/common/json/parser.cpp:37-48 | the cursor moves to the next character that is neither white space nor comment |
| `JsonParser.Parser.IsEscConsume` | bitdb/common/json/parser.cpp:225-233 | true exactly for an even run of backslashes |
| `JsonParser.Parser.FindClose` | bitdb/common/json/parser.cpp:100-117 | the search loop stops at exactly the quote the left-to-right scan stops at, or at the end |
| `JsonParser.Parser.ParseNumber` | bitdb/common/json/parser.cpp:70-97 | value, cursor and errors as the text means |
| `JsonParser.Parser.ParseString` | bitdb/common/json/parser.cpp:99-122 | value, cursor and errors as the text means |
| `JsonParser.Parser.ParseNull` | bitdb/common/json/parser.cpp:50-56 | the word null at the cursor, or the error |
| `JsonParser.Parser.ParseBool` | bitdb/common/json/parser.cpp:58-68 | one of the two words at the cursor, or the error |
| `JsonParser.Parser.ParseMember` | bitdb/common/json/parser.cpp:164-173 | a string, a colon and a value, or the first error |
| `JsonParser.Parser.Parse` | bitdb/common/json/parser.cpp:13-35 | the recursive descent over the shared cursor reads exactly what the text means |
| `JsonParser.Parser.ParseList` | bitdb/common/json/parser.cpp:124-151 | items in order, up to the bracket, or the error |
| `JsonParser.Parser.ParseDict` | bitdb/common/json/parser.cpp:153-188 | entries with the last one of a key winning, up to the brace, or the error |
| `JsonParser.FromString` | bitdb/common/json/parser.cpp:7-11 | the value of the trimmed text, or the error |
| `JsonParser.ToString` | bitdb/common/json/jobject.cpp:31-85 | the loops print the value's text |
| `JsonParser.ListToString` | bitdb/common/json/jobject.cpp:55-68 | a comma after every item but the last |
| `JsonParser.DictToString` | bitdb/common/json/jobject.cpp:69-80 | a comma before every entry but the first |
| `Arenas.Arena.constructor` | bitdb/utils/arena.cpp:7-8 | a new arena owns nothing |
| `Arenas.Arena.AllocateNewBlock` | bitdb/utils/arena.cpp:16-21 | one more block, disjoint from the others, and the usage counts it and a pointer |
| `Arenas.Arena.AllocateFallback` | bitdb/utils/arena.cpp:23-37 | a request over a quarter block gets exactly its own block and leaves the shared one alone; others start a new shared block |
| `Arenas.Arena.Allocate` | bitdb/utils/arena.cpp:39-50 | the new region is disjoint from all others and inside an owned block |
| `Arenas.Arena.AllocateAligned` | bitdb/utils/arena.cpp:52-83 | the same, at an aligned address, with the padding counted |
| `Arenas.WasteBound` | bitdb/utils/arena.cpp:23-37 | all blocks together are at most four thirds of what was handed out plus one block |
| `Serializers.LittleRoundTrip` | bitdb/codec/serializer.h:33-46 | a number of any width is read back |
| `Serializers.LastByteCountsMost` | bitdb/codec/serializer.h:33-46 | byte i counts for 256^i |
| `Serializers.EncodeDecode` | bitdb/codec/serializer.h:94-121 | every nested value that fits is read back, and the cursor stands at what follows |
| `Serializers.ItemsInOrder` | bitdb/codec/serializer.h:94-121 | items stand one behind the other in their order |
| `Serializers.FieldsInOrder` | bitdb/codec/serializer.h:161-170 | so do fields |
| `Serializers.DecodedFits` | bitdb/codec/serializer.h:112-121 | whatever is read back has lengths that fit |
| `Serializers.RoundTripExact` | bitdb/codec/serializer.h:33-170 | for every schema, value and suffix: read back if and only if every string and sequence length fits its size field |
| `Serializers.Serializer.Serialize` | bitdb/codec/serializer.h:33-170 | appends exactly the encoding of the value |
| `Serializers.Serializer.Deserialize` | bitdb/codec/serializer.h:39-170 | reads what the bytes at the cursor mean and moves the cursor behind it |
| `Serializers.VoteMessagesRoundTrip` | bitdb/raft/raft_protocol.h:12-44 | vote requests and replies always survive the wire |
| `Serializers.AppendArgsRoundTrip` | bitdb/raft/raft_protocol.h:46-85 | append requests survive the wire exactly when their entries fit |
| `Serializers.AppendReplyIsEmpty` | bitdb/raft/raft_protocol.h:87-93 | an append reply is written as nothing, so what is read does not depend on it |
| `Pools.BlockingQueue.Push` | bitdb/common/blocking_queue.h:11-17 | takes the push of the pool's queue: the value is last |
| `Pools.BlockingQueue.TryPush` | bitdb/common/blocking_queue.h:19-29 | the same if the lock is free, nothing otherwise |
| `Pools.BlockingQueue.Pop` | bitdb/common/blocking_queue.h:31-40 | takes the pop of the pool's queue: the first waiting value; fails exactly on an empty, stopped queue |
| `Pools.BlockingQueue.TryPopIf` | bitdb/common/blocking_queue.h:43-56 | the same pop, exactly if the lock is free and the first value may be stolen |
| `Pools.BlockingQueue.Stop` | bitdb/common/blocking_queue.h:68-74 | sets the stop flag and nothing else |
| `Pools.PushedIsTakenAndWaiting` | bitdb/common/blocking_queue.h:11-56 | as multisets, the jobs ever pushed are those taken and those still waiting |
| `Pools.VictimsAreAll` | bitdb/co/co_thread_pool.cpp:43-48 | the tries of a worker visit every queue once, its own first |
| `Pools.TargetsAreAll` | bitdb/co/co_thread_pool.cpp:119-123 | the tries of a call visit every queue twice, in order |
| `Pools.EnqueueKeeps` | bitdb/co/co_thread_pool.cpp:115-131 | a push keeps the pool invariant |
| `Pools.TakeKeeps` | bitdb/co/co_thread_pool.cpp:41-58 | so does taking a task from one's own queue or stealing one |
| `Pools.StepKeepsInv` | bitdb/co/co_thread_pool.cpp:35-132 | so does every step of workers, submitters and shutdown |
| `PoolRuns.NothingIsLostOrDoubled` | bitdb/co/co_thread_pool.cpp:108-132 | in every run, as multisets: accepted jobs are those on their way in, waiting in a queue, held by a worker and resumed; taken jobs are those held and resumed |
| `PoolRuns.PinnedJobsStay` | bitdb/co/co_thread_pool.cpp:128-131 | in every run a job scheduled for a worker passes through that worker's queue and is taken by no other |
| `PoolRuns.RunGrows` | bitdb/common/blocking_queue.h:31-56 | in every run queues are first in, first out, and no item is taken twice |
| `PoolRuns.LooksEverywhere` | bitdb/co/co_thread_pool.cpp:41-58 | in every run with stealing, a worker waits at its own queue only after it has looked at every queue in that round and found nothing to take |
| `PoolRuns.ExitsOnlyWhenDone` | bitdb/co/co_thread_pool.cpp:51-58 | in every run a worker exits only after it found its own queue empty, after the stop |
| `PoolRuns.EarlierPushesAreTaken` | bitdb/co/co_thread_pool.cpp:51-58 | so everything pushed to its queue before that look has been taken |
| `PoolRuns.FalsePopAlwaysExits` | bitdb/co/co_thread_pool.cpp:51-58 | the branch that would start over after an empty pop is never taken |
| `PoolRuns.QuietStopLosesNothing` | bitdb/co/co_thread_pool.cpp:96-106 | in every run, if no call of ScheduleById is under way when the stop flag is set, every accepted job has been resumed once all workers have left |
| `PoolRuns.PendingCallCanBeLost` | bitdb/co/co_thread_pool.cpp:108-132 | from every reachable stop that finds a call under way, there are steps to an end with fewer jobs resumed than accepted |
| `PoolRuns.StopLosesNothingExactly` | bitdb/co/co_thread_pool.cpp:96-132 | a stop loses nothing, however the pool goes on, if and only if no call is under way when it happens |
| `PoolRuns.LatePushIsLost` | bitdb/co/co_thread_pool.cpp:108-132 | such stops exist: a run that loses an accepted job |

## Left out

- Raft log matching and leader completeness: they do not hold of the code, see `ReplicationOvershoots` and `NothingIsEverApplied`.
- Raft restarts: nodes start once, with any log, and may stop and pause but do not restart, because the original starts again from term 0.
- Raft sending with a next index below one: the original then reads outside its log; sending is modelled from one on.
- RaftNode.Raft.AppendEntries: previous indices are non-negative, as every sender modelled here sends them.
- RaftNode.Raft.ReceiveAppendReply: a leader's index vectors have an entry for the target, which `RunCommitsSafely` shows of every run.
- Raft timeouts, liveness, snapshots and 32-bit overflow of terms and indices; a timeout is a step that may happen at any time.
- File system calls: files are byte sequences numbered from zero, appends are atomic at record granularity, and installing merged files on reopen is not modelled.
- CRC-32C: its library is not part of the repository; the checksum is the fold of RFC 3720, section 12.1. Damage spread over more than four bytes may go unseen.
- Db.DB.Open: opens a directory without a merge directory, a marker or a hint file; those are covered one by one by `MergeDb`, `GetNonMergedFileID`, `LoadHints` and `LoadIndex`.
- LogRecords.DamageIsSeen: damage after which the size fields describe another length is not covered, since other bytes are read then.
- LogRecords.EncodeLogRecordWithTxnID: ids are below 2^28; larger ones overflow the original's four-byte buffer.
- Batch.WriteBatch.Commit: ids are below 2^28, the size of the original's buffer, and the database agrees with its log before the call.
- WriteBatch::Delete: it passes a null pointer that the original writes through when the key is stored.
- Db.DB.Put: keys and values together are below 2^32 - 256 bytes, so that the encoded record fits its size fields.
- Db.DB.Delete: the key is below the same bound.
- Batch.WriteBatch.Put: key and value are below the same bound.
- Merge.LoadHints: the file is one that Merge wrote, with positions that fit, see `HintsLoad`.
- Merge.HintsLoad: positions in the merged files are below 2^31; beyond that they are read back wrong, see `PstRoundTrip`.
- SkipLists.Run: keys are byte strings in the order of std::string, as the index uses them; other ordered key types are not modelled.
- SkipList::Clear and the distribution of heights: the height is a parameter.
- JsonParser.ToString: values without doubles.
- JSON doubles: they are recognised and skipped, but neither converted nor printed.
- JsonParser.Parser.GetNextToken: a comment without an end of line ends the parse with an outcome of its own; the original starts over at the beginning of the text.
- Characters outside ASCII in isspace and isdigit follow the C locale.
- std::map in the serializer: its reading side does not compile in the original.
- Serializers.Serializer.Deserialize: reading past the end of the buffer is an outcome of its own; the original reads outside it.
- Arenas.Arena.Allocate: at least one byte, as the original asserts.
- The memory allocator: new blocks are aligned addresses clear of the blocks in use, given as parameters.
- Coroutine handles: a task is a number; core binding, resuming and waking of blocked threads are not modelled. Each queue operation is atomic, as its mutex makes it, and a try-lock may fail at any time.
- Timers, ring buffers, sockets, RPC, HTTP, logging, formatting and status texts; the hash and tree indexers, which wrap standard maps.
