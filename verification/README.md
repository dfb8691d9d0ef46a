# KyrinBox: a model of its protocols and its sequential code

KyrinBox is a small distributed file store. A leader among the masters accepts uploads and
replicates an operation log to the other masters in two phases; slavenodes tail that log into a
key/value store; the masters elect their leader by polling; the chunk servers, which hold the file
contents, keep track of each other by gossip. This project models that behaviour in Dafny and
proves what it guarantees, and, where the code guarantees less than it seems to, the exact
condition under which it does.

`dafny verify dfyconfig.toml` checks everything.

## How the modules fit together

- `Ids`, `Oplog`, `MasterState` are one master as a value: the eight-byte id counter, the oplog as
  rows sorted bytewise, the userdata map, the prepare registers, and what a prepare, a commit, a
  catch-up and a put do to them. `MasterServer` is the same master as an object whose handlers
  update its fields; each handler is proved to do what the functions say, and the upload handler
  to drive the whole cluster through the events of one upload.
- `Replication` is the cluster: masters, the upload in flight, slavenodes. Its theorems are about
  every run. `Uploads` says what one upload answers and where it ends. `Slavenode` (functions) and `SlavenodeSync` (the thread's object) are the tailing
  side. `Limits` says where catch-up and commit stop working.
- `Election`, `ElectionLimits` and `ElectionProgress` are the polls and tallies of N masters: what
  every run keeps, when there can be two leaders, and when everyone settles. `Sentinel` is the loop
  of one master over its vectors, proved to take exactly those steps. `Sets` counts.
- `GossipStatus`, `Gossip`, `ChunkGossiper` are the membership status, the cluster of nodes with
  snapshots in flight, and the status object updated in place.
- `LruCache`, `Base64`, `ChunkTransfer` are the cache, the codec with its buffers, and the upload
  and download loops with the handlers they call.

A run is a sequence of events over a total step function, so the theorems quantify over all event
sequences: every interleaving, loss and storage failure that the events can express. What the
environment chooses (whether a call is answered, whether a put succeeds, the clock, random draws)
is a parameter.

## What the code does not guarantee

- The prepare registers outlive a rejected upload. A later commit can make a follower store the
  rejected entry under an id that holds another one elsewhere
  (`Replication.LatePrepareBreaksAgreement`); `Limits.CommitExactly` is the exact condition.
- Catch-up asks for the same first id on every page. It copies the leader's log exactly for gaps of
  at most 100 entries; for a larger gap it never ends, or ends with a page repeated
  (`Limits.CatchUpExactly`, `Limits.CatchUpRepeatsPage`).
- When the leader's own put fails after a follower committed, that follower stays ahead, and the
  next upload reuses the id (`Replication.LeaderStoreExactly`,
  `Replication.FailedOwnPutBreaksAgreement`).
- A slavenode takes a missing reply to SET for success and moves on: harmless when the command was
  executed, and otherwise the entry is lost for good (`Slavenode.PullExactly`,
  `Slavenode.BrokenConnection`).
- From four masters on, lost replies can lead to two leaders in one epoch
  (`ElectionLimits.ElectionSafety`), and to a master that never settles even when nothing is lost
  any more (`ElectionProgress.ElectionProgress`).
- On a platform whose `char` is unsigned the id counter never carries (`Ids.AddOneCounts`).
- A download does not truncate an older local file that is longer than the content
  (`ChunkTransfer.RoundTrip`).
- A failed call is retried three times and a success of the fourth call is still treated as
  a failure (`ChunkGossiper.KyrinChunkGossiperStatus.GossipWith`).

Error replies keep their body: "No such op id" reaches the caller of GetOplog, where it parses to
no entries, and the "ok" after a catch-up is sent with an error status and still counted.

## Model

| member | source | states |
|---|---|---|
| Ids.AddOne | src/common/kyrin_lexicographically_helper.h:16-26 | The in-place carry loop leaves the incremented string and returns false only when every byte was 255; with unsigned char it changes the last byte only |
| Ids.AddOneCounts | src/common/kyrin_lexicographically_helper.h:16-26 | `add_one` is +1 modulo 2^64 on the big-endian value if and only if char is signed or the last byte is not 255 |
| Ids.UnsignedCharLosesCarry | src/common/kyrin_lexicographically_helper.h:16-26 | The failure: with unsigned char an id whose last byte is 255 goes back by 255, any other goes on by one, and true is returned always |
| Ids.AddOneReportsWrap | src/common/kyrin_lexicographically_helper.h:16-26 | With signed char the result is false exactly on the wrap |
| Ids.IncrementAddsOne | src/common/kyrin_lexicographically_helper.h:16-26 | The carry chain adds one to a string of any length, modulo 256 to that length |
| Ids.GetZero | src/common/kyrin_lexicographically_helper.h:11-14 | The zero id is the encoding of 0 |
| Ids.OrderIsNumeric | src/io/kyrin_database_wrapper.cc:115-132 | The store's bytewise key order is the numeric order of the ids, so the last key is the largest |
| Ids.NextOfToId | src/server/request_handlers/upload_file_request_handler.cc:106-111 | Counting up from the zero id yields the ids 0, 1, 2, ... |
| Ids.ToIdOrder | src/io/kyrin_database_wrapper.cc:115-132 | Ids of different numbers differ and sort by number |
| Oplog.InsertMeans | src/io/kyrin_database_wrapper.cc:52-73 | A put keeps the store ordered, replaces the row of the id if there is one, and leaves all others |
| Oplog.DeleteMeans | src/io/kyrin_database_wrapper.cc:106-113 | A removal takes out the row of the id and nothing else |
| Oplog.DenseNextId | src/server/request_handlers/upload_file_request_handler.cc:106-111 | On a log with ids 0..n-1, last key plus one (or zero when empty) is id n |
| Oplog.DenseAppend | src/server/request_handlers/upload_file_request_handler.cc:164-174 | A put under the next id appends, and removing that id restores the log |
| Oplog.Seek | src/server/request_handlers/get_oplog_request_handler.cc:37-42 | An iterator after seeking stands at the first row not below the key |
| Oplog.DensePage | src/server/request_handlers/get_oplog_request_handler.cc:28-53 | On a dense log a request for id n is answered with entries n up to n+100, nothing at or past the end |
| Oplog.ReplayKeys | src/server/request_handlers/upload_file_request_handler.cc:95-101 | A key is in the replay of a log exactly when some entry has it, which is what the existence check looks at |
| Oplog.ReplaySize | src/server/request_handlers/upload_file_request_handler.cc:95-101 | A log without repeated keys has a replay of the same size, every entry surviving |
| MasterState.StoreAtEnd | src/server/request_handlers/confirm_oplog_request_handler.cc:50-58 | The pair of puts extends log and replay together; a failure undone by the compensating removal changes nothing |
| MasterState.PageAfterLog | src/server/request_handlers/confirm_oplog_request_handler.cc:39-61 | Storing a page behind an initial part of a log stores exactly the entries before the first one whose puts fail, all of them if none fails, with the running id at the end |
| MasterState.OtherTypesSkipped | src/server/request_handlers/confirm_oplog_request_handler.cc:42-60 | Entries of other types are not stored and take no id |
| MasterState.CatchUpOnePage | src/server/request_handlers/confirm_oplog_request_handler.cc:20-67 | Within one page a catch-up leaves the initial part of the leader's log before the first failing put, and succeeds if and only if that is all of it |
| MasterState.PrepareKeeps | src/server/request_handlers/confirm_oplog_request_handler.cc:95-118 | A prepare leaves the follower a sound initial part of the leader's log; it is answered "ok" if and only if that is all of it, which it is when the follower was level or nothing failed, and then the registers hold the entry; otherwise only the id is taken over |
| MasterState.PrepareSucceeds | src/server/request_handlers/confirm_oplog_request_handler.cc:97-113 | A prepare of the leader's next id at a level follower, or one at most a page behind with nothing failing, is answered "ok" and leaves a full copy with the registers set |
| MasterState.PrepareRegisters | src/server/request_handlers/confirm_oplog_request_handler.cc:96-116 | Whatever a prepare finds and whatever fails, it takes over the id, and the rest of the registers exactly when answered "ok" |
| MasterState.CommitAfterPrepare | src/server/request_handlers/confirm_oplog_request_handler.cc:119-160 | After a successful prepare a commit appends exactly the prepared entry or fails and changes nothing; the registers stay set |
| MasterState.CommitAnswers | src/server/request_handlers/confirm_oplog_request_handler.cc:119-160 | A commit of a sound master's next id is answered with success if and only if the registers match, the entry is an upload and both puts succeed; then the pending entry is appended, otherwise nothing changes |
| Limits.FurtherPages | src/server/request_handlers/confirm_oplog_request_handler.cc:27-65 | Beyond one page every request brings the same hundred entries; the loop ends only if the gap is a whole number of pages |
| Limits.CatchUpExactly | src/server/request_handlers/confirm_oplog_request_handler.cc:20-67 | With storage working, catch-up succeeds if and only if one page covers the gap or the gap is a whole number of pages, and then yields the leader's log if and only if the gap is at most 100 |
| Limits.CatchUpRepeatsPage | src/server/request_handlers/confirm_oplog_request_handler.cc:20-67 | A concrete failure: an empty follower and a leader with 200 different files; catch-up reports success and the follower has the first hundred twice |
| Limits.CommitExactly | src/server/request_handlers/confirm_oplog_request_handler.cc:119-160 | Whatever its two puts do, a commit keeps a follower in agreement if and only if nothing is stored (the registers do not match the id, or a put fails) or the follower is level with the leader and holds the entry in flight |
| MasterServer.Server.HandleGetOplog | src/server/request_handlers/get_oplog_request_handler.cc:16-58 | The seek-and-page loop answers the page of at most 100 entries from the id on, with the last row's id, and an error text exactly when the id is missing |
| MasterServer.Server.Store | src/server/request_handlers/confirm_oplog_request_handler.cc:140-148 | Two puts with the compensating removal change the whole state as specified |
| MasterServer.Server.UpdateOplog | src/server/request_handlers/confirm_oplog_request_handler.cc:20-67 | The nested catch-up loops compute the catch-up function, state and result |
| MasterServer.Server.HandleConfirm | src/server/request_handlers/confirm_oplog_request_handler.cc:80-164 | Prepare and commit change the state and reply as the step functions say. "ok" to a prepare comes exactly with the registers holding the entry, and does come at a follower at most a page behind when nothing fails; success of a commit means the entry is stored, anything else that nothing is; a leader and other state numbers change nothing |
| MasterServer.Server.PrepareAll | src/server/request_handlers/upload_file_request_handler.cc:122-136 | The prepare round takes the cluster through one prepare event for each master and counts the "ok"s that arrived |
| MasterServer.Server.CommitAll | src/server/request_handlers/upload_file_request_handler.cc:142-156 | The commit round takes it through one commit event for each master |
| MasterServer.Server.StoreOwn | src/server/request_handlers/upload_file_request_handler.cc:157-178 | The leader's own put ends the upload with its reply |
| MasterServer.Server.HandleUpload | src/server/request_handlers/upload_file_request_handler.cc:95-178 | The whole handler leaves all masters and the reply exactly as the run of the upload's events does; the reply is UploadOk if and only if the leader gained exactly this entry, Existed if and only if the key was there, Rejected if and only if the key was new and there was no majority; any other reply than UploadOk leaves the leader as it was, and in a legal run nobody a row under the id |
| MasterServer.Server.TwoPhase | src/server/request_handlers/upload_file_request_handler.cc:103-178 | The part after the existence check takes the cluster through the rest of these events |
| Replication.ReplicationAgreement | src/server/request_handlers/upload_file_request_handler.cc:104-174 | In every legal run no two masters hold different entries at one id, and a follower's log is an initial part of the leader's plus at most the entry in flight |
| Replication.MastersConsistent | src/server/request_handlers/confirm_oplog_request_handler.cc:50-59 | In every legal run each master's userdata is the replay of its own dense oplog; on the leader no key repeats and both have one size |
| Replication.SlavesRefine | src/server/slavenode/kyrin_slavenode_sync.cc:37-79 | In every legal run, with SETs refused and replies lost, each slavenode holds the replay of the agreed log up to its position, the position never goes back and the agreed log only grows |
| Replication.MajorityDurability | src/server/request_handlers/upload_file_request_handler.cc:122-177 | An upload answered OK, with the commit stored wherever the prepare's "ok" was counted, is held by more than half of all masters, then and after every later legal run |
| Replication.LeaderStoreExactly | src/server/request_handlers/upload_file_request_handler.cc:157-174 | At the leader's own put no follower ends ahead if and only if the put succeeds or no follower stored the entry |
| Replication.FailedOwnPutBreaksAgreement | src/server/request_handlers/upload_file_request_handler.cc:157-174 | A concrete run, legal up to the failing put of the leader: a follower ends ahead, and the next upload puts another file under the same id |
| Replication.LatePrepareBreaksAgreement | src/server/request_handlers/confirm_oplog_request_handler.cc:95-128 | A concrete run of two uploads over three masters after which one id holds two different entries |
| Uploads.ReplyMeans | src/server/request_handlers/upload_file_request_handler.cc:95-178 | From the beginning of an upload on, with any interleaving, loss and storage failure, and once it is over: UploadOk if and only if the leader gained exactly this entry, Existed if and only if the key was in the replay of its log, and otherwise the leader is as it was |
| Uploads.RefusedLeavesNoRow | src/server/request_handlers/upload_file_request_handler.cc:137-141 | In a legal run nobody holds a row under the id of an upload that was not answered UploadOk |
| Uploads.ReplyOfUpload | src/server/request_handlers/upload_file_request_handler.cc:95-178 | The reply of an uninterrupted upload: Existed for a known key, else Rejected unless the leader and the masters whose prepare succeeds and whose "ok" arrives are more than half, else what the leader's put says |
| Uploads.WhoGainsTheEntry | src/server/request_handlers/upload_file_request_handler.cc:122-174 | After a legal upload answered UploadOk exactly the leader and the masters that got the commit and stored it have gained the entry; all others have an initial part of the leader's earlier log |
| Replication.StepKeeps | src/server/request_handlers/upload_file_request_handler.cc:104-178 | Every legal event keeps the cluster invariant, extends the agreed log and shortens no master's log |
| Replication.PrepareNextKeeps | src/server/request_handlers/upload_file_request_handler.cc:124-136 | So does a prepare, delivered, lost, or with its answer lost |
| Replication.CommitNextKeeps | src/server/request_handlers/upload_file_request_handler.cc:147-156 | So does a commit after a successful prepare, whatever its puts do |
| Replication.LeaderStoreKeeps | src/server/request_handlers/upload_file_request_handler.cc:164-174 | So does the leader's put, unless it fails after a follower stored |
| Replication.PullKeeps | src/server/slavenode/kyrin_slavenode_sync.cc:40-79 | So does a pull from any master at any time, and the position does not go back |
| Slavenode.PullReplays | src/server/slavenode/kyrin_slavenode_sync.cc:44-78 | A round against any initial part of the agreed log keeps the store the exact replay up to the position, also when a SET is refused in the middle or the replies to executed SETs are lost |
| Slavenode.PullExactly | src/server/slavenode/kyrin_slavenode_sync.cc:67-76 | An answered round keeps the exact replay if and only if every SET it passes was executed, with or without a reply |
| Slavenode.LostForGood | src/server/slavenode/kyrin_slavenode_sync.cc:67-76 | An entry whose SET was not executed is missing from the store |
| Slavenode.OtherTypesSkipped | src/server/slavenode/kyrin_slavenode_sync.cc:56-78 | Entries of other types do not move the position |
| Slavenode.BrokenConnection | src/server/slavenode/kyrin_slavenode_sync.cc:67-76 | A concrete failure: a connection that breaks before the first SET makes a fresh slavenode pass the only entry with an empty store, and no later round brings it in |
| Slavenode.RoundsCloseGap | src/server/slavenode/kyrin_slavenode_sync.cc:40-79 | k successful rounds advance by 100 entries each, so ceil(gap/100) of them reach the end of the log |
| SlavenodeSync.Sync.Round | src/server/slavenode/kyrin_slavenode_sync.cc:40-79 | One iteration of the thread's loop changes position and store as the pull function says |
| Election.ElectionFacts | src/server/master/kyrin_master_sentinel.cc:85-169 | For any number of masters and any run: votes never decrease and are at least the own kbid, every vote held or recorded names a master that had voted for itself, an elected kbid is at least N/2+1 and has a majority on record, and a settled master is Leader if and only if it elected itself, Follower if and only if it elected another |
| Election.TallyMeans | src/server/master/kyrin_master_sentinel.cc:123-166 | A tally settles if and only if somebody has a majority on record, on one who has it, as Leader exactly if that is the master itself; otherwise it moves the vote to the highest candidate anybody voted for |
| Election.MajorityUnique | src/server/master/kyrin_master_sentinel.cc:130-139 | A tally has at most one candidate with a majority |
| Election.VotersBelow | src/server/master/kyrin_master_sentinel.cc:123-139 | A candidate's recorded voters are at most as many as its kbid |
| Election.TallyMovesUp | src/server/master/kyrin_master_sentinel.cc:130-148 | The highest candidate is not below the own vote and was given by some recorded master |
| Election.StepKeeps | src/server/master/kyrin_master_sentinel.cc:85-169 | Every poll and tally keeps the invariant on votes and stale records |
| Election.ThreeStepKeeps | src/server/master/kyrin_master_sentinel.cc:91-169 | With three masters: after master 2 recorded master 1 for itself, master 1 moves on only after master 2 did |
| Election.AtMostThreeSafe | src/server/master/kyrin_master_sentinel.cc:85-169 | With up to three masters no run has two leaders |
| ElectionLimits.TwoLeaders | src/server/master/kyrin_master_sentinel.cc:85-169 | For every number of masters from four on, a reachable state with two leaders |
| ElectionLimits.ElectionSafety | src/server/master/kyrin_master_sentinel.cc:85-169 | No reachable state has two leaders if and only if there are at most three masters |
| ElectionProgress.LosslessAgreement | src/server/master/kyrin_master_sentinel.cc:85-169 | When no reply is lost from the start, for any number of masters, everyone who settles takes the highest master for the leader: that one is Leader and everyone else Follower |
| ElectionProgress.LosslessProgress | src/server/master/kyrin_master_sentinel.cc:85-169 | And once every master has ended a round, no master ends more than two more before it settles |
| ElectionProgress.SettlesInTwo | src/server/master/kyrin_master_sentinel.cc:91-168 | Whenever a majority of votes for one candidate can no longer change, a master whose polls are answered settles within two rounds |
| ElectionProgress.FewSettle | src/server/master/kyrin_master_sentinel.cc:85-169 | With up to three masters, from every state that losses can lead to: after two lossless rounds of everyone, no master ends more than two more before it settles |
| ElectionProgress.StuckState | src/server/master/kyrin_master_sentinel.cc:85-169 | For every number of masters from four on, a reachable state in which the highest master never settles, whatever happens |
| ElectionProgress.ElectionProgress | src/server/master/kyrin_master_sentinel.cc:85-169 | No reachable state with all masters started leaves one of them without a future in which it settles, if and only if there are at most three masters |
| Sentinel.KyrinMasterSentinel.EnterConsensus | src/server/master/kyrin_master_sentinel.cc:87-90 | Entering the consensus block, at the start or after a lost leader, is the start step of the election up to the leader still named |
| Sentinel.KyrinMasterSentinel.PollAll | src/server/master/kyrin_master_sentinel.cc:92-121 | A round of polls overwrites the recorded votes by those heard, up to the first answer of another epoch, which is taken over |
| Sentinel.KyrinMasterSentinel.CountVotes | src/server/master/kyrin_master_sentinel.cc:123-128 | The counting loop yields, for every candidate, how many masters are recorded for it |
| Sentinel.KyrinMasterSentinel.TallyVotes | src/server/master/kyrin_master_sentinel.cc:123-139 | The loops find the last candidate with a majority and the last with any vote, or -1 |
| Sentinel.KyrinMasterSentinel.Settle | src/server/master/kyrin_master_sentinel.cc:123-166 | The end of a round is the tally step: keep, move the vote, or settle on a candidate with a majority, as leader exactly if it is the master itself |
| Sentinel.KyrinMasterSentinel.PollInEpoch | src/server/master/kyrin_master_sentinel.cc:94-121 | The polls of such a round record exactly what the run records for the master |
| Sentinel.PollsRecord | src/server/master/kyrin_master_sentinel.cc:94-121 | In the run, polls interleaved with any steps of the others record their replies in order, all naming masters, the own vote among them |
| Sentinel.KyrinMasterSentinel.Round | src/server/master/kyrin_master_sentinel.cc:91-168 | For every run of the election in which this master polls while the others do anything in between: a round whose replies are the ones these polls get leaves the sentinel as that run and its tally leave the master |
| Sentinel.KyrinMasterSentinel.GetVote | src/server/master/kyrin_master_sentinel_server.cc:37-54 | Answering a poll reports epoch and vote; only a higher epoch changes the state, back to consensus and the own vote |
| GossipStatus.WellFormedMeans | src/server/chunk/kyrin_chunk_gossiper_status.cc:42-55 | The multiset invariant says: no duplicates, four pairwise disjoint lists, together the config keys |
| GossipStatus.JoinMeans | src/server/chunk/kyrin_chunk_gossiper_status.cc:42-55 | An unknown caller becomes the last of the commons with exactly the announced config and the time stamped, all else unchanged; a known one changes nothing |
| GossipStatus.SetDeadMeans | src/server/chunk/kyrin_chunk_gossiper_status.cc:165-196 | A member on the alive list of the flag goes to the dead list of its kind; nobody else moves, no config changes, the time is stamped |
| GossipStatus.SetAliveMeans | src/server/chunk/kyrin_chunk_gossiper_status.cc:174-196 | And back |
| GossipStatus.AnswerMeans | src/server/chunk/kyrin_chunk_gossiper.cc:114-134 | A newer answer is what the node then holds; otherwise a dead target is revived, also by an unparsable answer |
| GossipStatus.SetDeadKeeps | src/server/chunk/kyrin_chunk_gossiper_status.cc:165-196 | Marking dead keeps members, configs and the seed set, and can only add the one kbid to the dead |
| GossipStatus.SetAliveKeeps | src/server/chunk/kyrin_chunk_gossiper_status.cc:174-196 | Marking alive keeps them too and adds nobody to the dead |
| Gossip.GossipConservation | src/server/chunk/kyrin_chunk_gossiper_status.cc:42-55 | In every run every status, at a node or in flight, is well-formed, has exactly the configured seeds among alive and dead, has lost no configured member, and is not ahead of the clock |
| Gossip.DeadOnlyAfterFailures | src/server/chunk/kyrin_chunk_gossiper.cc:105-134 | A kbid on any dead list anywhere lost three calls in a row to some node earlier in the run |
| Gossip.EventsMean | src/server/chunk/kyrin_chunk_gossiper.cc:80-135 | In every run: after a served call the server and the snapshot sent back know the caller; right after three failures an alive member is dead at that node; an arriving answer is held if newer, or revives; nobody else is affected |
| Gossip.TimestampsAdvance | src/server/chunk/kyrin_chunk_gossiper.cc:130-134 | No node's timestamp ever decreases, by local change or adoption |
| Gossip.SameConfigEverywhere | src/server/chunk/kyrin_chunk_gossiper_status.cc:10-55 | If each chunk always announces one record, any two statuses anywhere hold the same config for a kbid |
| Gossip.StepKeeps | src/server/chunk/kyrin_chunk_gossiper.cc:105-134 | Every join, failure, revival and adoption keeps the invariant of all nodes and snapshots |
| ChunkGossiper.KyrinChunkGossiperStatus.Initialize | src/server/chunk/kyrin_chunk_gossiper_status.cc:10-40 | The start state has the configured lists with their configs and is well-formed when no kbid is configured twice |
| ChunkGossiper.KyrinChunkGossiperStatus.CheckCommons | src/server/chunk/kyrin_chunk_gossiper_status.cc:42-55 | An unknown caller is afterwards the last of the commons with the announced config, the rest unchanged and the time stamped; a known one changes nothing; well-formedness is kept |
| ChunkGossiper.KyrinChunkGossiperStatus.SetItem | src/server/chunk/kyrin_chunk_gossiper_status.cc:183-196 | The scan takes out the first occurrence and appends it to the other list, or leaves both |
| ChunkGossiper.KyrinChunkGossiperStatus.SetDead | src/server/chunk/kyrin_chunk_gossiper_status.cc:165-172 | With flags 1 and 2 the member goes from the alive list to the dead list of its kind, nobody else moves and the time is stamped; other flags change nothing |
| ChunkGossiper.KyrinChunkGossiperStatus.SetAlive | src/server/chunk/kyrin_chunk_gossiper_status.cc:174-181 | With flags -1 and -2 it goes back |
| ChunkGossiper.KyrinChunkGossiperStatus.ToProtobuf | src/server/chunk/kyrin_chunk_gossiper_status.cc:69-112 | The message carries the four lists, the timestamp and one record for every config in key order; a receiver reads the same status back |
| ChunkGossiper.KyrinChunkGossiperStatus.FromString | src/server/chunk/kyrin_chunk_gossiper_status.cc:121-163 | Adopting a message replaces the whole status by what it carries |
| ChunkGossiper.KyrinChunkGossiperStatus.GossipWith | src/server/chunk/kyrin_chunk_gossiper.cc:80-135 | One picked member: after three failed calls it is on the dead list of its kind, after a success revived, a newer answer is what the node then holds, an unparsable one is not adopted |
| ChunkGossiper.KyrinChunkGossiperStatus.GetRandomAlive3 | src/server/chunk/kyrin_chunk_gossiper_status.h:47-74 | On a well-formed status, false exactly when fewer than three are alive, else the alive kbids with their configs at the first draws that hit three different ones, in that order; terminates for every fair stream of draws |
| LruCache.StackByTouch | src/common/kyrin_lru_cache.h:26-56 | The reference stack orders its keys by the time of their last touch, each once |
| LruCache.StackHolds | src/common/kyrin_lru_cache.h:40-56 | It holds a key exactly when the key was set, with the value last set |
| LruCache.CutHolds | src/common/kyrin_lru_cache.h:26-56 | A cache of capacity c answers for exactly the keys that were set and that fewer than c keys were touched after, with the value last set |
| LruCache.KyrinLruCache.constructor | src/common/kyrin_lru_cache.h:20-24 | An empty cache of capacity at least 1 satisfies the invariant |
| LruCache.KyrinLruCache.Get | src/common/kyrin_lru_cache.h:26-38 | A hit answers the stored value and counts as a touch, a miss changes nothing; list and map stay one-to-one and the list stays the stack of all touches cut at the capacity |
| LruCache.KyrinLruCache.Set | src/common/kyrin_lru_cache.h:40-56 | A set counts as a touch with its value, and the same invariant holds, with eviction when full |
| Base64.Base64Encode | src/common/crypto/kyrin_base64.cc:45-87 | The buffered encoder writes section 4 of RFC 4648: 24-bit groups as four letters, zero bits and padding at the end |
| Base64.Base64Decode | src/common/crypto/kyrin_base64.cc:89-127 | The buffered decoder turns the leading letters into bytes four at a time and drops the incomplete last byte |
| Base64.DecodeBuffer | src/common/crypto/kyrin_base64.cc:98-123 | A full buffer yields its three bytes; a short one, filled with a character that is not found and so becomes 255, yields the same bytes as zero bits would: the 255 never reaches the output |
| Base64.FindLetter | src/common/crypto/kyrin_base64.cc:35-43 | Every six-bit digit is found again from its letter |
| Base64.LetterFind | src/common/crypto/kyrin_base64.cc:35-43 | The accepted characters are exactly those that are found; all others give 255 |
| Base64.EncodedLength | src/common/crypto/kyrin_base64.cc:45-87 | The length is 4*ceil(n/3) |
| Base64.EncodedSplit | src/common/crypto/kyrin_base64.cc:52-65 | Encoding splits over concatenation at multiples of three bytes |
| Base64.RoundTrip | src/common/crypto/kyrin_base64.cc:45-127 | Decoding an encoding gives the input back, for every byte sequence, and every encoding is canonical |
| Base64.CanonicalIff | src/common/crypto/kyrin_base64.cc:45-127 | Encoding what a string decodes to gives that string back if and only if it is canonical |
| Base64.RfcVectors | src/common/crypto/kyrin_base64.cc:45-87 | The test vectors of section 10 of RFC 4648 |
| Base64.DecodedLeading | src/common/crypto/kyrin_base64.cc:96-123 | Nothing from the first other character on matters, and k leading letters give floor(3k/4) bytes |
| ChunkTransfer.ChunkServer.SetFileKeyInfo | src/server/request_handlers/set_file_key_info_request_handler.cc:39-44 | Creates the file or truncates it |
| ChunkTransfer.ChunkServer.UploadChunk | src/server/request_handlers/upload_chunk_file_request_handler.cc:30-45 | Writes the decoded chunk at its offset, fails exactly when the file is missing |
| ChunkTransfer.ChunkServer.DownloadChunk | src/server/request_handlers/download_chunk_file_request_handler.cc:30-49 | Answers the bytes from the offset on, at most 1024, encoded, and leaves the file |
| ChunkTransfer.UploadChunkInvoke | src/sdk/python_sdk/kyrinbox_sdk.py:238-245 | Sending a chunk encoded writes exactly that chunk when the request is delivered |
| ChunkTransfer.UploadFile | src/sdk/python_sdk/kyrinbox.py:25-47 | The upload loop succeeds exactly when all ceil(n/1024)+1 requests are answered, and the file the server then has, the old one or a new one, holds the enciphered content; a failure leaves exactly the chunks sent before it |
| ChunkTransfer.DownloadFile | src/sdk/python_sdk/kyrinbox.py:49-70 | The download loop succeeds exactly when the key request and ceil(n/1024)+1 chunk requests are answered, and writes the deciphered chunks over the start of the local file |
| ChunkTransfer.RoundTrip | src/sdk/python_sdk/kyrinbox.py:25-70 | The chunk functions of the two loops are inverse for every length, and written over an older file the result is the content if and only if that file is no longer |
| ChunkTransfer.UploadThenDownload | src/sdk/python_sdk/kyrinbox.py:25-70 | The upload loop followed by the download loop: both succeed exactly when all their requests are answered, and the local file then is the content if and only if an older one was no longer |
| ChunkTransfer.OldTailStays | src/sdk/python_sdk/kyrinbox.py:49-70 | A concrete failure: one byte downloaded over an older file of two |
| ChunkTransfer.AnyOrder | src/server/request_handlers/upload_chunk_file_request_handler.cc:39-45 | Writing every chunk at least once, in any order and any number of times, leaves the same file |

## Left out

- Sockets, evhttp, curl, thread setup, logging, web pages, scripts: a call is a step that is delivered, lost, or loses its answer.
- leveldb and redis internals and the reconnect logic: an ordered map and a map with fallible puts; a removal always succeeds.
- Protobuf encoding: a message is the datatype value it carries, so serialization never fails; unparsable input appears only where the code branches on it (gossip answers, GetOplog error texts).
- Cryptography, request filters, key center handlers, configuration parsing: the cipher is any length-preserving function with an inverse.
- The random pickers of the gossip loop and of the slavenode: any choice is allowed. The request for the replica list at the start of an upload is separate from it (`GetRandomAlive3`).
- Waiting for a consensus at the start of an upload: it spins on a local copy; the handler is modelled from the existence check on, on a leader.
- Epoch changes during an election and the follower's watch over its leader: recorded votes survive them and `m_epoch` can go down; the election theorems are about one epoch in which every own poll is answered, so a master that is stuck in it, or its followers, may still be freed by a new epoch. `Sentinel` models the epoch branches of the code itself.
- Election: a reply is recorded when it is served; nothing reads the record before the poller's own tally.
- The three handlers of a master are one object over the stores they share; the leader's GetOplog reply is computed when a follower or a slavenode asks.
- Replication: catch-up is one step of the cluster; what a slavenode could see in the middle of one is what an interrupted one leaves.
- MasterState.CatchUpOnePage: the number of answered requests is a parameter, which stands in for the endless loop that waits for the target id.
- Replication.ReplicationAgreement: for runs in which a delivered commit follows a successful prepare of the same upload, a catch-up is at most a page (or gets one page), and the leader's put does not fail after a follower stored; `Limits.CatchUpExactly`, `Limits.CommitExactly` and `Replication.LeaderStoreExactly` give the exact conditions.
- Replication.SlavesRefine: for runs in which no SET gets lost before it is executed; `Slavenode.PullExactly` gives the exact condition.
- Process restarts: a restarted master begins again at epoch 0 with its own vote, so even three masters could then elect two leaders, and with cleared prepare registers; a restarted slavenode begins again at the zero id over a filled store.
- A fixed leader: a change of leadership between uploads is not modelled.
- Followers ahead of the leader, ids at the 2^64 wrap in a log, and more than 2^32 votes or kbids.
- ChunkGossiper: locks, and two gossip threads inside one status; compare-then-adopt is one step.
- Gossip: initialization finishes before the first gossip step, and the clock is shared.
- LruCache.KyrinLruCache.Set: capacity is at least 1; with 0 the code would take the last node of an empty list.
- LruCache: list iterators are the nodes they point to; the lock is left out.
- ChunkTransfer: one file of one account, offsets of the client's loop (never negative), sizes below 2^63, disk writes that succeed.
- The Python id helper, which does not reset carried bytes: only its zero id is used.
