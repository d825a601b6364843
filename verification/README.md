# oqueue: a verified model

oqueue is a broker that speaks the Kafka protocol and keeps its records in object storage. This
project models the parts of it whose correctness rests on several functions agreeing, and proves
what they promise, for every input and over every run.

| file | what it models |
|---|---|
| `BitWords.dfy`, `Crc32c.dfy` | CRC-32C (section 12.1 of RFC 3720) as linear algebra over GF(2): the scalar loops, the division of polynomials they carry out, the combine law step by step and by repeated squaring, and what the checksum cannot miss |
| `RecordBatch.dfy`, `Ingest.dfy` | the `RecordBatch` v2 header, the in-place offset assignment, and the rule that decides whether a produced blob may be stored |
| `Varint.dfy`, `Flex.dfy` | unsigned varints with their word-at-a-time fast path, and the KIP-482 compact and tagged-field primitives |
| `GroupState.dfy` | the consumer-group transition table |
| `VersionedLog.dfy`, `GroupLog.dfy` | versioned logs, paged reads, and the optimistic append two kinds of writer race on |
| `GroupTransitions.dfy`, `CommittedOffsets.dfy` | replay of that log into group records and into committed offsets, and what one request does |
| `SharedLog.dfy`, `NodeAnswers.dfy` | the node as a step system: the group actor, concurrent offset commits, refused appends and restarts over one log; and what it does with one request left alone |
| `Authorship.dfy` | a ledger beside that system saying which call wrote which entry |
| `SyncBarrier.dfy`, `SyncAnswers.dfy`, `Heartbeats.dfy` | the SyncGroup barrier with its submitters and followers, which answer each of them gets, and session tracking |
| `Connection.dfy`, `Peer.dfy` | one connection: reader, handlers and writer as a step system, and the peer that reads its wire |
| `ObjectIndex.dfy`, `ReadPath.dfy`, `ReadBudget.dfy`, `ManifestChain.dfy` | the reads of one fetch request over a shared cache, what bounds and accounts for them, and the chain of manifests behind older offsets |
| `Retention.dfy` | the follower that must equal a prefix of the log before it may delete anything |
| `Bytes.dfy` | bytes and fixed-width big-endian integers |

Code that changes things step by step is modelled by classes and loops, each proved against a
function of its inputs. Concurrency is modelled by step systems: a state, a datatype of steps, a
total function `Do` in which a step that is not enabled changes nothing, and `Run` over a sequence
of steps; a theorem about `Run` for every sequence of steps is a theorem about every interleaving.
What the outside world does (a racing writer, a store's answers, a handler's result, a clock
reading, a failed read) is a parameter of the step or of the method. The results that speak of an
accepted batch are not empty: `SealedBatchIsJudgedOnItsMerits` makes one out of every nonempty
list of well-formed records. `hide` statements keep definitions a proof does not need away from the
solver.

## Where the code and its documentation differ

- Poisoned groups. The documentation of replay says a group whose log is illegal never accrues a
  record (`crates/oqueue-broker/src/group_transitions.rs:230-234`). The code keeps the record and
  roster of the longest legal prefix; the model follows the code (`PoisonIsContained`). Such a
  group is still served, and what it is told after that is lost on the next replay
  (`PoisonedGroupsDrift`); for every other group live state and replay agree (`GroupByGroup`).
- Failure cap. The read path says at most two objects of one request may fail. Exactly: the objects
  that fail the read that fetched them number the counter, which stops at two, plus the fetched
  manifests that do not parse (`CapIsExact`). So the cap holds where every link a lookup follows
  parses (`CapHoldsWhereManifestsParse`), and for failures of any kind where, besides, an object that
  serves one of the partitions naming it serves them all (`CapHoldsWhereObjectsAreShareable`). Outside
  those conditions it does not: any number of unparsable manifests, or of bundles in hand that a later
  partition cannot use, fail their reads uncounted (`UnparsableManifestsAreNotCapped`,
  `FailuresInHandAreNotCapped`).
- Producer identity. The documentation allows an epoch of -1 beside a present id; the code refuses
  every negative epoch (`crates/oqueue-broker/src/ingest.rs:141-153`; `EpochSentinelIsRefused`).
- Replay of a log whose last full page ends at the highest version fails although every entry was
  folded (`EndsOnTheBrink`); every other log replays whole.
- When reader and writer have both ended, which one decides the connection's verdict is a matter
  of scheduling; `ArmsAgree` says exactly when it makes no difference.

## Model

| member | source | states |
|---|---|---|
| Crc32c.ScalarCrc32c | crates/oqueue-checksum/src/lib.rs:50-63 | the nested byte and bit loops over a 32-bit number compute the register that the message bits leave under the Castagnoli generator, preset and complemented |
| Crc32c.FeedDivides | crates/oqueue-checksum/src/lib.rs:50-63 | for every generator, register and message, the message times x^32 plus the register at its front is a quotient times the generator, by schoolbook multiplication over GF(2), plus what feeding leaves in the register |
| Crc32c.RemainderIsUnique | crates/oqueue-checksum/src/lib.rs:50-63 | a dividend has one quotient and one remainder below the generator's degree |
| Crc32c.CrcIsTheRemainder | crates/oqueue-checksum/src/lib.rs:50-63 | the CRC of a message is the remainder of that division, preset and complemented, and there is no other |
| Crc32c.CombineOfChecksums | crates/oqueue-checksum/src/lib.rs:80-93 | for all byte strings A and B, the two checksums and B's length give the checksum of A followed by B |
| Crc32c.CombineLaw | crates/oqueue-checksum/src/lib.rs:80-93 | the same for every generator, on registers: A's checksum advanced by 8·\|B\| zero bits, xor B's |
| Crc32c.CombineIsAssociative | crates/oqueue-checksum/src/lib.rs:80-93 | combining three pieces gives one answer whichever pair is combined first |
| Crc32c.EmptyIsTheUnit | crates/oqueue-checksum/src/lib.rs:80-93 | the empty string is the unit on both sides |
| Crc32c.AdvanceBySquaring | crates/oqueue-checksum/src/lib.rs:80-93 | advancing by one matrix squaring per bit of the length equals advancing step by step, for every length |
| Crc32c.Crc32cCombine | crates/oqueue-checksum/src/lib.rs:86-93 | the logarithmic combine on the numbers callers hold equals the step-by-step one |
| Crc32c.BurstsAreNoticed | crates/oqueue-checksum/src/lib.rs:50-63 | two messages that differ only within 32 consecutive bits have equal checksums if and only if they are equal |
| Crc32c.OddErrorsAreNoticed | crates/oqueue-checksum/src/lib.rs:50-63 | messages whose bit parities differ never share a checksum, for a generator of odd weight |
| Crc32c.CastagnoliBits | crates/oqueue-checksum/src/lib.rs:46-56 | the polynomial has its top bit set and odd weight, which is what the two detection results need |
| Crc32c.CastagnoliPowers | crates/oqueue-checksum/src/lib.rs:46-56 | the generator has exactly the powers of x that section 12.1 of RFC 3720 gives: 32, 28, 27, 26, 25, 23, 22, 20, 19, 18, 14, 13, 11, 10, 9, 8, 6 and 0 |
| RecordBatch.HeaderRoundTrip | crates/oqueue-codec/src/batch.rs:120-162 | every header encodes to exactly 61 bytes and decodes to itself, whatever records follow |
| RecordBatch.HeaderReencodes | crates/oqueue-codec/src/batch.rs:120-162 | re-encoding a decoded header gives back the 61 bytes it was read from |
| RecordBatch.CrcCoverage | crates/oqueue-codec/src/batch.rs:175-195 | the covered bytes are 21 up to the declared end, which is checked against the buffer and is at least a header; a negative length and an end that does not fit have each their own error |
| RecordBatch.RewriteBaseOffset | crates/oqueue-codec/src/batch.rs:215-224 | writes the offset and the epoch in place and nothing else, or reports why the blob is no batch and writes nothing |
| RecordBatch.RewriteTouchesTwoFields | crates/oqueue-codec/src/batch.rs:208-224 | the length and every byte from the magic on are untouched, and the header reads back with the two fields assigned |
| Ingest.WalkRecords | crates/oqueue-codec/src/records/count.rs:50-114 | the walk with its cursor counts what the length prefixes say, with the format's own floor and every error |
| Ingest.CountFrom | crates/oqueue-codec/src/records/count.rs:50-114 | no record costs fewer than seven bytes, so offsets cannot be claimed faster than that |
| Ingest.CountOfRecords | crates/oqueue-codec/src/records/count.rs:63-114 | the walk finds exactly the records a producer encoded, or refuses the first that is too short to be one |
| Ingest.SealedBatchIsJudgedOnItsMerits | crates/oqueue-broker/src/ingest.rs:41-128 | for whatever a producer seals with a right length and checksum: any of the three codec bits is code 76; claims its records do not bear out are 87; id -1 is accepted without a producer whatever its epoch and sequence; id and epoch of 0 and up are accepted with exactly those and the sequence; any other id or epoch is 87 |
| Ingest.LowThreeBits | crates/oqueue-broker/src/ingest.rs:69-79 | the codec id is the number the three lowest of the sixteen attribute bits make, 0 to 7, and 0 exactly when none is set |
| Ingest.NothingMayFollow | crates/oqueue-broker/src/ingest.rs:49-60 | an accepted batch followed by anything at all is refused as INVALID_RECORD |
| Ingest.NothingMayBeMissing | crates/oqueue-broker/src/ingest.rs:41-60 | every proper prefix of an accepted batch is refused, with the code that fits where it ends |
| Ingest.OneByteChanged | crates/oqueue-broker/src/ingest.rs:41-68 | change any one byte of an accepted batch: the verdict stands if it is one the broker assigns, and otherwise the code says whether it was the length, the format or something the checksum guards |
| Ingest.EpochSentinelIsRefused | crates/oqueue-broker/src/ingest.rs:146-153 | a present id with epoch -1 is refused where the same batch with epoch 0 is accepted |
| Ingest.RewriteKeepsTheVerdict | crates/oqueue-broker/src/ingest.rs:41-128 | for every blob, offset and epoch, assigning the offset leaves the verdict as it was |
| Ingest.BurstIsRefused | crates/oqueue-broker/src/ingest.rs:61-68 | once a batch is accepted, any change within 32 consecutive bits from byte 21 on makes it CORRUPT_MESSAGE |
| Ingest.FourByteChangeIsRefused | crates/oqueue-broker/src/ingest.rs:61-68 | the same for any four consecutive covered bytes |
| Ingest.ChecksumFieldChangeIsRefused | crates/oqueue-broker/src/ingest.rs:61-68 | any change confined to the stored checksum makes an accepted batch CORRUPT_MESSAGE |
| Ingest.OddErrorIsRefused | crates/oqueue-broker/src/ingest.rs:61-68 | so does any odd number of flipped bits in the covered region, however far apart |
| Varint.Cursor.ReadUnsignedVarintSlow | crates/oqueue-codec/src/varint.rs:72-87 | the byte loop reads the groups of seven bits at the cursor, modulo 2^32, and leaves the cursor after them, or names the error |
| Varint.Cursor.ReadUnsignedVarint | crates/oqueue-codec/src/varint.rs:50-71 | the word scan, where eight bytes are at hand, answers exactly as the byte loop |
| Varint.SwarLenIsTheFirstStop | crates/oqueue-codec/src/varint.rs:33-45 | the bit trick finds the first byte that does not continue, or says that none of the eight does |
| Varint.ScanRefinesTheLoop | crates/oqueue-codec/src/varint.rs:50-87 | the scan's length decides value, length and error as the loop would |
| Varint.VarintRoundTrip | crates/oqueue-codec/src/varint.rs:142-153 | every `u32` that was put is read back, with the cursor at the byte after it |
| Varint.ShortVarints | crates/oqueue-codec/src/varint.rs:142-153 | the bytes themselves below 16384: one below 128, otherwise the low seven bits with the continuation bit and then the rest |
| Flex.CompactBytesRoundTrip | crates/oqueue-codec/src/flex.rs:241-246 | nullable bytes read back exactly if and only if their length is below the point where the writer saturates |
| Flex.CompactStringRoundTrip | crates/oqueue-codec/src/flex.rs:214-225 | a nullable string does so if and only if it is also text, and is refused as not text otherwise |
| Flex.DecodeTaggedFields | crates/oqueue-codec/src/flex.rs:274-304 | for any input at all, the fields read number less than half of the bytes consumed |
| Flex.TaggedFieldsRoundTrip | crates/oqueue-codec/src/flex.rs:274-374 | unknown tags survive in wire order, cursor at the following byte, if and only if every count and size fits its varint |
| Flex.ShortForms | crates/oqueue-codec/src/flex.rs:315-374 | the bytes themselves for short values: null is 0, a length is one more than it is, a tagged field is its tag, its size and its data, and a section begins with its count |
| Flex.ReadCompactLen | crates/oqueue-codec/src/flex.rs:190-206 | null, or a length no greater than what remains, or the error |
| Flex.ReadCompactNullableBytes | crates/oqueue-codec/src/flex.rs:241-246 | the cursor reader agrees with the positional specification |
| Flex.ReadTaggedFields | crates/oqueue-codec/src/flex.rs:274-304 | the loop over a cursor reads the section the specification describes, errors included |
| Flex.Buffer.PutUnsignedVarint | crates/oqueue-codec/src/varint.rs:142-153 | appends the encoding and keeps what was there |
| Flex.Buffer.PutCompactNullableBytes | crates/oqueue-codec/src/flex.rs:315-357 | appends the length, saturated rather than wrapped to null, and the bytes |
| Flex.Buffer.PutTaggedFields | crates/oqueue-codec/src/flex.rs:367-374 | appends the section in wire order |
| GroupState.HistoriesAreCoherent | crates/oqueue-core/src/group_state.rs:235-293 | over every legal history the generation counts the join barriers, the assignment epoch never overtakes it, and a Stable group's epoch is its generation |
| GroupState.LivingGroupsCanSettle | crates/oqueue-core/src/group_state.rs:251-293 | any group that has not expired can reach Stable one generation later through one barrier |
| GroupState.TheEventDecides | crates/oqueue-core/src/group_state.rs:235-293 | which events each state admits, and that a legal event alone decides the state it leads to, whether the generation advances and whether the epoch catches up |
| GroupState.DeathIsTheExpiryOfAnEmptyGroup | crates/oqueue-core/src/group_state.rs:251-293 | a history that ends dead ends with the expiry of an empty group, its only one |
| GroupLog.MetadataLog.Append | crates/oqueue-core/src/group_metadata_log.rs:149-193 | a batch lands whole if log and batch together are still in strictly increasing order, and otherwise nothing of it does |
| GroupLog.MetadataLog.ReadFrom | crates/oqueue-core/src/group_metadata_log.rs:195-212 | the filter-and-take loop returns the run of entries from the first at or above `start` |
| GroupLog.NextPage | crates/oqueue-broker/src/group_transitions.rs:245-288 | a short page is the end of the log; a full one leads exactly to the next entry or stands at the last version there is |
| GroupLog.StaleCandidate | crates/oqueue-broker/src/group_transitions.rs:399-417 | an optimistic candidate is refused if and only if something landed since the version was read |
| GroupLog.AppendDurably | crates/oqueue-broker/src/group_transitions.rs:399-417 | under any racing writers the log is left exactly as those writers left it, turn by turn, with the call's own record on top if and only if it answered `Ok` |
| GroupLog.LeavesMeans | crates/oqueue-broker/src/group_transitions.rs:399-417 | so `Ok` stands in the log exactly once, an error put nothing there, and giving up means eight races lost to at least eight entries of others |
| GroupTransitions.PoisonIsContained | crates/oqueue-broker/src/group_transitions.rs:240-289 | for every log, legal or not, a group's replayed record and roster depend on its own entries alone and are those of its longest legal prefix |
| GroupTransitions.LongestLegalIsLongest | crates/oqueue-broker/src/group_transitions.rs:240-289 | no longer prefix of the group's history is legal |
| GroupTransitions.RosterSinceTheLastDeparture | crates/oqueue-broker/src/group_transitions.rs:240-289 | the replayed roster is the one last set in the group's legal history with neither AllMembersGone nor Expire since, and there is one if and only if there is such an entry |
| GroupTransitions.LastOutClearsTheRoster | crates/oqueue-broker/src/group_transitions.rs:372-377 | a legal event removes the roster of its own group if and only if it is AllMembersGone or Expire, and changes no roster otherwise |
| GroupTransitions.Replay | crates/oqueue-broker/src/group_transitions.rs:240-289 | paged replay equals one fold over the whole log for every length, and fails only on the one log that ends on the brink |
| GroupTransitions.ReplayInPages | crates/oqueue-broker/src/group_transitions.rs:245-288 | replaying two stretches one after the other equals replaying them joined |
| GroupTransitions.HandleOne | crates/oqueue-broker/src/group_transitions.rs:346-378 | an illegal event leaves log and coordinator alone; otherwise the log is left as the append leaves it, and the coordinator moves if and only if the record landed, the roster going with AllMembersGone and Expire and no other event |
| GroupTransitions.UpdateRoster | crates/oqueue-broker/src/group_transitions.rs:380-393 | the log is left as the append leaves it, and the roster changes if and only if the record landed |
| GroupTransitions.Coordinator.Fire | crates/oqueue-core/src/group_coordinator.rs:151-167 | a refused event leaves nothing applied |
| GroupTransitions.Coordinator.SetRoster | crates/oqueue-core/src/group_coordinator.rs:188-195 | replaces or clears one group's roster |
| CommittedOffsets.ReplayServesTheLatest | crates/oqueue-broker/src/offset_commit.rs:167-192 | replaying a log serves, for every key, its newest entry |
| CommittedOffsets.MergesCommute | crates/oqueue-broker/src/offset_commit.rs:295-335 | two entries of different versions may reach memory in either order |
| CommittedOffsets.ArrivalOrderIsForgotten | crates/oqueue-broker/src/offset_commit.rs:295-335 | an entry applied before a whole log of others leaves the same map as one applied after them |
| CommittedOffsets.NothingNewChangesNothing | crates/oqueue-broker/src/offset_commit.rs:310-335 | an entry no newer than the one in memory for its key, the same version included, changes nothing |
| CommittedOffsets.Store.Replay | crates/oqueue-broker/src/offset_commit.rs:167-192 | paged replay replaces the map by the fold of the whole log, so that every key is served its newest entry, or leaves it alone when the log cannot be finished |
| CommittedOffsets.Store.Commit | crates/oqueue-broker/src/offset_commit.rs:219-253 | the log is left as the append leaves it, and memory is merged under the version guard if and only if the record landed: what was committed is served unless something newer is, and no other key changes |
| SharedLog.LiveIsReplay | crates/oqueue-broker/src/group_transitions.rs:240-393 | for every run from a log that replays legally, with commits interleaved, appends refused and restarts anywhere, replaying the log gives exactly the live records and rosters, plus the one request between its append and its apply |
| SharedLog.GroupByGroup | crates/oqueue-broker/src/group_transitions.rs:240-393 | from any log, the same for each group that was not poisoned; a poisoned one replays for ever to what it replayed to at first |
| SharedLog.PoisonedGroupsDrift | crates/oqueue-broker/src/group_transitions.rs:240-393 | for any poisoned group, four steps put live state and replay at odds, so the condition is exact |
| SharedLog.RunsKeepInv | crates/oqueue-broker/src/offset_commit.rs:167-335 | the invariant that ties log, memory, pending writers, acknowledgements and live groups holds after every step of every run |
| SharedLog.ServedIsNewestApplied | crates/oqueue-broker/src/offset_commit.rs:219-335 | for each key memory holds an entry of the log at least as new as every entry that is not still between append and apply |
| SharedLog.ServedNeverGoesBack | crates/oqueue-broker/src/offset_commit.rs:219-335 | the version served for a key never decreases, across racing commits and restarts |
| SharedLog.AcknowledgedIsServed | crates/oqueue-broker/src/offset_commit.rs:219-253 | after any further steps and restarts, an acknowledged commit is in the log exactly once and nothing older is served in its place |
| SharedLog.QuietIsReplay | crates/oqueue-broker/src/offset_commit.rs:167-335 | once no commit is between append and apply, the map is what a replay would build |
| NodeAnswers.CommitLeftAlone | crates/oqueue-broker/src/offset_commit.rs:219-253 | from any state a run reaches, a commit nobody races is logged under the next version with its group, topic, partition and offset, acknowledged and served, and nothing else changes |
| NodeAnswers.EventLeftAlone | crates/oqueue-broker/src/group_transitions.rs:346-378 | an event the group's state admits is logged and applied with its effect on record and roster, and one it does not admit changes nothing |
| NodeAnswers.RosterLeftAlone | crates/oqueue-broker/src/group_transitions.rs:380-393 | a roster is logged and then set or cleared for its own group |
| Authorship.VersionsAndAuthors | crates/oqueue-broker/src/group_transitions.rs:399-417 | over every run versions stay strictly increasing and no call writes twice |
| Authorship.AnsweredStandsOnce | crates/oqueue-broker/src/group_transitions.rs:399-417 | every call that answered `Ok`, the actor's or a commit's, is the author of exactly one entry, the one it answered for, which stands in the log once |
| Authorship.GivingUpSawEightOthers | crates/oqueue-broker/src/group_transitions.rs:399-417 | a call that gave up wrote nothing, and between its beginning and its end at least eight entries landed, every one of them another call's |
| SyncBarrier.SettledStays | crates/oqueue-broker/src/sync_group/barrier.rs:342-409 | no submission or refusal returns a settled generation to Waiting, and a refusal never unpublishes a map |
| SyncBarrier.Barrier.Submit | crates/oqueue-broker/src/sync_group/barrier.rs:342-367 | lands unless a later generation is there or the group has left this one |
| SyncBarrier.Barrier.Refuse | crates/oqueue-broker/src/sync_group/barrier.rs:382-409 | settles the generation and never replaces its map or a later generation |
| SyncBarrier.AnsweredIsSettled | crates/oqueue-broker/src/sync_group.rs:167-364 | in every interleaving, once an assignment-bearing call is answered, by success or by any refusal, the barrier never again answers Waiting for its generation |
| SyncAnswers.GrantedExactly | crates/oqueue-broker/src/sync_group.rs:167-364 | in every interleaving a call is answered with its map if and only if it was begun for the group's own generation, found the group Stable at it both when the actor had answered and under the cell's lock, and found nothing later on the cell |
| SyncAnswers.UnavailableExactly | crates/oqueue-broker/src/sync_group.rs:248-295 | it is told the coordinator is not available if and only if the group was there to be synced and the log could not be reached |
| SyncAnswers.LeaderIsGranted | crates/oqueue-broker/src/sync_group.rs:167-364 | from any state, a leader of the group's generation with nothing later on the cell is granted its map, which is then on the cell |
| SyncAnswers.FollowerIsTold | crates/oqueue-broker/src/sync_group.rs:380-414 | whoever then comes for that generation is told that map |
| SyncAnswers.LookTells | crates/oqueue-broker/src/sync_group/barrier.rs:137-169 | what a look answers for an empty cell, an earlier, a later and the same generation, with and without a map |
| SyncAnswers.DeadlineTells | crates/oqueue-broker/src/sync_group.rs:407-411 | a sleeping follower whose deadline comes is told what the cell says by then, Waiting included, and no other follower has one |
| SyncBarrier.NoLostWakeup | crates/oqueue-broker/src/sync_group.rs:380-414 | registering, looking and going to sleep are three steps, and an announcement reaches only who is registered; in every interleaving a follower that has looked, asleep or about to be, while the cell has its answer, has its wakeup or is registered with one still to be announced |
| SyncBarrier.AnnouncedIsFreed | crates/oqueue-broker/src/sync_group.rs:380-414 | the pending announcement and the follower's own next steps bring it to that very answer |
| SyncBarrier.LookingFirstStrands | crates/oqueue-broker/src/sync_group.rs:389-403 | on one schedule, for every record and generation, the follower that registers first sleeps with its wakeup delivered, and the one that looks first sleeps with its answer on the cell, no wakeup, and none to come |
| SyncBarrier.StrandedToTheDeadline | crates/oqueue-broker/src/sync_group.rs:389-412 | whatever follows short of another publication, that follower is moved by its own deadline alone |
| SyncBarrier.PublishedWhileStable | crates/oqueue-broker/src/sync_group.rs:160-165 | over every run, each map ever published was put on the cell by a step at which the group was Stable at its generation |
| SyncBarrier.NobodyGetsAnotherGenerations | crates/oqueue-broker/src/sync_group.rs:97-138 | whoever is told an assignment is told one published for its own generation |
| Heartbeats.Clamp | crates/oqueue-broker/src/heartbeat/deadline.rs:12-18 | of the timeouts between six seconds and thirty minutes, the one nearest to what was asked for |
| Heartbeats.Tracker.Register | crates/oqueue-broker/src/heartbeat.rs:183-195 | tracks the member from now for its clamped timeout |
| Heartbeats.Tracker.Renew | crates/oqueue-broker/src/heartbeat.rs:200-207 | extends a tracked member by its own timeout and creates nobody |
| Heartbeats.Tracker.RemoveWhere | crates/oqueue-broker/src/heartbeat.rs:283-302 | the locked part of a removal takes whoever is not kept and enqueues as one step |
| Heartbeats.Release | crates/oqueue-broker/src/heartbeat.rs:303-327 | once the actor has answered, a removal that took anybody settles the barrier for the generation read before it, and no other removal touches it |
| Heartbeats.RemovalSpendsNoGeneration | crates/oqueue-broker/src/heartbeat.rs:265-302 | the queued event is admitted by any group that has members and keeps its generation, so the one read before the removal is the right one to settle |
| Heartbeats.OneEventPerPass | crates/oqueue-broker/src/heartbeat.rs:282-302 | exactly the members not kept go, one event is queued if anybody went and none otherwise, and it is AllMembersGone if and only if nobody is left |
| Heartbeats.QueueIsRemovalOrder | crates/oqueue-broker/src/heartbeat.rs:183-328 | over every trace of registers, renewals, sweeps and leaves the queue is one event per dropping pass, in the order of the passes |
| Heartbeats.PunctualIsNeverSwept | crates/oqueue-broker/src/heartbeat.rs:183-216 | on one clock, a member whose registrations and renewals are closer together than its clamped timeout, and not yet due after the last, is tracked after every operation of the trace |
| Heartbeats.SilentIsSwept | crates/oqueue-broker/src/heartbeat.rs:212-216 | a sweep removes a member if and only if its whole timeout has passed since it was last heard of |
| Connection.RepliesInOrder | crates/oqueue-broker/src/connection.rs:226-340 | in every interleaving the complete frames on the wire are the replies of requests 0 to k in request order, Silent ones skipped, followed by at most a proper part of the next |
| Peer.PeerReadsTheReplies | crates/oqueue-codec/src/frame.rs:188-195 | a peer that reads four bytes of length, most significant first, and then that many of body, again and again, recovers from a transcript exactly the bodies of its replies in order, with nothing left over |
| Peer.PeerReadsInOrder | crates/oqueue-broker/src/connection.rs:226-340 | from the wire of any run it reads the replies settled so far, in request order, and at most an incomplete frame of the next |
| Peer.EverythingCanBeServed | crates/oqueue-broker/src/connection.rs:154-340 | whatever list of replies and silences the handlers give, there is a run that sends the peer all of them, and the writer drains once the peer hangs up |
| Peer.BadAnswerEndsTheWriter | crates/oqueue-broker/src/connection.rs:297-340 | a handler that panicked and a reply too long to frame each end the writer with its own error and nothing sent |
| Connection.NothingAfterClose | crates/oqueue-broker/src/connection.rs:308-320 | nothing at or past the first Close is ever answered |
| Connection.TheEndIsFinal | crates/oqueue-broker/src/connection.rs:308-340 | once the writer has ended the wire never changes again, whatever steps follow |
| Connection.EarlyEndStopsTheReader | crates/oqueue-broker/src/connection.rs:176-211 | over every run a reader is taken down only by a writer that ended before draining, and any such writer takes down a reader still at work |
| Connection.FlushGuardsTheEnd | crates/oqueue-broker/src/connection.rs:308-340 | a flush can fail exactly where the writer would otherwise end well, and ends it with an I/O error |
| Connection.SequencesArriveInOrder | crates/oqueue-broker/src/connection.rs:302-308 | the sequence number the writer joins is always the one it expects |
| Connection.HeldIsBounded | crates/oqueue-broker/src/connection.rs:154-172 | at most max(1, max_in_flight) handlers run, and at most two requests more are held unanswered |
| Connection.DrainedIsComplete | crates/oqueue-broker/src/connection.rs:166-200 | a drained connection has answered every request it read, in full |
| Connection.WriteInOrder | crates/oqueue-broker/src/connection.rs:297-340 | the writer's loop puts out every settled reply and stops, saying why, at the first request that is not |
| Connection.ArmsAgree | crates/oqueue-broker/src/connection.rs:176-211 | when both tasks have ended, the two arms give one verdict if and only if the writer drained, the reader ended cleanly, or both failed alike |
| ReadPath.FetchedObjects.Get | crates/oqueue-broker/src/read.rs:402-450 | the cache computes the answer the specification gives: a hit is free, a miss is remembered, and past the cap only hits are answered |
| ReadPath.OneBatch | crates/oqueue-broker/src/read/batch.rs:29-112 | both tiers as specified, the failed slice of a miss counted |
| ReadPath.ReadPage | crates/oqueue-broker/src/read.rs:111-192 | the loop computes the specified read of a page, every early exit included |
| ReadPath.ResolveManifest | crates/oqueue-broker/src/read/manifest.rs:52-130 | the loop computes the specified lookup, sixteen links at most |
| ReadPath.ReadPartition | crates/oqueue-broker/src/read.rs:71-192 | both tiers and the page in sequence, as specified |
| ReadPath.ServeReads | crates/oqueue-broker/src/fetch/pass.rs:43-60 | a request's partitions in turn over one cache give the specified answers |
| ReadPath.PositionFindsIt | crates/oqueue-core/src/partition_manifest/parse.rs:57-71 | in an ordered manifest the search finds the entry that holds the offset whenever one does |
| ManifestChain.ChainIsFollowed | crates/oqueue-broker/src/read/manifest.rs:52-130 | over the manifests as they parse: every link that begins above the offset and names another is followed, exactly those and the last are consulted, and the answer is the last one's entry that holds the offset with those after it below the bound, 64 at most, or nothing if none holds it |
| ManifestChain.EndlessChainIsRefused | crates/oqueue-broker/src/read/manifest.rs:118-130 | a chain none of whose allowed links stops the lookup is an error after exactly those links |
| ManifestChain.OlderHistoryIsFound | crates/oqueue-broker/src/read.rs:71-104 | a partition read below its manifest's bound with something to spend gets what its chain of at most sixteen links holds; any other read leaves the chain alone |
| ReadPath.BatchesBelow | crates/oqueue-broker/src/read/manifest.rs:84-110 | the page is the run of entries as ranged batches up to the published bound, cut only at 64 |
| ReadBudget.ReadStaysInBudget | crates/oqueue-broker/src/read.rs:71-192 | whatever the answer, the bytes fetched are at most the larger of allowance and manifest cost, plus one object of the partition's own page; without a manifest to consult that cost is zero |
| ReadBudget.OlderTierKeeps | crates/oqueue-broker/src/read/manifest.rs:52-130 | the manifest tier touches only links of its own chain, sixteen GETs at most, is charged what they delivered, and answers what the chain says; a tier not entered touches and costs nothing |
| ReadBudget.ChainPageIsOlder | crates/oqueue-broker/src/read/manifest.rs:74-110 | what a chain names is a page of ranged batches below the published bound, beginning with the one that holds the offset |
| ReadBudget.SpentTouchesNothing | crates/oqueue-broker/src/read.rs:80-96 | a spent allowance with no overshoot leaves the store and the cache alone |
| ReadBudget.OkIsAPrefixOfThePage | crates/oqueue-broker/src/read.rs:111-192 | an Ok answer is whole stamped batches from the front of the page; with overshoot allowed a nonempty page yields at least one; and it stops early only for the budget, an unreadable batch or the cap |
| ReadBudget.OneBatchIsServed | crates/oqueue-broker/src/read.rs:111-192 | the read of one batch to the letter: which object, ranged or whole and opened, what it costs, which error, and the stamp |
| ReadBudget.PastTheCap | crates/oqueue-broker/src/read.rs:402-450 | after two failures an object that is not in hand is refused as SlowDown without being asked for |
| ReadBudget.ErrIsOneOfThese | crates/oqueue-broker/src/read.rs:71-192 | a read answers an error if and only if its manifest chain or its index fails, or, with the batches before it read whole and something left to spend, the next batch is out of reach with nothing in hand or is there and will not take the stamp |
| ReadBudget.PartitionKeeps | crates/oqueue-broker/src/read.rs:155-191 | a read, failed or not, is charged exactly what the store delivered for it and touches only what its partition names |
| ReadBudget.RequestKeeps | crates/oqueue-broker/src/read.rs:386-450 | over any request no object is fetched twice, the bytes charged across successes and failures are the bytes delivered, and the failure counter is the number of fetched objects refused or unusable, at most two |
| ReadBudget.CapIsExact | crates/oqueue-broker/src/read.rs:306-333 | the objects that fail the read that fetched them number the counter plus the fetched manifests that do not parse |
| ReadBudget.CapHoldsWhereManifestsParse | crates/oqueue-broker/src/read.rs:306-333 | at most two objects fail their own fetch when every link a lookup would follow parses |
| ReadBudget.CapHoldsWhereObjectsAreShareable | crates/oqueue-broker/src/read.rs:306-333 | at most two objects fail anybody when, besides, partitions naming the same object agree on whether it serves |
| ReadBudget.UnparsableManifestsAreNotCapped | crates/oqueue-broker/src/read/manifest.rs:60-85 | a request naming any number of distinct unparsable manifests fetches exactly those, fails every one of its reads, and counts none |
| ReadBudget.FailuresInHandAreNotCapped | crates/oqueue-broker/src/read/batch.rs:76-105 | a request naming any number of bundles twice, usable by the first partition and not by the second, fetches each once, answers the first, fails the second, and counts none |
| Retention.Follower.Rebuild | crates/oqueue-broker/src/retention.rs:204-231 | goes through exactly the steps its turns make, one page a turn, and ends synced with the whole log folded, or unsynced and empty; the latter only if the read or the fold of its last turn failed or a version is the last there is |
| Retention.Follower.Fold | crates/oqueue-broker/src/retention.rs:162-176 | is one receive step of the step system, and the turns of a rebuild after it if the fold refused: an overlap changes nothing, a new entry is folded once |
| Retention.RunsKeepInv | crates/oqueue-broker/src/retention.rs:141-275 | over every interleaving of commits, stream, lag, failed reads and rounds, a synced follower holds a prefix of the log and the stream has no gap it does not know of |
| Retention.ActsOnAPrefix | crates/oqueue-broker/src/retention.rs:235-275 | whenever a round trims or sweeps, the follower has folded a prefix of the log, each entry exactly once |
| Retention.RoundActs | crates/oqueue-broker/src/retention.rs:204-275 | a round acts at once when the follower is synced, and otherwise acts on exactly the whole log once undisturbed reads have gone through it |
| Retention.StartsSynced | crates/oqueue-broker/src/retention.rs:141-160 | a follower that subscribes and reads the log undisturbed is synced with exactly that log folded |
| Retention.StreamIsFolded | crates/oqueue-broker/src/retention.rs:162-176 | the next entry of the stream is folded, or passed over if the log was read past it |
| Retention.LagIsHealed | crates/oqueue-broker/src/retention.rs:141-231 | however much of the stream is dropped, the next receive starts a rebuild that, undisturbed, ends with the whole log folded and the stream where it stood |
| Retention.RefusedFoldIsHealed | crates/oqueue-broker/src/retention.rs:162-231 | so does a refused fold |
| Retention.RebuildGivesUp | crates/oqueue-broker/src/retention.rs:204-231 | a rebuild ends empty and unsynced at a failed read, a refused fold, or a page that ends at the last version there is |
| Retention.OverlapIsThePrefix | crates/oqueue-broker/src/retention.rs:162-171 | comparing versions strips exactly the entries already folded |
| Retention.UnsignalledGapIsNoPrefix | crates/oqueue-broker/src/retention.rs:147-152 | a follower that ignored a lag would act on something that is no prefix, so the rebuild is needed |
| Retention.Below | crates/oqueue-broker/src/retention.rs:299-321 | terminates with the objects none of whose offsets is at or past the trim point, in offset order, and all of them when no index read fails |
| Retention.PageIsTheNextRun | crates/oqueue-core/src/index_state.rs:324-371 | without a byte bound a page is the next 64 entries that end past the cursor |

## Left out

- HistoriesAreCoherent: generations are unbounded integers, so the overflow of the 32-bit generation counter after two billion rebalances is not modelled.
- ReadStaysInBudget: byte counts are unbounded integers, so the 64-bit addition of what one request fetches is not checked for overflow.
- PunctualIsNeverSwept: time is a natural number of milliseconds read by each operation; the clock itself is not modelled.
- CompactStringRoundTrip: whether bytes are UTF-8 is a parameter.
- RequestKeeps: the store is one answer per object for the length of a request, which is all a request that asks once can see; slicing a region out of a bundle and parsing a manifest are parameters.
- AnsweredIsSettled: the barrier is modelled for one group, since groups share no cell; the slice of the map each member is told, and the timeout a follower waits for, are not.
- ActsOnAPrefix: the index is represented by the entries folded into it since it was cleared; the expiry heap, retention settings and object lifecycle that read it are not modelled.
- Below: the partition's entries are taken to be ascending and without overlap, as the index keeps them.
- RepliesInOrder: frame bodies are not interpreted, and a response over 2^31-1 bytes ends the connection as it does in the source.
- The legacy (non-flexible) strings, bytes and arrays, 64-bit varints and the message codecs over them: field-by-field layouts over the same primitives.
- The `crc-fast` kernels and the compression codecs: foreign libraries.
- `topics_for_group`, group and topic authorization, fencing and the handlers around these operations: short decisions on top of the state modelled here.
- JoinGroup rounds, the partition sequencer and its index fold, compaction, admin handlers, TLS, SASL, quotas, telemetry and process start-up.
