# Verified model of the peer-to-peer file sharing system

The system is a set of C programs: a server that indexes which peer shares which files, peers that find files through
the server or by flooding a query over their neighbours, and a download that fetches the segments of a file from several
peers at once. This project models the parts that carry its guarantees and proves those guarantees with Dafny.

`dafny verify dfyconfig.toml` checks everything.

## How the model is laid out

Code that changes state step by step is modelled by classes and methods with the same loops, each proved against a
function of its inputs or of the old state; protocols that several threads or machines run are state machines over these
functions, with every interleaving, short read or write, failed call and lost message as an action.

- **Bytes and byte order** (`bytes`, `byteorder`, `texts`): integers as the bytes a machine stores, for either
  endianness, and C strings in fixed fields.
- **Connections** (`framing`, `sockets`): length-prefixed messages over calls that may be interrupted or move part of the
  data.
- **File identity** (`fnv`, `files`): 64-bit FNV-1a (Internet-Draft draft-eastlake-fnv, section 2) over a chunked read.
- **One segment** (`chunks`, `delivery`, `receiver`, `sender`, `listener`, `serving`): the data frames, the receiver
  against any byte stream, the sender's loop and its ERROR reply, and what the receiver makes of them when sends fail.
- **A download** (`segments`, `transfer`, `download`, `failures`, `progress`, `mixture`, `collision`, `paths`): the plan,
  the main thread and one worker for each segment as a state machine, what every interleaving commits, what a failed call
  does, when it ends and when it can succeed, what unchecked assembly lets through, and where the file goes.
- **Flooded search** (`addresses`, `orderedmap`, `seencache`, `neighbors`, `flood`, `hops`, `learning`, `dedup`,
  `coverage`, `singlequery`, `limits`, `ownresults`, `answers`): neighbour lists and seen-query tables, one node's
  handling of a query, the network of nodes with packets in flight, how far a query gets and whom it makes known, and the
  answers on their way back.
- **The server** (`decimals`, `identity`, `grammar`, `registry`, `wire`, `messages`, `servers`, `onwire`, `findpath`,
  `selection`): the registry, the identity term and its grammar, the requests and replies byte for byte, the server's
  handling of any request, the client's reading of the reply, and its choice of peers.

## Where the code does less than one might expect

Each of these is stated and proved, with an input that shows it and the condition under which all is well.

- **An ERROR reply can be taken for data.** When a send fails inside a frame and the ERROR reply that
  `transfer/listener.c:136-141` sends next does go out, the receiver reads the reply's first bytes as the missing end of
  the frame. `Serving.ErrorTakenForData` is such an input, and `Progress.ErrorReplyCommitted` a download that commits it
  without noticing any failure. `Serving.SliceUnlessCorrupted` says exactly when a receiver gets a part of the requested
  slice and nothing else: unless the frame was cut after its length, the reply reaches to the end of it, the header fields
  it makes up for are right, and the data bytes are not. `Serving.CutInData` spells that out for a cut inside the data.
- **A failure can be lost.** `mark_failed` (`transfer/receiver.c:101-107`) does nothing when its lock cannot be taken:
  `Download.LostFailureCommitsWrongFile`. With peers that all hold one content, `Download.CommittedFileIsSource` gives the
  exact condition, range by range, for a successful download to hold that content, under both of these failures.
- **The assembled file is not hashed again.** Where neither failure above occurs, it is a given content if and only if each
  peer's content agrees with it on that peer's range (`Download.CommittedFileIsContent`). Peers whose whole files passed
  the check of hash and size never differ in exactly one byte (`Mixture.ValidatedPeersDiffer`), but two that do collide commit a file with another hash
  than the one asked for (`Mixture.ValidatedPeersCommitWrongFile`).
- **Coverage needs few nodes.** A query is sure to reach every reachable node of every network of n nodes if and only if
  n is at most `min(ttl, 6) + 1` (`CoverageLimits.CoverageExact`), and, with a time to live of 2 or more, the same bound
  is exact even for the nodes two links away, because a copy that comes the long way round uses the query up
  (`CoverageLimits.TwoLinksExact`).
- **A full seen-query table** accepts an id without recording it: `SeenCaches.FullTableAcceptsTwice` accepts one twice in
  the same second. At-most-once needs room (`SeenCaches.RefusedIffRemembered`, `Dedup.AtMostOnce`); termination does not
  (`Flood.FloodTerminates`).
- **A FIND returns 256 files at most**, in registry order, so copies of a file can hide its later owners:
  `Selection.CopiesHideOwners`. The peer in a slot is chosen if and only if its port is not zero, it has a match, and
  fewer than 256 come before it: `Selection.OwnerChosenIff`.
- **Recent peers** are in reverse order of first registration, not of last contact: `Registries.NewestTellsTheOthers`.

## Model

| member | source | states |
|---|---|---|
| Bytes.BigEndianRoundTrip | common/net.c:355-409 | an integer that fits a big-endian field is read back from it |
| Bytes.BigEndianJoin | common/net.c:503-511 | the field of a joined 64-bit number is the two 32-bit fields side by side |
| ByteOrder.NetworkOrderBytes | common/net.c:497-511 | for every 64-bit value, the memory after host_to_net64 is big-endian on either kind of machine |
| ByteOrder.ByteOrderRoundTrip | common/net.c:497-516 | what one machine stores with host_to_net64, a machine of either kind recovers with net_to_host64 |
| ByteOrder.SwapTwice | common/net.c:503-516 | 64-bit byte reversal is an involution |
| Framing.NextOfFrame | common/net.c:355-409 | a framed payload at the head of a stream is received whole if it fits the buffer, otherwise refused |
| Framing.NextOfCutFrame | common/net.c:375-409 | a stream cut inside a frame is an error, and reads as closed only when nothing at all came |
| Framing.FramingRoundTrip | common/net.c:355-409 | any sequence of messages, empty ones included, is received unchanged and in order, then a clean close |
| Framing.TruncatedStream | common/net.c:375-409 | a connection lost after any number of bytes delivers exactly the messages sent in full; the close is clean iff the cut is on a frame boundary |
| Sockets.Socket.RecvAll | common/net.c:328-353 | under interrupts and short reads, fills the buffer unless the peer closed; nothing lost or reordered |
| Sockets.Socket.SendAll | common/net.c:300-326 | under interrupts and short writes, the bytes sent are always a prefix of the data, and all of it on success |
| Sockets.Socket.SendMsg | common/net.c:355-373 | success puts exactly one frame on the wire, failure a prefix of it |
| Sockets.Socket.RecvMsg | common/net.c:375-409 | 1 with exactly the next message, 0 only at a clean close, -1 on a sound connection only for a broken or oversized frame |
| Fnv.HashBytes | common/hash.c:6-23 | the loop computes the fold of the FNV-1a step over the data |
| Fnv.HashFileWithSize | common/hash.c:36-88 | the chunked read returns the one-shot hash and the exact length; fails iff a read or close fails or the length leaves 64 bits |
| Fnv.FoldAppend | common/hash.c:53-76 | the state after two pieces is the second folded into the state after the first, wherever they are cut |
| Fnv.ProductCanBeUndone | common/hash.c:17-20 | multiplying by the prime modulo 2^64 has the inverse 0xce965057aff6957b |
| Fnv.StepSeparates | common/hash.c:17-20 | one round is injective in the state for a fixed byte and in the byte for a fixed state |
| Fnv.SuffixNeverMerges | common/hash.c:17-20 | a common suffix gives equal states iff the states before it were equal |
| Fnv.OneByteChangesHash | common/hash.c:6-23 | contents alike but for one byte have equal hashes iff that byte is equal |
| Chunks.ChunkRoundTrip | transfer/sender.c:107-117 | every encodable data frame is parsed back to its fields and data, whatever the padding holds |
| Chunks.ChunkIff | transfer/receiver.c:145-158 | a frame is taken for a chunk iff it is, byte for byte, what a sender makes of it, up to the padding |
| Chunks.ErrorIsNotChunk | transfer/receiver.c:145-157 | an ERROR reply is never taken for data |
| Delivery.CompleteMeansTiled | transfer/receiver.c:123-177 | a completed segment came from leading frames that tile the range with no gap or overlap, and the data is theirs |
| Delivery.TiledMeansComplete | transfer/receiver.c:123-177 | leading frames that tile the range complete the segment with their data |
| Delivery.SegmentCompleteIffTiled | transfer/receiver.c:123-177 | against any byte stream, success with some data iff the stream opens with frames that tile the range and carry it |
| Serving.FrameAccepted | transfer/receiver.c:145-173 | each frame a sender emits passes every check and adds exactly its bytes |
| Serving.ServedThen | transfer/sender.c:91-124 | the frames that arrive whole deliver their part of the range, and the receiver goes on with what follows |
| Serving.CutThenError | transfer/listener.c:136-141 | from a cut frame and the ERROR reply after it the receiver takes nothing, or the one chunk they make together |
| Serving.StreamDelivers | transfer/receiver.c:123-177 | what a receiver takes from a peer that holds the content, however its sends failed, byte for byte |
| Serving.SliceUnlessCorrupted | transfer/receiver.c:123-177 | it takes a prefix of the requested slice iff no ERROR reply made up for a cut frame with other bytes than the content's; a complete segment is the slice iff so |
| Serving.SafeCuts | transfer/listener.c:136-141 | a cut between frames, a cut with no reply after it, and a cut that lacks more than the reply has do no harm |
| Serving.CutInData | transfer/listener.c:136-141 | a cut that lacks only data bytes does harm iff the reply has as many bytes and the content's there are not the reply's first |
| Serving.StreamPrefix | transfer/receiver.c:145-149 | whatever part of an answer arrives is again such an answer |
| Serving.ErrorTakenForData | transfer/listener.c:136-141 | the failing input: the last byte of a one-byte content not sent, and the reply's first taken for it |
| Receiver.PatchAppend | transfer/receiver.c:76-99 | writing two pieces one after the other is writing them joined |
| Receiver.PartialFile.WriteAllAt | transfer/receiver.c:76-99 | under short writes and interrupts, what is written is a prefix of the data at its offset, all of it on success; no wrap in 64 bits |
| Receiver.ReceiveSegmentFrames | transfer/receiver.c:123-177 | over any stream and write schedule, only the segment's range is written, with a prefix of what the stream delivers, and success means the whole range; no 64-bit sum or difference wraps |
| Sender.ValidateRequestForFile | transfer/sender.c:38-69 | accepts exactly a non-empty range inside a file with the requested hash and size, when hashing does not fail |
| Sender.TransferSendRange | transfer/sender.c:71-127 | for every way reads may be cut, and whatever the file holds when it is opened again, sends whole frames of the range and on failure part of one more; on a sound connection succeeds iff the file matches, opens, reaches the end of the range without a failure and closes |
| Sender.SenderReceiverAgree | transfer/sender.c:91-124 | the frames of any cutting of the range complete the receiver iff the cuts add up to the range, with exactly the bytes sent |
| Listener.RequestRoundTrip | transfer/receiver.c:109-121 | the listener reads from a transfer request the segment the receiver asks for |
| Listener.RequestIff | transfer/listener.c:115-130 | a frame is taken for a request iff it is, byte for byte, what a receiver sends for it |
| Listener.HandleTransferRequest | transfer/listener.c:108-146 | for a valid request the wire always holds an answer as the theorems assume it; on a connection whose calls do not fail no frame is cut, and an ERROR reply follows exactly a failure |
| Segments.PlanSegments | transfer/receiver.c:352-398 | as many segments as there are peers, or as bytes if those are fewer; segment i is the plan's and asked of peer i; the 64-bit arithmetic does not wrap |
| Segments.PlanIsPartition | transfer/receiver.c:352-356 | min(peers, size) non-empty ranges in order without gap or overlap over the whole file, equal shares, the last longer by less than their number |
| Segments.EveryByteHasOneOwner | transfer/receiver.c:389-398 | every byte of the file lies in exactly one planned range |
| Transfer.WorkerStepOk | transfer/receiver.c:179-213 | each step of a worker keeps what it took a prefix of what its peer's stream delivers, and a finished one stored its whole segment |
| Transfer.RangeOwnWrite | transfer/receiver.c:76-99 | a short write extends the stored prefix of the worker's own range |
| Transfer.RangeOtherWrite | transfer/receiver.c:168-172 | a write in another worker's range leaves this range alone |
| Transfer.ReachableInv | transfer/receiver.c:378-451 | in every state of every interleaving each range holds its worker's stored prefix and zeros, and the main thread's position tells what was joined, closed and renamed |
| Download.PlannedJobValid | transfer/receiver.c:352-398 | the job that transfer_request sets up meets the assumptions of the theorems below |
| Download.CommitDiscipline | transfer/receiver.c:413-451 | the descriptor is closed only after all started workers are done; success is exactly one rename; otherwise the final name is as before |
| Download.FrozenAfterClose | transfer/receiver.c:425-434 | after the close no step of any thread changes the file |
| Download.FailureUnlinks | transfer/receiver.c:443-446 | the partial file is there until the download returns, gone after a success, and left behind by a failure exactly when unlink was called and failed |
| Failures.FailureIsFatal | transfer/receiver.c:375-446 | after a failed ftruncate, thread start, fsync, close or rename, or a noticed failure of a worker, no continuation returns success or touches the final name |
| Failures.SuccessTook | transfer/receiver.c:375-438 | a success passed ftruncate, every thread start, fsync, close and rename, and every worker whose failure was not lost connected and asked |
| Download.CommittedRange | transfer/receiver.c:417-438 | each range of a committed file is its worker's stored prefix followed by zeros |
| Download.CommittedFileIsDelivered | transfer/receiver.c:417-438 | against arbitrary peers, a range whose worker's failure was not lost is exactly what its peer's stream completed |
| Download.ScheduleIndependence | transfer/receiver.c:389-433 | two successful runs commit the same bytes, however threads interleave and writes are cut |
| Download.CommittedFileIsMixture | transfer/receiver.c:421-438 | with peers serving different contents, range i is what peer i's answer gives: range i of its content iff no ERROR reply was taken for part of it |
| Download.CommittedFileIsContent | transfer/receiver.c:421-438 | the committed file is a given content iff every answer gives that content's range; without corruption, iff every peer's content agrees with it on its range |
| Download.CommittedFileIsSource | transfer/receiver.c:389-438 | with peers all holding one content, success leaves exactly it iff every range is sound: no ERROR reply taken for data, or, for a lost failure, only right bytes stored and only zeros left |
| Download.LostFailureCommitsWrongFile | transfer/receiver.c:101-107 | a run in which a lost failure commits a file no peer sent |
| Progress.StepsBounded | transfer/receiver.c:312-451 | whatever the schedule and the failures, at most 7 steps, 6 for each segment and 2 for each byte the peers send have any effect |
| Progress.CanAlwaysReturn | transfer/receiver.c:312-451 | from every state of every run, failed ones included, some continuation returns |
| Progress.CanStillComplete | transfer/receiver.c:123-213 | from every state with no failure so far, and streams that complete their segments, some continuation commits |
| Progress.SuccessReachableIff | transfer/receiver.c:312-451 | a commit without lost failures is reachable iff every stream completes its segment and the size is a file offset |
| Progress.HonestPeersDeliver | transfer/receiver.c:312-451 | with peers that hold one content and complete their segments, no reply taken for data, every undisturbed run can be continued to put exactly it under the final name |
| Progress.EveryFileCanBeFetched | transfer/receiver.c:312-451 | every non-empty content is put under the final name by some run, for any number of peers that hold it, through the planned segments and the sender's frames |
| Progress.ErrorReplyCommitted | transfer/listener.c:136-141 | a download of a one-byte file that commits a byte of the ERROR reply with no failure noticed |
| Mixture.ValidatedPeersDiffer | transfer/sender.c:38-69 | contents that passed the check for one request have one length and never differ in exactly one byte |
| Mixture.ValidatedPeersCommitWrongFile | transfer/receiver.c:421-438 | two peers whose files have the hash and size asked for, and a run that commits a file with another hash |
| Collision.MixtureHash | common/hash.c:6-23 | two seven-byte contents of one hash whose mixture has another |
| Paths.NameStaysInFolder | transfer/receiver.c:242-269 | the download name is exactly the last component of the peer's name; the fallback is used iff that is empty or a dot name |
| Paths.FallbackNamesDiffer | transfer/receiver.c:290-296 | the fallback names of two files are equal only for equal sizes and hashes |
| Paths.PathsInFolder | transfer/receiver.c:271-310 | final and partial path differ and both lie directly in the destination folder |
| Paths.PathsAre | transfer/receiver.c:271-310 | the final path is the folder and the last component of the peer's name, or download_S_H if that is no name; the partial path is that and .part; none when they do not fit 4096 bytes |
| Addresses.NormalizeTwice | common/net.c:65-83 | normalising an IPv4-mapped literal (section 2.5.5.2 of RFC 4291) is idempotent |
| Addresses.NormalizeMapped | common/net.c:65-83 | for all a, b, c, d below 256, ::ffff:a.b.c.d becomes a.b.c.d |
| Addresses.NormalizeOther | common/net.c:65-83 | any other text stays as it is |
| Neighbors.SpellingsShareSlot | search/neighbors.c:47-79 | a mapped and a plain spelling of one address take one slot of a neighbour list |
| Neighbors.AddedEntry | search/neighbors.c:62-79 | an addition leaves one entry of the address with the time of the addition and every other entry as it was; it is refused only when 16 others are listed |
| SeenCaches.SeenCache.Purge | search/flood.c:45-53 | the in-place compaction leaves the unexpired entries in order |
| SeenCaches.SeenCache.CheckAndRegister | search/flood.c:36-73 | new iff the lock is got and no unexpired entry has the id; recorded iff new and there is room |
| SeenCaches.TableHoldsRemembered | search/flood.c:45-69 | over any history of checks the table holds exactly the recorded ones not expired since |
| SeenCaches.RefusedIffRemembered | search/flood.c:36-73 | with any clock, refused iff an earlier check of the id was recorded and none since came 60 s or more after it |
| SeenCaches.KeysAgree | search/flood.c:57 | two ids are the same iff equal or alike in their first 16 characters |
| SeenCaches.AcceptedTwice | search/flood.c:36-73 | under a clock that never goes back, accepted twice means 60 s apart or a full table the first time |
| SeenCaches.TableInvariant | search/flood.c:36-73 | at most 1000 entries, ids distinct, in order of expiry, all along |
| SeenCaches.FullTableAcceptsTwice | search/flood.c:63-69 | a burst of 1000 ids after which one id is accepted twice in the same second |
| OrderedMaps.TableIsOrderedMap | search/neighbors.c:62-79 | after any history of insertions: the first distinct keys in order of first appearance, each once, each with its latest value |
| Neighbors.NeighborList.Add | search/neighbors.c:35-82 | the in-place loop is the bounded insertion of the normalised address; fails iff new and full, or the lock is not got |
| Neighbors.NeighborList.Snapshot | search/neighbors.c:84-104 | the first entries up to the capacity, none without the lock |
| Neighbors.AddedKeepsAll | search/neighbors.c:62-79 | an addition never drops or reorders a neighbour; the new one is in iff known or room |
| Flood.FloodNode.ForwardQuery | search/flood.c:223-268 | one copy to each listed neighbour but the sender, time to live clamped to 6 then lowered by one, none at zero |
| Flood.FloodNode.HandleQuery | search/flood.c:124-192 | a query is handled iff new, with the new state and the copies sent, of which Learning.OriginLearnt tells the neighbours |
| Learning.OriginLearnt | search/flood.c:127-137 | an accepted query with a usable origin puts it, normalised, on the list iff it was there or fewer than 16 were; any other query leaves the list alone |
| Learning.OriginIsTarget | search/flood.c:188-191 | the copies of a query go to its origin too, once that is listed |
| Learning.AccepterKnowsOrigin | search/flood.c:127-137 | in every run from rest, every node that accepted a query lists its origin or is full, at every moment since |
| Flood.StepLoad | search/flood.c:230-265 | every delivery lowers the owed deliveries, on any topology and with any caches |
| Flood.FloodTerminates | search/flood.c:230-265 | deliveries plus owed deliveries never exceed the start plus 16 + 16^2 + ... + 16^6 for each query |
| Hops.StepHops | search/flood.c:233-241 | each step keeps ttl + hops = min(initial ttl, 6) and every packet on a forwarding path |
| Hops.HopBound | search/flood.c:223-268 | in every reachable state a query is accepted only along a forwarding path from its origin of at most min(ttl, 6) hops |
| Dedup.RegisterMarks | search/flood.c:55-69 | in the window a node with room accepts the id iff it has not before, and then has it on record |
| Dedup.AtMostOnce | search/flood.c:36-73 | with room and no expiry each node accepts a query at most once, and the origin never its own |
| Coverage.PathIsGroup | search/flood.c:237-239 | a query that arrives used up has already visited the whole group on its simple path |
| Coverage.AccepterSettled | search/flood.c:243-265 | an accepting node has a copy on the way to every live neighbour it lists, or the whole group has accepted |
| Coverage.FloodCovers | search/flood.c:223-268 | when no copy is in flight, every node reachable at the start has accepted, for at most min(ttl, 6) + 1 nodes, over any order of delivery and neighbours learnt meanwhile |
| Coverage.SmallNetworkCovered | search/flood.c:223-268 | in a network of at most min(ttl, 6) + 1 nodes every node reachable at the start accepts |
| SingleQuery.FreshNetworkRunsOut | search/flood.c:223-268 | in any network that has seen no query, a query has a run to rest with no loss, no expiry and room everywhere |
| CoverageLimits.LineEndMissed | search/flood.c:233-241 | no run along a line of min(ttl, 6) + 2 or more nodes reaches its end |
| CoverageLimits.CoverageExact | search/flood.c:223-268 | every run that ran out covers all reachable nodes of every network of n nodes iff n is at most min(ttl, 6) + 1 |
| CoverageLimits.TwoLinksExact | search/flood.c:233-241 | for a ttl of 2 or more, the same bound is exact for the nodes two links from the origin |
| OwnResults.DropOwn | search/neighbors.c:164-178 | the in-place compaction keeps exactly the results of other owners in order |
| OwnResults.ForeignKeepsOthers | search/neighbors.c:164-178 | every result of another owner is kept as often as it came, every own one dropped |
| Answers.AnswerQuery | search/flood.c:143-159 | the loop finds the first 256 matching shared files under the node's own address |
| Answers.AnswerFlood | search/flood.c:124-192 | a query is answered and passed on iff new, and answered iff the folder can also be read |
| Answers.AnswerIff | search/flood.c:145-159 | a node's answer is exactly its shared files whose names contain the term |
| Answers.AnswerRoundTrip | search/flood.c:150-218 | the answer is read at the origin as it was found, whatever the byte orders, up to the form of the address |
| Answers.AnswerBytes | search/flood.c:139-174 | an answer as bytes |
| Answers.AnswersOnly | search/flood.c:194-209 | a message is an answer exactly when it has opcode 8 and holds the records it announces, and then as many are read as announced |
| Answers.Aggregator.HandleAnswer | search/flood.c:194-219 | the results gathered are extended, in order and up to 256, by those decoded from a message that holds all it announces |
| Answers.ReadIff | search/flood.c:143-219 | what the origin decodes from a node's answer is exactly that node's files with the term in their names, under its normalised address |
| Answers.ResultsIff | search/neighbors.c:160-178 | every result is decoded from a node's answer and another owner's; with at most 256 answers, all of them are there |
| Answers.SearchFindsEverything | search/neighbors.c:126-181 | where coverage holds and all answers arrive, the search returns, decoded, every matching file of every reachable node |
| Identity.SkipIdentitySeparator | server/query_handler.c:157-163 | the cursor stops at the first character that is no separator |
| Identity.ParseIdentityFindTerm | server/query_handler.c:165-233 | the cursor code parses every string as the function that TermGrammar.ParseTermIff characterises |
| TermGrammar.ParseTermIff | server/query_handler.c:134-233 | a term is an identity, and of which file, iff its characters split into an optional tag, a number, separators, an optional matching tag, a number and separators to the end; white space, signs, overflow and case included |
| Decimals.DecimalOfPrint | client/repl.c:208-212 | the value of a printed number is the number |
| Decimals.PrintOfDecimal | client/repl.c:208-212 | digits without a leading zero are what their value prints as |
| Identity.NumberAt | server/query_handler.c:134-155 | a printed 64-bit number not followed by a digit is read whole, from any position |
| Identity.ParsePlain | server/query_handler.c:217-232 | two plain numbers with any separators around them are size and hash |
| Identity.ParseTagged | server/query_handler.c:176-215 | tagged forms in either order and case, with any separators, give the same pair |
| Identity.IdentityRoundTrip | client/repl.c:201-219 | for all 64-bit sizes and hashes the client's term fits its buffer and the server reads back the pair |
| Registries.Registry.RegisterPeer | server/registry.c:37-91 | updates the peer's slot in place or takes the next one; fails iff new and full or the lock is not got, changing nothing |
| Registries.Registry.Find | server/registry.c:93-153 | the nested loops return the first `capacity` elements of the filtered flattening; nothing without the lock |
| Registries.Registry.RecentPeersExcept | server/registry.c:162-193 | the first `capacity` peers from the last slot back, without the excluded one; none without the lock |
| Registries.FilterFlattenPrefix | server/registry.c:110-117 | matches of earlier slots come before all others |
| Registries.NewestTellsTheOthers | server/registry.c:180-189 | the peers told are exactly all others, one for each slot, last slot first |
| Registries.RegistryRefinesMap | server/registry.c:57-88 | after any history: the first 64 distinct peers in order, each with what it registered last, every file carrying its owner |
| Texts.FieldText | client/server_api.c:31-40 | a string that fits its buffer is read back whole |
| Wire.FieldRoundTrip | server/query_handler.c:106-132 | an integer field has the same bytes on every machine and is read back by every machine |
| Wire.FileRoundTrip | client/server_api.c:72-96 | a record is decoded as encoded by the server, and by the client up to the form of the address |
| Wire.PeerRoundTrip | client/server_api.c:98-110 | the same for a peer entry |
| Wire.RowAt | server/query_handler.c:344-346 | row i of a table of records starts where the rows before it end |
| Messages.HeaderRoundTrip | client/server_api.c:42-70 | a header is decoded as encoded, across machines |
| Messages.HeadersAgree | transfer/sender.c:30-36 | control messages and transfer frames have the same header bytes |
| Messages.MessageIsSound | client/server_api.c:112-147 | every message one side sends passes the header checks of the other |
| Messages.RegisterRoundTrip | client/server_api.c:168-176 | the server reads from a registration the port and the first 256 files the client scanned |
| Messages.FilesReplyRoundTrip | client/server_api.c:241-258 | the client reads from a FIND reply the files the server put in, in order |
| Messages.PeersReplyRoundTrip | client/server_api.c:194-204 | the client reads from a registration reply the peers the server put in |
| Messages.HeaderBytes | client/server_api.c:42-48 | a header is the opcode, version 1 and the length, big-endian |
| OnWire.SoundIff | client/server_api.c:112-147 | a header is sound iff it has 8 bytes, version 1 and the length of what follows |
| OnWire.MessagesBegin | common/protocol.h:35-51 | the first eight bytes of each message between clients and server |
| OnWire.RepliesAccepted | client/server_api.c:241-258 | a reply is accepted iff it has the opcode, the one length and a count within the limit |
| OnWire.FileBytes | common/protocol.h:53-59 | a file record is its five fields in order, integers big-endian |
| OnWire.PeerBytes | common/protocol.h:61-65 | a peer record likewise |
| OnWire.Refused | server/query_handler.c:235-416 | which error code answers which fault of a request, by its bytes, with the registry unchanged |
| Servers.SendResults | server/query_handler.c:341-348 | the reply filled in place, record by record over a zeroed frame, is the encoding of the results |
| Servers.SendRecentPeers | server/query_handler.c:299-306 | the same for the peers told |
| Servers.HandleFind | server/query_handler.c:309-349 | the reply holds the first 256 files that the term asks for, by its characters; an empty term is refused |
| Registries.ContainsIff | server/registry.c:113 | a name matches a term iff it is some text, the term, and some text |
| Servers.ChosenIff | server/query_handler.c:324-339 | the criterion used matches a file iff the term is its identity, or is no identity at all and stands in its name |
| Servers.ChosenSelects | server/query_handler.c:324-339 | the files found are those asked for, in the order of the registry |
| Servers.HandleRegister | server/query_handler.c:247-307 | registry and reply after a registration, with its three error replies |
| Servers.HandleRequest | server/query_handler.c:351-416 | registry and reply for any bytes received; every malformed request gets its error and changes nothing |
| FindPath.ServerFindFiles | client/server_api.c:209-260 | over interrupted and short calls, the results are exactly those of the reply that passes every check, and success iff there is one |
| FindPath.DecodedFits | server/query_handler.c:106-114 | whatever bytes a record holds, what the server keeps of it fits the fields it is later sent in |
| FindPath.ServedStep | server/query_handler.c:351-416 | any request leaves the registry alone or is exactly one registration of the requesting address |
| FindPath.ReachableTable | server/query_handler.c:351-416 | after any requests, well-formed or not, the registry is the ordered map of some history of registrations and every record fits |
| FindPath.FindEndToEnd | client/server_api.c:209-260 | after any run of requests, a client of any byte order reads exactly the first 256 registered files its term asks for, by its characters, in order, through the framing, or nothing when the lock is not got |
| FindPath.ReadIsAskedFor | server/registry.c:93-153 | every file read is registered and asked for, all of those when fewer than 256 are read; for a term that is no identity that means its text stands in the name |
| FindPath.RegisterEndToEnd | client/server_api.c:149-207 | a registration is stored as scanned, and the client is told exactly the other peers, unless the registry is full or its lock is not got; with only the second lock missing it is stored and nobody is told |
| FindPath.FoundAreRegistered | server/registry.c:93-153 | every result was in its owner's last registration and matches; with at most 256 matches nothing is missing |
| Selection.FirstsAreDistinctOwners | client/repl.c:92-104 | the peers chosen are the distinct owners in order of first appearance |
| Selection.PickedOwners | client/repl.c:106-138 | a peer is chosen iff some result offers the file from its address on a non-zero port; each once |
| Selection.FirstNameIs | client/repl.c:130-132 | the source name is the first non-empty name among the chosen results |
| Selection.CollectCachedPeers | client/repl.c:106-138 | the array filled in place is the chosen owners up to capacity, the source name the first name among them |
| Selection.Session.RefreshIdentityPeers | client/repl.c:221-260 | the client asks for the size and hash; the peers come from the server's reply, which is remembered iff it offers the file |
| Selection.Session.SelectPeers | client/repl.c:339-375 | the peers the server names now, or else those in the results remembered |
| Selection.RequestFindsOwners | client/repl.c:221-260 | after any run of requests, the owners chosen are exactly those of the first 256 registered files with that size and hash |
| Selection.SlotAnswered | server/registry.c:141-149 | a slot has a file among the first 256 matches iff it has a match and fewer than 256 come before |
| Selection.OwnerChosenIff | client/repl.c:221-260 | the peer in slot i is chosen iff its port is not zero, it has a match, and the slots before have fewer than 256 |
| Selection.AllOwnersFound | client/repl.c:339-375 | with at most 256 matches, chosen iff among the first 64 peers and its last registration offers the file |
| Selection.CopiesHideOwners | server/registry.c:141-149 | two registrations, the first of 256 copies: the second peer has the file and is not chosen |

## Left out

- Connecting, retrying, name resolution, accepting and creating threads: outcomes of calls are parameters of the model.
- Walking the shared folder for a file of a given hash and size (`client/scanner.c`, `transfer/sender.c:129-214`): whether
  one is found is a parameter.
- The command line, usage texts, logging and the parsing of typed commands.
- Unlocking and creating a lock are taken to succeed, and each locked section is one step.
- Query ids are given and not drawn at random; clocks are parameters.
- Struct layout: the usual natural alignment is assumed (records of 320 and 56 bytes, tables after 8 bytes, the data
  header of 32 bytes).
- `inet_pton` and `inet_ntop` are modelled as the strict dotted decimal form, which they keep.
- Two downloads of the same file at the same time share a partial path; the model has one download.
- A node of the flood is identified by its listening address, and its handling of one query is one step.
- The term of a query is the same in all its copies, so the flood model carries only the id.
- A node that cannot read its folder, or finds nothing, sends no answer; to the origin that is an empty one.
- Flood.FloodNode.HandleQuery: its locks are taken to be got; not to get the first is to lose the packet, and not to get
  the others is to learn nobody or to pass nothing on. The answer is added by Answers.AnswerFlood.
- Answers.Aggregator.HandleAnswer: the lock is taken to be got for every record, and a message that announces more records
  than it holds is taken for no answer, where the code reads beyond it.
- Answers.DecodeAnswer: a name field without a terminator is outside the model.
- Answers.SearchFindsEverything: results are not tied to the current query by the code, so the theorem is about one search
  in the network.
- Registries.Registry.RegisterPeer: addresses of 46 characters or more are excluded, as the address buffer excludes them.
- Messages.DecodeRegister: a text field without a terminator is read up to its last byte but one, as the copy keeps it.
- FindPath.RegisterEndToEnd: the text the client prints for an ERROR reply is not modelled, only that the call fails.
