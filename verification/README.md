# RustBT in Dafny

A model of the hard parts of RustBT, a set of BitTorrent crates, and proofs of what they promise.
`dafny verify dfyconfig.toml` checks the whole project.

| files | part of the system |
|---|---|
| `PieceBuffer`, `Hasher`, `HasherRuns` | the parallel piece hasher of the metainfo builder: a master, its workers, their queue, channel and buffer pool, as steps that interleave in any order |
| `NodeId`, `Node`, `Bucket`, `RoutingTable`, `RoutingRuns`, `RoutingSplits` | the Kademlia routing table: XOR distance, shared prefixes, replacement in a bucket, recursive splitting |
| `ClosestNodes`, `ClosestCoverage` | the iterator that zig-zags over the table from a target's bucket outwards |
| `Decimal`, `Bencode`, `BencodeLoops`, `BencodeRoundTrip`, `BencodeExact`, `BencodeSound` | the bencode decoder and encoder |
| `Lookup`, `LookupRuns` | the iterative DHT lookup |
| `UtMetadata`, `UtMetadataRuns`, `UtMetadataPanics` | downloading metadata from peers, piece by piece |
| `AnnounceStorage` | the store of announced contacts |
| `Shuffle`, `Transaction`, `Token` | transaction ids and announce tokens of the DHT |
| `AnnounceOptions` | the options of a UDP tracker announce |
| `BitField`, `Reveal` | telling peers which pieces we have |
| `Handshake` | the handshake message and the reader that takes exactly its bytes from a socket |

How the pieces fit together:

- Code that changes state is a class whose methods, with the loops of the original, are proved equal to a
  function on values (`View`, `Contents` or `Remaining` gives the value of an object). The laws are lemmas
  about those functions, and over whole runs: an event is one call or one step of one thread, and a run is
  any sequence of them.
- SHA-1 is a function parameter; nothing is assumed of it. Random numbers, the iteration order of hash maps
  and sets, generated ids, the number of bytes a read delivers, whether a message can be sent or a timer set
  and the thread that moves next are parameters of the events, so every lemma holds for all of them.
- A panic, a failed lookup and a broken socket are outcomes like any other.
- Time is a parameter, and one call reads the clock once (an announce reads it twice, as the original does).
- `hide` statements keep the verifier from unfolding definitions that a proof does not need; they have no
  effect on what is stated.

What the proofs found out about the code:

- The bit iterator compares an unmasked byte, so it reports a bit wrongly exactly if an earlier bit of the
  same byte is set too (`NodeIds.UnmaskedIsExact`). Counting a common prefix stops before that matters
  (`NodeIds.LeadingBitCount`).
- A Good newcomer takes the first slot of lower status, even if that holds a Questionable node and a slot
  further on is unused (`Buckets.PlaceKeepsLive` says exactly when a node is lost). For the same reason a split
  loses a Questionable node exactly if a Good one for the same half stands behind it
  (`RoutingSplits.SplitKeepsLive`). Good nodes are never lost (`RoutingRuns.AddedKeeps`).
- The decoder accepts a plus sign before integers and key lengths. Re-encoding is byte for byte the same
  exactly without one (`BencodeExact.EncodedAgain`).
- The comment at `bip_dht/src/token.rs:20-24` promises tokens a life of 10 to 20 minutes. It is 10 to 30 less
  a millisecond, because the time of the lazy refresh, not that of the interval, is kept; both bounds are
  exact to the millisecond. `Tokens.ExactLifetime` says when exactly a secret is forgotten.
- A download of metadata panics exactly in three cases: the first size told of a wanted hash is negative; a
  hash becomes wanted whose recorded size is negative; or a download turns out wrong whose recorded size has
  become negative since it started (`UtMetadataPanics.EveryPanic`). Everything else that lying peers can do
  leaves its counts right.
- A piece length of zero is accepted and gives one hash of nothing for each region
  (`HasherRuns.ZeroLengthHashesNothing`).
- Announce options survive exactly if their keys are at least 2 and none is empty
  (`AnnounceOptions.RoundTrip`, and `AnnounceOptions.SomeOptionsAreLost` for one of each kind).
- Piece indices are sent in 32 bits, so peers know exactly our pieces if and only if we have none beyond
  2^32 (`Reveals.PeersKnowOurPieces`). A bit field is only as long as its last set bit needs.
- A custom protocol named "BitTorrent protocol" comes back as the standard one, and nothing else changes in a
  handshake (`Handshakes.RoundTrip`, `Handshakes.DisguiseIsLost`).
- The comment at `bip_dht/src/storage.rs:73-75` says that a known contact is replaced; its item stays and only
  its entry in the expiry queue is renewed. The map from contacts to times cannot tell the difference
  (`AnnounceStorages.AnnounceStorage.Add`).
- Expired contacts are looked for at the head of the queue only. That finds all of them if and only if none
  stands behind one that has not expired (`AnnounceStorages.PrefixIsAllExpired`), which is always so unless
  the wall clock goes back (`AnnounceStorages.ClockGoingBackKeepsExpired`).

## Model

| member | source | states |
|---|---|---|
| PieceBuffers.PieceBuffer.WriteBytes | bip_metainfo/src/builder/buffer.rs:63-70 | what a read delivers is appended to the contents, and earlier contents stay |
| PieceBuffers.PieceBuffer.IsWhole | bip_metainfo/src/builder/buffer.rs:73-75 | true exactly if the contents have the length of a piece |
| PieceBuffers.PieceBuffer.AsSlice | bip_metainfo/src/builder/buffer.rs:83-85 | the bytes to be hashed are the contents, without the unused rest of the buffer |
| PieceBuffers.PieceBufferPool.constructor | bip_metainfo/src/builder/buffer.rs:16-25 | two empty buffers per worker, none sharing storage |
| PieceBuffers.PieceBufferPool.Checkin | bip_metainfo/src/builder/buffer.rs:28-32 | the buffer comes last in the queue and is empty again |
| PieceBuffers.PieceBufferPool.Checkout | bip_metainfo/src/builder/buffer.rs:35-37 | the first buffer leaves the queue, empty and not aliased by any that stays |
| Hasher.SortSorts | bip_metainfo/src/builder/worker.rs:156-157 | the collected hashes end up ascending and are a permutation of what was collected |
| Hasher.AscendingUnique | bip_metainfo/src/builder/worker.rs:156-157 | so the result does not depend on the order in which workers delivered |
| Hasher.CutIsChunks | bip_metainfo/src/builder/worker.rs:91-139 | cutting regions with a carried buffer is chunking their concatenation |
| HasherRuns.InvStep | bip_metainfo/src/builder/worker.rs:91-201 | every step of any thread keeps buffers, hashes and the shutdown counts conserved |
| HasherRuns.CheckoutNeverStuck | bip_metainfo/src/builder/worker.rs:94-109 | whenever the master waits for a buffer and the pool is empty, some worker can move, whatever the piece length |
| HasherRuns.NeverStuck | bip_metainfo/src/builder/worker.rs:86-201 | in every reachable state some step other than a failing access or read is possible, until the master returns |
| HasherRuns.EveryRun | bip_metainfo/src/builder/worker.rs:77-201 | for all inputs, piece lengths, worker counts, short reads and interleavings: a finished run returns exactly the hash of each piece with its index, in order; an unfinished one can go on without a failure; and no run is longer than a bound fixed at the start |
| HasherRuns.ZeroLengthHashesNothing | bip_metainfo/src/builder/worker.rs:91-139 | with piece length zero, every finished run returns one hash of nothing per region |
| HasherRuns.RegionsAreChunked | bip_metainfo/src/builder/worker.rs:91-160 | entry i is the hash of the i-th piece_length bytes of all regions together, the last piece being shorter |
| HasherRuns.BuffersInEveryRun | bip_metainfo/src/builder/worker.rs:91-127 | in every reachable state no buffer is lost; none is full when a read starts, and a read of nothing happens only at the end of a region, if and only if the piece length is positive |
| NodeIds.BitXor | bip_util/src/sha/mod.rs:72-82 | the loop computes the bytewise XOR |
| NodeIds.LessIsNumeric | bip_util/src/sha/mod.rs:12-16 | comparing hashes byte by byte is comparing the numbers they spell |
| NodeIds.Bits.Next | bip_util/src/sha/mod.rs:151-170 | advances by one bit until 160 and reports the unmasked comparison |
| NodeIds.UnmaskedIsExact | bip_util/src/sha/mod.rs:158-166 | the report is the bit exactly if the bit is unset or no earlier bit of its byte is set |
| NodeIds.UnmaskedIsWrongLater | bip_util/src/sha/mod.rs:158-166 | an id for which the report is wrong |
| NodeIds.LeadingBitCount | bip_dht/src/routing/table.rs:158-162 | is the length of the common bit prefix |
| NodeIds.SharedAllIsEqual | bip_dht/src/routing/table.rs:83-94 | 160 common bits if and only if the ids are equal |
| NodeIds.LongerPrefixIsCloser | bip_dht/src/routing/table.rs:285-299 | the longer common prefix with a target is strictly closer to it by XOR |
| NodeIds.SameBucketIsCloser | bip_dht/src/routing/table.rs:285-299 | whoever shares the target's bucket is strictly closer to it than whoever does not |
| Nodes.BadUnlessReal | bip_dht/src/routing/node.rs:146-156 | a node that never responded is Bad |
| Nodes.GoodAfterResponse | bip_dht/src/routing/node.rs:209-226 | whatever happens to it afterwards, a node that responds is Good for fifteen minutes |
| Nodes.BadAfterTwoRequests | bip_dht/src/routing/node.rs:230-250 | two unanswered requests turn a Questionable node Bad for good |
| Nodes.StatusOnlyFalls | bip_dht/src/routing/node.rs:146-156 | without contact, time makes no node better |
| Buckets.Bucket.AddNode | bip_dht/src/routing/bucket.rs:65-94 | the array becomes what offering the node to its contents gives, with the right answer |
| Buckets.PlaceChangesOneSlot | bip_dht/src/routing/bucket.rs:65-94 | at most one slot changes, to the new node; a Bad node changes nothing |
| Buckets.PlaceRefuses | bip_dht/src/routing/bucket.rs:82-93 | refused only by eight nodes at least as good, none of them the same |
| Buckets.PlaceAccepts | bip_dht/src/routing/bucket.rs:71-92 | an accepted node is in the bucket afterwards with no lower status |
| Buckets.PlaceKeepsGood | bip_dht/src/routing/bucket.rs:65-94 | no Good node is dropped |
| Buckets.PlaceKeepsDistinct | bip_dht/src/routing/bucket.rs:71-80 | no node gets in twice |
| Buckets.PlaceKeepsLive | bip_dht/src/routing/bucket.rs:82-92 | a node that is not Bad is dropped if and only if it is Questionable, the first below Good, and a Good stranger comes |
| Buckets.QuestionableCanBeLost | bip_dht/src/routing/bucket.rs:82-92 | this happens although a slot is unused |
| RoutingTables.RoutingTable.AddNode | bip_dht/src/routing/table.rs:83-94 | the buckets in place become what inserting into their contents gives; the mutual recursion ends |
| RoutingTables.RoutingTable.BucketNode | bip_dht/src/routing/table.rs:97-108 | offer, and split and try again, ending because buckets only grow to 160 |
| RoutingTables.RoutingTable.SplitBucket | bip_dht/src/routing/table.rs:113-135 | splits exactly the last bucket and only below 160; then all its nodes are inserted again |
| RoutingRuns.SplitKeeps | bip_dht/src/routing/table.rs:113-135 | splitting keeps the order and loses no Good node, since both halves have room |
| RoutingSplits.SplitKeepsLive | bip_dht/src/routing/table.rs:113-135 | a split loses a node that is not Bad if and only if, in the old bucket, a Good node that no filler is equal to stands behind a Questionable one that goes to the same new bucket |
| RoutingSplits.FilledInOrder | bip_dht/src/routing/bucket.rs:65-94 | nodes that no Good one overtakes fill an empty bucket from the front, in order |
| RoutingSplits.SplitShares | bip_dht/src/routing/table.rs:126-132 | after a split the two new buckets are what filling empty ones with their share of the nodes gives, and the others are as before |
| RoutingRuns.AddedKeeps | bip_dht/src/routing/table.rs:83-141 | an insertion keeps the order and all Good nodes; a node gets in unless its bucket is unsplittable and full of nodes as good |
| RoutingRuns.EveryRunOrdered | bip_dht/src/routing/table.rs:83-141 | after every sequence of insertions and contacts: 1 to 160 buckets, real nodes of bucket i share exactly i bits with us, those of the last at least that many, none has our id, and no further insertion loses a Good node |
| RoutingRuns.NoNodeTwice | bip_dht/src/routing/bucket.rs:71-80 | equal nodes never sit in two slots of the table |
| Closest.ZigZag | bip_dht/src/routing/table.rs:397-447 | each move visits one index not visited before, until none is left |
| Closest.ClosestNodes.constructor | bip_dht/src/routing/table.rs:285-299 | what remains to be yielded is all of the zig-zag from the target's index |
| Closest.ClosestNodes.Next | bip_dht/src/routing/table.rs:304-340 | yields the first of what remains and leaves the others, and stops only when nothing remains |
| Closest.ClosestNodes.NextAssorted | bip_dht/src/routing/table.rs:316-328 | marking an assorted node as returned takes it, and no other, from what remains |
| ClosestCoverage.YieldsAll | bip_dht/src/routing/table.rs:284-439 | for every target, our own id included, each Good or Questionable node of the table is yielded exactly once |
| ClosestCoverage.NearestBucketFirst | bip_dht/src/routing/table.rs:284-340 | the target's own bucket comes first, and every node of it is strictly closer than every later one |
| Decimal.ParsePrinted | bip_bencode/src/reference/decode.rs:66-69 | all 64-bit integers are parsed from their decimal print |
| Decimal.PrintParsed | bip_bencode/src/reference/decode.rs:46-69 | text without plus sign or needless zero is what printing its value gives |
| BencodeLoops.DecodeValue | bip_bencode/src/reference/decode.rs:9-35 | the recursive descent with its loops computes the specified result, errors and positions included |
| BencodeLoops.FillList | bip_bencode/src/reference/decode.rs:93-111 | the loop collects the items of the list in order, or the first error |
| BencodeLoops.FillDict | bip_bencode/src/reference/decode.rs:113-144 | the loop collects the entries, or the first error of syntax, order or duplication |
| BencodeLoops.ByteVec.EncodeValue | bip_bencode/src/mutable/encode.rs:7-15 | appends the encoding and changes nothing before it |
| BencodeLoops.ByteVec.EncodeList | bip_bencode/src/mutable/encode.rs:33-42 | appends the encodings of all items between the marks |
| BencodeLoops.ByteVec.EncodeDict | bip_bencode/src/mutable/encode.rs:44-57 | appends the entries in key order between the marks |
| BencodeRoundTrip.SortAscends | bip_bencode/src/mutable/encode.rs:46-48 | distinct keys come out strictly ascending |
| BencodeRoundTrip.ValueAt | bip_bencode/src/reference/decode.rs:9-143 | an encoding decodes to its value wherever it stands, whatever the options, or fails for its depth |
| BencodeRoundTrip.RoundTrip | bip_bencode/src/mutable/encode.rs:7-57 | every value with distinct keys decodes from its encoding, consuming all of it, if and only if its depth is within the limit |
| BencodeRoundTrip.RoundTripSorted | bip_bencode/src/mutable/encode.rs:7-57 | with sorted dictionaries the very same value comes back |
| BencodeExact.DecodeLocal | bip_bencode/src/reference/decode.rs:9-143 | decoding depends on nothing but the bytes of the value |
| BencodeExact.EveryBufferExact | bip_bencode/src/reference/bencode_ref.rs:50-58 | the buffer of every value, however deep, alone decodes to just that value |
| BencodeExact.ValueFits | bip_bencode/src/reference/decode.rs:9-143 | re-encoding is never longer, and as long only if equal, which is so exactly without plus signs |
| BencodeExact.EncodedAgain | bip_bencode/src/reference/bencode_ref.rs:39-48 | input accepted with key order and full decode re-encodes to the same bytes if and only if no number in it has a plus sign |
| BencodeExact.PlusIsLost | bip_bencode/src/reference/decode.rs:66-69 | an accepted input that re-encodes differently |
| BencodeSound.ValueIsSound | bip_bencode/src/reference/decode.rs:9-143 | whatever is accepted fits 64 bits, has its dictionaries in key order without duplicates, and nests within the limit |
| BencodeSound.AcceptedNormalizes | bip_bencode/src/reference/bencode_ref.rs:39-48 | under any options, an accepted value encodes to bytes that are accepted as the same value and encode to themselves |
| Lookups.InsertClosestNodes | bip_dht/src/worker/lookup.rs:475-494 | the array becomes what placing the node into its contents gives |
| Lookups.PickIterateNodes | bip_dht/src/worker/lookup.rs:454-471 | the slots after all nodes of a response were offered |
| Lookups.InsertSorted | bip_dht/src/worker/lookup.rs:499-520 | keeps the list ordered by distance, loses nothing and contains the node |
| Lookups.TableLookup.New | bip_dht/src/worker/lookup.rs:66-114 | the new lookup, its list in order, or none if and only if its first round fails |
| Lookups.TableLookup.StartRequestRound | bip_dht/src/worker/lookup.rs:328-380 | every node of the round gets a request under its own id; a round of none ends all requests; the first timer or message that fails ends the round and is reported, with what was done before it |
| Lookups.TableLookup.StartEndgameRound | bip_dht/src/worker/lookup.rs:382-431 | without values, every node not yet asked gets a request and is marked; the timer or the first message that fails ends the round and is reported, with what was done before it |
| Lookups.TableLookup.RecvResponse | bip_dht/src/worker/lookup.rs:120-241 | the new state and the status, for expected and unexpected responses, before and in the endgame, and where a message or timer fails |
| Lookups.TableLookup.RecvTimeout | bip_dht/src/worker/lookup.rs:243-267 | the new state and the status, failure of the endgame included |
| Lookups.TableLookup.RecvFinished | bip_dht/src/worker/lookup.rs:269-318 | the lookup is over and the nodes announced to are returned; the status is a failure if and only if one of those announces could not be sent |
| LookupRuns.CloserMeansRequest | bip_dht/src/worker/lookup.rs:170-189 | slot 0 holds the closest node not asked before, at the next distance to beat, so a round that got closer is not empty |
| LookupRuns.PickedFrom | bip_dht/src/worker/lookup.rs:185-187 | only nodes of the response that were not asked before are asked |
| LookupRuns.CloserRound | bip_dht/src/worker/lookup.rs:216-227 | one to three requests, together of less energy than the one answered |
| LookupRuns.ResponseProgress | bip_dht/src/worker/lookup.rs:131-241 | every awaited response fails, starts the endgame, or lowers the sum of 4^distance and leaves a request under way |
| LookupRuns.TimeoutProgress | bip_dht/src/worker/lookup.rs:243-267 | so does every timeout |
| LookupRuns.EndgameOnlyShrinks | bip_dht/src/worker/lookup.rs:216-235 | in the endgame nothing more is requested |
| LookupRuns.ReachesEndgame | bip_dht/src/worker/lookup.rs:120-267 | in every run of a lookup with a request under way that does not fail: it never stalls before its endgame, and is in it once a number of awaited events fixed at the start have happened |
| LookupRuns.StrayChangesNothing | bip_dht/src/worker/lookup.rs:133-137 | events with unknown ids change nothing |
| LookupRuns.AnnouncesClosest | bip_dht/src/worker/lookup.rs:277-307 | no node with a token that is not announced to is closer than one that is; fewer than the limit means all |
| LookupRuns.NewLookup | bip_dht/src/worker/lookup.rs:76-113 | a new lookup has asked exactly the four closest of the nodes it took from the table, or all if fewer, and is under way if and only if there was one |
| UtMetadata.PendingInfoFromMetadataSize | bip_select/src/discovery/ut_metadata.rs:456-477 | one message for each piece of the size, the last one shorter; a panic if and only if the size is negative |
| UtMetadata.UtMetadataModule.AddPeer | bip_select/src/discovery/ut_metadata.rs:145-163 | the peer is filed under its hash; the first size told stays |
| UtMetadata.UtMetadataModule.RemovePeer | bip_select/src/discovery/ut_metadata.rs:166-180 | the peer goes, and with the last one the entry and its size |
| UtMetadata.UtMetadataModule.ApplyTick | bip_select/src/discovery/ut_metadata.rs:182-216 | expired requests go back to their downloads and their peers are dropped; the others age |
| UtMetadata.UtMetadataModule.DownloadMetainfo | bip_select/src/discovery/ut_metadata.rs:218-224 | the hash is wanted from now on, and what was known of it stays |
| UtMetadata.UtMetadataModule.RecvData | bip_select/src/discovery/ut_metadata.rs:241-262 | an answered request is removed and its bytes written; other data is ignored; it panics if and only if the count would underflow or the bytes begin behind the buffer |
| UtMetadata.UtMetadataModule.ValidateDownloaded | bip_select/src/discovery/ut_metadata.rs:385-416 | finished downloads with the wrong hash start over, and it tells whether one with the right hash is there |
| UtMetadata.UtMetadataModule.InitializePending | bip_select/src/discovery/ut_metadata.rs:362-383 | downloads whose size is known are started, and it tells whether there is something to ask for; a panic if and only if such a size is negative |
| UtMetadata.UtMetadataModule.RetrieveCompletedDownload | bip_select/src/discovery/ut_metadata.rs:271-297 | finished downloads are removed until one parses, which is handed out |
| UtMetadata.UtMetadataModule.RetrievePieceRequest | bip_select/src/discovery/ut_metadata.rs:299-332 | the first download that can, turns its last message into a request |
| UtMetadataRuns.ReceivedFits | bip_select/src/discovery/ut_metadata.rs:251-258 | a reply to a request of ours never underflows the count and lies inside its buffer |
| UtMetadataRuns.WrittenPiece | bip_select/src/discovery/ut_metadata.rs:252-257 | an honest piece changes its own place of the buffer, to the right bytes, and no other |
| UtMetadataRuns.StepKeeps | bip_select/src/discovery/ut_metadata.rs:166-332 | every event keeps counts, distinctness, honest contents and validated hashes |
| UtMetadataPanics.StepPanics | bip_select/src/discovery/ut_metadata.rs:145-262 | an event panics if and only if, by the state before it, it tells a wanted hash its first size and that is negative, or makes a hash wanted whose recorded size is, or completes a download with the wrong hash whose recorded size is |
| UtMetadataPanics.EveryPanic | bip_select/src/discovery/ut_metadata.rs:362-383 | the same after every run, whatever the peers sent |
| UtMetadataPanics.NegativeSizePanics | bip_select/src/discovery/ut_metadata.rs:456-459 | a wanted hash and a negative size panic, the negative size alone does not |
| UtMetadataPanics.NeverPanics | bip_select/src/discovery/ut_metadata.rs:241-332 | no run without negative sizes panics, whatever the peers send |
| UtMetadataRuns.EveryDownload | bip_select/src/discovery/ut_metadata.rs:166-262 | in every run left = unsent + under way, all these pieces distinct; with honest peers a download with nothing left equals the metadata and is not reset |
| UtMetadataRuns.InfoHashOfAll | bip_metainfo/src/metainfo.rs:253-261 | the info hash is that of all bytes parsed |
| UtMetadataRuns.EveryMetainfoIsRequested | bip_select/src/discovery/ut_metadata.rs:271-297 | in every run, whatever the peers send, each metainfo handed out has the requested hash, although nothing compares them there |
| AnnounceStorages.PrefixIsAllExpired | bip_dht/src/storage.rs:106-110 | draining the expired prefix of the queue leaves exactly what has not expired, if and only if no expired item stands behind one that has not |
| AnnounceStorages.ClockGoingBackKeepsExpired | bip_dht/src/storage.rs:106-110 | a queue, entered while the clock went back, that keeps an expired contact |
| AnnounceStorages.QueueIsMap | bip_dht/src/storage.rs:30-128 | after every history of announces and searches the queue is ordered by time, has one entry per contact and at most 500, and is the map from contacts to times |
| AnnounceStorages.AnnounceStorage.Add | bip_dht/src/storage.rs:30-51 | for any clock, the queue loses its expired prefix and then the contact is entered or renewed at its end if it is known or 500 are not reached, and the answer says which; if nothing expired stands behind, this refines a map from contacts to times; the queue stays in order if the clock has not gone back |
| AnnounceStorages.AnnounceStorage.Find | bip_dht/src/storage.rs:60-71 | the addresses of the hash that are left when the expired prefix is gone, each exactly once; those that have not expired, if nothing expired stands behind |
| AnnounceStorages.AnnounceStorage.InsertContact | bip_dht/src/storage.rs:76-103 | known, entered or refused, and the lists per hash stay in step with the queue |
| AnnounceStorages.AnnounceStorage.RemoveExpiredItems | bip_dht/src/storage.rs:106-128 | exactly the expired prefix of the queue leaves queue and lists |
| AnnounceStorages.FoundForADay | bip_dht/src/storage.rs:30-128 | after every history of announces and searches, a contact is found exactly while its last accepted announce is less than a day old |
| Shuffles.FisherShuffle | bip_util/src/lib.rs:41-53 | the shuffled order, which has the same elements equally often |
| Shuffles.ShuffledKeeps | bip_util/src/lib.rs:41-53 | whatever the random numbers, the result is a permutation |
| Shuffles.EveryOrder | bip_util/src/lib.rs:41-53 | every permutation is the result of some random numbers |
| Transactions.BitsAreArithmetic | bip_dht/src/transaction.rs:86-89 | shifting and joining bits is the arithmetic used here |
| Transactions.PartsOfJoin | bip_dht/src/transaction.rs:247-272 | action and message id are read back from a transaction id |
| Transactions.FromBytes | bip_dht/src/transaction.rs:210-222 | eight bytes, and only eight, give the id whose bytes they are |
| Transactions.ParsedIsSame | bip_dht/src/transaction.rs:199-222 | parsing the bytes of an id gives the same id |
| Transactions.IdPool.Refill | bip_dht/src/transaction.rs:107-121 | the next block of 2048 ids, from 0 again at the limit, in some order |
| Transactions.IdPool.Generate | bip_dht/src/transaction.rs:150-170 | the next prepared id, or the first of a new block |
| Transactions.MIDGenerator.Generate | bip_dht/src/transaction.rs:150-170 | joins the drawn message id to the action id |
| Transactions.AIDGenerator.Generate | bip_dht/src/transaction.rs:82-103 | a generator of its own for the drawn action id |
| Transactions.DrawnOnce | bip_dht/src/transaction.rs:82-121 | until all ids are drawn, every draw is of a new one |
| Transactions.WrapsAround | bip_dht/src/transaction.rs:174-180 | the draw after that is a repetition |
| Transactions.IdsAreUnique | bip_dht/src/transaction.rs:82-188 | in every run of at most 2^40 actions of at most 2^24 messages, whatever the shuffles, two ids are equal only if they are the same draw, and each maps back to its action |
| Tokens.TokenStore.Checkout | bip_dht/src/token.rs:95-99 | refreshes, and hashes the address with the current secret |
| Tokens.TokenStore.Checkin | bip_dht/src/token.rs:101-105 | refreshes, and accepts the token of either secret and no other |
| Tokens.RefreshAt | bip_dht/src/token.rs:107-136 | when a call replaces no secret, one, or both, by the age of the last refresh |
| Tokens.AcceptedForTenMinutes | bip_dht/src/token.rs:95-136 | whatever calls come in between, a token is accepted up to ten minutes after its checkout |
| Tokens.ForgottenAfterThirtyMinutes | bip_dht/src/token.rs:95-136 | whatever calls come in between, from a millisecond before thirty minutes after the checkout on, its secret is neither the current nor the last one |
| Tokens.RejectedAfterThirtyMinutes | bip_dht/src/token.rs:101-105 | then its token is rejected, unless another secret gives the same one |
| Tokens.ExactLifetime | bip_dht/src/token.rs:107-136 | after any calls the secret is known if and only if none of them came ten minutes after its refresh, or the first that did came before twenty and no other ten minutes after that one |
| Tokens.GoneAfterTenMinutes | bip_dht/src/token.rs:107-121 | it can be gone a millisecond after ten minutes |
| Tokens.KeptForAlmostThirtyMinutes | bip_dht/src/token.rs:95-136 | it can be kept until a millisecond before that, although twenty minutes are promised |
| AnnounceOptions.WriteBytes | bip_utracker/src/option.rs:55-74 | all options in chunks if they fit, with an end mark if that fits too, otherwise an error |
| AnnounceOptions.ParseOptions | bip_utracker/src/option.rs:118-143 | the loop merges the contents found per option, or is incomplete |
| AnnounceOptions.ParseChunks | bip_utracker/src/option.rs:156-171 | the chunks of contents of any length are joined again in order |
| AnnounceOptions.WriteAll | bip_utracker/src/option.rs:58-71 | with keys of at least 2, exactly the empty options are lost |
| AnnounceOptions.RoundTrip | bip_utracker/src/option.rs:55-171 | in any order, with or without end mark and with anything behind it, the options come back if and only if their keys are at least 2 and none is empty |
| AnnounceOptions.SomeOptionsAreLost | bip_utracker/src/option.rs:118-143 | an empty option, an option 0 and an option 1 that do not come back |
| BitFields.InsertedPieces | bip_select/src/revelation/honest.rs:145-146 | inserting an index adds it to the set and nothing else |
| BitFields.InsertReversedBits | bip_select/src/revelation/honest.rs:164-179 | the shifting loops mirror every byte |
| BitFields.FieldListsPieces | bip_select/src/revelation/honest.rs:97-108 | the bit field sent lists exactly the pieces of the set |
| BitFields.BitFieldIter.Next | bip_peer/src/message/standard.rs:97-116 | the next marked index in 32 bits, skipping only unmarked ones |
| BitFields.ReadField | bip_peer/src/message/standard.rs:84-116 | reading a bit field to its end gives exactly its marked indices |
| BitFields.TruncatedSame | bip_peer/src/message/standard.rs:106-106 | 32 bits lose nothing exactly if all indices are below 2^32 |
| Reveals.HonestRevealModule.StartSend | bip_select/src/revelation/honest.rs:185-210 | the new torrents, what is queued behind what was queued before, and the answer or error |
| Reveals.HonestRevealModule.AddPeer | bip_select/src/revelation/honest.rs:85-114 | the peer is added, and a bit field is queued unless there is no piece |
| Reveals.HonestRevealModule.InsertPiece | bip_select/src/revelation/honest.rs:129-152 | every peer of the torrent is told, and the piece is kept, if it is in range |
| Reveals.HandleInforms | bip_select/src/revelation/honest.rs:50-152 | every event keeps each connected peer informed of exactly our pieces |
| Reveals.PeersKnowOurPieces | bip_select/src/revelation/honest.rs:50-179 | after every sequence of events, what a connected peer was told since it connected is our piece set in 32 bits, and is our piece set if and only if no piece is beyond 2^32 |
| Reveals.LaterPieceIsMistaken | bip_select/src/revelation/honest.rs:140-143 | a piece beyond 2^32 is announced as another one |
| Handshakes.WriteBytes | bip_handshake/src/bittorrent/message.rs:35-44 | writes the whole message |
| Handshakes.ParseExact | bip_handshake/src/bittorrent/message.rs:55-81 | parsing succeeds exactly with the announced length at hand, takes just that, and writing its result gives those bytes |
| Handshakes.RoundTrip | bip_handshake/src/message/protocol.rs:24-65 | a written message is parsed to itself if and only if its protocol is not the standard one in disguise |
| Handshakes.DisguiseIsLost | bip_handshake/src/message/protocol.rs:24-65 | a message with such a protocol that comes back as another |
| Handshakes.Socket.ReadBuf | bip_handshake/src/bittorrent/framed.rs:114-118 | what a socket may do: nothing yet, an error, or any number of its next bytes that fit |
| Handshakes.FramedHandshake.PollNext | bip_handshake/src/bittorrent/framed.rs:77-134 | the polling loop over buffer, position and phase, for any answers of the socket; an I/O error is yielded and loses nothing read before |
| Handshakes.PollKeeps | bip_handshake/src/bittorrent/framed.rs:77-134 | no poll panics, and a message is yielded exactly when the reader finishes |
| Handshakes.EveryFragmentation | bip_handshake/src/bittorrent/framed.rs:77-134 | over any number of polls no byte behind the handshake is taken, and what is yielded is the message the stream begins with |
| Handshakes.WrittenIsRead | bip_handshake/src/bittorrent/framed.rs:77-134 | who reads a written message gets it, and the socket still has all that follows |
| Handshakes.EnoughReadsYield | bip_handshake/src/bittorrent/framed.rs:113-127 | a poll whose reads all deliver something yields the message |

## Left out

- HasherRuns.EveryRun: assumes at least one worker; with none the original panics.
- AnnounceStorages.FoundForADay: assumes that the clock does not go back; `AnnounceStorages.ClockGoingBackKeepsExpired` shows that it is false otherwise.
- Tokens.ForgottenAfterThirtyMinutes: assumes that a call reads the clock once and that the 32-bit secret is not drawn again.
- Transactions.IdPool.Generate: uses the block length of 2048; builds for the crate's own tests use 16.
- Nodes in the routing table are values here, and a contact with a node replaces it in its slot; the original updates cells of a shared node.
- `RoutingTable::find_node` and `buckets`: lookups of a node are left to the tables' owners, and an assorted node is never found by the original.
- The order of nodes beyond the target's own bucket, and which three nodes a lookup round picks besides the closest: the code makes no promise there.
- That a lookup asks no node twice: the same node twice in one response breaks it.
- The serving side of the metadata exchange, and the 100-request limits that only wake tasks.
- Allocation failure for very large metadata sizes, and the parsing of the info dictionary beyond its bencoding, which is a parameter.
- Progress reports of the hasher, and threads that die.
- Event loops, sockets, wire formats of the peer and DHT messages, bootstrap and refresh of the table, trackers, disk access, magnet links and builders: plumbing or easy.
