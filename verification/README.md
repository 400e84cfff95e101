# Verified models of nwaku

This project models four pieces of nwaku in Dafny 4.11 and proves what they promise.

1. **The C base 64 encoder** (`Rfc4648`, `Base64Laws`, `Base64`). The shift-and-mask loop of
   `examples/cbindings/base64.c` over a freshly allocated buffer, with `size_t` as 64-bit words that wrap,
   against an encoding and a strict decoder for section 4 of RFC 4648. The encoding is tied to the RFC a
   second time, as the only text whose symbols spell the bits of the input.
2. **The filter protocol** (`FilterSubscriptions`, `FilterInvariants`, `FilterProtocol`, `FilterIsolation`,
   `FilterClient`, `FilterNode`, `FilterService`). The subscription tables, request handler and maintenance task of the
   service node, and the client loop of `examples/filter_subscriber.nim` that keeps one subscription alive
   against it. Every reading of the clock is explicit, also the repeated readings inside one clean-up. Any
   number of other peers act between any two steps of the client. The shared tables refine one private record
   per peer, and a peer that keeps within its time cannot tell a shared server from one of its own.
3. **The chat client** (`Protobuf`, `ChatCodec`, `EpochTracker`, `Chat`). The encoding of a chat message and of
   the rate limit proof attached to it, on the public Protocol Buffers wire format, and the watch that the
   client keeps on the limit of one message per epoch.
4. **The C API** (`Topics`, `SharedHeap`, `LibWaku`, `LibWakuApi`). The copies made on the shared heap, the
   exported procs with the requests they pass to the worker thread, and the callbacks they make, over any
   sequence of calls, registrations and relay events.

Code that loops or updates fields is a method or a class here, proved against a function on values; the lemmas
are about those functions. `dafny verify dfyconfig.toml` checks everything.

## What the proofs found

Each of these comes with the exact condition under which it happens.

- `cleanUp` reads the clock once for the peers and again for every entry. A peer whose time runs out in
  between keeps a counter larger than the number of its criteria (`CleanUpKeepsExact`, `StepKeepsExact`,
  `SkewExample`); these are also exactly the clean-ups that tear a peer's record apart (`StepRefines`). The
  counter is never too small, so it never underflows (`RemoveNeverUnderflows`).
- The limit on criteria per peer is not applied to a peer's first request (`WhenCriteriaLimitHolds`,
  `FirstRequestExample`).
- A known peer is refused criteria that it already holds when only counting them twice exceeds the limit
  (`RefusedThoughFitting`, `RefusalExample`).
- An unsubscribe request succeeds for criteria that only other peers hold (`UnsubscribeOutcome`,
  `UnsubscribeExample`). One that fails for an unknown criterion leaves the peer all it has, in every order of the
  set, iff it asks for nothing that the peer has (`FailedUnsubscribe`, `FailedUnsubscribeExample`).
- CHANGELOG.md:166-168 says that a subscription is removed after the timeout. In the code it is only no longer
  served; until a maintenance run removes it, a granted subscribe request brings all of it back, and so does any
  unsubscribe request with valid topics, even a failing one, for what it does not take away; pings and
  unsubscribe-all requests do not (`ExpiredSubscriptionsComeBack`, `ComebackExample`, `RevivalExample`).
- The chat client hands a line on only if its node has an RLN relay; the sending lies inside that branch, so
  without one every line is encoded and dropped without a word (`PublishAll`).
- The chat client warns about exactly the right publishes iff no epoch is left and used again, as a clock that
  is set back makes happen, and the first publish is not in epoch 0 (`EveryWarningIsRight`, `ReturnExample`). The
  mere number of warnings is right iff the returns make up for the false first warning (`CountIsExact`).
- `b64_encoded_size` wraps beyond 3*(2^62-1) bytes, and then, and only then, `b64_encode` writes past its buffer
  (`Encode64`).
- `allocSharedSeq` copies as many bytes as there are elements. The copy is faithful exactly for elements of one
  byte and for empty sequences (`SharedSeqRoundTrip`); the repository uses it for bytes.
- A message published through the C API reaches the node as it was given iff its content topic has no NUL, which
  JSON can spell, and it carries no proof, which the request has no field for (`PublishedIntact`,
  `CutTopicExample`).
- A relay request is destroyed without its pubsub topic, so every relay call that sends a request leaves a
  block behind; a request that cannot be delivered stays behind whole; a JSON text that does not parse is
  freed twice (`HeapConservation`, `LeakExample`).
- A pubsub topic name that begins with `rs` is not read back as that name (`NamedTopicRoundTrip`). The parser
  raises a defect on exactly two topics, `/waku/2` and `/waku/2/rs` (`WhenParsingCrashes`), the second of which
  is the topic of the name `rs` (`WhenNamedTopicCrashes`).

## Model

| member | source | states |
|---|---|---|
| Rfc4648.SymbolRows | examples/cbindings/base64.c:19 | the alphabet is the table of the RFC: A-Z, a-z, 0-9, + and / in this order |
| Rfc4648.ValueOfSymbol | examples/cbindings/base64.c:19 | the alphabet assigns 64 different symbols: a 6-bit value is recovered from its symbol |
| Rfc4648.BytesOfSextets | examples/cbindings/base64.c:37-52 | the 6-bit groups of any bytes determine the bytes, in all three remainders mod 3 |
| Rfc4648.DecodeEncode | examples/cbindings/base64.c:36-53 | the strict decoder returns exactly the encoded bytes, for every byte sequence |
| Rfc4648.EncodeDecode | examples/cbindings/base64.c:36-53 | encoding what a canonical text decodes to gives that text back |
| Rfc4648.EncodeIsBijection | examples/cbindings/base64.c:36-53 | a text decodes to some bytes iff it is their encoding; the canonical texts (length, placement of '=', unused bits zero) are exactly the encodings |
| Base64Laws.SextetsSpellBits | examples/cbindings/base64.c:37-52 | bit i of the encoding is bit i of the input, and zero beyond it |
| Base64Laws.EncodeIsTheBase64 | examples/cbindings/base64.c:36-53 | the encoding is the one text of the right length and padding whose symbols spell the bits of the input |
| Base64Laws.EncodeOfConcat | examples/cbindings/base64.c:36-53 | encoding commutes with concatenation iff the first part is whole 3-byte groups or the second is empty |
| Base64Laws.ChunkedEncoding | examples/cbindings/base64.c:36-53 | encoding non-empty pieces one by one equals encoding them at once iff all pieces but the last are whole groups |
| Base64.RoundUpFits | examples/cbindings/base64.c:10-12 | rounding a word up to a multiple of 3 never wraps, for any word |
| Base64.TestVectors | examples/cbindings/base64.c:36-53 | the seven test vectors of section 10 of RFC 4648 |
| Base64.EncodedSize | examples/cbindings/base64.c:6-17 | the size is 4 times the number of groups modulo 2^64, and without wrapping up to the bound |
| Base64.SizeBoundIsExact | examples/cbindings/base64.c:6-17 | the size is exact iff the length is at most 3*(2^62-1); one more byte gives 0; below the bound elen+1 and the loop indices stay words |
| Base64.ShiftSteps | examples/cbindings/base64.c:37-39 | shifting without or-ing a byte in equals shifting a zero byte in |
| Base64.ShiftedIsQuad | examples/cbindings/base64.c:41-49 | the four shift-and-mask cuts of the word are the four 6-bit groups of the three bytes |
| Base64.LoadGroup | examples/cbindings/base64.c:37-39 | the word of a round holds the remaining one to three bytes, zero-filled |
| Base64.StoreGroup | examples/cbindings/base64.c:41-52 | a round writes its four cells, once each, '=' for missing bytes, and nothing else |
| Base64.NextRound | examples/cbindings/base64.c:36-53 | a round extends "the written prefix encodes the consumed prefix" and leaves the terminator alone |
| Base64.FillBuffer | examples/cbindings/base64.c:32-53 | in a buffer of the computed size the loop writes each cell once, in order, and ends with the encoding in all cells and the NUL in place, with wrapping index arithmetic; it leaves the buffer iff the size wrapped |
| Base64.Encode64 | examples/cbindings/base64.c:21-56 | for every length: NULL iff there is no input; otherwise a fresh buffer holding exactly the encoding and a NUL, whatever malloc returned, iff the length is at most 3*(2^62-1) |
| FilterInvariants.AddKeepsSound | waku/waku_filter_v2/subscriptions.nim:110-136 | adding keeps the table sound, and keeps exact counters exact |
| FilterInvariants.AddedCountBounds | waku/waku_filter_v2/subscriptions.nim:116-134 | a known peer's counter grows within the limit; a new peer's is the size of its request |
| FilterInvariants.RemoveNeverUnderflows | waku/waku_filter_v2/subscriptions.nim:145-148 | a removal never takes more off the unsigned counter than it holds |
| FilterInvariants.RemoveKeepsSound | waku/waku_filter_v2/subscriptions.nim:138-160 | removing keeps the table sound, and keeps exact counters exact, also when it stops half-way |
| FilterInvariants.CleanUpKeepsSound | waku/waku_filter_v2/subscriptions.nim:95-104 | clean-up restores soundness even after peers were dropped |
| FilterInvariants.CleanUpKeepsExact | waku/waku_filter_v2/subscriptions.nim:95-104 | counters stay exact iff no kept peer runs out of time between the first pass and the reading for one of its entries |
| FilterInvariants.WhenCriteriaLimitHolds | waku/waku_filter_v2/subscriptions.nim:116-128 | a granted request respects the per-peer limit iff the peer was known or the request alone fits |
| FilterInvariants.PeerLimitHolds | waku/waku_filter_v2/subscriptions.nim:122-128 | a granted request never exceeds the maximum number of peers |
| FilterProtocol.StepKeepsGood | waku/waku_filter_v2/protocol.nim:114-152 | every request and every maintenance run keeps soundness, both limits and the order of time |
| FilterProtocol.RunKeepsGood | waku/waku_filter_v2/protocol.nim:114-152 | the same for every run of requests and maintenance |
| FilterProtocol.EveryHistoryIsSound | waku/waku_filter_v2/protocol.nim:114-211 | after every history of the node: at most the maximum of peers, every counter at least 1, not too small for the criteria and within its limit, no unknown peer listed, no empty entry |
| FilterProtocol.StepKeepsExact | waku/waku_filter_v2/protocol.nim:194-211 | a step keeps the counters exact iff it is not a clean-up that runs across a deadline |
| FilterProtocol.SkewExample | waku/waku_filter_v2/subscriptions.nim:95-104 | one tick across a deadline leaves a counter of 1 with no criterion, and a limit of 1 then refuses the same criterion |
| FilterProtocol.FirstRequestExample | waku/waku_filter_v2/subscriptions.nim:122-128 | under a limit of one criterion a first request for two is granted |
| FilterProtocol.SubscribeAnswer | waku/waku_filter_v2/protocol.nim:46-73 | bad request iff there is no pubsub topic, no content topic or more than 100; granted iff otherwise a known peer's counter plus the distinct topics, or the number of peers, allows it; else nothing changes |
| FilterProtocol.SubscribeEffect | waku/waku_filter_v2/protocol.nim:65-73 | a granted request adds every pair of its pubsub topic and one of its content topics, nothing else, to this peer and no other |
| FilterProtocol.UnsubscribeAnswer | waku/waku_filter_v2/protocol.nim:75-101 | bad request as above; success iff the peer is known and somebody holds each pair named; not found otherwise |
| FilterProtocol.UnsubscribeEffect | waku/waku_filter_v2/protocol.nim:93-101 | a successful request takes every pair named, nothing else, from this peer and no other |
| FilterProtocol.RefusedThoughFitting | waku/waku_filter_v2/subscriptions.nim:116-134 | a known peer is refused a request that would fit iff only the criteria it already holds make it too large |
| FilterProtocol.RefusalExample | waku/waku_filter_v2/subscriptions.nim:117-118 | under a limit of one a peer is refused the criterion it holds |
| FilterProtocol.UnsubscribeOutcome | waku/waku_filter_v2/protocol.nim:75-101 | success iff the peer is known and somebody holds each criterion; then the peer holds none of them; in any case it loses exactly those before the first that nobody holds |
| FilterProtocol.FailedUnsubscribe | waku/waku_filter_v2/subscriptions.nim:138-160 | a request that fails for an unknown criterion leaves the peer all it has, whatever the order, iff it asks for nothing that the peer has |
| FilterProtocol.FailedUnsubscribeExample | waku/waku_filter_v2/subscriptions.nim:138-160 | a held and an unknown criterion together: not found, and the held one is gone |
| FilterProtocol.UnsubscribeExample | waku/waku_filter_v2/protocol.nim:75-101 | a peer withdraws what only another one holds and is told that it succeeded |
| FilterProtocol.UnsubscribeAllForgets | waku/waku_filter_v2/protocol.nim:103-112 | succeeds iff the peer is live, and then leaves no entry of it |
| FilterProtocol.ExpiredSubscriptionsComeBack | waku/waku_filter_v2/protocol.nim:35-112 | after any request of a peer that is not live it is served a criterion iff the request was a granted subscribe and the criterion is old or requested, or a valid unsubscribe, failing or not, that left it |
| FilterProtocol.ComebackExample | waku/waku_filter_v2/subscriptions.nim:116-136 | after 301 seconds a criterion is not served, and is served again once the peer asks for another one |
| FilterProtocol.RevivalExample | waku/waku_filter_v2/subscriptions.nim:143-144 | and served again also after a failing unsubscribe of what nobody holds |
| FilterProtocol.OthersDoNotInterfere | waku/waku_filter_v2/protocol.nim:114-152 | while a peer is within its time, no request of others and no maintenance that finds it in the peer store changes its entry or criteria |
| FilterIsolation.SweepRefines | waku/waku_filter_v2/subscriptions.nim:95-104 | clean-up forgets a peer that is late at the first reading, and otherwise takes exactly the criteria whose own reading comes too late |
| FilterIsolation.RemoveRefines | waku/waku_filter_v2/subscriptions.nim:138-160 | a removal forgets the peer exactly when none of its criteria is left, though the code decides it by a counter |
| FilterIsolation.OwnStepRefines | waku/waku_filter_v2/protocol.nim:114-152 | a peer's request is answered from its private record, the room left and the known part of the request, and changes the record accordingly |
| FilterIsolation.StepRefines | waku/waku_filter_v2/protocol.nim:114-211 | a step of the tables is a step of the peer's record iff no clean-up runs across the peer's deadline |
| FilterIsolation.RunRefines | waku/waku_filter_v2/protocol.nim:114-211 | the same for every run of requests and maintenance without such a clean-up |
| FilterIsolation.ServedByRecord | waku/waku_filter_v2/subscriptions.nim:73-85 | a message is pushed to a peer iff its record holds the criterion and is within its time |
| FilterIsolation.SharingIsInvisible | waku/waku_filter_v2/protocol.nim:114-211 | through any traffic that leaves it undisturbed, a peer gets the same answers and record as on a server with no other peer |
| FilterIsolation.SharedServiceIsPrivateService | waku/waku_filter_v2/protocol.nim:214-230 | and the same messages are pushed to it |
| FilterClient.StaysEstablished | waku/waku_filter_v2/protocol.nim:114-152 | an established client stays so through any traffic of others within its time |
| FilterClient.PingAnswer | waku/waku_filter_v2/protocol.nim:35-44 | a ping after any traffic succeeds iff the client was not evicted and its time has not run out; success refreshes it, failure changes nothing |
| FilterClient.SubscribeEstablishes | waku/waku_filter_v2/protocol.nim:46-73 | a subscribe request is granted iff the limits allow it, and then establishes the client whatever the table said |
| FilterClient.CalmRoundServes | examples/filter_subscriber.nim:49-67 | in a round with short delays every message up to the ping reaches the client and the ping succeeds |
| FilterClient.NoLapse | examples/filter_subscriber.nim:48-67 | over every run with such rounds no ping fails, no subscribe request is sent and no message is missed |
| FilterClient.LapseBoundIsTight | examples/filter_subscriber.nim:48-67 | a round needs no new subscription iff reply delay plus request delay is at most timeout minus interval, 240 s by default |
| FilterClient.RoundRecovers | examples/filter_subscriber.nim:51-65 | a round sends a subscribe request iff the subscription was lost or the ping did not get through, and ends established unless that request fails |
| FilterClient.WhenLoopQuits | examples/filter_subscriber.nim:50-65 | the loop quits iff the ping fails and then the subscribe request is lost or meets a server without room |
| FilterClient.PingFailsIffLost | examples/filter_subscriber.nim:50-65 | for an established client, iff there was a loss and that request was lost or met a server without room |
| FilterClient.LoopRunsOn | examples/filter_subscriber.nim:48-67 | over every run, the loop is still running iff the subscribe request of every loss got through and met a server with room |
| FilterClient.TurnsAreEconomic | examples/filter_subscriber.nim:48-67 | over every run, also one that a failing subscribe request ends, the subscribe requests are exactly as many as the losses in the turns taken |
| FilterClient.Economy | examples/filter_subscriber.nim:48-67 | over every run the subscribe requests are at most as many as the losses, and as many while the loop is running |
| FilterClient.EconomyFromScratch | examples/filter_subscriber.nim:48-67 | from an unknown client, one more, again over every run |
| FilterClient.RecoveryTime | examples/filter_subscriber.nim:48-67 | an eviction at any moment is repaired within one interval plus four network delays, and the loop goes on, if the server has room |
| FilterClient.EveryLossIsRepaired | examples/filter_subscriber.nim:48-67 | over every run with bounded delays against a server with room, every eviction and every expiry is repaired within one interval plus four delays, and the loop never quits |
| FilterClient.RunKeepsListed | examples/filter_subscriber.nim:49-57 | over every history, a client that only pings and subscribes is listed whenever the server counts it as live |
| FilterClient.PingMeansServed | examples/filter_subscriber.nim:49-65 | over every history of the server a successful ping means that the wanted messages are pushed to the client |
| FilterNode.Subscriptions.FindSubscribedPeers | waku/waku_filter_v2/subscriptions.nim:73-85 | the listed peers that are live at their own reading of the clock, each once |
| FilterNode.Subscriptions.AddSubscription | waku/waku_filter_v2/subscriptions.nim:110-136 | the loop over the criteria gives the specified table and result, whatever the order |
| FilterNode.Subscriptions.RemoveSubscription | waku/waku_filter_v2/subscriptions.nim:138-160 | the loop gives the specified table and result; the peer's entry exists whenever the loop writes to it |
| FilterNode.Subscriptions.CleanUp | waku/waku_filter_v2/subscriptions.nim:95-104 | the three passes give the specified table for any clock readings |
| FilterService.WakuFilter.MaintainSubscriptions | waku/waku_filter_v2/protocol.nim:194-211 | drops exactly the peers missing from the peer store, then cleans up |
| FilterService.WakuFilter.Serve | waku/waku_filter_v2/protocol.nim:114-152 | the running node does the specified step and stays within the invariant |
| FilterService.MaintainSubscription | examples/filter_subscriber.nim:42-67 | the running loop, with its break, plays exactly the specified session against the running node |
| Protobuf.VarintIsBase128 | apps/chat2/chat2.nim:105-112 | a varint holds the 7-bit groups of its number, least significant first, marked, and no more of them than needed |
| Protobuf.GuideExamples | apps/chat2/chat2.nim:105-112 | the examples of the Encoding guide: the number 150 and the string "testing" |
| Protobuf.VarintRoundTrip | apps/chat2/chat2.nim:97-110 | every 64-bit number is read back from its varint, whatever follows |
| Protobuf.FieldRoundTrip | apps/chat2/chat2.nim:97-110 | every field is read back with its number, type, content and length |
| Protobuf.ParseSerialized | apps/chat2/chat2.nim:92-112 | every sequence of fields is read back, whatever follows it |
| Protobuf.TruncationIsDetected | apps/chat2/chat2.nim:92-103 | a serialized message cut after k bytes is accepted iff the cut falls between fields |
| ChatCodec.MessageOnTheWire | apps/chat2/chat2.nim:105-112 | the exact bytes: key 8 and the timestamp as 64 bits, key 18 and the nick, key 26 and the payload, both with their lengths |
| ChatCodec.MessageRoundTrip | apps/chat2/chat2.nim:92-112 | init returns the encoded message whatever fields come before it and whatever unknown fields come after it |
| ChatCodec.LastMessageWins | apps/chat2/chat2.nim:92-112 | init of encode is the message, for all nicks, payloads and timestamps; of two messages run together the last is read |
| ChatCodec.EncodingIsInjective | apps/chat2/chat2.nim:105-112 | equal encodings mean equal messages |
| ChatCodec.CutMessage | apps/chat2/chat2.nim:92-103 | a cut message is accepted iff the cut falls between its fields |
| ChatCodec.CutMessageReads | apps/chat2/chat2.nim:92-103 | a cut between fields leaves the fields before it and defaults for the others |
| ChatCodec.ProofOnTheWire | waku/waku_rln_relay/protocol_types.nim:109-121 | the exact bytes: the seven parts as length-delimited fields 1 to 7 |
| ChatCodec.ProofRoundTrip | waku/waku_rln_relay/protocol_types.nim:74-121 | the seven byte arrays of a proof are read back, so the decoding in publish cannot fail |
| EpochTracker.EpochRoundTrip | waku/waku_rln_relay/conversion_utils.nim:152-163 | a 64-bit epoch number is recovered from its 32 bytes |
| EpochTracker.EpochBytes | waku/waku_rln_relay/conversion_utils.nim:152-163 | the number of an epoch is read from its first eight bytes, lowest first; the others are zero |
| EpochTracker.EpochOfTime | waku/waku_rln_relay/rln_relay.nim:99-103 | the epoch of a second is the number of whole periods before it |
| EpochTracker.WarnedExactly | apps/chat2/chat2.nim:209-227 | in any run a publish is warned about iff the latest earlier proof-carrying publish has its epoch, or there is none and the initial epoch is its own |
| EpochTracker.TrackAllCounts | apps/chat2/chat2.nim:209-227 | the tracker over a run with failed proofs counts the repeats in the sequence of attached epochs |
| EpochTracker.WarningCount | apps/chat2/chat2.nim:218-227 | warnings plus returns plus distinct epochs equal publishes, plus one for a first publish in the initial epoch |
| EpochTracker.NoReturnsIffContiguous | apps/chat2/chat2.nim:218-227 | there are no returns iff no epoch is left and used again |
| EpochTracker.CountIsExact | apps/chat2/chat2.nim:218-227 | the number of warnings is the number of violations of one message per epoch iff the returns are as many as the false first warnings; there are none iff no epoch is left and used again |
| EpochTracker.WarningsAreCounted | apps/chat2/chat2.nim:218-227 | the warnings are the number of publishes warned about |
| EpochTracker.EveryWarningIsRight | apps/chat2/chat2.nim:218-227 | every publish is warned about iff its epoch was used before, for all publishes of a run, iff no epoch is left and used again and the first is not the initial one |
| EpochTracker.ReturnExample | apps/chat2/chat2.nim:218-227 | in epochs 1, 2, 1 the violation goes unnoticed |
| EpochTracker.ClockedRun | apps/chat2/chat2.nim:192-227 | with a clock that never runs backwards the warnings are exactly the violations, failed proofs included, plus a false one for a first publish in epoch 0 |
| Chat.ChatClient.AttachProof | apps/chat2/chat2.nim:206-227 | the tracker's step and the line printed, for attached and failed proofs |
| Chat.ChatClient.Publish | apps/chat2/chat2.nim:190-238 | with an RLN relay one message goes out, by lightpush if there is one and else by relay, its payload decodes to the line, nick and time, and the tracker takes one step; without one nothing goes out |
| Chat.ChatClient.PublishAll | apps/chat2/chat2.nim:295-297 | over any lines: each is handed on, in order and by lightpush iff there is one, iff the node has an RLN relay; the warnings printed, the returns and the distinct epochs add up to the proofs attached |
| Topics.DecimalRoundTrip | library/libwaku.nim:156 | the decimal version determines the number |
| Topics.DecimalIsTheNumeral | library/libwaku.nim:156 | the decimal representation is the one string of digits for the number without a superfluous leading zero |
| Topics.DecimalExamples | library/libwaku.nim:156 | 0, 2 and 120 as digits, the most significant first |
| Topics.ContentTopicRoundTrip | waku/waku_core/topics/content_topic.nim:63-124 | the node's parser returns the components iff none is empty or contains a slash; slash-free ones with an empty one among them are a missing part |
| Topics.GenerationRoundTrip | waku/waku_core/topics/content_topic.nim:63-124 | a topic with a generation is read back iff that is a number and no part is empty |
| Topics.ContentTopicIsInjective | library/libwaku.nim:156 | slash-free components, empty ones included, never share a topic |
| Topics.Prefixes | waku/waku_core/topics/pubsub_topic.nim:57-58 | the texts /waku/2 and rs |
| Topics.ShardRoundTrip | waku/waku_core/topics/pubsub_topic.nim:45-90 | every shard topic is read back |
| Topics.NamedTopicRoundTrip | waku/waku_core/topics/pubsub_topic.nim:92-112 | a name is read back iff it is not empty and does not begin with rs |
| Topics.WhenParsingCrashes | waku/waku_core/topics/pubsub_topic.nim:60-112 | the parser slices beyond the end of its argument iff that is the bare prefix or the bare shard prefix |
| Topics.WhenNamedTopicCrashes | library/libwaku.nim:179 | of the formatted topics this is the one named rs |
| SharedHeap.CopyReadsBack | library/alloc.nim:11-19 | a copied string reads back as the string up to its first NUL |
| SharedHeap.SharedSeqRoundTrip | library/alloc.nim:21-25 | the copy of a sequence is faithful for every prior content of the block iff elements are single bytes or there are none |
| SharedHeap.Heap.AllocCString | library/alloc.nim:4-9 | one fresh block holding the string and its NUL; all other blocks unchanged |
| SharedHeap.Heap.AllocString | library/alloc.nim:11-19 | the byte loop gives one fresh block holding the string and a NUL; all other blocks unchanged |
| SharedHeap.SharedSeq.constructor | library/alloc.nim:21-25 | one fresh block with the copied bytes in front of whatever it held; it holds the sequence if elements are single bytes or there are none |
| SharedHeap.SharedSeq.ToSeq | library/alloc.nim:31-37 | the loop returns the elements held, hence the copied sequence of bytes, and nothing after deallocation |
| SharedHeap.SharedSeq.Dealloc | library/alloc.nim:27-29 | frees the block once and empties the sequence |
| LibWaku.CallDiscipline | library/libwaku.nim:100-398 | a call makes at most one callback of its own, with its own callback, user data and returned code; every RET_ERR has one; RET_MISSING_CALLBACK iff the callback of one of six calls is nil; events need both registered pointers |
| LibWaku.SendingCall | library/libwaku.nim:207-398 | publish, subscribe, unsubscribe, connect and listen addresses return RET_OK iff the worker answers with success, RET_ERR otherwise, and report its text as a C string, or the transport's error; subscribing and connecting are silent on success |
| LibWaku.UnsentPublish | library/libwaku.nim:222-238 | a text that does not parse or build is reported with RET_ERR; another exception leaves the call without a status |
| LibWaku.PlainCalls | library/libwaku.nim:100-128 | the texts and codes of the calls that send nothing or discard the answer |
| LibWaku.EventDelivery | library/libwaku.nim:41-63 | an event arrives with RET_OK and its own text, an exception with RET_ERR |
| LibWaku.RegisteredIsLastSet | library/libwaku.nim:130-134 | the registered pair is the one set last |
| LibWaku.EveryCallbackIsAttributed | library/libwaku.nim:41-398 | in any interleaving the callbacks belong one to one, in order, to calls with their code or to events with the pair registered at that time; no call that returns RET_ERR and no event with both pointers set is left out |
| LibWaku.HeapConservation | library/libwaku.nim:136-398 | a run gives back exactly what it took, each block freed once, iff it sends no relay request, all other requests are answered and no JSON fails to parse |
| LibWaku.LeakTable | library/waku_thread/waku_thread.nim:104-130 | the exact number of blocks left by each call for every fate of its request |
| LibWaku.LeakExample | library/libwaku.nim:291-312 | a subscription that succeeds leaves a block behind |
| LibWaku.RequestsHandled | library/libwaku.nim:207-398 | the request that each call has handled; unsubscribing subscribes |
| LibWaku.RequestArrivesIntact | library/waku_thread/inter_thread_communication/requests/protocols/relay_request.nim:33-79 | the request that the worker reads is the one sent iff its strings are NUL-free and its message carries no proof |
| LibWaku.PublishedIntact | library/libwaku.nim:248-257 | the node publishes the message built from the JSON text iff its content topic has no NUL and it carries no proof |
| LibWaku.CutTopicExample | library/waku_thread/inter_thread_communication/requests/protocols/relay_request.nim:46-70 | content topic a, NUL, b goes out as a |
| LibWaku.ContentTopicCall | library/libwaku.nim:136-165 | the reported content topic is the caller's strings and the one numeral of the number between slashes, and parses back to them iff the strings are non-empty and slash-free |
| LibWaku.PubsubTopicCall | library/libwaku.nim:167-186 | the reported pubsub topic is the caller's name behind /waku/2/, and is read back as that name iff it is not empty and does not begin with rs |
| LibWakuApi.Library.CreateRequest | library/waku_thread/inter_thread_communication/requests/protocols/relay_request.nim:33-55 | a request occupies its number of fresh blocks, which hold its strings with their NULs and its bytes |
| LibWakuApi.Library.ReadRequest | library/waku_thread/inter_thread_communication/requests/protocols/relay_request.nim:66-103 | the worker rebuilds the request from the blocks, each string up to its first NUL |
| LibWakuApi.Library.DestroyRequest | library/waku_thread/inter_thread_communication/requests/protocols/relay_request.nim:57-64 | all blocks of a request are freed once, except the pubsub topic |
| LibWakuApi.Library.SendRequest | library/waku_thread/waku_thread.nim:104-130 | the answer as a C string, the request handled as read off the heap, and the exact number of blocks left behind for every way a request can end |
| LibWakuApi.Library.WakuContentTopic | library/libwaku.nim:136-165 | outcome as specified; the heap is as before |
| LibWakuApi.Library.WakuPubsubTopic | library/libwaku.nim:167-186 | outcome as specified; the heap is as before |
| LibWakuApi.Library.ParseJson | library/libwaku.nim:222-233 | the copy of the text is freed once, or twice if it does not parse |
| LibWakuApi.Library.WakuRelayPublish | library/libwaku.nim:207-267 | status, callback, heap and the request as the worker reads it, on every path |
| LibWakuApi.Library.WakuRelaySubscribe | library/libwaku.nim:291-337 | the same for subscribing and unsubscribing, which sends the same operation |
| LibWakuApi.Library.WakuConnect | library/libwaku.nim:339-360 | the same for connecting |
| LibWakuApi.Library.WakuListenAddresses | library/libwaku.nim:381-398 | the same for the listen addresses |
| LibWakuApi.Library.WakuStartStop | library/libwaku.nim:269-289 | the answer is discarded: RET_OK and no callback whatever happened |
| LibWakuApi.Library.DeliverRelayEvent | library/libwaku.nim:41-63 | one callback to the registered pair iff both are set |
| LibWakuApi.Library.Session | library/libwaku.nim:100-398 | a whole run of the procs, up to a successful destroy, makes the specified callbacks, has the specified requests handled, leaves the specified number of blocks and changes no other block |

## Left out

- Base64.Encode64: what C does after a store beyond the buffer is undefined; the model's run ends there. `malloc` always succeeds.
- Base64.FillBuffer: stands for the inline loop; its buffer is distinct from the input, as `malloc` guarantees.
- FilterClient.Economy: counts a ping that does not get through as a loss, since the loop cannot tell it from one.
- FilterService.MaintainSubscription: plays the rounds it is given, since the loop of the source has no end; the sleep lasts exactly the interval and lateness counts as request delay.
- LibWaku.HeapConservation: counts blocks; the block of the context itself and `waku_new` are not part of this model, and a freed address is never handed out again.
- EpochTracker.ClockedRun: epochs are whole-second division; the floating-point conversion of `calcEpoch` and clocks beyond 2^64 seconds are not modelled.
- Chat.ChatClient.Publish: failures of the node's own publish are only logged in the source and have no effect here.
- Chat.ChatClient.PublishAll: lines typed before the client has started, commands, and changes of nick between lines.
- Pushing a message to a filter peer (dialling, writing, its 20 s timeout); the model stops at the set of recipients.
- The counter of the filter table and its limits are unbounded numbers; the source's `uint` sums stay far below 2^64.
- Request ids, metrics, logging and the wire format of the filter protocol.
- The size limit of the minprotobuf library, which is not part of this repository; conversions between `int64` and `uint64` keep the 64 bits.
- Proof generation of RLN, the nonce manager, and everything about membership groups.
- JSON parsing and message building of the C API: their outcomes are parameters.
- An empty message text passed to a callback, where indexing its first byte would raise; texts are taken as non-empty.
- Nil strings, and a nil callback in the procs that do not check it; both crash in the source.
- Reading a request's name for an error text after the worker may have freed it.
- The build with RLN proofs in relay requests, which would add one more block to each; the repository's Makefile defines `rln_v2`, not the `rln` it asks for.
- Static pubsub topics given as numbers with leading zeros or signs, beyond what `Base10` accepts.
- The C, C++, Node, Go, Python and Rust examples around these files, and the chat prompt.
