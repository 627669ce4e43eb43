# Verified model of the mediasoup C++ controller

This Dafny project models the parts of the controller whose correctness no single
function shows, and proves what they guarantee together:

- **Semaphore and blocking queue** (`Semaphore.dfy`, `LightweightSemaphore.dfy`,
  `BlockingQueue.dfy`, `BlockingConcurrentQueue.dfy`). Any number of threads, one
  atomic operation per step. The accounting invariants are sums over all threads,
  and the consequences hold for every schedule: no lost wake-up, no permit granted
  twice, an item reserved for every spinning consumer. Run alone, every operation is
  shown to do what its sequential description says. `Sums.dfy` has the sums.
- **Codec negotiation** (`H264.dfy`, `Codecs.dfy`, `RouterCapabilities.dfy`,
  `ProducerMapping.dfy`, `ConsumerParameters.dfy`, `Negotiation.dfy`,
  `NegotiationExamples.dfy`). The four stages from router capabilities to a
  consumer's codecs, with the loops of the
  source as methods proved against functions, and claims that cross the stages.
- **Channel framing** (`ChannelFraming.dfy`). The reader that works in place on a
  fixed buffer does what a one-shot decoder of the whole stream does, however the
  stream is cut into reads.
- **Requests and responses** (`ChannelRequests.dfy`), **SCTP stream ids**
  (`SctpStreams.dfy`), **lifecycle cascades** (`Controllers.dfy`) and
  **pause signals** (`PauseState.dfy`).

Every step system is a function on a state, so a run is a sequence of events. The
mutable objects of the source are classes whose methods are proved to take exactly
those steps; retry loops that need not end under every schedule appear as steps
that lead back to the same point, not as Dafny loops.

## How the model reads the source

- Atomics are sequentially consistent. A wait without timeout blocks on the kernel
  semaphore until a token exists; a kernel post of several tokens is one post at a
  time. The waits for one permit (`lightweightsemaphore.h:278-312`, `357-366`) take
  the branches of the bulk waits for a maximum of 1 and are not written twice.
- The inner queue is a bag. An extraction may yield fewer items than it could,
  including none. An insertion of several items is one step.
- Taking a payload type from an empty free list, which is undefined behaviour in
  the source, is a failure. A codec without a `parameters` object is treated as one
  with an empty object; the source reads a missing JSON member there.
- `codecToCapCodec[...]` may insert a default entry. The model keeps it under the
  looked-up payload type, with 0 as its mapped type; `AptMustNameMedia` shows that
  over a router's list no successful mapping ever makes one, whatever types repeat.
- `getProducerRtpParametersMapping` asks for the rewriting form of `matchCodecs`,
  but rewrites a temporary copy, so the producer's codecs stay as they were.
- An apt that is not an integer has been refused by validation before it is read.
- The worker refuses requests for closed objects, and refuses a producer or data
  producer id in use on the router (`worker/src/RTC/Router.cpp:499-502`,
  `838-844`). The controllers themselves look for a used id on one transport only.
  Ids of consumers are fresh. The channel is alive.

## What turned out not to hold

- The answer of `canConsume` is not exact. `GapExact` says when it is no although a
  consumer can be created, with RTX enabled or not; `GapIsReached` follows an ordinary
  case through all stages: a router and a producer for VP8 and VP9, and an endpoint
  that supports VP9 and RTX.
- Payload types are narrowed to 8 bits when codecs are offered, and the generator does
  not check that requested types fit. `TypesKeptExactly` gives the condition on the
  request under which no producer is offered under another type than it is mapped to,
  and the end-to-end theorem asks for no more. `NarrowingBreaksOffer` follows a
  request for type 356 through the stages.
- A producer in which an RTX codec has the payload type of a media codec gets its
  media codec mapped to an RTX entry. `MediaStaysMedia` shows that this is the only
  way, and `ClashIsAccepted` that it happens: the offer then has no media codec.
- A producer whose codecs share payload types in other ways need not be mapped as each
  codec calls for. `MappingMeaning` says exactly when it is.
- An H.264 capability without `profile-level-id` strictly matches nothing, itself
  included (`StrictReflexive`).
- With all SCTP streams taken, the next data consumer gets stream 0. `RunExclusive`
  says exactly which runs keep stream ids exclusive.

## Model

| member | source | states |
|---|---|---|
| Semaphore.NextKeepsInv | deps/concurrentqueue/lightweightsemaphore.h:278-418 | every step of every thread keeps: permits issued = count + permits granted + waiting threads; waiting threads = max(0, -count) + kernel tokens + tokens promised by signallers; permits granted = permits returned to callers + permits still held |
| Semaphore.PermitsAccounted | deps/concurrentqueue/lightweightsemaphore.h:278-418 | over every run the initial count and the permits of all signals begun, counted from the schedule, are in the count, granted, owed to waiting threads, or not yet announced |
| Semaphore.ActBalanced | deps/concurrentqueue/lightweightsemaphore.h:278-418 | one atomic operation moves the shared counters by exactly what the acting thread's own position accounts for, and leaves it at a position its call can reach |
| Semaphore.NoLostWakeup | deps/concurrentqueue/lightweightsemaphore.h:290-311 | in every reachable state, a waiting thread that would see a count of 0 or more has a token posted or about to be posted, in the undo loop too |
| Semaphore.WaitsOnlyWhenExhausted | deps/concurrentqueue/lightweightsemaphore.h:409-418 | a wait with no token present or under way means that every permit ever issued has been granted |
| Semaphore.NeverOvergranted | deps/concurrentqueue/lightweightsemaphore.h:409-424 | over every run, permits returned never exceed the initial count plus those signalled, and the availability estimate counts only permits not granted |
| Semaphore.Quiescent | deps/concurrentqueue/lightweightsemaphore.h:274-276 | when no call is in progress the kernel semaphore is empty and the count, which the estimate then shows, is the permits issued and not returned |
| Semaphore.WaitEndsAlone | deps/concurrentqueue/lightweightsemaphore.h:304-348 | with no token still being posted, a blocked thread that has a token, and any thread in the timeout-undo loop, ends its wait within three steps of its own; a blocked one, and any at a count of 0 or more, with a permit from a token, the others with the count restored |
| Semaphore.BlockedWakes | deps/concurrentqueue/lightweightsemaphore.h:331-336 | a blocked thread takes a token if there is one and then has a permit; without one it stays; a timeout of a bounded wait leaves it registered |
| Semaphore.SignalWakes | deps/concurrentqueue/lightweightsemaphore.h:331-418 | a signal run alone while a thread is blocked below a count of 0 lets that thread end its wait with a permit by its next step |
| Semaphore.TakesGreedily | deps/concurrentqueue/lightweightsemaphore.h:314-390 | a thread that finds permits, or tries without waiting, or tops up, from whatever point and whatever it saw before, ends alone with all spare permits up to its maximum |
| Semaphore.EmptyOnlyByUndo | deps/concurrentqueue/lightweightsemaphore.h:338-342 | a blocking wait comes back empty-handed only by undoing its registration, at a count below 0 |
| Semaphore.BlocksWhenEmpty | deps/concurrentqueue/lightweightsemaphore.h:314-335 | without a permit a wait spins as often as it is told to and registers; without a timeout, or with one, it then blocks |
| Semaphore.CallAlone | deps/concurrentqueue/lightweightsemaphore.h:357-418 | the sequential meaning of every operation: begun by an idle thread and run alone it returns; a signal adds its permits and posts a token for each waiting thread it has a permit for, any other call returns all spare permits up to its maximum, and a timed wait without any changes nothing |
| LightweightSemaphoreObject.LightweightSemaphore.TryOnce | deps/concurrentqueue/lightweightsemaphore.h:379-390 | the loop of the non-blocking bulk wait, one atomic operation at a time, as the step function says |
| LightweightSemaphoreObject.LightweightSemaphore.SpinOnce | deps/concurrentqueue/lightweightsemaphore.h:314-331 | the spinning phase and the registration, likewise |
| LightweightSemaphoreObject.LightweightSemaphore.BlockOnce | deps/concurrentqueue/lightweightsemaphore.h:331-348 | blocking, timing out and undoing, likewise; a blocked thread takes a token that is there |
| LightweightSemaphoreObject.LightweightSemaphore.SignalOnce | deps/concurrentqueue/lightweightsemaphore.h:409-418 | the signal: the addition to the count and the release of that many waiters |
| LightweightSemaphoreObject.LightweightSemaphore.FinishCall | deps/concurrentqueue/lightweightsemaphore.h:392-407 | a bulk wait returns at most what was asked, and one without timeout never returns 0 for a positive maximum |
| LightweightSemaphoreObject.LightweightSemaphore.Execute | deps/concurrentqueue/lightweightsemaphore.h:268-425 | any schedule carried out in place reaches the state the step functions give, with the accounting intact |
| LightweightSemaphoreObject.LightweightSemaphore.Approximate | deps/concurrentqueue/lightweightsemaphore.h:420-424 | the estimate never exceeds the permits that are issued and not granted |
| BlockingQueue.PerformKeepsInv | deps/concurrentqueue/blockingconcurrentqueue.h:123-202 | every action keeps: items offered = items inside + items in threads' hands + items delivered; items offered = permits issued + items not yet announced; permits returned = items extracted + items still to extract |
| BlockingQueue.InnerCount | deps/concurrentqueue/blockingconcurrentqueue.h:294-351 | items in the inner queue = (count + waiting threads) + items not yet announced + permits granted for items not yet extracted |
| BlockingQueue.SpinCanFinish | deps/concurrentqueue/blockingconcurrentqueue.h:359-473 | in every reachable state a thread in an extraction loop can take all the items it still needs, so its spinning can end and a bulk loop can reach its count |
| BlockingQueue.ReservationsFit | deps/concurrentqueue/blockingconcurrentqueue.h:327-335 | the items needed by all spinning threads, permit holders and pending announcements together are in the inner queue |
| BlockingQueue.SizeApproxSafe | deps/concurrentqueue/blockingconcurrentqueue.h:538-541 | the size estimate never exceeds the items the inner queue holds |
| BlockingQueue.SizeApproxExact | deps/concurrentqueue/blockingconcurrentqueue.h:538-541 | with every thread outside the queue the estimate is the number of items inside |
| BlockingQueue.InsertedIsSomewhere | deps/concurrentqueue/blockingconcurrentqueue.h:123-202 | over every run the items of all insertions that succeeded, collected from the schedule, are inside, in threads' hands, or delivered |
| BlockingQueue.EnqueueAlone | deps/concurrentqueue/blockingconcurrentqueue.h:123-202 | the sequential meaning of the enqueue operations: run alone, all items are put in, a permit is added for each, and a token posted for each waiting consumer there is an item for |
| BlockingQueue.DequeueAlone | deps/concurrentqueue/blockingconcurrentqueue.h:294-473 | the sequential meaning of the dequeue operations: run alone, a call that needs no help takes out and delivers as many items as there are spare permits, up to its maximum |
| BlockingQueue.BlockedLeavesNothing | deps/concurrentqueue/blockingconcurrentqueue.h:359-367 | while a consumer stays blocked and no signal is under way, every item in the inner queue is reserved for another thread |
| BlockingConcurrentQueueObject.BlockingConcurrentQueue.InsertItems | deps/concurrentqueue/blockingconcurrentqueue.h:123-271 | on success the items are inside and a signal of as many permits has begun; a refused insertion changes and signals nothing |
| BlockingConcurrentQueueObject.BlockingConcurrentQueue.ReturnFromSemaphore | deps/concurrentqueue/blockingconcurrentqueue.h:447-456 | a consumer sets out to extract exactly as many items as it was granted permits |
| BlockingConcurrentQueueObject.BlockingConcurrentQueue.ExtractItems | deps/concurrentqueue/blockingconcurrentqueue.h:331-333 | one round of the extraction loop keeps the accounting |
| BlockingConcurrentQueueObject.BlockingConcurrentQueue.DeliverItems | deps/concurrentqueue/blockingconcurrentqueue.h:334-335 | what a dequeue hands out is what it extracted, all of it offered before |
| BlockingConcurrentQueueObject.BlockingConcurrentQueue.SizeApprox | deps/concurrentqueue/blockingconcurrentqueue.h:538-541 | the returned size is at most the number of items inside, and is that number when every thread is outside the queue |
| H264.PrintParse | controller/h264_profile_level_id.cc:193-237 | an identifier has a string exactly when it is not level 1b of a profile without that level, and the string parses back to it |
| H264.ParsePrintParse | controller/h264_profile_level_id.cc:123-176 | every accepted string has a canonical string with the same profile and level |
| H264.ParseMeaning | controller/h264_profile_level_id.cc:123-176 | six hexadecimal digits are read as the profile, constraint and level bytes, each looked up by its meaning |
| H264.CaseDoesNotMatter | controller/h264_profile_level_id.cc:129 | upper-case and lower-case digits mean the same |
| H264.FindProfileMeaning | controller/h264_profile_level_id.cc:63-72 | the profile table in terms of the bits of the constraint byte |
| H264.FindLevelMeaning | controller/h264_profile_level_id.cc:135-165 | level 1b is 11 with constraint set 3, level 1.1 is 11 without it, any other level is its number |
| H264.ParsedIsPrintable | controller/h264_profile_level_id.cc:139-172 | the parser yields level 1b only for profiles that have it |
| H264.LevelOrder | controller/h264_profile_level_id.cc:75-83 | the comparison is a strict total order with 1b between 1 and 1.1 |
| H264.AnswerIsPrintable | controller/h264_profile_level_id.cc:240-269 | for parsed identifiers of equal profile the string that the answer dereferences exists |
| H264.AnswerMeaning | controller/h264_profile_level_id.cc:240-269 | the answer names the common profile; without level asymmetry its level exceeds neither side and does not depend on who answers, with it the level is the local one |
| Codecs.MatchIffSameKey | controller/ortc.cpp:830-932 | codecs match, strictly or not, exactly when both have a key and the keys are equal |
| Codecs.MatchLaws | controller/ortc.cpp:830-932 | matching is symmetric and transitive, strict implies loose, and a match relates media to media and RTX to RTX |
| Codecs.H264Match | controller/ortc.cpp:872-915 | H.264 codecs match exactly when their clock rates are equal and, strictly, their packetization modes are equal and both profile-level-ids parse to one profile |
| Codecs.Vp9Match | controller/ortc.cpp:918-929 | VP9 codecs match exactly when their clock rates are equal and, strictly, their profile ids, which default to 0 |
| Codecs.MultiOpusMatch | controller/ortc.cpp:858-871 | multiopus codecs match exactly when their clock rates and stream counts are equal |
| Codecs.OpusMatch | controller/ortc.cpp:849-856 | opus codecs match exactly when their clock rates and channels are equal |
| Codecs.PlainMatch | controller/ortc.cpp:838-847 | other codecs match exactly when their names agree up to case and their clock rates are equal |
| Codecs.IsRtxMeaning | controller/ortc.cpp:934-942 | the RTX codecs are the audio and video codecs of that name, in any case |
| Codecs.StrictReflexive | controller/ortc.cpp:797-811 | strict matching is reflexive exactly on codecs whose H.264 profile parses; without a profile-level-id nothing matches |
| Codecs.ModifyKeepsMatch | controller/ortc.cpp:897-915 | a rewriting match changes nothing but the profile-level-id of an H.264 codec, which becomes one of the common profile, at the first codec's level if both allow asymmetry and else at the lower one; the codec keeps its key and its partner |
| RouterCapabilities.PlaceAllShape | controller/ortc.cpp:650-743 | at every iteration payload types are distinct and not 0, every video codec is directly followed by its RTX codec and vice versa, RTX types are dynamic, and the free list is without duplicates and disjoint from the types placed |
| RouterCapabilities.PlaceAllOffers | controller/ortc.cpp:655-718 | the media entries are, in order, exactly what the supported requested codecs call for: MIME type, clock rate and channels of the supported codec, every requested parameter with its requested value and every other one of the supported codec, and the requested, static or a dynamic payload type |
| RouterCapabilities.BaseMeaning | controller/ortc.cpp:655-675 | a requested codec, normalised as validation does, is supported exactly when it matches some entry of the table, and by the first that it matches |
| RouterCapabilities.PlaceAllFree | controller/ortc.cpp:689-731 | at every iteration the free list is, in order, exactly the dynamic types not placed yet, so a dynamic choice is always the first type not taken |
| RouterCapabilities.PlaceChooses | controller/ortc.cpp:689-731 | a dynamic choice is the first free type, and an RTX codec gets the first type that is free after its media codec |
| RouterCapabilities.PlaceAllBytes | controller/ortc.cpp:674-700 | the types of the list fit a byte exactly when those of the supported requested codecs do; unsupported ones do not matter |
| RouterCapabilities.PlacingFailsIff | controller/ortc.cpp:655-731 | a request fails at a codec exactly when the codec is invalid, or it is supported and its requested or static type is taken, or too few dynamic types are untaken for it and its RTX codec |
| RouterCapabilities.GenerateRouterRtpCapabilities | controller/ortc.cpp:637-746 | the loop computes that list, well placed and with an entry for every supported requested codec, and fails exactly when it is undefined |
| ProducerMapping.MappingMeaning | controller/ortc.cpp:944-1037 | a successful mapping is defined on exactly the producer's payload types; it sends every media codec to the first entry it matches, which is media, RTX to RTX, and commutes with apt, exactly when codecs sharing a type are of one sort and call for the same entry, as with distinct types |
| ProducerMapping.MappingSpelledOut | controller/ortc.cpp:944-1022 | over a router's list, whatever types repeat, the mapping succeeds exactly when every media codec matches some entry and every RTX codec's apt is the type of a media codec mapped to a video entry that no earlier RTX codec took over; a type then goes to the first match of the last media codec that has it, or, if an RTX codec has it, to the RTX entry behind the entry of the media codec its apt names |
| ProducerMapping.VideoHasRtx | controller/ortc.cpp:1005-1020 | in a router's list exactly the video entries have an RTX entry, and the search finds the next one |
| ProducerMapping.FindStrictFirst | controller/ortc.cpp:955-969 | the search finds an entry exactly when some entry matches, and then the first that does |
| ProducerMapping.MediaStaysMedia | controller/ortc.cpp:971-1022 | for any payload types, a successful mapping sends every media codec to a media entry exactly when no RTX codec has the payload type of a media codec |
| ProducerMapping.MappingInjective | controller/ortc.cpp:1026-1037 | under that condition on shared types, it is injective exactly when it is injective on media codecs and no two RTX codecs share an apt |
| ProducerMapping.AptMustNameMedia | controller/ortc.cpp:989-1021 | over a router's list and whatever types repeat, an RTX codec is accepted only if its apt is the type of a media codec that has an entry by then, so the default entry is never used |
| ProducerMapping.AptNamesMedia | controller/ortc.cpp:720-742 | in the router's list an apt is not 0, is not the type of an RTX codec, and belongs to one RTX codec |
| ProducerMapping.GetProducerRtpParametersMapping | controller/ortc.cpp:944-1037 | the two passes compute that mapping; over a router's list they succeed exactly on the producers described by MappingSpelledOut |
| ConsumerParameters.ConsumableShape | controller/ortc.cpp:1085-1150 | every consumable entry has the payload type of a router entry of its own sort, and every RTX entry directly follows the media codec its apt names |
| ConsumerParameters.OfferContents | controller/ortc.cpp:1111-1149 | a media codec is offered under its mapped type with the producer's key and parameters, followed by at most one RTX codec whose apt is that type; a video codec always has one |
| ConsumerParameters.ConsumableLists | controller/ortc.cpp:1085-1150 | the media codecs of the whole consumable list are the producer's media codecs, one each and in order, with their parameters under their mapped types, and matched by what the producer's are matched by; each of a video entry is directly followed by that entry's RTX codec |
| ConsumerParameters.GetConsumableRtpParameters | controller/ortc.cpp:1089-1150 | the loop computes the consumable list |
| ConsumerParameters.OfferedTypesExact | controller/ortc.cpp:1089-1117 | over a router's list, every accepted producer is offered under the types it is mapped to exactly when all entries that media codecs can be mapped to have types that fit 8 bits |
| ConsumerParameters.SanitizedMeaning | controller/ortc.cpp:1272-1311 | where no apt names an RTX codec, the backward erasing loop leaves in order exactly the media codecs and the RTX codecs whose apt is present, and reports RTX exactly when an RTX codec remains |
| ConsumerParameters.EraseUselessRtx | controller/ortc.cpp:1273-1311 | the in-place backward loop computes the same list and flag as its step function |
| ConsumerParameters.WellOfferedApts | controller/ortc.cpp:1121-1149 | every consumable list meets the condition of the erasing loop |
| ConsumerParameters.ConsumerMedia | controller/ortc.cpp:1231-1316 | the media codecs a consumer gets are the offered ones its endpoint supports, in order |
| ConsumerParameters.GetConsumerRtpParameters | controller/ortc.cpp:1226-1316 | the matching pass, the erasing pass and the check for media, with its failures |
| ConsumerParameters.CanConsumeSuffices | controller/ortc.cpp:1191-1224 | a yes is never followed by a refusal for want of media codecs, with RTX enabled or not |
| ConsumerParameters.CanConsumeGap | controller/ortc.cpp:1218-1223 | a no is wrong, with RTX enabled or not, exactly when some media codec is supported but the first supported entry is an RTX codec; without RTX over any list, with RTX over a router's offer |
| ConsumerParameters.WithRtxThenWithout | controller/ortc.cpp:1231-1311 | over any list, whoever gets a consumer with RTX gets one without |
| ConsumerParameters.SuccessWithRtx | controller/ortc.cpp:1231-1311 | with RTX a consumer can be created exactly when only RTX codecs without their media codec precede the first supported media codec |
| ConsumerParameters.RtxDoesNotDecide | controller/ortc.cpp:1231-1311 | over a router's offer a consumer can be created with RTX exactly when one can be created without |
| ConsumerParameters.CheckCanConsume | controller/router_controller.cpp:921-943 | the router's answer: no for an unknown producer and for refused capabilities |
| Negotiation.EndToEnd | controller/ortc.cpp:637-1316 | when all stages succeed, the consumer gets exactly the offered media codecs supported remotely and, if enabled, the supported RTX codecs whose apt names one of them; the first codec is media, every entry has the type of a router entry of its own sort, every RTX codec's apt is the type of a media codec in the list, and RTX is reported exactly when present |
| Negotiation.ConsumerGets | controller/ortc.cpp:637-1316 | from producer to consumer: the consumer's media codecs are those of the producer that the endpoint supports, one each and in order, with their parameters under their mapped types; and a consumer can be created, with RTX enabled or not, exactly when there is one |
| Negotiation.OfferWellFormed | controller/ortc.cpp:637-1150 | the consumable list is well formed for any request that keeps payload types and any producer whose RTX codecs share no type with its media codecs |
| Negotiation.OfferLists | controller/ortc.cpp:637-1150 | the same from the request on: what the router offers of a producer is its media codecs, one each and in order, with each video codec's RTX codec behind it |
| Negotiation.TypesKeptExactly | controller/ortc.cpp:674-1117 | every producer the router accepts is offered under the types it is mapped to exactly when every supported requested codec that is the first of its key has a type that fits a byte |
| Negotiation.GapExact | controller/ortc.cpp:1191-1316 | for such a request, and a producer whose shared types agree, exactly when the router says no although a consumer can be created, with RTX enabled or not |
| Negotiation.HiddenMedia | controller/ortc.cpp:1198-1223 | an unsupported first codec whose RTX codec is supported hides every later media codec from canConsume |
| NegotiationExamples.GapIsReached | controller/ortc.cpp:1191-1224 | a request and a producer for VP8 and VP9 and an endpoint with VP9 and RTX, taken through the stages: canConsume says no although a consumer can be created, with RTX enabled or not |
| NegotiationExamples.NarrowingBreaksOffer | controller/ortc.cpp:674-1117 | a router asked for VP8 under type 356 accepts a VP8 producer, maps it to 356, and offers it under type 100, the type of its RTX codec |
| NegotiationExamples.ClashIsAccepted | controller/ortc.cpp:971-1022 | a VP8 producer whose RTX codec has the same payload type is accepted, its one type is mapped to the RTX entry, and the offer has no media codec |
| ChannelFraming.DecodeAppend | controller/channel_socket.cpp:127-166 | decoding in two parts is decoding the whole: the second part continues with what the first left |
| ChannelFraming.RoundTrip | controller/channel_socket.cpp:142-153 | encoded payloads decode to themselves with nothing left over |
| ChannelFraming.DecodeEncode | controller/channel_socket.cpp:142-165 | the messages encoded again, followed by the residual bytes, are the stream |
| ChannelFraming.LengthMeaning | controller/channel_socket.cpp:142-144 | the four length bytes are read with the least significant first |
| ChannelFraming.ChunksDoNotMatter | controller/channel_socket.cpp:123-166 | what is delivered does not depend on how the stream is cut into reads |
| ChannelFraming.ChunkedRoundTrip | controller/channel_socket.cpp:123-166 | any payloads, encoded and fed in any chunks, come out as they went in |
| ChannelFraming.RestFits | controller/channel_socket.cpp:20-21 | if announced lengths are within the payload limit, the residual is always shorter than the buffer |
| ChannelFraming.DeliverableIffFits | controller/channel_socket.cpp:146-149 | a pending frame can still be completed within the buffer exactly when its length is within the limit; otherwise nothing is delivered again |
| ChannelFraming.ConsumerSocket.OnUvReadAlloc | controller/unix_stream_socket_handle.cpp:294-315 | the room offered is the rest of the buffer, and is never 0 while announced lengths are within the limit |
| ChannelFraming.ConsumerSocket.OnUvRead | controller/unix_stream_socket_handle.cpp:317-332 | after every read the messages delivered and the bytes kept are the one-shot decoding of all bytes received; if the listener closes the socket in one of the callbacks, delivery ends with exactly that message |
| ChannelFraming.ConsumerSocket.UserOnUnixStreamRead | controller/channel_socket.cpp:123-166 | delivers all complete frames in the buffer, or those up to the callback that closes the socket, and leaves the rest at its front |
| ChannelRequests.IdsCycle | controller/channel.cpp:78-82 | no id is 0, and two calls get the same id exactly when a multiple of 2^32 - 1 calls lies between them |
| ChannelRequests.RegisteredIff | controller/channel.cpp:246 | a request is registered exactly when no waiting request is a multiple of 2^32 - 1 requests away from it, whatever came between taking the id and registering |
| ChannelRequests.SettledBy | controller/channel.cpp:273-304 | a response settles a waiting request exactly if it carries its id and accepts or rejects |
| ChannelRequests.StrayResponse | controller/channel.cpp:277-280 | unknown and repeated responses change nothing |
| ChannelRequests.OutcomesStable | controller/channel.cpp:205-223 | a settled request is never settled again or differently, over every run |
| ChannelRequests.PromptRunsLoseNothing | controller/channel.cpp:195-271 | over every run in which requests are answered before their ids come round, each request is settled, waits under its own id, or is still to be registered |
| ChannelRequests.Channel.GenRequestId | controller/channel.cpp:78-82 | one atomic step: the counter advances, wrapping from 2^32 - 1 to 1, and the new id belongs to the new request |
| ChannelRequests.Channel.Request | controller/channel.cpp:205-246 | registers the callback under its id unless an older one is still there |
| ChannelRequests.Channel.ProcessResponse | controller/channel.cpp:273-304 | settles and removes the callback with that id, or does nothing |
| SctpStreams.DataConsumers.GetNextSctpStreamId | controller/abstract_transport_controller.cpp:806-833 | the first unmarked slot in circular order from the cursor, which moves behind it; 0 with all slots marked, -1 without streams; the list is made on first use with every slot unmarked and is otherwise left alone |
| SctpStreams.DataConsumers.ConsumeData | controller/abstract_transport_controller.cpp:717-783 | the new consumer's stream is the first free one, no other slot changes, and ids stay exclusive exactly when a slot was free, the worker refused, or nobody held stream 0 |
| SctpStreams.DataConsumers.Remove | controller/abstract_transport_controller.cpp:785-799 | the handler forgets the consumer and frees exactly its slot |
| SctpStreams.RunExclusive | controller/abstract_transport_controller.cpp:717-833 | over every run, live data consumers hold pairwise distinct marked streams all the time exactly when each accepted one came while a slot was free or nobody held stream 0 |
| SctpStreams.EventEffect | controller/abstract_transport_controller.cpp:717-833 | what each event does: a new consumer marks the first free slot, or slot 0, and holds it if accepted; the end of a live consumer forgets it and frees its slot; nothing else changes anything |
| SctpStreams.LiveTellsTheEvents | controller/abstract_transport_controller.cpp:782-799 | over every run the live consumers are those accepted and not ended since, as the events tell |
| SctpStreams.SearchMeaning | controller/abstract_transport_controller.cpp:821-832 | the search finds the first unmarked slot in circular order, and nothing exactly when every slot is marked |
| SctpStreams.RemovedTwice | controller/data_consumer_controller.cpp:434-449 | the second firing of the removal handler changes nothing |
| SctpStreams.CapacityKeepsExclusive | controller/abstract_transport_controller.cpp:717-799 | in particular when every data consumer is created while a slot is unmarked |
| SctpStreams.DataConsumers.PerformAll | controller/abstract_transport_controller.cpp:717-833 | any run of consume and close events, in place, reaches the state of the step function; the handler runs twice when a data producer closes |
| Controllers.RouterController.EndMember | controller/producer_controller.cpp:48-105 | closing a member, alone or on notice, closes it once with one signal, removes it from its transport's and the router's maps, and touches nothing else |
| Controllers.RouterController.CloseMember | controller/abstract_transport_controller.cpp:400-410 | the same for one member inside a cascade, with the handlers of both levels |
| Controllers.RouterController.CloseTransport | controller/abstract_transport_controller.cpp:45-125 | the end of a transport closes exactly its open members, one signal each, and unregisters it; passing a signal on twice changes nothing |
| Controllers.RouterController.Close | controller/router_controller.cpp:95-145 | after the router has closed, everything it held is closed, each open object with exactly one close signal, and its maps are empty |
| Controllers.RouterController.Create | controller/abstract_transport_controller.cpp:292-412 | a member is created exactly on an open transport with an unused key, and entered in the maps |
| Controllers.RouterController.CreateTransport | controller/router_controller.cpp:945-967 | a new transport is registered on an open router only |
| Controllers.RouterController.PerformAll | controller/router_controller.cpp:945-1022 | over every run of events, in place, the state is that of the step function, the maps agree, every member keeps its kind, id and owner and at most is closed, once, with one signal, and a closed router stays empty |
| Controllers.ClosedTellsTheEvents | controller/abstract_transport_controller.cpp:45-125 | over every run a member is closed exactly if it was before or some event was its end: its own, its transport's, or the router's |
| Controllers.MemberEffect | controller/abstract_transport_controller.cpp:398-410 | one event closes a member, with one signal, exactly if it is its end and the member is open, and otherwise leaves it alone |
| Controllers.CreationEffect | controller/router_controller.cpp:945-967 | one event adds a member exactly on an open transport under an unused key and a transport exactly on an open router, and ends a transport exactly if it is its end or the router's |
| Controllers.EndOfRouterEndsAll | controller/router_controller.cpp:95-145 | over every run the router is closed exactly if its end was among the events, and then nothing on it is open |
| Controllers.RouterMapIsUnion | controller/router_controller.cpp:969-1021 | the router's map of producers or data producers is the union of its transports' maps |
| Controllers.NothingLeftToErase | controller/abstract_transport_controller.cpp:74-91 | the second producerCloseSignal of a closing transport erases nothing |
| Controllers.EraseOne | controller/router_controller.cpp:984-995 | erasing by id removes exactly the closed object |
| PauseState.SignalsTellTheState | controller/consumer_controller.cpp:210-262 | over every sequence of calls and notifications the emitted signals strictly alternate and the last one agrees with (paused or producer paused) |
| PauseState.FlagsTellTheEvents | controller/consumer_controller.cpp:210-262 | over every sequence of events the latest local call decides whether the consumer is paused, the latest notification whether its producer is |
| PauseState.EmitsOnChange | controller/consumer_controller.cpp:224-252 | a signal is emitted exactly when an event starts or ends the silence, and says which |
| PauseState.ConsumerController.PauseConsumer | controller/consumer_controller.cpp:210-235 | takes the pause step, after which the signals emitted so far still alternate and tell the state |
| PauseState.ConsumerController.ResumeConsumer | controller/consumer_controller.cpp:237-262 | the same for the resume step |
| PauseState.ConsumerController.OnProducerPause | controller/data_consumer_controller.cpp:454-466 | the same for the notification that the data producer was paused, which changes nothing when repeated |
| PauseState.ConsumerController.OnProducerResume | controller/data_consumer_controller.cpp:467-479 | the same for the notification that it was resumed |

## Left out

- Memory ordering: atomics are sequentially consistent steps; counts are unbounded integers, so neither overflow of the signed count nor the narrowing of the number of tokens to `int` is modelled.
- The lock-free inner queue and the thread-safe maps: a bag and atomic maps.
- The order in which items leave the queue, and producer and consumer tokens.
- Header extensions, RTCP feedback, encodings and SSRCs of RTP parameters: they do not influence which codecs are negotiated.
- Parameter values other than integers and strings, and the JSON checks that a typed record cannot fail.
- `getPipeConsumerRtpParameters` and `pipeToRouter`: the first compares one field with two different values, the second never starts from a fresh router.
- Requests larger than the message limit, channel close and request timeouts.
- The lookup of the producer when a consumer is created, RTP observers and the worker's own close.
- SctpStreams.DataConsumers.ConsumeData: a transport without SCTP streams is excluded, because the source then writes before the start of its list; so is a consumer id in use, because ids are fresh.
- Sockets, processes, logging, configuration and message serialisation: I/O.
