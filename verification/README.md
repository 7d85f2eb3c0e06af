# Portunus: a verified model

Portunus is a proxy that exchanges a payload of AWS credentials for an upstream API key and records all traffic it lets
through. This project models the parts of it whose correctness depends on interleaving, arithmetic or formats, and proves
what they are there to guarantee:

* **Audit trail.** The bounded log queue with its worker pool and poison pills (`LogQueue`), the two-way WebSocket relay
  that feeds it (`Relay`), any number of relays on one queue (`AuditTrail`), and the cutting of bodies into records
  (`Chunking`, `Base64`).
* **Authentication.** The TTL cache and single-flight minting under a weak map of locks (`AuthService`), with mutual
  exclusion (`MintLock`), the one-mint-per-window property (`MintWindow`) and what is left of it under late writes
  (`LateWrites`), and over whole runs which key a request is handed (`Provenance`), the host guarantee (`GrantSafety`) and the
  lifetimes of cached results (`CacheLifetimes`), resting on `CacheKey`, `CacheTtl` and `SecretValidation`.
* **Event streams.** The decoder for `application/vnd.amazon.eventstream` bodies (`EventStream`), the conversion of a
  message to one server-sent-events line (`SseLine`), and the JSON and UTF formats both need, each with its grammar or
  encoding stated apart from the code that reads it (`Json`, `JsonGrammar`, `JsonStrings`, `JsonStringGrammar`,
  `JsonNumbers`, `Utf8`, `WideUtf`).
* **Federation.** The role ARN grammar (`FederationRole`), identity extraction (`Arn`, `Strings`) and the minting protocol
  with its deadline (`TokenMint`), what its outcomes say about the answers it got (`MintOutcomes`), and how its results enter
  the cache (`MintedGrants`).
* **Shared clients.** The Kinesis client's life cycle (`KinesisClient`) and the Redis retry loop (`RedisRetry`).

Asynchronous code is modelled as a transition system. A step is the code one coroutine runs between two awaits, an answer
from outside, a cancellation, or the passing of time; `Enabled` says when a step can happen, `Apply` what it does, and
`IsRun` which sequences of steps are behaviours. Beside each system stands a class with the source's fields, one method per
step, whose postconditions equate its new state with `Apply`; its `Valid()` says that the state is the end of a run, so a
history of calls is a behaviour and every theorem about reachable states holds of a valid object. Theorems are about every
reachable state or every run, for any number of coroutines, any pool size and any queue capacity. Time is a real number;
text that JSON touches is a sequence of code points.

Where the code and its own documentation disagree, the model follows the code:

* `stop()` is documented to drain the queue (`relay/logger.py:57`). An item put after the last pill is accepted and never
  published: `LogQueue.LateItemStaysQueued` exhibits it, `LogQueue.AfterStop` says exactly which items those are, and
  `LogQueue.StopDrainsExactly` when there are none.
* A result of the event-stream decoder is said to mean that every input byte was accounted for by a complete frame
  (`models.py:169-170`). It leaves bytes out exactly when a corrupt frame follows a good one, and under every CRC there are
  such bodies: `EventStream.ResultLeavesBytesOut`, `EventStream.ResultCanLeaveBytesOut`.
* Stored keys are said to be cached for the configured cache duration (`services/auth_service.py:149-151`). Their entry lives
  that long exactly when the payload's credentials carry no expiration or one that far ahead to the second, and otherwise
  shorter or longer, without a cap: `CacheLifetimes.EntryLifetime`, `CacheTtl.StoredTtlExactly`.
* The counts `_relay` returns are summarised as the numbers of messages of a connection (`relay/handler.py:228`). A count is
  that number exactly if its pump has ended or been cancelled with nothing more logged; the lifetime limit and a
  cancellation leave both pumps running: `Relay.CountIsFinalExactly`, `Relay.SnapshotCanLag`.
* `acquire_redis_connection` is documented to return None when it fails (`services/state_service.py:134`). With a client
  and a non-negative retry limit it raises instead: `RedisRetry.AcquireRedisConnection`.
* A cached result is said never to be a hit for a proxy with a different upstream (`services/cache_service.py:74-77`). A
  request shares its key with one for another target exactly if its payload or its target holds a newline:
  `CacheKey.NewlinesCollide`. A request without any is always answered for its own payload and target, whatever the others
  are: `GrantSafety.HostAlwaysEnforced`. `GrantSafety.HostEnforcedExactly` says which requests can miss the host check and
  `GrantSafety.HostCanBeMissed` gives the run.
* Concurrent misses are said to wait for a single mint (`services/auth_service.py:75-78`). That holds for a whole TTL window
  while no write lands after its client has given up (`MintWindow.OneMintPerWindow`); when one does, a window can be broken
  (`LateWrites.LateWriteBreaksWindow`), exactly when the last write's own window is over (`LateWrites.WindowIsBrokenExactly`).
* `get_kinesis_client` promises a client (`services/state_service.py:192-201`). The one it returns is live exactly if no close is
  under way: `KinesisClient.GetIsLiveExactly`, `KinesisClient.GetDuringClose`.

## Model

| member | source | states |
|---|---|---|
| LogQueue.StepInv | portunus/portunus/relay/logger.py:51-84 | every put, get, publish, pill and join keeps: what was put is what was taken followed by what is queued; capacity is respected; pills and items are conserved |
| LogQueue.RunInv | portunus/portunus/relay/logger.py:51-84 | the conservation invariant holds in every reachable state, whatever the schedule |
| LogQueue.PillAccounting | portunus/portunus/relay/logger.py:56-62 | while `stop()` runs, pills unsent + pills queued + workers exited is the pool size |
| LogQueue.AfterStop | portunus/portunus/relay/logger.py:56-84 | when `stop()` returned, everything put up to the last pill was taken, each item's publishing ended exactly once, and the queue holds exactly what was put after it, in order |
| LogQueue.StopDrainsExactly | portunus/portunus/relay/logger.py:56-62 | with at least one worker, in every reachable state after `stop()` the queue is empty if and only if the last thing put was a pill |
| LogQueue.LateItemStaysQueued | portunus/portunus/relay/logger.py:56-70 | a concrete run in which an accepted item is never published |
| LogQueue.StopNeverStuck | portunus/portunus/relay/logger.py:56-84 | until `stop()` returns some step other than a producer's is enabled, even with the queue full |
| LogQueue.StepMeasure | portunus/portunus/relay/logger.py:56-84 | a measure of the remaining work falls with every step that is not a producer's put |
| LogQueue.RunLength | portunus/portunus/relay/logger.py:56-84 | a run with k puts is no longer than the measure of its start plus 3k |
| LogQueue.StopReturns | portunus/portunus/relay/logger.py:56-62 | a run from `stop()` on that has nothing left but puts has ended with `stop()` returned, after boundedly many steps |
| LogQueue.StopCanReturn | portunus/portunus/relay/logger.py:56-62 | from every state of `stop()` there is a schedule in which it returns without any producer's help |
| LogQueue.HoldsExactly | portunus/portunus/relay/logger.py:64-70 | any number of items can be put in a row if and only if they fit the configured size, zero and less meaning no limit, and they queue up in order |
| LogQueue.LogQueue.Start | portunus/portunus/relay/logger.py:51-54 | the loop spawns exactly the configured number of waiting workers and touches nothing else |
| LogQueue.LogQueue.Enqueue | portunus/portunus/relay/logger.py:64-70 | the item is appended exactly when the queue is not full; otherwise the producer stays blocked and nothing changes |
| LogQueue.LogQueue.WorkerGet | portunus/portunus/relay/logger.py:72-78 | the head is taken in FIFO order; a pill ends the worker, an item sets it publishing |
| LogQueue.LogQueue.WorkerFinish | portunus/portunus/relay/logger.py:79-84 | the worker returns to the queue whether publishing succeeded or raised |
| LogQueue.LogQueue.StopBegin | portunus/portunus/relay/logger.py:56-59 | as many pills are due as there are workers |
| LogQueue.LogQueue.StopPutPill | portunus/portunus/relay/logger.py:59-60 | one pill goes to the back of the queue when there is room |
| LogQueue.LogQueue.StopGather | portunus/portunus/relay/logger.py:61-62 | `stop()` returns exactly when all pills are put and all workers have exited |
| Relay.PumpStepInv | portunus/portunus/relay/handler.py:233-289 | every step of a pump keeps: enqueued is a prefix of forwarded, forwarded of received, at most one message apart, and the counter is the number enqueued |
| Relay.DirectionsAreFaithful | portunus/portunus/relay/handler.py:219-316 | per direction, in every reachable interleaving across disconnect, error, cancellation and lifetime expiry: logged is a prefix of forwarded and forwarded of received, one message apart at most; the counter is the number logged, and the returned count is exact after a normal end and a lower bound otherwise |
| Relay.FirstCompletionStopsBoth | portunus/portunus/relay/handler.py:298-306 | once the parent has seen one pump end, both have ended or been cancelled, and neither receives, forwards or logs another message in any continuation |
| Relay.NormalReturnIsPossible | portunus/portunus/relay/handler.py:298-306 | from then on the relay can return normally with the numbers logged by then |
| Relay.CountsAtReturn | portunus/portunus/relay/handler.py:291-316 | over any run, the counts returned are the numbers logged in each direction at the moment of return, and the code is normal if and only if both pumps had been waited for |
| Relay.PumpEndsExactly | portunus/portunus/relay/handler.py:233-289 | over any run, a pump has ended if and only if its peer closed or failed, a send failed, it was cancelled, or it received a text without a UTF-8 form |
| Relay.CarriesExactly | portunus/portunus/relay/handler.py:245-250 | a message has one log entry, a binary frame's bytes or bytes that decode to a text frame's text, if and only if it can be forwarded |
| Relay.NormalReturnIsFinal | portunus/portunus/relay/handler.py:298-306 | after a normal return nothing more is received, forwarded or logged |
| Relay.SnapshotCanLag | portunus/portunus/relay/handler.py:292-316 | a concrete run in which a message is logged after the count without it was returned |
| Relay.CountIsFinalExactly | portunus/portunus/relay/handler.py:291-316 | in every reachable state a direction logs nothing more in any continuation if and only if its pump has ended or is cancelled, and a returned count is final if and only if moreover nothing was logged since |
| Relay.Encodable | portunus/portunus/relay/handler.py:245-247 | encoding succeeds exactly for texts without lone surrogates |
| Relay.Relay.Step | portunus/portunus/relay/handler.py:233-289 | one pump's step changes that pump as the pump system does and not the other one or the parent |
| Relay.Relay.OnFirstCompleted | portunus/portunus/relay/handler.py:298-304 | when one pump has ended, exactly the pumps still running are cancelled |
| Relay.Relay.OnDrainDone | portunus/portunus/relay/handler.py:303-306 | a normal return waits for both pumps |
| Relay.Relay.OnInterrupt | portunus/portunus/relay/handler.py:307-316 | the lifetime limit and a cancellation return a snapshot and cancel neither pump |
| AuditTrail.PublishedIsPrefixOfForwarded | portunus/portunus/relay/handler.py:254-261 | for each direction of each connection, what reached publishing records a prefix of what was forwarded, numbered from zero without gaps, each item holding a binary frame's bytes or bytes that decode to a text frame's text, in every reachable state of all relays and the queue together |
| AuditTrail.PublishedBytesArePrefixOfForwarded | portunus/portunus/relay/logger.py:114-142 | for every record size, the payloads of the publish calls a direction's taken items make, put together, are the bytes of a prefix of the messages it forwarded, and the calls go to the request stream if and only if the messages came from the client |
| AuditTrail.StoppedTrail | portunus/portunus/relay/logger.py:218-240 | when the queue has stopped, what was published and what was left behind the last pill together record the logged messages of a direction, none missing or altered |
| AuditTrail.TrailConcat | portunus/portunus/relay/logger.py:218-240 | the trail of a direction distributes over the queue's history |
| Chunking.ChunkBodyData | portunus/portunus/util.py:132-157 | the stepped loop computes the chunking function; a step of zero is an error exactly for sizes 100 to 103, and smaller sizes yield nothing |
| Chunking.ChunksRejoin | portunus/portunus/util.py:150-157 | chunks concatenate to the body |
| Chunking.ChunkCount | portunus/portunus/util.py:154-155 | the number of chunks is the body's length over the chunk size, rounded up |
| Chunking.EncodedChunkFits | portunus/portunus/util.py:150-151 | each chunk's base64 length plus the reserved 100 bytes is at most the record size |
| Chunking.ChunkSizeIsLargest | portunus/portunus/util.py:150-151 | no longer chunk would fit |
| Chunking.EncodedChunksRejoin | portunus/portunus/services/publish_service.py:202 | the chunks' base64 texts concatenate to the base64 of the whole body |
| Chunking.PublishMessage | portunus/portunus/relay/logger.py:114-142 | chunk ids are 0 to n-1 with the same n throughout, payloads rejoin to the message, an empty message makes one empty record, and failed publishes stop nothing |
| Chunking.PublishCallsRejoin | portunus/portunus/relay/logger.py:114-137 | the calls made for a message carry it whole and in order |
| Base64.RoundTrip | portunus/portunus/models.py:140 | the lenient decoder inverts the encoder on every byte string |
| Base64.DecodeExactly | portunus/portunus/models.py:140 | the lenient decoder gives b for a text if and only if the values of its alphabet characters up to the first complete padding, or in whole groups to its end, pack into b |
| Base64.AlphabetExactly | portunus/portunus/models.py:140 | the 64 characters and their values |
| Base64.EncodeShape | portunus/portunus/services/publish_service.py:202 | the encoded length, and that only alphabet and pad characters occur |
| Base64.EncodeConcat | portunus/portunus/util.py:150-151 | encoding distributes over a split at a multiple of three bytes |
| AuthService.AuthService.GetCachedAuthResult | portunus/portunus/services/cache_service.py:90-138 | a hit is exactly a live entry under the key of a non-empty payload and the target |
| AuthService.AuthService.OnRedisAnswered | portunus/portunus/services/cache_service.py:114-138 | Redis answers a read with the entry that is live then, and the answer is kept until it arrives |
| AuthService.AuthService.ReadFirst | portunus/portunus/services/auth_service.py:174-176 | a hit answers the request, a failed read counts as a miss, a timed out read rejects it; an answer counts within 5 s of being given |
| AuthService.AuthService.OnVerified | portunus/portunus/services/auth_service.py:185-197 | a rejected secret raises; a stored key is written without the mint lock; a mint secret asks for the key's lock |
| AuthService.AuthService.GetMintLock | portunus/portunus/services/auth_service.py:231-239 | the key's lock in the map is returned, or a new one put there, and no other entry changes |
| AuthService.AuthService.OnLockFree | portunus/portunus/services/auth_service.py:211 | a waiter enters the block only when nobody owns its lock |
| AuthService.AuthService.ReadAgain | portunus/portunus/services/auth_service.py:214-216 | under the lock the cache is read again; a hit leaves the block, a miss starts a mint |
| AuthService.AuthService.OnMinted | portunus/portunus/services/auth_service.py:218-228 | a minted token is written under the lock with its effective TTL |
| AuthService.AuthService.OnMintFailed | portunus/portunus/services/auth_service.py:211-220 | a failed mint releases the lock and raises |
| AuthService.AuthService.StartWrite | portunus/portunus/services/auth_service.py:267-289 | nothing is written for an empty payload or key; otherwise the write starts its own clock |
| AuthService.AuthService.OnWriteLands | portunus/portunus/services/cache_service.py:184-210 | a write landing within its timeout replaces the key's entry, live for its TTL from then, and never for a TTL of zero or less |
| AuthService.AuthService.OnLateWrite | portunus/portunus/services/auth_service.py:276-289 | a write whose client gave up can land at any later time, once, with the grant and TTL it was sent with |
| AuthService.AuthService.OnWriteDone | portunus/portunus/services/auth_service.py:276-289 | whatever became of the write, the result is returned and the lock released; a write that has not landed stays on the wire |
| AuthService.AuthService.OnCancelled | portunus/portunus/services/auth_service.py:211-229 | a cancelled coroutine releases what it holds and may leave its write on the wire |
| AuthService.AuthService.OnLockUnreferenced | portunus/portunus/services/auth_service.py:75-81 | the weak map may drop a lock exactly when no coroutine refers to it |
| Provenance.KeysAreAsVerifiedOrMinted | portunus/portunus/services/auth_service.py:174-229 | over any run, what a request is answered with, what is written, cached, served or still on the wire is the API key of the stored key verified for its requester, or the token and expiry minted for that requester |
| Provenance.RejectedExactly | portunus/portunus/services/auth_service.py:174-229 | over any run, a request is rejected if and only if a read timed out, its verification failed or its secret is for another host, its mint failed, or it was cancelled |
| Provenance.StepsAreBounded | portunus/portunus/services/auth_service.py:174-229 | no request takes more than six steps of its own, however the others run |
| Provenance.NeverStuck | portunus/portunus/services/auth_service.py:202-229 | in every reachable state a request that has not ended can take a step, or waits for a mint lock whose one owner can |
| Provenance.LiveEntryAnswers | portunus/portunus/services/auth_service.py:174-176 | a live entry under its key answers a request at once, without verification, lock or mint |
| CacheLifetimes.EntryLifetime | portunus/portunus/services/auth_service.py:278-287 | in every reachable state, the entry a stored key's write leaves, in time or late, lives exactly as many whole seconds as its credentials did when the write began, or the cache duration if they have no expiration, and a minted token's exactly as many, up to the cache duration, as left 60 s before its reported expiry |
| CacheTtl.StoredTtlExactly | portunus/portunus/services/auth_service.py:278-287 | the TTL of a stored key is the largest number of whole seconds that ends before its credentials do, and the cache duration if they have no expiration; so it equals the cache duration if and only if they live that long to the second |
| MintLock.StepLockInv | portunus/portunus/services/auth_service.py:211-239 | every step keeps: who refers to a lock refers to the one in the map under its key, different keys have different locks, owners are exactly those inside the block |
| MintLock.MutualExclusion | portunus/portunus/services/auth_service.py:75-81 | in every reachable state all coroutines of one key share one lock although the map is weak, so at most one is in the mint section |
| MintWindow.StepWindowInv | portunus/portunus/services/auth_service.py:211-229 | every step that does not disturb a key keeps: live entry and in-flight mint exclude each other, landed writes stay covered by the cache, mints are spaced |
| MintWindow.OneMintPerWindow | portunus/portunus/services/auth_service.py:211-229 | after a write landing at t with TTL d no mint for that key starts before t + d, over any interleaving of cancellations, failed mints and other keys |
| LateWrites.LateWriteBreaksWindow | portunus/portunus/services/auth_service.py:211-229 | a concrete run of three requests in which a mint starts inside a write's window, because an abandoned shorter write landed over it |
| LateWrites.LiveExactly | portunus/portunus/services/cache_service.py:184-210 | with late landings and stored keys too, a key is live if and only if its last write's window is still open |
| LateWrites.WindowIsBrokenExactly | portunus/portunus/services/auth_service.py:211-218 | inside the window of a write, a second read finds nothing, and so leads to a mint, if and only if the last write for the key is another one whose window is over |
| LateWrites.WindowsEndWithTheLastWrite | portunus/portunus/services/auth_service.py:211-229 | over any such run, a mint starts inside the window of a write performed before its second read was answered only after a later, shorter write for that key, and not before that one's end |
| MintWindow.WaiterIsServed | portunus/portunus/services/auth_service.py:212-216 | inside the window Redis answers whoever holds the lock with the entry, and the waiter then mints again if and only if its read fails |
| GrantSafety.StepGrantInv | portunus/portunus/services/auth_service.py:174-229 | every step keeps: each secret or grant carried, cached or on the wire was authorised for the request it names, whose key it is cached under |
| GrantSafety.ResultHasAnOrigin | portunus/portunus/services/auth_service.py:174-229 | over any run, every result was authorised for a request with the same key, with that request's credentials and for its target |
| GrantSafety.HostAlwaysEnforced | portunus/portunus/services/auth_service.py:174-229 | over any run, a request with no newline in its payload and target is answered only for its own payload and from a secret without a host or with its target as host, whatever the other requests are |
| GrantSafety.HostEnforcedForCleanTargets | portunus/portunus/services/auth_service.py:174-229 | the same for every request when no target holds a newline, although payloads may |
| GrantSafety.CleanHostIsEnforced | portunus/portunus/services/auth_service.py:174-229 | over any run and whatever all payloads and the other targets are, a secret whose host holds no newline is never used for another target that holds none |
| GrantSafety.HostCanBeMissed | portunus/portunus/services/cache_service.py:86-88 | for every threatened request, a run that answers it from a secret restricted to another host |
| GrantSafety.HostEnforcedExactly | portunus/portunus/services/auth_service.py:174-229 | a request's host check holds in every run if and only if no other request with the same key, a payload, another non-empty target and something to cache exists |
| CacheLifetimes.StepFreshInv | portunus/portunus/services/auth_service.py:276-287 | every step keeps: writes carry the TTL of their beginning, and entries of minted tokens end the safety margin, less the write's delay, before the provider's expiry |
| CacheLifetimes.ServedTokensAreFresh | portunus/portunus/services/cache_service.py:24-50 | over any run, Redis answers with a minted token only with more than 60 s of provider validity left, less what its write took to land; if no write lands late that is more than 57 s, and more than 52 s when the request is answered |
| CacheTtl.EffectiveCacheTtlIsLargest | portunus/portunus/services/cache_service.py:31-50 | the TTL is the largest number of whole seconds, up to the cache duration, that leaves the 60 s margin |
| CacheTtl.SecondsUntilExpirationIsLargest | portunus/portunus/models.py:374-385 | the number of whole seconds left, zero once expired |
| CacheTtl.GoogleExpiryIsEarly | portunus/portunus/services/federation_service.py:510-525 | the reported expiry is Google's in whole microseconds, earlier by less than one |
| CacheKey.KeyInjective | portunus/portunus/services/cache_service.py:86-88 | for newline-free targets, equal keys mean equal payload and equal target, with no target and an empty one the same |
| CacheKey.CleanKeyIsUnique | portunus/portunus/services/cache_service.py:86-88 | the key of a newline-free payload and target arises from no other payload and target |
| CacheKey.NewlinesCollide | portunus/portunus/services/cache_service.py:86-88 | a request shares its key with some request for another target if and only if its payload or its target holds a newline |
| SecretValidation.ValidateExactly | portunus/portunus/services/secret_validation_service.py:114-132 | a secret passes, unchanged, if and only if it has no host, an empty one, or its host is the target; otherwise the error says whether there was a target |
| EventStream.WireLayout | portunus/tests/test_models_decode.py:23-35 | a frame is two lengths, most significant byte first, a CRC of them, headers, payload, and a CRC of all before it |
| EventStream.NextOfWire | portunus/tests/test_models_decode.py:23-35 | a buffer that starts with a frame yields exactly it, whatever follows |
| EventStream.WireOfNext | portunus/tests/test_models_decode.py:23-35 | a frame that is yielded is what the buffer starts with, byte for byte |
| EventStream.NextOfStrictPrefix | portunus/portunus/models.py:217-225 | a strict prefix of a frame is incomplete, never corrupt |
| EventStream.ClassifiedExactly | portunus/portunus/models.py:190-225 | any bytes are a frame if and only if they start with one, incomplete if and only if they are fewer than twelve or the prelude of a longer frame, and corrupt otherwise |
| EventStream.ParseEventStream | portunus/portunus/models.py:184-235 | the loop, consuming at least sixteen bytes a turn, computes the outcome of the longest run of leading frames |
| EventStream.LeadingFramesAreLongest | portunus/portunus/models.py:190-197 | the frames taken are the longest run of valid frames at the front of arbitrary bytes |
| EventStream.LongestRunUnique | portunus/portunus/models.py:190-197 | that run is unique |
| EventStream.DecodedOfRun | portunus/portunus/models.py:201-235 | the result is None if the run is empty or the rest is an incomplete frame, otherwise exactly the run's lines |
| EventStream.DecodeEncoded | portunus/portunus/models.py:158-235 | decoding the encoding of a non-empty list of messages gives the usable ones' lines in order |
| EventStream.DecodeCorruptTail | portunus/portunus/models.py:201-214 | a corrupt frame after a good run costs nothing of that run |
| EventStream.ResultLeavesBytesOut | portunus/portunus/models.py:169-214 | a result leaves input bytes out if and only if a corrupt frame follows at least one good one |
| EventStream.ResultCanLeaveBytesOut | portunus/portunus/models.py:169-214 | under every CRC and after every frame there are bytes, a prelude whose CRC does not match, with which that happens |
| EventStream.DecodePrefix | portunus/portunus/models.py:217-235 | every strict prefix of an encoding decodes to None, except on a frame boundary after at least one frame, where it gives the earlier frames' lines |
| EventStream.OutputLines | portunus/portunus/models.py:198-200 | splitting the output on newlines gives exactly one `data:` line per message whose payload wraps an object, in order, and each line's JSON parses to that object |
| EventStream.UsableObjectsExactly | portunus/portunus/models.py:190-200 | the objects of a run of messages are those its payloads wrap, in order, the others wrapping none |
| EventStream.StreamRoundTrip | portunus/tests/test_models_decode.py:38-44 | events wrapped, framed, decoded, split and parsed come back the same and in order |
| SseLine.InnerObjectWellFormed | portunus/portunus/models.py:133-154 | whatever an envelope yields is an object on which printer and parser agree |
| SseLine.InnerObjectExactly | portunus/portunus/models.py:133-154 | a payload yields v if and only if its bytes encode a JSON object whose first member named `bytes` is a non-empty ASCII string that stands in base64 for the UTF-8 of a text denoting the object v |
| SseLine.LineExactly | portunus/portunus/models.py:133-155 | a message becomes a line if and only if its payload wraps an object, and the line is `data: `, that object printed and a newline; every other payload is skipped |
| SseLine.LoadsBytesExactly | portunus/portunus/models.py:134 | `json.loads` on bytes gives v if and only if they are the bytes, in the encoding they are detected to have, of a text denoting v |
| SseLine.LineRoundTrip | portunus/portunus/models.py:146-155 | a line is printable up to its one final newline, and its JSON parses back to the inner object |
| SseLine.EventRoundTrip | portunus/tests/test_models_decode.py:38-42 | wrapping an object in the envelope and unwrapping it gives the object back |
| JsonGrammar.LoadsExactly | portunus/portunus/models.py:150 | the parser returns v if and only if the text is that of a legal syntax tree with white space around it that means v |
| JsonGrammar.LastValueFirstPlace | portunus/portunus/models.py:150 | of repeated keys each keeps the place of its first occurrence and the value of its last |
| JsonGrammar.NumberMeans | portunus/portunus/models.py:150 | an integer keeps its text except that `-0` is 0, and a number with a fraction or an exponent is the float it denotes, infinities included |
| JsonGrammar.PrintIsShortest | portunus/portunus/models.py:155 | the compact printer writes a value as the text of a tree without any white space, with every string in its shortest ASCII form, that means the value |
| JsonGrammar.LoadsPrint | portunus/portunus/models.py:150-155 | the parser inverts the compact printer on every value the parser can produce |
| JsonGrammar.LoadsIsIdempotent | portunus/portunus/models.py:150-155 | printing what was parsed and parsing it again changes nothing, floats and their overflow to an infinity included |
| Json.ReadNumberWellFormed | portunus/portunus/models.py:150-155 | a number that has been read prints as one that reads back the same |
| Json.PrintPrintable | portunus/portunus/models.py:146-155 | the compact printer emits no control character and nothing outside ASCII |
| JsonStrings.StringRoundTrip | portunus/portunus/models.py:150-155 | reading the escaped form of a string gives the string, surrogate pairs included |
| JsonStringGrammar.StringsExactly | portunus/portunus/models.py:150 | a string is read if and only if it is made of legal pieces, with joined surrogate escapes, and it is what they mean |
| JsonStringGrammar.WritesCanonically | portunus/portunus/models.py:155 | a string is written in its shortest form, which means the string |
| JsonStrings.ReadStringPaired | portunus/portunus/models.py:150 | strings read from decoded text never hold an unjoined surrogate pair |
| JsonNumbers.NumberStable | portunus/portunus/models.py:150-155 | a number is read whole, whatever delimiter follows it |
| JsonNumbers.NumbersExactly | portunus/portunus/models.py:150 | the numbers are those of the grammar: a sign, a whole part without leading zeros, a fraction and an exponent |
| Utf8.DecodeExactly | portunus/portunus/models.py:134-140 | the decoder accepts exactly the encodings of its texts: no overlong form, no stray byte, surrogates only when they are let pass |
| Utf8.CharExactly | portunus/portunus/models.py:134-140 | the byte sequences of RFC 3629, each exactly for the character its bits make up |
| WideUtf.DecodeEncode16 | portunus/portunus/models.py:134 | UTF-16 decoding inverts encoding in both byte orders, for every text without an unjoined surrogate pair |
| WideUtf.DecodeExactly16 | portunus/portunus/models.py:134 | UTF-16 bytes decode to a text if and only if it holds no unjoined surrogate pair and they are its encoding |
| WideUtf.DecodeEncode32 | portunus/portunus/models.py:134 | UTF-32 decoding inverts encoding in both byte orders, for every text |
| WideUtf.DecodeExactly32 | portunus/portunus/models.py:134 | UTF-32 bytes decode to a text if and only if they are its encoding |
| WideUtf.DetectsItself | portunus/portunus/models.py:134 | text starting with two ASCII characters is recognised in each of the five encodings |
| WideUtf.DetectsMarks | portunus/portunus/models.py:134 | byte order marks and single ASCII characters are recognised, the little-endian UTF-16 mark unless a NUL follows it |
| SseLine.LoadsEncoded | portunus/portunus/models.py:134 | a printed array or object reads back from its bytes in every encoding `json.loads` detects |
| FederationRole.MatchExactly | portunus/portunus/services/federation_service.py:95-100 | a one-pass splitter accepts exactly the regular expression's language and recovers the pieces |
| FederationRole.DenotesUnique | portunus/portunus/services/federation_service.py:95-100 | an ARN has one account, one list of path segments and one name |
| FederationRole.PathOfSegments | portunus/portunus/config.py:221-226 | every text that starts and ends with a slash is the path of its segments |
| FederationRole.PrefixBySegments | portunus/portunus/services/federation_service.py:184-187 | string `startswith` agrees with segment-wise prefix |
| FederationRole.AcceptedExactly | portunus/portunus/services/federation_service.py:156-187 | an ARN is accepted if and only if it is built from an allowed account, legal non-empty segments beginning with the prefix's own, and a legal name |
| FederationRole.RefusedExactly | portunus/portunus/services/federation_service.py:156-187 | each refusal names the first check that fails: the form, the account, or the path |
| Arn.IdentityRoundTrip | portunus/portunus/services/arn_service.py:12-60 | building a session ARN, parsing it and reading the caller's fields gives back account, role and session, and the role ARN names the role |
| Arn.ParsesExactly | portunus/portunus/services/arn_service.py:63-111 | for every text: it has a caller if and only if `assumed-role` occurs in it and its sixth colon-separated part has at least two parts after the first slash, which are the role and the session; the account is the fifth part |
| Arn.CallersExactly | portunus/portunus/services/federation_service.py:190-219 | for every text: it passes for a minting caller if and only if it has such a role, with 2 to 64 legal characters, and a session that is not empty |
| Arn.RoleArnExactly | portunus/portunus/services/arn_service.py:39-60 | for every text: the role ARN built from it, and that there is none exactly where a part is missing |
| Arn.ProjectRoundTrip | portunus/portunus/services/federation_service.py:222-228 | the project read from a session ARN is its role's; missing, empty and "unknown" read as empty |
| Arn.ProjectIsAfterSecondUnderscore | portunus/portunus/services/arn_service.py:93-97 | for a `UserProfile_` role the project is everything after the second underscore |
| Arn.NoProjectOtherwise | portunus/portunus/services/arn_service.py:93-97 | only such roles have a project |
| Strings.SplitExactly | portunus/portunus/services/arn_service.py:27-35 | split and join on a character determine each other |
| TokenMint.StepInv | portunus/portunus/services/federation_service.py:770-807 | every step of every mint keeps: each mint's own trace is exactly the part of the protocol its phase has reached, and no two mints hold the same identity token |
| TokenMint.ExchangeIsJustified | portunus/portunus/services/federation_service.py:786-802 | over any interleaving, each provider exchange is preceded in its own mint by exactly an accepted role, a found route, one AssumeRole and one GetWebIdentityToken of that route's kind, and no other exchange uses its token |
| TokenMint.LoggedIffReturned | portunus/portunus/services/federation_service.py:803-807 | a mint line is logged if and only if a token is returned, once, last, and with that mint's identity and identity token |
| TokenMint.ReturnedInTime | portunus/portunus/services/federation_service.py:797-807 | a token is returned only within the deadline, and its reported expiry is at most the provider's and less than 6 s before it |
| MintOutcomes.ExchangeReply | portunus/portunus/services/federation_service.py:420-490 | a reply in time to the exchange mints if and only if it is a 200 response with a token that lives, and then that token, expiring its own lifetime after the request was sent while the provider counts from when it was issued; for Google the token goes on to the second hop; any other reply raises its error |
| MintOutcomes.ImpersonationReply | portunus/portunus/services/federation_service.py:510-525 | a reply in time to Google's second hop mints if and only if it is a 200 response with Google's token and expiry, and then that token with that expiry cut to whole microseconds |
| MintOutcomes.ReturnsWhatWasReplied | portunus/portunus/services/federation_service.py:770-807 | over any run, a returned token and its end stand in one 200 reply to that mint, the bearer of Google's second hop in an earlier one, and the user is the one STS named, or the role |
| MintOutcomes.GoodAnswersMint | portunus/portunus/services/federation_service.py:770-807 | good answers within the deadline always end an admissible mint with the token they name |
| MintOutcomes.StsIsAsked | portunus/portunus/services/federation_service.py:726-767 | in every reachable state, whatever was sent was for a routed secret and a legal caller; AssumeRole names the secret's role and the caller's; identity tokens are signed with ES384 for 1800 s for OpenAI and with RS256 for 900 s otherwise |
| MintOutcomes.AdmittedExactly | portunus/portunus/services/federation_service.py:770-800 | for a principal read from any text, a mint is admitted if and only if the role is an accepted one, the secret has a route, the text has an assumed role with a legal name and a session, and STS is configured; each refusal has its error |
| MintOutcomes.OnlyAssumedRolesMint | portunus/portunus/services/federation_service.py:190-219 | in every reachable state, whatever a mint sent or logged was for a caller whose ARN is that of an assumed role, whose role and session it names |
| MintOutcomes.EndsExactly | portunus/portunus/services/federation_service.py:286-467 | over any run, a mint ends as unavailable, as a credentials error, as a configuration error or cancelled if and only if one of the answers or checks that mean so came up |
| TokenMint.OverdueNeverReturns | portunus/portunus/services/federation_service.py:797-805 | from a mint whose time is over, every run leaves it there or ends it as unavailable or cancelled, with nothing more sent or logged and no token; ending it stays possible until it happens |
| TokenMint.ErrorsSayHowFar | portunus/portunus/services/federation_service.py:286-392 | nothing was sent if and only if the mint was inadmissible; credentials errors come before any identity token is asked for; no failed mint logs a line |
| TokenMint.TokenFitsSession | portunus/portunus/services/federation_service.py:63-81 | the session asked to sign always outlives the identity token asked for, whose lifetime is within 60 to 3600 s |
| TokenMint.MintLineNamesCaller | portunus/portunus/services/federation_service.py:810-833 | for a caller with a session ARN of some role, the mint line names that role, that session and the role's project, and always a user |
| TokenMint.GcpMintIsCached | portunus/portunus/models.py:682-684 | in every reachable state a returned Google token of the minimum lifetime has a positive cache TTL, at most 67 s short of that lifetime |
| MintedGrants.MintIsAccepted | portunus/portunus/services/auth_service.py:218-228 | whatever a reachable mint returns can be handed to a coroutine waiting for it, with the validity the authentication system assumes |
| MintedGrants.GoogleTokenIsWritten | portunus/portunus/models.py:682-684 | a Google token of the minimum lifetime handed over on its return can be written at once, and its entry lives for a positive TTL |
| TokenMint.UnavailableExactly | portunus/portunus/services/federation_service.py:803-805 | over any run, a mint ends as unavailable if and only if STS or the provider could not be reached, the provider answered with a server error or overload, or its time ran out |
| TokenMint.TokenMintService.Mint | portunus/portunus/services/federation_service.py:786-800 | up to its first await a mint sends one AssumeRole, or fails having sent nothing |
| TokenMint.TokenMintService.OnRoleAnswered | portunus/portunus/services/federation_service.py:311-340 | an assumed role leads to one GetWebIdentityToken with the route's audience, algorithm and lifetime; refusals map to their errors |
| TokenMint.TokenMintService.OnTokenAnswered | portunus/portunus/services/federation_service.py:742-767 | an issued identity token is used for one exchange, sent at once |
| TokenMint.TokenMintService.OnProviderReply | portunus/portunus/services/federation_service.py:528-676 | one hop returns the token and logs the mint, except for Google, where a second hop with the first one's token does |
| TokenMint.TokenMintService.OnDeadline | portunus/portunus/services/federation_service.py:803-805 | a mint whose time is over ends as unavailable |
| TokenMint.TokenMintService.OnCancelled | portunus/portunus/services/federation_service.py:797-802 | a cancelled mint ends without a token or a line |
| KinesisClient.StepInv | portunus/portunus/services/state_service.py:192-231 | every step, failed creations and closes included, keeps lock ownership, published client, exit stack and live clients consistent |
| KinesisClient.OneClient | portunus/portunus/services/state_service.py:192-231 | at most one client is live; with the lock free the exit stack owns exactly the published one; all gets between two closes agree; none is closed twice and none created is forgotten |
| KinesisClient.CloseLeavesNothing | portunus/portunus/services/state_service.py:214-231 | when a close returns no client is live or published, and every client ever created has been exited |
| KinesisClient.CallsEnd | portunus/portunus/services/state_service.py:192-231 | over any interleaving no call takes more than three steps of its own, and it fails if and only if its creation did or it was cancelled |
| KinesisClient.NeverStuck | portunus/portunus/services/state_service.py:192-231 | until it ends a call can take a step, or waits for the lock and its owner can |
| KinesisClient.GetDuringClose | portunus/portunus/services/state_service.py:203-212 | a concrete run in which a getter is handed the client that is being closed |
| KinesisClient.GetIsLiveExactly | portunus/portunus/services/state_service.py:192-231 | in every reachable state a get returns a live client if and only if no close is under way |
| KinesisClient.StateService.GetKinesisClient | portunus/portunus/services/state_service.py:203-205 | the unlocked check returns a published client or queues for the lock |
| KinesisClient.StateService.CloseKinesisClient | portunus/portunus/services/state_service.py:221 | a closer queues for the lock and changes nothing else |
| KinesisClient.StateService.OnLocked | portunus/portunus/services/state_service.py:205-225 | under the lock a getter checks again before creating, and a closer exits the published client if there is one |
| KinesisClient.StateService.OnCreated | portunus/portunus/services/state_service.py:208-212 | the new client is pushed on the exit stack, published and returned, and the lock freed |
| KinesisClient.StateService.OnCreateFailed | portunus/portunus/services/state_service.py:208-210 | a failed creation publishes nothing and frees the lock |
| KinesisClient.StateService.OnExited | portunus/portunus/services/state_service.py:224-231 | whatever the close did, the client is forgotten and the stack replaced |
| RedisRetry.AcquireRedisConnection | portunus/portunus/services/state_service.py:139-163 | with a client: at most `max_retries` + 1 pings, all but the last refused for too many connections; it ends with the client or that ping's error and never the trailing None; the sleeps lie between 0.8 and 1.2 times the backoffs taken |
| RedisRetry.SleepSpread | portunus/portunus/services/state_service.py:139-160 | each sleep is 0.8 of its backoff plus the random number times 0.4 of it |
| RedisRetry.DefaultSleepBound | portunus/portunus/services/state_service.py:122-160 | for the default of eight retries the bound on the total sleep is 5.97375 s |

## Left out

- AuthService.AuthService.OnWriteLands: other processes writing to the same Redis are not modelled.
- CacheKey.KeyInjective: SHA-256 is taken to be free of collisions, so keys are modelled by the text that is hashed.
- Redis as a server, with its own clock, memory limits and eviction: a map whose entries end at their expiry and may be removed at any time.
- MintWindow.OneMintPerWindow: within one process, with the mint secret unchanged, the key not flushed, no write landing after its client gave up, and second reads that answer or time out; `LateWrites.WindowIsBrokenExactly` and `LateWrites.WindowsEndWithTheLastWrite` say what late writes leave of it, and `MintWindow.WaiterIsServed` that a failed second read does start another mint.
- EventStream.NextOfWire: the CRC is a parameter and botocore's buffer is not part of this model; its limits on header and payload length and its parsing of headers are not modelled, and a total length below header length plus 16 counts as corrupt.
- JsonGrammar.LoadsExactly: how Python prints a float is a parameter, of which only that a printed float reads back as itself is assumed; Python's limit on integer digits and its recursion limit are not modelled.
- SecretValidation.ValidateExactly: the parsing of secrets into their schemas is a library's; a secret enters the model already parsed.
- LogQueue.AfterStop: workers and `stop()` itself being cancelled, and a second call of `start()` or `stop()`, are not modelled; nor is the order in which asyncio wakes several blocked producers.
- AuditTrail.PublishedIsPrefixOfForwarded: the path that publishes directly while no log queue runs is not modelled, and "published" means handed to publishing, since a failed publish is only logged.
- Chunking.EncodedChunkFits: the 100 reserved bytes are not the length of the whole JSON record around a chunk, so no bound on the record is claimed.
- Chunking.PublishMessage: for record sizes from 104 on; the configuration allows none below 1000 (`config.py:113-117`), and smaller ones are covered by `Chunking.ChunkBodyData`.
- TokenMint.OverdueNeverReturns: an answer that arrives at or after the deadline is taken to lose against the timer; how late a busy event loop fires it is not modelled.
- TokenMint.ExchangeIsJustified: a call of AssumeRole or GetWebIdentityToken is one event even if botocore repeats the request inside it, and STS is taken to issue a new token for every call.
- Identity tokens' `jti` claim, read without verification for the mint line: the line carries the token's number instead.
- The lazily created HTTP clients of the exchange adapters and their `aclose`.
- KinesisClient.OneClient: a client counts as live until its exit is attempted; whether a failed exit released its connections is not modelled.
- FIFO fairness of asyncio locks: any waiter may get a free lock, which covers the orders asyncio produces.
- Decompression of gzip, deflate and Brotli bodies, and the choice of decoder by content type.
- Filtering of headers in the relay, HTTP routing, exception-to-status tables, tracing, log formatting, Glue schemas, record classes, configuration loading, the command line, and the Envoy and Lua files: plumbing, or only easy members.
