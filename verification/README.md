# guard-agent: a verified model

guard-agent collects security events in a bounded buffer, mirrors each one to Redis, and ships batches to a
server that may be slow, down, busy or picky, at least once. This project models that path in Dafny, from the
buffer to the reply of the server, together with the redaction applied on the way, and proves what holds over
every run, every server and every input.

## How the model is built

Two levels, tied to each other by contracts.

- **Classes in the source's own form.** `EventBuffer` is a deque with a maximum length, a map from object address
  to Redis key, counters and the Redis store; `HTTPTransport` is the attempt loop, the counters and the recursive
  split over a `RateLimiter` and a `CircuitBreaker` it owns; `GuardAgentHandler` is the client's flush with its
  failure streak and gate. Each method equates the new state with a specification function of the old one.
- **Specifications and theorems.** `BoundedQueue` gives the buffer its meaning, a sequence of entries (an event
  with its own key). `Handshake` is a labelled step system over that queue, the store and any number of batches in
  flight: add, drain and requeue are atomic, because each holds the buffer's lock, while sends and record deletions
  are separate steps that anything may come between. `Refinement` ties the two
  levels together: a round of `add_event` is a run of `Add`; a whole flush of the client, with events arriving while
  the send is under way, is the run drain, adds, return, requeue if the send failed, deletions, settlement; and over
  runs whose send results come from the sender, what is delivered was accepted or permanently rejected in a POST.
- **Requirements apart from the code.** What the theorems say is not said in the code's own helper functions. Replies are
  told apart by status and body alone (`IsAcceptance`, `IsTooLarge` and the rest in `Sending`), secrets by name
  (`IsSecret` in `Redaction`), and limiter and breaker by the history of what was asked of them and reported to them.

What the system does not decide is universally quantified. A `World` holds the response to every POST, how long
every await takes, and what other coroutines do to limiter and breaker meanwhile. Each step of the handshake carries
its own choices: the key a record got, or none, and whether a deletion worked. A record may expire at any time, and
a write that raises may have stored its record all the same.

Events are numbered by arrival, and an event's address is separate from its number: a later event may live at the
address of a dead one. The client copies every event it buffers, so an address is never that of a live event.

| File | Contents |
|---|---|
| `BoundedQueue`, `EventBuffer` | the queue as entries, and the deque with its identity map and store |
| `Handshake`, `Durability`, `Ordering`, `Refinement` | the step system, and what every run of it keeps |
| `Sending`, `Delivery`, `ServerLaws`, `Histories`, `HTTPTransport` | one send, for all servers and for particular kinds, limiter and breaker inside it, and the class |
| `RateLimiter`, `CircuitBreaker`, `Backoff` | the three small machines, over whole runs |
| `FlushGate`, `GuardAgentHandler` | the client's gate over whole runs, and its flush |
| `Redaction` | recursive redaction |

## Where the code falls short, and exactly when

- **Backoff overflows at exponent 1024.** `float(2**attempt)` raises once the attempt reaches 1024. Against a server
  that is down the exception escapes the sender's retry loop if and only if `retry_attempts` is at least 1024, whatever
  limiter and breaker remember (`DownServerOverflows`; `TransportOverflows` for the transport's own limiter of 100
  calls; at exactly 1024 the delay before the last attempt must outlast the limiter's window); `send_events` turns it into False. In the client the 1025th consecutive failure and every later one leave the
  old time standing, so the gate no longer closes (`FailureClosesGate` is an equivalence).
- **A limiter of zero calls advertises no wait and admits nothing** (`AdvertisedWaitIsExact` is an equivalence). The
  transport's own limiter has 100 calls, for which the advertised wait is exact.
- **Overlapping flushes can reorder events.** A run keeps arrival order if and only if a refused batch is only ever put
  back when no batch drained after it is still out (`OrderIsKeptExactly`); `RequeueOrder` says when a single requeue
  leaves the queue itself in order, and `OverlappingFlushersCanReorder` is a run in which it does not.
- **A 429 counts against the circuit breaker,** although the server is alive (`CountedReplies`, `BusyServerCost`).
- **A partial failure is not retried.** The docstring of `send_events` says that False means a transient failure only;
  the code also returns it, at once, when a 200 reports `success: false` or errors. `PartialFailureEndsTheSend` and
  `PartialFailureIsNotRetried` state this; the model follows the code.
- **Bytes keys are decoded strictly.** The docstring of `sanitize_headers` says invalid bytes are replaced before
  matching; the code redacts such an entry outright, as the model does.

## Model

| member | source | states |
|---|---|---|
| Handshake.NoEventIsLost | guard_agent/_client_flush.py:52-98 | Over every run, with any number of overlapping batches, failing Redis calls and any server, an event ever added is queued, in a batch that may come back, delivered, dropped by overflow, cleared or evicted by a load; one delivered was acknowledged or permanently rejected by the server |
| Handshake.EachEventInOnePlace | guard_agent/_buffer_queue.py:133-151 | Over every such run the places of an added event are exclusive and hold it once: nothing is buffered twice, and nothing delivered or dropped comes back |
| Handshake.CountersAgree | guard_agent/_client_flush.py:60-98 | Whenever no batch is being settled, `events_buffered` is the queue plus what is in flight plus `events_sent`, `events_dropped`, cleared and load-evicted events, and `events_flushed` is `events_sent` plus `events_failed` plus in flight, for True, False and raising transports alike; the queue never exceeds its bound |
| Handshake.StepCounted | guard_agent/_buffer_queue.py:13-41 | Every step of any kind keeps the balance of counters, including the events of batches whose records are still being deleted |
| Handshake.StepPlaced | guard_agent/_buffer_queue.py:133-151 | Every step keeps each event in exactly as many places as it was added: none is lost and none is duplicated |
| Handshake.StepSettled | guard_agent/_client_flush.py:67-78 | Only a send whose every part was acknowledged or permanently rejected takes a batch off the client's hands |
| Handshake.RequeueFindsDistinctObjects | guard_agent/_client_ingest.py:41-43 | Although addresses of dead objects are reused, in every reachable state a batch that may come back and the queue hold objects at pairwise distinct addresses, which is what the class's requeue demands |
| Handshake.AddUnderPolicy | guard_agent/_buffer_overflow.py:35-54 | With room an added event goes to the tail; a full queue refuses it or makes it wait unless the policy is drop, and then exactly the oldest event goes |
| Handshake.OnlyDropPolicyDrops | guard_agent/_buffer_overflow.py:37-44 | Over any run under block or raise no add ever drops an event, and without a batch coming back nothing is dropped at all |
| Durability.MemoryAndRedisAgree | guard_agent/_buffer_redis.py:227-237 | In every reachable state without a clear, each key has at most one owner among queue, batches and pending deletions; an owned key is stored unless it has expired; a stored key is owned or is a leftover (of an earlier run, a load eviction, a failed deletion or a write that raised), never both |
| Durability.AtRestStoreIsQueue | guard_agent/_client_flush.py:56-80 | With no batch unfinished, no failed deletion, no leftover and no expiry, the stored keys are exactly those of the queued events |
| Durability.PendingEventIsDurable | guard_agent/_buffer_queue.py:27-32 | In every reachable state a queued or in-flight event that was persisted still has its record, under its key and with its own content, unless the record expired: no flush deletes it early and no other event's record stands in for it |
| Ordering.OrderIsKeptExactly | guard_agent/_buffer_queue.py:142-150 | Over every run, with any number of overlapping flushes: every state on the way has in-flight batches in drain order, then the queue, strictly ascending in arrival order, if and only if a refused batch is only put back when no batch drained later may still come back |
| Ordering.RequeueOrder | guard_agent/_buffer_queue.py:133-151 | Putting an ascending batch back in front of an ascending queue leaves it ascending if and only if one of them is empty, the batch fills the queue, or its last event arrived before the queue's head |
| Ordering.StepInOrder | guard_agent/_client_flush.py:80-80 | From a state in order, a step of any kind leaves one in order unless, and only unless, it puts back an older batch while a newer one is out |
| Ordering.SingleFlusherKeepsOrder | guard_agent/_buffer_queue.py:142-150 | With one flush at a time, the batch in flight followed by the queue is strictly ascending in arrival order through adds, evictions at either end and any number of failed sends |
| Ordering.OverlappingFlushersCanReorder | guard_agent/client.py:76 | A concrete run in which the condition fails: two overlapping flushes, both refused, put back oldest first, leave two events in the wrong order |
| Refinement.AddRoundIsRun | guard_agent/_buffer_queue.py:23-35 | What the class's `AddRound` promises of queue, store and counters is an enabled run of the system, under every policy, and however the eviction's deletion and the record's write end |
| Refinement.ArrivalsAreRun | guard_agent/_buffer_queue.py:13-41 | So is any number of adds by other coroutines |
| Refinement.NewcomersAreFresh | guard_agent/_client_ingest.py:41-43 | New objects with the next arrival numbers meet what the class demands of events that arrive while a batch is out |
| Refinement.LoadIsStep | guard_agent/_buffer_redis.py:136-141 | Reading one record back is one `Load` step with the same queue, and the store untouched |
| Refinement.ClearIsRun | guard_agent/_buffer_queue.py:177-189 | Clearing is one `Clear` step and then one step for each record deleted |
| Refinement.FinishIsRun | guard_agent/_client_flush.py:67-98 | What the class's `FinishFlush` promises is the run return, requeue if the send failed, deletions, settlement, from any state in which the batch is out, whatever else has happened since its drain, with matching `events_sent` and `events_failed` |
| Refinement.FlushIsRun | guard_agent/_client_flush.py:52-98 | What the class's `FlushEvents` promises, with events arriving during the send and for True, False and raising transports, is a run of the system that ends with the batch settled and with the same queue, store and counters |
| Refinement.DeliveredWasAnswered | guard_agent/_transport_send.py:34-38 | Over every run whose results are the sender's, with overlapping flushes and any server, each delivered event was in a POST answered 201, or 200 without a reported failure, or 400, 404 or 422, or 413 as a single item |
| Refinement.ConfirmIsDeleteSteps | guard_agent/_buffer_redis.py:227-237 | Confirming a list of keys has the effect on the store of a run of single `Delete` steps, failing ones included |
| Refinement.DeletedRecords | guard_agent/_buffer_redis.py:231-237 | Confirming removes exactly the non-empty keys whose deletion works, whatever their order and repetitions |
| Refinement.SendIsHonest | guard_agent/_transport_send.py:31-68 | Every result of `send_events`, for every server, is one the handshake's `Return` step admits |
| BoundedQueue.DrainThenRequeue | guard_agent/_client_flush.py:148-155 | A drain followed by a requeue with nothing between is the identity on events and keys, and drops nothing |
| BoundedQueue.RequeueEvents | guard_agent/_buffer_queue.py:133-151 | What a requeue keeps followed by what it discards is the batch followed by what was queued |
| BoundedQueue.PushFront | guard_agent/_buffer_queue.py:142-150 | One more left-append with its tail eviction and drop count turns the requeue of a suffix of the batch into that of a longer one, so that the loop computes prepend-and-truncate |
| BoundedQueue.LoadAllKeepsNewest | guard_agent/_buffer_redis.py:110-141 | A startup load leaves the newest `maxlen` of what was there and what was found, counts each one found as buffered and none as dropped |
| EventBuffering.EventBuffer.constructor | guard_agent/buffer.py:15-47 | A new buffer is empty, detached from Redis, with all counters zero |
| EventBuffering.EventBuffer.IsEventBufferFull | guard_agent/_buffer_overflow.py:108-111 | True exactly at capacity |
| EventBuffering.EventBuffer.ForgetOldestEventKey | guard_agent/_buffer_overflow.py:84-88 | Returns and removes the key of the head's address and no other; nothing on an empty deque |
| EventBuffering.EventBuffer.ForgetNewestEventKey | guard_agent/_buffer_overflow.py:96-100 | Returns and removes the key of the tail's address and no other; nothing on an empty deque |
| EventBuffering.EventBuffer.ResolveEventOverflow | guard_agent/_buffer_overflow.py:28-54 | At capacity raise refuses and block waits, and both leave everything alone; drop counts one, forgets the head's key and deletes its record; below capacity there is nothing to do |
| EventBuffering.EventBuffer.PersistEventToRedis | guard_agent/_buffer_redis.py:41-60 | Returns the key exactly when the write returned; a write that raised counts a failure and gives no key, whether it stored the record or not |
| EventBuffering.EventBuffer.AppendAndPersist | guard_agent/_buffer_queue.py:26-32 | The event is at the tail with its own key or none, its record is stored, and deque bounds and the identity map's safety hold again |
| EventBuffering.EventBuffer.AddRound | guard_agent/_buffer_queue.py:24-35 | Under drop the event is always at the tail, and a full deque loses its head and counts it; under raise it is refused exactly at capacity, under block it waits exactly at capacity, and then nothing changes; queue, key map, store and counters are those of the specification, so that it never inherits an old key |
| EventBuffering.EventBuffer.AddEvent | guard_agent/_buffer_queue.py:13-41 | Drop and a deque with room take the event at once; raise refuses it exactly at capacity; a blocked writer changes nothing and loses nothing while it waits, and is in, alone at the tail, at the first wake-up after a drain |
| EventBuffering.EventBuffer.FlushEventsWithKeys | guard_agent/_buffer_queue.py:98-113 | Hands out all events in order, each with its own key, and empties deque and key map |
| EventBuffering.EventBuffer.RequeueOneEvent | guard_agent/_buffer_queue.py:143-150 | One event goes in front with its key; a full deque loses its tail, whose key is returned |
| EventBuffering.EventBuffer.RequeueEventsInMemory | guard_agent/_buffer_queue.py:133-151 | The queue becomes the first `maxlen` entries of batch followed by queue, keys included; the keys returned are exactly the non-empty keys of the discarded suffix, tail first, and the drop count grows by its length |
| EventBuffering.EventBuffer.ConfirmEventRedisKeys | guard_agent/_buffer_redis.py:227-237 | Deletes the records of the non-empty keys except where the call fails, and does nothing without Redis |
| EventBuffering.EventBuffer.LoadOneEventFromRedis | guard_agent/_buffer_redis.py:117-143 | An unusable record changes nothing; a usable one is appended with its key, and a full deque forgets its head's key but counts no drop |
| EventBuffering.EventBuffer.InitializeRedis | guard_agent/_buffer_redis.py:110-115 | Loads the listed records in order into a queue that stays within bounds and safely mapped |
| EventBuffering.EventBuffer.ClearRedisBuffers | guard_agent/_buffer_redis.py:215-225 | Deletes the listed records until a call fails |
| EventBuffering.EventBuffer.ClearBuffer | guard_agent/_buffer_queue.py:173-189 | Empties deque and key map, so that no later object inherits a key, and then the listed records |
| Delivery.SendCoversBatch | guard_agent/_transport_send.py:31-68 | For every server the leaf batches in call order concatenate to the input; True is returned exactly when every leaf was acknowledged or permanently dropped; the batch sends are one less than twice the leaves |
| Delivery.SendCost | guard_agent/_transport_send.py:102-124 | n items cause at most 2n - 1 batch sends and (2n - 1)(retry_attempts + 1) POSTs |
| Delivery.SplitDepthIsLogarithmic | guard_agent/_transport_send.py:121-124 | At most 2^k items are split at most k levels deep |
| Delivery.RetryIsBounded | guard_agent/_transport_send.py:191-236 | At most retry_attempts + 1 POSTs, all of the same batch; `requests_sent` grows by one exactly when it returns True; nothing but a permanent error or the backoff overflow escapes, the latter only from 1024 retries on |
| Delivery.RetrySleepIsBounded | guard_agent/_transport_send.py:213-227 | Total sleep is at most 300 seconds per retry plus one limiter window, whatever server and other coroutines do |
| Sending.ReplyKinds | guard_agent/_transport_dispatch.py:39-102 | Each reply is dispatched by status and body: acceptance, partial failure, too large, permanent, busy with its delay clamped to 0 to 300 seconds or 60, failure, or useless |
| Delivery.VerdictIsTheServers | guard_agent/_transport_send.py:191-236 | Accepted, too large and permanent exactly if the last POST was answered 201 or 200 without failure, 413, or 400, 404 or 422; a partial failure means not accepted; and no earlier answer was final |
| Delivery.PartialFailureEndsTheSend | guard_agent/_transport_send.py:165-175 | A last answer that reports a partial failure means False whatever attempts are left, and False with attempts left means such an answer |
| Delivery.PartialFailureIsNotRetried | guard_agent/_transport_send.py:205-211 | If the first POST reports a partial failure it is the only one, with no sleep and one failed request, however many retries are configured |
| Delivery.AttemptsAreAccounted | guard_agent/_transport_send.py:195-203 | Each attempt is a POST, a refusal by the breaker or a refusal by the limiter, in every world |
| Delivery.BusyAnswerIsObeyed | guard_agent/_transport_send.py:213-219 | In any world a 429 is followed by a sleep of its Retry-After number, clamped to 0 to 300 seconds, or of 60 seconds without one, or on the last attempt by a failed request |
| Delivery.FailureBacksOff | guard_agent/_transport_send.py:222-228 | In any world a lost reply, 401, 403 or 5xx is followed by the backoff delay of its attempt, at most 60 seconds, or on the last attempt by a failed request |
| Delivery.DroppedAtOnce | guard_agent/_transport_send.py:62-64 | A batch whose first POST is answered 400, 404 or 422, or 413 for a single item, is dropped with one POST, no sleep and exactly one failed request |
| Delivery.TakenAtOnce | guard_agent/_transport_send.py:54-56 | A batch whose first POST is accepted takes one POST, no sleep and exactly one sent request |
| Delivery.GenericFailuresCost | guard_agent/_transport_send.py:222-228 | Without 429s a send sleeps at most min(backoff_factor(2^R - 1), 60R) seconds for R retries and one limiter window for each attempt the limiter refuses, successes, falsy answers and other coroutines allowed |
| Delivery.LeavesAreDecidedByServer | guard_agent/_transport_send.py:58-64 | Each leaf reported as acknowledged or dropped was POSTed in this very send as exactly that batch and accepted or permanently rejected; a 413 is final for a single item only |
| Delivery.RequestsSentAreAcknowledged | guard_agent/_transport_send.py:109-138 | Over a whole split recursion `requests_sent` grows by exactly the number of leaf batches acknowledged, and each leaf permanently dropped is a failed request |
| ServerLaws.CountedReplies | guard_agent/utils.py:361-369 | The breaker counts exactly lost replies, 401, 403, 429 and 5xx |
| ServerLaws.NeverStarvedTwice | guard_agent/_transport_send.py:197-203 | With no other caller the limiter never refuses two attempts in a row, so at most every other attempt is lost to it |
| ServerLaws.DownServerOverflows | guard_agent/utils.py:248-253 | Against a server that is down the backoff overflow escapes if and only if there are at least 1024 retries, with any limiter content and breaker state; only at exactly 1024 must the delay before the last attempt outlast the window |
| ServerLaws.TransportOverflows | guard_agent/transport.py:30-36 | The same equivalence for the limiter of 100 calls a minute and the breaker that every transport has |
| ServerLaws.DownServerCost | guard_agent/_transport_send.py:222-228 | A server that is down costs exactly the sum of the backoff delays, at most backoff_factor(2^R - 1) and 60R seconds for R retries, and one failed request, for any R as soon as the limiter has room until the first delay that outlasts its window |
| ServerLaws.DownServerSend | guard_agent/_transport_send.py:65-68 | For a whole batch that is False, exactly one failed request and no split, whether the retries end or overflow |
| ServerLaws.TransportDownCost | guard_agent/transport.py:30-36 | For the transport's own limiter and a backoff factor of at least 1, room for seven calls is enough for that |
| ServerLaws.BusyServerCost | guard_agent/_transport_send.py:213-219 | A server that keeps answering 429 never accepts, and each of its answers counts against the breaker, tripped or not; if neither limiter nor breaker refuses an attempt there are R + 1 POSTs and the sleep is exactly R times its own delay, capped at 300 seconds each |
| ServerLaws.RoomIsUnhindered | guard_agent/utils.py:376-382 | Neither refuses an attempt as long as the threshold and the limiter leave room for all of them |
| ServerLaws.UselessServerCost | guard_agent/_transport_send.py:180-181 | Falsy answers are retried at once, from any state in which the breaker lets a call start: every attempt the limiter admits is a POST and a failed request, and only the limiter makes the sender sleep |
| ServerLaws.CappedServerTakesAll | guard_agent/_transport_send.py:121-124 | A server that answers 413 exactly above c items takes every item exactly once and in order, in an exact number of sends; for n > c each accepted batch has between (c+1)/2 rounded down and c items, which bounds batches and sends; one configured retry is enough for any limiter content |
| ServerLaws.NeededIsSmall | guard_agent/_transport_send.py:121-124 | That number of sends is at most 2(n / ((c+1)/2)) - 1 |
| ServerLaws.HarmlessServerNeverTrips | guard_agent/_transport_send.py:102-124 | If no reply is one the breaker counts, a full split recursion started from CLOSED is CLOSED after each POST, counts no failure and is refused nowhere |
| Histories.EachAnswerMovesTheBreaker | guard_agent/utils.py:361-382 | Over a whole split recursion in every world, after each POST the breaker is one failure up, open from the threshold on, if the answer was lost, 401, 403, 429 or 5xx; as before after 400, 404, 413 and 422; and closed with count zero after anything else |
| Histories.FailureIsDated | guard_agent/utils.py:376-379 | A counted failure is dated when its answer is in, not when the call started |
| Histories.BreakerFollowsItsHistory | guard_agent/utils.py:350-382 | Whatever other coroutines do at the breaker during a send, its count and state are what its history of calls and reports makes them, and each POST is an entry of that history that reports its answer |
| Histories.WindowHoldsForPosts | guard_agent/utils.py:317-329 | However a send splits and retries, at most `max_calls` of its POSTs start in any half-open interval of one window |
| Histories.PostsExactlyWhen | guard_agent/_transport_send.py:197-207 | An attempt is a POST if and only if fewer than `max_calls` admissions of the whole history lie in the window, and failures are below the threshold, a probe is out or the recovery timeout is over |
| Transport.HTTPTransport.constructor | guard_agent/transport.py:30-40 | A new transport has an empty limiter of 100 calls a minute and a fresh breaker of 5 failures |
| Transport.HTTPTransport.CallThroughBreaker | guard_agent/utils.py:350-382 | One POST inside the breaker, whose new state is that of the specification `EachAnswerMovesTheBreaker` and `BreakerFollowsItsHistory` speak of |
| Transport.HTTPTransport.EvaluateSendResult | guard_agent/_transport_send.py:165-181 | Accepted, partial failure or retry, with one counter bumped in each case |
| Transport.HTTPTransport.SleepOrRecordGiveup | guard_agent/_transport_send.py:183-189 | Sleeps before the last attempt, counts one failed request at it |
| Transport.HTTPTransport.BackOffOnError | guard_agent/_transport_send.py:222-234 | Sleeps the backoff delay or gives up; the overflow changes nothing and is reported |
| Transport.HTTPTransport.TryOnce | guard_agent/_transport_send.py:196-234 | One pass of the loop over limiter, breaker, POST and the handlers in their order is the specification's attempt |
| Transport.HTTPTransport.SendWithRetry | guard_agent/_transport_send.py:191-236 | The attempt loop's new state and verdict are those of the recursive specification all theorems about one send speak of |
| Transport.HTTPTransport.SendEvents | guard_agent/_transport_send.py:31-68 | The recursive send's new state and result are those of the specification the delivery theorems speak of |
| Transport.HTTPTransport.BeInterrupted | guard_agent/_client_flush.py:61-65 | An exception that `send_events` does not catch leaves the transport in whatever state it had reached |
| Transport.HTTPTransport.SplitOrDropOnPayloadTooLarge | guard_agent/_transport_send.py:102-124 | Both halves are sent in order whatever becomes of the first; a single item is dropped and counted |
| RateLimiting.SlidingWindowBound | guard_agent/utils.py:317-329 | Over every run with a clock that never runs backwards, each half-open interval of one window holds at most `max_calls` admissions, although timestamps are forgotten |
| RateLimiting.ForgettingIsHarmless | guard_agent/utils.py:321-327 | Each decision is the one a limiter remembering every admission would take |
| RateLimiting.AdvertisedWaitIsExact | guard_agent/utils.py:331-337 | After a refusal, an acquisition d seconds later is admitted if and only if d reaches the advertised wait and the limiter is not one of zero calls |
| RateLimiting.NeverOverfull | guard_agent/utils.py:325-329 | The limiter never keeps more than `max_calls` timestamps, with any clock |
| RateLimiting.RateLimiter.Acquire | guard_agent/utils.py:317-329 | The new timestamp list and the answer are those of the specification the whole-run theorems speak of |
| RateLimiting.RateLimiter.GetRetryAfter | guard_agent/utils.py:331-337 | The wait computed from the least timestamp |
| CircuitBreaking.BreakerRefinesHistory | guard_agent/utils.py:350-382 | Under any overlap of calls the count is the number of counted failures since the last success, the state is CLOSED exactly below the threshold, and HALF_OPEN exactly while a probe is outstanding |
| CircuitBreaking.StartsExactlyWhen | guard_agent/utils.py:352-359 | A call is started if and only if the failures since the last success are below the threshold, a probe is outstanding, or more than the recovery timeout has passed since the latest counted failure |
| CircuitBreaking.CircuitBreaker.Admit | guard_agent/utils.py:352-359 | The gate's new state and answer |
| CircuitBreaking.CircuitBreaker.RecordSuccess | guard_agent/utils.py:371-374 | The state after a success |
| CircuitBreaking.CircuitBreaker.RecordFailure | guard_agent/utils.py:376-382 | The state after a counted failure |
| Backoff.DelayDoubles | guard_agent/utils.py:248-253 | The delay is the base doubled with each attempt, up to the cap |
| Backoff.TotalDelayCapped | guard_agent/utils.py:248-253 | The first k delays add up to at most k times the cap |
| Backoff.TotalDelayGeometric | guard_agent/utils.py:248-253 | They add up to at most base(2^k - 1) |
| Backoff.TotalDelayUncapped | guard_agent/utils.py:248-253 | They add up to exactly that while none has reached the cap |
| FlushGate.BackoffSeparatesFailures | guard_agent/_client_flush.py:80-88 | Over every run of non-overlapping flushes the k-th consecutive failure is recorded at least the sum of the first k - 1 delays after the first one, flush_interval(2^(k-1) - 1) while uncapped |
| FlushGate.FailureClosesGate | guard_agent/_client_flush.py:83-88 | After a failure the gate is open at a later time if and only if the delay has passed or the streak had reached 1024 |
| Client.GuardAgentHandler.constructor | guard_agent/client.py:87-102 | A new client's gate is open and its counters are zero |
| Client.GuardAgentHandler.BeginFlush | guard_agent/_client_flush.py:53-58 | Before `_events_retry_after` nothing is drained and nothing changes; from then on everything is drained, with its keys |
| Client.GuardAgentHandler.RequeueAndConfirmEvents | guard_agent/_client_flush.py:148-155 | The batch is put back in front with its keys, and the records of exactly what that pushed out are deleted |
| Client.GuardAgentHandler.FinishFlush | guard_agent/_client_flush.py:67-98 | On success records go, `events_sent` grows and streak and gate time are zero; on False and on an exception alike the batch is back with its keys, `events_failed` and the streak grow, and the gate is closed for the backoff delay, at most 300 seconds |
| Client.GuardAgentHandler.AddMeanwhile | guard_agent/_buffer_queue.py:21-22 | Events that arrive during a send are added one after another and keep all addresses in batch and queue distinct |
| Client.GuardAgentHandler.FlushEvents | guard_agent/_client_flush.py:52-98 | A whole flush, with events arriving while the send is under way, for True, False and raising transports: before the gate's time neither queue, store, counters nor transport change; otherwise batch, queue, store, counters and gate end as drain, adds and settlement make them |
| Client.ClosedGateDoesNothing | guard_agent/_client_flush.py:53-54 | A flush is a no-op exactly before the gate's time, and otherwise takes the whole queue |
| Client.FlushMovesGate | guard_agent/_client_flush.py:67-88 | What a whole flush does to the gate is a step of the gate's own law, with the result read off batch and outcome |
| Client.GateFollowsLaw | guard_agent/_client_flush.py:52-98 | Over any sequence of flushes the client's gate and the times of its consecutive failures are those of that law |
| Client.FailuresAreSeparated | guard_agent/_client_flush.py:80-88 | Over every sequence of flushes that do not overlap, with any arrivals before and during each, the k-th failure in a row is recorded at least the sum of the first k - 1 delays after the first |
| Client.FailedFlushRestores | guard_agent/_client_flush.py:80-82 | A failed or raising flush with nothing added meanwhile leaves events, keys and records exactly as they were |
| Client.AcceptedFlushClears | guard_agent/_client_flush.py:67-69 | An accepted one leaves neither events nor records of its batch |
| Redaction.NonInterference | guard_agent/utils.py:92-172 | Values that differ only under sensitive or undecodable keys, at any nesting of containers and of JSON within strings, below the depth limit, or in strings too long to scan, are redacted to equal results |
| Redaction.HiddenIsSecret | guard_agent/utils.py:76-89 | The code's test of a key holds exactly if the key spells one of the given names up to case and surrounding space, or is bytes that spell nothing |
| Redaction.HeadersAreClean | guard_agent/utils.py:62-73 | For the configured names: no entry reachable in the result of `sanitize_headers`, through containers and re-parsed strings, spells one of them and holds anything but the mark |
| Redaction.HeadersDoNotInterfere | guard_agent/utils.py:62-73 | Two values that differ only under such keys are redacted to equal results |
| Redaction.HarmlessHeadersStay | guard_agent/utils.py:92-172 | A value without such keys, JSON text or parts that cannot be walked, of at most ten nested containers, comes back unchanged |
| Redaction.HarmlessJsonStays | guard_agent/utils.py:175-185 | A string of JSON without secrets is replaced by one that reads back as the same value |
| Redaction.OpaqueIsWithheld | guard_agent/utils.py:188-197 | JSON text too long to scan or that crashes the reader, unknown objects, failing dumps and unreadable keys come out as the mark |
| Redaction.DumpsAsMapping | guard_agent/utils.py:125-149 | Objects that dump themselves, and mappings that cannot be rebuilt, are treated as the plain mapping of their fields |
| Redaction.UnhashableSetIsWithheld | guard_agent/utils.py:165-172 | A set of objects whose dumps cannot be members of a set comes out as the mark |
| Redaction.SetsStaySets | guard_agent/utils.py:165-170 | Members of a set that redaction makes equal become one |
| Redaction.HeadersNest | guard_agent/utils.py:99-101 | Results nest at most 11 containers |
| Redaction.ResultIsClean | guard_agent/utils.py:131-149 | No entry reachable in a result, through containers and through any number of re-parsings of its strings, has a hidden key and a value other than the mark |
| Redaction.NestingIsBounded | guard_agent/utils.py:99-116 | At any depth d the result nests at most 11 - d containers, whatever goes in |
| Redaction.SanitizeKeepsJson | guard_agent/utils.py:175-185 | Redacting a JSON value gives a JSON value, so that printing it again does not fall back to the raw string |
| Redaction.Idempotent | guard_agent/utils.py:92-116 | On values without JSON in their strings a second redaction changes nothing |
| Redaction.RedactSensitiveHeaders | guard_agent/_transport_dispatch.py:128-139 | Each event's metadata is redacted in place when it is a dict and left alone otherwise |
| Redaction.MetadataIsRedacted | guard_agent/_transport_dispatch.py:131-134 | What is left there shows nothing under the configured names and does not depend on it |
| Redaction.RetryLeavesMetadata | guard_agent/_transport_dispatch.py:160-161 | A retry redacts the same payload again without changing it, if its strings hold no JSON |

## Left out

- ServerLaws.CappedServerTakesAll: no other coroutine uses limiter or breaker meanwhile, and without any retry configured the limiter must have room for the sends, because a refused acquisition then defers its leaf; `SendCoversBatch` covers those cases.
- ServerLaws.DownServerCost: the exact cost needs a limiter that refuses no attempt, and no interference; `GenericFailuresCost` and `RetrySleepIsBounded` are without these conditions.
- Histories.BreakerFollowsItsHistory: other coroutines are taken to use limiter and breaker through their own methods, as all of the source does, and otherwise as they please; `EachAnswerMovesTheBreaker` is without this condition.
- FlushGate.BackoffSeparatesFailures: stops at the 1025th failure of a streak, from which on the gate no longer closes.
- Client.FailuresAreSeparated: stops there too, and for flushes that do not overlap.
- Redaction.Idempotent: nothing is claimed for strings of JSON, since printing one again can take it over the 8192-character limit.
- Redaction.RedactSensitiveHeaders: events of one payload are distinct dicts, as the dump of a batch makes them; metric tags are treated the same way and have no copy here.
- Durability.MemoryAndRedisAgree: runs with `clear_buffer` are excluded, because it deletes records after releasing the lock and can delete one of an event added in between; the other run theorems include it.
- EventBuffering.EventBuffer.AddEvent: a wake-up of a blocked writer is a poll that finds nothing changed or another coroutine's drain; other changes while it waits, and fairness among writers, are not modelled.
- Client.GuardAgentHandler.FlushEvents: only adds come between its drain and its settlement; overlapping flushes are the subject of the step system and `FinishIsRun`.
- Keys of records are taken as never used before; the clock and random parts they are made of are not modelled.
- Loading is a startup step over records nobody owns; a load racing live adds could load a live record a second time.
- The time-to-live of records is a step that may happen to any record at any time, not a clock.
- The metric half, line for line the event half, and the legacy `flush_events` and `flush_metrics`.
- `_flush_if_needed`, watermark, interval and semaphore: they decide when flushes start, and the theorems hold for any number at any time.
- Cancellation in the middle of a Redis call or a lock acquisition.
- HTTP client, TLS, gzip, signing, encryption, fork handling and logging: a POST has an arbitrary reply, or none for any exception of the client, one raised before the request leaves included.
- A date in Retry-After, which the code does not read, and a NaN there.
- A batch that cannot be built at all makes `send_events` return False without an attempt; batches are built from validated events here. One that cannot be written as JSON is modelled, as the falsy answer it counts as.
- JSON text, Unicode folding, decoding, hashing and `str` are parameters of redaction; the assumption on them is that reading yields JSON values, that printing one within the nesting limit works and reads back, and that the redaction mark is not JSON.
- Constructors of custom containers, which either copy or fail, and the iteration order of sets, which is fixed; subclasses of the builtin containers count as builtin.
- Floating-point rounding, infinities and clocks that run backwards: times are exact reals.
- Dynamic rules, status pushes, health thresholds, the error hook, the install id and the GET path.
