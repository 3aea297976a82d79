# Matchmaking service: a verified model

The service keeps waiting players in one Redis sorted set and a single "gateway
instance" key, both changed only by four atomic Lua scripts. A matcher pops the two
first players, publishes a match and, when publishing fails, writes the pair back. This
project models that protocol and the parts around it, and proves what they promise.

## How it is built

| File | What it holds |
|---|---|
| `Bytes`, `Decimal`, `Base64`, `Member` | byte strings, `%d`/`ParseInt`, unpadded Base64 (section 4 of RFC 4648, padding omitted as section 3.2 allows), the member text and its parser |
| `SortedSet` | the scripts as functions on a store (sorted set and identifier key) |
| `RedisQueue` | the mutable queue: Redis commands, the Lua scripts line by line as loops over them, and the Go methods, each proved against `SortedSet` |
| `Waiting` | the plain view, a map from player to slot, and the proof that the string sorted set is a function of it |
| `Protocol` | the transition system: any interleaving of enqueue, cancel, pop (answered or not), publish, write-back, giving up and eviction of either key, with any number of pairs in flight; `Wire` is the string level, `World` the plain level with history, and the two run in lockstep |
| `Riders`, `Conservation`, `Ambiguity` | where every accepted Enqueue ends up |
| `Answers` | what Enqueue and Cancel answer, against what happened to the waiting players |
| `Order`, `Gateways` | first come first served; one gateway per queue and per pair |
| `WriteBack` | one write-back on an arbitrary store, and repeated ones |
| `Circuit`, `Ticks` | the breaker against its history; ticks, cooldown and rate bound |
| `Retry`, `Matcher` | the retry schedule; the mutable matcher, with other clients acting before every call it makes |
| `TickEvents`, `ServiceRate` | a tick, and the service over any sequence of ticks, as runs of the protocol; how often a failing service takes a pair out of the queue |
| `Outcomes` | the matcher's matches, losses and drops, against the riders whose tokens were closed |
| `RunLoop`, `LoopTicks` | the run loop as a step relation over its goroutines and the clock; cooldown and rate bound for the ticks it starts |
| `FakeClock` | the hand-driven clock of the matcher tests |
| `Abandon` | cancelling every player of a match |

Every accepted Enqueue gets a fresh token, and each entry remembers its token and its
gateway. Both are history that no decision of the code reads.

## Failure models

Each call to Redis is delivered, never sent, or applied with its reply lost.

- **Clean**: a write-back that returns an error had no effect. `Conservation.Conservation`,
  `Conservation.PublishedOnce` and `Matcher.CleanEnding` assume it.
- **Ambiguous**: a failed write-back may have been applied. Everything else holds under
  this model. `Conservation.NothingVanishes` and `Conservation.ConservedExactly` say what
  is left of conservation and exactly when all of it holds; `Ambiguity.LostAndPublished`
  shows a run in which it does not; `Ambiguity.SequentialPublishesOnce` shows what one pair
  in flight at a time saves, and `TickEvents.ServicePublishesOnce` that the matcher has it.

A pop whose script ran but whose reply was lost takes its pair out of the queue for good.
That is an event of the protocol in both models, and its tokens are closed as unanswered.

`Order.NoOvertaking` assumes that each accepted Enqueue has a larger score than earlier
ones. `Ticks` assumes ticks that do not overlap, on a clock that does not go back;
`LoopTicks.LoopInOrder` proves this of the ticks that the run loop starts.

## Where the code and its documents differ

- Players who come later are not to get ahead of those who wait (`docs/DATA_DESIGN.md:40`).
  Scores are whole milliseconds read before the script runs
  (`internal/adapter/redisqueue/redis_queue.go:69`), so two players of one millisecond are
  ordered by their member bytes. `Order.SameMillisecondOvertakes` is a run in which the later
  of two waiting players is served as the first one. `Order.FirstComeExactly` says
  exactly in which runs nobody is overtaken, and `Order.NoOvertaking` that increasing scores
  are enough.
- A popped pair is said to come always from one gateway, and an identifier missing both at
  pop and at write-back to mean that no Enqueue came in between (`docs/DATA_DESIGN.md:82-84`,
  `internal/adapter/redisqueue/lua/reenqueue.lua:10-11`). `Gateways.SettledExactly` says for
  which write-backs the second claim fails: an Enqueue came, and the identifier was evicted
  after the last one. `Gateways.MixedPair` is a run in which two gateways are paired,
  `Gateways.MixedExactly` says exactly which write-backs mix the queue, and
  `Gateways.MixedPairExactly` that a mixed pair is then within reach, and only then.
- The open circuit is to keep players from being taken out while publishing fails
  (`internal/usecase/matcher/matcher.go:134-135`). A pop that loses its reply takes its pair
  out and counts as one pop failure only. `ServiceRate.StoreRateBound` holds without such
  pops, `ServiceRate.LostReplyBreaksBound` is a run with one, and
  `ServiceRate.TakersAreFailures` says exactly when the pairs taken are the failures counted.
- The fake clock accepts a ticker interval of zero or below. `FakeClock.EndsExactly` says when
  Advance still comes to an end.
- `decodeMember` accepts members that `encodeMember` never writes (a plus sign, leading
  zeros, line breaks or spare bits in the Base64 field). `Member.ReencodeIffCanonical` gives
  the members that survive, and `Protocol.ReachableQueue` shows that no other is ever stored.

## Model

| member | source | states |
|---|---|---|
| Decimal.ParseFormat | internal/adapter/redisqueue/redis_queue.go:169-185 | Every 64-bit integer, the minimum included, is read back from its decimal text, which holds no separator. |
| Decimal.FormatParse | internal/adapter/redisqueue/redis_queue.go:178-185 | A parsed text prints back as itself exactly when it has no plus sign, leading zero or negative zero. |
| Base64.DecodeEncode | internal/adapter/redisqueue/redis_queue.go:166-186 | Any byte string survives unpadded Base64 encoding and decoding, and the encoding holds no separator. |
| Base64.EncodeDecode | internal/adapter/redisqueue/redis_queue.go:186-190 | A decodable text is what the encoder writes exactly when it has no line break and no spare bits set. |
| Base64.AlphabetIs | internal/adapter/redisqueue/redis_queue.go:166-170 | The alphabet is A to Z, a to z, 0 to 9, plus and slash, as table 1 of RFC 4648 has it. |
| Base64.DecodeReads | internal/adapter/redisqueue/redis_queue.go:186-189 | The decoder forgives a line break and spare bits, and refuses a lone symbol and a padding sign. |
| Member.ValidateMemberPlayerID | internal/adapter/redisqueue/redis_queue.go:155-163 | An ID is accepted exactly when it is not empty and holds no colon. |
| Member.RoundTrip | internal/adapter/redisqueue/redis_queue.go:169-191 | Decoding gives back every colon-free ID, every pair of 64-bit numbers and every name that was encoded. |
| Member.EncodeInjective | internal/adapter/redisqueue/redis_queue.go:169-171 | Two entries with the same member text are the same entry. |
| Member.FirstFieldOfEncode | internal/adapter/redisqueue/lua/remove_player_entries.lua:2-9 | What the Lua helper matches in a stored member is the player ID that Go put there. |
| Member.ReencodeIffCanonical | internal/adapter/redisqueue/redis_queue.go:173-191 | Encoding a decoded member gives the member back if and only if its number and name fields are in written form. |
| Member.NonCanonicalExists | internal/adapter/redisqueue/redis_queue.go:173-191 | Some decodable member is not in written form, so the condition above matters. |
| Member.MemberReads | internal/adapter/redisqueue/redis_queue.go:165-171 | One whole member, letter by letter: player, deck, level and name in that order between colons. |
| Bytes.SignsAre | internal/adapter/redisqueue/redis_queue.go:22-23 | The separator is a colon; numbers are written with a minus sign and read with a plus sign too. |
| Bytes.LexDecides | internal/adapter/redisqueue/lua/pop_pair.lua:11 | Members of one score are ordered by the first byte in which they differ, and a prefix comes first. |
| SortedSet.LeastExists | internal/adapter/redisqueue/lua/pop_pair.lua:11 | A non-empty sorted set has an element before all others by score, then bytes. |
| SortedSet.LeastUnique | internal/adapter/redisqueue/lua/pop_pair.lua:11 | It has only one. |
| SortedSet.PopScriptOf | internal/adapter/redisqueue/lua/pop_pair.lua:7-16 | The pop script takes the least member and then the least of the rest, and replies with the identifier or empty text, then member and score of each in that order. |
| SortedSet.FirstInvalid | internal/adapter/redisqueue/redis_queue.go:140-143 | A write-back is refused exactly when some entry has an ID that may not be stored. |
| RedisQueue.RedisQueue.constructor | internal/adapter/redisqueue/redis_queue.go:49-57 | The queue starts empty and without an identifier. |
| RedisQueue.RedisQueue.LeastMember | internal/adapter/redisqueue/lua/pop_pair.lua:11 | The scan finds the element that comes before every other one. |
| RedisQueue.RedisQueue.ZRange | internal/adapter/redisqueue/lua/remove_player_entries.lua:6 | The snapshot lists exactly the stored members, strictly in key order. |
| RedisQueue.RedisQueue.ZPopMin | internal/adapter/redisqueue/lua/pop_pair.lua:11 | Each popped member is the least of what its predecessors left, with its score, and only those leave. |
| RedisQueue.RedisQueue.RemovePlayerEntries | internal/adapter/redisqueue/lua/remove_player_entries.lua:4-12 | The loop removes exactly the members whose first field is the ID and returns how many. |
| RedisQueue.RedisQueue.RunEnqueue | internal/adapter/redisqueue/lua/enqueue.lua:11-22 | The commands in sequence amount to: reset if the identifier differs or is missing, replace the player's entry, hold the new identifier, reply with the size reset. |
| RedisQueue.RedisQueue.RunCancel | internal/adapter/redisqueue/lua/cancel.lua:2 | All entries of the player go, the identifier stays, and the reply counts them. |
| RedisQueue.RedisQueue.RunPopPair | internal/adapter/redisqueue/lua/pop_pair.lua:7-16 | Below two members nothing changes and the reply is empty; otherwise store and reply are those of the specification. |
| RedisQueue.RedisQueue.RunReenqueue | internal/adapter/redisqueue/lua/reenqueue.lua:12-26 | On another identifier nothing changes and the reply is 0; otherwise all triples are put in order and the reply is 1, for no triple too. |
| RedisQueue.RedisQueue.Enqueue | internal/adapter/redisqueue/redis_queue.go:62-76 | A bad ID or an empty gateway changes nothing; otherwise the script's effect and count, or an error with or without the effect. |
| RedisQueue.RedisQueue.Cancel | internal/adapter/redisqueue/redis_queue.go:79-88 | The empty ID is refused, a colon is not; the answer is whether the set became smaller. |
| RedisQueue.RedisQueue.PopPair | internal/adapter/redisqueue/redis_queue.go:101-131 | The decoded pair with the identifier held at the pop, or the first decoding error, although the pair is gone from the store then. |
| RedisQueue.RedisQueue.DecodeScored | internal/adapter/redisqueue/redis_queue.go:112-130 | The loop over the reply decodes all entries in order or stops at the first failure. |
| RedisQueue.RedisQueue.Reenqueue | internal/adapter/redisqueue/redis_queue.go:137-151 | A bad ID anywhere stops the call before the script; otherwise the script's effect, and true exactly when the identifier matched. |
| Waiting.ConcreteInjective | internal/adapter/redisqueue/redis_queue.go:165-171 | Different sets of waiting players are stored as different sorted sets. |
| Waiting.ConcreteRemove | internal/adapter/redisqueue/lua/remove_player_entries.lua:4-12 | Sweeping the strings for an ID is removing one key from the map, and an ID that may not be stored matches nobody. |
| Waiting.ConcretePut | internal/adapter/redisqueue/lua/enqueue.lua:19-20 | Sweep and ZADD together are one map update. |
| Waiting.ConcreteSize | internal/adapter/redisqueue/redis_queue.go:91-97 | The cardinality is the number of distinct waiting players. |
| Waiting.ConcretePop | internal/adapter/redisqueue/lua/pop_pair.lua:7-16 | The script removes exactly the two front players of the map and replies with their texts. |
| Waiting.PopNeverFails | internal/adapter/redisqueue/redis_queue.go:101-131 | On every queue the scripts can build a pop decodes: nothing, or the two front players, different, in order, with the slots and scores they were stored with. |
| Waiting.PopTakesLeast | internal/adapter/redisqueue/lua/pop_pair.lua:11 | The first popped player comes before the second, and the second before everyone left. |
| Waiting.PopWriteBackIdentity | internal/adapter/redisqueue/lua/reenqueue.lua:20-25 | Popping a pair and writing it back restores store, scores and identifier exactly. |
| Waiting.WriteBackThenPop | docs/DATA_DESIGN.md:40 | A pair written back before later entries is what the next pop returns, in the same order, leaving the same rest. |
| Protocol.Simulation | internal/adapter/redisqueue/redis_queue.go:62-151 | Any event on the strings has the image of its effect on the plain map, in every state. |
| Protocol.Refinement | internal/adapter/redisqueue/redis_queue.go:62-151 | After any events in any order, strings, identifier and decoded pairs are the image of a plain map and its pairs in flight. |
| Protocol.ReachableQueue | internal/usecase/matcher/matcher.go:151-158 | On every reachable queue: size counts players, one entry each, every member an encoding with its own score, a pop decodes to none or two different players. |
| Riders.LiveBefore | internal/adapter/redisqueue/lua/enqueue.lua:19-20 | Only an accepted Enqueue brings in an entry; every other event moves unchanged copies. |
| Riders.OwnersRun | internal/adapter/redisqueue/redis_queue.go:62-151 | Over every run all live copies of one Enqueue agree in player, slot and gateway. |
| Riders.LiveFromEnqueue | internal/adapter/redisqueue/redis_queue.go:62-151 | Every live rider is exactly what an accepted Enqueue of the run brought in. |
| Answers.EnqueueAnswer | internal/adapter/redisqueue/lua/enqueue.lua:11-22 | After any run the answer of an accepted Enqueue is the number of waiting players whose entry it closed as reset: everybody's if another identifier or none was held, and otherwise nobody's, while all others stay. |
| Answers.CancelAnswer | internal/adapter/redisqueue/redis_queue.go:79-88 | After any run Cancel answers yes exactly when the player was waiting, and only that player leaves. |
| Answers.FatesTell | internal/usecase/matcher/matcher.go:133-231 | In every step a token is closed now, with a fate that tells which event closed it. |
| Conservation.ConservedStep | internal/adapter/redisqueue/lua/pop_pair.lua:7-16 | Any event but a write-back applied behind an error keeps every token in exactly one place. |
| Conservation.NothingVanishes | internal/usecase/matcher/matcher.go:133-231 | Over every run, whatever fails, each accepted Enqueue is in at least one place: waiting, in flight or closed. |
| Conservation.ConservedExactly | internal/usecase/matcher/matcher.go:183-211 | Over every run, tokens are conserved throughout if and only if no write-back with a matching identifier is applied while its caller sees an error. |
| Conservation.Conservation | internal/usecase/matcher/matcher.go:133-231 | With clean failures every accepted Enqueue is waiting, in one seat of one pair, or closed once with one fate. |
| Conservation.PublishedOnce | internal/usecase/matcher/matcher.go:173-180 | With clean failures a published Enqueue has no other end, and is neither waiting nor in flight. |
| Ambiguity.SequentialPublishesOnce | internal/usecase/matcher/matcher.go:83-96 | Whatever failed write-backs took effect, with one pair in flight at a time no Enqueue is published twice. |
| Ambiguity.LostAndPublished | internal/usecase/matcher/matcher.go:209-210 | A run in which one Enqueue is recorded lost and later published. |
| Order.OvertakeExactly | internal/adapter/redisqueue/lua/pop_pair.lua:11 | In one step somebody gets in front of a rider who stays if and only if it is an accepted Enqueue with a smaller key, for its own token. |
| Order.FirstComeExactly | docs/DATA_DESIGN.md:40 | Over every run, nobody ever gets in front of a rider who stays if and only if no accepted Enqueue has a smaller key than a rider whom it neither resets nor replaces. |
| Order.NoOvertaking | docs/DATA_DESIGN.md:40 | If Enqueue scores increase, the tokens in front of a player, counting pairs in flight, never grow along any run. |
| Order.PopLeavesNobodyAhead | internal/adapter/redisqueue/lua/pop_pair.lua:11 | Both popped players come before everyone still waiting. |
| Order.SameMillisecondOvertakes | internal/adapter/redisqueue/redis_queue.go:69 | A run in which an Enqueue of the same millisecond and gateway gets in front of a player who waits and stays, and is served as the first of the pair. |
| Order.SamePairAgain | internal/adapter/redisqueue/redis_queue.go:137-151 | If the write-back finds the identifier of the pop, neither player was enqueued again or came back in another pair, and every entry that came in, by Enqueue or by another pair's write-back, has a larger key, then the next pop returns the same pair, order and gateway, whatever own attempts failed, applied or not. |
| Gateways.VouchedRun | internal/adapter/redisqueue/lua/enqueue.lua:11-20 | Over every run, evictions included, a held identifier is that of every waiting entry, and a pair popped under one came under it. |
| Gateways.PairsArePure | internal/adapter/redisqueue/lua/reenqueue.lua:12-18 | A pair with an identifier has two entries of that gateway, and a matching write-back leaves only entries of it waiting. |
| Gateways.MixedExactly | docs/DATA_DESIGN.md:82-84 | Over every run the queue at some time holds two gateways if and only if some write-back ran with no identifier at pop and now while somebody else from another gateway waited; otherwise no pair is mixed. |
| Gateways.UnsettledExactly | docs/DATA_DESIGN.md:84 | For a pair in flight: nothing is held although an Enqueue was accepted since its pop, if and only if one was accepted since and the identifier was evicted after the last accepted one. |
| Gateways.SettledExactly | internal/adapter/redisqueue/lua/reenqueue.lua:10-18 | A write-back with no identifier at pop and now has an Enqueue in between if and only if one came and the identifier was evicted after the last one. |
| Gateways.OneGateway | docs/DATA_DESIGN.md:82-84 | Over every run without such a write-back, each pair in flight and the queue are of one gateway. |
| Gateways.MixedPair | docs/DATA_DESIGN.md:82-84 | A run in which a pop pairs players of two gateways. |
| Gateways.MixedPairExactly | docs/DATA_DESIGN.md:82 | From any state without a mixed pair in flight, Cancels and Pops alone lead to one if and only if the queue holds two gateways. |
| WriteBack.PutAllOthers | internal/adapter/redisqueue/lua/reenqueue.lua:20-25 | A write-back of any length, on any store, leaves everyone else's members and scores alone. |
| WriteBack.PutAllForgets | internal/adapter/redisqueue/lua/reenqueue.lua:20-25 | What it leaves depends on nothing those players had before. |
| WriteBack.ReenqueueIdempotent | internal/adapter/redisqueue/lua/reenqueue.lua:12-26 | Applying a write-back twice is applying it once. |
| WriteBack.AttemptsCollapse | internal/usecase/matcher/matcher.go:183-211 | Without interference any positive number of applied attempts equals one. |
| WriteBack.TrueMeansRestored | internal/usecase/matcher/matcher.go:186-192 | From any store, an attempt that returns true leaves each player exactly the popped entry at its score and nobody else changed. |
| Circuit.CircuitBreaker.AllowTick | internal/usecase/matcher/circuit.go:35-49 | Closed or cooled down allows; otherwise the first refusal since the opening is to be logged, and only that flag changes. |
| Circuit.CircuitBreaker.RecordPopSuccess | internal/usecase/matcher/circuit.go:51-56 | Clears its own counter and closes if the other one allows it. |
| Circuit.CircuitBreaker.RecordPopFailure | internal/usecase/matcher/circuit.go:58-65 | Counts, and opens or reopens from the threshold on. |
| Circuit.CircuitBreaker.RecordPublishSuccess | internal/usecase/matcher/circuit.go:67-72 | The same for publishing. |
| Circuit.CircuitBreaker.RecordPublishFailure | internal/usecase/matcher/circuit.go:74-81 | The same for publishing. |
| Circuit.CircuitBreaker.Trip | internal/usecase/matcher/circuit.go:84-94 | Opens, restarts the cooldown and allows one skip log. |
| Circuit.CircuitBreaker.Recover | internal/usecase/matcher/circuit.go:96-106 | Closes only when both counters are below the threshold. |
| Circuit.RefinesHistory | internal/usecase/matcher/circuit.go:51-106 | After any history each counter is the one length of the failure run at the end of its own results, and the circuit is open if and only if one of the runs reached the threshold. |
| Circuit.OpenedAtLastTrip | internal/usecase/matcher/circuit.go:84-94 | While open, the cooldown counts from the last failure at or above the threshold. |
| Circuit.AllowsExactly | internal/usecase/matcher/circuit.go:35-49 | After any history: with both failure runs below the threshold a tick is allowed; otherwise if and only if the cooldown has passed since the last failure at or above the threshold. |
| Circuit.SkipLogsBounded | internal/usecase/matcher/circuit.go:35-49 | Over any history skip logs never outnumber openings and reopenings. |
| Circuit.OneSkipPerOpening | internal/usecase/matcher/circuit.go:35-49 | Between two openings at most one skip is logged. |
| Circuit.LogsFirstRefusal | internal/usecase/matcher/circuit.go:42-48 | A skip is logged if and only if the tick is refused and no tick was refused since the last opening or reopening. |
| Ticks.TicksAreHistory | internal/usecase/matcher/matcher.go:133-181 | A run of ticks leaves the breaker as the history of what it was told, so what is proved of histories holds of ticks. |
| Ticks.TickCounts | internal/usecase/matcher/matcher.go:136-180 | What a tick does to the two counts: nothing when refused; a failed pop adds one; any answered pop clears the pop count; only a popped pair touches the publish count, clearing it or adding one. |
| Ticks.PollsExactly | internal/usecase/matcher/matcher.go:136-144 | Exactly when a tick calls PopPair, by what the breaker heard before. |
| Ticks.CooldownSafety | internal/usecase/matcher/matcher.go:134-142 | After a failure at or above the threshold at t0, no later tick that starts before t0 + cooldown pops. |
| Ticks.FailuresApart | internal/usecase/matcher/circuit.go:35-94 | From any tick on after which no publish succeeds, past the threshold each failing tick starts at least a cooldown after the failure before it. |
| Ticks.RateBound | internal/usecase/matcher/circuit.go:35-94 | From any tick on after which no publish succeeds, failure T+k comes no earlier than k cooldowns after failure T, and so do the starts of their ticks, whatever empty or failing pops come between. |
| Ticks.AnsweredAreFailures | internal/usecase/matcher/matcher.go:160-181 | From there on the ticks whose pop was answered with a pair are exactly those failures. |
| ServiceRate.ServiceTicks | internal/usecase/matcher/matcher.go:133-181 | The breaker of the service is that of its ticks as they turn out on the stores they meet. |
| ServiceRate.TakersCounted | internal/usecase/matcher/matcher.go:144-149 | The ticks that take a pair out of the store are as many as the answered ones plus those whose reply was lost, and without lost replies they are the answered ones. |
| ServiceRate.TakersAreFailures | internal/usecase/matcher/matcher.go:144-178 | While no publish succeeds, the pairs that leave the queue are the failures that the bound counts if and only if no reply of a pop that took one is lost. |
| ServiceRate.StoreRateBound | internal/usecase/matcher/circuit.go:35-94 | If none is lost, after the first T pairs at most one pair leaves the queue per cooldown, whatever others do. |
| ServiceRate.LostReplyBreaksBound | internal/usecase/matcher/circuit.go:58-65 | A run in which one lost reply lets two pairs leave the queue within one cooldown. |
| LoopTicks.LoopInOrder | internal/usecase/matcher/matcher.go:83-125 | Over every interleaving of the run loop, each tick starts after the one before it ended, on a clock that does not go back. |
| LoopTicks.LoopCooldown | internal/usecase/matcher/matcher.go:83-142 | So cooldown safety holds of the ticks the loop starts. |
| LoopTicks.LoopRateBound | internal/usecase/matcher/matcher.go:83-178 | And so does the rate bound. |
| Retry.VerdictFrom | internal/usecase/matcher/matcher.go:183-211 | From any attempt on: the bound on calls, all but the last failed, the verdict is the last answer's, and the independent call is made exactly when cancellation was noticed. |
| Retry.LossIffAllFailed | internal/usecase/matcher/matcher.go:183-231 | One to six calls, and a loss is recorded if and only if every one failed. |
| Retry.ShutdownGetsOwnAttempt | internal/usecase/matcher/matcher.go:194-231 | A call on an independent context is made if and only if cancellation was noticed, and it decides. |
| Retry.Schedule | internal/usecase/matcher/matcher.go:15-23 | Attempt k starts after full waits of exactly 100 * (2^(k-1) - 1) ms, at most 1500; the independent call adds no wait. |
| Retry.AnsweredStops | internal/usecase/matcher/matcher.go:185-192 | If attempts 1 to k-1 failed without cancellation, k is at most 5 and attempt k is answered, then exactly k calls are made and that answer decides. |
| Retry.CancelledStops | internal/usecase/matcher/matcher.go:194-205 | If they failed without cancellation and attempt k fails with it, after the call or in the wait, one independent call follows and decides. |
| Retry.LostExactly | internal/usecase/matcher/matcher.go:17-211 | A pair is lost after attempts if and only if all five failed and cancellation showed neither after one of them nor in one of the four waits. |
| Retry.ResortExactly | internal/usecase/matcher/matcher.go:194-205 | The independent call is made if and only if some attempt fails with cancellation after it or in the wait that follows, and those before it failed without. |
| Matcher.Validate | internal/usecase/matcher/matcher.go:44-58 | Options are accepted exactly when all four are positive. |
| Matcher.PlayersOf | internal/usecase/matcher/matcher.go:160-165 | The published players are the pair in order, field by field. |
| Matcher.TickKind | internal/usecase/matcher/matcher.go:144-178 | On every queue the scripts can build: an unanswered pop is a pop failure, fewer than two players an empty pop, two or more a pair, published if building and publishing work and failed if not. |
| Matcher.TickPublishes | internal/usecase/matcher/matcher.go:160-180 | There a tick publishes nothing, or exactly one match of the two front players in order, each with their own deck, name and level. |
| Matcher.Matcher.TryReenqueue | internal/usecase/matcher/matcher.go:186-192 | One call, after whatever others do: its answer and its effect are those of the store at that moment. |
| Matcher.Matcher.RetryOnce | internal/usecase/matcher/matcher.go:186-206 | One attempt settles the pair with the complete report and store, or leaves exactly the remaining attempts to make on the store as it is now; it never goes on after the fifth. |
| Matcher.Matcher.RunRetries | internal/usecase/matcher/matcher.go:184-208 | The loop gives the report and the store of the whole write-back, with other clients acting before every call. |
| Matcher.Matcher.BestEffortReenqueue | internal/usecase/matcher/matcher.go:214-231 | One more call on an independent context, after whatever others do, gives the verdict and the store. |
| Matcher.Matcher.ReenqueueWithRetry | internal/usecase/matcher/matcher.go:183-231 | On top of that, one loss or one dropped pair is recorded, or neither, as the verdict says. |
| Matcher.Matcher.RunTick | internal/usecase/matcher/matcher.go:133-181 | A refused tick touches nothing but the skip log; an allowed one, with others acting between its calls, leaves store, breaker and loss records as its outcome demands, and publishes the match of the two front players or none. |
| Matcher.WriteBackOnSchedule | internal/usecase/matcher/matcher.go:183-231 | Whatever others do meanwhile, the report of a write-back is the schedule's for the answers it got, so the bounds on calls and waits and the verdicts hold of it. |
| Matcher.WriteBackLostExactly | internal/usecase/matcher/matcher.go:183-211 | Whatever others do, a write-back is lost after attempts if and only if five calls brought no reply and cancellation never showed. |
| Matcher.WriteBackAnswered | internal/usecase/matcher/matcher.go:185-192 | If the first reply comes to call k of at most five, without cancellation before, there are k calls, and the pair is written back if the store then holds the pop's identifier and dropped if not. |
| Matcher.CleanEnding | internal/usecase/matcher/matcher.go:183-231 | With clean failures the store at the end is what others left, with the pair put back last if the verdict is "written back" and without any trace of the write-back otherwise. |
| Matcher.WrittenBackEnding | internal/usecase/matcher/matcher.go:183-211 | With any failures and any interference, "written back" means that each player has exactly the popped entry at its original score. |
| Matcher.OthersEnding | internal/usecase/matcher/matcher.go:183-231 | With any failures and any interference, a write-back leaves the identifier and every other player's entries as others made them. |
| Matcher.UndisturbedEnding | internal/usecase/matcher/matcher.go:183-211 | Without interference, a write-back of which some call reaches Redis leaves what one write-back leaves, and otherwise nothing changes. |
| Matcher.FailedTickRestores | internal/usecase/matcher/matcher.go:173-178 | An undisturbed tick whose publish fails and one of whose write-back calls reaches Redis leaves the store exactly as it was. |
| TickEvents.RetryOnWire | internal/usecase/matcher/matcher.go:183-231 | A write-back with interference has the effect of its events: others' events, one write-back event per call, and giving up on loss. |
| TickEvents.TickIsEvents | internal/usecase/matcher/matcher.go:133-181 | After any run with no pair in flight, an allowed tick with any interference and any failures, a lost pop reply included, is a run of protocol events and leaves none in flight. |
| TickEvents.ServiceIsRun | internal/usecase/matcher/matcher.go:77-181 | Breaker and store over any sequence of ticks, with anything done by others in between, are those of a protocol run that holds at most one pair at a time. |
| TickEvents.ServicePublishesOnce | internal/usecase/matcher/matcher.go:133-231 | So the service never publishes one Enqueue twice, whatever failed write-backs took effect. |
| TickEvents.ServeAll | internal/usecase/matcher/matcher.go:91-95 | The ticks of a matcher on a fresh queue and breaker, one after another, leave breaker, store, matches and records as the service has them. |
| Outcomes.EndedAreClosed | internal/usecase/matcher/matcher.go:173-231 | The pairs that end published, lost or dropped are exactly those whose tokens are closed so at that time. |
| Outcomes.RetryEnds | internal/usecase/matcher/matcher.go:183-231 | A write-back's verdict tells exactly how its pair ends: as lost, as dropped, or not. |
| Outcomes.ServiceRecords | internal/usecase/matcher/matcher.go:133-231 | Over any ticks with any interference and failures: the k-th match is the k-th pair of riders closed as published, in order, each under their own name, deck and level; they are two players, each as an earlier accepted Enqueue brought them in; and losses and drops recorded are the pairs closed so. |
| RunLoop.SoundRun | internal/usecase/matcher/matcher.go:77-126 | The invariant of the loop, the completion channel, the wait group, all tick goroutines and the times of their ticks, over every interleaving. |
| RunLoop.OneTickAtATime | internal/usecase/matcher/matcher.go:86-96 | Working ticks plus waiting completions are 1 while a tick is believed to run and 0 otherwise; ticks never overlap; a completion is never sent into a full channel, even after return. |
| RunLoop.DrainCompleteMeansIdle | internal/usecase/matcher/matcher.go:106-119 | "Drain complete" means every tick goroutine has finished. |
| RunLoop.NoTickAfterShutdown | internal/usecase/matcher/matcher.go:106-119 | Once shutdown is chosen no tick starts. |
| RunLoop.LoopHistory | internal/usecase/matcher/matcher.go:86-125 | Over every interleaving the moves made so far determine the loop: pending notification, cancellation, shutdown, drain, clock, and how far each tick has come. |
| RunLoop.TickStartsExactly | internal/usecase/matcher/matcher.go:98-121 | A tick can start if and only if shutdown was not chosen, every tick started was seen to complete, and a notification came after the last one taken; starting adds one goroutine that is in its tick. |
| RunLoop.NotifyBetween | internal/usecase/matcher/matcher.go:99-104 | Between two starts there is a notification, so one notification starts at most one tick. |
| RunLoop.SelectsExactly | internal/usecase/matcher/matcher.go:105-123 | Exactly when the loop can choose shutdown, and when it can see a completion. |
| RunLoop.DrainsExactly | internal/usecase/matcher/matcher.go:106-119 | Exactly when the waiter can close the drain channel, and when the loop can return drained or timed out. |
| RunLoop.TaskMovesExactly | internal/usecase/matcher/matcher.go:91-95 | Exactly when a tick goroutine can end its tick, send and leave; sending needs only that it ended. |
| RunLoop.DrainCanComplete | internal/usecase/matcher/matcher.go:106-119 | From every state that drains, moves of the ticks and the waiter alone lead to a completed drain. |
| RunLoop.TickCanStart | internal/usecase/matcher/matcher.go:98-124 | From every state in which the loop selects, another tick can be reached. |
| RunLoop.NeverStuck | internal/usecase/matcher/matcher.go:98-125 | While a tick is believed to run something can always move towards its completion, and so can a drain. |
| FakeClock.EarliestIsFirstLeast | internal/usecase/matcher/matchertest/clock.go:152-173 | The chosen notification is the first collected of the least time, as a stable sort puts it. |
| FakeClock.FireProgress | internal/usecase/matcher/matchertest/clock.go:77-84 | Each firing is due, keeps the clock well formed and decreases a measure. |
| FakeClock.EndsExactly | internal/usecase/matcher/matchertest/clock.go:73-86 | Firing what is due comes to an end if and only if every active ticker that is due has a positive interval. |
| FakeClock.FiresInOrder | internal/usecase/matcher/matchertest/clock.go:71-86 | Firing times never decrease, lie between now and the target, and nothing is overdue afterwards. |
| FakeClock.FiresTiesInOrder | internal/usecase/matcher/matchertest/clock.go:158-172 | What fires at one moment fires timers first, in the order in which they were asked for, and then tickers in the order in which they were made. |
| FakeClock.InboxAfter | internal/usecase/matcher/matchertest/clock.go:71-72 | After Advance an unread notification is as it was, and an empty channel holds the first firing of its source, if any. |
| FakeClock.TickerFirings | internal/usecase/matcher/matchertest/clock.go:191-194 | An active ticker fires at exactly the elapsed periods, a stopped one never. |
| FakeClock.ProgressionAt | internal/usecase/matcher/matchertest/clock.go:191-194 | Those are next + k * interval for every k up to the target and no other. |
| FakeClock.TimerFirings | internal/usecase/matcher/matchertest/clock.go:175-184 | A due timer fires exactly once, at its time; afterwards exactly the timers not due are left. |
| FakeClock.Additive | internal/usecase/matcher/matchertest/clock.go:73-86 | Advancing twice gives the firings and the state of advancing once by the sum. |
| FakeClock.WithoutTimer | internal/usecase/matcher/matchertest/clock.go:177-183 | Writing the kept timers over the front of the buffer being read gives exactly the filtered list in order. |
| FakeClock.Clock.After | internal/usecase/matcher/matchertest/clock.go:52-59 | Adds one timer with a channel of its own; with a duration of at least zero nothing becomes overdue. |
| FakeClock.Clock.NewTicker | internal/usecase/matcher/matchertest/clock.go:62-69 | Adds one active ticker of any interval whose first period starts now; with an interval of at least zero nothing becomes overdue. |
| FakeClock.Clock.Stop | internal/usecase/matcher/matchertest/clock.go:202-207 | Stops that ticker and changes nothing else. |
| FakeClock.Clock.EarliestDue | internal/usecase/matcher/matchertest/clock.go:152-173 | Finds a due notification exactly when there is one, and the one specified. |
| FakeClock.Clock.SendWithoutWaiting | internal/usecase/matcher/matchertest/clock.go:209-214 | An unread notification is kept and the new one dropped. |
| FakeClock.Clock.FireTimer | internal/usecase/matcher/matchertest/clock.go:175-184 | Notifies, and removes that timer only. |
| FakeClock.Clock.FireTicker | internal/usecase/matcher/matchertest/clock.go:191-194 | Notifies, and moves that ticker on by one interval. |
| FakeClock.Clock.Advance | internal/usecase/matcher/matchertest/clock.go:73-86 | Whenever it ends at all: state and firings are those of the specification, and moving forward leaves nothing overdue if nothing was. |
| Abandon.Abandoner.Abandon | internal/usecase/abandon/abandon.go:24-37 | Every listed player is tried in order; the failed ones are reported, and exactly the players whose script ran are removed. |
| Abandon.SucceedsIffAllDo | internal/usecase/abandon/abandon.go:24-37 | The call succeeds if and only if every cancel did. |
| Abandon.ReportsExactly | internal/usecase/abandon/abandon.go:24-37 | A player is reported if and only if some cancel of theirs failed. |
| Abandon.GoesPastFailures | internal/usecase/abandon/abandon.go:24-37 | An entry is removed if and only if the script ran for its player somewhere in the list, whatever the other cancels met. |
| Abandon.SuccessRemovesAll | internal/usecase/abandon/abandon.go:24-37 | On success none of the listed players is left and every other entry keeps its score. |
| Abandon.RepeatChangesNothing | internal/usecase/abandon/abandon.go:24-37 | After a call that succeeded, a second one changes nothing, whatever it meets. |
| Abandon.ColonRemovesNothing | internal/adapter/redisqueue/lua/remove_player_entries.lua:3-9 | Cancelling an ID with a colon removes nothing from any store. |

## Left out

- Scores are whole milliseconds of absolute value at most 2^53, where a 64-bit float is exact, and Redis is taken to print them as plain decimals; other floats and their text are not modelled.
- Redis itself: scripts are atomic, and ZADD, ZREM, ZRANGE, ZPOPMIN, ZCARD, GET and SET behave as documented. The script arguments are a list of typed triples instead of one flat list of texts.
- Matcher.Matcher.RunTick: what others do is a sequence of their events before each call of the tick, given from outside; waits are added up and not slept through, and cancellation is an input for each attempt.
- TickEvents.ServiceIsRun: what others do before a tick that the breaker refuses is counted with the next allowed one.
- Conservation.Conservation: a pair whose popped reply was lost counts as closed, because no code of the service knows of it any more.
- RunLoop.NeverStuck: something can always move, and TickCanStart and DrainCanComplete say where it can lead, but that it does move (fairness) is not stated. The ticker stop and the tick's own steps are not part of the loop's state.
- Ticks.RateBound: the breaker's mutex is taken for granted; the reader `IsCircuitOpen` changes nothing.
- FakeClock.Clock.Advance: needs the condition of EndsExactly, without which the original does not return. The clock's mutex, the change channel, the `WaitFor` methods and readers that empty a channel while the clock moves are not modelled; the log of firings is ghost.
- Integer and time overflow in Go: counters, durations and clock readings are unbounded here; deck and level are 64-bit.
- RedisQueue.RedisQueue.PopPair: its decoding loop is the method DecodeScored of its own; ReenqueueWithRetry is likewise split into the loop, one turn of it and the record of its verdict. `Size` is a plain read.
- The HTTP server, authentication, configuration, Pub/Sub, secrets, match identifiers, event JSON and log texts: requests become events, publishing a step that succeeds or fails, and log lines of interest counters.
