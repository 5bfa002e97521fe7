# Verified model of the e-commerce backend

A Dafny 4.11 model of the parts of the backend that keep shared state through several steps:
first-come coupon issuance, the locks and retries around use cases, orders with payment and
compensation, and the in-memory sorted sets behind the sales ranking. `dafny verify
dfyconfig.toml` checks all of it.

| file | what it models |
|---|---|
| `CouponProtocol.dfy` | `issueCoupon` as a concurrent step machine: any number of requests, any interleaving at the awaits, a request may stop before any step |
| `CouponService.dfy`, `CouponRuns.dfy` | the coupon service and the Kafka consumer run one message after another, over the in-memory Redis |
| `CouponRefinement.dfy` | the machine and the serial specification agree on a request that runs alone and on whole serial runs |
| `RedisLock.dfy`, `TimedLock.dfy` | the `SET NX PX` lock: its retry loop, and all timed runs of its users |
| `PessimisticLock.dfy`, `OptimisticLock.dfy`, `VersionCheck.dfy` | the three interceptors: their loops as methods, and two of them as interleaved machines |
| `Entities.dfy`, `ShopService.dfy` | the entity objects and the use cases and handlers that load, change and save them |
| `Shop.dfy`, `ShopLaws.dfy`, `CouponTypes.dfy` | the same use cases as functions on the database, and what single calls mean |
| `ShopRuns.dfy`, `OrderTimers.dfy`, `ShopLedger.dfy`, `PaymentBooks.dfy`, `CouponLedger.dfy`, `SalesRuns.dfy` | laws over all runs: stock, timers, points, payments, coupons, daily rankings |
| `LockedHandlers.dfy` | the retrying interceptor's time under its lock, joined with all timed runs of the lock |
| `RedisStore.dfy`, `SortedSets.dfy`, `TopSellers.dfy` | the in-memory Redis commands, what a history of sorted-set writes means, and the ranking on top |
| `Common.dfy`, `Items.dfy` | shared values and lemmas |

Classes and loops follow the source; each method is tied by its `ensures` to a function, and the
laws are proved about the functions and the runs built from them. In the machines an event that
is not possible leaves the state alone, so every sequence of events is a run.

## What the code does, where its documents or its intent say otherwise

- `docs/Policy.md` lines 108-110 deduct stock when a payment completes; the code deducts it when
  the order is placed, and the model follows the code.
- The ten-minute timer compensates without looking at the order, so a paid order's stock comes
  back as well (`OrderTimers.PaidOrderReturnsToStock`, `OrderTimers.PaidStaysSoldExactly`).
- A failure event carries every line of the request, so lines that were never taken from stock
  are given back too (`ShopLaws.CompensationFormula` says exactly how much, and
  `ShopLaws.ShortageGivesStock` shows a case), and lines refused
  for a negative quantity take stock away (`ShopRuns.StockNonNegativeExactly`).
- Compensation frees a coupon that an earlier order had used (`ShopLaws.EmptyOrderFreesCoupon`), so
  one coupon can discount several orders (`CouponLedger.CouponDiscountsTwice`,
  `CouponLedger.OneDiscountExactly`).
- A failed order never raised the ranking, yet its compensation lowers it
  (`SalesRuns.FailedOrderErasesSales`, `SalesRuns.UnknownUserErasesSales`).
- The second stock check looks at stocks already reduced by the reservation, so an order needs
  each line's quantity twice at its turn (`ShopLaws.RecheckFailedExactly`,
  `ShopLaws.CoveredLineRefused`).
- One coupon per user needs that a user's requests do not overlap (`CouponProtocol.AtMostOnceExactly`).
- `releaseLock` deletes the key whoever holds it; exclusion by the Redis lock needs sections
  shorter than the time to live (`TimedLock.MutexExactly`, `LockedHandlers.InterceptorExcludesExactly`),
  and so does deleting only one's own key (`TimedLock.OwnKeysExactly`).
- The nightly recalculation adds to the overall score of the night before
  (`TopSellers.AggregationIsSumExactly`, `TopSellers.SlidingNights`).
- A ranking limit of 0 lists every holder (`CouponRuns.RankingInIssuanceOrder`).
- A request for an unknown coupon type keeps a unit of stock and its queue entry
  (`CouponRuns.UnknownTypeLeaks`).

## Model

| member | source | states |
|---|---|---|
| `CouponProtocol.FirstComeFirstServed` | src/infrastructure/services/coupon.service.ts:23-70 | In every interleaving with any crashes, the requests that win are exactly the first N to decrement; every later one loses; only winners save, each at most once, and never more than N coupons exist, even while rollbacks are pending |
| `CouponProtocol.StockInvariantHolds` | src/infrastructure/services/coupon.service.ts:37-51 | The invariant behind it: stock is N minus decrements plus rollbacks, and who has decremented, saved or rolled back is read off each request's position in the program |
| `CouponProtocol.RollbacksAreLate` | src/infrastructure/services/coupon.service.ts:37-45 | Rollbacks never outnumber the decrements that came after the stock was gone, so a pending rollback cannot hand out a unit twice |
| `CouponProtocol.StockConservation` | src/infrastructure/services/coupon.service.ts:37-51 | In every state, crashes included: stock + saved coupons + winners that have not saved + losers that have not rolled back = N |
| `CouponProtocol.SettledAccounts` | src/infrastructure/services/coupon.service.ts:34-70 | When every request has run to its end, stock = N − coupons, stock is not negative and the queue is empty, even if requests of one user overlapped |
| `CouponProtocol.AtRestExactly` | src/infrastructure/services/coupon.service.ts:34-70 | When nothing is in flight, crashes and refusals included: stock = N − coupons if and only if no winner is unsaved and no loser owes its unit; those requests, and one for everybody still queued, were cut short |
| `CouponProtocol.QueueExplainedHolds` | src/infrastructure/services/coupon.service.ts:103-121 | Whoever stands in the queue has a request between joining and leaving it |
| `CouponProtocol.AtMostOncePerUser` | src/infrastructure/services/coupon.service.ts:75-138 | If no user ever has two requests in flight, no user ever has two coupons, whichever requests stop and wherever they stop; every holder stays in queue or issued set |
| `CouponProtocol.AtMostOnceExactly` | src/infrastructure/services/coupon.service.ts:75-113 | For any limit on a user's requests in flight, all runs within it give at most one coupon a user if and only if the limit is at most 1, or the stock at most 1, or the type is unknown |
| `CouponProtocol.OverlapIssuesTwice` | src/infrastructure/services/coupon.service.ts:75-113 | The run that shows why: two requests of one user both pass the checks before either joins the queue, and both save |
| `CouponRefinement.AloneIsIssue` | src/infrastructure/services/coupon.service.ts:23-70 | A protocol request that nobody interrupts ends in the state, and with the answer, that the serial specification Issue gives, from every state that both describe |
| `CouponRefinement.SerialIsIssueAll` | src/infrastructure/services/coupon.service.ts:23-70 | A run of the protocol whose requests come back to back ends in the state that the replay of the same messages gives |
| `CouponRefinement.SerialProtocolFirstCome` | src/infrastructure/services/coupon.service.ts:23-51 | Such a run of the protocol serves exactly the first N distinct on-time users, in order, and leaves the queue empty |
| `CouponService.CouponsService.IssueCoupon` | src/infrastructure/services/coupon.service.ts:23-70 | The whole request over the in-memory Redis and the coupon table: outcome and new state of the type are those of Issue, the stored coupon is the one its type describes, no other key and no other type's coupon changes |
| `CouponService.CouponsService.CheckCouponAvailability` | src/infrastructure/services/coupon.service.ts:75-98 | True exactly when the user has no issued score, no queue score and the end time has not passed; changes nothing |
| `CouponService.AvailableExactly` | src/infrastructure/services/coupon.service.ts:75-98 | With a stored end time n kept until k, a request is let through if and only if the user has no score other than 0 in either set and the check is not after n while n is kept |
| `CouponService.LateExactly` | src/infrastructure/services/coupon.service.ts:91-95 | Late means after the end time and not after the time until which it is kept; without an end time nothing is late |
| `CouponService.QueueRankExactly` | src/infrastructure/services/coupon.service.ts:103-113 | In the ranks of a queue who joined earlier stands first, ties by entry |
| `CouponService.CouponsService.RecordUserRank` | src/infrastructure/services/coupon.service.ts:103-113 | Puts the user in the queue and answers its position among the queue sorted by time |
| `CouponService.CouponsService.RemoveUserRank` | src/infrastructure/services/coupon.service.ts:118-121 | Takes exactly the user out of the queue |
| `CouponService.CouponsService.TakeStock` | src/infrastructure/services/coupon.service.ts:37-38 | Lowers the stock of the type by one, kept for 30 more seconds, and answers what remains |
| `CouponService.CouponsService.ReturnStock` | src/infrastructure/services/coupon.service.ts:40-45 | Raises the stock of the type by one |
| `CouponService.CouponsService.CreateAndSaveCoupon` | src/infrastructure/services/coupon.service.ts:200-239 | Refuses unknown types; else appends one coupon of that type to the user |
| `CouponTypes.UsableForItsDaysExactly` | src/infrastructure/services/coupon.service.ts:220-233 | A coupon as issued is usable at a time if and only if at most 30 · 86 400 000 ms have passed since its issue, 7 · 86 400 000 for a limited offer |
| `CouponTypes.DiscountOfTypeExactly` | src/infrastructure/services/coupon.service.ts:208-215 | Within those days it takes its type's percentage, rounded down, or fixed amount off a total; afterwards nothing |
| `CouponTypes.OrderDiscountByType` | src/infrastructure/services/coupon.service.ts:262-289 | A placed order with such a coupon is discounted by its type and says so within those days, and is at full price afterwards |
| `CouponTypes.KnownTypesExactly` | src/infrastructure/services/coupon.service.ts:203-215 | Exactly six types are known |
| `CouponRuns.UnknownTypeLeaks` | src/infrastructure/services/coupon.service.ts:34-49 | Messages of an unknown type issue nothing, yet each of the first N distinct on-time users takes a unit of stock for good and stays in the queue |
| `CouponRuns.UnknownStaysQueued` | src/infrastructure/services/coupon.service.ts:34-49 | One such request: the unit and the queue entry, with the time of queueing, stay, and the user's next request is refused |
| `CouponService.CouponsService.FinalizeUserRank` | src/infrastructure/services/coupon.service.ts:126-138 | Moves the user from queue to issued set and stores its rank |
| `CouponService.CouponsService.GetCouponRanking` | src/infrastructure/services/coupon.service.ts:143-167 | Rows in rank order with positions from 1 and the stored issue time; the loop over the flat list in steps of two |
| `CouponRuns.KafkaCouponConsumer.HandleCouponIssueRequest` | src/infrastructure/services/kafka-coupon-consumer.service.ts:51-144 | One delivery: the type's state advances by Issue; the response names user and type and carries the id of the stored coupon or the reason of the refusal; what does not parse gets no response and changes nothing |
| `CouponRuns.KafkaCouponConsumer.Consume` | src/infrastructure/services/kafka-coupon-consumer.service.ts:33-37 | Any mixture of types and of deliveries that do not parse: the final state of each type and every response to its messages are those of its own messages replayed in order; every coupon id in a response is that user's row |
| `CouponRuns.OnlyOwnMessages` | src/infrastructure/services/kafka-coupon-producer.service.ts:43-44 | Messages of other types can be left out: the state of a type is that of its own partition |
| `CouponRuns.SerialFirstCome` | src/infrastructure/services/coupon.service.ts:23-138 | For any messages, redelivered duplicates included: a user holds a coupon if and only if fewer than N distinct users had come on time before it; holders are in arrival order, once each; the count, the stock and the empty queue follow |
| `CouponRuns.SerialRun` | src/infrastructure/services/coupon.service.ts:23-138 | Between any two messages: holders, issued set and rank set list the first N distinct on-time users in order, every stored rank is 0, the queue is empty |
| `CouponRuns.AmongFirst` | src/infrastructure/services/coupon.service.ts:23-51 | Being among the first N distinct users, said by counting who came before |
| `CouponRuns.FirstDistinctMeaning` | src/infrastructure/services/coupon.service.ts:75-87 | The list of distinct users has no duplicates and exactly the users of the messages |
| `CouponRuns.IssueTimes` | src/infrastructure/services/coupon.service.ts:126-138 | The i-th coupon was issued by the message that brought the i-th distinct on-time user, at that message's time |
| `CouponRuns.RankingInIssuanceOrder` | src/infrastructure/services/coupon.service.ts:103-167 | After any serial run the ranking lists the holders in the order they were served, ranks 1..k, each with its own issue time; limit 0 asks for all of them |
| `RedisStore.RedisService.Set` | src/infrastructure/services/redis.service.ts:26-44 | In memory: NX succeeds exactly when the key is absent, whatever its expiry; PX sets the expiry; nothing else changes |
| `RedisStore.RedisService.Del` | src/infrastructure/services/redis.service.ts:261-273 | Removes the keys and answers how many of them were there, a key named twice once |
| `RedisStore.RedisService.Expire` | src/infrastructure/services/redis.service.ts:275-287 | Renews the expiry of a present key only |
| `RedisStore.RedisService.Decr` | src/infrastructure/services/redis.service.ts:109-121 | One less than before, an absent key counting as 0 |
| `RedisStore.RedisService.Incr` | src/infrastructure/services/redis.service.ts:123-135 | One more than before, an absent key counting as 0 |
| `RedisStore.RedisService.GetNumber` | src/infrastructure/services/redis.service.ts:138-148 | The value of a key that has not expired; an expired key reads as absent but stays |
| `RedisStore.RedisService.Zadd` | src/infrastructure/services/redis.service.ts:151-170 | Overwrites in place or appends; answers 1 |
| `RedisStore.RedisService.Zrem` | src/infrastructure/services/redis.service.ts:172-185 | Removes the member and closes the gap; says whether it was there |
| `RedisStore.RedisService.Zscore` | src/infrastructure/services/redis.service.ts:187-199 | The score, and null both for an absent member and for a score of 0 |
| `RedisStore.RedisService.Zrank` | src/infrastructure/services/redis.service.ts:201-216 | The index in the stably sorted list, null when absent |
| `RedisStore.RedisService.Zrange` | src/infrastructure/services/redis.service.ts:218-246 | The slice of the stably sorted list, as members or flattened to member/score pairs, with JavaScript's treatment of negative bounds |
| `RedisStore.RedisService.Zcard` | src/infrastructure/services/redis.service.ts:248-259 | The length of the full range |
| `RedisStore.CounterReadsBack` | src/infrastructure/services/redis.service.ts:109-148 | A counter just written reads back for 30 seconds, the last millisecond included, and other keys read as before |
| `RedisStore.SetExpiry` | src/infrastructure/services/redis.service.ts:151-170 | A new sorted set is kept for 30 seconds; a write to a present one does not prolong it |
| `RedisStore.ScoreSeenExactly` | src/infrastructure/services/redis.service.ts:187-199 | A score is answered if and only if the member is there with it and it is not 0 |
| `RedisStore.RangeExactly` | src/infrastructure/services/redis.service.ts:218-239 | Which positions of the sorted list a range takes, for every start and stop, negative ones included |
| `SortedSets.SortCorrect` | src/infrastructure/services/redis.service.ts:201-239 | Sorting keeps exactly the entries and orders them by score, ties by age |
| `SortedSets.SortDetermined` | src/infrastructure/services/redis.service.ts:218-239 | Two stably sorted listings of the same entries are equal: the order leaves no choice |
| `SortedSets.PutMeaning` | src/infrastructure/services/redis.service.ts:151-170 | A write changes one score, adds at most one member at the end and moves nobody |
| `SortedSets.DeleteMeaning` | src/infrastructure/services/redis.service.ts:172-185 | A removal drops one member and keeps the order of the rest |
| `SortedSets.ReplayMeaning` | src/infrastructure/services/redis.service.ts:151-185 | After any sequence of writes and removals the list is the map of latest scores, in order of the surviving insertion |
| `SortedSets.RangeAfterHistory` | src/infrastructure/services/redis.service.ts:201-259 | After any history the full range holds exactly the latest scores, sorted by score and then by insertion |
| `SortedSets.RankAndSizeAfterHistory` | src/infrastructure/services/redis.service.ts:201-259 | After any history every current member stands in the full range once, at the index that is its rank; the range is as long as the stored list |
| `SortedSets.ReAddKeepsTiePosition` | src/infrastructure/services/redis.service.ts:151-170 | After writing a present member again, another ranks before it if and only if its score is smaller than the new one, or equal with an older membership: the tie position stays |
| `RedisLock.RedisDistributedLockService.AcquireLock` | src/infrastructure/services/redis-distributed-lock.service.ts:18-51 | Got exactly when one of the first retryCount attempts meets the key absent; then the key is written once, with that attempt's time; the waits between, and the error only of the last attempt, are exact |
| `RedisLock.PausesExactly` | src/infrastructure/services/redis-distributed-lock.service.ts:36-46 | The pauses are one for each attempt that met a held lock, the last of all excepted, and none after a failed command |
| `RedisLock.LeftByExactly` | src/infrastructure/services/redis-distributed-lock.service.ts:23-47 | The store left by failed attempts is what the last one whose command went through saw |
| `RedisLock.RedisDistributedLockService.ReleaseLock` | src/infrastructure/services/redis-distributed-lock.service.ts:58-67 | Deletes the key whoever wrote it, and says whether it was there; a failing command is swallowed, answered with false, and the key stays |
| `TimedLock.PromptHoldersOwnTheirKeys` | src/infrastructure/services/redis-distributed-lock.service.ts:18-67 | In every timed run whose holders finish within the time to live: one holder a key, and the key a holder will delete is its own |
| `TimedLock.MutexExactly` | src/infrastructure/services/redis-distributed-lock.service.ts:18-67 | All runs with section time bounded by b exclude each other if and only if b is at most the time to live (or no attempt is ever made) |
| `TimedLock.OwnKeysExactly` | src/infrastructure/services/redis-distributed-lock.service.ts:18-67 | Every release in all such runs deletes the releaser's own key if and only if b is at most the time to live (or no attempt is ever made) |
| `TimedLock.LateReleaseDeletesOthersKey` | src/infrastructure/services/redis-distributed-lock.service.ts:58-67 | The run that shows why: a late holder's release deletes the key under the next holder |
| `TimedLock.TakenKeyGivesUp` | src/infrastructure/services/redis-distributed-lock.service.ts:23-50 | A request that meets a taken key gives up after exactly retryCount attempts and changes nothing |
| `TimedLock.FreeKeyIsTaken` | src/infrastructure/services/redis-distributed-lock.service.ts:23-67 | A free key is taken at once for the time to live and free again after the release |
| `OptimisticLock.OptimisticLockInterceptor.Execute` | src/common/interceptors/optimistic-lock.interceptor.ts:30-76 | The handler runs only under the lock, taken at the first of three attempts that finds it free, for 10 000 ms from that attempt, with 100 ms waited after each held one; at most maxRetries times, again only after a conflict; success is the first returned value; the release is called on every path; the exact time held |
| `OptimisticLock.TimeSpentExactly` | src/common/interceptors/optimistic-lock.interceptor.ts:53-67 | The time held is that of the calls and one pause between two of them |
| `OptimisticLock.HeldAtMost` | src/common/interceptors/optimistic-lock.interceptor.ts:48-67 | Bound on the time held, retries and pauses included |
| `OptimisticLock.HeldExactly` | src/common/interceptors/optimistic-lock.interceptor.ts:48-67 | The bound is reached when every call takes the longest time and conflicts |
| `OptimisticLock.LockCoversAttemptsExactly` | src/common/interceptors/optimistic-lock.interceptor.ts:37-67 | The 10 seconds cover every sequence of attempts if and only if maxRetries calls and the pauses between fit in them |
| `LockedHandlers.InterceptorExcludesExactly` | src/common/interceptors/optimistic-lock.interceptor.ts:35-75 | All timed runs in which holders make handler calls of at most d with the configured pauses exclude each other if and only if maxRetries·d + (maxRetries−1)·delay is at most the 10 seconds |
| `LockedHandlers.LeaseIsTheCell` | src/common/interceptors/optimistic-lock.interceptor.ts:37-41 | The lease of the timed runs is the cell that the interceptor writes: three attempts, 10 000 ms |
| `LockedHandlers.InterceptorReleasesOwnExactly` | src/common/interceptors/optimistic-lock.interceptor.ts:35-75 | Under the same bound, and only then, every release deletes the releaser's own key in all such runs |
| `LockedHandlers.ShortHandlersExclude` | src/common/interceptors/optimistic-lock.interceptor.ts:47-75 | Under that bound every such run keeps one holder a key, and every release deletes the releaser's own key |
| `LockedHandlers.AccountedExactly` | src/common/interceptors/optimistic-lock.interceptor.ts:49-67 | The times under the lock that handler calls and pauses can add up to are exactly those up to the longest section |
| `PessimisticLock.PessimisticLockInterceptor.ExecuteWithPessimisticLockAndRedisLock` | src/common/interceptors/pessimistic-lock.interceptor.ts:31-72 | The handler runs exactly when both layers were acquired, the Redis key for the timeout (5 000 ms by default) with 100 ms waited after each held attempt; both entries are removed again; who got only the Redis key gives it back and leaves the map alone |
| `PessimisticLock.PessimisticLockInterceptor.AcquirePessimisticLock` | src/common/interceptors/pessimistic-lock.interceptor.ts:82-94 | Acquires at the first poll in time that meets the key absent, and only then writes the map |
| `PessimisticLock.PessimisticLockInterceptor.ReleasePessimisticLock` | src/common/interceptors/pessimistic-lock.interceptor.ts:96-98 | Removes the key from the map |
| `PessimisticLock.TwoLayerExclusion` | src/common/interceptors/pessimistic-lock.interceptor.ts:50-98 | In every run of one process, whatever happens to Redis keys: at most one request a key is inside, and the map holds a key exactly while some request of it is inside |
| `PessimisticLock.RedisLayerAloneAdmitsTwo` | src/common/interceptors/pessimistic-lock.interceptor.ts:36-55 | The Redis layer by itself does not exclude: one lost key lets two requests past it |
| `PessimisticLock.FreeRequestPasses` | src/common/interceptors/pessimistic-lock.interceptor.ts:50-71 | A request on its own with a free key: inside with both entries, and out with both removed |
| `PessimisticLock.TakenKeyTurnsAway` | src/common/interceptors/pessimistic-lock.interceptor.ts:38-48 | A key that stays taken in Redis turns the request away after exactly retryCount questions, with nothing changed |
| `PessimisticLock.HeldKeyTimesOut` | src/common/interceptors/pessimistic-lock.interceptor.ts:55-93 | A key taken in the map is polled in time; then the request leaves, its Redis key removed and the map unchanged |
| `VersionCheck.VersionedRow.ExecuteWithDbOptimisticLock` | src/common/interceptors/db-optimistic-lock.interceptor.ts:27-106 | Commits in the first attempt that nobody disturbs, after conflicts only and within the limit; the version moves by one on top of what others added |
| `VersionCheck.CommitsAreSerial` | src/common/interceptors/db-optimistic-lock.interceptor.ts:39-101 | In every interleaving: no commit or foreign write between a committed attempt's read and its update, no two commits read the same version, and the version is the initial one plus the commits plus foreign writes |
| `VersionCheck.UpdateSucceedsExactly` | src/common/interceptors/db-optimistic-lock.interceptor.ts:59-78 | An update goes through if and only if nobody wrote since its read |
| `VersionCheck.UnchangedExactly` | src/common/interceptors/db-optimistic-lock.interceptor.ts:59-75 | The stored version equals the one read if and only if only reads happened in between |
| `VersionCheck.AttemptsAreBounded` | src/common/interceptors/db-optimistic-lock.interceptor.ts:39-100 | No call reads, and so runs its handler, more often than its limit, in any interleaving |
| `VersionCheck.ConflictsReadAgain` | src/common/interceptors/db-optimistic-lock.interceptor.ts:89-99 | A call that only met conflicts, within its limit, reads again |
| `VersionCheck.CallEndsAsTheMethod` | src/common/interceptors/db-optimistic-lock.interceptor.ts:39-105 | An uninterrupted call of the machine ends as the method says, with the same version, committed in the same case |
| `ShopLaws.ReserveMeaning` | src/infrastructure/services/product.service.ts:49-73 | Reservation stops at the first line that cannot be taken, duplicates counted; exactly the earlier lines are taken; total and recorded lines are those of the items |
| `ShopLaws.ReservedExactly` | src/infrastructure/services/product.service.ts:49-60 | A reservation gets through if and only if every line can be taken after the lines before it; the second check then passes if and only if every line is covered once more |
| `ShopService.ProductsService.ValidateAndReserveProducts` | src/infrastructure/services/product.service.ts:40-74 | The loop over loaded, changed and saved product objects ends as Reserve does; the objects keep the stock left by their own line |
| `ShopLaws.OrderAcceptedExactly` | src/application/use-cases/orders/create-order.use-case.ts:58-99 | An order is stored if and only if: lines valid, products and user exist, after lines 0..i the stock of line i's product still covers line i once more, total above 0, discount at most total, points cover the rest |
| `ShopLaws.OrderOutcomes` | src/application/use-cases/orders/create-order.use-case.ts:58-99 | The other ways an order ends, each if and only if: bad lines, a missing product after takeable lines, a missing user after takeable lines, too few points after the second check; a negative quantity never gets to the reservation |
| `ShopLaws.RecheckFailedExactly` | src/domain/services/order-validation.service.ts:87-90 | The second stock check refuses an order if and only if its lines are valid and can all be taken, its user exists, and for some i the stock minus lines 0..i is below line i |
| `ShopLaws.CoveredLineRefused` | src/domain/services/order-validation.service.ts:87-90 | The case that shows it: one line that the stock covers but not twice, such as 2 of 3, is refused |
| `ShopLaws.PlacedOrder` | src/application/use-cases/orders/create-order.use-case.ts:58-111 | What a stored order says and changes: total = Σ price × quantity, final + discount = total, couponUsed if and only if it names a coupon that exists, is unused and not expired, and only that coupon's mark changes; exactly its lines taken, one timer set, the next id answered, nothing else touched |
| `ShopService.CreateOrderUseCase.CreateOrderInternal` | src/application/use-cases/orders/create-order.use-case.ts:58-128 | The steps in the source's order give the result and the state of CreateOrder |
| `ShopService.CreateOrderUseCase.ValidateAndStore` | src/application/use-cases/orders/create-order.use-case.ts:80-116 | The checks of the whole order in their order, then one row under the next id and one timer with that id; a refused order changes neither |
| `ShopService.CreateOrderUseCase.PlaceOrder` | src/application/use-cases/orders/create-order.use-case.ts:48-56 | Any failure publishes the event with every line and leaves Redis alone; today's ranking, and no other key, rises exactly when an order is placed |
| `ShopService.ValidateOrderItems` | src/domain/services/order-validation.service.ts:13-27 | Accepts exactly non-empty lists of lines with product and positive quantity |
| `ShopService.RecheckStock` | src/domain/services/order-validation.service.ts:87-90 | The second check compares each line with the stock its own reservation left |
| `ShopService.CouponsService.ValidateAndCalculateDiscount` | src/infrastructure/services/coupon.service.ts:262-289 | Discount of a usable coupon, which is used up and saved; none otherwise |
| `Entities.Coupon.CalculateDiscount` | src/domain/entities/coupon.entity.ts:35-53 | Nothing for a used or expired coupon; for a rate the largest whole amount d with 100·d at most total·rate; else the coupon's own amount |
| `Entities.DiscountExactly` | src/domain/entities/coupon.entity.ts:43-53 | That rule leaves exactly one amount, the one orders are priced with |
| `Entities.PercentageWithinTotal` | src/domain/entities/coupon.entity.ts:43-53 | A rate of at most 100 discounts between nothing and the total |
| `CouponTypes.DiscountSpoilsOrderExactly` | src/domain/services/order-validation.service.ts:63-71 | An order with a positive total and a usable coupon of a type on offer, fine in all else, fails for its amount if and only if the type is a fixed amount and the total is below it |
| `ShopLaws.BadAmountExactly` | src/domain/services/order-validation.service.ts:63-71 | An order fails for its amounts if and only if it passes all earlier checks and the total is not positive or below the discount |
| `Entities.Coupon.Use` | src/domain/entities/coupon.entity.ts:27-29 | Marks the coupon used |
| `Entities.Coupon.RevertUsage` | src/domain/entities/coupon.entity.ts:31-33 | Marks the coupon unused |
| `Entities.Product.DecreaseStock` | src/domain/entities/product.entity.ts:21-29 | Refuses a negative quantity and a shortage, else subtracts |
| `Entities.Product.IncreaseStock` | src/domain/entities/product.entity.ts:31-33 | Adds without any check |
| `Entities.User.ChargePoints` | src/domain/entities/user.entity.ts:25-30 | Refuses a negative amount, else adds |
| `Entities.User.UsePoints` | src/domain/entities/user.entity.ts:32-40 | Refuses a negative or uncovered amount, else subtracts |
| `Entities.Payment.ProcessPayment` | src/domain/entities/payment.entity.ts:41-47 | Succeeds only for a pending payment |
| `Entities.Order.UpdateStatus` | src/domain/entities/order.entity.ts:66-68 | Sets the status |
| `Shop.StopFrom` | src/infrastructure/event-handlers/order-failed.handler.ts:50-67 | The restore loop stops at the first line whose product is missing, else at the end |
| `ShopLaws.RestoreFromMeaning` | src/infrastructure/event-handlers/order-failed.handler.ts:50-67 | Every line before that stop is given back, taken from stock or not; prices and other products stay |
| `ShopLaws.RestoreUndoesReserve` | src/infrastructure/event-handlers/payment-failed.handler.ts:63-80 | Restoring undoes a complete reservation: every product, prices included, is as before |
| `ShopLaws.CompensateStock` | src/infrastructure/event-handlers/payment-failed.handler.ts:63-80 | Compensating an event gives back what it held plus its lines beyond, up to a missing product |
| `ShopLaws.FailedOrder` | src/application/use-cases/orders/create-order.use-case.ts:157-174 | What a failed order leaves: how many lines are taken, for each kind of failure, and the one event about it |
| `ShopLaws.CompensationFormula` | src/infrastructure/event-handlers/order-failed.handler.ts:24-67 | For any list with duplicates: failed order plus compensation change each stock by exactly the quantity in lines k..m−1, from where reservation stopped to where restoring stops |
| `ShopLaws.CompensationExactUnlessShort` | src/infrastructure/event-handlers/order-failed.handler.ts:50-67 | For valid lines the stock is as before if and only if the stored stocks do not run short on the lines: no line whose product exists, all lines before it takeable, with less left than it asks |
| `ShopLaws.ShortExactly` | src/infrastructure/services/product.service.ts:49-60 | An order of valid lines fails for stock if and only if the stored stocks run short on its lines, said by database and lines |
| `ShopLaws.ShortageGivesStock` | src/infrastructure/event-handlers/order-failed.handler.ts:50-67 | The case that shows it: one line for more than there is, and after its compensation the shop has that much more |
| `ShopLaws.EmptyOrderFreesCoupon` | src/infrastructure/event-handlers/order-failed.handler.ts:72-89 | The case that shows it: an order without lines that names a used coupon makes it usable again |
| `ShopLaws.RefusedLinesAreStillRestored` | src/infrastructure/event-handlers/order-failed.handler.ts:50-67 | For lines refused at the first check the stock is as before if and only if their restored quantities cancel out |
| `ShopLaws.CouponAfterCompensation` | src/infrastructure/event-handlers/order-failed.handler.ts:72-89 | After failure and compensation the coupon is as before if and only if it was unused or the handler stopped at a missing product; a used one becomes usable again |
| `ShopService.Compensation.RestoreProductStock` | src/infrastructure/event-handlers/order-failed.handler.ts:50-67 | The loop does what RestoreFrom says and reports whether it reached the end |
| `ShopService.Compensation.RestoreCouponUsage` | src/infrastructure/event-handlers/order-failed.handler.ts:72-89 | Unuses a coupon that exists, throws otherwise |
| `ShopService.Compensation.RunCompensation` | src/infrastructure/event-handlers/payment-failed.handler.ts:28-41 | Stock, coupon and ranking in turn; a part that throws ends the handler and the parts after it do not happen; no key but today's ranking changes |
| `ShopService.OrderFailedHandler.HandleOrderFailed` | src/infrastructure/event-handlers/order-failed.handler.ts:24-45 | Takes one event and compensates; today's ranking, and no other key, comes down only if stock and coupon parts finished |
| `ShopService.PaymentFailedHandler.HandlePaymentFailed` | src/infrastructure/event-handlers/payment-failed.handler.ts:24-58 | Compensates only on a timeout, and otherwise changes nothing in tables or Redis |
| `ShopService.OrderCreatedHandler.TimerExpires` | src/infrastructure/event-handlers/order-created.handler.ts:19-50 | The timer carries its order's id; it fires once and compensates whatever became of the order; today's ranking, and no other key, comes down only if it completes |
| `ShopService.ProcessPaymentUseCase.Pay` | src/application/use-cases/payments/process-payment.use-case.ts:40-72 | Validate, store the payment, spend the points, mark the order, each of which may throw: the result and state of ProcessPayment |
| `ShopService.PaymentsService.StorePayment` | src/infrastructure/services/payment.service.ts:14-46 | Appends one SUCCESS payment with the order's amounts |
| `ShopService.OrdersService.CreateOrder` | src/infrastructure/services/order.service.ts:14-54 | Stores one row under the next id |
| `ShopService.UsersService.SpendPoints` | src/infrastructure/services/user.service.ts:82-115 | Loads the user again; subtracts exactly when the amount is not negative and covered |
| `ShopService.OrdersService.MarkPaid` | src/infrastructure/services/order.service.ts:65-73 | Sets PAID on the order's row only |
| `ShopService.UsersService.Charge` | src/infrastructure/services/user.service.ts:21-54 | Adds points of an existing user, refuses a negative amount |
| `ShopRuns.StockAccounting` | src/infrastructure/services/product.service.ts:49-71 | Over every run, for each product: stock + what live timers hold + what undelivered failures hold = initial stock + what handled failures gave back beyond what they held |
| `ShopRuns.StockInvariantHolds` | src/infrastructure/event-handlers/payment-failed.handler.ts:28-41 | The invariant behind it: every event holds only existing products, and the books of every product balance |
| `ShopRuns.NothingStaysSold` | src/infrastructure/event-handlers/order-created.handler.ts:26-44 | Once no timer is live and every failure is handled, each stock is the initial stock plus the surplus given back |
| `OrderTimers.OneTimerUntilFired` | src/infrastructure/event-handlers/order-created.handler.ts:19-50 | In every reachable state an order has exactly one timer until it fires and none after, carrying the order's lines and coupon |
| `OrderTimers.StockByOrders` | src/infrastructure/services/product.service.ts:49-71 | Over every run, for each product: stock + quantity in orders whose timer has not fired + what undelivered failures hold = initial stock + the surplus of handled failures |
| `OrderTimers.FiringGivesBack` | src/infrastructure/event-handlers/payment-failed.handler.ts:28-41 | In every reachable state a timer that fires puts back exactly its own order's lines, paid or not |
| `OrderTimers.PaidStaysSoldExactly` | src/infrastructure/event-handlers/payment-failed.handler.ts:28-41 | Over every run: all paid orders' lines stay off the shelf if and only if no paid order's timer has fired |
| `OrderTimers.PaidOrderReturnsToStock` | src/infrastructure/event-handlers/order-created.handler.ts:26-44 | Any acceptable first order, paid and then overtaken by its timer: it ends PAID, with every product as it was before the order |
| `CouponLedger.CouponBooks` | src/infrastructure/services/coupon.service.ts:262-289 | Over every run, for every coupon: orders it discounted + orders that named it usable and were refused after it was used up + its mark at the start = compensations that freed it + its mark now; both kinds are told by the event and the state before it |
| `CouponLedger.RefusedOrderMarks` | src/infrastructure/services/coupon.service.ts:262-289 | A refused order uses a coupon up if and only if it names it usable, its lines are valid and can all be taken, its user exists, and it is not acceptable |
| `CouponLedger.FreesExactly` | src/infrastructure/event-handlers/order-failed.handler.ts:72-89 | A step other than an order changes a coupon's mark if and only if it is a compensation whose event names that coupon, used, with the products of all its lines existing |
| `CouponLedger.UsesAtMostFreedPlusOne` | src/infrastructure/event-handlers/order-failed.handler.ts:72-89 | A coupon discounts at most one order more than compensations that name it while it is used and get through all their lines |
| `CouponLedger.OneDiscountExactly` | src/infrastructure/event-handlers/order-failed.handler.ts:72-89 | One discount a coupon holds over all runs with at most k such compensations if and only if k is 0 |
| `CouponLedger.CouponDiscountsTwice` | src/infrastructure/event-handlers/payment-failed.handler.ts:85-102 | Any acceptable first order with a usable coupon, overtaken by its timer and repeated: the coupon discounts both orders |
| `CouponLedger.OrdersSayTheTruth` | src/infrastructure/services/coupon.service.ts:262-289 | Over every run: no stored order says it used a coupon unless it names one that exists, and one that says it did not is at full price |
| `SalesRuns.ScoresNeverNegative` | src/infrastructure/event-handlers/order-failed.handler.ts:94-113 | In every run, whatever the lines, no daily score is below 0 |
| `SalesRuns.ScoreBetween` | src/infrastructure/event-handlers/order-failed.handler.ts:94-113 | Over every run whose compensations list no negative quantity: a day's score is at most what was ordered that day, and at least that less what compensations listed that day |
| `SalesRuns.TimerUndoesRaise` | src/infrastructure/event-handlers/order-created.handler.ts:26-44 | An order raises its day's scores by its lines and its timer on the same day lowers them by the same lines: the scores are as before |
| `SalesRuns.FailedOrderErasesSales` | src/infrastructure/event-handlers/order-failed.handler.ts:24-45 | A failed order and its compensation leave the day's scores alone if and only if the compensation breaks off before the ranking, or every product with a score is listed with quantities that cancel out before they use it up |
| `SalesRuns.UnknownUserErasesSales` | src/infrastructure/event-handlers/order-failed.handler.ts:94-113 | The case that shows it: a covered line ordered by an unknown user is refused, and its compensation takes that quantity of real sales off the day |
| `SalesRuns.NonNegativeLinesEraseExactly` | src/infrastructure/event-handlers/order-failed.handler.ts:94-113 | For lines without negative quantities the scores stay if and only if no line asks for a product that has a score |
| `ShopRuns.StockNonNegativeExactly` | src/domain/entities/product.entity.ts:31-33 | Stocks stay at or above 0 in all runs whose lines ask for at least b if and only if b is not negative |
| `ShopRuns.NegativeLineDrains` | src/infrastructure/event-handlers/order-failed.handler.ts:50-67 | The run that shows why: a line with a negative quantity is refused, published and "restored" |
| `ShopLedger.PointsLedger` | src/application/use-cases/payments/process-payment.use-case.ts:44-72 | Over every run: a user's points = initial + charges − final amounts of its PAID orders, and never negative if they did not start so |
| `ShopLedger.PaymentExactlyWhenPaid` | src/infrastructure/services/payment.service.ts:14-46 | In every reachable state an order has exactly one SUCCESS payment if it is PAID and none otherwise |
| `ShopLedger.PaymentAllOrNothing` | src/domain/services/payment-validation.service.ts:30-38 | In every reachable state a payment succeeds if and only if the validation passes, and otherwise changes nothing |
| `PaymentBooks.PaymentOutcomes` | src/application/use-cases/payments/process-payment.use-case.ts:45-69 | How a payment ends, each case if and only if: no order, no payer, already processed, too few points, points refused after the payment was stored; a refusal before that changes nothing |
| `PaymentBooks.PaidOrder` | src/application/use-cases/payments/process-payment.use-case.ts:53-72 | A payment that goes through stores the order's user, total, discount, final amount and coupon use, takes the final amount off and marks the order, and nothing else |
| `PaymentBooks.PaymentsMatchOrders` | src/infrastructure/services/payment.service.ts:14-46 | Over every run: every payment is a PAID order's, of the same user, amounts and coupon use, and what a user's payments add up to is what the user's PAID orders cost |
| `PaymentBooks.PointsArePayments` | src/application/use-cases/payments/process-payment.use-case.ts:44-72 | Over every run: a user's points = initial + charges − final amounts of the user's payments |
| `PaymentBooks.ChargeOutcomes` | src/infrastructure/services/user.service.ts:21-54 | How charging ends: a missing user before a negative amount, else exactly the points rise |
| `ShopLedger.OrdersOnlyAdvance` | src/infrastructure/services/order.service.ts:65-73 | From any point of a run to its end an order's row only moves from PENDING to PAID and never disappears |
| `TopSellers.RaiseAllMeaning` | src/application/use-cases/orders/create-order.use-case.ts:135-151 | Every product gains exactly its ordered quantity, however often it is listed |
| `TopSellers.LowerAllMeaning` | src/infrastructure/event-handlers/order-failed.handler.ts:94-113 | For any lines, negative quantities included: a score is 0 for good once a prefix of the lines asks for all of it, else it loses the total |
| `TopSellers.LoweringKeepsScoresExactly` | src/infrastructure/event-handlers/order-failed.handler.ts:94-113 | The scores stay if and only if, for every product with a score, the lines cancel out without using it up on the way |
| `TopSellers.SalesRanking.UpdateProductRanking` | src/application/use-cases/orders/create-order.use-case.ts:130-152 | The loop over the lines raises the ranking of the current UTC date as RaiseAll says, keeps it for four days and touches no other key |
| `TopSellers.SalesRanking.RestoreProductRanking` | src/infrastructure/event-handlers/order-failed.handler.ts:94-113 | The loop over the lines lowers the ranking of the current UTC date as LowerAll says and touches no other key |
| `TopSellers.SalesRanking.RecalculateOverallRanking` | src/application/use-cases/products/get-top-sellers.use-case.ts:38-71 | The rankings of the current UTC date and the two before it are added to the overall one, in that order; it is kept for three days; the daily keys stay |
| `TopSellers.SalesRanking.CleanupOldRankings` | src/application/use-cases/products/get-top-sellers.use-case.ts:18-35 | The ranking of three days ago goes, then the overall one is recalculated; nothing else changes |
| `TopSellers.AddDayAges` | src/application/use-cases/products/get-top-sellers.use-case.ts:50-63 | The order of members after a day is added: present ones keep their places, the day's others follow in the order of its range |
| `TopSellers.SalesRanking.AddDailyRanking` | src/application/use-cases/products/get-top-sellers.use-case.ts:50-62 | One day read as a flat list and added to the overall ranking; no other key changes |
| `TopSellers.SalesRanking.AddFlat` | src/application/use-cases/products/get-top-sellers.use-case.ts:53-62 | The inner loop in steps of two raises each member by its score |
| `TopSellers.AddDaysMeaning` | src/application/use-cases/products/get-top-sellers.use-case.ts:50-63 | For every product: the new overall score is the old one plus the daily scores |
| `TopSellers.AggregationIsSumExactly` | src/application/use-cases/products/get-top-sellers.use-case.ts:50-63 | It is the sum of the days if and only if no product had an overall score before |
| `TopSellers.NightsAccumulate` | src/application/use-cases/products/get-top-sellers.use-case.ts:50-63 | Whatever daily rankings each night finds: a score is the old one plus all the nights' sums |
| `TopSellers.SlidingNights` | src/application/use-cases/products/get-top-sellers.use-case.ts:43-63 | With dates that move by one each night: after n nights a score is the old one plus every window's sum, the days in the middle three times |
| `TopSellers.ThirdNightTriples` | src/application/use-cases/products/get-top-sellers.use-case.ts:43-63 | The case that shows it: one day's sales count three times after the three nights that see it |
| `TopSellers.OrdersReachOverall` | src/application/use-cases/products/get-top-sellers.use-case.ts:50-63 | From an absent overall key, days written by orders add up to the ordered quantity of each product |
| `TopSellers.TopFiveAreTheBest` | src/application/use-cases/products/get-top-sellers.use-case.ts:84-97 | Five members or all, by non-increasing score, ties by age in the overall ranking, no duplicates; nobody outside beats one inside, and who ties with one inside is younger |
| `TopSellers.TopSellersAnswer` | src/application/use-cases/products/get-top-sellers.use-case.ts:84-115 | The rows: best five minus members without product, in their order, each such product exactly once |
| `TopSellers.SalesRanking.GetTopSellers` | src/application/use-cases/products/get-top-sellers.use-case.ts:73-131 | The pair loop, sort, slice, map and filter give Listing of TopFive; a failing lookup gives an empty list |

## Left out

- Nest wiring: decorators, interceptor metadata, subscription by event name. Interceptors and handlers are algorithms that are called; nothing rests on how they are attached.
- Database rollback: repositories do not use the transaction interceptor's connection, so every save is final at once.
- Failing I/O inside the shop's and the coupon service's steps, and crashes between the steps of an order or a payment. Crashes of coupon requests and failing Redis commands of the lock are modelled.
- Interleaving of order, payment and compensation steps with each other: each use case and each handler is one serial step of a run.
- Whole runs of the sales rankings start from empty days, and a date is given with each event.
- Real Redis where it differs from the in-memory branches: lexicographic order of ties, active expiry of keys, TTLs on stock and sorted-set keys. In `TimedLock` a due key may vanish at any moment or stay, which covers both.
- Key strings are constructors of a datatype and member strings are integers; prefixes and number formatting are not modelled. The lock names keep their `global:` prefix.
- Floating point: amounts, scores and points are integers, and a percentage discount is rounded down.
- The clock: readings are parameters (all after 1970 where the coupon service is concerned); one reading serves all date keys of a call, and a date key is the number of days since 1970 in UTC instead of its formatted string. Local daylight saving in a coupon's expiry is not modelled: a day has 86 400 000 ms.
- JavaScript's built-in `Array.sort` is specified as the stable sort of `SortedSets`, not as an algorithm.
- What other processes do between two attempts or polls of a loop is a parameter (`worlds`, `others`), any value of it.
- `getCouponQueueStatus`, `isLocked`, `getLockTTL`, key patterns, clearing of expired locks, the ranking log: diagnostics or plain deletions.
- Product, list and point caches, and the cached top-seller list: reservation writes stock without invalidating them, so there is no law to prove.
- The db-pessimistic interceptor and the auth, seeding, controller, DTO, Kafka client and TypeORM code.
- The ten minutes of a timer: in the runs it may fire at any moment after its order.
- Which error texts count as version conflicts: a handler's end is given as a conflict or another error.
- The texts of errors and their mapping to HTTP statuses: results tell failures apart by the check that threw.
- In `CouponProtocol` the user's recorded rank value and coupon fields are left to the serial model; a redelivered message is simply one more request.
