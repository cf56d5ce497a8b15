# Verification of the order platform's stateful parts

This project models the parts of the repository whose correctness depends on more than one statement, one call or one
process, and proves what they keep:

- **Outbox** (`Outbox*.dfy`, `Producers*.dfy`): relays claim messages in per-key order with leases, SKIP LOCKED and a
  last look, write back under a fencing owner, dead-letter and requeue; producers number rows in commit order under
  sorted advisory locks. Every SQL statement is one step. The statements of other connections run between any two
  statements of a claim, except that they do not update or delete a row the claim has locked.
- **Rate limits** (`RateLimit*.dfy`, `Otp.dfy`): the Lua script with its four algorithms over Redis keys with expiry,
  run with any mix of rules; tokens and estimates are exact reals, the clock is whole microseconds. The OTP challenge
  is a set of concurrent `verify` calls, each several Redis commands, over the fixed-window rule.
- **Lock analysis** (`Lockable.dfy`): a join chain means the set of rows it yields, for any table contents and any ON
  conditions; the analysis is compared with that.
- **Payments** (`Payment*.dfy`): rows with their CHECK constraints, a keyed wallet ledger and gateway tickets. A call
  is a gateway step and then a transaction, so a crash between the two is a run that stops after the first.
- **Reconciliations** (`Locations*.dfy`, `Categor*.dfy`, `Supply*.dfy`): province ids permuted through temporary
  ones under cascading foreign keys, the category tree, and the supply document's line difference.
- **Idempotency records** (`Idempotency.dfy`) and **pricing** (`Pricing.dfy`).

Code that changes tables, keys or hashes is a class whose methods follow the statements and are proved against a
function of the old state; the theorems are about runs of those functions.

## Where the code and its promises part

Each of these has a lemma with a concrete case or an exact condition.

- A claim keeps per-key order exactly for owners whose name is on no row that stands before a claimable one in its key
  (`KeyPrefixesIffOwnerIsClear`). A relay that comes back under its old name after its lease ran out is handed rows ahead
  of its old one while that is locked (`UnclearOwnerBreaksKeyOrder`, `StaleOwnerBreaksKeyOrder`). The owner's format is decided outside this repository's files.
- `keyLocks` says that sorting rules out deadlocks between transactions that lock the same keys. It does within one
  `add`; with several, a deadlock can be reached exactly when the lock lists tangle (`DeadlockIffTangled`,
  `TwoAddsCanDeadlock`).
- A producer that reuses an id loses a dead letter (`AccountedIffNeverReused`, `ReusedIdLosesADeadLetter`).
- A token bucket smaller than one token never allows, although it answers with a finite wait (`TinyBucketNeverAllows`).
  The fixed window's wait can end in the one millisecond in which Redis still keeps the key
  (`FixedRetryReachesExpiry`, `FixedRetryCanFallShort`; a key is taken to live through the millisecond of its expiry).
- Without `of`, a NULL-extended table that has no name is overlooked (`LockViolationOfAllIsExact`).
- Wallet keys carry a time in milliseconds. Money matches the rows all along a run exactly when no step that goes through
  uses a key a second time (`RunMatchesIffKeysAreFresh`). A payment settled, cancelled and settled again in one millisecond
  can be processed without its wallet share (`SameMillisecondSettlesForFree`) or have a refund recorded that nobody
  received (`SameMillisecondRefundIsNotPaid`).
- `expire` asks for the status before its transaction and not in it. If its lock runs out (it is not renewed) and a settle
  slips in between, a payment that the wallet has paid expires with the money (`LateExpireIsRightIff`, `LateExpireKeepsTheMoney`).
- A full refund that stops after the gateway has reversed the ticket, followed by a partial refund, can return more
  than was paid (`PartialRefundOverpaysIff`, `HalfDoneRefundOverpays`).
- An address whose province does not exist is carried off when its number is used for a temporary province
  (`DanglingAddressIsCaptured`); `AddressesFollow` in the contract of `Seed` is exact about it.
- `CATEGORIES.md` says the service rules out cycles. Within one call it does; two concurrent moves whose row locks are
  disjoint can still make one (`TwoMovesMakeACycleIff`, `DisjointLocksDoNotPreventACycle`), and so can three of which any
  two are harmless (`MovesMakeACycleIff`, `AnyTwoOfThreeAreFine`).
- An edit or deletion of a supply document reads before its transaction. It is right exactly when its reads still fit
  then (`EditIsRightIff`, `DeleteIsRightIff`, `RunFollowsIffReadsFit`); two overlapping edits can count a line twice
  (`OverlappingEditsCountTwice`), and finding the same lines again is not enough (`SameLinesAreNotEnough`).
- Units beyond a discount's limit pay the inflated shown price (`LineIsAtRealPricesIff`).

## Model

| member | source | states |
|---|---|---|
| `OutboxClaimTheorems.ClaimDeliversKeyPrefixes` | infrastructure/messaging/outbox/src/drizzle-outbox.store.ts:85-162 | for any interleaved statements and any locked rows, the batch is a gap-free oldest-first prefix of each key's live rows at the last look, and the rows given back are a per-key suffix of the picked ones, for every owner whose name is on no row before a claimable one in its key |
| `OutboxClaimTheorems.KeyPrefixesIffOwnerIsClear` | infrastructure/messaging/outbox/src/drizzle-outbox.store.ts:99-150 | those owners exactly: for any other, some lock makes a claim deliver a row ahead of an older one |
| `OutboxClaimTheorems.ClaimLeasesExactlyTheBatch` | infrastructure/messaging/outbox/src/drizzle-outbox.store.ts:108-157 | after the commit every delivered row is leased to the owner until `now + leaseMs`, every returned row to nobody, and picked is the disjoint union of both |
| `OutboxClaim.SiftExact` | infrastructure/messaging/outbox/src/drizzle-outbox.store.ts:137-150 | the one pass over predecessors gives back exactly the rows with some older row of their key not picked |
| `OutboxClaim.DetachedByPredecessor` | infrastructure/messaging/outbox/src/drizzle-outbox.store.ts:116-133 | looking at the one row before in the key is enough: either it is not ours or its fate is inherited |
| `OutboxClaimTheorems.ClaimableDownwardClosed` | infrastructure/messaging/outbox/src/drizzle-outbox.store.ts:370-392 | every older row of a claimable row's key is claimable |
| `OutboxClaimTheorems.QuietClaimDeliversFirstClaimable` | infrastructure/messaging/outbox/src/drizzle-outbox.store.ts:99-157 | undisturbed, a claim by any owner delivers exactly the first `limit` claimable rows by number, gives nothing back and changes no other row |
| `OutboxClaimTheorems.QuietClaimMakesProgress` | infrastructure/messaging/outbox/src/drizzle-outbox.store.ts:370-392 | if some key's oldest row is due and not leased, or its lease has run out, an undisturbed claim by any owner, the crashed one included, delivers something |
| `OutboxClaimTheorems.UnclearOwnerBreaksKeyOrder` | infrastructure/messaging/outbox/src/drizzle-outbox.store.ts:116-150 | one locked row under the owner's own name is enough: a claim not cut off by its limit delivers rows that come after it |
| `OutboxClaimTheorems.StaleOwnerBreaksKeyOrder` | infrastructure/messaging/outbox/src/drizzle-outbox.store.ts:116-150 | a relay that comes back under its old name while its old row is locked by someone else is handed the next row of the key |
| `OutboxDue.PickedAreReady` | infrastructure/messaging/outbox/src/drizzle-outbox.store.ts:370-392 | with any locks and gaps, a claim picks, by number, exactly the first `limit` unlocked rows whose `availableAt` and `leaseUntil`, and those of every older row of their key, are not later than now |
| `OutboxDue.BackoffIsKept` | infrastructure/messaging/outbox/src/drizzle-outbox.store.ts:172-190 | a message rescheduled by its holder, and its younger siblings, are delivered by no claim that begins before its `availableAt`, whatever other claims and writes come in between |
| `OutboxStore.DrizzleOutboxStore.Claim` | infrastructure/messaging/outbox/src/drizzle-outbox.store.ts:85-162 | the transaction, statement by statement between other connections' statements, does what the claim function says and returns its batch, column by column as of the last look |
| `OutboxStore.DrizzleOutboxStore.Split` | infrastructure/messaging/outbox/src/drizzle-outbox.store.ts:137-150 | the loop over `blocked`, `giveBack` and `batch` computes the pass that `SiftExact` is about |
| `OutboxStore.DrizzleOutboxStore.MarkPublished` | infrastructure/messaging/outbox/src/drizzle-outbox.store.ts:164-170 | true exactly when the owner held the lease; then the message is gone, otherwise nothing changed |
| `OutboxStore.DrizzleOutboxStore.Reschedule` | infrastructure/messaging/outbox/src/drizzle-outbox.store.ts:172-190 | true exactly when the owner held the lease; otherwise nothing changed |
| `OutboxStore.DrizzleOutboxStore.BuryMessage` | infrastructure/messaging/outbox/src/drizzle-outbox.store.ts:192-224 | true exactly when the owner held the lease; the row becomes a dead letter with its number and message |
| `OutboxStore.DrizzleOutboxStore.Release` | infrastructure/messaging/outbox/src/drizzle-outbox.store.ts:226-238 | afterwards the owner leases none of the ids; nothing but those leases changes; the count is the number of rows freed |
| `OutboxStore.DrizzleOutboxStore.RequeueDeadLetters` | infrastructure/messaging/outbox/src/drizzle-outbox.store.ts:296-321 | moves all selected letters or none; refuses exactly the empty filter |
| `OutboxStore.DrizzleOutboxStore.PurgeDeadLetters` | infrastructure/messaging/outbox/src/drizzle-outbox.store.ts:323-329 | a letter stays, unchanged, exactly when it does not match; the count is how many went; refuses exactly the empty filter and then changes nothing |
| `OutboxColumns.PublishedIsGone` | infrastructure/messaging/outbox/src/drizzle-outbox.store.ts:164-170 | the published row is gone and no other row or letter has changed |
| `OutboxColumns.RescheduledIs` | infrastructure/messaging/outbox/src/drizzle-outbox.store.ts:172-190 | every column of the rescheduled row: due as asked, attempts as given, the failure added to its history, the lease gone; no other row or letter has changed |
| `OutboxColumns.BuriedIs` | infrastructure/messaging/outbox/src/drizzle-outbox.store.ts:192-224 | every column of the dead letter, which replaces one of the same id; no other row or letter has changed |
| `OutboxColumns.OthersChangeNothing` | infrastructure/messaging/outbox/src/drizzle-outbox.store.ts:419-421 | whoever does not hold the lease changes nothing |
| `OutboxColumns.RequeuedIs` | infrastructure/messaging/outbox/src/drizzle-outbox.store.ts:296-321 | all selected letters are back under their numbers, due now and untried, with error and history, or nothing has changed |
| `OutboxColumns.SelectedAre` | infrastructure/messaging/outbox/src/drizzle-outbox.store.ts:423-446 | a filter selects exactly the letters that fit each of its fields, failed strictly before the time; an empty one nothing unless it asks for all |
| `OutboxColumns.AddedRowsAreThere` | infrastructure/messaging/outbox/src/drizzle-outbox.store.ts:59-83 | an insert goes through exactly when its numbers and ids are new; then each row is there as given, due as asked and untried |
| `OutboxColumns.BesideAClaim` | infrastructure/messaging/outbox/src/drizzle-outbox.store.ts:85-162 | a statement that needs none of the rows a claim has locked takes effect at once |
| `Outbox.StepKeepsUniqueIds` | infrastructure/messaging/outbox/src/drizzle-outbox.store.ts:164-238 | every statement keeps message ids unique among live rows |
| `OutboxExclusion.LeaseHolds` | infrastructure/messaging/outbox/src/drizzle-outbox.store.ts:85-238 | through any run of other relays' writes and whole claims that begin before the lease ends, a leased row stays leased to its owner |
| `OutboxExclusion.DeliveredIsLeased` | infrastructure/messaging/outbox/src/drizzle-outbox.store.ts:108-157 | every delivered message is leased to the claim's owner when the claim commits |
| `OutboxExclusion.NoDoubleDelivery` | infrastructure/messaging/outbox/src/drizzle-outbox.store.ts:85-238 | after any such run, no other claim before the lease ends delivers that message or a younger one of its key |
| `OutboxHistory.EveryMessageIsInOnePlace` | infrastructure/messaging/outbox/src/drizzle-outbox.store.ts:164-329 | over any run, with ids never reused, each committed message is in exactly one of live, dead-lettered, published, purged, and keeps its number |
| `OutboxHistory.RequeueIsAccepted` | infrastructure/messaging/outbox/src/drizzle-outbox.store.ts:296-321 | under that bookkeeping a requeue never violates a unique index |
| `OutboxHistory.LeasedRowIsFenced` | infrastructure/messaging/outbox/src/drizzle-outbox.store.ts:419-421 | through any run of writes by others, a leased row stays exactly as it is |
| `OutboxHistory.BuryThenRequeueRestoresThePlace` | infrastructure/messaging/outbox/src/drizzle-outbox.store.ts:192-321 | dead-lettering and then requeueing puts the message back under its number, due at once, with its history |
| `OutboxHistory.AccountedIffNeverReused` | infrastructure/messaging/outbox/src/drizzle-outbox.store.ts:59-83 | an accepted add keeps every message accounted for exactly when it reuses neither an id nor a number |
| `OutboxHistory.ReusedIdLosesADeadLetter` | infrastructure/messaging/outbox/src/drizzle-outbox.store.ts:192-224 | two messages added under one id, each leased and dead-lettered: the first is nowhere |
| `Producers.GoodAlongRuns` | infrastructure/messaging/outbox/src/drizzle-outbox.store.ts:59-83 | every reachable state of concurrent transactions, with any number of adds each, keeps exclusive locks and pending numbers above all visible ones of the key |
| `Producers.NumbersFollowCommitOrder` | infrastructure/messaging/outbox/src/drizzle-outbox.store.ts:59-83 | within a key, numbers increase in the order rows become visible, and no uncommitted row has a smaller one |
| `Producers.CommitShowsAll` | infrastructure/messaging/outbox/src/drizzle-outbox.store.ts:59-83 | a commit makes the rows of all added messages visible, in order, with ascending numbers |
| `Producers.AddedIsKept` | infrastructure/messaging/outbox/src/drizzle-outbox.store.ts:59-83 | over any run a transaction's messages are those of all its adds, in order |
| `Producers.OnlyCommitsShow` | infrastructure/messaging/outbox/src/drizzle-outbox.store.ts:59-83 | nothing but a commit makes a row visible |
| `Producers.CommitAndRollbackEnd` | infrastructure/messaging/outbox/src/drizzle-outbox.store.ts:59-83 | commit and rollback end a transaction |
| `Producers.OverIsOver` | infrastructure/messaging/outbox/src/drizzle-outbox.store.ts:59-83 | a transaction that is over holds no lock and never commits again |
| `ProducersLocks.NoDeadlock` | infrastructure/messaging/outbox/src/drizzle-outbox.store.ts:408-416 | with one add per transaction the wait-for graph has no cycle |
| `ProducersLocks.OneOrderHasNoDeadlock` | infrastructure/messaging/outbox/src/drizzle-outbox.store.ts:408-416 | nor with any number of adds, when all transactions lock in one common order |
| `ProducersLocks.DeadlockIffTangled` | infrastructure/messaging/outbox/src/drizzle-outbox.store.ts:59-83 | for any transactions and any sequences of adds, a deadlock can be reached exactly when their lock lists have places where each one's next lock is taken by the next and no lock is taken twice |
| `ProducersLocks.SomeoneCanMove` | infrastructure/messaging/outbox/src/drizzle-outbox.store.ts:408-416 | while any transaction is open and all lock in one order, one of them is not blocked |
| `ProducersLocks.TwoAddsCanDeadlock` | infrastructure/messaging/outbox/src/drizzle-outbox.store.ts:408-416 | two transactions that each add to two keys in separate calls, in opposite orders, can reach a deadlock |
| `RateLimit.AssertValidRules` | infrastructure/rate-limit/src/redis-rate-limit.service.ts:134-163 | accepts exactly non-empty distinct keys with positive numbers, limits of at least one; otherwise names the first fault |
| `RateLimit.RateLimitScript.Evaluate` | infrastructure/rate-limit/src/lua-scripts.constant.ts:165-198 | the loop finds the first rule with the longest wait and the first with the fewest requests left |
| `RateLimit.RateLimitScript.Run` | infrastructure/rate-limit/src/lua-scripts.constant.ts:165-214 | allowed exactly when every rule allows; then all rules consume or, on a check or rejection, no key changes; the reply is the deciding rule's |
| `RateLimit.CommitAllAt` | infrastructure/rate-limit/src/lua-scripts.constant.ts:204-210 | each rule's key gets its own commit from the state the script found, whatever the other rules are |
| `RateLimit.CommitKeepsOtherFields` | infrastructure/rate-limit/src/lua-scripts.constant.ts:53-60 | a bucket and a counter on one hash keep each other's fields |
| `RateLimit.CommitExpires` | infrastructure/rate-limit/src/lua-scripts.constant.ts:35-163 | how long a commit makes the key live, for each algorithm |
| `RateLimit.RightTypeIs` | infrastructure/rate-limit/src/lua-scripts.constant.ts:35-163 | which Redis types each algorithm's commands work on |
| `RateLimitRuns.CallAtKey` | infrastructure/rate-limit/src/lua-scripts.constant.ts:165-214 | a call changes a key only by consuming from it, and only when that key's rule allowed |
| `RateLimitHistory.RunDecidesByHistory` | infrastructure/rate-limit/src/lua-scripts.constant.ts:35-163 | after any run, over any mix of rules, each algorithm decides, and reports what is left, exactly as its reading of the requests accepted before says: tokens refilled and taken, requests of the open fixed window, requests of the last window, or those of the current window plus a share of the one before; and every accepted request was one the reading admits |
| `RateLimitHistory.CounterNeverExceedsItsLimit` | infrastructure/rate-limit/src/lua-scripts.constant.ts:118-163 | over any run the counter accepts at most `limit` requests in one window since the clock began |
| `RateLimitHistory.EstimateStaysWithinTheLimit` | infrastructure/rate-limit/src/lua-scripts.constant.ts:118-163 | after an accepted request its estimate is at most `limit` plus one billionth |
| `RateLimitHistory.LifeHoldsTheLimit` | infrastructure/rate-limit/src/lua-scripts.constant.ts:64-85 | a fixed window accepts at most `limit` requests while it is open |
| `RateLimitHistory.FixedNeverExceedsTwice` | infrastructure/rate-limit/src/lua-scripts.constant.ts:64-85 | and over any run at most twice that in any stretch of its length |
| `RateLimitHistory.FreshKeyAllowsTheLimit` | infrastructure/rate-limit/src/lua-scripts.constant.ts:35-163 | at a missing key exactly `limit` requests pass at once, for a bucket its whole tokens |
| `RateLimitRuns.LogNeverExceedsItsLimit` | infrastructure/rate-limit/src/lua-scripts.constant.ts:87-116 | in any run over any mix of rules, every half-open interval of window length holds at most `limit` acceptances, on the script's millisecond clock |
| `RateLimitReply.AllowedIffSomeAvailable` | infrastructure/rate-limit/src/lua-scripts.constant.ts:35-163 | for all four algorithms, a rule allows exactly when the number it reports as available is at least one |
| `RateLimitReply.AvailableIsExact` | infrastructure/rate-limit/src/lua-scripts.constant.ts:35-163 | for all four algorithms, exactly that many more requests pass at this moment, and then none |
| `RateLimitReply.ConsumingTakesOne` | infrastructure/rate-limit/src/lua-scripts.constant.ts:35-163 | a commit takes exactly one of the available requests and leaves the key alive |
| `RateLimitReply.LogRetryIsExact` | infrastructure/rate-limit/src/lua-scripts.constant.ts:92-115 | `n` whole seconds after a rejection the log allows exactly when `n` is at least the answered wait |
| `RateLimitReply.LogRetryIsExactAfterRuns` | infrastructure/rate-limit/src/lua-scripts.constant.ts:87-116 | and so it is after any run that starts without the key |
| `RateLimitReply.TargetIsExact` | infrastructure/rate-limit/src/lua-scripts.constant.ts:137-152 | the counter's estimate is down to `limit - 1` exactly from the target moment on, in both branches of its formula |
| `RateLimitReply.CounterRetryIsLeast` | infrastructure/rate-limit/src/lua-scripts.constant.ts:137-152 | with fewer whole seconds than answered the estimate is still above `limit - 1` |
| `RateLimitRuns.LogRetrySuffices` | infrastructure/rate-limit/src/lua-scripts.constant.ts:92-105 | the pivot-based wait is always long enough, even when the key expires meanwhile |
| `RateLimitRuns.LogRetrySufficesAfterRuns` | infrastructure/rate-limit/src/lua-scripts.constant.ts:87-116 | and so it is after any run that starts without the key |
| `RateLimitRuns.FixedRetryReachesExpiry` | infrastructure/rate-limit/src/lua-scripts.constant.ts:64-85 | the wait reaches the key's expiry, and the rule allows then exactly when it is not that very millisecond; no fewer whole seconds are enough |
| `RateLimitRuns.FixedRetryCanFallShort` | infrastructure/rate-limit/src/lua-scripts.constant.ts:64-85 | with one request per second, the request made exactly the answered second after a rejection is refused |
| `RateLimitBucket.BucketRateBound` | infrastructure/rate-limit/src/lua-scripts.constant.ts:35-62 | in any stretch of any run the bucket lets through at most `maxTokens` plus the refill of that time |
| `RateLimitBucket.ExpiryIsInvisible` | infrastructure/rate-limit/src/lua-scripts.constant.ts:53-60 | an expired bucket would have been full |
| `RateLimitBucket.KeptRunAcceptsAlike` | infrastructure/rate-limit/src/lua-scripts.constant.ts:35-62 | a run with EXPIRE accepts the same calls as one whose bucket is kept forever |
| `RateLimitBucket.BucketRetryIsExact` | infrastructure/rate-limit/src/lua-scripts.constant.ts:35-62 | with capacity for a token, `n` seconds are enough exactly from the answered wait on |
| `RateLimitBucket.TinyBucketNeverAllows` | infrastructure/rate-limit/src/lua-scripts.constant.ts:35-62 | with less capacity no wait is enough |
| `RateLimitCounter.EstimateFalls` | infrastructure/rate-limit/src/lua-scripts.constant.ts:118-136 | without consumption the estimate never rises, across rollovers and expiry |
| `RateLimitCounter.EstimateIsContinuous` | infrastructure/rate-limit/src/lua-scripts.constant.ts:118-136 | nor does it jump: over any time its loss is bounded by its greatest slope times that time, rollovers included |
| `RateLimitCounter.CounterExpiryIsInvisible` | infrastructure/rate-limit/src/lua-scripts.constant.ts:118-163 | a dropped record would show zero counts |
| `RateLimitCounter.CounterRetrySuffices` | infrastructure/rate-limit/src/lua-scripts.constant.ts:137-152 | after a rejection any attempt from the answered wait on is allowed, in both branches of the target |
| `RateLimitCounter.CounterRetrySufficesAfterRuns` | infrastructure/rate-limit/src/lua-scripts.constant.ts:118-163 | and so it is after any run that starts without the key |
| `Otp.GoodAlongRuns` | features/iam/authentication/http/src/otp-challenge.service.ts:40-84 | while the digest can be read the attempt window is the first one and counts every allowed call |
| `Otp.AtMostLimitComparisons` | features/iam/authentication/http/src/otp-challenge.service.ts:40-84 | however many verify calls interleave, at most the limit of them ever compares |
| `Otp.AllowedUpToTheLimit` | features/iam/authentication/http/src/otp-challenge.service.ts:61-72 | in time, a call is let through exactly while fewer than the limit have been |
| `Otp.OneTry` | features/iam/authentication/http/src/otp-challenge.service.ts:61-84 | once a call has compared, or was refused and has dropped the digest, no call that reads later finds it |
| `Otp.LivesForItsTtl` | features/iam/authentication/http/src/otp-challenge.service.ts:40-72 | the code can be read for its ttl, and the first call opens an attempt window of the same length |
| `Lockable.LockViolation` | infrastructure/database/drizzle/src/assert-lockable.ts:44-82 | the loops report the first offending clause or name in the source's order, and nothing exactly when there is none; each of the four clauses exactly when it is the first |
| `Lockable.CanBeNullIsExact` | infrastructure/database/drizzle/src/assert-lockable.ts:17-23 | against the meaning SQL gives each type of join, a table can be NULL-extended by some contents and ON conditions exactly when the table of join types says its own or a later join extends it; the witness database is constructed |
| `Lockable.LockViolationIsExact` | infrastructure/database/drizzle/src/assert-lockable.ts:44-82 | with `of`, accepted exactly when for all contents and ON conditions no result row NULL-extends a table named in it |
| `Lockable.LockViolationOfAllIsExact` | infrastructure/database/drizzle/src/assert-lockable.ts:65-70 | without `of`, accepted exactly when no named table is ever NULL-extended; that is the answer for all tables exactly when a named table can be or no unnamed one can |
| `Lockable.UnnamedTableIsOverlooked` | infrastructure/database/drizzle/src/assert-lockable.ts:55-62 | a left-joined table without a name passes the analysis |
| `Payment.Allocate` | features/payment/impl/src/payment.service.ts:336-379 | which selections are accepted, with which shares, and which error the others get |
| `Payment.SettledIs` | features/payment/impl/src/payment.repository.ts:138-169 | every column a settlement writes |
| `Payment.UpdatedIs` | features/payment/impl/src/payment.repository.ts:178-213 | every column a status update writes |
| `Payment.RunIdempotentlyIs` | features/payment/wallet/impl/src/wallet.service.ts:219-284 | a keyed move succeeds exactly when the wallet exists and the key is new and covered or was used for just this; then it is booked once |
| `PaymentRuns.MoneyMatchesRows` | features/payment/impl/src/payment.service.ts:91-238 | over every run, with crashes and failures anywhere and settle times increasing per payment, the payer's net outflow is what the row says, every row passes every CHECK, and tickets are for the rest of the total |
| `PaymentRuns.AtMostOnce` | features/payment/wallet/impl/src/wallet.service.ts:219-284 | each settle attempt is withdrawn at most once and credited back at most once |
| `PaymentRuns.BalancesFollowTheLedger` | features/payment/wallet/impl/src/wallet.service.ts:219-284 | over every run a balance changes by what the ledger records and is never overdrawn |
| `PaymentReplays.RunMatchesIffKeysAreFresh` | features/payment/impl/src/payment.service.ts:400-428 | over every run, whatever the times, wallet money matches the rows of all payments all along exactly when every step that goes through uses a wallet key that the ledger does not hold yet |
| `PaymentReplays.IncreasingTimesAreFresh` | features/payment/impl/src/payment.service.ts:400-428 | settle times that increase per payment make every key fresh |
| `PaymentReplays.RowsStaySound` | infrastructure/schema/src/order/payment.schema.ts:91-152 | whatever the times, every row of every run passes every CHECK and has the order's amounts |
| `PaymentReplays.SettleMatchesIff` | features/payment/impl/src/payment.service.ts:240-334 | a committed settle leaves money and row in agreement exactly when its withdrawal key was not used before |
| `PaymentReplays.RefundMatchesIff` | features/payment/impl/src/payment.service.ts:400-420 | a committed refund or status update does exactly when it credits nothing or its deposit key was not used before |
| `PaymentReplays.SameMillisecondRefundIsNotPaid` | features/payment/impl/src/payment.service.ts:400-428 | a run in which money matched all along; then a partial refund is recorded that no wallet receives, since a cancelled attempt of the same millisecond was credited under its key |
| `PaymentRuns.LateExpireIsRightIff` | features/payment/impl/src/payment.service.ts:91-98 | an expiry that read the payment as pending leaves money and row in agreement exactly when the row it overwrites expects no wallet money |
| `PaymentRuns.LateExpireKeepsTheMoney` | features/payment/impl/src/payment.service.ts:91-98 | read as pending, then paid by wallet, then expired: the customer's money stays taken |
| `PaymentRuns.SettleKeepsGood` | features/payment/impl/src/payment.service.ts:240-334 | settling at an unused time keeps money, row, CHECKs and ticket in agreement for every payment |
| `PaymentRuns.UpdatedRowIsGood` | features/payment/impl/src/payment.repository.ts:178-213 | every status transition the service makes writes a row the CHECKs accept, with the expected outflow less the refund |
| `PaymentRuns.SettledRowIsGood` | infrastructure/schema/src/order/payment.schema.ts:91-152 | the row a settlement writes passes every CHECK, with a ticket for the gateway's share |
| `PaymentRuns.RefundAndUpdateKeepsGood` | features/payment/impl/src/payment.service.ts:389-428 | failure, expiry, cancellation and refund keep money, row, CHECKs and ticket in agreement for every payment |
| `PaymentRuns.PaidInFull` | features/payment/impl/src/payment.service.ts:275-334 | a paid payment has collected the order total between wallet and gateway, unless its ticket was reversed |
| `PaymentRuns.FullRefundReturnsAll` | features/payment/impl/src/payment.service.ts:218-236 | after a full refund nothing is kept, by wallet or gateway |
| `PaymentRuns.PartialRefundOverpaysIff` | features/payment/impl/src/payment.service.ts:195-216 | a partial refund returns no more than was paid exactly when the ticket was not reversed before or the refund is within the wallet share |
| `PaymentRuns.HalfDoneRefundOverpays` | features/payment/impl/src/payment.service.ts:190-238 | a run that reaches it: paid by gateway, a full refund that stops after the reversal, then a partial refund |
| `PaymentRuns.SameMillisecondSettlesForFree` | features/payment/impl/src/payment.service.ts:422-428 | a run from empty tables in which the clock stands still ends processing with a share nobody paid |
| `PaymentService.PaymentService.RunIdempotently` | features/payment/wallet/impl/src/wallet.service.ts:219-284 | one keyed withdraw or deposit: refused, replayed without effect, or recorded with its balance change |
| `PaymentService.PaymentService.SettleRow` | features/payment/impl/src/payment.repository.ts:138-169 | true exactly when the payment was pending; then it no longer is, and carries customer, time, ticket and the whole allocation; otherwise, and for every other payment, nothing changes |
| `PaymentService.PaymentService.Settle` | features/payment/impl/src/payment.service.ts:155-334 | exactly when it succeeds: a pending payment, an acceptable selection, a withdrawal that goes through, and then fulfilment by wallet, a ticket otherwise, a gateway that supports splits for a split; which error it answers otherwise; it takes the ticket step and the settle step of the runs, and on any failure rows, ledger and balances are as before |
| `PaymentService.PaymentService.Verify` | features/payment/impl/src/payment.service.ts:100-131 | takes the step of the runs and leaves that status exactly when it may (processing, not by wallet, and for a failure or expiry a credit of the wallet share that goes through), and otherwise nothing |
| `PaymentService.PaymentService.Cancel` | features/payment/impl/src/payment.service.ts:133-153 | takes the step of the runs and leaves that status exactly when it may (processing, not by wallet, cancelled by the gateway, and a credit of the wallet share that goes through), and otherwise nothing |
| `PaymentService.PaymentService.Expire` | features/payment/impl/src/payment.service.ts:91-98 | takes the step of the runs and leaves that status exactly when it may (pending), and otherwise nothing |
| `PaymentService.PaymentService.RefundAll` | features/payment/impl/src/payment.service.ts:218-237 | exactly when a paid payment is refunded: a reversed ticket unless by wallet, and a credit of the wallet share that goes through; the ticket is reversed first, and only that stays behind when the rest fails |
| `PaymentService.PaymentService.RefundPart` | features/payment/impl/src/payment.service.ts:195-216 | takes the step of the runs and leaves that status exactly when it may (paid, an amount above zero and within what was paid, and a credit that goes through), and otherwise nothing |
| `Locations.ThereAndBack` | features/order/impl/src/cli/seed/locations.seeder.ts:147-207 | for any mapping of ids, cycles included, a reference ends at its target, exactly unless it held a temporary id to begin with |
| `Locations.TargetsDiffer` | features/order/impl/src/cli/seed/locations.seeder.ts:113-129 | after the checks, two provinces never end under one id |
| `LocationsSeeder.ToRows` | features/order/impl/src/cli/seed/locations.seeder.ts:252-284 | refuses exactly repeated normalized names, of provinces or within a province; otherwise all rows, by id |
| `LocationsSeeder.SortAscends` | features/order/impl/src/cli/seed/locations.seeder.ts:281-282 | sorting rows of distinct ids yields them in ascending order |
| `LocationsSeeder.Chunk` | features/order/impl/src/cli/seed/locations.seeder.ts:308-314 | full batches and a non-empty rest that together are the items in order |
| `LocationsDb.LocationsDb.FindManaged` | features/order/impl/src/cli/seed/locations.seeder.ts:92-129 | pairs every existing province the source names with its target, or refuses exactly duplicates and foreign owners of an id |
| `LocationsDb.LocationsDb.MoveReferences` | features/order/impl/src/cli/seed/locations.seeder.ts:165-174 | the updates in turn are one substitution; no reference of a city dangles and no unique index is violated in between |
| `LocationsDb.LocationsDb.Reconcile` | features/order/impl/src/cli/seed/locations.seeder.ts:135-207 | provinces at their target ids, every city with its province and none lost to the two cascading deletes |
| `LocationsDb.LocationsDb.Seed` | features/order/impl/src/cli/seed/locations.seeder.ts:78-249 | exactly when seeding is refused and why, and then nothing changes; otherwise the counts it answers and the tables it leaves, with addresses following their province exactly unless captured |
| `LocationsTheorems.ReferencesKeepTheirProvince` | features/order/impl/src/cli/seed/locations.seeder.ts:113-207 | a reference leads to a province of the same normalized name afterwards; unmanaged provinces are untouched |
| `LocationsTheorems.CitiesStayTogether` | features/order/impl/src/cli/seed/locations.seeder.ts:165-200 | no city is lost or renamed by the reconciliation, and two share a province afterwards exactly when they did before |
| `LocationsTheorems.SourceProvinceIsThere` | features/order/impl/src/cli/seed/locations.seeder.ts:252-284 | every province of the source is there under its id and its normalized name |
| `LocationsTheorems.SourceCityIsThere` | features/order/impl/src/cli/seed/locations.seeder.ts:222-284 | and every city under its id, with its normalized name and in its province, as long as its id is its own |
| `LocationsTheorems.OtherCitiesStay` | features/order/impl/src/cli/seed/locations.seeder.ts:222-236 | cities the source does not mention stay as the reconciliation left them |
| `LocationsTheorems.SeedingAgainChangesNoProvince` | features/order/impl/src/cli/seed/locations.seeder.ts:78-220 | the same source again is accepted, needs no reconciliation and changes no province |
| `LocationsTheorems.SeedingAgainChangesNoCity` | features/order/impl/src/cli/seed/locations.seeder.ts:222-236 | nor any city |
| `LocationsTheorems.DanglingAddressIsCaptured` | features/order/impl/src/cli/seed/locations.seeder.ts:147-174 | an address with a dangling reference can be carried off |
| `Categories.ForestHasNoCycle` | infrastructure/schema/src/catalog/categories.service.ts:93-104 | where every way up ends, no category is its own ancestor |
| `Categories.MoveKeepsForest` | infrastructure/schema/src/catalog/categories.service.ts:122-147 | moving a subtree to a place outside it leaves a forest |
| `Categories.MoveIntoOwnSubtree` | infrastructure/schema/src/catalog/categories.service.ts:93-104 | moving it into itself never does |
| `Categories.TwoMovesMakeACycleIff` | infrastructure/schema/src/catalog/categories.service.ts:30-47 | two moves that check the same tree make a cycle exactly when each goes under the other's subtree |
| `Categories.DisjointLocksDoNotPreventACycle` | infrastructure/schema/src/catalog/categories.service.ts:30-47 | such moves exist with disjoint row locks |
| `CategoryMoves.MovesMakeACycleIff` | infrastructure/schema/src/catalog/categories.service.ts:122-147 | any number of moves that check one tree make a cycle exactly when, going from a moved category to the first moved one above its new place, one comes back to itself |
| `CategoryMoves.ForestIffNoCycle` | infrastructure/schema/src/catalog/categories.service.ts:93-104 | categories whose parents all exist form a forest exactly when none is its own ancestor |
| `CategoryMoves.OneMoreMoved` | infrastructure/schema/src/catalog/categories.service.ts:142-145 | the moves written together are the moves written one after the other, in any order |
| `CategoryMoves.AnyTwoOfThreeAreFine` | infrastructure/schema/src/catalog/categories.service.ts:30-47 | three checked moves with disjoint locks, any two of which leave a forest, make a cycle |
| `CategoriesService.CategoriesService.AssertNoCycle` | infrastructure/schema/src/catalog/categories.service.ts:94-104 | terminates, and refuses exactly a new parent within the moved subtree |
| `CategoriesService.CategoriesService.MoveProductsToOther` | infrastructure/schema/src/catalog/categories.service.ts:59-91 | makes or finds the `other` child and moves every direct link there, exactly unless the primary key refuses one |
| `CategoriesService.CategoriesService.Create` | infrastructure/schema/src/catalog/categories.service.ts:108-120 | keeps forest, leaf-only products and one primary per product; exactly when and why it is refused, and then nothing changes |
| `CategoriesService.CategoriesService.Move` | infrastructure/schema/src/catalog/categories.service.ts:122-147 | the same for a move |
| `CategoriesService.CategoriesService.SetProductCategories` | infrastructure/schema/src/catalog/categories.service.ts:149-185 | accepted exactly for existing leaves that include the primary; then the product has exactly one link per category, primary for just that one, and other products' links are untouched |
| `CategoriesService.RehomedStaysInSubtree` | infrastructure/schema/src/catalog/categories.service.ts:59-91 | a displaced product keeps its flag and stays in every subtree it was in; no other link appears |
| `CategoriesService.DisplaceKeepsGood` | infrastructure/schema/src/catalog/categories.service.ts:59-91 | displacing products into `other` keeps every rule and leaves the parent without products |
| `CategoriesService.MoveKeepsGood` | infrastructure/schema/src/catalog/categories.service.ts:122-147 | a checked move keeps every rule |
| `CategoriesService.SetKeepsGood` | infrastructure/schema/src/catalog/categories.service.ts:149-185 | reassigning a product keeps every rule |
| `Supply.StockTasksNet` | features/procurement/supply/impl/src/supply.service.ts:198-246 | the increments and decrements of an edit are the difference of the lines |
| `SupplyTheorems.EditIsRightIff` | features/procurement/supply/impl/src/supply.service.ts:168-322 | an edit whose reads precede its transaction leaves stock and records in step with the lines exactly when, for every good, what it set out to do is what the document needs when the transaction runs; a document deleted meanwhile included |
| `SupplyTheorems.DeleteIsRightIff` | features/procurement/supply/impl/src/supply.service.ts:328-359 | a deletion does exactly when the quantities it read are those the document still holds |
| `SupplyTheorems.CurrentReadsFit` | features/procurement/supply/impl/src/supply.service.ts:173-202 | reads that are still current always fit |
| `SupplyTheorems.CurrentReadsKeepRecords` | features/procurement/supply/impl/src/supply.service.ts:280-320 | then each record goes with its line, follows its price, and is untouched when its line is |
| `SupplyRuns.RunFollowsIffReadsFit` | features/procurement/supply/impl/src/supply.service.ts:113-360 | over any run of overlapping records, edits and deletions, stock and purchase records are in step all along exactly when every transaction's reads fit when it runs |
| `SupplyRuns.FittingReadsAreCurrent` | features/procurement/supply/impl/src/supply.service.ts:198-254 | with quantities above zero, reads fit only while the document has the goods and quantities that were read |
| `SupplyRuns.OverlappingEditsCountTwice` | features/procurement/supply/impl/src/supply.service.ts:168-322 | a run from a state in step, of two edits that both add a line: one line of five, ten in stock, two purchase records |
| `SupplyRuns.SameLinesAreNotEnough` | features/procurement/supply/impl/src/supply.service.ts:190-228 | a line deleted and entered anew in between has a new record, so equal lines do not make the reads fit |
| `SupplyService.SupplyService.RecordSupply` | features/procurement/supply/impl/src/supply.service.ts:113-164 | a new document's lines enter stock and get one record each, in one transaction; stock and records stay in step |
| `SupplyService.SupplyService.Difference` | features/procurement/supply/impl/src/supply.service.ts:198-254 | the two loops compute, for each good, the movement and the record change it needs |
| `SupplyService.SupplyService.FindForChange` | features/procurement/supply/impl/src/supply.service.ts:173-182 | reads the lines, exactly when the document is there and not too old |
| `SupplyService.SupplyService.CommitEdit` | features/procurement/supply/impl/src/supply.service.ts:198-322 | the transaction of an edit on what was read before, with any other calls in between: keeps everything in step exactly when the reads fit; refused exactly when a record was missing or it is turned down, and then nothing changes |
| `SupplyService.SupplyService.EditDocument` | features/procurement/supply/impl/src/supply.service.ts:168-323 | a whole call that no other call interrupts keeps everything in step, with untouched lines keeping their record |
| `SupplyService.SupplyService.CommitDelete` | features/procurement/supply/impl/src/supply.service.ts:340-359 | the transaction of a deletion on the lines read before: keeps everything in step exactly when the reads fit |
| `SupplyService.SupplyService.DeleteDocument` | features/procurement/supply/impl/src/supply.service.ts:328-360 | a whole call that no other call interrupts leaves nothing of the document in stock or records |
| `Idempotency.ToWholeMs` | infrastructure/idempotency/src/redis-idempotency.store.ts:251-259 | accepts exactly positive durations and rounds up by less than a millisecond |
| `Idempotency.NeverUnreadable` | infrastructure/idempotency/src/redis-idempotency.store.ts:180-195 | no run leaves a completed record without a response, so that error is unreachable |
| `Idempotency.CompletedIsReplayed` | infrastructure/idempotency/src/redis-idempotency.store.ts:70-118 | after a completion, until its ttl, every acquire replays its response and the fingerprint of its acquire, and nothing else succeeds: one completion per record |
| `Idempotency.LostForGood` | infrastructure/idempotency/src/redis-idempotency.store.ts:70-118 | with owners distinct, an attempt that lost its lock never holds it again and changes nothing |
| `IdempotencyHistory.FirstComeFirstServed` | infrastructure/idempotency/src/redis-idempotency.store.ts:163-196 | at a key nobody has used an acquire acquires |
| `IdempotencyHistory.LockedUntil` | infrastructure/idempotency/src/redis-idempotency.store.ts:163-230 | from an acquire or renewal until its time is up every acquire is told in-flight with the fingerprint of the attempt that holds the lock, and only that attempt's calls go through |
| `IdempotencyHistory.ReplayedUntil` | infrastructure/idempotency/src/redis-idempotency.store.ts:163-218 | from a completion until its time is up every acquire is given its response and nothing goes through |
| `IdempotencyHistory.FreeAgain` | infrastructure/idempotency/src/redis-idempotency.store.ts:163-230 | after a release, or once the time is up, an acquire acquires again |
| `Idempotency.RedisIdempotencyStore.Acquire` | infrastructure/idempotency/src/redis-idempotency.store.ts:163-196 | the script's commands do and answer what the step function says; a bad duration changes nothing |
| `Idempotency.RedisIdempotencyStore.Complete` | infrastructure/idempotency/src/redis-idempotency.store.ts:204-218 | the same for completing |
| `Idempotency.RedisIdempotencyStore.Release` | infrastructure/idempotency/src/redis-idempotency.store.ts:221-224 | the same for releasing |
| `Idempotency.RedisIdempotencyStore.Extend` | infrastructure/idempotency/src/redis-idempotency.store.ts:227-230 | the same for renewing |
| `Pricing.DiscountedUnitNetsTheRealPrice` | features/store/pricing/impl/src/pricing.service.ts:297-377 | for both kinds of discount a discounted unit nets exactly the real discounted price |
| `Pricing.LineTotalIs` | features/store/pricing/impl/src/pricing.service.ts:204-235 | a line is its discounted units at the real net price and the others at the shown price |
| `Pricing.LineIsAtRealPricesIff` | features/store/pricing/impl/src/pricing.service.ts:309-349 | a line costs what real prices say exactly when every unit is discounted or nothing was added |
| `Pricing.DiscountedQuantityIs` | features/store/pricing/impl/src/pricing.service.ts:309-349 | units discounted are at most those there are and those the discount is good for, and one of the two |
| `Pricing.ChargedIs` | features/store/pricing/impl/src/pricing.service.ts:204-235 | a discounted line comes to its discounted units at the real price less the real discount and the others as shown |
| `Pricing.PricedComponentsAre` | features/store/pricing/impl/src/pricing.service.ts:237-266 | components have prices exactly when each product has a purchase price and a markup; then each product has one line, of its last component, at the purchase price with the markup on it |
| `Pricing.BundleDisplayItems` | features/store/pricing/impl/src/pricing.service.ts:379-413 | the shown component lines sum to the shown bundle price, or to zero without components, each in proportion to its real line; none exactly where the arithmetic divides by zero |
| `Pricing.TotalsScale` | features/store/pricing/impl/src/pricing.service.ts:393-411 | lines that scale alike sum to totals that scale alike |
| `Pricing.PriceBundle` | features/store/pricing/impl/src/pricing.service.ts:237-295 | exactly when and why a bundle has no price; otherwise it is shown at the price its real price calls for, one without components at zero, its component lines add up to just that in proportion to their real ones, and its discount is taken off |
| `Pricing.Summarize` | features/store/pricing/impl/src/pricing.service.ts:179-197 | grand total is subtotal less discount, for any items |
| `Pricing.PriceInvoice` | features/store/pricing/impl/src/pricing.service.ts:125-202 | every item is charged at its own product's purchase price, markup and discount, or those of its components; exactly when and why there is no invoice; the totals agree |

## Left out

- Outbox: stats, listings, the inbox and its pruning; PostgreSQL's own locking and snapshot rules, except that a locked row is neither updated nor deleted by others; a statement that waits for such a row counts as not having happened yet.
- Rate limits: request ids are taken to be unique; number formatting in Redis, backward clocks, windows that are not whole milliseconds, `reset`, and the parsing of replies.
- Otp: the digest's hashing and the message that carries the code; a challenge's id is random, so its counter starts without a key.
- Lockable: aggregates and window functions, which the source leaves to PostgreSQL, and reading the query builder's configuration.
- Payment: the lock around a call is assumed to exclude other calls on the payment, since they read before their transaction; it is a lock of five seconds, and verify, cancel and refund are not followed beyond that. A settle needs no lock, and what an expiry does to a settle that slips in is stated separately (`LateExpireIsRightIff`); the payer is the order's customer; frozen amounts, job scheduling, tracking codes that a gateway would reuse, and an idempotency key of another wallet user that looks like a payment's.
- Payment CHECKs are read as two-valued: a comparison with NULL counts as failing, which is stricter than the database.
- Locations: name normalization is any idempotent function; the identity sequences; the schema check of the source file, whose guarantees are assumed.
- Categories: slug format checks, the product foreign key, and row locks other than in the lemmas about two moves.
- Supply: what the repository does when asked to update or delete a missing document or record, taken to be nothing; suppliers, specialists, the outbox event, retention purging, and daylight-saving shifts of the three-day window; iteration order of lines, which no result depends on.
- Idempotency: JSON encoding, and losing records to eviction.
- Pricing: rounding and the number of decimals of money; how catalog, procurement, markups and discounts answer, which are parameters; what a division by zero yields.
