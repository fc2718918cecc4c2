# A verified model of the trading stack's core

This project models the parts of the trading system that are hardest to get right and proves
what they promise: the order manager that reconciles desired quotes with an exchange it can
only partly see, the websocket client whose subscriptions are reconfigured while its
connection comes and goes, the safety rails around live dispatch, and the fixed-point
arithmetic and book indices everything else is priced with.

Run `dafny verify dfyconfig.toml` to check all of it.

## Layout

| files | what they model |
|---|---|
| `words.dfy`, `text.dfy`, `rounds.dfy` | u64 saturation, ordered sets and maps of strings, quotient and remainder |
| `units.dfy`, `amounts.dfy` | the three decimal parsers, the three printers, maker and taker amounts |
| `decimal_forms.dfy` | what exactly they read, refuse and print, on every text |
| `working_quote.dfy`, `order_manager.dfy` | one working quote and its transitions; planning, synchronizing, fills |
| `plan_properties.dfy`, `plan_meaning.dfy`, `convergence.dfy` | where a plan leads; what it says in numbers; planning again; recovering from doubt |
| `quote_lifecycle.dfy` | one quote through any series of synchronizations, in raw times and states |
| `exchange_protocol.dfy`, `settling.dfy` | manager and exchange as one system with commands on their way: safety, and how it settles |
| `fill_accounting.dfy` | fills from repeated snapshots to the strategy's inventory |
| `subscription_plan.dfy`, `ws_session.dfy`, `feed_manager.dfy` | subscription planning, the session, the manager above it |
| `circuit_breaker.dfy`, `rate_limits.dfy`, `execution_loop.dfy` | the lock-free breaker, the window limiters, the loop and its pool |
| `execution_rails.dfy` | what the loop lets through, when, and what stops it |
| `price_ladder.dfy`, `order_books.dfy` | string-keyed ladders and the books made of them |
| `hot_state.dfy`, `hot_ticks.dfy` | the hot state and its midpoints; its tick and lot counts |
| `hot_agreement.dfy`, `hot_runs.dfy` | its agreement with the ladder, update by update and over whole runs |
| `hot_news.dfy` | which updates each side, book, market id and step size of a store comes from |

What the source changes in place is a class here, and each of its methods is proved equal to a
function on values (`View`, `State` or the fields themselves); the results about whole runs are
lemmas about those functions. Ordered sets are strictly ascending sequences, in the order of
Rust's `String`.

## What the main results say, and what they rest on

- **Quote safety** (`ExchangeProtocol.RunsAreSafe`). Plans are sent through a first-in
  first-out channel. The repository has no code that executes a plan, so a sent Place is
  tracked with `pending_submit` and a sent Cancel with `mark_pending_cancel`, the two helpers
  made for it. The exchange may finish an order at any time. Of snapshots only this is assumed:
  when one makes the manager give up a quote it counted as possibly live, nothing of the quote
  is live and no Place of it is on its way. `GivesUp` says when that happens: the quote is
  reported dead, or an authoritative list leaves it out while its cancel is pending, while it is
  in doubt, or after its timeout. A list that leaves out a submission still within its timeout
  merely raises a doubt and may be wrong (`FirstOmissionIsReliable`); past the timeout one such
  list is enough for the manager to give it up. `ReliableExactly` proves that nothing less will
  do: reconciling is safe, now and while what is on its way arrives, if and only if the snapshot
  is reliable in this sense. `LossExactly` is the same for losing a command.
  `NotLiveIsNotEnough` is a concrete run with snapshots that are merely right about what is
  live: the second omission of a slow Place clears the doubt the first one raised, and the Place
  is doubled.
- **Settling** (`Settling.TwoRoundsConverge`, `ThreeRoundsSettle`, `SettledForGood`). From any
  state of any run, once everything on its way has arrived, two rounds with snapshots that list
  what is live leave exactly the desired quotes live, at their desired terms or not due for
  replacement; with thresholds of at least one, and no command sent later than the first round's
  time, a third round a cooldown later leaves none materially different, and then every further
  round is silent.
- **One quote** (`PlanMeaning.KeptOrReplaced`, `QuoteLifecycle.CancelStaysPending`, `AlarmsExactly`).
  A trusted quote that stays desired is canceled and placed anew if and only if its terms differ
  by a threshold in either direction and its last command is a cooldown old. A quote whose cancel
  was sent stays that way, however often it is still reported as working, until it is reported
  dead, missing from an authoritative list, put in doubt by a reconnect or timed out.
- **Fills** (`FillAccounting.OneDeltaPerFill`, `FillsCountOnce`). The deltas are those of the
  outcomes of a run of reconciliations, snapshots with a pending resync included.
- **Second plans** (`Convergence.SecondPlanEmpty`). A change threshold of zero makes every
  quote differ materially from itself, so planning again is silent exactly when nothing had
  been placed, or the thresholds are positive, or a cooldown is set.
- **Notional of a fill** (`FillAccounting.CarriedNotionalExact`). It survives being printed and
  parsed exactly when it fits a u64; `Units.ParseOfFormat` says what becomes of a larger one,
  whose whole part is lost altogether once that part alone no longer fits.
- **Parsers** (`Amounts.AllParsersAgreeExactly`). The strict, the lenient and the hot state's
  parser read the same number if and only if the text is a decimal with a whole digit, at most
  six decimals and a value in the u64 range.
- **Shards** (`SubscriptionPlan.ClientsPartition`). Clients that differ only in their shard index,
  0 to n - 1, together serve every desired asset, each exactly once. An index past the end takes
  what the last client takes.
- **Breaker** (`CircuitBreaker.LimitsHold`, `AcceptsExactly`, `SaturatedOrderExactly`). The
  counters wrap around, as atomic addition does. One call is accepted past a limit exactly when
  a total wraps; in particular an order whose dollars saturate u64 is accepted on any total from
  one cent to one past the limit, and takes a cent off it. Over all interleavings of calls for so
  many cents in all the limits hold if and only if those cents on top of the breaker's total fit
  a u64 (`LimitsHoldExactly`). A call that fails leaves it tripped, and nothing but a trip by hand
  or a call past a limit trips it (`FailureTripsExactly`). The limits hold over all
  runs of the execution loop if and only if the cents of one trigger on top of the dollar limit
  fit a u64 (`ExecutionLoop.LimitsHoldExactly`).
- **Rate limits** (`RateLimits.LimiterBound`, `LimiterSlidesExactly`, `ThrottleSlidesExactly`).
  The documentation of `RateLimiter` (`crates/pm-executor/src/safety.rs:132`) says sliding
  window; the code is a fixed window, and the model follows the code. The sliding bound, at most
  the limit in any second, holds in all runs if and only if the limit is one or so large that no
  run of fewer than 2^64 calls can exceed it; for the throttle, if and only if its limit is at
  most one or its window at most one millisecond. Twice the limit is never exceeded for limits
  of at least one, and one less than that is reached. A limit of zero admits one call whenever a
  window opens. A call is dropped only when the limit was used up within the second ending at it
  (`LimiterDenialIsDeserved`). The loop obeys the limiter: over every run, live or dry, at most
  twice the limit of orders is noted in any second (`ExecutionRails.RunsAreLimited`).
- **Tick counts** (`HotTicks.StepsInRuns`, `CountedInRuns`, `RunsCountExactly`). An announced tick
  size lasts until the next snapshot, resolution, registration, reconnect or, for a registered
  asset, best-bid-ask update, which all put the registered one back. While it lasts, deltas go on
  counting by the registered tick, so all of them count by the book's own tick if and only if the
  announced one is in effect the registered one.
- **Hot state and ladder** (`HotRuns.RunsAgreeExactly`, `HotAgreement.HintedDeltaExactly`,
  `UnhintedDeltaExactly`). Deltas may carry the exchange's word on the best price. Over every run
  in which what stands can be read, hot state and ladder agree on the best price all along if and
  only if each such word is worth what the best standing price is worth, however it is spelled,
  and no removal without one takes away the best. Price and size both match only as long as no
  such delta takes the best away from above a level of another size: then the hot state keeps the
  size of the level that went (`SizeOfTheRemovedIsKept`), and a removal of the best without a word
  on the new one leaves the removed price at size zero (`RemovalIsMissed`).
  Best-bid-ask updates and resolutions count as such words too. Each side of each book of a
  store is what its own updates make of it (`HotNews.SidesFollowTheirNews`), so this holds of the
  store as a whole (`HotNews.StoreAgrees`).
- **Text order** (`PriceLadders.WidthsExactly`, `OrderBooks.TopOfBookIsBest`). The ends of the
  ladder's string order are the numeric best in every ladder of prices with a or b whole digits
  if and only if a and b are the same number; `LongerMisleads` names the smaller of two prices
  for every other pair, 9 before 10 being the first.
- **Midpoints** (`HotState.MidpointIsAverage`). The sum of the two prices is a u64 and is taken
  to wrap, as it does in a release build; the midpoint is the floored average exactly when the
  sum is below 2^64.

## Model

| member | source | states |
|---|---|---|
| `WorkingQuotes.WorkingQuote.PendingSubmit` | crates/pm-executor/src/order_state.rs:49-64 | a fresh submission: its terms, its state and its command time |
| `WorkingQuotes.WorkingQuote.MarkWorking` | crates/pm-executor/src/order_state.rs:66-70 | whole new value: working under the client's id, nothing else touched |
| `WorkingQuotes.WorkingQuote.MarkPendingCancel` | crates/pm-executor/src/order_state.rs:72-76 | whole new value: waiting for the cancel, command time renewed |
| `WorkingQuotes.WorkingQuote.MarkCanceled` | crates/pm-executor/src/order_state.rs:78-81 | whole new value: canceled, command time kept |
| `WorkingQuotes.WorkingQuote.MarkRejected` | crates/pm-executor/src/order_state.rs:83-88 | whole new value: rejected for the reason given |
| `WorkingQuotes.WorkingQuote.MarkUnknownOrStale` | crates/pm-executor/src/order_state.rs:90-95 | whole new value: in doubt for the reason given, command time kept |
| `WorkingQuotes.WorkingQuote.MarkReconnectStale` | crates/pm-executor/src/order_state.rs:133-135 | in doubt because of a reconnect |
| `WorkingQuotes.WorkingQuote.MarkUnknownIfTimedOut` | crates/pm-executor/src/order_state.rs:110-131 | doubt exactly when a submit or a cancel has waited its timeout, told apart; otherwise nothing changes |
| `WorkingQuotes.WorkingQuote.ApplyExchangeObservation` | crates/pm-executor/src/order_state.rs:137-164 | every pair of local and observed state, including a pending cancel that a late report of life does not undo |
| `WorkingQuotes.WorkingQuote.ApplyAuthoritativeAbsence` | crates/pm-executor/src/order_state.rs:166-180 | absence surprises exactly a believed submission or a working quote; otherwise it settles the quote |
| `OrderManager.LocalOrderManager.Reconcile` | crates/pm-executor/src/order_manager.rs:94-185 | the planner as two loops yields the planned commands: nothing while in doubt, one cancel-all, or cancels then places in id order |
| `OrderManager.LocalOrderManager.CancelPass` | crates/pm-executor/src/order_manager.rs:140-159 | cancels exactly the cancelable quotes that are unwanted or due for replacement, in id order |
| `OrderManager.LocalOrderManager.PlacePass` | crates/pm-executor/src/order_manager.rs:161-175 | places exactly the desired quotes that are missing, dead or due for replacement, in id order |
| `OrderManager.LocalOrderManager.MarkStale` | crates/pm-executor/src/order_manager.rs:206-211 | after a reconnect gap exactly the cancelable quotes are put in doubt |
| `OrderManager.LocalOrderManager.SyncAll` | crates/pm-executor/src/order_manager.rs:229-252 | each quote ages, then takes the observation of its id if it is the first with that id, or else authoritative absence; a resync is required exactly if one of them surprises |
| `OrderManager.LocalOrderManager.ReconcileWithExchange` | crates/pm-executor/src/order_manager.rs:198-259 | the whole outcome and the fills remembered, for every snapshot and working set |
| `OrderManager.LocalOrderManager.CollectNewExposureDeltas` | crates/pm-executor/src/order_manager.rs:282-301 | a delta for each fill id not seen before, and all ids remembered |
| `PlanProperties.PlanForOne` | crates/pm-executor/src/order_manager.rs:94-185 | the plan as one quote sees it: at most a cancel followed by a place |
| `PlanProperties.PlanConverges` | crates/pm-executor/src/order_manager.rs:116-185 | an unblocked plan leaves exactly the desired ids, each at its desired terms, immaterially different or cooling down |
| `PlanProperties.AppliedForOne` | crates/pm-executor/src/order_manager.rs:138-185 | commands of other quotes never matter to a quote, and of its own the last decides |
| `PlanMeaning.ReplacedExactly` | crates/pm-executor/src/order_manager.rs:261-280 | due for replacement if and only if asset, side or order type differ, or the prices or the sizes are at least their threshold apart in either direction; and no command was sent or the last one is a cooldown old |
| `PlanMeaning.KeptOrReplaced` | crates/pm-executor/src/order_manager.rs:140-185 | a trusted cancelable quote that stays desired is canceled and then placed if and only if that is so, and otherwise not mentioned |
| `PlanMeaning.PlacedWhenMissing` | crates/pm-executor/src/order_manager.rs:161-185 | a desired quote without a cancelable quote of its id is placed, at the terms desired last |
| `PlanMeaning.CanceledWhenUnwanted` | crates/pm-executor/src/order_manager.rs:127-159 | a quote no longer desired is canceled if and only if it is cancelable: alone, or by one cancel-all when nothing is desired |
| `PlanMeaning.LastDesiredCounts` | crates/pm-executor/src/order_manager.rs:116-121 | of several desired quotes with one id the last counts |
| `PlanMeaning.LastWorkingCounts` | crates/pm-executor/src/order_manager.rs:122-125 | of several working quotes with one id the last counts |
| `PlanMeaning.NothingInDoubt` | crates/pm-executor/src/order_manager.rs:100-114 | with a quote in doubt nothing is planned, whatever is desired |
| `PlanMeaning.PlanIsOrdered` | crates/pm-executor/src/order_manager.rs:140-185 | cancels come before places, each in ascending order of ids and once per id |
| `QuoteLifecycle.TimeoutsExactly` | crates/pm-executor/src/order_state.rs:110-131 | in raw times: a submission and a cancel each time out by their own timeout and no other state does; the reason names which, and nothing else changes |
| `QuoteLifecycle.ClocksExactly` | crates/pm-executor/src/order_state.rs:49-95 | sending an order or a cancel starts its clock; confirmations and doubts leave it alone; no other field moves |
| `QuoteLifecycle.ObservationExactly` | crates/pm-executor/src/order_state.rs:137-164 | which state each reported state leaves; a late report of life leaves a pending cancel pending; the client id is the exchange's or unchanged |
| `QuoteLifecycle.AbsenceExactly` | crates/pm-executor/src/order_state.rs:166-180 | which state absence leaves in each state, and that it touches nothing else |
| `QuoteLifecycle.LastReportCounts` | crates/pm-executor/src/order_manager.rs:229-233 | of several reports on one id the last counts |
| `QuoteLifecycle.CancelEndsExactly` | crates/pm-executor/src/order_state.rs:110-180 | one synchronization ends the wait for a cancel if and only if it brings a reconnect, a report of death, authoritative absence, or the timeout with no pending cancel reported |
| `QuoteLifecycle.CancelStaysPending` | crates/pm-executor/src/order_manager.rs:198-259 | over any series of synchronizations a quote whose cancel was sent stays pending, with its command time, until one of them ends the wait |
| `QuoteLifecycle.SynchronizingKeeps` | crates/pm-executor/src/order_manager.rs:229-252 | no series of synchronizations changes terms, creation or command time, nor gives a client id the exchange did not name |
| `QuoteLifecycle.TouchedExactly` | crates/pm-executor/src/order_manager.rs:206-252 | which clock a synchronization stamps a quote with: the report's, the snapshot's, now, or none; after a gap exactly the cancelable quotes are in doubt for that reason |
| `QuoteLifecycle.SilenceTimesOut` | crates/pm-executor/src/order_manager.rs:238-252 | a silent snapshot leaves a fresh submission or cancel alone until its own timeout has passed since it was sent, and puts it in doubt from then on |
| `QuoteLifecycle.AlarmsExactly` | crates/pm-executor/src/order_manager.rs:198-259 | a resync is required if and only if after a gap or some quote timed out, is surprisingly missing or stays in doubt; the outcome is blocked if and only if after a gap or with a quote in doubt, names exactly those and commands nothing |
| `Convergence.CarriedOutForOne` | crates/pm-executor/src/order_manager.rs:116-185 | the fate of each quote once the plan is sent and its cancels are confirmed |
| `Convergence.SecondPlanEmpty` | crates/pm-executor/src/order_manager.rs:261-280 | planning again at the same time is silent if and only if nothing was placed or the policy is not restless |
| `Convergence.AuthoritativePassBlocks` | crates/pm-executor/src/order_manager.rs:229-258 | when an authoritative pass ends blocked: if and only if a quote believed live, not timed out, is missing |
| `Convergence.TwoPassesUnblock` | crates/pm-executor/src/order_state.rs:110-180 | two authoritative passes listing the same ids clear every doubt from any working set |
| `Convergence.OnePassAfterGap` | crates/pm-executor/src/order_manager.rs:205-259 | after a reconnect gap one authoritative pass is enough |
| `Convergence.SilenceKeepsDoubt` | crates/pm-executor/src/order_manager.rs:229-252 | without authority absence never clears a doubt, and only a timeout raises one |
| `ExchangeProtocol.PlanKeepsSound` | crates/pm-executor/src/order_manager.rs:138-185 | whatever a plan says of a quote, at most one of its orders is ever live and the manager still knows it |
| `ExchangeProtocol.SyncedForOne` | crates/pm-executor/src/order_manager.rs:206-252 | what a snapshot makes of each quote of a working set without repeated ids |
| `ExchangeProtocol.GivesUpExactly` | crates/pm-executor/src/order_state.rs:110-180 | the manager stops counting a quote as possibly live if and only if it is reported dead, or an authoritative list leaves it out while its cancel is pending, in doubt or after its timeout |
| `ExchangeProtocol.StepKeepsInvariant` | crates/pm-executor/src/order_manager.rs:94-259 | every step of manager, channel and exchange keeps the invariant, under the exact conditions on snapshots and losses |
| `ExchangeProtocol.RunsAreSafe` | crates/pm-executor/src/order_manager.rs:94-259 | over all runs whose snapshots are reliable: one live order per quote id at most, and the manager counts its quote as possibly live, at the same terms once no order is on its way |
| `ExchangeProtocol.ReliableExactly` | crates/pm-executor/src/order_manager.rs:229-258 | reconciling with a snapshot is safe, now and while everything on its way arrives, if and only if each quote it makes the manager give up is quiet |
| `ExchangeProtocol.LossExactly` | crates/pm-executor/src/order_manager.rs:138-185 | losing a command is safe if and only if it is a place, or each quote it concerns has nothing live or no place as its next command |
| `ExchangeProtocol.HonestIsReliable` | crates/pm-executor/src/order_manager.rs:245-251 | it is enough that only quiet quotes are reported dead or left out of an authoritative list |
| `ExchangeProtocol.FirstOmissionIsReliable` | crates/pm-executor/src/order_state.rs:174-177 | it is not necessary: leaving out a submission still on its way is harmless the first time |
| `ExchangeProtocol.NotLiveIsNotEnough` | crates/pm-executor/src/order_state.rs:166-180 | a concrete run, with snapshots that ignore orders on their way, that ends with two live orders of one quote |
| `Settling.TruthIsPossible` | crates/pm-executor/src/order_manager.rs:52-60 | every state has a snapshot that lists exactly what is live, so the rounds below can always take place |
| `Settling.TrustedRound` | crates/pm-executor/src/order_manager.rs:94-259 | what one round from a trusted working set makes of each quote and its live order |
| `Settling.TwoRoundsConverge` | crates/pm-executor/src/order_manager.rs:94-259 | from any state with nothing on its way two truthful rounds leave exactly the desired quotes live, each at its terms or not to be replaced |
| `Settling.SilentExactly` | crates/pm-executor/src/order_manager.rs:138-185 | from there a round says nothing if and only if no quote is both materially different and past its cooldown |
| `Settling.ThreeRoundsSettle` | crates/pm-executor/src/order_manager.rs:94-280 | from any state of any run three truthful rounds, the last a cooldown later, leave no live order materially different from its desired quote |
| `Settling.SettledForGood` | crates/pm-executor/src/order_manager.rs:94-280 | and then any number of truthful rounds at any times says nothing and changes nothing |
| `FillAccounting.InventoryStore.ApplyDelta` | crates/pm-strategy/src/runtime.rs:440-461 | the position of the delta's asset and side grows by it; all others stay |
| `FillAccounting.KeysAreInjective` | crates/pm-strategy/src/runtime.rs:476-478 | position keys never collide, even for asset ids with colons |
| `FillAccounting.ReportedIsOnePass` | crates/pm-executor/src/order_manager.rs:198-259 | the deltas of a run's outcomes, resync-pending snapshots included, are those of all its fills in one snapshot |
| `FillAccounting.AllRemembered` | crates/pm-executor/src/order_manager.rs:282-288 | after a run exactly the ids of all its fills are remembered |
| `FillAccounting.OneDeltaPerFill` | crates/pm-executor/src/order_manager.rs:198-259 | over any run of reconciliations the outcomes carry one delta per distinct fill id |
| `FillAccounting.DistinctFills` | crates/pm-executor/src/order_manager.rs:286-288 | the fills counted have distinct ids and cover every id |
| `FillAccounting.CarriedNotionalExact` | crates/pm-executor/src/order_manager.rs:290-296 | a notional arrives unchanged if and only if it fits a u64 |
| `FillAccounting.FillsCountOnce` | crates/pm-strategy/src/runtime.rs:440-461 | after any run of reconciliations, folding the deltas of its outcomes leaves, per asset and side, the saturating totals of the distinct fills |
| `Units.ParseUnits` | crates/pm-executor/src/order_manager.rs:304-322 | the padding loop computes the lenient value |
| `Units.ParseScaled` | crates/rtt-core/src/hot_state.rs:667-693 | the padding loop computes the optional value |
| `Units.FormatScaled` | crates/rtt-core/src/hot_state.rs:695-707 | the popping loop prints the number without trailing zeros |
| `Units.ParsersReadDecimals` | crates/rtt-core/src/hot_state.rs:667-693 | both parsers read every plain decimal in range as its exact value |
| `Units.ParseOfFormat` | crates/pm-executor/src/order_manager.rs:304-328 | what printing then parsing makes of any amount, beyond the u64 range too |
| `Units.UnitsRoundTrip` | crates/pm-executor/src/order_manager.rs:304-328 | printing then parsing is the identity if and only if the amount fits a u64 |
| `Units.TrimmedShape` | crates/pm-strategy/src/runtime.rs:506-514 | the strategy's and the hot state's trimming printers print the same text |
| `Units.TrimmedRoundTrip` | crates/pm-strategy/src/runtime.rs:480-514 | trimming and parsing with either parser is the identity on every u64 |
| `DecimalForms.NumbersExactly` | crates/pm-executor/src/order_manager.rs:304-322 | a part is a number if and only if it is digits, with or without one plus sign, of a value in the u64 range |
| `DecimalForms.LenientExactly` | crates/pm-executor/src/order_manager.rs:304-322 | the lenient parser on any text at all: unreadable parts count as zero, the fraction is cut or padded to six characters, and too large a sum saturates |
| `DecimalForms.ScaledExactly` | crates/rtt-core/src/hot_state.rs:667-693 | the hot state's parser reads a value if and only if the text is, between any spaces, a number with an optional number after one dot, and the value fits |
| `DecimalForms.PrintedExactly` | crates/pm-executor/src/order_manager.rs:324-328 | a printed amount is the whole part without leading zeros, a dot and exactly six decimals; trimmed, it has no trailing zero or dot |
| `Amounts.ParseScaledDecimal` | crates/rtt-core/src/clob_order.rs:100-183 | the scan returns the value, or exactly the error, that the text deserves |
| `Amounts.StrictExactly` | crates/rtt-core/src/clob_order.rs:100-183 | success if and only if the text is a well-formed decimal of at most six decimals that fits, with that value |
| `Amounts.AllParsersAgreeExactly` | crates/rtt-core/src/clob_order.rs:100-183 | strict, lenient and optional parser read the same number if and only if the text is a decimal with a whole digit, six decimals at most and a value in the u64 range |
| `Amounts.PrecisionIsRefusedOrCut` | crates/rtt-core/src/clob_order.rs:120-126 | past six decimals the strict parser refuses and the other two cut |
| `Amounts.OnlyHotStateRefusesBareFraction` | crates/rtt-core/src/hot_state.rs:673-674 | without a whole digit only the hot state's parser refuses |
| `Amounts.AmountsAreFloored` | crates/rtt-core/src/clob_order.rs:191-210 | it succeeds if and only if the product fits, with dollars the floor of price times size |
| `Amounts.SidesMirror` | crates/rtt-core/src/clob_order.rs:206-209 | buy and sell swap the amounts and fail alike |
| `DecimalForms.RefusalsExactly` | crates/rtt-core/src/clob_order.rs:100-183 | which refusal each text gets: overflow if and only if its leading digits or the whole decimal are too large, unsupported precision if and only if a seventh decimal follows leading digits that fit, invalid format otherwise |
| `DecimalForms.FirstRefusalIsReported` | crates/rtt-core/src/clob_order.rs:191-210 | the price's refusal comes first, then the size's, then an overflow of the product, which quotes both texts |
| `SubscriptionPlan.AssignShards` | crates/pm-data/src/subscription_plan.rs:80-97 | shard i is every n-th id from the i-th on |
| `SubscriptionPlan.AssignedAssetIds` | crates/pm-data/src/subscription_plan.rs:99-111 | the configured shard, with the index clamped |
| `SubscriptionPlan.ShardsPartition` | crates/pm-data/src/subscription_plan.rs:80-97 | every desired id is in exactly one shard and no other id in any |
| `SubscriptionPlan.ShardSize` | crates/pm-data/src/subscription_plan.rs:92-94 | the exact size of every shard |
| `SubscriptionPlan.ShardsAreEven` | crates/pm-data/src/subscription_plan.rs:92-94 | shard sizes differ by one at most |
| `SubscriptionPlan.ShardAscends` | crates/pm-data/src/subscription_plan.rs:92-94 | each shard is in ascending order |
| `SubscriptionPlan.AssignedExactly` | crates/pm-data/src/subscription_plan.rs:99-111 | client i of n takes every n-th id from the i-th on; an index past the end takes what the last client takes; no shards is one shard |
| `SubscriptionPlan.ClientsPartition` | crates/pm-data/src/subscription_plan.rs:80-111 | n clients that differ only in their index, 0 to n - 1, together serve each desired id exactly once and nothing else |
| `SubscriptionPlan.DiffExactly` | crates/pm-data/src/subscription_plan.rs:69-78 | what is new, gone and kept, each in ascending order |
| `SubscriptionPlan.AppendBatched` | crates/pm-data/src/subscription_plan.rs:149-165 | the batching loop appends the batches, pacing all but a plan's very first |
| `SubscriptionPlan.PlanCommands` | crates/pm-data/src/subscription_plan.rs:113-147 | removals batched, then additions batched |
| `SubscriptionPlan.PlanReachesShard` | crates/pm-data/src/subscription_plan.rs:113-147 | applying the plan to the current set gives the assigned shard |
| `SubscriptionPlan.PlanIsMinimal` | crates/pm-data/src/subscription_plan.rs:113-147 | each id of the symmetric difference is named exactly once and no other id at all |
| `SubscriptionPlan.PlanIsWellBatched` | crates/pm-data/src/subscription_plan.rs:149-165 | batches are non-empty and within the limit, unsubscribes come first, only the first command is unpaced |
| `SubscriptionPlan.PlanIsFull` | crates/pm-data/src/subscription_plan.rs:118-165 | commands carry at most the configured batch size of ids, one where that is zero, and are full except the last of each operation |
| `SubscriptionPlan.PlanInRawFields` | crates/pm-data/src/subscription_plan.rs:118-165 | commands bear the configured index, or the last one's if that is past the end, and only the first is unpaced |
| `WsSession.WsClient.ReconfigureAssets` | crates/pm-data/src/ws.rs:151-179 | new desired set, issued commands, and the queue if a run is under way |
| `WsSession.WsClient.StartRun` | crates/pm-data/src/ws.rs:181-187 | a run opens an empty control queue |
| `WsSession.WsClient.Connect` | crates/pm-data/src/ws.rs:269-280 | a new connection knows nothing and replays the set desired at that moment |
| `WsSession.WsClient.SendReplay` | crates/pm-data/src/ws.rs:278-280 | the next replayed command reaches the server |
| `WsSession.WsClient.DeliverCommand` | crates/pm-data/src/ws.rs:291-298 | the next queued command reaches the server |
| `WsSession.WsClient.Disconnect` | crates/pm-data/src/ws.rs:289-352 | the connection ends, possibly with the command in hand; the queue stays |
| `WsSession.WsClient.StopRun` | crates/pm-data/src/ws.rs:245-246 | the control queue goes with the run |
| `WsSession.StepKeepsInvariant` | crates/pm-data/src/ws.rs:151-352 | every step keeps that the last mention of each id agrees with the desired shard |
| `WsSession.SessionsConverge` | crates/pm-data/src/ws.rs:151-352 | over all runs: while connected, what is still to come leads the server exactly to the assigned shard; drained means agreement |
| `WsSession.DesiredIsLastAsked` | crates/pm-data/src/ws.rs:151-179 | over all runs the desired set is the one most recently asked for |
| `WsSession.QueueConserves` | crates/pm-data/src/ws.rs:181-352 | whatever connections come and go, what was put into the control queue is, in order, what was taken out and what still waits |
| `WsSession.FlushIsARun` | crates/pm-data/src/ws.rs:151-179 | a call that nothing comes between is one of the interleavings |
| `FeedManager.PolymarketFeedManager.ReconfigureAssets` | crates/pm-data/src/feed.rs:276-295 | new list, cleared books and client; an unchanged shard touches nothing |
| `FeedManager.ManagerAgreesWithClient` | crates/pm-data/src/feed.rs:276-295 | over any sequence of requests the manager's list is the client's assigned list and the shard of the last request, early returns included |
| `FeedManager.BooksOutliveRemovals` | crates/pm-data/src/feed.rs:276-295 | over any run a book stands if and only if it was stored after its asset was last removed from the shard |
| `CircuitBreaker.SharedBreaker.CheckAndRecord` | crates/pm-executor/src/safety.rs:60-101 | a call that nothing comes between: new counters, flag and verdict |
| `CircuitBreaker.UndisturbedCall` | crates/pm-executor/src/safety.rs:60-101 | that call is four atomic steps in a row |
| `CircuitBreaker.AcceptsExactly` | crates/pm-executor/src/safety.rs:72-98 | one call passes if and only if both totals are within their limits or wrap around to them, and takes a real total past its limit only by wrapping |
| `CircuitBreaker.RefusesExactly` | crates/pm-executor/src/safety.rs:60-101 | which refusal a call gets, what it leaves in the counters, and that exactly a refusal trips |
| `CircuitBreaker.FailureTripsExactly` | crates/pm-executor/src/safety.rs:60-101 | under every interleaving, whatever the counters, a call that ends with an error leaves the breaker tripped; it is tripped only if it was before, by hand, or by a call past a limit |
| `CircuitBreaker.SaturatedOrderExactly` | crates/pm-executor/src/safety.rs:70-89 | an order whose cents saturate is accepted if and only if the total is between one cent and one past the limit, and lowers it by a cent |
| `CircuitBreaker.NeverPastLimitsExactly` | crates/pm-executor/src/safety.rs:72-98 | orders of given cents never pass the limits of any breaker within them if and only if the cents on top of the dollar limit fit a u64 |
| `CircuitBreaker.StepConsistent` | crates/pm-executor/src/safety.rs:60-101 | every atomic step of any call keeps the counters accounted for |
| `CircuitBreaker.LimitsHold` | crates/pm-executor/src/safety.rs:60-101 | under every interleaving that cannot wrap a counter, manual trips included, successes never take orders or cents past their limits |
| `CircuitBreaker.LimitsHoldExactly` | crates/pm-executor/src/safety.rs:60-101 | over all interleavings of calls for so many cents in all the limits hold if and only if those cents on top of the total fit a u64 |
| `CircuitBreaker.TripIsFinal` | crates/pm-executor/src/safety.rs:60-117 | a tripped breaker stays tripped under every interleaving, and a call that has not loaded the flag yet can only fail |
| `CircuitBreaker.TripStopsTheRest` | crates/pm-executor/src/safety.rs:60-117 | after a trip at most the calls already past the flag can still succeed |
| `CircuitBreaker.EverySlotIsUsed` | crates/pm-executor/src/safety.rs:60-101 | with dollars to spare and no manual trip exactly min(calls, orders left) succeed |
| `RateLimits.RateLimiter.TryAcquire` | crates/pm-executor/src/safety.rs:151-175 | new window and count, and the answer |
| `RateLimits.QuoteCommandThrottle.TryAcquire` | crates/pm-executor/src/execution.rs:80-99 | new window and count, and the decision with its retry time |
| `RateLimits.FixedBound` | crates/pm-executor/src/safety.rs:151-175 | the induction behind both bounds |
| `RateLimits.LimiterBound` | crates/pm-executor/src/safety.rs:151-175 | at most twice the limit in any second, and less once the clock is past the first second |
| `RateLimits.LimiterBoundExactly` | crates/pm-executor/src/safety.rs:161-165 | that bound holds of all runs if and only if the limit is at least one |
| `RateLimits.LimiterBoundIsReached` | crates/pm-executor/src/safety.rs:151-175 | a run that admits one less than twice the limit within one second |
| `RateLimits.LimiterDenialIsDeserved` | crates/pm-executor/src/safety.rs:151-175 | a call is dropped only when as many as the limit were admitted within the second ending at it |
| `RateLimits.LimiterSlidesExactly` | crates/pm-executor/src/safety.rs:132-175 | the documented sliding bound holds of all runs if and only if the limit is one, or two less than 2^64 or more |
| `RateLimits.ThrottleSlidesExactly` | crates/pm-executor/src/execution.rs:80-99 | the sliding bound holds of all runs of the throttle if and only if its limit is at most one or its window at most one millisecond |
| `RateLimits.ThrottleAdmitsBursts` | crates/pm-executor/src/execution.rs:80-99 | a run of the throttle that admits one less than twice its limit within one window |
| `RateLimits.ThrottleBound` | crates/pm-executor/src/execution.rs:80-99 | less than twice the limit in any window, and nothing with a limit of zero |
| `RateLimits.ThrottleDenialIsDeserved` | crates/pm-executor/src/execution.rs:80-99 | a command is denied only when as many as the limit were admitted within one window ending at it |
| `RateLimits.DenialNamesTheTime` | crates/pm-executor/src/execution.rs:87-92 | the retry time is later, and the next call is admitted if and only if it comes no sooner |
| `RateLimits.OrderGuard.TryAcquire` | crates/pm-executor/src/safety.rs:197-202 | succeeds exactly when nothing is in flight, and holds the guard either way |
| `ExecutionLoop.PreSignedOrderPool.Dispatch` | crates/rtt-core/src/clob_executor.rs:186-198 | the body at the cursor, or nothing once exhausted |
| `ExecutionLoop.OneTurn` | crates/pm-executor/src/execution.rs:216-395 | one turn of the loop, with every continue and break |
| `ExecutionLoop.RunExecutionLoop` | crates/pm-executor/src/execution.rs:215-396 | the loop over the shared objects ends in the state of the run, with its log |
| `ExecutionLoop.PoolNeverRunsDry` | crates/pm-executor/src/execution.rs:380-389 | no dispatch finds the pool exhausted and the k-th posts body k mod (n - n/5) |
| `ExecutionLoop.RailsHold` | crates/pm-executor/src/execution.rs:215-396 | over all runs: each dispatch follows its own permission, a dry run never dispatches or records, the guard is left as found |
| `ExecutionRails.TurnExactly` | crates/pm-executor/src/execution.rs:216-297 | a dry turn notes an order if and only if breaker flag, limiter and guard let it in, a live one dispatches if and only if the breaker's check passes too; nothing else is noted |
| `ExecutionRails.DispatchedExactly` | crates/pm-executor/src/execution.rs:280-297 | what is dispatched: a signature, or the body at the cursor if there is one |
| `ExecutionRails.StopsExactly` | crates/pm-executor/src/execution.rs:215-396 | the loop ends if and only if at the shutdown flag, a closed channel, a tripped breaker, a failed check or a reconnect |
| `ExecutionRails.NothingAfterTheEnd` | crates/pm-executor/src/execution.rs:215-396 | nothing is noted after the turn that ended the loop |
| `ExecutionRails.NothingOnceTripped` | crates/pm-executor/src/execution.rs:218-230 | a tripped breaker lets nothing more through, live or dry, over any run |
| `ExecutionRails.ReconnectIsTheLast` | crates/pm-executor/src/execution.rs:337-343 | a dispatch that ran into a reconnect trips the breaker and is the last |
| `ExecutionRails.NotedWereAdmitted` | crates/pm-executor/src/execution.rs:233-238 | over all runs each noted order is one the limiter admitted at its time |
| `ExecutionRails.RunsAreLimited` | crates/pm-executor/src/execution.rs:233-238 | over all runs with a clock that never runs backwards at most twice the limit of orders is noted in any second, one less past the first second |
| `ExecutionLoop.LimitsHoldExactly` | crates/pm-executor/src/execution.rs:263-297 | over all runs with triggers of at most so many cents the dispatches stay within the limits if and only if those cents on top of the dollar limit fit a u64 |
| `PriceLadders.PriceLadder.ApplyLevels` | crates/pm-data/src/orderbook.rs:17-22 | exactly the update's levels remain |
| `PriceLadders.PriceLadder.Upsert` | crates/pm-data/src/orderbook.rs:24-30 | the level is set, or removed for a zero size |
| `PriceLadders.PriceLadder.Bid` | crates/pm-data/src/orderbook.rs:32-38 | a level of the ladder that no price comes after in text order, at its size; nothing only of an empty ladder |
| `PriceLadders.PriceLadder.Ask` | crates/pm-data/src/orderbook.rs:40-46 | a level of the ladder that no price comes before in text order, at its size; nothing only of an empty ladder |
| `PriceLadders.LadderHolds` | crates/pm-data/src/orderbook.rs:16-30 | after any history exactly the prices whose last word was not a removal, at their last size |
| `PriceLadders.ThreeZerosRemove` | crates/pm-data/src/orderbook.rs:24-30 | an upsert leaves its price absent if and only if its size is one of three texts of zero, has it at that size otherwise, and touches no other price |
| `PriceLadders.TextOrderIsValueOrder` | crates/pm-data/src/orderbook.rs:8-14 | between prices with equally many whole digits text order follows value, to any number of decimals |
| `PriceLadders.BestIsNumericBest` | crates/pm-data/src/orderbook.rs:32-46 | in a ladder of such prices the last level is the numeric maximum and the first the minimum |
| `PriceLadders.LongerMisleads` | crates/pm-data/src/orderbook.rs:32-38 | for any two different numbers of whole digits a ladder of two prices names the smaller as its best bid |
| `PriceLadders.WidthsExactly` | crates/pm-data/src/orderbook.rs:8-46 | every ladder of prices with a or b whole digits has its numeric best at the ends if and only if a and b are the same |
| `PriceLadders.UnitsAreValue` | crates/rtt-core/src/hot_state.rs:667-693 | the hot state reads a plain price as its value to six decimals if and only if that fits a u64 |
| `OrderBooks.OrderBookManager.ApplyBookUpdate` | crates/pm-data/src/orderbook.rs:118-124 | both ladders of the asset are replaced, others untouched |
| `OrderBooks.OrderBookManager.ApplyPriceChange` | crates/pm-data/src/orderbook.rs:126-132 | one side of one book changes, a missing size meaning removal |
| `OrderBooks.OrderBookManager.GetSnapshot` | crates/pm-data/src/orderbook.rs:134-137 | of exactly the known assets the highest bid and the lowest ask in text order |
| `OrderBooks.SideFollowsItsEvents` | crates/pm-data/src/orderbook.rs:118-168 | whatever is interleaved, one side of one book is what its own events since the last clear make of it |
| `OrderBooks.ChangeExactly` | crates/pm-data/src/orderbook.rs:126-132 | a change without a size, or with one of the three zeros, leaves the price absent; any other size leaves it there; all else stays and the asset is known |
| `OrderBooks.KnownExactly` | crates/pm-data/src/orderbook.rs:118-168 | over any history a book is known if and only if its asset was mentioned since it was last cleared |
| `OrderBooks.TopOfBookIsBest` | crates/pm-data/src/orderbook.rs:73-102 | after any interleaved history a side has exactly the prices left standing, at their last size, and its ends are the numeric best whenever those have equally many whole digits |
| `HotState.HotStateStore.RegisterMarket` | crates/rtt-core/src/hot_state.rs:112-140 | both assets registered, exactly their books refreshed |
| `HotState.HotStateStore.ApplyBookSnapshot` | crates/rtt-core/src/hot_state.rs:275-309 | the book rebuilt from the best readable levels |
| `HotState.HotStateStore.ApplyBookDelta` | crates/rtt-core/src/hot_state.rs:311-378 | one side moved by hint or by candidate, step sizes kept |
| `HotState.HotStateStore.ApplyOrderBookResolution` | crates/rtt-core/src/hot_state.rs:380-424 | the book rebuilt from a resolved snapshot |
| `HotState.HotStateStore.ApplyBestBidAsk` | crates/rtt-core/src/hot_state.rs:426-460 | both best prices with size zero, refreshed when registered |
| `HotState.HotStateStore.ApplyTickSizeChange` | crates/rtt-core/src/hot_state.rs:491-524 | new tick and new counts on both sides |
| `HotState.HotStateStore.ApplyReconnect` | crates/rtt-core/src/hot_state.rs:542-553 | exactly the books of the source are dropped |
| `HotState.AfterHolds` | crates/rtt-core/src/hot_state.rs:112-170 | in every reachable store levels count the units of their texts and the midpoint is that of the two sides |
| `HotState.MidpointIsAverage` | crates/rtt-core/src/hot_state.rs:640-651 | a midpoint exactly when both sides exist, printing what it counts, the floored average if and only if the sum fits |
| `HotState.MidpointWraps` | crates/rtt-core/src/hot_state.rs:646 | a concrete book whose midpoint is far below both its prices |
| `HotTicks.TicksAreExact` | crates/rtt-core/src/hot_state.rs:709-715 | a count exists if and only if it is the exact quotient |
| `HotTicks.CountsFollowTheBook` | crates/rtt-core/src/hot_state.rs:112-170 | in every run without a tick size change each book uses the step sizes registered last for its asset and counts by them |
| `HotTicks.StepsInRuns` | crates/rtt-core/src/hot_state.rs:275-579 | in every run each book uses the tick announced for it and not reset since, otherwise the last registered one |
| `HotTicks.CountedInRuns` | crates/rtt-core/src/hot_state.rs:275-590 | in every run a book counts by its own step sizes if every delta since they were last counted afresh found the registered tick in effect |
| `HotTicks.RunsCountExactly` | crates/rtt-core/src/hot_state.rs:311-378 | and all further deltas go on counting so if and only if no tick is announced and not reset, or the announced one is in effect the registered one |
| `HotTicks.DeltasKeepCountsExactly` | crates/rtt-core/src/hot_state.rs:340-372 | all series of deltas keep the counts right if and only if book and registry agree in effect |
| `HotTicks.TickChangeExactly` | crates/rtt-core/src/hot_state.rs:491-524 | after a tick size change that is if and only if the new tick is in effect the registered one |
| `HotAgreement.BestLevelIsBest` | crates/rtt-core/src/hot_state.rs:609-625 | the earliest of the best readable levels, and nothing only if none is readable |
| `HotAgreement.SnapshotAgreesExactly` | crates/rtt-core/src/hot_state.rs:609-625 | after a snapshot with equally many whole digits hot state and ladder have the same best price if and only if there are no levels or a readable one has the ladder's best price |
| `HotAgreement.SnapshotAgrees` | crates/rtt-core/src/hot_state.rs:609-625 | so they do whenever all levels are readable, on both sides |
| `HotAgreement.HintedDeltaExactly` | crates/rtt-core/src/hot_state.rs:343-353 | a hinted delta moves the hot side to the ladder's best price when it can be read, and to its size if and only if it does not remove the best above a level of another size |
| `HotAgreement.SizeOfTheRemovedIsKept` | crates/rtt-core/src/hot_state.rs:343-353 | a hinted removal after which the hot state shows the removed size at the next price |
| `HotAgreement.RemovalIsMissed` | crates/rtt-core/src/hot_state.rs:354-357 | a removal of the only level after which the hot state shows it at size zero |
| `HotRuns.RunsAgreeExactly` | crates/rtt-core/src/hot_state.rs:275-460 | over every run whose standing levels can be read, hot state and ladder agree on the best price all along if and only if each hint, quote and resolution is worth the best standing price and each unhinted removal leaves a price as good |
| `HotRuns.HintKeepsExactly` | crates/rtt-core/src/hot_state.rs:343-353 | one hint keeps the agreement if and only if some standing price is worth as much and none is better, or it is unreadable and none stands |
| `HotRuns.NoHintKeepsExactly` | crates/rtt-core/src/hot_state.rs:354-357 | one delta without a hint keeps it if and only if it is no readable removal or leaves a price worth at least as much |
| `HotRuns.NamedKeepsExactly` | crates/rtt-core/src/hot_state.rs:380-460 | a quote or a resolved level keeps it if and only if it is worth what the best standing price is worth, or cannot be read and none stands |
| `HotNews.SidesFollowTheirNews` | crates/rtt-core/src/hot_state.rs:112-590 | in every run each side of each book is what its own updates since the last reconnect of its source make of it, counts aside |
| `HotNews.StoreAgrees` | crates/rtt-core/src/hot_state.rs:275-460 | so in every run a side of the store agrees with the ladder told the same, as long as its news was faithful |
| `HotNews.NamedExactly` | crates/rtt-core/src/hot_state.rs:380-460 | a quote leaves both its prices at size zero, a resolution both its levels, or nothing where a text cannot be read |
| `HotNews.DeltaExactly` | crates/rtt-core/src/hot_state.rs:340-372 | a delta leaves the other side alone and of its own the named best, at its own size, the size shown before or zero; naming none, its own level or what was there |
| `HotNews.BooksExactly` | crates/rtt-core/src/hot_state.rs:275-553 | in every run there is a book if and only if an update of its key came after the last reconnect of its source |
| `HotNews.RegisteredMeaning` | crates/rtt-core/src/hot_state.rs:112-140 | the registry holds the last registration naming the asset, its sizes read where they can be; an unreadable tick size counts nothing |
| `HotNews.TextsInRuns` | crates/rtt-core/src/hot_state.rs:275-590 | in every run the market id and the texts of the step sizes of each book are those last announced, named or registered for it |
| `HotAgreement.UnhintedDeltaExactly` | crates/rtt-core/src/hot_state.rs:354-357 | a delta without a hint keeps the hot side showing the ladder's top, size included, if and only if it puts a level no worse than that or names a price worth less; an unreadable one if and only if it is a removal or puts a level behind it |

## Left out

- Sockets, TLS, the connection pool, authentication headers, order signing and JSON: a dispatch is an event with one of three answers, and a posted body counts as posted even if its request could not be built.
- Floating point: the cents of an order, which the breaker computes from two floats, are given as a natural number, and so are the breaker's limits.
- Configuration, logging, health, alerts, persistence, benchmarks, reconnect backoff and its jitter, `reconnect_count` and the retry decision: bounds read off one body.
- The market registry, universe selection, reference store, trading strategies, view resolution and `subject_key`: map writes and lookups.
- The hot state's reference entries, versions, timestamps, hashes and notices: overwritten by each update and never read by what is modelled.
- The bridge from the order manager's exposure deltas to the strategy's inventory deltas is not in the repository; the two have the same fields and are one datatype here.
- `working` quotes inside a vector: the manager works on its own copy, which a `WorkingQuote` object is cloned from and written back to, so aliasing between quotes does not arise.
- Strings are sequences of characters, not bytes: for fractions with characters outside ASCII the parsers fail alike either way, but where the bytes would be cut is not modelled.
- Concurrent overlapping calls to reconfigure the client, and overlapping calls to the rate limiter: the client's single call is interleaved with everything else, though its exclusive borrow while running forbids that, and the rate limiter is modelled one call at a time.
- Memory ordering: the breaker's steps are sequentially consistent.
- RateLimits.LimiterBound: assumes fewer than 2^64 calls, so that the count in a window cannot wrap.
- CircuitBreaker.LimitsHold: assumes counters that start within their limits and that the calls together cannot wrap, which `CircuitBreaker.LimitsHoldExactly` shows to be needed.
- RateLimits.DenialNamesTheTime: assumes a positive window and limit and a window end below 2^64.
