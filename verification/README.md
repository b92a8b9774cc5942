# Verified model of the FBYT automation engine

FBYT is a Solana vault platform. Around its on-chain program sits a trading engine: keepers that run
DCA, rebalance and grid bots at Pyth oracle prices, a leader lock that keeps two keepers apart, a small
document store with a points-and-referrals ledger on it, a rate limiter, and hand-written byte, hex and
decimal codecs. This project models those parts in Dafny and proves what they promise, over every input,
every run of ticks and every interleaving.

| module | what it models |
|---|---|
| `Arithmetic` | powers of ten, floor and truncating division |
| `Pricing` | the oracle-mid price of a trade with its staged floors, and chains of trades |
| `Trading`, `Rebalance` | the capped two-asset rebalancer and its runs at fixed prices |
| `Grid` | the grid bot, whose reference price survives between ticks |
| `Keepers` | one pass of a bot in the Rust keeper (fixed-width integers) and in the TypeScript keeper (unbounded ones) |
| `Lease` | the leader lock as interleaved steps of many keepers, with crashes |
| `DocStore`, `Users` | the keyed document table, and accounts, points and referrals on it |
| `Bookkeeping`, `BookInvariants` | the Rust keeper's tick over the store: lock, grouping, strategies, orders, bot documents |
| `BotPasses`, `BotDocuments` | what one pass of a bot does, from its strategy and from the fields of its document |
| `BotLifecycle`, `TickCompletion` | which bots a tick runs, how the bot page decides it, and when a tick goes through |
| `RateLimiter` | the windowed request counter with its lazy sweep |
| `Codec`, `FeedId`, `Decimal` | little-endian and two's-complement bytes, hex feed ids, decimal text |
| `Valuation` | the program's and the web app's valuations, the NAV, and the swap guard the keeper's quotes must pass |

`dafny verify dfyconfig.toml` checks everything.

## How the source is read

- **Integers.** TypeScript `BigInt` is unbounded and rounds towards zero. The keeper crate is excluded from
  the workspace, so its release profile has no overflow checks: what panics in a debug build wraps in a
  release build. Both are modelled as a detected `Overflow`, and the refinement theorems say exactly which
  inputs avoid it. The on-chain program is built with `overflow-checks`, so `10u128.pow` beyond 38 panics.
- **The chain.** Prices, balances and whether a swap succeeds are inputs of each pass. A trade moves exactly
  the input out and the output in (the localnet route, not live Jupiter). A price is the same each time one
  pass reads it. An address parses exactly when the chain input lists it.
- **Clocks** are parameters: the lock's clock never runs backwards, and the millisecond clock has moved on
  between two passes of one bot.
- **Atomicity.** Each account call, each bot-page call and each keeper tick is one step. Lock operations are
  the exception: every clock read, transaction, release and crash is a step of its own.
- **Ticks.** `RunOnce` collects the bots it finds with `GroupByVault`. A `World` says what the chain answers for
  each vault and what each bot's pass sees and when. Vaults and bots are taken in any order, which covers the
  sorted vaults and the arbitrary hash order of bots. An error or panic ends the tick and leaves the lock to
  expire. The bot page creates, switches and removes bots between ticks
  (`app/src/app/api/bots/route.ts:43`, and lines 31 and 45-47 of the route next to it that takes an id).
- **Documents** are maps from an enumeration of the property names in use to JSON values. In JavaScript a
  `|` of shifted bytes is a sum, since the bits do not overlap.

## Where the code and its documentation differ

The code is followed in each case.

- The lock's comment (`keeper/src/main.rs:87-89`) says that two keepers never trade concurrently. Grants
  do exclude each other, but a tick longer than its two minutes keeps trading after its grant expired.
  `SessionsOverlapIff` says when one transaction starts a second session, from every reachable state;
  `RunStaysApartIff` says when a whole run has none; `LongTickOverlaps` is a run that has one.
- The rate limiter's "within the limit" (`app/src/lib/guard.ts:18`) holds for each of its windows, not for
  every interval of a window's length. `SlidingIntervalCount` gives the number admitted in one,
  `StaysWithinLimitIff` says when it is within the limit, `SlidingIntervalBound` caps it at `2 * limit - 1`
  and `SlidingBoundIsTight` is a history that reaches this.
- A bot without a limit of its own quotes at the program's (`keeper/src/main.rs:381`), and such a quote can
  fail the program's guard through rounding alone. `KeeperSwapPassesIff` says, for every pair, amount,
  decimals and slippage, exactly when the guard lets a keeper's swap through; `DefaultSlippageCanBeRejected`
  is one it rejects. `KeeperSwapPassesGuard` and `KeeperSwapIsRejected` give margins in value and slippage.
- The two keepers are written to be the same, but differ at negative prices. `NegativePriceDiverges` says
  what each does when the price of the asset sold is negative, `NegativePriceAgreesIff` when they still
  agree, `NegativeDestinationDiverges` does it for the asset bought and `NegativePricesDiverge` for both;
  `NegativePriceTrades` is a case in which Rust trades.
- The feed-id decoders are written to be the same, but strip prefixes and read bad digits differently:
  `DecodersAgreeIff` says on which stored texts they agree.

"Apply a referral once" (`app/src/lib/users.ts:54`) does hold: `ReferralIsOnce`. It leans on no account having
the empty address, as `SecondReferralIff` shows; calls of signed-in users never create one.

## Model

| member | source | states |
|---|---|---|
| `Pricing.FairIsOneFloor` | keeper/src/main.rs:206-213 | scaling and then dividing, each with its own floor, equals one floor of the exact quotient |
| `Pricing.FairOutputBounds` | keeper/src/main.rs:206-214 | the output is at most the exact slipped value and within two units below it |
| `Pricing.FairOutputMonotone` | keeper/src/main.rs:206-214 | selling more never yields less |
| `Pricing.FairOutputAntitoneInSlippage` | keeper/src/main.rs:214 | allowing more slippage never yields more |
| `Pricing.ConversionLosesValue` | keeper/src/main.rs:200-215 | at oracle mid, a trade gives back at most the unslipped fraction of the value it takes |
| `Pricing.ChainLosesValue` | keeper/src/main.rs:200-215 | along any chain of trades the value never rises, and falls once any hop charges slippage |
| `Pricing.NoGainCycle` | keeper/src/main.rs:200-215 | no cycle of trades, at any prices, exponents and slippages, ends with more than it began with; with any slippage it ends with less |
| `Rebalance.SaleRespectsKeep` | keeper/src/main.rs:483-488 | selling back an excess value is within balance and cap, and what is left is worth at least what was to be kept |
| `Rebalance.RebalanceIsSafe` | keeper/src/main.rs:475-505 | every executed trade is funded and capped, leaves the sold leg at or above this tick's target, and at most one unit short of the target the next tick recomputes |
| `Rebalance.UncappedSaleReachesTarget` | keeper/src/main.rs:483-498 | a sale the cap does not cut is maximal: with one base unit less the leg would be worth no more than its target |
| `Rebalance.IdleIff` | keeper/src/main.rs:480-505 | nothing is traded exactly when the legs sit on target or the sale owed rounds to nothing |
| `Rebalance.DirectionByShare` | keeper/src/main.rs:482-494 | by exact shares of the total, the first asset is sold only when it is worth more than its target share, the second only when the first falls short of it |
| `Rebalance.TradesByShare` | keeper/src/main.rs:481-505 | off its share by a dollar unit, a tick does trade the excess, capped, unless the sale or its proceeds round to nothing |
| `Rebalance.UsdIsFloor` | keeper/src/main.rs:475-477 | a balance counts the whole dollars that its units times the price come to |
| `Rebalance.TradeLosesWorth` | keeper/src/main.rs:481-505 | a trade never raises the exact cross-multiplied worth of the pair, and lowers it strictly once slippage is charged |
| `Rebalance.TradesSpendWorth` | keeper/src/main.rs:481-505 | with at least one basis point of slippage, the trades of any run number at most the worth they used up |
| `Rebalance.RebalanceTerminates` | keeper/src/main.rs:475-505 | at fixed prices and any slippage, none included, some tick is idle and all later ones change nothing; with at least one basis point it comes no later than the initial worth |
| `Rebalance.FreeTradeMakesProgress` | keeper/src/main.rs:475-505 | a trade that costs nothing either uses up the one switch of direction possible at that worth or shrinks the stock being sold |
| `Grid.FillsWithinVariationFrom` | keeper/src/main.rs:523-542 | from a stored reference, the steps in force at the fills sum to at most the distance to the first price plus the variation of the prices |
| `Grid.FillsWithinVariation` | keeper/src/main.rs:523-542 | without stored state, they sum to at most the total variation of the observed prices, over every history with aborted ticks and changed steps |
| `Grid.ReferenceWasObserved` | keeper/src/main.rs:524-541 | the stored reference is always the price of some earlier completed tick |
| `Grid.FirstTickFills` | keeper/src/main.rs:524-529 | a bot's first tick fills exactly when its step rounds to nothing or is negative |
| `Grid.HoldsWithinStep` | keeper/src/main.rs:528-542 | with a positive step it holds exactly within a step of the reference, buys below it, sells above it, and moves the reference by at least a step or not at all |
| `Grid.DecideByPrices` | keeper/src/main.rs:528-538 | by the prices alone, it buys when the fall since the last fill, and sells when the rise, is more than so many basis points of it, to one price unit |
| `Grid.ReferenceMoves` | keeper/src/main.rs:524-541 | a completed tick stores the price of its fill, keeps the reference when it holds, and starts from the price it sees |
| `Keepers.RustFairOutput` | keeper/src/main.rs:200-215 | the in-place computation returns the specified price exactly when its intermediates fit u128 and overflows otherwise; slippage above 10000 bps and a zero destination price always fault |
| `Keepers.TsTradeStepwise` | app/scripts/keeper.ts:109-118 | at positive prices the reassigning computation decides the specified trade; it never trades nothing, and throws exactly on a zero destination price |
| `Keepers.TsRefinesSpec` | app/scripts/keeper.ts:141-183 | on every clean input the TypeScript pass is the common specification |
| `Keepers.RustRefinesSpec` | keeper/src/main.rs:439-545 | the Rust pass is the common specification exactly when its intermediates fit, and overflows otherwise |
| `Keepers.KeepersAgree` | keeper/src/main.rs:439-545 | both keepers pick the same direction, input, output and next grid state unless Rust overflows |
| `Keepers.StateIsReadable` | keeper/src/main.rs:524-541 | the grid price a pass stores is one that both keepers can read back |
| `Keepers.TradeOfBalanceFits` | keeper/src/main.rs:206-214 | trading a 64-bit balance between exponents at most 38 apart cannot overflow while its unslipped output is a 64-bit amount |
| `Keepers.RebalanceOfBalancesFits` | keeper/src/main.rs:475-499 | rebalancing 64-bit balances with exponents from -38 to -5 cannot overflow when each is worth a 64-bit amount of the other |
| `Keepers.NegativePriceDiverges` | keeper/src/main.rs:207-214 | selling at a negative price for one with a positive price, TypeScript is always idle, while Rust overflows on two units or more and on one unit trades at the reinterpreted price whenever that fits |
| `Keepers.NegativePriceAgreesIff` | keeper/src/main.rs:207-214 | there the keepers agree exactly on no units, or on one whose reinterpreted price fits and rounds to nothing |
| `Keepers.NegativeDestinationDiverges` | keeper/src/main.rs:206-214 | selling at a positive price for a negative one, TypeScript is always idle, while Rust overflows, buys one unit when the scaled value reaches the reinterpreted price without slippage, or is idle |
| `Keepers.NegativePricesDiverge` | keeper/src/main.rs:206-214 | with both prices negative, TypeScript trades as at the positive prices, while Rust overflows on two units or more and buys one unit with one or nothing |
| `Keepers.ZeroPriceIsIdle` | keeper/src/main.rs:206-214 | selling at a price of zero yields nothing in both, unless the exponents are more than 38 apart, where Rust overflows |
| `Keepers.NegativePriceTrades` | keeper/src/main.rs:207 | a DCA bot whose one unit at price -1 Rust sells for a huge amount |
| `Lease.GrantsExclude` | keeper/src/main.rs:90-117 | over every interleaving of clock reads, transactions, releases and crashes, no two grants are live at once |
| `Lease.LateReleaseIsHarmless` | keeper/src/main.rs:112-117 | a release by anyone but the live holder leaves the holder's row and grant in place |
| `Lease.ReleaseHandsOver` | keeper/src/main.rs:112-117 | releasing a live grant lets any waiting keeper acquire at once, however old its clock reading |
| `Lease.AcquireGrantedIff` | keeper/src/main.rs:90-111 | from every reachable state, with a clock reading of any age, an acquire is granted exactly when the row is free, its own or expired at that reading; the grant is live while the reading is younger than the TTL, and no other grant is live beside it |
| `Lease.NeverWedged` | keeper/src/main.rs:87-104 | from every reachable state, one TTL later the next keeper to read the clock is granted the lock |
| `Lease.OverlapMeansExpired` | keeper/src/main.rs:87-111 | of two keepers that trade at once in a reachable state, at least one holds an expired grant |
| `Lease.SessionsOverlapIff` | keeper/src/main.rs:87-111 | from every reachable state in which a keeper trades, another one starts beside it exactly when the row is free, its own or expired at its clock reading, and never while the first grant is live |
| `Lease.RunStaysApartIff` | keeper/src/main.rs:87-117 | at most one keeper trades all along a run exactly when no transaction of it passes the row test while another keeper is trading |
| `Lease.TimelySessionsStayApart` | keeper/src/main.rs:87-117 | over every run in which each keeper ends its tick before its recorded expiry, no two keepers ever trade at once |
| `Lease.LongTickOverlaps` | keeper/src/main.rs:335 | a run in which two keepers trade at the same time |
| `DocStore.Store.Get` | app/src/lib/db.ts:35-38 | the row under collection and id, or nothing |
| `DocStore.Store.Put` | app/src/lib/db.ts:45-48 | exactly one row is replaced |
| `DocStore.Store.Update` | app/src/lib/db.ts:51-65 | the patch is merged over the row or a bare document, the id restored, and nothing else changes |
| `DocStore.Store.Append` | app/src/lib/db.ts:68-73 | a fresh id inserts the document under it, a used one changes nothing |
| `DocStore.Store.Delete` | app/src/lib/db.ts:76-78 | exactly one row is removed |
| `DocStore.MergeTouchesPatchOnly` | app/src/lib/db.ts:57 | a merge changes the patched fields, keeps the others and never changes the id |
| `DocStore.DisjointMergesCommute` | app/src/lib/db.ts:57 | merges of different fields may be applied in either order |
| `DocStore.CollectionAfterWrite` | app/src/lib/db.ts:45-48 | a write is a write to its own collection and invisible in every other |
| `Users.GetUser` | app/src/lib/users.ts:27-29 | returns the document of the ledger's account, or nothing when there is none |
| `Users.GetOrCreateUser` | app/src/lib/users.ts:31-35 | the store's ledger gains a blank account only when it had none, and the account's document is returned |
| `Users.UpdateProfileOf` | app/src/lib/users.ts:42-52 | the ledger moves by the specified profile change, with the welcome bonus at most once, and the new document is returned |
| `Users.ApplyReferralOf` | app/src/lib/users.ts:55-64 | the ledger moves by the specified referral and the error is the specified one, in the order the checks are made |
| `Users.ReferExisting` | app/src/lib/users.ts:58-63 | from the document read first, the referral is refused or both accounts are updated |
| `Users.RecordReferral` | app/src/lib/users.ts:61-62 | the two merges from documents read before equal one atomic referral |
| `Users.ReferralAcceptedIff` | app/src/lib/users.ts:55-60 | a referral is accepted exactly between two accounts of which the referee is new or has no referrer; each refusal has its error |
| `Users.AcceptedReferralAwards` | app/src/lib/users.ts:57-63 | an accepted one gives the referee its referrer and 25 points, the referrer 50 points and one referral, and changes nothing else |
| `Users.RefusedReferralIsHarmless` | app/src/lib/users.ts:56-60 | a refused one changes no account and opens at most the referee's |
| `Users.ProfileUpdateChanges` | app/src/lib/users.ts:42-52 | an update replaces the given texts, cut to 40 and 280 characters, dates a first acceptance and gives it 100 points, and changes nothing else |
| `Users.LookupCreatesOnce` | app/src/lib/users.ts:31-35 | looking an account up changes none that exists |
| `Users.PointsAddUp` | app/src/lib/users.ts:31-64 | after every sequence of calls, each account's points are 100 for terms, 25 for being referred and 50 per account naming it; its count is that number; nobody refers themselves; all points are 100 per acceptance plus 75 per referral |
| `Users.ReferrerIsFinal` | app/src/lib/users.ts:57-58 | no later calls change or remove a recorded referrer |
| `Users.ReferralIsOnce` | app/src/lib/users.ts:54-63 | after any calls of signed-in users, once a referral of an account is accepted, every later referral of it is refused with the right error and changes nothing, whatever calls come between |
| `Users.SecondReferralIff` | app/src/lib/users.ts:58-60 | on a ledger of any origin, a second referral of an account to a known one is accepted exactly when the first named the empty address |
| `Bookkeeping.GroupByVault` | keeper/src/main.rs:340-353 | every enabled, undeleted bot of the delegate is collected once, under its own vault, and no other bot is |
| `Bookkeeping.AnswerGroups` | keeper/src/main.rs:360-384 | walks every collected vault once, with its bots in the collected order and what the chain answers for each |
| `Bookkeeping.Keeper.AcquireLock` | keeper/src/main.rs:90-111 | grants unless another holder's row is unexpired, and on the store does exactly the lock model's acquire |
| `Bookkeeping.Keeper.ReleaseLock` | keeper/src/main.rs:112-117 | deletes the row only when it names this holder |
| `Bookkeeping.Keeper.RecordOrder` | keeper/src/main.rs:548-556 | adds the order of a swap, with its amounts and signature, unless its id is taken, and touches nothing else |
| `Bookkeeping.Keeper.RecordPass` | keeper/src/main.rs:557-563 | rewrites one bot's document with its run counted, its time and its grid price, all other fields kept |
| `Bookkeeping.Keeper.Record` | keeper/src/main.rs:434-563 | the swap sent is counted first, then its order written, then the bot's document |
| `Bookkeeping.Keeper.RunVisit` | keeper/src/main.rs:383-564 | one bot's pass over the store: an error writes nothing and stops the tick |
| `Bookkeeping.Keeper.RunVisits` | keeper/src/main.rs:383-564 | the loop over a vault's bots, stopping at the first error |
| `Bookkeeping.Keeper.RunVault` | keeper/src/main.rs:360-382 | skips a bad address or a foreign delegate, fails on an unreadable vault, else runs its bots |
| `Bookkeeping.Keeper.RunVaults` | keeper/src/main.rs:360-565 | the loop over vaults, stopping at the first error |
| `Bookkeeping.Keeper.RunOnce` | keeper/src/main.rs:319-570 | the whole tick, collecting its bots from the store, is the tick of the books over exactly the collected groups: nothing without the lock, and a lock left behind by an error |
| `BookInvariants.OrderIdInjective` | keeper/src/main.rs:549 | an order id determines its millisecond and its bot |
| `BookInvariants.SpreadVisitsOnce` | keeper/src/main.rs:342-384 | a tick over bots grouped under their own vaults visits no bot twice |
| `BookInvariants.CollectedIsSpread` | keeper/src/main.rs:342-353 | the collected groups are such a grouping |
| `BookInvariants.OrdersMatchSwaps` | keeper/src/main.rs:434-556 | over every run of completed, refused or aborted ticks that collect their bots, and of bot edits, a bot's orders number the swaps sent for it and never exceed its run count; every order tells of a swap sent, with its mints, amounts and signature, and every swap has its order |
| `BookInvariants.OrdersStayMatchedIff` | keeper/src/main.rs:548-556 | a bot whose orders match its swaps stays matched after its next swap exactly when no order carries that millisecond |
| `BookInvariants.TickLeavesOthersAlone` | keeper/src/main.rs:343-353 | a tick, aborted or not, leaves disabled, deleted and other delegates' bots and their orders as they were, keeps every bot's settings, and writes no other collection |
| `BookInvariants.AbortedTickBlocks` | keeper/src/main.rs:335-338 | a completed tick leaves no lock; an aborted one makes every other holder's tick do nothing until the expiry, and not after |
| `BookInvariants.EligibleBotsRun` | keeper/src/main.rs:383-563 | a vault that goes through has run each eligible bot once, from its own document |
| `BookInvariants.CompletedTickHandlesEveryBot` | keeper/src/main.rs:343-565 | a completed tick has run every eligible bot of every open vault and left those of skipped vaults unchanged |
| `TickCompletion.VisitsGoThroughIff` | keeper/src/main.rs:383-564 | the bots of a vault are all taken unless the pass of an eligible one fails; a swap does not end the tick |
| `TickCompletion.GroupsGoThroughIff` | keeper/src/main.rs:360-565 | a vault with a bad address or a foreign delegate is passed over, an unreadable one ends the tick |
| `TickCompletion.TickGoesThroughIff` | keeper/src/main.rs:335-569 | a tick that gets the lock goes through exactly when every vault it collected can be read and every pass of an open one succeeds; one that does not get it does nothing |
| `BotLifecycle.EligibleIff` | keeper/src/main.rs:343-347 | a bot is run by a delegate exactly when its document says it is enabled, does not say it is deleted, and names the delegate |
| `BotLifecycle.TickSkipsBotsThatSitOut` | keeper/src/main.rs:343-353 | read off the document, a bot not enabled, deleted or of another delegate keeps its document, orders and swaps in every tick |
| `BotLifecycle.TickHandlesActiveBots` | keeper/src/main.rs:343-565 | an enabled, undeleted bot of the delegate has its turn in every tick that goes through, under the vault its document names |
| `BotLifecycle.SwitchedOffBotRests` | keeper/src/main.rs:344-347 | over every run of ticks and edits, nothing is traded or recorded for a bot from its switching off until it is switched on again |
| `BotLifecycle.RemovedBotNeverTrades` | keeper/src/main.rs:345-347 | nothing is ever traded or recorded for a removed bot again, not even after it is switched on |
| `BotLifecycle.CreatedBotIsActive` | app/src/app/api/bots/route.ts:43 | a new bot is active for its delegate and vault with its strategy and no runs, and no other bot changes |
| `BotLifecycle.CreatedTwiceIsIgnored` | app/src/lib/db.ts:68-73 | creating a bot under an id in use changes nothing |
| `BotLifecycle.SwitchedOnBotIsActive` | keeper/src/main.rs:344-347 | switching on makes a bot active unless it was removed, and keeps its record |
| `BotLifecycle.EditsTouchOneBot` | app/src/lib/db.ts:51-65 | switching or removing a bot touches no other |
| `BotLifecycle.CreatedBotIsHandled` | keeper/src/main.rs:340-565 | the next tick of its delegate that goes through gives a new bot its turn |
| `BotPasses.DcaPassBuys` | keeper/src/main.rs:440-451 | a DCA pass swaps exactly its amount at the slipped price, nothing when that rounds to nothing, and aborts when the swap fails |
| `BotPasses.RebalancePassSells` | keeper/src/main.rs:452-506 | a rebalance pass sends the rebalancer's decision and never more than the vault holds or the cap allows |
| `BotPasses.GridPassRefinesGrid` | keeper/src/main.rs:507-543 | a completed grid pass moves the document's price as the grid specification does and swaps only on a buy or sell |
| `BotPasses.GridPassTrades` | keeper/src/main.rs:507-543 | a grid pass sells its amount of the quote asset on a buy and of the base asset on a sell, at the slipped price, and nothing in between |
| `BotPasses.GridSwapsWithinVariation` | keeper/src/main.rs:507-563 | over every run of passes, aborted anywhere, the steps in force at the swaps a fresh grid bot sent sum to at most the variation of the prices it read, and its document ends with one of them |
| `BotDocuments.DcaBotSpends` | keeper/src/main.rs:385-451 | read off its document, a DCA bot spends its `inputAmount` of its `inputMint` on its `outputMint`, at its own slippage or the vault's |
| `BotDocuments.RebalancerSellsOverweight` | keeper/src/main.rs:385-506 | read off its document, a rebalancer sells `assetA` only above its `targetABps` share, 5000 by default, and `assetB` only below it, within its balance and `maxTradeAmount` |
| `BotDocuments.GridBotTrades` | keeper/src/main.rs:385-543 | read off its document, a grid bot spends `tradeAmount` of `quoteMint` after a fall of its `baseMint` price by `stepBps`, 200 by default, of `baseMint` after a rise, and stores the price of the fill |
| `BotDocuments.DcaIsRead` | keeper/src/main.rs:441-447 | every DCA strategy object is read field by field, with its defaults |
| `BotDocuments.RebalancerIsRead` | keeper/src/main.rs:453-460 | every rebalance strategy object is read field by field, with its defaults |
| `BotDocuments.GridIsRead` | keeper/src/main.rs:508-515 | every grid strategy object is read field by field, with its defaults |
| `BotDocuments.UnknownStrategyDoesNothing` | keeper/src/main.rs:544 | a bot of no known strategy trades nothing and stores nothing |
| `BotDocuments.PassNeedsPrices` | keeper/src/main.rs:392-412 | a pass fails on a mint that is no address or a price it needs and cannot read; a DCA bot with nothing to spend needs none |
| `BotDocuments.GridWatchesWithoutQuote` | keeper/src/main.rs:516-542 | without the quote asset's price a grid pass fails exactly when it would trade |
| `BotDocuments.PassIsRecorded` | keeper/src/main.rs:557-563 | a completed pass counts one more run, from none when there is no count, dates it, stores the grid price, and keeps every other field |
| `RateLimiter.Limiter.RateLimit` | app/src/lib/guard.ts:19-29 | the answer and the whole new bucket map, swept or not |
| `RateLimiter.Limiter.SweepExpired` | app/src/lib/guard.ts:24 | deleting while iterating removes exactly the expired buckets |
| `RateLimiter.SweepTransparent` | app/src/lib/guard.ts:22-28 | under a non-decreasing clock every history is answered as by one never-evicted counter per key |
| `RateLimiter.SharedWindowAdmitsMin` | app/src/lib/guard.ts:22-28 | in the shared, swept map, after any past and among any keys, a window admits exactly the smaller of its requests and the limit from the request that opens it |
| `RateLimiter.WindowEndsOnTime` | app/src/lib/guard.ts:22-28 | in the shared map, whatever is requested and swept meanwhile, a window lasts exactly as long as its opening request asked; until then requests count against it, and the first one after it is admitted and opens the next |
| `RateLimiter.WindowAdmitsMin` | app/src/lib/guard.ts:22-28 | the same for one counter of its own |
| `RateLimiter.SlidingCount` | app/src/lib/guard.ts:19-29 | one key's requests within less than a window are admitted exactly as the open window's remainder and then one more limit allow |
| `RateLimiter.SlidingBound` | app/src/lib/guard.ts:19-29 | so they are at most twice the limit less one, and at most the limit when no window is open |
| `RateLimiter.SlidingIntervalCount` | app/src/lib/guard.ts:19-29 | the same exact count for the shared, swept map, after any past and over any interleaving of keys |
| `RateLimiter.SlidingIntervalBound` | app/src/lib/guard.ts:19-29 | in it no interval shorter than a window admits more than twice the limit less one |
| `RateLimiter.StaysWithinLimitIff` | app/src/lib/guard.ts:18-29 | such an interval stays within the limit exactly when the open window admits none of its requests, or what it admits and the requests after it are together no more than the limit |
| `RateLimiter.SlidingBoundIsTight` | app/src/lib/guard.ts:19-29 | for every key, limit and window of at least two milliseconds, a history on the empty shared map attains the bound |
| `Codec.WriteLe` | app/scripts/bootstrap.ts:91-99 | the loop fills the array with the low bytes, least significant first |
| `Codec.Concat` | app/scripts/bootstrap.ts:81-90 | the running-offset copy yields the parts one behind the other |
| `Codec.ReadI64` | app/src/lib/nav.ts:48-53 | the loop reads the two's-complement value of eight bytes, and throws when the buffer is too short |
| `Codec.ReadI32IsSigned` | app/src/lib/nav.ts:54-57 | the shifted bytes are the two's-complement value of four bytes |
| `Codec.TsReadPrice` | app/src/lib/nav.ts:60-63 | reads what Rust reads from every account long enough; a missing price throws and a missing exponent reads as zero |
| `Codec.SignedRoundTrip` | app/src/lib/nav.ts:48-57 | for every width, writing then reading is the identity on the signed range and wraps into it elsewhere |
| `Codec.LeReadsBack` | app/scripts/bootstrap.ts:91-99 | `le` then the readers is the identity on signed 64-bit and 32-bit values |
| `Codec.PriceRoundTrip` | app/scripts/bootstrap.ts:117-135 | every 64-bit price injected is read back with exponent -8 at offsets 73 and 89 |
| `Codec.RouteDataAgrees` | keeper/src/main.rs:236-237 | both keepers send the same swap bytes, which carry the amounts exactly when they fit 64 bits |
| `FeedId.RustFeed32` | keeper/src/main.rs:144-156 | the loop decodes as specified and panics exactly on a text shorter than 64 digits |
| `FeedId.TsFeed32` | app/src/lib/program.ts:30-38 | the loop decodes as specified, bad digits included |
| `FeedId.FeedId66` | app/scripts/e2e-trade.ts:67 | the prefixed hex text, cut or zero-padded to 66 bytes |
| `FeedId.ShortTextIsPadded` | app/scripts/e2e-trade.ts:67 | a text that is too short is padded with NULs only |
| `FeedId.DecodersAgree` | keeper/src/main.rs:144-156 | both decoders return the spelled bytes of every well-formed stored id, prefixed or bare |
| `FeedId.DecodersAgreeIff` | keeper/src/main.rs:144-156 | over every ASCII text of 66 bytes, both decoders give the same id exactly when Rust is left with 64 characters and each pair falls in the classes both read alike |
| `FeedId.PairReadAlikeIff` | keeper/src/main.rs:153 | every pair of characters that the two byte parsers read as the same byte, by character classes |
| `FeedId.FeedIdRoundTrip` | app/src/lib/program.ts:30-38 | every 32-byte id printed into 66 bytes is given back by both decoders |
| `FeedId.DoubledPrefixDiffers` | keeper/src/main.rs:150-154 | on a doubled prefix Rust strips both and panics, while TypeScript strips one and returns a zero byte and the digits |
| `FeedId.CaseIsIgnored` | keeper/src/main.rs:150-154 | upper-case and lower-case texts of one id decode alike in both languages |
| `FeedId.DigitsAre0To15` | keeper/src/main.rs:153 | the digits 0 to 9, a to f and A to F are worth 0 to 15, and nothing else is a digit |
| `Decimal.ShownIntReadsBack` | keeper/src/main.rs:524-533 | a price printed by either keeper is parsed back unchanged by both |
| `Decimal.RustReadsDigits` | keeper/src/main.rs:443-447 | Rust reads digits, with or without a plus, as their value if it fits 128 bits, and a minus only for a stored price |
| `Decimal.RustRejectsOthers` | keeper/src/main.rs:443-447 | and no other text, so the amount counts as zero |
| `Decimal.BigIntReadsDigits` | app/scripts/keeper.ts:145-174 | JavaScript reads the same digits, signed or not and padded with white space, as their exact value |
| `Decimal.PrefixedDigitsRead` | app/scripts/keeper.ts:145-174 | and a hexadecimal, octal or binary number behind its prefix |
| `Decimal.BlankReadsAsZero` | app/scripts/keeper.ts:145-174 | and a blank text as zero, which Rust rejects |
| `Decimal.ReadAmountsAgree` | keeper/src/main.rs:443-447 | whatever Rust reads as an amount, JavaScript reads as the same one |
| `Decimal.ToBaseUnitsIsFloor` | app/src/lib/format.ts:27-32 | on every well-formed non-negative decimal, padded with white space or not, the result is the floor of value times ten to the decimals |
| `Decimal.ToBaseUnitsIgnoresZeros` | app/src/lib/format.ts:28-30 | leading zeros and trailing zeros of the fraction change nothing |
| `Decimal.ToBaseUnitsDefaultsWhole` | app/src/lib/format.ts:30 | a missing whole part reads as zero |
| `Valuation.ValuationsAgree` | programs/fbyt_vault/src/util.rs:51-62 | the program returns the app's value, `CalculateOverflow` exactly when that needs 128 bits or more, and a panic exactly beyond a scaling exponent of 38 |
| `Valuation.OracleErrors` | programs/fbyt_vault/src/util.rs:43-51 | an oracle unapproved, with a bad feed, without a fresh price or with a price not positive is refused with the error of the first check it fails |
| `Valuation.SplitLosesAtMostOne` | programs/fbyt_vault/src/util.rs:52-62 | valuing a holding in two parts loses at most one micro-USD, and nothing when no division happens |
| `Valuation.WholeDollarsAreMillions` | programs/fbyt_vault/src/util.rs:32-36 | units and price that come to v whole dollars, at any decimals and negative exponent, are worth exactly v million micro-USD |
| `Valuation.ComputeNav` | app/src/lib/nav.ts:74-113 | the loops report the priced, non-empty holdings of the deduplicated mints, their sum, and the profit in basis points; they throw exactly when a held mint's price account is too short |
| `Valuation.ThrowsIff` | app/src/lib/nav.ts:48-63 | the computation throws for a held mint exactly when its price account has fewer than 81 bytes |
| `Valuation.HoldingIsProgramValue` | app/src/lib/nav.ts:83-108 | a held mint with a positive price is reported with its own balance and decimals and at the value that the program answers for it |
| `Valuation.NavIsProgramTotal` | app/src/lib/nav.ts:77-110 | the total is the sum of the program's answers for the set of mints, each once, whenever the program can answer |
| `Valuation.ProfitIsRounded` | app/src/lib/nav.ts:111-112 | the profit in basis points has the sign of what was gained and is the exact one rounded towards zero |
| `Valuation.NothingRaisedNoProfit` | app/src/lib/nav.ts:112 | without anything raised the profit is zero |
| `Valuation.NavIsSetWorth` | app/src/lib/nav.ts:75-110 | the total is the value of the set of mints |
| `Valuation.NavIgnoresOrderAndDuplicates` | app/src/lib/nav.ts:74-75 | permuting or duplicating registry entries never changes the total |
| `Valuation.HoldingsAreDistinct` | app/src/lib/nav.ts:75-109 | no mint is reported twice, and exactly the priced mints with a balance are reported |
| `Valuation.SwapKeepsValue` | programs/fbyt_vault/src/instructions/swap.rs:201-215 | valued as the program does, a keeper trade keeps its unslipped part to within two output units and three micro-USD |
| `Valuation.SwapLosesValue` | programs/fbyt_vault/src/instructions/swap.rs:201-215 | and brings in at most the unslipped part of one micro-USD more than it spends |
| `Valuation.KeeperSwapPassesIff` | programs/fbyt_vault/src/instructions/swap.rs:201-221 | for every priced pair, amount, decimals of either mint, slippage and limit, the guard passes exactly when the exact quotient of the prices reaches what the least sufficient output amount needs before slippage; this covers the default of slippage at the limit |
| `Valuation.KeeperSwapPassesGuard` | programs/fbyt_vault/src/instructions/swap.rs:201-221 | into a mint with no more decimals, a slippage margin that covers two output units and three micro-USD always passes |
| `Valuation.KeeperSwapIsRejected` | programs/fbyt_vault/src/instructions/swap.rs:201-221 | into a mint with more decimals, which the keeper ignores, the guard is ten times stricter for each; it always rejects once that exceeds what the slippage leaves |
| `Valuation.ExcessSlippageIsRejected` | programs/fbyt_vault/src/instructions/swap.rs:216-221 | at equal decimals, a slippage far enough over the limit for the value sold is always rejected |
| `Valuation.DefaultSlippageCanBeRejected` | keeper/src/main.rs:381 | a trade quoted at exactly the program's limit, as by default, that the guard rejects |

## Left out

- Pricing.FairOutputBounds: covers non-negative source prices and slippage up to 10000 bps; beyond them `fair_output` faults or reinterprets the sign, which `Keepers.RustFair` models.
- Lease.GrantsExclude: bounds grants, not trading sessions, as the code does.
- Keepers.RustRefinesSpec: a wrapped result of an unchecked release build is not computed, only that the arithmetic left its range; an exponent difference outside 32 bits is not wrapped, since the power of ten overflows there anyway.
- Users.PointsAddUp: calls carry a non-empty address and a clock past zero; JavaScript treats the empty string and zero as absent.
- Users.UpdateProfileOf: the 40 and 280 limits count Unicode scalars; JavaScript counts UTF-16 units, so text beyond the basic plane is cut earlier there.
- Users.ReferralIsOnce: two concurrent calls that interleave inside one account operation are not modelled; each call is one step.
- BookInvariants.OrdersMatchSwaps: assumes no database fault between a sent swap and its record, a clock that has moved on between passes of a bot, and no bot edit during a tick; a swap that landed although its confirmation failed counts as not sent.
- BotPasses.GridSwapsWithinVariation: both assets have positive prices in every pass; a pass whose price cannot be fetched aborts and observes nothing.
- FeedId.DecodersAgreeIff: covers ASCII text; decoding of other bytes by `TextDecoder` is not modelled.
- Decimal.ToBaseUnitsIsFloor: a negative number of decimals, which throws in `repeat`, is not an input; text that is not a plain decimal is modelled by `ToBaseUnits` but nothing is promised of it.
- Valuation.ComputeNav: a missing vault, which returns null before the loop, is not an input; the floating-point `priceUsd` of a holding is not reported, and the profit is not rounded to a double.
- Valuation.KeeperSwapPassesGuard: sufficient, not necessary, and empty at slippage equal to the limit; `KeeperSwapPassesIff` decides every case.
- The instruction handlers (deposit, withdraw, fees, registry, launches) are not modelled, except for the swap's slippage guard.
- `grow_registry`, `read_token_amount` and the feed-id parsing of the Pyth SDK behind `feed_id_of`.
- The TypeScript keeper's outer loops: they catch errors per bot, take no lock and do not filter deleted bots; only its pass is modelled.
- Live Jupiter routes, RPC, program-derived addresses, signing and the generated clients.
- SQLite itself: journalling, busy errors other than a failed lock transaction, and malformed rows.
- Sessions and signatures (HMAC, Ed25519), the same-origin check and client addresses.
- React pages, display formatting in floating point, and the end-to-end scripts beyond their codecs.
