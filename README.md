# Arbitrage backend — a verified model

This project models the arbitrage engine of a NestJS backend that trades one
base/quote token pair across two Uniswap-V3-style venues (Uniswap V3 and
PancakeSwap V3). It also models two small scripts: the metrics CSV export and the
post-build import fixer. The modelled behaviour is:

- **Fixed-point formatting.** `bigIntToDecimalString` prints a BigInt divided by
  a scalar as `int.frac` (module `Numbers`).
- **The venue adapter** (`UniswapV3Adapter`, module `Pool`):
  - turning a Q64.96 square-root price into an 18-digit decimal price;
  - building the approval and swap transactions;
  - quoting exact-in and exact-out intents.
- **Price reading and spread classification.** These are shared by the monitor
  and the polling classifier (module `Prices`). A venue's trading pair is looked
  up, the pool price is oriented as quote per base, and the spread sign picks
  the venue to buy on.
- **The arbitrage monitor** (`TraderObserver`, module `Observer`). It covers:
  - watcher bookkeeping;
  - the in-flight guard;
  - the threshold check;
  - the two-leg trade with its abort points;
  - nonce sequencing, the transaction counter and the metric row.
- **The polling classifier** (`TraderPollingService`, module `Polling`).
- **Pair fan-out** (module `FanOut`). `TraderObserverService.onModuleInit` and
  `TraderController.startPolling` group the pairs by a `base:quote` key and
  start one worker per key listed on both venues that is not yet running.
  `String.split`/`Array.join` on one separator are in module `Strings`.
- **The CSV export** (module `MetricsCsv`): `escapeCsv`, `toCsv` and the rows
  built by `exportMetrics`. A reader for the format proves the round trip.
- **The import fixer** (module `JsExtensions`): `resolveTarget`, the skip
  predicate, the three replace passes and the write decision of `processFile`.

Each stateful part is a class whose methods are proved against specification
functions. Examples are `Decide` and `PlanTrade` for the monitor, `GroupSpec`
and `NewKeys` for the fan-out, and `PassSpec` and `RewriteAll` for the import
fixer. The properties the source promises are proved as lemmas about those
functions.

Chain reads, database rows and the file system are parameters:

- a `Repository` snapshot of the trading-pair and token rows;
- a `CycleView` record of what the node answers during one arbitrage cycle
  (balances, quotes, allowances, the clock, which sends the node accepts);
- pool state and quoter functions;
- a `Disk` oracle for the import fixer.

Prices are exact `real`s.

## Model

| member | source | states |
|---|---|---|
| Numbers.BigIntToDecimalString | backend/src/utils/numbers.ts:16-30 | Fails (division by zero) exactly when the scalar is 0; otherwise prints quotient and trimmed, padded remainder |
| Numbers.QuotRemNonNegative | backend/src/utils/numbers.ts:17-18 | BigInt `/` and `%` agree with Euclidean division on non-negative operands |
| Numbers.QuotAbs | backend/src/utils/numbers.ts:17 | The BigInt quotient `Quot` has magnitude floor(|a| / |b|) and is positive only for operands of one sign, negative only for operands of opposite signs |
| Numbers.RemAbs | backend/src/utils/numbers.ts:18 | The BigInt remainder `Rem` is the remainder of the magnitudes, with the sign of the dividend |
| Numbers.QuotRemTruncate | backend/src/utils/numbers.ts:17-18 | BigInt division truncates toward zero for operands of any sign: |q|·|b| ≤ |a| < (|q|+1)·|b|, and the remainder is smaller than |b| and never of the opposite sign to the dividend |
| Numbers.TrimTrailingZeros | backend/src/utils/numbers.ts:23 | The result is a prefix not ending in '0' and everything removed is '0' |
| Numbers.PadStart | backend/src/utils/numbers.ts:21 | The padded length is the larger of the input length and the target |
| Numbers.NatToString | backend/src/utils/numbers.ts:25-29 | `toString` of a non-negative integer is a non-empty digit string without a leading zero |
| Numbers.NatToStringValue | backend/src/utils/numbers.ts:25-29 | The numeral `toString` prints denotes the number |
| Numbers.IntToStringValue | backend/src/utils/numbers.ts:26-29 | `IntToString` starts with '-' exactly for a negative integer, and the rest is the digits of its magnitude |
| Numbers.DecimalStringExample | backend/src/utils/numbers.ts:13 | `(123456789, 1000000)` prints "123.456789" |
| Numbers.DecimalStringWholeExample | backend/src/utils/numbers.ts:14 | `(1000000, 1000000)` prints "1" and 0 prints "0" |
| Numbers.DecimalStringOfPow10 | backend/src/utils/numbers.ts:17-29 | For scalar 10^d the output is the quotient's digits followed, when the remainder is non-zero, by "." and the remainder's d-digit padding with trailing zeros trimmed |
| Numbers.DecimalStringWhole | backend/src/utils/numbers.ts:18-27 | An exact division prints the bare quotient, with no point |
| Numbers.DecimalStringShape | backend/src/utils/numbers.ts:18-29 | For scalar 10^d the output has a point iff the remainder is non-zero, at most d fraction digits, never a trailing '0', and only digits elsewhere |
| Numbers.DecimalStringRoundTrip | backend/src/utils/numbers.ts:16-29 | Reading the output back as a decimal numeral gives exactly value / 10^d |
| Pool.ApproveTx | backend/src/utils/pool.ts:73-78 | The approval goes from the owner to the token contract, approves the spender for the amount, and carries no gas and no nonce |
| Pool.ApprovalCoversRequirement | backend/src/utils/pool.ts:51-72 | The approved amount covers what the swap needs: exactly that amount for a one-time approval and 2^256-1 for a permanent one |
| Pool.ApprovalCoversRouterCall | backend/src/utils/pool.ts:63-72 | `AmountInRequired` is the most the router call may spend (`amountIn` exact-in, `amountInMaximum` exact-out), and the approval sent covers it |
| Pool.RouterCallFields | backend/src/utils/pool.ts:81-158 | `RouterCallFor` keeps the intent's variant, tokens and amounts, uses the pool fee, `recipient ?? initiator` and no price limit, and carries a deadline (`deadline ?? now + 120 s`) exactly on PancakeSwap |
| Pool.SwapTxs | backend/src/utils/pool.ts:48-170 | One transaction, or two when the allowance is below the amount the swap needs, the approval coming first; every transaction comes from the initiator without a nonce; the last calls the venue's router with gas 300000 |
| Pool.QuoterCallFor | backend/src/utils/pool.ts:172-222 | The quoter call targets the venue's quoter with the pool fee and no price limit, and its variant follows the intent's |
| Pool.QuoteFor | backend/src/utils/pool.ts:179-222 | An exact-in intent yields `amountOut`, an exact-out intent `amountIn`, each the quoter's first value |
| Pool.UniswapV3Adapter.constructor | backend/src/utils/pool.ts:28-31 | The PancakeSwap call forms are chosen exactly for the PancakeSwap venue |
| Pool.UniswapV3Adapter.Swap | backend/src/utils/pool.ts:48-170 | The list built by appending is `SwapTxs` |
| Pool.UniswapV3Adapter.EncodeSwap | backend/src/utils/pool.ts:81-159 | The calldata is the PancakeSwap router form with a deadline, or the SwapRouter02 form without one |
| Pool.UniswapV3Adapter.Quote | backend/src/utils/pool.ts:172-223 | The quote returned is `QuoteFor` of the intent |
| Pool.CalculatePrice | backend/src/utils/pool.ts:271-297 | The printed price has at most 18 fraction digits and reads back as the decimal-adjusted price scaled by 10^18 and truncated |
| Pool.PrintedPrice | backend/src/utils/pool.ts:278-296 | Printing with scalar 10^18 never fails, has at most 18 fraction digits and reads back exactly |
| Pool.PriceTruncation | backend/src/utils/pool.ts:278-294 | `AdjustedPrice` over 10^18 is at most the exact price token1/token0 and less than 10^-18 below it |
| Pool.PriceTruncationUp | backend/src/utils/pool.ts:288-290 | The same bound on the branch where token0 has more decimals |
| Pool.PriceTruncationDown | backend/src/utils/pool.ts:291-294 | The same bound on the other branch |
| Pool.UnitPrice | backend/src/utils/pool.ts:278-296 | A square-root price of 2^96 between tokens of equal decimals prints "1" |
| Prices.FindPair | backend/src/traders/observer/trader-observer.ts:53-66 | The first row matching base, quote and venue, and none iff no row matches |
| Prices.OrientedOneWay | backend/src/traders/observer/trader-observer.ts:411-415 | For two distinct tokens a pool is `Oriented` for at most one role assignment, so its price is taken as it is for one and inverted for the other |
| Prices.ScaledPriceSign | backend/src/traders/observer/trader-observer.ts:406-415 | A printed price is positive iff its scaled integer is, and its inverse is then positive too |
| Prices.Observe | backend/src/traders/observer/trader-observer.ts:386-425 | Fails with an invalid price iff the printed price is zero; otherwise the price is the exact value of the printed numeral, inverted unless the pool lists base then quote |
| Prices.FetchPrice | backend/src/traders/polling/trader-polling.service.ts:86-157 | None for an unset pair; missing token metadata iff a token row is absent; otherwise an invalid price iff the printed price is zero, else the oriented positive price of that pair's pool |
| Prices.Classify | backend/src/traders/polling/trader-polling.service.ts:62-68 | Buy PancakeSwap iff the spread is positive, buy Uniswap iff it is negative, nothing iff it is zero |
| Prices.ClassifyComparesPrices | backend/src/traders/observer/trader-observer.ts:156-162 | With a positive PancakeSwap price the opportunity buys on the strictly cheaper venue, and there is none iff the prices are equal |
| Prices.SpreadRelative | backend/src/traders/observer/trader-observer.ts:156 | `Spread` times the PancakeSwap price is the price difference, and with positive prices it lies above -1 |
| Prices.ShouldTradeIff | backend/src/traders/observer/trader-observer.ts:156-174 | `ShouldTrade` holds iff the prices differ by at least `minSpreadBps` ten-thousandths of the PancakeSwap price |
| Prices.SpreadBps | backend/src/traders/observer/trader-observer.ts:165 | The spread in basis points is non-negative and zero iff the spread is |
| Observer.Decide | backend/src/traders/observer/trader-observer.ts:152-174 | No price iff a price is missing; no opportunity iff the prices are equal; a trade only when the classified spread reaches the minimum; otherwise below the minimum |
| Observer.TradeBuysWhereCheaper | backend/src/traders/observer/trader-observer.ts:156-198 | A trade buys on the strictly cheaper venue and sells on the other, never the same one |
| Observer.MinOutBounds | backend/src/traders/observer/trader-observer.ts:229-232 | `MinOut` is at most the expected output and is the floor of 99.50% of it |
| Observer.TradeSizeBounds | backend/src/traders/observer/trader-observer.ts:209-210 | `TradeSize` is the quote balance times the fraction over 10000 truncated toward zero: the floor of that share for a non-negative fraction, never above the balance for a fraction up to 10000, never positive for a non-positive fraction |
| Observer.BpsShare | backend/src/traders/observer/trader-observer.ts:209-210 | BigInt division of a share by 10000 is its floor when non-negative and never positive otherwise |
| Observer.LegMinOut | backend/src/traders/observer/trader-observer.ts:222-232 | A leg's `ExpectedOut` is the quoter's `amountOut` for the exact-in quote call, and its minimum output is the floor of 99.50% of it |
| Observer.LeadingAccepted | backend/src/traders/observer/trader-observer.ts:245-257 | The number sent before the first rejection: all before it were accepted, the one at it was not |
| Observer.WithNonces | backend/src/traders/observer/trader-observer.ts:290-295 | Each sell transaction carries the next consecutive nonce |
| Observer.NormalizedViaDecimalString | backend/src/traders/observer/trader-observer.ts:328-339 | Formatting a balance with scalar 10^decimals never fails and reads back as the exact balance in whole tokens |
| Observer.MetricOfReadsBack | backend/src/traders/observer/trader-observer.ts:326-353 | `MetricOf` is the subscription trader's row for the pair at the metric block with the given count, and each balance is what the decimal string of the raw balance over 10^decimals reads back as |
| Observer.LegTxs | backend/src/traders/observer/trader-observer.ts:222-240 | A leg is one or two transactions, all from the trader's account without a nonce |
| Observer.BuyLeg | backend/src/traders/observer/trader-observer.ts:221-240 | A positive buy builds one or two transactions from the account without nonces |
| Observer.SellLeg | backend/src/traders/observer/trader-observer.ts:269-288 | A positive sell builds one or two transactions from the account without nonces |
| Observer.TradeOf | backend/src/traders/observer/trader-observer.ts:209-305 | The cycle ends as `InsufficientQuote`, sending nothing, iff the trade size is not positive; a rejected buy ends the cycle; the sell leg runs iff every buy was accepted and the base balance grew; a metric is recorded iff the sell leg ran |
| Observer.BuyRejectionEndsCycle | backend/src/traders/observer/trader-observer.ts:245-257 | After a rejected buy only the accepted buys before it were sent, without nonces, and no sell and no metric follow |
| Observer.SellNoncesFollowBuyLeg | backend/src/traders/observer/trader-observer.ts:242-303 | When the sell leg ran, the j-th sell carries the initial transaction count plus the number of buys plus j, and a rejected sell stops the leg |
| Observer.PlannedBuyLegPrecedesSell | backend/src/traders/observer/trader-observer.ts:209-267 | Every planned trade whose sell leg ran had a non-empty, fully accepted buy leg and a grown base balance |
| Observer.InsufficientQuotePlan | backend/src/traders/observer/trader-observer.ts:209-215 | A trade size that truncates to zero sends nothing and records nothing |
| Observer.BuyRevertedPlan | backend/src/traders/observer/trader-observer.ts:245-257 | A rejected buy sends exactly the accepted prefix of the buy leg |
| Observer.NothingBoughtPlan | backend/src/traders/observer/trader-observer.ts:259-267 | A base balance that did not grow sends the whole buy leg and no sell |
| Observer.SellLegRanPlan | backend/src/traders/observer/trader-observer.ts:259-305 | Once the sell leg runs, the trade sends the buys, then the accepted sells with consecutive nonces, and records a metric |
| Observer.SellLegRanTrade | backend/src/traders/observer/trader-observer.ts:290-305 | The same in terms of the built legs |
| Observer.LegPairs | backend/src/traders/observer/trader-observer.ts:191-198 | Buying on PancakeSwap sells on Uniswap, and the other way round |
| Observer.InitOutcome | backend/src/traders/observer/trader-observer.ts:52-101 | Success iff both pairs and both token rows exist; a missing Uniswap pair is reported first, then a missing PancakeSwap pair |
| Observer.ReadBoth | backend/src/traders/observer/trader-observer.ts:147-150 | Fails iff either fetch fails, with the Uniswap error first; with both pairs known a success holds two positive prices, each from its own pair's pool |
| Observer.SettleFacts | backend/src/traders/observer/trader-observer.ts:152-179 | Fails with a null logger iff there is an opportunity and no logger; otherwise reports the prices and `Decide`'s decision, and runs `PlanTrade` on the pairs the opportunity names iff the decision is to trade |
| Observer.CycleOutcomeFacts | backend/src/traders/observer/trader-observer.ts:142-179 | With both pairs known, an update fails with the Uniswap read's error, else the PancakeSwap read's; otherwise it settles on the two prices read, positive and from the monitor's own pools |
| Observer.NullLoggerBlocksTrade | backend/src/traders/observer/trader-observer.ts:164-189 | As written, with both pairs known and no token rows, a decision to trade fails on the null logger even where initialising again would succeed and `SettleIntended` trades |
| Observer.SettleIntendedFacts | backend/src/traders/observer/trader-observer.ts:164-189 | Corrected: never fails on a missing logger; agrees with `Settle` when the token rows are known; a decision to trade without token rows fails iff initialising again fails, with its error, and otherwise trades on the rows and pairs found |
| Observer.TraderObserver.UpdateSetup | backend/src/traders/observer/trader-observer.ts:142-146 | An update initialises iff a pair was unset, and initialisation leaves both pairs as found |
| Observer.TraderObserver.AfterInitTwice | backend/src/traders/observer/trader-observer.ts:52-106 | Initialising twice leaves what initialising once does |
| Observer.TraderObserver.StartFacts | backend/src/traders/observer/trader-observer.ts:108-135 | `start` keeps the subscription iff both pairs were known before it, or else the initialisation `attachWatchers` runs succeeds, whether or not an update was in flight; a kept subscription comes with both pairs known; a skipped update leaves the activity alone; otherwise setup and activity are the update's |
| Observer.TraderObserver.constructor | backend/src/traders/observer/trader-observer.ts:16-50 | A new monitor has no pairs, no token rows, no subscriptions, is not handling and has sent nothing |
| Observer.TraderObserver.OnModuleInit | backend/src/traders/observer/trader-observer.ts:52-106 | The setup becomes `AfterInit`: both pairs are assigned before any check; the outcome is `InitOutcome`; only success sets the token rows, and the logger together with them |
| Observer.TraderObserver.Start | backend/src/traders/observer/trader-observer.ts:108-115 | Nothing while subscribed; otherwise what `Launch` does |
| Observer.TraderObserver.Launch | backend/src/traders/observer/trader-observer.ts:113-114 | The update end, setup, activity and subscriptions are `AfterStart`: the update (`Busy` while one is in flight), and `attachWatchers` deciding on the setup from before the update, because neither call is awaited |
| Observer.TraderObserver.StartComposes | backend/src/traders/observer/trader-observer.ts:113-134 | The update followed by the rest of `attachWatchers`, after a check made on the setup the update began with, is `AfterStart` |
| Observer.TraderObserver.Stop | backend/src/traders/observer/trader-observer.ts:117-122 | Every subscription is cancelled in order and none is left |
| Observer.TraderObserver.AttachWatchers | backend/src/traders/observer/trader-observer.ts:124-135 | Result and setup are `AfterAttach`: initialise when a pair is unset; the subscription is appended iff that succeeds, and then both pairs are known; the activity and the in-flight flag are left alone |
| Observer.TraderObserver.AttachAfterCheck | backend/src/traders/observer/trader-observer.ts:125-134 | After a check that found a pair unset, the result and setup are initialisation's; otherwise `Ok` and nothing changes; the subscription is appended iff the result is `Ok`; the activity and the in-flight flag are left alone |
| Observer.TraderObserver.HandlePoolUpdate | backend/src/traders/observer/trader-observer.ts:137-179 | Busy and nothing changes while an update is in flight; otherwise the flag is cleared on every way out and the result, setup and activity are `AfterUpdate`: a failed initialisation or price read ends it with that error, otherwise `Settle` decides on the two prices read, and a trade changes the activity as `PlanTrade` plans |
| Observer.TraderObserver.Update | backend/src/traders/observer/trader-observer.ts:142-175 | The guarded body: result, setup and activity are `AfterUpdate` of the state before |
| Observer.TraderObserver.PriceCycle | backend/src/traders/observer/trader-observer.ts:147-175 | The setup is unchanged, and the result and activity are `AfterCycle`: the outcome `CycleOutcome` gives for the monitor's pairs and token rows, and the activity after its trade |
| Observer.TraderObserver.ReadPrices | backend/src/traders/observer/trader-observer.ts:147-150 | Fails iff either fetch fails, with the Uniswap error first; otherwise both prices, positive and from their own venues |
| Observer.TraderObserver.Act | backend/src/traders/observer/trader-observer.ts:152-175 | The result is `Settle` of the two prices: a null-logger failure iff there is an opportunity and no logger, otherwise `Decide`'s decision; the activity is the one after the trade `PlanTrade` plans, when there is one |
| Observer.TraderObserver.ExecuteArbitrage | backend/src/traders/observer/trader-observer.ts:181-311 | Nothing without both pairs; otherwise it initialises again iff a token row is unset, fails iff that initialisation fails (with its error and no activity), and otherwise sends, counts and records as `PlanTrade` on the pairs the opportunity names |
| Observer.TraderObserver.RunTrade | backend/src/traders/observer/trader-observer.ts:206-305 | The sends, the counter and the metric log follow `PlanTrade` |
| Observer.TraderObserver.BuyAndSend | backend/src/traders/observer/trader-observer.ts:217-257 | The buy leg as built is sent until the first rejection, and the nonce advances by the number accepted |
| Observer.TraderObserver.SellAndRecord | backend/src/traders/observer/trader-observer.ts:269-305 | The sell leg is sent with consecutive nonces until the first rejection, then a metric row is written |
| Observer.TraderObserver.BuildLeg | backend/src/traders/observer/trader-observer.ts:222-240 | The leg is `LegTxs` of the quote and swap |
| Observer.TraderObserver.SendBuyLeg | backend/src/traders/observer/trader-observer.ts:245-257 | Sends until the first rejection, counting each accepted send in `txCount` |
| Observer.TraderObserver.SendSellLeg | backend/src/traders/observer/trader-observer.ts:290-303 | Gives each sell the next nonce, sends until the first rejection and counts each accepted send |
| Observer.TraderObserver.RecordMetrics | backend/src/traders/observer/trader-observer.ts:313-353 | With both token rows known, appends the subscription metric row with the current count and the balances in whole tokens; otherwise writes nothing |
| Polling.Report | backend/src/traders/polling/trader-polling.service.ts:58-83 | Nothing iff a price is missing; otherwise both prices, the spread relative to PancakeSwap and the opportunity that buys on the strictly cheaper venue |
| Polling.TraderPollingService.constructor | backend/src/traders/polling/trader-polling.service.ts:11-20 | A new service knows no pair |
| Polling.TraderPollingService.OnModuleInit | backend/src/traders/polling/trader-polling.service.ts:22-46 | Both pairs are looked up and assigned; a missing Uniswap pair fails first, then a missing PancakeSwap pair; success iff both exist |
| Polling.TraderPollingService.Poll | backend/src/traders/polling/trader-polling.service.ts:48-84 | Re-initialises when a pair is unset; with both pairs known it never yields nothing, reports the Uniswap error first, and otherwise reports both prices from the service's own pools |
| Strings.Split | backend/src/traders/observer/trader-observer.service.ts:43 | At least one piece, none containing the separator |
| Strings.SplitJoin | backend/src/traders/observer/trader-observer.service.ts:43 | Joining the pieces of a split gives the string back |
| Strings.JoinSplit | backend/scripts/export-trader-metrics.ts:23-25 | Splitting a join of separator-free pieces gives the pieces back |
| Strings.JoinChars | backend/scripts/export-trader-metrics.ts:23-25 | A join holds a non-separator character only if some piece does |
| Strings.JoinSnoc | backend/scripts/export-trader-metrics.ts:23-25 | Joining one more piece appends the separator and the piece |
| FanOut.AddressHasNoColon | backend/src/traders/observer/trader-observer.service.ts:26-28 | No address contains ':' |
| FanOut.KeySplit | backend/src/traders/observer/trader-observer.service.ts:28-43 | `KeyTokens` of the key built from a base and a quote gives back exactly that base and quote |
| FanOut.SameKeySamePair | backend/src/traders/trader.controller.ts:26-30 | Two rows share a key iff they have the same base and quote |
| FanOut.DistinctCount | backend/src/traders/observer/trader-observer.service.ts:37 | A sequence of distinct keys has as many keys as its length |
| FanOut.PresentStep | backend/src/traders/observer/trader-observer.service.ts:25-32 | A key is present after one more row iff it was before or is that row's key |
| FanOut.ListedStep | backend/src/traders/observer/trader-observer.service.ts:30-33 | A key is listed on a venue after one more row iff it was before or that row lists it |
| FanOut.GroupKeys | backend/src/traders/observer/trader-observer.service.ts:23-34 | `GroupSpec` holds every key of the rows exactly once, and no other key |
| FanOut.GroupOrderListed | backend/src/traders/observer/trader-observer.service.ts:23-37 | The keys the grouping is walked in are distinct and each has its venue set |
| FanOut.GroupVenues | backend/src/traders/observer/trader-observer.service.ts:30-33 | In `GroupSpec`, each key's set holds exactly the venues of the rows with that key |
| FanOut.GroupByKey | backend/src/traders/observer/trader-observer.service.ts:23-34 | The loop builds the grouping `GroupSpec` describes |
| FanOut.NewKeysFacts | backend/src/traders/observer/trader-observer.service.ts:37-42 | `NewKeys` is exactly the keys on both venues that were not running, each once, in the order they were first listed |
| FanOut.RepeatStartsNothing | backend/src/traders/observer/trader-observer.service.ts:42 | Running the fan-out again with the started keys running starts nothing |
| FanOut.NoneStarts | backend/src/traders/trader.controller.ts:38-43 | Nothing starts when no key read can |
| FanOut.NewKeysStep | backend/src/traders/observer/trader-observer.service.ts:37-54 | One more key read adds it to the started keys exactly when it starts |
| FanOut.PollingStartsSnoc | backend/src/traders/trader.controller.ts:48-50 | One more started key adds its service |
| FanOut.PollingStepStarts | backend/src/traders/trader.controller.ts:38-51 | A key listed on both venues and not yet registered is registered with the tokens split from it, and the count of started keys grows by one |
| FanOut.PollingStepSkips | backend/src/traders/trader.controller.ts:38-43 | A key missing a venue, or already registered before the call, starts nothing |
| FanOut.ServicesAddedCount | backend/src/traders/trader.controller.ts:37-57 | `started` equals the number of services registered |
| FanOut.PollingRepeatStartsNothing | backend/src/traders/trader.controller.ts:43-57 | A second call over unchanged rows starts nothing and changes nothing |
| FanOut.PollingStartsBothVenuePairs | backend/src/traders/trader.controller.ts:38-48 | Every new service holds the base and quote of a row whose key is listed on both venues |
| FanOut.StartPollingAsWrittenFails | backend/src/traders/trader.controller.ts:37-57 | As written, the call registers nothing, and fails iff some key should start a service, where the intended call registers every such key |
| FanOut.TraderController.constructor | backend/src/traders/trader.controller.ts:10-13 | No service is registered at first |
| FanOut.TraderController.StartPolling | backend/src/traders/trader.controller.ts:15-58 | The intended call (see Findings): the services become `ServicesAfter` the call and `started` counts the new ones |
| FanOut.LaunchesKeys | backend/src/traders/observer/trader-observer.service.ts:42-50 | Exactly the started keys get a monitor |
| FanOut.LaunchWallet | backend/src/traders/observer/trader-observer.service.ts:44-51 | The i-th started key gets wallet first + i |
| FanOut.LaunchesSnoc | backend/src/traders/observer/trader-observer.service.ts:44-51 | One more key gets the next wallet |
| FanOut.ObserverStepStarts | backend/src/traders/observer/trader-observer.service.ts:38-51 | A key on both venues and not running is added on the next wallet, extending the started keys by one |
| FanOut.ObserverStepSkips | backend/src/traders/observer/trader-observer.service.ts:38-42 | A key missing a venue or already running is skipped |
| FanOut.LaunchesKeepWalletsDistinct | backend/src/traders/observer/trader-observer.service.ts:44-51 | Handing new keys wallets from a counter above every wallet in use keeps all wallets distinct and below the advanced counter |
| FanOut.ObserversAfterKeepsWallets | backend/src/traders/observer/trader-observer.service.ts:36-51 | With the wallet counter kept across calls (`ObserversAfter`, the corrected numbering), every monitor keeps its own wallet |
| FanOut.ObserversAddedCount | backend/src/traders/observer/trader-observer.service.ts:51-57 | `started` equals the number of monitors added |
| FanOut.WalletReuseAsWritten | backend/src/traders/observer/trader-observer.service.ts:36-45 | As written, a second call that finds a new key while wallet 0 is in use hands wallet 0 out again |
| FanOut.FirstInitWalletsDistinct | backend/src/traders/observer/trader-observer.service.ts:36-51 | As written, the first call of a service hands out distinct wallets, all below the number started |
| FanOut.ObserverRepeatStartsNothing | backend/src/traders/observer/trader-observer.service.ts:42 | A second call over unchanged rows starts nothing and changes nothing |
| FanOut.TraderObserverService.constructor | backend/src/traders/observer/trader-observer.service.ts:10-12 | No monitor runs |
| FanOut.TraderObserverService.OnModuleInit | backend/src/traders/observer/trader-observer.service.ts:14-58 | The monitors become `ObserversAsWritten` of the call: every key on both venues not yet running gets a monitor, the one started `started`-th in this call on wallet `started`, so each call numbers its wallets from 0; `started` counts the new monitors |
| MetricsCsv.DoubleQuotes | backend/scripts/export-trader-metrics.ts:18 | Doubling quotes never shortens the text and keeps its other characters |
| MetricsCsv.EscapeCsv | backend/scripts/export-trader-metrics.ts:12-21 | Null is ""; a value without quote, comma or newline is unchanged; otherwise it is wrapped in quotes with inner quotes doubled |
| MetricsCsv.EscapeCell | backend/scripts/export-trader-metrics.ts:12-21 | Escaping a value is escaping its text |
| MetricsCsv.NumberUnquoted | backend/scripts/export-trader-metrics.ts:16-20 | A number is never quoted |
| MetricsCsv.UndoubleDouble | backend/scripts/export-trader-metrics.ts:18 | Undoubling doubled quotes gives the text back |
| MetricsCsv.UnescapeEscape | backend/scripts/export-trader-metrics.ts:17-20 | Stripping the quotes and undoubling `EscapeText` of a text gives the text back |
| MetricsCsv.ReadQuoted | backend/scripts/export-trader-metrics.ts:17-19 | Reading a quoted field leaves a strictly shorter rest |
| MetricsCsv.ReadDoubled | backend/scripts/export-trader-metrics.ts:18-19 | A field escaped with quotes reads back to its text, stopping at the closing quote |
| MetricsCsv.ParseLastField | backend/scripts/export-trader-metrics.ts:12-21 | A single escaped field parses back to its text |
| MetricsCsv.ParseFieldThenComma | backend/scripts/export-trader-metrics.ts:12-24 | An escaped field followed by a comma parses to its text and the rest |
| MetricsCsv.ParseQuotedThenComma | backend/scripts/export-trader-metrics.ts:17-24 | The same for a quoted field |
| MetricsCsv.ParsePlainThenComma | backend/scripts/export-trader-metrics.ts:20-24 | The same for an unquoted field |
| MetricsCsv.ParseJoined | backend/scripts/export-trader-metrics.ts:23-25 | A comma-joined line of escaped fields parses back to the fields |
| MetricsCsv.EscapeAll | backend/scripts/export-trader-metrics.ts:24 | Each field is escaped, in place |
| MetricsCsv.EscapeRow | backend/scripts/export-trader-metrics.ts:24 | Each value of a row is escaped, in place |
| MetricsCsv.Lines | backend/scripts/export-trader-metrics.ts:24 | Each row becomes its line, in order |
| MetricsCsv.RowTexts | backend/scripts/export-trader-metrics.ts:24 | One text per value |
| MetricsCsv.RowRoundTrip | backend/scripts/export-trader-metrics.ts:23-25 | A non-empty row's line parses back to its values' texts |
| MetricsCsv.EscapeKeepsLines | backend/scripts/export-trader-metrics.ts:17-20 | Escaping adds no newline |
| MetricsCsv.LinesOneLine | backend/scripts/export-trader-metrics.ts:23-25 | A row without newlines gives a line without newlines |
| MetricsCsv.LinesPerRow | backend/scripts/export-trader-metrics.ts:23-25 | With no newline inside a field, splitting `ToCsv` of the rows at newlines gives the rows' lines, one per row |
| MetricsCsv.Header | backend/scripts/export-trader-metrics.ts:32-45 | The header has 10 fields |
| MetricsCsv.MetricRow | backend/scripts/export-trader-metrics.ts:47-60 | Every metric row has as many fields as the header |
| MetricsCsv.ExportRows | backend/scripts/export-trader-metrics.ts:32-60 | One row per metric after the header, in order |
| MetricsCsv.BuildRows | backend/scripts/export-trader-metrics.ts:32-60 | The push loop builds `ExportRows`, every row of 10 fields |
| MetricsCsv.ExportMetrics | backend/scripts/export-trader-metrics.ts:62 | The file contents are the CSV of those rows followed by a newline |
| MetricsCsv.MetricRowOneLine | backend/scripts/export-trader-metrics.ts:47-60 | A metric whose texts have no newline gives a row without newlines |
| MetricsCsv.RowsOneLine | backend/scripts/export-trader-metrics.ts:32-60 | No exported row has a newline when no metric text does |
| MetricsCsv.FileLines | backend/scripts/export-trader-metrics.ts:62 | Splitting the written file at newlines gives each row's line and a final empty line |
| MetricsCsv.ExportLines | backend/scripts/export-trader-metrics.ts:32-62 | The file has the header line, then one line per metric in order, then the final empty line |
| JsExtensions.ResolveTarget | backend/scripts/add-js-extensions.js:24-34 | The target extends the specifier and ends in ".js" |
| JsExtensions.TargetIgnoresJsFile | backend/scripts/add-js-extensions.js:30-33 | Whether `p.js` exists never changes the target; a non-directory gets ".js" |
| JsExtensions.RewriteIdempotent | backend/scripts/add-js-extensions.js:28-41 | A specifier `Rewrite` changed is `Skipped` afterwards and still `IsCandidate`, and rewriting twice is rewriting once |
| JsExtensions.PassSpec | backend/scripts/add-js-extensions.js:36-60 | A pass rewrites each segment in place and keeps the count |
| JsExtensions.ReplacePass | backend/scripts/add-js-extensions.js:36-42 | One pass yields `PassSpec`, and `changed` becomes set iff it was or a captured, unskipped specifier was rewritten |
| JsExtensions.PassSpecStep | backend/scripts/add-js-extensions.js:36-42 | One more segment read appends its rewrite |
| JsExtensions.PassChangesStep | backend/scripts/add-js-extensions.js:40 | One more segment read sets `changed` iff it was set or that segment changes |
| JsExtensions.RewriteAll | backend/scripts/add-js-extensions.js:36-60 | Rewriting every captured specifier keeps the segment count |
| JsExtensions.ThreePassesSegment | backend/scripts/add-js-extensions.js:36-60 | The three passes rewrite a segment at most once, and some pass changes it iff it is captured and not skipped |
| JsExtensions.ThreePasses | backend/scripts/add-js-extensions.js:36-60 | The three passes are `RewriteAll`, and they set `changed` iff some captured specifier is not skipped |
| JsExtensions.ProcessFile | backend/scripts/add-js-extensions.js:16-70 | The file is written iff some captured specifier needed fixing, and then with every captured specifier rewritten |
| JsExtensions.FixedNeedsNoFixing | backend/scripts/add-js-extensions.js:37-63 | A fixed file needs no fixing and rewriting it again changes nothing |
| JsExtensions.OnlyCandidatesChange | backend/scripts/add-js-extensions.js:37-41 | Only a captured, unskipped specifier changes, into its target |

## Left out

- Chain access (`readContract`, `simulateContract`, balances, allowances, the transaction count, `sendTransaction`, `watchBlockNumber`, `getPoolState`, the pool fee) is given as parameters: `CycleView`, `poolState`, `poolFee` and the quoter functions. Whether the node accepts a send is the oracle `buyAccepted`/`sellAccepted`.
- Observer.TradeOf: chain reads never fail in the model. In the source, a quote (`simulateContract`), a balance, the transaction count or the pool fee can reject. An example is the sell quote at backend/src/traders/observer/trader-observer.ts:270 reverting after the buy leg was accepted. Then `executeArbitrage` rejects with the buys sent and counted, no sell and no metric. No `TradeEnd` of the model describes that end.
- Database access (`findFirst`, `findUnique`, `findMany`, `traderMetric.create`) is a `Repository` snapshot. Metric rows are appended to a log. backend/src/repository/repository.service.ts is not part of this model, including its rule that the base token is the pool token other than the quote.
- ABI encoding is modelled as datatype values with named fields. Address checksumming (`getAddress`) is the identity on canonical addresses.
- Floating point: `parseFloat`, `1 / price`, `Math.abs(spread) * 10000`, `toFixed` and `Number(...)` of a decimal string are exact `real` arithmetic. IEEE rounding is not modelled, and a non-finite price cannot arise.
- Pool.CalculatePrice: `10 ** |d0 - d1|` is a Number power in the source, exact only up to 10^22. The model uses the exact integer power for every difference.
- Observer.TraderObserver.RecordMetrics: `BigInt(10 ** decimals)` is also a Number power, exact only up to 10^22. The model divides by the exact `Pow10(decimals)` for every token.
- Observer.TradeSize: the fraction setting `ARB_QUOTE_TRADE_FRACTION_BPS` is an `int` here. In the source, `BigInt(...)` of a non-integer or NaN setting throws a RangeError on every trade, which is not modelled. The minimum spread setting is an exact `real`, so a NaN setting (never reached) is not modelled either.
- Concurrency: `Promise.all` runs sequentially. When both reads fail, the model reports the Uniswap error (the source rejects with whichever fails first). The block subscription's callback is not modelled. An update in flight is represented by the explicit `isHandling` flag.
- Observer.TraderObserver.Start: the source does not await `handlePoolUpdate` and `attachWatchers`. The model runs them one after the other. Only the check `attachWatchers` makes before its first `await` is taken on the setup `start` began with. The order in which the two initialisations store the pairs is not modelled. Both read the same `Repository` snapshot, so they store the same values.
- Polling.Report: it requires a positive PancakeSwap price, which every fetched price has.
- The services started by the fan-out are values (`PollingStart`, `ObserverStart`). Starting each monitor is `Observer.TraderObserver.Start`.
- FanOut.TraderController.StartPolling: models the evidently intended call, which registers every new key. As written, `service.start()` names a method `TraderPollingService` does not define, so the first new key throws before its service is registered. That behaviour is `FanOut.StartPollingAsWritten`, and it is listed under Findings.
- backend/src/config/wallets is not part of this model. The wallet index is a natural number, and running out of configured keys is not modelled.
- backend/src/simulator/simulator.service.ts (random trades in an endless loop), the module wiring, dto/ and app.controller.ts are not modelled.
- The import fixer: regular-expression matching is abstracted into segments tagged with the passes whose pattern captures them. `match.replace(importPath, …)` is taken to hit the captured specifier. Path joining and `existsSync`/`statSync` are the `Disk` oracle. `processDirectory` (the recursive walk) and file I/O are not modelled.
- The CSV export: values are strings, integers or null. `String()` of fractional numbers (the balances) is not modelled. Reading a field back cannot tell null from the empty string. The file write is the returned contents.
- Numbers.BigIntToDecimalString: the code throws only for a zero scalar (BigInt division). A negative scalar formats like any other, so no "scalar must be positive" error exists in the model.

## Findings

The monitor and the observer service follow the code as written. Each corrected definition is stated beside them, with its property proved, and `TraderController.StartPolling` is the corrected controller.

| source | as written | input that shows it | evidently intended | confidence | as-written member | corrected member |
|---|---|---|---|---|---|---|
| backend/src/traders/observer/trader-observer.service.ts:36-51 | each call indexes the wallet keys with `started`, which restarts at 0 on every call | a second `onModuleInit` that finds one new key while the monitor on wallet 0 is still running | each new monitor gets a wallet no running monitor uses (a counter kept across calls) | not executed | FanOut.WalletReuseAsWritten | FanOut.ObserversAfterKeepsWallets |
| backend/src/traders/observer/trader-observer.ts:164-189 | the opportunity is logged through `this.logger!`, before the threshold check, and the logger is assigned only together with the token rows; the re-initialisation in `executeArbitrage` (lines 187-189) can therefore never be reached | an `onModuleInit` that finds both pairs but no token row, then, once the token rows exist, a price update with a spread above the minimum: every update with a non-zero spread throws a TypeError, and the monitor never trades | log only when a logger exists, and let `executeArbitrage` initialise again and trade on the rows it then finds | not executed | Observer.NullLoggerBlocksTrade | Observer.SettleIntendedFacts |
| backend/src/traders/trader.controller.ts:48-50 | `service.start()` calls a method `TraderPollingService` does not define, before `pollingServices.set` | any `startPolling` request while some key is listed on both venues and not registered: it throws and registers nothing | register and start one polling service per new key, returning how many were started | not executed | FanOut.StartPollingAsWrittenFails | FanOut.TraderController.StartPolling |
