/** The arbitrage monitor of backend/src/traders/observer/trader-observer.ts:
    one monitor per base/quote pair reads both venues' prices on every block,
    and when the spread is wide enough buys base on the cheaper venue and
    sells what it received on the other, recording the wallet's balances
    afterwards.

    What the chain and the database answer during one cycle is a parameter:
    a `Repository` snapshot for the rows and a `CycleView` for the chain. The
    spec functions `Decide` and `PlanTrade` say what a cycle does; the class
    `TraderObserver` does it step by step and is proved against them. */
module Observer {
  import opened Common
  import opened Numbers
  import opened Pool
  import opened Prices

  /** `SLIPPAGE_BPS`: the minimum output a leg accepts is 0.50% below the
      quote. */
  const SlippageBps: int := 50

  /** The denominator of every basis-point fraction. */
  const BpsDenominator: int := 10000

  // ---------------------------------------------------------------------------
  // Deciding whether to trade

  /** How a price reading ends: a price missing, no opportunity (equal
      prices), an opportunity below the minimum spread, or a trade. */
  datatype Decision =
    | NoPrice
    | NoOpportunity
    | BelowMinimum(opportunity: Opportunity, spreadBps: real)
    | Execute(opportunity: Opportunity, spreadBps: real)

  /** The decision `handlePoolUpdate` takes from the two venues' prices. */
  function Decide(uniswap: Option<PriceObservation>, pancake: Option<PriceObservation>,
                  minSpreadBps: real): (d: Decision)
    requires pancake.Some? ==> pancake.value.price > 0.0
    ensures d == NoPrice <==> uniswap.None? || pancake.None?
    ensures d.Execute? ==> ShouldTrade(Spread(uniswap.value.price, pancake.value.price), minSpreadBps)
    ensures d.Execute? || d.BelowMinimum? ==>
      && Classify(Spread(uniswap.value.price, pancake.value.price)) == Some(d.opportunity)
      && d.spreadBps == SpreadBps(Spread(uniswap.value.price, pancake.value.price))
    ensures d.BelowMinimum? ==> d.spreadBps < minSpreadBps
    ensures d == NoOpportunity <==>
      uniswap.Some? && pancake.Some? && uniswap.value.price == pancake.value.price
  {
    if uniswap.None? || pancake.None? then NoPrice
    else
      var spread := Spread(uniswap.value.price, pancake.value.price);
      ClassifyComparesPrices(uniswap.value.price, pancake.value.price);
      match Classify(spread)
      case None => NoOpportunity
      case Some(opportunity) =>
        var spreadBps := SpreadBps(spread);
        if spreadBps >= minSpreadBps then Execute(opportunity, spreadBps)
        else BelowMinimum(opportunity, spreadBps)
  }

  /** With positive prices a trade buys on the venue whose price is lower and
      sells on the other one. */
  lemma {:induction false} TradeBuysWhereCheaper(uniswap: PriceObservation, pancake: PriceObservation,
                              minSpreadBps: real)
    requires uniswap.price > 0.0 && pancake.price > 0.0
    ensures var d := Decide(Some(uniswap), Some(pancake), minSpreadBps);
      d.Execute? ==>
        && BuyVenue(d.opportunity) != SellVenue(d.opportunity)
        && (BuyVenue(d.opportunity) == PancakeV3 <==> pancake.price < uniswap.price)
        && (BuyVenue(d.opportunity) == UniswapV3 <==> uniswap.price < pancake.price)
  {
    ClassifyComparesPrices(uniswap.price, pancake.price);
  }

  // ---------------------------------------------------------------------------
  // The two-leg trade, as a function of what the chain answers

  /** What the chain answers during one arbitrage cycle. Balances, quotes,
      allowances and the clock are read twice (once per leg) because the buy
      leg changes them; `buyAccepted(i)` and `sellAccepted(i)` say whether the
      i-th transaction of a leg is accepted by the node. */
  datatype CycleView = CycleView(
    chainId: nat,
    poolState: Address -> PoolState,
    poolFee: Address -> nat,
    quoteBalance: nat,
    baseBalanceBefore: nat,
    buyQuoter: QuoterCall -> QuoterOutput,
    buyAllowance: nat,
    buyNowMs: nat,
    transactionCount: nat,
    buyAccepted: nat -> bool,
    baseBalanceAfter: nat,
    sellQuoter: QuoterCall -> QuoterOutput,
    sellAllowance: nat,
    sellNowMs: nat,
    sellAccepted: nat -> bool,
    metricBlock: nat,
    finalBaseBalance: nat,
    finalQuoteBalance: nat)

  /** A `traderMetric` row. Balances are in whole tokens. */
  datatype TraderMetric = TraderMetric(
    traderAddress: Address, baseTokenAddress: Address, quoteTokenAddress: Address,
    traderType: QueryType, blockNumber: nat, txCount: nat,
    baseBalance: real, quoteBalance: real)

  /** Where a trade attempt stops. */
  datatype TradeEnd =
    | PairsUnset                                   // no pair to trade on
    | InsufficientQuote                            // the trade size rounds to zero
    | BuyReverted(accepted: nat)                   // a buy transaction was rejected
    | NothingBought                                // the base balance did not grow
    | SellLegRan(accepted: nat, attempted: nat)    // the sell leg ran, maybe partly

  /** A trade attempt: how it ended, the buy and sell transactions the node
      accepted, in order, and whether a metric row is recorded afterwards. */
  datatype Trade = Trade(end: TradeEnd, buySent: seq<TxRequest>, sellSent: seq<TxRequest>,
                         recordsMetric: bool)

  /** The share of the quote balance one trade spends, truncated as BigInt
      division does. */
  function TradeSize(quoteBalance: nat, fractionBps: int): int {
    Quot(quoteBalance * fractionBps, BpsDenominator)
  }

  /** What a quote promises a leg receives: `amountOut` of an exact-in quote,
      nothing otherwise. */
  function ExpectedOut(q: QuoteResult): nat {
    if q.ExactInQuote? then q.amountOut else 0
  }

  /** The minimum output a leg accepts: the expected output less the
      slippage, truncated. */
  function MinOut(expected: nat): (m: nat)
  {
    var scaled: nat := expected * 9950;
    scaled / 10000
  }

  /** The minimum output is at most the expected output and is the floor of
      99.50% of it. */
  lemma {:induction false} MinOutBounds(expected: nat)
    ensures MinOut(expected) <= expected
    ensures MinOut(expected) * 10000 <= expected * 9950 < (MinOut(expected) + 1) * 10000
  {
    var m := MinOut(expected);
    assert m == (expected * 9950) / 10000;
  }

  /** The trade size is the quote balance times the fraction in basis
      points over 10000, truncated toward zero: for a non-negative fraction
      it is the floor of that share, it never exceeds the balance while the
      fraction is at most 10000, and a non-positive fraction never gives a
      positive size. */
  lemma {:induction false} TradeSizeBounds(quoteBalance: nat, fractionBps: int)
    ensures fractionBps >= 0 ==>
              && TradeSize(quoteBalance, fractionBps) >= 0
              && TradeSize(quoteBalance, fractionBps) * 10000 <= quoteBalance * fractionBps
              && quoteBalance * fractionBps < (TradeSize(quoteBalance, fractionBps) + 1) * 10000
    ensures 0 <= fractionBps <= 10000 ==> TradeSize(quoteBalance, fractionBps) <= quoteBalance
    ensures fractionBps <= 0 ==> TradeSize(quoteBalance, fractionBps) <= 0
  {
    var share := quoteBalance * fractionBps;
    var size := TradeSize(quoteBalance, fractionBps);
    BpsShare(share);
    assert size == Quot(share, BpsDenominator);
    if fractionBps >= 0 {
      assert share >= 0;
      if fractionBps <= 10000 {
        assert share <= quoteBalance * 10000;
        assert size * 10000 <= quoteBalance * 10000;
      }
    } else {
      assert share <= 0;
    }
  }

  /** BigInt division of a share by 10000 truncates toward zero. */
  lemma {:induction false} BpsShare(share: int)
    ensures share >= 0 ==>
              && Quot(share, BpsDenominator) >= 0
              && Quot(share, BpsDenominator) * 10000 <= share < (Quot(share, BpsDenominator) + 1) * 10000
    ensures share <= 0 ==> Quot(share, BpsDenominator) <= 0
  {
    QuotRemTruncate(share, BpsDenominator);
  }

  /** A leg quotes exact-in, so its minimum output is the floor of 99.50% of
      the quoter's `amountOut` for the leg's quote call. */
  lemma {:induction false} LegMinOut(exchange: Exchange, quoteData: QuoteData, fee: nat,
                                     quoter: QuoterCall -> QuoterOutput)
    requires quoteData.ExactInQuoteData?
    ensures var expected := ExpectedOut(QuoteFor(exchange, quoteData, fee, quoter));
            var m := MinOut(expected);
            && expected == quoter(QuoterCallFor(exchange, quoteData, fee)).amount
            && m * 10000 <= expected * 9950 < (m + 1) * 10000
  {
    MinOutBounds(ExpectedOut(QuoteFor(exchange, quoteData, fee, quoter)));
  }

  /** The number of transactions of a leg sent before the first rejection:
      every one before it was accepted, and the one at it (if any) was not. */
  function LeadingAccepted(n: nat, accepted: nat -> bool): (k: nat)
    ensures k <= n
    ensures forall i | 0 <= i < k :: accepted(i)
    ensures k < n ==> !accepted(k)
  {
    if n == 0 then 0
    else
      var k := LeadingAccepted(n - 1, accepted);
      if k == n - 1 && accepted(n - 1) then n else k
  }

  /** The transactions of a leg with consecutive nonces from `start`. */
  function WithNonces(txs: seq<TxRequest>, start: nat): (r: seq<TxRequest>)
    ensures |r| == |txs|
    ensures forall j | 0 <= j < |r| :: r[j] == txs[j].(nonce := Some(start + j))
  {
    seq(|txs|, j requires 0 <= j < |txs| => txs[j].(nonce := Some(start + j)))
  }

  /** A balance in whole tokens: the raw balance over ten to the token's
      decimals, exactly. */
  function Normalized(balance: nat, decimals: nat): real {
    balance as real / Pow10(decimals) as real
  }

  /** `Number(bigIntToDecimalString(balance, 10n ** decimals))` reads back the
      balance in whole tokens exactly: the decimal string never fails for a
      power of ten and names the exact quotient. */
  lemma {:induction false} NormalizedViaDecimalString(balance: nat, decimals: nat)
    ensures BigIntToDecimalString(balance, Pow10(decimals)).Ok?
    ensures DecimalValue(BigIntToDecimalString(balance, Pow10(decimals)).value)
            == Some(Normalized(balance, decimals))
  {
    DecimalStringRoundTrip(balance, Pow10(decimals), decimals);
  }

  /** The metric row `recordMetrics` writes after a trade: a subscription
      trader's row for the pair, with the given transaction count and the
      final balances in whole tokens. */
  function MetricOf(account: Address, base: Token, quote: Token, txCount: nat,
                    view: CycleView): TraderMetric
  {
    TraderMetric(account, base.address, quote.address, Subscription, view.metricBlock, txCount,
                 Normalized(view.finalBaseBalance, base.decimals),
                 Normalized(view.finalQuoteBalance, quote.decimals))
  }

  /** The metric row is the subscription trader's row for the pair at the
      metric block with the given count, and each balance is what the
      decimal string of the raw final balance over 10^decimals reads back
      as. */
  lemma {:induction false} MetricOfReadsBack(account: Address, base: Token, quote: Token,
                                             txCount: nat, view: CycleView)
    ensures var m := MetricOf(account, base, quote, txCount, view);
      var baseText := BigIntToDecimalString(view.finalBaseBalance, Pow10(base.decimals));
      var quoteText := BigIntToDecimalString(view.finalQuoteBalance, Pow10(quote.decimals));
      && m.traderAddress == account && m.traderType == Subscription
      && m.baseTokenAddress == base.address && m.quoteTokenAddress == quote.address
      && m.blockNumber == view.metricBlock && m.txCount == txCount
      && baseText.Ok? && DecimalValue(baseText.value) == Some(m.baseBalance)
      && quoteText.Ok? && DecimalValue(quoteText.value) == Some(m.quoteBalance)
  {
    NormalizedViaDecimalString(view.finalBaseBalance, base.decimals);
    NormalizedViaDecimalString(view.finalQuoteBalance, quote.decimals);
  }

  /** The swap intent of one leg: sell `amountIn` of `tokenIn` on `pair`'s pool
      for at least `minOut` of `tokenOut`. */
  function LegSwap(tokenIn: Address, tokenOut: Address, amountIn: nat, minOut: nat,
                   pair: TradingPair): SwapData {
    ExactInSwap(tokenIn, tokenOut, amountIn, minOut, pair.poolAddress, None, None)
  }

  /** The quote intent of one leg. */
  function LegQuote(tokenIn: Address, tokenOut: Address, amountIn: nat,
                    pair: TradingPair): QuoteData {
    ExactInQuoteData(tokenIn, tokenOut, amountIn, pair.poolAddress)
  }

  /** The transactions of one leg: quote the intent on the venue, accept the
      quote less the slippage, and build the swap with the default approval
      setting. */
  function LegTxs(account: Address, tokenIn: Address, tokenOut: Address, amountIn: nat,
                  pair: TradingPair, quoter: QuoterCall -> QuoterOutput, allowance: nat,
                  nowMs: nat, view: CycleView): (txs: seq<TxRequest>)
    ensures 1 <= |txs| <= 2
    ensures forall i | 0 <= i < |txs| :: txs[i].from == account && txs[i].nonce.None?
  {
    var fee := view.poolFee(pair.poolAddress);
    var quote := QuoteFor(pair.exchange, LegQuote(tokenIn, tokenOut, amountIn, pair), fee, quoter);
    var minOut := MinOut(ExpectedOut(quote));
    SwapTxs(pair.exchange, account, LegSwap(tokenIn, tokenOut, amountIn, minOut, pair),
            DefaultApprovalSetting, fee, allowance, nowMs, view.chainId)
  }

  /** The buy leg of a trade of size `amountIn` (none when it is not positive). */
  function BuyLeg(buyPair: TradingPair, base: Token, quote: Token, account: Address,
                  amountIn: int, view: CycleView): (txs: seq<TxRequest>)
    ensures amountIn > 0 ==> 1 <= |txs| <= 2
    ensures forall i | 0 <= i < |txs| :: txs[i].from == account && txs[i].nonce.None?
  {
    if amountIn <= 0 then []
    else LegTxs(account, quote.address, base.address, amountIn, buyPair,
                view.buyQuoter, view.buyAllowance, view.buyNowMs, view)
  }

  /** The sell leg selling `baseToSell` of the base (none when it is not positive). */
  function SellLeg(sellPair: TradingPair, base: Token, quote: Token, account: Address,
                   baseToSell: int, view: CycleView): (txs: seq<TxRequest>)
    ensures baseToSell > 0 ==> 1 <= |txs| <= 2
    ensures forall i | 0 <= i < |txs| :: txs[i].from == account && txs[i].nonce.None?
  {
    if baseToSell <= 0 then []
    else LegTxs(account, base.address, quote.address, baseToSell, sellPair,
                view.sellQuoter, view.sellAllowance, view.sellNowMs, view)
  }

  /** How a trade unfolds once its legs are built: the buy leg's
      transactions are sent until one is rejected; the sell leg runs only
      after a fully accepted buy leg that left more base than before, and
      its transactions take the nonces after the buy leg's. */
  function TradeOf(amountIn: int, buyTxs: seq<TxRequest>, baseToSell: int,
                   sellTxs: seq<TxRequest>, view: CycleView): (t: Trade)
    // Nothing is quoted or sent when the trade size truncates to zero.
    ensures t.end == InsufficientQuote <==> amountIn <= 0
    ensures t.end == InsufficientQuote ==> t.buySent == [] && t.sellSent == []
    // A rejected buy transaction ends the cycle.
    ensures t.end.BuyReverted? ==> |t.buySent| == t.end.accepted && t.sellSent == []
    // The sell leg runs iff every buy transaction was accepted and the base
    // balance grew.
    ensures t.end == NothingBought <==>
      amountIn > 0 && !t.end.BuyReverted? && baseToSell <= 0
    ensures t.end == NothingBought ==> t.sellSent == []
    ensures t.end.SellLegRan? ==> baseToSell > 0 && |t.sellSent| == t.end.accepted
    // A metric is recorded iff the sell leg ran.
    ensures t.recordsMetric <==> t.end.SellLegRan?
  {
    if amountIn <= 0 then Trade(InsufficientQuote, [], [], false)
    else
      var buyOk := LeadingAccepted(|buyTxs|, view.buyAccepted);
      if buyOk < |buyTxs| then Trade(BuyReverted(buyOk), buyTxs[..buyOk], [], false)
      else if baseToSell <= 0 then Trade(NothingBought, buyTxs, [], false)
      else
        var sellOk := LeadingAccepted(|sellTxs|, view.sellAccepted);
        var nonced := WithNonces(sellTxs, view.transactionCount + |buyTxs|);
        Trade(SellLegRan(sellOk, |sellTxs|), buyTxs, nonced[..sellOk], true)
  }

  /** `executeArbitrage` once the pairs and tokens are known: size the buy
      from the quote balance, send the buy leg (its transactions carry no
      nonce), sell exactly the base received with nonces continuing after the
      buy leg's, and record a metric once the sell leg has run. The sell leg
      is only quoted and sent when the trade reaches it. */
  function PlanTrade(buyPair: TradingPair, sellPair: TradingPair, base: Token, quote: Token,
                     account: Address, fractionBps: int, view: CycleView)
    : (t: Trade)
  {
    var amountIn := TradeSize(view.quoteBalance, fractionBps);
    var baseToSell := view.baseBalanceAfter - view.baseBalanceBefore;
    TradeOf(amountIn, BuyLeg(buyPair, base, quote, account, amountIn, view),
            baseToSell, SellLeg(sellPair, base, quote, account, baseToSell, view), view)
  }

  /** A rejected buy transaction ends the cycle: only the buy transactions
      before it were sent, each accepted, from the trader's account and
      without a nonce; no sell transaction and no metric follow. */
  lemma {:induction false} BuyRejectionEndsCycle(amountIn: int, buyTxs: seq<TxRequest>, baseToSell: int,
                              sellTxs: seq<TxRequest>, account: Address, view: CycleView)
    requires forall i | 0 <= i < |buyTxs| :: buyTxs[i].from == account && buyTxs[i].nonce.None?
    ensures var t := TradeOf(amountIn, buyTxs, baseToSell, sellTxs, view);
      t.end.BuyReverted? ==>
        && !t.recordsMetric && t.sellSent == []
        && (forall i | 0 <= i < |t.buySent| :: view.buyAccepted(i))
        && !view.buyAccepted(t.end.accepted)
        && (forall i | 0 <= i < |t.buySent| ::
              t.buySent[i].from == account && t.buySent[i].nonce.None?)
  {
    var t := TradeOf(amountIn, buyTxs, baseToSell, sellTxs, view);
    if t.end.BuyReverted? {
      assert t.buySent == buyTxs[..t.end.accepted];
    }
  }

  /** The nonces of a trade whose sell leg ran: every buy transaction was
      accepted and carries no nonce, and the j-th sell transaction sent
      carries the initial transaction count plus the number of buy
      transactions plus j. A rejected sell transaction stops the leg. */
  lemma {:induction false} SellNoncesFollowBuyLeg(amountIn: int, buyTxs: seq<TxRequest>, baseToSell: int,
                               sellTxs: seq<TxRequest>, account: Address, view: CycleView)
    requires forall i | 0 <= i < |buyTxs| :: buyTxs[i].from == account && buyTxs[i].nonce.None?
    requires forall i | 0 <= i < |sellTxs| :: sellTxs[i].from == account
    ensures var t := TradeOf(amountIn, buyTxs, baseToSell, sellTxs, view);
      t.end.SellLegRan? ==>
        && t.buySent == buyTxs
        && (forall i | 0 <= i < |t.buySent| :: view.buyAccepted(i) && t.buySent[i].nonce.None?)
        && t.end.accepted <= t.end.attempted
        && (forall j | 0 <= j < |t.sellSent| ::
              && view.sellAccepted(j)
              && t.sellSent[j].from == account
              && t.sellSent[j].nonce == Some(view.transactionCount + |t.buySent| + j))
        && (t.end.accepted < t.end.attempted ==> !view.sellAccepted(t.end.accepted))
  {
  }

  /** In every planned trade whose sell leg ran, the buy leg was non-empty,
      fully accepted and sent without nonces, and the base balance grew. */
  lemma {:induction false} PlannedBuyLegPrecedesSell(buyPair: TradingPair, sellPair: TradingPair, base: Token,
                                  quote: Token, account: Address, fractionBps: int,
                                  view: CycleView)
    ensures var t := PlanTrade(buyPair, sellPair, base, quote, account, fractionBps, view);
      t.end.SellLegRan? ==>
        && 1 <= |t.buySent|
        && (forall i | 0 <= i < |t.buySent| :: view.buyAccepted(i) && t.buySent[i].nonce.None?)
        && view.baseBalanceAfter > view.baseBalanceBefore
  {
    var amountIn := TradeSize(view.quoteBalance, fractionBps);
    var baseToSell := view.baseBalanceAfter - view.baseBalanceBefore;
    var buyTxs := BuyLeg(buyPair, base, quote, account, amountIn, view);
    var sellTxs := SellLeg(sellPair, base, quote, account, baseToSell, view);
    SellNoncesFollowBuyLeg(amountIn, buyTxs, baseToSell, sellTxs, account, view);
  }

  /** The ways a planned trade with a positive size ends, each given as one
      value in terms of the legs built; `RunTrade` follows them branch by
      branch. */
  lemma {:induction false} InsufficientQuotePlan(buyPair: TradingPair, sellPair: TradingPair, base: Token,
                              quote: Token, account: Address, fractionBps: int, view: CycleView)
    requires TradeSize(view.quoteBalance, fractionBps) <= 0
    ensures PlanTrade(buyPair, sellPair, base, quote, account, fractionBps, view)
      == Trade(InsufficientQuote, [], [], false)
  {
  }

  lemma {:induction false} BuyRevertedPlan(buyPair: TradingPair, sellPair: TradingPair, base: Token, quote: Token,
                        account: Address, fractionBps: int, view: CycleView,
                        buyTxs: seq<TxRequest>, buyOk: nat)
    requires TradeSize(view.quoteBalance, fractionBps) > 0
    requires buyTxs == BuyLeg(buyPair, base, quote, account,
                              TradeSize(view.quoteBalance, fractionBps), view)
    requires buyOk == LeadingAccepted(|buyTxs|, view.buyAccepted) && buyOk < |buyTxs|
    ensures PlanTrade(buyPair, sellPair, base, quote, account, fractionBps, view)
      == Trade(BuyReverted(buyOk), buyTxs[..buyOk], [], false)
  {
  }

  lemma {:induction false} NothingBoughtPlan(buyPair: TradingPair, sellPair: TradingPair, base: Token,
                          quote: Token, account: Address, fractionBps: int, view: CycleView,
                          buyTxs: seq<TxRequest>)
    requires TradeSize(view.quoteBalance, fractionBps) > 0
    requires buyTxs == BuyLeg(buyPair, base, quote, account,
                              TradeSize(view.quoteBalance, fractionBps), view)
    requires LeadingAccepted(|buyTxs|, view.buyAccepted) == |buyTxs|
    requires view.baseBalanceAfter - view.baseBalanceBefore <= 0
    ensures PlanTrade(buyPair, sellPair, base, quote, account, fractionBps, view)
      == Trade(NothingBought, buyTxs, [], false)
  {
  }

  lemma {:induction false} SellLegRanPlan(buyPair: TradingPair, sellPair: TradingPair, base: Token, quote: Token,
                       account: Address, fractionBps: int, view: CycleView,
                       amountIn: int, buyTxs: seq<TxRequest>, baseToSell: int,
                       sellTxs: seq<TxRequest>, sellOk: nat, nonce: nat)
    requires amountIn == TradeSize(view.quoteBalance, fractionBps) && amountIn > 0
    requires buyTxs == BuyLeg(buyPair, base, quote, account, amountIn, view)
    requires LeadingAccepted(|buyTxs|, view.buyAccepted) == |buyTxs|
    requires baseToSell == view.baseBalanceAfter - view.baseBalanceBefore && baseToSell > 0
    requires sellTxs == SellLeg(sellPair, base, quote, account, baseToSell, view)
    requires sellOk == LeadingAccepted(|sellTxs|, view.sellAccepted)
    requires nonce == view.transactionCount + |buyTxs|
    ensures PlanTrade(buyPair, sellPair, base, quote, account, fractionBps, view)
      == Trade(SellLegRan(sellOk, |sellTxs|), buyTxs, WithNonces(sellTxs, nonce)[..sellOk], true)
  {
    assert PlanTrade(buyPair, sellPair, base, quote, account, fractionBps, view)
      == TradeOf(amountIn, buyTxs, baseToSell, sellTxs, view);
    SellLegRanTrade(amountIn, buyTxs, baseToSell, sellTxs, sellOk, nonce, view);
  }

  /** `TradeOf` once both legs were built and every buy transaction was
      accepted. */
  lemma {:induction false} SellLegRanTrade(amountIn: int, buyTxs: seq<TxRequest>, baseToSell: int,
                        sellTxs: seq<TxRequest>, sellOk: nat, nonce: nat, view: CycleView)
    requires amountIn > 0 && baseToSell > 0
    requires LeadingAccepted(|buyTxs|, view.buyAccepted) == |buyTxs|
    requires sellOk == LeadingAccepted(|sellTxs|, view.sellAccepted)
    requires nonce == view.transactionCount + |buyTxs|
    ensures TradeOf(amountIn, buyTxs, baseToSell, sellTxs, view)
      == Trade(SellLegRan(sellOk, |sellTxs|), buyTxs, WithNonces(sellTxs, nonce)[..sellOk], true)
  {
  }

  // ---------------------------------------------------------------------------
  // The monitor

  /** How one price update ends. */
  datatype UpdateEnd =
    | Busy                                         // an update was already in flight
    | Failed(error: Error)                         // initialisation or a price read threw
    | Decided(uniswap: Option<PriceObservation>, pancake: Option<PriceObservation>,
              decision: Decision, trade: Option<TradeEnd>)

  /** The pair bought on and the pair sold on for an opportunity. */
  function LegPairs(opportunity: Opportunity, uniswap: TradingPair, pancake: TradingPair)
    : (pairs: (TradingPair, TradingPair))
    ensures opportunity == BuyPancakeSellUniswap ==> pairs == (pancake, uniswap)
    ensures opportunity == BuyUniswapSellPancake ==> pairs == (uniswap, pancake)
  {
    if opportunity == BuyPancakeSellUniswap then (pancake, uniswap) else (uniswap, pancake)
  }

  /** The context the monitor's logger is created with, once the token rows
      are known. */
  function LoggerName(base: Token, quote: Token): string {
    "TraderObserver - " + base.symbol + " / " + quote.symbol
  }

  /** How `onModuleInit` ends on a repository snapshot. A missing Uniswap pair
      fails first, then a missing PancakeSwap pair, then a missing token row. */
  function InitOutcome(repo: Repository, baseToken: Address, quoteToken: Address)
    : (r: Result<()>)
    ensures r.Ok? <==>
      && FindPair(repo.pairs, baseToken, quoteToken, UniswapV3).Some?
      && FindPair(repo.pairs, baseToken, quoteToken, PancakeV3).Some?
      && baseToken in repo.tokens && quoteToken in repo.tokens
    ensures FindPair(repo.pairs, baseToken, quoteToken, UniswapV3).None? ==>
      r == Err(TradingPairNotFound(UniswapV3))
    ensures FindPair(repo.pairs, baseToken, quoteToken, UniswapV3).Some?
            && FindPair(repo.pairs, baseToken, quoteToken, PancakeV3).None? ==>
      r == Err(TradingPairNotFound(PancakeV3))
    ensures r.Err? && FindPair(repo.pairs, baseToken, quoteToken, PancakeV3).Some? ==>
      r.error != TradingPairNotFound(PancakeV3)
  {
    if FindPair(repo.pairs, baseToken, quoteToken, UniswapV3).None? then
      Err(TradingPairNotFound(UniswapV3))
    else if FindPair(repo.pairs, baseToken, quoteToken, PancakeV3).None? then
      Err(TradingPairNotFound(PancakeV3))
    else if baseToken !in repo.tokens || quoteToken !in repo.tokens then
      Err(TokenMetadataNotFound)
    else
      Ok(())
  }

  /** Both venues' prices read together. The Uniswap read's error is the one
      reported when both fail. With both pairs known, a successful read holds
      two positive prices, each from its own pair's pool. */
  function ReadBoth(uniswapPair: Option<TradingPair>, pancakePair: Option<TradingPair>,
                    repo: Repository, poolState: Address -> PoolState)
    : (r: Result<(Option<PriceObservation>, Option<PriceObservation>)>)
    ensures var uniswap := FetchPrice(uniswapPair, repo, poolState);
      var pancake := FetchPrice(pancakePair, repo, poolState);
      && (r.Err? <==> uniswap.Err? || pancake.Err?)
      && (r.Err? ==> r.error == (if uniswap.Err? then uniswap.error else pancake.error))
    ensures uniswapPair.Some? && pancakePair.Some? && r.Ok? ==>
      && r.value.0.Some? && r.value.1.Some?
      && r.value.0.value.exchange == uniswapPair.value.exchange
      && r.value.0.value.poolAddress == uniswapPair.value.poolAddress
      && r.value.1.value.exchange == pancakePair.value.exchange
      && r.value.1.value.poolAddress == pancakePair.value.poolAddress
      && r.value.0.value.price > 0.0 && r.value.1.value.price > 0.0
  {
    var uniswap := FetchPrice(uniswapPair, repo, poolState);
    var pancake := FetchPrice(pancakePair, repo, poolState);
    if uniswap.Err? then Err(uniswap.error)
    else if pancake.Err? then Err(pancake.error)
    else Ok((uniswap.value, pancake.value))
  }

  /** How a price update ends once both prices are read, and the trade it
      runs. An opportunity is logged before the threshold is checked, and the
      log call throws while the monitor has no logger: the logger and the
      token rows `rows` are assigned together, by a successful
      initialisation only. A decision to trade runs `PlanTrade` on the pairs
      the opportunity names. */
  function Settle(uniswap: Option<PriceObservation>, pancake: Option<PriceObservation>,
                  uniswapPair: TradingPair, pancakePair: TradingPair,
                  rows: Option<(Token, Token)>, account: Address, minSpreadBps: real,
                  fractionBps: int, view: CycleView)
    : (o: (UpdateEnd, Option<Trade>))
    requires pancake.Some? ==> pancake.value.price > 0.0
  {
    var d := Decide(uniswap, pancake, minSpreadBps);
    if (d.Execute? || d.BelowMinimum?) && rows.None? then (Failed(NullLogger), None)
    else if d.Execute? then
      var pairs := LegPairs(d.opportunity, uniswapPair, pancakePair);
      var t := PlanTrade(pairs.0, pairs.1, rows.value.0, rows.value.1, account, fractionBps,
                         view);
      (Decided(uniswap, pancake, d, Some(t.end)), Some(t))
    else
      (Decided(uniswap, pancake, d, None), None)
  }

  /** The ways a price update ends once both prices are read: it fails
      (with a null logger) exactly when there is an opportunity and no logger;
      otherwise it reports the prices and the decision, and a trade is run
      exactly when the decision is to trade, as `PlanTrade` on the pairs the
      opportunity names with the known token rows. */
  lemma {:induction false} SettleFacts(uniswap: Option<PriceObservation>,
                                       pancake: Option<PriceObservation>,
                                       uniswapPair: TradingPair, pancakePair: TradingPair,
                                       rows: Option<(Token, Token)>, account: Address,
                                       minSpreadBps: real, fractionBps: int, view: CycleView)
    requires pancake.Some? ==> pancake.value.price > 0.0
    ensures var o := Settle(uniswap, pancake, uniswapPair, pancakePair, rows, account,
                            minSpreadBps, fractionBps, view);
      var d := Decide(uniswap, pancake, minSpreadBps);
      && o.0 != Busy
      && (o.0.Failed? <==> (d.Execute? || d.BelowMinimum?) && rows.None?)
      && (o.0.Failed? ==> o.0.error == NullLogger)
      && (o.0.Decided? ==>
            && o.0.uniswap == uniswap && o.0.pancake == pancake
            && o.0.decision == d && (o.0.trade.Some? <==> d.Execute?))
      && (o.1.Some? <==> o.0.Decided? && d.Execute?)
      && (o.1.Some? ==>
            var pairs := LegPairs(d.opportunity, uniswapPair, pancakePair);
            && rows.Some? && o.0.trade == Some(o.1.value.end)
            && o.1.value == PlanTrade(pairs.0, pairs.1, rows.value.0, rows.value.1, account,
                                      fractionBps, view))
  {
  }

  /** How a price update ends once both pairs are known, and the trade it
      runs: a failed read is thrown, and otherwise `Settle` decides on the
      two prices read. */
  function CycleOutcome(uniswapPair: TradingPair, pancakePair: TradingPair, repo: Repository,
                        rows: Option<(Token, Token)>, account: Address, minSpreadBps: real,
                        fractionBps: int, view: CycleView)
    : (o: (UpdateEnd, Option<Trade>))
  {
    var read := ReadBoth(Some(uniswapPair), Some(pancakePair), repo, view.poolState);
    if read.Err? then (Failed(read.error), None)
    else Settle(read.value.0, read.value.1, uniswapPair, pancakePair, rows, account,
                minSpreadBps, fractionBps, view)
  }

  /** An update with both pairs known fails with the Uniswap read's error,
      else with the PancakeSwap read's error; once both reads succeed, it
      settles on the two prices read, and a decided update reports both
      positive prices, each from its own pair's pool. */
  lemma {:induction false} CycleOutcomeFacts(uniswapPair: TradingPair, pancakePair: TradingPair,
                                             repo: Repository, rows: Option<(Token, Token)>,
                                             account: Address, minSpreadBps: real,
                                             fractionBps: int, view: CycleView)
    ensures var o := CycleOutcome(uniswapPair, pancakePair, repo, rows, account, minSpreadBps,
                                  fractionBps, view);
      var uniswap := FetchPrice(Some(uniswapPair), repo, view.poolState);
      var pancake := FetchPrice(Some(pancakePair), repo, view.poolState);
      && (uniswap.Err? ==> o == (Failed(uniswap.error), None))
      && (uniswap.Ok? && pancake.Err? ==> o == (Failed(pancake.error), None))
      && (uniswap.Ok? && pancake.Ok? ==>
            && uniswap.value.Some? && pancake.value.Some?
            && pancake.value.value.price > 0.0
            && o == Settle(uniswap.value, pancake.value, uniswapPair, pancakePair, rows,
                           account, minSpreadBps, fractionBps, view))
      && (o.0.Decided? ==>
            && o.0.uniswap == uniswap.value && o.0.pancake == pancake.value
            && o.0.uniswap.Some? && o.0.pancake.Some?
            && o.0.uniswap.value.poolAddress == uniswapPair.poolAddress
            && o.0.pancake.value.poolAddress == pancakePair.poolAddress
            && o.0.uniswap.value.price > 0.0 && o.0.pancake.value.price > 0.0)
  {
    var read := ReadBoth(Some(uniswapPair), Some(pancakePair), repo, view.poolState);
    if read.Ok? {
      SettleFacts(read.value.0, read.value.1, uniswapPair, pancakePair, rows, account,
                  minSpreadBps, fractionBps, view);
    }
  }

  /** As written, a monitor whose pairs are known but whose token rows are
      not (an initialisation that failed on a missing token row) cannot trade
      even once the rows exist: the opportunity's log call throws before the
      threshold is checked, so the initialisation `executeArbitrage` would run
      again is never reached. */
  lemma {:induction false} NullLoggerBlocksTrade(uniswap: Option<PriceObservation>,
                                                 pancake: Option<PriceObservation>,
                                                 uniswapPair: TradingPair,
                                                 pancakePair: TradingPair, repo: Repository,
                                                 baseToken: Address, quoteToken: Address,
                                                 account: Address, minSpreadBps: real,
                                                 fractionBps: int, view: CycleView)
    requires pancake.Some? ==> pancake.value.price > 0.0
    requires Decide(uniswap, pancake, minSpreadBps).Execute?
    requires InitOutcome(repo, baseToken, quoteToken).Ok?
    ensures Settle(uniswap, pancake, uniswapPair, pancakePair, None, account, minSpreadBps,
                   fractionBps, view) == (Failed(NullLogger), None)
    ensures SettleIntended(uniswap, pancake, uniswapPair, pancakePair, None, repo, baseToken,
                           quoteToken, account, minSpreadBps, fractionBps, view).1.Some?
  {
    SettleFacts(uniswap, pancake, uniswapPair, pancakePair, None, account, minSpreadBps,
                fractionBps, view);
    SettleIntendedFacts(uniswap, pancake, uniswapPair, pancakePair, None, repo, baseToken,
                        quoteToken, account, minSpreadBps, fractionBps, view);
  }

  /** `Settle` as evidently intended: the log call is skipped while there is
      no logger, and a decision to trade reaches `executeArbitrage`, which
      initialises again when the token rows are unknown (taking the pairs and
      rows it then finds) and fails with that initialisation's error. */
  function SettleIntended(uniswap: Option<PriceObservation>, pancake: Option<PriceObservation>,
                          uniswapPair: TradingPair, pancakePair: TradingPair,
                          rows: Option<(Token, Token)>, repo: Repository, baseToken: Address,
                          quoteToken: Address, account: Address, minSpreadBps: real,
                          fractionBps: int, view: CycleView)
    : (o: (UpdateEnd, Option<Trade>))
    requires pancake.Some? ==> pancake.value.price > 0.0
  {
    var d := Decide(uniswap, pancake, minSpreadBps);
    var init := InitOutcome(repo, baseToken, quoteToken);
    if !d.Execute? then (Decided(uniswap, pancake, d, None), None)
    else if rows.None? && init.Err? then (Failed(init.error), None)
    else
      var known := if rows.Some? then rows.value
                   else (repo.tokens[baseToken], repo.tokens[quoteToken]);
      var uniswapNow := if rows.Some? then uniswapPair
                        else FindPair(repo.pairs, baseToken, quoteToken, UniswapV3).value;
      var pancakeNow := if rows.Some? then pancakePair
                        else FindPair(repo.pairs, baseToken, quoteToken, PancakeV3).value;
      var pairs := LegPairs(d.opportunity, uniswapNow, pancakeNow);
      var t := PlanTrade(pairs.0, pairs.1, known.0, known.1, account, fractionBps, view);
      (Decided(uniswap, pancake, d, Some(t.end)), Some(t))
  }

  /** With the log call guarded, an update never fails on a missing logger:
      it agrees with `Settle` whenever the token rows are known; a spread
      below the minimum is reported and never fails; and a decision to trade
      without token rows fails exactly when initialising again fails, with
      that error, and otherwise trades on the rows and pairs found. */
  lemma {:induction false} SettleIntendedFacts(uniswap: Option<PriceObservation>,
                                               pancake: Option<PriceObservation>,
                                               uniswapPair: TradingPair,
                                               pancakePair: TradingPair,
                                               rows: Option<(Token, Token)>, repo: Repository,
                                               baseToken: Address, quoteToken: Address,
                                               account: Address, minSpreadBps: real,
                                               fractionBps: int, view: CycleView)
    requires pancake.Some? ==> pancake.value.price > 0.0
    ensures var o := SettleIntended(uniswap, pancake, uniswapPair, pancakePair, rows, repo,
                                    baseToken, quoteToken, account, minSpreadBps,
                                    fractionBps, view);
      var d := Decide(uniswap, pancake, minSpreadBps);
      var init := InitOutcome(repo, baseToken, quoteToken);
      && (rows.Some? ==>
            o == Settle(uniswap, pancake, uniswapPair, pancakePair, rows, account,
                        minSpreadBps, fractionBps, view))
      && (o.0.Failed? <==> d.Execute? && rows.None? && init.Err?)
      && (o.0.Failed? ==> o.0.error == init.error && o.0.error != NullLogger)
      && (!d.Execute? ==> o == (Decided(uniswap, pancake, d, None), None))
      && (d.Execute? && rows.None? && init.Ok? ==>
            var found := (FindPair(repo.pairs, baseToken, quoteToken, UniswapV3).value,
                          FindPair(repo.pairs, baseToken, quoteToken, PancakeV3).value);
            var pairs := LegPairs(d.opportunity, found.0, found.1);
            o.1 == Some(PlanTrade(pairs.0, pairs.1, repo.tokens[baseToken],
                                  repo.tokens[quoteToken], account, fractionBps, view)))
  {
    SettleFacts(uniswap, pancake, uniswapPair, pancakePair, rows, account, minSpreadBps,
                fractionBps, view);
  }

  /** The fields of a monitor that initialisation assigns: the two pairs,
      the two token rows and the logger. */
  datatype Setup = Setup(uniswapPair: Option<TradingPair>, pancakePair: Option<TradingPair>,
                         baseMeta: Option<Token>, quoteMeta: Option<Token>,
                         logger: Option<string>)
  {
    /** The token rows, once both are known. */
    function Rows(): Option<(Token, Token)> {
      if baseMeta.Some? && quoteMeta.Some? then Some((baseMeta.value, quoteMeta.value)) else None
    }
  }

  /** What a monitor has done: the transaction counter, the transactions the
      node accepted and the metric rows written. */
  datatype Activity = Activity(txCount: nat, sent: seq<TxRequest>, metrics: seq<TraderMetric>)

  /** `TraderObserver`. The wallet is represented by its account address; the
      block subscriptions by their ids; the logger by its context; the
      transactions the node accepted and the metric rows written are logs. */
  class TraderObserver {
    const account: Address
    const baseToken: Address
    const quoteToken: Address
    /** `MIN_SPREAD_BPS` and `QUOTE_TRADE_FRACTION_BPS`, read from the
        environment when the monitor is built. */
    const minSpreadBps: real
    const quoteTradeFractionBps: int

    var tradingPairUniswap: Option<TradingPair>
    var tradingPairPancake: Option<TradingPair>
    var baseTokenMeta: Option<Token>
    var quoteTokenMeta: Option<Token>
    var logger: Option<string>
    var unwatchers: seq<nat>
    var isHandling: bool
    var txCount: nat

    /** The subscriptions cancelled, in order. */
    ghost var unwatched: seq<nat>
    /** The transactions the node accepted, in order. */
    ghost var sent: seq<TxRequest>
    /** The `traderMetric` rows written, in order. */
    ghost var metrics: seq<TraderMetric>

    /** Each pair, once found, is a row for this monitor's base and quote on
        its own venue. The two token rows and the logger are assigned
        together and never cleared. */
    ghost predicate Valid()
      reads this`tradingPairUniswap, this`tradingPairPancake
      reads this`baseTokenMeta, this`quoteTokenMeta, this`logger
    {
      && (tradingPairUniswap.Some? ==>
            PairMatches(tradingPairUniswap.value, baseToken, quoteToken, UniswapV3))
      && (tradingPairPancake.Some? ==>
            PairMatches(tradingPairPancake.value, baseToken, quoteToken, PancakeV3))
      && (baseTokenMeta.Some? <==> quoteTokenMeta.Some?)
      && (logger.Some? <==> baseTokenMeta.Some?)
    }

    /** The fields initialisation assigns, as they are now. */
    ghost function SetupNow(): Setup
      reads this`tradingPairUniswap, this`tradingPairPancake
      reads this`baseTokenMeta, this`quoteTokenMeta, this`logger
    {
      Setup(tradingPairUniswap, tradingPairPancake, baseTokenMeta, quoteTokenMeta, logger)
    }

    /** What the monitor has done so far, as it is now. */
    ghost function ActivityNow(): Activity
      reads this`txCount, this`sent, this`metrics
    {
      Activity(txCount, sent, metrics)
    }

    /** The fields `onModuleInit` leaves, from `before`: both pairs as found,
        and on success the token rows and the logger named after them; on
        failure those are as they were. */
    ghost function AfterInit(before: Setup, repo: Repository): Setup {
      var uniswapPair := FindPair(repo.pairs, baseToken, quoteToken, UniswapV3);
      var pancakePair := FindPair(repo.pairs, baseToken, quoteToken, PancakeV3);
      if InitOutcome(repo, baseToken, quoteToken).Ok? then
        var base := repo.tokens[baseToken];
        var quote := repo.tokens[quoteToken];
        Setup(uniswapPair, pancakePair, Some(base), Some(quote), Some(LoggerName(base, quote)))
      else
        before.(uniswapPair := uniswapPair, pancakePair := pancakePair)
    }

    /** The activity after a cycle that ran trade `t` (or none): the accepted
        sends appended and counted, and a metric row, with the new count,
        once the sell leg ran. */
    ghost function AfterTrade(before: Activity, t: Option<Trade>, rows: Option<(Token, Token)>,
                              view: CycleView): Activity {
      match t
      case None => before
      case Some(t) =>
        var count := before.txCount + |t.buySent| + |t.sellSent|;
        Activity(count, before.sent + t.buySent + t.sellSent,
                 before.metrics +
                   (if t.recordsMetric && rows.Some?
                    then [MetricOf(account, rows.value.0, rows.value.1, count, view)]
                    else []))
    }

    /** An update leaves the setup initialisation leaves when a pair was
        unset, with both pairs as found, and otherwise the setup it began
        with. */
    lemma UpdateSetup(setup: Setup, before: Activity, repo: Repository, view: CycleView)
      ensures AfterUpdate(setup, before, repo, view).1
                == if setup.uniswapPair.None? || setup.pancakePair.None? then AfterInit(setup, repo)
                   else setup
      ensures AfterInit(setup, repo).uniswapPair
                == FindPair(repo.pairs, baseToken, quoteToken, UniswapV3)
      ensures AfterInit(setup, repo).pancakePair
                == FindPair(repo.pairs, baseToken, quoteToken, PancakeV3)
    {
    }

    /** Initialising twice leaves what initialising once does. */
    lemma AfterInitTwice(setup: Setup, repo: Repository)
      ensures AfterInit(AfterInit(setup, repo), repo) == AfterInit(setup, repo)
    {
    }

    /** The activity a trade on known token rows leaves, field by field, is
        the one `AfterTrade` describes. */
    lemma TradeRecorded(before: Activity, after: Activity, t: Trade, base: Token, quote: Token,
                        view: CycleView)
      requires after.sent == before.sent + t.buySent + t.sellSent
      requires after.txCount == before.txCount + |t.buySent| + |t.sellSent|
      requires after.metrics == before.metrics +
                 (if t.recordsMetric then [MetricOf(account, base, quote, after.txCount, view)]
                  else [])
      ensures after == AfterTrade(before, Some(t), Some((base, quote)), view)
    {
    }

    /** One update with both pairs of `setup` known: the outcome
        `CycleOutcome` gives for those pairs and token rows, and the activity
        after it. */
    ghost function AfterCycle(setup: Setup, before: Activity, repo: Repository, view: CycleView)
      : (UpdateEnd, Activity)
      requires setup.uniswapPair.Some? && setup.pancakePair.Some?
    {
      var o := CycleOutcome(setup.uniswapPair.value, setup.pancakePair.value, repo, setup.Rows(),
                            account, minSpreadBps, quoteTradeFractionBps, view);
      (o.0, AfterTrade(before, o.1, setup.Rows(), view))
    }

    /** What `handlePoolUpdate` does between setting and clearing the
        in-flight flag, from `setup` and `before`: initialise when a pair is
        unset, where a failure ends the update; then the cycle on the pairs
        and token rows as they then are. */
    ghost function AfterUpdate(setup: Setup, before: Activity, repo: Repository, view: CycleView)
      : (UpdateEnd, Setup, Activity)
    {
      var initRan := setup.uniswapPair.None? || setup.pancakePair.None?;
      var setup' := if initRan then AfterInit(setup, repo) else setup;
      if initRan && InitOutcome(repo, baseToken, quoteToken).Err? then
        (Failed(InitOutcome(repo, baseToken, quoteToken).error), setup', before)
      else
        var cycle := AfterCycle(setup', before, repo, view);
        (cycle.0, setup', cycle.1)
    }

    /** What `attachWatchers` does to `setup`: initialise when a pair is
        unset, with that outcome, and otherwise nothing. */
    ghost function AfterAttach(setup: Setup, repo: Repository): (Result<()>, Setup) {
      if setup.uniswapPair.None? || setup.pancakePair.None? then
        (InitOutcome(repo, baseToken, quoteToken), AfterInit(setup, repo))
      else
        (Ok(()), setup)
    }

    /** What the rest of `attachWatchers` does to `setup` once its check has
        found `pairUnset`. */
    ghost function AfterAttachSeen(setup: Setup, repo: Repository, pairUnset: bool)
      : (Result<()>, Setup)
    {
      if pairUnset then (InitOutcome(repo, baseToken, quoteToken), AfterInit(setup, repo))
      else (Ok(()), setup)
    }

    /** Finishing `attachWatchers` on the setup an update left (or on `setup`
        itself, when the update was skipped), after checking the setup the
        update began with, does what `attachWatchers` would have done on that
        earlier setup. */
    lemma AttachOnUpdated(setup: Setup, updated: Setup, repo: Repository)
      requires updated == setup
               || updated == if setup.uniswapPair.None? || setup.pancakePair.None?
                             then AfterInit(setup, repo) else setup
      ensures AfterAttachSeen(updated, repo, setup.uniswapPair.None? || setup.pancakePair.None?)
                == AfterAttach(setup, repo)
    {
      AfterInitTwice(setup, repo);
    }

    /** An update (or its skip) followed by the rest of `attachWatchers`,
        after a check made on the setup the update began with, is what
        `AfterStart` describes. */
    lemma StartComposes(setup: Setup, before: Activity, handling: bool, repo: Repository,
                        view: CycleView, subscription: nat, updated: (UpdateEnd, Setup, Activity),
                        attached: (Result<()>, Setup), subscriptions: seq<nat>)
      requires updated == if handling then (Busy, setup, before)
                          else AfterUpdate(setup, before, repo, view)
      requires attached == AfterAttachSeen(updated.1, repo,
                                           setup.uniswapPair.None? || setup.pancakePair.None?)
      requires subscriptions == if attached.0.Ok? then [subscription] else []
      ensures (updated.0, attached.1, updated.2, subscriptions)
                == AfterStart(setup, before, handling, repo, view, subscription)
    {
      if !handling {
        UpdateSetup(setup, before, repo, view);
      }
      AttachOnUpdated(setup, updated.1, repo);
    }

    /** What `start` does when not yet subscribed, from `setup`, `before` and
        the in-flight flag `handling`. Neither call is awaited, so
        `attachWatchers` checks the pairs before the update's initialisation
        has stored anything: both decide on `setup`. The update runs (or is
        skipped while one is in flight); `attachWatchers` initialises on its
        own when a pair of `setup` is unset and keeps `subscription` iff that
        succeeds. The parts are the update's end, the setup, the activity and
        the subscriptions. */
    ghost function AfterStart(setup: Setup, before: Activity, handling: bool, repo: Repository,
                              view: CycleView, subscription: nat)
      : (UpdateEnd, Setup, Activity, seq<nat>)
    {
      var update := if handling then (Busy, setup, before) else AfterUpdate(setup, before, repo, view);
      var attach := AfterAttach(setup, repo);
      (update.0, attach.1, update.2, if attach.0.Ok? then [subscription] else [])
    }

    /** `start` keeps the subscription exactly when both pairs were already
        known or the initialisation `attachWatchers` runs succeeds, whether
        or not another update is in flight. A kept subscription comes with
        both pairs known. A skipped update leaves the activity alone;
        otherwise the setup and activity are the update's, since
        initialising again changes nothing. */
    lemma {:induction false} StartFacts(setup: Setup, before: Activity, handling: bool,
                                        repo: Repository, view: CycleView, subscription: nat)
      ensures var s := AfterStart(setup, before, handling, repo, view, subscription);
        var initRan := setup.uniswapPair.None? || setup.pancakePair.None?;
        && (s.3 == [] || s.3 == [subscription])
        && (s.3 == [subscription] <==> !initRan || InitOutcome(repo, baseToken, quoteToken).Ok?)
        && (s.3 == [subscription] ==> s.1.uniswapPair.Some? && s.1.pancakePair.Some?)
        && (handling ==>
              && s.0 == Busy && s.2 == before
              && s.1 == (if initRan then AfterInit(setup, repo) else setup))
        && (!handling ==> (s.0, s.1, s.2) == AfterUpdate(setup, before, repo, view))
    {
      UpdateSetup(setup, before, repo, view);
    }

    constructor (account: Address, baseToken: Address, quoteToken: Address,
                 minSpreadBps: real, quoteTradeFractionBps: int)
      ensures Valid()
      ensures this.account == account && this.baseToken == baseToken
      ensures this.quoteToken == quoteToken && this.minSpreadBps == minSpreadBps
      ensures this.quoteTradeFractionBps == quoteTradeFractionBps
      ensures tradingPairUniswap.None? && tradingPairPancake.None?
      ensures baseTokenMeta.None? && quoteTokenMeta.None? && logger.None?
      ensures unwatchers == [] && !isHandling && txCount == 0
      ensures unwatched == [] && sent == [] && metrics == []
    {
      this.account := account;
      this.baseToken := baseToken;
      this.quoteToken := quoteToken;
      this.minSpreadBps := minSpreadBps;
      this.quoteTradeFractionBps := quoteTradeFractionBps;
      tradingPairUniswap := None;
      tradingPairPancake := None;
      baseTokenMeta := None;
      quoteTokenMeta := None;
      logger := None;
      unwatchers := [];
      isHandling := false;
      txCount := 0;
      unwatched := [];
      sent := [];
      metrics := [];
    }

    /** `onModuleInit`: look both pairs up (assigning them before checking
        them), fail on a missing pair or token row, then keep the token rows
        and create the logger. */
    method OnModuleInit(repo: Repository) returns (r: Result<()>)
      requires Valid()
      modifies this`tradingPairUniswap, this`tradingPairPancake
      modifies this`baseTokenMeta, this`quoteTokenMeta, this`logger
      ensures Valid()
      ensures r == InitOutcome(repo, baseToken, quoteToken)
      ensures SetupNow() == AfterInit(old(SetupNow()), repo)
      ensures tradingPairUniswap.None? ==> r == Err(TradingPairNotFound(UniswapV3))
      ensures tradingPairUniswap.Some? && tradingPairPancake.None? ==>
                r == Err(TradingPairNotFound(PancakeV3))
      ensures tradingPairUniswap.Some? && tradingPairPancake.Some? ==>
                (r == Err(TokenMetadataNotFound) <==>
                   baseToken !in repo.tokens || quoteToken !in repo.tokens)
    {
      tradingPairUniswap := FindPair(repo.pairs, baseToken, quoteToken, UniswapV3);
      tradingPairPancake := FindPair(repo.pairs, baseToken, quoteToken, PancakeV3);
      if tradingPairUniswap.None? {
        return Err(TradingPairNotFound(UniswapV3));
      }
      if tradingPairPancake.None? {
        return Err(TradingPairNotFound(PancakeV3));
      }
      if baseToken !in repo.tokens || quoteToken !in repo.tokens {
        return Err(TokenMetadataNotFound);
      }
      baseTokenMeta := Some(repo.tokens[baseToken]);
      quoteTokenMeta := Some(repo.tokens[quoteToken]);
      logger := Some(LoggerName(baseTokenMeta.value, quoteTokenMeta.value));
      r := Ok(());
    }

    /** `start`: nothing while subscribed; otherwise one price update, then
        `attachWatchers` with the block subscription `subscription`, which is
        kept iff `attachWatchers` succeeds, deciding on the pairs as they
        were before the update (see `StartFacts`). */
    method Start(repo: Repository, view: CycleView, subscription: nat)
      returns (update: Option<UpdateEnd>)
      requires Valid()
      modifies this`tradingPairUniswap, this`tradingPairPancake
      modifies this`baseTokenMeta, this`quoteTokenMeta, this`logger, this`isHandling
      modifies this`txCount, this`sent, this`metrics, this`unwatchers
      ensures Valid()
      ensures old(unwatchers) != [] ==> update.None? && unchanged(this)
      ensures old(unwatchers) == [] ==>
        && update.Some? && isHandling == old(isHandling)
        && (update.value, SetupNow(), ActivityNow(), unwatchers)
             == AfterStart(old(SetupNow()), old(ActivityNow()), old(isHandling), repo, view,
                           subscription)
    {
      if |unwatchers| > 0 {
        return None;
      }
      var r := Launch(repo, view, subscription);
      update := Some(r);
    }

    /** The body of `start` once no subscription is held: the update is
        started and `attachWatchers` checks the pairs before either awaits,
        so both see the same setup. */
    method Launch(repo: Repository, view: CycleView, subscription: nat) returns (r: UpdateEnd)
      requires Valid() && unwatchers == []
      modifies this`tradingPairUniswap, this`tradingPairPancake
      modifies this`baseTokenMeta, this`quoteTokenMeta, this`logger, this`isHandling
      modifies this`txCount, this`sent, this`metrics, this`unwatchers
      ensures Valid() && isHandling == old(isHandling)
      ensures (r, SetupNow(), ActivityNow(), unwatchers)
                == AfterStart(old(SetupNow()), old(ActivityNow()), old(isHandling), repo, view,
                              subscription)
    {
      ghost var setup, before, handling := SetupNow(), ActivityNow(), isHandling;
      var pairUnset := tradingPairUniswap.None? || tradingPairPancake.None?;
      r := HandlePoolUpdate(repo, view);
      ghost var updated := (r, SetupNow(), ActivityNow());
      assert updated == if handling then (Busy, setup, before)
                        else AfterUpdate(setup, before, repo, view);
      var attached := AttachAfterCheck(repo, subscription, pairUnset);
      StartComposes(setup, before, handling, repo, view, subscription, updated,
                    (attached, SetupNow()), unwatchers);
    }

    /** `stop`: cancel every subscription, in order, and forget them. */
    method Stop()
      modifies this`unwatchers, this`unwatched
      ensures unwatched == old(unwatched) + old(unwatchers)
      ensures unwatchers == []
    {
      var i := 0;
      while i < |unwatchers|
        invariant 0 <= i <= |unwatchers|
        invariant unwatchers == old(unwatchers)
        invariant unwatched == old(unwatched) + unwatchers[..i]
      {
        unwatched := unwatched + [unwatchers[i]];
        i := i + 1;
      }
      assert unwatchers[..i] == unwatchers;
      unwatchers := [];
    }

    /** `attachWatchers`: initialise first when a pair is unset, then keep the
        subscription. A failed initialisation attaches nothing. */
    method AttachWatchers(repo: Repository, subscription: nat) returns (r: Result<()>)
      requires Valid()
      modifies this`tradingPairUniswap, this`tradingPairPancake
      modifies this`baseTokenMeta, this`quoteTokenMeta, this`logger, this`unwatchers
      ensures Valid()
      ensures r.Ok? ==> unwatchers == old(unwatchers) + [subscription]
      ensures r.Err? ==> unwatchers == old(unwatchers)
      ensures r.Ok? ==> tradingPairUniswap.Some? && tradingPairPancake.Some?
      ensures (r, SetupNow()) == AfterAttach(old(SetupNow()), repo)
      ensures ActivityNow() == old(ActivityNow()) && isHandling == old(isHandling)
    {
      r := AttachAfterCheck(repo, subscription,
                            tradingPairUniswap.None? || tradingPairPancake.None?);
    }

    /** The rest of `attachWatchers` once its check has found `pairUnset`:
        initialise if so, where a failure attaches nothing, then keep the
        subscription. */
    method AttachAfterCheck(repo: Repository, subscription: nat, pairUnset: bool)
      returns (r: Result<()>)
      requires Valid()
      modifies this`tradingPairUniswap, this`tradingPairPancake
      modifies this`baseTokenMeta, this`quoteTokenMeta, this`logger, this`unwatchers
      ensures Valid()
      ensures r.Ok? ==> unwatchers == old(unwatchers) + [subscription]
      ensures r.Err? ==> unwatchers == old(unwatchers)
      ensures (r, SetupNow()) == AfterAttachSeen(old(SetupNow()), repo, pairUnset)
      ensures ActivityNow() == old(ActivityNow()) && isHandling == old(isHandling)
    {
      if pairUnset {
        r := OnModuleInit(repo);
        if r.Err? {
          return;
        }
      }
      unwatchers := unwatchers + [subscription];
      r := Ok(());
    }

    /** `handlePoolUpdate`: skip while another update is in flight; otherwise
        initialise when a pair is unset, read both venues' prices, decide,
        and trade when the spread is wide enough. The in-flight flag is
        cleared on every way out, errors included. */
    method HandlePoolUpdate(repo: Repository, view: CycleView) returns (r: UpdateEnd)
      requires Valid()
      modifies this`tradingPairUniswap, this`tradingPairPancake
      modifies this`baseTokenMeta, this`quoteTokenMeta, this`logger, this`isHandling
      modifies this`txCount, this`sent, this`metrics
      ensures Valid()
      ensures old(isHandling) ==> r == Busy && unchanged(this)
      ensures !old(isHandling) ==>
        && !isHandling && r != Busy
        && (r, SetupNow(), ActivityNow())
             == AfterUpdate(old(SetupNow()), old(ActivityNow()), repo, view)
    {
      if isHandling {
        return Busy;
      }
      isHandling := true;
      r := Update(repo, view);
      isHandling := false;
    }

    /** The body of `handlePoolUpdate` between setting and clearing the
        in-flight flag. */
    method Update(repo: Repository, view: CycleView) returns (r: UpdateEnd)
      requires Valid()
      modifies this`tradingPairUniswap, this`tradingPairPancake
      modifies this`baseTokenMeta, this`quoteTokenMeta, this`logger
      modifies this`txCount, this`sent, this`metrics
      ensures Valid() && r != Busy
      ensures (r, SetupNow(), ActivityNow())
                == AfterUpdate(old(SetupNow()), old(ActivityNow()), repo, view)
    {
      if tradingPairUniswap.None? || tradingPairPancake.None? {
        var init := OnModuleInit(repo);
        if init.Err? {
          return Failed(init.error);
        }
      }
      r := PriceCycle(repo, view);
    }

    /** One update once both pairs are known: read both prices, then decide
        and possibly trade on them. */
    method PriceCycle(repo: Repository, view: CycleView) returns (r: UpdateEnd)
      requires Valid() && tradingPairUniswap.Some? && tradingPairPancake.Some?
      modifies this`tradingPairUniswap, this`tradingPairPancake
      modifies this`baseTokenMeta, this`quoteTokenMeta, this`logger
      modifies this`txCount, this`sent, this`metrics
      ensures Valid() && r != Busy
      ensures SetupNow() == old(SetupNow())
      ensures (r, ActivityNow()) == AfterCycle(SetupNow(), old(ActivityNow()), repo, view)
    {
      var prices := ReadPrices(repo, view);
      if prices.Err? {
        return Failed(prices.error);
      }
      r := Act(prices.value.0, prices.value.1, repo, view);
    }

    /** Both venues' prices, read together; the Uniswap read's error is the
        one reported when both fail. */
    method ReadPrices(repo: Repository, view: CycleView)
      returns (r: Result<(Option<PriceObservation>, Option<PriceObservation>)>)
      requires Valid() && tradingPairUniswap.Some? && tradingPairPancake.Some?
      ensures r == ReadBoth(tradingPairUniswap, tradingPairPancake, repo, view.poolState)
      ensures var uniswap := FetchPrice(tradingPairUniswap, repo, view.poolState);
        var pancake := FetchPrice(tradingPairPancake, repo, view.poolState);
        && (r.Err? <==> uniswap.Err? || pancake.Err?)
        && (r.Err? ==> r.error == (if uniswap.Err? then uniswap.error else pancake.error))
        && (r.Ok? ==> r.value == (uniswap.value, pancake.value))
      ensures r.Ok? ==>
        && r.value.0.Some? && r.value.1.Some?
        && r.value.0.value.exchange == UniswapV3 && r.value.1.value.exchange == PancakeV3
        && r.value.0.value.price > 0.0 && r.value.1.value.price > 0.0
    {
      var uniswap := FetchPrice(tradingPairUniswap, repo, view.poolState);
      var pancake := FetchPrice(tradingPairPancake, repo, view.poolState);
      if uniswap.Err? {
        return Err(uniswap.error);
      }
      if pancake.Err? {
        return Err(pancake.error);
      }
      r := Ok((uniswap.value, pancake.value));
    }

    /** The end of `handlePoolUpdate` once both prices are read: decide; log
        an opportunity, which throws while no logger exists; and trade when
        the spread clears the threshold. With a logger the token rows are
        known, so `executeArbitrage` never initialises again here. */
    method Act(uniswap: Option<PriceObservation>, pancake: Option<PriceObservation>,
               repo: Repository, view: CycleView)
      returns (r: UpdateEnd)
      requires Valid() && tradingPairUniswap.Some? && tradingPairPancake.Some?
      requires pancake.Some? ==> pancake.value.price > 0.0
      modifies this`tradingPairUniswap, this`tradingPairPancake
      modifies this`baseTokenMeta, this`quoteTokenMeta, this`logger
      modifies this`txCount, this`sent, this`metrics
      ensures Valid() && r != Busy
      ensures SetupNow() == old(SetupNow())
      ensures var o := Settle(uniswap, pancake, tradingPairUniswap.value,
                              tradingPairPancake.value, SetupNow().Rows(), account, minSpreadBps,
                              quoteTradeFractionBps, view);
        r == o.0 && ActivityNow() == AfterTrade(old(ActivityNow()), o.1, SetupNow().Rows(), view)
    {
      var decision := Decide(uniswap, pancake, minSpreadBps);
      if (decision.Execute? || decision.BelowMinimum?) && logger.None? {
        return Failed(NullLogger);
      }
      if !decision.Execute? {
        return Decided(uniswap, pancake, decision, None);
      }
      ghost var before := ActivityNow();
      var trade := ExecuteArbitrage(decision.opportunity, repo, view);
      r := Decided(uniswap, pancake, decision, Some(trade.value));
      ghost var pairs := LegPairs(decision.opportunity, tradingPairUniswap.value,
                                  tradingPairPancake.value);
      ghost var t := PlanTrade(pairs.0, pairs.1, baseTokenMeta.value, quoteTokenMeta.value,
                               account, quoteTradeFractionBps, view);
      TradeRecorded(before, ActivityNow(), t, baseTokenMeta.value, quoteTokenMeta.value, view);
    }

    /** `executeArbitrage`: nothing without both pairs; initialise again when
        a token row is unknown, where a failure is thrown; then the trade on
        the two pairs the opportunity names. */
    method ExecuteArbitrage(opportunity: Opportunity, repo: Repository, view: CycleView)
      returns (r: Result<TradeEnd>)
      requires Valid()
      modifies this`tradingPairUniswap, this`tradingPairPancake
      modifies this`baseTokenMeta, this`quoteTokenMeta, this`logger
      modifies this`txCount, this`sent, this`metrics
      ensures Valid()
      ensures old(tradingPairUniswap).None? || old(tradingPairPancake).None? ==>
        r == Ok(PairsUnset) && unchanged(this)
      ensures old(tradingPairUniswap).Some? && old(tradingPairPancake).Some? ==>
        var reinit := old(baseTokenMeta).None? || old(quoteTokenMeta).None?;
        && (reinit ==> SetupNow() == AfterInit(old(SetupNow()), repo))
        && (!reinit ==> SetupNow() == old(SetupNow()))
        && (r.Err? <==> reinit && InitOutcome(repo, baseToken, quoteToken).Err?)
        && (r.Err? ==> r.error == InitOutcome(repo, baseToken, quoteToken).error)
      ensures r.Err? ==> ActivityNow() == old(ActivityNow())
      ensures old(tradingPairUniswap).Some? && old(tradingPairPancake).Some? && r.Ok? ==>
        && tradingPairUniswap.Some? && tradingPairPancake.Some?
        && baseTokenMeta.Some? && quoteTokenMeta.Some?
        && var pairs := LegPairs(opportunity, tradingPairUniswap.value, tradingPairPancake.value);
           var t := PlanTrade(pairs.0, pairs.1, baseTokenMeta.value, quoteTokenMeta.value,
                              account, quoteTradeFractionBps, view);
           && r.value == t.end
           && sent == old(sent) + t.buySent + t.sellSent
           && txCount == old(txCount) + |t.buySent| + |t.sellSent|
           && metrics == old(metrics) +
                (if t.recordsMetric
                 then [MetricOf(account, baseTokenMeta.value, quoteTokenMeta.value, txCount, view)]
                 else [])
      ensures |metrics| <= |old(metrics)| + 1
    {
      if tradingPairUniswap.None? || tradingPairPancake.None? {
        return Ok(PairsUnset);
      }
      if baseTokenMeta.None? || quoteTokenMeta.None? {
        var init := OnModuleInit(repo);
        if init.Err? {
          return Err(init.error);
        }
      }
      var pairs := LegPairs(opportunity, tradingPairUniswap.value, tradingPairPancake.value);
      var end;
      ghost var t;
      end, t := RunTrade(pairs.0, pairs.1, baseTokenMeta.value, quoteTokenMeta.value, view);
      r := Ok(end);
    }

    /** The two legs of a trade on known pairs and tokens, as `PlanTrade`
        describes them: sent through the wallet, counted in `txCount` and
        followed, once the sell leg has run, by a metric row. */
    method RunTrade(buyPair: TradingPair, sellPair: TradingPair, base: Token, quote: Token,
                    view: CycleView)
      returns (end: TradeEnd, ghost t: Trade)
      requires baseTokenMeta == Some(base) && quoteTokenMeta == Some(quote)
      modifies this`txCount, this`sent, this`metrics
      ensures t == PlanTrade(buyPair, sellPair, base, quote, account, quoteTradeFractionBps, view)
      ensures end == t.end
      ensures sent == old(sent) + t.buySent + t.sellSent
      ensures txCount == old(txCount) + |t.buySent| + |t.sellSent|
      ensures metrics == old(metrics) +
                (if t.recordsMetric then [MetricOf(account, base, quote, txCount, view)] else [])
    {
      var buyAdapter := new UniswapV3Adapter(buyPair.exchange);
      var sellAdapter := new UniswapV3Adapter(sellPair.exchange);
      var amountIn := TradeSize(view.quoteBalance, quoteTradeFractionBps);
      if amountIn <= 0 {
        InsufficientQuotePlan(buyPair, sellPair, base, quote, account, quoteTradeFractionBps, view);
        return InsufficientQuote, Trade(InsufficientQuote, [], [], false);
      }
      var baseBalanceBefore := view.baseBalanceBefore;
      var buyTxs, buyOk, currentNonce := BuyAndSend(buyAdapter, buyPair, base, quote, amountIn,
                                                    view);
      if buyOk < |buyTxs| {
        BuyRevertedPlan(buyPair, sellPair, base, quote, account, quoteTradeFractionBps, view,
                        buyTxs, buyOk);
        return BuyReverted(buyOk), Trade(BuyReverted(buyOk), buyTxs[..buyOk], [], false);
      }
      assert buyTxs[..buyOk] == buyTxs;
      var baseToSell := view.baseBalanceAfter - baseBalanceBefore;
      if baseToSell <= 0 {
        NothingBoughtPlan(buyPair, sellPair, base, quote, account, quoteTradeFractionBps, view,
                          buyTxs);
        return NothingBought, Trade(NothingBought, buyTxs, [], false);
      }
      assert buyOk == |buyTxs|;
      var sellTxs, sellOk := SellAndRecord(sellAdapter, sellPair, base, quote, baseToSell,
                                           currentNonce, view);
      SellLegRanPlan(buyPair, sellPair, base, quote, account, quoteTradeFractionBps, view,
                     amountIn, buyTxs, baseToSell, sellTxs, sellOk, currentNonce);
      end := SellLegRan(sellOk, |sellTxs|);
      t := Trade(end, buyTxs, WithNonces(sellTxs, currentNonce)[..sellOk], true);
    }

    /** The buy leg of `executeArbitrage`: quote and build the swap of
        `amountIn` of the quote token, then send its transactions as built
        until one is rejected, counting nonces from the account's
        transaction count. */
    method BuyAndSend(buyAdapter: UniswapV3Adapter, buyPair: TradingPair, base: Token,
                      quote: Token, amountIn: nat, view: CycleView)
      returns (buyTxs: seq<TxRequest>, buyOk: nat, nextNonce: nat)
      requires buyAdapter.Valid() && buyAdapter.exchangeId == buyPair.exchange
      requires amountIn > 0
      modifies this`txCount, this`sent
      ensures buyTxs == BuyLeg(buyPair, base, quote, account, amountIn, view)
      ensures buyOk == LeadingAccepted(|buyTxs|, view.buyAccepted)
      ensures nextNonce == view.transactionCount + buyOk
      ensures sent == old(sent) + buyTxs[..buyOk] && txCount == old(txCount) + buyOk
    {
      buyTxs := BuildLeg(buyAdapter, quote.address, base.address, amountIn, buyPair,
                         view.buyQuoter, view.buyAllowance, view.buyNowMs, view);
      buyOk, nextNonce := SendBuyLeg(buyTxs, view.buyAccepted, view.transactionCount);
    }

    /** The sell leg of `executeArbitrage`: quote and build the swap of
        `baseToSell`, send its transactions with nonces from `nonce` until one
        is rejected, then record the metric row. */
    method SellAndRecord(sellAdapter: UniswapV3Adapter, sellPair: TradingPair, base: Token,
                         quote: Token, baseToSell: nat, nonce: nat, view: CycleView)
      returns (sellTxs: seq<TxRequest>, sellOk: nat)
      requires sellAdapter.Valid() && sellAdapter.exchangeId == sellPair.exchange
      requires baseTokenMeta == Some(base) && quoteTokenMeta == Some(quote)
      requires baseToSell > 0
      modifies this`txCount, this`sent, this`metrics
      ensures sellTxs == SellLeg(sellPair, base, quote, account, baseToSell, view)
      ensures sellOk == LeadingAccepted(|sellTxs|, view.sellAccepted)
      ensures sent == old(sent) + WithNonces(sellTxs, nonce)[..sellOk]
      ensures txCount == old(txCount) + sellOk
      ensures metrics == old(metrics) + [MetricOf(account, base, quote, txCount, view)]
    {
      sellTxs := BuildLeg(sellAdapter, base.address, quote.address, baseToSell, sellPair,
                          view.sellQuoter, view.sellAllowance, view.sellNowMs, view);
      var nextNonce;
      sellOk, nextNonce := SendSellLeg(sellTxs, view.sellAccepted, nonce);
      RecordMetrics(view);
    }

    /** One leg's quote and swap through the venue's adapter. */
    method BuildLeg(adapter: UniswapV3Adapter, tokenIn: Address, tokenOut: Address,
                    amountIn: nat, pair: TradingPair, quoter: QuoterCall -> QuoterOutput,
                    allowance: nat, nowMs: nat, view: CycleView)
      returns (txs: seq<TxRequest>)
      requires adapter.Valid() && adapter.exchangeId == pair.exchange
      ensures txs == LegTxs(account, tokenIn, tokenOut, amountIn, pair, quoter, allowance,
                            nowMs, view)
    {
      var fee := view.poolFee(pair.poolAddress);
      var quoted := adapter.Quote(LegQuote(tokenIn, tokenOut, amountIn, pair), fee, quoter);
      var expectedOut := if quoted.ExactInQuote? then quoted.amountOut else 0;
      var minOut := (expectedOut * (BpsDenominator - SlippageBps)) / BpsDenominator;
      txs := adapter.Swap(account, LegSwap(tokenIn, tokenOut, amountIn, minOut, pair),
                          DefaultApprovalSetting, fee, allowance, nowMs, view.chainId);
    }

    /** The buy leg's sends: each transaction as built (the wallet picks its
        nonce), stopping at the first one rejected. */
    method SendBuyLeg(txs: seq<TxRequest>, accepted: nat -> bool, nonce: nat)
      returns (k: nat, nextNonce: nat)
      modifies this`txCount, this`sent
      ensures k == LeadingAccepted(|txs|, accepted)
      ensures nextNonce == nonce + k
      ensures sent == old(sent) + txs[..k] && txCount == old(txCount) + k
    {
      k, nextNonce := 0, nonce;
      while k < |txs|
        invariant k <= |txs| && nextNonce == nonce + k
        invariant forall i | 0 <= i < k :: accepted(i)
        invariant sent == old(sent) + txs[..k] && txCount == old(txCount) + k
      {
        if !accepted(k) {
          return;
        }
        sent := sent + [txs[k]];
        nextNonce := nextNonce + 1;
        txCount := txCount + 1;
        k := k + 1;
      }
    }

    /** The sell leg's sends: each transaction given the next nonce, stopping
        at the first one rejected. */
    method SendSellLeg(txs: seq<TxRequest>, accepted: nat -> bool, nonce: nat)
      returns (k: nat, nextNonce: nat)
      modifies this`txCount, this`sent
      ensures k == LeadingAccepted(|txs|, accepted)
      ensures nextNonce == nonce + k
      ensures sent == old(sent) + WithNonces(txs, nonce)[..k] && txCount == old(txCount) + k
    {
      k, nextNonce := 0, nonce;
      while k < |txs|
        invariant k <= |txs| && nextNonce == nonce + k
        invariant forall i | 0 <= i < k :: accepted(i)
        invariant sent == old(sent) + WithNonces(txs, nonce)[..k] && txCount == old(txCount) + k
      {
        var tx := txs[k].(nonce := Some(nextNonce));
        if !accepted(k) {
          break;
        }
        ghost var nonced := WithNonces(txs, nonce);
        assert nonced[..k + 1] == nonced[..k] + [tx];
        sent := sent + [tx];
        nextNonce := nextNonce + 1;
        txCount := txCount + 1;
        k := k + 1;
      }
    }

    /** `recordMetrics`: with both token rows known, write the wallet's
        balances in whole tokens and the transaction count. */
    method RecordMetrics(view: CycleView)
      modifies this`metrics
      ensures baseTokenMeta.Some? && quoteTokenMeta.Some? ==>
        metrics == old(metrics) +
          [MetricOf(account, baseTokenMeta.value, quoteTokenMeta.value, txCount, view)]
      ensures baseTokenMeta.None? || quoteTokenMeta.None? ==> metrics == old(metrics)
    {
      if baseTokenMeta.None? || quoteTokenMeta.None? {
        return;
      }
      var base := baseTokenMeta.value;
      var quote := quoteTokenMeta.value;
      var baseRaw := BigIntToDecimalString(view.finalBaseBalance, Pow10(base.decimals));
      var quoteRaw := BigIntToDecimalString(view.finalQuoteBalance, Pow10(quote.decimals));
      NormalizedViaDecimalString(view.finalBaseBalance, base.decimals);
      NormalizedViaDecimalString(view.finalQuoteBalance, quote.decimals);
      var baseBalanceNormalized := DecimalValue(baseRaw.value).value;
      var quoteBalanceNormalized := DecimalValue(quoteRaw.value).value;
      metrics := metrics + [TraderMetric(account, base.address, quote.address, Subscription,
                                         view.metricBlock, txCount, baseBalanceNormalized,
                                         quoteBalanceNormalized)];
    }
  }
}
