/** The polling classifier (backend/src/traders/polling/trader-polling.service.ts):
    on each poll it reads both venues' prices for one base/quote pair and
    reports the spread and the opportunity it signals, without trading. */
module Polling {
  import opened Common
  import opened Prices

  /** What one poll reports: both observations, the spread of Uniswap over
      PancakeSwap and the opportunity, if any. */
  datatype PollResult = PollResult(uniswap: PriceObservation, pancake: PriceObservation,
                                   spread: real, opportunity: Option<Opportunity>)

  /** The report built from the two fetched prices: nothing when either is
      missing; otherwise the spread relative to the PancakeSwap price and the
      venue to buy on, which is the cheaper one. */
  function Report(uniswap: Option<PriceObservation>, pancake: Option<PriceObservation>)
    : (r: Option<PollResult>)
    requires pancake.Some? ==> pancake.value.price > 0.0
    ensures r.None? <==> uniswap.None? || pancake.None?
    ensures r.Some? ==>
      var u, p := uniswap.value.price, pancake.value.price;
      && r.value.uniswap == uniswap.value
      && r.value.pancake == pancake.value
      && r.value.spread * p == u - p
      && (r.value.opportunity == Some(BuyPancakeSellUniswap) <==> p < u)
      && (r.value.opportunity == Some(BuyUniswapSellPancake) <==> u < p)
      && (r.value.opportunity.None? <==> u == p)
  {
    if uniswap.None? || pancake.None? then None
    else
      var spread := Spread(uniswap.value.price, pancake.value.price);
      ClassifyComparesPrices(uniswap.value.price, pancake.value.price);
      Some(PollResult(uniswap.value, pancake.value, spread, Classify(spread)))
  }

  /** `TraderPollingService`: one base/quote pair and its two venues' trading
      pairs, looked up lazily. */
  class TraderPollingService {
    const baseToken: Address
    const quoteToken: Address
    var tradingPairUniswap: Option<TradingPair>
    var tradingPairPancake: Option<TradingPair>

    /** A pair that is set is this service's pair on its venue. */
    ghost predicate Valid()
      reads this`tradingPairUniswap, this`tradingPairPancake
    {
      && (tradingPairUniswap.Some? ==>
            PairMatches(tradingPairUniswap.value, baseToken, quoteToken, UniswapV3))
      && (tradingPairPancake.Some? ==>
            PairMatches(tradingPairPancake.value, baseToken, quoteToken, PancakeV3))
    }

    constructor(baseToken: Address, quoteToken: Address)
      ensures this.baseToken == baseToken && this.quoteToken == quoteToken
      ensures tradingPairUniswap.None? && tradingPairPancake.None?
      ensures Valid()
    {
      this.baseToken := baseToken;
      this.quoteToken := quoteToken;
      tradingPairUniswap := None;
      tradingPairPancake := None;
    }

    /** `onModuleInit`: look both venues' pairs up, assigning them before
        checking them, and fail on the first one missing, Uniswap first. */
    method OnModuleInit(repo: Repository) returns (r: Result<()>)
      modifies this`tradingPairUniswap, this`tradingPairPancake
      ensures Valid()
      ensures tradingPairUniswap == FindPair(repo.pairs, baseToken, quoteToken, UniswapV3)
      ensures tradingPairPancake == FindPair(repo.pairs, baseToken, quoteToken, PancakeV3)
      ensures tradingPairUniswap.None? ==> r == Err(TradingPairNotFound(UniswapV3))
      ensures tradingPairUniswap.Some? && tradingPairPancake.None? ==>
                r == Err(TradingPairNotFound(PancakeV3))
      ensures r.Ok? <==> tradingPairUniswap.Some? && tradingPairPancake.Some?
    {
      tradingPairUniswap := FindPair(repo.pairs, baseToken, quoteToken, UniswapV3);
      tradingPairPancake := FindPair(repo.pairs, baseToken, quoteToken, PancakeV3);
      if tradingPairUniswap.None? {
        return Err(TradingPairNotFound(UniswapV3));
      }
      if tradingPairPancake.None? {
        return Err(TradingPairNotFound(PancakeV3));
      }
      r := Ok(());
    }

    /** `poll`: initialise when a pair is unset (failing as initialisation
        does), read both prices (a Uniswap failure reported first), and report
        them. Once both pairs are known the poll never yields nothing: it
        fails or reports both prices. `poolState` stands for the chain. */
    method Poll(repo: Repository, poolState: Address -> PoolState)
      returns (r: Result<Option<PollResult>>)
      requires Valid()
      modifies this`tradingPairUniswap, this`tradingPairPancake
      ensures Valid()
      ensures old(tradingPairUniswap).Some? && old(tradingPairPancake).Some? ==>
                unchanged(this`tradingPairUniswap, this`tradingPairPancake)
      ensures old(tradingPairUniswap).None? || old(tradingPairPancake).None? ==>
                && tradingPairUniswap == FindPair(repo.pairs, baseToken, quoteToken, UniswapV3)
                && tradingPairPancake == FindPair(repo.pairs, baseToken, quoteToken, PancakeV3)
      ensures tradingPairUniswap.None? ==> r == Err(TradingPairNotFound(UniswapV3))
      ensures tradingPairUniswap.Some? && tradingPairPancake.None? ==>
                r == Err(TradingPairNotFound(PancakeV3))
      ensures r != Ok(None)
      ensures tradingPairUniswap.Some? && tradingPairPancake.Some? ==>
        var u := FetchPrice(tradingPairUniswap, repo, poolState);
        var p := FetchPrice(tradingPairPancake, repo, poolState);
        && (u.Err? ==> r == Err(u.error))
        && (u.Ok? && p.Err? ==> r == Err(p.error))
        && (u.Ok? && p.Ok? ==> r == Ok(Report(u.value, p.value)))
      ensures r.Ok? ==>
        && r.value.value.uniswap.poolAddress == tradingPairUniswap.value.poolAddress
        && r.value.value.pancake.poolAddress == tradingPairPancake.value.poolAddress
    {
      if tradingPairUniswap.None? || tradingPairPancake.None? {
        var init := OnModuleInit(repo);
        if init.Err? {
          return Err(init.error);
        }
      }
      var uniswap := FetchPrice(tradingPairUniswap, repo, poolState);
      var pancake := FetchPrice(tradingPairPancake, repo, poolState);
      if uniswap.Err? {
        return Err(uniswap.error);
      }
      if pancake.Err? {
        return Err(pancake.error);
      }
      r := Ok(Report(uniswap.value, pancake.value));
    }
  }
}
