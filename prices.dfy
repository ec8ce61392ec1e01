/** The price reading and spread classification that the arbitrage monitor
    (backend/src/traders/observer/trader-observer.ts) and the polling classifier
    (backend/src/traders/polling/trader-polling.service.ts) both carry: finding
    a venue's trading pair, reading a pool's price oriented as quote per base,
    and classifying the spread between the two venues. Database rows are a
    snapshot parameter and pool state is an oracle. */
module Prices {
  import opened Common
  import opened Numbers
  import opened Pool

  // ---------------------------------------------------------------------------
  // Database rows

  datatype TradingPair = TradingPair(exchange: Exchange, poolAddress: Address,
                                     baseTokenAddress: Address, quoteTokenAddress: Address)

  datatype Token = Token(address: Address, decimals: nat, symbol: string)

  /** The rows the core reads: the trading pairs in table order and the tokens
      by address. */
  datatype Repository = Repository(pairs: seq<TradingPair>, tokens: map<Address, Token>)

  predicate PairMatches(p: TradingPair, base: Address, quote: Address, exchange: Exchange) {
    p.baseTokenAddress == base && p.quoteTokenAddress == quote && p.exchange == exchange
  }

  /** `tradingPair.findFirst` on base, quote and venue: the first matching row. */
  function FindPair(pairs: seq<TradingPair>, base: Address, quote: Address, exchange: Exchange)
    : (r: Option<TradingPair>)
    ensures r.Some? ==> r.value in pairs && PairMatches(r.value, base, quote, exchange)
    ensures r.None? <==> forall i | 0 <= i < |pairs| :: !PairMatches(pairs[i], base, quote, exchange)
    ensures r.Some? ==> exists i | 0 <= i < |pairs| ::
              (pairs[i] == r.value
               && forall j | 0 <= j < i :: !PairMatches(pairs[j], base, quote, exchange))
  {
    if |pairs| == 0 then None
    else if PairMatches(pairs[0], base, quote, exchange) then
      assert pairs[0] == pairs[0];
      Some(pairs[0])
    else
      var r := FindPair(pairs[1..], base, quote, exchange);
      assert forall i | 1 <= i < |pairs| :: pairs[i] == pairs[1..][i - 1];
      if r.Some? then
        ghost var i :| 0 <= i < |pairs[1..]| && (pairs[1..][i] == r.value
          && forall j | 0 <= j < i :: !PairMatches(pairs[1..][j], base, quote, exchange));
        assert pairs[i + 1] == r.value;
        assert forall j | 0 <= j < i + 1 :: !PairMatches(pairs[j], base, quote, exchange) by {
          forall j | 0 <= j < i + 1 ensures !PairMatches(pairs[j], base, quote, exchange) {
            if j > 0 { assert pairs[j] == pairs[1..][j - 1]; }
          }
        }
        r
      else
        r
  }

  // ---------------------------------------------------------------------------
  // Pool state and price observations

  /** `getPoolState`: what the chain reports for a pool. */
  datatype PoolState = PoolState(address: Address, token0: Address, token1: Address,
                                 sqrtPriceX96: nat, tick: int, liquidity: nat,
                                 updatedAtBlock: nat)

  /** One venue's price, oriented as quote per base. */
  datatype PriceObservation = PriceObservation(exchange: Exchange, poolAddress: Address,
                                               price: real, priceRaw: string,
                                               blockNumber: nat, tick: int, liquidity: nat)

  /** The decimals of a pool token: the base token's when it is the base
      token, otherwise the quote token's. */
  function DecimalsOf(token: Address, base: Token, quote: Token): nat {
    if token == base.address then base.decimals else quote.decimals
  }

  /** Whether the pool lists base as token0 and quote as token1, so that its
      token1/token0 price is already quote per base. */
  predicate Oriented(state: PoolState, base: Token, quote: Token) {
    state.token0 == base.address && state.token1 == quote.address
  }

  /** For two distinct tokens at most one reading of a pool is oriented, so
      a pool's price is taken as it is for one role assignment and inverted
      for the other. */
  lemma {:induction false} OrientedOneWay(state: PoolState, base: Token, quote: Token)
    requires base.address != quote.address
    ensures !(Oriented(state, base, quote) && Oriented(state, quote, base))
  {
  }

  /** The pool's token1/token0 price scaled by 10^18 and truncated, with each
      pool token's decimals looked up among the pair's two tokens. */
  function PoolAdjustedPrice(state: PoolState, base: Token, quote: Token): nat {
    AdjustedPrice(state.sqrtPriceX96, DecimalsOf(state.token0, base, quote),
                  DecimalsOf(state.token1, base, quote))
  }

  /** The exact value of the pool's printed token1/token0 price. */
  function PoolPriceValue(state: PoolState, base: Token, quote: Token): real {
    PoolAdjustedPrice(state, base, quote) as real / PrecisionScalar as real
  }

  /** A printed price is positive exactly when its scaled integer is, and then
      so is its inverse. */
  lemma {:induction false} ScaledPriceSign(adjusted: nat)
    ensures adjusted as real / PrecisionScalar as real > 0.0 <==> adjusted > 0
    ensures adjusted > 0 ==> 1.0 / (adjusted as real / PrecisionScalar as real) > 0.0
  {
    var scalar := PrecisionScalar as real;
    assert scalar > 0.0;
    var v := adjusted as real / scalar;
    assert v * scalar == adjusted as real;
    if adjusted > 0 {
      assert v > 0.0;
      assert (1.0 / v) * v == 1.0;
    } else {
      assert v == 0.0;
    }
  }

  /** The observation read from one pool's state: an error when the printed
      price is not positive, otherwise the price inverted unless the pool lists
      base then quote. */
  function Observe(exchange: Exchange, poolAddress: Address, state: PoolState,
                   base: Token, quote: Token): (r: Result<PriceObservation>)
    ensures r.Err? <==> PoolAdjustedPrice(state, base, quote) == 0
    ensures r.Err? ==> r.error == InvalidPrice
    ensures r.Ok? ==>
      var raw := PoolPriceValue(state, base, quote);
      && r.value.exchange == exchange
      && r.value.poolAddress == poolAddress
      && r.value.price > 0.0
      && DecimalValue(r.value.priceRaw) == Some(raw)
      && r.value.price == (if Oriented(state, base, quote) then raw else 1.0 / raw)
      && r.value.blockNumber == state.updatedAtBlock
  {
    var token0Decimals := DecimalsOf(state.token0, base, quote);
    var token1Decimals := DecimalsOf(state.token1, base, quote);
    var priceRaw := CalculatePrice(state.sqrtPriceX96, token0Decimals, token1Decimals);
    var priceValue := DecimalValue(priceRaw);
    ScaledPriceSign(PoolAdjustedPrice(state, base, quote));
    if priceValue.None? || priceValue.value <= 0.0 then Err(InvalidPrice)
    else
      var price := if Oriented(state, base, quote) then priceValue.value
                   else 1.0 / priceValue.value;
      Ok(PriceObservation(exchange, poolAddress, price, priceRaw,
                          state.updatedAtBlock, state.tick, state.liquidity))
  }

  /** `fetchPrice`: None for an unset pair; an error when a token row is
      missing or the printed price is not positive; otherwise the pool's price,
      inverted unless the pool lists base then quote. `poolState` stands for
      the chain. */
  function FetchPrice(pair: Option<TradingPair>, repo: Repository,
                      poolState: Address -> PoolState): (r: Result<Option<PriceObservation>>)
    ensures pair.None? ==> r == Ok(None)
    ensures pair.Some? ==> r != Ok(None)
    ensures pair.Some? && r.Ok? ==>
      && r.value.Some? && r.value.value.exchange == pair.value.exchange
      && r.value.value.poolAddress == pair.value.poolAddress && r.value.value.price > 0.0
    ensures pair.Some? ==>
      (r == Err(TokenMetadataNotFound) <==>
         pair.value.baseTokenAddress !in repo.tokens || pair.value.quoteTokenAddress !in repo.tokens)
    ensures pair.Some? && pair.value.baseTokenAddress in repo.tokens
            && pair.value.quoteTokenAddress in repo.tokens ==>
      var state := poolState(pair.value.poolAddress);
      var base := repo.tokens[pair.value.baseTokenAddress];
      var quote := repo.tokens[pair.value.quoteTokenAddress];
      var raw := PoolPriceValue(state, base, quote);
      && (r == Err(InvalidPrice) <==> PoolAdjustedPrice(state, base, quote) == 0)
      && (r.Ok? ==>
            && r.value.Some?
            && r.value.value.exchange == pair.value.exchange
            && r.value.value.poolAddress == pair.value.poolAddress
            && r.value.value.price > 0.0
            && DecimalValue(r.value.value.priceRaw) == Some(raw)
            && r.value.value.price == (if Oriented(state, base, quote) then raw else 1.0 / raw))
  {
    if pair.None? then Ok(None)
    else
      var tradingPair := pair.value;
      var state := poolState(tradingPair.poolAddress);
      if tradingPair.baseTokenAddress !in repo.tokens
         || tradingPair.quoteTokenAddress !in repo.tokens
      then Err(TokenMetadataNotFound)
      else
        var baseToken := repo.tokens[tradingPair.baseTokenAddress];
        var quoteToken := repo.tokens[tradingPair.quoteTokenAddress];
        var observation := Observe(tradingPair.exchange, tradingPair.poolAddress, state,
                                   baseToken, quoteToken);
        if observation.Err? then Err(observation.error) else Ok(Some(observation.value))
  }

  // ---------------------------------------------------------------------------
  // Spread and classification

  datatype Opportunity = BuyPancakeSellUniswap | BuyUniswapSellPancake

  /** The relative price difference of Uniswap over PancakeSwap. */
  function Spread(uniswapPrice: real, pancakePrice: real): real
    requires pancakePrice != 0.0
  {
    (uniswapPrice - pancakePrice) / pancakePrice
  }

  /** The opportunity a spread signals: buy where the price is lower. */
  function Classify(spread: real): (r: Option<Opportunity>)
    ensures r == Some(BuyPancakeSellUniswap) <==> spread > 0.0
    ensures r == Some(BuyUniswapSellPancake) <==> spread < 0.0
    ensures r == None <==> spread == 0.0
  {
    if spread > 0.0 then Some(BuyPancakeSellUniswap)
    else if spread < 0.0 then Some(BuyUniswapSellPancake)
    else None
  }

  /** With positive prices, the classification follows the order of the two
      prices: buy on PancakeSwap iff it is cheaper, on Uniswap iff it is
      cheaper, nothing iff they are equal. */
  lemma {:induction false} ClassifyComparesPrices(uniswapPrice: real, pancakePrice: real)
    requires pancakePrice > 0.0
    ensures Classify(Spread(uniswapPrice, pancakePrice)) == Some(BuyPancakeSellUniswap)
            <==> pancakePrice < uniswapPrice
    ensures Classify(Spread(uniswapPrice, pancakePrice)) == Some(BuyUniswapSellPancake)
            <==> uniswapPrice < pancakePrice
    ensures Classify(Spread(uniswapPrice, pancakePrice)) == None
            <==> uniswapPrice == pancakePrice
  {
    var d := uniswapPrice - pancakePrice;
    var s := Spread(uniswapPrice, pancakePrice);
    assert s * pancakePrice == d;
    if d > 0.0 { assert s > 0.0; }
    if d < 0.0 { assert s < 0.0; }
    if d == 0.0 { assert s == 0.0; }
  }

  /** The spread is Uniswap's price difference relative to PancakeSwap's
      price; with both prices positive it lies above -1. */
  lemma {:induction false} SpreadRelative(uniswapPrice: real, pancakePrice: real)
    requires pancakePrice > 0.0
    ensures Spread(uniswapPrice, pancakePrice) * pancakePrice == uniswapPrice - pancakePrice
    ensures uniswapPrice > 0.0 ==> Spread(uniswapPrice, pancakePrice) > -1.0
  {
    var s := Spread(uniswapPrice, pancakePrice);
    assert s * pancakePrice == uniswapPrice - pancakePrice;
    if uniswapPrice > 0.0 {
      assert (s + 1.0) * pancakePrice == uniswapPrice;
    }
  }

  /** A trade is attempted iff the prices differ, by at least `minSpreadBps`
      ten-thousandths of the PancakeSwap price. */
  lemma {:induction false} ShouldTradeIff(uniswapPrice: real, pancakePrice: real, minSpreadBps: real)
    requires pancakePrice > 0.0
    ensures ShouldTrade(Spread(uniswapPrice, pancakePrice), minSpreadBps)
            <==> uniswapPrice != pancakePrice
                 && (if uniswapPrice >= pancakePrice then uniswapPrice - pancakePrice
                     else pancakePrice - uniswapPrice) * 10000.0 >= minSpreadBps * pancakePrice
  {
    var s := Spread(uniswapPrice, pancakePrice);
    var gap := if uniswapPrice >= pancakePrice then uniswapPrice - pancakePrice
               else pancakePrice - uniswapPrice;
    ClassifyComparesPrices(uniswapPrice, pancakePrice);
    SpreadRelative(uniswapPrice, pancakePrice);
    assert SpreadBps(s) * pancakePrice == gap * 10000.0;
    assert SpreadBps(s) >= minSpreadBps <==> SpreadBps(s) * pancakePrice >= minSpreadBps * pancakePrice;
  }

  /** The venue bought on. */
  function BuyVenue(opportunity: Opportunity): Exchange {
    if opportunity == BuyPancakeSellUniswap then PancakeV3 else UniswapV3
  }

  /** The venue sold on. */
  function SellVenue(opportunity: Opportunity): Exchange {
    if opportunity == BuyPancakeSellUniswap then UniswapV3 else PancakeV3
  }

  /** The spread in basis points (`Math.abs(spread) * 10000`). */
  function SpreadBps(spread: real): (bps: real)
    ensures bps >= 0.0
    ensures bps == 0.0 <==> spread == 0.0
  {
    (if spread < 0.0 then -spread else spread) * 10000.0
  }

  /** A trade is attempted iff there is an opportunity and the spread reaches
      the minimum. */
  predicate ShouldTrade(spread: real, minSpreadBps: real) {
    Classify(spread).Some? && SpreadBps(spread) >= minSpreadBps
  }

}
