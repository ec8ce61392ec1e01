/** The venue adapter (`UniswapV3Adapter` in backend/src/utils/pool.ts) shared
    by Uniswap V3 and PancakeSwap V3: the price read off a pool's square-root
    price, the transaction list of a swap (an optional ERC-20 approval, then the
    router call) and the quoter dispatch. ABI encoding is replaced by datatype
    values with named fields; the pool fee, the allowance, the clock, the chain
    id and the quoter's simulated result are parameters. */
module Pool {
  import opened Common
  import opened Numbers

  // ---------------------------------------------------------------------------
  // Venue configuration

  const PancakeRouter: Address :=
    (HexAddress("1b81D678ff", "b9C0263b24", "A97847620C", "99d213eB14");
     "0x" + "1b81D678ff" + "b9C0263b24" + "A97847620C" + "99d213eB14")

  const UniswapRouter: Address :=
    (HexAddress("B971eF87ed", "e563556b2E", "D4b1C0b001", "9111Dd85d2");
     "0x" + "B971eF87ed" + "e563556b2E" + "D4b1C0b001" + "9111Dd85d2")

  const PancakeQuoter: Address :=
    (HexAddress("B048Bbc1Ee", "6b733FFfCF", "b9e9CeF737", "5518e25997");
     "0x" + "B048Bbc1Ee" + "6b733FFfCF" + "b9e9CeF737" + "5518e25997")

  const UniswapQuoter: Address :=
    (HexAddress("78D78E420D", "a98ad378D7", "799bE8f4AF", "69033EB077");
     "0x" + "78D78E420D" + "a98ad378D7" + "799bE8f4AF" + "69033EB077")

  function RouterAddress(exchange: Exchange): Address {
    match exchange
    case PancakeV3 => PancakeRouter
    case UniswapV3 => UniswapRouter
  }

  function QuoterAddress(exchange: Exchange): Address {
    match exchange
    case PancakeV3 => PancakeQuoter
    case UniswapV3 => UniswapQuoter
  }

  /** 2^256 - 1, viem's `maxUint256`. */
  const MaxUint256: nat := 0x1_0000_0000_0000_0000_0000_0000_0000_0000_0000_0000_0000_0000_0000_0000_0000_0000 - 1

  /** The gas limit every swap transaction carries. */
  const DefaultSwapGasLimit: string := "300000"

  /** Seconds added to the current Unix time for the default swap deadline. */
  const DefaultDeadlineSeconds: nat := 60 * 2

  // ---------------------------------------------------------------------------
  // Swap and quote intents, calls and transactions

  /** `DexSwapData`: sell an exact input, or buy an exact output. */
  datatype SwapData =
    | ExactInSwap(tokenIn: Address, tokenOut: Address, amountIn: nat, amountOutMin: nat,
                  poolId: Address, deadline: Option<nat>, recipient: Option<Address>)
    | ExactOutSwap(tokenIn: Address, tokenOut: Address, amountOut: nat, amountInMax: nat,
                   poolId: Address, deadline: Option<nat>, recipient: Option<Address>)

  /** `DexQuoteData`. */
  datatype QuoteData =
    | ExactInQuoteData(tokenIn: Address, tokenOut: Address, amountIn: nat, poolId: Address)
    | ExactOutQuoteData(tokenIn: Address, tokenOut: Address, amountOut: nat, poolId: Address)

  datatype ApprovalSetting = OneTime | Permanent

  /** The approval setting `swap` uses when the caller gives none. */
  const DefaultApprovalSetting: ApprovalSetting := Permanent

  /** The router ABI a call is encoded with: PancakeSwap's original SwapRouter
      carries a deadline, Uniswap's SwapRouter02 does not. */
  datatype RouterAbi = SwapRouter | SwapRouter02

  /** The single-pool router call; `deadline` is None when the ABI has no such
      field. */
  datatype SwapCall =
    | ExactInputSingle(tokenIn: Address, tokenOut: Address, fee: nat, recipient: Address,
                       deadline: Option<nat>, amountIn: nat, amountOutMinimum: nat,
                       sqrtPriceLimitX96: nat)
    | ExactOutputSingle(tokenIn: Address, tokenOut: Address, fee: nat, recipient: Address,
                        deadline: Option<nat>, amountOut: nat, amountInMaximum: nat,
                        sqrtPriceLimitX96: nat)

  /** Transaction calldata, as the decoded call it stands for. */
  datatype Calldata =
    | Approve(spender: Address, amount: nat)
    | RouterSwap(abi: RouterAbi, call: SwapCall)

  /** `TxRequest`: only the fields the core sets. */
  datatype TxRequest = TxRequest(chainId: nat, from: Address, to: Address, data: Calldata,
                                 gas: Option<string>, nonce: Option<nat>)

  /** `ERC20Adapter(token).approve(owner, spender, amount)`. */
  function ApproveTx(chainId: nat, token: Address, owner: Address, spender: Address,
                     amount: nat): (tx: TxRequest)
    ensures tx.from == owner && tx.to == token && tx.data == Approve(spender, amount)
    ensures tx.gas.None? && tx.nonce.None?
  {
    TxRequest(chainId, owner, token, Approve(spender, amount), None, None)
  }

  /** The most of `tokenIn` a swap may spend. */
  function AmountInRequired(swapData: SwapData): nat {
    match swapData
    case ExactInSwap(_, _, amountIn, _, _, _, _) => amountIn
    case ExactOutSwap(_, _, _, amountInMax, _, _, _) => amountInMax
  }

  function ApprovalAmount(setting: ApprovalSetting, required: nat): nat {
    if setting == OneTime then required else MaxUint256
  }

  /** An approval always covers the amount the swap needs, and a one-time
      approval covers nothing more. */
  lemma {:induction false} ApprovalCoversRequirement(setting: ApprovalSetting, required: nat)
    requires required <= MaxUint256
    ensures ApprovalAmount(setting, required) >= required
    ensures setting == OneTime ==> ApprovalAmount(setting, required) == required
    ensures setting == Permanent ==> ApprovalAmount(setting, required) == MaxUint256
  {
  }

  /** The amount a swap needs approved is the most its router call may
      spend (`amountIn` exact-in, `amountInMaximum` exact-out), so the
      approval sent covers that call. */
  lemma {:induction false} ApprovalCoversRouterCall(setting: ApprovalSetting, isPancakeV3: bool,
                                                    swapData: SwapData, fee: nat,
                                                    initiator: Address, defaultDeadline: nat)
    requires AmountInRequired(swapData) <= MaxUint256
    ensures var c := RouterCallFor(isPancakeV3, swapData, fee, initiator, defaultDeadline);
            var spend := if c.ExactInputSingle? then c.amountIn else c.amountInMaximum;
            && AmountInRequired(swapData) == spend
            && ApprovalAmount(setting, AmountInRequired(swapData)) >= spend
  {
    RouterCallFields(isPancakeV3, swapData, fee, initiator, defaultDeadline);
    ApprovalCoversRequirement(setting, AmountInRequired(swapData));
  }

  /** The router call a swap intent turns into on a venue. */
  function RouterCallFor(isPancakeV3: bool, swapData: SwapData, fee: nat, initiator: Address,
                         defaultDeadline: nat): SwapCall
  {
    var recipient := swapData.recipient.GetOr(initiator);
    var deadline := if isPancakeV3 then Some(swapData.deadline.GetOr(defaultDeadline)) else None;
    match swapData
    case ExactInSwap(tokenIn, tokenOut, amountIn, amountOutMin, _, _, _) =>
      ExactInputSingle(tokenIn, tokenOut, fee, recipient, deadline, amountIn, amountOutMin, 0)
    case ExactOutSwap(tokenIn, tokenOut, amountOut, amountInMax, _, _, _) =>
      ExactOutputSingle(tokenIn, tokenOut, fee, recipient, deadline, amountOut, amountInMax, 0)
  }

  /** What the router call carries: the intent's variant, tokens and amounts,
      the pool fee, `recipient ?? initiator`, no price limit, and a deadline
      (`deadline ?? default`) exactly on PancakeSwap. */
  lemma {:induction false} RouterCallFields(isPancakeV3: bool, swapData: SwapData, fee: nat, initiator: Address,
                         defaultDeadline: nat)
    ensures var c := RouterCallFor(isPancakeV3, swapData, fee, initiator, defaultDeadline);
      && (c.ExactInputSingle? <==> swapData.ExactInSwap?)
      && c.tokenIn == swapData.tokenIn && c.tokenOut == swapData.tokenOut
      && c.fee == fee && c.sqrtPriceLimitX96 == 0
      && (swapData.recipient.Some? ==> c.recipient == swapData.recipient.value)
      && (swapData.recipient.None? ==> c.recipient == initiator)
      && (c.deadline.Some? <==> isPancakeV3)
      && (isPancakeV3 && swapData.deadline.Some? ==> c.deadline == swapData.deadline)
      && (isPancakeV3 && swapData.deadline.None? ==> c.deadline == Some(defaultDeadline))
      && (swapData.ExactInSwap? ==>
            c.amountIn == swapData.amountIn && c.amountOutMinimum == swapData.amountOutMin)
      && (swapData.ExactOutSwap? ==>
            c.amountOut == swapData.amountOut && c.amountInMaximum == swapData.amountInMax)
  {
  }

  // ---------------------------------------------------------------------------
  // Quotes

  /** The quoter function simulated, with its argument struct. */
  datatype QuoterCall =
    | QuoteExactInputSingle(quoter: Address, tokenIn: Address, tokenOut: Address,
                            amountIn: nat, fee: nat, sqrtPriceLimitX96: nat)
    | QuoteExactOutputSingle(quoter: Address, tokenIn: Address, tokenOut: Address,
                             amount: nat, fee: nat, sqrtPriceLimitX96: nat)

  /** The quoter's four return values: the amount, the square-root price after
      the swap, the initialized ticks crossed and the gas estimate. */
  datatype QuoterOutput = QuoterOutput(amount: nat, sqrtPriceX96After: nat,
                                       initializedTicksCrossed: nat, gasEstimate: nat)

  /** What `quote` returns: `amountOut` for an exact-in intent, `amountIn` for an
      exact-out intent. */
  datatype QuoteResult =
    | ExactInQuote(amountOut: nat, sqrPriceX86After: nat, initializedTicksCrossed: nat,
                   gasEstimate: nat)
    | ExactOutQuote(amountIn: nat, sqrtPriceX96After: nat, initializedTicksCrossed: nat,
                    gasEstimate: nat)

  /** The transactions a swap consists of: an approval of the venue's router
      when `allowance` is below what the swap may spend, then the router call
      from `initiator` with the fixed gas limit. `nowMs` is the clock in
      milliseconds; the default deadline is two minutes after it, in whole
      seconds. */
  function SwapTxs(exchange: Exchange, initiator: Address, swapData: SwapData,
                   approvalSetting: ApprovalSetting, fee: nat, allowance: nat, nowMs: nat,
                   chainId: nat): (txs: seq<TxRequest>)
    ensures |txs| == if allowance < AmountInRequired(swapData) then 2 else 1
    ensures allowance < AmountInRequired(swapData) ==>
      txs[0] == ApproveTx(chainId, swapData.tokenIn, initiator, RouterAddress(exchange),
                          ApprovalAmount(approvalSetting, AmountInRequired(swapData)))
    ensures forall i | 0 <= i < |txs| :: txs[i].from == initiator && txs[i].nonce.None?
    ensures var swapTx := txs[|txs| - 1];
      && swapTx.chainId == chainId && swapTx.to == RouterAddress(exchange)
      && swapTx.gas == Some(DefaultSwapGasLimit)
      && swapTx.data == RouterSwap(if exchange == PancakeV3 then SwapRouter else SwapRouter02,
           RouterCallFor(exchange == PancakeV3, swapData, fee, initiator,
                         nowMs / 1000 + DefaultDeadlineSeconds))
  {
    var required := AmountInRequired(swapData);
    var approval :=
      if allowance < required
      then [ApproveTx(chainId, swapData.tokenIn, initiator, RouterAddress(exchange),
                      ApprovalAmount(approvalSetting, required))]
      else [];
    var call := RouterCallFor(exchange == PancakeV3, swapData, fee, initiator,
                              nowMs / 1000 + DefaultDeadlineSeconds);
    approval + [TxRequest(chainId, initiator, RouterAddress(exchange),
                          RouterSwap(if exchange == PancakeV3 then SwapRouter else SwapRouter02, call),
                          Some(DefaultSwapGasLimit), None)]
  }

  /** The quoter call for `quoteData` on a venue, with pool fee `fee`. */
  function QuoterCallFor(exchange: Exchange, quoteData: QuoteData, fee: nat): (c: QuoterCall)
    ensures c.quoter == QuoterAddress(exchange) && c.fee == fee && c.sqrtPriceLimitX96 == 0
    ensures c.tokenIn == quoteData.tokenIn && c.tokenOut == quoteData.tokenOut
    ensures c.QuoteExactInputSingle? <==> quoteData.ExactInQuoteData?
    ensures c.QuoteExactInputSingle? ==> c.amountIn == quoteData.amountIn
    ensures c.QuoteExactOutputSingle? ==> c.amount == quoteData.amountOut
  {
    match quoteData
    case ExactInQuoteData(tokenIn, tokenOut, amountIn, _) =>
      QuoteExactInputSingle(QuoterAddress(exchange), tokenIn, tokenOut, amountIn, fee, 0)
    case ExactOutQuoteData(tokenIn, tokenOut, amountOut, _) =>
      QuoteExactOutputSingle(QuoterAddress(exchange), tokenIn, tokenOut, amountOut, fee, 0)
  }

  /** The result of a quote: the quoter's first value is `amountOut` for an
      exact-in intent and `amountIn` for an exact-out intent. */
  function QuoteFor(exchange: Exchange, quoteData: QuoteData, fee: nat,
                    quoter: QuoterCall -> QuoterOutput): (r: QuoteResult)
    ensures r.ExactInQuote? <==> quoteData.ExactInQuoteData?
    ensures r.ExactInQuote? ==> r.amountOut == quoter(QuoterCallFor(exchange, quoteData, fee)).amount
    ensures r.ExactOutQuote? ==> r.amountIn == quoter(QuoterCallFor(exchange, quoteData, fee)).amount
  {
    var out := quoter(QuoterCallFor(exchange, quoteData, fee));
    if quoteData.ExactInQuoteData? then
      ExactInQuote(out.amount, out.sqrtPriceX96After, out.initializedTicksCrossed, out.gasEstimate)
    else
      ExactOutQuote(out.amount, out.sqrtPriceX96After, out.initializedTicksCrossed, out.gasEstimate)
  }

  // ---------------------------------------------------------------------------
  // The adapter

  class UniswapV3Adapter {
    const exchangeId: Exchange
    const isPancakeV3: bool

    /** The PancakeSwap form is chosen exactly for the PancakeSwap venue. */
    predicate Valid() {
      isPancakeV3 <==> exchangeId == PancakeV3
    }

    constructor (exchangeId: Exchange)
      ensures this.exchangeId == exchangeId && Valid()
    {
      this.exchangeId := exchangeId;
      isPancakeV3 := exchangeId == PancakeV3;
    }

    /** `swap`: the transaction list, built by appending. `fee` is the pool's
        fee, `allowance` the initiator's current allowance of `tokenIn` to the
        router, `nowMs` the clock and `chainId` the connected chain. */
    method Swap(initiator: Address, swapData: SwapData, approvalSetting: ApprovalSetting,
                fee: nat, allowance: nat, nowMs: nat, chainId: nat)
      returns (txs: seq<TxRequest>)
      requires Valid()
      ensures txs == SwapTxs(exchangeId, initiator, swapData, approvalSetting, fee, allowance,
                             nowMs, chainId)
    {
      txs := [];
      var router := RouterAddress(exchangeId);
      var amountInRequired := if swapData.ExactInSwap? then swapData.amountIn
                              else swapData.amountInMax;
      if allowance < amountInRequired {
        var approvalAmount := if approvalSetting == OneTime then amountInRequired
                              else MaxUint256;
        var approvalTx := ApproveTx(chainId, swapData.tokenIn, initiator, router, approvalAmount);
        txs := txs + [approvalTx];
      }
      var defaultDeadline := nowMs / 1000 + 60 * 2;
      var encoded := EncodeSwap(initiator, swapData, fee, defaultDeadline);
      var swapTx := TxRequest(chainId, initiator, router, encoded, Some(DefaultSwapGasLimit), None);
      txs := txs + [swapTx];
    }

    /** The router calldata of `swap`: the original SwapRouter form with a
        deadline on PancakeSwap, the SwapRouter02 form without one otherwise. */
    method EncodeSwap(initiator: Address, swapData: SwapData, fee: nat, defaultDeadline: nat)
      returns (encoded: Calldata)
      ensures encoded == RouterSwap(if isPancakeV3 then SwapRouter else SwapRouter02,
                                    RouterCallFor(isPancakeV3, swapData, fee, initiator,
                                                  defaultDeadline))
    {
      var recipient := if swapData.recipient.Some? then swapData.recipient.value else initiator;
      if isPancakeV3 {
        var deadline := if swapData.deadline.Some? then swapData.deadline.value
                        else defaultDeadline;
        if swapData.ExactInSwap? {
          encoded := RouterSwap(SwapRouter, ExactInputSingle(
            swapData.tokenIn, swapData.tokenOut, fee, recipient, Some(deadline),
            swapData.amountIn, swapData.amountOutMin, 0));
        } else {
          encoded := RouterSwap(SwapRouter, ExactOutputSingle(
            swapData.tokenIn, swapData.tokenOut, fee, recipient, Some(deadline),
            swapData.amountOut, swapData.amountInMax, 0));
        }
      } else {
        if swapData.ExactInSwap? {
          encoded := RouterSwap(SwapRouter02, ExactInputSingle(
            swapData.tokenIn, swapData.tokenOut, fee, recipient, None,
            swapData.amountIn, swapData.amountOutMin, 0));
        } else {
          encoded := RouterSwap(SwapRouter02, ExactOutputSingle(
            swapData.tokenIn, swapData.tokenOut, fee, recipient, None,
            swapData.amountOut, swapData.amountInMax, 0));
        }
      }
    }

    /** `quote`: simulate the venue's quoter (`quoter` stands for the node's
        simulation, `fee` for the pool's fee) and name its first result after
        the intent's variant. */
    method Quote(quoteData: QuoteData, fee: nat, quoter: QuoterCall -> QuoterOutput)
      returns (r: QuoteResult)
      ensures r == QuoteFor(exchangeId, quoteData, fee, quoter)
    {
      var quoterAddress := QuoterAddress(exchangeId);
      if quoteData.ExactInQuoteData? {
        var output := quoter(QuoteExactInputSingle(quoterAddress, quoteData.tokenIn,
                                                   quoteData.tokenOut, quoteData.amountIn, fee, 0));
        return ExactInQuote(output.amount, output.sqrtPriceX96After,
                            output.initializedTicksCrossed, output.gasEstimate);
      }
      var output := quoter(QuoteExactOutputSingle(quoterAddress, quoteData.tokenIn,
                                                  quoteData.tokenOut, quoteData.amountOut, fee, 0));
      r := ExactOutQuote(output.amount, output.sqrtPriceX96After,
                         output.initializedTicksCrossed, output.gasEstimate);
    }
  }

  /** `calculatePrice` (a method of the adapter that reads none of its state):
      the pool price token1/token0 adjusted for the tokens' decimals, printed
      with at most 18 fraction digits; it reads back as the adjusted price. */
  function CalculatePrice(sqrtPriceX96: nat, token0Decimals: nat, token1Decimals: nat)
    : (price: string)
    ensures var adjusted := AdjustedPrice(sqrtPriceX96, token0Decimals, token1Decimals);
      && NumeralShape(price, IntToString(Quot(adjusted, PrecisionScalar)),
                      Rem(adjusted, PrecisionScalar) != 0, 18)
      && DecimalValue(price) == Some(adjusted as real / PrecisionScalar as real)
  {
    var adjusted := AdjustedPrice(sqrtPriceX96, token0Decimals, token1Decimals);
    PrintedPrice(adjusted);
    BigIntToDecimalString(adjusted, PrecisionScalar).value
  }

  // ---------------------------------------------------------------------------
  // Price arithmetic

  /** 10^18, the fixed-point scale of printed prices. */
  const PrecisionScalar: nat := Pow10(18)

  /** 2^96, the scale of a Q64.96 square-root price. */
  const Q96: nat := 0x1_0000_0000_0000_0000_0000_0000

  /** 2^192, the scale of a squared Q64.96 price. */
  const Q192: nat := 0x1_0000_0000_0000_0000_0000_0000_0000_0000_0000_0000_0000_0000

  lemma {:induction false} Q192IsSquare()
    ensures Q192 == Q96 * Q96
  {
  }

  lemma {:induction false} ProductPositive(a: nat, b: nat)
    requires a >= 1 && b >= 1
    ensures a * b >= 1
  {
  }

  /** The price scaled by 10^18 and truncated, as the two branches compute it. */
  function AdjustedPrice(sqrtPriceX96: nat, token0Decimals: nat, token1Decimals: nat): nat {
    var sqrtPriceSquared := sqrtPriceX96 * sqrtPriceX96;
    var decimalAdjustment := Pow10(Abs(token0Decimals - token1Decimals));
    if token0Decimals > token1Decimals then
      (sqrtPriceSquared * decimalAdjustment * PrecisionScalar) / Q192
    else
      var numerator: nat := sqrtPriceSquared * PrecisionScalar;
      var denominator: nat := Q192 * decimalAdjustment;
      ProductPositive(Q192, decimalAdjustment);
      numerator / denominator
  }

  /** The exact price of token0 in token1 units: (s / 2^96)^2 scaled by
      10^(d0 - d1). */
  function RealPrice(sqrtPriceX96: nat, token0Decimals: nat, token1Decimals: nat): real {
    var ratio := (sqrtPriceX96 * sqrtPriceX96) as real / Q192 as real;
    if token0Decimals > token1Decimals
    then ratio * Pow10(token0Decimals - token1Decimals) as real
    else ratio / Pow10(token1Decimals - token0Decimals) as real
  }

  /** Printing a price scaled by 10^18: at most 18 fraction digits, and the
      numeral reads back as `adjusted / 10^18`. */
  lemma {:induction false} PrintedPrice(adjusted: nat)
    ensures BigIntToDecimalString(adjusted, PrecisionScalar).Ok?
    ensures var price := BigIntToDecimalString(adjusted, PrecisionScalar).value;
      && NumeralShape(price, IntToString(Quot(adjusted, PrecisionScalar)),
                      Rem(adjusted, PrecisionScalar) != 0, 18)
      && DecimalValue(price) == Some(adjusted as real / PrecisionScalar as real)
  {
    DecimalStringShape(adjusted, PrecisionScalar, 18);
    DecimalStringRoundTrip(adjusted, PrecisionScalar, 18);
  }

  /** Integer division truncates: the real quotient lies in [q, q + 1). */
  lemma {:induction false} FloorDivision(num: nat, den: nat)
    requires den > 0
    ensures (num / den) as real <= num as real / den as real < (num / den) as real + 1.0
  {
    var q, r := num / den, num % den;
    assert num as real == q as real * den as real + r as real;
    assert num as real / den as real == q as real + r as real / den as real;
  }

  /** Dividing `a <= x * s < a + 1` by `s`. */
  lemma {:induction false} ScaleBounds(a: real, x: real, s: real)
    requires s > 0.0 && a <= x * s < a + 1.0
    ensures a / s <= x < a / s + 1.0 / s
  {
    assert a / s <= x * s / s;
    assert x * s / s < (a + 1.0) / s;
  }

  /** The printed price is the exact price truncated to 18 fraction digits:
      it is at most the exact price, and less than 10^-18 below it. */
  lemma {:induction false} PriceTruncation(sqrtPriceX96: nat, token0Decimals: nat, token1Decimals: nat)
    ensures var p := AdjustedPrice(sqrtPriceX96, token0Decimals, token1Decimals) as real
                     / PrecisionScalar as real;
      p <= RealPrice(sqrtPriceX96, token0Decimals, token1Decimals)
        < p + 1.0 / PrecisionScalar as real
  {
    if token0Decimals > token1Decimals {
      PriceTruncationUp(sqrtPriceX96, token0Decimals, token1Decimals);
    } else {
      PriceTruncationDown(sqrtPriceX96, token0Decimals, token1Decimals);
    }
  }

  lemma {:induction false} PriceTruncationUp(sqrtPriceX96: nat, token0Decimals: nat, token1Decimals: nat)
    requires token0Decimals > token1Decimals
    ensures var p := AdjustedPrice(sqrtPriceX96, token0Decimals, token1Decimals) as real
                     / PrecisionScalar as real;
      p <= RealPrice(sqrtPriceX96, token0Decimals, token1Decimals)
        < p + 1.0 / PrecisionScalar as real
  {
    var n := sqrtPriceX96 * sqrtPriceX96;
    var k := Pow10(token0Decimals - token1Decimals);
    TruncationScaledUp(n, k, PrecisionScalar, Q192);
  }

  lemma {:induction false} PriceTruncationDown(sqrtPriceX96: nat, token0Decimals: nat, token1Decimals: nat)
    requires token0Decimals <= token1Decimals
    ensures var p := AdjustedPrice(sqrtPriceX96, token0Decimals, token1Decimals) as real
                     / PrecisionScalar as real;
      p <= RealPrice(sqrtPriceX96, token0Decimals, token1Decimals)
        < p + 1.0 / PrecisionScalar as real
  {
    var n := sqrtPriceX96 * sqrtPriceX96;
    var k := Pow10(token1Decimals - token0Decimals);
    ProductPositive(Q192, k);
    TruncationScaledDown(n, k, PrecisionScalar, Q192);
  }

  lemma {:induction false} TruncationScaledUp(n: nat, k: nat, s: nat, d: nat)
    requires s >= 1 && d >= 1
    ensures var a := ((n * k * s) / d) as real / s as real;
      a <= n as real / d as real * k as real < a + 1.0 / s as real
  {
    var x := n as real / d as real * k as real;
    FloorDivision(n * k * s, d);
    assert (n * k * s) as real / d as real == x * s as real by {
      assert (n * k * s) as real == n as real * k as real * s as real;
    }
    ScaleBounds(((n * k * s) / d) as real, x, s as real);
  }

  lemma {:induction false} TruncationScaledDown(n: nat, k: nat, s: nat, d: nat)
    requires s >= 1 && d >= 1 && k >= 1 && d * k >= 1
    ensures var a := ((n * s) / (d * k)) as real / s as real;
      a <= n as real / d as real / k as real < a + 1.0 / s as real
  {
    CastProduct(n, s);
    CastProduct(d, k);
    DownBracket(n * s, d * k, n as real, s as real, d as real, k as real);
    ScaleBounds(((n * s) / (d * k)) as real, n as real / d as real / k as real, s as real);
  }

  /** The truncated quotient `num / den`, where `num` is `n * s` and `den` is
      `d * k`, brackets `n / d / k` scaled by `s`. */
  lemma {:induction false} DownBracket(num: nat, den: nat, n: real, s: real, d: real, k: real)
    requires den >= 1 && d > 0.0 && k > 0.0
    requires num as real == n * s && den as real == d * k
    ensures var q := (num / den) as real;
      q <= n / d / k * s < q + 1.0
  {
    FloorDivision(num, den);
    Regroup(n, s, d, k);
  }

  /** Casting a product to a real is multiplying the casts. */
  lemma {:induction false} CastProduct(a: nat, b: nat)
    ensures (a * b) as real == a as real * b as real
  {
  }

  /** `(a * b) / (c * e) == a / c / e * b` over the reals. */
  lemma {:induction false} Regroup(a: real, b: real, c: real, e: real)
    requires c > 0.0 && e > 0.0
    ensures (a * b) / (c * e) == a / c / e * b
  {
  }

  /** A square-root price of exactly 2^96 between tokens of equal decimals is a
      price of one. */
  lemma {:induction false} UnitPrice(decimals: nat)
    ensures CalculatePrice(Q96, decimals, decimals) == "1"
  {
    var adjusted := AdjustedPrice(Q96, decimals, decimals);
    assert Pow10(0) == 1;
    assert adjusted == PrecisionScalar;
    DecimalStringWhole(PrecisionScalar, PrecisionScalar);
    assert NatToString(1) == "1";
  }
}
