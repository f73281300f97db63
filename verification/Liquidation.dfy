/**
 Dry-run liquidation prices of freqtrade/exchange/binance.py, bitget.py, bybit.py and hyperliquid.py: each is
 the exact price at which the position stops covering its maintenance margin.
 */
module Liquidation {
  import opened Outcomes

  datatype Side = Long | Short

  datatype MarginMode = Isolated | Cross | NoMargin

  datatype Position = Position(openRate: real, side: Side, amount: real, stake: real, leverage: real)

  datatype Error = NoMaintenanceAmount | UnsupportedMode | InverseContract

  function Sign(side: Side): real {
    if side.Long? then 1.0 else -1.0
  }

  // ---- what solvency means ----

  // Margin and profit of a position at a price.
  function Equity(margin: real, p: Position, price: real): real {
    if p.side.Long? then margin + p.amount * (price - p.openRate) else margin - p.amount * (price - p.openRate)
  }

  // A price on the safe side of a threshold: at or above it for a long, at or below it for a short.
  predicate Safe(side: Side, price: real, threshold: real) {
    if side.Long? then price >= threshold else price <= threshold
  }

  // A maintenance requirement that grows with the price at `rate` times the amount: of all prices exactly the
  // safe ones leave enough equity.
  ghost predicate IsThreshold(threshold: real, margin: real, p: Position, rate: real, fixed: real) {
    forall price :: Equity(margin, p, price) >= p.amount * rate * price + fixed <==> Safe(p.side, price, threshold)
  }

  // The one equation behind all four formulas.
  lemma ThresholdOf(threshold: real, margin: real, p: Position, rate: real, fixed: real)
    requires p.amount > 0.0 && (if p.side.Long? then rate < 1.0 else rate > -1.0)
    requires threshold * (p.amount * (rate - Sign(p.side))) == margin - fixed - Sign(p.side) * p.amount * p.openRate
    ensures IsThreshold(threshold, margin, p, rate, fixed)
  {
    var slope := p.amount * (rate - Sign(p.side));
    forall price
      ensures Equity(margin, p, price) >= p.amount * rate * price + fixed <==> Safe(p.side, price, threshold)
    {
      Surplus(threshold, margin, p, rate, fixed, price);
      if p.side.Long? {
        assert slope < 0.0;
        SignOf(-slope, price - threshold);
      } else {
        assert slope > 0.0;
        SignOf(slope, threshold - price);
      }
    }
  }

  lemma Surplus(threshold: real, margin: real, p: Position, rate: real, fixed: real, price: real)
    requires threshold * (p.amount * (rate - Sign(p.side))) == margin - fixed - Sign(p.side) * p.amount * p.openRate
    ensures Equity(margin, p, price) - (p.amount * rate * price + fixed) ==
            p.amount * (rate - Sign(p.side)) * (threshold - price)
  {
    var s, a := Sign(p.side), p.amount;
    assert s * a * (price - p.openRate) == s * a * price - s * a * p.openRate;
    assert a * (rate - s) * price == a * rate * price - s * a * price;
    assert a * (rate - s) * (threshold - price) == a * (rate - s) * threshold - a * (rate - s) * price;
  }

  lemma SignOf(x: real, y: real)
    requires x > 0.0
    ensures x * y >= 0.0 <==> y >= 0.0
  {
    if y >= 0.0 {
      assert x * y >= 0.0;
    } else {
      assert x * -y > 0.0;
    }
  }

  lemma NotZero(x: real, y: real)
    requires x != 0.0 && y != 0.0
    ensures x * y != 0.0
  {
  }

  lemma Quotient(x: real, y: real)
    requires y != 0.0
    ensures x / y * y == x
  {
  }

  // ---- Binance ----

  datatype OtherTrade = OtherTrade(pair: string, side: Side, amount: real, openRate: real, markPrice: real,
                                   mmRatio: real, maintenanceAmount: real)

  // Unrealised profit less maintenance margin of the other trades, as the program adds it up.
  function CrossVars(trades: seq<OtherTrade>, pair: string): real {
    if trades == [] then 0.0
    else
      var t := trades[|trades| - 1];
      CrossVars(trades[..|trades| - 1], pair) + if t.pair == pair then 0.0 else Move(t) - Maintenance(t)
  }

  function Move(t: OtherTrade): real {
    t.amount * t.markPrice - t.amount * t.openRate
  }

  function Maintenance(t: OtherTrade): real {
    t.amount * t.markPrice * t.mmRatio - t.maintenanceAmount
  }

  function BinancePrice(p: Position, walletBalance: real, crossVars: real, mmRatio: real, maintenanceAmount: real)
    : real
    requires p.amount * mmRatio - Sign(p.side) * p.amount != 0.0
  {
    (walletBalance + crossVars + maintenanceAmount - Sign(p.side) * p.amount * p.openRate)
    / (p.amount * mmRatio - Sign(p.side) * p.amount)
  }

  method BinanceLiquidationPrice(pair: string, p: Position, walletBalance: real, trades: seq<OtherTrade>,
                                 futures: bool, mode: MarginMode, mmRatio: real, maintenanceAmount: Option<real>)
    returns (r: Result<real, Error>)
    requires p.amount * mmRatio - Sign(p.side) * p.amount != 0.0
    ensures r == if maintenanceAmount.None? then Err(NoMaintenanceAmount)
                 else if !futures then Err(UnsupportedMode)
                 else Ok(BinancePrice(p, walletBalance, if mode.Cross? then CrossVars(trades, pair) else 0.0,
                                      mmRatio, maintenanceAmount.value))
  {
    var crossVars := 0.0;
    if mode.Cross? {
      var mmEx1, upnlEx1 := 0.0, 0.0;
      for i := 0 to |trades|
        invariant upnlEx1 - mmEx1 == CrossVars(trades[..i], pair)
      {
        assert trades[..i + 1][..i] == trades[..i];
        if trades[i].pair == pair {
          continue;
        }
        var maintMargin := trades[i].amount * trades[i].markPrice * trades[i].mmRatio - trades[i].maintenanceAmount;
        mmEx1 := mmEx1 + maintMargin;
        upnlEx1 := upnlEx1 + (trades[i].amount * trades[i].markPrice - trades[i].amount * trades[i].openRate);
      }
      assert trades[..|trades|] == trades;
      crossVars := upnlEx1 - mmEx1;
    }
    if maintenanceAmount.None? {
      return Err(NoMaintenanceAmount);
    }
    if !futures {
      return Err(UnsupportedMode);
    }
    return Ok(BinancePrice(p, walletBalance, crossVars, mmRatio, maintenanceAmount.value));
  }

  // Whatever the other trades contribute, the price is where wallet, contribution and profit of this position
  // just cover its maintenance margin, which the maintenance amount reduces.
  lemma BinanceIsThreshold(p: Position, walletBalance: real, crossVars: real, mmRatio: real, maintenanceAmount: real)
    requires p.amount > 0.0 && 0.0 <= mmRatio < 1.0
    ensures p.amount * mmRatio - Sign(p.side) * p.amount != 0.0
    ensures IsThreshold(BinancePrice(p, walletBalance, crossVars, mmRatio, maintenanceAmount),
                        walletBalance + crossVars, p, mmRatio, -maintenanceAmount)
  {
    var slope := p.amount * (mmRatio - Sign(p.side));
    assert slope == p.amount * mmRatio - Sign(p.side) * p.amount;
    NotZero(p.amount, mmRatio - Sign(p.side));
    Quotient(walletBalance + crossVars + maintenanceAmount - Sign(p.side) * p.amount * p.openRate, slope);
    ThresholdOf(BinancePrice(p, walletBalance, crossVars, mmRatio, maintenanceAmount),
                walletBalance + crossVars, p, mmRatio, -maintenanceAmount);
  }

  // The contribution of the other trades to the equity of the account, with the sign of each side.
  function SignedVars(trades: seq<OtherTrade>, pair: string): real {
    if trades == [] then 0.0
    else
      var t := trades[|trades| - 1];
      SignedVars(trades[..|trades| - 1], pair) +
      if t.pair == pair then 0.0 else Sign(t.side) * Move(t) - Maintenance(t)
  }

  function ShortMoves(trades: seq<OtherTrade>, pair: string): real {
    if trades == [] then 0.0
    else
      var t := trades[|trades| - 1];
      ShortMoves(trades[..|trades| - 1], pair) + if t.pair != pair && t.side.Short? then Move(t) else 0.0
  }

  // Each of the other trades counts with its move, less its maintenance margin, which its maintenance amount reduces.
  lemma {:induction false} EachOtherTradeCounts(a: seq<OtherTrade>, t: OtherTrade, b: seq<OtherTrade>, pair: string)
    ensures CrossVars([], pair) == 0.0
    ensures CrossVars(a + [t] + b, pair) ==
            CrossVars(a, pair) + CrossVars(b, pair) +
            if t.pair == pair then 0.0
            else t.amount * t.markPrice - t.amount * t.openRate
                 - (t.amount * t.markPrice * t.mmRatio - t.maintenanceAmount)
  {
    if b == [] {
      assert a + [t] + b == a + [t] && (a + [t])[..|a|] == a;
    } else {
      var all, last := a + [t] + b, b[|b| - 1];
      assert all[..|all| - 1] == a + [t] + b[..|b| - 1] && all[|all| - 1] == last;
      EachOtherTradeCounts(a, t, b[..|b| - 1], pair);
    }
  }

  // What the other trades of the account have made so far, and what they have to keep.
  function Profits(trades: seq<OtherTrade>, pair: string): real {
    if trades == [] then 0.0
    else
      var t := trades[|trades| - 1];
      Profits(trades[..|trades| - 1], pair) +
      if t.pair == pair then 0.0
      else if t.side.Long? then t.amount * (t.markPrice - t.openRate)
      else t.amount * (t.openRate - t.markPrice)
  }

  function Required(trades: seq<OtherTrade>, pair: string): real {
    if trades == [] then 0.0
    else
      var t := trades[|trades| - 1];
      Required(trades[..|trades| - 1], pair) +
      if t.pair == pair then 0.0 else t.amount * t.markPrice * t.mmRatio - t.maintenanceAmount
  }

  lemma {:induction false} SignedIsProfitLessRequired(trades: seq<OtherTrade>, pair: string)
    ensures SignedVars(trades, pair) == Profits(trades, pair) - Required(trades, pair)
  {
    if trades != [] {
      SignedIsProfitLessRequired(trades[..|trades| - 1], pair);
      var t := trades[|trades| - 1];
      assert t.amount * (t.markPrice - t.openRate) == t.amount * t.markPrice - t.amount * t.openRate;
      assert t.amount * (t.openRate - t.markPrice) == t.amount * t.openRate - t.amount * t.markPrice;
    }
  }

  // Cross margin, for the account as a whole: as long as the moves of the other shorts cancel out, the price is where
  // wallet and all profits just cover all maintenance margins.
  lemma BinanceCoversAccount(p: Position, walletBalance: real, trades: seq<OtherTrade>, pair: string, mmRatio: real,
                             maintenanceAmount: real, price: real)
    requires p.amount > 0.0 && 0.0 <= mmRatio < 1.0 && ShortMoves(trades, pair) == 0.0
    ensures p.amount * mmRatio - Sign(p.side) * p.amount != 0.0
    ensures Equity(walletBalance, p, price) + Profits(trades, pair) >=
            p.amount * mmRatio * price - maintenanceAmount + Required(trades, pair) <==>
            Safe(p.side, price, BinancePrice(p, walletBalance, CrossVars(trades, pair), mmRatio, maintenanceAmount))
  {
    var crossVars := CrossVars(trades, pair);
    BinanceIsThreshold(p, walletBalance, crossVars, mmRatio, maintenanceAmount);
    CrossVarsRightExactly(trades, pair);
    SignedIsProfitLessRequired(trades, pair);
    assert Equity(walletBalance + crossVars, p, price) == Equity(walletBalance, p, price) + crossVars;
  }

  // The program counts the price move of a short as if it were a long. The contribution is right exactly when
  // the moves of the other shorts cancel out; in a backtest, where prices stay at the open rate, they are zero.
  lemma CrossVarsRightExactly(trades: seq<OtherTrade>, pair: string)
    ensures CrossVars(trades, pair) == SignedVars(trades, pair) <==> ShortMoves(trades, pair) == 0.0
    ensures (forall t :: t in trades ==> t.markPrice == t.openRate) ==> ShortMoves(trades, pair) == 0.0
  {
    OffByShorts(trades, pair);
    if forall t :: t in trades ==> t.markPrice == t.openRate {
      NothingMoved(trades, pair);
    }
  }

  lemma {:induction false} OffByShorts(trades: seq<OtherTrade>, pair: string)
    ensures CrossVars(trades, pair) == SignedVars(trades, pair) + 2.0 * ShortMoves(trades, pair)
  {
    if trades != [] {
      OffByShorts(trades[..|trades| - 1], pair);
    }
  }

  lemma {:induction false} NothingMoved(trades: seq<OtherTrade>, pair: string)
    requires forall t :: t in trades ==> t.markPrice == t.openRate
    ensures ShortMoves(trades, pair) == 0.0
  {
    if trades != [] {
      assert trades[|trades| - 1] in trades;
      NothingMoved(trades[..|trades| - 1], pair);
    }
  }

  // ---- Bitget ----

  const DEFAULT_TAKER := 0.001

  // A missing or zero fee falls back to the default of the exchange.
  function TakerFee(market: Option<real>, exchange: Option<real>): real {
    if market.GetOr(0.0) != 0.0 then market.value else exchange.GetOr(DEFAULT_TAKER)
  }

  function BitgetSlope(p: Position, mmRatio: real, takerFee: real): real {
    p.amount * (mmRatio + takerFee - Sign(p.side))
  }

  function BitgetPrice(p: Position, walletBalance: real, mmRatio: real, takerFee: real): real
    requires BitgetSlope(p, mmRatio, takerFee) != 0.0
  {
    (walletBalance - p.amount * p.openRate * Sign(p.side)) / BitgetSlope(p, mmRatio, takerFee)
  }

  function BitgetLiquidationPrice(p: Position, walletBalance: real, futures: bool, mode: MarginMode, mmRatio: real,
                                  marketFee: Option<real>, exchangeFee: Option<real>): Result<real, Error>
    requires BitgetSlope(p, mmRatio, TakerFee(marketFee, exchangeFee)) != 0.0
  {
    if futures && mode.Isolated?
    then Ok(BitgetPrice(p, walletBalance, mmRatio, TakerFee(marketFee, exchangeFee)))
    else Err(UnsupportedMode)
  }

  lemma SlopeNotZero(p: Position, mmRatio: real, takerFee: real)
    requires p.amount > 0.0 && 0.0 <= mmRatio + takerFee < 1.0
    ensures BitgetSlope(p, mmRatio, takerFee) != 0.0
  {
    var rate := mmRatio + takerFee;
    if p.side.Long? {
      NotZero(p.amount, rate - 1.0);
      assert BitgetSlope(p, mmRatio, takerFee) == p.amount * (rate - 1.0);
    } else {
      NotZero(p.amount, rate + 1.0);
      assert BitgetSlope(p, mmRatio, takerFee) == p.amount * (rate + 1.0);
    }
  }

  lemma BitgetPriceIsThreshold(p: Position, walletBalance: real, mmRatio: real, takerFee: real)
    requires p.amount > 0.0 && 0.0 <= mmRatio + takerFee < 1.0 && BitgetSlope(p, mmRatio, takerFee) != 0.0
    ensures IsThreshold(BitgetPrice(p, walletBalance, mmRatio, takerFee), walletBalance, p, mmRatio + takerFee, 0.0)
  {
    Quotient(walletBalance - p.amount * p.openRate * Sign(p.side), BitgetSlope(p, mmRatio, takerFee));
    ThresholdOf(BitgetPrice(p, walletBalance, mmRatio, takerFee), walletBalance, p, mmRatio + takerFee, 0.0);
  }

  // A market without a fee, or with none, goes by the fee of the exchange, and that by one per mille.
  lemma TakerFeeIs(fee: real, exchange: Option<real>)
    ensures TakerFee(None, exchange) == if exchange == None then 0.001 else exchange.value
    ensures TakerFee(Some(0.0), exchange) == TakerFee(None, exchange)
    ensures fee != 0.0 ==> TakerFee(Some(fee), exchange) == fee
  {
  }

  // Maintenance margin and the fee for closing the position both count.
  lemma BitgetIsThreshold(p: Position, walletBalance: real, mmRatio: real, marketFee: Option<real>,
                          exchangeFee: Option<real>)
    requires p.amount > 0.0 && 0.0 <= mmRatio + TakerFee(marketFee, exchangeFee) < 1.0
    ensures BitgetSlope(p, mmRatio, TakerFee(marketFee, exchangeFee)) != 0.0
    ensures IsThreshold(BitgetLiquidationPrice(p, walletBalance, true, Isolated, mmRatio, marketFee, exchangeFee).value,
                        walletBalance, p, mmRatio + TakerFee(marketFee, exchangeFee), 0.0)
  {
    SlopeNotZero(p, mmRatio, TakerFee(marketFee, exchangeFee));
    BitgetPriceIsThreshold(p, walletBalance, mmRatio, TakerFee(marketFee, exchangeFee));
  }

  // ---- Bybit ----

  function MarginDiffPerContract(p: Position, mmRatio: real): real
    requires p.amount != 0.0 && p.leverage != 0.0
  {
    var positionValue := p.amount * p.openRate;
    (positionValue / p.leverage - positionValue * mmRatio) / p.amount
  }

  function BybitLiquidationPrice(p: Position, futures: bool, mode: MarginMode, inverse: bool, mmRatio: real)
    : Result<real, Error>
    requires p.amount != 0.0 && p.leverage != 0.0
  {
    if futures && mode.Isolated? then
      if inverse then Err(InverseContract)
      else if p.side.Short? then Ok(p.openRate + MarginDiffPerContract(p, mmRatio))
      else Ok(p.openRate - MarginDiffPerContract(p, mmRatio))
    else Err(UnsupportedMode)
  }

  // The initial margin has to cover the loss and the maintenance margin at the entry price.
  lemma BybitIsThreshold(p: Position, mmRatio: real)
    requires p.amount > 0.0 && p.leverage > 0.0
    ensures IsThreshold(BybitLiquidationPrice(p, true, Isolated, false, mmRatio).value,
                        p.amount * p.openRate / p.leverage, p, 0.0, p.amount * p.openRate * mmRatio)
  {
    var margin, fixed := p.amount * p.openRate / p.leverage, p.amount * p.openRate * mmRatio;
    var diff := MarginDiffPerContract(p, mmRatio);
    Quotient(margin - fixed, p.amount);
    assert diff * p.amount == margin - fixed;
    var price := BybitLiquidationPrice(p, true, Isolated, false, mmRatio).value;
    ThresholdOf(price, margin, p, 0.0, fixed);
  }

  // ---- Hyperliquid ----

  function HyperliquidMargin(p: Position, walletBalance: real, mode: MarginMode): Option<real> {
    match mode
    case Isolated => Some(p.stake)
    case Cross => Some(walletBalance)
    case NoMargin => None
  }

  function MaintenanceRequired(p: Position, maxLeverage: real): real
    requires maxLeverage != 0.0
  {
    p.openRate * p.amount / maxLeverage / 2.0
  }

  // One over the maintenance leverage, which is twice the maximum leverage.
  function MaintenanceRate(maxLeverage: real): real
    requires maxLeverage != 0.0
  {
    1.0 / (maxLeverage * 2.0)
  }

  function Gap(p: Position, marginAvailable: real, rate: real): real
    requires p.amount != 0.0 && 1.0 - rate * Sign(p.side) != 0.0
  {
    Sign(p.side) * marginAvailable / p.amount / (1.0 - rate * Sign(p.side))
  }

  function HyperliquidLiquidationPrice(p: Position, walletBalance: real, futures: bool, mode: MarginMode,
                                       maxLeverage: real): Result<real, Error>
    requires p.amount != 0.0 && maxLeverage != 0.0 && 1.0 - MaintenanceRate(maxLeverage) * Sign(p.side) != 0.0
  {
    var margin := HyperliquidMargin(p, walletBalance, mode);
    if margin.None? || !futures then Err(UnsupportedMode)
    else
      var marginAvailable := margin.value - MaintenanceRequired(p, maxLeverage);
      Ok(p.openRate - Gap(p, marginAvailable, MaintenanceRate(maxLeverage)))
  }

  // The maintenance margin is the position value at the given price, over twice the maximum leverage.
  lemma HyperliquidIsThreshold(p: Position, walletBalance: real, mode: MarginMode, maxLeverage: real)
    requires p.amount > 0.0 && maxLeverage > 0.5 && !mode.NoMargin?
    ensures 1.0 - MaintenanceRate(maxLeverage) * Sign(p.side) != 0.0
    ensures IsThreshold(HyperliquidLiquidationPrice(p, walletBalance, true, mode, maxLeverage).value,
                        if mode.Isolated? then p.stake else walletBalance, p, 1.0 / (2.0 * maxLeverage), 0.0)
  {
    var rate, margin := MaintenanceRate(maxLeverage), HyperliquidMargin(p, walletBalance, mode).value;
    RateBelowOne(maxLeverage);
    HalfOfInitial(p, maxLeverage);
    var available := margin - MaintenanceRequired(p, maxLeverage);
    var price := HyperliquidLiquidationPrice(p, walletBalance, true, mode, maxLeverage).value;
    GapCloses(p, available, rate);
    Regroup(price, p.openRate, Gap(p, available, rate), p.amount, rate, Sign(p.side));
    ThresholdOf(price, margin, p, rate, 0.0);
  }

  // Which modes have a price at all. Binance is alone in asking for a maintenance amount and not for a margin mode.
  lemma RefusedExactly(p: Position, walletBalance: real, futures: bool, mode: MarginMode, inverse: bool, mmRatio: real,
                       marketFee: Option<real>, exchangeFee: Option<real>, maxLeverage: real)
    requires BitgetSlope(p, mmRatio, TakerFee(marketFee, exchangeFee)) != 0.0
    requires p.amount != 0.0 && p.leverage != 0.0 && maxLeverage != 0.0
    requires 1.0 - MaintenanceRate(maxLeverage) * Sign(p.side) != 0.0
    ensures BitgetLiquidationPrice(p, walletBalance, futures, mode, mmRatio, marketFee, exchangeFee).Ok? <==>
            futures && mode == Isolated
    ensures BybitLiquidationPrice(p, futures, mode, inverse, mmRatio).Ok? <==>
            futures && mode == Isolated && !inverse
    ensures BybitLiquidationPrice(p, futures, mode, inverse, mmRatio) == Err(InverseContract) <==>
            futures && mode == Isolated && inverse
    ensures HyperliquidLiquidationPrice(p, walletBalance, futures, mode, maxLeverage).Ok? <==>
            futures && (mode == Isolated || mode == Cross)
  {
  }

  lemma Regroup(price: real, open: real, gap: real, amount: real, rate: real, s: real)
    requires price == open - gap
    ensures price * (amount * (rate - s)) == open * amount * rate - s * amount * open - gap * (amount * (rate - s))
  {
  }

  lemma RateBelowOne(maxLeverage: real)
    requires maxLeverage > 0.5
    ensures 0.0 < MaintenanceRate(maxLeverage) < 1.0
  {
    Quotient(1.0, maxLeverage * 2.0);
  }

  lemma HalfOfInitial(p: Position, maxLeverage: real)
    requires maxLeverage > 0.5
    ensures MaintenanceRequired(p, maxLeverage) == p.openRate * p.amount * MaintenanceRate(maxLeverage)
  {
    Quotient(p.openRate * p.amount, maxLeverage);
    Quotient(1.0, maxLeverage * 2.0);
  }

  lemma GapCloses(p: Position, available: real, rate: real)
    requires p.amount > 0.0 && 1.0 - rate * Sign(p.side) != 0.0
    ensures Gap(p, available, rate) * (p.amount * (rate - Sign(p.side))) == -available
  {
    var gap, s := Gap(p, available, rate), Sign(p.side);
    Quotient(s * available / p.amount, 1.0 - rate * s);
    Quotient(s * available, p.amount);
    assert gap * (1.0 - rate * s) * p.amount == s * available;
  }
}
