/** The backtest engine of the dashboard script: from a close-price column and the
    sidebar parameters to the full frame of derived columns (lines 71-87 of the script)
    and the summary figures shown above the charts. */
module Backtest {
  import opened Optional
  import opened Series
  import opened Indicators
  import opened Signals
  import opened Returns

  /** The sidebar settings the engine reads. `cost` is the friction per trade as a
      fraction (the slider's percentage divided by 100). */
  datatype Params = Params(
    shortWindow: nat,
    longWindow: nat,
    cost: real,
    useRsi: bool,
    rsiLimit: real,
    capital: real)

  /** Window lengths are at least one, as every caller in the script passes (the presets
      5/20 and 20/60, custom windows of at least 1 and 2, and the RSI's 14); the capital
      is positive so that the drawdown divides by a positive peak. */
  predicate Valid(p: Params) {
    p.shortWindow >= 1 && p.longWindow >= 1 && p.capital > 0.0
  }

  /** The data frame after the engine has run: one column per derived series, all
      aligned with the close prices. */
  datatype Frame = Frame(
    close: seq<real>,
    shortMa: seq<Option<real>>,
    longMa: seq<Option<real>>,
    rsi: seq<Option<real>>,
    maSignal: seq<int>,
    signal: seq<int>,
    trade: seq<int>,
    marketRet: seq<Option<real>>,
    stratRet: seq<Option<real>>,
    accStrat: seq<real>,
    accMarket: seq<real>,
    peak: seq<real>,
    dd: seq<real>)

  predicate Aligned(f: Frame) {
    var n := |f.close|;
    && |f.shortMa| == n && |f.longMa| == n && |f.rsi| == n
    && |f.maSignal| == n && |f.signal| == n && |f.trade| == n
    && |f.marketRet| == n && |f.stratRet| == n
    && |f.accStrat| == n && |f.accMarket| == n && |f.peak| == n && |f.dd| == n
  }

  /** The position columns of lines 71-78. */
  datatype Positions = Positions(
    shortMa: seq<Option<real>>,
    longMa: seq<Option<real>>,
    rsi: seq<Option<real>>,
    maSignal: seq<int>,
    signal: seq<int>,
    trade: seq<int>)

  /** Moving averages, RSI, crossover signal, filtered signal and trades: all aligned
      with the prices, all 0/1, and the filtered signal never long where the crossover
      is flat. */
  function PositionStage(close: seq<real>, p: Params): (q: Positions)
    requires Valid(p)
    ensures |q.shortMa| == |close| && |q.longMa| == |close| && |q.rsi| == |close|
    ensures |q.maSignal| == |close| && |q.signal| == |close| && |q.trade| == |close|
    ensures Binary(q.maSignal) && Binary(q.signal) && Binary(q.trade)
    ensures forall i :: 0 <= i < |close| ==> q.signal[i] <= q.maSignal[i]
    ensures |close| > 0 ==> q.trade[0] == 0
    ensures forall i {:trigger q.trade[i]} :: 0 < i < |close| ==> (q.trade[i] == 1 <==> q.signal[i] != q.signal[i - 1])
    ensures Total(q.trade) == ChangeCount(q.signal)
  {
    var shortMa := RollingMean(close, p.shortWindow);
    var longMa := RollingMean(close, p.longWindow);
    var rsi := Rsi(close, RsiWindow);
    var maSignal := CrossoverSignal(shortMa, longMa);
    var signal := FilteredSignal(maSignal, rsi, p.useRsi, p.rsiLimit);
    TradeCountIsChangeCount(signal);
    TradesMarkChanges(signal);
    Positions(shortMa, longMa, rsi, maSignal, signal, Trades(signal))
  }

  /** The money columns of lines 81-87. */
  datatype Accounts = Accounts(
    marketRet: seq<Option<real>>,
    stratRet: seq<Option<real>>,
    accStrat: seq<real>,
    accMarket: seq<real>,
    peak: seq<real>,
    dd: seq<real>)

  /** Returns, compounded accounts, running peak and drawdown: both accounts open at the
      capital, the peak bounds the strategy account and the capital from above, and no
      drawdown is positive. */
  function AccountStage(close: seq<real>, signal: seq<int>, trade: seq<int>, p: Params): (a: Accounts)
    requires Valid(p) && Positive(close)
    requires |signal| == |close| && |trade| == |close|
    ensures |a.marketRet| == |close| && |a.stratRet| == |close|
    ensures |a.accStrat| == |close| && |a.accMarket| == |close| && |a.peak| == |close| && |a.dd| == |close|
    ensures |close| > 0 ==> a.accStrat[0] == p.capital && a.accMarket[0] == p.capital
    ensures forall i :: 0 <= i < |close| ==> a.accStrat[i] <= a.peak[i] && p.capital <= a.peak[i]
    ensures forall i :: 0 <= i < |close| ==> a.dd[i] <= 0.0
  {
    var marketRet := PctChange(close);
    var stratRet := StrategyReturns(signal, trade, marketRet, p.cost);
    var accStrat := Account(p.capital, stratRet);
    var accMarket := Account(p.capital, marketRet);
    AccountOpens(p.capital, stratRet);
    AccountOpens(p.capital, marketRet);
    PeakBounds(accStrat);
    var peak := CumMax(accStrat);
    Accounts(marketRet, stratRet, accStrat, accMarket, peak, Drawdown(accStrat, peak))
  }

  /** The engine: the two stages laid side by side in one frame. */
  function Run(close: seq<real>, p: Params): (f: Frame)
    requires Valid(p) && Positive(close)
    ensures f.close == close && Aligned(f)
    ensures Binary(f.maSignal) && Binary(f.signal) && Binary(f.trade)
    ensures forall i :: 0 <= i < |close| ==> f.signal[i] <= f.maSignal[i]
    ensures |close| > 0 ==> f.accStrat[0] == p.capital && f.accMarket[0] == p.capital
    ensures forall i :: 0 <= i < |close| ==> f.accStrat[i] <= f.peak[i] && p.capital <= f.peak[i]
    ensures forall i :: 0 <= i < |close| ==> f.dd[i] <= 0.0
    ensures |close| > 0 ==> f.trade[0] == 0
    ensures forall i {:trigger f.trade[i]} :: 0 < i < |close| ==> (f.trade[i] == 1 <==> f.signal[i] != f.signal[i - 1])
    ensures Total(f.trade) == ChangeCount(f.signal)
  {
    var q := PositionStage(close, p);
    var a := AccountStage(close, q.signal, q.trade, p);
    Frame(close, q.shortMa, q.longMa, q.rsi, q.maSignal, q.signal, q.trade,
          a.marketRet, a.stratRet, a.accStrat, a.accMarket, a.peak, a.dd)
  }

  /** How each column of the frame is derived from the ones before it. */
  lemma RunColumns(close: seq<real>, p: Params)
    requires Valid(p) && Positive(close)
    ensures Run(close, p).shortMa == RollingMean(close, p.shortWindow)
    ensures Run(close, p).longMa == RollingMean(close, p.longWindow)
    ensures Run(close, p).rsi == Rsi(close, RsiWindow)
    ensures Run(close, p).maSignal == CrossoverSignal(Run(close, p).shortMa, Run(close, p).longMa)
    ensures Run(close, p).signal == FilteredSignal(Run(close, p).maSignal, Run(close, p).rsi, p.useRsi, p.rsiLimit)
    ensures Run(close, p).trade == Trades(Run(close, p).signal)
    ensures Run(close, p).marketRet == PctChange(close)
    ensures Run(close, p).stratRet == StrategyReturns(Run(close, p).signal, Run(close, p).trade, PctChange(close), p.cost)
    ensures Run(close, p).accStrat == Account(p.capital, Run(close, p).stratRet)
    ensures Run(close, p).accMarket == Account(p.capital, PctChange(close))
    ensures Run(close, p).peak == CumMax(Run(close, p).accStrat)
  {
  }

  /** The trade column is derived from the signal column. */
  lemma RunTrades(close: seq<real>, p: Params)
    requires Valid(p) && Positive(close)
    ensures Run(close, p).trade == Trades(Run(close, p).signal)
  {
  }

  /** The strategy account is derived from the signal column and the prices. */
  lemma RunStrategy(close: seq<real>, p: Params)
    requires Valid(p) && Positive(close)
    ensures Run(close, p).accStrat == Account(p.capital, StrategyReturns(Run(close, p).signal, Trades(Run(close, p).signal), PctChange(close), p.cost))
  {
  }

  /** The buy-and-hold column of the frame is the capital scaled by the price ratio to
      the first day. */
  lemma MarketColumnTracksPrice(close: seq<real>, p: Params)
    requires Valid(p) && Positive(close)
    ensures forall i {:trigger Run(close, p).accMarket[i]} :: 0 <= i < |close| ==> Run(close, p).accMarket[i] == p.capital * close[i] / close[0]
  {
    MarketAccountTracksPrice(p.capital, close);
  }

  /** The figures shown above the charts. */
  datatype Summary = Summary(
    finalValue: real,
    roi: real,
    marketRoi: real,
    mdd: real,
    tradeCount: int,
    holding: bool,
    lastRsi: Option<real>)

  /** What the report says about a backtest frame that is not empty: the final
      strategy value and its return on the capital in percent, the buy-and-hold return
      in percent, which is the percentage price change over the period, the deepest
      drawdown in percent, which is never positive and is attained on some day, the
      trade count, which is the number of position changes, whether the last position
      is long, and the last RSI. */
  predicate Describes(s: Summary, f: Frame, capital: real)
    requires Aligned(f) && |f.close| > 0 && f.close[0] > 0.0 && capital > 0.0
  {
    var last := |f.close| - 1;
    && s.finalValue == f.accStrat[last]
    && s.roi == PercentChange(capital, f.accStrat[last])
    && s.marketRoi == PercentChange(f.close[0], f.close[last])
    && s.mdd <= 0.0
    && (forall i :: 0 <= i < |f.dd| ==> s.mdd <= f.dd[i] * 100.0)
    && (exists i :: 0 <= i < |f.dd| && s.mdd == f.dd[i] * 100.0)
    && s.tradeCount == ChangeCount(f.signal)
    && (s.holding <==> f.signal[last] == 1)
    && s.lastRsi == f.rsi[last]
  }

  /** The report for a price history: nothing for an empty history (the script skips
      an empty frame), otherwise the figures that describe the engine's frame. */
  function Report(close: seq<real>, p: Params): (r: Option<Summary>)
    requires Valid(p) && Positive(close)
    ensures r.None? <==> |close| == 0
    ensures r.Some? ==> Describes(r.value, Run(close, p), p.capital)
  {
    if |close| == 0 then None
    else
      SummaryDescribesRun(close, p);
      Summarize(Run(close, p), p.capital)
  }

  /** The figures read off the engine's frame describe it. */
  lemma SummaryDescribesRun(close: seq<real>, p: Params)
    requires Valid(p) && Positive(close) && |close| > 0
    ensures Describes(Summarize(Run(close, p), p.capital).value, Run(close, p), p.capital)
  {
    MarketReturnIsPriceChange(close, p);
  }

  /** Change from `start` to `end` in percent of `start`. */
  function PercentChange(start: real, end: real): real
    requires start > 0.0
  {
    (end / start - 1.0) * 100.0
  }

  /** Ending where it started is a change of zero percent. */
  lemma NoChange(x: real)
    requires x > 0.0
    ensures PercentChange(x, x) == 0.0
  {
  }

  /** The figures read off a finished frame: the last strategy value, both returns on
      the capital in percent, the smallest drawdown in percent, which no day's drawdown
      undercuts and some day attains, the sum of the trade column and the last signal
      and RSI. An empty frame has no figures. */
  function Summarize(f: Frame, capital: real): (r: Option<Summary>)
    requires Aligned(f) && capital > 0.0
    ensures r.None? <==> |f.close| == 0
    ensures r.Some? ==>
      && (forall i :: 0 <= i < |f.dd| ==> r.value.mdd <= f.dd[i] * 100.0)
      && (exists i :: 0 <= i < |f.dd| && r.value.mdd == f.dd[i] * 100.0)
  {
    if |f.close| == 0 then None
    else
      var last := |f.close| - 1;
      ScaledMin(f.dd, 100.0);
      Some(Summary(
        f.accStrat[last],
        PercentChange(capital, f.accStrat[last]),
        PercentChange(capital, f.accMarket[last]),
        Min(f.dd) * 100.0,
        Total(f.trade),
        f.signal[last] == 1,
        f.rsi[last]))
  }

  /** Scaling a column by a positive factor scales its minimum: the scaled minimum
      bounds every scaled cell and is one of them. */
  lemma ScaledMin(xs: seq<real>, c: real)
    requires |xs| > 0 && c > 0.0
    ensures forall i :: 0 <= i < |xs| ==> Min(xs) * c <= xs[i] * c
    ensures exists i :: 0 <= i < |xs| && Min(xs) * c == xs[i] * c
  {
    var k :| 0 <= k < |xs| && Min(xs) == xs[k];
    assert Min(xs) * c == xs[k] * c;
  }

  /** The buy-and-hold return over the whole history is the price change over it. */
  lemma MarketReturnIsPriceChange(close: seq<real>, p: Params)
    requires Valid(p) && Positive(close) && |close| > 0
    ensures Run(close, p).accMarket[|close| - 1] / p.capital == close[|close| - 1] / close[0]
  {
    var last := |close| - 1;
    var acc := Account(p.capital, PctChange(close));
    assert Run(close, p).accMarket == acc;
    BuyAndHoldReturn(p.capital, close);
  }

  lemma BuyAndHoldReturn(capital: real, close: seq<real>)
    requires capital > 0.0 && Positive(close) && |close| > 0
    ensures Account(capital, PctChange(close))[|close| - 1] / capital == close[|close| - 1] / close[0]
  {
    var last := |close| - 1;
    var final := Account(capital, PctChange(close))[last];
    assert final * close[0] == capital * close[last] by {
      MarketGrowth(capital, close, last);
    }
    CrossRatio(final, capital, close[last], close[0]);
  }

  /** `a * d == c * b` with `c` and `d` positive gives `a / c == b / d`. */
  lemma CrossRatio(a: real, c: real, b: real, d: real)
    requires c > 0.0 && d > 0.0 && a * d == c * b
    ensures a / c == b / d
  {
    assert a == c * b / d;
    assert a / c == (c * b / d) / c;
  }
}
