/** Whole-engine behaviour on two price histories with a known outcome: a price that
    never moves, and a price that rises every day. */
module Scenarios {
  import opened Optional
  import opened Series
  import opened Signals
  import opened Returns
  import opened Backtest

  /** A price that never moves: both averages equal the price wherever they are defined,
      so the crossover never fires. There is no position and no trade, both accounts
      stay at the capital, no drawdown occurs, and the report shows zero return, zero
      drawdown, zero trades and a flat position. */
  lemma FlatPricesStayFlat(close: seq<real>, p: Params, v: real)
    requires Valid(p) && v > 0.0
    requires forall k :: 0 <= k < |close| ==> close[k] == v
    ensures Positive(close)
    ensures forall i :: 0 <= i < |close| ==> Run(close, p).signal[i] == 0 && Run(close, p).trade[i] == 0
    ensures forall i :: 0 <= i < |close| ==>
      Run(close, p).accStrat[i] == p.capital && Run(close, p).accMarket[i] == p.capital && Run(close, p).dd[i] == 0.0
    ensures |close| > 0 ==> Report(close, p) == Some(Summary(p.capital, 0.0, 0.0, 0.0, 0, false, Run(close, p).rsi[|close| - 1]))
  {
    FlatSignalNeverLong(close, p, v);
    FlatAccounts(close, p, v);
    if |close| > 0 {
      FlatReport(close, p, v);
    }
  }

  lemma FlatReport(close: seq<real>, p: Params, v: real)
    requires Valid(p) && v > 0.0 && |close| > 0
    requires forall k :: 0 <= k < |close| ==> close[k] == v
    ensures Positive(close)
    ensures Report(close, p) == Some(Summary(p.capital, 0.0, 0.0, 0.0, 0, false, Run(close, p).rsi[|close| - 1]))
  {
    FlatSignalNeverLong(close, p, v);
    FlatAccounts(close, p, v);
    QuietSummary(Report(close, p).value, Run(close, p), p.capital);
  }

  /** A frame in which nothing happens (the price ends where it started, the position
      is always flat, the strategy account stays at the capital and there is no
      drawdown) is summarised by zero returns, zero drawdown, zero trades and a flat
      position. */
  lemma QuietSummary(s: Summary, f: Frame, capital: real)
    requires Aligned(f) && |f.close| > 0 && f.close[0] > 0.0 && capital > 0.0
    requires Describes(s, f, capital)
    requires f.close[|f.close| - 1] == f.close[0]
    requires forall i :: 0 <= i < |f.close| ==> f.signal[i] == 0 && f.accStrat[i] == capital && f.dd[i] == 0.0
    ensures s == Summary(capital, 0.0, 0.0, 0.0, 0, false, f.rsi[|f.close| - 1])
  {
    ConstantNoChanges(f.signal, 0);
    var k :| 0 <= k < |f.dd| && s.mdd == f.dd[k] * 100.0;
    NoChange(capital);
    NoChange(f.close[0]);
  }

  lemma FlatSignalNeverLong(close: seq<real>, p: Params, v: real)
    requires Valid(p) && v > 0.0
    requires forall k :: 0 <= k < |close| ==> close[k] == v
    ensures Positive(close)
    ensures forall i :: 0 <= i < |close| ==> Run(close, p).signal[i] == 0 && Run(close, p).trade[i] == 0
  {
    var f := Run(close, p);
    RunColumns(close, p);
    ConstantNeverCrosses(close, p.shortWindow, p.longWindow, v);
    assert forall i :: 0 <= i < |close| ==> f.signal[i] == 0;
  }

  /** Two moving averages of a constant column never cross. */
  lemma ConstantNeverCrosses(close: seq<real>, s: nat, l: nat, v: real)
    requires s >= 1 && l >= 1
    requires forall k :: 0 <= k < |close| ==> close[k] == v
    ensures forall i :: 0 <= i < |close| ==> CrossoverSignal(RollingMean(close, s), RollingMean(close, l))[i] == 0
  {
    RollingMeanOfConstant(close, s, v);
    RollingMeanOfConstant(close, l, v);
  }

  lemma FlatAccounts(close: seq<real>, p: Params, v: real)
    requires Valid(p) && v > 0.0
    requires forall k :: 0 <= k < |close| ==> close[k] == v
    requires forall i :: 0 <= i < |close| ==> Run(close, p).signal[i] == 0 && Run(close, p).trade[i] == 0
    ensures forall i :: 0 <= i < |close| ==>
      Run(close, p).accStrat[i] == p.capital && Run(close, p).accMarket[i] == p.capital && Run(close, p).dd[i] == 0.0
  {
    var f := Run(close, p);
    assert f.marketRet == PctChange(close);
    assert f.stratRet == StrategyReturns(f.signal, f.trade, f.marketRet, p.cost);
    assert f.accStrat == Account(p.capital, f.stratRet);
    assert f.accMarket == Account(p.capital, f.marketRet);
    ConstantPriceHasNoReturn(close, v);
    IdleStrategyEarnsNothing(f.signal, f.trade, f.marketRet, p.cost);
    AccountFlat(p.capital, f.stratRet, |close|);
    AccountFlat(p.capital, f.marketRet, |close|);
    assert f.peak == CumMax(f.accStrat);
    CumMaxIsPrefixMax(f.accStrat);
    forall i | 0 <= i < |close|
      ensures f.peak[i] == p.capital
    {
      assert PrefixMax(f.accStrat, i, f.peak[i]);
    }
  }

  /** Every day's price is above every earlier day's. */
  predicate Rising(close: seq<real>) {
    forall a, b :: 0 <= a < b < |close| ==> close[a] < close[b]
  }

  /** On a rising price the shorter trailing mean is above the longer one: the extra
      days the long window reaches back over are all cheaper than any day in the short
      window. */
  lemma ShortAboveLong(close: seq<real>, s: nat, l: nat, i: nat)
    requires Rising(close) && 1 <= s < l && l - 1 <= i < |close|
    ensures WindowMean(close, s, i) > WindowMean(close, l, i)
  {
    var first := i - s + 1;
    SumSplit(close, i - l + 1, first, i + 1);
    OlderDaysBelow(close, i - l + 1, first);
    LaterDaysAtLeast(close, first, i + 1);
    MeanComparison(Sum(close, i - l + 1, first), Sum(close, first, i + 1), (l - s) as real, s as real, close[first]);
    assert (l - s) as real + s as real == l as real;
  }

  /** Every day before `to` is cheaper than day `to`. */
  lemma OlderDaysBelow(close: seq<real>, from: nat, to: nat)
    requires Rising(close) && from < to < |close|
    ensures Sum(close, from, to) < (to - from) as real * close[to]
  {
    SumBelow(close, from, to, close[to]);
  }

  /** No day from `from` on is cheaper than day `from`. */
  lemma LaterDaysAtLeast(close: seq<real>, from: nat, to: nat)
    requires Rising(close) && from < to <= |close|
    ensures Sum(close, from, to) >= (to - from) as real * close[from]
  {
    SumAtLeast(close, from, to, close[from]);
  }

  /** If the `a` older values average below `m` and the `b` recent ones at least `m`,
      the recent mean is above the mean of all `a + b`. */
  lemma MeanComparison(older: real, recent: real, a: real, b: real, m: real)
    requires a > 0.0 && b > 0.0
    requires older < a * m && recent >= b * m
    ensures recent / b > (older + recent) / (a + b)
  {
    var q := recent / b;
    assert q * b == recent;
    assert q >= m;
    assert a * m <= a * q;
    assert older + recent < (a + b) * q;
  }

  /** With the RSI filter off and the short window shorter than the long one, a rising
      price is long from the first day the long average exists, and flat before. */
  lemma RisingSignal(close: seq<real>, p: Params)
    requires Valid(p) && !p.useRsi && p.shortWindow < p.longWindow
    requires Positive(close) && Rising(close)
    ensures EntersAt(Run(close, p).signal, p.longWindow - 1)
  {
    var f := Run(close, p);
    assert f.shortMa == RollingMean(close, p.shortWindow);
    assert f.longMa == RollingMean(close, p.longWindow);
    assert f.maSignal == CrossoverSignal(f.shortMa, f.longMa);
    assert f.signal == f.maSignal;
    forall i | p.longWindow - 1 <= i < |close|
      ensures f.signal[i] == 1
    {
      ShortAboveLong(close, p.shortWindow, p.longWindow, i);
    }
  }

  /** The single trade of a rising price is the entry on the first day the long average
      exists; a history too short for that average has no trade. */
  lemma RisingTrades(close: seq<real>, p: Params)
    requires Valid(p) && !p.useRsi && p.shortWindow < p.longWindow
    requires Positive(close) && Rising(close)
    ensures forall i :: 0 <= i < |close| ==> Run(close, p).trade[i] == (if i == p.longWindow - 1 then 1 else 0)
    ensures ChangeCount(Run(close, p).signal) == (if |close| >= p.longWindow then 1 else 0)
  {
    RisingSignal(close, p);
    EntryTrades(close, p);
  }

  lemma EntryTrades(close: seq<real>, p: Params)
    requires Valid(p) && p.longWindow >= 2 && Positive(close)
    requires EntersAt(Run(close, p).signal, p.longWindow - 1)
    ensures forall i :: 0 <= i < |close| ==> Run(close, p).trade[i] == (if i == p.longWindow - 1 then 1 else 0)
    ensures ChangeCount(Run(close, p).signal) == (if |close| >= p.longWindow then 1 else 0)
  {
    RunTrades(close, p);
    EntryIsOneTrade(Run(close, p).signal, p.longWindow - 1);
    EntryChanges(Run(close, p).signal, p.longWindow - 1);
  }

  /** Entering on day `k` is one change if the history reaches day `k`, none otherwise. */
  lemma EntryChanges(signal: seq<int>, k: nat)
    requires k >= 1 && EntersAt(signal, k)
    ensures ChangeCount(signal) == (if |signal| > k then 1 else 0)
  {
    if |signal| > k {
      StepChangesOnce(signal, k);
    } else {
      ConstantNoChanges(signal, 0);
    }
  }

  /** On a rising price the strategy account stays at the capital until the entry day,
      pays the cost on it, and from then on grows with the price. */
  lemma RisingAccount(close: seq<real>, p: Params)
    requires Valid(p) && !p.useRsi && p.shortWindow < p.longWindow
    requires Positive(close) && Rising(close)
    ensures EntryCurve(Run(close, p).accStrat, close, p.capital, p.cost, p.longWindow - 1)
  {
    RisingSignal(close, p);
    EntryAccounts(close, p);
  }

  lemma EntryAccounts(close: seq<real>, p: Params)
    requires Valid(p) && p.longWindow >= 2 && Positive(close)
    requires EntersAt(Run(close, p).signal, p.longWindow - 1)
    ensures EntryCurve(Run(close, p).accStrat, close, p.capital, p.cost, p.longWindow - 1)
  {
    var signal := Run(close, p).signal;
    RunStrategy(close, p);
    EntryStrategy(signal, close, p.capital, p.cost, p.longWindow - 1);
  }
}
