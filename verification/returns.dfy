/** Returns and account curves: the market return, the strategy return held with
    yesterday's position and charged for today's trades, the compounded accounts, the
    running peak and the drawdown from it. */
module Returns {
  import opened Optional
  import opened Series
  import opened Signals

  /** `signal.shift(1) * market_ret - trade * cost`: today's exposure is yesterday's
      position, and a trade today costs `cost` of the account. */
  function StrategyReturns(signal: seq<int>, trade: seq<int>, marketRet: seq<Option<real>>, cost: real): (r: seq<Option<real>>)
    requires |trade| == |signal| && |marketRet| == |signal|
    ensures |r| == |signal|
    ensures |r| > 0 ==> r[0].None?
    ensures forall i {:trigger r[i]} :: 1 <= i < |r| ==> (r[i].Some? <==> marketRet[i].Some?)
    ensures forall i {:trigger r[i]} :: 1 <= i < |r| && marketRet[i].Some? ==>
      r[i].value == signal[i - 1] as real * marketRet[i].value - trade[i] as real * cost
  {
    var held := Lag(signal);
    var charge := seq(|trade|, i requires 0 <= i < |trade| => trade[i] as real * cost);
    assert forall i :: 1 <= i < |signal| ==> held[i] == Some(signal[i - 1] as real);
    seq(|signal|, i requires 0 <= i < |signal| => Minus(Times(held[i], marketRet[i]), charge[i]))
  }

  /** Whatever position is taken today, the strategy return of today differs only by the
      cost of today's trade: the exposure comes from yesterday's position alone. */
  lemma NoLookAhead(s1: seq<int>, s2: seq<int>, marketRet: seq<Option<real>>, cost: real, i: nat)
    requires |s1| == |s2| == |marketRet|
    requires 1 <= i < |s1| && s1[i - 1] == s2[i - 1]
    ensures StrategyReturns(s1, Trades(s1), marketRet, cost)[i].Some?
        <==> StrategyReturns(s2, Trades(s2), marketRet, cost)[i].Some?
    ensures StrategyReturns(s1, Trades(s1), marketRet, cost)[i].Some? ==>
      StrategyReturns(s1, Trades(s1), marketRet, cost)[i].value + Trades(s1)[i] as real * cost
      == StrategyReturns(s2, Trades(s2), marketRet, cost)[i].value + Trades(s2)[i] as real * cost
  {
    if marketRet[i].Some? {
      var held := s1[i - 1] as real * marketRet[i].value;
      var r1, r2 := StrategyReturns(s1, Trades(s1), marketRet, cost), StrategyReturns(s2, Trades(s2), marketRet, cost);
      assert r1[i].Some? && r1[i].value + Trades(s1)[i] as real * cost == held by {
        ChargeAside(s1, marketRet, cost, i);
      }
      assert r2[i].Some? && r2[i].value + Trades(s2)[i] as real * cost == held by {
        ChargeAside(s2, marketRet, cost, i);
      }
    }
  }

  /** Adding back today's trade charge leaves yesterday's position times the market
      return. */
  lemma ChargeAside(signal: seq<int>, marketRet: seq<Option<real>>, cost: real, i: nat)
    requires |marketRet| == |signal| && 1 <= i < |signal| && marketRet[i].Some?
    ensures StrategyReturns(signal, Trades(signal), marketRet, cost)[i].Some?
    ensures StrategyReturns(signal, Trades(signal), marketRet, cost)[i].value + Trades(signal)[i] as real * cost
      == signal[i - 1] as real * marketRet[i].value
  {
    var r := StrategyReturns(signal, Trades(signal), marketRet, cost);
    var charge := Trades(signal)[i] as real * cost;
    assert r[i].value == signal[i - 1] as real * marketRet[i].value - charge;
  }

  /** With no cost, today's position has no effect at all on today's return. */
  lemma NoLookAheadWithoutCost(s1: seq<int>, s2: seq<int>, marketRet: seq<Option<real>>, i: nat)
    requires |s1| == |s2| == |marketRet|
    requires 1 <= i < |s1| && s1[i - 1] == s2[i - 1]
    ensures StrategyReturns(s1, Trades(s1), marketRet, 0.0)[i] == StrategyReturns(s2, Trades(s2), marketRet, 0.0)[i]
  {
    ZeroCostReturn(s1, Trades(s1), marketRet, i);
    ZeroCostReturn(s2, Trades(s2), marketRet, i);
  }

  /** A price that never moves has a zero return every day after the first. */
  lemma ConstantPriceHasNoReturn(close: seq<real>, v: real)
    requires v > 0.0 && forall k :: 0 <= k < |close| ==> close[k] == v
    ensures Positive(close)
    ensures forall i :: 0 <= i < |close| ==> PctChange(close)[i].GetOr(0.0) == 0.0
  {
    var r := PctChange(close);
    forall i | 1 <= i < |close|
      ensures r[i].GetOr(0.0) == 0.0
    {
      assert r[i] == Some(v / v - 1.0);
    }
  }

  /** A strategy that is never long and never trades earns nothing and pays nothing. */
  lemma IdleStrategyEarnsNothing(signal: seq<int>, trade: seq<int>, marketRet: seq<Option<real>>, cost: real)
    requires |trade| == |signal| && |marketRet| == |signal|
    requires forall i :: 0 <= i < |signal| ==> signal[i] == 0 && trade[i] == 0
    ensures forall i :: 0 <= i < |signal| ==> StrategyReturns(signal, trade, marketRet, cost)[i].GetOr(0.0) == 0.0
  {
    var r := StrategyReturns(signal, trade, marketRet, cost);
    forall i | 0 <= i < |signal|
      ensures r[i].GetOr(0.0) == 0.0
    {
      if i >= 1 && marketRet[i].Some? {
        assert r[i].value == 0.0 * marketRet[i].value - 0.0 * cost;
      }
    }
  }

  /** With no trading cost the strategy return is the market return scaled by yesterday's
      position. */
  lemma ZeroCostReturn(signal: seq<int>, trade: seq<int>, marketRet: seq<Option<real>>, i: nat)
    requires |trade| == |signal| && |marketRet| == |signal|
    requires 1 <= i < |signal|
    ensures StrategyReturns(signal, trade, marketRet, 0.0)[i] == Times(Some(signal[i - 1] as real), marketRet[i])
  {
  }

  /** The growth factors `1 + ret.fillna(0)`: NaN returns leave the account unchanged. */
  function Growth(rets: seq<Option<real>>): (g: seq<real>)
    ensures |g| == |rets|
  {
    var filled := FillNa(rets, 0.0);
    seq(|rets|, i requires 0 <= i < |rets| => 1.0 + filled[i])
  }

  /** A day's growth factor is one plus its return; a day without a return leaves the
      account as it was. */
  lemma GrowthFactors(rets: seq<Option<real>>)
    ensures forall i :: 0 <= i < |rets| ==>
      (rets[i].Some? ==> Growth(rets)[i] == 1.0 + rets[i].value) && (rets[i].None? ==> Growth(rets)[i] == 1.0)
  {
  }

  /** `capital * (1 + ret.fillna(0)).cumprod()`: the account after each day is the
      capital times the product of all growth factors so far. */
  function Account(capital: real, rets: seq<Option<real>>): (acc: seq<real>)
    ensures |acc| == |rets|
    ensures forall i {:trigger acc[i]} :: 0 <= i < |rets| ==> acc[i] == capital * Product(Growth(rets), i + 1)
  {
    var cp := CumProd(Growth(rets));
    seq(|rets|, i requires 0 <= i < |rets| => capital * cp[i])
  }

  /** Each day after the first multiplies the previous value of `acc` by `1 + return`,
      a NaN return counting as 0. */
  predicate Compounds(acc: seq<real>, rets: seq<Option<real>>)
    requires |acc| == |rets|
  {
    forall i :: 1 <= i < |rets| ==> acc[i] == acc[i - 1] * (1.0 + rets[i].GetOr(0.0))
  }

  /** The account compounds the returns day by day. */
  lemma AccountRecurrence(capital: real, rets: seq<Option<real>>)
    ensures Compounds(Account(capital, rets), rets)
  {
    forall i | 1 <= i < |rets|
      ensures Account(capital, rets)[i] == Account(capital, rets)[i - 1] * (1.0 + rets[i].GetOr(0.0))
    {
      AccountStep(capital, rets, i);
    }
  }

  /** With a NaN first return (as after `pct_change` or `shift`) the account opens at
      exactly the capital. */
  lemma AccountOpens(capital: real, rets: seq<Option<real>>)
    ensures |rets| > 0 && rets[0].None? ==> Account(capital, rets)[0] == capital
  {
    AccountStart(capital, rets);
    if |rets| > 0 && rets[0].None? {
      assert rets[0].GetOr(0.0) == 0.0;
    }
  }

  lemma AccountStart(capital: real, rets: seq<Option<real>>)
    ensures |rets| > 0 ==> Account(capital, rets)[0] == capital * (1.0 + rets[0].GetOr(0.0))
  {
    if |rets| > 0 {
      var g := Growth(rets);
      assert Product(g, 1) == g[0];
    }
  }

  lemma AccountStep(capital: real, rets: seq<Option<real>>, i: nat)
    requires 1 <= i < |rets|
    ensures Account(capital, rets)[i] == Account(capital, rets)[i - 1] * (1.0 + rets[i].GetOr(0.0))
  {
    var g := Growth(rets);
    assert Product(g, i + 1) == Product(g, i) * g[i];
  }

  /** An account whose returns are NaN or zero over the first `days` days stays at the
      capital over those days. */
  lemma {:induction false} AccountFlat(capital: real, rets: seq<Option<real>>, days: nat)
    requires days <= |rets|
    requires forall i :: 0 <= i < days ==> rets[i].GetOr(0.0) == 0.0
    ensures forall i :: 0 <= i < days ==> Account(capital, rets)[i] == capital
  {
    var g := Growth(rets);
    assert forall i :: 0 <= i < days ==> g[i] == 1.0;
    forall i | 0 <= i < days
      ensures Account(capital, rets)[i] == capital
    {
      ProductOfOnes(g, i + 1);
    }
  }

  lemma {:induction false} ProductOfOnes(xs: seq<real>, n: nat)
    requires n <= |xs|
    requires forall k :: 0 <= k < n ==> xs[k] == 1.0
    ensures Product(xs, n) == 1.0
  {
    if n > 0 {
      ProductOfOnes(xs, n - 1);
    }
  }

  /** A dearer trade never helps: while every daily growth factor under the higher cost
      stays positive, the final strategy account under the higher cost is at most the
      one under the lower cost, and strictly below it once the strategy trades at all. */
  lemma CostLowersAccount(signal: seq<int>, close: seq<real>, capital: real, c1: real, c2: real)
    requires Positive(close) && |signal| == |close| && |close| > 0
    requires c1 < c2 && capital > 0.0
    requires Positive(Growth(StrategyReturns(signal, Trades(signal), PctChange(close), c2)))
    ensures Account(capital, StrategyReturns(signal, Trades(signal), PctChange(close), c2))[|close| - 1]
         <= Account(capital, StrategyReturns(signal, Trades(signal), PctChange(close), c1))[|close| - 1]
    ensures Total(Trades(signal)) > 0 ==>
      Account(capital, StrategyReturns(signal, Trades(signal), PctChange(close), c2))[|close| - 1]
      < Account(capital, StrategyReturns(signal, Trades(signal), PctChange(close), c1))[|close| - 1]
  {
    var t := Trades(signal);
    var r1 := StrategyReturns(signal, t, PctChange(close), c1);
    var r2 := StrategyReturns(signal, t, PctChange(close), c2);
    CostLowersGrowth(signal, close, c1, c2);
    AccountMonotone(capital, r1, r2);
    if Total(t) > 0 {
      PositiveTotalHasPositiveCell(t);
      var k :| 0 <= k < |t| && t[k] > 0;
      AccountStrict(capital, r1, r2, k);
    }
  }

  /** Returns whose growth factors are positive and nowhere larger give a final
      account that is no larger. */
  lemma AccountMonotone(capital: real, r1: seq<Option<real>>, r2: seq<Option<real>>)
    requires |r1| == |r2| > 0 && capital > 0.0
    requires Positive(Growth(r2))
    requires forall k :: 0 <= k < |r1| ==> Growth(r2)[k] <= Growth(r1)[k]
    ensures Account(capital, r2)[|r1| - 1] <= Account(capital, r1)[|r1| - 1]
  {
    var n := |r1|;
    var g1, g2 := Growth(r1), Growth(r2);
    ProductMonotone(g1, g2, n);
    ScaleOrder(capital, Product(g1, n), Product(g2, n), Account(capital, r1)[n - 1], Account(capital, r2)[n - 1]);
  }

  /** Scaling two ordered positive values by the same positive capital keeps their
      order, strict or not. */
  lemma ScaleOrder(capital: real, p1: real, p2: real, a1: real, a2: real)
    requires capital > 0.0 && 0.0 < p2 <= p1
    requires a1 == capital * p1 && a2 == capital * p2
    ensures a2 <= a1
    ensures p2 < p1 ==> a2 < a1
  {
    MulMono(capital, capital, p2, p1);
  }

  /** One day with a strictly smaller growth factor makes the final account strictly
      smaller. */
  lemma AccountStrict(capital: real, r1: seq<Option<real>>, r2: seq<Option<real>>, k: nat)
    requires |r1| == |r2| && k < |r1| && capital > 0.0
    requires Positive(Growth(r2))
    requires forall j :: 0 <= j < |r1| ==> Growth(r2)[j] <= Growth(r1)[j]
    requires Growth(r2)[k] < Growth(r1)[k]
    ensures Account(capital, r2)[|r1| - 1] < Account(capital, r1)[|r1| - 1]
  {
    var n := |r1|;
    var g1, g2 := Growth(r1), Growth(r2);
    ProductMonotone(g1, g2, n);
    ProductStrict(g1, g2, n, k);
    ScaleOrder(capital, Product(g1, n), Product(g2, n), Account(capital, r1)[n - 1], Account(capital, r2)[n - 1]);
  }

  /** Raising the cost lowers each day's growth factor by the extra charge of that day's
      trade: not at all on a day without a trade, strictly on a day with one. */
  lemma CostLowersGrowth(signal: seq<int>, close: seq<real>, c1: real, c2: real)
    requires Positive(close) && |signal| == |close| && c1 < c2
    ensures forall k :: 0 <= k < |close| ==>
      Growth(StrategyReturns(signal, Trades(signal), PctChange(close), c2))[k]
      <= Growth(StrategyReturns(signal, Trades(signal), PctChange(close), c1))[k]
    ensures forall k :: 0 <= k < |close| && Trades(signal)[k] > 0 ==>
      Growth(StrategyReturns(signal, Trades(signal), PctChange(close), c2))[k]
      < Growth(StrategyReturns(signal, Trades(signal), PctChange(close), c1))[k]
  {
    forall k | 0 <= k < |close|
      ensures Growth(StrategyReturns(signal, Trades(signal), PctChange(close), c2))[k]
           <= Growth(StrategyReturns(signal, Trades(signal), PctChange(close), c1))[k]
      ensures Trades(signal)[k] > 0 ==>
        Growth(StrategyReturns(signal, Trades(signal), PctChange(close), c2))[k]
        < Growth(StrategyReturns(signal, Trades(signal), PctChange(close), c1))[k]
    {
      CostLowersGrowthOnDay(signal, close, c1, c2, k);
    }
  }

  lemma CostLowersGrowthOnDay(signal: seq<int>, close: seq<real>, c1: real, c2: real, k: nat)
    requires Positive(close) && |signal| == |close| && c1 < c2 && k < |close|
    ensures Growth(StrategyReturns(signal, Trades(signal), PctChange(close), c2))[k]
         <= Growth(StrategyReturns(signal, Trades(signal), PctChange(close), c1))[k]
    ensures Trades(signal)[k] > 0 ==>
      Growth(StrategyReturns(signal, Trades(signal), PctChange(close), c2))[k]
      < Growth(StrategyReturns(signal, Trades(signal), PctChange(close), c1))[k]
  {
    var t := Trades(signal);
    var r1 := StrategyReturns(signal, t, PctChange(close), c1);
    var r2 := StrategyReturns(signal, t, PctChange(close), c2);
    GrowthFactors(r1);
    GrowthFactors(r2);
    if k > 0 {
      ChargeAside(signal, PctChange(close), c1, k);
      ChargeAside(signal, PctChange(close), c2, k);
      ChargeGrows(t[k], c1, c2);
      GrowthGap(Growth(r1)[k], Growth(r2)[k], r1[k].value, r2[k].value, t[k] as real * c1, t[k] as real * c2);
    } else {
      assert r1[0].None? && r2[0].None?;
      assert Growth(r1)[0] == 1.0 && Growth(r2)[0] == 1.0;
    }
  }

  /** Two returns that differ only in their charge: the larger charge leaves the
      smaller growth factor. */
  lemma GrowthGap(g1: real, g2: real, x1: real, x2: real, charge1: real, charge2: real)
    requires g1 == 1.0 + x1 && g2 == 1.0 + x2
    requires x1 + charge1 == x2 + charge2 && charge1 <= charge2
    ensures g2 <= g1
    ensures charge1 < charge2 ==> g2 < g1
  {
  }

  /** The charge of a trade count grows with the cost, strictly for a positive count. */
  lemma ChargeGrows(trades: int, c1: real, c2: real)
    requires trades >= 0 && c1 < c2
    ensures trades as real * c1 <= trades as real * c2
    ensures trades > 0 ==> trades as real * c1 < trades as real * c2
  {
  }

  /** The buy-and-hold account compounds the price changes, which telescope: on day `i`
      it is the capital scaled by the price ratio to the first day. */
  lemma MarketAccountTracksPrice(capital: real, close: seq<real>)
    requires Positive(close)
    ensures forall i {:trigger Account(capital, PctChange(close))[i]} :: 0 <= i < |close| ==> Account(capital, PctChange(close))[i] == capital * close[i] / close[0]
  {
    forall i | 0 <= i < |close|
      ensures Account(capital, PctChange(close))[i] == capital * close[i] / close[0]
    {
      MarketAccountAt(capital, close, i);
    }
  }

  lemma MarketAccountAt(capital: real, close: seq<real>, i: nat)
    requires Positive(close) && i < |close|
    ensures Account(capital, PctChange(close))[i] == capital * close[i] / close[0]
  {
    MarketGrowth(capital, close, i);
    Unscale(Account(capital, PctChange(close))[i], close[0], capital * close[i]);
  }

  /** The buy-and-hold account on day `i`, written without division: it stands to the
      capital as the price on day `i` stands to the first price. */
  lemma MarketGrowth(capital: real, close: seq<real>, i: nat)
    requires Positive(close) && i < |close|
    ensures Account(capital, PctChange(close))[i] * close[0] == capital * close[i]
  {
    var rets := PctChange(close);
    forall j | 0 < j <= i ensures rets[j] == Some(PriceMove(close, j)) {
    }
    AccountOpens(capital, rets);
    ScaledFromDay(capital, rets, close, 0, i, capital);
  }

  lemma Unscale(x: real, d: real, y: real)
    requires d > 0.0 && x * d == y
    ensures x == y / d
  {
  }

  /** The relative price change into day `j`, the market return of that day. */
  function PriceMove(close: seq<real>, j: nat): real
    requires Positive(close) && 0 < j < |close|
  {
    close[j] / close[j - 1] - 1.0
  }

  /** The daily return of a position entered on day `entry` and held: nothing before,
      minus the cost on the entry day, the market's move after. */
  function EntryReturn(close: seq<real>, entry: nat, cost: real, j: nat): real
    requires Positive(close) && 0 < j < |close|
  {
    if j < entry then 0.0 else if j == entry then -cost else PriceMove(close, j)
  }

  /** A position entered on day `entry` and held earns `EntryReturn` every day but the
      first, which has no return. */
  lemma HeldFromEntry(signal: seq<int>, close: seq<real>, entry: nat, cost: real)
    requires Positive(close) && |signal| == |close| && entry >= 1 && EntersAt(signal, entry)
    ensures forall j :: 1 <= j < |close| ==>
      StrategyReturns(signal, Trades(signal), PctChange(close), cost)[j] == Some(EntryReturn(close, entry, cost, j))
  {
    EntryIsOneTrade(signal, entry);
    forall j | 1 <= j < |close|
      ensures StrategyReturns(signal, Trades(signal), PctChange(close), cost)[j] == Some(EntryReturn(close, entry, cost, j))
    {
      HeldOnDay(signal, Trades(signal), close, entry, cost, j);
    }
  }

  lemma HeldOnDay(signal: seq<int>, trade: seq<int>, close: seq<real>, entry: nat, cost: real, j: nat)
    requires Positive(close) && |signal| == |close| && |trade| == |close| && 1 <= j < |close|
    requires signal[j - 1] == (if j - 1 >= entry then 1 else 0)
    requires trade[j] == (if j == entry then 1 else 0)
    ensures StrategyReturns(signal, trade, PctChange(close), cost)[j] == Some(EntryReturn(close, entry, cost, j))
  {
    var move := PriceMove(close, j);
    assert PctChange(close)[j] == Some(move);
    var value := StrategyReturns(signal, trade, PctChange(close), cost)[j].value;
    assert value == signal[j - 1] as real * move - trade[j] as real * cost;
    if j < entry {
      assert value == 0.0 * move - 0.0 * cost;
    } else if j == entry {
      assert value == 0.0 * move - 1.0 * cost;
    } else {
      assert value == 1.0 * move - 0.0 * cost;
    }
  }

  /** From day `t` on, `acc` is `v` scaled by the price ratio to day `t`, written
      without division: `acc[i] * close[t] == v * close[i]`. */
  predicate GrowsWithPrice(acc: seq<real>, close: seq<real>, t: nat, v: real)
    requires |acc| == |close| && t < |close|
  {
    forall i {:trigger acc[i]} :: t <= i < |close| ==> acc[i] * close[t] == v * close[i]
  }

  /** The account of a position entered on day `entry` and held: the capital until the
      day before, the capital less the cost on the entry day, and from then on in
      proportion to the price. */
  predicate EntryCurve(acc: seq<real>, close: seq<real>, capital: real, cost: real, entry: nat)
    requires |acc| == |close|
  {
    && (forall i :: 0 <= i < |close| && i < entry ==> acc[i] == capital)
    && (entry < |close| ==>
          acc[entry] == capital * (1.0 - cost) && GrowsWithPrice(acc, close, entry, capital * (1.0 - cost)))
  }

  /** The strategy account of a position entered on day `entry` and held follows the
      entry curve. */
  lemma EntryStrategy(signal: seq<int>, close: seq<real>, capital: real, cost: real, entry: nat)
    requires Positive(close) && |signal| == |close| && entry >= 1 && EntersAt(signal, entry)
    ensures EntryCurve(Account(capital, StrategyReturns(signal, Trades(signal), PctChange(close), cost)), close, capital, cost, entry)
  {
    HeldFromEntry(signal, close, entry, cost);
    EntryAccount(capital, StrategyReturns(signal, Trades(signal), PctChange(close), cost), close, entry, cost);
  }

  /** An account that enters on day `entry` and holds: the capital until the day
      before, the capital less the cost on the entry day, and from then on in
      proportion to the price. */
  lemma EntryAccount(capital: real, rets: seq<Option<real>>, close: seq<real>, entry: nat, cost: real)
    requires Positive(close) && |rets| == |close| && entry >= 1
    requires |rets| > 0 ==> rets[0].None?
    requires forall j :: 1 <= j < |close| ==> rets[j] == Some(EntryReturn(close, entry, cost, j))
    ensures forall i :: 0 <= i < |close| && i < entry ==> Account(capital, rets)[i] == capital
    ensures entry < |close| ==> Account(capital, rets)[entry] == capital * (1.0 - cost)
    ensures entry < |close| ==> GrowsWithPrice(Account(capital, rets), close, entry, capital * (1.0 - cost))
  {
    BeforeEntry(capital, rets, close, entry, cost);
    if entry < |close| {
      EntryDay(capital, rets, entry, cost);
      HeldAfterEntry(capital, rets, close, entry, cost, capital * (1.0 - cost));
    }
  }

  /** Until the entry day the account stays at the capital. */
  lemma BeforeEntry(capital: real, rets: seq<Option<real>>, close: seq<real>, entry: nat, cost: real)
    requires Positive(close) && |rets| == |close|
    requires |rets| > 0 ==> rets[0].None?
    requires forall j :: 1 <= j < |close| ==> rets[j] == Some(EntryReturn(close, entry, cost, j))
    ensures forall i :: 0 <= i < |close| && i < entry ==> Account(capital, rets)[i] == capital
  {
    var days := if entry < |close| then entry else |close|;
    forall i | 0 <= i < days ensures rets[i].GetOr(0.0) == 0.0 {
      if i >= 1 {
        assert rets[i] == Some(0.0);
      }
    }
    AccountFlat(capital, rets, days);
  }

  /** Paying the cost on the entry day takes it off the capital. */
  lemma EntryDay(capital: real, rets: seq<Option<real>>, entry: nat, cost: real)
    requires 1 <= entry < |rets|
    requires Account(capital, rets)[entry - 1] == capital && rets[entry] == Some(-cost)
    ensures Account(capital, rets)[entry] == capital * (1.0 - cost)
  {
    AccountStep(capital, rets, entry);
  }

  /** From the entry day on, the account is its entry value scaled by the price ratio
      to the entry day. */
  lemma HeldAfterEntry(capital: real, rets: seq<Option<real>>, close: seq<real>, entry: nat, cost: real, v: real)
    requires Positive(close) && |rets| == |close| && entry < |close|
    requires forall j :: 1 <= j < |close| ==> rets[j] == Some(EntryReturn(close, entry, cost, j))
    requires Account(capital, rets)[entry] == v
    ensures GrowsWithPrice(Account(capital, rets), close, entry, v)
  {
    forall i | entry <= i < |close|
      ensures Account(capital, rets)[i] * close[entry] == v * close[i]
    {
      forall j | entry < j <= i ensures rets[j] == Some(PriceMove(close, j)) {
        assert rets[j] == Some(EntryReturn(close, entry, cost, j));
      }
      ScaledFromDay(capital, rets, close, entry, i, v);
    }
  }

  /** Over a stretch of market days starting at day `t`, the account is its value on
      day `t` scaled by the price ratio to that day. */
  lemma ScaledFromDay(capital: real, rets: seq<Option<real>>, close: seq<real>, t: nat, i: nat, v: real)
    requires Positive(close) && |rets| == |close| && t <= i < |close|
    requires forall j :: t < j <= i ==> rets[j] == Some(PriceMove(close, j))
    requires Account(capital, rets)[t] == v
    ensures Account(capital, rets)[i] * close[t] == v * close[i]
  {
    var acc := Account(capital, rets);
    AccountFollowsPrice(capital, rets, close, t, i);
    Substitute(acc[i] * close[t], acc[t], close[i], v);
  }

  lemma Substitute(lhs: real, x: real, y: real, v: real)
    requires lhs == x * y && x == v
    ensures lhs == v * y
  {
  }

  /** Over a stretch of days on which the strategy return is the market return, the
      account moves in proportion to the price: its ratio to the price stays fixed. */
  lemma AccountFollowsPrice(capital: real, rets: seq<Option<real>>, close: seq<real>, t: nat, i: nat)
    requires Positive(close) && |rets| == |close| && t <= i < |close|
    requires forall j :: t < j <= i ==> rets[j] == Some(PriceMove(close, j))
    ensures Account(capital, rets)[i] * close[t] == Account(capital, rets)[t] * close[i]
  {
    AccountRecurrence(capital, rets);
    CompoundsMoves(Account(capital, rets), rets, close, t, i);
    CompoundsLikePrice(Account(capital, rets), close, t, i);
  }

  /** Over days whose return is the price move, a compounding column compounds the
      price moves. */
  lemma CompoundsMoves(acc: seq<real>, rets: seq<Option<real>>, close: seq<real>, t: nat, i: nat)
    requires Positive(close) && |acc| == |rets| == |close| && t <= i < |close|
    requires Compounds(acc, rets)
    requires forall j :: t < j <= i ==> rets[j] == Some(PriceMove(close, j))
    ensures CompoundsPriceMoves(acc, close, t, i)
  {
    forall j | t < j <= i
      ensures acc[j] == acc[j - 1] * (1.0 + PriceMove(close, j))
    {
      assert rets[j].GetOr(0.0) == PriceMove(close, j);
    }
  }

  /** From day `t` to day `i` each cell of `acc` is the previous one grown by the
      price move of its day. */
  predicate CompoundsPriceMoves(acc: seq<real>, close: seq<real>, t: nat, i: nat)
    requires Positive(close) && |acc| == |close| && t <= i < |close|
  {
    forall j :: t < j <= i ==> acc[j] == acc[j - 1] * (1.0 + PriceMove(close, j))
  }

  /** A column that compounds the price moves from day `t` to day `i` keeps its ratio
      to the price. */
  lemma {:induction false} CompoundsLikePrice(acc: seq<real>, close: seq<real>, t: nat, i: nat)
    requires Positive(close) && |acc| == |close| && t <= i < |close|
    requires CompoundsPriceMoves(acc, close, t, i)
    ensures acc[i] * close[t] == acc[t] * close[i]
    decreases i - t
  {
    if i > t {
      CompoundsLikePrice(acc, close, t, i - 1);
      HoldStep(acc[i - 1], acc[t], close[t], close[i - 1], close[i], acc[i]);
    }
  }

  /** One day held in the market keeps the account-to-price ratio. */
  lemma HoldStep(accPrev: real, accStart: real, priceStart: real, pricePrev: real, price: real, acc: real)
    requires pricePrev > 0.0
    requires accPrev * priceStart == accStart * pricePrev
    requires acc == accPrev * (1.0 + (price / pricePrev - 1.0))
    ensures acc * priceStart == accStart * price
  {
    var ratio := price / pricePrev;
    assert ratio * pricePrev == price;
    calc {
      acc * priceStart;
      accPrev * ratio * priceStart;
      (accPrev * priceStart) * ratio;
      (accStart * pricePrev) * ratio;
      accStart * (ratio * pricePrev);
    }
  }

  /** `(acc - peak) / peak` cell by cell. */
  function Drawdown(acc: seq<real>, peak: seq<real>): (dd: seq<real>)
    requires |peak| == |acc|
    requires Positive(peak)
    ensures |dd| == |acc|
    ensures forall i :: 0 <= i < |acc| && acc[i] <= peak[i] ==> dd[i] <= 0.0
    ensures forall i :: 0 <= i < |acc| ==> (dd[i] == 0.0 <==> acc[i] == peak[i])
  {
    seq(|acc|, i requires 0 <= i < |acc| => (acc[i] - peak[i]) / peak[i])
  }

  /** The running peak is at least the opening value and the current value. */
  lemma PeakBounds(acc: seq<real>)
    ensures forall i :: 0 <= i < |acc| ==> acc[0] <= CumMax(acc)[i] && acc[i] <= CumMax(acc)[i]
  {
    CumMaxIsPrefixMax(acc);
    var peak := CumMax(acc);
    forall i | 0 <= i < |acc|
      ensures acc[0] <= peak[i] && acc[i] <= peak[i]
    {
      assert PrefixMax(acc, i, peak[i]);
    }
  }

  /** The running peak never decreases. */
  lemma PeakNonDecreasing(acc: seq<real>)
    ensures forall i, j :: 0 <= j <= i < |acc| ==> CumMax(acc)[j] <= CumMax(acc)[i]
  {
    CumMaxIsPrefixMax(acc);
    var peak := CumMax(acc);
    forall i, j | 0 <= j <= i < |acc|
      ensures peak[j] <= peak[i]
    {
      assert PrefixMax(acc, j, peak[j]);
      assert PrefixMax(acc, i, peak[i]);
      var k :| 0 <= k <= j && acc[k] == peak[j];
    }
  }

  /** The account is at its running peak exactly when no earlier day was higher. */
  lemma AtPeakIffRunningHigh(acc: seq<real>)
    ensures forall i :: 0 <= i < |acc| ==>
      (CumMax(acc)[i] == acc[i] <==> forall j :: 0 <= j <= i ==> acc[j] <= acc[i])
  {
    CumMaxIsPrefixMax(acc);
    var peak := CumMax(acc);
    forall i | 0 <= i < |acc|
      ensures peak[i] == acc[i] <==> forall j :: 0 <= j <= i ==> acc[j] <= acc[i]
    {
      assert PrefixMax(acc, i, peak[i]);
      var k :| 0 <= k <= i && acc[k] == peak[i];
    }
  }

  /** For an account that starts above zero, the running peak stays at least the
      starting value, never decreases, and bounds the account, so the drawdown is never
      positive; it is zero exactly on the days the account is at a running high. */
  lemma PeakAndDrawdown(acc: seq<real>)
    requires |acc| == 0 || acc[0] > 0.0
    ensures Positive(CumMax(acc))
    ensures forall i :: 0 <= i < |acc| ==> acc[0] <= CumMax(acc)[i] && acc[i] <= CumMax(acc)[i]
    ensures forall i, j :: 0 <= j <= i < |acc| ==> CumMax(acc)[j] <= CumMax(acc)[i]
    ensures forall i :: 0 <= i < |acc| ==> Drawdown(acc, CumMax(acc))[i] <= 0.0
    ensures forall i :: 0 <= i < |acc| ==>
      (Drawdown(acc, CumMax(acc))[i] == 0.0 <==> forall j :: 0 <= j <= i ==> acc[j] <= acc[i])
  {
    PeakBounds(acc);
    PeakNonDecreasing(acc);
    AtPeakIffRunningHigh(acc);
  }
}
