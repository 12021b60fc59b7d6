/** The position columns of the backtest: the moving-average crossover signal, the
    optional RSI filter on it, and the trade column derived from position changes. */
module Signals {
  import opened Optional
  import opened Series

  /** Every cell is 0 (flat) or 1 (long). */
  predicate Binary(s: seq<int>) {
    forall i :: 0 <= i < |s| ==> s[i] == 0 || s[i] == 1
  }

  /** `np.where(short_ma > long_ma, 1, 0)`: long exactly where both averages are
      defined and the short one is above the long one. */
  function CrossoverSignal(shortMa: seq<Option<real>>, longMa: seq<Option<real>>): (s: seq<int>)
    requires |shortMa| == |longMa|
    ensures |s| == |shortMa| && Binary(s)
    ensures forall i :: 0 <= i < |s| ==>
      (s[i] == 1 <==> shortMa[i].Some? && longMa[i].Some? && shortMa[i].value > longMa[i].value)
  {
    seq(|shortMa|, i requires 0 <= i < |shortMa| => if Greater(shortMa[i], longMa[i]) then 1 else 0)
  }

  /** The final signal: with the filter on, `np.where((ma == 1) & (rsi < limit), 1, 0)`;
      with it off, the crossover column itself. The filter can only turn a long into
      flat, never create a long. */
  function FilteredSignal(maSignal: seq<int>, rsi: seq<Option<real>>, useRsi: bool, limit: real): (s: seq<int>)
    requires |rsi| == |maSignal|
    ensures |s| == |maSignal|
    ensures !useRsi ==> s == maSignal
    ensures useRsi ==> Binary(s)
    ensures useRsi ==> forall i :: 0 <= i < |s| ==>
      (s[i] == 1 <==> maSignal[i] == 1 && rsi[i].Some? && rsi[i].value < limit)
    ensures Binary(maSignal) ==> Binary(s) && forall i :: 0 <= i < |s| ==> s[i] <= maSignal[i]
  {
    if useRsi then
      seq(|maSignal|, i requires 0 <= i < |maSignal| => if maSignal[i] == 1 && Less(rsi[i], limit) then 1 else 0)
    else
      maSignal
  }

  function Abs(x: int): int {
    if x < 0 then -x else x
  }

  /** Size of the move from position `a` to position `b`; between two 0/1 positions it
      is 1 exactly when they differ. */
  function Move(a: int, b: int): (d: int)
    ensures d >= 0
    ensures (a == 0 || a == 1) && (b == 0 || b == 1) ==> (d == 1 <==> a != b) && (d == 0 <==> a == b)
  {
    Abs(b - a)
  }

  /** `signal.diff().fillna(0).abs()`. On a 0/1 signal it is 1 exactly on the days the
      position changes; the first day has no predecessor and never counts. */
  function Trades(signal: seq<int>): (t: seq<int>)
    ensures |t| == |signal|
    ensures |t| > 0 ==> t[0] == 0
    ensures forall i {:trigger t[i]} :: 0 <= i < |t| ==> t[i] >= 0
  {
    seq(|signal|, i requires 0 <= i < |signal| => if i == 0 then 0 else Move(signal[i - 1], signal[i]))
  }

  /** On a 0/1 signal the trade column is itself 0/1 and marks exactly the days whose
      position differs from the day before. */
  lemma TradesMarkChanges(signal: seq<int>)
    requires Binary(signal)
    ensures Binary(Trades(signal))
    ensures forall i :: 0 < i < |signal| ==> (Trades(signal)[i] == 1 <==> signal[i] != signal[i - 1])
  {
    var t := Trades(signal);
    forall i | 0 < i < |signal|
      ensures (t[i] == 0 || t[i] == 1) && (t[i] == 1 <==> signal[i] != signal[i - 1])
    {
      assert t[i] == Move(signal[i - 1], signal[i]);
    }
  }

  /** Number of days on which the position differs from the day before. */
  function ChangeCount(signal: seq<int>): nat
    decreases |signal|
  {
    if |signal| < 2 then 0
    else ChangeCount(signal[..|signal| - 1]) + (if signal[|signal| - 1] != signal[|signal| - 2] then 1 else 0)
  }

  /** The reported trade count, the sum of the trade column, is the number of position
      changes, and so at most one less than the number of days. */
  lemma {:induction false} TradeCountIsChangeCount(signal: seq<int>)
    requires Binary(signal)
    ensures Total(Trades(signal)) == ChangeCount(signal)
    ensures |signal| > 0 ==> ChangeCount(signal) <= |signal| - 1
    decreases |signal|
  {
    if |signal| > 0 {
      var front := signal[..|signal| - 1];
      TradeCountIsChangeCount(front);
      assert Trades(signal)[..|signal| - 1] == Trades(front);
    }
  }

  /** A position that never changes has no changes to count. */
  lemma {:induction false} ConstantNoChanges(signal: seq<int>, c: int)
    requires forall i :: 0 <= i < |signal| ==> signal[i] == c
    ensures ChangeCount(signal) == 0
    decreases |signal|
  {
    if |signal| >= 2 {
      ConstantNoChanges(signal[..|signal| - 1], c);
    }
  }

  /** A position that is flat up to day `k` and long from then on changes exactly once. */
  lemma {:induction false} StepChangesOnce(signal: seq<int>, k: nat)
    requires 1 <= k < |signal| && EntersAt(signal, k)
    ensures ChangeCount(signal) == 1
    decreases |signal|
  {
    var front := signal[..|signal| - 1];
    if |signal| == k + 1 {
      ConstantNoChanges(front, 0);
    } else {
      StepChangesOnce(front, k);
    }
  }

  /** Flat before day `k`, long from day `k` on. */
  predicate EntersAt(signal: seq<int>, k: nat) {
    forall i :: 0 <= i < |signal| ==> signal[i] == (if i >= k then 1 else 0)
  }

  /** Entering on day `k` and holding is one trade, on day `k`. */
  lemma EntryIsOneTrade(signal: seq<int>, k: nat)
    requires k >= 1 && EntersAt(signal, k)
    ensures forall i :: 0 <= i < |signal| ==> Trades(signal)[i] == (if i == k then 1 else 0)
  {
    var t := Trades(signal);
    forall i | 1 <= i < |signal| ensures t[i] == (if i == k then 1 else 0) {
      assert t[i] == Move(signal[i - 1], signal[i]);
    }
  }
}
