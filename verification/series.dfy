/** The pandas column operations the backtest script relies on, over exact reals:
    `rolling(w).mean()`, `diff()`, `pct_change()`, `shift(1)`, `fillna`, `cumprod()`,
    `cummax()`, `min()` and `sum()`. Positions stand in for the date index. */
module Series {
  import opened Optional

  /** Sum of the cells `xs[lo..hi]`, accumulated from the front. */
  function Sum(xs: seq<real>, lo: nat, hi: nat): real
    requires lo <= hi <= |xs|
    decreases hi - lo
  {
    if lo == hi then 0.0 else Sum(xs, lo, hi - 1) + xs[hi - 1]
  }

  /** Product of the first `n` cells, accumulated from the front. */
  function Product(xs: seq<real>, n: nat): real
    requires n <= |xs|
  {
    if n == 0 then 1.0 else Product(xs, n - 1) * xs[n - 1]
  }

  /** Sum of an integer column (`Series.sum()` on the trade column). */
  function Total(xs: seq<int>): int
    decreases |xs|
  {
    if |xs| == 0 then 0 else Total(xs[..|xs| - 1]) + xs[|xs| - 1]
  }

  predicate Positive(xs: seq<real>) {
    forall k :: 0 <= k < |xs| ==> xs[k] > 0.0
  }

  /** Mean of the `w` values ending at index `i`. */
  function WindowMean(xs: seq<real>, w: nat, i: nat): real
    requires 1 <= w && w - 1 <= i < |xs|
  {
    Sum(xs, i - w + 1, i + 1) / (w as real)
  }

  /** `rolling(window=w).mean()` with pandas' default `min_periods = w`: the first
      `w - 1` cells are NaN, every later cell is the mean of the trailing window. */
  function RollingMean(xs: seq<real>, w: nat): (r: seq<Option<real>>)
    requires w >= 1
    ensures |r| == |xs|
    ensures forall i :: 0 <= i < |xs| ==> (r[i].Some? <==> i >= w - 1)
  {
    seq(|xs|, i requires 0 <= i < |xs| => if i < w - 1 then None else Some(WindowMean(xs, w, i)))
  }

  /** `diff()`: the first cell has no predecessor and is NaN; every later cell is the
      step that takes yesterday's value to today's. */
  function Diff(xs: seq<real>): (d: seq<Option<real>>)
    ensures |d| == |xs|
    ensures |xs| > 0 ==> d[0].None?
    ensures forall i :: 1 <= i < |xs| ==> d[i].Some? && xs[i - 1] + d[i].value == xs[i]
  {
    seq(|xs|, i requires 0 <= i < |xs| => if i == 0 then None else Some(xs[i] - xs[i - 1]))
  }

  /** `pct_change()`: relative change from the previous cell, NaN in the first. */
  function PctChange(xs: seq<real>): (r: seq<Option<real>>)
    requires Positive(xs)
    ensures |r| == |xs|
    ensures |xs| > 0 ==> r[0].None?
    ensures forall i :: 1 <= i < |xs| ==> r[i].Some?
  {
    seq(|xs|, i requires 0 <= i < |xs| => if i == 0 then None else Some(xs[i] / xs[i - 1] - 1.0))
  }

  /** Yesterday's value grown by `pct_change()` gives back today's value; only the first
      cell, which has no yesterday, is NaN. */
  lemma PctChangeRestores(xs: seq<real>)
    requires Positive(xs)
    ensures |xs| > 0 ==> PctChange(xs)[0].None?
    ensures forall i :: 1 <= i < |xs| ==> PctChange(xs)[i].Some? && xs[i - 1] * (1.0 + PctChange(xs)[i].value) == xs[i]
  {
    forall i | 1 <= i < |xs|
      ensures xs[i - 1] * (1.0 + PctChange(xs)[i].value) == xs[i]
    {
      var q := xs[i] / xs[i - 1];
      assert PctChange(xs)[i].value == q - 1.0;
      assert xs[i - 1] * q == xs[i];
    }
  }

  /** `shift(1)` of an integer column: the result is a float column with NaN in front. */
  function Lag(xs: seq<int>): (r: seq<Option<real>>)
    ensures |r| == |xs|
    ensures |xs| > 0 ==> r[0].None?
    ensures forall i :: 1 <= i < |xs| ==> r[i] == Some(xs[i - 1] as real)
  {
    seq(|xs|, i requires 0 <= i < |xs| => if i == 0 then None else Some(xs[i - 1] as real))
  }

  /** `fillna(v)`. */
  function FillNa(xs: seq<Option<real>>, v: real): (r: seq<real>)
    ensures |r| == |xs|
    ensures forall i :: 0 <= i < |xs| ==> (xs[i].Some? ==> r[i] == xs[i].value) && (xs[i].None? ==> r[i] == v)
  {
    seq(|xs|, i requires 0 <= i < |xs| => xs[i].GetOr(v))
  }

  /** `cumprod()`: each cell is the product of the prefix ending there. */
  function CumProd(xs: seq<real>): (r: seq<real>)
    ensures |r| == |xs|
    ensures forall i {:trigger r[i]} :: 0 <= i < |xs| ==> r[i] == Product(xs, i + 1)
  {
    RunningProduct(xs, |xs|)
  }

  /** The first `n` cells of `cumprod()`, computed with a running product as pandas
      does: each cell is the previous one times the next value. */
  function RunningProduct(xs: seq<real>, n: nat): (r: seq<real>)
    requires n <= |xs|
    ensures |r| == n
    ensures forall i {:trigger r[i]} :: 0 <= i < n ==> r[i] == Product(xs, i + 1)
  {
    if n == 0 then []
    else
      var p := RunningProduct(xs, n - 1);
      p + [(if n == 1 then 1.0 else p[n - 2]) * xs[n - 1]]
  }

  /** `m` is the largest of `xs[0..i]`: it bounds each of them and is one of them. */
  predicate PrefixMax(xs: seq<real>, i: nat, m: real)
    requires i < |xs|
  {
    (forall j :: 0 <= j <= i ==> xs[j] <= m) && (exists j :: 0 <= j <= i && xs[j] == m)
  }

  /** Largest value of a non-empty sequence, taken from the front. */
  function Max(xs: seq<real>): real
    requires |xs| > 0
    decreases |xs|
  {
    if |xs| == 1 then xs[0]
    else
      var m := Max(xs[..|xs| - 1]);
      if xs[|xs| - 1] > m then xs[|xs| - 1] else m
  }

  /** `Max` bounds every value and is one of them. */
  lemma {:induction false} MaxIsLargest(xs: seq<real>)
    requires |xs| > 0
    ensures PrefixMax(xs, |xs| - 1, Max(xs))
    decreases |xs|
  {
    if |xs| > 1 {
      var front := xs[..|xs| - 1];
      MaxIsLargest(front);
      var j :| 0 <= j <= |front| - 1 && front[j] == Max(front);
      assert xs[j] == Max(front);
    }
  }

  /** `cummax()`, computed with a running maximum: each cell is the largest value of
      the prefix ending there. */
  function CumMax(xs: seq<real>): (r: seq<real>)
    ensures |r| == |xs|
    ensures forall i {:trigger r[i]} :: 0 <= i < |xs| ==> r[i] == Max(xs[..i + 1])
    decreases |xs|
  {
    if |xs| == 0 then []
    else
      var front := xs[..|xs| - 1];
      var p := CumMax(front);
      var x := xs[|xs| - 1];
      assert forall i :: 0 <= i < |front| ==> p[i] == Max(xs[..i + 1]) by {
        forall i | 0 <= i < |front| ensures p[i] == Max(xs[..i + 1]) {
          assert front[..i + 1] == xs[..i + 1];
        }
      }
      assert xs[..|xs|] == xs;
      assert |p| > 0 ==> xs[..|xs|][..|xs| - 1] == front[..|p|];
      p + [if |p| == 0 || x > p[|p| - 1] then x else p[|p| - 1]]
  }

  /** Each cell of `cummax()` is the largest value of the prefix ending there. */
  lemma CumMaxIsPrefixMax(xs: seq<real>)
    ensures forall i :: 0 <= i < |xs| ==> PrefixMax(xs, i, CumMax(xs)[i])
  {
    forall i | 0 <= i < |xs|
      ensures PrefixMax(xs, i, CumMax(xs)[i])
    {
      var prefix := xs[..i + 1];
      MaxIsLargest(prefix);
      assert forall j :: 0 <= j <= i ==> prefix[j] == xs[j];
    }
  }

  /** `min()` of a non-empty column: a lower bound that is attained. */
  function Min(xs: seq<real>): (m: real)
    requires |xs| > 0
    ensures forall k :: 0 <= k < |xs| ==> m <= xs[k]
    ensures exists k :: 0 <= k < |xs| && m == xs[k]
    decreases |xs|
  {
    if |xs| == 1 then xs[0]
    else
      var front := xs[..|xs| - 1];
      var m := Min(front);
      assert forall k :: 0 <= k < |front| ==> front[k] == xs[k];
      if xs[|xs| - 1] < m then xs[|xs| - 1] else m
  }

  /** A column with a positive total has a positive cell. */
  lemma {:induction false} PositiveTotalHasPositiveCell(xs: seq<int>)
    requires Total(xs) > 0
    ensures exists k :: 0 <= k < |xs| && xs[k] > 0
    decreases |xs|
  {
    var front := xs[..|xs| - 1];
    if xs[|xs| - 1] <= 0 {
      PositiveTotalHasPositiveCell(front);
      var k :| 0 <= k < |front| && front[k] > 0;
      assert xs[k] == front[k];
    }
  }

  /** Multiplying smaller positive factors gives a smaller product, strictly smaller
      when one of the factors is strictly smaller. */
  lemma MulMono(x: real, y: real, u: real, v: real)
    requires 0.0 < x <= y && 0.0 < u <= v
    ensures 0.0 < x * u <= y * v
    ensures x < y || u < v ==> x * u < y * v
  {
    assert x * u <= y * u;
    assert y * u <= y * v;
  }

  /** Cell by cell smaller positive factors have a smaller positive product. */
  lemma {:induction false} ProductMonotone(a: seq<real>, b: seq<real>, n: nat)
    requires n <= |a| && n <= |b|
    requires forall k :: 0 <= k < n ==> 0.0 < b[k] <= a[k]
    ensures 0.0 < Product(b, n) <= Product(a, n)
  {
    if n > 0 {
      ProductMonotone(a, b, n - 1);
      MulMono(Product(b, n - 1), Product(a, n - 1), b[n - 1], a[n - 1]);
    }
  }

  /** One strictly smaller factor makes the product strictly smaller. */
  lemma {:induction false} ProductStrict(a: seq<real>, b: seq<real>, n: nat, k: nat)
    requires k < n <= |a| && n <= |b|
    requires forall j :: 0 <= j < n ==> 0.0 < b[j] <= a[j]
    requires b[k] < a[k]
    ensures Product(b, n) < Product(a, n)
  {
    ProductMonotone(a, b, n - 1);
    if k == n - 1 {
      MulMono(Product(b, n - 1), Product(a, n - 1), b[n - 1], a[n - 1]);
    } else {
      ProductStrict(a, b, n - 1, k);
      MulMono(Product(b, n - 1), Product(a, n - 1), b[n - 1], a[n - 1]);
    }
  }

  /** Splitting a range in two splits its sum. */
  lemma {:induction false} SumSplit(xs: seq<real>, a: nat, b: nat, c: nat)
    requires a <= b <= c <= |xs|
    ensures Sum(xs, a, c) == Sum(xs, a, b) + Sum(xs, b, c)
    decreases c - b
  {
    if c > b {
      SumSplit(xs, a, b, c - 1);
    }
  }

  /** Every value equal to `v` makes the sum `(hi - lo) * v`. */
  lemma {:induction false} SumConstant(xs: seq<real>, lo: nat, hi: nat, v: real)
    requires lo <= hi <= |xs|
    requires forall k :: lo <= k < hi ==> xs[k] == v
    ensures Sum(xs, lo, hi) == (hi - lo) as real * v
    decreases hi - lo
  {
    if hi > lo {
      SumConstant(xs, lo, hi - 1, v);
    }
  }

  /** A sum of values at least `m` is at least `(hi - lo) * m`. */
  lemma {:induction false} SumAtLeast(xs: seq<real>, lo: nat, hi: nat, m: real)
    requires lo <= hi <= |xs|
    requires forall k :: lo <= k < hi ==> xs[k] >= m
    ensures Sum(xs, lo, hi) >= (hi - lo) as real * m
    decreases hi - lo
  {
    if hi > lo {
      SumAtLeast(xs, lo, hi - 1, m);
    }
  }

  /** A non-empty sum of values below `m` is below `(hi - lo) * m`. */
  lemma {:induction false} SumBelow(xs: seq<real>, lo: nat, hi: nat, m: real)
    requires lo < hi <= |xs|
    requires forall k :: lo <= k < hi ==> xs[k] < m
    ensures Sum(xs, lo, hi) < (hi - lo) as real * m
    decreases hi - lo
  {
    if hi > lo + 1 {
      SumBelow(xs, lo, hi - 1, m);
    }
  }

  /** A constant column has a constant moving average wherever the average is defined. */
  lemma RollingMeanOfConstant(xs: seq<real>, w: nat, v: real)
    requires w >= 1
    requires forall k :: 0 <= k < |xs| ==> xs[k] == v
    ensures forall i :: w - 1 <= i < |xs| ==> RollingMean(xs, w)[i] == Some(v)
  {
    forall i | w - 1 <= i < |xs|
      ensures RollingMean(xs, w)[i] == Some(v)
    {
      var lo, hi := i - w + 1, i + 1;
      SumConstant(xs, lo, hi, v);
      assert Sum(xs, lo, hi) == (hi - lo) as real * v;
      assert hi - lo == w;
      assert Sum(xs, lo, hi) == w as real * v;
      Cancel(w as real, v);
      assert WindowMean(xs, w, i) == v;
    }
  }

  lemma Cancel(d: real, v: real)
    requires d > 0.0
    ensures d * v / d == v
  {
  }

  /** Every defined moving average of a column of non-negative values is non-negative. */
  lemma RollingMeanNonNegative(xs: seq<real>, w: nat)
    requires w >= 1
    requires forall k :: 0 <= k < |xs| ==> xs[k] >= 0.0
    ensures forall i :: 0 <= i < |xs| && RollingMean(xs, w)[i].Some? ==> RollingMean(xs, w)[i].value >= 0.0
  {
    forall i | w - 1 <= i < |xs|
      ensures WindowMean(xs, w, i) >= 0.0
    {
      SumAtLeast(xs, i - w + 1, i + 1, 0.0);
    }
  }

  /** Start of the window that ends just before index `i`: the last `min(i, w)` cells. */
  function WindowStart(i: nat, w: nat): nat {
    if i < w then 0 else i - w
  }

  /** Moving the window one cell to the right adds the new cell and, once the
      window is full, drops the oldest one. */
  lemma SlideWindow(xs: seq<real>, w: nat, i: nat)
    requires 1 <= w && i < |xs|
    ensures Sum(xs, WindowStart(i + 1, w), i + 1)
         == Sum(xs, WindowStart(i, w), i) + xs[i] - (if i >= w then xs[i - w] else 0.0)
  {
    if i >= w {
      SumSplit(xs, i - w, i - w + 1, i + 1);
    }
  }

  /** The rolling mean in one pass over the column, keeping the sum of the current
      window and updating it by one addition and at most one subtraction per cell, as
      pandas' window aggregation does. It agrees with the windowed mean everywhere. */
  method RollingMeanOnePass(xs: seq<real>, w: nat) returns (r: seq<Option<real>>)
    requires w >= 1
    ensures r == RollingMean(xs, w)
  {
    r := [];
    var total := 0.0;
    var i := 0;
    while i < |xs|
      invariant 0 <= i <= |xs|
      invariant |r| == i
      invariant forall k :: 0 <= k < i ==> r[k] == RollingMean(xs, w)[k]
      invariant total == Sum(xs, WindowStart(i, w), i)
    {
      SlideWindow(xs, w, i);
      total := total + xs[i];
      if i >= w {
        total := total - xs[i - w];
      }
      if i >= w - 1 {
        r := r + [Some(total / (w as real))];
      } else {
        r := r + [None];
      }
      i := i + 1;
    }
  }
}
