/** The forecast behind the Waste Trend chart (ui/static/trend_forecast.js).
  *
  * Numbers are reals.  The weight 0.5^((n-1-i)/halfLife) is written Pow(decay, n-1-i), where
  * `decay` stands for 0.5^(1/halfLife); the results hold for every decay strictly between 0 and 1.
  */
module TrendForecast {
  import opened Wrappers

  datatype Params = Params(minPoints: nat, horizon: nat, halfLife: nat)

  datatype Forecast = Forecast(
    minPoints: nat, horizon: nat, slope: Option<real>, stepBreak: bool, points: Option<seq<real>>)

  function ParamsFor(granularity: string): Params {
    if granularity == "month" then Params(4, 6, 2) else Params(7, 30, 10)
  }

  // ----- weights -----------------------------------------------------------------------------

  function Pow(r: real, k: nat): (p: real)
    ensures 0.0 < r ==> 0.0 < p
  {
    if k == 0 then 1.0 else r * Pow(r, k - 1)
  }

  lemma {:induction false} PowAdds(r: real, a: nat, b: nat)
    ensures Pow(r, a + b) == Pow(r, a) * Pow(r, b)
  {
    if a > 0 {
      PowAdds(r, a - 1, b);
      Associate(r, Pow(r, a - 1), Pow(r, b));
    }
  }

  lemma Associate(x: real, y: real, z: real)
    ensures x * (y * z) == (x * y) * z
  {
  }

  predicate Positive(w: seq<real>) {
    forall i :: 0 <= i < |w| ==> 0.0 < w[i]
  }

  /** The weights of a segment of n points, oldest first. */
  function Weights(n: nat, decay: real): (w: seq<real>)
    requires 0.0 < decay
    ensures |w| == n && Positive(w)
  {
    seq(n, i requires 0 <= i < n => Pow(decay, n - 1 - i))
  }

  /** Exponential weights with a half-life: newer points always count more, and a point `halfLife`
    * steps older counts exactly half. */
  lemma {:induction false} WeightsHalve(n: nat, decay: real, halfLife: nat, i: nat, j: nat)
    requires 0.0 < decay < 1.0 && i < j < n
    requires Pow(decay, halfLife) == 0.5
    ensures Weights(n, decay)[i] < Weights(n, decay)[j]
    ensures j == i + halfLife ==> Weights(n, decay)[j] == 2.0 * Weights(n, decay)[i]
  {
    hide Pow;
    var older, newer, step := Pow(decay, n - 1 - i), Pow(decay, n - 1 - j), Pow(decay, j - i);
    assert Weights(n, decay)[i] == older && Weights(n, decay)[j] == newer;
    assert older == step * newer by {
      PowAdds(decay, j - i, n - 1 - j);
      assert j - i + (n - 1 - j) == n - 1 - i;
    }
    PowBelowOne(decay, j - i);
    assert 0.0 < Weights(n, decay)[j];
    Shrink(older, step, newer);
  }

  lemma Shrink(x: real, r: real, y: real)
    requires x == r * y && r < 1.0 && 0.0 < y
    ensures x < y
    ensures r == 0.5 ==> y == 2.0 * x
  {
    ScaleStrictly(y, r, 1.0);
  }

  lemma {:induction false} PowBelowOne(r: real, k: nat)
    requires 0.0 < r < 1.0 && 0 < k
    ensures Pow(r, k) < 1.0
  {
    if k > 1 {
      PowBelowOne(r, k - 1);
      assert r * Pow(r, k - 1) < r * 1.0;
    } else {
      assert Pow(r, 1) == r * Pow(r, 0);
    }
  }

  // ----- the five running sums of fitSlope, and the pairwise form they collapse to -------------

  datatype Sums = Sums(w: real, wx: real, wy: real, wxy: real, wxx: real)

  /** The running sums after one more point (x, v) of weight u. */
  function AddPoint(s: Sums, x: real, u: real, v: real): Sums {
    Sums(s.w + u, s.wx + u * x, s.wy + u * v, s.wxy + u * x * v, s.wxx + u * x * x)
  }

  const NO_SUMS := Sums(0.0, 0.0, 0.0, 0.0, 0.0)

  function Accumulate(w: seq<real>, y: seq<real>, k: nat): Sums
    requires k <= |w| == |y|
  {
    if k == 0 then NO_SUMS
    else AddPoint(Accumulate(w, y, k - 1), Pos(k - 1), w[k-1], y[k-1])
  }

  function Numerator(s: Sums): real { s.w * s.wxy - s.wx * s.wy }

  function Denominator(s: Sums): real { s.w * s.wxx - s.wx * s.wx }

  function Pos(i: int): real { i as real }

  function Gap(i: int, j: int): real { Pos(j) - Pos(i) }

  /** One pair's share: the product of both weights, the distance and a second factor. */
  function Share(u: real, v: real, d: real, e: real): real { u * v * d * e }

  /** Sum over i < m of w[i] * w[j] * (j - i) * (y[j] - y[i]). */
  function RowNum(w: seq<real>, y: seq<real>, j: nat, m: nat): real
    requires m <= j < |w| == |y|
  {
    if m == 0 then 0.0
    else RowNum(w, y, j, m - 1) + Share(w[m-1], w[j], Gap(m - 1, j), y[j] - y[m-1])
  }

  /** Sum over i < j < k of w[i] * w[j] * (j - i) * (y[j] - y[i]). */
  function PairNum(w: seq<real>, y: seq<real>, k: nat): real
    requires k <= |w| == |y|
  {
    if k == 0 then 0.0 else PairNum(w, y, k - 1) + RowNum(w, y, k - 1, k - 1)
  }

  /** Sum over i < m of w[i] * w[j] * (j - i)^2. */
  function RowDen(w: seq<real>, j: nat, m: nat): real
    requires m <= j < |w|
  {
    if m == 0 then 0.0
    else RowDen(w, j, m - 1) + Share(w[m-1], w[j], Gap(m - 1, j), Gap(m - 1, j))
  }

  /** Sum over i < j < k of w[i] * w[j] * (j - i)^2. */
  function PairDen(w: seq<real>, k: nat): real
    requires k <= |w|
  {
    if k == 0 then 0.0 else PairDen(w, k - 1) + RowDen(w, k - 1, k - 1)
  }

  function NumCore(s: Sums, x: real, v: real): real { x * v * s.w - x * s.wy - v * s.wx + s.wxy }

  function DenCore(s: Sums, x: real): real { x * x * s.w - 2.0 * x * s.wx + s.wxx }

  /** What one more point (x, v) of weight c adds to the two determinants. */
  function NumGain(c: real, s: Sums, x: real, v: real): real { c * NumCore(s, x, v) }

  function DenGain(c: real, s: Sums, x: real): real { c * DenCore(s, x) }

  lemma Gains(s: Sums, x: real, u: real, v: real)
    ensures Numerator(NO_SUMS) == Denominator(NO_SUMS) == 0.0
    ensures Numerator(AddPoint(s, x, u, v)) == Numerator(s) + NumGain(u, s, x, v)
    ensures Denominator(AddPoint(s, x, u, v)) == Denominator(s) + DenGain(u, s, x)
  {
    NumeratorGrows(s, x, u, v);
    DenominatorGrows(s, x, u, v);
    hide AddPoint, NumGain, DenGain;
  }

  lemma NumeratorGrows(s: Sums, x: real, u: real, v: real)
    ensures Numerator(AddPoint(s, x, u, v)) == Numerator(s) + NumGain(u, s, x, v)
  {
  }

  lemma DenominatorGrows(s: Sums, x: real, u: real, v: real)
    ensures Denominator(AddPoint(s, x, u, v)) == Denominator(s) + DenGain(u, s, x)
  {
  }

  lemma Weigh(c: real, u: real, d: real, e: real, before: real, after: real)
    requires after == before + u * d * e
    ensures c * after == c * before + Share(u, c, d, e)
  {
  }

  lemma GainsOfPoint(s: Sums, i: real, u: real, v: real, c: real, x: real, y: real, d: real, e: real)
    requires d == x - i && e == y - v
    ensures NumGain(c, NO_SUMS, x, y) == DenGain(c, NO_SUMS, x) == 0.0
    ensures NumGain(c, AddPoint(s, i, u, v), x, y) == NumGain(c, s, x, y) + Share(u, c, d, e)
    ensures DenGain(c, AddPoint(s, i, u, v), x) == DenGain(c, s, x) + Share(u, c, d, d)
  {
    NumGainOfPoint(s, i, u, v, c, x, y, d, e);
    DenGainOfPoint(s, i, u, v, c, x, d);
    hide Share, AddPoint;
  }

  lemma NumGainOfPoint(s: Sums, i: real, u: real, v: real, c: real, x: real, y: real, d: real, e: real)
    requires d == x - i && e == y - v
    ensures NumGain(c, AddPoint(s, i, u, v), x, y) == NumGain(c, s, x, y) + Share(u, c, d, e)
  {
    hide Share, NumCore, AddPoint;
    NumGrows(s, i, u, v, x, y);
    Weigh(c, u, d, e, NumCore(s, x, y), NumCore(AddPoint(s, i, u, v), x, y));
  }

  lemma NumGrows(s: Sums, i: real, u: real, v: real, x: real, y: real)
    ensures NumCore(AddPoint(s, i, u, v), x, y) == NumCore(s, x, y) + u * (x - i) * (y - v)
  {
    Spread(x * y, s.w, u);
    Spread(x, s.wy, u * v);
    Spread(y, s.wx, u * i);
    PairProduct(u, x, i, y, v);
  }

  lemma DenGainOfPoint(s: Sums, i: real, u: real, v: real, c: real, x: real, d: real)
    requires d == x - i
    ensures DenGain(c, AddPoint(s, i, u, v), x) == DenGain(c, s, x) + Share(u, c, d, d)
  {
    hide Share, DenCore, AddPoint;
    DenGrows(s, i, u, v, x);
    Weigh(c, u, d, d, DenCore(s, x), DenCore(AddPoint(s, i, u, v), x));
  }

  lemma DenGrows(s: Sums, i: real, u: real, v: real, x: real)
    ensures DenCore(AddPoint(s, i, u, v), x) == DenCore(s, x) + u * (x - i) * (x - i)
  {
    Spread(x * x, s.w, u);
    Spread(2.0 * x, s.wx, u * i);
    PairProduct(u, x, i, x, i);
  }

  lemma Spread(a: real, b: real, c: real)
    ensures a * (b + c) == a * b + a * c
  {
  }

  lemma PairProduct(u: real, x: real, i: real, y: real, v: real)
    ensures u * (x - i) * (y - v) == x * y * u - x * (u * v) - y * (u * i) + u * i * v
  {
    Spread(u * (x - i), y, -v);
    Spread(u, x, -i);
  }

  lemma {:induction false} RowsAreGains(w: seq<real>, y: seq<real>, j: nat, m: nat)
    requires m <= j < |w| == |y|
    ensures RowNum(w, y, j, m) == NumGain(w[j], Accumulate(w, y, m), Pos(j), y[j])
    ensures RowDen(w, j, m) == DenGain(w[j], Accumulate(w, y, m), Pos(j))
  {
    hide Share, NumGain, DenGain, AddPoint;
    if m == 0 {
      GainsOfPoint(NO_SUMS, 0.0, 0.0, 0.0, w[j], Pos(j), y[j], Pos(j), y[j]);
    } else {
      RowsAreGains(w, y, j, m - 1);
      GainsOfPoint(Accumulate(w, y, m - 1), Pos(m - 1), w[m-1], y[m-1],
                   w[j], Pos(j), y[j], Gap(m - 1, j), y[j] - y[m-1]);
    }
  }

  /** The double-sum identities: numerator and denominator of the fitted slope are sums over pairs. */
  lemma {:induction false} DoubleSums(w: seq<real>, y: seq<real>, k: nat)
    requires k <= |w| == |y|
    ensures Numerator(Accumulate(w, y, k)) == PairNum(w, y, k)
    ensures Denominator(Accumulate(w, y, k)) == PairDen(w, k)
  {
    hide Numerator, Denominator, NumGain, DenGain, AddPoint;
    if k == 0 {
      Gains(NO_SUMS, 0.0, 0.0, 0.0);
    } else {
      DoubleSums(w, y, k - 1);
      RowsAreGains(w, y, k - 1, k - 1);
      Gains(Accumulate(w, y, k - 1), Pos(k - 1), w[k-1], y[k-1]);
    }
  }

  // ----- the slope lies between the extreme adjacent steps -------------------------------------

  /** Every adjacent step of y lies in [lo, hi]. */
  predicate StepsWithin(y: seq<real>, lo: real, hi: real) {
    forall i :: 0 < i < |y| ==> lo <= y[i] - y[i-1] <= hi
  }

  lemma ScaleBetween(c: real, lo: real, x: real, hi: real)
    requires 0.0 <= c && lo <= x <= hi
    ensures lo * c <= x * c <= hi * c
  {
  }

  lemma ScaleStrictly(c: real, x: real, y: real)
    requires 0.0 < c && x < y
    ensures x * c < y * c
  {
  }

  lemma {:induction false} StepsAdd(y: seq<real>, lo: real, hi: real, i: nat, j: nat)
    requires StepsWithin(y, lo, hi) && i <= j < |y|
    ensures lo * Gap(i, j) <= y[j] - y[i] <= hi * Gap(i, j)
  {
    if i < j {
      StepsAdd(y, lo, hi, i, j - 1);
      AddStep(lo, hi, Gap(i, j - 1), y[j-1] - y[i], y[j] - y[j-1], Gap(i, j));
    }
  }

  lemma AddStep(lo: real, hi: real, d: real, e: real, step: real, d': real)
    requires lo * d <= e <= hi * d && lo <= step <= hi && d' == d + 1.0
    ensures lo * d' <= e + step <= hi * d'
  {
  }

  lemma AddPair(u: real, v: real, d: real, dy: real, lo: real, hi: real,
                num: real, den: real, num': real, den': real)
    requires 0.0 < u && 0.0 < v && 0.0 < d
    requires lo * den <= num <= hi * den && lo * d <= dy <= hi * d
    requires num' == num + Share(u, v, d, dy) && den' == den + Share(u, v, d, d)
    ensures lo * den' <= num' <= hi * den' && den < den'
  {
    var c := u * v * d;
    assert 0.0 < c by { assert 0.0 < u * v; }
    ScaleBetween(c, lo * d, dy, hi * d);
    ScaleStrictly(c, 0.0, d);
    assert lo * den' == lo * den + (lo * d) * c;
    assert hi * den' == hi * den + (hi * d) * c;
  }

  lemma {:induction false} RowBetween(w: seq<real>, y: seq<real>, lo: real, hi: real, j: nat, m: nat)
    requires m <= j < |w| == |y| && Positive(w) && StepsWithin(y, lo, hi)
    ensures lo * RowDen(w, j, m) <= RowNum(w, y, j, m) <= hi * RowDen(w, j, m)
    ensures 0.0 <= RowDen(w, j, m) && (0 < m ==> 0.0 < RowDen(w, j, m))
  {
    hide Share;
    if m > 0 {
      RowBetween(w, y, lo, hi, j, m - 1);
      StepsAdd(y, lo, hi, m - 1, j);
      AddPair(w[m-1], w[j], Gap(m - 1, j), y[j] - y[m-1], lo, hi,
              RowNum(w, y, j, m - 1), RowDen(w, j, m - 1), RowNum(w, y, j, m), RowDen(w, j, m));
    }
  }

  lemma AddRow(lo: real, hi: real, num: real, den: real, rowNum: real, rowDen: real, num': real, den': real)
    requires lo * den <= num <= hi * den && lo * rowDen <= rowNum <= hi * rowDen
    requires num' == num + rowNum && den' == den + rowDen
    ensures lo * den' <= num' <= hi * den'
  {
  }

  /** With at least two points the denominator is positive, and the numerator is squeezed between
    * the extreme steps times the denominator. */
  lemma {:induction false} PairsBetween(w: seq<real>, y: seq<real>, lo: real, hi: real, k: nat)
    requires k <= |w| == |y| && Positive(w) && StepsWithin(y, lo, hi)
    ensures lo * PairDen(w, k) <= PairNum(w, y, k) <= hi * PairDen(w, k)
    ensures 0.0 <= PairDen(w, k) && (2 <= k ==> 0.0 < PairDen(w, k))
  {
    hide RowNum, RowDen;
    if k > 0 {
      PairsBetween(w, y, lo, hi, k - 1);
      RowBetween(w, y, lo, hi, k - 1, k - 1);
      AddRow(lo, hi, PairNum(w, y, k - 1), PairDen(w, k - 1), RowNum(w, y, k - 1, k - 1), RowDen(w, k - 1, k - 1),
             PairNum(w, y, k), PairDen(w, k));
    }
  }

  lemma PairDenPositive(w: seq<real>)
    requires 2 <= |w| && Positive(w)
    ensures 0.0 < PairDen(w, |w|)
  {
    PairsBetween(w, seq(|w|, i => 0.0), 0.0, 0.0, |w|);
  }

  /** The weighted mean of the pairwise slopes (y[j]-y[i])/(j-i), pair (i,j) weighted by
    * w[i] * w[j] * (j-i)^2. */
  function Slope(y: seq<real>, decay: real): real
    requires 2 <= |y| && 0.0 < decay
  {
    PairDenPositive(Weights(|y|, decay));
    Quotient(PairNum(Weights(|y|, decay), y, |y|), PairDen(Weights(|y|, decay), |y|))
  }

  function Quotient(num: real, den: real): real
    requires den != 0.0
  {
    num / den
  }

  lemma QuotientBetween(num: real, den: real, lo: real, hi: real)
    requires 0.0 < den && lo * den <= num <= hi * den
    ensures lo <= Quotient(num, den) <= hi
  {
  }

  lemma SlopeBetween(y: seq<real>, decay: real, lo: real, hi: real)
    requires 2 <= |y| && 0.0 < decay && StepsWithin(y, lo, hi)
    ensures lo <= Slope(y, decay) <= hi
  {
    var w := Weights(|y|, decay);
    PairsBetween(w, y, lo, hi, |y|);
    QuotientBetween(PairNum(w, y, |y|), PairDen(w, |y|), lo, hi);
  }

  lemma SlopeFromSums(y: seq<real>, decay: real)
    requires 2 <= |y| && 0.0 < decay
    ensures var s := Accumulate(Weights(|y|, decay), y, |y|);
            Denominator(s) != 0.0 && Quotient(Numerator(s), Denominator(s)) == Slope(y, decay)
  {
    hide Numerator, Denominator, PairNum, PairDen, Accumulate, Quotient;
    var w := Weights(|y|, decay);
    DoubleSums(w, y, |y|);
    PairDenPositive(w);
  }

  lemma NextSums(w: seq<real>, y: seq<real>, k: nat, u: real)
    requires k < |w| == |y| && u == w[k]
    ensures Accumulate(w, y, 0) == NO_SUMS
    ensures Accumulate(w, y, k + 1) == AddPoint(Accumulate(w, y, k), Pos(k), u, y[k])
  {
  }

  method FitSlope(seg: seq<real>, decay: real) returns (slope: real)
    requires 2 <= |seg| && 0.0 < decay < 1.0
    ensures slope == Slope(seg, decay)
  {
    hide Slope, Quotient, Numerator, Denominator, Accumulate, Pow;
    var n := |seg|;
    ghost var ws := Weights(n, decay);
    var sw, swx, swy, swxy, swxx := 0.0, 0.0, 0.0, 0.0, 0.0;
    NextSums(ws, seg, 0, ws[0]);
    for i := 0 to n
      invariant Sums(sw, swx, swy, swxy, swxx) == Accumulate(ws, seg, i)
    {
      var w, x := Pow(decay, n - 1 - i), Pos(i);
      NextSums(ws, seg, i, w);
      sw, swx, swy, swxy, swxx :=
        sw + w, swx + w * x, swy + w * seg[i], swxy + w * x * seg[i], swxx + w * x * x;
    }
    SlopeFromSums(seg, decay);
    var s := Sums(sw, swx, swy, swxy, swxx);
    slope := Quotient(Numerator(s), Denominator(s));
  }

  // ----- what the slope means ----------------------------------------------------------------------

  function Square(x: real): real { x * x }

  /** The squared distances of the first k points from the line a + b*i, the i-th of n weighted by
    * decay^(n-1-i). */
  function Error(y: seq<real>, decay: real, a: real, b: real, k: nat): real
    requires k <= |y|
  {
    if k == 0 then 0.0
    else Error(y, decay, a, b, k - 1) + Pow(decay, |y| - k) * Square(y[k-1] - (a + b * ((k - 1) as real)))
  }

  /** The same by the running sums, and the sum of the squares on its own. */
  function ErrorBySums(s: Sums, squares: real, a: real, b: real): real {
    squares - 2.0 * a * s.wy - 2.0 * b * s.wxy + a * a * s.w + 2.0 * a * b * s.wx + b * b * s.wxx
  }

  function Squares(w: seq<real>, y: seq<real>, k: nat): real
    requires k <= |w| == |y|
  {
    if k == 0 then 0.0 else Squares(w, y, k - 1) + w[k-1] * Square(y[k-1])
  }

  lemma ErrorOfPoint(u: real, x: real, v: real, a: real, b: real)
    ensures u * Square(v - (a + b * x))
         == u * Square(v) - 2.0 * a * (u * v) - 2.0 * b * (u * x * v) + a * a * u + 2.0 * a * b * (u * x) + b * b * (u * x * x)
  {
    var c := b * x;
    assert Square(v - (a + c)) == v * v - 2.0 * a * v - 2.0 * c * v + a * a + 2.0 * a * c + c * c;
    assert u * (c * v) == b * (u * x * v) && u * (a * c) == a * b * (u * x) && u * (c * c) == b * b * (u * x * x);
    assert u * Square(v - (a + c)) == u * (v * v) - 2.0 * a * (u * v) - 2.0 * (u * (c * v)) + a * a * u + 2.0 * (u * (a * c)) + u * (c * c);
  }

  lemma OneMoreError(s: Sums, squares: real, u: real, x: real, v: real, a: real, b: real)
    ensures ErrorBySums(AddPoint(s, x, u, v), squares + u * Square(v), a, b)
         == ErrorBySums(s, squares, a, b) + u * Square(v - (a + b * x))
  {
    ErrorOfPoint(u, x, v, a, b);
    Spread(2.0 * a, s.wy, u * v);
    Spread(2.0 * b, s.wxy, u * x * v);
    Spread(a * a, s.w, u);
    Spread(2.0 * a * b, s.wx, u * x);
    Spread(b * b, s.wxx, u * x * x);
  }

  lemma {:induction false} ErrorIsBySums(y: seq<real>, decay: real, a: real, b: real, k: nat)
    requires k <= |y| && 0.0 < decay
    ensures Error(y, decay, a, b, k)
         == ErrorBySums(Accumulate(Weights(|y|, decay), y, k), Squares(Weights(|y|, decay), y, k), a, b)
  {
    hide ErrorBySums, AddPoint, Square, Pow;
    var w := Weights(|y|, decay);
    if k == 0 {
      NoError(Squares(w, y, 0), a, b);
    } else {
      ErrorIsBySums(y, decay, a, b, k - 1);
      assert w[k-1] == Pow(decay, |y| - k) by { assert |y| - 1 - (k - 1) == |y| - k; }
      var before, squares, x, u, v := Accumulate(w, y, k - 1), Squares(w, y, k - 1), (k - 1) as real, w[k-1], y[k-1];
      assert Pos(k - 1) == x;
      OneMoreError(before, squares, u, x, v, a, b);
      ghost var now := AddPoint(before, x, u, v);
      ghost var sq := squares + u * Square(v);
      assert Accumulate(w, y, k) == now;
      assert Squares(w, y, k) == sq;
      assert Error(y, decay, a, b, k) == ErrorBySums(before, squares, a, b) + u * Square(v - (a + b * x));
      assert Error(y, decay, a, b, k) == ErrorBySums(now, sq, a, b);
    }
  }

  lemma NoError(squares: real, a: real, b: real)
    ensures ErrorBySums(NO_SUMS, squares, a, b) == squares
  {
  }

  /** The intercept and slope for which the weighted residuals, and those times the position, add up to 0. */
  predicate Normal(s: Sums, a: real, b: real) {
    s.wy == a * s.w + b * s.wx && s.wxy == a * s.wx + b * s.wxx
  }

  /** Moving away from such a line by p and q*x costs p*p*w + 2*p*q*wx + q*q*wxx. */
  lemma MovingAway(s: Sums, squares: real, a: real, b: real, p: real, q: real)
    requires Normal(s, a, b)
    ensures ErrorBySums(s, squares, a + p, b + q)
         == ErrorBySums(s, squares, a, b) + (p * p * s.w + 2.0 * p * q * s.wx + q * q * s.wxx)
  {
    var w, wx, wxx := s.w, s.wx, s.wxx;
    assert p * s.wy == p * a * w + p * b * wx;
    assert q * s.wxy == q * a * wx + q * b * wxx;
    assert (a + p) * (a + p) * w == a * a * w + 2.0 * (p * a * w) + p * p * w;
    assert (b + q) * (b + q) * wxx == b * b * wxx + 2.0 * (q * b * wxx) + q * q * wxx;
    assert (a + p) * (b + q) * wx == a * b * wx + q * a * wx + p * b * wx + p * q * wx;
  }

  lemma MovingCosts(s: Sums, p: real, q: real)
    requires 0.0 < s.w && 0.0 < Denominator(s)
    ensures var cost := p * p * s.w + 2.0 * p * q * s.wx + q * q * s.wxx;
            0.0 <= cost && (cost == 0.0 ==> q == 0.0)
  {
    var cost, r := p * p * s.w + 2.0 * p * q * s.wx + q * q * s.wxx, p * s.w + q * s.wx;
    assert s.w * cost == r * r + q * q * Denominator(s) by {
      assert r * r == p * p * s.w * s.w + 2.0 * (p * q * s.wx * s.w) + q * q * s.wx * s.wx;
      assert q * q * Denominator(s) == q * q * s.wxx * s.w - q * q * s.wx * s.wx;
    }
    NonNegative(r);
    NonNegative(q);
    ProductSign(q * q, Denominator(s));
    if cost < 0.0 { ProductSign(-cost, s.w); }
  }

  lemma NonNegative(x: real)
    ensures 0.0 <= x * x && (x * x == 0.0 ==> x == 0.0)
  {
    if x < 0.0 { ProductSign(-x, -x); } else if 0.0 < x { ProductSign(x, x); }
  }

  lemma ProductSign(x: real, y: real)
    requires 0.0 <= x && 0.0 < y
    ensures 0.0 <= x * y && (x * y == 0.0 ==> x == 0.0)
  {
  }

  lemma FittedIsNormal(s: Sums, b: real) returns (a: real)
    requires 0.0 < s.w && 0.0 < Denominator(s) && b * Denominator(s) == Numerator(s)
    ensures Normal(s, a, b)
  {
    a := Quotient(s.wy - b * s.wx, s.w);
    assert a * s.w == s.wy - b * s.wx;
    var gap := s.wxy - (a * s.wx + b * s.wxx);
    assert s.w * gap == Numerator(s) - b * Denominator(s) by {
      assert s.w * (a * s.wx) == (s.wy - b * s.wx) * s.wx;
    }
    if gap != 0.0 { NonZero(s.w, gap); }
  }

  lemma NonZero(x: real, y: real)
    requires 0.0 < x && y != 0.0
    ensures x * y != 0.0
  {
  }

  lemma {:induction false} TotalWeight(w: seq<real>, y: seq<real>, k: nat)
    requires k <= |w| == |y| && Positive(w)
    ensures 0.0 <= Accumulate(w, y, k).w && (0 < k ==> 0.0 < Accumulate(w, y, k).w)
  {
    if k > 0 { TotalWeight(w, y, k - 1); }
  }

  /** The fitted slope is that of the weighted least-squares line: some line with it has the smallest error
    * of all lines, and no line with another slope reaches it. */
  lemma LeastSquares(y: seq<real>, decay: real) returns (a: real)
    requires 2 <= |y| && 0.0 < decay
    ensures forall c, d :: Error(y, decay, a, Slope(y, decay), |y|) <= Error(y, decay, c, d, |y|)
    ensures forall c, d :: Error(y, decay, c, d, |y|) == Error(y, decay, a, Slope(y, decay), |y|) ==> d == Slope(y, decay)
  {
    hide *;
    var w, b := Weights(|y|, decay), Slope(y, decay);
    var s, squares := Accumulate(w, y, |y|), Squares(w, y, |y|);
    SlopeSolves(y, decay);
    TotalWeight(w, y, |y|);
    a := FittedIsNormal(s, b);
    ErrorIsBySums(y, decay, a, b, |y|);
    forall c, d
      ensures Error(y, decay, a, b, |y|) <= Error(y, decay, c, d, |y|)
      ensures Error(y, decay, c, d, |y|) == Error(y, decay, a, b, |y|) ==> d == b
    {
      ErrorIsBySums(y, decay, c, d, |y|);
      MovingAway(s, squares, a, b, c - a, d - b);
      MovingCosts(s, c - a, d - b);
    }
  }

  lemma SlopeSolves(y: seq<real>, decay: real)
    requires 2 <= |y| && 0.0 < decay
    ensures var s := Accumulate(Weights(|y|, decay), y, |y|);
            0.0 < Denominator(s) && Slope(y, decay) * Denominator(s) == Numerator(s)
  {
    hide Numerator, Denominator, PairNum, PairDen, Accumulate;
    var w := Weights(|y|, decay);
    DoubleSums(w, y, |y|);
    PairDenPositive(w);
    QuotientTimes(PairNum(w, y, |y|), PairDen(w, |y|));
  }

  lemma QuotientTimes(num: real, den: real)
    requires den != 0.0
    ensures Quotient(num, den) * den == num
  {
  }

  // ----- the dominant jump -----------------------------------------------------------------------

  function Abs(x: real): real { if x < 0.0 then -x else x }

  function Max0(x: real): real { if x < 0.0 then 0.0 else x }

  function Line(a: real, b: real, i: int): real { a + b * Pos(i) }

  lemma LineSteps(a: real, b: real, i: int, k: int)
    ensures Line(a, b, i + 1) - Line(a, b, i) == b
    ensures Line(Line(a, b, i), b, k) == Line(a, b, i + k)
  {
  }

  lemma FlatLine(a: real, k: int)
    ensures Line(a, 0.0, k) == a
  {
  }

  lemma LineBetween(a: real, lo: real, b: real, hi: real, k: nat)
    requires lo <= b <= hi
    ensures Line(a, lo, k) <= Line(a, b, k) <= Line(a, hi, k)
  {
    ScaleBetween(Pos(k), lo, b, hi);
  }

  lemma LineSpan(a: real, b: real, n: nat)
    requires 2 <= n
    ensures 2.0 * Abs(b) <= Abs(Line(a, b, n) - Line(a, b, 0))
  {
    ScaleBetween(Abs(b), 2.0, Pos(n), Pos(n));
    var x := Pos(n);
    assert Line(a, b, n) - Line(a, b, 0) == b * x;
    assert Abs(b) * x == Abs(b * x);
  }

  function Jump(raw: seq<real>, i: nat): real
    requires i < |raw|
  {
    if i == 0 then 0.0 else Abs(raw[i] - raw[i-1])
  }

  // Smallest and largest of the first k values, and the first place where the largest adjacent
  // jump among them occurs (0 when every step is flat).

  function Lowest(raw: seq<real>, k: nat): real
    requires 0 < k <= |raw|
  {
    if k == 1 then raw[0] else if raw[k-1] < Lowest(raw, k - 1) then raw[k-1] else Lowest(raw, k - 1)
  }

  function Highest(raw: seq<real>, k: nat): real
    requires 0 < k <= |raw|
  {
    if k == 1 then raw[0] else if raw[k-1] > Highest(raw, k - 1) then raw[k-1] else Highest(raw, k - 1)
  }

  function JumpAt(raw: seq<real>, k: nat): (at: nat)
    requires 0 < k <= |raw|
    ensures at < k
  {
    if k == 1 then 0
    else if Jump(raw, k - 1) > Jump(raw, JumpAt(raw, k - 1)) then k - 1 else JumpAt(raw, k - 1)
  }

  /** The window's range is tight, and JumpAt is the first of the largest adjacent jumps. */
  lemma {:induction false} WindowFacts(raw: seq<real>, k: nat)
    requires 0 < k <= |raw|
    ensures forall i :: 0 <= i < k ==> Lowest(raw, k) <= raw[i] <= Highest(raw, k)
    ensures Lowest(raw, k) in raw[..k] && Highest(raw, k) in raw[..k]
    ensures forall i :: 0 <= i < k ==> Jump(raw, i) <= Jump(raw, JumpAt(raw, k))
    ensures forall i :: 0 <= i < JumpAt(raw, k) ==> Jump(raw, i) < Jump(raw, JumpAt(raw, k))
  {
    if k > 1 {
      WindowFacts(raw, k - 1);
      assert raw[..k] == raw[..k-1] + [raw[k-1]];
    }
  }

  predicate DominantJump(raw: seq<real>)
    requires 0 < |raw|
  {
    var n := |raw|;
    && Highest(raw, n) - Lowest(raw, n) > 0.0
    && Jump(raw, JumpAt(raw, n)) > 0.5 * (Highest(raw, n) - Lowest(raw, n))
  }

  /** The trend the chart documents: the slope of the whole window, or, after a dominant jump, of
    * the points from the jump on, or flat when fewer than three of those exist. */
  function TrendSlope(raw: seq<real>, decay: real): real
    requires 2 <= |raw| && 0.0 < decay
  {
    if !DominantJump(raw) then Slope(raw, decay)
    else
      var seg := raw[JumpAt(raw, |raw|)..];
      if |seg| >= 3 then Slope(seg, decay) else 0.0
  }

  function ForecastOf(raw: seq<real>, granularity: string, decay: real): Forecast
    requires 0.0 < decay
  {
    var p := ParamsFor(granularity);
    if |raw| < p.minPoints then Forecast(p.minPoints, p.horizon, None, false, None)
    else
      var slope := TrendSlope(raw, decay);
      Forecast(p.minPoints, p.horizon, Some(slope),
               DominantJump(raw) && |raw| - JumpAt(raw, |raw|) < 3,
               Some(seq(p.horizon, k => Max0(Line(raw[|raw|-1], slope, k + 1)))))
  }

  method ComputeForecast(raw: seq<real>, granularity: string, decay: real) returns (f: Forecast)
    requires 0.0 < decay < 1.0
    ensures f == ForecastOf(raw, granularity, decay)
  {
    hide Slope, Line;
    var p := ParamsFor(granularity);
    var n := |raw|;
    if n < p.minPoints {
      return Forecast(p.minPoints, p.horizon, None, false, None);
    }
    var min, max, jump, jumpAt := raw[0], raw[0], 0.0, 0;
    for i := 1 to n
      invariant min == Lowest(raw, i) && max == Highest(raw, i)
      invariant jumpAt == JumpAt(raw, i) && jump == Jump(raw, jumpAt)
    {
      if raw[i] < min { min := raw[i]; }
      if raw[i] > max { max := raw[i]; }
      var d := Abs(raw[i] - raw[i-1]);
      if d > jump {
        jump, jumpAt := d, i;
      }
    }
    var slope, stepBreak := 0.0, false;
    if max - min > 0.0 && jump > 0.5 * (max - min) {
      var seg := raw[jumpAt..];
      if |seg| >= 3 {
        slope := FitSlope(seg, decay);
      } else {
        stepBreak := true;
      }
    } else {
      slope := FitSlope(raw, decay);
    }
    var points: seq<real> := [];
    for k := 1 to p.horizon + 1
      invariant points == seq(k - 1, i => Max0(Line(raw[n-1], slope, i + 1)))
    {
      points := points + [Max0(Line(raw[n-1], slope, k))];
    }
    f := Forecast(p.minPoints, p.horizon, Some(slope), stepBreak, Some(points));
  }

  // ----- what a forecast can be -------------------------------------------------------------------

  /** Every trend the chart draws stays in the cone of the observed steps: with every step in [lo, hi], the
    * k-th forecast point is within [last + k*lo, last + k*hi], clamped at 0.  After a step with too few
    * points behind it there is no trend, and the forecast is flat. */
  lemma ForecastBetween(raw: seq<real>, granularity: string, decay: real, lo: real, hi: real, k: nat)
    requires 0.0 < decay && ParamsFor(granularity).minPoints <= |raw|
    requires StepsWithin(raw, lo, hi) && k < ParamsFor(granularity).horizon
    ensures var last, f := raw[|raw|-1], ForecastOf(raw, granularity, decay);
            if f.stepBreak then f.points.value[k] == Max0(last)
            else Max0(Line(last, lo, k + 1)) <= f.points.value[k] <= Max0(Line(last, hi, k + 1))
  {
    hide Slope, Line, JumpAt, DominantJump;
    var at, last, slope := JumpAt(raw, |raw|), raw[|raw|-1], TrendSlope(raw, decay);
    assert ForecastOf(raw, granularity, decay).points.value[k] == Max0(Line(last, slope, k + 1));
    if DominantJump(raw) && |raw[at..]| < 3 {
      FlatLine(last, k + 1);
    } else {
      var seg := if DominantJump(raw) then raw[at..] else raw;
      forall i | 0 < i < |seg| ensures lo <= seg[i] - seg[i-1] <= hi {
        var j := if DominantJump(raw) then at + i else i;
        assert seg[i] == raw[j] && seg[i-1] == raw[j-1];
      }
      SlopeBetween(seg, decay, lo, hi);
      LineBetween(last, lo, slope, hi, k + 1);
    }
  }

  predicate Affine(raw: seq<real>, a: real, b: real) {
    forall i :: 0 <= i < |raw| ==> raw[i] == Line(a, b, i)
  }

  lemma AffineSteps(raw: seq<real>, a: real, b: real)
    requires Affine(raw, a, b)
    ensures StepsWithin(raw, b, b)
  {
    hide Line;
    forall i | 0 < i < |raw| ensures raw[i] - raw[i-1] == b {
      LineSteps(a, b, i - 1, 0);
    }
  }

  lemma AffineHasNoDominantJump(raw: seq<real>, a: real, b: real)
    requires 3 <= |raw| && Affine(raw, a, b)
    ensures !DominantJump(raw)
  {
    hide Line;
    var n := |raw|;
    WindowFacts(raw, n);
    AffineSteps(raw, a, b);
    LineSpan(a, b, n - 1);
    assert raw[n-1] == Line(a, b, n - 1) && raw[0] == Line(a, b, 0);
  }

  /** A straight line is extended exactly, and never mistaken for a step. */
  lemma AffineIsExtended(raw: seq<real>, granularity: string, decay: real, a: real, b: real)
    requires 0.0 < decay && ParamsFor(granularity).minPoints <= |raw| && Affine(raw, a, b)
    ensures var f := ForecastOf(raw, granularity, decay);
            && f.slope == Some(b) && !f.stepBreak
            && forall k :: 0 <= k < f.horizon ==> f.points.value[k] == Max0(Line(a, b, |raw| - 1 + (k + 1)))
  {
    hide Line, Slope, DominantJump;
    var n := |raw|;
    AffineHasNoDominantJump(raw, a, b);
    AffineSteps(raw, a, b);
    SlopeBetween(raw, decay, b, b);
    var f := ForecastOf(raw, granularity, decay);
    forall k | 0 <= k < f.horizon
      ensures f.points.value[k] == Max0(Line(a, b, n - 1 + (k + 1)))
    {
      LineSteps(a, b, n - 1, k + 1);
    }
  }

  /** One level, then another: a single clean step. */
  predicate TwoLevels(raw: seq<real>, at: nat, before: real, after: real) {
    && 0 < at < |raw|
    && (forall i :: 0 <= i < at ==> raw[i] == before)
    && (forall i :: at <= i < |raw| ==> raw[i] == after)
  }

  /** A one-off step is an event, not a trend: the forecast is flat at the new level whatever the
    * number of points after the step, and the chart says so exactly when there are fewer than 3. */
  lemma StepIsNotATrend(raw: seq<real>, granularity: string, decay: real, at: nat, before: real, after: real)
    requires 0.0 < decay && ParamsFor(granularity).minPoints <= |raw|
    requires TwoLevels(raw, at, before, after) && before != after
    ensures var f := ForecastOf(raw, granularity, decay);
            && f.slope == Some(0.0)
            && (f.stepBreak <==> |raw| - at < 3)
            && forall k :: 0 <= k < f.horizon ==> f.points.value[k] == Max0(after)
  {
    hide Slope, Line, Lowest, Highest, Jump, JumpAt, DominantJump;
    StepIsDominant(raw, at, before, after);
    if 3 <= |raw| - at {
      var seg := raw[at..];
      assert forall i :: 0 <= i < |seg| ==> seg[i] == raw[at + i];
      SlopeBetween(seg, decay, 0.0, 0.0);
    }
    var f := ForecastOf(raw, granularity, decay);
    forall k | 0 <= k < f.horizon ensures f.points.value[k] == Max0(after) {
      FlatLine(after, k + 1);
    }
  }

  /** The only jump of a clean step is the step, and it spans the whole range. */
  lemma StepIsDominant(raw: seq<real>, at: nat, before: real, after: real)
    requires TwoLevels(raw, at, before, after) && before != after
    ensures JumpAt(raw, |raw|) == at && DominantJump(raw)
  {
    hide Lowest, Highest, JumpAt;
    var n := |raw|;
    WindowFacts(raw, n);
    assert raw[at-1] == before && raw[at] == after;
    assert Jump(raw, at) == Abs(after - before) > 0.0;
    var j := JumpAt(raw, n);
    assert Jump(raw, at) <= Jump(raw, j);
    assert forall i :: 0 <= i < n && i != at ==> Jump(raw, i) == 0.0;
    assert forall x :: x in raw[..n] ==> x == before || x == after;
  }

  // ----- when a series counts as a step ------------------------------------------------------------

  /** The jump at `at`, d in size, exceeds every earlier one and is exceeded by no later one. */
  predicate FirstLargest(raw: seq<real>, at: nat, d: real)
    requires 0 < at < |raw|
  {
    && (d == raw[at] - raw[at-1] || d == raw[at-1] - raw[at]) && 0.0 <= d
    && (forall i :: 0 < i < at ==> -d < raw[i] - raw[i-1] < d)
    && (forall i :: at < i < |raw| ==> -d <= raw[i] - raw[i-1] <= d)
  }

  /** A series steps where its first largest jump is more than half its range: the trend is fitted from there
    * on, or is flat when fewer than three points follow. */
  lemma StepIsRefitted(raw: seq<real>, granularity: string, decay: real, at: nat, d: real)
    requires 0.0 < decay && ParamsFor(granularity).minPoints <= |raw|
    requires 0 < at < |raw| && FirstLargest(raw, at, d)
    requires forall i, j :: 0 <= i < |raw| && 0 <= j < |raw| ==> raw[i] - raw[j] < 2.0 * d
    ensures var f := ForecastOf(raw, granularity, decay);
            && f.slope == Some(if |raw| - at < 3 then 0.0 else Slope(raw[at..], decay))
            && (f.stepBreak <==> |raw| - at < 3)
  {
    hide Slope, Line, Lowest, Highest, JumpAt;
    var n := |raw|;
    WindowFacts(raw, n);
    FirstLargestIsJumpAt(raw, at, d);
    assert Highest(raw, n) - Lowest(raw, n) < 2.0 * d;
    assert raw[at] <= Highest(raw, n) && Lowest(raw, n) <= raw[at] && raw[at-1] <= Highest(raw, n) && Lowest(raw, n) <= raw[at-1];
  }

  lemma FirstLargestIsJumpAt(raw: seq<real>, at: nat, d: real)
    requires 0 < at < |raw| && FirstLargest(raw, at, d) && 0.0 < d
    ensures JumpAt(raw, |raw|) == at && Jump(raw, at) == d
  {
    hide JumpAt;
    var j := JumpAt(raw, |raw|);
    WindowFacts(raw, |raw|);
    assert Jump(raw, at) == d <= Jump(raw, j);
    assert forall i :: 0 <= i < at ==> Jump(raw, i) < d;
  }

  /** The step to `at` is at most half of some difference of two values. */
  predicate WithinHalf(raw: seq<real>, at: nat)
    requires 0 < at < |raw|
  {
    exists i, j :: 0 <= i < |raw| && 0 <= j < |raw|
                   && 2.0 * (raw[at] - raw[at-1]) <= raw[i] - raw[j] && 2.0 * (raw[at-1] - raw[at]) <= raw[i] - raw[j]
  }

  /** Without a jump of more than half the range the trend is fitted to the whole series. */
  lemma NoStepIsFittedWhole(raw: seq<real>, granularity: string, decay: real)
    requires 0.0 < decay && ParamsFor(granularity).minPoints <= |raw|
    requires forall at :: 0 < at < |raw| ==> WithinHalf(raw, at)
    ensures var f := ForecastOf(raw, granularity, decay);
            f.slope == Some(Slope(raw, decay)) && !f.stepBreak
  {
    hide Slope, Line, Lowest, Highest, JumpAt, Jump;
    var n := |raw|;
    WindowFacts(raw, n);
    var at := JumpAt(raw, n);
    NoJumpAtTheStart(raw);
    if at > 0 { JumpWithinHalf(raw, at, Lowest(raw, n), Highest(raw, n)); }
  }

  lemma NoJumpAtTheStart(raw: seq<real>)
    requires raw != []
    ensures Jump(raw, 0) == 0.0
  {
  }

  lemma JumpWithinHalf(raw: seq<real>, at: nat, lo: real, hi: real)
    requires 0 < at < |raw| && WithinHalf(raw, at)
    requires forall i :: 0 <= i < |raw| ==> lo <= raw[i] <= hi
    ensures Jump(raw, at) <= 0.5 * (hi - lo)
  {
    var i, j :| 0 <= i < |raw| && 0 <= j < |raw|
                && 2.0 * (raw[at] - raw[at-1]) <= raw[i] - raw[j] && 2.0 * (raw[at-1] - raw[at]) <= raw[i] - raw[j];
  }

  /** What the chart gets: four months or seven days at least, six months or thirty days ahead, the trend added
    * step by step to the last value and never below 0, and points that count half two months or ten days
    * back. */
  lemma ForecastShape(raw: seq<real>, granularity: string, decay: real)
    requires 0.0 < decay
    ensures var f, months := ForecastOf(raw, granularity, decay), granularity == "month";
            && f.minPoints == (if months then 4 else 7) && f.horizon == (if months then 6 else 30)
            && (|raw| < f.minPoints <==> f.points == None) && (f.slope == None <==> f.points == None)
            && (f.points == None ==> !f.stepBreak)
            && (f.points.Some? ==>
                  && |f.points.value| == f.horizon
                  && forall k :: 0 <= k < f.horizon ==>
                       var x := raw[|raw|-1] + f.slope.value * ((k + 1) as real);
                       f.points.value[k] == if x < 0.0 then 0.0 else x)
            && ParamsFor(granularity).halfLife == if months then 2 else 10
  {
    hide Slope, DominantJump, TrendSlope, Line;
    var f := ForecastOf(raw, granularity, decay);
    if f.points.Some? {
      forall k | 0 <= k < f.horizon
        ensures var x := raw[|raw|-1] + f.slope.value * ((k + 1) as real);
                f.points.value[k] == if x < 0.0 then 0.0 else x
      {
        assert f.points.value[k] == Max0(Line(raw[|raw|-1], f.slope.value, k + 1));
        LineIs(raw[|raw|-1], f.slope.value, k + 1);
      }
    }
  }

  lemma LineIs(a: real, b: real, i: int)
    ensures Line(a, b, i) == a + b * (i as real)
  {
  }
}
