/**
 * The dashboard's two statistics over a series of readings: the trend of the
 * last six readings against the six before them, and Pearson's correlation
 * with its zero-denominator guard. JavaScript's division by zero is kept
 * visible through extended reals, and the square root through its square.
 */
module Statistics {
  import opened Summary

  /** A JavaScript number as far as the trend can produce one. */
  datatype Ext = Finite(v: real) | PosInf | NegInf | NaN

  /** `e < c` on JavaScript numbers: NaN compares false, -Infinity below everything. */
  predicate Below(e: Ext, c: real)
  {
    match e
    case Finite(v) => v < c
    case NegInf => true
    case _ => false
  }

  function Max0(k: int): nat
  {
    if k < 0 then 0 else k
  }

  /** `data.slice(-6)`: the last six readings, or all of them when there are fewer. */
  function Recent(xs: seq<real>): (r: seq<real>)
    ensures |r| == if |xs| < 6 then |xs| else 6
    ensures r == xs[|xs| - |r|..]
  {
    xs[Max0(|xs| - 6)..]
  }

  /**
   * `data.slice(-12, -6)`: up to six readings, those straight before the
   * recent window, so that the two windows together are a suffix of the series.
   */
  function Older(xs: seq<real>): (r: seq<real>)
    ensures |r| == if |xs| <= 6 then 0 else if |xs| < 12 then |xs| - 6 else 6
    ensures |r| + |Recent(xs)| <= |xs| && r + Recent(xs) == xs[|xs| - |r| - |Recent(xs)|..]
  {
    xs[Max0(|xs| - 12)..Max0(|xs| - 6)]
  }

  /** `(recentAvg - olderAvg) / olderAvg * 100` with JavaScript's division. */
  function Change(recentAvg: real, older: seq<real>): Ext
  {
    if older == [] then NaN
    else
      var olderAvg := Sum(older) / |older| as real;
      if olderAvg != 0.0 then Finite((recentAvg - olderAvg) / olderAvg * 100.0)
      else if recentAvg > 0.0 then PosInf
      else if recentAvg < 0.0 then NegInf
      else NaN
  }

  /** calculateTrend over the readings of one variable. */
  function Trend(xs: seq<real>): (t: Ext)
    ensures |xs| < 2 ==> t == Finite(0.0)
  {
    if |xs| < 2 then Finite(0.0)
    else Change(Sum(Recent(xs)) / |Recent(xs)| as real, Older(xs))
  }

  /** With two to six readings the older window is empty, and 0 / 0 makes the trend NaN. */
  lemma ShortSeriesTrendIsNaN(xs: seq<real>)
    requires 2 <= |xs| <= 6
    ensures Trend(xs) == NaN
  {
  }

  /**
   * With seven or more readings and a positive older average, the trend is a
   * finite percentage whose sign is that of recent average minus older average.
   */
  lemma TrendSign(xs: seq<real>)
    requires |xs| >= 7 && Sum(Older(xs)) > 0.0
    ensures var r, o := Sum(Recent(xs)) / |Recent(xs)| as real, Sum(Older(xs)) / |Older(xs)| as real;
      Trend(xs).Finite? &&
      (Trend(xs).v > 0.0 <==> r > o) && (Trend(xs).v < 0.0 <==> r < o) && (Trend(xs).v == 0.0 <==> r == o)
  {
    var older := Older(xs);
    var r, o := Sum(Recent(xs)) / |Recent(xs)| as real, Sum(older) / |older| as real;
    PositiveMean(Sum(older), |older| as real);
    assert Trend(xs) == Change(r, older);
    ChangeSign(r, o);
  }

  lemma PositiveMean(s: real, n: real)
    requires s > 0.0 && n > 0.0
    ensures s / n > 0.0
  {
  }

  /** The percent change against a positive base has the sign of the difference. */
  lemma ChangeSign(r: real, o: real)
    requires o > 0.0
    ensures var c := (r - o) / o * 100.0; (c > 0.0 <==> r > o) && (c < 0.0 <==> r < o) && (c == 0.0 <==> r == o)
  {
    var q := (r - o) / o;
    assert q * o == r - o;
    if r > o {
      assert q > 0.0;
    } else if r < o {
      assert q < 0.0;
    } else {
      assert q == 0.0;
    }
  }

  // ------------------------------------------------------------ correlation

  /** `x.reduce((sum, xi, i) => sum + xi * y[i], 0)` */
  function Dot(x: seq<real>, y: seq<real>): real
    requires |x| == |y|
  {
    if x == [] then 0.0 else Dot(x[..|x| - 1], y[..|y| - 1]) + x[|x| - 1] * y[|y| - 1]
  }

  /** The length of a series as a real number. */
  function Count(x: seq<real>): real
  {
    if x == [] then 0.0 else Count(x[..|x| - 1]) + 1.0
  }

  lemma {:induction false} CountIsLength(x: seq<real>)
    ensures Count(x) == |x| as real
  {
    if x != [] {
      CountIsLength(x[..|x| - 1]);
    }
  }

  /** `n * sumXY - sumX * sumY` on the running sums. */
  function Cov(n: real, sumProducts: real, sumX: real, sumY: real): real
  {
    n * sumProducts - sumX * sumY
  }

  /** `n * sumX2 - sumX * sumX`: n^2 times the variance. */
  function Spread(x: seq<real>): real
  {
    Cov(Count(x), Dot(x, x), Sum(x), Sum(x))
  }

  /** `n * sumXY - sumX * sumY` */
  function Numerator(x: seq<real>, y: seq<real>): real
    requires |x| == |y|
  {
    Cov(Count(x), Dot(x, y), Sum(x), Sum(y))
  }

  function Square(r: real): real
  {
    r * r
  }

  lemma SquareNonNegative(r: real)
    ensures Square(r) >= 0.0
  {
  }

  /** A non-zero number has a positive square (shown through its inverse). */
  lemma SquarePositive(r: real)
    requires r != 0.0
    ensures Square(r) > 0.0
  {
    var q := 1.0 / r;
    assert q * r == 1.0;
    assert Square(r) * (q * q) == 1.0;
  }

  /** The sum of squared distances of the readings from `a`. */
  function SquaredDeviation(x: seq<real>, a: real): real
  {
    if x == [] then 0.0
    else SquaredDeviation(x[..|x| - 1], a) + Square(x[|x| - 1] - a)
  }

  lemma {:induction false} SquaredDeviationNonNegative(x: seq<real>, a: real)
    ensures SquaredDeviation(x, a) >= 0.0
  {
    if x != [] {
      SquaredDeviationNonNegative(x[..|x| - 1], a);
      SquareNonNegative(x[|x| - 1] - a);
    }
  }

  predicate Constant(x: seq<real>)
  {
    forall i, j :: 0 <= i < |x| && 0 <= j < |x| ==> x[i] == x[j]
  }

  /** A non-negative number plus a square is zero only when both are zero. */
  lemma ZeroSumOfSquare(d: real, e: real)
    requires d >= 0.0
    ensures d + Square(e) == 0.0 <==> d == 0.0 && e == 0.0
  {
    if e != 0.0 {
      SquarePositive(e);
    }
  }

  /** `sum (x_i - a)^2` written out through the running sums `sumX2`, `sumX` and `n`. */
  function Expanded(sumSquares: real, sum: real, n: real, a: real): real
  {
    sumSquares - 2.0 * a * sum + n * a * a
  }

  lemma ExpansionStep(d: real, s1: real, s2: real, n: real, a: real, last: real,
                      d': real, s1': real, s2': real, n': real)
    requires d == Expanded(s2, s1, n, a)
    requires d' == d + Square(last - a) && s1' == s1 + last && s2' == s2 + last * last && n' == n + 1.0
    ensures d' == Expanded(s2', s1', n', a)
  {
  }

  /** One step of each running sum. */
  lemma Unfold(x: seq<real>, a: real)
    requires x != []
    ensures var init, last := x[..|x| - 1], x[|x| - 1];
      SquaredDeviation(x, a) == SquaredDeviation(init, a) + Square(last - a) &&
      Sum(x) == Sum(init) + last && Dot(x, x) == Dot(init, init) + last * last &&
      Count(x) == Count(init) + 1.0
  {
  }

  /** The expansion carries over from `x` without its last reading to `x`. */
  lemma ExpansionExtends(x: seq<real>, a: real)
    requires x != []
    requires var init := x[..|x| - 1];
      SquaredDeviation(init, a) == Expanded(Dot(init, init), Sum(init), Count(init), a)
    ensures SquaredDeviation(x, a) == Expanded(Dot(x, x), Sum(x), Count(x), a)
  {
    var init, last := x[..|x| - 1], x[|x| - 1];
    Unfold(x, a);
    ExpansionStep(SquaredDeviation(init, a), Sum(init), Dot(init, init), Count(init), a, last,
                  SquaredDeviation(x, a), Sum(x), Dot(x, x), Count(x));
  }

  lemma {:induction false} SquaredDeviationExpands(x: seq<real>, a: real)
    ensures SquaredDeviation(x, a) == Expanded(Dot(x, x), Sum(x), Count(x), a)
  {
    if x != [] {
      SquaredDeviationExpands(x[..|x| - 1], a);
      ExpansionExtends(x, a);
    }
  }

  /** The spread identity on the running sums, before and after appending `a`. */
  lemma SpreadAlgebra(n: real, s1: real, s2: real, a: real, n': real, s1': real, s2': real)
    requires n' == n + 1.0 && s1' == s1 + a && s2' == s2 + a * a
    ensures Cov(n', s2', s1', s1') == Cov(n, s2, s1, s1) + Expanded(s2, s1, n, a)
  {
  }

  /** Appending `a` grows the spread by the squared deviations from `a`. */
  lemma SpreadStep(x: seq<real>, a: real)
    ensures Spread(x + [a]) == Spread(x) + SquaredDeviation(x, a)
  {
    var xa := x + [a];
    assert Count(xa) == Count(x) + 1.0 && Sum(xa) == Sum(x) + a && Dot(xa, xa) == Dot(x, x) + a * a by {
      assert xa[..|xa| - 1] == x;
    }
    SquaredDeviationExpands(x, a);
    SpreadAlgebra(Count(x), Sum(x), Dot(x, x), a, Count(xa), Sum(xa), Dot(xa, xa));
  }

  /** The spread is never negative, so the square root in the denominator is real. */
  lemma {:induction false} SpreadNonNegative(x: seq<real>)
    ensures Spread(x) >= 0.0
  {
    if x != [] {
      var init := x[..|x| - 1];
      assert x == init + [x[|x| - 1]];
      SpreadNonNegative(init);
      SpreadStep(init, x[|x| - 1]);
      SquaredDeviationNonNegative(init, x[|x| - 1]);
    }
  }

  lemma {:induction false} NoDeviationMeansAllEqual(x: seq<real>, a: real)
    ensures SquaredDeviation(x, a) == 0.0 <==> forall i :: 0 <= i < |x| ==> x[i] == a
  {
    if x != [] {
      var init, last := x[..|x| - 1], x[|x| - 1];
      NoDeviationMeansAllEqual(init, a);
      SquaredDeviationNonNegative(init, a);
      ZeroSumOfSquare(SquaredDeviation(init, a), last - a);
      assert forall i :: 0 <= i < |x| - 1 ==> x[i] == init[i];
    }
  }

  /** The spread is zero exactly for a constant series. */
  lemma {:induction false} SpreadZeroIffConstant(x: seq<real>)
    ensures Spread(x) == 0.0 <==> Constant(x)
  {
    if x != [] {
      var init, last := x[..|x| - 1], x[|x| - 1];
      assert x == init + [last];
      SpreadZeroIffConstant(init);
      SpreadNonNegative(init);
      SpreadStep(init, last);
      SquaredDeviationNonNegative(init, last);
      NoDeviationMeansAllEqual(init, last);
      if Spread(x) == 0.0 {
        assert forall i :: 0 <= i < |init| ==> init[i] == last;
        forall i, j | 0 <= i < |x| && 0 <= j < |x|
          ensures x[i] == x[j]
        {
          assert x[i] == last && x[j] == last;
        }
      } else if Constant(x) {
        assert Constant(init) by {
          forall i, j | 0 <= i < |init| && 0 <= j < |init|
            ensures init[i] == init[j]
          {
            assert init[i] == x[i] && init[j] == x[j];
          }
        }
      }
    }
  }

  /** A Pearson coefficient: 0 from the guard, or num / sqrt(denSq) with denSq > 0. */
  datatype Correlation = Zero | Ratio(num: real, denSq: real)

  /** `c` stands for the real number `v`. */
  predicate Denotes(c: Correlation, v: real)
  {
    match c
    case Zero => v == 0.0
    case Ratio(num, denSq) => denSq > 0.0 && Square(v) * denSq == Square(num) && (v < 0.0 <==> num < 0.0)
  }

  /** calculateCorrelation of two series of equal length. */
  function Correlate(x: seq<real>, y: seq<real>): (c: Correlation)
    requires |x| == |y|
    ensures c.Ratio? ==> c.denSq > 0.0
  {
    SpreadNonNegative(x);
    SpreadNonNegative(y);
    var denSq := Spread(x) * Spread(y);
    if denSq == 0.0 then Zero else Ratio(Numerator(x, y), denSq)
  }

  /** The guard answers 0 exactly when one of the series is constant. */
  lemma CorrelationGuard(x: seq<real>, y: seq<real>)
    requires |x| == |y|
    ensures Correlate(x, y).Zero? <==> Constant(x) || Constant(y)
  {
    SpreadZeroIffConstant(x);
    SpreadZeroIffConstant(y);
  }

  lemma {:induction false} DotSymmetric(x: seq<real>, y: seq<real>)
    requires |x| == |y|
    ensures Dot(x, y) == Dot(y, x)
  {
    if x != [] {
      DotSymmetric(x[..|x| - 1], y[..|y| - 1]);
    }
  }

  /** calculateCorrelation(x, y) == calculateCorrelation(y, x) */
  lemma CorrelationSymmetric(x: seq<real>, y: seq<real>)
    requires |x| == |y|
    ensures Correlate(x, y) == Correlate(y, x)
  {
    DotSymmetric(x, y);
    CountIsLength(x);
    CountIsLength(y);
    var sx, sy := Spread(x), Spread(y);
    assert sx * sy == sy * sx;
    assert Numerator(x, y) == Numerator(y, x);
  }

  /** A ratio whose numerator is plus or minus the square root of its denominator. */
  lemma UnitRatio(s: real, num: real, denSq: real, v: real)
    requires s > 0.0 && (v == 1.0 || v == -1.0) && num == v * s && denSq == s * s
    ensures Denotes(Ratio(num, denSq), v)
  {
    SquarePositive(s);
    assert Square(v) == 1.0;
    assert Square(num) == Square(s);
  }

  /** A non-constant series correlates with itself at exactly 1. */
  lemma SelfCorrelationIsOne(x: seq<real>)
    requires !Constant(x)
    ensures Denotes(Correlate(x, x), 1.0)
  {
    SpreadZeroIffConstant(x);
    SpreadNonNegative(x);
    UnitRatio(Spread(x), Numerator(x, x), Spread(x) * Spread(x), 1.0);
  }

  function Negated(x: seq<real>): (y: seq<real>)
    ensures |y| == |x| && forall i :: 0 <= i < |x| ==> y[i] == -x[i]
  {
    seq(|x|, i requires 0 <= i < |x| => -x[i])
  }

  lemma {:induction false} NegatedSums(x: seq<real>)
    ensures Sum(Negated(x)) == -Sum(x)
    ensures Dot(x, Negated(x)) == -Dot(x, x)
    ensures Dot(Negated(x), Negated(x)) == Dot(x, x)
  {
    if x != [] {
      var init := x[..|x| - 1];
      NegatedSums(init);
      assert Negated(x)[..|x| - 1] == Negated(init);
    }
  }

  /** A non-constant series and its negation correlate at exactly -1. */
  lemma NegationCorrelationIsMinusOne(x: seq<real>)
    requires !Constant(x)
    ensures Denotes(Correlate(x, Negated(x)), -1.0)
  {
    SpreadZeroIffConstant(x);
    SpreadNonNegative(x);
    NegatedSums(x);
    CountIsLength(x);
    CountIsLength(Negated(x));
    assert Spread(Negated(x)) == Spread(x);
    UnitRatio(Spread(x), Numerator(x, Negated(x)), Spread(x) * Spread(Negated(x)), -1.0);
  }

  // ------------------------------------------------------------ correlation bound

  /** The sum of products of the readings' distances from `a` and from `b`. */
  function CrossDeviation(x: seq<real>, y: seq<real>, a: real, b: real): real
    requires |x| == |y|
  {
    if |x| == 0 then 0.0
    else CrossDeviation(x[..|x| - 1], y[..|y| - 1], a, b) + (x[|x| - 1] - a) * (y[|y| - 1] - b)
  }

  /** `sum (x_i - a)(y_i - b)` written out through the running sums `sumXY`, `sumX`, `sumY` and `n`. */
  function CrossExpanded(sumProducts: real, sumX: real, sumY: real, n: real, a: real, b: real): real
  {
    sumProducts - a * sumY - b * sumX + n * a * b
  }

  lemma CrossExpansionStep(d: real, sx: real, sy: real, sxy: real, n: real, a: real, b: real, p: real, q: real,
                           d': real, sx': real, sy': real, sxy': real, n': real)
    requires d == CrossExpanded(sxy, sx, sy, n, a, b)
    requires d' == d + (p - a) * (q - b) && sx' == sx + p && sy' == sy + q && sxy' == sxy + p * q && n' == n + 1.0
    ensures d' == CrossExpanded(sxy', sx', sy', n', a, b)
  {
  }

  /** One step of each running sum over a pair of series. */
  lemma UnfoldPair(x: seq<real>, y: seq<real>, a: real, b: real)
    requires |x| == |y| && x != []
    ensures var xi, yi := x[..|x| - 1], y[..|y| - 1];
      CrossDeviation(x, y, a, b) == CrossDeviation(xi, yi, a, b) + (x[|x| - 1] - a) * (y[|y| - 1] - b) &&
      Sum(x) == Sum(xi) + x[|x| - 1] && Sum(y) == Sum(yi) + y[|y| - 1] &&
      Dot(x, y) == Dot(xi, yi) + x[|x| - 1] * y[|y| - 1] && Count(x) == Count(xi) + 1.0
  {
  }

  /** The cross expansion carries over from the series without their last readings. */
  lemma CrossExpansionExtends(x: seq<real>, y: seq<real>, a: real, b: real)
    requires |x| == |y| && x != []
    requires var xi, yi := x[..|x| - 1], y[..|y| - 1];
      CrossDeviation(xi, yi, a, b) == CrossExpanded(Dot(xi, yi), Sum(xi), Sum(yi), Count(xi), a, b)
    ensures CrossDeviation(x, y, a, b) == CrossExpanded(Dot(x, y), Sum(x), Sum(y), Count(x), a, b)
  {
    var xi, yi := x[..|x| - 1], y[..|y| - 1];
    UnfoldPair(x, y, a, b);
    CrossExpansionStep(CrossDeviation(xi, yi, a, b), Sum(xi), Sum(yi), Dot(xi, yi), Count(xi), a, b,
                       x[|x| - 1], y[|y| - 1],
                       CrossDeviation(x, y, a, b), Sum(x), Sum(y), Dot(x, y), Count(x));
  }

  lemma {:induction false} CrossDeviationExpands(x: seq<real>, y: seq<real>, a: real, b: real)
    requires |x| == |y|
    ensures CrossDeviation(x, y, a, b) == CrossExpanded(Dot(x, y), Sum(x), Sum(y), Count(x), a, b)
  {
    if x != [] {
      CrossDeviationExpands(x[..|x| - 1], y[..|y| - 1], a, b);
      CrossExpansionExtends(x, y, a, b);
    }
  }

  /** The numerator identity on the running sums, before and after appending `a` and `b`. */
  lemma NumeratorAlgebra(n: real, sx: real, sy: real, sxy: real, a: real, b: real,
                         n': real, sx': real, sy': real, sxy': real)
    requires n' == n + 1.0 && sx' == sx + a && sy' == sy + b && sxy' == sxy + a * b
    ensures Cov(n', sxy', sx', sy') == Cov(n, sxy, sx, sy) + CrossExpanded(sxy, sx, sy, n, a, b)
  {
  }

  /** One step of the running sums over a pair of series. */
  lemma PairSums(x: seq<real>, y: seq<real>)
    requires |x| == |y| && x != []
    ensures var xi, yi := x[..|x| - 1], y[..|y| - 1];
      Count(x) == Count(xi) + 1.0 && Sum(x) == Sum(xi) + x[|x| - 1] && Sum(y) == Sum(yi) + y[|y| - 1] &&
      Dot(x, y) == Dot(xi, yi) + x[|x| - 1] * y[|y| - 1]
  {
  }

  /** Appending one reading to each series grows the numerator by the cross deviations from the new pair. */
  lemma NumeratorStep(x: seq<real>, y: seq<real>)
    requires |x| == |y| && x != []
    ensures var xi, yi := x[..|x| - 1], y[..|y| - 1];
      Numerator(x, y) == Numerator(xi, yi) + CrossDeviation(xi, yi, x[|x| - 1], y[|y| - 1])
  {
    var xi, yi, a, b := x[..|x| - 1], y[..|y| - 1], x[|x| - 1], y[|y| - 1];
    PairSums(x, y);
    CrossDeviationExpands(xi, yi, a, b);
    NumeratorAlgebra(Count(xi), Sum(xi), Sum(yi), Dot(xi, yi), a, b, Count(x), Sum(x), Sum(y), Dot(x, y));
  }

  /** Multiplying two bounds between non-negative numbers. */
  lemma ProductBound(m: real, e: real, u: real, v: real)
    requires 0.0 <= m <= u && 0.0 <= e <= v
    ensures m * e <= u * v
  {
    assert u * v - m * e == (u - m) * v + m * (v - e);
  }

  /** Twice the geometric mean is at most the sum: `4uv <= (u + v)^2`. */
  lemma ArithmeticGeometric(u: real, v: real)
    ensures 4.0 * u * v <= Square(u + v)
  {
    assert Square(u + v) - 4.0 * u * v == Square(u - v);
    SquareNonNegative(u - v);
  }

  /** Squaring is strictly increasing on the non-negative numbers. */
  lemma SquareIncreasing(w: real, z: real)
    requires 0.0 <= w < z
    ensures Square(w) < Square(z)
  {
    var c, d := z - w, z + w;
    assert c * d > 0.0;
    assert Square(z) - Square(w) == c * d;
  }

  /** A number whose square is at most the square of a non-negative `w` is at most `w`. */
  lemma SquareRootBound(z: real, w: real)
    requires w >= 0.0 && Square(z) <= Square(w)
    ensures z <= w
  {
    if z > w {
      SquareIncreasing(w, z);
    }
  }

  /** `n^2 <= sx * sy`: the shape of the Cauchy-Schwarz inequality. */
  predicate Dominated(n: real, sx: real, sy: real)
  {
    Square(n) <= sx * sy
  }

  /** The cross term of the step: `2ne <= sx * q + p * sy` when `n^2 <= sx * sy` and `e^2 <= p * q`. */
  lemma CrossTermBound(n: real, sx: real, sy: real, e: real, p: real, q: real)
    requires sx >= 0.0 && sy >= 0.0 && p >= 0.0 && q >= 0.0
    requires Dominated(n, sx, sy) && Dominated(e, p, q)
    ensures 2.0 * n * e <= sx * q + p * sy
  {
    var u, v := sx * q, p * sy;
    ProductBound(0.0, 0.0, sx, q);
    ProductBound(0.0, 0.0, p, sy);
    SquareNonNegative(n);
    SquareNonNegative(e);
    ProductBound(Square(n), Square(e), sx * sy, p * q);
    assert Square(2.0 * n * e) == 4.0 * (Square(n) * Square(e));
    assert (sx * sy) * (p * q) == u * v;
    ArithmeticGeometric(u, v);
    SquareRootBound(2.0 * n * e, u + v);
  }

  /**
   * The inductive step of Cauchy-Schwarz on plain numbers: if `n^2 <= sx * sy` and `e^2 <= p * q`
   * with all four non-negative, then `(n + e)^2 <= (sx + p) * (sy + q)`.
   */
  lemma CauchySchwarzStep(n: real, sx: real, sy: real, e: real, p: real, q: real, n': real, sx': real, sy': real)
    requires sx >= 0.0 && sy >= 0.0 && p >= 0.0 && q >= 0.0
    requires Dominated(n, sx, sy) && Dominated(e, p, q)
    requires n' == n + e && sx' == sx + p && sy' == sy + q
    ensures Dominated(n', sx', sy')
  {
    CrossTermBound(n, sx, sy, e, p, q);
    assert Square(n') == Square(n) + 2.0 * n * e + Square(e);
    assert sx' * sy' == sx * sy + sx * q + p * sy + p * q;
  }

  /** The last reading's own terms already satisfy the inequality: `((x - a)(y - b))^2 == (x - a)^2 (y - b)^2`. */
  lemma LastTermDominated(x: seq<real>, y: seq<real>, a: real, b: real)
    requires |x| == |y| && x != []
    ensures var xi, yi := x[..|x| - 1], y[..|y| - 1];
      var p, q := SquaredDeviation(x, a) - SquaredDeviation(xi, a), SquaredDeviation(y, b) - SquaredDeviation(yi, b);
      p >= 0.0 && q >= 0.0 && Dominated(CrossDeviation(x, y, a, b) - CrossDeviation(xi, yi, a, b), p, q)
  {
    var xi, yi, p, q := x[..|x| - 1], y[..|y| - 1], x[|x| - 1] - a, y[|y| - 1] - b;
    assert CrossDeviation(x, y, a, b) - CrossDeviation(xi, yi, a, b) == p * q;
    assert SquaredDeviation(x, a) - SquaredDeviation(xi, a) == Square(p);
    assert SquaredDeviation(y, b) - SquaredDeviation(yi, b) == Square(q);
    ProductDominated(p, q);
  }

  /** `(pq)^2 == p^2 q^2`, with both squares non-negative. */
  lemma ProductDominated(p: real, q: real)
    ensures Square(p) >= 0.0 && Square(q) >= 0.0 && Dominated(p * q, Square(p), Square(q))
  {
    SquareNonNegative(p);
    SquareNonNegative(q);
    assert Square(p * q) == Square(p) * Square(q);
  }

  /** Cauchy-Schwarz for the deviations from a fixed pair of readings. */
  lemma {:induction false} CrossDeviationBound(x: seq<real>, y: seq<real>, a: real, b: real)
    requires |x| == |y|
    ensures Dominated(CrossDeviation(x, y, a, b), SquaredDeviation(x, a), SquaredDeviation(y, b))
    decreases |x|
  {
    if x == [] {
      assert y == [];
      assert CrossDeviation(x, y, a, b) == 0.0 && SquaredDeviation(x, a) == 0.0 && SquaredDeviation(y, b) == 0.0;
    } else {
      var xi, yi := x[..|x| - 1], y[..|y| - 1];
      CrossDeviationBound(xi, yi, a, b);
      SquaredDeviationNonNegative(xi, a);
      SquaredDeviationNonNegative(yi, b);
      LastTermDominated(x, y, a, b);
      CauchySchwarzStep(CrossDeviation(xi, yi, a, b), SquaredDeviation(xi, a), SquaredDeviation(yi, b),
                        CrossDeviation(x, y, a, b) - CrossDeviation(xi, yi, a, b),
                        SquaredDeviation(x, a) - SquaredDeviation(xi, a), SquaredDeviation(y, b) - SquaredDeviation(yi, b),
                        CrossDeviation(x, y, a, b), SquaredDeviation(x, a), SquaredDeviation(y, b));
    }
  }

  /** Cauchy-Schwarz on the running sums: the squared numerator never exceeds the product of the spreads. */
  lemma {:induction false} CauchySchwarz(x: seq<real>, y: seq<real>)
    requires |x| == |y|
    ensures Dominated(Numerator(x, y), Spread(x), Spread(y))
  {
    if x == [] {
      assert y == [];
      assert Numerator(x, y) == 0.0;
    } else {
      var xi, yi, a, b := x[..|x| - 1], y[..|y| - 1], x[|x| - 1], y[|y| - 1];
      assert x == xi + [a] && y == yi + [b];
      CauchySchwarz(xi, yi);
      SpreadStep(xi, a);
      SpreadStep(yi, b);
      NumeratorStep(x, y);
      SpreadNonNegative(xi);
      SpreadNonNegative(yi);
      SquaredDeviationNonNegative(xi, a);
      SquaredDeviationNonNegative(yi, b);
      CrossDeviationBound(xi, yi, a, b);
      CauchySchwarzStep(Numerator(xi, yi), Spread(xi), Spread(yi),
                        CrossDeviation(xi, yi, a, b), SquaredDeviation(xi, a), SquaredDeviation(yi, b),
                        Numerator(x, y), Spread(x), Spread(y));
    }
  }

  /** Multiplying by a positive number keeps a factor above 1 above it. */
  lemma ScaledAboveOne(s: real, d: real)
    requires d > 0.0
    ensures s > 1.0 ==> s * d > d
  {
    if s > 1.0 {
      assert s * d - d == (s - 1.0) * d;
    }
  }

  /** A number outside [-1, 1] has a square above 1. */
  lemma SquareAboveOne(v: real)
    ensures v > 1.0 || v < -1.0 ==> Square(v) > 1.0
  {
    if v > 1.0 {
      assert Square(v) - 1.0 == (v - 1.0) * (v + 1.0);
    } else if v < -1.0 {
      assert Square(v) - 1.0 == (-v - 1.0) * (-v + 1.0);
    }
  }

  /** Every coefficient calculateCorrelation can return lies in [-1, 1]. */
  lemma CorrelationBounded(x: seq<real>, y: seq<real>, v: real)
    requires |x| == |y| && Denotes(Correlate(x, y), v)
    ensures -1.0 <= v <= 1.0
  {
    match Correlate(x, y)
    case Zero =>
    case Ratio(num, denSq) =>
      CauchySchwarz(x, y);
      ScaledAboveOne(Square(v), denSq);
      SquareAboveOne(v);
  }
}
