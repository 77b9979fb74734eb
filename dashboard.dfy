/**
 * The dashboard page's derived values over the hourly readings it holds:
 * the date-range window, the current metrics, the recommendation rules, one
 * tick of the live simulation and the correlation matrix. The daily bar
 * aggregation lives in module DailyBars.
 */
module Dashboard {
  import opened Common
  import opened Statistics

  /** The reading keys the page reads by name. */
  datatype Variable =
    | OEE | Availability | Performance | Quality
    | Temp | Humidity | EnergyPrice | Fatigue | Downtime | PredictedOee

  /** One hourly reading as the page's data generator builds it. */
  datatype Point = Point(
    stamp: int,         // timestamp, in milliseconds
    hour: int,
    time: string,       // toLocaleTimeString of the timestamp
    date: string,       // toLocaleDateString of the timestamp when generated
    shift: string,
    oee: real,
    availability: real,
    performance: real,
    quality: real,
    temp: real,
    humidity: real,
    energyPrice: real,
    fatigue: real,
    downtime: real,
    predictedOee: real)

  /** `d[key]` */
  function Get(p: Point, v: Variable): real
  {
    match v
    case OEE => p.oee
    case Availability => p.availability
    case Performance => p.performance
    case Quality => p.quality
    case Temp => p.temp
    case Humidity => p.humidity
    case EnergyPrice => p.energyPrice
    case Fatigue => p.fatigue
    case Downtime => p.downtime
    case PredictedOee => p.predictedOee
  }

  /** `data.map((d) => d[key])` */
  function Column(data: seq<Point>, v: Variable): (xs: seq<real>)
    ensures |xs| == |data| && forall i :: 0 <= i < |data| ==> xs[i] == Get(data[i], v)
  {
    seq(|data|, i requires 0 <= i < |data| => Get(data[i], v))
  }

  // ------------------------------------------------------------ date range

  /** Hours kept by each date range: "24h", "7d", and anything else as thirty days. */
  function RangeHours(range: string): nat
  {
    if range == "24h" then 24 else if range == "7d" then 168 else 720
  }

  /** filteredData: `data.slice(-hours)`, the last `hours` readings or all of them. */
  function Filtered(data: seq<Point>, range: string): (r: seq<Point>)
    ensures |r| == if |data| < RangeHours(range) then |data| else RangeHours(range)
    ensures r == data[|data| - |r|..]
  {
    data[Max0(|data| - RangeHours(range))..]
  }

  // ------------------------------------------------------------ current metrics

  datatype Metrics = Metrics(
    oee: real, availability: real, performance: real, quality: real,
    oeeTrend: Ext, availabilityTrend: Ext, performanceTrend: Ext, qualityTrend: Ext)

  /** currentMetrics: null without a latest reading, else its four ratios and four trends. */
  function CurrentMetrics(filtered: seq<Point>): (m: Option<Metrics>)
    ensures m.None? <==> filtered == []
    ensures m.Some? ==>
      var latest := filtered[|filtered| - 1];
      m.value.oee == latest.oee && m.value.availability == latest.availability &&
      m.value.performance == latest.performance && m.value.quality == latest.quality
    ensures m.Some? ==>
      m.value.oeeTrend == Trend(Column(filtered, OEE)) &&
      m.value.availabilityTrend == Trend(Column(filtered, Availability)) &&
      m.value.performanceTrend == Trend(Column(filtered, Performance)) &&
      m.value.qualityTrend == Trend(Column(filtered, Quality))
  {
    if filtered == [] then None
    else
      var latest := filtered[|filtered| - 1];
      Some(Metrics(latest.oee, latest.availability, latest.performance, latest.quality,
                   Trend(Column(filtered, OEE)), Trend(Column(filtered, Availability)),
                   Trend(Column(filtered, Performance)), Trend(Column(filtered, Quality))))
  }

  // ------------------------------------------------------------ recommendations

  datatype Kind = Maintenance | Optimization | QualityReview | Alert
  datatype Priority = Medium | High | Critical

  /** A recommendation card: its rule and priority (the card texts are not modelled). */
  datatype Recommendation = Recommendation(kind: Kind, priority: Priority)

  /** The position of each rule in the page's fixed order. */
  function Rank(k: Kind): nat
  {
    match k
    case Maintenance => 0
    case Optimization => 1
    case QualityReview => 2
    case Alert => 3
  }

  function Card(k: Kind): Recommendation
  {
    match k
    case Maintenance => Recommendation(Maintenance, High)
    case Optimization => Recommendation(Optimization, Medium)
    case QualityReview => Recommendation(QualityReview, High)
    case Alert => Recommendation(Alert, Critical)
  }

  /** The threshold of each rule. */
  predicate Fires(m: Metrics, k: Kind)
  {
    match k
    case Maintenance => m.availability < 0.8
    case Optimization => m.performance < 0.75
    case QualityReview => m.quality < 0.85
    case Alert => Below(m.oeeTrend, -2.0)
  }

  /** The rules in the order the page checks them. */
  const Rules: seq<Kind> := [Maintenance, Optimization, QualityReview, Alert]

  /** The rules among the first `n` whose threshold holds, in order. */
  function FiredAmong(m: Metrics, n: nat): seq<Kind>
    requires n <= |Rules|
  {
    if n == 0 then []
    else FiredAmong(m, n - 1) + (if Fires(m, Rules[n - 1]) then [Rules[n - 1]] else [])
  }

  /** Rule `n` of the page's order has rank `n`. */
  lemma RuleRank(n: nat)
    requires n < |Rules|
    ensures Rank(Rules[n]) == n
  {
  }

  /** Every rule fired among the first `n` has its threshold hold and ranks below `n`. */
  lemma {:induction false} FiredAmongSound(m: Metrics, n: nat)
    requires n <= |Rules|
    ensures forall k :: k in FiredAmong(m, n) ==> Fires(m, k) && Rank(k) < n
  {
    if n > 0 {
      FiredAmongSound(m, n - 1);
      RuleRank(n - 1);
    }
  }

  /** Every rule ranked below `n` whose threshold holds is among those fired. */
  lemma {:induction false} FiredAmongComplete(m: Metrics, n: nat)
    requires n <= |Rules|
    ensures forall k :: Fires(m, k) && Rank(k) < n ==> k in FiredAmong(m, n)
  {
    if n > 0 {
      FiredAmongComplete(m, n - 1);
      RuleRank(n - 1);
      forall k | Fires(m, k) && Rank(k) == n - 1
        ensures k in FiredAmong(m, n)
      {
        assert k == Rules[n - 1];
      }
    }
  }

  /** The rules of `ks` come in strictly increasing rank. */
  predicate Increasing(ks: seq<Kind>)
  {
    forall i, j :: 0 <= i < j < |ks| ==> Rank(ks[i]) < Rank(ks[j])
  }

  /** The rules fired among the first `n` come in strictly increasing rank. */
  lemma {:induction false} FiredAmongOrdered(m: Metrics, n: nat)
    requires n <= |Rules|
    ensures Increasing(FiredAmong(m, n))
  {
    if n > 0 {
      var prior, ks := FiredAmong(m, n - 1), FiredAmong(m, n);
      assert ks == prior + if Fires(m, Rules[n - 1]) then [Rules[n - 1]] else [];
      FiredAmongOrdered(m, n - 1);
      FiredAmongSound(m, n - 1);
      RuleRank(n - 1);
      forall i, j | 0 <= i < j < |ks|
        ensures Rank(ks[i]) < Rank(ks[j])
      {
        assert ks[i] == prior[i] && ks[i] in prior;
        if j == |prior| {
          assert ks[j] == Rules[n - 1];
        } else {
          assert ks[j] == prior[j] && Rank(prior[i]) < Rank(prior[j]);
        }
      }
    }
  }

  function Cards(ks: seq<Kind>): (cs: seq<Recommendation>)
    ensures |cs| == |ks| && forall i :: 0 <= i < |ks| ==> cs[i] == Card(ks[i]) && cs[i].kind == ks[i]
  {
    seq(|ks|, i requires 0 <= i < |ks| => Card(ks[i]))
  }

  /** Checking rule `n` extends the cards of the rules fired before it. */
  lemma PushStep(m: Metrics, n: nat, recs: seq<Recommendation>)
    requires n < |Rules| && recs == Cards(FiredAmong(m, n))
    ensures (if Fires(m, Rules[n]) then recs + [Card(Rules[n])] else recs) == Cards(FiredAmong(m, n + 1))
  {
  }

  /** Strictly increasing ranks leave room for at most four rules. */
  lemma {:induction false} AtMostFour(ks: seq<Kind>)
    requires Increasing(ks)
    ensures ks != [] ==> Rank(ks[0]) + |ks| <= 4
  {
    if |ks| > 1 {
      AtMostFour(ks[1..]);
      assert ks[1..][0] == ks[1];
    }
  }

  /** The cards the page shows for metrics `m`: one per fired rule, in rule order. */
  function Recommended(m: Metrics): seq<Recommendation>
  {
    Cards(FiredAmong(m, |Rules|))
  }

  /**
   * Every recommended card is for a rule whose threshold holds, every such rule
   * has a card, the cards follow the rule order, and there are at most four.
   */
  lemma RecommendedMeaning(m: Metrics)
    ensures var recs := Recommended(m);
      (forall i :: 0 <= i < |recs| ==> Fires(m, recs[i].kind) && recs[i] == Card(recs[i].kind)) &&
      (forall k :: Fires(m, k) ==> exists i :: 0 <= i < |recs| && recs[i].kind == k) &&
      (forall i, j :: 0 <= i < j < |recs| ==> Rank(recs[i].kind) < Rank(recs[j].kind)) &&
      |recs| <= 4
  {
    CardsMeaning(m, |Rules|, Recommended(m));
  }

  /** The cards of the rules fired among all `n` rules, with `n` kept symbolic. */
  lemma CardsMeaning(m: Metrics, n: nat, recs: seq<Recommendation>)
    requires n == |Rules| && recs == Cards(FiredAmong(m, n))
    ensures (forall i :: 0 <= i < |recs| ==> Fires(m, recs[i].kind) && recs[i] == Card(recs[i].kind)) &&
      (forall k :: Fires(m, k) ==> exists i :: 0 <= i < |recs| && recs[i].kind == k) &&
      (forall i, j :: 0 <= i < j < |recs| ==> Rank(recs[i].kind) < Rank(recs[j].kind)) &&
      |recs| <= 4
  {
    var ks := FiredAmong(m, n);
    assert forall i :: 0 <= i < |recs| ==> recs[i].kind == ks[i];
    CardsSound(m, n, recs);
    CardsComplete(m, n, recs);
    FiredAmongOrdered(m, n);
    AtMostFour(ks);
  }

  lemma CardsSound(m: Metrics, n: nat, recs: seq<Recommendation>)
    requires n == |Rules| && recs == Cards(FiredAmong(m, n))
    ensures forall i :: 0 <= i < |recs| ==> Fires(m, recs[i].kind) && recs[i] == Card(recs[i].kind)
  {
    var ks := FiredAmong(m, n);
    FiredAmongSound(m, n);
    assert forall i :: 0 <= i < |recs| ==> recs[i].kind == ks[i] && ks[i] in ks;
  }

  lemma CardsComplete(m: Metrics, n: nat, recs: seq<Recommendation>)
    requires n == |Rules| && recs == Cards(FiredAmong(m, n))
    ensures forall k :: Fires(m, k) ==> exists i :: 0 <= i < |recs| && recs[i].kind == k
  {
    var ks := FiredAmong(m, n);
    FiredAmongComplete(m, n);
    forall k | Fires(m, k)
      ensures exists i :: 0 <= i < |recs| && recs[i].kind == k
    {
      RankBelowFour(k);
      var i :| 0 <= i < |ks| && ks[i] == k;
      assert recs[i].kind == k;
    }
  }

  lemma RankBelowFour(k: Kind)
    ensures Rank(k) < |Rules|
  {
  }

  /**
   * recommendations: the card of every rule whose threshold holds, in the
   * order maintenance, optimization, quality, alert, so at most four; none
   * without metrics.
   */
  method Recommendations(metrics: Option<Metrics>) returns (recs: seq<Recommendation>)
    ensures recs == if metrics.None? then [] else Recommended(metrics.value)
  {
    if metrics.None? {
      return [];
    }
    var m := metrics.value;
    recs := [];
    // `checked` counts the rules looked at so far; the cards are those of the fired ones
    var checked := 0;
    PushStep(m, checked, recs);
    if m.availability < 0.8 {
      recs := recs + [Card(Maintenance)];
    }
    checked := checked + 1;
    PushStep(m, checked, recs);
    if m.performance < 0.75 {
      recs := recs + [Card(Optimization)];
    }
    checked := checked + 1;
    PushStep(m, checked, recs);
    if m.quality < 0.85 {
      recs := recs + [Card(QualityReview)];
    }
    checked := checked + 1;
    PushStep(m, checked, recs);
    if Below(m.oeeTrend, -2.0) {
      recs := recs + [Card(Alert)];
    }
    checked := checked + 1;
    assert checked == |Rules|;
  }

  /**
   * Fewer than seven readings never raise the declining-trend alert: one
   * reading gives trend 0, and two to six give NaN, which is not below -2.
   */
  lemma ShortWindowRaisesNoAlert(filtered: seq<Point>)
    requires 1 <= |filtered| <= 6
    ensures !Fires(CurrentMetrics(filtered).value, Alert)
  {
    var xs := Column(filtered, OEE);
    var m := CurrentMetrics(filtered).value;
    assert |xs| == |filtered|;
    assert m.oeeTrend == Trend(xs);
    if |xs| >= 2 {
      ShortSeriesTrendIsNaN(xs);
    }
  }

  // ------------------------------------------------------------ live update

  function MaxReal(a: real, b: real): real { if a >= b then a else b }
  function MinReal(a: real, b: real): real { if a <= b then a else b }

  /** `Math.max(lo, Math.min(hi, v))` */
  function Clamp(lo: real, hi: real, v: real): (c: real)
    requires lo <= hi
    ensures lo <= c <= hi
    ensures lo <= v <= hi ==> c == v
  {
    MaxReal(lo, MinReal(hi, v))
  }

  /** The four `Math.random()` draws of one tick. */
  datatype Draws = Draws(oee: real, availability: real, performance: real, quality: real)

  /**
   * One tick of the live simulation: drop the oldest reading and append a copy
   * of the latest with a new timestamp and clock time and with its four ratios
   * nudged and clamped. An empty window makes `lastPoint.OEE` throw (None).
   */
  function LiveStep(prev: seq<Point>, stamp: int, time: string, r: Draws): (next: Option<seq<Point>>)
    ensures next.None? <==> prev == []
    ensures next.Some? ==> |next.value| == |prev| && next.value[..|prev| - 1] == prev[1..]
    ensures next.Some? ==>
      var p := next.value[|prev| - 1];
      0.3 <= p.oee <= 1.0 && 0.5 <= p.availability <= 0.98 && 0.4 <= p.performance <= 0.95 && 0.7 <= p.quality <= 0.99
    ensures next.Some? ==>
      var p, last := next.value[|prev| - 1], prev[|prev| - 1];
      p.stamp == stamp && p.time == time && p.date == last.date && p.hour == last.hour && p.shift == last.shift &&
      forall v :: v !in {OEE, Availability, Performance, Quality} ==> Get(p, v) == Get(last, v)
  {
    if prev == [] then None
    else
      var last := prev[|prev| - 1];
      var p := last.(
        stamp := stamp,
        time := time,
        oee := Clamp(0.3, 1.0, last.oee + (r.oee - 0.5) * 0.05),
        availability := Clamp(0.5, 0.98, last.availability + (r.availability - 0.5) * 0.03),
        performance := Clamp(0.4, 0.95, last.performance + (r.performance - 0.5) * 0.04),
        quality := Clamp(0.7, 0.99, last.quality + (r.quality - 0.5) * 0.02));
      Some(prev[1..] + [p])
  }

  /** Clamping towards a range never moves a value further from a point inside it. */
  lemma ClampTowards(lo: real, hi: real, v: real, w: real)
    requires lo <= w <= hi
    ensures v <= w ==> v <= Clamp(lo, hi, v) <= w
    ensures w <= v ==> w <= Clamp(lo, hi, v) <= v
  {
  }

  /** A ratio in range nudged by `(draw - 0.5) * width` and clamped moves by at most half the width. */
  lemma NudgeNear(lo: real, hi: real, x: real, draw: real, width: real)
    requires lo <= x <= hi && 0.0 <= draw < 1.0 && 0.0 < width
    ensures -width / 2.0 <= Clamp(lo, hi, x + (draw - 0.5) * width) - x <= width / 2.0
  {
    ClampTowards(lo, hi, x + (draw - 0.5) * width, x);
  }

  /**
   * The new reading continues the last one: with draws in [0, 1) and the last
   * reading's ratios in their ranges, OEE moves by at most 0.025,
   * availability by 0.015, performance by 0.02 and quality by 0.01.
   */
  lemma LiveStepNear(prev: seq<Point>, stamp: int, time: string, r: Draws)
    requires prev != []
    requires 0.0 <= r.oee < 1.0 && 0.0 <= r.availability < 1.0 && 0.0 <= r.performance < 1.0 && 0.0 <= r.quality < 1.0
    requires 0.3 <= prev[|prev| - 1].oee <= 1.0 && RatiosInRange(prev[|prev| - 1])
    ensures var p, last := LiveStep(prev, stamp, time, r).value[|prev| - 1], prev[|prev| - 1];
      -0.025 <= p.oee - last.oee <= 0.025 && -0.015 <= p.availability - last.availability <= 0.015 &&
      -0.02 <= p.performance - last.performance <= 0.02 && -0.01 <= p.quality - last.quality <= 0.01
  {
    var last := prev[|prev| - 1];
    NudgeNear(0.3, 1.0, last.oee, r.oee, 0.05);
    NudgeNear(0.5, 0.98, last.availability, r.availability, 0.03);
    NudgeNear(0.4, 0.95, last.performance, r.performance, 0.04);
    NudgeNear(0.7, 0.99, last.quality, r.quality, 0.02);
  }

  /** The ranges the generator and the live update both keep the three ratios in. */
  predicate RatiosInRange(p: Point)
  {
    0.5 <= p.availability <= 0.98 && 0.4 <= p.performance <= 0.95 && 0.7 <= p.quality <= 0.99
  }

  /** A window whose readings keep their ratios in range still does after any tick. */
  lemma LiveStepKeepsRanges(prev: seq<Point>, stamp: int, time: string, r: Draws)
    requires forall i :: 0 <= i < |prev| ==> RatiosInRange(prev[i])
    ensures var next := LiveStep(prev, stamp, time, r);
      next.Some? ==> forall i :: 0 <= i < |next.value| ==> RatiosInRange(next.value[i])
  {
    var next := LiveStep(prev, stamp, time, r);
    if next.Some? {
      forall i | 0 <= i < |next.value|
        ensures RatiosInRange(next.value[i])
      {
        if i < |prev| - 1 {
          assert next.value[i] == next.value[..|prev| - 1][i] == prev[i + 1];
        }
      }
    }
  }

  /** After as many ticks as the window is long, every reading is a simulated one with its OEE in range. */
  lemma {:induction false} LiveTicksReplaceWindow(prev: seq<Point>, ticks: seq<(int, string, Draws)>, k: nat)
    requires prev != [] && k <= |ticks|
    ensures var w := Ticks(prev, ticks[..k]);
      |w| == |prev| &&
      forall i :: 0 <= i < |prev| && |prev| - k <= i ==> 0.3 <= w[i].oee <= 1.0
  {
    if k > 0 {
      LiveTicksReplaceWindow(prev, ticks, k - 1);
      assert ticks[..k][..k - 1] == ticks[..k - 1];
      var w0 := Ticks(prev, ticks[..k - 1]);
      var t := ticks[k - 1];
      var w := LiveStep(w0, t.0, t.1, t.2).value;
      forall i | 0 <= i < |prev| && |prev| - k <= i
        ensures 0.3 <= w[i].oee <= 1.0
      {
        if i < |prev| - 1 {
          assert w[i] == w[..|prev| - 1][i] == w0[i + 1];
        }
      }
    }
  }

  /** The window after a run of ticks. */
  function Ticks(prev: seq<Point>, ticks: seq<(int, string, Draws)>): (w: seq<Point>)
    requires prev != []
    ensures |w| == |prev|
  {
    if ticks == [] then prev
    else
      var w0 := Ticks(prev, ticks[..|ticks| - 1]);
      var t := ticks[|ticks| - 1];
      LiveStep(w0, t.0, t.1, t.2).value
  }

  // ------------------------------------------------------------ correlation matrix

  /** The eight variables of the correlation matrix, in the page's order. */
  const MatrixVariables: seq<Variable> := [OEE, Availability, Performance, Quality, Temp, Humidity, EnergyPrice, Fatigue]

  /** `row` maps exactly the variables of `keys`, each to its correlation with `a` over the window. */
  predicate RowOf(filtered: seq<Point>, a: Variable, row: map<Variable, Correlation>, keys: seq<Variable>)
  {
    (forall b :: b in row <==> b in keys) &&
    forall b :: b in row ==> row[b] == Correlate(Column(filtered, a), Column(filtered, b))
  }

  /**
   * correlations: for every ordered pair of the eight variables, the
   * correlation of their columns over the window; the matrix is symmetric.
   */
  method CorrelationMatrix(filtered: seq<Point>) returns (matrix: map<Variable, map<Variable, Correlation>>)
    ensures forall v :: v in matrix <==> v in MatrixVariables
    ensures forall a :: a in matrix ==> forall b :: b in matrix[a] <==> b in MatrixVariables
    ensures forall a, b :: a in matrix && b in matrix[a] ==> matrix[a][b] == Correlate(Column(filtered, a), Column(filtered, b))
    ensures forall a, b :: a in matrix && b in matrix[a] ==> a in matrix[b] && matrix[a][b] == matrix[b][a]
    ensures forall a, b, r :: a in matrix && b in matrix[a] && Denotes(matrix[a][b], r) ==> -1.0 <= r <= 1.0
  {
    matrix := map[];
    for i := 0 to |MatrixVariables|
      invariant forall v :: v in matrix <==> v in MatrixVariables[..i]
      invariant forall a :: a in matrix ==> RowOf(filtered, a, matrix[a], MatrixVariables)
    {
      var v1 := MatrixVariables[i];
      var row: map<Variable, Correlation> := map[];
      for j := 0 to |MatrixVariables|
        invariant RowOf(filtered, v1, row, MatrixVariables[..j])
      {
        var v2 := MatrixVariables[j];
        assert MatrixVariables[..j + 1] == MatrixVariables[..j] + [v2];
        row := row[v2 := Correlate(Column(filtered, v1), Column(filtered, v2))];
      }
      assert MatrixVariables[..|MatrixVariables|] == MatrixVariables;
      assert MatrixVariables[..i + 1] == MatrixVariables[..i] + [v1];
      matrix := matrix[v1 := row];
    }
    assert MatrixVariables[..|MatrixVariables|] == MatrixVariables;
    MatrixSymmetric(filtered, matrix);
    MatrixBounded(filtered, matrix);
  }

  /** Every coefficient a row of correlations holds lies in [-1, 1]. */
  lemma MatrixBounded(filtered: seq<Point>, matrix: map<Variable, map<Variable, Correlation>>)
    requires forall a :: a in matrix ==> RowOf(filtered, a, matrix[a], MatrixVariables)
    ensures forall a, b, r :: a in matrix && b in matrix[a] && Denotes(matrix[a][b], r) ==> -1.0 <= r <= 1.0
  {
    forall a, b, r | a in matrix && b in matrix[a] && Denotes(matrix[a][b], r)
      ensures -1.0 <= r <= 1.0
    {
      CorrelationBounded(Column(filtered, a), Column(filtered, b), r);
    }
  }

  /** A matrix whose every row holds the correlations over all the variables is symmetric. */
  lemma MatrixSymmetric(filtered: seq<Point>, matrix: map<Variable, map<Variable, Correlation>>)
    requires forall v :: v in matrix <==> v in MatrixVariables
    requires forall a :: a in matrix ==> RowOf(filtered, a, matrix[a], MatrixVariables)
    ensures forall a, b :: a in matrix && b in matrix[a] ==> b in matrix && a in matrix[b] && matrix[a][b] == matrix[b][a]
  {
    forall a, b | a in matrix && b in matrix[a]
      ensures b in matrix && a in matrix[b] && matrix[a][b] == matrix[b][a]
    {
      CorrelationSymmetric(Column(filtered, a), Column(filtered, b));
    }
  }

  /** Each diagonal entry is the Zero guard for a constant column and exactly 1 otherwise. */
  lemma MatrixDiagonal(filtered: seq<Point>, v: Variable)
    ensures var x := Column(filtered, v);
      if Constant(x) then Correlate(x, x) == Zero else Denotes(Correlate(x, x), 1.0)
  {
    var x := Column(filtered, v);
    CorrelationGuard(x, x);
    if !Constant(x) {
      SelfCorrelationIsOne(x);
    }
  }
}
