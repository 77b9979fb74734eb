/**
 * The bar chart of the dashboard page: the chart values (ratios scaled to
 * percent) and the reduce that merges the readings of one calendar date into
 * one bar. The reduce blends each new reading into the bar as
 * `(bar + reading) / 2`, a running average that weighs late readings more
 * than the day's mean would; `DailyMeans` is that mean, with the same bars in
 * the same order.
 */
module DailyBars {
  import opened Common
  import opened Summary
  import opened Dashboard

  /** chartData: OEE, the three ratios and the predicted OEE in percent; the other readings as they are. */
  function ChartValue(p: Point, v: Variable): real
  {
    match v
    case OEE | Availability | Performance | Quality | PredictedOee => Get(p, v) * 100.0
    case Temp | Humidity | EnergyPrice | Fatigue | Downtime => Get(p, v)
  }

  /** A ratio inside [lo, hi] is charted inside [100 lo, 100 hi]. */
  lemma PercentOfRatio(p: Point, v: Variable, lo: real, hi: real)
    requires v in {OEE, Availability, Performance, Quality, PredictedOee}
    requires lo <= Get(p, v) <= hi
    ensures 100.0 * lo <= ChartValue(p, v) <= 100.0 * hi
  {
  }

  /** One bar: its date and the value of each selected variable. */
  datatype Bar = Bar(date: string, values: map<Variable, real>)

  /** The variable selector only appends a variable that is not checked yet. */
  predicate Distinct(sel: seq<Variable>)
  {
    forall i, j :: 0 <= i < j < |sel| ==> sel[i] != sel[j]
  }

  /** `acc.find((d) => d.date === date)`: the index of the first bar of that date. */
  function FindDate(acc: seq<Bar>, date: string): (r: Option<nat>)
    ensures r.Some? ==> r.value < |acc| && acc[r.value].date == date && (forall j :: 0 <= j < r.value ==> acc[j].date != date)
    ensures r.None? ==> forall j :: 0 <= j < |acc| ==> acc[j].date != date
  {
    if acc == [] then None
    else if acc[0].date == date then Some(0)
    else
      match FindDate(acc[1..], date)
      case None => None
      case Some(i) => Some(i + 1)
  }

  /** The new entry: every selected variable set to the reading's chart value. */
  function Fresh(p: Point, sel: seq<Variable>): (values: map<Variable, real>)
    ensures values.Keys == set v | v in sel
    ensures forall v :: v in values ==> values[v] == ChartValue(p, v)
  {
    if sel == [] then map[]
    else
      var init, v := sel[..|sel| - 1], sel[|sel| - 1];
      assert (set u | u in sel) == (set u | u in init) + {v} by {
        assert sel == init + [v];
      }
      Fresh(p, init)[v := ChartValue(p, v)]
  }

  /** The bar's value blended with the reading's chart value. */
  function Halfway(x: real, p: Point, v: Variable): real
  {
    (x + ChartValue(p, v)) / 2.0
  }

  /** `existing[variable] = (existing[variable] + curr[variable]) / 2` for each selected variable in turn. */
  function Blend(values: map<Variable, real>, p: Point, sel: seq<Variable>): (r: map<Variable, real>)
    requires forall v :: v in sel ==> v in values
    ensures r.Keys == values.Keys
  {
    if sel == [] then values
    else
      var init, v := sel[..|sel| - 1], sel[|sel| - 1];
      assert forall u :: u in init ==> u in sel;
      var w := Blend(values, p, init);
      w[v := Halfway(w[v], p, v)]
  }

  /**
   * Blending leaves the unselected variables as they were; when no variable
   * is selected twice, each selected one ends halfway between the bar's value
   * and the reading's chart value.
   */
  lemma {:induction false} BlendMeaning(values: map<Variable, real>, p: Point, sel: seq<Variable>)
    requires forall v :: v in sel ==> v in values
    ensures forall v :: v in values && v !in sel ==> Blend(values, p, sel)[v] == values[v]
    ensures Distinct(sel) ==> forall v :: v in sel ==> Blend(values, p, sel)[v] == (values[v] + ChartValue(p, v)) / 2.0
  {
    if sel != [] {
      var init, v := sel[..|sel| - 1], sel[|sel| - 1];
      assert forall u :: u in init ==> u in sel;
      BlendMeaning(values, p, init);
      var r := Blend(values, p, sel);
      forall u | u in values && u !in sel
        ensures r[u] == values[u]
      {
        assert u !in init && u != v;
      }
      if Distinct(sel) {
        assert Distinct(init);
        assert v !in init;
        forall u | u in sel
          ensures r[u] == (values[u] + ChartValue(p, u)) / 2.0
        {
          if u != v {
            var k :| 0 <= k < |sel| && sel[k] == u;
            assert init[k] == u;
          }
        }
      }
    }
  }

  /** Every bar holds exactly the selected variables. */
  predicate Complete(acc: seq<Bar>, sel: seq<Variable>)
  {
    forall i :: 0 <= i < |acc| ==> acc[i].values.Keys == set v | v in sel
  }

  /** One step of the reduce: blend into the bar of the reading's date, or push a new bar for it. */
  function Merge(acc: seq<Bar>, p: Point, sel: seq<Variable>, dateOf: int -> string): (r: seq<Bar>)
    requires Complete(acc, sel)
    ensures Complete(r, sel)
  {
    var date := dateOf(p.stamp);
    match FindDate(acc, date)
    case Some(i) => acc[i := Bar(date, Blend(acc[i].values, p, sel))]
    case None => acc + [Bar(date, Fresh(p, sel))]
  }

  /** dailyData: the reduce over the chart readings, from an empty list. */
  function DailyFold(points: seq<Point>, sel: seq<Variable>, dateOf: int -> string): (acc: seq<Bar>)
    ensures Complete(acc, sel)
  {
    if points == [] then []
    else Merge(DailyFold(points[..|points| - 1], sel, dateOf), points[|points| - 1], sel, dateOf)
  }

  /** The reduce as the page runs it: a loop over the readings, blending into or pushing a bar for each. */
  method DailyData(chart: seq<Point>, sel: seq<Variable>, dateOf: int -> string) returns (acc: seq<Bar>)
    ensures acc == DailyFold(chart, sel, dateOf)
  {
    acc := [];
    for k := 0 to |chart|
      invariant acc == DailyFold(chart[..k], sel, dateOf)
    {
      assert chart[..k + 1][..k] == chart[..k];
      var curr := chart[k];
      var date := dateOf(curr.stamp);
      var existing := FindDate(acc, date);
      if existing.Some? {
        var values := BlendInto(acc[existing.value].values, curr, sel);
        acc := acc[existing.value := Bar(date, values)];
      } else {
        var entry := NewEntry(curr, sel);
        acc := acc + [Bar(date, entry)];
      }
    }
    assert chart[..|chart|] == chart;
  }

  /** The forEach over the selected variables for a date that has a bar. */
  method BlendInto(existing: map<Variable, real>, curr: Point, sel: seq<Variable>) returns (values: map<Variable, real>)
    requires forall v :: v in sel ==> v in existing
    ensures values == Blend(existing, curr, sel)
  {
    values := existing;
    for j := 0 to |sel|
      invariant values.Keys == existing.Keys
      invariant values == Blend(existing, curr, sel[..j])
    {
      BlendStep(existing, curr, sel, j);
      values := values[sel[j] := Halfway(values[sel[j]], curr, sel[j])];
    }
    assert sel[..|sel|] == sel;
  }

  /** Blending one more variable of `sel` updates that variable of the blend so far. */
  lemma BlendStep(existing: map<Variable, real>, curr: Point, sel: seq<Variable>, j: nat)
    requires j < |sel| && forall v :: v in sel ==> v in existing
    ensures forall v :: v in sel[..j] ==> v in existing
    ensures var w := Blend(existing, curr, sel[..j]);
      sel[j] in w && Blend(existing, curr, sel[..j + 1]) == w[sel[j] := Halfway(w[sel[j]], curr, sel[j])]
  {
    assert sel[..j + 1][..j] == sel[..j];
    assert forall v :: v in sel[..j + 1] ==> v in sel;
  }

  /** The forEach over the selected variables that fills a new bar. */
  method NewEntry(curr: Point, sel: seq<Variable>) returns (entry: map<Variable, real>)
    ensures entry == Fresh(curr, sel)
  {
    entry := map[];
    for j := 0 to |sel|
      invariant entry == Fresh(curr, sel[..j])
    {
      assert sel[..j + 1][..j] == sel[..j];
      entry := entry[sel[j] := ChartValue(curr, sel[j])];
    }
    assert sel[..|sel|] == sel;
  }

  // ------------------------------------------------------------ the days

  /** The dates of the readings, each once, in the order they first appear. */
  function Days(points: seq<Point>, dateOf: int -> string): (days: seq<string>)
  {
    if points == [] then []
    else
      var prior, d := Days(points[..|points| - 1], dateOf), dateOf(points[|points| - 1].stamp);
      if d in prior then prior else prior + [d]
  }

  /** Some reading is dated `d`. */
  predicate Dated(points: seq<Point>, dateOf: int -> string, d: string)
  {
    exists k :: 0 <= k < |points| && dateOf(points[k].stamp) == d
  }

  /** No date occurs twice. */
  predicate NoRepeats(ds: seq<string>)
  {
    forall i, j :: 0 <= i < j < |ds| ==> ds[i] != ds[j]
  }

  /** The days are pairwise distinct. */
  lemma {:induction false} DaysDistinct(points: seq<Point>, dateOf: int -> string)
    ensures NoRepeats(Days(points, dateOf))
  {
    if points != [] {
      DaysDistinct(points[..|points| - 1], dateOf);
    }
  }

  /** The days are exactly the readings' dates. */
  lemma {:induction false} DaysCover(points: seq<Point>, dateOf: int -> string, d: string)
    ensures d in Days(points, dateOf) <==> Dated(points, dateOf, d)
  {
    if points != [] {
      var init, p := points[..|points| - 1], points[|points| - 1];
      DaysCover(init, dateOf, d);
      if Dated(init, dateOf, d) {
        var k :| 0 <= k < |init| && dateOf(init[k].stamp) == d;
        assert points[k] == init[k];
      }
      if Dated(points, dateOf, d) && dateOf(p.stamp) != d {
        var k :| 0 <= k < |points| && dateOf(points[k].stamp) == d;
        assert init[k] == points[k];
      }
    }
  }

  /** The reduce keeps one bar per day, in the order of `Days`. */
  lemma {:induction false} FoldFollowsDays(points: seq<Point>, sel: seq<Variable>, dateOf: int -> string)
    ensures var bars, days := DailyFold(points, sel, dateOf), Days(points, dateOf);
      |bars| == |days| && forall i :: 0 <= i < |bars| ==> bars[i].date == days[i]
  {
    if points != [] {
      var init, p := points[..|points| - 1], points[|points| - 1];
      FoldFollowsDays(init, sel, dateOf);
      var acc, prior := DailyFold(init, sel, dateOf), Days(init, dateOf);
      var d := dateOf(p.stamp);
      match FindDate(acc, d)
      case Some(i) =>
        assert d in prior by {
          assert prior[i] == d;
        }
      case None =>
        forall i | 0 <= i < |prior|
          ensures prior[i] != d
        {
          assert acc[i].date == prior[i];
        }
    }
  }

  /** Some bar is dated `d`. */
  predicate HasBar(bars: seq<Bar>, d: string)
  {
    exists i :: 0 <= i < |bars| && bars[i].date == d
  }

  /** The bars have pairwise distinct dates, and a bar is dated `d` exactly when a reading is. */
  lemma DailyBarDates(points: seq<Point>, sel: seq<Variable>, dateOf: int -> string, d: string)
    ensures var bars := DailyFold(points, sel, dateOf);
      (forall i, j :: 0 <= i < j < |bars| ==> bars[i].date != bars[j].date) &&
      (HasBar(bars, d) <==> Dated(points, dateOf, d))
  {
    var bars, days := DailyFold(points, sel, dateOf), Days(points, dateOf);
    FoldFollowsDays(points, sel, dateOf);
    DaysDistinct(points, dateOf);
    DaysCover(points, dateOf, d);
    if d in days {
      var i :| 0 <= i < |days| && days[i] == d;
      assert bars[i].date == d;
    }
  }

  // ------------------------------------------------------------ bounds

  /** Every bar value lies within the values of the bar's variable at its date. */
  predicate BarsWithin(acc: seq<Bar>, lo: real, hi: real)
  {
    forall i, v :: 0 <= i < |acc| && v in acc[i].values ==> lo <= acc[i].values[v] <= hi
  }

  /** Readings whose chart values lie in [lo, hi] give bars whose values lie in [lo, hi]. */
  lemma {:induction false} DailyWithin(points: seq<Point>, sel: seq<Variable>, dateOf: int -> string, lo: real, hi: real)
    requires forall k, v :: 0 <= k < |points| && v in sel ==> lo <= ChartValue(points[k], v) <= hi
    ensures BarsWithin(DailyFold(points, sel, dateOf), lo, hi)
  {
    if points != [] {
      var init, p := points[..|points| - 1], points[|points| - 1];
      forall k, v | 0 <= k < |init| && v in sel
        ensures lo <= ChartValue(init[k], v) <= hi
      {
        assert init[k] == points[k];
      }
      DailyWithin(init, sel, dateOf, lo, hi);
      var acc := DailyFold(init, sel, dateOf);
      match FindDate(acc, dateOf(p.stamp))
      case Some(i) =>
        BlendWithin(acc[i].values, p, sel, lo, hi);
      case None =>
    }
  }

  /** Halfway between two values in [lo, hi] is in [lo, hi]. */
  lemma {:induction false} BlendWithin(values: map<Variable, real>, p: Point, sel: seq<Variable>, lo: real, hi: real)
    requires forall v :: v in sel ==> v in values
    requires forall v :: v in values ==> lo <= values[v] <= hi
    requires forall v :: v in sel ==> lo <= ChartValue(p, v) <= hi
    ensures forall v :: v in Blend(values, p, sel) ==> lo <= Blend(values, p, sel)[v] <= hi
  {
    if sel != [] {
      var init := sel[..|sel| - 1];
      assert forall u :: u in init ==> u in sel;
      BlendWithin(values, p, init, lo, hi);
    }
  }

  /** With the live ratios in range, the bars of OEE's three factors stay inside 0..100 percent. */
  lemma RatioBarsArePercentages(points: seq<Point>, sel: seq<Variable>, dateOf: int -> string)
    requires forall k :: 0 <= k < |points| ==> RatiosInRange(points[k])
    requires forall v :: v in sel ==> v in {Availability, Performance, Quality}
    ensures BarsWithin(DailyFold(points, sel, dateOf), 0.0, 100.0)
  {
    forall k, v | 0 <= k < |points| && v in sel
      ensures 0.0 <= ChartValue(points[k], v) <= 100.0
    {
      PercentOfRatio(points[k], v, 0.0, 1.0);
    }
    DailyWithin(points, sel, dateOf, 0.0, 100.0);
  }

  // ------------------------------------------------------------ the daily mean

  /** The chart values of `v` in the readings dated `d`, in order. */
  function DayValues(points: seq<Point>, dateOf: int -> string, d: string, v: Variable): (vs: seq<real>)
    ensures |vs| <= |points|
  {
    if points == [] then []
    else
      var rest, p := DayValues(points[..|points| - 1], dateOf, d, v), points[|points| - 1];
      if dateOf(p.stamp) == d then rest + [ChartValue(p, v)] else rest
  }

  /** The mean of non-empty values; 0 for none. */
  function Mean(vs: seq<real>): real
  {
    if vs == [] then 0.0 else Sum(vs) / |vs| as real
  }

  /** The bar the daily chart evidently intends: for each selected variable, the mean of the day's readings. */
  function DayMean(points: seq<Point>, sel: seq<Variable>, dateOf: int -> string, d: string): map<Variable, real>
  {
    map v | v in sel :: Mean(DayValues(points, dateOf, d, v))
  }

  /** The corrected daily bars: one per day, in the order the days first appear, each the day's mean. */
  function DailyMeans(points: seq<Point>, sel: seq<Variable>, dateOf: int -> string): (bars: seq<Bar>)
    ensures |bars| == |Days(points, dateOf)|
  {
    var days := Days(points, dateOf);
    seq(|days|, i requires 0 <= i < |days| => Bar(days[i], DayMean(points, sel, dateOf, days[i])))
  }

  /** A reading dated `d` puts its value among the day's values. */
  lemma {:induction false} DayValuesHold(points: seq<Point>, dateOf: int -> string, d: string, v: Variable, k: nat)
    requires k < |points| && dateOf(points[k].stamp) == d
    ensures ChartValue(points[k], v) in DayValues(points, dateOf, d, v)
  {
    var init := points[..|points| - 1];
    if k < |init| {
      assert init[k] == points[k];
      DayValuesHold(init, dateOf, d, v, k);
    }
  }

  /** Every one of the day's values comes from a reading of that day. */
  lemma {:induction false} DayValuesFrom(points: seq<Point>, dateOf: int -> string, d: string, v: Variable, x: real)
    requires x in DayValues(points, dateOf, d, v)
    ensures exists k :: 0 <= k < |points| && dateOf(points[k].stamp) == d && ChartValue(points[k], v) == x
  {
    var init, p := points[..|points| - 1], points[|points| - 1];
    if x in DayValues(init, dateOf, d, v) {
      DayValuesFrom(init, dateOf, d, v, x);
      var k :| 0 <= k < |init| && dateOf(init[k].stamp) == d && ChartValue(init[k], v) == x;
      assert points[k] == init[k];
    }
  }

  /**
   * On a day that has readings, the corrected value of a selected variable is
   * the mean of the day's values, so it lies between their minimum and maximum.
   */
  lemma DayMeanWithin(points: seq<Point>, sel: seq<Variable>, dateOf: int -> string, d: string, v: Variable)
    requires Dated(points, dateOf, d) && v in sel
    ensures var vs := DayValues(points, dateOf, d, v);
      vs != [] && v in DayMean(points, sel, dateOf, d) &&
      DayMean(points, sel, dateOf, d)[v] == Sum(vs) / |vs| as real &&
      Min(vs) <= DayMean(points, sel, dateOf, d)[v] <= Max(vs)
  {
    var k :| 0 <= k < |points| && dateOf(points[k].stamp) == d;
    DayValuesHold(points, dateOf, d, v, k);
    var vs := DayValues(points, dateOf, d, v);
    assert vs != [];
    var means := DayMean(points, sel, dateOf, d);
    assert v in means && means[v] == Mean(vs);
    assert Mean(vs) == Sum(vs) / |vs| as real;
    MeanWithin(vs, Min(vs), Max(vs));
  }

  /**
   * The corrected bars have the dates, the order and the variables of the
   * page's bars; each is the mean bar of a day that has readings.
   */
  lemma DailyMeansMeaning(points: seq<Point>, sel: seq<Variable>, dateOf: int -> string)
    ensures var means, bars := DailyMeans(points, sel, dateOf), DailyFold(points, sel, dateOf);
      |means| == |bars| &&
      forall i :: 0 <= i < |means| ==>
        means[i].date == bars[i].date && means[i].values.Keys == bars[i].values.Keys &&
        Dated(points, dateOf, means[i].date) && means[i].values == DayMean(points, sel, dateOf, means[i].date)
  {
    var means, bars, days := DailyMeans(points, sel, dateOf), DailyFold(points, sel, dateOf), Days(points, dateOf);
    FoldFollowsDays(points, sel, dateOf);
    forall i | 0 <= i < |means|
      ensures Dated(points, dateOf, means[i].date)
    {
      DaysCover(points, dateOf, days[i]);
    }
  }

  // ------------------------------------------------------------ the finding

  /** Three readings of one day whose OEE is 0, 0 and 100 percent. */
  function SameDay(b: Point): seq<Point>
  {
    [b.(oee := 0.0), b.(oee := 0.0), b.(oee := 1.0)]
  }

  /** The first reading of a day opens its bar. */
  lemma FoldFirst(p: Point, sel: seq<Variable>, dateOf: int -> string)
    ensures DailyFold([p], sel, dateOf) == [Bar(dateOf(p.stamp), Fresh(p, sel))]
  {
    assert [p][..0] == [];
  }

  /** A later reading of the only day so far blends into its bar. */
  lemma FoldSameDay(points: seq<Point>, p: Point, sel: seq<Variable>, dateOf: int -> string, w: map<Variable, real>)
    requires w.Keys == set v | v in sel
    requires DailyFold(points, sel, dateOf) == [Bar(dateOf(p.stamp), w)]
    ensures DailyFold(points + [p], sel, dateOf) == [Bar(dateOf(p.stamp), Blend(w, p, sel))]
  {
    assert (points + [p])[..|points|] == points;
  }

  /** A later reading of the only day so far adds no day. */
  lemma DaysSameDay(points: seq<Point>, p: Point, dateOf: int -> string)
    requires Days(points, dateOf) == [dateOf(p.stamp)]
    ensures Days(points + [p], dateOf) == [dateOf(p.stamp)]
  {
    assert (points + [p])[..|points|] == points;
  }

  /** A reading dated `d` appends its chart value to the day's values. */
  lemma DayValuesSameDay(points: seq<Point>, p: Point, dateOf: int -> string, v: Variable)
    ensures DayValues(points + [p], dateOf, dateOf(p.stamp), v) == DayValues(points, dateOf, dateOf(p.stamp), v) + [ChartValue(p, v)]
  {
    assert (points + [p])[..|points|] == points;
  }

  /** Blending one variable into a bar that holds it. */
  lemma BlendOne(w: map<Variable, real>, p: Point, v: Variable)
    requires v in w
    ensures Blend(w, p, [v]) == w[v := Halfway(w[v], p, v)]
  {
    assert [v][..0] == [];
  }

  /** The page's bar for the three readings. */
  lemma SameDayFold(b: Point, dateOf: int -> string)
    ensures DailyFold(SameDay(b), [OEE], dateOf) == [Bar(dateOf(b.stamp), map[OEE := 50.0])]
  {
    var pts, d := SameDay(b), dateOf(b.stamp);
    var p0, p1, p2 := pts[0], pts[1], pts[2];
    assert pts == [p0] + [p1] + [p2];
    FoldFirst(p0, [OEE], dateOf);
    assert Fresh(p0, [OEE]) == map[OEE := 0.0];
    FoldSameDay([p0], p1, [OEE], dateOf, map[OEE := 0.0]);
    BlendOne(map[OEE := 0.0], p1, OEE);
    assert Halfway(0.0, p1, OEE) == 0.0;
    assert map[OEE := 0.0][OEE := 0.0] == map[OEE := 0.0];
    FoldSameDay([p0] + [p1], p2, [OEE], dateOf, map[OEE := 0.0]);
    BlendOne(map[OEE := 0.0], p2, OEE);
    assert Halfway(0.0, p2, OEE) == 50.0;
    assert map[OEE := 0.0][OEE := 50.0] == map[OEE := 50.0];
  }

  /** The day's mean for the three readings. */
  lemma SameDayMeans(b: Point, dateOf: int -> string)
    ensures DailyMeans(SameDay(b), [OEE], dateOf) == [Bar(dateOf(b.stamp), map[OEE := 100.0 / 3.0])]
  {
    var pts, d := SameDay(b), dateOf(b.stamp);
    var p0, p1, p2 := pts[0], pts[1], pts[2];
    assert pts == [p0] + [p1] + [p2];
    assert [p0][..0] == [];
    assert Days([p0], dateOf) == [d];
    DaysSameDay([p0], p1, dateOf);
    DaysSameDay([p0] + [p1], p2, dateOf);
    assert DayValues([p0], dateOf, d, OEE) == [0.0];
    DayValuesSameDay([p0], p1, dateOf, OEE);
    DayValuesSameDay([p0] + [p1], p2, dateOf, OEE);
    var vs := DayValues(pts, dateOf, d, OEE);
    assert vs == [0.0, 0.0, 100.0];
    assert Sum(vs) == 100.0 by {
      var one, two: seq<real> := [0.0], [0.0, 0.0];
      assert one[..0] == [] && two[..1] == one && vs[..2] == two;
      assert Sum(one) == 0.0;
      assert Sum(two) == 0.0;
    }
    assert DayMean(pts, [OEE], dateOf, d) == map[OEE := 100.0 / 3.0];
  }

  /**
   * The running average charts 50 for that day, while the day's mean OEE is
   * 100/3: the last reading carries half the bar's weight however many came
   * before it.
   */
  lemma RunningAverageIsNotTheMean(b: Point, dateOf: int -> string)
    ensures DailyFold(SameDay(b), [OEE], dateOf) == [Bar(dateOf(b.stamp), map[OEE := 50.0])]
    ensures DailyMeans(SameDay(b), [OEE], dateOf) == [Bar(dateOf(b.stamp), map[OEE := 100.0 / 3.0])]
    ensures 50.0 != 100.0 / 3.0
  {
    SameDayFold(b, dateOf);
    SameDayMeans(b, dateOf);
  }
}
