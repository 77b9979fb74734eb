/**
 * The per-column statistics both analytics handlers report: which columns are
 * numeric (decided by the first row alone), which values of a column survive
 * coercion, and mean / min / max / count over them.
 */
module Summary {
  import opened Common
  import opened Coercion

  type Row = map<string, Cell>
  type Table = seq<Row>

  datatype ColumnSummary = ColumnSummary(mean: real, min: real, max: real, count: nat)

  /** The report both handlers return; `timestamp` is the clock reading passed in. */
  datatype AnalysisResult = AnalysisResult(
    rowCount: nat,
    timestamp: string,
    analysisType: Option<Json>,
    summary: map<string, ColumnSummary>)

  /** Keys of the first row whose first-row value coerces to a number. */
  function NumericColumns(data: Table, rt: Runtime): (cols: set<string>)
    ensures data == [] ==> cols == {}
    ensures data != [] ==> forall c :: c in cols <==> c in data[0] && Coerce(rt, data[0][c]).Some?
  {
    if data == [] then {} else set c | c in data[0] && Coerce(rt, data[0][c]).Some?
  }

  /** The coerced values of column `col`, row order kept; rows lacking the column or failing coercion drop out. */
  function ColumnValues(data: Table, col: string, rt: Runtime): (vs: seq<real>)
    ensures |vs| <= |data|
  {
    if data == [] then []
    else
      var rest := ColumnValues(data[..|data| - 1], col, rt);
      var row := data[|data| - 1];
      if col in row && Coerce(rt, row[col]).Some? then rest + [Coerce(rt, row[col]).value] else rest
  }

  function Sum(vs: seq<real>): real
  {
    if vs == [] then 0.0 else Sum(vs[..|vs| - 1]) + vs[|vs| - 1]
  }

  function Min(vs: seq<real>): (m: real)
    requires vs != []
    ensures m in vs && forall i :: 0 <= i < |vs| ==> m <= vs[i]
  {
    if |vs| == 1 then vs[0]
    else
      var m := Min(vs[..|vs| - 1]);
      assert vs == vs[..|vs| - 1] + [vs[|vs| - 1]];
      if vs[|vs| - 1] < m then vs[|vs| - 1] else m
  }

  function Max(vs: seq<real>): (m: real)
    requires vs != []
    ensures m in vs && forall i :: 0 <= i < |vs| ==> vs[i] <= m
  {
    if |vs| == 1 then vs[0]
    else
      var m := Max(vs[..|vs| - 1]);
      assert vs == vs[..|vs| - 1] + [vs[|vs| - 1]];
      if vs[|vs| - 1] > m then vs[|vs| - 1] else m
  }

  /** A sum of values inside [lo, hi] lies inside [n * lo, n * hi]. */
  lemma {:induction false} SumWithin(vs: seq<real>, lo: real, hi: real)
    requires forall i :: 0 <= i < |vs| ==> lo <= vs[i] <= hi
    ensures |vs| as real * lo <= Sum(vs) <= |vs| as real * hi
  {
    if vs != [] {
      SumWithin(vs[..|vs| - 1], lo, hi);
    }
  }

  lemma DivWithin(s: real, n: real, lo: real, hi: real)
    requires n > 0.0 && n * lo <= s <= n * hi
    ensures lo <= s / n <= hi
  {
    assert (s / n) * n == s;
  }

  /** The mean of non-empty values inside [lo, hi] lies inside [lo, hi]. */
  lemma MeanWithin(vs: seq<real>, lo: real, hi: real)
    requires vs != []
    requires forall i :: 0 <= i < |vs| ==> lo <= vs[i] <= hi
    ensures lo <= Sum(vs) / |vs| as real <= hi
  {
    SumWithin(vs, lo, hi);
    DivWithin(Sum(vs), |vs| as real, lo, hi);
  }

  /** mean / min / max / count of non-empty values. */
  function Stats(vs: seq<real>): (s: ColumnSummary)
    requires vs != []
    ensures s.count == |vs| > 0
    ensures s.mean == Sum(vs) / |vs| as real
    ensures s.min in vs && s.max in vs
    ensures forall i :: 0 <= i < |vs| ==> s.min <= vs[i] <= s.max
    ensures s.min <= s.mean <= s.max
  {
    MeanWithin(vs, Min(vs), Max(vs));
    ColumnSummary(Sum(vs) / |vs| as real, Min(vs), Max(vs), |vs|)
  }

  /** The summary entries of the columns in `cols` that keep at least one value. */
  function SummaryOver(data: Table, rt: Runtime, cols: set<string>): (summary: map<string, ColumnSummary>)
    ensures summary.Keys <= cols
  {
    map c | c in cols && ColumnValues(data, c, rt) != [] :: Stats(ColumnValues(data, c, rt))
  }

  /** Adding one column to `cols` adds its entry exactly when it keeps a value. */
  lemma SummaryOverStep(data: Table, rt: Runtime, cols: set<string>, c: string)
    requires c !in cols
    ensures SummaryOver(data, rt, cols + {c}) ==
      if ColumnValues(data, c, rt) != [] then SummaryOver(data, rt, cols)[c := Stats(ColumnValues(data, c, rt))]
      else SummaryOver(data, rt, cols)
  {
    var before, after := SummaryOver(data, rt, cols), SummaryOver(data, rt, cols + {c});
    if ColumnValues(data, c, rt) != [] {
      assert after.Keys == before.Keys + {c};
    } else {
      assert after.Keys == before.Keys;
    }
  }

  /** The summary map: every numeric column with at least one surviving value. */
  function SummaryOf(data: Table, rt: Runtime): (summary: map<string, ColumnSummary>)
    ensures data == [] ==> summary == map[]
    ensures summary.Keys <= NumericColumns(data, rt)
    ensures forall c :: c in summary ==> 0 < summary[c].count <= |data| && summary[c].min <= summary[c].mean <= summary[c].max
    ensures forall c :: c in summary <==> c in NumericColumns(data, rt) && ColumnValues(data, c, rt) != []
    ensures forall c :: c in summary ==> summary[c] == Stats(ColumnValues(data, c, rt))
  {
    SummaryOver(data, rt, NumericColumns(data, rt))
  }

  /** The rows of `data` whose cell in `col` is present and coerces. */
  function CoercingRows(data: Table, col: string, rt: Runtime): set<nat>
  {
    set i: nat | i < |data| && Contributes(data[i], col, rt)
  }

  /** The row has the column and its cell coerces. */
  predicate Contributes(row: Row, col: string, rt: Runtime)
  {
    col in row && Coerce(rt, row[col]).Some?
  }

  /** A column's values split at any row boundary: row order and multiplicity are kept. */
  lemma {:induction false} ColumnValuesAppend(a: Table, b: Table, col: string, rt: Runtime)
    ensures ColumnValues(a + b, col, rt) == ColumnValues(a, col, rt) + ColumnValues(b, col, rt)
    decreases |b|
  {
    if b == [] {
      assert a + b == a;
    } else {
      var b' := b[..|b| - 1];
      assert (a + b)[..|a + b| - 1] == a + b';
      ColumnValuesAppend(a, b', col, rt);
    }
  }

  /** One row contributes its coerced cell, or nothing. */
  lemma ColumnValuesOfRow(row: Row, col: string, rt: Runtime)
    ensures ColumnValues([row], col, rt) ==
      if col in row && Coerce(rt, row[col]).Some? then [Coerce(rt, row[col]).value] else []
  {
    assert [row][..0] == [];
  }

  /** The coercing rows of a table are those of all rows but the last, and the last one when it coerces. */
  lemma CoercingRowsStep(data: Table, col: string, rt: Runtime)
    requires data != []
    ensures CoercingRows(data, col, rt) ==
      CoercingRows(data[..|data| - 1], col, rt) + if Contributes(data[|data| - 1], col, rt) then {|data| - 1} else {}
  {
    var init := data[..|data| - 1];
    forall i: nat | i < |init|
      ensures init[i] == data[i]
    {
    }
  }

  /** A column has exactly one value per row whose cell is present and coerces. */
  lemma {:induction false} ColumnValuesCount(data: Table, col: string, rt: Runtime)
    ensures |ColumnValues(data, col, rt)| == |CoercingRows(data, col, rt)|
  {
    if data != [] {
      var last := |data| - 1;
      ColumnValuesCount(data[..last], col, rt);
      CoercingRowsStep(data, col, rt);
      assert last !in CoercingRows(data[..last], col, rt);
    }
  }

  /** Only the first row decides which columns are numeric: further rows never change the set. */
  lemma NumericColumnsFirstRowOnly(data: Table, rest: Table, rt: Runtime)
    requires data != []
    ensures NumericColumns(data, rt) == NumericColumns(data[..1], rt)
    ensures NumericColumns(data + rest, rt) == NumericColumns(data, rt)
  {
    assert (data + rest)[0] == data[..1][0] == data[0];
  }

  /** A column missing from the first row, or whose first cell does not coerce, has no summary entry. */
  lemma FirstRowDecides(data: Table, rt: Runtime, c: string)
    requires data != [] && (c !in data[0] || Coerce(rt, data[0][c]).None?)
    ensures c !in SummaryOf(data, rt)
  {
  }

  /** Every value of a column comes from a row that has the column and coerces to it. */
  lemma {:induction false} ColumnValueOrigin(data: Table, col: string, rt: Runtime, v: real)
    requires v in ColumnValues(data, col, rt)
    ensures exists i :: 0 <= i < |data| && col in data[i] && Coerce(rt, data[i][col]) == Some(v)
  {
    var last := |data| - 1;
    var rest := ColumnValues(data[..last], col, rt);
    if v in rest {
      ColumnValueOrigin(data[..last], col, rt, v);
      var i :| 0 <= i < last && col in data[..last][i] && Coerce(rt, data[..last][i][col]) == Some(v);
      assert data[..last][i] == data[i];
    } else {
      assert col in data[last] && Coerce(rt, data[last][col]) == Some(v);
    }
  }

  /** A row that has the column with a coercible value contributes to it. */
  lemma {:induction false} ColumnValueContributes(data: Table, col: string, rt: Runtime, i: nat)
    requires i < |data| && col in data[i] && Coerce(rt, data[i][col]).Some?
    ensures Coerce(rt, data[i][col]).value in ColumnValues(data, col, rt)
  {
    var last := |data| - 1;
    if i < last {
      assert data[..last][i] == data[i];
      ColumnValueContributes(data[..last], col, rt, i);
    }
  }

  /**
   * What the summary reports: only first-row-numeric columns, each with
   * 0 < count <= rowCount, min <= mean <= max, min and max taken from actual
   * rows, and every coercible value of the column inside [min, max].
   */
  lemma SummaryFacts(data: Table, rt: Runtime, c: string)
    requires c in SummaryOf(data, rt)
    ensures data != [] && c in data[0] && Coerce(rt, data[0][c]).Some?
    ensures 0 < SummaryOf(data, rt)[c].count <= |data|
    ensures SummaryOf(data, rt)[c].min <= SummaryOf(data, rt)[c].mean <= SummaryOf(data, rt)[c].max
    ensures exists i :: 0 <= i < |data| && c in data[i] && Coerce(rt, data[i][c]) == Some(SummaryOf(data, rt)[c].min)
    ensures exists i :: 0 <= i < |data| && c in data[i] && Coerce(rt, data[i][c]) == Some(SummaryOf(data, rt)[c].max)
    ensures forall i :: 0 <= i < |data| && c in data[i] && Coerce(rt, data[i][c]).Some? ==>
      SummaryOf(data, rt)[c].min <= Coerce(rt, data[i][c]).value <= SummaryOf(data, rt)[c].max
    ensures SummaryOf(data, rt)[c].count == |CoercingRows(data, c, rt)|
  {
    ColumnValuesCount(data, c, rt);
    var vs := ColumnValues(data, c, rt);
    var s := SummaryOf(data, rt)[c];
    ColumnValueOrigin(data, c, rt, s.min);
    ColumnValueOrigin(data, c, rt, s.max);
    forall i | 0 <= i < |data| && c in data[i] && Coerce(rt, data[i][c]).Some?
      ensures s.min <= Coerce(rt, data[i][c]).value <= s.max
    {
      ColumnValueContributes(data, c, rt, i);
    }
  }

  /** A numeric column is left out exactly when none of its values coerce. */
  lemma {:induction false} OmittedWhenNoValues(data: Table, rt: Runtime, c: string)
    requires c in NumericColumns(data, rt)
    ensures c !in SummaryOf(data, rt) <==>
      forall i :: 0 <= i < |data| ==> c !in data[i] || Coerce(rt, data[i][c]).None?
  {
    if c !in SummaryOf(data, rt) {
      forall i | 0 <= i < |data| && c in data[i] && Coerce(rt, data[i][c]).Some?
        ensures false
      {
        ColumnValueContributes(data, c, rt, i);
      }
    } else {
      var v := ColumnValues(data, c, rt)[0];
      ColumnValueOrigin(data, c, rt, v);
    }
  }

  /** A table with one numeric column that keeps a value summarises to that column alone. */
  lemma SingleColumnSummary(data: Table, rt: Runtime, c: string)
    requires NumericColumns(data, rt) == {c} && ColumnValues(data, c, rt) != []
    ensures SummaryOf(data, rt) == map[c := Stats(ColumnValues(data, c, rt))]
  {
    SummaryOverStep(data, rt, {}, c);
    assert {} + {c} == {c};
    assert SummaryOver(data, rt, {}) == map[];
  }

  /** The one-digit texts "1" and "2" coerce to their numbers on both runtimes. */
  lemma ExampleNumbers(rt: Runtime)
    ensures Coerce(rt, Str("1")) == Some(1.0) && Coerce(rt, Str("2")) == Some(2.0)
  {
    assert Text.Decimal(1) == "1";
    assert Text.Decimal(2) == "2";
    RenderedNumberCoerces(1);
    RenderedNumberCoerces(2);
  }

  /** The texts "x" and "y" coerce on neither runtime. */
  lemma ExampleTexts(rt: Runtime)
    ensures Coerce(rt, Str("x")).None? && Coerce(rt, Str("y")).None?
  {
    DigitlessTextIsNotNumeric("x", rt);
    DigitlessTextIsNotNumeric("y", rt);
  }

  /** Two rows whose column `col` coerces in both give the two values in row order. */
  lemma ColumnValuesOfTwo(r0: map<string, Cell>, r1: map<string, Cell>, col: string, rt: Runtime)
    requires col in r0 && col in r1 && Coerce(rt, r0[col]).Some? && Coerce(rt, r1[col]).Some?
    ensures ColumnValues([r0, r1], col, rt) == [Coerce(rt, r0[col]).value, Coerce(rt, r1[col]).value]
  {
    assert [r0, r1][..1] == [r0];
    assert [r0][..0] == [];
  }

  /** A first row holding just one column, which coerces, makes that the only numeric column. */
  lemma NumericColumnsOfSingle(data: Table, rt: Runtime, c: string)
    requires data != [] && data[0].Keys == {c} && Coerce(rt, data[0][c]).Some?
    ensures NumericColumns(data, rt) == {c}
  {
  }

  /** One value is its own mean, minimum and maximum. */
  lemma StatsOfOne(v: real)
    ensures Stats([v]) == ColumnSummary(v, v, v, 1)
  {
    assert [v][..0] == [];
  }

  /** A second row lacking column `col` adds nothing to its values. */
  lemma ColumnValuesSkipMissing(r0: map<string, Cell>, r1: map<string, Cell>, col: string, rt: Runtime)
    requires col in r0 && Coerce(rt, r0[col]).Some? && col !in r1
    ensures ColumnValues([r0, r1], col, rt) == [Coerce(rt, r0[col]).value]
  {
    assert [r0, r1][..1] == [r0];
    assert [r0][..0] == [];
  }

  lemma ExampleColumn(data: Table, rt: Runtime)
    requires data == [map["a" := Str("1"), "b" := Str("x")], map["a" := Str("2"), "b" := Str("y")]]
    ensures NumericColumns(data, rt) == {"a"}
    ensures ColumnValues(data, "a", rt) == [1.0, 2.0]
  {
    ExampleNumbers(rt);
    ExampleTexts(rt);
    ColumnValuesOfTwo(data[0], data[1], "a", rt);
  }

  lemma ExampleStats()
    ensures Stats([1.0, 2.0]) == ColumnSummary(1.5, 1.0, 2.0, 2)
  {
    assert [1.0, 2.0][..1] == [1.0];
    assert [1.0][..0] == [];
    assert Sum([1.0, 2.0]) == 3.0;
  }

  /** The example table {a:"1",b:"x"}, {a:"2",b:"y"} summarises to a: mean 1.5, min 1, max 2, count 2. */
  lemma TwoRowExample(rt: Runtime)
    ensures
      var data := [map["a" := Str("1"), "b" := Str("x")], map["a" := Str("2"), "b" := Str("y")]];
      SummaryOf(data, rt) == map["a" := ColumnSummary(1.5, 1.0, 2.0, 2)]
  {
    var data := [map["a" := Str("1"), "b" := Str("x")], map["a" := Str("2"), "b" := Str("y")]];
    ExampleColumn(data, rt);
    SingleColumnSummary(data, rt, "a");
    ExampleStats();
  }

  /** A first row whose only cell fails coercion leaves the summary empty, whatever the second row holds. */
  lemma FirstCellNotNumeric(r0: Row, r1: Row, col: string, rt: Runtime)
    requires r0.Keys == {col} && Coerce(rt, r0[col]).None? && col in r1 && Coerce(rt, r1[col]).Some?
    ensures ColumnValues([r0, r1], col, rt) == [Coerce(rt, r1[col]).value]
    ensures SummaryOf([r0, r1], rt) == map[]
  {
    assert [r0, r1][..1] == [r0];
    assert [r0][..0] == [];
    assert NumericColumns([r0, r1], rt) == {};
  }

  /** {a:"x"}, {a:"1"}: the second row's value survives coercion, yet the summary is empty. */
  lemma LaterRowsIgnored(rt: Runtime)
    ensures
      var data := [map["a" := Str("x")], map["a" := Str("1")]];
      ColumnValues(data, "a", rt) == [1.0] && SummaryOf(data, rt) == map[]
  {
    ExampleNumbers(rt);
    ExampleTexts(rt);
    FirstCellNotNumeric(map["a" := Str("x")], map["a" := Str("1")], "a", rt);
  }
}
