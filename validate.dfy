/**
 * The command-line CSV validator: the verdict of `validate_csv_file` and the
 * exit status of `main`. The loaded table is a map from column name to the
 * column's cells; reading the file and parsing its timestamps are
 * parameters, because pandas does both.
 */
module ValidateData {
  import opened Common
  import opened Coercion
  import opened Summary

  /** The columns a dashboard CSV must have, in the order they are reported missing. */
  const Required: seq<string> := [
    "timestamp", "OEE", "availability", "performance", "quality",
    "temp", "humidity", "machine_speed", "vibration", "pressure",
    "power_consumption", "hour_of_day", "day_of_week", "month"
  ]

  /** An expected range of one column. */
  datatype RangeCheck = RangeCheck(col: string, lo: real, hi: real)

  /** The ranges checked, in order; every one of them is a required column. */
  const RangeChecks: seq<RangeCheck> := [
    RangeCheck("OEE", 0.0, 1.0),
    RangeCheck("availability", 0.0, 1.0),
    RangeCheck("performance", 0.0, 1.0),
    RangeCheck("quality", 0.0, 1.0),
    RangeCheck("temp", -50.0, 100.0),
    RangeCheck("humidity", 0.0, 100.0)
  ]

  /** A loaded table: each column's cells, a `Null` for an empty cell. */
  type Frame = map<string, seq<Cell>>

  /**
   * How a validation ends. Only `Complete` returns True; `ReadError` and
   * `CompareError` are the exceptions the outer handler turns into False.
   */
  datatype Outcome =
    | ReadError
    | Missing(cols: seq<string>)
    | BadTimestamps
    | CompareError(col: string)
    | Complete(warnings: seq<string>)

  /** The boolean `validate_csv_file` returns. */
  predicate IsValid(o: Outcome)
  {
    o.Complete?
  }

  /** The required columns the table lacks, in the order of `Required`. */
  function MissingFrom(names: seq<string>, frame: Frame): (m: seq<string>)
  {
    if names == [] then []
    else if names[0] in frame then MissingFrom(names[1..], frame)
    else [names[0]] + MissingFrom(names[1..], frame)
  }

  /** A column read as text: pandas cannot order its values against a number. */
  predicate HasText(cells: seq<Cell>)
  {
    exists i :: 0 <= i < |cells| && cells[i].Str?
  }

  /** The column's numbers, empty cells skipped as pandas' `min` and `max` skip NaN. */
  function Numbers(cells: seq<Cell>): (xs: seq<real>)
  {
    if cells == [] then []
    else
      var rest := Numbers(cells[1..]);
      if cells[0].Num? then [cells[0].x] + rest else rest
  }

  /** `min < lo or max > hi`; a column with no numbers has NaN bounds, which compare false. */
  predicate OutOfRange(cells: seq<Cell>, lo: real, hi: real)
  {
    var xs := Numbers(cells);
    xs != [] && (Min(xs) < lo || Max(xs) > hi)
  }

  /**
   * The range loop: a text column raises at its comparison; otherwise the
   * result lists the columns warned about, in order.
   */
  function Scan(frame: Frame, checks: seq<RangeCheck>): (r: Outcome)
    requires forall i :: 0 <= i < |checks| ==> checks[i].col in frame
    ensures r.CompareError? || r.Complete?
  {
    if checks == [] then Complete([])
    else
      var c := checks[0];
      if HasText(frame[c.col]) then CompareError(c.col)
      else
        match Scan(frame, checks[1..])
        case Complete(ws) => Complete(if OutOfRange(frame[c.col], c.lo, c.hi) then [c.col] + ws else ws)
        case other => other
  }

  /** `validate_csv_file`: `load` is the table `read_csv` returned, `None` when it raised. */
  function Validate(load: Option<Frame>, timestampsParse: seq<Cell> -> bool): (o: Outcome)
    ensures o == ReadError <==> load.None?
    ensures o.Missing? <==> load.Some? && exists c :: c in Required && c !in load.value
    ensures o.Missing? ==> forall c :: c in o.cols <==> c in Required && c !in load.value
    ensures o == BadTimestamps <==>
              load.Some? && (forall c :: c in Required ==> c in load.value) && !timestampsParse(load.value["timestamp"])
    ensures o.CompareError? ==> load.Some? && o.col in load.value && HasText(load.value[o.col])
  {
    if load.None? then ReadError
    else
      var frame := load.value;
      var missing := MissingFrom(Required, frame);
      MissingFromMeaning(Required, frame);
      if missing != [] then Missing(missing)
      else
        RequiredPresent(frame);
        if !timestampsParse(frame["timestamp"]) then BadTimestamps
        else
          ScanCompletes(frame, RangeChecks);
          Scan(frame, RangeChecks)
  }

  /** No missing column means every required one, and so every checked one, is present. */
  lemma RequiredPresent(frame: Frame)
    requires MissingFrom(Required, frame) == []
    ensures forall c :: c in Required ==> c in frame
    ensures forall i :: 0 <= i < |RangeChecks| ==> RangeChecks[i].col in frame
  {
    MissingFromMeaning(Required, frame);
  }

  /** The missing list names exactly the listed columns the table lacks. */
  lemma {:induction false} MissingFromMeaning(names: seq<string>, frame: Frame)
    ensures forall c :: c in MissingFrom(names, frame) <==> c in names && c !in frame
    ensures |MissingFrom(names, frame)| <= |names|
    ensures MissingFrom(names, frame) == [] <==> forall c :: c in names ==> c in frame
  {
    if names != [] {
      MissingFromMeaning(names[1..], frame);
      assert forall c :: c in names <==> c == names[0] || c in names[1..];
    }
  }

  /** The range loop completes exactly when no checked column is text; otherwise it stops at a text column. */
  lemma {:induction false} ScanCompletes(frame: Frame, checks: seq<RangeCheck>)
    requires forall i :: 0 <= i < |checks| ==> checks[i].col in frame
    ensures Scan(frame, checks).Complete? <==> forall i :: 0 <= i < |checks| ==> !HasText(frame[checks[i].col])
    ensures Scan(frame, checks).CompareError? ==> exists i :: 0 <= i < |checks| && checks[i].col == Scan(frame, checks).col && HasText(frame[checks[i].col])
  {
    if checks != [] {
      var rest := checks[1..];
      assert forall i :: 0 <= i < |rest| ==> rest[i] == checks[i + 1];
      ScanCompletes(frame, rest);
      var s := Scan(frame, rest);
      if !HasText(frame[checks[0].col]) && s.CompareError? {
        var i :| 0 <= i < |rest| && rest[i].col == s.col && HasText(frame[rest[i].col]);
        assert checks[i + 1] == rest[i];
      }
    }
  }

  /** When the range loop completes, it has warned about exactly the checked columns out of their range. */
  lemma {:induction false} ScanWarnings(frame: Frame, checks: seq<RangeCheck>, col: string)
    requires forall i :: 0 <= i < |checks| ==> checks[i].col in frame
    requires Scan(frame, checks).Complete?
    ensures col in Scan(frame, checks).warnings <==>
      exists i :: 0 <= i < |checks| && checks[i].col == col && OutOfRange(frame[col], checks[i].lo, checks[i].hi)
  {
    if checks != [] {
      var c, rest := checks[0], checks[1..];
      assert forall i :: 0 <= i < |rest| ==> rest[i] == checks[i + 1];
      var r, s := Scan(frame, checks), Scan(frame, rest);
      assert s.Complete?;
      ScanWarnings(frame, rest, col);
      if exists i :: 0 <= i < |checks| && checks[i].col == col && OutOfRange(frame[col], checks[i].lo, checks[i].hi) {
        var i :| 0 <= i < |checks| && checks[i].col == col && OutOfRange(frame[col], checks[i].lo, checks[i].hi);
        if i > 0 {
          assert rest[i - 1] == checks[i];
        }
      }
      if col in s.warnings {
        var i :| 0 <= i < |rest| && rest[i].col == col && OutOfRange(frame[col], rest[i].lo, rest[i].hi);
        assert checks[i + 1] == rest[i];
      }
    }
  }

  /**
   * The validator returns True exactly when the file loads, no required
   * column is missing, the timestamps parse and no checked column is text.
   */
  lemma ValidIff(load: Option<Frame>, timestampsParse: seq<Cell> -> bool)
    ensures IsValid(Validate(load, timestampsParse)) <==>
      load.Some? &&
      (forall c :: c in Required ==> c in load.value) &&
      timestampsParse(load.value["timestamp"]) &&
      forall i :: 0 <= i < |RangeChecks| ==> !HasText(load.value[RangeChecks[i].col])
  {
    if load.Some? {
      var frame := load.value;
      MissingFromMeaning(Required, frame);
      if forall c :: c in Required ==> c in frame {
        RequiredPresent(frame);
        ScanCompletes(frame, RangeChecks);
      } else {
        var c :| c in Required && c !in frame;
        assert c in MissingFrom(Required, frame);
      }
    }
  }

  /** A missing column is reported with every other missing one, and the result is False. */
  lemma MissingReported(frame: Frame, timestampsParse: seq<Cell> -> bool, c: string)
    requires c in Required && c !in frame
    ensures var o := Validate(Some(frame), timestampsParse);
      o.Missing? && c in o.cols && !IsValid(o) &&
      forall d :: d in o.cols <==> d in Required && d !in frame
  {
    MissingFromMeaning(Required, frame);
  }

  /**
   * Out-of-range values only warn: two tables that differ in nothing but
   * the numbers of the checked columns get the same verdict.
   */
  lemma WarningsDoNotDecide(f: Frame, g: Frame, timestampsParse: seq<Cell> -> bool)
    requires f.Keys == g.Keys && ("timestamp" in f ==> f["timestamp"] == g["timestamp"])
    requires forall i :: 0 <= i < |RangeChecks| && RangeChecks[i].col in f ==> (HasText(f[RangeChecks[i].col]) <==> HasText(g[RangeChecks[i].col]))
    ensures IsValid(Validate(Some(f), timestampsParse)) == IsValid(Validate(Some(g), timestampsParse))
  {
    ValidIff(Some(f), timestampsParse);
    ValidIff(Some(g), timestampsParse);
  }

  /** A valid table is warned about exactly the checked columns with a number outside their range. */
  lemma WarningsMeaning(frame: Frame, timestampsParse: seq<Cell> -> bool, col: string)
    requires IsValid(Validate(Some(frame), timestampsParse))
    requires forall c :: c in Required ==> c in frame
    ensures col in Validate(Some(frame), timestampsParse).warnings <==>
      exists i :: 0 <= i < |RangeChecks| && RangeChecks[i].col == col && OutOfRange(frame[col], RangeChecks[i].lo, RangeChecks[i].hi)
  {
    ValidIff(Some(frame), timestampsParse);
    RequiredPresent(frame);
    ScanWarnings(frame, RangeChecks, col);
  }

  /** The numbers of a column are its numeric cells, in order. */
  lemma {:induction false} NumbersFrom(cells: seq<Cell>, x: real)
    ensures x in Numbers(cells) <==> Num(x) in cells
  {
    if cells != [] {
      NumbersFrom(cells[1..], x);
      assert forall c :: c in cells <==> c == cells[0] || c in cells[1..];
    }
  }

  /** A column whose numbers all lie in [lo, hi] is not warned about. */
  lemma InRangeNotWarned(cells: seq<Cell>, lo: real, hi: real)
    requires forall i :: 0 <= i < |cells| && cells[i].Num? ==> lo <= cells[i].x <= hi
    ensures !OutOfRange(cells, lo, hi)
  {
    var xs := Numbers(cells);
    if xs != [] {
      forall x | x in xs
        ensures lo <= x <= hi
      {
        NumbersFrom(cells, x);
      }
    }
  }

  /** The process exit status. */
  datatype Exit = Exit(code: int)

  /**
   * `main`: `args` is `sys.argv` with the script's name first; `present`
   * answers `os.path.exists` and `read` is `read_csv` on a path.
   */
  function Main(args: seq<string>, present: string -> bool, read: string -> Option<Frame>, timestampsParse: seq<Cell> -> bool): (e: Exit)
    ensures e.code == 0 || e.code == 1
  {
    if |args| != 2 then Exit(1)
    else if !present(args[1]) then Exit(1)
    else if IsValid(Validate(read(args[1]), timestampsParse)) then Exit(0)
    else Exit(1)
  }

  /**
   * The script succeeds exactly when it is given one path, the file exists
   * and it validates: the usage error and the missing file fail before any
   * read.
   */
  lemma MainExit(args: seq<string>, present: string -> bool, read: string -> Option<Frame>, timestampsParse: seq<Cell> -> bool)
    ensures var e := Main(args, present, read, timestampsParse);
      (e.code == 0 <==>
        |args| == 2 && present(args[1]) && read(args[1]).Some? &&
        (forall c :: c in Required ==> c in read(args[1]).value) &&
        timestampsParse(read(args[1]).value["timestamp"]) &&
        forall i :: 0 <= i < |RangeChecks| ==> !HasText(read(args[1]).value[RangeChecks[i].col])) &&
      (|args| != 2 || !present(args[1]) ==> e.code == 1 && Main(args, present, (p: string) => None, timestampsParse) == e)
  {
    if |args| == 2 {
      ValidIff(read(args[1]), timestampsParse);
    }
  }
}
