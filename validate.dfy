/** The validation step of the `steps` pipeline: the forecast columns are
    dropped, the orders are split into a reference period
    (2022-01-01 < delivery_time < 2022-02-20) and a current period
    (delivery_time >= 2022-02-20), and the numeric columns of both, without
    rows holding a missing value, are what the drift report compares. */
module Validate {
  import opened Wrappers
  import opened Frames
  import Strings
  import Calendar
  import ColumnGenerator

  // ------------------------------------------------ remove_forecast_columns

  /** `data.filter(regex='_forecast$')` selects the column. */
  predicate IsForecastColumn(c: string)
  {
    Strings.EndsWith(c, "_forecast")
  }

  /** `remove_forecast_columns`: the frame without the columns whose name
      ends in `_forecast`; the others keep their order and their cells. */
  function RemoveForecastColumns(data: Frame): (g: Frame)
    ensures forall c :: c in g.columns <==> c in data.columns && !IsForecastColumn(c)
    ensures IsSubsequence(g.columns, data.columns)
    ensures |g.rows| == |data.rows|
    ensures forall i, c :: 0 <= i < |data.rows| ==>
              && (c in g.rows[i] <==> c in data.rows[i] && !IsForecastColumn(c))
              && (c in g.rows[i] ==> g.rows[i][c] == data.rows[i][c])
  {
    ColumnsWithoutIsSubsequence(data.columns, IsForecastColumn);
    DropColumns(data, IsForecastColumn)
  }

  lemma RemoveForecastColumnsIdempotent(data: Frame)
    ensures RemoveForecastColumns(RemoveForecastColumns(data)) == RemoveForecastColumns(data)
  {
    DropColumnsIdempotent(data, IsForecastColumn);
  }

  /** The three forecast columns of the table go; the three actuals they
      forecast stay. */
  lemma ActualsSurvive(data: Frame)
    ensures forall c :: c in ColumnGenerator.Actuals && c in data.columns ==> c in RemoveForecastColumns(data).columns
    ensures forall c :: c in ColumnGenerator.Forecasts ==> c !in RemoveForecastColumns(data).columns
  {
    forall j | 0 <= j < 3 ensures !IsForecastColumn(ColumnGenerator.Actuals[j]) {
      ActualIsNoForecast(j);
    }
    forall j | 0 <= j < 3 ensures IsForecastColumn(ColumnGenerator.Forecasts[j]) {
      ForecastIsForecast(j);
    }
  }

  lemma ForecastIsForecast(j: int)
    requires 0 <= j < 3
    ensures IsForecastColumn(ColumnGenerator.Forecasts[j])
  {
    var a := ColumnGenerator.Actuals[j];
    assert ColumnGenerator.Forecasts[j] == a + "_forecast";
    ForecastSuffix(a);
  }

  /** Any name followed by `_forecast` is a forecast column. */
  lemma ForecastSuffix(a: string)
    ensures IsForecastColumn(a + "_forecast")
  {
    var f := a + "_forecast";
    assert f[|f| - 9..] == "_forecast";
  }

  lemma ActualIsNoForecast(j: int)
    requires 0 <= j < 3
    ensures !IsForecastColumn(ColumnGenerator.Actuals[j])
  {
    var a := ColumnGenerator.Actuals[j];
    if |a| >= 9 {
      assert a[|a| - 9..][0] == a[|a| - 9] != '_';
    }
  }

  // ---------------------------------------------------------------- the split

  /** 2022-01-01T00:00:00 and 2022-02-20T00:00:00 in the frame's time zone,
      UTC, as seconds since 1970-01-01T00:00Z. */
  const ReferenceStart: int := 1640995200
  const ReferenceEnd: int := 1645315200

  lemma SplitDates()
    ensures ReferenceStart == Calendar.ToInstant(Calendar.DateTime(2022, 1, 1, 0))
    ensures ReferenceEnd == Calendar.ToInstant(Calendar.DateTime(2022, 2, 20, 0))
  {
    assert Calendar.DaysBeforeYear(2022) == 18993;
    assert Calendar.DaysBeforeMonth(2022, 2) == 31;
  }

  /** Both bounds strict; NaT compares false. */
  predicate InReference(r: Row)
  {
    DeliveryTime(r).Some? && ReferenceStart < DeliveryTime(r).value < ReferenceEnd
  }

  predicate InCurrent(r: Row)
  {
    DeliveryTime(r).Some? && DeliveryTime(r).value >= ReferenceEnd
  }

  predicate InNeither(r: Row)
  {
    !InReference(r) && !InCurrent(r)
  }

  /** The periods are disjoint, and an order delivered at or before the
      start of the reference period, or without a delivery time, is in
      neither. */
  lemma PeriodsDisjoint(r: Row)
    ensures !(InReference(r) && InCurrent(r))
    ensures InNeither(r) <==> DeliveryTime(r).None? || DeliveryTime(r).value <= ReferenceStart
  {
  }

  /** Every order is counted once: in the reference period, in the current
      one, or in neither. */
  lemma {:induction false} SplitCounts(rows: seq<Row>)
    ensures |FilterRows(rows, InReference)| + |FilterRows(rows, InCurrent)| + |FilterRows(rows, InNeither)| == |rows|
  {
    if rows != [] {
      SplitCounts(rows[1..]);
    }
  }

  // ------------------------------------------------------------- numeric part

  /** `select_dtypes(include=[np.number])`: the columns whose dtype
      `isNumeric` accepts, in frame order. */
  function NumericColumns(f: Frame, isNumeric: string -> bool): (num: seq<string>)
    ensures forall c :: c in num <==> c in f.columns && isNumeric(c)
    ensures IsSubsequence(num, f.columns)
  {
    ColumnsWithoutIsSubsequence(f.columns, c => !isNumeric(c));
    ColumnsWithout(f.columns, c => !isNumeric(c))
  }

  predicate Complete(r: Row, cols: seq<string>)
  {
    forall c :: c in cols ==> !IsNa(Cell(r, c))
  }

  /** `df[cols].dropna()`. */
  function DropNa(f: Frame): (g: Frame)
    ensures g.columns == f.columns
    ensures forall r :: r in g.rows <==> r in f.rows && Complete(r, f.columns)
    ensures IsSubsequence(g.rows, f.rows)
  {
    FilterIsSubsequence(f.rows, r => Complete(r, f.columns));
    Frame(f.columns, FilterRows(f.rows, r => Complete(r, f.columns)))
  }

  /** One period restricted to the numeric columns, without incomplete rows. */
  function NumericPart(period: Frame, num: seq<string>): (g: Frame)
    ensures g.columns == num && NoMissing(g)
  {
    var g := DropNa(Frame(num, ProjectRows(period.rows, num)));
    assert NoMissing(g) by {
      forall i, c | 0 <= i < |g.rows| && c in g.rows[i] ensures !IsNa(g.rows[i][c]) {
        assert g.rows[i] in g.rows;
        assert Cell(g.rows[i], c) == g.rows[i][c];
      }
    }
    g
  }

  lemma ProjectKeepsCompleteness(r: Row, num: seq<string>)
    ensures Complete(ProjectRow(r, num), num) <==> Complete(r, num)
  {
    forall c | c in num ensures Cell(ProjectRow(r, num), c) == Cell(r, c) {
    }
  }

  /** The rows of that part are the projections of the period's complete
      rows, and there is one for each. */
  lemma NumericPartRows(period: Frame, num: seq<string>)
    ensures |NumericPart(period, num).rows| > 0 <==> exists r :: r in period.rows && Complete(r, num)
    ensures forall p :: p in NumericPart(period, num).rows ==>
              exists r :: r in period.rows && Complete(r, num) && p == ProjectRow(r, num)
  {
    var projected := Frame(num, ProjectRows(period.rows, num));
    var g := NumericPart(period, num);
    assert g == DropNa(projected);
    forall r | r in period.rows && Complete(r, num) ensures ProjectRow(r, num) in g.rows {
      var i :| 0 <= i < |period.rows| && period.rows[i] == r;
      assert projected.rows[i] == ProjectRow(r, num);
      ProjectKeepsCompleteness(r, num);
    }
    forall p | p in g.rows ensures exists r :: r in period.rows && Complete(r, num) && p == ProjectRow(r, num) {
      var i :| 0 <= i < |projected.rows| && projected.rows[i] == p;
      assert period.rows[i] in period.rows;
      ProjectKeepsCompleteness(period.rows[i], num);
    }
    if |g.rows| > 0 {
      assert g.rows[0] in g.rows;
    }
  }

  // --------------------------------------------------------------------- run

  datatype ValidateError =
    | FrameFailure(FrameError)   // KeyError: no `delivery_time` column
    | NoRows                     // IndexError on `iloc[0]`
    | EmptyReference             // ValueError: nothing in the reference period
    | EmptyCurrent               // ValueError: nothing in the current period
    | NoCompleteRows             // ValueError: no numeric column, or a period has no complete numeric row

  /** The two frames the drift report compares. */
  datatype DriftInput = DriftInput(reference: Frame, current: Frame)

  /** `run` up to the report: the time zone comes from the first delivery
      time, which must be an instant for the comparisons to be possible;
      the numeric columns are those of the reference period. A part with no
      numeric column has a zero-length axis, which pandas counts as empty,
      so it fails like a part without complete rows. */
  function Run(df: Frame, isNumeric: string -> bool): (r: Result<DriftInput, ValidateError>)
    ensures "delivery_time" !in df.columns ==> r == Err(FrameFailure(MissingColumn("delivery_time")))
    ensures "delivery_time" in df.columns && df.rows == [] ==> r == Err(NoRows)
    ensures r.Ok? <==>
              && "delivery_time" in df.columns && df.rows != [] && DeliveryTime(df.rows[0]).Some?
              && NumericColumns(df, isNumeric) != []
              && (exists row :: row in df.rows && InReference(row))
              && (exists row :: row in df.rows && InCurrent(row))
              && (exists row :: row in df.rows && InReference(row) && Complete(row, NumericColumns(df, isNumeric)))
              && (exists row :: row in df.rows && InCurrent(row) && Complete(row, NumericColumns(df, isNumeric)))
    ensures r.Ok? ==>
              var num := NumericColumns(df, isNumeric);
              && r.value.reference == NumericPart(Where(df, InReference), num)
              && r.value.current == NumericPart(Where(df, InCurrent), num)
  {
    if "delivery_time" !in df.columns then Err(FrameFailure(MissingColumn("delivery_time")))
    else if df.rows == [] then Err(NoRows)
    else if DeliveryTime(df.rows[0]).None? then Err(FrameFailure(BadTimestamp(Cell(df.rows[0], "delivery_time"))))
    else
      var reference := Where(df, InReference);
      var current := Where(df, InCurrent);
      if reference.rows == [] then Err(EmptyReference)
      else if current.rows == [] then Err(EmptyCurrent)
      else
        var num := NumericColumns(reference, isNumeric);
        var ref := NumericPart(reference, num);
        var cur := NumericPart(current, num);
        NumericPartRows(reference, num);
        NumericPartRows(current, num);
        if num == [] || ref.rows == [] || cur.rows == [] then Err(NoCompleteRows)
        else Ok(DriftInput(ref, cur))
  }

  /** Every order compared as reference data lies strictly inside the
      reference period, every current one at or after its end, and no
      compared row has a missing value. */
  lemma {:induction false} RunPeriods(df: Frame, isNumeric: string -> bool)
    requires Run(df, isNumeric).Ok?
    ensures var out, num := Run(df, isNumeric).value, NumericColumns(df, isNumeric);
            && out.reference.columns == num && out.current.columns == num
            && NoMissing(out.reference) && NoMissing(out.current)
            && (forall p :: p in out.reference.rows ==> exists r :: r in df.rows && InReference(r) && p == ProjectRow(r, num))
            && (forall p :: p in out.current.rows ==> exists r :: r in df.rows && InCurrent(r) && p == ProjectRow(r, num))
  {
    var num := NumericColumns(df, isNumeric);
    NumericPartRows(Where(df, InReference), num);
    NumericPartRows(Where(df, InCurrent), num);
  }

  /** `main` without the file I/O: drop the forecasts, then split. */
  function ValidateData(data: Frame, isNumeric: string -> bool): (r: Result<DriftInput, ValidateError>)
    ensures r.Ok? ==> forall c :: c in r.value.reference.columns ==> !IsForecastColumn(c)
  {
    Run(RemoveForecastColumns(data), isNumeric)
  }
}
