/** The delivery-time windows the loaders cut the data into, and the redaction
    of the "future" window: half-open spans of instants aligned to a day, to
    a Monday-to-Sunday week (the ISO 8601 week, section 3.2.2 of ISO
    8601:2004) or to a calendar month. */
module Windows {
  import opened Wrappers
  import opened Strings
  import opened Calendar
  import opened Frames
  import ColumnGenerator

  /** The half-open span of instants [lo, hi). */
  datatype Span = Span(lo: int, hi: int)

  /** `(data['delivery_time'] >= lo) & (data['delivery_time'] < hi)`: a row
      whose `delivery_time` is missing (NaT) is in no span. */
  predicate InSpan(r: Row, s: Span)
  {
    DeliveryTime(r).Some? && s.lo <= DeliveryTime(r).value < s.hi
  }

  /** `data['delivery_time'] < hi`, with no lower bound. */
  predicate Before(r: Row, hi: int)
  {
    DeliveryTime(r).Some? && DeliveryTime(r).value < hi
  }

  /** The rows of `f` inside `s`, in their original order, all columns kept. */
  function Window(f: Frame, s: Span): (g: Frame)
    ensures g.columns == f.columns
    ensures IsSubsequence(g.rows, f.rows)
    ensures forall r :: r in g.rows <==> r in f.rows && InSpan(r, s)
    ensures WellFormed(f) ==> WellFormed(g)
  {
    var keep := r => InSpan(r, s);
    FilterIsSubsequence(f.rows, keep);
    Where(f, keep)
  }

  /** The rows of `f` strictly before `hi`, in their original order. */
  function Until(f: Frame, hi: int): (g: Frame)
    ensures g.columns == f.columns
    ensures IsSubsequence(g.rows, f.rows)
    ensures forall r :: r in g.rows <==> r in f.rows && Before(r, hi)
    ensures WellFormed(f) ==> WellFormed(g)
  {
    var keep := r => Before(r, hi);
    FilterIsSubsequence(f.rows, keep);
    Where(f, keep)
  }

  /** Two spans that meet share no row, and together they cover exactly the
      span from the first's start to the second's end. */
  lemma {:induction false} AdjacentWindows(f: Frame, a: int, b: int, c: int)
    requires a <= b <= c
    ensures forall r :: r in Window(f, Span(a, b)).rows ==> r !in Window(f, Span(b, c)).rows
    ensures forall r :: r in Window(f, Span(a, c)).rows <==>
              r in Window(f, Span(a, b)).rows || r in Window(f, Span(b, c)).rows
  {
    var w1, w2, w := Window(f, Span(a, b)), Window(f, Span(b, c)), Window(f, Span(a, c));
    forall r | r in w1.rows ensures r !in w2.rows {
      assert InSpan(r, Span(a, b));
    }
    forall r ensures r in w.rows <==> r in w1.rows || r in w2.rows {
      if r in f.rows && InSpan(r, Span(a, c)) {
        if DeliveryTime(r).value < b { assert InSpan(r, Span(a, b)); } else { assert InSpan(r, Span(b, c)); }
      }
    }
  }

  // ------------------------------------------------------------- redaction

  /** `'_used' in col`. */
  predicate IsUsedColumn(c: string)
  {
    Contains(c, "_used")
  }

  /** `df.drop(columns=[col for col in df.columns if '_used' in col])`: every
      column whose name contains `_used` goes; the other columns, every row and
      every remaining cell stay as they were, in order. */
  function Redact(f: Frame): (g: Frame)
    ensures forall c :: c in g.columns <==> c in f.columns && !Contains(c, "_used")
    ensures |g.rows| == |f.rows|
    ensures forall i :: 0 <= i < |g.rows| ==>
              forall c :: c in g.rows[i] <==> c in f.rows[i] && !Contains(c, "_used")
    ensures forall i, c :: 0 <= i < |g.rows| && c in g.rows[i] ==> g.rows[i][c] == f.rows[i][c]
    ensures WellFormed(f) ==> WellFormed(g)
  {
    DropColumns(f, IsUsedColumn)
  }

  /** The surviving columns keep their relative order. */
  lemma RedactKeepsOrder(f: Frame)
    ensures IsSubsequence(Redact(f).columns, f.columns)
  {
    ColumnsWithoutIsSubsequence(f.columns, IsUsedColumn);
  }

  /** Redacting twice is redacting once. */
  lemma RedactIdempotent(f: Frame)
    ensures Redact(Redact(f)) == Redact(f)
  {
    DropColumnsIdempotent(f, IsUsedColumn);
  }

  lemma UsedAt(prefix: string, suffix: string)
    ensures Contains(prefix + "_used" + suffix, "_used")
  {
    var s := prefix + "_used" + suffix;
    assert s[|prefix|..|prefix| + 5] == "_used";
    ContainsAt(s, "_used", |prefix|);
  }

  /** The key column survives redaction. */
  lemma OrderIdIsKept()
    ensures !IsUsedColumn("order_id")
  {
    NotContainedByFirstChar("order_id", "_used");
  }

  /** All three actuals and all three forecasts contain `_used`, so redaction
      strips the forecasts as well as the actuals. */
  lemma ActualsAndForecastsAreRedacted()
    ensures forall c :: c in ColumnGenerator.Actuals ==> IsUsedColumn(c)
    ensures forall c :: c in ColumnGenerator.Forecasts ==> IsUsedColumn(c)
  {
    UsedAt("bags", "");
    UsedAt("cold_bags", "");
    UsedAt("deep_frozen_bags", "");
    UsedAt("bags", "_forecast");
    UsedAt("cold_bags", "_forecast");
    UsedAt("deep_frozen_bags", "_forecast");
    assert "bags" + "_used" + "" == "bags_used";
    assert "cold_bags" + "_used" + "" == "cold_bags_used";
    assert "deep_frozen_bags" + "_used" + "" == "deep_frozen_bags_used";
    assert "bags" + "_used" + "_forecast" == "bags_used_forecast";
    assert "cold_bags" + "_used" + "_forecast" == "cold_bags_used_forecast";
    assert "deep_frozen_bags" + "_used" + "_forecast" == "deep_frozen_bags_used_forecast";
  }

  /** A redacted frame has no actuals and no forecasts left. */
  lemma RedactedHasNoTargets(f: Frame)
    ensures forall c :: c in Redact(f).columns ==>
              c !in ColumnGenerator.Actuals && c !in ColumnGenerator.Forecasts
  {
    ActualsAndForecastsAreRedacted();
  }

  /** `'_forecast' in col`. */
  predicate IsForecastColumn(c: string)
  {
    Contains(c, "_forecast")
  }

  /** The weekly loader's second drop of `_forecast` columns: on a frame in
      which every `_forecast` name also contains `_used` (as on the table's
      schema), it removes nothing the first drop left. */
  lemma {:induction false} SecondDropIsNoop(f: Frame)
    requires WellFormed(f)
    requires forall c :: c in f.columns && IsForecastColumn(c) ==> IsUsedColumn(c)
    ensures DropColumns(Redact(f), IsForecastColumn) == Redact(f)
  {
    var g := Redact(f);
    assert WellFormed(g);
    forall c | c in g.columns ensures !IsForecastColumn(c) {
      assert c in f.columns && !IsUsedColumn(c);
    }
    ColumnsWithoutUnchanged(g.columns, IsForecastColumn);
    var h := DropColumns(g, IsForecastColumn);
    forall i | 0 <= i < |g.rows| ensures h.rows[i] == g.rows[i] {
      RestrictNothing(g.rows[i], IsForecastColumn);
    }
  }

  lemma RestrictNothing(r: Row, drop: string -> bool)
    requires forall c :: c in r ==> !drop(c)
    ensures RestrictRow(r, drop) == r
  {
  }

  // ------------------------------------------------------------- day spans

  /** 2000-01-01T00:00Z, the default lower bound of the daily loaders. */
  const Epoch2000: int := 946684800

  lemma Epoch2000IsNewYear()
    ensures Epoch2000 == ToInstant(DateTime(2000, 1, 1, 0))
    ensures FromInstant(Epoch2000) == DateTime(2000, 1, 1, 0)
  {
    assert DaysBeforeYear(2000) == 10957;
    FromToInstant(DateTime(2000, 1, 1, 0));
  }

  /** The daily windows: "today" [lower, cursor) and "tomorrow" [cursor,
      cursor + 1 day); they meet at the cursor and tomorrow is one day long. */
  function DaySpans(cursor: int, lower: int): (spans: (Span, Span))
    ensures spans.0 == Span(lower, cursor)
    ensures spans.1.lo == spans.0.hi == cursor
    ensures spans.1.hi - spans.1.lo == SecondsPerDay
  {
    (Span(lower, cursor), Span(cursor, cursor + SecondsPerDay))
  }

  // ------------------------------------------------------------ week spans

  /** The weekly windows around the Monday `s` of the cursor's week (same time
      of day): [s - 7d, s), [s, s + 7d), [s + 7d, s + 14d). Each is exactly one
      week long, each starts on a Monday, and each begins where the previous
      ends; the cursor lies in the middle one. */
  function WeekSpans(cursor: int): (spans: (Span, Span, Span))
    ensures spans.0.hi == spans.1.lo && spans.1.hi == spans.2.lo
    ensures spans.0.hi - spans.0.lo == SecondsPerWeek
    ensures spans.1.hi - spans.1.lo == SecondsPerWeek
    ensures spans.2.hi - spans.2.lo == SecondsPerWeek
    ensures spans.1.lo <= cursor < spans.1.hi
    ensures spans.1.lo == WeekStart(cursor)
    ensures Weekday(spans.0.lo) == 0 && Weekday(spans.1.lo) == 0 && Weekday(spans.2.lo) == 0
  {
    var s := WeekStart(cursor);
    WeekShift(s, -1);
    WeekShift(s, 1);
    (Span(s - SecondsPerWeek, s), Span(s, s + SecondsPerWeek),
     Span(s + SecondsPerWeek, s + 2 * SecondsPerWeek))
  }

  /** Moving by whole weeks keeps the weekday. */
  lemma WeekShift(t: int, k: int)
    ensures Weekday(t + k * SecondsPerWeek) == Weekday(t)
  {
    DayNumberAndSecond(t);
    DayNumberOf(DayNumber(t) + 7 * k, SecondOfDay(t));
    assert t + k * SecondsPerWeek == (DayNumber(t) + 7 * k) * SecondsPerDay + SecondOfDay(t);
  }

  // ----------------------------------------------------------- month spans

  /** The month windows of the monthly loader: day 1 of the month before the
      cursor's, of the cursor's month, of the month after and of the month
      after that, each at the cursor's time of day. */
  datatype MonthBounds = MonthBounds(previous: int, current: int, next: int, nextEnd: int)

  function MonthSpans(cursor: int): (b: MonthBounds)
    ensures var dt := FromInstant(cursor);
            && FromInstant(b.previous).day == 1 && FromInstant(b.previous).second == dt.second
            && FromInstant(b.current).day == 1 && FromInstant(b.current).second == dt.second
            && FromInstant(b.next).day == 1 && FromInstant(b.next).second == dt.second
            && FromInstant(b.nextEnd).day == 1 && FromInstant(b.nextEnd).second == dt.second
  {
    var dt := FromInstant(cursor);
    var next := NextMonth(dt.year, dt.month);
    var previous := PreviousMonth(dt.year, dt.month);
    var after := NextMonth(next.0, next.1);
    FromToInstant(DateTime(previous.0, previous.1, 1, dt.second));
    FromToInstant(DateTime(dt.year, dt.month, 1, dt.second));
    FromToInstant(DateTime(next.0, next.1, 1, dt.second));
    FromToInstant(DateTime(after.0, after.1, 1, dt.second));
    MonthBounds(ToInstant(DateTime(previous.0, previous.1, 1, dt.second)),
                ToInstant(DateTime(dt.year, dt.month, 1, dt.second)),
                ToInstant(DateTime(next.0, next.1, 1, dt.second)),
                ToInstant(DateTime(after.0, after.1, 1, dt.second)))
  }

  /** The bounds are the ones computed with month offsets: the start of the
      current month is `t.replace(day=1)`, the next and previous month starts
      are `(start ± pd.DateOffset(months=1)).replace(day=1)`, and the end of
      the next month is `next + pd.DateOffset(months=1)`. */
  lemma MonthSpansByOffsets(cursor: int)
    ensures var b := MonthSpans(cursor);
            var current := FirstOfMonth(cursor);
            var next := FirstOfMonth(ShiftMonths(current, 1));
            && b.current == current
            && b.next == next
            && b.previous == FirstOfMonth(ShiftMonths(current, -1))
            && b.nextEnd == ShiftMonths(next, 1)
  {
    var dt := FromInstant(cursor);
    CurrentMonthStart(cursor);
    NextMonthStart(dt.year, dt.month, dt.second);
    PreviousMonthStart(dt.year, dt.month, dt.second);
    var next := NextMonth(dt.year, dt.month);
    NextMonthStart(next.0, next.1, dt.second);
  }

  /** The first of a month moved by one month is the first of the next month. */
  lemma FirstShifted(y: int, m: int, s: int, k: int)
    requires 1 <= m <= 12 && 0 <= s < SecondsPerDay && (k == 1 || k == -1)
    ensures var (ny, nm) := if k == 1 then NextMonth(y, m) else PreviousMonth(y, m);
            FromInstant(ShiftMonths(ToInstant(DateTime(y, m, 1, s)), k)) == DateTime(ny, nm, 1, s)
  {
    var dt := DateTime(y, m, 1, s);
    FromToInstant(dt);
    var r := AddMonths(dt, k);
    if k == 1 { AddOneMonth(dt); } else { SubtractOneMonth(dt); }
    FromToInstant(r);
  }

  /** The month window starts: `current` is day 1 of the cursor's month at
      the cursor's time of day and is not after the cursor; `next` is day 1 of
      the following month (December rolls over into January) and is after the
      cursor; `previous` is day 1 of the preceding month; `nextEnd` is day 1
      of the month after `next`. The three spans are contiguous and
      non-empty. */
  lemma MonthSpansAligned(cursor: int)
    ensures var b := MonthSpans(cursor);
            var dt := FromInstant(cursor);
            var (ny, nm) := NextMonth(dt.year, dt.month);
            var (py, pm) := PreviousMonth(dt.year, dt.month);
            && FromInstant(b.current) == DateTime(dt.year, dt.month, 1, dt.second)
            && FromInstant(b.next) == DateTime(ny, nm, 1, dt.second)
            && FromInstant(b.previous) == DateTime(py, pm, 1, dt.second)
            && b.previous < b.current <= cursor < b.next < b.nextEnd
  {
    var dt := FromInstant(cursor);
    CurrentMonthStart(cursor);
    NextMonthStart(dt.year, dt.month, dt.second);
    PreviousMonthStart(dt.year, dt.month, dt.second);
    var next := NextMonth(dt.year, dt.month);
    NextMonthStart(next.0, next.1, dt.second);
  }

  lemma CurrentMonthStart(cursor: int)
    ensures var dt := FromInstant(cursor);
            && FirstOfMonth(cursor) == ToInstant(DateTime(dt.year, dt.month, 1, dt.second))
            && FromInstant(FirstOfMonth(cursor)) == DateTime(dt.year, dt.month, 1, dt.second)
            && FirstOfMonth(cursor) <= cursor < FirstOfMonth(cursor) + DaysInMonth(dt.year, dt.month) * SecondsPerDay
  {
    var dt := FromInstant(cursor);
    FromToInstant(DateTime(dt.year, dt.month, 1, dt.second));
  }

  /** From day 1 of (y, m), the start of the next month is a month-length later. */
  lemma NextMonthStart(y: int, m: int, s: int)
    requires 1 <= m <= 12 && 0 <= s < SecondsPerDay
    ensures var t := ToInstant(DateTime(y, m, 1, s));
            var (ny, nm) := NextMonth(y, m);
            && FirstOfMonth(ShiftMonths(t, 1)) == ToInstant(DateTime(ny, nm, 1, s))
            && FromInstant(ToInstant(DateTime(ny, nm, 1, s))) == DateTime(ny, nm, 1, s)
            && ShiftMonths(t, 1) == ToInstant(DateTime(ny, nm, 1, s))
            && ToInstant(DateTime(ny, nm, 1, s)) == t + DaysInMonth(y, m) * SecondsPerDay
  {
    var (ny, nm) := NextMonth(y, m);
    FirstShifted(y, m, s, 1);
    FromToInstant(DateTime(ny, nm, 1, s));
    MonthLength(y, m, s);
  }

  lemma PreviousMonthStart(y: int, m: int, s: int)
    requires 1 <= m <= 12 && 0 <= s < SecondsPerDay
    ensures var t := ToInstant(DateTime(y, m, 1, s));
            var (py, pm) := PreviousMonth(y, m);
            && FirstOfMonth(ShiftMonths(t, -1)) == ToInstant(DateTime(py, pm, 1, s))
            && FromInstant(ToInstant(DateTime(py, pm, 1, s))) == DateTime(py, pm, 1, s)
            && ToInstant(DateTime(py, pm, 1, s)) < t
  {
    var (py, pm) := PreviousMonth(y, m);
    FirstShifted(y, m, s, -1);
    FromToInstant(DateTime(py, pm, 1, s));
    PreviousMonthEarlier(y, m, s);
  }

  lemma PreviousMonthEarlier(y: int, m: int, s: int)
    requires 1 <= m <= 12 && 0 <= s < SecondsPerDay
    ensures var (py, pm) := PreviousMonth(y, m);
            ToInstant(DateTime(py, pm, 1, s)) < ToInstant(DateTime(y, m, 1, s))
  {
    var (py, pm) := PreviousMonth(y, m);
    assert NextMonth(py, pm) == (y, m);
    MonthLength(py, pm, s);
  }

  /** `(current + pd.DateOffset(months=1)).replace(day=1)`: the new cursor of
      the monthly loader is the start of the next month window, at the
      cursor's time of day, and so strictly later than the cursor. */
  lemma {:induction false} NextMonthCursor(cursor: int)
    ensures FirstOfMonth(ShiftMonths(cursor, 1)) == MonthSpans(cursor).next
    ensures FirstOfMonth(ShiftMonths(cursor, 1)) > cursor
  {
    MonthSpansAligned(cursor);
    var dt := FromInstant(cursor);
    var r := AddMonths(dt, 1);
    AddOneMonth(dt);
    FromToInstant(r);
    var (ny, nm) := NextMonth(dt.year, dt.month);
    assert FromInstant(ShiftMonths(cursor, 1)).(day := 1) == DateTime(ny, nm, 1, dt.second);
    FromToInstant(DateTime(ny, nm, 1, dt.second));
  }
}
