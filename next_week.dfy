/** The weekly PostgreSQL loader: on an empty table it loads every order
    delivered before the Monday of the cursor's week; otherwise it loads the
    previous and the current week with their actuals and the next week without
    actuals or forecasts, and then moves the cursor one week on. Rows are
    loaded as they come, repeated `order_id`s included. */
module NextWeek {
  import opened Wrappers
  import opened Calendar
  import opened Frames
  import opened Windows
  import opened SqlStore
  import opened Cursor

  /** The three windows `filter_data(data, current_date)` selects: the
      previous, current and next week around the Monday of the cursor's week; the next week loses its
      `_used` columns and then its `_forecast` columns. */
  function WeekWindows(data: Frame, cursor: int): (out: (Frame, Frame, Frame))
    ensures out.0.columns == data.columns && out.1.columns == data.columns
    ensures forall r :: r in out.0.rows <==> r in data.rows && InSpan(r, WeekSpans(cursor).0)
    ensures forall r :: r in out.1.rows <==> r in data.rows && InSpan(r, WeekSpans(cursor).1)
    ensures forall c :: c in out.2.columns <==> c in data.columns && !IsUsedColumn(c) && !IsForecastColumn(c)
    ensures forall c :: c in out.2.columns ==> !IsActual(c)
  {
    var spans := WeekSpans(cursor);
    var next := Redact(Window(data, spans.2));
    RedactedHasNoTargets(Window(data, spans.2));
    (Window(data, spans.0), Window(data, spans.1), DropColumns(next, IsForecastColumn))
  }

  /** The rows `filter_all_previous_weeks` selects: every row delivered
      before the Monday of the cursor's week, whatever how long before. */
  function PreviousWeeks(data: Frame, cursor: int): (out: Frame)
    ensures out.columns == data.columns
    ensures forall r :: r in out.rows <==> r in data.rows && Before(r, WeekStart(cursor))
    ensures forall r :: r in out.rows ==> DeliveryTime(r).Some? && DeliveryTime(r).value < cursor
  {
    Until(data, WeekStart(cursor))
  }

  /** `filter_data(data, current_date)`: reading the `delivery_time` column
      raises `KeyError` when the frame has none; otherwise the three windows
      of `WeekWindows`. */
  function FilterData(data: Frame, cursor: int): (r: Result<(Frame, Frame, Frame), FrameError>)
    ensures r.Err? <==> "delivery_time" !in data.columns
    ensures r.Err? ==> r.error == MissingColumn("delivery_time")
    ensures r.Ok? ==> r.value == WeekWindows(data, cursor)
  {
    if "delivery_time" !in data.columns then Err(MissingColumn("delivery_time"))
    else Ok(WeekWindows(data, cursor))
  }

  /** `filter_all_previous_weeks(data, current_date)`: `KeyError` when the
      frame has no `delivery_time` column, otherwise the rows of
      `PreviousWeeks`. */
  function FilterAllPreviousWeeks(data: Frame, cursor: int): (r: Result<Frame, FrameError>)
    ensures r.Err? <==> "delivery_time" !in data.columns
    ensures r.Err? ==> r.error == MissingColumn("delivery_time")
    ensures r.Ok? ==> r.value == PreviousWeeks(data, cursor)
  {
    if "delivery_time" !in data.columns then Err(MissingColumn("delivery_time"))
    else Ok(PreviousWeeks(data, cursor))
  }

  /** The loads one run performs, in order, on a frame with a `delivery_time`
      column. */
  function PlannedLoads(data: Frame, cursor: int, empty: bool): (loads: seq<Frame>)
    ensures |loads| == if empty then 1 else 3
    ensures loads[0].columns == data.columns
    ensures empty ==> forall r :: r in loads[0].rows <==> r in data.rows && Before(r, WeekStart(cursor))
    ensures !empty ==> forall c :: c in loads[2].columns ==> !IsActual(c)
  {
    if empty then [PreviousWeeks(data, cursor)]
    else
      var out := WeekWindows(data, cursor);
      [out.0, out.1, out.2]
  }

  /** `update_config_date`: the cursor moves one week on, keeping its weekday
      and time of day. */
  method UpdateConfigDate(config: Config)
    modifies config
    ensures config.currentDate == old(config.currentDate) + SecondsPerWeek
    ensures Weekday(config.currentDate) == Weekday(old(config.currentDate))
  {
    WeekShift(config.currentDate, 1);
    config.currentDate := config.currentDate + SecondsPerWeek;
  }

  /** The branch of `main` on the table's emptiness: on an empty table every
      week before the cursor's, otherwise the previous, the current and the
      next week, each committed on its own and stopping at the first failing
      load. A frame without `delivery_time` stops it before any statement. */
  method LoadWeeks(table: SqlTable, data: Frame, cursor: int) returns (r: Result<(), LoadError>)
    requires table.Valid()
    modifies table
    ensures table.Valid()
    ensures "delivery_time" !in data.columns ==>
              r == Err(Pandas(MissingColumn("delivery_time"))) && table.rows == old(table.rows)
    ensures "delivery_time" in data.columns ==>
              (r.Ok?, table.rows) == RunLoads(old(table.rows), table.schema, PlannedLoads(data, cursor, old(table.IsEmpty())))
  {
    var loaded: Result<(), SqlError>;
    if table.IsEmpty() {
      var previousWeeks := FilterAllPreviousWeeks(data, cursor);
      if previousWeeks.Err? {
        return Err(Pandas(previousWeeks.error));
      }
      RunLoadsCons(table.rows, table.schema, previousWeeks.value, []);
      assert [previousWeeks.value] + [] == PlannedLoads(data, cursor, true);
      loaded := table.Load(previousWeeks.value);
    } else {
      var windows := FilterData(data, cursor);
      if windows.Err? {
        return Err(Pandas(windows.error));
      }
      var previous, current, next := windows.value.0, windows.value.1, windows.value.2;
      assert [previous, current, next] == PlannedLoads(data, cursor, false);
      loaded := LoadThreeWeeks(table, previous, current, next);
    }
    r := if loaded.Ok? then Ok(()) else Err(Database(loaded.error));
  }

  /** The incremental branch: the previous, the current and the next week. */
  method LoadThreeWeeks(table: SqlTable, previous: Frame, current: Frame, next: Frame) returns (r: Result<(), SqlError>)
    requires table.Valid()
    modifies table
    ensures table.Valid()
    ensures (r.Ok?, table.rows) == RunLoads(old(table.rows), table.schema, [previous, current, next])
  {
    RunLoadsCons(table.rows, table.schema, previous, [current, next]);
    assert [previous] + [current, next] == [previous, current, next];
    r := table.Load(previous);
    if r.Ok? {
      RunLoadsCons(table.rows, table.schema, current, [next]);
      assert [current] + [next] == [current, next];
      r := table.Load(current);
      if r.Ok? {
        RunLoadsCons(table.rows, table.schema, next, []);
        assert [next] + [] == [next];
        r := table.Load(next);
      }
    }
  }

  /** `main`: the loads of `PlannedLoads`; the cursor is saved only when
      every load succeeded, so a frame without `delivery_time` (on which
      `load_data` already raises) leaves the table and the cursor as they
      were. */
  method Run(table: SqlTable, config: Config, data: Frame) returns (r: Result<(), LoadError>)
    requires table.Valid()
    modifies table, config
    ensures table.Valid()
    ensures "delivery_time" !in data.columns ==>
              r == Err(Pandas(MissingColumn("delivery_time"))) && table.rows == old(table.rows)
    ensures "delivery_time" in data.columns ==>
            (r.Ok?, table.rows) ==
            RunLoads(old(table.rows), table.schema, PlannedLoads(data, old(config.currentDate), old(table.IsEmpty())))
    ensures config.currentDate == if r.Ok? then old(config.currentDate) + SecondsPerWeek else old(config.currentDate)
  {
    var cursor := config.currentDate;
    r := LoadWeeks(table, data, cursor);
    assert config.currentDate == cursor;
    if r.Ok? {
      UpdateConfigDate(config);
    }
  }

  // ------------------------------------------------------------ properties

  /** After the first run on an empty table, the stored orders are exactly
      those delivered before the Monday of the cursor's week. */
  lemma BootstrapKeys(schema: seq<string>, data: Frame, cursor: int)
    requires RunLoads(map[], schema, PlannedLoads(data, cursor, true)).0
    ensures var s := RunLoads(map[], schema, PlannedLoads(data, cursor, true)).1;
            forall k :: k in s <==>
              exists r :: r in data.rows && Before(r, WeekStart(cursor)) && KeyOf(data.columns, r) == Ok(k)
  {
    var loads := PlannedLoads(data, cursor, true);
    var w := PreviousWeeks(data, cursor);
    RunLoadsCons(map[], schema, w, []);
    assert loads == [w] + [];
    UpsertAllResult(map[], schema, w.columns, w.rows);
    var s := RunLoads(map[], schema, loads).1;
    assert s == UpsertAll(map[], schema, w.columns, w.rows).value;
    forall k ensures k in s <==> exists r :: r in data.rows && Before(r, WeekStart(cursor)) && KeyOf(data.columns, r) == Ok(k) {
      BatchKeysOfRows(w.columns, w.rows, k);
    }
  }

  /** After an incremental run, every order of the next week is stored with
      NULL actuals. */
  lemma NextWeekHasNoActuals(store: Store, schema: seq<string>, data: Frame, cursor: int)
    requires ValidStore(schema, store)
    requires RunLoads(store, schema, PlannedLoads(data, cursor, false)).0
    ensures var next := PlannedLoads(data, cursor, false)[2];
            ActualsNull(RunLoads(store, schema, PlannedLoads(data, cursor, false)).1, schema, BatchKeys(next.columns, next.rows))
  {
    var loads := PlannedLoads(data, cursor, false);
    LastLoadOmitsActuals(store, schema, loads);
    assert loads[2] == loads[|loads| - 1];
  }

  /** The three weekly windows are back to back and cover the fortnight
      around the cursor's week: no row is loaded twice in one run. */
  lemma WeeksPartition(data: Frame, cursor: int)
    ensures var (p, c, n) := WeekSpans(cursor);
            && (forall r :: r in Window(data, p).rows ==> r !in Window(data, c).rows)
            && (forall r :: r in Window(data, c).rows ==> r !in Window(data, n).rows)
            && forall r :: r in data.rows && InSpan(r, Span(p.lo, n.hi)) <==>
                 r in Window(data, p).rows || r in Window(data, c).rows || r in Window(data, n).rows
  {
    var (p, c, n) := WeekSpans(cursor);
    AdjacentWindows(data, p.lo, c.lo, c.hi);
    AdjacentWindows(data, p.lo, n.lo, n.hi);
  }

  /** Moving the cursor by a week moves every window by a week: the next
      run's previous week is this run's current week, and its current week is
      this run's next week. */
  lemma WindowsAdvance(cursor: int)
    ensures WeekSpans(cursor + SecondsPerWeek).0 == WeekSpans(cursor).1
    ensures WeekSpans(cursor + SecondsPerWeek).1 == WeekSpans(cursor).2
  {
    WeekShift(cursor, 1);
    assert WeekStart(cursor + SecondsPerWeek) == WeekStart(cursor) + SecondsPerWeek;
  }
}
