/** The monthly PostgreSQL loader: on an empty table it loads the previous
    and the current calendar month of the cursor with their actuals;
    otherwise it also loads the next month without its `_used` columns. The
    cursor then moves to the first of the next month. Each load drops repeated
    `order_id`s first. */
module NextMonth {
  import opened Wrappers
  import opened Calendar
  import opened Frames
  import opened Windows
  import opened SqlStore
  import opened Cursor

  /** The three windows `filter_data(data, current_date)` selects, with the
      month starts of the cursor already computed (see `MonthSpans`): the
      previous, current and next
      calendar month, each from day 1 at the cursor's time of day; the next
      month loses its `_used` columns. */
  function MonthWindows(data: Frame, b: MonthBounds): (out: (Frame, Frame, Frame))
    ensures out.0.columns == data.columns && out.1.columns == data.columns
    ensures forall r :: r in out.0.rows <==> r in data.rows && InSpan(r, Span(b.previous, b.current))
    ensures forall r :: r in out.1.rows <==> r in data.rows && InSpan(r, Span(b.current, b.next))
    ensures forall c :: c in out.2.columns <==> c in data.columns && !IsUsedColumn(c)
    ensures forall c :: c in out.2.columns ==> !IsActual(c)
  {
    RedactedHasNoTargets(Window(data, Span(b.next, b.nextEnd)));
    (Window(data, Span(b.previous, b.current)), Window(data, Span(b.current, b.next)),
     Redact(Window(data, Span(b.next, b.nextEnd))))
  }

  /** `filter_data(data, current_date)`: converting the `delivery_time`
      column raises `KeyError` when the frame has none; otherwise the three
      windows of `MonthWindows`. */
  function FilterData(data: Frame, b: MonthBounds): (r: Result<(Frame, Frame, Frame), FrameError>)
    ensures r.Err? <==> "delivery_time" !in data.columns
    ensures r.Err? ==> r.error == MissingColumn("delivery_time")
    ensures r.Ok? ==> r.value == MonthWindows(data, b)
  {
    if "delivery_time" !in data.columns then Err(MissingColumn("delivery_time"))
    else Ok(MonthWindows(data, b))
  }

  /** The loads one run performs, in order, for the month starts `b`, on a
      frame with both a `delivery_time` and an `order_id` column. */
  function MonthLoads(data: Frame, b: MonthBounds, empty: bool): (loads: seq<Frame>)
    ensures |loads| == if empty then 2 else 3
    ensures loads[0].columns == data.columns && loads[1].columns == data.columns
    ensures forall r :: r in loads[0].rows ==> r in data.rows && InSpan(r, Span(b.previous, b.current))
    ensures forall r :: r in loads[1].rows ==> r in data.rows && InSpan(r, Span(b.current, b.next))
    ensures !empty ==> forall c :: c in loads[2].columns ==> !IsActual(c)
  {
    var out := MonthWindows(data, b);
    if empty then [Deduplicated(out.0), Deduplicated(out.1)]
    else [Deduplicated(out.0), Deduplicated(out.1), Deduplicated(out.2)]
  }

  /** `load_to_postgres`: the frame, without repeated `order_id`s (the first
      row of each wins), upserted row by row in one transaction; a frame
      without an `order_id` column fails in `drop_duplicates` before any
      statement. */
  method LoadToPostgres(table: SqlTable, data: Frame) returns (r: Result<(), LoadError>)
    requires table.Valid()
    modifies table
    ensures table.Valid()
    ensures "order_id" !in data.columns ==>
              r == Err(Pandas(MissingColumn("order_id"))) && table.rows == old(table.rows)
    ensures "order_id" in data.columns ==> (r.Ok? <==> BatchOk(table.schema, data.columns, Dedup(data.rows)))
    ensures r.Ok? ==> UpsertAll(old(table.rows), table.schema, data.columns, Dedup(data.rows)) == Ok(table.rows)
    ensures r.Err? && "order_id" in data.columns ==>
              && table.rows == old(table.rows) && r.error.Database?
              && UpsertAll(old(table.rows), table.schema, data.columns, Dedup(data.rows)) == Err(r.error.sql)
  {
    var deduplicated := RemoveDuplicates(data);
    if deduplicated.Err? {
      return Err(Pandas(deduplicated.error));
    }
    var loaded := table.Load(deduplicated.value);
    r := if loaded.Ok? then Ok(()) else Err(Database(loaded.error));
  }

  /** `update_config_date`: the cursor moves to day 1 of the next month, at
      its time of day: the start of this run's next-month window. */
  method UpdateConfigDate(config: Config)
    modifies config
    ensures config.currentDate == MonthSpans(old(config.currentDate)).next
    ensures config.currentDate > old(config.currentDate)
  {
    NextMonthCursor(config.currentDate);
    config.currentDate := FirstOfMonth(ShiftMonths(config.currentDate, 1));
  }

  /** The branch of `main` on the table's emptiness: the previous and the
      current month, and on a non-empty table the next month too, each
      committed on its own and stopping at the first failing load. A frame
      without `delivery_time` or `order_id` stops it before any statement. */
  method LoadMonths(table: SqlTable, data: Frame, b: MonthBounds) returns (r: Result<(), LoadError>)
    requires table.Valid()
    modifies table
    ensures table.Valid()
    ensures "delivery_time" !in data.columns ==>
              r == Err(Pandas(MissingColumn("delivery_time"))) && table.rows == old(table.rows)
    ensures "delivery_time" in data.columns && "order_id" !in data.columns ==>
              r == Err(Pandas(MissingColumn("order_id"))) && table.rows == old(table.rows)
    ensures "delivery_time" in data.columns && "order_id" in data.columns ==>
              (r.Ok?, table.rows) == RunLoads(old(table.rows), table.schema, MonthLoads(data, b, old(table.IsEmpty())))
  {
    var windows := FilterData(data, b);
    if windows.Err? {
      return Err(Pandas(windows.error));
    }
    var previous, current, next := windows.value.0, windows.value.1, windows.value.2;
    OrderIdIsKept();
    if table.IsEmpty() {
      assert [Deduplicated(previous), Deduplicated(current)] == MonthLoads(data, b, true);
      r := LoadTwo(table, previous, current);
    } else {
      assert [Deduplicated(previous), Deduplicated(current), Deduplicated(next)]
             == MonthLoads(data, b, false);
      RunLoadsCons(table.rows, table.schema, Deduplicated(previous),
                   [Deduplicated(current), Deduplicated(next)]);
      r := LoadToPostgres(table, previous);
      if r.Ok? {
        r := LoadTwo(table, current, next);
      }
    }
  }

  /** Two loads in a row, the second only when the first succeeded. */
  method LoadTwo(table: SqlTable, first: Frame, second: Frame) returns (r: Result<(), LoadError>)
    requires table.Valid()
    modifies table
    ensures table.Valid()
    ensures "order_id" !in first.columns ==>
              r == Err(Pandas(MissingColumn("order_id"))) && table.rows == old(table.rows)
    ensures "order_id" in first.columns && "order_id" in second.columns ==>
              (r.Ok?, table.rows) == RunLoads(old(table.rows), table.schema, [Deduplicated(first), Deduplicated(second)])
  {
    RunLoadsCons(table.rows, table.schema, Deduplicated(first), [Deduplicated(second)]);
    r := LoadToPostgres(table, first);
    if r.Ok? {
      RunLoadsCons(table.rows, table.schema, Deduplicated(second), []);
      assert [Deduplicated(second)] + [] == [Deduplicated(second)];
      r := LoadToPostgres(table, second);
    }
  }

  /** `main`: the loads of `MonthLoads` for the cursor's months; the cursor
      is saved only when every load succeeded, so a frame pandas rejects
      leaves both the table and the cursor as they were. */
  method Run(table: SqlTable, config: Config, data: Frame) returns (r: Result<(), LoadError>)
    requires table.Valid()
    modifies table, config
    ensures table.Valid()
    ensures "delivery_time" !in data.columns ==>
              r == Err(Pandas(MissingColumn("delivery_time"))) && table.rows == old(table.rows)
    ensures "delivery_time" in data.columns && "order_id" !in data.columns ==>
              r == Err(Pandas(MissingColumn("order_id"))) && table.rows == old(table.rows)
    ensures "delivery_time" in data.columns && "order_id" in data.columns ==>
            (r.Ok?, table.rows) ==
            RunLoads(old(table.rows), table.schema, MonthLoads(data, MonthSpans(old(config.currentDate)), old(table.IsEmpty())))
    ensures config.currentDate == if r.Ok? then MonthSpans(old(config.currentDate)).next else old(config.currentDate)
  {
    var cursor := config.currentDate;
    var b := MonthSpans(cursor);
    r := LoadMonths(table, data, b);
    assert config.currentDate == cursor;
    if r.Ok? {
      UpdateConfigDate(config);
    }
  }

  // ------------------------------------------------------------ properties

  /** After the first run on an empty table, every stored order was
      delivered in the previous or the current month of the cursor: the
      monthly bootstrap does not load older history. */
  lemma BootstrapSpansTwoMonths(schema: seq<string>, data: Frame, b: MonthBounds)
    requires b.previous <= b.current <= b.next
    ensures var s := RunLoads(map[], schema, MonthLoads(data, b, true)).1;
            forall k :: k in s ==> exists r :: r in data.rows && InSpan(r, Span(b.previous, b.next)) &&
                                           KeyOf(data.columns, r) == Ok(k)
  {
    var loads := MonthLoads(data, b, true);
    RunLoadsKeys(map[], schema, loads);
    forall k | k in RunLoads(map[], schema, loads).1
      ensures exists r :: r in data.rows && InSpan(r, Span(b.previous, b.next)) && KeyOf(data.columns, r) == Ok(k)
    {
      var i, j :| 0 <= i < |loads| && 0 <= j < |loads[i].rows| && KeyOf(loads[i].columns, loads[i].rows[j]) == Ok(k);
      BootstrapRow(data, b, i, j);
    }
  }

  /** A row of the bootstrap's loads is a row of the data from the previous
      or the current month. */
  lemma BootstrapRow(data: Frame, b: MonthBounds, i: int, j: int)
    requires b.previous <= b.current <= b.next
    requires 0 <= i < |MonthLoads(data, b, true)| && 0 <= j < |MonthLoads(data, b, true)[i].rows|
    ensures var r := MonthLoads(data, b, true)[i].rows[j];
            && MonthLoads(data, b, true)[i].columns == data.columns
            && r in data.rows && InSpan(r, Span(b.previous, b.next))
  {
    var out := MonthWindows(data, b);
    var rows := if i == 0 then out.0.rows else out.1.rows;
    assert MonthLoads(data, b, true)[i] == Frame(data.columns, Dedup(rows));
    var r := Dedup(rows)[j];
    DedupIsSubsequence(rows);
    SubsequenceMembers(Dedup(rows), rows);
    assert r in rows;
  }

  /** After an incremental run, every order of the next month is stored with
      NULL actuals. */
  lemma NextMonthHasNoActuals(store: Store, schema: seq<string>, data: Frame, b: MonthBounds)
    requires ValidStore(schema, store)
    requires RunLoads(store, schema, MonthLoads(data, b, false)).0
    ensures var next := MonthLoads(data, b, false)[2];
            ActualsNull(RunLoads(store, schema, MonthLoads(data, b, false)).1, schema, BatchKeys(next.columns, next.rows))
  {
    var loads := MonthLoads(data, b, false);
    var out := MonthWindows(data, b);
    assert loads[|loads| - 1] == Deduplicated(out.2);
    LastLoadOmitsActuals(store, schema, loads);
    assert loads[2] == loads[|loads| - 1];
  }

  /** The three monthly windows are back to back: no row is loaded twice in
      one run, and together they hold every row of the three months. */
  lemma MonthsPartition(data: Frame, cursor: int)
    ensures var b := MonthSpans(cursor);
            var (p, c, n) := (Span(b.previous, b.current), Span(b.current, b.next), Span(b.next, b.nextEnd));
            && (forall r :: r in Window(data, p).rows ==> r !in Window(data, c).rows)
            && (forall r :: r in Window(data, c).rows ==> r !in Window(data, n).rows)
            && forall r :: r in data.rows && InSpan(r, Span(b.previous, b.nextEnd)) <==>
                 r in Window(data, p).rows || r in Window(data, c).rows || r in Window(data, n).rows
  {
    var b := MonthSpans(cursor);
    MonthSpansAligned(cursor);
    AdjacentWindows(data, b.previous, b.current, b.next);
    AdjacentWindows(data, b.previous, b.next, b.nextEnd);
  }

  /** Moving the cursor to the next month moves every window by a month: the
      next run's previous month is this run's current month, its current
      month is this run's next month, and its next month ends where this
      run's next-month window ends a month later. */
  lemma WindowsAdvance(cursor: int)
    ensures var b := MonthSpans(cursor);
            var b2 := MonthSpans(b.next);
            b2.previous == b.current && b2.current == b.next && b2.next == b.nextEnd
  {
    var dt := FromInstant(cursor);
    var next := NextMonth(dt.year, dt.month);
    var after := NextMonth(next.0, next.1);
    var b := MonthSpans(cursor);
    assert b.current == ToInstant(DateTime(dt.year, dt.month, 1, dt.second));
    assert b.next == ToInstant(DateTime(next.0, next.1, 1, dt.second));
    assert b.nextEnd == ToInstant(DateTime(after.0, after.1, 1, dt.second));
    PreviousOfNextMonth(dt.year, dt.month);
    MonthSpansOfStart(next.0, next.1, dt.second);
    var b2 := MonthSpans(b.next);
    assert b2.previous == b.current && b2.current == b.next && b2.next == b.nextEnd;
  }

  /** The month starts seen from day 1 of a month. */
  lemma MonthSpansOfStart(y: int, m: int, second: int)
    requires 1 <= m <= 12 && 0 <= second < SecondsPerDay
    ensures var b, p, n := MonthSpans(ToInstant(DateTime(y, m, 1, second))), PreviousMonth(y, m), NextMonth(y, m);
            && b.previous == ToInstant(DateTime(p.0, p.1, 1, second))
            && b.current == ToInstant(DateTime(y, m, 1, second))
            && b.next == ToInstant(DateTime(n.0, n.1, 1, second))
            && b.nextEnd == ToInstant(DateTime(NextMonth(n.0, n.1).0, NextMonth(n.0, n.1).1, 1, second))
  {
    var start := DateTime(y, m, 1, second);
    assert ValidDateTime(start);
    FromToInstant(start);
  }

}
