/** The daily PostgreSQL loader: on an empty table it loads every order
    delivered from 2000-01-01 up to the cursor; otherwise it loads the
    previous day with its actuals and the next day without them, and then
    moves the cursor one day on. */
module NextDay {
  import opened Wrappers
  import opened Calendar
  import opened Frames
  import opened Windows
  import opened SqlStore
  import opened Cursor

  /** The two windows `filter_data` selects: "today" is every row delivered
      in [lower, cursor), all columns kept; "tomorrow" is every row delivered
      in [cursor, cursor + 1 day) with the `_used` columns dropped. */
  function DayWindows(data: Frame, cursor: int, lower: int): (out: (Frame, Frame))
    ensures out.0.columns == data.columns
    ensures forall r :: r in out.0.rows <==> r in data.rows && InSpan(r, Span(lower, cursor))
    ensures forall c :: c in out.1.columns <==> c in data.columns && !IsUsedColumn(c)
    ensures forall c :: c in out.1.columns ==> !IsActual(c)
  {
    var spans := DaySpans(cursor, lower);
    RedactedHasNoTargets(Window(data, spans.1));
    (Window(data, spans.0), Redact(Window(data, spans.1)))
  }

  /** `filter_data(data, current_date, yesterday_date)`: reading the
      `delivery_time` column raises `KeyError` when the frame has none;
      otherwise the two windows of `DayWindows`. */
  function FilterData(data: Frame, cursor: int, lower: int): (r: Result<(Frame, Frame), FrameError>)
    ensures r.Err? <==> "delivery_time" !in data.columns
    ensures r.Err? ==> r.error == MissingColumn("delivery_time")
    ensures r.Ok? ==> r.value == DayWindows(data, cursor, lower)
  {
    if "delivery_time" !in data.columns then Err(MissingColumn("delivery_time"))
    else Ok(DayWindows(data, cursor, lower))
  }

  /** The loads one run performs, in order, on a frame with both a
      `delivery_time` and an `order_id` column. */
  function PlannedLoads(data: Frame, cursor: int, empty: bool): (loads: seq<Frame>)
    ensures |loads| == if empty then 1 else 2
    ensures loads[0].columns == data.columns
    ensures forall r :: r in loads[0].rows ==>
              r in data.rows && InSpan(r, Span(if empty then Epoch2000 else cursor - SecondsPerDay, cursor))
    ensures !empty ==> forall c :: c in loads[1].columns ==> !IsActual(c)
  {
    if empty then
      [Deduplicated(DayWindows(data, cursor, Epoch2000).0)]
    else
      var out := DayWindows(data, cursor, cursor - SecondsPerDay);
      [Deduplicated(out.0), Deduplicated(out.1)]
  }

  /** `load_to_postgres`: the frame, without repeated `order_id`s (the first
      row of each wins), upserted row by row in one transaction; a frame
      without an `order_id` column fails in `drop_duplicates` before any
      statement. */
  method LoadToPostgres(table: SqlTable, data: Frame) returns (r: Result<(), LoadError>)
    requires table.Valid()
    modifies table
    ensures table.Valid()
    ensures "order_id" !in data.columns ==>
              r == Err(Pandas(MissingColumn("order_id"))) && table.rows == old(table.rows)
    ensures "order_id" in data.columns ==> (r.Ok? <==> BatchOk(table.schema, data.columns, Dedup(data.rows)))
    ensures r.Ok? ==> UpsertAll(old(table.rows), table.schema, data.columns, Dedup(data.rows)) == Ok(table.rows)
    ensures r.Err? && "order_id" in data.columns ==>
              && table.rows == old(table.rows) && r.error.Database?
              && UpsertAll(old(table.rows), table.schema, data.columns, Dedup(data.rows)) == Err(r.error.sql)
  {
    var deduplicated := RemoveDuplicates(data);
    if deduplicated.Err? {
      return Err(Pandas(deduplicated.error));
    }
    var loaded := table.Load(deduplicated.value);
    r := if loaded.Ok? then Ok(()) else Err(Database(loaded.error));
  }

  /** `update_config_date`: the cursor moves one day on. */
  method UpdateConfigDate(config: Config)
    modifies config
    ensures config.currentDate == old(config.currentDate) + SecondsPerDay
    ensures SecondOfDay(config.currentDate) == SecondOfDay(old(config.currentDate))
  {
    config.currentDate := config.currentDate + SecondsPerDay;
    DayNumberAndSecond(old(config.currentDate));
    DayNumberOf(DayNumber(old(config.currentDate)) + 1, SecondOfDay(old(config.currentDate)));
  }

  /** The branch of `main` on the table's emptiness: on an empty table the
      history up to the cursor, otherwise the previous and the next day, each
      committed on its own and stopping at the first failing load. A frame
      without `delivery_time` or `order_id` stops it before any statement. */
  method LoadDays(table: SqlTable, data: Frame, cursor: int) returns (r: Result<(), LoadError>)
    requires table.Valid()
    modifies table
    ensures table.Valid()
    ensures "delivery_time" !in data.columns ==>
              r == Err(Pandas(MissingColumn("delivery_time"))) && table.rows == old(table.rows)
    ensures "delivery_time" in data.columns && "order_id" !in data.columns ==>
              r == Err(Pandas(MissingColumn("order_id"))) && table.rows == old(table.rows)
    ensures "delivery_time" in data.columns && "order_id" in data.columns ==>
              (r.Ok?, table.rows) == RunLoads(old(table.rows), table.schema, PlannedLoads(data, cursor, old(table.IsEmpty())))
  {
    var empty := table.IsEmpty();
    var windows := FilterData(data, cursor, if empty then Epoch2000 else cursor - SecondsPerDay);
    if windows.Err? {
      return Err(Pandas(windows.error));
    }
    var today, tomorrow := windows.value.0, windows.value.1;
    if empty {
      RunLoadsCons(table.rows, table.schema, Deduplicated(today), []);
      assert [Deduplicated(today)] + [] == PlannedLoads(data, cursor, true);
      r := LoadToPostgres(table, today);
    } else {
      OrderIdIsKept();
      assert [Deduplicated(today), Deduplicated(tomorrow)] == PlannedLoads(data, cursor, false);
      r := LoadTwo(table, today, tomorrow);
    }
  }

  /** Two loads in a row, the second only when the first succeeded. */
  method LoadTwo(table: SqlTable, first: Frame, second: Frame) returns (r: Result<(), LoadError>)
    requires table.Valid()
    modifies table
    ensures table.Valid()
    ensures "order_id" !in first.columns ==>
              r == Err(Pandas(MissingColumn("order_id"))) && table.rows == old(table.rows)
    ensures "order_id" in first.columns && "order_id" in second.columns ==>
              (r.Ok?, table.rows) == RunLoads(old(table.rows), table.schema, [Deduplicated(first), Deduplicated(second)])
  {
    RunLoadsCons(table.rows, table.schema, Deduplicated(first), [Deduplicated(second)]);
    r := LoadToPostgres(table, first);
    if r.Ok? {
      RunLoadsCons(table.rows, table.schema, Deduplicated(second), []);
      assert [Deduplicated(second)] + [] == [Deduplicated(second)];
      r := LoadToPostgres(table, second);
    }
  }

  /** `main`: the loads of `PlannedLoads`; the cursor is saved only when
      every load succeeded, so a frame pandas rejects leaves both the table
      and the cursor as they were. */
  method Run(table: SqlTable, config: Config, data: Frame) returns (r: Result<(), LoadError>)
    requires table.Valid()
    modifies table, config
    ensures table.Valid()
    ensures "delivery_time" !in data.columns ==>
              r == Err(Pandas(MissingColumn("delivery_time"))) && table.rows == old(table.rows)
    ensures "delivery_time" in data.columns && "order_id" !in data.columns ==>
              r == Err(Pandas(MissingColumn("order_id"))) && table.rows == old(table.rows)
    ensures "delivery_time" in data.columns && "order_id" in data.columns ==>
              (r.Ok?, table.rows) ==
              RunLoads(old(table.rows), table.schema, PlannedLoads(data, old(config.currentDate), old(table.IsEmpty())))
    ensures config.currentDate == if r.Ok? then old(config.currentDate) + SecondsPerDay else old(config.currentDate)
  {
    var cursor := config.currentDate;
    r := LoadDays(table, data, cursor);
    assert config.currentDate == cursor;
    if r.Ok? {
      UpdateConfigDate(config);
    }
  }

  // ------------------------------------------------------------ properties

  /** After the first run on an empty table, every order delivered between
      2000-01-01 and the cursor is stored exactly as its first row in the
      data proposes, and nothing else is stored. */
  lemma BootstrapContents(schema: seq<string>, data: Frame, cursor: int)
    requires RunLoads(map[], schema, PlannedLoads(data, cursor, true)).0
    ensures var w := Window(data, Span(Epoch2000, cursor)).rows;
            var s := RunLoads(map[], schema, PlannedLoads(data, cursor, true)).1;
            && (forall k :: k in s ==> exists i :: 0 <= i < |w| && KeyOf(data.columns, w[i]) == Ok(k))
            && forall i :: 0 <= i < |w| && FirstOccurrence(w, i) ==>
                 KeyOf(data.columns, w[i]).Ok? && KeyOf(data.columns, w[i]).value in s &&
                 s[KeyOf(data.columns, w[i]).value] == Excluded(schema, data.columns, w[i])
  {
    var today := DayWindows(data, cursor, Epoch2000).0;
    var w := Window(data, Span(Epoch2000, cursor)).rows;
    assert PlannedLoads(data, cursor, true) == [Deduplicated(today)] + [];
    RunLoadsCons(map[], schema, Deduplicated(today), []);
    FreshLoad(schema, data.columns, w);
  }

  /** After an incremental run, every order of the next day (the second
      load) is stored with NULL actuals: the loader never reveals what the
      forecast will be measured against. */
  lemma TomorrowHasNoActuals(store: Store, schema: seq<string>, data: Frame, cursor: int)
    requires ValidStore(schema, store)
    requires RunLoads(store, schema, PlannedLoads(data, cursor, false)).0
    ensures var tomorrow := PlannedLoads(data, cursor, false)[1];
            ActualsNull(RunLoads(store, schema, PlannedLoads(data, cursor, false)).1, schema, BatchKeys(tomorrow.columns, tomorrow.rows))
  {
    var loads := PlannedLoads(data, cursor, false);
    LastLoadOmitsActuals(store, schema, loads);
    assert loads[1] == loads[|loads| - 1];
  }
}
