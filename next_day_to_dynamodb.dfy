/** The daily DynamoDB loader: the daily windows of the PostgreSQL loader,
    but every missing value is first replaced by 0.0 and every row is written
    with `put_item`, replacing the whole item stored under its `order_id`. */
module NextDayToDynamo {
  import opened Wrappers
  import opened Calendar
  import opened Frames
  import opened Windows
  import opened DynamoStore
  import opened Cursor
  import NextDay

  /** `data.fillna(0.0, inplace=True)`: the frame the run works on. */
  function Filled(data: Frame): (g: Frame)
    ensures g.columns == data.columns && NoMissing(g)
  {
    FillNa(data, Real(0.0))
  }

  /** The rows one run puts, in order: the de-duplicated "today" window, and
      on a non-empty table the de-duplicated, redacted "tomorrow" window after
      it. */
  function DayPuts(data: Frame, cursor: int, empty: bool): (puts: seq<Row>)
    ensures empty ==> forall r :: r in puts ==> r in data.rows && InSpan(r, Span(Epoch2000, cursor))
    ensures empty ==> forall i, j :: 0 <= i < j < |puts| ==> OrderKey(puts[i]) != OrderKey(puts[j])
  {
    if empty then
      DedupDistinctKeys(NextDay.DayWindows(data, cursor, Epoch2000).0.rows);
      Dedup(NextDay.DayWindows(data, cursor, Epoch2000).0.rows)
    else
      var out := NextDay.DayWindows(data, cursor, cursor - SecondsPerDay);
      Dedup(out.0.rows) + Dedup(out.1.rows)
  }

  /** `load_to_dynamodb`: reading the `order_id` column (to convert it to
      strings) fails when the frame has none, before anything is written;
      otherwise the de-duplicated rows are put one by one. */
  method LoadToDynamo(table: DynamoTable, data: Frame) returns (r: Result<(), FrameError>)
    modifies table
    ensures r.Ok? <==> "order_id" in data.columns
    ensures r.Ok? ==> table.items == PutAll(old(table.items), Dedup(data.rows))
    ensures r.Err? ==> table.items == old(table.items) && r.error == MissingColumn("order_id")
  {
    if "order_id" !in data.columns {
      return Err(MissingColumn("order_id"));
    }
    table.PutItems(Dedup(data.rows));
    r := Ok(());
  }

  /** Two loads one after the other, the second only when the first
      succeeded. */
  method LoadPair(table: DynamoTable, first: Frame, second: Frame) returns (r: Result<(), FrameError>)
    modifies table
    ensures r.Ok? <==> "order_id" in first.columns && "order_id" in second.columns
    ensures r.Err? ==> r.error == MissingColumn("order_id")
    ensures r.Ok? ==> table.items == PutAll(old(table.items), Dedup(first.rows) + Dedup(second.rows))
    ensures r.Err? ==> table.items == if "order_id" in first.columns then PutAll(old(table.items), Dedup(first.rows))
                                     else old(table.items)
  {
    r := LoadToDynamo(table, first);
    if r.Ok? {
      r := LoadToDynamo(table, second);
      PutAllAppend(old(table.items), Dedup(first.rows), Dedup(second.rows));
    }
  }

  /** The branch of `main` on the table's emptiness, on the filled frame:
      `filter_data` raises first when there is no `delivery_time` column, and
      `load_to_dynamodb` next when there is no `order_id` column. */
  method LoadDay(table: DynamoTable, data: Frame, cursor: int) returns (r: Result<(), FrameError>)
    modifies table
    ensures r.Ok? <==> "delivery_time" in data.columns && "order_id" in data.columns
    ensures r.Ok? ==> table.items == PutAll(old(table.items), DayPuts(data, cursor, old(table.IsEmpty())))
    ensures r.Err? ==> table.items == old(table.items)
    ensures r.Err? ==> r.error == MissingColumn(if "delivery_time" !in data.columns then "delivery_time" else "order_id")
  {
    var empty := table.IsEmpty();
    var windows := NextDay.FilterData(data, cursor, if empty then Epoch2000 else cursor - SecondsPerDay);
    if windows.Err? {
      return Err(windows.error);
    }
    var today, tomorrow := windows.value.0, windows.value.1;
    if empty {
      assert DayPuts(data, cursor, true) == Dedup(today.rows);
      r := LoadToDynamo(table, today);
    } else {
      assert DayPuts(data, cursor, false) == Dedup(today.rows) + Dedup(tomorrow.rows);
      OrderIdIsKept();
      r := LoadPair(table, today, tomorrow);
    }
  }

  /** `main`: fill the missing values, load today's window (and tomorrow's
      on a non-empty table), then move the cursor one day on; a failing load
      stops the run before the cursor is saved. */
  method Run(table: DynamoTable, config: Config, data: Frame) returns (r: Result<(), FrameError>)
    modifies table, config
    ensures r.Ok? <==> "delivery_time" in data.columns && "order_id" in data.columns
    ensures r.Ok? ==> table.items == PutAll(old(table.items), DayPuts(Filled(data), old(config.currentDate), old(table.IsEmpty())))
    ensures r.Err? ==> table.items == old(table.items)
    ensures r.Err? ==> r.error == MissingColumn(if "delivery_time" !in data.columns then "delivery_time" else "order_id")
    ensures config.currentDate == if r.Ok? then old(config.currentDate) + SecondsPerDay else old(config.currentDate)
  {
    var cursor := config.currentDate;
    r := LoadDay(table, Filled(data), cursor);
    assert config.currentDate == cursor;
    if r.Ok? {
      NextDay.UpdateConfigDate(config);
    }
  }

  // ------------------------------------------------------------ properties

  /** A row with no missing cell. */
  predicate Complete(r: Row)
  {
    forall c :: c in r ==> !IsNa(r[c])
  }

  /** Every row a run puts comes from the filled frame, possibly with columns
      dropped, so none has a missing cell. */
  lemma PutsComplete(data: Frame, cursor: int, empty: bool)
    ensures forall r :: r in DayPuts(Filled(data), cursor, empty) ==> Complete(r)
  {
    var filled := Filled(data);
    forall r | r in filled.rows ensures Complete(r) {
      var i :| 0 <= i < |filled.rows| && filled.rows[i] == r;
    }
    var lower := if empty then Epoch2000 else cursor - SecondsPerDay;
    var out := NextDay.DayWindows(filled, cursor, lower);
    DedupComplete(out.0.rows);
    if !empty {
      var w := Window(filled, Span(cursor, cursor + SecondsPerDay));
      assert out.1 == Redact(w);
      forall r | r in out.1.rows ensures Complete(r) {
        var i :| 0 <= i < |out.1.rows| && out.1.rows[i] == r;
        assert w.rows[i] in w.rows;
      }
      DedupComplete(out.1.rows);
      assert DayPuts(filled, cursor, empty) == Dedup(out.0.rows) + Dedup(out.1.rows);
    }
  }

  /** Dropping repeated keys keeps only rows that were there. */
  lemma DedupComplete(rows: seq<Row>)
    requires forall r :: r in rows ==> Complete(r)
    ensures forall r :: r in Dedup(rows) ==> Complete(r)
  {
    DedupIsSubsequence(rows);
    SubsequenceMembers(Dedup(rows), rows);
  }

  /** No item a run writes holds a missing value: `fillna(0.0)` runs before
      any filtering. */
  lemma StoredItemsComplete(items: map<Value, Item>, data: Frame, cursor: int, empty: bool)
    ensures var puts := DayPuts(Filled(data), cursor, empty);
            forall k :: k in Keys(puts) ==> Complete(PutAll(items, puts)[k])
  {
    var puts := DayPuts(Filled(data), cursor, empty);
    PutsComplete(data, cursor, empty);
    forall k | k in Keys(puts) ensures Complete(PutAll(items, puts)[k]) {
      PutAllFromRows(items, puts, k);
    }
  }

  /** A redacted batch put last leaves, under each of its keys, an item
      with no `_used` attribute. */
  lemma RedactedBatchStored(items: map<Value, Item>, w: Frame)
    ensures var b := Dedup(Redact(w).rows);
            forall k, c :: k in Keys(b) && c in PutAll(items, b)[k] ==> !IsUsedColumn(c)
  {
    var g := Redact(w);
    var b := Dedup(g.rows);
    DedupIsSubsequence(g.rows);
    SubsequenceMembers(b, g.rows);
    forall k | k in Keys(b) ensures forall c :: c in PutAll(items, b)[k] ==> !IsUsedColumn(c) {
      PutAllFromRows(items, b, k);
      var i :| 0 <= i < |g.rows| && g.rows[i] == PutAll(items, b)[k];
    }
  }

  /** After an incremental run, the item of every order delivered "tomorrow"
      is tomorrow's row itself: since a put replaces the whole item, the
      actuals and forecasts stored for it before are gone (unlike the
      PostgreSQL upsert, which keeps the other columns). */
  lemma TomorrowItemsLackUsedColumns(items: map<Value, Item>, data: Frame, cursor: int)
    ensures var out := NextDay.DayWindows(Filled(data), cursor, cursor - SecondsPerDay);
            var b := Dedup(out.1.rows);
            var stored := PutAll(items, DayPuts(Filled(data), cursor, false));
            forall k, c :: k in Keys(b) && k in stored && c in stored[k] ==> !IsUsedColumn(c)
  {
    var filled := Filled(data);
    var out := NextDay.DayWindows(filled, cursor, cursor - SecondsPerDay);
    var a, b := Dedup(out.0.rows), Dedup(out.1.rows);
    PutAllAppend(items, a, b);
    assert DayPuts(filled, cursor, false) == a + b;
    RedactedBatchStored(PutAll(items, a), Window(filled, Span(cursor, cursor + SecondsPerDay)));
  }

  /** The bootstrap run stores, for every order delivered between 2000-01-01
      and the cursor, the first of its rows exactly as filled, and nothing
      else. */
  lemma BootstrapItems(items: map<Value, Item>, data: Frame, cursor: int)
    ensures var w := Window(Filled(data), Span(Epoch2000, cursor)).rows;
            var stored := PutAll(items, DayPuts(Filled(data), cursor, true));
            && stored.Keys == items.Keys + Keys(w)
            && forall i :: 0 <= i < |w| && FirstOccurrence(w, i) ==> stored[OrderKey(w[i])] == w[i]
  {
    var w := Window(Filled(data), Span(Epoch2000, cursor)).rows;
    var puts := Dedup(w);
    assert DayPuts(Filled(data), cursor, true) == puts;
    DedupDistinctKeys(w);
    DedupMembers(w);
    DistinctKeysAllStored(items, puts);
    forall i | 0 <= i < |w| && FirstOccurrence(w, i) ensures PutAll(items, puts)[OrderKey(w[i])] == w[i] {
      assert w[i] in puts;
      var j :| 0 <= j < |puts| && puts[j] == w[i];
    }
  }
}
