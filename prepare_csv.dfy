/** `scripts/prepare_csv.py`: a raw 72-column CSV export gets the table's
    column names, is sorted by its `delivery_time`, receives consecutive
    order ids from 100000001 on, and is written with `order_id` first. */
module PrepareCsv {
  import opened Wrappers
  import opened Frames
  import ColumnGenerator

  datatype PrepareError =
    | RenameMismatch(have: int, want: int)  // ValueError: length mismatch on `df.columns = ...`
    | Unorderable(cell: Value)              // TypeError: the first delivery time of another kind than the first one's

  /** The id of the first order after sorting. */
  const FirstOrderId: int := 100000001

  // --------------------------------------------------------------- renaming

  /** The 72 names of the export: the table's columns without `order_id`. */
  function CsvColumns(): (names: seq<string>)
    ensures |names| == 72
  {
    ColumnGenerator.CategoryList(10, "") + ColumnGenerator.AdditionalNames
  }

  lemma CsvColumnsLayout()
    ensures ["order_id"] + CsvColumns() == ColumnGenerator.GetColumnNames()
  {
    ColumnGenerator.ColumnNamesLayout();
  }

  lemma CsvColumnsDistinct()
    ensures Distinct(CsvColumns()) && "order_id" !in CsvColumns()
  {
    CsvColumnsLayout();
    ColumnGenerator.ColumnNamesDistinct();
    var all := ColumnGenerator.GetColumnNames();
    assert all[1..] == CsvColumns();
    forall j | 0 <= j < 72 ensures CsvColumns()[j] != "order_id" {
      assert all[0] != all[j + 1];
    }
  }

  lemma CsvDeliveryTime()
    ensures CsvColumns()[65] == "delivery_time"
  {
    assert CsvColumns()[60..] == ColumnGenerator.AdditionalNames;
  }

  /** The loop building `new_columns`. */
  method NewColumns() returns (names: seq<string>)
    ensures names == CsvColumns()
    ensures Distinct(names) && ["order_id"] + names == ColumnGenerator.GetColumnNames()
  {
    names := ColumnGenerator.ExtendWithCategories([], "");
    names := names + ColumnGenerator.AdditionalNames;
    assert [] + ColumnGenerator.CategoryList(10, "") == ColumnGenerator.CategoryList(10, "");
    CsvColumnsLayout();
    CsvColumnsDistinct();
  }

  function IndexOf(s: seq<string>, c: string): (i: nat)
    requires c in s
    ensures i < |s| && s[i] == c && forall j :: 0 <= j < i ==> s[j] != c
  {
    if s[0] == c then 0 else 1 + IndexOf(s[1..], c)
  }

  /** The row read under the old header, keyed by the new one: the cell in
      position j gets the j-th new name. */
  function RenameRow(r: Row, cols: seq<string>, names: seq<string>): Row
    requires |cols| == |names|
  {
    map c | c in names :: Cell(r, cols[IndexOf(names, c)])
  }

  lemma RenameRowCell(r: Row, cols: seq<string>, names: seq<string>, j: int)
    requires |cols| == |names| && Distinct(names) && 0 <= j < |names|
    ensures names[j] in RenameRow(r, cols, names)
    ensures RenameRow(r, cols, names)[names[j]] == Cell(r, cols[j])
  {
    assert IndexOf(names, names[j]) == j;
  }

  function RenameRows(rows: seq<Row>, cols: seq<string>, names: seq<string>): (out: seq<Row>)
    requires |cols| == |names|
    ensures |out| == |rows|
    ensures forall i :: 0 <= i < |rows| ==> out[i] == RenameRow(rows[i], cols, names)
  {
    if rows == [] then [] else [RenameRow(rows[0], cols, names)] + RenameRows(rows[1..], cols, names)
  }

  /** `df.columns = names`: ValueError unless there are as many names as
      columns. */
  function Rename(f: Frame, names: seq<string>): (r: Result<Frame, PrepareError>)
    ensures r.Ok? <==> |f.columns| == |names|
    ensures r.Err? ==> r.error == RenameMismatch(|f.columns|, |names|)
    ensures r.Ok? ==> r.value.columns == names && |r.value.rows| == |f.rows|
    ensures r.Ok? && Distinct(names) ==> forall i, j :: 0 <= i < |f.rows| && 0 <= j < |names| ==>
              names[j] in r.value.rows[i] && r.value.rows[i][names[j]] == Cell(f.rows[i], f.columns[j])
  {
    if |f.columns| != |names| then Err(RenameMismatch(|f.columns|, |names|))
    else
      RenamedCells(f, names);
      Ok(Frame(names, RenameRows(f.rows, f.columns, names)))
  }

  /** With distinct names, the j-th name of every renamed row holds the
      cell of the j-th old column. */
  lemma RenamedCells(f: Frame, names: seq<string>)
    requires |f.columns| == |names|
    ensures var rows := RenameRows(f.rows, f.columns, names);
            Distinct(names) ==> forall i, j :: 0 <= i < |f.rows| && 0 <= j < |names| ==>
              names[j] in rows[i] && rows[i][names[j]] == Cell(f.rows[i], f.columns[j])
  {
    var rows := RenameRows(f.rows, f.columns, names);
    if Distinct(names) {
      forall i, j | 0 <= i < |f.rows| && 0 <= j < |names|
        ensures names[j] in rows[i] && rows[i][names[j]] == Cell(f.rows[i], f.columns[j])
      {
        RenameRowCell(f.rows[i], f.columns, names, j);
      }
    }
  }

  // ------------------------------------------------------------------ sorting

  /** Python's `<=` on strings: code point by code point, a proper prefix first. */
  predicate LexLe(a: string, b: string)
    decreases |a|
  {
    a == [] || (b != [] && (a[0] < b[0] || (a[0] == b[0] && LexLe(a[1..], b[1..]))))
  }

  lemma {:induction false} LexLeTotal(a: string, b: string)
    ensures LexLe(a, b) || LexLe(b, a)
    decreases |a|
  {
    if a != [] && b != [] && a[0] == b[0] {
      LexLeTotal(a[1..], b[1..]);
    }
  }

  lemma {:induction false} LexLeTrans(a: string, b: string, c: string)
    requires LexLe(a, b) && LexLe(b, c)
    ensures LexLe(a, c)
    decreases |a|
  {
    if a != [] && a[0] == b[0] && b[0] == c[0] {
      LexLeTrans(a[1..], b[1..], c[1..]);
    }
  }

  function DeliveryTimeOf(r: Row): Value
  {
    Cell(r, "delivery_time")
  }

  /** What `sort_values` compares a delivery time with: numbers (kind 1) with
      numbers, texts (2) with texts, timestamps (3) with timestamps. A missing
      value (kind 0) is compared with nothing. */
  function SortKind(v: Value): nat
    ensures SortKind(v) == 0 <==> IsNa(v)
  {
    match v
    case Int(_) => 1
    case Real(_) => 1
    case Text(_) => 2
    case Stamp(_) => 3
    case _ => 0
  }

  /** `sort_values` can order the column: the delivery times present are all
      of one kind (a column `read_csv` produces is all text or all numbers). */
  predicate Orderable(rows: seq<Row>)
  {
    forall i, j :: 0 <= i < |rows| && 0 <= j < |rows| ==>
      IsNa(DeliveryTimeOf(rows[i])) || IsNa(DeliveryTimeOf(rows[j]))
      || SortKind(DeliveryTimeOf(rows[i])) == SortKind(DeliveryTimeOf(rows[j]))
  }

  /** The kind of the first delivery time present, 0 when every one is missing. */
  function FirstKind(rows: seq<Row>): nat
  {
    if rows == [] then 0
    else if IsNa(DeliveryTimeOf(rows[0])) then FirstKind(rows[1..])
    else SortKind(DeliveryTimeOf(rows[0]))
  }

  /** Row `r` does not fit a column of delivery times of kind `kind`. */
  predicate OtherKind(r: Row, kind: nat)
  {
    !IsNa(DeliveryTimeOf(r)) && SortKind(DeliveryTimeOf(r)) != kind
  }

  /** The first kind present is the kind of some row, unless none is present. */
  lemma {:induction false} FirstKindOfSomeRow(rows: seq<Row>)
    ensures FirstKind(rows) == 0 ==> forall i :: 0 <= i < |rows| ==> IsNa(DeliveryTimeOf(rows[i]))
    ensures FirstKind(rows) != 0 ==>
              exists i :: 0 <= i < |rows| && SortKind(DeliveryTimeOf(rows[i])) == FirstKind(rows)
  {
    if rows != [] && IsNa(DeliveryTimeOf(rows[0])) {
      FirstKindOfSomeRow(rows[1..]);
      if FirstKind(rows) != 0 {
        var i :| 0 <= i < |rows[1..]| && SortKind(DeliveryTimeOf(rows[1..][i])) == FirstKind(rows);
        assert rows[i + 1] == rows[1..][i];
      } else {
        forall i | 0 <= i < |rows| ensures IsNa(DeliveryTimeOf(rows[i])) {
          if i > 0 { assert rows[i] == rows[1..][i - 1]; }
        }
      }
    } else if rows != [] {
      assert SortKind(DeliveryTimeOf(rows[0])) == FirstKind(rows);
    }
  }

  /** The column is orderable exactly when no delivery time present differs
      in kind from the first one. */
  lemma OrderableByFirstKind(rows: seq<Row>)
    ensures Orderable(rows) <==> forall i :: 0 <= i < |rows| ==> !OtherKind(rows[i], FirstKind(rows))
  {
    FirstKindOfSomeRow(rows);
    if Orderable(rows) && FirstKind(rows) != 0 {
      var w :| 0 <= w < |rows| && SortKind(DeliveryTimeOf(rows[w])) == FirstKind(rows);
      forall i | 0 <= i < |rows| ensures !OtherKind(rows[i], FirstKind(rows)) {
        assert !IsNa(DeliveryTimeOf(rows[w]));
      }
    }
  }

  /** Two delivery times of one kind, compared as `sort_values` does:
      numbers by value, texts code point by code point, timestamps by instant. */
  predicate ValueLe(x: Value, y: Value)
  {
    if x.Text? && y.Text? then LexLe(x.s, y.s)
    else if x.Stamp? && y.Stamp? then x.t <= y.t
    else AsNumber(x).Some? && AsNumber(y).Some? && AsNumber(x).value <= AsNumber(y).value
  }

  /** Ascending, missing values last (`na_position='last'`). Values of two
      kinds never meet in a sort that succeeds; ranking them by kind keeps
      the order total. */
  predicate KeyLe(a: Row, b: Row)
  {
    var x, y := DeliveryTimeOf(a), DeliveryTimeOf(b);
    if IsNa(y) then true
    else if IsNa(x) then false
    else if SortKind(x) != SortKind(y) then SortKind(x) < SortKind(y)
    else ValueLe(x, y)
  }

  lemma KeyLeTotal(a: Row, b: Row)
    ensures KeyLe(a, b) || KeyLe(b, a)
  {
    var x, y := DeliveryTimeOf(a), DeliveryTimeOf(b);
    if x.Text? && y.Text? {
      LexLeTotal(x.s, y.s);
    }
  }

  lemma KeyLeTrans(a: Row, b: Row, c: Row)
    requires KeyLe(a, b) && KeyLe(b, c)
    ensures KeyLe(a, c)
  {
    var x, y, z := DeliveryTimeOf(a), DeliveryTimeOf(b), DeliveryTimeOf(c);
    if x.Text? && y.Text? && z.Text? {
      LexLeTrans(x.s, y.s, z.s);
    }
  }

  predicate SortedByDeliveryTime(rows: seq<Row>)
  {
    forall i, j :: 0 <= i < j < |rows| ==> KeyLe(rows[i], rows[j])
  }

  lemma SortedTail(s: seq<Row>)
    requires SortedByDeliveryTime(s) && s != []
    ensures SortedByDeliveryTime(s[1..])
    ensures forall y :: y in multiset(s[1..]) ==> KeyLe(s[0], y)
  {
    forall i, j | 0 <= i < j < |s[1..]| ensures KeyLe(s[1..][i], s[1..][j]) {
      assert s[1..][i] == s[i + 1] && s[1..][j] == s[j + 1];
    }
    forall y | y in multiset(s[1..]) ensures KeyLe(s[0], y) {
      var k :| 0 <= k < |s[1..]| && s[1..][k] == y;
      assert s[k + 1] == y;
    }
  }

  lemma PrependSorted(x: Row, s: seq<Row>)
    requires SortedByDeliveryTime(s)
    requires forall y :: y in multiset(s) ==> KeyLe(x, y)
    ensures SortedByDeliveryTime([x] + s)
  {
    var t := [x] + s;
    forall i, j | 0 <= i < j < |t| ensures KeyLe(t[i], t[j]) {
      assert t[j] == s[j - 1];
      if i == 0 {
        assert s[j - 1] in multiset(s);
      } else {
        assert t[i] == s[i - 1];
      }
    }
  }

  /** `x` placed before the first row it does not sort after. */
  function Insert(x: Row, s: seq<Row>): (out: seq<Row>)
    requires SortedByDeliveryTime(s)
    ensures SortedByDeliveryTime(out)
    ensures |out| == |s| + 1 && multiset(out) == multiset(s) + multiset{x}
  {
    if s == [] then [x]
    else
      SortedTail(s);
      assert s == [s[0]] + s[1..];
      if KeyLe(x, s[0]) then
        InsertFront(x, s);
        [x] + s
      else
        var rest := Insert(x, s[1..]);
        KeyLeTotal(x, s[0]);
        InsertBehind(s[0], x, s[1..], rest);
        [s[0]] + rest
  }

  /** A row that sorts before the head of a sorted sequence sorts before all of it. */
  lemma InsertFront(x: Row, s: seq<Row>)
    requires SortedByDeliveryTime(s) && s != [] && KeyLe(x, s[0])
    ensures SortedByDeliveryTime([x] + s)
  {
    SortedTail(s);
    assert s == [s[0]] + s[1..];
    forall y | y in multiset(s) ensures KeyLe(x, y) {
      if y != s[0] {
        KeyLeTrans(x, s[0], y);
      }
    }
    PrependSorted(x, s);
  }

  /** A head that sorts before the rest and before `x` still leads once `x`
      is inserted into the rest. */
  lemma InsertBehind(h: Row, x: Row, tail: seq<Row>, rest: seq<Row>)
    requires KeyLe(h, x) && forall y :: y in multiset(tail) ==> KeyLe(h, y)
    requires SortedByDeliveryTime(rest) && multiset(rest) == multiset(tail) + multiset{x}
    ensures SortedByDeliveryTime([h] + rest)
  {
    forall y | y in multiset(rest) ensures KeyLe(h, y) {
      if y != x {
        assert y in multiset(tail);
      }
    }
    PrependSorted(h, rest);
  }

  /** `df.sort_values(by='delivery_time')`: the rows reordered ascending by
      their delivery time. */
  function SortByDeliveryTime(rows: seq<Row>): (out: seq<Row>)
    ensures SortedByDeliveryTime(out)
    ensures |out| == |rows| && multiset(out) == multiset(rows)
  {
    if rows == [] then []
    else
      assert rows == [rows[0]] + rows[1..];
      Insert(rows[0], SortByDeliveryTime(rows[1..]))
  }

  // -------------------------------------------------------- ids and reorder

  /** `df['order_id'] = range(100000001, 100000001 + len(df))`: the k-th
      row after sorting gets 100000001 + k; nothing else changes. */
  function AssignIds(rows: seq<Row>): (out: seq<Row>)
    ensures |out| == |rows|
    ensures forall k :: 0 <= k < |rows| ==> "order_id" in out[k] && out[k]["order_id"] == Int(FirstOrderId + k)
    ensures forall k, c :: 0 <= k < |rows| && c != "order_id" ==>
              (c in out[k] <==> c in rows[k]) && (c in rows[k] ==> out[k][c] == rows[k][c])
  {
    seq(|rows|, k requires 0 <= k < |rows| => rows[k]["order_id" := Int(FirstOrderId + k)])
  }

  predicate IsKey(c: string)
  {
    c == "order_id"
  }

  /** `['order_id'] + [col for col in cols if col != 'order_id']`. */
  function KeyFirst(cols: seq<string>): (out: seq<string>)
    ensures |out| >= 1 && out[0] == "order_id" && IsSubsequence(out[1..], cols)
    ensures forall c :: c in out <==> c in cols || c == "order_id"
  {
    ColumnsWithoutIsSubsequence(cols, IsKey);
    ["order_id"] + ColumnsWithout(cols, IsKey)
  }

  // --------------------------------------------------------------------- main

  /** `main` without the file I/O, as one expression over the new header. */
  function Prepared(df: Frame, names: seq<string>): (r: Result<Frame, PrepareError>)
    ensures |df.columns| != |names| ==> r == Err(RenameMismatch(|df.columns|, |names|))
    ensures r.Ok? ==> |r.value.rows| == |df.rows| && |r.value.columns| >= 1 && r.value.columns[0] == "order_id"
  {
    match Rename(df, names)
    case Err(e) => Err(e)
    case Ok(renamed) =>
      var kind := FirstKind(renamed.rows);
      match FirstWhere(renamed.rows, r => OtherKind(r, kind))
      case Some(i) => Err(Unorderable(DeliveryTimeOf(renamed.rows[i])))
      case None =>
        var sorted := SortByDeliveryTime(renamed.rows);
        var cols := KeyFirst(WithColumn(renamed.columns, "order_id"));
        Ok(Frame(cols, ProjectRows(AssignIds(sorted), cols)))
  }

  /** `main`: the steps in the order the script runs them. */
  method Prepare(df: Frame) returns (r: Result<Frame, PrepareError>)
    ensures r == Prepared(df, CsvColumns())
  {
    var names := NewColumns();
    var renamed := Rename(df, names);
    if renamed.Err? {
      return Err(renamed.error);
    }
    var kind := FirstKind(renamed.value.rows);
    var bad := FirstWhere(renamed.value.rows, r => OtherKind(r, kind));
    if bad.Some? {
      return Err(Unorderable(DeliveryTimeOf(renamed.value.rows[bad.value])));
    }
    var sorted := SortByDeliveryTime(renamed.value.rows);
    var withIds := AssignIds(sorted);
    var cols := KeyFirst(WithColumn(renamed.value.columns, "order_id"));
    r := Ok(Frame(cols, ProjectRows(withIds, cols)));
  }

  /** The script fails exactly on an export with the wrong number of columns
      or with delivery times of two kinds (text and numbers, say), which
      `sort_values` cannot compare; position `d` is the one renamed
      `delivery_time`. */
  lemma PreparedSucceeds(df: Frame, names: seq<string>, d: int)
    requires Distinct(names) && 0 <= d < |names| && names[d] == "delivery_time"
    ensures Prepared(df, names).Ok? <==>
              |df.columns| == |names| && forall i, j :: 0 <= i < |df.rows| && 0 <= j < |df.rows| ==>
                IsNa(Cell(df.rows[i], df.columns[d])) || IsNa(Cell(df.rows[j], df.columns[d]))
                || SortKind(Cell(df.rows[i], df.columns[d])) == SortKind(Cell(df.rows[j], df.columns[d]))
    ensures |df.columns| != |names| ==> Prepared(df, names) == Err(RenameMismatch(|df.columns|, |names|))
    ensures |df.columns| == |names| && Prepared(df, names).Err? ==> Prepared(df, names).error.Unorderable?
  {
    if |df.columns| == |names| {
      var renamed := Rename(df, names).value;
      forall i | 0 <= i < |df.rows| ensures DeliveryTimeOf(renamed.rows[i]) == Cell(df.rows[i], df.columns[d]) {
      }
      OrderableByFirstKind(renamed.rows);
    }
  }

  lemma ColumnsWithoutConcatKey(cols: seq<string>)
    requires "order_id" !in cols
    ensures ColumnsWithout(cols + ["order_id"], IsKey) == cols
  {
    ColumnsWithoutUnchanged(cols, IsKey);
    ColumnGenerator.ColumnsWithoutConcat(cols, ["order_id"], IsKey);
    assert ColumnsWithout(["order_id"], IsKey) == [];
  }

  /** What a run that succeeds computes, step by step. */
  lemma PreparedOk(df: Frame, names: seq<string>)
    requires Prepared(df, names).Ok?
    ensures Rename(df, names).Ok?
    ensures var renamed := Rename(df, names).value;
            var cols := KeyFirst(WithColumn(names, "order_id"));
            Prepared(df, names).value == Frame(cols, ProjectRows(AssignIds(SortByDeliveryTime(renamed.rows)), cols))
  {
  }

  /** The header written: `order_id`, then the new names in their order. */
  lemma PreparedHeader(df: Frame, names: seq<string>)
    requires Prepared(df, names).Ok? && "order_id" !in names
    ensures Prepared(df, names).value.columns == ["order_id"] + names
    ensures |Prepared(df, names).value.rows| == |df.rows|
  {
    PreparedOk(df, names);
    assert WithColumn(names, "order_id") == names + ["order_id"];
    ColumnsWithoutConcatKey(names);
    assert KeyFirst(WithColumn(names, "order_id")) == ["order_id"] + names;
  }

  /** Every renamed row, wherever the sort puts it, has exactly the new
      names as keys. */
  lemma RenamedKeys(df: Frame, names: seq<string>)
    requires |df.columns| == |names|
    ensures forall r :: r in multiset(Rename(df, names).value.rows) ==> r.Keys == set c | c in names
  {
    var rows := Rename(df, names).value.rows;
    forall r: Row | r in multiset(rows) ensures r.Keys == set c | c in names {
      var i :| 0 <= i < |rows| && rows[i] == r;
    }
  }

  lemma ProjectFullRow(r: Row, cols: seq<string>)
    requires r.Keys == set c | c in cols
    ensures ProjectRow(r, cols) == r
  {
  }

  /** Numbering rows that hold exactly the new names and projecting them on
      `order_id` and those names only adds the id. */
  lemma {:induction false} NumberedRows(sorted: seq<Row>, names: seq<string>)
    requires forall r :: r in multiset(sorted) ==> r.Keys == set c | c in names
    ensures var out := ProjectRows(AssignIds(sorted), ["order_id"] + names);
            forall k :: 0 <= k < |sorted| ==> out[k] == sorted[k]["order_id" := Int(FirstOrderId + k)]
  {
    var ids := AssignIds(sorted);
    forall k | 0 <= k < |sorted| ensures ProjectRow(ids[k], ["order_id"] + names) == sorted[k]["order_id" := Int(FirstOrderId + k)] {
      assert sorted[k] in multiset(sorted);
      ProjectFullRow(ids[k], ["order_id"] + names);
    }
  }

  /** Row k of the result is the k-th row in delivery-time order, with
      order id 100000001 + k: the ids are consecutive, hence distinct. */
  lemma PreparedRows(df: Frame, names: seq<string>)
    requires Prepared(df, names).Ok? && "order_id" !in names
    ensures var out, renamed := Prepared(df, names).value, Rename(df, names).value;
            var sorted := SortByDeliveryTime(renamed.rows);
            && |out.rows| == |sorted|
            && forall k :: 0 <= k < |sorted| ==> out.rows[k] == sorted[k]["order_id" := Int(FirstOrderId + k)]
  {
    PreparedHeader(df, names);
    PreparedOk(df, names);
    RenamedKeys(df, names);
    NumberedRows(SortByDeliveryTime(Rename(df, names).value.rows), names);
  }

  /** The row without its `order_id` cell. */
  function WithoutKey(r: Row): Row
  {
    map c | c in r && c != "order_id" :: r[c]
  }

  /** The result is sorted by delivery time. */
  lemma PreparedSorted(df: Frame, names: seq<string>)
    requires Prepared(df, names).Ok? && "order_id" !in names
    ensures SortedByDeliveryTime(Prepared(df, names).value.rows)
  {
    PreparedRows(df, names);
    var out := Prepared(df, names).value.rows;
    var sorted := SortByDeliveryTime(Rename(df, names).value.rows);
    forall i, j | 0 <= i < j < |out| ensures KeyLe(out[i], out[j]) {
      assert KeyLe(sorted[i], sorted[j]);
      assert Cell(out[i], "delivery_time") == Cell(sorted[i], "delivery_time");
      assert Cell(out[j], "delivery_time") == Cell(sorted[j], "delivery_time");
    }
  }

  lemma {:induction false} StrippedRows(out: seq<Row>, sorted: seq<Row>)
    requires |out| == |sorted|
    requires forall r :: r in multiset(sorted) ==> "order_id" !in r
    requires forall k :: 0 <= k < |sorted| ==> out[k] == sorted[k]["order_id" := Int(FirstOrderId + k)]
    ensures seq(|out|, k requires 0 <= k < |out| => WithoutKey(out[k])) == sorted
  {
    forall k | 0 <= k < |sorted| ensures WithoutKey(out[k]) == sorted[k] {
      assert sorted[k] in multiset(sorted);
    }
  }

  /** Without their new ids, the rows written are the export's rows, each
      exactly as often as before. */
  lemma PreparedPermutation(df: Frame, names: seq<string>)
    requires Prepared(df, names).Ok? && "order_id" !in names
    ensures var out := Prepared(df, names).value.rows;
            multiset(seq(|out|, k requires 0 <= k < |out| => WithoutKey(out[k]))) == multiset(Rename(df, names).value.rows)
  {
    PreparedRows(df, names);
    RenamedKeys(df, names);
    StrippedRows(Prepared(df, names).value.rows, SortByDeliveryTime(Rename(df, names).value.rows));
  }

  /** With the script's own header: the table's columns, `order_id` first. */
  lemma PreparedTable(df: Frame)
    requires Prepared(df, CsvColumns()).Ok?
    ensures Prepared(df, CsvColumns()).value.columns == ColumnGenerator.GetColumnNames()
  {
    CsvColumnsDistinct();
    PreparedHeader(df, CsvColumns());
    CsvColumnsLayout();
  }

  /** With the script's own header: it fails exactly without 72 columns or
      when the 66th column mixes kinds of values; an all-numeric column sorts. */
  lemma PreparedTableSucceeds(df: Frame)
    ensures Prepared(df, CsvColumns()).Ok? <==>
              |df.columns| == 72 && forall i, j :: 0 <= i < |df.rows| && 0 <= j < |df.rows| ==>
                IsNa(Cell(df.rows[i], df.columns[65])) || IsNa(Cell(df.rows[j], df.columns[65]))
                || SortKind(Cell(df.rows[i], df.columns[65])) == SortKind(Cell(df.rows[j], df.columns[65]))
  {
    CsvColumnsDistinct();
    CsvDeliveryTime();
    PreparedSucceeds(df, CsvColumns(), 65);
  }
}
