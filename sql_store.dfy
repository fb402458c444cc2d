/** The PostgreSQL table `bags_forecast` as the loaders and the forecast
    write-back see it: rows keyed by `order_id`, written by
    `INSERT ... ON CONFLICT (order_id) DO UPDATE SET <actuals> = EXCLUDED.<actuals>`
    and by `UPDATE ... SET <forecasts> WHERE order_id = %s`, inside one
    transaction per call that commits only when every statement succeeded. */
module SqlStore {
  import opened Wrappers
  import opened Frames
  import ColumnGenerator

  /** A stored row: a value for every column of the table, NULL being `None`. */
  type Record = map<string, Value>

  type Store = map<int, Record>

  datatype SqlError =
    | UndefinedColumn(name: string)   // the INSERT names a column the table lacks
    | DuplicateColumn(name: string)   // the INSERT names a column twice
    | NullKey                         // `order_id` is omitted or NULL
    | InvalidKey(key: Value)          // `order_id` is not a number
    | InvalidValue(value: Value)      // a value its column's type cannot hold
    | MissingField(name: string)      // `row[name]` on a frame without that column

  /** Why a loader run stops: pandas raising on the frame before any
      statement is sent, or the database refusing a statement. */
  datatype LoadError = Pandas(frame: FrameError) | Database(sql: SqlError)

  /** `None if pd.isna(x) else x`: a missing value is bound as NULL, never as NaN. */
  function Bind(v: Value): (b: Value)
    ensures !b.Nan?
    ensures IsNa(v) <==> b.None?
    ensures !IsNa(v) ==> b == v
  {
    if IsNa(v) then Value.None else v
  }

  function FirstRepeated(cols: seq<string>): (r: Option<string>)
    ensures r.None? <==> Distinct(cols)
    ensures r.Some? ==> r.value in cols
  {
    if cols == [] then Option.None
    else if cols[0] in cols[1..] then Some(cols[0])
    else
      var r := FirstRepeated(cols[1..]);
      assert r.None? ==> Distinct(cols) by {
        if r.None? {
          forall i, j | 0 <= i < j < |cols| ensures cols[i] != cols[j] {
            if i == 0 { assert cols[j] in cols[1..]; } else { assert cols[1..][i - 1] != cols[1..][j - 1]; }
          }
        }
      }
      r
  }

  // ------------------------------------------------------------ column types

  /** The column types the table definition uses. */
  datatype SqlType = Integer | Float | Timestamp

  /** The type a definition's type name declares. */
  function TypeNamed(name: string): SqlType
  {
    if name == "INTEGER" then Integer else if name == "TIMESTAMP" then Timestamp else Float
  }

  /** The type `types` gives the first entry of `names` equal to `c`; FLOAT
      when there is none. */
  function TypeIn(names: seq<string>, types: seq<string>, c: string): SqlType
    requires |names| == |types|
  {
    if names == [] then Float
    else if names[0] == c then TypeNamed(types[0])
    else TypeIn(names[1..], types[1..], c)
  }

  /** The declared type of column `c` of `bags_forecast`: INTEGER for the key,
      the declared type of an additional column, FLOAT for every category
      column. */
  function ColumnType(c: string): SqlType
  {
    if c == "order_id" then Integer
    else TypeIn(ColumnGenerator.AdditionalNames, ColumnGenerator.AdditionalTypes, c)
  }

  lemma {:induction false} TypeInAt(names: seq<string>, types: seq<string>, j: int)
    requires |names| == |types| && Distinct(names) && 0 <= j < |names|
    ensures TypeIn(names, types, names[j]) == TypeNamed(types[j])
  {
    if j > 0 {
      assert names[0] != names[j];
      assert names[1..][j - 1] == names[j];
      TypeInAt(names[1..], types[1..], j - 1);
    }
  }

  lemma {:induction false} TypeInAbsent(names: seq<string>, types: seq<string>, c: string)
    requires |names| == |types| && c !in names
    ensures TypeIn(names, types, c) == Float
  {
    if names != [] {
      assert names[0] != c;
      assert c !in names[1..];
      TypeInAbsent(names[1..], types[1..], c);
    }
  }

  /** The column types are the ones `generate_columns` declares: the key is an
      INTEGER and each additional column has the type written beside its
      name. */
  lemma ColumnTypesAsDeclared()
    ensures ColumnType("order_id") == Integer
    ensures forall j :: 0 <= j < 12 ==>
      ColumnType(ColumnGenerator.AdditionalNames[j]) == TypeNamed(ColumnGenerator.AdditionalTypes[j])
  {
    ColumnGenerator.AdditionalNamesDistinct();
    forall j | 0 <= j < 12
      ensures ColumnType(ColumnGenerator.AdditionalNames[j]) == TypeNamed(ColumnGenerator.AdditionalTypes[j])
    {
      TypeInAt(ColumnGenerator.AdditionalNames, ColumnGenerator.AdditionalTypes, j);
    }
  }

  /** Every category column is a FLOAT. */
  lemma CategoryColumnsAreFloat(c: string)
    requires c in ColumnGenerator.CategoryList(10, "")
    ensures ColumnType(c) == Float
  {
    var keyAndCats := ["order_id"] + ColumnGenerator.CategoryList(10, "");
    ColumnGenerator.KeyAndCategoriesNotAdditional();
    ColumnGenerator.KeyAndCategoriesDistinct();
    var j :| 0 <= j < |ColumnGenerator.CategoryList(10, "")| && ColumnGenerator.CategoryList(10, "")[j] == c;
    assert keyAndCats[j + 1] == c && keyAndCats[0] == "order_id";
    assert c in keyAndCats;
    TypeInAbsent(ColumnGenerator.AdditionalNames, ColumnGenerator.AdditionalTypes, c);
  }

  const MinInteger: int := -0x8000_0000
  const MaxInteger: int := 0x7FFF_FFFF

  /** The integer PostgreSQL assigns a float to an INTEGER column: the nearest
      one, halves rounded away from zero. */
  function RoundHalfAway(x: real): (n: int)
    ensures x - 0.5 <= n as real <= x + 0.5
    ensures n as real == x ==> x.Floor == n
  {
    if x >= 0.0 then (x + 0.5).Floor else -((-x + 0.5).Floor)
  }

  /** Whether a bound value can be stored in a column of type `t`: NULL fits
      every column; a number fits a FLOAT column, and an INTEGER column when
      it rounds into 32 bits; a timestamp, or a text the server parses as one,
      fits a TIMESTAMP column only. Text is refused in a numeric column,
      although the server would take one that reads as a number, since
      parsing is left out. */
  predicate Fits(t: SqlType, v: Value)
  {
    match v
    case Nan => true
    case None => true
    case Int(i) => t == Float || (t == Integer && MinInteger <= i <= MaxInteger)
    case Real(x) => t == Float || (t == Integer && MinInteger <= RoundHalfAway(x) <= MaxInteger)
    case Stamp(_) => t == Timestamp
    case Text(_) => t == Timestamp
  }

  /** The first column of `cols` whose bound value does not fit its type. */
  function FirstMisfit(cols: seq<string>, row: Row): (r: Option<string>)
    ensures r.None? <==> forall c :: c in cols ==> Fits(ColumnType(c), Bind(Cell(row, c)))
    ensures r.Some? ==> r.value in cols && !Fits(ColumnType(r.value), Bind(Cell(row, r.value)))
  {
    if cols == [] then Option.None
    else if !Fits(ColumnType(cols[0]), Bind(Cell(row, cols[0]))) then Some(cols[0])
    else
      var r := FirstMisfit(cols[1..], row);
      assert forall c :: c in cols ==> c == cols[0] || c in cols[1..];
      r
  }

  /** The key an INSERT of `row` under the column list `cols` writes. */
  function KeyOf(cols: seq<string>, row: Row): (r: Result<int, SqlError>)
    ensures r.Ok? <==> "order_id" in cols && Bind(Cell(row, "order_id")).Int?
    ensures r.Ok? ==> Cell(row, "order_id") == Int(r.value)
  {
    if "order_id" !in cols then Err(NullKey)
    else match Bind(Cell(row, "order_id"))
      case None => Err(NullKey)
      case Int(k) => Ok(k)
      case v => Err(InvalidKey(v))
  }

  /** Why the INSERT of `row` fails, if it does: an unknown or repeated column
      in the statement, a key that is missing, NULL or not an integer, or a
      value its column's type cannot hold. */
  function RowError(schema: seq<string>, cols: seq<string>, row: Row): (e: Option<SqlError>)
    ensures e.None? <==>
      (forall c :: c in cols ==> c in schema) && Distinct(cols) && KeyOf(cols, row).Ok?
      && forall c :: c in cols ==> Fits(ColumnType(c), Bind(Cell(row, c)))
    ensures e.Some? && e.value.InvalidValue? ==>
      exists c :: c in cols && e.value.value == Bind(Cell(row, c)) && !Fits(ColumnType(c), e.value.value)
  {
    match FirstMissing(cols, schema)
    case Some(c) => Some(UndefinedColumn(c))
    case None =>
      match FirstRepeated(cols)
      case Some(c) => Some(DuplicateColumn(c))
      case None =>
        if KeyOf(cols, row).Err? then Some(KeyOf(cols, row).error)
        else match FirstMisfit(cols, row)
          case Some(c) => Some(InvalidValue(Bind(Cell(row, c))))
          case None => Option.None
  }

  /** `EXCLUDED`: the row the INSERT proposes, over every column of the table;
      a column the statement omits is NULL. */
  function Excluded(schema: seq<string>, cols: seq<string>, row: Row): (rec: Record)
    ensures forall c :: c in rec <==> c in schema
    ensures forall c :: c in rec ==> !rec[c].Nan?
    ensures forall c :: c in rec && c !in cols ==> rec[c] == Value.None
    ensures forall c :: c in rec && c in cols ==> rec[c] == Bind(Cell(row, c))
  {
    map c | c in schema :: if c in cols then Bind(Cell(row, c)) else Value.None
  }

  predicate IsActual(c: string)
  {
    c in ColumnGenerator.Actuals
  }

  /** `DO UPDATE SET bags_used = EXCLUDED.bags_used, ...`: the stored row with
      its three actuals replaced. */
  function WithActuals(stored: Record, excluded: Record): (rec: Record)
    ensures rec.Keys == stored.Keys
    ensures forall c :: c in rec && !IsActual(c) ==> rec[c] == stored[c]
    ensures forall c :: c in rec && IsActual(c) && c in excluded ==> rec[c] == excluded[c]
  {
    map c | c in stored :: if IsActual(c) && c in excluded then excluded[c] else stored[c]
  }

  /** One `INSERT ... ON CONFLICT (order_id) DO UPDATE` statement. */
  function Upsert(store: Store, schema: seq<string>, cols: seq<string>, row: Row): (r: Result<Store, SqlError>)
    ensures r.Err? <==> RowError(schema, cols, row).Some?
    ensures r.Err? ==> r.error == RowError(schema, cols, row).value
    ensures r.Ok? ==> r.value.Keys == store.Keys + {KeyOf(cols, row).value}
    ensures r.Ok? ==> forall k :: k in store && k != KeyOf(cols, row).value ==> r.value[k] == store[k]
  {
    match RowError(schema, cols, row)
    case Some(e) => Err(e)
    case None =>
      var k := KeyOf(cols, row).value;
      var excluded := Excluded(schema, cols, row);
      if k in store then Ok(store[k := WithActuals(store[k], excluded)])
      else Ok(store[k := excluded])
  }

  /** The statements of one load, in row order, stopping at the first error. */
  function UpsertAll(store: Store, schema: seq<string>, cols: seq<string>, rows: seq<Row>): (r: Result<Store, SqlError>)
    ensures r.Ok? ==> store.Keys <= r.value.Keys
  {
    if rows == [] then Ok(store)
    else match UpsertAll(store, schema, cols, rows[..|rows| - 1])
      case Err(e) => Err(e)
      case Ok(s) => Upsert(s, schema, cols, rows[|rows| - 1])
  }

  /** A load fails exactly when one of its rows cannot be inserted, whatever
      the table holds. */
  predicate BatchOk(schema: seq<string>, cols: seq<string>, rows: seq<Row>)
  {
    forall i :: 0 <= i < |rows| ==> RowError(schema, cols, rows[i]).None?
  }

  lemma {:induction false} UpsertAllSucceeds(store: Store, schema: seq<string>, cols: seq<string>, rows: seq<Row>)
    ensures UpsertAll(store, schema, cols, rows).Ok? <==> BatchOk(schema, cols, rows)
    decreases |rows|
  {
    if rows != [] {
      var init := rows[..|rows| - 1];
      UpsertAllSucceeds(store, schema, cols, init);
      assert BatchOk(schema, cols, rows) <==>
        BatchOk(schema, cols, init) && RowError(schema, cols, rows[|rows| - 1]).None? by {
        if BatchOk(schema, cols, init) && RowError(schema, cols, rows[|rows| - 1]).None? {
          forall i | 0 <= i < |rows| ensures RowError(schema, cols, rows[i]).None? {
            if i < |rows| - 1 { assert rows[i] == init[i]; }
          }
        }
        if BatchOk(schema, cols, rows) {
          forall i | 0 <= i < |init| ensures RowError(schema, cols, init[i]).None? {
            assert init[i] == rows[i];
          }
        }
      }
    }
  }

  /** One more statement after a successful prefix. */
  lemma UpsertAllStep(store: Store, schema: seq<string>, cols: seq<string>, rows: seq<Row>, i: int, pending: Store)
    requires 0 <= i < |rows| && UpsertAll(store, schema, cols, rows[..i]) == Ok(pending)
    ensures UpsertAll(store, schema, cols, rows[..i + 1]) == Upsert(pending, schema, cols, rows[i])
  {
    var next := rows[..i + 1];
    assert next[..|next| - 1] == rows[..i] && next[|next| - 1] == rows[i];
  }

  /** Once a prefix of the load fails, the whole load fails with that error. */
  lemma {:induction false} UpsertAllPrefixError(store: Store, schema: seq<string>, cols: seq<string>, rows: seq<Row>, n: int)
    requires 0 <= n <= |rows|
    requires UpsertAll(store, schema, cols, rows[..n]).Err?
    ensures UpsertAll(store, schema, cols, rows) == UpsertAll(store, schema, cols, rows[..n])
    decreases |rows| - n
  {
    if n < |rows| {
      var m := |rows| - 1;
      assert rows[..m][..n] == rows[..n];
      UpsertAllPrefixError(store, schema, cols, rows[..m], n);
    } else {
      assert rows[..n] == rows;
    }
  }

  function BatchKeys(cols: seq<string>, rows: seq<Row>): (ks: set<int>)
    ensures forall k :: k in ks <==> exists i :: 0 <= i < |rows| && KeyOf(cols, rows[i]) == Ok(k)
  {
    set i | 0 <= i < |rows| && KeyOf(cols, rows[i]).Ok? :: KeyOf(cols, rows[i]).value
  }

  /** The keys of a load are those of its rows, whatever their positions. */
  lemma BatchKeysOfRows(cols: seq<string>, rows: seq<Row>, k: int)
    ensures k in BatchKeys(cols, rows) <==> exists r :: r in rows && KeyOf(cols, r) == Ok(k)
  {
    if k in BatchKeys(cols, rows) {
      var i :| 0 <= i < |rows| && KeyOf(cols, rows[i]) == Ok(k);
      assert rows[i] in rows;
    }
  }

  /** The index of the first and the last row of a load carrying key `k`. */
  function FirstWith(cols: seq<string>, rows: seq<Row>, k: int): (j: int)
    requires k in BatchKeys(cols, rows)
    ensures 0 <= j < |rows| && KeyOf(cols, rows[j]) == Ok(k)
    ensures forall i :: 0 <= i < j ==> KeyOf(cols, rows[i]) != Ok(k)
  {
    if KeyOf(cols, rows[0]) == Ok(k) then 0
    else
      assert k in BatchKeys(cols, rows[1..]) by {
        var i :| 0 <= i < |rows| && KeyOf(cols, rows[i]) == Ok(k);
        assert rows[1..][i - 1] == rows[i];
      }
      1 + FirstWith(cols, rows[1..], k)
  }

  function LastWith(cols: seq<string>, rows: seq<Row>, k: int): (j: int)
    requires k in BatchKeys(cols, rows)
    ensures 0 <= j < |rows| && KeyOf(cols, rows[j]) == Ok(k)
    ensures forall i :: j < i < |rows| ==> KeyOf(cols, rows[i]) != Ok(k)
    decreases |rows|
  {
    var m := |rows| - 1;
    if KeyOf(cols, rows[m]) == Ok(k) then m
    else
      assert k in BatchKeys(cols, rows[..m]) by {
        var i :| 0 <= i < |rows| && KeyOf(cols, rows[i]) == Ok(k);
        assert rows[..m][i] == rows[i];
      }
      LastWith(cols, rows[..m], k)
  }

  /** What a successful load leaves under key `k`: a key the load does not
      carry keeps its stored row; a key it carries gets, on top of the stored
      row (or, for a new key, of the row its first occurrence inserted), the
      actuals of its last occurrence. */
  function Expected(store: Store, schema: seq<string>, cols: seq<string>, rows: seq<Row>, k: int): Record
    requires k in store || k in BatchKeys(cols, rows)
  {
    if k !in BatchKeys(cols, rows) then store[k]
    else
      var base := if k in store then store[k] else Excluded(schema, cols, rows[FirstWith(cols, rows, k)]);
      WithActuals(base, Excluded(schema, cols, rows[LastWith(cols, rows, k)]))
  }

  lemma WithActualsTwice(r: Record, a: Record, b: Record)
    requires a.Keys == b.Keys
    ensures WithActuals(WithActuals(r, a), b) == WithActuals(r, b)
  {
  }

  lemma WithActualsOfSelf(r: Record)
    ensures WithActuals(r, r) == r
  {
  }

  lemma ExcludedKeysAgree(schema: seq<string>, cols: seq<string>, a: Row, b: Row)
    ensures Excluded(schema, cols, a).Keys == Excluded(schema, cols, b).Keys
  {
  }

  /** The closed form of a successful load: the keys are the stored ones plus
      the load's, and every key holds `Expected`. */
  lemma {:induction false} UpsertAllResult(store: Store, schema: seq<string>, cols: seq<string>, rows: seq<Row>)
    requires UpsertAll(store, schema, cols, rows).Ok?
    ensures var s := UpsertAll(store, schema, cols, rows).value;
            && s.Keys == store.Keys + BatchKeys(cols, rows)
            && forall k :: k in s ==> s[k] == Expected(store, schema, cols, rows, k)
    decreases |rows|
  {
    if rows == [] {
      assert BatchKeys(cols, rows) == {};
    } else {
      var init, last := rows[..|rows| - 1], rows[|rows| - 1];
      assert UpsertAll(store, schema, cols, init).Ok?;
      UpsertAllResult(store, schema, cols, init);
      var s0 := UpsertAll(store, schema, cols, init).value;
      assert UpsertAll(store, schema, cols, rows) == Upsert(s0, schema, cols, last);
      UpsertStep(store, schema, cols, rows, s0);
    }
  }

  /** The induction step of `UpsertAllResult`: the final row's statement on
      top of the closed form of the prefix gives the closed form of the load. */
  lemma UpsertStep(store: Store, schema: seq<string>, cols: seq<string>, rows: seq<Row>, s0: Store)
    requires rows != []
    requires s0.Keys == store.Keys + BatchKeys(cols, rows[..|rows| - 1])
    requires forall k :: k in s0 ==> s0[k] == Expected(store, schema, cols, rows[..|rows| - 1], k)
    requires Upsert(s0, schema, cols, rows[|rows| - 1]).Ok?
    ensures var s := Upsert(s0, schema, cols, rows[|rows| - 1]).value;
            && s.Keys == store.Keys + BatchKeys(cols, rows)
            && forall k :: k in s ==> s[k] == Expected(store, schema, cols, rows, k)
  {
    var init, last := rows[..|rows| - 1], rows[|rows| - 1];
    var s := Upsert(s0, schema, cols, last).value;
    assert RowError(schema, cols, last).None?;
    var key := KeyOf(cols, last).value;
    BatchKeysStep(cols, rows);
    UnionStep(s.Keys, s0.Keys, store.Keys, BatchKeys(cols, rows[..|rows| - 1]), BatchKeys(cols, rows), key);
    forall k | k in s ensures s[k] == Expected(store, schema, cols, rows, k) {
      assert k in store.Keys + BatchKeys(cols, rows);
      if k == key {
        ExpectedAtLastKey(store, schema, cols, rows, s0, k);
      } else {
        UpsertKeepsOther(store, schema, cols, rows, s0, k);
      }
    }
  }

  lemma UnionStep(s: set<int>, s0: set<int>, base: set<int>, before: set<int>, after: set<int>, key: int)
    requires s == s0 + {key} && s0 == base + before && after == before + {key}
    ensures s == base + after
  {
  }

  /** A key the last row does not touch keeps its record from the prefix. */
  lemma UpsertKeepsOther(store: Store, schema: seq<string>, cols: seq<string>, rows: seq<Row>, s0: Store, k: int)
    requires rows != []
    requires s0.Keys == store.Keys + BatchKeys(cols, rows[..|rows| - 1])
    requires forall k :: k in s0 ==> s0[k] == Expected(store, schema, cols, rows[..|rows| - 1], k)
    requires Upsert(s0, schema, cols, rows[|rows| - 1]).Ok?
    requires k in Upsert(s0, schema, cols, rows[|rows| - 1]).value
    requires k != KeyOf(cols, rows[|rows| - 1]).value
    ensures k in store || k in BatchKeys(cols, rows)
    ensures Upsert(s0, schema, cols, rows[|rows| - 1]).value[k] == Expected(store, schema, cols, rows, k)
  {
    var init, last := rows[..|rows| - 1], rows[|rows| - 1];
    var s := Upsert(s0, schema, cols, last).value;
    assert RowError(schema, cols, last).None?;
    assert k in s0 && s[k] == s0[k];
    assert s0[k] == Expected(store, schema, cols, init, k);
    BatchKeysStep(cols, rows);
    ExpectedAtOtherKey(store, schema, cols, rows, k);
  }

  lemma LastWithIsLast(cols: seq<string>, rows: seq<Row>, k: int)
    requires rows != [] && KeyOf(cols, rows[|rows| - 1]) == Ok(k)
    ensures k in BatchKeys(cols, rows) && LastWith(cols, rows, k) == |rows| - 1
  {
  }

  lemma FirstWithIsLast(cols: seq<string>, rows: seq<Row>, k: int)
    requires rows != [] && KeyOf(cols, rows[|rows| - 1]) == Ok(k)
    requires k !in BatchKeys(cols, rows[..|rows| - 1])
    ensures k in BatchKeys(cols, rows) && FirstWith(cols, rows, k) == |rows| - 1
  {
  }

  /** For a key of the prefix, the first occurrence is the prefix's, and so is
      the last one unless the final row carries the key too. */
  lemma ExpectedOfPrefix(store: Store, schema: seq<string>, cols: seq<string>, rows: seq<Row>, k: int)
    requires rows != [] && k in BatchKeys(cols, rows[..|rows| - 1])
    ensures k in BatchKeys(cols, rows)
    ensures FirstWith(cols, rows, k) == FirstWith(cols, rows[..|rows| - 1], k)
    ensures KeyOf(cols, rows[|rows| - 1]) != Ok(k) ==>
              LastWith(cols, rows, k) == LastWith(cols, rows[..|rows| - 1], k)
  {
    FirstWithOfPrefix(cols, rows, k);
    if KeyOf(cols, rows[|rows| - 1]) != Ok(k) {
      LastWithOfPrefix(cols, rows, k);
    }
  }

  lemma FirstWithOfPrefix(cols: seq<string>, rows: seq<Row>, k: int)
    requires rows != [] && k in BatchKeys(cols, rows[..|rows| - 1])
    ensures k in BatchKeys(cols, rows)
    ensures FirstWith(cols, rows, k) == FirstWith(cols, rows[..|rows| - 1], k)
  {
    var init := rows[..|rows| - 1];
    var j := FirstWith(cols, init, k);
    assert rows[j] == init[j];
    assert k in BatchKeys(cols, rows);
    var a := FirstWith(cols, rows, k);
    assert forall i :: 0 <= i < j ==> init[i] == rows[i];
  }

  lemma LastWithOfPrefix(cols: seq<string>, rows: seq<Row>, k: int)
    requires rows != [] && k in BatchKeys(cols, rows[..|rows| - 1])
    requires KeyOf(cols, rows[|rows| - 1]) != Ok(k)
    ensures k in BatchKeys(cols, rows)
    ensures LastWith(cols, rows, k) == LastWith(cols, rows[..|rows| - 1], k)
  {
    var init := rows[..|rows| - 1];
    var l := LastWith(cols, init, k);
    assert rows[l] == init[l];
    assert k in BatchKeys(cols, rows);
    assert forall i :: l < i < |init| ==> init[i] == rows[i];
  }

  lemma BatchKeysStep(cols: seq<string>, rows: seq<Row>)
    requires rows != [] && KeyOf(cols, rows[|rows| - 1]).Ok?
    ensures BatchKeys(cols, rows) == BatchKeys(cols, rows[..|rows| - 1]) + {KeyOf(cols, rows[|rows| - 1]).value}
  {
    var m := |rows| - 1;
    var init := rows[..m];
    forall k | k in BatchKeys(cols, rows) ensures k in BatchKeys(cols, init) + {KeyOf(cols, rows[m]).value} {
      var i :| 0 <= i < |rows| && KeyOf(cols, rows[i]) == Ok(k);
      if i < m { assert init[i] == rows[i]; }
    }
    forall k | k in BatchKeys(cols, init) ensures k in BatchKeys(cols, rows) {
      var i :| 0 <= i < |init| && KeyOf(cols, init[i]) == Ok(k);
      assert rows[i] == init[i];
    }
  }

  /** A key the final row does not carry expects what it expected before that row. */
  lemma ExpectedAtOtherKey(store: Store, schema: seq<string>, cols: seq<string>, rows: seq<Row>, k: int)
    requires rows != [] && KeyOf(cols, rows[|rows| - 1]).Ok?
    requires k != KeyOf(cols, rows[|rows| - 1]).value
    requires k in store || k in BatchKeys(cols, rows[..|rows| - 1])
    ensures k in store || k in BatchKeys(cols, rows)
    ensures Expected(store, schema, cols, rows, k) == Expected(store, schema, cols, rows[..|rows| - 1], k)
  {
    BatchKeysStep(cols, rows);
    if k in BatchKeys(cols, rows[..|rows| - 1]) {
      ExpectedOfPrefix(store, schema, cols, rows, k);
    }
  }

  /** The induction step of `UpsertAllResult` for the last row's key. */
  lemma ExpectedAtLastKey(store: Store, schema: seq<string>, cols: seq<string>, rows: seq<Row>, s0: Store, k: int)
    requires rows != []
    requires s0.Keys == store.Keys + BatchKeys(cols, rows[..|rows| - 1])
    requires forall k :: k in s0 ==> s0[k] == Expected(store, schema, cols, rows[..|rows| - 1], k)
    requires Upsert(s0, schema, cols, rows[|rows| - 1]).Ok?
    requires k == KeyOf(cols, rows[|rows| - 1]).value
    ensures k in BatchKeys(cols, rows)
    ensures Upsert(s0, schema, cols, rows[|rows| - 1]).value[k] == Expected(store, schema, cols, rows, k)
  {
    var init, last := rows[..|rows| - 1], rows[|rows| - 1];
    assert RowError(schema, cols, last).None?;
    if k in BatchKeys(cols, init) {
      assert k in s0;
      ExpectedAtRepeatedKey(store, schema, cols, rows, k);
    } else {
      assert k in s0 <==> k in store;
      assert k in s0 ==> s0[k] == store[k];
      ExpectedAtNewKey(store, schema, cols, rows, k);
    }
  }

  /** The last row repeats a key of the prefix: its actuals go over the
      record the prefix left. */
  lemma ExpectedAtRepeatedKey(store: Store, schema: seq<string>, cols: seq<string>, rows: seq<Row>, k: int)
    requires rows != [] && KeyOf(cols, rows[|rows| - 1]) == Ok(k)
    requires k in BatchKeys(cols, rows[..|rows| - 1])
    ensures k in BatchKeys(cols, rows)
    ensures Expected(store, schema, cols, rows, k)
            == WithActuals(Expected(store, schema, cols, rows[..|rows| - 1], k), Excluded(schema, cols, rows[|rows| - 1]))
  {
    var init, last := rows[..|rows| - 1], rows[|rows| - 1];
    LastWithIsLast(cols, rows, k);
    ExpectedOfPrefix(store, schema, cols, rows, k);
    var fi := FirstWith(cols, init, k);
    var li := LastWith(cols, init, k);
    ExcludedKeysAgree(schema, cols, init[li], last);
    WithActualsTwice(if k in store then store[k] else Excluded(schema, cols, init[fi]),
                     Excluded(schema, cols, init[li]), Excluded(schema, cols, last));
  }

  /** The last row brings a key the prefix does not have: it is inserted, or
      its actuals go over the stored record. */
  lemma ExpectedAtNewKey(store: Store, schema: seq<string>, cols: seq<string>, rows: seq<Row>, k: int)
    requires rows != [] && KeyOf(cols, rows[|rows| - 1]) == Ok(k)
    requires k !in BatchKeys(cols, rows[..|rows| - 1])
    ensures k in BatchKeys(cols, rows)
    ensures Expected(store, schema, cols, rows, k)
            == if k in store then WithActuals(store[k], Excluded(schema, cols, rows[|rows| - 1]))
               else Excluded(schema, cols, rows[|rows| - 1])
  {
    LastWithIsLast(cols, rows, k);
    FirstWithIsLast(cols, rows, k);
    if k !in store {
      WithActualsOfSelf(Excluded(schema, cols, rows[|rows| - 1]));
    }
  }


  // ------------------------------------------------------------ table shape

  /** Every stored row has exactly the table's columns and holds its own key. */
  ghost predicate ValidStore(schema: seq<string>, store: Store)
  {
    forall k :: k in store ==>
      (forall c :: c in store[k] <==> c in schema) &&
      "order_id" in store[k] && store[k]["order_id"] == Int(k)
  }

  /** No stored cell is NaN. */
  predicate NoNan(store: Store)
  {
    forall k, c :: k in store && c in store[k] ==> !store[k][c].Nan?
  }

  lemma UpsertValid(store: Store, schema: seq<string>, cols: seq<string>, row: Row)
    requires ValidStore(schema, store)
    requires Upsert(store, schema, cols, row).Ok?
    ensures ValidStore(schema, Upsert(store, schema, cols, row).value)
    ensures NoNan(store) ==> NoNan(Upsert(store, schema, cols, row).value)
  {
    assert !IsActual("order_id");
  }

  /** A load keeps the table well-formed, and a table no NaN reached stays so. */
  lemma {:induction false} UpsertAllValid(store: Store, schema: seq<string>, cols: seq<string>, rows: seq<Row>)
    requires ValidStore(schema, store)
    requires UpsertAll(store, schema, cols, rows).Ok?
    ensures ValidStore(schema, UpsertAll(store, schema, cols, rows).value)
    ensures NoNan(store) ==> NoNan(UpsertAll(store, schema, cols, rows).value)
    decreases |rows|
  {
    if rows != [] {
      var init := rows[..|rows| - 1];
      UpsertAllValid(store, schema, cols, init);
      UpsertValid(UpsertAll(store, schema, cols, init).value, schema, cols, rows[|rows| - 1]);
    }
  }

  /** A row already in the table keeps every column but the three actuals. */
  lemma UpsertAllKeepsNonActuals(store: Store, schema: seq<string>, cols: seq<string>, rows: seq<Row>, k: int, c: string)
    requires UpsertAll(store, schema, cols, rows).Ok?
    requires k in store && c in store[k] && !IsActual(c)
    ensures k in UpsertAll(store, schema, cols, rows).value
    ensures c in UpsertAll(store, schema, cols, rows).value[k]
    ensures UpsertAll(store, schema, cols, rows).value[k][c] == store[k][c]
  {
    UpsertAllResult(store, schema, cols, rows);
  }

  /** A key the load carries ends up with the actuals of its last occurrence,
      NULL where the load has no such column. */
  lemma UpsertAllLastActuals(store: Store, schema: seq<string>, cols: seq<string>, rows: seq<Row>, k: int, c: string)
    requires ValidStore(schema, store)
    requires UpsertAll(store, schema, cols, rows).Ok?
    requires k in BatchKeys(cols, rows) && IsActual(c) && c in schema
    ensures k in UpsertAll(store, schema, cols, rows).value
    ensures var v := UpsertAll(store, schema, cols, rows).value[k];
            && c in v
            && v[c] == (if c in cols then Bind(Cell(rows[LastWith(cols, rows, k)], c)) else Value.None)
  {
    UpsertAllResult(store, schema, cols, rows);
  }

  /** Replaying a successful load changes nothing. */
  lemma UpsertAllIdempotent(store: Store, schema: seq<string>, cols: seq<string>, rows: seq<Row>)
    requires UpsertAll(store, schema, cols, rows).Ok?
    ensures UpsertAll(UpsertAll(store, schema, cols, rows).value, schema, cols, rows)
            == UpsertAll(store, schema, cols, rows)
  {
    var s1 := UpsertAll(store, schema, cols, rows).value;
    UpsertAllSucceeds(store, schema, cols, rows);
    UpsertAllSucceeds(s1, schema, cols, rows);
    var s2 := UpsertAll(s1, schema, cols, rows).value;
    UpsertAllResult(store, schema, cols, rows);
    UpsertAllResult(s1, schema, cols, rows);
    assert s2.Keys == s1.Keys;
    forall k | k in s2 ensures s2[k] == s1[k] {
      ExpectedReplayed(store, schema, cols, rows, s1, k);
    }
    SameStore(s2, s1);
  }

  lemma SameStore(a: Store, b: Store)
    requires a.Keys == b.Keys
    requires forall k | k in a :: a[k] == b[k]
    ensures a == b
  {
    assert a.Keys == b.Keys;
    assert forall k | k in a :: a[k] == b[k];
  }

  lemma ExpectedReplayed(store: Store, schema: seq<string>, cols: seq<string>, rows: seq<Row>, s1: Store, k: int)
    requires k in s1 && (k in store || k in BatchKeys(cols, rows))
    requires s1[k] == Expected(store, schema, cols, rows, k)
    ensures k in s1 || k in BatchKeys(cols, rows)
    ensures Expected(s1, schema, cols, rows, k) == s1[k]
  {
    if k in BatchKeys(cols, rows) {
      var last := Excluded(schema, cols, rows[LastWith(cols, rows, k)]);
      var base := if k in store then store[k] else Excluded(schema, cols, rows[FirstWith(cols, rows, k)]);
      assert s1[k] == WithActuals(base, last);
      assert Expected(s1, schema, cols, rows, k) == WithActuals(s1[k], last);
      WithActualsTwice(base, last, last);
    }
  }

  /** A row whose `order_id` no other row of the load repeats is stored as
      the INSERT proposes it, or, for a key already present, as the stored row
      with that row's actuals. */
  lemma UpsertAllUnique(store: Store, schema: seq<string>, cols: seq<string>, rows: seq<Row>, i: int)
    requires UpsertAll(store, schema, cols, rows).Ok?
    requires 0 <= i < |rows|
    requires forall j :: 0 <= j < |rows| && j != i ==> OrderKey(rows[j]) != OrderKey(rows[i])
    ensures KeyOf(cols, rows[i]).Ok?
    ensures var k := KeyOf(cols, rows[i]).value;
            var s := UpsertAll(store, schema, cols, rows).value;
            && k in s
            && s[k] == if k in store then WithActuals(store[k], Excluded(schema, cols, rows[i]))
                       else Excluded(schema, cols, rows[i])
  {
    UpsertAllSucceeds(store, schema, cols, rows);
    UpsertAllResult(store, schema, cols, rows);
    var k := KeyOf(cols, rows[i]).value;
    assert k in BatchKeys(cols, rows);
    assert FirstWith(cols, rows, k) == i && LastWith(cols, rows, k) == i;
    WithActualsOfSelf(Excluded(schema, cols, rows[i]));
  }

  /** A load without repeated `order_id`s into an empty table stores each
      order exactly as its first row in the unfiltered rows proposes, and
      nothing else. */
  lemma FreshLoad(schema: seq<string>, cols: seq<string>, w: seq<Row>)
    requires UpsertAll(map[], schema, cols, Dedup(w)).Ok?
    ensures var s := UpsertAll(map[], schema, cols, Dedup(w)).value;
            && (forall k :: k in s ==> exists i :: 0 <= i < |w| && KeyOf(cols, w[i]) == Ok(k))
            && forall i :: 0 <= i < |w| && FirstOccurrence(w, i) ==>
                 KeyOf(cols, w[i]).Ok? && KeyOf(cols, w[i]).value in s &&
                 s[KeyOf(cols, w[i]).value] == Excluded(schema, cols, w[i])
  {
    var d := Dedup(w);
    UpsertAllSucceeds(map[], schema, cols, d);
    UpsertAllResult(map[], schema, cols, d);
    DedupMembers(w);
    DedupDistinctKeys(w);
    var s := UpsertAll(map[], schema, cols, d).value;
    forall k | k in s ensures exists i :: 0 <= i < |w| && KeyOf(cols, w[i]) == Ok(k) {
      var j :| 0 <= j < |d| && KeyOf(cols, d[j]) == Ok(k);
      assert d[j] in d;
      var i :| 0 <= i < |w| && w[i] == d[j] && FirstOccurrence(w, i);
    }
    forall i | 0 <= i < |w| && FirstOccurrence(w, i)
      ensures KeyOf(cols, w[i]).Ok? && KeyOf(cols, w[i]).value in s &&
              s[KeyOf(cols, w[i]).value] == Excluded(schema, cols, w[i])
    {
      assert w[i] in d;
      var j :| 0 <= j < |d| && d[j] == w[i];
      UpsertAllUnique(map[], schema, cols, d, j);
    }
  }

  /** A load whose columns include no actual stores NULL actuals under every
      key it carries, overwriting whatever the table held. */
  /** Every key of `keys` is stored with NULL in each actual column of the schema. */
  predicate ActualsNull(s: Store, schema: seq<string>, keys: set<int>)
  {
    forall k, c :: k in keys && c in schema && IsActual(c) ==> k in s && c in s[k] && s[k][c] == Value.None
  }

  lemma OmittedActualsAreNull(store: Store, schema: seq<string>, cols: seq<string>, rows: seq<Row>)
    requires ValidStore(schema, store)
    requires UpsertAll(store, schema, cols, rows).Ok?
    requires forall c :: c in cols ==> !IsActual(c)
    ensures ActualsNull(UpsertAll(store, schema, cols, rows).value, schema, BatchKeys(cols, rows))
  {
    forall k, c | k in BatchKeys(cols, rows) && c in schema && IsActual(c)
      ensures var s := UpsertAll(store, schema, cols, rows).value; k in s && c in s[k] && s[k][c] == Value.None
    {
      UpsertAllLastActuals(store, schema, cols, rows, k, c);
    }
  }

  // ----------------------------------------------------------------- UPDATE

  /** `WHERE order_id = %s`: an integer, or a float without a fractional part,
      selects that key; NULL and NaN select no row. */
  function MatchKey(v: Value): (r: Result<Option<int>, SqlError>)
    ensures r.Ok? && r.value.Some? ==> AsNumber(v) == Some(r.value.value as real)
    ensures IsNa(v) ==> r == Ok(Option.None)
    ensures r.Err? <==> v.Stamp? || v.Text?
  {
    match v
    case Int(i) => Ok(Some(i))
    case Real(x) => if x.Floor as real == x then Ok(Some(x.Floor)) else Ok(Option.None)
    case Nan => Ok(Option.None)
    case None => Ok(Option.None)
    case _ => Err(InvalidKey(v))
  }

  /** A value bound for a FLOAT column, as it is stored: NaN stays NaN, NULL
      stays NULL, an integer becomes a float. */
  function FloatValue(v: Value): (r: Result<Value, SqlError>)
    ensures r.Ok? <==> !v.Stamp? && !v.Text?
    ensures r.Ok? ==> AsNumber(r.value) == AsNumber(v) && (IsNa(v) <==> IsNa(r.value))
    ensures r.Ok? && IsNa(v) ==> r.value == v
  {
    match v
    case Int(i) => Ok(Real(i as real))
    case Stamp(_) => Err(InvalidValue(v))
    case Text(_) => Err(InvalidValue(v))
    case _ => Ok(v)
  }

  /** The fields the UPDATE reads from a row, in the order it reads them. */
  const UpdateFields: seq<string> := ColumnGenerator.Forecasts + ["order_id"]

  /** The three forecasts an UPDATE of `row` writes. */
  function ForecastValues(cols: seq<string>, row: Row): (r: Result<seq<Value>, SqlError>)
    ensures r.Ok? ==> |r.value| == 3
    ensures r.Ok? ==> forall j :: 0 <= j < 3 ==> FloatValue(Cell(row, ColumnGenerator.Forecasts[j])) == Ok(r.value[j])
  {
    var a := FloatValue(Cell(row, "bags_used_forecast"));
    var b := FloatValue(Cell(row, "cold_bags_used_forecast"));
    var c := FloatValue(Cell(row, "deep_frozen_bags_used_forecast"));
    if a.Err? then Err(a.error)
    else if b.Err? then Err(b.error)
    else if c.Err? then Err(c.error)
    else Ok([a.value, b.value, c.value])
  }

  function SetForecasts(rec: Record, vs: seq<Value>): (out: Record)
    requires |vs| == 3
    ensures out.Keys == rec.Keys + {"bags_used_forecast", "cold_bags_used_forecast", "deep_frozen_bags_used_forecast"}
    ensures forall j :: 0 <= j < 3 ==> out[ColumnGenerator.Forecasts[j]] == vs[j]
    ensures forall c :: c in rec && c !in ColumnGenerator.Forecasts ==> out[c] == rec[c]
  {
    rec["bags_used_forecast" := vs[0]]["cold_bags_used_forecast" := vs[1]]["deep_frozen_bags_used_forecast" := vs[2]]
  }

  /** The key a row of the frame selects, if any. */
  function UpdateTarget(cols: seq<string>, row: Row): (r: Result<Option<int>, SqlError>)
    ensures r.Err? <==> (exists c :: c in UpdateFields && c !in cols) ||
                        ForecastValues(cols, row).Err? || MatchKey(Cell(row, "order_id")).Err?
  {
    match FirstMissing(UpdateFields, cols)
    case Some(c) => Err(MissingField(c))
    case None =>
      if ForecastValues(cols, row).Err? then Err(ForecastValues(cols, row).error)
      else MatchKey(Cell(row, "order_id"))
  }

  /** One `UPDATE ... SET <forecasts> WHERE order_id = %s` statement; a key
      the table does not hold updates nothing. */
  function UpdateOne(store: Store, cols: seq<string>, row: Row): (r: Result<Store, SqlError>)
    ensures r.Err? <==> UpdateTarget(cols, row).Err?
    ensures r.Ok? ==> r.value.Keys == store.Keys
    ensures r.Ok? ==> forall k :: k in store && UpdateTarget(cols, row) != Ok(Some(k)) ==> r.value[k] == store[k]
    ensures r.Ok? ==> forall k :: k in store && UpdateTarget(cols, row) == Ok(Some(k)) ==>
              r.value[k] == SetForecasts(store[k], ForecastValues(cols, row).value)
  {
    match UpdateTarget(cols, row)
    case Err(e) => Err(e)
    case Ok(target) =>
      if target.Some? && target.value in store then
        Ok(store[target.value := SetForecasts(store[target.value], ForecastValues(cols, row).value)])
      else Ok(store)
  }

  /** The statements of `update_postgresql`, in row order, stopping at the first error. */
  function UpdateAll(store: Store, cols: seq<string>, rows: seq<Row>): (r: Result<Store, SqlError>)
    ensures r.Ok? ==> r.value.Keys == store.Keys
    ensures r.Ok? ==> forall k :: k in store ==> r.value[k].Keys >= store[k].Keys
    ensures r.Ok? ==> forall k, c :: k in store && c in store[k] && c !in ColumnGenerator.Forecasts ==>
              r.value[k][c] == store[k][c]
  {
    if rows == [] then Ok(store)
    else match UpdateAll(store, cols, rows[..|rows| - 1])
      case Err(e) => Err(e)
      case Ok(s) => UpdateOne(s, cols, rows[|rows| - 1])
  }

  /** Whether some row of the frame selects key `k`. */
  predicate Selects(cols: seq<string>, rows: seq<Row>, k: int)
  {
    exists i :: 0 <= i < |rows| && UpdateTarget(cols, rows[i]) == Ok(Some(k))
  }

  /** The table has the three forecast columns an UPDATE sets. */
  predicate HasForecastColumns(schema: seq<string>)
  {
    forall c :: c in ColumnGenerator.Forecasts ==> c in schema
  }

  /** The table `generate_columns` defines has them. */
  lemma TableHasForecastColumns()
    ensures HasForecastColumns(ColumnGenerator.GetColumnNames())
  {
    ColumnGenerator.ColumnNamesLayout();
    var names := ColumnGenerator.GetColumnNames();
    assert names[68] == "bags_used_forecast";
    assert names[70] == "cold_bags_used_forecast";
    assert names[72] == "deep_frozen_bags_used_forecast";
  }

  /** One UPDATE keeps every stored row at exactly the table's columns and
      with its own key, on a table that has the forecast columns. */
  lemma UpdateOneValid(schema: seq<string>, store: Store, cols: seq<string>, row: Row)
    requires ValidStore(schema, store) && HasForecastColumns(schema)
    requires UpdateOne(store, cols, row).Ok?
    ensures ValidStore(schema, UpdateOne(store, cols, row).value)
  {
    var target := UpdateTarget(cols, row).value;
    if target.Some? && target.value in store {
      var k := target.value;
      var rec := SetForecasts(store[k], ForecastValues(cols, row).value);
      assert ColumnGenerator.Forecasts[0] in schema && ColumnGenerator.Forecasts[1] in schema
             && ColumnGenerator.Forecasts[2] in schema;
      assert "order_id" !in ColumnGenerator.Forecasts;
      assert rec["order_id"] == store[k]["order_id"];
    }
  }

  /** The forecast UPDATEs keep the table well-formed. */
  lemma {:induction false} UpdateAllValid(schema: seq<string>, store: Store, cols: seq<string>, rows: seq<Row>)
    requires ValidStore(schema, store) && HasForecastColumns(schema)
    requires UpdateAll(store, cols, rows).Ok?
    ensures ValidStore(schema, UpdateAll(store, cols, rows).value)
    decreases |rows|
  {
    if rows != [] {
      var init := rows[..|rows| - 1];
      UpdateAllValid(schema, store, cols, init);
      UpdateOneValid(schema, UpdateAll(store, cols, init).value, cols, rows[|rows| - 1]);
    }
  }

  /** A stored row no UPDATE selects is left as it was. */
  lemma {:induction false} UpdateAllUnselected(store: Store, cols: seq<string>, rows: seq<Row>, k: int)
    requires UpdateAll(store, cols, rows).Ok? && k in store
    requires !Selects(cols, rows, k)
    ensures UpdateAll(store, cols, rows).value[k] == store[k]
    decreases |rows|
  {
    if rows != [] {
      var init := rows[..|rows| - 1];
      UpdateAllUnselected(store, cols, init, k);
    }
  }

  /** A stored row holds the forecasts of the last row of the frame that selects it. */
  lemma {:induction false} UpdateAllLastWins(store: Store, cols: seq<string>, rows: seq<Row>, k: int, i: int)
    requires UpdateAll(store, cols, rows).Ok? && k in store
    requires 0 <= i < |rows| && UpdateTarget(cols, rows[i]) == Ok(Some(k))
    requires forall j :: i < j < |rows| ==> UpdateTarget(cols, rows[j]) != Ok(Some(k))
    ensures var v := UpdateAll(store, cols, rows).value[k];
            forall n :: 0 <= n < 3 ==>
              ColumnGenerator.Forecasts[n] in v && v[ColumnGenerator.Forecasts[n]] == ForecastValues(cols, rows[i]).value[n]
    decreases |rows|
  {
    var m := |rows| - 1;
    var init := rows[..m];
    assert UpdateAll(store, cols, init).Ok?;
    var s0 := UpdateAll(store, cols, init).value;
    assert UpdateAll(store, cols, rows) == UpdateOne(s0, cols, rows[m]);
    assert k in s0;
    if i < m {
      LastSelectsInPrefix(cols, rows, k, i);
      UpdateAllLastWins(store, cols, init, k, i);
      UpdateOneSkips(s0, cols, rows[m], k);
    } else {
      UpdateOneWrites(s0, cols, rows[m], k);
    }
  }

  lemma LastSelectsInPrefix(cols: seq<string>, rows: seq<Row>, k: int, i: int)
    requires 0 <= i < |rows| - 1 && UpdateTarget(cols, rows[i]) == Ok(Some(k))
    requires forall j :: i < j < |rows| ==> UpdateTarget(cols, rows[j]) != Ok(Some(k))
    ensures var init := rows[..|rows| - 1];
            && UpdateTarget(cols, init[i]) == Ok(Some(k))
            && forall j :: i < j < |init| ==> UpdateTarget(cols, init[j]) != Ok(Some(k))
  {
    var init := rows[..|rows| - 1];
    assert forall j :: 0 <= j < |init| ==> init[j] == rows[j];
  }

  lemma UpdateOneSkips(store: Store, cols: seq<string>, row: Row, k: int)
    requires UpdateOne(store, cols, row).Ok? && k in store && UpdateTarget(cols, row) != Ok(Some(k))
    ensures UpdateOne(store, cols, row).value[k] == store[k]
  {
  }

  lemma UpdateOneWrites(store: Store, cols: seq<string>, row: Row, k: int)
    requires UpdateOne(store, cols, row).Ok? && k in store && UpdateTarget(cols, row) == Ok(Some(k))
    ensures var v := UpdateOne(store, cols, row).value[k];
            forall n :: 0 <= n < 3 ==>
              ColumnGenerator.Forecasts[n] in v && v[ColumnGenerator.Forecasts[n]] == ForecastValues(cols, row).value[n]
  {
  }

  /** The last row of the frame that selects `k`. */
  lemma {:induction false} LastSelecting(store: Store, cols: seq<string>, rows: seq<Row>, k: int) returns (i: int)
    requires Selects(cols, rows, k)
    ensures 0 <= i < |rows| && UpdateTarget(cols, rows[i]) == Ok(Some(k))
    ensures forall j :: i < j < |rows| ==> UpdateTarget(cols, rows[j]) != Ok(Some(k))
    decreases |rows|
  {
    var m := |rows| - 1;
    if UpdateTarget(cols, rows[m]) == Ok(Some(k)) {
      i := m;
    } else {
      var init := rows[..m];
      var j :| 0 <= j < |rows| && UpdateTarget(cols, rows[j]) == Ok(Some(k));
      assert init[j] == rows[j];
      i := LastSelecting(store, cols, init, k);
      assert forall j :: i < j < m ==> init[j] == rows[j];
    }
  }

  /** An update fails exactly when one of its rows does, whatever the table holds. */
  lemma {:induction false} UpdateAllSucceeds(store: Store, cols: seq<string>, rows: seq<Row>)
    ensures UpdateAll(store, cols, rows).Ok? <==>
            forall i :: 0 <= i < |rows| ==> UpdateTarget(cols, rows[i]).Ok?
    decreases |rows|
  {
    if rows != [] {
      var init := rows[..|rows| - 1];
      UpdateAllSucceeds(store, cols, init);
      assert forall i :: 0 <= i < |init| ==> init[i] == rows[i];
    }
  }

  /** One more UPDATE after a successful prefix. */
  lemma UpdateAllStep(store: Store, cols: seq<string>, rows: seq<Row>, i: int, pending: Store)
    requires 0 <= i < |rows| && UpdateAll(store, cols, rows[..i]) == Ok(pending)
    ensures UpdateAll(store, cols, rows[..i + 1]) == UpdateOne(pending, cols, rows[i])
  {
    var next := rows[..i + 1];
    assert next[..|next| - 1] == rows[..i] && next[|next| - 1] == rows[i];
  }

  lemma {:induction false} UpdateAllPrefixError(store: Store, cols: seq<string>, rows: seq<Row>, n: int)
    requires 0 <= n <= |rows|
    requires UpdateAll(store, cols, rows[..n]).Err?
    ensures UpdateAll(store, cols, rows) == UpdateAll(store, cols, rows[..n])
    decreases |rows| - n
  {
    if n < |rows| {
      var m := |rows| - 1;
      assert rows[..m][..n] == rows[..n];
      UpdateAllPrefixError(store, cols, rows[..m], n);
    } else {
      assert rows[..n] == rows;
    }
  }

  // ---------------------------------------------------------- several loads

  /** A sequence of `load_to_postgres` calls, each its own transaction: the
      loads before the first failing one stay committed and the rest never run. */
  function RunLoads(store: Store, schema: seq<string>, loads: seq<Frame>): (out: (bool, Store))
    ensures out.0 ==> out.1.Keys >= store.Keys
    decreases |loads|
  {
    if loads == [] then (true, store)
    else
      match UpsertAll(store, schema, loads[0].columns, loads[0].rows)
      case Err(_) => (false, store)
      case Ok(s) =>
        UpsertAllResult(store, schema, loads[0].columns, loads[0].rows);
        RunLoads(s, schema, loads[1..])
  }

  predicate AllLoadsOk(schema: seq<string>, loads: seq<Frame>)
  {
    forall i :: 0 <= i < |loads| ==> BatchOk(schema, loads[i].columns, loads[i].rows)
  }

  /** The loads all commit exactly when each of them is free of errors. */
  lemma {:induction false} RunLoadsSucceeds(store: Store, schema: seq<string>, loads: seq<Frame>)
    ensures RunLoads(store, schema, loads).0 <==> AllLoadsOk(schema, loads)
    decreases |loads|
  {
    if loads != [] {
      UpsertAllSucceeds(store, schema, loads[0].columns, loads[0].rows);
      var r := UpsertAll(store, schema, loads[0].columns, loads[0].rows);
      if r.Ok? {
        RunLoadsSucceeds(r.value, schema, loads[1..]);
        assert forall i :: 1 <= i < |loads| ==> loads[1..][i - 1] == loads[i];
      }
    }
  }

  /** When a load fails, the table holds exactly what the loads before it committed. */
  lemma {:induction false} RunLoadsFailure(store: Store, schema: seq<string>, loads: seq<Frame>, n: int)
    requires 0 <= n < |loads| && AllLoadsOk(schema, loads[..n])
    requires !BatchOk(schema, loads[n].columns, loads[n].rows)
    ensures RunLoads(store, schema, loads) == (false, RunLoads(store, schema, loads[..n]).1)
    decreases n
  {
    UpsertAllSucceeds(store, schema, loads[0].columns, loads[0].rows);
    if n > 0 {
      assert loads[..n][0] == loads[0];
      var s := UpsertAll(store, schema, loads[0].columns, loads[0].rows).value;
      assert loads[1..][..n - 1] == loads[..n][1..];
      RunLoadsFailure(s, schema, loads[1..], n - 1);
    }
  }

  /** `RunLoads` unfolded by one load. */
  lemma RunLoadsCons(store: Store, schema: seq<string>, first: Frame, rest: seq<Frame>)
    ensures var u := UpsertAll(store, schema, first.columns, first.rows);
            RunLoads(store, schema, [first] + rest) ==
              if u.Err? then (false, store) else RunLoads(u.value, schema, rest)
  {
    assert ([first] + rest)[0] == first && ([first] + rest)[1..] == rest;
  }

  /** `RunLoads` split before its last load. */
  lemma {:induction false} RunLoadsSnoc(store: Store, schema: seq<string>, loads: seq<Frame>, last: Frame)
    ensures var before := RunLoads(store, schema, loads);
            RunLoads(store, schema, loads + [last]) ==
              if before.0 then RunLoads(before.1, schema, [last]) else before
    decreases |loads|
  {
    if loads == [] {
      assert [] + [last] == [last];
    } else {
      RunLoadsCons(store, schema, loads[0], loads[1..] + [last]);
      assert [loads[0]] + (loads[1..] + [last]) == loads + [last];
      RunLoadsCons(store, schema, loads[0], loads[1..]);
      assert [loads[0]] + loads[1..] == loads;
      var u := UpsertAll(store, schema, loads[0].columns, loads[0].rows);
      if u.Ok? {
        RunLoadsSnoc(u.value, schema, loads[1..], last);
      }
    }
  }

  /** Loads keep the table well-formed. */
  lemma {:induction false} RunLoadsValid(store: Store, schema: seq<string>, loads: seq<Frame>)
    requires ValidStore(schema, store)
    ensures ValidStore(schema, RunLoads(store, schema, loads).1)
    decreases |loads|
  {
    if loads != [] {
      var u := UpsertAll(store, schema, loads[0].columns, loads[0].rows);
      if u.Ok? {
        UpsertAllValid(store, schema, loads[0].columns, loads[0].rows);
        RunLoadsValid(u.value, schema, loads[1..]);
      }
    }
  }

  /** Every key in the table afterwards was there before or is carried by a
      row of one of the loads. */
  lemma {:induction false} RunLoadsKeys(store: Store, schema: seq<string>, loads: seq<Frame>)
    ensures forall k :: k in RunLoads(store, schema, loads).1 ==>
              k in store || exists i, j :: 0 <= i < |loads| && 0 <= j < |loads[i].rows| &&
                                       KeyOf(loads[i].columns, loads[i].rows[j]) == Ok(k)
    decreases |loads|
  {
    if loads != [] {
      var u := UpsertAll(store, schema, loads[0].columns, loads[0].rows);
      if u.Ok? {
        UpsertAllResult(store, schema, loads[0].columns, loads[0].rows);
        RunLoadsKeys(u.value, schema, loads[1..]);
        forall k | k in RunLoads(store, schema, loads).1
          ensures k in store || exists i, j :: 0 <= i < |loads| && 0 <= j < |loads[i].rows| &&
                                          KeyOf(loads[i].columns, loads[i].rows[j]) == Ok(k)
        {
          if k !in u.value {
            var i, j :| 0 <= i < |loads[1..]| && 0 <= j < |loads[1..][i].rows| &&
                        KeyOf(loads[1..][i].columns, loads[1..][i].rows[j]) == Ok(k);
            assert loads[1..][i] == loads[i + 1];
          } else if k !in store {
            assert k in BatchKeys(loads[0].columns, loads[0].rows);
          }
        }
      }
    }
  }

  /** After a run whose last load has no actual columns, every key that load
      carries holds NULL actuals. */
  lemma LastLoadOmitsActuals(store: Store, schema: seq<string>, loads: seq<Frame>)
    requires ValidStore(schema, store)
    requires |loads| >= 1 && RunLoads(store, schema, loads).0
    requires forall c :: c in loads[|loads| - 1].columns ==> !IsActual(c)
    ensures var last := loads[|loads| - 1];
            ActualsNull(RunLoads(store, schema, loads).1, schema, BatchKeys(last.columns, last.rows))
  {
    var init, last := loads[..|loads| - 1], loads[|loads| - 1];
    assert loads == init + [last];
    RunLoadsSnoc(store, schema, init, last);
    var before := RunLoads(store, schema, init);
    RunLoadsValid(store, schema, init);
    RunLoadsCons(before.1, schema, last, []);
    assert [last] + [] == [last];
    OmittedActualsAreNull(before.1, schema, last.columns, last.rows);
  }

  // ------------------------------------------------------------------ table

  /** The table behind one connection: `rows` is what has been committed. */
  class SqlTable {
    const schema: seq<string>
    var rows: Store

    /** Every committed row is well-formed, and the table has the forecast
        columns, as the table `generate_columns` defines does
        (`TableHasForecastColumns`). */
    ghost predicate Valid()
      reads this
    {
      HasForecastColumns(schema) && ValidStore(schema, rows)
    }

    constructor (schema: seq<string>)
      requires HasForecastColumns(schema)
      ensures this.schema == schema && rows == map[] && Valid()
    {
      this.schema := schema;
      rows := map[];
    }

    /** `is_postgres_empty`. */
    predicate IsEmpty()
      reads this
    {
      |rows| == 0
    }

    /** `load_to_postgres`: one upsert per row, then a single commit; an
        error leaves the committed rows as they were. */
    method Load(data: Frame) returns (r: Result<(), SqlError>)
      requires Valid()
      modifies this
      ensures Valid()
      ensures r.Ok? <==> BatchOk(schema, data.columns, data.rows)
      ensures r.Ok? ==> UpsertAll(old(rows), schema, data.columns, data.rows) == Ok(rows)
      ensures r.Err? ==> rows == old(rows) && UpsertAll(old(rows), schema, data.columns, data.rows) == Err(r.error)
    {
      UpsertAllSucceeds(rows, schema, data.columns, data.rows);
      var pending := rows;
      var i := 0;
      while i < |data.rows|
        invariant 0 <= i <= |data.rows| && rows == old(rows)
        invariant UpsertAll(rows, schema, data.columns, data.rows[..i]) == Ok(pending)
      {
        var step := Upsert(pending, schema, data.columns, data.rows[i]);
        UpsertAllStep(rows, schema, data.columns, data.rows, i, pending);
        if step.Err? {
          UpsertAllPrefixError(rows, schema, data.columns, data.rows, i + 1);
          return Err(step.error);
        }
        pending := step.value;
        i := i + 1;
      }
      assert data.rows[..i] == data.rows;
      UpsertAllValid(rows, schema, data.columns, data.rows);
      rows := pending;
      return Ok(());
    }

    /** `update_postgresql`: one UPDATE per row, then a single commit. */
    method UpdateForecasts(data: Frame) returns (r: Result<(), SqlError>)
      requires Valid()
      modifies this
      ensures Valid()
      ensures r.Ok? <==> forall i :: 0 <= i < |data.rows| ==> UpdateTarget(data.columns, data.rows[i]).Ok?
      ensures r.Ok? ==> UpdateAll(old(rows), data.columns, data.rows) == Ok(rows)
      ensures r.Err? ==> rows == old(rows) && UpdateAll(old(rows), data.columns, data.rows) == Err(r.error)
    {
      UpdateAllSucceeds(rows, data.columns, data.rows);
      var pending := rows;
      var i := 0;
      while i < |data.rows|
        invariant 0 <= i <= |data.rows| && rows == old(rows)
        invariant UpdateAll(rows, data.columns, data.rows[..i]) == Ok(pending)
      {
        var step := UpdateOne(pending, data.columns, data.rows[i]);
        UpdateAllStep(rows, data.columns, data.rows, i, pending);
        if step.Err? {
          UpdateAllPrefixError(rows, data.columns, data.rows, i + 1);
          return Err(step.error);
        }
        pending := step.value;
        i := i + 1;
      }
      assert data.rows[..i] == data.rows;
      UpdateAllValid(schema, rows, data.columns, data.rows);
      rows := pending;
      return Ok(());
    }
  }
}
