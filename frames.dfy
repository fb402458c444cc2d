/** The slice of pandas the pipeline uses: a frame is an ordered list of
    column names and a list of rows; a row maps column names to cells. */
module Frames {
  import opened Wrappers

  /** One cell. `Nan` is pandas' NaN/NaT marker, `None` Python's None; both
      are "missing" for `isna`, `dropna` and `fillna`. Instants are `Stamp`s. */
  datatype Value = Nan | None | Int(i: int) | Real(x: real) | Stamp(t: int) | Text(s: string)

  /** `pd.isna`. */
  predicate IsNa(v: Value)
  {
    v.Nan? || v.None?
  }

  function AsNumber(v: Value): Option<real>
  {
    match v
    case Int(i) => Some(i as real)
    case Real(x) => Some(x)
    case _ => Option.None
  }

  /** Element-wise comparisons of a numeric column with a constant: a missing
      cell never satisfies one. */
  predicate Below(v: Value, bound: real)
  {
    AsNumber(v).Some? && AsNumber(v).value < bound
  }

  predicate AtLeast(v: Value, bound: real)
  {
    AsNumber(v).Some? && AsNumber(v).value >= bound
  }

  predicate Above(v: Value, bound: real)
  {
    AsNumber(v).Some? && AsNumber(v).value > bound
  }

  /** Element-wise `==` of two cells: missing values never compare equal. */
  predicate SameValue(a: Value, b: Value)
  {
    !IsNa(a) && !IsNa(b) && a == b
  }

  type Row = map<string, Value>

  datatype Frame = Frame(columns: seq<string>, rows: seq<Row>)

  /** The cell of column `c`; on a well-formed frame every row has every column. */
  function Cell(r: Row, c: string): Value
  {
    if c in r then r[c] else Nan
  }

  predicate Distinct<T(==)>(s: seq<T>)
  {
    forall i, j :: 0 <= i < j < |s| ==> s[i] != s[j]
  }

  function ColumnSet(f: Frame): set<string>
  {
    set c | c in f.columns
  }

  /** What pandas guarantees of every frame: distinct labels, and a cell for
      every column in every row. */
  ghost predicate WellFormed(f: Frame)
  {
    && Distinct(f.columns)
    && forall i :: 0 <= i < |f.rows| ==> f.rows[i].Keys == ColumnSet(f)
  }

  predicate NoMissing(f: Frame)
  {
    forall i, c :: 0 <= i < |f.rows| && c in f.rows[i] ==> !IsNa(f.rows[i][c])
  }

  /** The instant in `delivery_time`, if the cell holds one (NaT holds none). */
  function DeliveryTime(r: Row): Option<int>
  {
    match Cell(r, "delivery_time")
    case Stamp(t) => Some(t)
    case _ => Option.None
  }

  function OrderKey(r: Row): Value
  {
    Cell(r, "order_id")
  }

  /** `a` is `b` with some elements left out, the rest in their original order. */
  predicate IsSubsequence<T(==)>(a: seq<T>, b: seq<T>)
    decreases |b|
  {
    a == [] || (b != [] && ((a[0] == b[0] && IsSubsequence(a[1..], b[1..])) || IsSubsequence(a, b[1..])))
  }

  lemma {:induction false} SubsequenceMembers<T>(a: seq<T>, b: seq<T>)
    requires IsSubsequence(a, b)
    ensures forall x :: x in a ==> x in b
    ensures |a| <= |b|
    decreases |b|
  {
    if a != [] {
      if a[0] == b[0] && IsSubsequence(a[1..], b[1..]) {
        SubsequenceMembers(a[1..], b[1..]);
        assert a == [a[0]] + a[1..] && b == [b[0]] + b[1..];
      } else {
        SubsequenceMembers(a, b[1..]);
        assert b == [b[0]] + b[1..];
      }
    }
  }

  // ---------------------------------------------------------------- row filters

  /** The rows of `rows` that satisfy `keep`, in order: `df[mask]`. */
  function FilterRows(rows: seq<Row>, keep: Row -> bool): (out: seq<Row>)
    ensures |out| <= |rows|
    ensures forall r :: r in out <==> r in rows && keep(r)
  {
    if rows == [] then []
    else (if keep(rows[0]) then [rows[0]] else []) + FilterRows(rows[1..], keep)
  }

  lemma {:induction false} FilterIsSubsequence(rows: seq<Row>, keep: Row -> bool)
    ensures IsSubsequence(FilterRows(rows, keep), rows)
  {
    if rows != [] {
      FilterIsSubsequence(rows[1..], keep);
      var rest := FilterRows(rows[1..], keep);
      if keep(rows[0]) {
        assert FilterRows(rows, keep) == [rows[0]] + rest;
        assert ([rows[0]] + rest)[1..] == rest;
      } else {
        assert FilterRows(rows, keep) == rest;
        SubsequenceSkip(rest, rows);
      }
    }
  }

  /** Prepending to `b` keeps `a` a subsequence of it. */
  lemma SubsequenceSkip<T>(a: seq<T>, b: seq<T>)
    requires b != [] && IsSubsequence(a, b[1..])
    ensures IsSubsequence(a, b)
  {
  }

  /** Filtering twice with the same predicate filters once. */
  lemma {:induction false} FilterIdempotent(rows: seq<Row>, keep: Row -> bool)
    ensures FilterRows(FilterRows(rows, keep), keep) == FilterRows(rows, keep)
  {
    if rows != [] {
      FilterIdempotent(rows[1..], keep);
      var rest := FilterRows(rows[1..], keep);
      if keep(rows[0]) {
        assert FilterRows(rows, keep) == [rows[0]] + rest;
        assert ([rows[0]] + rest)[1..] == rest;
      } else {
        assert FilterRows(rows, keep) == rest;
      }
    }
  }

  /** The index of the first row satisfying `p`, if any: where pandas
      reports an error found while scanning a column. */
  function FirstWhere(rows: seq<Row>, p: Row -> bool): (r: Option<nat>)
    ensures r.None? <==> forall i :: 0 <= i < |rows| ==> !p(rows[i])
    ensures r.Some? ==> r.value < |rows| && p(rows[r.value]) && forall j :: 0 <= j < r.value ==> !p(rows[j])
  {
    if rows == [] then Option.None
    else if p(rows[0]) then Some(0)
    else match FirstWhere(rows[1..], p)
      case None => Option.None
      case Some(j) => Some(j + 1)
  }

  /** Filtering by `p` and then by `q` is filtering once by their conjunction
      `both`. */
  lemma {:induction false} FilterTwice(rows: seq<Row>, p: Row -> bool, q: Row -> bool, both: Row -> bool)
    requires forall r :: both(r) == (p(r) && q(r))
    ensures FilterRows(FilterRows(rows, p), q) == FilterRows(rows, both)
  {
    if rows != [] {
      FilterTwice(rows[1..], p, q, both);
      var rest := FilterRows(rows[1..], p);
      if p(rows[0]) {
        assert FilterRows(rows, p) == [rows[0]] + rest;
        assert ([rows[0]] + rest)[1..] == rest;
      } else {
        assert FilterRows(rows, p) == rest;
      }
    }
  }

  /** A filter every row passes keeps every row. */
  lemma {:induction false} FilterKeepsAll(rows: seq<Row>, keep: Row -> bool)
    requires forall i :: 0 <= i < |rows| ==> keep(rows[i])
    ensures FilterRows(rows, keep) == rows
  {
    if rows != [] {
      FilterKeepsAll(rows[1..], keep);
      assert [rows[0]] + rows[1..] == rows;
    }
  }

  /** A stricter filter keeps a subsequence of what a looser one keeps. */
  lemma {:induction false} FilterStricter(rows: seq<Row>, strict: Row -> bool, loose: Row -> bool)
    requires forall r :: strict(r) ==> loose(r)
    ensures IsSubsequence(FilterRows(rows, strict), FilterRows(rows, loose))
  {
    if rows != [] {
      FilterStricter(rows[1..], strict, loose);
      var a, b := FilterRows(rows[1..], strict), FilterRows(rows[1..], loose);
      if strict(rows[0]) {
        assert FilterRows(rows, strict) == [rows[0]] + a && FilterRows(rows, loose) == [rows[0]] + b;
        assert ([rows[0]] + a)[1..] == a && ([rows[0]] + b)[1..] == b;
      } else if loose(rows[0]) {
        assert FilterRows(rows, strict) == a && FilterRows(rows, loose) == [rows[0]] + b;
        assert ([rows[0]] + b)[1..] == b;
        SubsequenceSkip(a, [rows[0]] + b);
      } else {
        assert FilterRows(rows, strict) == a && FilterRows(rows, loose) == b;
      }
    }
  }

  /** `df[mask]`. */
  function Where(f: Frame, keep: Row -> bool): (g: Frame)
    ensures g.columns == f.columns
    ensures WellFormed(f) ==> WellFormed(g)
  {
    var g := Frame(f.columns, FilterRows(f.rows, keep));
    assert forall i :: 0 <= i < |g.rows| ==> g.rows[i] in f.rows;
    g
  }

  /** `df[df.<c> <op> <constant>]`: AttributeError when the frame has no
      column `c`. */
  function WhereColumn(f: Frame, c: string, keep: Row -> bool): (r: Result<Frame, FrameError>)
    ensures r.Ok? <==> c in f.columns
    ensures r.Err? ==> r.error == MissingColumn(c)
  {
    if c in f.columns then Ok(Where(f, keep)) else Err(MissingColumn(c))
  }

  // ------------------------------------------------------------- column drops

  /** The columns of `cols` that `drop` does not select, in their order. */
  function ColumnsWithout(cols: seq<string>, drop: string -> bool): (out: seq<string>)
    ensures forall c :: c in out <==> c in cols && !drop(c)
    ensures Distinct(cols) ==> Distinct(out)
  {
    if cols == [] then []
    else
      var rest := ColumnsWithout(cols[1..], drop);
      if drop(cols[0]) then rest else [cols[0]] + rest
  }

  lemma {:induction false} ColumnsWithoutIsSubsequence(cols: seq<string>, drop: string -> bool)
    ensures IsSubsequence(ColumnsWithout(cols, drop), cols)
  {
    if cols != [] {
      ColumnsWithoutIsSubsequence(cols[1..], drop);
      var rest := ColumnsWithout(cols[1..], drop);
      if drop(cols[0]) {
        SubsequenceSkip(rest, cols);
      } else {
        assert ([cols[0]] + rest)[1..] == rest;
      }
    }
  }

  /** Columns that survive keep the order they had. */
  lemma {:induction false} ColumnsWithoutUnchanged(cols: seq<string>, drop: string -> bool)
    requires forall c :: c in cols ==> !drop(c)
    ensures ColumnsWithout(cols, drop) == cols
  {
    if cols != [] {
      ColumnsWithoutUnchanged(cols[1..], drop);
      assert [cols[0]] + cols[1..] == cols;
    }
  }

  function RestrictRow(r: Row, drop: string -> bool): Row
  {
    map c | c in r && !drop(c) :: r[c]
  }

  function RestrictRows(rows: seq<Row>, drop: string -> bool): (out: seq<Row>)
    ensures |out| == |rows|
    ensures forall i :: 0 <= i < |rows| ==> out[i] == RestrictRow(rows[i], drop)
  {
    if rows == [] then [] else [RestrictRow(rows[0], drop)] + RestrictRows(rows[1..], drop)
  }

  /** `df.drop(columns=[c for c in df.columns if drop(c)])`. */
  function DropColumns(f: Frame, drop: string -> bool): (g: Frame)
    ensures |g.rows| == |f.rows|
    ensures WellFormed(f) ==> WellFormed(g)
  {
    Frame(ColumnsWithout(f.columns, drop), RestrictRows(f.rows, drop))
  }

  lemma {:induction false} DropColumnsIdempotent(f: Frame, drop: string -> bool)
    ensures DropColumns(DropColumns(f, drop), drop) == DropColumns(f, drop)
  {
    var g := DropColumns(f, drop);
    ColumnsWithoutUnchanged(g.columns, drop);
    var h := DropColumns(g, drop);
    assert h.rows == g.rows by {
      forall i | 0 <= i < |g.rows|
        ensures h.rows[i] == g.rows[i]
      {
        assert RestrictRow(g.rows[i], drop) == g.rows[i];
      }
    }
  }

  // ------------------------------------------------------------- duplicates

  /** Row j is the first row carrying its `order_id`. */
  predicate FirstOccurrence(rows: seq<Row>, j: int)
    requires 0 <= j < |rows|
  {
    forall i :: 0 <= i < j ==> OrderKey(rows[i]) != OrderKey(rows[j])
  }

  function Keys(rows: seq<Row>): set<Value>
  {
    set i | 0 <= i < |rows| :: OrderKey(rows[i])
  }

  /** `drop_duplicates(subset=['order_id'])`: a row stays iff no earlier row
      carries the same `order_id` (the first occurrence wins). No row is
      added: the result is no longer than the input and takes its rows from it. */
  function Dedup(rows: seq<Row>): (out: seq<Row>)
    ensures |out| <= |rows|
    ensures forall r :: r in out ==> r in rows
  {
    if rows == [] then []
    else
      var init, last := rows[..|rows| - 1], rows[|rows| - 1];
      Dedup(init) + (if OrderKey(last) in Keys(init) then [] else [last])
  }

  lemma KeysOfPrefix(rows: seq<Row>)
    requires rows != []
    ensures Keys(rows) == Keys(rows[..|rows| - 1]) + {OrderKey(rows[|rows| - 1])}
  {
    var init := rows[..|rows| - 1];
    forall k | k in Keys(rows) ensures k in Keys(init) + {OrderKey(rows[|rows| - 1])} {
      var i :| 0 <= i < |rows| && OrderKey(rows[i]) == k;
      if i < |rows| - 1 { assert OrderKey(init[i]) == k; }
    }
    forall k | k in Keys(init) ensures k in Keys(rows) {
      var i :| 0 <= i < |init| && OrderKey(init[i]) == k;
      assert OrderKey(rows[i]) == k;
    }
  }

  /** The de-duplicated rows carry pairwise distinct `order_id`s. */
  lemma {:induction false} DedupDistinctKeys(rows: seq<Row>)
    ensures var out := Dedup(rows);
      forall i, j :: 0 <= i < j < |out| ==> OrderKey(out[i]) != OrderKey(out[j])
    ensures Keys(Dedup(rows)) == Keys(rows)
    decreases |rows|
  {
    if rows != [] {
      var init, last := rows[..|rows| - 1], rows[|rows| - 1];
      DedupDistinctKeys(init);
      KeysOfPrefix(rows);
      var d := Dedup(init);
      var out := Dedup(rows);
      if OrderKey(last) in Keys(init) {
        assert out == d;
      } else {
        assert out == d + [last];
        KeysOfPrefix(out);
        assert out[..|out| - 1] == d;
        forall i | 0 <= i < |d| ensures OrderKey(out[i]) != OrderKey(last) {
          assert OrderKey(d[i]) in Keys(d);
        }
      }
    }
  }

  /** De-duplication keeps the surviving rows in input order. */
  lemma {:induction false} DedupIsSubsequence(rows: seq<Row>)
    ensures IsSubsequence(Dedup(rows), rows)
    decreases |rows|
  {
    if rows != [] {
      var init, last := rows[..|rows| - 1], rows[|rows| - 1];
      DedupIsSubsequence(init);
      var tail := if OrderKey(last) in Keys(init) then [] else [last];
      SubsequenceAppend(Dedup(init), init, tail, last);
      assert init + [last] == rows;
    }
  }

  /** A row survives de-duplication iff it is the first with its `order_id`. */
  lemma {:induction false} DedupMembers(rows: seq<Row>)
    ensures forall r :: r in Dedup(rows) <==>
      exists j :: 0 <= j < |rows| && rows[j] == r && FirstOccurrence(rows, j)
    decreases |rows|
  {
    if rows != [] {
      var init, last := rows[..|rows| - 1], rows[|rows| - 1];
      DedupMembers(init);
      var d := Dedup(init);
      var isNew := OrderKey(last) !in Keys(init);
      assert Dedup(rows) == d + (if isNew then [last] else []);
      forall r ensures r in Dedup(rows) <==> exists j :: 0 <= j < |rows| && rows[j] == r && FirstOccurrence(rows, j) {
        if r in Dedup(rows) {
          if r in d {
            var j :| 0 <= j < |init| && init[j] == r && FirstOccurrence(init, j);
            assert rows[j] == r && FirstOccurrence(rows, j);
          } else {
            assert r == last && isNew;
            forall i | 0 <= i < |rows| - 1 ensures OrderKey(rows[i]) != OrderKey(last) {
              assert rows[i] == init[i];
            }
            assert FirstOccurrence(rows, |rows| - 1);
          }
        } else {
          forall j | 0 <= j < |rows| && rows[j] == r ensures !FirstOccurrence(rows, j) {
            if j < |rows| - 1 {
              assert init[j] == r;
              var i :| 0 <= i < j && OrderKey(init[i]) == OrderKey(init[j]);
              assert OrderKey(rows[i]) == OrderKey(rows[j]);
            } else {
              var i :| 0 <= i < |init| && OrderKey(init[i]) == OrderKey(last);
              assert OrderKey(rows[i]) == OrderKey(rows[j]);
            }
          }
        }
      }
    }
  }

  lemma {:induction false} SubsequenceAppend<T>(a: seq<T>, b: seq<T>, tail: seq<T>, x: T)
    requires IsSubsequence(a, b)
    requires tail == [] || tail == [x]
    ensures IsSubsequence(a + tail, b + [x])
    decreases |b|
  {
    if a == [] {
      assert a + tail == tail;
      if tail == [x] {
        assert IsSubsequence(tail, [x]) by { assert tail[1..] == [] && [x][1..] == []; }
        SubsequenceOfSuffix(tail, b, [x]);
      }
    } else {
      assert b != [];
      assert (a + tail)[0] == a[0] && (a + tail)[1..] == a[1..] + tail;
      assert (b + [x])[0] == b[0] && (b + [x])[1..] == b[1..] + [x];
      if a[0] == b[0] && IsSubsequence(a[1..], b[1..]) {
        SubsequenceAppend(a[1..], b[1..], tail, x);
      } else {
        SubsequenceAppend(a, b[1..], tail, x);
      }
    }
  }

  lemma {:induction false} SubsequenceOfSuffix<T>(a: seq<T>, pre: seq<T>, b: seq<T>)
    requires IsSubsequence(a, b)
    ensures IsSubsequence(a, pre + b)
    decreases |pre|
  {
    if pre != [] {
      SubsequenceOfSuffix(a, pre[1..], b);
      assert (pre + b)[1..] == pre[1..] + b;
      SubsequenceSkip(a, pre + b);
    } else {
      assert pre + b == b;
    }
  }

  /** The frame with only the first row of each `order_id`. */
  function Deduplicated(f: Frame): (g: Frame)
    ensures g.columns == f.columns
  {
    Frame(f.columns, Dedup(f.rows))
  }

  /** `drop_duplicates(subset=['order_id'])`: a frame without an `order_id`
      column raises `KeyError`, even when it has no rows; otherwise only the
      first row of each key is kept. */
  function RemoveDuplicates(f: Frame): (r: Result<Frame, FrameError>)
    ensures r.Err? <==> "order_id" !in f.columns
    ensures r.Err? ==> r.error == MissingColumn("order_id")
    ensures r.Ok? ==> r.value.columns == f.columns && r.value.rows == Dedup(f.rows)
  {
    if "order_id" !in f.columns then Err(MissingColumn("order_id")) else Ok(Deduplicated(f))
  }

  // ------------------------------------------------------------- fillna

  function FillRow(r: Row, v: Value): Row
  {
    map c | c in r :: if IsNa(r[c]) then v else r[c]
  }

  function FillRows(rows: seq<Row>, v: Value): (out: seq<Row>)
    ensures |out| == |rows|
    ensures forall i :: 0 <= i < |rows| ==> out[i] == FillRow(rows[i], v)
  {
    if rows == [] then [] else [FillRow(rows[0], v)] + FillRows(rows[1..], v)
  }

  /** `df.fillna(v)`: every missing cell becomes `v`, nothing else changes. */
  function FillNa(f: Frame, v: Value): (g: Frame)
    requires !IsNa(v)
    ensures g.columns == f.columns && |g.rows| == |f.rows|
    ensures NoMissing(g)
    ensures forall i, c :: 0 <= i < |f.rows| && c in f.rows[i] && !IsNa(f.rows[i][c]) ==>
              c in g.rows[i] && g.rows[i][c] == f.rows[i][c]
    ensures forall i :: 0 <= i < |f.rows| ==> g.rows[i].Keys == f.rows[i].Keys
  {
    Frame(f.columns, FillRows(f.rows, v))
  }

  /** Filling both sides keeps a subsequence a subsequence. */
  lemma {:induction false} FillRowsSubsequence(a: seq<Row>, b: seq<Row>, v: Value)
    requires IsSubsequence(a, b)
    ensures IsSubsequence(FillRows(a, v), FillRows(b, v))
    decreases |b|
  {
    if a != [] {
      var fa, fb := FillRows(a, v), FillRows(b, v);
      assert fa[1..] == FillRows(a[1..], v) && fb[1..] == FillRows(b[1..], v);
      if a[0] == b[0] && IsSubsequence(a[1..], b[1..]) {
        FillRowsSubsequence(a[1..], b[1..], v);
      } else {
        FillRowsSubsequence(a, b[1..], v);
        SubsequenceSkip(fa, fb);
      }
    }
  }

  lemma FillRowNoop(r: Row, v: Value)
    requires forall c :: c in r ==> !IsNa(r[c])
    ensures FillRow(r, v) == r
  {
  }

  // ------------------------------------------------------------- projection

  datatype FrameError =
    | MissingColumn(name: string)           // KeyError / AttributeError on a column
    | BadTimestamp(cell: Value)             // `to_datetime` or `.dt` on a cell that is no instant
    | LengthMismatch(rows: int, values: int) // assigning a vector of the wrong length

  function ProjectRow(r: Row, cols: seq<string>): Row
  {
    map c | c in cols :: Cell(r, c)
  }

  function ProjectRows(rows: seq<Row>, cols: seq<string>): (out: seq<Row>)
    ensures |out| == |rows|
    ensures forall i :: 0 <= i < |rows| ==> out[i] == ProjectRow(rows[i], cols)
  {
    if rows == [] then [] else [ProjectRow(rows[0], cols)] + ProjectRows(rows[1..], cols)
  }

  function FirstMissing(cols: seq<string>, have: seq<string>): (r: Option<string>)
    ensures r.None? <==> forall c :: c in cols ==> c in have
    ensures r.Some? ==> r.value in cols && r.value !in have
  {
    if cols == [] then Option.None
    else if cols[0] !in have then Some(cols[0])
    else FirstMissing(cols[1..], have)
  }

  /** `df[cols]`: KeyError when a listed column is absent. */
  function Project(f: Frame, cols: seq<string>): (r: Result<Frame, FrameError>)
    ensures r.Ok? <==> forall c :: c in cols ==> c in f.columns
    ensures r.Ok? ==> r.value.columns == cols && |r.value.rows| == |f.rows|
    ensures r.Ok? ==> forall i :: 0 <= i < |f.rows| ==> r.value.rows[i] == ProjectRow(f.rows[i], cols)
    ensures r.Err? ==> r.error.MissingColumn? && r.error.name in cols && r.error.name !in f.columns
  {
    match FirstMissing(cols, f.columns)
    case Some(c) => Err(MissingColumn(c))
    case None => Ok(Frame(cols, ProjectRows(f.rows, cols)))
  }

  /** The columns after `df[c] = ...`: a new column goes last, an existing
      one keeps its place. */
  function WithColumn(cols: seq<string>, c: string): (out: seq<string>)
    ensures forall d :: d in out <==> d in cols || d == c
    ensures |out| >= |cols| && out[..|cols|] == cols
  {
    if c in cols then cols else cols + [c]
  }

  /** A frame object that functions update in place and return. */
  class FrameRef {
    var frame: Frame

    constructor (frame: Frame)
      ensures this.frame == frame
    {
      this.frame := frame;
    }
  }
}
