/** The DynamoDB table `bags_forecast` as the daily DynamoDB loader uses it:
    items keyed by `order_id`, written with `put_item`, which replaces the
    whole item stored under the key. */
module DynamoStore {
  import opened Frames

  type Item = map<string, Value>

  /** Row `i` is the last row of `rows` carrying its `order_id`. */
  predicate LastOccurrence(rows: seq<Row>, i: int)
    requires 0 <= i < |rows|
  {
    forall j :: i < j < |rows| ==> OrderKey(rows[j]) != OrderKey(rows[i])
  }

  /** The items after putting `rows` one after the other. */
  function PutAll(items: map<Value, Item>, rows: seq<Row>): (out: map<Value, Item>)
    ensures out.Keys == items.Keys + Keys(rows)
    decreases |rows|
  {
    if rows == [] then items
    else
      var init, last := rows[..|rows| - 1], rows[|rows| - 1];
      KeysOfPrefix(rows);
      PutAll(items, init)[OrderKey(last) := last]
  }

  /** An item never put keeps its old contents. */
  lemma {:induction false} PutAllUntouched(items: map<Value, Item>, rows: seq<Row>, k: Value)
    requires k in items && k !in Keys(rows)
    ensures PutAll(items, rows)[k] == items[k]
    decreases |rows|
  {
    if rows != [] {
      KeysOfPrefix(rows);
      PutAllUntouched(items, rows[..|rows| - 1], k);
    }
  }

  /** The item under a key that was put is the last row put with that key,
      all of it: attributes the row lacks are gone from the item. */
  lemma {:induction false} PutAllLastWins(items: map<Value, Item>, rows: seq<Row>, i: int)
    requires 0 <= i < |rows| && LastOccurrence(rows, i)
    ensures PutAll(items, rows)[OrderKey(rows[i])] == rows[i]
    decreases |rows|
  {
    var init, last := rows[..|rows| - 1], rows[|rows| - 1];
    if i < |rows| - 1 {
      assert OrderKey(last) != OrderKey(rows[i]);
      assert init[i] == rows[i];
      PutAllLastWins(items, init, i);
    }
  }

  /** Every item under a key that was put is one of the rows put. */
  lemma PutAllFromRows(items: map<Value, Item>, rows: seq<Row>, k: Value)
    requires k in Keys(rows)
    ensures PutAll(items, rows)[k] in rows
  {
    var i :| 0 <= i < |rows| && OrderKey(rows[i]) == k;
    var j := LastIndex(rows, i);
    PutAllLastWins(items, rows, j);
  }

  /** The last index at or after `i` carrying the key of row `i`. */
  ghost function LastIndex(rows: seq<Row>, i: int): (j: int)
    requires 0 <= i < |rows|
    ensures i <= j < |rows| && OrderKey(rows[j]) == OrderKey(rows[i]) && LastOccurrence(rows, j)
    decreases |rows| - i
  {
    if exists j :: i < j < |rows| && OrderKey(rows[j]) == OrderKey(rows[i]) then
      var j :| i < j < |rows| && OrderKey(rows[j]) == OrderKey(rows[i]);
      LastIndex(rows, j)
    else i
  }

  /** Putting two batches one after the other is putting their concatenation. */
  lemma {:induction false} PutAllAppend(items: map<Value, Item>, a: seq<Row>, b: seq<Row>)
    ensures PutAll(PutAll(items, a), b) == PutAll(items, a + b)
    decreases |b|
  {
    if b == [] {
      assert a + b == a;
    } else {
      var init := b[..|b| - 1];
      PutAllAppend(items, a, init);
      assert (a + b)[..|a + b| - 1] == a + init;
      assert (a + b)[|a + b| - 1] == b[|b| - 1];
    }
  }

  /** With pairwise distinct keys, as after `drop_duplicates`, every row is
      stored exactly as it is. */
  lemma DistinctKeysAllStored(items: map<Value, Item>, rows: seq<Row>)
    requires forall i, j :: 0 <= i < j < |rows| ==> OrderKey(rows[i]) != OrderKey(rows[j])
    ensures forall i :: 0 <= i < |rows| ==> PutAll(items, rows)[OrderKey(rows[i])] == rows[i]
  {
    forall i | 0 <= i < |rows| ensures PutAll(items, rows)[OrderKey(rows[i])] == rows[i] {
      PutAllLastWins(items, rows, i);
    }
  }

  /** Putting the same batch again changes nothing. */
  lemma PutAllIdempotent(items: map<Value, Item>, rows: seq<Row>)
    ensures PutAll(PutAll(items, rows), rows) == PutAll(items, rows)
  {
    var once := PutAll(items, rows);
    var twice := PutAll(once, rows);
    forall k | k in twice ensures twice[k] == once[k] {
      if k in Keys(rows) {
        var i :| 0 <= i < |rows| && OrderKey(rows[i]) == k;
        var j := LastIndex(rows, i);
        PutAllLastWins(items, rows, j);
        PutAllLastWins(once, rows, j);
      } else {
        PutAllUntouched(once, rows, k);
      }
    }
  }

  /** The table behind the DynamoDB resource. */
  class DynamoTable {
    var items: map<Value, Item>

    constructor ()
      ensures items == map[]
    {
      items := map[];
    }

    /** `table.scan(Limit=1)['Count'] == 0`. */
    predicate IsEmpty()
      reads this
    {
      |items| == 0
    }

    /** The `batch.put_item(Item=row.to_dict())` loop. */
    method PutItems(rows: seq<Row>)
      modifies this
      ensures items == PutAll(old(items), rows)
    {
      var i := 0;
      while i < |rows|
        invariant 0 <= i <= |rows|
        invariant items == PutAll(old(items), rows[..i])
      {
        assert rows[..i + 1][..i] == rows[..i];
        items := items[OrderKey(rows[i]) := rows[i]];
        i := i + 1;
      }
      assert rows[..i] == rows;
    }
  }
}
