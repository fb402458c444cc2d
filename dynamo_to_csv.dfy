/** `scripts/dynamo_to_csv.py`: the items scanned from DynamoDB, as a frame,
    are put into the table's column order before being written as CSV. */
module DynamoToCsv {
  import opened Wrappers
  import opened Frames
  import ColumnGenerator

  /** `reorder_columns`: `order_id`, the 60 category columns and the 12
      additional ones, in the table's order; KeyError when the scan produced
      no such column. */
  method ReorderColumns(df: Frame) returns (r: Result<Frame, FrameError>)
    ensures r == Project(df, ColumnGenerator.GetColumnNames())
    ensures r.Ok? <==> forall c :: c in ColumnGenerator.GetColumnNames() ==> c in df.columns
    ensures r.Ok? ==> r.value.columns == ColumnGenerator.GetColumnNames() && |r.value.rows| == |df.rows|
  {
    var names := ColumnGenerator.ExtendWithCategories(["order_id"], "");
    names := names + ColumnGenerator.AdditionalNames;
    ColumnGenerator.ColumnNamesLayout();
    r := Project(df, names);
  }

  /** Every listed cell keeps its value; columns outside the list are gone. */
  lemma ReorderKeepsCells(df: Frame, i: int, c: string)
    requires Project(df, ColumnGenerator.GetColumnNames()).Ok? && 0 <= i < |df.rows|
    ensures var row := Project(df, ColumnGenerator.GetColumnNames()).value.rows[i];
            (c in row <==> c in ColumnGenerator.GetColumnNames()) && (c in row ==> row[c] == Cell(df.rows[i], c))
  {
  }

  lemma ProjectRowTwice(r: Row, cols: seq<string>)
    ensures ProjectRow(ProjectRow(r, cols), cols) == ProjectRow(r, cols)
  {
  }

  lemma {:induction false} ProjectIdempotent(df: Frame, cols: seq<string>)
    requires Project(df, cols).Ok?
    ensures Project(Project(df, cols).value, cols) == Project(df, cols)
  {
    var once := Project(df, cols).value;
    var twice := Project(once, cols).value;
    forall i | 0 <= i < |once.rows| ensures twice.rows[i] == once.rows[i] {
      ProjectRowTwice(df.rows[i], cols);
    }
    assert twice.rows == once.rows;
    assert twice == once;
  }

  /** Reordering reordered data changes nothing. */
  lemma ReorderIdempotent(df: Frame)
    requires Project(df, ColumnGenerator.GetColumnNames()).Ok?
    ensures var once := Project(df, ColumnGenerator.GetColumnNames());
            Project(once.value, ColumnGenerator.GetColumnNames()) == once
  {
    ProjectIdempotent(df, ColumnGenerator.GetColumnNames());
  }
}
