/** The prediction step of the `src` pipeline: select the orders with a
    missing forecast, predict the three bag counts hub by hub with the
    regressors stored under the mount point, and write the forecasts back to
    the PostgreSQL table with one UPDATE per order. */
module SrcPredict {
  import opened Wrappers
  import opened Strings
  import opened Frames
  import ColumnGenerator
  import SqlStore

  /** Everything that can make a prediction run raise. */
  datatype PredictError =
    | FrameFailure(frame: FrameError)  // a KeyError, AttributeError or ValueError from pandas
    | NoModel(path: string)            // `joblib.load` of a file that does not exist
    | NotAnId(hub: Value)              // a hub_id that is not an integer
    | SqlFailure(sql: SqlError)        // an UPDATE the database refuses
    | NoAttribute(name: string)        // an AttributeError: the object has no such attribute

  type SqlError = SqlStore.SqlError

  // ------------------------------------------------------------- selection

  /** At least one of the three forecasts is missing. */
  predicate HasNullForecast(r: Row)
  {
    IsNa(Cell(r, "bags_used_forecast")) || IsNa(Cell(r, "cold_bags_used_forecast"))
    || IsNa(Cell(r, "deep_frozen_bags_used_forecast"))
  }

  /** `filter_rows_with_null_forecasts`: the rows with a missing forecast, in
      their order; KeyError when a forecast column is absent. */
  function FilterRowsWithNullForecasts(f: Frame): (r: Result<Frame, FrameError>)
    ensures r.Ok? <==> forall c :: c in ColumnGenerator.Forecasts ==> c in f.columns
    ensures r.Err? ==> r.error.MissingColumn? && r.error.name in ColumnGenerator.Forecasts && r.error.name !in f.columns
    ensures r.Ok? ==> r.value.columns == f.columns && IsSubsequence(r.value.rows, f.rows)
    ensures r.Ok? ==> forall row :: row in r.value.rows <==> row in f.rows && HasNullForecast(row)
  {
    match FirstMissing(ColumnGenerator.Forecasts, f.columns)
    case Some(c) => Err(MissingColumn(c))
    case None =>
      FilterIsSubsequence(f.rows, HasNullForecast);
      Ok(Where(f, HasNullForecast))
  }

  /** Selecting twice selects once. */
  lemma FilterRowsWithNullForecastsIdempotent(f: Frame)
    requires FilterRowsWithNullForecasts(f).Ok?
    ensures FilterRowsWithNullForecasts(FilterRowsWithNullForecasts(f).value) == FilterRowsWithNullForecasts(f)
  {
    FilterIdempotent(f.rows, HasNullForecast);
  }

  // ------------------------------------------------------------ model files

  /** The regressors, in the order `make_predictions` fits their columns. */
  const Targets: seq<string> := ["cold_bags", "bags", "deep_frozen_bags"]

  /** `f"{target_column}_used_forecast"`. */
  function ForecastColumn(target: string): string
  {
    target + "_used_forecast"
  }

  /** The three targets name the three forecast columns. */
  lemma ForecastColumnsOfTargets()
    ensures forall j :: 0 <= j < 3 ==> ForecastColumn(Targets[j]) in ColumnGenerator.Forecasts
    ensures forall j :: 0 <= j < 3 ==>
              ColumnGenerator.Forecasts[j] in {ForecastColumn(Targets[0]), ForecastColumn(Targets[1]), ForecastColumn(Targets[2])}
    ensures forall j :: 0 <= j < 3 ==> ForecastColumn(Targets[j]) != "hub_id"
  {
    assert ForecastColumn(Targets[0]) == ColumnGenerator.Forecasts[1];
    assert ForecastColumn(Targets[1]) == ColumnGenerator.Forecasts[0];
    assert ForecastColumn(Targets[2]) == ColumnGenerator.Forecasts[2];
  }

  /** `f"{target_column}_{hub_id}.joblib"`. */
  function ModelFile(target: string, hub: int): string
  {
    target + "_" + DecimalString(hub) + ".joblib"
  }

  /** `os.path.join(EFS_MOUNT_POINT, 'models', ...)`. */
  function ModelPath(mount: string, target: string, hub: int): (p: string)
    ensures EndsWith(p, ModelFile(target, hub))
  {
    PathJoin(PathJoin(mount, "models"), ModelFile(target, hub))
  }

  /** Different regressors have different file names. */
  lemma ModelFileInjective(t1: string, h1: int, t2: string, h2: int)
    requires t1 in Targets && t2 in Targets
    requires ModelFile(t1, h1) == ModelFile(t2, h2)
    ensures t1 == t2 && h1 == h2
  {
    var f1, f2 := ModelFile(t1, h1), ModelFile(t2, h2);
    assert f1[0] == t1[0] && f2[0] == t2[0];
    assert t1 == t2;
    var d1, d2 := DecimalString(h1), DecimalString(h2);
    assert d1 == f1[|t1| + 1..|f1| - 7];
    assert d2 == f2[|t2| + 1..|f2| - 7];
    DecimalStringInjective(h1, h2);
  }

  /** Under one mount point, every regressor has a file of its own: two
      paths agree only for the same target and the same hub. */
  lemma ModelPathInjective(mount: string, t1: string, h1: int, t2: string, h2: int)
    requires t1 in Targets && t2 in Targets
    requires ModelPath(mount, t1, h1) == ModelPath(mount, t2, h2)
    ensures t1 == t2 && h1 == h2
  {
    PathJoinInjective(PathJoin(mount, "models"), ModelFile(t1, h1), ModelFile(t2, h2));
    ModelFileInjective(t1, h1, t2, h2);
  }

  // ------------------------------------------------------------ predictions

  /** A fitted regressor: from the feature matrix of some rows to one
      prediction per row (a foreign function; any length may come back). */
  type Model = seq<seq<Value>> -> seq<Value>

  /** `data.hub_id == hub_id`: pandas compares numbers by value, and a
      missing hub never matches. */
  predicate AtHub(r: Row, hub: int)
  {
    AsNumber(Cell(r, "hub_id")) == Some(hub as real)
  }

  function HubMask(hub: int): Row -> bool
  {
    r => AtHub(r, hub)
  }

  /** `hub_data[features].values`: one line of feature cells per row. */
  function FeatureMatrix(rows: seq<Row>, features: seq<string>): (m: seq<seq<Value>>)
    ensures |m| == |rows|
  {
    if rows == [] then []
    else [seq(|features|, k requires 0 <= k < |features| => Cell(rows[0], features[k]))]
         + FeatureMatrix(rows[1..], features)
  }

  /** The cells of one column, row by row. */
  function Cells(rows: seq<Row>, col: string): (vs: seq<Value>)
    ensures |vs| == |rows|
    ensures forall i :: 0 <= i < |rows| ==> vs[i] == Cell(rows[i], col)
  {
    if rows == [] then [] else [Cell(rows[0], col)] + Cells(rows[1..], col)
  }

  /** `data.loc[data.hub_id == hub, col] = preds`, with `col` not the hub
      column: the rows of the hub, in order, receive the predictions, one
      each (AssignOrder); every other row keeps its cell of `col`, NaN when the
      column is new, and no other cell changes (AssignCells). */
  function Assign(rows: seq<Row>, hub: int, col: string, preds: seq<Value>): (out: seq<Row>)
    requires col != "hub_id"
    requires |preds| == |FilterRows(rows, HubMask(hub))|
    ensures |out| == |rows|
    ensures forall i :: 0 <= i < |rows| ==> Cell(out[i], "hub_id") == Cell(rows[i], "hub_id")
    decreases |rows|
  {
    if rows == [] then []
    else
      var r := rows[0];
      if AtHub(r, hub) then [r[col := preds[0]]] + Assign(rows[1..], hub, col, preds[1..])
      else [r[col := Cell(r, col)]] + Assign(rows[1..], hub, col, preds)
  }

  /** One row of `data.hub_id == hub`: the head is kept exactly when it is at the hub. */
  lemma HubFilterStep(rows: seq<Row>, hub: int)
    requires rows != []
    ensures FilterRows(rows, HubMask(hub))
            == (if AtHub(rows[0], hub) then [rows[0]] else []) + FilterRows(rows[1..], HubMask(hub))
  {
    assert HubMask(hub)(rows[0]) == AtHub(rows[0], hub);
  }

  /** One row of the assignment: the head receives the next prediction when
      at the hub, and the rest of the rows the remaining predictions. */
  lemma AssignStep(rows: seq<Row>, hub: int, col: string, preds: seq<Value>)
    requires col != "hub_id" && rows != []
    requires |preds| == |FilterRows(rows, HubMask(hub))|
    ensures AtHub(rows[0], hub) ==> |preds| > 0
    ensures var rest := if AtHub(rows[0], hub) then preds[1..] else preds;
            && |rest| == |FilterRows(rows[1..], HubMask(hub))|
            && Assign(rows, hub, col, preds)
               == [rows[0][col := if AtHub(rows[0], hub) then preds[0] else Cell(rows[0], col)]]
                  + Assign(rows[1..], hub, col, rest)
  {
    HubFilterStep(rows, hub);
  }

  /** Row i after the assignment: row i with only `col` set, to a prediction
      when the row is at the hub and to its old cell otherwise. */
  lemma {:induction false} AssignAt(rows: seq<Row>, hub: int, col: string, preds: seq<Value>, i: int)
    requires col != "hub_id"
    requires |preds| == |FilterRows(rows, HubMask(hub))|
    requires 0 <= i < |rows|
    ensures var out := Assign(rows, hub, col, preds);
            && col in out[i] && out[i] == rows[i][col := out[i][col]]
            && (AtHub(rows[i], hub) ==> out[i][col] in preds)
            && (!AtHub(rows[i], hub) ==> out[i][col] == Cell(rows[i], col))
    decreases i
  {
    AssignStep(rows, hub, col, preds);
    if i > 0 {
      var rest := if AtHub(rows[0], hub) then preds[1..] else preds;
      AssignAt(rows[1..], hub, col, rest, i - 1);
      var out, tail := Assign(rows, hub, col, preds), Assign(rows[1..], hub, col, rest);
      assert out[i] == tail[i - 1] && rows[i] == rows[1..][i - 1];
      assert forall v :: v in rest ==> v in preds;
    }
  }

  lemma AssignCells(rows: seq<Row>, hub: int, col: string, preds: seq<Value>)
    requires col != "hub_id"
    requires |preds| == |FilterRows(rows, HubMask(hub))|
    ensures var out := Assign(rows, hub, col, preds);
            forall i :: 0 <= i < |rows| ==>
              && col in out[i] && out[i] == rows[i][col := out[i][col]]
              && (!AtHub(rows[i], hub) ==> out[i][col] == Cell(rows[i], col))
  {
    forall i | 0 <= i < |rows| {
      AssignAt(rows, hub, col, preds, i);
    }
  }

  lemma AssignPredicted(rows: seq<Row>, hub: int, col: string, preds: seq<Value>)
    requires col != "hub_id"
    requires |preds| == |FilterRows(rows, HubMask(hub))|
    ensures var out := Assign(rows, hub, col, preds);
            forall i :: 0 <= i < |rows| && AtHub(rows[i], hub) ==> col in out[i] && out[i][col] in preds
  {
    forall i | 0 <= i < |rows| {
      AssignAt(rows, hub, col, preds, i);
    }
  }

  lemma {:induction false} AssignOrder(rows: seq<Row>, hub: int, col: string, preds: seq<Value>)
    requires col != "hub_id"
    requires |preds| == |FilterRows(rows, HubMask(hub))|
    ensures Cells(FilterRows(Assign(rows, hub, col, preds), HubMask(hub)), col) == preds
    decreases |rows|
  {
    if rows != [] {
      var mine := AtHub(rows[0], hub);
      var rest := if mine then preds[1..] else preds;
      AssignStep(rows, hub, col, preds);
      AssignOrder(rows[1..], hub, col, rest);
      var out := Assign(rows, hub, col, preds);
      assert out[0] == rows[0][col := if mine then preds[0] else Cell(rows[0], col)];
      assert out[1..] == Assign(rows[1..], hub, col, rest);
      assert AtHub(out[0], hub) == mine;
      HubFilterStep(out, hub);
      var tail := FilterRows(out[1..], HubMask(hub));
      if mine {
        assert Cells([out[0]] + tail, col) == [preds[0]] + Cells(tail, col);
      } else {
        assert FilterRows(out, HubMask(hub)) == tail;
      }
    }
  }

  /** The model file for one target and hub: `load_model`, where `models`
      tells which files exist under the mount point and what they hold. */
  function LoadModel(mount: string, target: string, hub: int, models: string -> Option<Model>): (r: Result<Model, PredictError>)
    ensures r.Err? <==> models(ModelPath(mount, target, hub)).None?
    ensures r.Err? ==> r.error == NoModel(ModelPath(mount, target, hub))
  {
    var path := ModelPath(mount, target, hub);
    match models(path)
    case None => Err(NoModel(path))
    case Some(model) => Ok(model)
  }

  /** One pass of the loop in `make_predictions`: load the regressor, select
      the hub's rows (AttributeError without `hub_id`), read their features
      (KeyError for a missing one), and assign the predictions (ValueError
      when the regressor returns a different number of them). */
  function PredictTarget(f: Frame, hub: int, features: seq<string>, target: string, mount: string,
                         models: string -> Option<Model>): (r: Result<Frame, PredictError>)
    requires target in Targets
    ensures r.Ok? ==> |r.value.rows| == |f.rows| && r.value.columns == WithColumn(f.columns, ForecastColumn(target))
    ensures r.Ok? ==> forall i :: 0 <= i < |f.rows| ==> Cell(r.value.rows[i], "hub_id") == Cell(f.rows[i], "hub_id")
  {
    ForecastColumnsOfTargets();
    var col := ForecastColumn(target);
    match LoadModel(mount, target, hub, models)
    case Err(e) => Err(e)
    case Ok(model) =>
      if "hub_id" !in f.columns then Err(FrameFailure(MissingColumn("hub_id")))
      else match FirstMissing(features, f.columns)
        case Some(c) => Err(FrameFailure(MissingColumn(c)))
        case None =>
          var hubRows := FilterRows(f.rows, HubMask(hub));
          var preds := model(FeatureMatrix(hubRows, features));
          if |preds| != |hubRows| then Err(FrameFailure(LengthMismatch(|hubRows|, |preds|)))
          else Ok(Frame(WithColumn(f.columns, col), Assign(f.rows, hub, col, preds)))
  }

  /** The predictions one pass writes. */
  function Predictions(f: Frame, hub: int, features: seq<string>, model: Model): seq<Value>
  {
    model(FeatureMatrix(FilterRows(f.rows, HubMask(hub)), features))
  }

  /** When one pass fails: no model file, no `hub_id` column, a missing
      feature column, or a regressor returning a different number of
      predictions than the hub has rows. */
  lemma PredictTargetSucceeds(f: Frame, hub: int, features: seq<string>, target: string, mount: string,
                              models: string -> Option<Model>)
    requires target in Targets
    ensures PredictTarget(f, hub, features, target, mount, models).Ok? <==>
              && models(ModelPath(mount, target, hub)).Some? && "hub_id" in f.columns
              && (forall c :: c in features ==> c in f.columns)
              && |Predictions(f, hub, features, models(ModelPath(mount, target, hub)).value)|
                 == |FilterRows(f.rows, HubMask(hub))|
  {
  }

  /** A successful pass writes the regressor's predictions for the hub's
      rows, in order, into the target's forecast column. */
  lemma PredictTargetOrder(f: Frame, hub: int, features: seq<string>, target: string, mount: string,
                           models: string -> Option<Model>)
    requires target in Targets
    requires PredictTarget(f, hub, features, target, mount, models).Ok?
    ensures Cells(FilterRows(PredictTarget(f, hub, features, target, mount, models).value.rows, HubMask(hub)), ForecastColumn(target))
            == Predictions(f, hub, features, models(ModelPath(mount, target, hub)).value)
  {
    ForecastColumnsOfTargets();
    var preds := Predictions(f, hub, features, models(ModelPath(mount, target, hub)).value);
    AssignOrder(f.rows, hub, ForecastColumn(target), preds);
  }

  /** A successful pass changes the target's forecast cell of each row and
      nothing else; rows of other hubs keep it (NaN when it is new), and the
      hub's rows receive predictions. */
  lemma PredictTargetCells(f: Frame, hub: int, features: seq<string>, target: string, mount: string,
                           models: string -> Option<Model>)
    requires target in Targets
    requires PredictTarget(f, hub, features, target, mount, models).Ok?
    ensures var g, col := PredictTarget(f, hub, features, target, mount, models).value, ForecastColumn(target);
            forall i :: 0 <= i < |f.rows| ==>
              && col in g.rows[i] && g.rows[i] == f.rows[i][col := g.rows[i][col]]
              && (!AtHub(f.rows[i], hub) ==> g.rows[i][col] == Cell(f.rows[i], col))
              && (AtHub(f.rows[i], hub) ==> g.rows[i][col] in Predictions(f, hub, features, models(ModelPath(mount, target, hub)).value))
  {
    ForecastColumnsOfTargets();
    var col := ForecastColumn(target);
    var preds := Predictions(f, hub, features, models(ModelPath(mount, target, hub)).value);
    assert PredictTarget(f, hub, features, target, mount, models).value.rows == Assign(f.rows, hub, col, preds);
    AssignCells(f.rows, hub, col, preds);
    AssignPredicted(f.rows, hub, col, preds);
  }

  /** Every model file exists and returns one prediction per row it is given. */
  ghost predicate AlwaysFits(models: string -> Option<Model>)
  {
    && (forall path :: models(path).Some?)
    && (forall path, f, hub, features :: models(path).Some? ==>
          |Predictions(f, hub, features, models(path).value)| == |FilterRows(f.rows, HubMask(hub))|)
  }

  /** With such models a pass fails only for a missing column, and the frame
      it returns still has every column it had. */
  lemma PredictTargetFits(f: Frame, hub: int, features: seq<string>, target: string, mount: string,
                          models: string -> Option<Model>)
    requires target in Targets
    requires AlwaysFits(models) && "hub_id" in f.columns && forall c :: c in features ==> c in f.columns
    ensures PredictTarget(f, hub, features, target, mount, models).Ok?
    ensures forall c :: c in f.columns ==> c in PredictTarget(f, hub, features, target, mount, models).value.columns
  {
    PredictTargetSucceeds(f, hub, features, target, mount, models);
  }

  /** The passes over `targets`, stopping at the first error; the frame is
      what the passes before it left behind. */
  function PredictTargets(f: Frame, hub: int, features: seq<string>, targets: seq<string>, mount: string,
                          models: string -> Option<Model>): (out: (Frame, Option<PredictError>))
    requires forall t :: t in targets ==> t in Targets
    ensures |out.0.rows| == |f.rows|
    decreases |targets|
  {
    if targets == [] then (f, Option.None)
    else match PredictTarget(f, hub, features, targets[0], mount, models)
      case Err(e) => (f, Some(e))
      case Ok(g) => PredictTargets(g, hub, features, targets[1..], mount, models)
  }

  /** `make_predictions`: the three passes, each updating `data` in place;
      the frame it returns is `data` itself. */
  method MakePredictions(data: FrameRef, hub: int, features: seq<string>, mount: string,
                         models: string -> Option<Model>) returns (r: Result<FrameRef, PredictError>)
    modifies data
    ensures var out := PredictTargets(old(data.frame), hub, features, Targets, mount, models);
            && data.frame == out.0
            && (r.Ok? <==> out.1.None?)
            && (r.Ok? ==> r.value == data)
            && (r.Err? ==> r.error == out.1.value)
  {
    var i := 0;
    while i < |Targets|
      invariant 0 <= i <= |Targets|
      invariant PredictTargets(old(data.frame), hub, features, Targets, mount, models)
                == PredictTargets(data.frame, hub, features, Targets[i..], mount, models)
    {
      assert Targets[i..][0] == Targets[i] && Targets[i..][1..] == Targets[i + 1..];
      var step := PredictTarget(data.frame, hub, features, Targets[i], mount, models);
      if step.Err? {
        return Err(step.error);
      }
      data.frame := step.value;
      i := i + 1;
    }
    r := Ok(data);
  }

  /** With every model present and well-shaped, the passes fail only for a
      missing `hub_id` or feature column. */
  lemma {:induction false} PredictTargetsSucceed(f: Frame, hub: int, features: seq<string>, targets: seq<string>,
                                                 mount: string, models: string -> Option<Model>)
    requires forall t :: t in targets ==> t in Targets
    requires AlwaysFits(models) && "hub_id" in f.columns && forall c :: c in features ==> c in f.columns
    ensures PredictTargets(f, hub, features, targets, mount, models).1.None?
    decreases |targets|
  {
    if targets != [] {
      PredictTargetFits(f, hub, features, targets[0], mount, models);
      var g := PredictTarget(f, hub, features, targets[0], mount, models).value;
      PredictTargetsSucceed(g, hub, features, targets[1..], mount, models);
    }
  }

  // ---------------------------------------------------- what a pass changes

  predicate IsForecast(c: string)
  {
    c in ColumnGenerator.Forecasts
  }

  /** `b` is `a` with forecast cells added or replaced and nothing else changed. */
  predicate SameBut(a: Row, b: Row)
  {
    && a.Keys <= b.Keys
    && (forall c :: c in b && c !in a ==> IsForecast(c))
    && (forall c :: c in a && !IsForecast(c) ==> b[c] == a[c])
  }

  /** `b` keeps every cell of `a`. */
  predicate Unchanged(a: Row, b: Row)
  {
    a.Keys <= b.Keys && forall c :: c in a ==> b[c] == a[c]
  }

  predicate HasForecast(r: Row, c: string)
  {
    c in r && !IsNa(r[c])
  }

  /** All three forecasts are present. */
  predicate Written(r: Row)
  {
    forall c :: c in ColumnGenerator.Forecasts ==> HasForecast(r, c)
  }

  /** No stored regressor ever predicts a missing value. */
  ghost predicate NeverNa(models: string -> Option<Model>)
  {
    forall path, x, k :: models(path).Some? && 0 <= k < |models(path).value(x)| ==> !IsNa(models(path).value(x)[k])
  }

  lemma SameButTrans(a: Row, b: Row, c: Row)
    requires SameBut(a, b) && SameBut(b, c)
    ensures SameBut(a, c)
  {
  }

  /** One pass, seen from one row: only the target's forecast cell may
      change, and only on the hub's rows. */
  lemma PredictTargetRow(f: Frame, hub: int, features: seq<string>, target: string, mount: string,
                         models: string -> Option<Model>, i: int)
    requires target in Targets
    requires PredictTarget(f, hub, features, target, mount, models).Ok? && 0 <= i < |f.rows|
    ensures var a, b := f.rows[i], PredictTarget(f, hub, features, target, mount, models).value.rows[i];
            && SameBut(a, b) && Cell(b, "hub_id") == Cell(a, "hub_id")
            && (!AtHub(a, hub) ==> Unchanged(a, b))
  {
    PredictTargetCells(f, hub, features, target, mount, models);
    ForecastColumnsOfTargets();
    var col := ForecastColumn(target);
    var a, b := f.rows[i], PredictTarget(f, hub, features, target, mount, models).value.rows[i];
    assert b == a[col := b[col]] && IsForecast(col);
  }

  /** One pass, seen from one row, with regressors that never predict a
      missing value: the hub's rows get the target's forecast, and no row
      loses one. */
  lemma PredictTargetRowFilled(f: Frame, hub: int, features: seq<string>, target: string, mount: string,
                               models: string -> Option<Model>, i: int)
    requires target in Targets && NeverNa(models)
    requires PredictTarget(f, hub, features, target, mount, models).Ok? && 0 <= i < |f.rows|
    ensures var a, b := f.rows[i], PredictTarget(f, hub, features, target, mount, models).value.rows[i];
            && (AtHub(a, hub) ==> HasForecast(b, ForecastColumn(target)))
            && (forall c :: HasForecast(a, c) ==> HasForecast(b, c))
  {
    PredictTargetCells(f, hub, features, target, mount, models);
    var col := ForecastColumn(target);
    var preds := Predictions(f, hub, features, models(ModelPath(mount, target, hub)).value);
    var a, b := f.rows[i], PredictTarget(f, hub, features, target, mount, models).value.rows[i];
    assert b == a[col := b[col]];
    if AtHub(a, hub) {
      var k :| 0 <= k < |preds| && preds[k] == b[col];
      assert !IsNa(b[col]);
    }
  }

  /** The three passes, seen from one row: only forecast cells change, rows
      of other hubs keep every cell, and with regressors that never predict a
      missing value the hub's rows end with every target's forecast. */
  lemma {:induction false} PredictTargetsRow(f: Frame, hub: int, features: seq<string>, targets: seq<string>,
                                             mount: string, models: string -> Option<Model>, i: int)
    requires forall t :: t in targets ==> t in Targets
    requires PredictTargets(f, hub, features, targets, mount, models).1.None? && 0 <= i < |f.rows|
    ensures var a, b := f.rows[i], PredictTargets(f, hub, features, targets, mount, models).0.rows[i];
            && SameBut(a, b) && Cell(b, "hub_id") == Cell(a, "hub_id")
            && (!AtHub(a, hub) ==> Unchanged(a, b))
            && (NeverNa(models) ==> forall c :: HasForecast(a, c) ==> HasForecast(b, c))
            && (NeverNa(models) && AtHub(a, hub) ==> forall t :: t in targets ==> HasForecast(b, ForecastColumn(t)))
    decreases |targets|
  {
    if targets != [] {
      var g := PredictTarget(f, hub, features, targets[0], mount, models).value;
      PredictTargetRow(f, hub, features, targets[0], mount, models, i);
      if NeverNa(models) {
        PredictTargetRowFilled(f, hub, features, targets[0], mount, models, i);
      }
      PredictTargetsRow(g, hub, features, targets[1..], mount, models, i);
      assert forall t :: t in targets ==> t == targets[0] || t in targets[1..];
    }
  }

  // ------------------------------------------------------------ every hub

  /** `data['hub_id'].unique()`, in order of first appearance; a hub that is
      not an integer stops the run (see README). */
  function HubIds(rows: seq<Row>): (r: Result<seq<int>, PredictError>)
    ensures r.Ok? <==> forall i :: 0 <= i < |rows| ==> Cell(rows[i], "hub_id").Int?
    ensures r.Ok? ==> Distinct(r.value)
    ensures r.Ok? ==> forall i :: 0 <= i < |rows| ==> Cell(rows[i], "hub_id").i in r.value
    ensures r.Ok? ==> forall h :: h in r.value ==> exists i :: 0 <= i < |rows| && Cell(rows[i], "hub_id") == Int(h)
    ensures r.Err? ==> r.error.NotAnId? && !r.error.hub.Int? &&
                       exists i :: 0 <= i < |rows| && Cell(rows[i], "hub_id") == r.error.hub
  {
    if rows == [] then Ok([])
    else
      var init := rows[..|rows| - 1];
      var v := Cell(rows[|rows| - 1], "hub_id");
      assert forall i :: 0 <= i < |init| ==> init[i] == rows[i];
      match HubIds(init)
      case Err(e) => Err(e)
      case Ok(hs) =>
        if !v.Int? then Err(NotAnId(v))
        else if v.i in hs then Ok(hs)
        else Ok(hs + [v.i])
  }

  /** The loop over the hubs in `do_predict`, stopping at the first error. */
  function PredictHubs(f: Frame, hubs: seq<int>, features: seq<string>, mount: string,
                       models: string -> Option<Model>): (out: (Frame, Option<PredictError>))
    ensures |out.0.rows| == |f.rows|
    decreases |hubs|
  {
    if hubs == [] then (f, Option.None)
    else
      var step := PredictTargets(f, hubs[0], features, Targets, mount, models);
      if step.1.Some? then step
      else PredictHubs(step.0, hubs[1..], features, mount, models)
  }

  lemma WrittenByTargets(r: Row)
    requires forall t :: t in Targets ==> HasForecast(r, ForecastColumn(t))
    ensures Written(r)
  {
    ForecastColumnsOfTargets();
    assert Targets[0] in Targets && Targets[1] in Targets && Targets[2] in Targets;
  }

  /** The loop over the hubs, seen from one row: only forecast cells change,
      and with regressors that never predict a missing value, a row of any of
      the hubs ends with all three forecasts. */
  lemma {:induction false} PredictHubsRow(f: Frame, hubs: seq<int>, features: seq<string>, mount: string,
                                          models: string -> Option<Model>, i: int)
    requires PredictHubs(f, hubs, features, mount, models).1.None? && 0 <= i < |f.rows|
    ensures var a, b := f.rows[i], PredictHubs(f, hubs, features, mount, models).0.rows[i];
            && SameBut(a, b) && Cell(b, "hub_id") == Cell(a, "hub_id")
            && (NeverNa(models) ==> forall c :: HasForecast(a, c) ==> HasForecast(b, c))
            && (NeverNa(models) && (exists h :: h in hubs && AtHub(a, h)) ==> Written(b))
    decreases |hubs|
  {
    if hubs != [] {
      var g := PredictTargets(f, hubs[0], features, Targets, mount, models).0;
      PredictTargetsRow(f, hubs[0], features, Targets, mount, models, i);
      PredictHubsRow(g, hubs[1..], features, mount, models, i);
      var a, m, b := f.rows[i], g.rows[i], PredictHubs(f, hubs, features, mount, models).0.rows[i];
      if NeverNa(models) && (exists h :: h in hubs && AtHub(a, h)) {
        if AtHub(a, hubs[0]) {
          WrittenByTargets(m);
        } else {
          var h :| h in hubs && AtHub(a, h);
          assert h in hubs[1..] && AtHub(m, h);
        }
      }
    }
  }

  /** The frame `do_predict` hands to `update_postgresql`: the rows with a
      missing forecast, predicted hub by hub. */
  function Predicted(data: Frame, mount: string, models: string -> Option<Model>): (r: Result<Frame, PredictError>)
  {
    match FilterRowsWithNullForecasts(data)
    case Err(e) => Err(FrameFailure(e))
    case Ok(selected) =>
      if "hub_id" !in selected.columns then Err(FrameFailure(MissingColumn("hub_id")))
      else match HubIds(selected.rows)
        case Err(e) => Err(e)
        case Ok(hubs) =>
          var out := PredictHubs(selected, hubs, ColumnGenerator.BuildTrainingFeatures(selected.columns), mount, models);
          if out.1.Some? then Err(out.1.value) else Ok(out.0)
  }

  /** A successful prediction run, unfolded. */
  lemma PredictedOk(data: Frame, mount: string, models: string -> Option<Model>)
    requires Predicted(data, mount, models).Ok?
    ensures var selected := FilterRowsWithNullForecasts(data).value;
            && HubIds(selected.rows).Ok?
            && var out := PredictHubs(selected, HubIds(selected.rows).value,
                                      ColumnGenerator.BuildTrainingFeatures(selected.columns), mount, models);
               out.1.None? && Predicted(data, mount, models).value == out.0
  {
  }

  /** After the loop over every hub of the selection, with regressors that
      never predict a missing value, every selected row has all three
      forecasts, and no other cell of it has changed. */
  lemma EverySelectedRowPredicted(data: Frame, mount: string, models: string -> Option<Model>)
    requires Predicted(data, mount, models).Ok? && NeverNa(models)
    ensures var selected, p := FilterRowsWithNullForecasts(data).value, Predicted(data, mount, models).value;
            && |p.rows| == |selected.rows|
            && forall i :: 0 <= i < |p.rows| ==> SameBut(selected.rows[i], p.rows[i]) && Written(p.rows[i])
  {
    PredictedOk(data, mount, models);
    var selected := FilterRowsWithNullForecasts(data).value;
    var p := Predicted(data, mount, models).value;
    forall i | 0 <= i < |selected.rows| ensures SameBut(selected.rows[i], p.rows[i]) && Written(p.rows[i]) {
      SelectedRowPredicted(data, mount, models, i);
    }
  }

  lemma SelectedRowPredicted(data: Frame, mount: string, models: string -> Option<Model>, i: int)
    requires Predicted(data, mount, models).Ok? && NeverNa(models)
    requires 0 <= i < |FilterRowsWithNullForecasts(data).value.rows|
    ensures var selected, p := FilterRowsWithNullForecasts(data).value, Predicted(data, mount, models).value;
            |p.rows| == |selected.rows| && SameBut(selected.rows[i], p.rows[i]) && Written(p.rows[i])
  {
    PredictedOk(data, mount, models);
    var selected := FilterRowsWithNullForecasts(data).value;
    var hubs := HubIds(selected.rows).value;
    var features := ColumnGenerator.BuildTrainingFeatures(selected.columns);
    var h := Cell(selected.rows[i], "hub_id").i;
    assert h in hubs && AtHub(selected.rows[i], h);
    PredictHubsRow(selected, hubs, features, mount, models, i);
  }

  /** The loop over the hubs in `do_predict`, each call of
      `make_predictions` updating the same frame in place. */
  method PredictEveryHub(withNulls: FrameRef, hubs: seq<int>, features: seq<string>, mount: string,
                         models: string -> Option<Model>) returns (r: Result<(), PredictError>)
    modifies withNulls
    ensures var out := PredictHubs(old(withNulls.frame), hubs, features, mount, models);
            withNulls.frame == out.0 && (r.Ok? <==> out.1.None?) && (r.Err? ==> r.error == out.1.value)
  {
    var i := 0;
    while i < |hubs|
      invariant 0 <= i <= |hubs|
      invariant PredictHubs(old(withNulls.frame), hubs, features, mount, models)
                == PredictHubs(withNulls.frame, hubs[i..], features, mount, models)
    {
      assert hubs[i..][0] == hubs[i] && hubs[i..][1..] == hubs[i + 1..];
      var step := MakePredictions(withNulls, hubs[i], features, mount, models);
      if step.Err? {
        return Err(step.error);
      }
      i := i + 1;
    }
    r := Ok(());
  }

  /** `do_predict` without the pickle I/O: select the rows with a missing
      forecast, predict in place hub by hub, then run one UPDATE per row and
      commit once (`update_postgresql`, SqlStore.SqlTable.UpdateForecasts). */
  method Run(table: SqlStore.SqlTable, data: Frame, mount: string, models: string -> Option<Model>)
    returns (r: Result<(), PredictError>)
    requires table.Valid()
    modifies table
    ensures var p := Predicted(data, mount, models);
            && (p.Err? ==> r == Err(p.error) && table.rows == old(table.rows))
            && (p.Ok? ==> var u := SqlStore.UpdateAll(old(table.rows), p.value.columns, p.value.rows);
                  && (r.Ok? <==> u.Ok?)
                  && (r.Ok? ==> table.rows == u.value)
                  && (r.Err? ==> table.rows == old(table.rows) && r.error == SqlFailure(u.error)))
  {
    var selected := FilterRowsWithNullForecasts(data);
    if selected.Err? {
      return Err(FrameFailure(selected.error));
    }
    var features := ColumnGenerator.BuildTrainingFeatures(selected.value.columns);
    if "hub_id" !in selected.value.columns {
      return Err(FrameFailure(MissingColumn("hub_id")));
    }
    var hubs := HubIds(selected.value.rows);
    if hubs.Err? {
      return Err(hubs.error);
    }
    var withNulls := new FrameRef(selected.value);
    var predicted := PredictEveryHub(withNulls, hubs.value, features, mount, models);
    if predicted.Err? {
      return Err(predicted.error);
    }
    assert Predicted(data, mount, models) == Ok(withNulls.frame);
    var u := table.UpdateForecasts(withNulls.frame);
    if u.Err? {
      return Err(SqlFailure(u.error));
    }
    r := Ok(());
  }

  // ---------------------------------------------------- do_predict as written

  /** `build_training_features(data_with_nulls.columns)` as `do_predict`
      writes it: the argument is already the column index, and
      `build_training_features` reads `.columns` of it, which an index does
      not have. */
  function FeaturesOfIndex(columns: seq<string>): (r: Result<seq<string>, PredictError>)
    ensures r.Err? && r.error == NoAttribute("columns")
  {
    Err(NoAttribute("columns"))
  }

  /** `do_predict` as written: the selection, then the feature list built
      from the column index, before any hub is predicted and before any
      UPDATE. */
  method RunAsWritten(table: SqlStore.SqlTable, data: Frame, mount: string, models: string -> Option<Model>)
    returns (r: Result<(), PredictError>)
    requires table.Valid()
    ensures var selected := FilterRowsWithNullForecasts(data);
            && (selected.Err? ==> r == Err(FrameFailure(selected.error)))
            && (selected.Ok? ==> r == Err(NoAttribute("columns")))
  {
    var selected := FilterRowsWithNullForecasts(data);
    if selected.Err? {
      return Err(FrameFailure(selected.error));
    }
    var features := FeaturesOfIndex(selected.value.columns);
    r := Err(features.error);
  }

  /** Every run the corrected `Run` completes, the code as written fails:
      whenever `Predicted` gives a frame, the selection succeeded, and the
      feature list then raises. */
  lemma AsWrittenNeverPredicts(data: Frame, mount: string, models: string -> Option<Model>)
    requires Predicted(data, mount, models).Ok?
    ensures FilterRowsWithNullForecasts(data).Ok?
    ensures FeaturesOfIndex(FilterRowsWithNullForecasts(data).value.columns) == Err(NoAttribute("columns"))
  {
    PredictedOk(data, mount, models);
  }

  /** The input that shows it: a frame with the forecast and hub columns and
      no rows. The corrected run predicts nothing and updates nothing, with
      success; the code as written raises AttributeError. */
  lemma EmptyFrameShowsAttributeError()
    ensures var data := Frame(ColumnGenerator.Forecasts + ["hub_id"], []);
            && Predicted(data, "/mnt/models", _ => Option.None) == Ok(Frame(data.columns, []))
            && FilterRowsWithNullForecasts(data).Ok?
            && FeaturesOfIndex(FilterRowsWithNullForecasts(data).value.columns).Err?
  {
    var data := Frame(ColumnGenerator.Forecasts + ["hub_id"], []);
    var selected := FilterRowsWithNullForecasts(data);
    assert selected.Ok? && selected.value.rows == [] by {
      assert forall c :: c in ColumnGenerator.Forecasts ==> c in data.columns;
    }
    assert selected.value.columns == data.columns;
    assert "hub_id" in selected.value.columns by { assert data.columns[3] == "hub_id"; }
    assert HubIds(selected.value.rows) == Ok([]);
  }

  /** Once the forecasts are written back, with regressors that never predict
      a missing value, every stored order that a predicted row selects holds
      three non-null forecasts. */
  lemma StoredForecastsFilled(store: SqlStore.Store, data: Frame, mount: string, models: string -> Option<Model>, k: int)
    requires Predicted(data, mount, models).Ok? && NeverNa(models)
    requires var p := Predicted(data, mount, models).value;
             SqlStore.UpdateAll(store, p.columns, p.rows).Ok? && k in store && SqlStore.Selects(p.columns, p.rows, k)
    ensures var p := Predicted(data, mount, models).value;
            var v := SqlStore.UpdateAll(store, p.columns, p.rows).value[k];
            forall c :: c in ColumnGenerator.Forecasts ==> c in v && !IsNa(v[c])
  {
    var p := Predicted(data, mount, models).value;
    EverySelectedRowPredicted(data, mount, models);
    var i := SqlStore.LastSelecting(store, p.columns, p.rows, k);
    SqlStore.UpdateAllLastWins(store, p.columns, p.rows, k, i);
    assert Written(p.rows[i]);
    var v := SqlStore.UpdateAll(store, p.columns, p.rows).value[k];
    var vs := SqlStore.ForecastValues(p.columns, p.rows[i]).value;
    forall n | 0 <= n < 3 ensures !IsNa(v[ColumnGenerator.Forecasts[n]]) {
      assert HasForecast(p.rows[i], ColumnGenerator.Forecasts[n]);
      assert SqlStore.FloatValue(Cell(p.rows[i], ColumnGenerator.Forecasts[n])) == Ok(vs[n]);
    }
  }
}
