/** The prediction step of the `steps` pipeline. Selection, model files and
    the UPDATE are those of the `src` version (SrcPredict); `make_predictions`
    differs: it assigns each batch of predictions to `hub_data`, the copy of
    the hub's rows that boolean indexing returns, and returns `data` itself,
    so no forecast ever reaches the frame that is written back. */
module StepsPredict {
  import opened Wrappers
  import opened Frames
  import ColumnGenerator
  import SqlStore
  import SrcPredict

  type PredictError = SrcPredict.PredictError
  type Model = SrcPredict.Model

  /** One pass as written: the same loading, selection, prediction and
      length check as SrcPredict.PredictTarget, hence the same errors, but
      the frame that received the predictions is dropped. */
  function PassError(f: Frame, hub: int, features: seq<string>, target: string, mount: string,
                     models: string -> Option<Model>): Option<PredictError>
    requires target in SrcPredict.Targets
  {
    match SrcPredict.PredictTarget(f, hub, features, target, mount, models)
    case Err(e) => Some(e)
    case Ok(_) => Option.None
  }

  /** `make_predictions` as written: the first failing pass raises; when none
      fails, `data` comes back as it was. */
  function AsWritten(f: Frame, hub: int, features: seq<string>, targets: seq<string>, mount: string,
                     models: string -> Option<Model>): (r: Result<Frame, PredictError>)
    requires forall t :: t in targets ==> t in SrcPredict.Targets
    ensures r.Ok? <==> forall t :: t in targets ==> SrcPredict.PredictTarget(f, hub, features, t, mount, models).Ok?
    ensures r.Ok? ==> r.value == f
    decreases |targets|
  {
    if targets == [] then Ok(f)
    else match PassError(f, hub, features, targets[0], mount, models)
      case Some(e) => Err(e)
      case None =>
        var rest := AsWritten(f, hub, features, targets[1..], mount, models);
        assert forall t :: t in targets ==> t == targets[0] || t in targets[1..];
        rest
  }

  /** The loop of `make_predictions` as written. */
  method MakePredictions(data: Frame, hub: int, features: seq<string>, mount: string,
                         models: string -> Option<Model>) returns (r: Result<Frame, PredictError>)
    ensures r == AsWritten(data, hub, features, SrcPredict.Targets, mount, models)
    ensures r.Ok? ==> r.value == data
  {
    var i := 0;
    while i < |SrcPredict.Targets|
      invariant 0 <= i <= |SrcPredict.Targets|
      invariant AsWritten(data, hub, features, SrcPredict.Targets, mount, models)
                == AsWritten(data, hub, features, SrcPredict.Targets[i..], mount, models)
    {
      var targets := SrcPredict.Targets[i..];
      assert targets[0] == SrcPredict.Targets[i] && targets[1..] == SrcPredict.Targets[i + 1..];
      var err := PassError(data, hub, features, SrcPredict.Targets[i], mount, models);
      if err.Some? {
        return Err(err.value);
      }
      i := i + 1;
    }
    r := Ok(data);
  }

  /** The same pass fails in both versions: the bug loses the predictions,
      not the errors. */
  lemma FailsLikeCorrected(f: Frame, hub: int, features: seq<string>, target: string, mount: string,
                           models: string -> Option<Model>)
    requires target in SrcPredict.Targets
    ensures PassError(f, hub, features, target, mount, models).Some?
            <==> SrcPredict.PredictTarget(f, hub, features, target, mount, models).Err?
  {
  }

  // ------------------------------------------------------- the whole step

  /** The loop over the hubs in `main`. */
  function AsWrittenHubs(f: Frame, hubs: seq<int>, features: seq<string>, mount: string,
                         models: string -> Option<Model>): (r: Result<Frame, PredictError>)
    ensures r.Ok? ==> r.value == f
    decreases |hubs|
  {
    if hubs == [] then Ok(f)
    else match AsWritten(f, hubs[0], features, SrcPredict.Targets, mount, models)
      case Err(e) => Err(e)
      case Ok(g) => AsWrittenHubs(g, hubs[1..], features, mount, models)
  }

  /** The frame `main` hands to `update_postgresql`. */
  function Predicted(data: Frame, mount: string, models: string -> Option<Model>): (r: Result<Frame, PredictError>)
  {
    match SrcPredict.FilterRowsWithNullForecasts(data)
    case Err(e) => Err(SrcPredict.FrameFailure(e))
    case Ok(selected) =>
      if "hub_id" !in selected.columns then Err(SrcPredict.FrameFailure(MissingColumn("hub_id")))
      else match SrcPredict.HubIds(selected.rows)
        case Err(e) => Err(e)
        case Ok(hubs) => AsWrittenHubs(selected, hubs, ColumnGenerator.BuildTrainingFeatures(selected.columns), mount, models)
  }

  /** What `main` writes back is exactly what it selected: every row it
      sends to the UPDATE still has a missing forecast. */
  lemma WritesBackTheNulls(data: Frame, mount: string, models: string -> Option<Model>)
    requires Predicted(data, mount, models).Ok?
    ensures Predicted(data, mount, models).value == SrcPredict.FilterRowsWithNullForecasts(data).value
    ensures forall r :: r in Predicted(data, mount, models).value.rows ==> SrcPredict.HasNullForecast(r)
  {
  }

  /** The loop over the hubs in `main`, rebinding `data_with_nulls` to what
      each call returns. */
  method PredictEveryHub(data: Frame, hubs: seq<int>, features: seq<string>, mount: string,
                         models: string -> Option<Model>) returns (r: Result<Frame, PredictError>)
    ensures r == AsWrittenHubs(data, hubs, features, mount, models)
  {
    var withNulls := data;
    var i := 0;
    while i < |hubs|
      invariant 0 <= i <= |hubs|
      invariant AsWrittenHubs(data, hubs, features, mount, models)
                == AsWrittenHubs(withNulls, hubs[i..], features, mount, models)
    {
      assert hubs[i..][0] == hubs[i] && hubs[i..][1..] == hubs[i + 1..];
      var step := MakePredictions(withNulls, hubs[i], features, mount, models);
      if step.Err? {
        return Err(step.error);
      }
      withNulls := step.value;
      i := i + 1;
    }
    r := Ok(withNulls);
  }

  /** `main` without the pickle I/O. */
  method Run(table: SqlStore.SqlTable, data: Frame, mount: string, models: string -> Option<Model>)
    returns (r: Result<(), PredictError>)
    requires table.Valid()
    modifies table
    ensures var p := Predicted(data, mount, models);
            && (p.Err? ==> r == Err(p.error) && table.rows == old(table.rows))
            && (p.Ok? ==> var u := SqlStore.UpdateAll(old(table.rows), p.value.columns, p.value.rows);
                  && (r.Ok? <==> u.Ok?)
                  && (r.Ok? ==> table.rows == u.value)
                  && (r.Err? ==> table.rows == old(table.rows) && r.error == SrcPredict.SqlFailure(u.error)))
  {
    var selected := SrcPredict.FilterRowsWithNullForecasts(data);
    if selected.Err? {
      return Err(SrcPredict.FrameFailure(selected.error));
    }
    var features := ColumnGenerator.BuildTrainingFeatures(selected.value.columns);
    if "hub_id" !in selected.value.columns {
      return Err(SrcPredict.FrameFailure(MissingColumn("hub_id")));
    }
    var hubs := SrcPredict.HubIds(selected.value.rows);
    if hubs.Err? {
      return Err(hubs.error);
    }
    var withNulls := PredictEveryHub(selected.value, hubs.value, features, mount, models);
    if withNulls.Err? {
      return Err(withNulls.error);
    }
    assert Predicted(data, mount, models) == withNulls;
    var u := table.UpdateForecasts(withNulls.value);
    if u.Err? {
      return Err(SrcPredict.SqlFailure(u.error));
    }
    r := Ok(());
  }

  // --------------------------------------------------------------- finding

  /** One order of hub 1 with no forecast yet, and the one feature a model
      reads. */
  function ExampleFrame(): Frame
  {
    Frame(["hub_id", "bags_used_forecast", "cold_bags_used_forecast", "deep_frozen_bags_used_forecast"],
          [map["hub_id" := Int(1), "bags_used_forecast" := Nan, "cold_bags_used_forecast" := Nan,
               "deep_frozen_bags_used_forecast" := Nan]])
  }

  /** Every model file exists and predicts 1.0 for every row. */
  function ExampleModels(): string -> Option<Model>
  {
    path => Some(x => seq(|x|, _ => Real(1.0)))
  }

  /** Whenever every pass succeeds, the `steps` version returns the frame
      as it was, while the `src` passes write all three forecasts of every
      row of the hub. */
  lemma {:induction false} AsWrittenLosesPredictions(f: Frame, hub: int, features: seq<string>, mount: string,
                                                     models: string -> Option<Model>, i: int)
    requires SrcPredict.AlwaysFits(models) && SrcPredict.NeverNa(models)
    requires "hub_id" in f.columns && forall c :: c in features ==> c in f.columns
    requires 0 <= i < |f.rows| && SrcPredict.AtHub(f.rows[i], hub)
    ensures AsWritten(f, hub, features, SrcPredict.Targets, mount, models) == Ok(f)
    ensures var out := SrcPredict.PredictTargets(f, hub, features, SrcPredict.Targets, mount, models);
            out.1.None? && SrcPredict.Written(out.0.rows[i])
  {
    forall t | t in SrcPredict.Targets ensures SrcPredict.PredictTarget(f, hub, features, t, mount, models).Ok? {
      SrcPredict.PredictTargetFits(f, hub, features, t, mount, models);
    }
    SrcPredict.PredictTargetsSucceed(f, hub, features, SrcPredict.Targets, mount, models);
    SrcPredict.PredictTargetsRow(f, hub, features, SrcPredict.Targets, mount, models, i);
    SrcPredict.WrittenByTargets(SrcPredict.PredictTargets(f, hub, features, SrcPredict.Targets, mount, models).0.rows[i]);
  }

  /** The smallest such input: one order of hub 1 with no forecast yet, and
      models predicting 1.0. The forecasts `steps` writes back stay missing,
      where `src` fills them. */
  lemma ExampleLosesPredictions()
    ensures SrcPredict.HasNullForecast(ExampleFrame().rows[0])
    ensures AsWritten(ExampleFrame(), 1, [], SrcPredict.Targets, "", ExampleModels()) == Ok(ExampleFrame())
    ensures var out := SrcPredict.PredictTargets(ExampleFrame(), 1, [], SrcPredict.Targets, "", ExampleModels());
            out.1.None? && SrcPredict.Written(out.0.rows[0])
  {
    ExampleModelsFit();
    ExampleRowAtHub();
    AsWrittenLosesPredictions(ExampleFrame(), 1, [], "", ExampleModels(), 0);
  }

  lemma ExampleRowAtHub()
    ensures "hub_id" in ExampleFrame().columns
    ensures SrcPredict.AtHub(ExampleFrame().rows[0], 1) && SrcPredict.HasNullForecast(ExampleFrame().rows[0])
  {
  }

  lemma ExampleModelsFit()
    ensures SrcPredict.AlwaysFits(ExampleModels()) && SrcPredict.NeverNa(ExampleModels())
  {
    var models := ExampleModels();
    forall path, f: Frame, hub: int, features: seq<string>
      ensures |SrcPredict.Predictions(f, hub, features, models(path).value)|
              == |FilterRows(f.rows, SrcPredict.HubMask(hub))|
    {
      var hubRows := FilterRows(f.rows, SrcPredict.HubMask(hub));
      assert |SrcPredict.FeatureMatrix(hubRows, features)| == |hubRows|;
    }
    forall path, x: seq<seq<Value>>, k | 0 <= k < |models(path).value(x)|
      ensures !IsNa(models(path).value(x)[k])
    {
      assert models(path).value(x)[k] == Real(1.0);
    }
  }
}
