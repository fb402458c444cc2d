/** The transform step of the `steps` pipeline: `delivery_time` becomes an
    instant, the calendar features are added to a copy, then
    `remove_outliers` keeps the rows with 0 < bags_used < 10, strictly
    positive cold and deep-frozen bag counts and a total weight under 50 kg,
    and fills the remaining missing values with 0.0. Its bounds are stricter
    than the `src` version's: a bag count of 0 is an outlier here. */
module StepsTransform {
  import opened Wrappers
  import opened Frames
  import Ingest
  import SrcTransform

  predicate FewerThanTenBags(r: Row)     { Below(Cell(r, "bags_used"), 10.0) }
  predicate PositiveBags(r: Row)         { Above(Cell(r, "bags_used"), 0.0) }
  predicate PositiveCold(r: Row)         { Above(Cell(r, "cold_bags_used"), 0.0) }
  predicate PositiveFrozen(r: Row)       { Above(Cell(r, "deep_frozen_bags_used"), 0.0) }
  predicate LighterThanLimit(r: Row)     { Below(Cell(r, "total_weight"), 50000.0) }

  /** All five conditions at once: the reference definition of a kept row. */
  predicate Plausible(r: Row)
  {
    && FewerThanTenBags(r) && PositiveBags(r) && PositiveCold(r)
    && PositiveFrozen(r) && LighterThanLimit(r)
  }

  /** `remove_outliers`: five successive row filters, then `fillna(0.0)`. */
  function RemoveOutliers(df: Frame): (r: Result<Frame, FrameError>)
    ensures r.Ok? <==> forall c :: c in SrcTransform.BoundedColumns ==> c in df.columns
    ensures r.Err? ==> r.error.MissingColumn? && r.error.name in SrcTransform.BoundedColumns && r.error.name !in df.columns
    ensures r.Ok? ==> r.value.columns == df.columns && NoMissing(r.value) && |r.value.rows| <= |df.rows|
  {
    match WhereColumn(df, "bags_used", FewerThanTenBags)
    case Err(e) => Err(e)
    case Ok(d1) =>
      match WhereColumn(d1, "bags_used", PositiveBags)
      case Err(e) => Err(e)
      case Ok(d2) =>
        match WhereColumn(d2, "cold_bags_used", PositiveCold)
        case Err(e) => Err(e)
        case Ok(d3) =>
          match WhereColumn(d3, "deep_frozen_bags_used", PositiveFrozen)
          case Err(e) => Err(e)
          case Ok(d4) =>
            match WhereColumn(d4, "total_weight", LighterThanLimit)
            case Err(e) => Err(e)
            case Ok(d5) => Ok(FillNa(d5, Real(0.0)))
  }

  /** The five filters in a row are one filter by `Plausible`. */
  lemma {:induction false} RemoveOutliersInOnePass(df: Frame)
    requires RemoveOutliers(df).Ok?
    ensures RemoveOutliers(df).value == FillNa(Where(df, Plausible), Real(0.0))
  {
    var rows := df.rows;
    var p2 := r => FewerThanTenBags(r) && PositiveBags(r);
    var p3 := r => p2(r) && PositiveCold(r);
    var p4 := r => p3(r) && PositiveFrozen(r);
    FilterTwice(rows, FewerThanTenBags, PositiveBags, p2);
    FilterTwice(rows, p2, PositiveCold, p3);
    FilterTwice(rows, p3, PositiveFrozen, p4);
    FilterTwice(rows, p4, LighterThanLimit, Plausible);
  }

  lemma FillKeepsPlausible(r: Row)
    requires Plausible(r)
    ensures Plausible(FillRow(r, Real(0.0)))
  {
    var g := FillRow(r, Real(0.0));
    forall c | c in SrcTransform.BoundedColumns ensures Cell(g, c) == Cell(r, c) {
      assert c in r;
    }
  }

  /** Every surviving row meets every bound: 0 < bags_used < 10,
      cold_bags_used > 0, deep_frozen_bags_used > 0, total_weight < 50000. */
  lemma SurvivorsInRange(df: Frame)
    requires RemoveOutliers(df).Ok?
    ensures forall i :: 0 <= i < |RemoveOutliers(df).value.rows| ==> Plausible(RemoveOutliers(df).value.rows[i])
  {
    RemoveOutliersInOnePass(df);
    var kept := Where(df, Plausible).rows;
    forall i | 0 <= i < |kept| ensures Plausible(FillRow(kept[i], Real(0.0))) {
      assert kept[i] in kept;
      FillKeepsPlausible(kept[i]);
    }
  }

  /** Removing outliers twice removes them once. */
  lemma RemoveOutliersIdempotent(df: Frame)
    requires RemoveOutliers(df).Ok?
    ensures RemoveOutliers(RemoveOutliers(df).value) == RemoveOutliers(df)
  {
    var g := RemoveOutliers(df).value;
    SurvivorsInRange(df);
    RemoveOutliersInOnePass(df);
    RemoveOutliersInOnePass(g);
    FilterKeepsAll(g.rows, Plausible);
    forall i | 0 <= i < |g.rows| ensures FillRow(g.rows[i], Real(0.0)) == g.rows[i] {
      FillRowNoop(g.rows[i], Real(0.0));
    }
    assert FillRows(g.rows, Real(0.0)) == g.rows;
  }

  /** On the same frame the `steps` filter keeps a subsequence of what the
      `src` filter keeps: every row it keeps, the `src` version keeps too, in
      the same order. */
  lemma StricterThanSrc(df: Frame)
    requires RemoveOutliers(df).Ok?
    ensures SrcTransform.RemoveOutliers(df).Ok?
    ensures IsSubsequence(RemoveOutliers(df).value.rows, SrcTransform.RemoveOutliers(df).value.rows)
  {
    RemoveOutliersInOnePass(df);
    SrcTransform.RemoveOutliersInOnePass(df);
    FilterStricter(df.rows, Plausible, SrcTransform.Plausible);
    FillRowsSubsequence(Where(df, Plausible).rows, Where(df, SrcTransform.Plausible).rows, Real(0.0));
  }

  /** The unit test's frame, which the `src` filter reduces to the order with
      5 bags, loses that order too here: it has no deep-frozen bag. */
  lemma TestScenario()
    ensures var cols := SrcTransform.TestColumns();
            RemoveOutliers(Frame(cols, [SrcTransform.TestKept(), SrcTransform.TestDropped()])) == Ok(Frame(cols, []))
  {
    var df := Frame(SrcTransform.TestColumns(), [SrcTransform.TestKept(), SrcTransform.TestDropped()]);
    SrcTransform.TestRows();
    assert !PositiveFrozen(SrcTransform.TestKept());
    assert RemoveOutliers(df).Ok? by { SrcTransform.TestHeader(); }
    assert FilterRows([SrcTransform.TestDropped()], Plausible) == [];
    assert Where(df, Plausible).rows == [];
    RemoveOutliersInOnePass(df);
  }

  /** `main` without the pickle I/O: transform, add the calendar features,
      remove outliers. */
  method Run(data: FrameRef, parse: Value -> Option<int>) returns (r: Result<Frame, FrameError>)
    modifies data
    ensures var p := Ingest.ParseDeliveryTimes(old(data.frame), parse);
            r == if p.Err? then Err(p.error)
                 else match Ingest.ExtraFeatures(p.value)
                   case Err(e) => Err(e)
                   case Ok(enriched) => RemoveOutliers(enriched)
    ensures r.Ok? ==> NoMissing(r.value) && (forall i :: 0 <= i < |r.value.rows| ==> Plausible(r.value.rows[i]))
    ensures r.Ok? ==> forall c :: c in Ingest.FeatureSet ==> c in r.value.columns
  {
    var t := Ingest.Transform(data, parse);
    if t.Err? {
      return Err(t.error);
    }
    var enriched := Ingest.ExtraFeatures(data.frame);
    if enriched.Err? {
      return Err(enriched.error);
    }
    r := RemoveOutliers(enriched.value);
    if r.Ok? {
      SurvivorsInRange(enriched.value);
    }
  }
}
