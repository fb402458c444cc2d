/** The transform step of the `src` pipeline: `delivery_time` becomes an
    instant (the same `transform` as the ingest step), then `remove_outliers`
    keeps the rows with 0 <= bags_used < 10, no negative cold or deep-frozen
    bag count and a total weight under 50 kg, and fills the remaining
    missing values with 0.0. */
module SrcTransform {
  import opened Wrappers
  import opened Frames
  import Ingest

  /** The columns the filters read, in the order they read them. */
  const BoundedColumns: seq<string> := ["bags_used", "cold_bags_used", "deep_frozen_bags_used", "total_weight"]

  predicate FewerThanTenBags(r: Row)     { Below(Cell(r, "bags_used"), 10.0) }
  predicate NonNegativeBags(r: Row)      { AtLeast(Cell(r, "bags_used"), 0.0) }
  predicate NonNegativeCold(r: Row)      { AtLeast(Cell(r, "cold_bags_used"), 0.0) }
  predicate NonNegativeFrozen(r: Row)    { AtLeast(Cell(r, "deep_frozen_bags_used"), 0.0) }
  predicate LighterThanLimit(r: Row)     { Below(Cell(r, "total_weight"), 50000.0) }

  /** All five conditions at once: the reference definition of a kept row.
      A missing value in a bounded column fails its comparison. */
  predicate Plausible(r: Row)
  {
    && FewerThanTenBags(r) && NonNegativeBags(r) && NonNegativeCold(r)
    && NonNegativeFrozen(r) && LighterThanLimit(r)
  }

  /** `remove_outliers`: five successive row filters, then `fillna(0.0)` on
      what is left; the first filter whose column is missing raises. */
  function RemoveOutliers(df: Frame): (r: Result<Frame, FrameError>)
    ensures r.Ok? <==> forall c :: c in BoundedColumns ==> c in df.columns
    ensures r.Err? ==> r.error.MissingColumn? && r.error.name in BoundedColumns && r.error.name !in df.columns
    ensures r.Ok? ==> r.value.columns == df.columns && NoMissing(r.value) && |r.value.rows| <= |df.rows|
  {
    match WhereColumn(df, "bags_used", FewerThanTenBags)
    case Err(e) => Err(e)
    case Ok(d1) =>
      match WhereColumn(d1, "bags_used", NonNegativeBags)
      case Err(e) => Err(e)
      case Ok(d2) =>
        match WhereColumn(d2, "cold_bags_used", NonNegativeCold)
        case Err(e) => Err(e)
        case Ok(d3) =>
          match WhereColumn(d3, "deep_frozen_bags_used", NonNegativeFrozen)
          case Err(e) => Err(e)
          case Ok(d4) =>
            match WhereColumn(d4, "total_weight", LighterThanLimit)
            case Err(e) => Err(e)
            case Ok(d5) => Ok(FillNa(d5, Real(0.0)))
  }

  /** The five filters in a row are one filter by `Plausible`: exactly the
      rows meeting every bound survive, in their original order. */
  lemma {:induction false} RemoveOutliersInOnePass(df: Frame)
    requires RemoveOutliers(df).Ok?
    ensures RemoveOutliers(df).value == FillNa(Where(df, Plausible), Real(0.0))
  {
    var rows := df.rows;
    var p2 := r => FewerThanTenBags(r) && NonNegativeBags(r);
    var p3 := r => p2(r) && NonNegativeCold(r);
    var p4 := r => p3(r) && NonNegativeFrozen(r);
    FilterTwice(rows, FewerThanTenBags, NonNegativeBags, p2);
    FilterTwice(rows, p2, NonNegativeCold, p3);
    FilterTwice(rows, p3, NonNegativeFrozen, p4);
    FilterTwice(rows, p4, LighterThanLimit, Plausible);
  }

  /** Filling a plausible row leaves its bounded cells, hence its plausibility,
      alone: they hold numbers. */
  lemma FillKeepsPlausible(r: Row)
    requires Plausible(r)
    ensures Plausible(FillRow(r, Real(0.0)))
  {
    var g := FillRow(r, Real(0.0));
    forall c | c in BoundedColumns ensures Cell(g, c) == Cell(r, c) {
      assert c in r;
    }
  }

  /** Every surviving row meets every bound: 0 <= bags_used < 10,
      cold_bags_used >= 0, deep_frozen_bags_used >= 0, total_weight < 50000. */
  lemma SurvivorsInRange(df: Frame)
    requires RemoveOutliers(df).Ok?
    ensures forall i :: 0 <= i < |RemoveOutliers(df).value.rows| ==> Plausible(RemoveOutliers(df).value.rows[i])
  {
    RemoveOutliersInOnePass(df);
    var kept := Where(df, Plausible).rows;
    forall i | 0 <= i < |kept| ensures Plausible(FillRow(kept[i], Real(0.0))) {
      assert kept[i] in kept;
      FillKeepsPlausible(kept[i]);
    }
  }

  /** Removing outliers twice removes them once. */
  lemma RemoveOutliersIdempotent(df: Frame)
    requires RemoveOutliers(df).Ok?
    ensures RemoveOutliers(RemoveOutliers(df).value) == RemoveOutliers(df)
  {
    var g := RemoveOutliers(df).value;
    SurvivorsInRange(df);
    RemoveOutliersInOnePass(df);
    RemoveOutliersInOnePass(g);
    FilterKeepsAll(g.rows, Plausible);
    forall i | 0 <= i < |g.rows| ensures FillRow(g.rows[i], Real(0.0)) == g.rows[i] {
      FillRowNoop(g.rows[i], Real(0.0));
    }
    assert FillRows(g.rows, Real(0.0)) == g.rows;
  }

  /** The two orders of the unit test's frame. */
  function TestColumns(): seq<string>
  {
    ["delivery_time", "bags_used", "cold_bags_used", "deep_frozen_bags_used", "total_weight"]
  }

  function TestKept(): Row
  {
    map["delivery_time" := Stamp(1692446400), "bags_used" := Int(5), "cold_bags_used" := Int(1),
        "deep_frozen_bags_used" := Int(0), "total_weight" := Int(10000)]
  }

  function TestDropped(): Row
  {
    map["delivery_time" := Stamp(1692450000), "bags_used" := Int(12), "cold_bags_used" := Int(0),
        "deep_frozen_bags_used" := Int(1), "total_weight" := Int(60000)]
  }

  lemma TestHeader()
    ensures forall c :: c in BoundedColumns ==> c in TestColumns()
  {
    assert TestColumns()[1..] == BoundedColumns;
  }

  lemma TestRows()
    ensures Plausible(TestKept()) && !Plausible(TestDropped())
    ensures forall c :: c in TestKept() ==> !IsNa(TestKept()[c])
  {
  }

  /** The unit test's frame: the order with 5 bags stays, the one with 12
      bags (and 60 kg) goes. */
  lemma TestScenario()
    ensures RemoveOutliers(Frame(TestColumns(), [TestKept(), TestDropped()])) == Ok(Frame(TestColumns(), [TestKept()]))
  {
    var df := Frame(TestColumns(), [TestKept(), TestDropped()]);
    TestRows();
    assert RemoveOutliers(df).Ok? by { TestHeader(); }
    assert FilterRows([TestDropped()], Plausible) == [];
    assert Where(df, Plausible).rows == [TestKept()];
    RemoveOutliersInOnePass(df);
    FillRowNoop(TestKept(), Real(0.0));
  }

  /** `do_transform` without the pickle I/O: transform, then remove outliers. */
  method Run(data: FrameRef, parse: Value -> Option<int>) returns (r: Result<Frame, FrameError>)
    modifies data
    ensures var p := Ingest.ParseDeliveryTimes(old(data.frame), parse);
            r == if p.Err? then Err(p.error) else RemoveOutliers(p.value)
    ensures r.Ok? ==> NoMissing(r.value) && forall i :: 0 <= i < |r.value.rows| ==> Plausible(r.value.rows[i])
  {
    var t := Ingest.Transform(data, parse);
    if t.Err? {
      return Err(t.error);
    }
    r := RemoveOutliers(data.frame);
    if r.Ok? {
      SurvivorsInRange(data.frame);
    }
  }
}
