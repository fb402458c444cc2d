/** The ingest step: `transform` turns `delivery_time` into instants in the
    frame it is given, and `extra_features` returns a copy of the frame with
    the day of year, the weekday, the ISO week and the hour of each delivery
    added. The transform steps repeat both functions word for word. */
module Ingest {
  import opened Wrappers
  import opened Calendar
  import opened Frames

  // ------------------------------------------------------------ transform

  /** `pd.to_datetime(cell, utc=True)` succeeds on the cell: a missing value
      becomes NaT, anything else must parse. `parse` stands for pandas'
      parser, from a cell to an instant in seconds since 1970-01-01T00:00Z. */
  predicate Parses(v: Value, parse: Value -> Option<int>)
  {
    IsNa(v) || parse(v).Some?
  }

  /** The cell `transform` stores. `parse` is expected to give back the
      instant of a cell that is already one (`parse(Stamp(t)) == Some(t)`), as
      pandas does when the transform steps parse `delivery_time` again. */
  function ParsedCell(v: Value, parse: Value -> Option<int>): Value
  {
    if IsNa(v) then Nan
    else match parse(v)
      case Some(t) => Stamp(t)
      case None => Nan
  }

  function ParseRow(r: Row, parse: Value -> Option<int>): Row
  {
    r["delivery_time" := ParsedCell(Cell(r, "delivery_time"), parse)]
  }

  function ParseRows(rows: seq<Row>, parse: Value -> Option<int>): (out: seq<Row>)
    ensures |out| == |rows|
    ensures forall i :: 0 <= i < |rows| ==> out[i] == ParseRow(rows[i], parse)
  {
    if rows == [] then [] else [ParseRow(rows[0], parse)] + ParseRows(rows[1..], parse)
  }

  /** The frame `transform` leaves behind: KeyError without a
      `delivery_time` column, a parse error on a cell that is no instant;
      otherwise every delivery time is an instant or NaT and every other
      cell is as it was. */
  function ParseDeliveryTimes(f: Frame, parse: Value -> Option<int>): (r: Result<Frame, FrameError>)
    ensures r.Ok? <==> "delivery_time" in f.columns &&
                       forall i :: 0 <= i < |f.rows| ==> Parses(Cell(f.rows[i], "delivery_time"), parse)
    ensures "delivery_time" !in f.columns ==> r == Err(MissingColumn("delivery_time"))
    ensures r.Ok? ==> r.value.columns == f.columns && |r.value.rows| == |f.rows|
    ensures r.Ok? ==> forall i :: 0 <= i < |f.rows| ==>
              var v := Cell(f.rows[i], "delivery_time");
              && r.value.rows[i].Keys == f.rows[i].Keys + {"delivery_time"}
              && (forall c :: c in f.rows[i] && c != "delivery_time" ==> r.value.rows[i][c] == f.rows[i][c])
              && DeliveryTime(r.value.rows[i]) == (if IsNa(v) then Option.None else parse(v))
              && (r.value.rows[i]["delivery_time"].Stamp? || r.value.rows[i]["delivery_time"].Nan?)
  {
    if "delivery_time" !in f.columns then Err(MissingColumn("delivery_time"))
    else match FirstWhere(f.rows, r => !Parses(Cell(r, "delivery_time"), parse))
      case Some(i) => Err(BadTimestamp(Cell(f.rows[i], "delivery_time")))
      case None => Ok(Frame(f.columns, ParseRows(f.rows, parse)))
  }

  /** `transform`: rewrites `delivery_time` in the caller's frame and returns
      that same frame; on an error the frame is left as it was. */
  method Transform(data: FrameRef, parse: Value -> Option<int>) returns (r: Result<FrameRef, FrameError>)
    modifies data
    ensures r.Ok? <==> ParseDeliveryTimes(old(data.frame), parse).Ok?
    ensures r.Ok? ==> r.value == data && data.frame == ParseDeliveryTimes(old(data.frame), parse).value
    ensures r.Err? ==> data.frame == old(data.frame) && r.error == ParseDeliveryTimes(old(data.frame), parse).error
  {
    var parsed := ParseDeliveryTimes(data.frame, parse);
    if parsed.Err? {
      return Err(parsed.error);
    }
    data.frame := parsed.value;
    r := Ok(data);
  }

  // ------------------------------------------------------- extra_features

  const FeatureColumns: seq<string> := ["day_of_year", "day_of_week", "number_of_week", "delivery_hour"]
  const FeatureSet: set<string> := {"day_of_year", "day_of_week", "number_of_week", "delivery_hour"}

  /** The `.dt` accessor needs a datetime column: every cell an instant or NaT. */
  predicate IsDatetimeCell(v: Value)
  {
    v.Stamp? || IsNa(v)
  }

  /** A row whose delivery time `dt.dayofyear` cannot read. */
  predicate NotDatetime(r: Row)
  {
    !IsDatetimeCell(Cell(r, "delivery_time"))
  }

  /** The four features of a delivery time; NaT gives NaN, and `<NA>` for
      the week. */
  function Features(v: Value): (m: map<string, Value>)
    ensures m.Keys == FeatureSet
  {
    match v
    case Stamp(t) =>
      map["day_of_year" := Int(DayOfYear(t)), "day_of_week" := Int(Weekday(t)),
          "number_of_week" := Int(IsoWeek(t)), "delivery_hour" := Int(Hour(t))]
    case _ =>
      map["day_of_year" := Nan, "day_of_week" := Nan, "number_of_week" := Value.None, "delivery_hour" := Nan]
  }

  function EnrichRow(r: Row): (g: Row)
    ensures g.Keys == r.Keys + FeatureSet
  {
    r + Features(Cell(r, "delivery_time"))
  }

  /** Enriching leaves every other cell as it was. */
  lemma EnrichRowKeeps(r: Row)
    ensures forall c :: c in r && c !in FeatureSet ==> EnrichRow(r)[c] == r[c]
  {
  }

  /** The four features of an enriched row come from its delivery time. */
  lemma EnrichRowFeatures(r: Row)
    ensures DeliveryTime(r).Some? ==>
              var g, t := EnrichRow(r), DeliveryTime(r).value;
              && g["day_of_year"] == Int(DayOfYear(t)) && g["day_of_week"] == Int(Weekday(t))
              && g["number_of_week"] == Int(IsoWeek(t)) && g["delivery_hour"] == Int(Hour(t))
    ensures DeliveryTime(r).None? ==> forall c :: c in FeatureSet ==> IsNa(EnrichRow(r)[c])
  {
    var v := Cell(r, "delivery_time");
    assert EnrichRow(r) == r + Features(v);
    if v.Stamp? {
      FeaturesOfStamp(v.t);
    } else {
      FeaturesOfNat(v);
    }
  }

  lemma FeaturesOfStamp(t: int)
    ensures var m := Features(Stamp(t));
            && m["day_of_year"] == Int(DayOfYear(t)) && m["day_of_week"] == Int(Weekday(t))
            && m["number_of_week"] == Int(IsoWeek(t)) && m["delivery_hour"] == Int(Hour(t))
  {
    FeatureNamesDiffer();
    var y, w, n, h := Int(DayOfYear(t)), Int(Weekday(t)), Int(IsoWeek(t)), Int(Hour(t));
    var m := map["day_of_year" := y, "day_of_week" := w, "number_of_week" := n, "delivery_hour" := h];
    assert Features(Stamp(t)) == m;
  }

  lemma FeatureNamesDiffer()
    ensures "day_of_year" != "day_of_week"
    ensures "day_of_year" != "number_of_week" && "day_of_year" != "delivery_hour"
    ensures "day_of_week" != "number_of_week" && "day_of_week" != "delivery_hour"
    ensures "number_of_week" != "delivery_hour"
  {
    assert "day_of_year"[7] != "day_of_week"[7];
    assert |"day_of_year"| == 11 && |"number_of_week"| == 14 && |"delivery_hour"| == 13;
  }

  lemma FeaturesOfNat(v: Value)
    requires !v.Stamp?
    ensures forall c :: c in FeatureSet ==> IsNa(Features(v)[c])
  {
  }

  function EnrichRows(rows: seq<Row>): (out: seq<Row>)
    ensures |out| == |rows|
    ensures forall i :: 0 <= i < |rows| ==> out[i] == EnrichRow(rows[i])
  {
    if rows == [] then [] else [EnrichRow(rows[0])] + EnrichRows(rows[1..])
  }

  /** The columns after the four assignments. */
  function FeatureHeader(cols: seq<string>): (out: seq<string>)
    ensures |out| >= |cols| && out[..|cols|] == cols
    ensures forall c :: c in out <==> c in cols || c in FeatureSet
  {
    var a := WithColumn(cols, "day_of_year");
    var b := WithColumn(a, "day_of_week");
    var c := WithColumn(b, "number_of_week");
    var d := WithColumn(c, "delivery_hour");
    PrefixOfPrefix(cols, a, b);
    PrefixOfPrefix(cols, b, c);
    PrefixOfPrefix(cols, c, d);
    d
  }

  lemma PrefixOfPrefix(a: seq<string>, b: seq<string>, c: seq<string>)
    requires |a| <= |b| <= |c| && b[..|a|] == a && c[..|b|] == b
    ensures c[..|a|] == a
  {
    assert c[..|a|] == c[..|b|][..|a|];
  }

  /** `extra_features`: a copy of the frame with the four calendar features;
      KeyError without `delivery_time`, AttributeError when that column holds
      something other than instants. */
  function ExtraFeatures(f: Frame): (r: Result<Frame, FrameError>)
    ensures r.Ok? <==> "delivery_time" in f.columns &&
                       forall i :: 0 <= i < |f.rows| ==> IsDatetimeCell(Cell(f.rows[i], "delivery_time"))
    ensures r.Ok? ==> |r.value.rows| == |f.rows|
    ensures r.Ok? ==> |r.value.columns| >= |f.columns| && r.value.columns[..|f.columns|] == f.columns
    ensures r.Ok? ==> forall c :: c in r.value.columns <==> c in f.columns || c in FeatureSet
    ensures r.Ok? ==> forall i :: 0 <= i < |f.rows| ==> r.value.rows[i] == EnrichRow(f.rows[i])
  {
    if "delivery_time" !in f.columns then Err(MissingColumn("delivery_time"))
    else match FirstWhere(f.rows, NotDatetime)
      case Some(i) =>
        assert !IsDatetimeCell(Cell(f.rows[i], "delivery_time"));
        Err(BadTimestamp(Cell(f.rows[i], "delivery_time")))
      case None =>
        assert forall i :: 0 <= i < |f.rows| ==> !NotDatetime(f.rows[i]);
        var cols, rows := FeatureHeader(f.columns), EnrichRows(f.rows);
        assert forall c :: c in cols <==> c in f.columns || c in FeatureSet;
        assert forall i :: 0 <= i < |f.rows| ==> rows[i] == EnrichRow(f.rows[i]);
        Ok(Frame(cols, rows))
  }

  /** Enriching an enriched frame changes nothing: the features depend only
      on `delivery_time`, which enriching leaves alone. */
  lemma ExtraFeaturesIdempotent(f: Frame)
    requires ExtraFeatures(f).Ok?
    ensures ExtraFeatures(ExtraFeatures(f).value) == ExtraFeatures(f)
  {
    EnrichedIsFixed(f, ExtraFeatures(f).value);
  }

  /** An enriched frame is its own enrichment. */
  lemma EnrichedIsFixed(f: Frame, g: Frame)
    requires ExtraFeatures(f) == Ok(g)
    ensures ExtraFeatures(g).Ok? && ExtraFeatures(g).value == g
  {
    EnrichedHeader(f, g);
    EnrichedRows(f, g);
    FixedFrame(g);
  }

  /** An enriched frame carries the features in its header. */
  lemma EnrichedHeader(f: Frame, g: Frame)
    requires ExtraFeatures(f) == Ok(g)
    ensures "delivery_time" in g.columns && FeatureHeader(g.columns) == g.columns
  {
    ExtraFeaturesValue(f);
    FeatureHeaderTwice(f.columns);
  }

  /** The frame a successful `extra_features` returns. */
  lemma ExtraFeaturesValue(f: Frame)
    requires ExtraFeatures(f).Ok?
    ensures ExtraFeatures(f).value == Frame(FeatureHeader(f.columns), EnrichRows(f.rows))
  {
    assert FirstWhere(f.rows, NotDatetime).None?;
  }

  /** An enriched frame carries the features in its rows, and every delivery
      time in it is a datetime. */
  lemma EnrichedRows(f: Frame, g: Frame)
    requires ExtraFeatures(f) == Ok(g)
    ensures EnrichRows(g.rows) == g.rows
    ensures forall i :: 0 <= i < |g.rows| ==> !NotDatetime(g.rows[i])
  {
    assert |g.rows| == |f.rows|;
    forall i | 0 <= i < |g.rows| ensures EnrichRow(g.rows[i]) == g.rows[i] && !NotDatetime(g.rows[i]) {
      assert g.rows[i] == EnrichRow(f.rows[i]);
      EnrichRowTwice(f.rows[i]);
    }
    assert EnrichRows(g.rows) == g.rows;
  }

  /** A frame whose header and rows already carry the features. */
  lemma FixedFrame(g: Frame)
    requires "delivery_time" in g.columns && FeatureHeader(g.columns) == g.columns
    requires EnrichRows(g.rows) == g.rows
    requires forall i :: 0 <= i < |g.rows| ==> !NotDatetime(g.rows[i])
    ensures ExtraFeatures(g).Ok? && ExtraFeatures(g).value == g
  {
    assert FirstWhere(g.rows, NotDatetime).None?;
    ExtraFeaturesOfDatetimes(g);
    assert Frame(FeatureHeader(g.columns), EnrichRows(g.rows)) == g;
  }


  lemma ExtraFeaturesOfDatetimes(g: Frame)
    requires "delivery_time" in g.columns && FirstWhere(g.rows, NotDatetime).None?
    ensures ExtraFeatures(g) == Ok(Frame(FeatureHeader(g.columns), EnrichRows(g.rows)))
  {
  }

  lemma EnrichRowTwice(r: Row)
    ensures Cell(EnrichRow(r), "delivery_time") == Cell(r, "delivery_time")
    ensures EnrichRow(EnrichRow(r)) == EnrichRow(r)
  {
    var v := Cell(r, "delivery_time");
    assert "delivery_time" !in FeatureSet;
    assert Cell(EnrichRow(r), "delivery_time") == v;
    assert EnrichRow(EnrichRow(r)) == (r + Features(v)) + Features(v);
  }

  lemma FeatureHeaderTwice(cols: seq<string>)
    ensures FeatureHeader(FeatureHeader(cols)) == FeatureHeader(cols)
  {
    var h := FeatureHeader(cols);
    assert WithColumn(h, "day_of_year") == h;
    assert WithColumn(h, "day_of_week") == h;
    assert WithColumn(h, "number_of_week") == h;
  }

  /** The day-of-year feature counts from January 1 of the delivery's year. */
  lemma DayOfYearFeature(r: Row, dt: DateTime)
    requires ValidDateTime(dt) && DeliveryTime(r) == Some(ToInstant(dt))
    ensures EnrichRow(r)["day_of_year"] == Int(DaysBeforeMonth(dt.year, dt.month) + dt.day)
  {
    EnrichRowFeatures(r);
    DayOfYearOfDate(dt);
  }

  /** `do_ingest` without the file I/O: transform, then enrich. */
  method Run(data: FrameRef, parse: Value -> Option<int>) returns (r: Result<Frame, FrameError>)
    modifies data
    ensures var p := ParseDeliveryTimes(old(data.frame), parse);
            r == if p.Err? then Err(p.error) else ExtraFeatures(p.value)
    ensures r.Ok? <==> ParseDeliveryTimes(old(data.frame), parse).Ok?
    ensures r.Ok? ==> forall c :: c in FeatureSet ==> c in r.value.columns
  {
    var t := Transform(data, parse);
    if t.Err? {
      return Err(t.error);
    }
    r := ExtraFeatures(t.value.frame);
  }
}
