/** The feature-engineering half of the pipeline: `feature_engineer` in
    etl/transform.py and etl-aws/feature_engineering.py, and `main` of
    etl/feature_engineering.py without its file reading and writing. */
module Features {
  import opened Prelude
  import opened Frame
  import opened Route
  import opened Aircraft
  import opened Scores
  import opened Cleaning

  // ---------------------------------------------------------------------
  // calculate_score and calculate_service_score

  /** The five ratings averaged into `score`. */
  function RatingNames(v: Variant): seq<string> {
    ["seat_comfort", ServiceName(v), "food", "ground_service", "wifi"]
  }

  /** Row `i` of the columns `names`. */
  function Cells(t: Table, names: seq<string>, i: nat): (r: seq<Value>)
    requires Valid(t) && i < t.height
    requires forall k :: 0 <= k < |names| ==> names[k] in t.names
    ensures |r| == |names|
    ensures forall k :: 0 <= k < |names| ==> r[k] == Column(t, names[k]).value[i]
  {
    seq(|names|, k requires 0 <= k < |names| => Column(t, names[k]).value[i])
  }

  /** `df[names].mean(axis=1)`. */
  function ScoreColumn(t: Table, names: seq<string>): (r: seq<Value>)
    requires Valid(t)
    requires forall k :: 0 <= k < |names| ==> names[k] in t.names
    ensures |r| == t.height
    ensures forall i :: 0 <= i < t.height ==> r[i] == RowScore(Cells(t, names, i))
  {
    seq(t.height, i requires 0 <= i < t.height => RowScore(Cells(t, names, i)))
  }

  /** The score depends on the rating columns only. */
  lemma ScoreColumnSame(t: Table, u: Table, names: seq<string>)
    requires Valid(t) && Valid(u) && t.height == u.height
    requires forall k :: 0 <= k < |names| ==> names[k] in t.names && names[k] in u.names
    requires forall k :: 0 <= k < |names| ==> Column(u, names[k]) == Column(t, names[k])
    ensures ScoreColumn(u, names) == ScoreColumn(t, names)
  {
    forall i | 0 <= i < t.height
      ensures Cells(u, names, i) == Cells(t, names, i)
    {
    }
  }

  /** `calculate_score`: a missing rating column is a KeyError naming the
      missing ones. */
  function ScoreStage(v: Variant, t: Table): (r: Result<Table>)
    requires Valid(t)
    ensures r.Ok? <==> |Missing(t, RatingNames(v))| == 0
    ensures r.Err? ==> r.error == MissingColumns(Missing(t, RatingNames(v)))
    ensures r.Ok? ==> Valid(r.value) && r.value.height == t.height
    ensures r.Ok? ==> r.value == Put(t, "score", ScoreColumn(t, RatingNames(v)))
  {
    var names := RatingNames(v);
    if |Missing(t, names)| > 0 then Err(MissingColumns(Missing(t, names)))
    else Ok(Put(t, "score", ScoreColumn(t, names)))
  }

  // ---------------------------------------------------------------------
  // clean_route

  const RouteNames: seq<string> := ["origin", "destination", "transit"]

  /** The three columns of the split routes, in the order of `RouteNames`. */
  function RouteColumns(parts: seq<RouteParts>): (r: seq<seq<Value>>)
    ensures |r| == 3 && forall k :: 0 <= k < 3 ==> |r[k]| == |parts|
    ensures forall i :: 0 <= i < |parts| ==>
      && Texts(r[0])[i] == parts[i].origin
      && Texts(r[1])[i] == parts[i].destination
      && Texts(r[2])[i] == parts[i].transit
  {
    [FromTexts(seq(|parts|, i requires 0 <= i < |parts| => parts[i].origin)),
     FromTexts(seq(|parts|, i requires 0 <= i < |parts| => parts[i].destination)),
     FromTexts(seq(|parts|, i requires 0 <= i < |parts| => parts[i].transit))]
  }

  /** The three route columns written into `t`. */
  function WriteRoutes(t: Table, parts: seq<RouteParts>): (r: Table)
    requires Valid(t) && |parts| == t.height
    ensures Valid(r) && r.height == t.height
    ensures forall m :: m in r.names <==> m in t.names || m in RouteNames
    ensures forall m :: m !in RouteNames ==> Column(r, m) == Column(t, m)
    ensures forall k :: 0 <= k < 3 ==> Column(r, RouteNames[k]) == Ok(RouteColumns(parts)[k])
  {
    PutAll(t, RouteNames, RouteColumns(parts))
  }

  /** Writing the route columns leaves every other column alone. */
  lemma WriteRoutesKeeps(t: Table, parts: seq<RouteParts>, n: string)
    requires Valid(t) && |parts| == t.height && n !in RouteNames
    ensures Column(WriteRoutes(t, parts), n) == Column(t, n)
  {
  }

  /** `clean_route`. */
  function RouteStage(t: Table): (r: Result<Table>)
    requires Valid(t)
    ensures r.Ok? <==> "route" in t.names && CleanRoutes(Texts(Column(t, "route").value)).Ok?
    ensures "route" !in t.names ==> r == Err(MissingColumns(["route"]))
    ensures r.Ok? ==> Valid(r.value) && r.value.height == t.height
    ensures r.Ok? ==> r.value == WriteRoutes(t, CleanRoutes(Texts(Column(t, "route").value)).value)
  {
    var routes :- TextsOf(t, "route");
    var parts :- CleanRoutes(routes);
    Ok(WriteRoutes(t, parts))
  }

  // ---------------------------------------------------------------------
  // split_aircraft_column and clean_aircraft

  const AircraftNames: seq<string> := ["aircraft_1", "aircraft_2"]

  /** The first two pieces of the split aircraft texts. */
  function AircraftColumns(parts: seq<AircraftParts>): (r: seq<seq<Value>>)
    ensures |r| == 2 && forall k :: 0 <= k < 2 ==> |r[k]| == |parts|
    ensures forall i :: 0 <= i < |parts| ==>
      Texts(r[0])[i] == parts[i].first && Texts(r[1])[i] == parts[i].second
  {
    [FromTexts(seq(|parts|, i requires 0 <= i < |parts| => parts[i].first)),
     FromTexts(seq(|parts|, i requires 0 <= i < |parts| => parts[i].second))]
  }

  /** The two aircraft columns written into `t`. */
  function WriteAircraft(t: Table, parts: seq<AircraftParts>): (r: Table)
    requires Valid(t) && |parts| == t.height
    ensures Valid(r) && r.height == t.height
    ensures forall m :: m in r.names <==> m in t.names || m in AircraftNames
    ensures forall m :: m !in AircraftNames ==> Column(r, m) == Column(t, m)
    ensures forall k :: 0 <= k < 2 ==> Column(r, AircraftNames[k]) == Ok(AircraftColumns(parts)[k])
  {
    PutAll(t, AircraftNames, AircraftColumns(parts))
  }

  /** Writing the aircraft columns leaves every other column alone. */
  lemma WriteAircraftKeeps(t: Table, parts: seq<AircraftParts>, n: string)
    requires Valid(t) && |parts| == t.height && n !in AircraftNames
    ensures Column(WriteAircraft(t, parts), n) == Column(t, n)
  {
  }

  /** `split_aircraft_column`. `pd.concat` appends `aircraft_1` and
      `aircraft_2` even when the table has them already; the doubled name
      then fails the `.str` of `clean_aircraft`, reported here. */
  function AircraftSplitStage(t: Table): (r: Result<Table>)
    requires Valid(t)
    ensures r.Ok? <==> && "aircraft" in t.names && SplitAircraft(Texts(Column(t, "aircraft").value)).Ok?
                       && "aircraft_1" !in t.names && "aircraft_2" !in t.names
    ensures "aircraft" !in t.names ==> r == Err(MissingColumns(["aircraft"]))
    ensures r.Ok? ==> Valid(r.value) && r.value.height == t.height
    ensures r.Ok? ==> r.value == WriteAircraft(t, SplitAircraft(Texts(Column(t, "aircraft").value)).value)
  {
    var cells :- TextsOf(t, "aircraft");
    var parts :- SplitAircraft(cells);
    if "aircraft_1" in t.names then Err(DuplicateColumn("aircraft_1"))
    else if "aircraft_2" in t.names then Err(DuplicateColumn("aircraft_2"))
    else Ok(WriteAircraft(t, parts))
  }

  /** The cleaned codes of a column of aircraft texts. */
  function CodeColumn(v: Variant, col: seq<Value>): (r: seq<Value>)
    ensures |r| == |col|
    ensures forall i :: 0 <= i < |col| ==> Texts(r)[i] == CleanCode(v, Texts(col)[i])
  {
    FromTexts(seq(|col|, i requires 0 <= i < |col| => CleanCode(v, Texts(col)[i])))
  }

  /** `clean_aircraft(df, n)`: the five rewrites and the code extraction
      on every text of column `n`; any other cell becomes missing. */
  function CleanAircraftStage(v: Variant, t: Table, n: string): (r: Result<Table>)
    requires Valid(t)
    ensures r.Ok? <==> n in t.names
    ensures r.Err? ==> r.error == MissingColumns([n])
    ensures r.Ok? ==> r.value == Put(t, n, CodeColumn(v, Column(t, n).value))
  {
    var col :- Column(t, n);
    Ok(Put(t, n, CodeColumn(v, col)))
  }

  // ---------------------------------------------------------------------
  // calculate_experience and replace_yes_no_with_bool

  /** The experience band of every `money_value` cell, as text. */
  function ExperienceColumn(money: seq<Value>): (r: seq<Value>)
    ensures |r| == |money|
    ensures forall i :: 0 <= i < |money| ==> r[i] == Str(Experience(money[i]))
  {
    seq(|money|, i requires 0 <= i < |money| => Str(Experience(money[i])))
  }

  /** `calculate_experience`. */
  function ExperienceStage(t: Table): (r: Result<Table>)
    requires Valid(t)
    ensures r.Ok? <==> "money_value" in t.names
    ensures r.Err? ==> r.error == MissingColumns(["money_value"])
    ensures r.Ok? ==> Valid(r.value) && r.value.height == t.height
    ensures r.Ok? ==> forall m :: m != "experience" ==> Column(r.value, m) == Column(t, m)
    ensures r.Ok? ==> Column(r.value, "experience") == Ok(ExperienceColumn(Column(t, "money_value").value))
  {
    var money :- Column(t, "money_value");
    Ok(Put(t, "experience", ExperienceColumn(money)))
  }

  /** `replace_yes_no_with_bool(df, 'recommended')`; only the canonical
      copy casts to the nullable boolean type. */
  function RecommendStage(v: Variant, t: Table): (r: Result<Table>)
    requires Valid(t)
    ensures r.Ok? <==> "recommended" in t.names
                       && Recommend("recommended", Column(t, "recommended").value, v == Canonical).Ok?
    ensures "recommended" !in t.names ==> r == Err(MissingColumns(["recommended"]))
    ensures r.Ok? ==> Valid(r.value) && r.value.height == t.height
    ensures r.Ok? ==> forall m :: m != "recommended" ==> Column(r.value, m) == Column(t, m)
    ensures r.Ok? ==> Column(r.value, "recommended")
                      == Recommend("recommended", Column(t, "recommended").value, v == Canonical)
  {
    var col :- Column(t, "recommended");
    var vals :- Recommend("recommended", col, v == Canonical);
    Ok(Put(t, "recommended", vals))
  }

  // ---------------------------------------------------------------------
  // reorder_columns_after_fe and feature_engineer

  /** `reorder_columns_after_fe`; the older copy's `reorder_columns` has no
      `score` and no `experience`. */
  function AfterFe(v: Variant): seq<string> {
    ["id", "date_review", "day_review", "month_review", "month_review_num",
     "year_review", "verified", "name", "month_fly", "month_fly_num",
     "year_fly", "month_year_fly", "country", "aircraft", "aircraft_1",
     "aircraft_2", "type", "seat_type", "route", "origin", "destination", "transit",
     "seat_comfort", ServiceName(v), "food", "ground_service", "wifi", "money_value"]
    + (if v == Legacy then [] else ["score", "experience"])
    + ["recommended", "review"]
  }

  /** `clean_aircraft` on both halves of the split. */
  function CleanBoth(v: Variant, t: Table): (r: Result<Table>)
    requires Valid(t)
    ensures r.Ok? ==> Valid(r.value) && r.value.height == t.height
  {
    var d :- CleanAircraftStage(v, t, "aircraft_1");
    CleanAircraftStage(v, d, "aircraft_2")
  }

  /** `calculate_score` through the two `clean_aircraft` calls, which every
      copy runs. */
  function Prepared(v: Variant, t: Table): (r: Result<Table>)
    requires Valid(t)
    ensures r.Ok? ==> Valid(r.value) && r.value.height == t.height
  {
    var a :- ScoreStage(v, t);
    var b :- RouteStage(a);
    var c :- AircraftSplitStage(b);
    CleanBoth(v, c)
  }

  /** `calculate_experience`, `calculate_service_score` and
      `replace_yes_no_with_bool`, which the older copy does not run. */
  function Enriched(v: Variant, t: Table): (r: Result<Table>)
    requires Valid(t)
    ensures r.Ok? ==> Valid(r.value) && r.value.height == t.height
    ensures r.Ok? && v != Legacy ==> "money_value" in t.names && "recommended" in t.names
    ensures v == Legacy ==> r == Ok(t)
  {
    if v == Legacy then Ok(t)
    else
      var e :- ExperienceStage(t);
      PutKeeps(t, "experience", ExperienceColumn(Column(t, "money_value").value), "recommended");
      var s :- ScoreStage(v, e);
      RecommendStage(v, s)
  }

  /** `feature_engineer`: a run that ends gives exactly the columns of
      `AfterFe`, one row per review. */
  function FeatureEngineer(v: Variant, t: Table): (r: Result<Table>)
    requires Valid(t)
    ensures r.Ok? ==> Valid(r.value) && r.value.height == t.height && r.value.names == AfterFe(v)
    ensures |Missing(t, RatingNames(v))| > 0 ==> r == Err(MissingColumns(Missing(t, RatingNames(v))))
  {
    var p :- Prepared(v, t);
    var e :- Enriched(v, p);
    Select(e, AfterFe(v))
  }

  // ---------------------------------------------------------------------
  // What the first half writes and keeps

  /** The names the stages write are apart from one another and from the
      names they read. */
  lemma NamesApart()
    ensures "aircraft" !in RouteNames && "aircraft_1" !in RouteNames && "aircraft_2" !in RouteNames
    ensures "score" !in RouteNames && "score" !in AircraftNames
    ensures forall k :: 0 <= k < 3 ==> RouteNames[k] !in AircraftNames
    ensures "money_value" !in RouteNames && "money_value" !in AircraftNames
    ensures "recommended" !in RouteNames && "recommended" !in AircraftNames
  {
  }

  /** No rating is written by a stage. */
  lemma RatingsApart(v: Variant)
    ensures forall k :: 0 <= k < 5 ==> var n := RatingNames(v)[k];
      n !in RouteNames && n !in AircraftNames && n != "score" && n != "experience" && n != "recommended"
  {
  }

  /** Only the score, route and aircraft columns change in the first half. */
  lemma PreparedKeeps(v: Variant, t: Table, n: string)
    requires Valid(t) && Prepared(v, t).Ok?
    requires n !in RouteNames && n !in AircraftNames && n != "score"
    ensures Column(Prepared(v, t).value, n) == Column(t, n)
  {
    var a := ScoreStage(v, t).value;
    var routes := CleanRoutes(Texts(Column(a, "route").value)).value;
    var b := WriteRoutes(a, routes);
    assert RouteStage(a) == Ok(b);
    var parts := SplitAircraft(Texts(Column(b, "aircraft").value)).value;
    var c := WriteAircraft(b, parts);
    assert AircraftSplitStage(b) == Ok(c);
    var d := CleanAircraftStage(v, c, "aircraft_1").value;
    var e := CleanAircraftStage(v, d, "aircraft_2").value;
    assert Prepared(v, t) == Ok(e);
    PutKeeps(d, "aircraft_2", CodeColumn(v, Column(d, "aircraft_2").value), n);
    PutKeeps(c, "aircraft_1", CodeColumn(v, Column(c, "aircraft_1").value), n);
    WriteAircraftKeeps(b, parts, n);
    WriteRoutesKeeps(a, routes, n);
  }


  /** What the first half needs of its input. */
  predicate Preparable(v: Variant, t: Table)
    requires Valid(t)
  {
    && |Missing(t, RatingNames(v))| == 0
    && "route" in t.names && CleanRoutes(Texts(Column(t, "route").value)).Ok?
    && "aircraft" in t.names && SplitAircraft(Texts(Column(t, "aircraft").value)).Ok?
    && "aircraft_1" !in t.names && "aircraft_2" !in t.names
  }

  /** The columns the first half reads pass the score stage unchanged. */
  lemma ScoreStageKeepsInputs(v: Variant, t: Table)
    requires Valid(t) && ScoreStage(v, t).Ok?
    ensures var a := ScoreStage(v, t).value;
      && Column(a, "route") == Column(t, "route")
      && Column(a, "aircraft") == Column(t, "aircraft")
      && ("aircraft_1" in a.names <==> "aircraft_1" in t.names)
      && ("aircraft_2" in a.names <==> "aircraft_2" in t.names)
  {
  }

  /** The columns the aircraft split reads pass the route stage unchanged. */
  lemma RouteStageKeepsInputs(t: Table)
    requires Valid(t) && RouteStage(t).Ok?
    ensures var b := RouteStage(t).value;
      && Column(b, "aircraft") == Column(t, "aircraft")
      && ("aircraft_1" in b.names <==> "aircraft_1" in t.names)
      && ("aircraft_2" in b.names <==> "aircraft_2" in t.names)
  {
    var parts := CleanRoutes(Texts(Column(t, "route").value)).value;
    var b := WriteRoutes(t, parts);
    assert RouteStage(t) == Ok(b);
    NamesApart();
    WriteRoutesKeeps(t, parts, "aircraft");
  }

  /** A run of the first half that ends had all it needs. */
  lemma PreparedNeeds(v: Variant, t: Table)
    requires Valid(t) && Prepared(v, t).Ok?
    ensures Preparable(v, t)
  {
    var a := ScoreStage(v, t).value;
    ScoreStageKeepsInputs(v, t);
    var b := RouteStage(a).value;
    RouteStageKeepsInputs(a);
    assert AircraftSplitStage(b).Ok?;
  }

  /** Given all it needs, the first half runs to its end. */
  lemma PreparedSucceeds(v: Variant, t: Table)
    requires Valid(t) && Preparable(v, t)
    ensures Prepared(v, t).Ok?
  {
    var a := ScoreStage(v, t).value;
    ScoreStageKeepsInputs(v, t);
    var b := RouteStage(a).value;
    RouteStageKeepsInputs(a);
    var c := AircraftSplitStage(b).value;
    assert "aircraft_1" in c.names && "aircraft_2" in c.names;
    var d := CleanAircraftStage(v, c, "aircraft_1").value;
    assert "aircraft_2" in d.names;
  }

  /** The first half's score is the mean of the input's ratings. */
  lemma PreparedScore(v: Variant, t: Table)
    requires Valid(t) && Preparable(v, t)
    ensures Prepared(v, t).Ok?
    ensures Column(Prepared(v, t).value, "score") == Ok(ScoreColumn(t, RatingNames(v)))
  {
    PreparedSucceeds(v, t);
    NamesApart();
    var a := ScoreStage(v, t).value;
    ScoreStageKeepsInputs(v, t);
    var routes := CleanRoutes(Texts(Column(a, "route").value)).value;
    var b := WriteRoutes(a, routes);
    assert RouteStage(a) == Ok(b);
    RouteStageKeepsInputs(a);
    var parts := SplitAircraft(Texts(Column(b, "aircraft").value)).value;
    var c := WriteAircraft(b, parts);
    assert AircraftSplitStage(b) == Ok(c);
    var d := CleanAircraftStage(v, c, "aircraft_1").value;
    var e := CleanAircraftStage(v, d, "aircraft_2").value;
    assert Prepared(v, t) == Ok(e);
    PutKeeps(d, "aircraft_2", CodeColumn(v, Column(d, "aircraft_2").value), "score");
    PutKeeps(c, "aircraft_1", CodeColumn(v, Column(c, "aircraft_1").value), "score");
    WriteAircraftKeeps(b, parts, "score");
    WriteRoutesKeeps(a, routes, "score");
  }

  /** The first half's route columns are the split routes of the input. */
  lemma PreparedRoutes(v: Variant, t: Table)
    requires Valid(t) && Preparable(v, t)
    ensures Prepared(v, t).Ok?
    ensures var cols := RouteColumns(CleanRoutes(Texts(Column(t, "route").value)).value);
      && Column(Prepared(v, t).value, "origin") == Ok(cols[0])
      && Column(Prepared(v, t).value, "destination") == Ok(cols[1])
      && Column(Prepared(v, t).value, "transit") == Ok(cols[2])
  {
    PreparedSucceeds(v, t);
    NamesApart();
    var a := ScoreStage(v, t).value;
    ScoreStageKeepsInputs(v, t);
    var routes := CleanRoutes(Texts(Column(a, "route").value)).value;
    var b := WriteRoutes(a, routes);
    assert RouteStage(a) == Ok(b);
    RouteStageKeepsInputs(a);
    var parts := SplitAircraft(Texts(Column(b, "aircraft").value)).value;
    var c := WriteAircraft(b, parts);
    assert AircraftSplitStage(b) == Ok(c);
    var d := CleanAircraftStage(v, c, "aircraft_1").value;
    var e := CleanAircraftStage(v, d, "aircraft_2").value;
    assert Prepared(v, t) == Ok(e);
    var cols := RouteColumns(routes);
    forall n | n in RouteNames
      ensures Column(e, n) == Column(b, n)
    {
      PutKeeps(d, "aircraft_2", CodeColumn(v, Column(d, "aircraft_2").value), n);
      PutKeeps(c, "aircraft_1", CodeColumn(v, Column(c, "aircraft_1").value), n);
      WriteAircraftKeeps(b, parts, n);
    }
    assert Column(b, "origin") == Ok(cols[0]) by { assert RouteNames[0] == "origin"; }
    assert Column(b, "destination") == Ok(cols[1]) by { assert RouteNames[1] == "destination"; }
    assert Column(b, "transit") == Ok(cols[2]) by { assert RouteNames[2] == "transit"; }
  }


  /** The first half's aircraft columns are the cleaned pieces of the
      input's aircraft texts. */
  lemma PreparedAircraft(v: Variant, t: Table)
    requires Valid(t) && Preparable(v, t)
    ensures Prepared(v, t).Ok?
    ensures var cols := AircraftColumns(SplitAircraft(Texts(Column(t, "aircraft").value)).value);
      && Column(Prepared(v, t).value, "aircraft_1") == Ok(CodeColumn(v, cols[0]))
      && Column(Prepared(v, t).value, "aircraft_2") == Ok(CodeColumn(v, cols[1]))
  {
    PreparedSucceeds(v, t);
    var a := ScoreStage(v, t).value;
    ScoreStageKeepsInputs(v, t);
    var b := RouteStage(a).value;
    RouteStageKeepsInputs(a);
    var parts := SplitAircraft(Texts(Column(b, "aircraft").value)).value;
    var c := WriteAircraft(b, parts);
    assert AircraftSplitStage(b) == Ok(c);
    var cols := AircraftColumns(parts);
    assert Column(c, "aircraft_1") == Ok(cols[0]) && Column(c, "aircraft_2") == Ok(cols[1]);
    var d := Put(c, "aircraft_1", CodeColumn(v, cols[0]));
    assert CleanAircraftStage(v, c, "aircraft_1") == Ok(d);
    PutKeeps(c, "aircraft_1", CodeColumn(v, cols[0]), "aircraft_2");
    var e := Put(d, "aircraft_2", CodeColumn(v, cols[1]));
    assert CleanAircraftStage(v, d, "aircraft_2") == Ok(e);
    PutKeeps(d, "aircraft_2", CodeColumn(v, cols[1]), "aircraft_1");
    assert Prepared(v, t) == Ok(e);
    assert parts == SplitAircraft(Texts(Column(t, "aircraft").value)).value;
    assert Column(e, "aircraft_1") == Ok(CodeColumn(v, cols[0]));
    assert Column(e, "aircraft_2") == Ok(CodeColumn(v, cols[1]));
  }


  // ---------------------------------------------------------------------
  // What the second half writes and keeps

  /** The second half changes only `experience`, `score` and
      `recommended`. */
  lemma EnrichedKeeps(v: Variant, t: Table, n: string)
    requires Valid(t) && Enriched(v, t).Ok?
    requires n != "experience" && n != "score" && n != "recommended"
    ensures Column(Enriched(v, t).value, n) == Column(t, n)
  {
    if v != Legacy {
      var x := ExperienceStage(t).value;
      var y := ScoreStage(v, x).value;
      var z := RecommendStage(v, y).value;
      assert Enriched(v, t) == Ok(z);
      assert Column(z, n) == Column(y, n) == Column(x, n) == Column(t, n);
    }
  }

  /** The second half's score is computed again from ratings it has not
      touched, so it equals the score of its input's ratings. */
  lemma EnrichedScore(v: Variant, t: Table)
    requires Valid(t) && Enriched(v, t).Ok? && v != Legacy
    ensures forall k :: 0 <= k < 5 ==> RatingNames(v)[k] in t.names
    ensures Column(Enriched(v, t).value, "score") == Ok(ScoreColumn(t, RatingNames(v)))
  {
    RatingsApart(v);
    var names := RatingNames(v);
    var x := ExperienceStage(t).value;
    var y := ScoreStage(v, x).value;
    var z := RecommendStage(v, y).value;
    assert Enriched(v, t) == Ok(z);
    forall k | 0 <= k < |names|
      ensures names[k] in t.names && Column(x, names[k]) == Column(t, names[k])
    {
      assert names[k] in x.names;
    }
    ScoreColumnSame(t, x, names);
    assert Column(z, "score") == Column(y, "score");
  }

  /** The second half's experience and recommendation columns. */
  lemma EnrichedColumns(v: Variant, t: Table)
    requires Valid(t) && Enriched(v, t).Ok? && v != Legacy
    ensures Column(Enriched(v, t).value, "experience") == Ok(ExperienceColumn(Column(t, "money_value").value))
    ensures Column(Enriched(v, t).value, "recommended")
            == Recommend("recommended", Column(t, "recommended").value, v == Canonical)
  {
    var x := ExperienceStage(t).value;
    var y := ScoreStage(v, x).value;
    var z := RecommendStage(v, y).value;
    assert Enriched(v, t) == Ok(z);
    assert Column(z, "experience") == Column(y, "experience") == Column(x, "experience");
    assert Column(y, "recommended") == Column(x, "recommended") == Column(t, "recommended");
  }

  // ---------------------------------------------------------------------
  // What feature engineering writes and keeps

  /** Names that hold no `_`-digit suffix are not the split columns. */
  lemma SplitNamesNotIn(names: seq<string>)
    requires forall k :: 0 <= k < |names| ==> |names[k]| < 10 || names[k][8] != '_'
    ensures "aircraft_1" !in names && "aircraft_2" !in names
  {
    forall k | 0 <= k < |names| ensures names[k] != "aircraft_1" && names[k] != "aircraft_2" {
    }
  }

  /** The order before feature engineering lists what it reads. */
  lemma BeforeFeHas(v: Variant)
    ensures forall k :: 0 <= k < 5 ==> RatingNames(v)[k] in BeforeFe(v)
    ensures "route" in BeforeFe(v) && "aircraft" in BeforeFe(v)
    ensures "money_value" in BeforeFe(v) && "recommended" in BeforeFe(v)
  {
    var head := ["id", "verified", "date_review", "day_review", "month_review", "month_review_num", "year_review"];
    var extra: seq<string> := if v == Legacy then ["verified"] else [];
    var tail := ["name", "month_fly", "month_fly_num", "year_fly", "month_year_fly", "country", "aircraft",
                 "type", "seat_type", "route", "seat_comfort", ServiceName(v), "food", "ground_service",
                 "wifi", "money_value", "recommended", "review"];
    assert BeforeFe(v) == head + extra + tail;
    forall k | 0 <= k < 5 ensures RatingNames(v)[k] in tail {
      assert RatingNames(v)[k] == tail[k + 10];
    }
    assert tail[9] == "route" && tail[6] == "aircraft" && tail[15] == "money_value" && tail[16] == "recommended";
  }

  /** The order before feature engineering has none of the columns the
      aircraft split appends. */
  lemma BeforeFeLacksSplit(v: Variant)
    ensures "aircraft_1" !in BeforeFe(v) && "aircraft_2" !in BeforeFe(v)
  {
    var head := ["id", "verified", "date_review", "day_review", "month_review", "month_review_num", "year_review"];
    var extra: seq<string> := if v == Legacy then ["verified"] else [];
    var tail := ["name", "month_fly", "month_fly_num", "year_fly", "month_year_fly", "country", "aircraft",
                 "type", "seat_type", "route", "seat_comfort", ServiceName(v), "food", "ground_service",
                 "wifi", "money_value", "recommended", "review"];
    assert BeforeFe(v) == head + extra + tail;
    SplitNamesNotIn(head);
    SplitNamesNotIn(extra);
    SplitNamesNotIn(tail);
  }


  /** The written columns are all in the final order. */
  lemma AfterFeHas(v: Variant)
    ensures forall n :: n in RouteNames + AircraftNames ==> n in AfterFe(v)
    ensures "recommended" in AfterFe(v)
    ensures v != Legacy ==> "score" in AfterFe(v) && "experience" in AfterFe(v)
  {
  }

  /** Columns the second half does not write reach the output as they left
      the first half. */
  lemma SelectedKeeps(v: Variant, p: Table, n: string)
    requires Valid(p) && Enriched(v, p).Ok? && Select(Enriched(v, p).value, AfterFe(v)).Ok?
    requires n in AfterFe(v) && n != "experience" && n != "score" && n != "recommended"
    ensures Column(Select(Enriched(v, p).value, AfterFe(v)).value, n) == Column(p, n)
  {
    SelectFinds(Enriched(v, p).value, AfterFe(v), n);
    EnrichedKeeps(v, p, n);
  }

  /** A run that ends passes through both halves. */
  lemma FeatureEngineerSteps(v: Variant, t: Table)
    requires Valid(t) && FeatureEngineer(v, t).Ok?
    ensures Preparable(v, t)
    ensures Prepared(v, t).Ok? && Enriched(v, Prepared(v, t).value).Ok?
    ensures FeatureEngineer(v, t) == Select(Enriched(v, Prepared(v, t).value).value, AfterFe(v))
  {
    PreparedNeeds(v, t);
  }

  /** Every output column that no stage writes is the input's column. */
  lemma FeatureEngineerCarries(v: Variant, t: Table, n: string)
    requires Valid(t) && FeatureEngineer(v, t).Ok? && n in AfterFe(v)
    requires n !in RouteNames && n !in AircraftNames
    requires n != "score" && n != "experience" && n != "recommended"
    ensures n in t.names
    ensures Column(FeatureEngineer(v, t).value, n) == Column(t, n)
  {
    FeatureEngineerSteps(v, t);
    var p := Prepared(v, t).value;
    var e := Enriched(v, p).value;
    SelectFinds(e, AfterFe(v), n);
    EnrichedKeeps(v, p, n);
    PreparedKeeps(v, t, n);
  }

  /** The output's route and aircraft columns come from the input's
      `route` and `aircraft` texts. */
  lemma FeatureEngineerSplits(v: Variant, t: Table)
    requires Valid(t) && FeatureEngineer(v, t).Ok?
    ensures Preparable(v, t)
    ensures var out := FeatureEngineer(v, t).value;
      var routes := RouteColumns(CleanRoutes(Texts(Column(t, "route").value)).value);
      var planes := AircraftColumns(SplitAircraft(Texts(Column(t, "aircraft").value)).value);
      && Column(out, "origin") == Ok(routes[0])
      && Column(out, "destination") == Ok(routes[1])
      && Column(out, "transit") == Ok(routes[2])
      && Column(out, "aircraft_1") == Ok(CodeColumn(v, planes[0]))
      && Column(out, "aircraft_2") == Ok(CodeColumn(v, planes[1]))
  {
    FeatureEngineerSteps(v, t);
    var p := Prepared(v, t).value;
    var e := Enriched(v, p).value;
    PreparedRoutes(v, t);
    PreparedAircraft(v, t);
    AfterFeHas(v);
    assert "origin" in RouteNames + AircraftNames;
    SelectedKeeps(v, p, "origin");
    assert "destination" in RouteNames + AircraftNames;
    SelectedKeeps(v, p, "destination");
    assert "transit" in RouteNames + AircraftNames;
    SelectedKeeps(v, p, "transit");
    assert "aircraft_1" in RouteNames + AircraftNames;
    SelectedKeeps(v, p, "aircraft_1");
    assert "aircraft_2" in RouteNames + AircraftNames;
    SelectedKeeps(v, p, "aircraft_2");
  }

  /** The output's score is the mean of the input's ratings, although the
      canonical and cloud copies compute it twice. */
  lemma FeatureEngineerScore(v: Variant, t: Table)
    requires Valid(t) && FeatureEngineer(v, t).Ok? && v != Legacy
    ensures Preparable(v, t)
    ensures Column(FeatureEngineer(v, t).value, "score") == Ok(ScoreColumn(t, RatingNames(v)))
  {
    FeatureEngineerSteps(v, t);
    RatingsApart(v);
    var p := Prepared(v, t).value;
    var e := Enriched(v, p).value;
    SelectFinds(e, AfterFe(v), "score");
    EnrichedScore(v, p);
    var names := RatingNames(v);
    forall k | 0 <= k < |names|
      ensures names[k] in p.names && Column(p, names[k]) == Column(t, names[k])
    {
      PreparedKeeps(v, t, names[k]);
    }
    ScoreColumnSame(t, p, names);
  }

  /** The output's experience band and recommendation. */
  lemma FeatureEngineerEnriches(v: Variant, t: Table)
    requires Valid(t) && FeatureEngineer(v, t).Ok?
    ensures "recommended" in t.names
    ensures v != Legacy ==> "money_value" in t.names
    ensures v != Legacy ==> Column(FeatureEngineer(v, t).value, "experience")
                            == Ok(ExperienceColumn(Column(t, "money_value").value))
    ensures v != Legacy ==> Column(FeatureEngineer(v, t).value, "recommended")
                            == Recommend("recommended", Column(t, "recommended").value, v == Canonical)
    ensures v == Legacy ==> Column(FeatureEngineer(v, t).value, "recommended") == Column(t, "recommended")
  {
    FeatureEngineerSteps(v, t);
    var p := Prepared(v, t).value;
    var e := Enriched(v, p).value;
    NamesApart();
    AfterFeHas(v);
    PreparedKeeps(v, t, "money_value");
    PreparedKeeps(v, t, "recommended");
    SelectFinds(e, AfterFe(v), "recommended");
    if v != Legacy {
      SelectFinds(e, AfterFe(v), "experience");
      EnrichedColumns(v, p);
    }
  }

  // ---------------------------------------------------------------------
  // The whole pipeline

  /** `main` without its files: `transform` and then `feature_engineer`,
      one row per review from start to end. */
  function Run(v: Variant, t: Table): (r: Result<Table>)
    requires Valid(t)
    ensures r.Ok? ==> Valid(r.value) && r.value.height == t.height && r.value.names == AfterFe(v)
    ensures "countries" !in t.names ==> r == Err(MissingColumns(["countries"]))
  {
    var cleaned :- Transform(v, t);
    FeatureEngineer(v, cleaned)
  }

  /** The cleaned table has every column feature engineering reads and
      none of those the aircraft split appends, so on it the first half
      fails only on a route it cannot unpack or aircraft texts that never
      split in two. */
  lemma TransformFeedsFeatures(v: Variant, t: Table)
    requires Valid(t) && Transform(v, t).Ok?
    ensures var u := Transform(v, t).value;
      && |Missing(u, RatingNames(v))| == 0
      && "money_value" in u.names && "recommended" in u.names
      && (Preparable(v, u) <==>
            && CleanRoutes(Texts(Column(u, "route").value)).Ok?
            && SplitAircraft(Texts(Column(u, "aircraft").value)).Ok?)
  {
    var u := Transform(v, t).value;
    BeforeFeHas(v);
    BeforeFeLacksSplit(v);
    assert forall k :: 0 <= k < 5 ==> RatingNames(v)[k] in u.names;
  }
}
