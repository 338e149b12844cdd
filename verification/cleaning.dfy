/** The cleaning half of the pipeline: `transform` in etl/transform.py and
    etl-aws/data_cleaning.py, and `main` in etl/etl-aws/data_cleaning.py.
    Eight stages run in a fixed order over the scraped table; the first
    stage that raises ends the run. */
module Cleaning {
  import opened Prelude
  import opened Text
  import opened Calendar
  import opened Frame
  import opened Country
  import opened ReviewSplit
  import opened ReviewDate
  import opened FlownDate
  import opened Ids

  /** The `.str` view of column `n`. */
  function TextsOf(t: Table, n: string): (r: Result<seq<Option<string>>>)
    requires Valid(t)
    ensures r.Ok? <==> n in t.names
    ensures r.Ok? ==> |r.value| == t.height && r.value == Texts(Column(t, n).value)
    ensures r.Err? ==> r.error == MissingColumns([n])
  {
    var col :- Column(t, n);
    Ok(Texts(col))
  }

  // ---------------------------------------------------------------------
  // clean_country

  /** `clean_country`; the older copy uses two literal replacements. */
  function CleanCountryStage(v: Variant, t: Table): (r: Result<Table>)
    requires Valid(t)
    ensures r.Ok? <==> "countries" in t.names && CleanCountries(Texts(Column(t, "countries").value), false).Ok?
    ensures r.Ok? ==> Valid(r.value) && r.value.height == t.height && r.value.names == t.names
    ensures r.Ok? ==> Column(r.value, "countries")
                      == Ok(FromTexts(CleanCountries(Texts(Column(t, "countries").value), false).value))
    ensures r.Ok? ==> forall m :: m != "countries" ==> Column(r.value, m) == Column(t, m)
  {
    var cells :- TextsOf(t, "countries");
    LegacyColumnAgrees(cells);
    var cleaned :- CleanCountries(cells, v == Legacy);
    Ok(Put(t, "countries", FromTexts(cleaned)))
  }

  // ---------------------------------------------------------------------
  // clean_review

  /** The `review` and `verified` columns of the settled rows. */
  function ReviewColumn(rows: seq<ReviewParts>): (r: seq<Value>)
    ensures |r| == |rows| && Texts(r) == seq(|rows|, i requires 0 <= i < |rows| => rows[i].review)
  {
    FromTexts(seq(|rows|, i requires 0 <= i < |rows| => rows[i].review))
  }

  function VerifiedColumn(rows: seq<ReviewParts>): (r: seq<Value>)
    ensures |r| == |rows| && forall i :: 0 <= i < |rows| ==> r[i] == Flag(rows[i].verified)
  {
    seq(|rows|, i requires 0 <= i < |rows| => Flag(rows[i].verified))
  }

  /** The split-and-settle of the copy `v`: the older copy needs at most
      two pieces per body. */
  function ReviewRows(v: Variant, bodies: seq<Option<string>>): (r: Result<seq<ReviewParts>>)
    ensures r.Ok? ==> |r.value| == |bodies|
  {
    if v == Legacy then CleanReviewsLegacy(bodies) else CleanReviews(bodies)
  }

  /** `review_bodies` replaced by `verified` and `review`. */
  function ReplaceBodies(t: Table, rows: seq<ReviewParts>): (r: Table)
    requires Valid(t) && |rows| == t.height
    ensures Valid(r) && r.height == t.height
    ensures "review_bodies" !in r.names
    ensures forall m :: m in r.names <==> (m in t.names || m == "review" || m == "verified") && m != "review_bodies"
    ensures Column(r, "review") == Ok(ReviewColumn(rows))
    ensures Column(r, "verified") == Ok(VerifiedColumn(rows))
    ensures forall m :: m != "review_bodies" && m != "review" && m != "verified" ==> Column(r, m) == Column(t, m)
  {
    var put := PutAll(t, ["verified", "review"], [VerifiedColumn(rows), ReviewColumn(rows)]);
    Drop(put, "review_bodies")
  }

  /** `clean_review`: the canonical and etl-aws copies skip a table without
      `review_bodies`; the older copy's `is None` guard never holds, so the
      missing column raises at the guard. */
  function CleanReviewStage(v: Variant, t: Table): (r: Result<Table>)
    requires Valid(t)
    ensures r.Ok? ==> Valid(r.value) && r.value.height == t.height
    ensures "review_bodies" !in t.names ==> (r.Ok? <==> v != Legacy)
    ensures "review_bodies" !in t.names && r.Ok? ==> r.value == t
    ensures "review_bodies" !in t.names && r.Err? ==> r.error == MissingColumns(["review_bodies"])
    ensures "review_bodies" in t.names ==>
      var rows := ReviewRows(v, Texts(Column(t, "review_bodies").value));
      (r.Ok? <==> rows.Ok?) && (r.Ok? ==> r.value == ReplaceBodies(t, rows.value))
  {
    if "review_bodies" !in t.names then
      if v == Legacy then Err(MissingColumns(["review_bodies"])) else Ok(t)
    else
      var rows :- ReviewRows(v, Texts(Column(t, "review_bodies").value));
      Ok(ReplaceBodies(t, rows))
  }

  // ---------------------------------------------------------------------
  // clean_date_review

  /** A parsed date as a table cell. */
  function StampOf(d: Option<Date>): (r: Value)
    ensures r.Null? <==> d.None?
    ensures d.Some? ==> r == Stamp(d.value)
  {
    if d.Some? then Stamp(d.value) else Null
  }

  const ReviewDateNames: seq<string> := ["Day Review", "Month Review", "Year Review", "Dates Review"]

  /** The four columns the stage writes, in the order of `ReviewDateNames`. */
  function ReviewDateColumns(rows: seq<DateParts>): (r: seq<seq<Value>>)
    ensures |r| == 4 && forall k :: 0 <= k < 4 ==> |r[k]| == |rows|
    ensures Texts(r[0]) == seq(|rows|, i requires 0 <= i < |rows| => rows[i].day)
    ensures Texts(r[1]) == seq(|rows|, i requires 0 <= i < |rows| => rows[i].month)
    ensures Texts(r[2]) == seq(|rows|, i requires 0 <= i < |rows| => rows[i].year)
    ensures forall i :: 0 <= i < |rows| ==> r[3][i] == StampOf(rows[i].date)
  {
    [FromTexts(seq(|rows|, i requires 0 <= i < |rows| => rows[i].day)),
     FromTexts(seq(|rows|, i requires 0 <= i < |rows| => rows[i].month)),
     FromTexts(seq(|rows|, i requires 0 <= i < |rows| => rows[i].year)),
     seq(|rows|, i requires 0 <= i < |rows| => StampOf(rows[i].date))]
  }

  /** The four columns written into `t`. */
  function WriteReviewDates(t: Table, rows: seq<DateParts>): (r: Table)
    requires Valid(t) && |rows| == t.height
    ensures Valid(r) && r.height == t.height
    ensures forall m :: m in r.names <==> m in t.names || m in ReviewDateNames
    ensures forall m :: m !in ReviewDateNames ==> Column(r, m) == Column(t, m)
    ensures forall k :: 0 <= k < 4 ==> Column(r, ReviewDateNames[k]) == Ok(ReviewDateColumns(rows)[k])
  {
    PutAll(t, ReviewDateNames, ReviewDateColumns(rows))
  }

  /** `clean_date_review`: the same in every copy (the older copy's second
      `to_datetime` leaves a datetime column as it is). */
  function CleanDateReviewStage(t: Table): (r: Result<Table>)
    requires Valid(t)
    ensures r.Ok? <==> "dates" in t.names && CleanDateReview(Texts(Column(t, "dates").value)).Ok?
    ensures "dates" !in t.names ==> r == Err(MissingColumns(["dates"]))
    ensures r.Ok? ==> Valid(r.value) && r.value.height == t.height
    ensures r.Ok? ==> r.value == WriteReviewDates(t, CleanDateReview(Texts(Column(t, "dates").value)).value)
  {
    var cells :- TextsOf(t, "dates");
    var rows :- CleanDateReview(cells);
    Ok(WriteReviewDates(t, rows))
  }

  /** Every row of the review-date stage: the review date is the parse of
      the three tokens of the `dates` text, or missing when the text has
      fewer tokens or is missing; the day and month columns hold the first
      and second tokens wherever the text has them. */
  lemma ReviewDateStageMeaning(t: Table, i: nat)
    requires Valid(t) && CleanDateReviewStage(t).Ok? && i < t.height
    ensures var cell := Texts(Column(t, "dates").value)[i];
      var r := CleanDateReviewStage(t).value;
      var d := Column(r, "Dates Review").value[i];
      var day := Texts(Column(r, "Day Review").value)[i];
      var month := Texts(Column(r, "Month Review").value)[i];
      && (d.Null? <==> TokenCount(cell) < 3)
      && (d.Stamp? ==> ValidDate(d.d) && InTimestampRange(d.d))
      && (day.Some? <==> TokenCount(cell) >= 1)
      && (TokenCount(cell) >= 1 ==> day == Some(DropLastTwo(SplitWhitespace(cell.value)[0])))
      && (month.Some? <==> TokenCount(cell) >= 2)
      && (TokenCount(cell) >= 2 ==> month == Some(SplitWhitespace(cell.value)[1]))
  {
    var cells := Texts(Column(t, "dates").value);
    var rows := CleanDateReview(cells).value;
    var cols := ReviewDateColumns(rows);
    assert ReviewDateNames[3] == "Dates Review" && ReviewDateNames[0] == "Day Review";
    assert ReviewDateNames[1] == "Month Review";
    assert rows[i] == RowParts(cells[i]);
    assert Texts(cols[0])[i] == rows[i].day;
    assert Texts(cols[1])[i] == rows[i].month;
  }

  // ---------------------------------------------------------------------
  // clean_date_flown

  /** A month number as a table cell (an `Int64` value or `<NA>`). */
  function NumberOf(n: Option<int>): (r: Value)
    ensures r.Null? <==> n.None?
    ensures n.Some? ==> r == Num(n.value as real)
  {
    if n.Some? then Num(n.value as real) else Null
  }

  const FlownNames: seq<string> :=
    ["Month Flown", "Year Flown", "Month Flown Number", "Month Review Number", "Month Year Flown"]

  /** The five columns the stage writes, in the order of `FlownNames`; the
      review month number comes from the `Month Review` texts. */
  function FlownColumns(rows: seq<FlownParts>, reviewMonths: seq<Option<string>>): (r: seq<seq<Value>>)
    requires |reviewMonths| == |rows|
    ensures |r| == 5 && forall k :: 0 <= k < 5 ==> |r[k]| == |rows|
    ensures forall i :: 0 <= i < |rows| ==>
      && Texts(r[0])[i] == rows[i].month && Texts(r[1])[i] == rows[i].year
      && r[2][i] == NumberOf(rows[i].monthNum)
      && r[3][i] == NumberOf(MonthNumberOf(reviewMonths[i]))
      && Texts(r[4])[i] == rows[i].monthYear
  {
    [FromTexts(seq(|rows|, i requires 0 <= i < |rows| => rows[i].month)),
     FromTexts(seq(|rows|, i requires 0 <= i < |rows| => rows[i].year)),
     seq(|rows|, i requires 0 <= i < |rows| => NumberOf(rows[i].monthNum)),
     seq(|rows|, i requires 0 <= i < |rows| => NumberOf(MonthNumberOf(reviewMonths[i]))),
     FromTexts(seq(|rows|, i requires 0 <= i < |rows| => rows[i].monthYear))]
  }

  /** The five columns written into `t`. */
  function WriteFlown(t: Table, rows: seq<FlownParts>, reviewMonths: seq<Option<string>>): (r: Table)
    requires Valid(t) && |rows| == t.height && |reviewMonths| == t.height
    ensures Valid(r) && r.height == t.height
    ensures forall m :: m in r.names <==> m in t.names || m in FlownNames
    ensures forall m :: m !in FlownNames ==> Column(r, m) == Column(t, m)
    ensures forall k :: 0 <= k < 5 ==> Column(r, FlownNames[k]) == Ok(FlownColumns(rows, reviewMonths)[k])
  {
    PutAll(t, FlownNames, FlownColumns(rows, reviewMonths))
  }

  const FlownRename: map<string, string> := map["Date Flown" := "Month Flown"]

  /** `clean_date_flown`: `Date Flown` is renamed `Month Flown` and split on
      one space into exactly two columns; only then is `Month Review`
      looked up, so a bad split is reported before a missing review month. */
  function CleanDateFlownStage(t: Table): (r: Result<Table>)
    requires Valid(t)
    ensures var u := Rename(t, FlownRename);
      r.Ok? <==> && "Month Flown" in u.names && "Month Review" in u.names
                 && CleanDateFlown(Texts(Column(u, "Month Flown").value)).Ok?
    ensures var u := Rename(t, FlownRename);
      "Month Flown" !in u.names ==> r == Err(MissingColumns(["Month Flown"]))
    ensures r.Ok? ==> Valid(r.value) && r.value.height == t.height
    ensures var u := Rename(t, FlownRename);
      r.Ok? ==> r.value == WriteFlown(u, CleanDateFlown(Texts(Column(u, "Month Flown").value)).value,
                                      Texts(Column(u, "Month Review").value))
  {
    var u := Rename(t, FlownRename);
    var cells :- TextsOf(u, "Month Flown");
    var rows :- CleanDateFlown(cells);
    var reviewMonths :- TextsOf(u, "Month Review");
    Ok(WriteFlown(u, rows, reviewMonths))
  }

  /** The renamed table is the input with `Date Flown` called `Month
      Flown`: when only the former is present, its column is the one
      split. */
  lemma FlownRenameFindsColumn(t: Table)
    requires Valid(t) && "Date Flown" in t.names && "Month Flown" !in t.names
    ensures Column(Rename(t, FlownRename), "Month Flown") == Column(t, "Date Flown")
  {
    RenameMoves(t, FlownRename, "Date Flown");
  }

  /** Row `i` of the flown stage's columns is `FlownRow` of the split
      cell. */
  lemma FlownStageRows(t: Table, i: nat)
    requires Valid(t) && CleanDateFlownStage(t).Ok? && i < t.height
    ensures var u := Rename(t, FlownRename);
      var r := CleanDateFlownStage(t).value;
      var p := FlownRow(Texts(Column(u, "Month Flown").value)[i]);
      && Texts(Column(r, "Month Flown").value)[i] == p.month
      && Texts(Column(r, "Year Flown").value)[i] == p.year
      && Column(r, "Month Flown Number").value[i] == NumberOf(p.monthNum)
      && Texts(Column(r, "Month Year Flown").value)[i] == p.monthYear
      && Column(r, "Month Review Number").value[i]
         == NumberOf(MonthNumberOf(Texts(Column(u, "Month Review").value)[i]))
  {
    var u := Rename(t, FlownRename);
    var cells := Texts(Column(u, "Month Flown").value);
    var rows := CleanDateFlown(cells).value;
    var months := Texts(Column(u, "Month Review").value);
    var cols := FlownColumns(rows, months);
    assert FlownNames[0] == "Month Flown" && FlownNames[1] == "Year Flown" && FlownNames[2] == "Month Flown Number";
    assert FlownNames[3] == "Month Review Number" && FlownNames[4] == "Month Year Flown";
    assert rows[i] == FlownRow(cells[i]);
  }

  /** Every row of the flown stage: the flown month number is the number of
      the month word, the review month number that of the review month, and
      "MM-YYYY" reads back to the flown month number and year. */
  lemma FlownStageMeaning(t: Table, i: nat)
    requires Valid(t) && CleanDateFlownStage(t).Ok? && i < t.height
    ensures var u := Rename(t, FlownRename);
      var r := CleanDateFlownStage(t).value;
      var month := Texts(Column(r, "Month Flown").value)[i];
      var year := Texts(Column(r, "Year Flown").value)[i];
      var num := Column(r, "Month Flown Number").value[i];
      var my := Texts(Column(r, "Month Year Flown").value)[i];
      && month == Piece(Texts(Column(u, "Month Flown").value)[i], 0)
      && year == Piece(Texts(Column(u, "Month Flown").value)[i], 1)
      && num == NumberOf(MonthNumberOf(month))
      && (my.Some? ==> && MonthNumberOf(month).Some? && year.Some?
                       && ReadMonthYear(my.value) == Some((MonthNumberOf(month).value, DigitsValue(year.value))))
  {
    var u := Rename(t, FlownRename);
    FlownStageRows(t, i);
    FlownRowMeaning(Texts(Column(u, "Month Flown").value)[i]);
  }

  // ---------------------------------------------------------------------
  // rename_columns and the column order before feature engineering

  /** The cabin-staff rating is `cabin_serv` in etl/transform.py and
      `cabit_serv` in both data_cleaning.py copies. */
  function ServiceName(v: Variant): string {
    if v == Canonical then "cabin_serv" else "cabit_serv"
  }

  /** `new_column_names` of `rename_columns`, as (old, new) pairs, less
      the cabin-staff entry. */
  const SharedPairs: seq<(string, string)> :=
    [("Dates Review", "date_review"),
     ("Day Review", "day_review"),
     ("Month Review", "month_review"),
     ("Month Review Number", "month_review_num"),
     ("Year Review", "year_review"),
     ("customer_names", "name"),
     ("Month Flown", "month_fly"),
     ("Month Flown Number", "month_fly_num"),
     ("Year Flown", "year_fly"),
     ("Month Year Flown", "month_year_fly"),
     ("countries", "country"),
     ("Aircraft", "aircraft"),
     ("Type Of Traveller", "type"),
     ("Seat Type", "seat_type"),
     ("Route", "route"),
     ("Seat Comfort", "seat_comfort"),
     ("Food & Beverages", "food"),
     ("Ground Service", "ground_service"),
     ("Wifi & Connectivity", "wifi"),
     ("Value For Money", "money_value"),
     ("Recommended", "recommended")]

  /** All of `new_column_names` for the copy `v`. */
  function RenamePairs(v: Variant): seq<(string, string)> {
    SharedPairs + [("Cabin Staff Service", ServiceName(v))]
  }

  /** The dictionary of a list of pairs with distinct first parts. */
  function MapOf(ps: seq<(string, string)>): (m: map<string, string>)
    ensures forall k :: k in m <==> exists i :: 0 <= i < |ps| && ps[i].0 == k
  {
    if |ps| == 0 then map[]
    else
      var rest := MapOf(ps[1..]);
      assert forall i :: 1 <= i < |ps| ==> ps[i] == ps[1..][i - 1];
      rest[ps[0].0 := ps[0].1]
  }

  /** A name no pair renames to is no value of the dictionary. */
  lemma {:induction false} MapOfAvoids(ps: seq<(string, string)>, n: string)
    requires forall i :: 0 <= i < |ps| ==> ps[i].1 != n
    ensures forall k :: k in MapOf(ps) ==> MapOf(ps)[k] != n
  {
    if |ps| > 0 {
      assert forall i :: 0 <= i < |ps| - 1 ==> ps[1..][i] == ps[i + 1];
      MapOfAvoids(ps[1..], n);
    }
  }

  /** The dictionary maps the first part of the first pair to its second. */
  lemma MapOfHead(ps: seq<(string, string)>)
    requires |ps| > 0
    ensures ps[0].0 in MapOf(ps) && MapOf(ps)[ps[0].0] == ps[0].1
  {
  }

  /** A name that only pair `j` renames to comes only from that pair's
      first part (when no other pair shares that first part). */
  lemma {:induction false} MapOfOnly(ps: seq<(string, string)>, n: string, src: string)
    requires forall i :: 0 <= i < |ps| && ps[i].0 != src ==> ps[i].1 != n
    ensures forall k :: k in MapOf(ps) && k != src ==> MapOf(ps)[k] != n
  {
    if |ps| > 0 {
      assert forall i :: 0 <= i < |ps| - 1 ==> ps[1..][i] == ps[i + 1];
      MapOfOnly(ps[1..], n, src);
    }
  }

  /** `new_column_names` as a dictionary. */
  function RenameMap(v: Variant): map<string, string> {
    MapOf(RenamePairs(v))
  }

  /** `reorder_columns_before_fe`, and `reorder_columns` of the older copy,
      which lists `verified` a second time after `year_review`. */
  function BeforeFe(v: Variant): seq<string> {
    ["id", "verified", "date_review", "day_review", "month_review", "month_review_num", "year_review"]
    + (if v == Legacy then ["verified"] else [])
    + ["name", "month_fly", "month_fly_num", "year_fly", "month_year_fly", "country", "aircraft",
       "type", "seat_type", "route", "seat_comfort", ServiceName(v), "food", "ground_service",
       "wifi", "money_value", "recommended", "review"]
  }

  /** The column order has 25 names, and in the older copy a 26th that
      repeats `verified`. */
  lemma BeforeFeShape(v: Variant)
    ensures |BeforeFe(v)| == if v == Legacy then 26 else 25
    ensures v == Legacy ==> BeforeFe(v)[1] == BeforeFe(v)[7] == "verified"
    ensures BeforeFe(v)[0] == "id" && BeforeFe(v)[2] == "date_review"
    ensures BeforeFe(v)[|BeforeFe(v)| - 1] == "review"
  {
  }

  /** No name is renamed to `id`, `review` or `verified`, and none of
      those is renamed. */
  lemma RenameMapKeeps(v: Variant, n: string)
    requires n in {"id", "review", "verified"}
    ensures forall k :: k in RenameMap(v) ==> RenameMap(v)[k] != n
    ensures n !in RenameMap(v)
  {
    var ps := RenamePairs(v);
    assert forall i :: 0 <= i < |ps| ==> ps[i].1 != n && ps[i].0 != n;
    MapOfAvoids(ps, n);
  }

  /** Only `Dates Review` is renamed to `date_review`. */
  lemma RenameMapDates(v: Variant)
    ensures forall k :: k in RenameMap(v) && k != "Dates Review" ==> RenameMap(v)[k] != "date_review"
    ensures "Dates Review" in RenameMap(v) && RenameMap(v)["Dates Review"] == "date_review"
  {
    var ps := RenamePairs(v);
    assert forall i :: 0 <= i < |ps| && ps[i].0 != "Dates Review" ==> ps[i].1 != "date_review";
    MapOfOnly(ps, "date_review", "Dates Review");
    MapOfHead(ps);
  }

  // ---------------------------------------------------------------------
  // transform

  /** `clean_country` through `clean_date_flown`: the stages that parse
      the scraped text. */
  function Parsed(v: Variant, t: Table): (r: Result<Table>)
    requires Valid(t)
    ensures r.Ok? ==> Valid(r.value) && r.value.height == t.height
    ensures "countries" !in t.names ==> r == Err(MissingColumns(["countries"]))
  {
    var a :- CleanCountryStage(v, t);
    var b :- CleanReviewStage(v, a);
    var c :- CleanDateReviewStage(b);
    CleanDateFlownStage(c)
  }

  /** `clean_country` through `create_id`: the stages before the columns
      are renamed. */
  function Cleaned(v: Variant, t: Table): (r: Result<Table>)
    requires Valid(t)
    ensures r.Ok? ==> Valid(r.value) && r.value.height == t.height
    ensures "countries" !in t.names ==> r == Err(MissingColumns(["countries"]))
  {
    var d :- Parsed(v, t);
    CreateId(Trim(d))
  }

  /** `transform` of etl/transform.py and etl-aws/data_cleaning.py, and
      `main` of etl/etl-aws/data_cleaning.py: the first stage that raises
      ends the run, and a run that ends gives exactly the columns of
      `BeforeFe`, one row per scraped review. */
  function Transform(v: Variant, t: Table): (r: Result<Table>)
    requires Valid(t)
    ensures r.Ok? ==> Valid(r.value) && r.value.height == t.height && r.value.names == BeforeFe(v)
    ensures "countries" !in t.names ==> r == Err(MissingColumns(["countries"]))
  {
    var cleaned :- Cleaned(v, t);
    Select(Rename(cleaned, RenameMap(v)), BeforeFe(v))
  }

  /** `clean_review` adds `review` and `verified` only when it finds
      `review_bodies`. */
  lemma ReviewStageNames(v: Variant, t: Table, n: string)
    requires Valid(t) && CleanReviewStage(v, t).Ok? && n in CleanReviewStage(v, t).value.names
    ensures n in t.names || ((n == "review" || n == "verified") && "review_bodies" in t.names)
  {
  }

  /** `clean_date_review` adds only its four columns. */
  lemma DateStageNames(t: Table, n: string)
    requires Valid(t) && CleanDateReviewStage(t).Ok? && n in CleanDateReviewStage(t).value.names
    ensures n in t.names || n in ReviewDateNames
  {
  }

  /** `clean_date_flown` adds only its five columns. */
  lemma FlownStageNames(t: Table, n: string)
    requires Valid(t) && CleanDateFlownStage(t).Ok? && n in CleanDateFlownStage(t).value.names
    ensures n in t.names || n in FlownNames
  {
    var u := Rename(t, FlownRename);
    var rows := CleanDateFlown(Texts(Column(u, "Month Flown").value)).value;
    var months := Texts(Column(u, "Month Review").value);
    assert CleanDateFlownStage(t).value == WriteFlown(u, rows, months);
    assert n in u.names || n in FlownNames;
    if n !in FlownNames {
      RenameNames(t, FlownRename, n);
      assert FlownNames[0] == "Month Flown";
    }
  }

  /** A parse that ends went through all four stages. */
  lemma ParsedSteps(v: Variant, t: Table)
    requires Valid(t) && Parsed(v, t).Ok?
    ensures var a := CleanCountryStage(v, t);
      && a.Ok? && CleanReviewStage(v, a.value).Ok?
      && CleanDateReviewStage(CleanReviewStage(v, a.value).value).Ok?
      && Parsed(v, t) == CleanDateFlownStage(CleanDateReviewStage(CleanReviewStage(v, a.value).value).value)
  {
  }

  /** The parsing stages add only the review columns (when `review_bodies`
      is there) and the date columns. */
  lemma {:induction false} ParsedNames(v: Variant, t: Table, n: string)
    requires Valid(t) && Parsed(v, t).Ok? && n in Parsed(v, t).value.names
    ensures || n in t.names || n in ReviewDateNames || n in FlownNames
            || ((n == "review" || n == "verified") && "review_bodies" in t.names)
  {
    ParsedSteps(v, t);
    var a := CleanCountryStage(v, t).value;
    var b := CleanReviewStage(v, a).value;
    var c := CleanDateReviewStage(b).value;
    FlownStageNames(c, n);
    if n in c.names {
      DateStageNames(b, n);
      if n in b.names {
        ReviewStageNames(v, a, n);
      }
    }
  }

  /** A name of `s + [x]` other than `x` is a name of `s`. */
  lemma InAppended(s: seq<string>, x: string, n: string)
    requires n in s + [x] && n != x
    ensures n in s
  {
  }

  /** A run of the stages before the renaming that ends went through the
      parse, the trim and `create_id`. */
  lemma CleanedSteps(v: Variant, t: Table)
    requires Valid(t) && Cleaned(v, t).Ok?
    ensures Parsed(v, t).Ok? && Cleaned(v, t) == CreateId(Trim(Parsed(v, t).value))
  {
  }

  /** So do all the stages before the renaming, and `create_id` adds `id`. */
  lemma {:induction false} CleanedNames(v: Variant, t: Table, n: string)
    requires Valid(t) && Cleaned(v, t).Ok? && n in Cleaned(v, t).value.names
    ensures || n in t.names || n in ReviewDateNames || n in FlownNames || n == IdColumn
            || ((n == "review" || n == "verified") && "review_bodies" in t.names)
  {
    CleanedSteps(v, t);
    var d := Parsed(v, t).value;
    if n != IdColumn {
      if Cleaned(v, t).value.names != d.names {
        InAppended(d.names, IdColumn, n);
      }
      ParsedNames(v, t, n);
    }
  }

  /** A run that ends is the column order applied to the renamed output
      of `create_id`. */
  lemma TransformSteps(v: Variant, t: Table)
    requires Valid(t) && Transform(v, t).Ok?
    ensures var e := Trim(Parsed(v, t).value);
      && Parsed(v, t).Ok? && CreateId(e).Ok? && Cleaned(v, t) == CreateId(e)
      && Transform(v, t) == Select(Rename(CreateId(e).value, RenameMap(v)), BeforeFe(v))
  {
  }

  /** A run that ends gives `id` numbering the rows 0, 1, 2, ... */
  lemma TransformNumbers(v: Variant, t: Table)
    requires Valid(t) && Transform(v, t).Ok?
    ensures Column(Transform(v, t).value, "id") == Ok(Numbering(t.height))
  {
    TransformSteps(v, t);
    var e := Trim(Parsed(v, t).value);
    var f := CreateId(e).value;
    var m := RenameMap(v);
    var g := Rename(f, m);
    BeforeFeShape(v);
    SelectFinds(g, BeforeFe(v), "id");
    RenameMapKeeps(v, "id");
    RenameKeeps(f, m, "id");
    assert Admissible(e, f);
  }

  /** The stages before the renaming make no name they are not written to
      make. */
  lemma NotMadeBeforeRenaming(v: Variant, t: Table, n: string)
    requires Valid(t) && Cleaned(v, t).Ok? && n !in t.names
    requires n !in ReviewDateNames && n !in FlownNames && n != IdColumn
    requires (n == "review" || n == "verified") ==> "review_bodies" !in t.names
    ensures n !in Cleaned(v, t).value.names
  {
    if n in Cleaned(v, t).value.names {
      CleanedNames(v, t, n);
    }
  }

  /** `date_review` and `review` are not among the names the date stages
      write. */
  lemma OutputNamesNotWritten()
    ensures "date_review" !in ReviewDateNames && "date_review" !in FlownNames
    ensures "review" !in ReviewDateNames && "review" !in FlownNames
  {
  }

  /** A run that ends gives the review dates latest first with missing
      dates last, provided the scraped table has no column of its own
      called `date_review`. */
  lemma TransformSorts(v: Variant, t: Table)
    requires Valid(t) && Transform(v, t).Ok? && "date_review" !in t.names
    ensures SortedKeys(Keys(Column(Transform(v, t).value, "date_review").value))
  {
    TransformSteps(v, t);
    var e := Trim(Parsed(v, t).value);
    var f := CreateId(e).value;
    var m := RenameMap(v);
    var g := Rename(f, m);
    BeforeFeShape(v);
    SelectFinds(g, BeforeFe(v), "date_review");
    RenameMapDates(v);
    OutputNamesNotWritten();
    NotMadeBeforeRenaming(v, t, "date_review");
    assert Admissible(e, f);
    RenameMoves(f, m, "Dates Review");
  }

  /** The etl/transform.py and etl-aws copies let a table without
      `review_bodies` through `clean_review`, but unless it already has a
      `review` column the column order then fails; the older copy fails at
      `clean_review` itself. */
  lemma TransformNeedsReview(v: Variant, t: Table)
    requires Valid(t) && "review_bodies" !in t.names && "review" !in t.names
    ensures Transform(v, t).Err?
  {
    if Transform(v, t).Ok? {
      TransformSteps(v, t);
      var f := Cleaned(v, t).value;
      BeforeFeShape(v);
      RenameMapKeeps(v, "review");
      OutputNamesNotWritten();
      NotMadeBeforeRenaming(v, t, "review");
      RenameNames(f, RenameMap(v), "review");
    }
  }
}
