/** `clean_date_flown`: the `Date Flown` text "May 2019" is split on a
    single space into month word and year, the month word is looked up in
    the month table, and "MM-YYYY" is formed through a date parse whose
    failures are coerced to missing. */
module FlownDate {
  import opened Prelude
  import opened Text
  import opened Calendar

  const Space: char := ' '

  /** The `Month Flown`, `Year Flown`, `Month Flown Number` and
      `Month Year Flown` cells of one row. */
  datatype FlownParts = FlownParts(month: Option<string>, year: Option<string>,
                                   monthNum: Option<int>, monthYear: Option<string>)

  /** Number of pieces `text.split(' ')` gives, 0 for a missing cell. */
  function SpacePieces(cell: Option<string>): nat {
    match cell
    case None => 0
    case Some(s) => |SplitOn(s, [Space])|
  }

  /** Number of columns `str.split(' ', expand=True)` produces. */
  function FlownWidth(cells: seq<Option<string>>): (w: nat)
    ensures forall i :: 0 <= i < |cells| ==> SpacePieces(cells[i]) <= w
    ensures |cells| > 0 ==> exists i :: 0 <= i < |cells| && SpacePieces(cells[i]) == w
    ensures w == 0 <==> forall i :: 0 <= i < |cells| ==> cells[i].None?
  {
    var counts := seq(|cells|, i requires 0 <= i < |cells| => SpacePieces(cells[i]));
    assert forall i :: 0 <= i < |cells| ==> counts[i] == SpacePieces(cells[i]);
    MaxOf(counts)
  }

  /** Cell `k` of the expanded split. */
  function Piece(cell: Option<string>, k: nat): Option<string> {
    match cell
    case None => None
    case Some(s) =>
      var ps := SplitOn(s, [Space]);
      if k < |ps| then Some(ps[k]) else None
  }

  /** `column.map(month_mapping)`: the month number of an exact,
      case-sensitive English month name, missing for anything else. */
  function MonthNumberOf(cell: Option<string>): (r: Option<int>)
    ensures r.Some? <==> cell.Some? && cell.value in MonthNames
    ensures r.Some? ==> 1 <= r.value <= 12 && MonthNames[r.value - 1] == cell.value
  {
    match cell
    case None => None
    case Some(name) => MonthNumber(name)
  }

  /** `pd.to_datetime(year + '-' + zfill(month, 2) + '-01', format='%Y-%m-%d',
      errors='coerce').strftime('%m-%Y')`: the ISO parse needs exactly four
      ASCII digits for the year, a month 1..12 and a first day of the month
      a nanosecond Timestamp can hold; every other input gives a missing
      value instead of an error. */
  function MonthYear(monthNum: Option<int>, year: Option<string>): (r: Option<string>)
    ensures r.Some? <==>
      && monthNum.Some? && 1 <= monthNum.value <= 12
      && year.Some? && |year.value| == 4 && AllDigits(year.value)
      && InTimestampRange(Date(DigitsValue(year.value), monthNum.value, 1))
    ensures r.Some? ==>
      && |r.value| == 7 && r.value[2] == '-'
      && AllDigits(r.value[..2]) && DigitsValue(r.value[..2]) == monthNum.value
      && r.value[3..] == year.value
  {
    if monthNum.Some? && 1 <= monthNum.value <= 12
       && year.Some? && |year.value| == 4 && AllDigits(year.value)
       && InTimestampRange(Date(DigitsValue(year.value), monthNum.value, 1))
    then
      var t := Pad2(monthNum.value) + "-" + year.value;
      assert t[..2] == Pad2(monthNum.value) && t[3..] == year.value;
      Some(t)
    else None
  }

  /** One row of the stage. */
  function FlownRow(cell: Option<string>): FlownParts {
    var month := Piece(cell, 0);
    var year := Piece(cell, 1);
    var num := MonthNumberOf(month);
    FlownParts(month, year, num, MonthYear(num, year))
  }

  /** `clean_date_flown` over the `Month Flown` column (the renamed
      `Date Flown`). The split must give exactly two columns; the values
      themselves never make the stage fail. */
  function CleanDateFlown(cells: seq<Option<string>>): (r: Result<seq<FlownParts>>)
    ensures r.Ok? <==> FlownWidth(cells) == 2
    ensures r.Ok? ==> |r.value| == |cells|
    ensures r.Ok? ==> forall i :: 0 <= i < |cells| ==> r.value[i] == FlownRow(cells[i])
  {
    var w := FlownWidth(cells);
    if w != 2 then Err(SplitFailure("Month Flown", cells, w))
    else Ok(seq(|cells|, i requires 0 <= i < |cells| => FlownRow(cells[i])))
  }

  /** Reads "MM-YYYY" back into month and year. */
  function ReadMonthYear(t: string): Option<(int, int)> {
    if |t| == 7 && t[2] == '-' && AllDigits(t[..2]) && AllDigits(t[3..]) then
      Some((DigitsValue(t[..2]), DigitsValue(t[3..])))
    else None
  }

  /** Whatever the cell holds: the month number is 1..12 exactly when the
      month word is one of the twelve names and names that month; a
      "MM-YYYY" value reads back to that month number and the flown year;
      a missing cell gives four missing values. */
  lemma FlownRowMeaning(cell: Option<string>)
    ensures var p := FlownRow(cell);
      && p.month == Piece(cell, 0) && p.year == Piece(cell, 1)
      && (p.monthNum.Some? <==> p.month.Some? && p.month.value in MonthNames)
      && (p.monthNum.Some? ==> 1 <= p.monthNum.value <= 12 && MonthNames[p.monthNum.value - 1] == p.month.value)
      && (p.monthYear.Some? ==>
            && p.monthNum.Some? && p.year.Some?
            && ReadMonthYear(p.monthYear.value) == Some((p.monthNum.value, DigitsValue(p.year.value))))
      && (cell.None? ==> p == FlownParts(None, None, None, None))
  {
    var p := FlownRow(cell);
    if p.monthYear.Some? {
      var t := p.monthYear.value;
      assert AllDigits(t[3..]);
    }
  }

  /** A flown date written as month name, one space and a four-digit year
      inside the Timestamp range gives back the month, its number and
      "MM-YYYY". */
  lemma FlownOfWritten(m: int, y: int)
    requires 1 <= m <= 12 && 1000 <= y <= 9999
    requires InTimestampRange(Date(y, m, 1))
    ensures var name := MonthNames[m - 1];
      var year := Decimal(y);
      FlownRow(Some(name + [Space] + year))
        == FlownParts(Some(name), Some(year), Some(m), Some(Pad2(m) + "-" + year))
  {
    var name := MonthNames[m - 1];
    var year := Decimal(y);
    assert forall k :: 0 <= k < |name| ==> name[k] != Space by {
      assert name in MonthNames;
    }
    assert forall k :: 0 <= k < |year| ==> year[k] != Space;
    SplitAtChar(name, Space, year);
    MonthOfOwnName(m);
  }

  /** "May 2019" gives month "May", number 5, year "2019" and "05-2019". */
  lemma ScenarioMay2019()
    ensures FlownRow(Some("May 2019"))
            == FlownParts(Some("May"), Some("2019"), Some(5), Some("05-2019"))
  {
    assert Decimal(20) == "20";
    assert Decimal(2019) == "2019";
    assert "May" + [Space] + "2019" == "May 2019";
    assert Pad2(5) + "-" + "2019" == "05-2019";
    FlownOfWritten(5, 2019);
  }

  /** An abbreviated month word gives a missing month number and a missing
      "MM-YYYY", never an error. */
  lemma ScenarioAbbreviated()
    ensures FlownRow(Some("Sept 2019")).monthNum.None?
    ensures FlownRow(Some("Sept 2019")).monthYear.None?
  {
    assert "Sept" !in MonthNames;
    var s := "Sept 2019";
    assert s == "Sept" + [Space] + "2019";
    SplitAtChar("Sept", Space, "2019");
  }

  /** A flown date without a space has no year and no "MM-YYYY"; its
      whole text is the month. */
  lemma FlownWithoutSpace(s: string)
    requires forall k :: 0 <= k < |s| ==> s[k] != Space
    ensures FlownRow(Some(s)).month == Some(s)
    ensures FlownRow(Some(s)).year.None? && FlownRow(Some(s)).monthYear.None?
  {
    SplitWithoutChar(s, Space);
    assert Piece(Some(s), 1).None?;
  }

  /** "May" alone gives a missing year and a missing "MM-YYYY", never an
      error. */
  lemma ScenarioNoYear()
    ensures FlownRow(Some("May")).year.None?
    ensures FlownRow(Some("May")).monthYear.None?
  {
    var s := "May";
    forall k | 0 <= k < |s| ensures s[k] != Space {
      assert s[k] in "May";
    }
    FlownWithoutSpace(s);
  }

  /** The month table is case-sensitive while the `%B` parse of the review
      date is not: "15th march 2024" parses, yet its month number is
      missing. */
  lemma ScenarioLowerCaseMonth()
    ensures MonthNumberOf(Some("march")).None?
    ensures MonthFromName("march") == Some(3)
  {
    assert "march" !in MonthNames;
    assert EqualsIgnoreCase(MonthNames[2], "march");
  }
}
