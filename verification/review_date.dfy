/** `clean_date_review`: the review date "15th March 2024" split on
    whitespace into day, month name and year, the two-character ordinal
    suffix dropped, and the result parsed with `format='%d %B %Y'` and no
    error coercion. */
module ReviewDate {
  import opened Prelude
  import opened Text
  import opened Calendar

  /** The `Day Review`, `Month Review`, `Year Review` and `Dates Review`
      cells of one row. */
  datatype DateParts = DateParts(day: Option<string>, month: Option<string>,
                                 year: Option<string>, date: Option<Date>)

  function TokenCount(cell: Option<string>): nat {
    match cell
    case None => 0
    case Some(s) => |SplitWhitespace(s)|
  }

  /** Number of columns `dates.str.split(expand=True)` produces. */
  function TokenWidth(dates: seq<Option<string>>): (w: nat)
    ensures forall i :: 0 <= i < |dates| ==> TokenCount(dates[i]) <= w
    ensures |dates| > 0 ==> exists i :: 0 <= i < |dates| && TokenCount(dates[i]) == w
  {
    var counts := seq(|dates|, i requires 0 <= i < |dates| => TokenCount(dates[i]));
    assert forall i :: 0 <= i < |dates| ==> counts[i] == TokenCount(dates[i]);
    MaxOf(counts)
  }

  /** Python's `s[:-2]`. */
  function DropLastTwo(s: string): (r: string)
    ensures |s| >= 2 ==> r == s[..|s| - 2]
    ensures |s| < 2 ==> r == ""
  {
    if |s| >= 2 then s[..|s| - 2] else ""
  }

  /** The `%d` directive, `3[01]|[12]\d|0[1-9]|[1-9]`, matching all of `d`. */
  function DayField(d: string): (r: Option<int>)
    ensures r.Some? <==> AllDigits(d) && ((|d| == 1 && d != "0") || (|d| == 2 && 1 <= DigitsValue(d) <= 31))
    ensures r.Some? ==> r.value == DigitsValue(d) && 1 <= r.value <= 31
  {
    if AllDigits(d) && ((|d| == 1 && d != "0") || (|d| == 2 && 1 <= DigitsValue(d) <= 31)) then
      assert |d| == 1 ==> d[..0] == [] && DigitsValue(d) == d[0] as int - '0' as int;
      Some(DigitsValue(d))
    else None
  }

  /** The `%Y` directive: exactly four ASCII digits. */
  function YearField(y: string): (r: Option<int>)
    ensures r.Some? <==> |y| == 4 && AllDigits(y)
    ensures r.Some? ==> r.value == DigitsValue(y)
  {
    if |y| == 4 && AllDigits(y) then Some(DigitsValue(y)) else None
  }

  /** `pd.to_datetime(d + ' ' + m + ' ' + y, format='%d %B %Y')` for
      whitespace-free `d`, `m`, `y`: `None` is where it raises. The date
      must exist and fit a nanosecond Timestamp. */
  function ParseDayMonthYear(d: string, m: string, y: string): (r: Option<Date>)
    ensures r.Some? ==> ValidDate(r.value) && InTimestampRange(r.value)
    ensures r.Some? ==> DayField(d) == Some(r.value.day) && MonthFromName(m) == Some(r.value.month)
                        && YearField(y) == Some(r.value.year)
    ensures r.None? <==> DayField(d).None? || MonthFromName(m).None? || YearField(y).None?
                         || !ValidDate(Date(YearField(y).value, MonthFromName(m).value, DayField(d).value))
                         || !InTimestampRange(Date(YearField(y).value, MonthFromName(m).value, DayField(d).value))
  {
    match (DayField(d), MonthFromName(m), YearField(y))
    case (Some(dd), Some(mm), Some(yy)) =>
      var dt := Date(yy, mm, dd);
      if ValidDate(dt) && InTimestampRange(dt) then Some(dt) else None
    case _ => None
  }

  /** The three cells of one row, `None` where the row has fewer tokens. */
  function Pieces(cell: Option<string>): (Option<string>, Option<string>, Option<string>) {
    match cell
    case None => (None, None, None)
    case Some(s) =>
      var ts := SplitWhitespace(s);
      (if |ts| >= 1 then Some(DropLastTwo(ts[0])) else None,
       if |ts| >= 2 then Some(ts[1]) else None,
       if |ts| >= 3 then Some(ts[2]) else None)
  }

  /** The row is one `to_datetime` rejects: all three cells present (so the
      concatenation is a string, not NaN) and the text does not parse. */
  predicate Rejected(cell: Option<string>) {
    var (d, m, y) := Pieces(cell);
    d.Some? && m.Some? && y.Some? && ParseDayMonthYear(d.value, m.value, y.value).None?
  }

  /** One row of the stage, once the column has exactly three columns. */
  function RowParts(cell: Option<string>): (r: DateParts)
    ensures cell.None? ==> r == DateParts(None, None, None, None)
    ensures r.date.Some? ==> TokenCount(cell) >= 3
    ensures r.date.Some? ==> ValidDate(r.date.value) && InTimestampRange(r.date.value)
    ensures r.date.Some? ==>
      && r.day == Some(DropLastTwo(SplitWhitespace(cell.value)[0]))
      && r.month == Some(SplitWhitespace(cell.value)[1])
      && r.year == Some(SplitWhitespace(cell.value)[2])
      && DayField(r.day.value) == Some(r.date.value.day)
      && EqualsIgnoreCase(MonthNames[r.date.value.month - 1], r.month.value)
      && YearField(r.year.value) == Some(r.date.value.year)
    ensures r.date.None? && !Rejected(cell) ==> TokenCount(cell) < 3
    ensures r.day.Some? <==> TokenCount(cell) >= 1
    ensures r.month.Some? <==> TokenCount(cell) >= 2
    ensures r.year.Some? <==> TokenCount(cell) >= 3
    ensures TokenCount(cell) >= 1 ==> r.day == Some(DropLastTwo(SplitWhitespace(cell.value)[0]))
    ensures TokenCount(cell) >= 2 ==> r.month == Some(SplitWhitespace(cell.value)[1])
    ensures TokenCount(cell) >= 3 ==> r.year == Some(SplitWhitespace(cell.value)[2])
  {
    var (d, m, y) := Pieces(cell);
    if d.Some? && m.Some? && y.Some? then
      DateParts(d, m, y, ParseDayMonthYear(d.value, m.value, y.value))
    else
      DateParts(d, m, y, None)
  }

  /** Text of the first rejected row, if any. */
  function FirstRejected(dates: seq<Option<string>>): (r: Option<string>)
    ensures r.None? <==> forall i :: 0 <= i < |dates| ==> !Rejected(dates[i])
  {
    if |dates| == 0 then None
    else if Rejected(dates[0]) then
      var (d, m, y) := Pieces(dates[0]);
      Some(d.value + " " + m.value + " " + y.value)
    else
      var rest := FirstRejected(dates[1..]);
      assert forall i :: 1 <= i < |dates| ==> dates[i] == dates[1..][i - 1];
      rest
  }

  /** `clean_date_review` over the `dates` column. The split must yield
      exactly three columns; a row with all three tokens must parse (a
      present but invalid date raises); a missing cell or a row with fewer
      tokens yields a missing date. */
  function CleanDateReview(dates: seq<Option<string>>): (r: Result<seq<DateParts>>)
    ensures r.Ok? <==> TokenWidth(dates) == 3 && forall i :: 0 <= i < |dates| ==> !Rejected(dates[i])
    ensures r.Ok? ==> |r.value| == |dates|
    ensures r.Ok? ==> forall i :: 0 <= i < |dates| ==> r.value[i] == RowParts(dates[i])
    ensures TokenWidth(dates) != 3 ==> r.Err? && (r.error.NoText? || r.error.WidthMismatch?)
    ensures TokenWidth(dates) != 3 ==>
      (r.error.NoText? <==> |dates| > 0 && forall i :: 0 <= i < |dates| ==> dates[i].None?)
  {
    var w := TokenWidth(dates);
    if w != 3 then Err(SplitFailure("dates", dates, w))
    else match FirstRejected(dates)
      case Some(text) => Err(BadReviewDate(text))
      case None => Ok(seq(|dates|, i requires 0 <= i < |dates| => RowParts(dates[i])))
  }

  // ---------------------------------------------------------------------
  // Round trip: a date written the way the review site writes it parses
  // back to itself.

  /** "15th March 2024" for 2024-03-15 with suffix "th". */
  function WriteDate(d: Date, suffix: string): string
    requires ValidDate(d) && d.year >= 0
  {
    Decimal(d.day) + suffix + " " + MonthNames[d.month - 1] + " " + Decimal(d.year)
  }

  lemma NoSpaceOfDigits(s: string)
    requires AllDigits(s)
    ensures NoSpace(s)
  {
  }

  /** The written date splits into day-with-suffix, month name and year. */
  lemma WrittenDateWords(d: Date, suffix: string)
    requires ValidDate(d) && d.year >= 0
    requires |suffix| == 2 && NoSpace(suffix)
    ensures SplitWhitespace(WriteDate(d, suffix))
            == [Decimal(d.day) + suffix, MonthNames[d.month - 1], Decimal(d.year)]
  {
    var day := Decimal(d.day);
    var month := MonthNames[d.month - 1];
    var year := Decimal(d.year);
    NoSpaceOfDigits(day);
    NoSpaceOfDigits(year);
    assert NoSpace(day + suffix) by {
      assert forall k :: 0 <= k < |day + suffix| ==>
        (day + suffix)[k] == (if k < |day| then day[k] else suffix[k - |day|]);
    }
    assert NoSpace(month) by {
      assert month in MonthNames;
    }
    SplitThreeWords(day + suffix, month, year);
    assert WriteDate(d, suffix) == (day + suffix) + " " + month + " " + year;
  }

  /** The three written fields parse back to the date. */
  lemma WrittenFieldsParse(d: Date)
    requires ValidDate(d) && InTimestampRange(d)
    ensures ParseDayMonthYear(Decimal(d.day), MonthNames[d.month - 1], Decimal(d.year)) == Some(d)
  {
    MonthOfOwnName(d.month);
    assert DayField(Decimal(d.day)) == Some(d.day);
    assert YearField(Decimal(d.year)) == Some(d.year);
  }

  /** Parsing a date written as day, two-character ordinal suffix, English
      month name and four-digit year gives back the date, and the month
      cell maps to the same month number. */
  lemma ParseWrittenDate(d: Date, suffix: string)
    requires ValidDate(d) && InTimestampRange(d)
    requires |suffix| == 2 && NoSpace(suffix)
    ensures var cell := Some(WriteDate(d, suffix));
      && TokenCount(cell) == 3
      && !Rejected(cell)
      && RowParts(cell) == DateParts(Some(Decimal(d.day)), Some(MonthNames[d.month - 1]),
                                     Some(Decimal(d.year)), Some(d))
      && MonthNumber(MonthNames[d.month - 1]) == Some(d.month)
  {
    var day, month, year := Decimal(d.day), MonthNames[d.month - 1], Decimal(d.year);
    var cell := Some(WriteDate(d, suffix));
    WrittenDateWords(d, suffix);
    assert DropLastTwo(day + suffix) == day;
    assert Pieces(cell) == (Some(day), Some(month), Some(year));
    WrittenFieldsParse(d);
    assert ParseDayMonthYear(day, month, year) == Some(d);
    assert !Rejected(cell);
    assert RowParts(cell) == DateParts(Some(day), Some(month), Some(year), Some(d));
    MonthOfOwnName(d.month);
  }

  /** "15th March 2024": day "15", month "March" (month number 3), year
      "2024", date 2024-03-15. */
  lemma ScenarioFifteenthMarch()
    ensures RowParts(Some("15th March 2024"))
            == DateParts(Some("15"), Some("March"), Some("2024"), Some(Date(2024, 3, 15)))
    ensures MonthNumber("March") == Some(3)
  {
    var d := Date(2024, 3, 15);
    assert Decimal(15) == "15" && Decimal(2024) == "2024";
    assert WriteDate(d, "th") == "15th March 2024";
    ParseWrittenDate(d, "th");
  }
}
