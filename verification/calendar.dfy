/** Gregorian dates as `pd.to_datetime` accepts them, and the English
    month-name table of `clean_date_flown`. */
module Calendar {
  import opened Prelude
  import opened Text

  datatype Date = Date(year: int, month: int, day: int)

  /** The `month_mapping` dictionary of `clean_date_flown`, in month order. */
  const MonthNames: seq<string> := [
    "January", "February", "March", "April", "May", "June",
    "July", "August", "September", "October", "November", "December"
  ]

  /** Index of the first element of `names` equal to `name`, counted from 1. */
  function IndexFrom1(names: seq<string>, name: string): (r: Option<int>)
    ensures r.Some? <==> name in names
    ensures r.Some? ==> 1 <= r.value <= |names| && names[r.value - 1] == name
  {
    if |names| == 0 then None
    else if names[0] == name then Some(1)
    else match IndexFrom1(names[1..], name)
      case None => None
      case Some(k) => Some(k + 1)
  }

  /** `month_mapping.get(name)`: an exact, case-sensitive lookup. */
  function MonthNumber(name: string): (r: Option<int>)
    ensures r.Some? <==> name in MonthNames
    ensures r.Some? ==> 1 <= r.value <= 12 && MonthNames[r.value - 1] == name
  {
    IndexFrom1(MonthNames, name)
  }

  /** Index of the first element of `names` equal to `name` ignoring ASCII
      case, counted from 1. */
  function IndexIgnoreCase(names: seq<string>, name: string): (r: Option<int>)
    ensures r.None? <==> forall k :: 0 <= k < |names| ==> !EqualsIgnoreCase(names[k], name)
    ensures r.Some? ==> 1 <= r.value <= |names| && EqualsIgnoreCase(names[r.value - 1], name)
  {
    if |names| == 0 then None
    else if EqualsIgnoreCase(names[0], name) then Some(1)
    else match IndexIgnoreCase(names[1..], name)
      case None => None
      case Some(k) => Some(k + 1)
  }

  /** The `%B` directive of `strptime`: a full English month name, matched
      without regard to case. */
  function MonthFromName(name: string): (r: Option<int>)
    ensures r.None? <==> forall k :: 0 <= k < 12 ==> !EqualsIgnoreCase(MonthNames[k], name)
    ensures r.Some? ==> 1 <= r.value <= 12 && EqualsIgnoreCase(MonthNames[r.value - 1], name)
  {
    IndexIgnoreCase(MonthNames, name)
  }

  /** No two month names are equal, even ignoring case. */
  lemma MonthNamesDistinct()
    ensures forall j, k :: 0 <= j < k < 12 ==> Lower(MonthNames[j]) != Lower(MonthNames[k])
  {
    // Length, first and third letter, ignoring case, already tell the
    // twelve names apart.
    var sig := seq(12, k requires 0 <= k < 12 =>
      (|MonthNames[k]|, LowerChar(MonthNames[k][0]), LowerChar(MonthNames[k][2])));
    assert sig == [(7, 'j', 'n'), (8, 'f', 'b'), (5, 'm', 'r'), (5, 'a', 'r'), (3, 'm', 'y'), (4, 'j', 'n'),
                   (4, 'j', 'l'), (6, 'a', 'g'), (9, 's', 'p'), (7, 'o', 't'), (8, 'n', 'v'), (8, 'd', 'c')];
    forall j, k | 0 <= j < k < 12 ensures Lower(MonthNames[j]) != Lower(MonthNames[k]) {
      assert sig[j] != sig[k];
    }
  }

  /** In a list whose entries differ even ignoring case, each entry is
      found at its own place by both lookups. */
  lemma {:induction false} IndexOfDistinct(names: seq<string>, i: int)
    requires 0 <= i < |names|
    requires forall j, k :: 0 <= j < k < |names| ==> Lower(names[j]) != Lower(names[k])
    ensures IndexFrom1(names, names[i]) == Some(i + 1)
    ensures IndexIgnoreCase(names, names[i]) == Some(i + 1)
  {
    if i > 0 {
      assert Lower(names[0]) != Lower(names[i]);
      var rest := names[1..];
      assert rest[i - 1] == names[i];
      IndexOfDistinct(rest, i - 1);
    }
  }

  /** Each month name maps to its own number in both tables. */
  lemma MonthOfOwnName(m: int)
    requires 1 <= m <= 12
    ensures MonthNumber(MonthNames[m - 1]) == Some(m)
    ensures MonthFromName(MonthNames[m - 1]) == Some(m)
  {
    MonthNamesDistinct();
    IndexOfDistinct(MonthNames, m - 1);
  }

  predicate IsLeapYear(y: int) {
    (y % 4 == 0 && y % 100 != 0) || y % 400 == 0
  }

  function DaysInMonth(y: int, m: int): (d: int)
    requires 1 <= m <= 12
    ensures 28 <= d <= 31
    ensures d == 29 <==> m == 2 && IsLeapYear(y)
  {
    if m == 2 then (if IsLeapYear(y) then 29 else 28)
    else if m == 4 || m == 6 || m == 9 || m == 11 then 30
    else 31
  }

  /** A day that exists in the proleptic Gregorian calendar. */
  predicate ValidDate(d: Date) {
    1 <= d.month <= 12 && 1 <= d.day <= DaysInMonth(d.year, d.month)
  }

  /** `a` is on or before `b`. */
  predicate OnOrBefore(a: Date, b: Date) {
    a.year < b.year
    || (a.year == b.year && a.month < b.month)
    || (a.year == b.year && a.month == b.month && a.day <= b.day)
  }

  /** First and last whole days a nanosecond `pd.Timestamp` can hold
      (`Timestamp.min` is 1677-09-21 00:12:43, `Timestamp.max` is
      2262-04-11 23:47:16); a parsed date outside them is out of bounds. */
  const FirstTimestampDay := Date(1677, 9, 22)
  const LastTimestampDay := Date(2262, 4, 11)

  predicate InTimestampRange(d: Date) {
    OnOrBefore(FirstTimestampDay, d) && OnOrBefore(d, LastTimestampDay)
  }

  /** `OnOrBefore` is a total order on dates. */
  lemma OnOrBeforeTotalOrder(a: Date, b: Date, c: Date)
    ensures OnOrBefore(a, a)
    ensures OnOrBefore(a, b) || OnOrBefore(b, a)
    ensures OnOrBefore(a, b) && OnOrBefore(b, a) ==> a == b
    ensures OnOrBefore(a, b) && OnOrBefore(b, c) ==> OnOrBefore(a, c)
  {
  }

  /** The two-digit, zero-padded month number `strftime('%m')` prints. */
  function Pad2(m: int): (s: string)
    requires 1 <= m <= 12
    ensures |s| == 2 && AllDigits(s) && DigitsValue(s) == m
  {
    var s := [DigitChar(m / 10), DigitChar(m % 10)];
    var hi := [DigitChar(m / 10)];
    assert s[..1] == hi && hi[..0] == [];
    assert DigitsValue(hi) == m / 10;
    s
  }
}
