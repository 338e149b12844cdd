/** `split_aircraft_column` and `clean_aircraft`: the `aircraft` text is cut
    at `/`, `-`, `,` and `&`, the first two pieces become `aircraft_1` and
    `aircraft_2`, each is rewritten by five ordered substitutions, and the
    first letter-then-digits code is kept. */
module Aircraft {
  import opened Prelude
  import opened Text

  const Separators: set<char> := {'/', '-', ',', '&'}

  // ---------------------------------------------------------------------
  // Splitting

  /** `re.split('/|-|,|&', s)` with `cs` the separator characters: the
      pieces between separators, the first one running up to the first
      separator. */
  function SplitAny(s: string, cs: set<char>): (parts: seq<string>)
    ensures |parts| >= 1
    ensures forall k :: 0 <= k < |parts| ==> forall j :: 0 <= j < |parts[k]| ==> parts[k][j] !in cs
    ensures Concat(parts) == DropChars(s, cs)
    ensures |parts| == 1 + |s| - |DropChars(s, cs)|
    decreases |s|
  {
    if |s| == 0 then [""]
    else
      var rest := SplitAny(s[1..], cs);
      assert DropChars(s, cs) == (if s[0] in cs then "" else [s[0]]) + DropChars(s[1..], cs);
      if s[0] in cs then
        ConcatCons("", rest);
        [""] + rest
      else
        var head := [s[0]] + rest[0];
        ConcatCons(rest[0], rest[1..]);
        ConcatCons(head, rest[1..]);
        assert [rest[0]] + rest[1..] == rest;
        [head] + rest[1..]
  }

  /** The first piece is the text up to the first separator, and when
      there are more pieces that separator follows it. */
  lemma {:induction false} SplitAnyPrefix(s: string, cs: set<char>)
    ensures var parts := SplitAny(s, cs);
      && |parts[0]| <= |s| && s[..|parts[0]|] == parts[0]
      && (|parts| > 1 ==> |parts[0]| < |s| && s[|parts[0]|] in cs)
    decreases |s|
  {
    if |s| > 0 && s[0] !in cs {
      SplitAnyPrefix(s[1..], cs);
      var rest := SplitAny(s[1..], cs);
      assert SplitAny(s, cs)[0] == [s[0]] + rest[0];
      assert s[..1 + |rest[0]|] == [s[0]] + s[1..][..|rest[0]|];
    }
  }

  /** Text without separators is one piece. */
  lemma {:induction false} SplitAnyNone(b: string, cs: set<char>)
    requires forall k :: 0 <= k < |b| ==> b[k] !in cs
    ensures SplitAny(b, cs) == [b]
    decreases |b|
  {
    if |b| > 0 {
      SplitAnyNone(b[1..], cs);
      assert [b[0]] + b[1..] == b;
    }
  }

  /** A separator-free prefix ended by a separator is the first piece. */
  lemma {:induction false} SplitAnyFirst(a: string, c: char, b: string, cs: set<char>)
    requires c in cs
    requires forall k :: 0 <= k < |a| ==> a[k] !in cs
    ensures SplitAny(a + [c] + b, cs) == [a] + SplitAny(b, cs)
    decreases |a|
  {
    var s := a + [c] + b;
    if |a| == 0 {
      assert s == [c] + b && s[1..] == b;
    } else {
      assert s[0] == a[0] && s[1..] == a[1..] + [c] + b;
      SplitAnyFirst(a[1..], c, b, cs);
      assert [a[0]] + a[1..] == a;
    }
  }

  /** Two separator-free pieces around one separator split back into those
      pieces. */
  lemma SplitAnyTwo(a: string, c: char, b: string, cs: set<char>)
    requires c in cs
    requires forall k :: 0 <= k < |a| ==> a[k] !in cs
    requires forall k :: 0 <= k < |b| ==> b[k] !in cs
    ensures SplitAny(a + [c] + b, cs) == [a, b]
  {
    SplitAnyFirst(a, c, b, cs);
    SplitAnyNone(b, cs);
  }

  /** The number of columns the expanded split produces. */
  function PieceCount(cell: Option<string>): nat {
    match cell
    case None => 0
    case Some(s) => |SplitAny(s, Separators)|
  }

  function AircraftWidth(cells: seq<Option<string>>): (w: nat)
    ensures forall i :: 0 <= i < |cells| ==> PieceCount(cells[i]) <= w
    ensures |cells| > 0 ==> exists i :: 0 <= i < |cells| && PieceCount(cells[i]) == w
    ensures w == 0 <==> forall i :: 0 <= i < |cells| ==> cells[i].None?
  {
    var counts := seq(|cells|, i requires 0 <= i < |cells| => PieceCount(cells[i]));
    assert forall i :: 0 <= i < |cells| ==> counts[i] == PieceCount(cells[i]);
    MaxOf(counts)
  }

  /** The `aircraft_1` and `aircraft_2` cells of one row. */
  datatype AircraftParts = AircraftParts(first: Option<string>, second: Option<string>)

  function SplitRow(cell: Option<string>): AircraftParts {
    match cell
    case None => AircraftParts(None, None)
    case Some(s) =>
      var parts := SplitAny(s, Separators);
      AircraftParts(Some(parts[0]), if |parts| > 1 then Some(parts[1]) else None)
  }

  /** `split_aircraft_column`: selecting `aircraft_1` and `aircraft_2` fails
      unless some row has at least two pieces; a non-empty column without
      any text fails at the `.str` accessor. Later pieces are dropped. */
  function SplitAircraft(cells: seq<Option<string>>): (r: Result<seq<AircraftParts>>)
    ensures r.Ok? <==> AircraftWidth(cells) >= 2
    ensures r.Ok? ==> |r.value| == |cells|
    ensures r.Ok? ==> forall i :: 0 <= i < |cells| ==> r.value[i] == SplitRow(cells[i])
    ensures r.Err? && |cells| > 0 && (forall i :: 0 <= i < |cells| ==> cells[i].None?) ==>
      r.error == NoText("aircraft")
    ensures r.Err? && AircraftWidth(cells) == 1 ==> r.error == MissingColumns(["aircraft_2"])
  {
    var w := AircraftWidth(cells);
    if w == 0 && |cells| > 0 then Err(NoText("aircraft"))
    else if w == 0 then Err(MissingColumns(["aircraft_1", "aircraft_2"]))
    else if w == 1 then Err(MissingColumns(["aircraft_2"]))
    else Ok(seq(|cells|, i requires 0 <= i < |cells| => SplitRow(cells[i])))
  }

  // ---------------------------------------------------------------------
  // Substitutions

  /** One substitution of `clean_aircraft`. */
  datatype Rule =
      /** `(?i)Boeing (\d+)` to `B\1`. */
    | Boeing
      /** `(?i)A(\d+)` to `A\1`. */
    | Airbus
      /** The fixed text `pat` to `rep`. */
    | Plain(pat: string, rep: string)

  /** `c` can begin a match of `rule`. */
  predicate Starts(rule: Rule, c: char) {
    match rule
    case Boeing => LowerChar(c) == 'b'
    case Airbus => c == 'A' || c == 'a'
    case Plain(pat, _) => |pat| > 0 && c == pat[0]
  }

  /** The match of `rule` at the start of `s`: its length and replacement. */
  function MatchAt(rule: Rule, s: string): (m: Option<(nat, string)>)
    ensures m.Some? ==> 0 < m.value.0 <= |s| && Starts(rule, s[0])
  {
    match rule
    case Boeing =>
      if |s| > 7 && Lower(s[..7]) == "boeing " && IsDigit(s[7]) then
        var n := DigitRun(s[7..]);
        assert Lower(s[..7])[0] == LowerChar(s[0]);
        Some((7 + n, "B" + s[7..7 + n]))
      else None
    case Airbus =>
      if |s| > 1 && (s[0] == 'A' || s[0] == 'a') && IsDigit(s[1]) then
        var n := DigitRun(s[1..]);
        Some((1 + n, "A" + s[1..1 + n]))
      else None
    case Plain(pat, rep) =>
      if 0 < |pat| <= |s| && s[..|pat|] == pat then Some((|pat|, rep)) else None
  }

  /** One step of the scan at the start of `s`: the match there, or the
      first character kept. */
  function Step(rule: Rule, s: string): (st: (nat, string))
    requires |s| > 0
    ensures 0 < st.0 <= |s|
  {
    match MatchAt(rule, s)
    case Some(m) => m
    case None => (1, [s[0]])
  }

  /** `re.sub` for a pattern rule, `str.replace` for a plain one: matches
      are taken from the left and do not overlap. */
  function Substitute(rule: Rule, s: string): string
    decreases |s|
  {
    if |s| == 0 then ""
    else
      var st := Step(rule, s);
      st.1 + Substitute(rule, s[st.0..])
  }

  /** Where no character of `a` begins a match, the substitution passes
      over `a` unchanged. */
  lemma {:induction false} SubstituteSkips(rule: Rule, a: string, b: string)
    requires forall k :: 0 <= k < |a| ==> !Starts(rule, a[k])
    ensures Substitute(rule, a + b) == a + Substitute(rule, b)
    decreases |a|
  {
    if |a| > 0 {
      var s := a + b;
      assert !Starts(rule, s[0]);
      assert Step(rule, s) == (1, [s[0]]);
      assert s[1..] == a[1..] + b;
      SubstituteSkips(rule, a[1..], b);
      var t := Substitute(rule, b);
      assert [a[0]] + (a[1..] + t) == a + t;
    } else {
      assert a + b == b;
    }
  }

  /** Where no match begins anywhere, the substitution changes nothing. */
  lemma {:induction false} SubstituteNone(rule: Rule, s: string)
    requires forall k :: 0 <= k < |s| ==> MatchAt(rule, s[k..]).None?
    ensures Substitute(rule, s) == s
    decreases |s|
  {
    if |s| > 0 {
      assert MatchAt(rule, s[0..]).None?;
      assert s[0..] == s;
      forall k | 0 <= k < |s[1..]| ensures MatchAt(rule, s[1..][k..]).None? {
        assert s[1..][k..] == s[k + 1..];
      }
      SubstituteNone(rule, s[1..]);
      assert s == [s[0]] + s[1..];
    }
  }

  /** Where no match begins at the start, the first character is kept. */
  lemma SubstituteUnmatchedHead(rule: Rule, s: string)
    requires |s| > 0 && MatchAt(rule, s).None?
    ensures Substitute(rule, s) == [s[0]] + Substitute(rule, s[1..])
  {
  }

  /** Where a match begins at the start, its replacement is written. */
  lemma SubstituteMatchedHead(rule: Rule, s: string)
    requires |s| > 0 && MatchAt(rule, s).Some?
    ensures var m := MatchAt(rule, s).value;
      Substitute(rule, s) == m.1 + Substitute(rule, s[m.0..])
  {
  }

  /** Before the first match the substitution copies the text. */
  lemma {:induction false} SubstituteBefore(rule: Rule, s: string, i: nat)
    requires i <= |s|
    requires forall j :: 0 <= j < i ==> MatchAt(rule, s[j..]).None?
    ensures Substitute(rule, s) == s[..i] + Substitute(rule, s[i..])
    decreases i
  {
    if i > 0 {
      var t := s[1..];
      assert MatchAt(rule, s[0..]).None?;
      assert s[0..] == s;
      SubstituteUnmatchedHead(rule, s);
      forall j | 0 <= j < i - 1 ensures MatchAt(rule, t[j..]).None? {
        assert t[j..] == s[j + 1..];
        assert MatchAt(rule, s[j + 1..]).None?;
      }
      SubstituteBefore(rule, t, i - 1);
      assert t[i - 1..] == s[i..];
      HeadGlue(s, i, Substitute(rule, s), Substitute(rule, t), Substitute(rule, s[i..]));
    }
  }

  /** The first character, then the next `i - 1`, then the rest. */
  lemma HeadGlue(s: string, i: nat, x: string, y: string, b: string)
    requires 0 < i <= |s|
    requires x == [s[0]] + y && y == s[1..][..i - 1] + b
    ensures x == s[..i] + b
  {
    assert s[..i] == [s[0]] + s[1..][..i - 1];
  }

  /** A plain rule matches at index `k` exactly where its text occurs. */
  lemma PlainMatchAt(pat: string, rep: string, s: string, k: nat)
    requires |pat| > 0 && k <= |s|
    ensures MatchAt(Plain(pat, rep), s[k..]).Some? <==> OccursAt(s, pat, k)
    ensures OccursAt(s, pat, k) ==> MatchAt(Plain(pat, rep), s[k..]) == Some((|pat|, rep))
  {
    if k + |pat| <= |s| {
      assert s[k..][..|pat|] == s[k..k + |pat|];
    }
  }

  /** The plain rule is Python's `str.replace`: both replace the
      occurrences of `pat` found scanning from the left. */
  lemma {:induction false} PlainIsReplace(pat: string, rep: string, s: string)
    requires |pat| > 0
    ensures Substitute(Plain(pat, rep), s) == ReplaceAll(s, pat, rep)
    decreases |s|
  {
    var rule := Plain(pat, rep);
    match Find(s, pat)
    case None =>
      forall k | 0 <= k < |s| ensures MatchAt(rule, s[k..]).None? {
        PlainMatchAt(pat, rep, s, k);
      }
      SubstituteNone(rule, s);
    case Some(i) =>
      forall j | 0 <= j < i ensures MatchAt(rule, s[j..]).None? {
        PlainMatchAt(pat, rep, s, j);
      }
      SubstituteBefore(rule, s, i);
      PlainMatchAt(pat, rep, s, i);
      var rest := s[i + |pat|..];
      assert s[i..][|pat|..] == rest;
      SubstituteMatchedHead(rule, s[i..]);
      assert Substitute(rule, s[i..]) == rep + Substitute(rule, rest);
      PlainIsReplace(pat, rep, rest);
      ReplaceAllAt(s, pat, rep, i);
      var a, z := s[..i], Substitute(rule, rest);
      assert Substitute(rule, s) == a + (rep + z);
      assert ReplaceAll(s, pat, rep) == a + rep + z;
      AppendAssociates(a, rep, z);
  }

  /** The Boeing rule needs an "o" after the "b". */
  lemma BoeingNeedsO(s: string)
    requires forall k :: 0 <= k < |s| ==> LowerChar(s[k]) != 'o'
    ensures Substitute(Boeing, s) == s
  {
    forall k | 0 <= k < |s| ensures MatchAt(Boeing, s[k..]).None? {
      var t := s[k..];
      if |t| > 7 {
        assert t[..7][1] == s[k + 1];
        assert Lower(t[..7])[1] != 'o';
        assert "boeing "[1] == 'o';
      }
    }
    SubstituteNone(Boeing, s);
  }

  /** Text in which no character begins a match is left as it is. */
  lemma SubstituteUnmatched(rule: Rule, s: string)
    requires forall k :: 0 <= k < |s| ==> !Starts(rule, s[k])
    ensures Substitute(rule, s) == s
  {
    SubstituteSkips(rule, s, "");
    assert s + "" == s;
  }

  /** `(?i)A(\d+)` to `A\1` only capitalises an `a` that precedes a digit. */
  function Capitalised(s: string): (r: string)
    ensures |r| == |s|
  {
    seq(|s|, k requires 0 <= k < |s| =>
      if s[k] == 'a' && k + 1 < |s| && IsDigit(s[k + 1]) then 'A' else s[k])
  }

  /** Capitalising depends on each character and the next only. */
  lemma CapitalisedAfter(s: string, n: nat)
    requires n <= |s|
    ensures Capitalised(s)[n..] == Capitalised(s[n..])
  {
    var t := s[n..];
    forall k | 0 <= k < |t| ensures Capitalised(s)[n + k] == Capitalised(t)[k] {
      assert t[k] == s[n + k];
      assert k + 1 < |t| ==> t[k + 1] == s[n + k + 1];
    }
  }

  /** Where the Airbus rule matches, the match is the letter and the digit
      run after it, and capitalising writes the replacement over it. */
  lemma AirbusMatch(s: string)
    requires |s| > 0 && MatchAt(Airbus, s).Some?
    ensures var n := 1 + DigitRun(s[1..]);
      && n <= |s|
      && MatchAt(Airbus, s) == Some((n, "A" + s[1..n]))
      && Capitalised(s)[..n] == "A" + s[1..n]
  {
    var d := DigitRun(s[1..]);
    var n := 1 + d;
    var c := Capitalised(s);
    var rep := "A" + s[1..n];
    assert s[1..][..d] == s[1..n];
    forall k | 1 <= k < n ensures IsDigit(s[k]) {
      assert s[k] == s[1..][..d][k - 1];
    }
    forall k | 0 <= k < n ensures c[k] == rep[k] {
      if k > 0 {
        assert rep[k] == s[k];
      }
    }
  }

  /** One matched step of the Airbus rule writes what capitalising writes
      over the match. */
  lemma AirbusMatchedStep(s: string)
    requires |s| > 0 && MatchAt(Airbus, s).Some?
    ensures var n := MatchAt(Airbus, s).value.0;
      Substitute(Airbus, s) == Capitalised(s)[..n] + Substitute(Airbus, s[n..])
      && Capitalised(s)[n..] == Capitalised(s[n..])
  {
    AirbusMatch(s);
    var n := MatchAt(Airbus, s).value.0;
    assert Substitute(Airbus, s) == Step(Airbus, s).1 + Substitute(Airbus, s[n..]);
    CapitalisedAfter(s, n);
  }

  /** One unmatched step of the Airbus rule keeps the first character,
      which capitalising keeps too. */
  lemma AirbusUnmatchedStep(s: string)
    requires |s| > 0 && MatchAt(Airbus, s).None?
    ensures Substitute(Airbus, s) == [Capitalised(s)[0]] + Substitute(Airbus, s[1..])
    ensures Capitalised(s)[1..] == Capitalised(s[1..])
  {
    assert Substitute(Airbus, s) == [s[0]] + Substitute(Airbus, s[1..]);
    CapitalisedAfter(s, 1);
  }

  lemma {:induction false} AirbusCapitalises(s: string)
    ensures Substitute(Airbus, s) == Capitalised(s)
    decreases |s|
  {
    if |s| > 0 {
      var c := Capitalised(s);
      match MatchAt(Airbus, s)
      case Some(m) =>
        var n := m.0;
        AirbusMatchedStep(s);
        AirbusCapitalises(s[n..]);
        assert Substitute(Airbus, s) == c[..n] + c[n..];
        assert c == c[..n] + c[n..];
      case None =>
        AirbusUnmatchedStep(s);
        AirbusCapitalises(s[1..]);
        assert Substitute(Airbus, s) == [c[0]] + c[1..];
        assert c == [c[0]] + c[1..];
    }
  }

  /** "Boeing " followed by digits becomes "B" and the digits. */
  lemma BoeingOfDigits(d: string)
    requires |d| > 0 && AllDigits(d)
    ensures Substitute(Boeing, "Boeing " + d) == "B" + d
  {
    var s := "Boeing " + d;
    var n := |d|;
    LowerBoeing();
    assert s[..7] == "Boeing " && s[7..] == d && s[7] == d[0];
    assert DigitRun(d) == n;
    assert s[7..7 + n] == d;
    assert MatchAt(Boeing, s) == Some((7 + n, "B" + d));
    assert s[7 + n..] == "";
    assert Substitute(Boeing, s) == "B" + d + Substitute(Boeing, "");
  }

  /** The Boeing word in lower case. */
  lemma LowerBoeing()
    ensures Lower("Boeing ") == "boeing "
  {
  }

  /** The fixed text `pat` replaced where it stands alone. */
  lemma PlainAlone(pat: string, rep: string)
    requires |pat| > 0
    ensures Substitute(Plain(pat, rep), pat) == rep
  {
    assert pat[..|pat|] == pat;
    assert pat[|pat|..] == "";
  }

  /** The rule that rewrites the code `digits` to `rep`. In
      `etl/transform.py` it is the regex `(?i)` followed by the digits; the
      other two copies make the same call without `regex=True`, so they
      replace the literal text "(?i)" followed by the digits. */
  function DigitRule(v: Variant, digits: string, rep: string): Rule {
    if v == Canonical then Plain(digits, rep) else Plain("(?i)" + digits, rep)
  }

  /** The five substitutions of `clean_aircraft`, in order. */
  function Rewrite(v: Variant, s: string): string {
    var s1 := Substitute(Boeing, s);
    var s2 := Substitute(DigitRule(v, "777", "B777"), s1);
    var s3 := Substitute(Airbus, s2);
    var s4 := Substitute(DigitRule(v, "170", "E170"), s3);
    Substitute(DigitRule(v, "190", "E190"), s4)
  }

  // ---------------------------------------------------------------------
  // Extraction

  /** A letter followed by a digit starts at index `i`. */
  predicate CodeAt(s: string, i: int) {
    0 <= i && i + 1 < |s| && IsLetter(s[i]) && IsDigit(s[i + 1])
  }

  /** A letter followed by one or more digits. */
  predicate IsCode(c: string) {
    |c| >= 2 && IsLetter(c[0]) && AllDigits(c[1..])
  }

  /** The first index at or after `i` where a code starts. */
  function FirstCode(s: string, i: nat): (r: Option<nat>)
    requires i <= |s|
    ensures r.Some? ==> i <= r.value && CodeAt(s, r.value)
    ensures r.Some? ==> forall j :: i <= j < r.value ==> !CodeAt(s, j)
    ensures r.None? ==> forall j :: i <= j < |s| ==> !CodeAt(s, j)
    decreases |s| - i
  {
    if i + 1 >= |s| then None
    else if CodeAt(s, i) then Some(i)
    else FirstCode(s, i + 1)
  }

  /** `str.extract(r'(?i)([A-Z]\d+)')`: the leftmost letter that precedes a
      digit, with every digit after it; missing when no letter precedes a
      digit. */
  function ExtractCode(s: string): (r: Option<string>)
    ensures r.None? <==> forall j :: 0 <= j < |s| ==> !CodeAt(s, j)
    ensures r.Some? ==> IsCode(r.value)
    ensures r.Some? ==>
      var i := FirstCode(s, 0).value;
      && (forall j :: 0 <= j < i ==> !CodeAt(s, j))
      && i + |r.value| <= |s| && s[i..i + |r.value|] == r.value
      && (i + |r.value| < |s| ==> !IsDigit(s[i + |r.value|]))
  {
    match FirstCode(s, 0)
    case None => None
    case Some(i) =>
      var n := DigitRun(s[i + 1..]);
      var c := s[i..i + 1 + n];
      assert c[1..] == s[i + 1..][..n];
      assert i + 1 + n < |s| ==> s[i + 1 + n] == s[i + 1..][n];
      Some(c)
  }

  /** `clean_aircraft` on one cell. */
  function CleanCode(v: Variant, cell: Option<string>): (r: Option<string>)
    ensures cell.None? ==> r.None?
    ensures r.Some? ==> IsCode(r.value)
    ensures cell.Some? ==>
      var t := Rewrite(v, cell.value);
      r.None? <==> forall j :: 0 <= j < |t| ==> !CodeAt(t, j)
    ensures r.Some? ==>
      var t := Rewrite(v, cell.value);
      var i := FirstCode(t, 0).value;
      && (forall j :: 0 <= j < i ==> !CodeAt(t, j))
      && i + |r.value| <= |t| && t[i..i + |r.value|] == r.value
      && (i + |r.value| < |t| ==> !IsDigit(t[i + |r.value|]))
  {
    match cell
    case None => None
    case Some(s) => ExtractCode(Rewrite(v, s))
  }

  /** Both aircraft cells of one row cleaned. */
  function CleanParts(v: Variant, p: AircraftParts): AircraftParts {
    AircraftParts(CleanCode(v, p.first), CleanCode(v, p.second))
  }

  // ---------------------------------------------------------------------
  // Scenarios

  /** "BB777" and "B777" hold the code "B777". */
  lemma CodeOfB777(s: string)
    requires s == "BB777" || s == "B777"
    ensures ExtractCode(s) == Some("B777")
  {
    var i := |s| - 4;
    assert CodeAt(s, i) && (i == 1 ==> !CodeAt(s, 0));
    assert FirstCode(s, 0) == Some(i);
    assert s[i + 1..] == "777";
    assert DigitRun("777") == 3;
    assert s[i..i + 4] == "B777";
  }

  /** A character that cannot begin the pattern, then the pattern: only
      the pattern is replaced. */
  lemma PatternAfter(c: char, pat: string, rep: string)
    requires |pat| > 0 && c != pat[0]
    ensures Substitute(Plain(pat, rep), [c] + pat) == [c] + rep
  {
    SubstituteSkips(Plain(pat, rep), [c], pat);
    PlainAlone(pat, rep);
  }

  /** The regex 777 rule prefixes the code "B777" with another "B". */
  lemma RegexSevens()
    ensures Substitute(Plain("777", "B777"), "B777") == "BB777"
  {
    PatternAfter('B', "777", "B777");
    assert ['B'] + "777" == "B777";
    assert ['B'] + "B777" == "BB777";
  }

  /** The literal 777 rule finds no "(" in "B777". */
  lemma LiteralSevens()
    ensures Substitute(Plain("(?i)777", "B777"), "B777") == "B777"
  {
    var t := "B777";
    forall k | 0 <= k < |t| ensures t[k] != '(' { assert t[k] in "B777"; }
    SubstituteUnmatched(Plain("(?i)777", "B777"), t);
  }

  /** The regex 777 rule turns "B777" into "BB777"; the literal one leaves
      it alone. */
  lemma SevenSevenSeven(v: Variant, t: string)
    requires t == "B777"
    ensures Substitute(DigitRule(v, "777", "B777"), t) == if v == Canonical then "BB777" else "B777"
  {
    if v == Canonical {
      RegexSevens();
    } else {
      LiteralSevens();
    }
  }

  /** Text with no "a", "A", "1" or "(" passes the Airbus, 170 and 190
      rules unchanged. */
  lemma LastRulesKeep(v: Variant, t: string)
    requires forall k :: 0 <= k < |t| ==> t[k] != 'a' && t[k] != 'A' && t[k] != '1' && t[k] != '('
    ensures Substitute(DigitRule(v, "190", "E190"), Substitute(DigitRule(v, "170", "E170"), Substitute(Airbus, t))) == t
  {
    SubstituteUnmatched(Airbus, t);
    SubstituteUnmatched(DigitRule(v, "170", "E170"), t);
    SubstituteUnmatched(DigitRule(v, "190", "E190"), t);
  }

  /** "BB777" and "B777" pass the last three rules unchanged. */
  lemma B777Keeps(v: Variant, t: string)
    requires t == "BB777" || t == "B777"
    ensures Substitute(DigitRule(v, "190", "E190"), Substitute(DigitRule(v, "170", "E170"), Substitute(Airbus, t))) == t
  {
    forall k | 0 <= k < |t| ensures t[k] != 'a' && t[k] != 'A' && t[k] != '1' && t[k] != '(' {
      assert t[k] in "BB777";
    }
    LastRulesKeep(v, t);
  }

  /** "Boeing 777" becomes "BB777" under the regex rules, stays "B777"
      under the literal ones, and either way yields the code "B777". */
  lemma ScenarioBoeing777(v: Variant, s: string)
    requires s == "Boeing 777"
    ensures CleanCode(v, Some(s)) == Some("B777")
  {
    var d := "777";
    assert s == "Boeing " + d;
    BoeingOfDigits(d);
    var s1 := "B" + d;
    SevenSevenSeven(v, s1);
    var s2 := Substitute(DigitRule(v, "777", "B777"), s1);
    B777Keeps(v, s2);
    CodeOfB777(s2);
  }

  /** "Embraer E190" holds the code "E190". */
  lemma CodeOfEmbraer(e: string)
    requires e == "Embraer E190"
    ensures ExtractCode(e) == Some("E190")
  {
    forall j | 0 <= j < 8 ensures !CodeAt(e, j) {
      assert e[j + 1] in "mbraer E";
    }
    assert CodeAt(e, 8);
    assert FirstCode(e, 0) == Some(8);
    assert e[9..] == "190";
    assert DigitRun("190") == 3;
    assert e[8..12] == "E190";
  }

  /** In "Embraer 190" no letter precedes a digit. */
  lemma NoCodeInEmbraer(s: string)
    requires s == "Embraer 190"
    ensures ExtractCode(s) == None
  {
    forall j | 0 <= j < |s| ensures !CodeAt(s, j) {
      if j + 1 < |s| && IsDigit(s[j + 1]) {
        assert s[j + 1] in "Embraer 190";
        assert j >= 7;
      }
    }
  }

  /** Text with no "o", no "7", no "(" and no "a" before a digit passes
      the Boeing, 777 and Airbus rules unchanged. */
  lemma FirstRulesKeep(v: Variant, s: string)
    requires forall k :: 0 <= k < |s| ==> LowerChar(s[k]) != 'o' && s[k] != '7' && s[k] != '('
    requires forall k :: 0 <= k < |s| - 1 ==> s[k] == 'a' ==> !IsDigit(s[k + 1])
    ensures Substitute(Airbus, Substitute(DigitRule(v, "777", "B777"), Substitute(Boeing, s))) == s
  {
    BoeingNeedsO(s);
    SubstituteUnmatched(DigitRule(v, "777", "B777"), s);
    AirbusCapitalises(s);
    assert Capitalised(s) == s;
  }

  /** The 170 rule does not touch "190". */
  lemma Keeps190()
    ensures Substitute(Plain("170", "E170"), "190") == "190"
  {
    var d := "190";
    assert MatchAt(Plain("170", "E170"), d).None?;
    assert d[1..] == "90";
    SubstituteUnmatched(Plain("170", "E170"), "90");
  }

  /** A model name followed by the bare number 190 gets the number
      prefixed with "E" by the regex rules, when nothing in the name
      triggers another rule. */
  lemma RegexRulesOn190(a: string)
    requires forall k :: 0 <= k < |a| ==> LowerChar(a[k]) != 'o' && a[k] != '7' && a[k] != '(' && a[k] != '1'
    requires forall k :: 0 <= k < |a| ==> a[k] == 'a' ==> k + 1 < |a| && !IsDigit(a[k + 1])
    ensures Rewrite(Canonical, a + "190") == a + "E190"
  {
    var d := "190";
    var s := a + d;
    forall k | 0 <= k < |s| ensures LowerChar(s[k]) != 'o' && s[k] != '7' && s[k] != '(' {
      if k >= |a| {
        assert s[k] == d[k - |a|];
      }
    }
    forall k | 0 <= k < |s| - 1 ensures s[k] == 'a' ==> !IsDigit(s[k + 1]) {
      if k < |a| {
        assert s[k] == a[k];
        if a[k] == 'a' {
          assert s[k + 1] == a[k + 1];
        }
      } else {
        assert s[k] == d[k - |a|];
      }
    }
    FirstRulesKeep(Canonical, s);
    SubstituteSkips(Plain("170", "E170"), a, d);
    Keeps190();
    assert Substitute(Plain("170", "E170"), s) == s;
    SubstituteSkips(Plain("190", "E190"), a, d);
    PlainAlone("190", "E190");
  }

  /** "Embraer 190" becomes "Embraer E190" and yields the code "E190"
      under the regex rules. */
  lemma ScenarioEmbraer190(s: string)
    requires s == "Embraer 190"
    ensures CleanCode(Canonical, Some(s)) == Some("E190")
  {
    var a := s[..8];
    assert s == a + "190";
    forall k | 0 <= k < |a| ensures LowerChar(a[k]) != 'o' && a[k] != '7' && a[k] != '(' && a[k] != '1' {
      assert a[k] in "Embraer ";
    }
    forall k | 0 <= k < |a| ensures a[k] == 'a' ==> k + 1 < |a| && !IsDigit(a[k + 1]) {
      if a[k] == 'a' {
        assert k == 4;
      }
    }
    RegexRulesOn190(a);
    CodeOfEmbraer(a + "E190");
  }

  /** Under the literal rules, text with no "o", no "(" and no "a"
      before a digit is left as it is. */
  lemma LiteralRulesKeep(v: Variant, s: string)
    requires v != Canonical
    requires forall k :: 0 <= k < |s| ==> LowerChar(s[k]) != 'o' && s[k] != '('
    requires forall k :: 0 <= k < |s| - 1 ==> s[k] == 'a' ==> !IsDigit(s[k + 1])
    ensures Rewrite(v, s) == s
  {
    BoeingNeedsO(s);
    SubstituteUnmatched(DigitRule(v, "777", "B777"), s);
    AirbusCapitalises(s);
    assert Capitalised(s) == s;
    SubstituteUnmatched(DigitRule(v, "170", "E170"), s);
    SubstituteUnmatched(DigitRule(v, "190", "E190"), s);
  }

  /** The literal rules leave "Embraer 190" alone, and no code is found. */
  lemma ScenarioEmbraer190Literal(v: Variant, s: string)
    requires v != Canonical && s == "Embraer 190"
    ensures CleanCode(v, Some(s)) == None
  {
    forall k | 0 <= k < |s| ensures LowerChar(s[k]) != 'o' && s[k] != '(' {
      assert s[k] in "Embraer 190";
    }
    forall k | 0 <= k < |s| - 1 ensures s[k] == 'a' ==> !IsDigit(s[k + 1]) {
      if s[k] == 'a' {
        assert s[k + 1] == 'e';
      }
    }
    LiteralRulesKeep(v, s);
    NoCodeInEmbraer(s);
  }
}
