/** `clean_route`: the `route` text "London to New York via Dublin" is
    decomposed into origin, destination and transit, and airport spellings
    are replaced by one name each. */
module Route {
  import opened Prelude
  import opened Text

  const To := " to "
  const Via := " via "
  const Dash := "-"

  /** The `origin`, `destination` and `transit` cells of one row. */
  datatype RouteParts = RouteParts(origin: Option<string>, destination: Option<string>,
                                   transit: Option<string>)

  /** `x.strip() if x else None`: the truth test comes before the strip,
      so only the empty string and a missing value give `None`. */
  function StripIfAny(x: Option<string>): (r: Option<string>)
    ensures r.None? <==> x.None? || x.value == ""
    ensures r.Some? ==> r.value == Strip(x.value)
  {
    match x
    case None => None
    case Some(s) => if s == "" then None else Some(Strip(s))
  }

  /** `split_route` on one cell. */
  function SplitRoute(route: Option<string>): Result<RouteParts> {
    match route
    case None => Ok(RouteParts(None, None, None))
    case Some(s) =>
      if Contains(s, To) then
        var parts := SplitOn(s, To);
        var origin := Strip(parts[0]);
        var segment := parts[1];
        if Contains(segment, Via) then
          var pieces := SplitOn(segment, Via);
          if |pieces| != 2 then Err(RouteUnpack(s))
          else Ok(RouteParts(Some(Strip(origin)), StripIfAny(Some(pieces[0])), StripIfAny(Some(pieces[1]))))
        else
          Ok(RouteParts(Some(Strip(origin)), StripIfAny(Some(segment)), None))
      else
        var parts := SplitOn(s, Dash);
        var origin := Strip(parts[0]);
        var destination := if |parts| > 1 then Some(Strip(parts[1])) else None;
        Ok(RouteParts(Some(Strip(origin)), StripIfAny(destination), None))
  }

  /** What `split_route` gives, stated with the first occurrences of the
      separators: with " to ", the origin is the stripped text before the
      first " to ", the destination the next segment (later segments are
      dropped) up to " via ", the transit the text after that " via ", and a
      second " via " is an unpacking error; without " to ", the pieces are
      cut at "-" and there is no transit. A present route always has an
      origin. */
  lemma SplitRouteMeaning(route: Option<string>)
    ensures route.None? ==> SplitRoute(route) == Ok(RouteParts(None, None, None))
    ensures route.Some? && Contains(route.value, To) ==>
      var s := route.value;
      var segment := Before(After(s, To), To);
      && (SplitRoute(route).Err? <==> Contains(segment, Via) && Contains(After(segment, Via), Via))
      && (SplitRoute(route).Ok? ==>
            && SplitRoute(route).value.origin == Some(Strip(Before(s, To)))
            && SplitRoute(route).value.destination == StripIfAny(Some(Before(segment, Via)))
            && SplitRoute(route).value.transit
               == (if Contains(segment, Via) then StripIfAny(Some(After(segment, Via))) else None))
    ensures route.Some? && !Contains(route.value, To) ==>
      var s := route.value;
      && SplitRoute(route).Ok?
      && SplitRoute(route).value.origin == Some(Strip(Before(s, Dash)))
      && SplitRoute(route).value.destination
         == (if Contains(s, Dash) && Strip(Before(After(s, Dash), Dash)) != ""
             then Some(Strip(Before(After(s, Dash), Dash))) else None)
      && SplitRoute(route).value.transit.None?
    ensures SplitRoute(route).Ok? && route.Some? ==> SplitRoute(route).value.origin.Some?
  {
    if route.Some? {
      var s := route.value;
      if Contains(s, To) {
        var parts := SplitOn(s, To);
        StripIdempotent(parts[0]);
        var segment := parts[1];
        if Contains(segment, Via) {
          SplitOnTwo(segment, Via);
          SplitOnCons(segment, Via);
          var pieces := SplitOn(segment, Via);
          if |pieces| == 2 {
            assert pieces[1] == Before(After(segment, Via), Via);
            assert !Contains(After(segment, Via), Via);
            assert SplitOn(After(segment, Via), Via) == [After(segment, Via)];
          }
        }
      } else {
        var parts := SplitOn(s, Dash);
        StripIdempotent(parts[0]);
        if |parts| > 1 {
          StripIdempotent(parts[1]);
        }
      }
    }
  }

  /** The segment "B via C" with whitespace-free `B` and `C` holds no
      " to ": its only spaces are the two around "via". */
  lemma NoToAroundVia(b: string, c: string)
    requires NoSpace(b) && NoSpace(c)
    ensures !Contains(b + Via + c, To)
  {
    var s := b + Via + c;
    SpacesAroundVia(b, c);
    forall j | 0 <= j && j + 4 <= |s| ensures !OccursAt(s, To, j) {
      assert s[j] != ' ' || s[j + 3] != ' ';
      assert s[j..j + 4][0] == s[j] && s[j..j + 4][3] == s[j + 3];
      assert To[0] == ' ' && To[3] == ' ';
    }
  }

  /** The only spaces of "B via C" are the two around "via". */
  lemma SpacesAroundVia(b: string, c: string)
    requires NoSpace(b) && NoSpace(c)
    ensures forall j :: 0 <= j < |b + Via + c| && (b + Via + c)[j] == ' ' ==> j == |b| || j == |b| + 4
  {
    forall j | 0 <= j < |b + Via + c| && (b + Via + c)[j] == ' ' ensures j == |b| || j == |b| + 4 {
      SpaceAroundVia(b, c, j);
    }
  }

  /** The only spaces of "B via C" are the two around "via". */
  lemma SpaceAroundVia(b: string, c: string, j: int)
    requires NoSpace(b) && NoSpace(c)
    requires 0 <= j < |b + Via + c| && (b + Via + c)[j] == ' '
    ensures j == |b| || j == |b| + 4
  {
  }

  /** "A to B via C" with whitespace-free, non-empty parts gives origin A,
      destination B and transit C. */
  lemma RouteWithTransit(a: string, b: string, c: string)
    requires NoSpace(a) && NoSpace(b) && NoSpace(c) && b != "" && c != ""
    ensures SplitRoute(Some(a + To + b + Via + c)) == Ok(RouteParts(Some(a), Some(b), Some(c)))
  {
    var rest := b + Via + c;
    var s := a + To + rest;
    assert a + To + b + Via + c == s;
    CutAt(a, To, rest);
    NoToAroundVia(b, c);
    assert Before(rest, To) == rest by { assert Find(rest, To).None?; }
    CutAt(b, Via, c);
    MissingChar(c, Via, 0);
    StripNoSpace(a);
    StripNoSpace(b);
    StripNoSpace(c);
    SplitRouteMeaning(Some(s));
    var r := SplitRoute(Some(s));
    assert r.Ok?;
    assert r.value.origin == Some(a);
    assert r.value.destination == Some(b);
    assert r.value.transit == Some(c);
    assert r == Ok(RouteParts(Some(a), Some(b), Some(c)));
  }

  /** "A-B" without " to " gives origin A and destination B, no transit. */
  lemma RouteWithDash(a: string, b: string)
    requires NoSpace(a) && NoSpace(b) && b != ""
    requires forall k :: 0 <= k < |a| ==> a[k] != '-'
    requires forall k :: 0 <= k < |b| ==> b[k] != '-'
    ensures SplitRoute(Some(a + Dash + b)) == Ok(RouteParts(Some(a), Some(b), None))
  {
    var s := a + Dash + b;
    assert s == a + ['-'] + b;
    MissingChar(s, To, 0);
    SplitAtChar(a, '-', b);
    StripNoSpace(a);
    StripNoSpace(b);
  }

  /** A second " via " makes the row fail to unpack. */
  lemma RouteWithTwoTransits(a: string, b: string, c: string, d: string)
    requires NoSpace(a)
    requires forall k :: 0 <= k < |b| ==> b[k] != 't' && b[k] != ' '
    requires forall k :: 0 <= k < |c| ==> c[k] != 't' && c[k] != ' '
    requires forall k :: 0 <= k < |d| ==> d[k] != 't'
    ensures SplitRoute(Some(a + To + b + Via + c + Via + d)).Err?
  {
    var later := c + Via + d;
    var segment := b + Via + later;
    var s := a + To + segment;
    assert a + To + b + Via + c + Via + d == s;
    CutAt(a, To, segment);
    assert forall k :: 0 <= k < |segment| ==> segment[k] != 't';
    MissingChar(segment, To, 1);
    CutAt(b, Via, later);
    CutAt(c, Via, d);
    SplitRouteMeaning(Some(s));
  }

  /** A destination of spaces only is stripped to the empty string but kept,
      because the truth test runs before the strip. */
  lemma RouteToBlank(a: string, w: string)
    requires NoSpace(a) && w != "" && AllSpace(w)
    ensures SplitRoute(Some(a + To + w)) == Ok(RouteParts(Some(a), Some(""), None))
  {
    CutAt(a, To, w);
    MissingChar(w, To, 1);
    MissingChar(w, Via, 1);
    StripNoSpace(a);
  }

  /** "London to Paris via Dublin" gives origin London, destination Paris
      and transit Dublin. */
  lemma ScenarioLondonParisDublin()
    ensures SplitRoute(Some("London to Paris via Dublin"))
            == Ok(RouteParts(Some("London"), Some("Paris"), Some("Dublin")))
  {
    var a, b, c := "London", "Paris", "Dublin";
    forall k | 0 <= k < |a| ensures !IsSpace(a[k]) { assert a[k] in "London"; }
    forall k | 0 <= k < |b| ensures !IsSpace(b[k]) { assert b[k] in "Paris"; }
    forall k | 0 <= k < |c| ensures !IsSpace(c[k]) { assert c[k] in "Dublin"; }
    assert a + To + b + Via + c == "London to Paris via Dublin";
    RouteWithTransit(a, b, c);
  }

  /** The airport replacement table, applied to whole values only. */
  const Synonyms: seq<(string, string)> := [
    ("LHR", "London Heathrow"),
    ("Heathrow", "London Heathrow"),
    ("London Heatrow", "London Heathrow"),
    ("London-Heathrow", "London Heathrow"),
    ("London heathrow", "London Heathrow"),
    ("London Heaathrow", "London Heathrow"),
    ("London UK (Heathrow)", "London Heathrow"),
    ("Heathrow (London)", "London Heathrow"),
    ("Gatwick", "London Gatwick"),
    ("LGW", "London Gatwick")
  ]

  /** The replacement for `name` in `table`, if `name` is a key. */
  function Lookup(table: seq<(string, string)>, name: string): (r: Option<string>)
    ensures r.Some? <==> exists k :: 0 <= k < |table| && table[k].0 == name
    ensures r.Some? ==> exists k :: 0 <= k < |table| && table[k] == (name, r.value)
  {
    if |table| == 0 then None
    else if table[0].0 == name then Some(table[0].1)
    else
      var r := Lookup(table[1..], name);
      assert forall k :: 1 <= k < |table| ==> table[k] == table[1..][k - 1];
      r
  }

  /** `DataFrame.replace(airport_replacements)` on one cell. */
  function Replace(cell: Option<string>): (r: Option<string>)
    ensures cell.None? ==> r.None?
    ensures r.Some? && r != cell ==> exists k :: 0 <= k < |Synonyms| && Synonyms[k] == (cell.value, r.value)
  {
    match cell
    case None => None
    case Some(s) =>
      match Lookup(Synonyms, s)
      case Some(t) => Some(t)
      case None => cell
  }

  /** The synonyms applied to each of the three fields on its own. */
  function ReplaceAirports(p: RouteParts): RouteParts {
    RouteParts(Replace(p.origin), Replace(p.destination), Replace(p.transit))
  }

  /** `clean_route` over the column: every row is split, then the table is
      applied; one unpacking error fails the stage. */
  function CleanRoutes(routes: seq<Option<string>>): (r: Result<seq<RouteParts>>)
    ensures r.Ok? <==> forall i :: 0 <= i < |routes| ==> SplitRoute(routes[i]).Ok?
    ensures r.Ok? ==> |r.value| == |routes|
    ensures r.Ok? ==> forall i :: 0 <= i < |routes| ==>
      r.value[i] == ReplaceAirports(SplitRoute(routes[i]).value)
  {
    if |routes| == 0 then Ok([])
    else
      var head :- SplitRoute(routes[0]);
      var tail :- CleanRoutes(routes[1..]);
      assert forall i :: 1 <= i < |routes| ==> routes[i] == routes[1..][i - 1];
      Ok([ReplaceAirports(head)] + tail)
  }

  /** No replacement target is itself a key. */
  lemma TargetsAreNotKeys()
    ensures forall j, k :: 0 <= j < |Synonyms| && 0 <= k < |Synonyms| ==> Synonyms[j].1 != Synonyms[k].0
  {
  }

  /** Replacing twice is replacing once. */
  lemma ReplaceIdempotent(cell: Option<string>)
    ensures Replace(Replace(cell)) == Replace(cell)
  {
    if cell.Some? && Replace(cell) != cell {
      TargetsAreNotKeys();
      var t := Replace(cell).value;
      assert forall k :: 0 <= k < |Synonyms| ==> Synonyms[k].0 != t;
    }
  }

  /** Each listed spelling becomes its airport name; any other value is
      kept. */
  lemma ReplaceMeaning(s: string)
    ensures (exists k :: 0 <= k < |Synonyms| && Synonyms[k].0 == s) ==>
      Replace(Some(s)).Some? && Replace(Some(s)).value in {"London Heathrow", "London Gatwick"}
    ensures (forall k :: 0 <= k < |Synonyms| ==> Synonyms[k].0 != s) ==> Replace(Some(s)) == Some(s)
  {
  }

  /** "LHR" is a listed spelling of Heathrow; "CDG" is not listed. */
  lemma ScenarioHeathrowSpelling()
    ensures Replace(Some("LHR")) == Some("London Heathrow")
    ensures Replace(Some("CDG")) == Some("CDG")
  {
    assert Synonyms[0] == ("LHR", "London Heathrow");
    forall k | 0 <= k < |Synonyms| ensures Synonyms[k].0 != "CDG" {
      assert Synonyms[k].0[0] != 'C';
    }
  }

  /** "LHR-CDG" gives origin "London Heathrow" and destination "CDG" once
      the table is applied. */
  lemma ScenarioHeathrowDash()
    ensures SplitRoute(Some("LHR-CDG")) == Ok(RouteParts(Some("LHR"), Some("CDG"), None))
    ensures ReplaceAirports(RouteParts(Some("LHR"), Some("CDG"), None))
            == RouteParts(Some("London Heathrow"), Some("CDG"), None)
  {
    var a, b := "LHR", "CDG";
    forall k | 0 <= k < |a| ensures !IsSpace(a[k]) && a[k] != '-' { assert a[k] in "LHR"; }
    forall k | 0 <= k < |b| ensures !IsSpace(b[k]) && b[k] != '-' { assert b[k] in "CDG"; }
    assert a + Dash + b == "LHR-CDG";
    RouteWithDash(a, b);
    ScenarioHeathrowSpelling();
  }
}
