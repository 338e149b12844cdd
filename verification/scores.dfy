/** The per-row features computed from the ratings: `score`, the mean of
    the five service ratings; `experience`, a band of `money_value`; and
    `recommended`, the yes/no answer as a boolean. */
module Scores {
  import opened Prelude
  import opened Frame

  // ---------------------------------------------------------------------
  // score

  /** The numbers among `cells`, in order; `mean(axis=1)` skips the rest. */
  function Present(cells: seq<Value>): (xs: seq<real>)
    ensures |xs| <= |cells|
    ensures |xs| == 0 <==> forall k :: 0 <= k < |cells| ==> !cells[k].Num?
  {
    if |cells| == 0 then []
    else
      var rest := Present(cells[1..]);
      assert forall k :: 1 <= k < |cells| ==> cells[k] == cells[1..][k - 1];
      if cells[0].Num? then [cells[0].x] + rest else rest
  }

  /** The present numbers are exactly the numeric cells. */
  lemma {:induction false} PresentMembers(cells: seq<Value>)
    ensures forall k :: 0 <= k < |cells| && cells[k].Num? ==> cells[k].x in Present(cells)
    ensures forall i :: 0 <= i < |Present(cells)| ==> Num(Present(cells)[i]) in cells
    decreases |cells|
  {
    if |cells| > 0 {
      PresentMembers(cells[1..]);
      assert forall k :: 1 <= k < |cells| ==> cells[k] == cells[1..][k - 1];
    }
  }

  function Sum(xs: seq<real>): real {
    if |xs| == 0 then 0.0 else xs[0] + Sum(xs[1..])
  }

  function Least(xs: seq<real>): (m: real)
    requires |xs| > 0
    ensures m in xs && forall i :: 0 <= i < |xs| ==> m <= xs[i]
  {
    if |xs| == 1 then xs[0]
    else
      var rest := Least(xs[1..]);
      if xs[0] <= rest then xs[0] else rest
  }

  function Greatest(xs: seq<real>): (m: real)
    requires |xs| > 0
    ensures m in xs && forall i :: 0 <= i < |xs| ==> xs[i] <= m
  {
    if |xs| == 1 then xs[0]
    else
      var rest := Greatest(xs[1..]);
      if xs[0] >= rest then xs[0] else rest
  }

  /** `n` copies of `x` added up. */
  function Copies(n: nat, x: real): real {
    if n == 0 then 0.0 else x + Copies(n - 1, x)
  }

  lemma {:induction false} CopiesProduct(n: nat, x: real)
    ensures Copies(n, x) == n as real * x
  {
    if n > 0 {
      CopiesProduct(n - 1, x);
    }
  }

  /** A lower bound of every element, copied once per element, sums to at
      most the sum; an upper bound to at least it. */
  lemma {:induction false} SumBounds(xs: seq<real>, lo: real, hi: real)
    requires forall i :: 0 <= i < |xs| ==> lo <= xs[i] <= hi
    ensures Copies(|xs|, lo) <= Sum(xs) <= Copies(|xs|, hi)
    decreases |xs|
  {
    if |xs| > 0 {
      SumBounds(xs[1..], lo, hi);
    }
  }

  /** The mean of a non-empty list lies between its least and greatest
      element. */
  lemma MeanBetween(xs: seq<real>)
    requires |xs| > 0
    ensures Least(xs) <= Sum(xs) / |xs| as real <= Greatest(xs)
  {
    var lo, hi := Least(xs), Greatest(xs);
    SumBounds(xs, lo, hi);
    DivideBounds(Sum(xs), |xs|, lo, hi);
  }

  lemma DivideBounds(s: real, n: nat, lo: real, hi: real)
    requires n > 0 && Copies(n, lo) <= s <= Copies(n, hi)
    ensures lo <= s / n as real <= hi
  {
    CopiesProduct(n, lo);
    CopiesProduct(n, hi);
    var m := n as real;
    QuotientBelow(m * lo, s, m);
    QuotientBelow(s, m * hi, m);
    ProductQuotient(lo, m);
    ProductQuotient(hi, m);
  }

  /** Multiplying and then dividing by a positive number gives back the
      number. */
  lemma ProductQuotient(x: real, m: real)
    requires m > 0.0
    ensures m * x / m == x
  {
  }

  /** Dividing by a positive number keeps an order. */
  lemma QuotientBelow(a: real, b: real, m: real)
    requires m > 0.0 && a <= b
    ensures a / m <= b / m
  {
    assert b / m - a / m == (b - a) / m;
  }

  /** `df[ratings].mean(axis=1)` for one row: the mean of the present
      ratings, missing when none is present. */
  function RowScore(cells: seq<Value>): (r: Value)
    ensures r.Null? || r.Num?
    ensures r.Null? <==> forall k :: 0 <= k < |cells| ==> !cells[k].Num?
    ensures r.Num? ==> Least(Present(cells)) <= r.x <= Greatest(Present(cells))
  {
    var xs := Present(cells);
    if |xs| == 0 then Null
    else
      MeanBetween(xs);
      Num(Sum(xs) / |xs| as real)
  }

  /** With every present rating between `lo` and `hi`, so is the score. */
  lemma ScoreInRange(cells: seq<Value>, lo: real, hi: real)
    requires forall k :: 0 <= k < |cells| && cells[k].Num? ==> lo <= cells[k].x <= hi
    ensures RowScore(cells).Num? ==> lo <= RowScore(cells).x <= hi
  {
    var xs := Present(cells);
    PresentMembers(cells);
    if |xs| > 0 {
      assert Num(Least(xs)) in cells;
      assert Num(Greatest(xs)) in cells;
    }
  }

  /** Equal ratings give that rating as the score. */
  lemma ScoreOfEqualRatings(cells: seq<Value>, x: real)
    requires forall k :: 0 <= k < |cells| ==> cells[k] == Num(x) || cells[k] == Null
    requires Num(x) in cells
    ensures RowScore(cells) == Num(x)
  {
    ScoreInRange(cells, x, x);
  }

  /** Missing ratings are skipped, not counted as zero: three ratings
      and two missing ones score the mean of the three. */
  lemma ScoreSkipsMissing(a: real, b: real, c: real)
    ensures RowScore([Num(a), Null, Num(b), Null, Num(c)]) == Num((a + b + c) / 3.0)
  {
    var cells := [Num(a), Null, Num(b), Null, Num(c)];
    var xs := [a, b, c];
    assert Present(cells) == xs by {
      assert Present(cells[4..]) == [c] by {
        PresentCons(cells[4], []);
        assert cells[4..] == [cells[4]] + [];
      }
      PresentCons(cells[3], cells[4..]);
      assert cells[3..] == [cells[3]] + cells[4..];
      PresentCons(cells[2], cells[3..]);
      assert cells[2..] == [cells[2]] + cells[3..];
      PresentCons(cells[1], cells[2..]);
      assert cells[1..] == [cells[1]] + cells[2..];
      PresentCons(cells[0], cells[1..]);
      assert cells == [cells[0]] + cells[1..];
    }
    assert Sum(xs) == a + b + c by {
      assert xs[1..] == [b, c] && xs[1..][1..] == [c] && xs[1..][1..][1..] == [];
      assert Sum(xs[1..][1..]) == c;
      assert Sum(xs[1..]) == b + c;
    }
  }

  lemma PresentCons(v: Value, rest: seq<Value>)
    ensures Present([v] + rest) == (if v.Num? then [v.x] else []) + Present(rest)
  {
    assert ([v] + rest)[1..] == rest;
  }

  // ---------------------------------------------------------------------
  // experience

  /** `np.select([mv <= 2, mv == 3, mv >= 4], ['Poor', 'Fair', 'Good'],
      default='unknown')` for one cell. A missing value compares false
      everywhere. Any other non-numeric value is also taken as "unknown",
      although pandas raises `TypeError` when it compares text with a
      number. */
  function Experience(v: Value): (r: string)
    ensures r in {"Poor", "Fair", "Good", "unknown"}
    ensures r == "unknown" <==> !v.Num? || (2.0 < v.x < 3.0) || (3.0 < v.x < 4.0)
  {
    if v.Num? && v.x <= 2.0 then "Poor"
    else if v.Num? && v.x == 3.0 then "Fair"
    else if v.Num? && v.x >= 4.0 then "Good"
    else "unknown"
  }

  /** The bands in order. */
  function Band(e: string): int {
    if e == "Poor" then 0 else if e == "Fair" then 1 else if e == "Good" then 2 else -1
  }

  /** A whole-number rating always falls in a band, 0 and negative values
      included, with no upper bound on "Good". */
  lemma ExperienceOfWholeRating(n: int)
    ensures Experience(Num(n as real)) != "unknown"
    ensures n <= 2 <==> Experience(Num(n as real)) == "Poor"
    ensures n >= 4 <==> Experience(Num(n as real)) == "Good"
  {
  }

  /** A higher value never falls in a lower band. */
  lemma ExperienceMonotone(a: real, b: real)
    requires a <= b
    requires Experience(Num(a)) != "unknown" && Experience(Num(b)) != "unknown"
    ensures Band(Experience(Num(a))) <= Band(Experience(Num(b)))
  {
  }

  // ---------------------------------------------------------------------
  // recommended

  /** `.replace({'yes': True, 'no': False})` on one cell: exactly "yes" and
      "no", case-sensitive; everything else is kept. */
  function YesNo(v: Value): (r: Value)
    ensures r.Flag? <==> v.Flag? || v == Str("yes") || v == Str("no")
    ensures r.Flag? && !v.Flag? ==> (r.b <==> v == Str("yes"))
    ensures !r.Flag? ==> r == v
  {
    if v == Str("yes") then Flag(true)
    else if v == Str("no") then Flag(false)
    else v
  }

  /** A cell `astype('boolean')` accepts. */
  predicate Boolish(v: Value) {
    v.Null? || v.Flag?
  }

  /** Position of the first cell the cast rejects. */
  function FirstNonBoolean(col: seq<Value>): (r: Option<nat>)
    ensures r.None? <==> forall i :: 0 <= i < |col| ==> Boolish(col[i])
    ensures r.Some? ==> r.value < |col| && !Boolish(col[r.value])
    ensures r.Some? ==> forall i :: 0 <= i < r.value ==> Boolish(col[i])
  {
    if |col| == 0 then None
    else if !Boolish(col[0]) then Some(0)
    else
      var rest := FirstNonBoolean(col[1..]);
      assert forall i :: 1 <= i < |col| ==> col[i] == col[1..][i - 1];
      match rest
      case None => None
      case Some(k) => Some(k + 1)
  }

  /** `replace_yes_no_with_bool` on the `column` cells. With `cast` (the
      canonical copy) the nullable-boolean cast follows and rejects any
      other value; without it every other value is left in place. */
  function Recommend(column: string, col: seq<Value>, cast: bool): (r: Result<seq<Value>>)
    ensures r.Ok? ==> |r.value| == |col|
    ensures r.Ok? ==> forall i :: 0 <= i < |col| ==> r.value[i] == YesNo(col[i])
    ensures !cast ==> r.Ok?
    ensures cast ==> (r.Ok? <==> forall i :: 0 <= i < |col| ==>
      col[i].Null? || col[i].Flag? || col[i] == Str("yes") || col[i] == Str("no"))
    ensures cast && r.Ok? ==> forall i :: 0 <= i < |col| ==> Boolish(r.value[i])
  {
    var replaced := seq(|col|, i requires 0 <= i < |col| => YesNo(col[i]));
    if !cast then Ok(replaced)
    else
      match FirstNonBoolean(replaced)
      case Some(i) => Err(NotBoolean(column, i))
      case None => Ok(replaced)
  }

  /** Replacing twice is replacing once. */
  lemma YesNoIdempotent(v: Value)
    ensures YesNo(YesNo(v)) == YesNo(v)
  {
  }

  /** Matching is exact: "Yes" is not "yes", so the cast rejects it. */
  lemma ScenarioCapitalisedYes()
    ensures Recommend("recommended", [Str("yes"), Str("Yes")], true)
            == Err(NotBoolean("recommended", 1))
    ensures Recommend("recommended", [Str("yes"), Str("Yes")], false)
            == Ok([Flag(true), Str("Yes")])
  {
    var col := [Str("yes"), Str("Yes")];
    assert "Yes" != "yes" && "Yes" != "no";
    var replaced := [Flag(true), Str("Yes")];
    assert YesNo(col[0]) == replaced[0] && YesNo(col[1]) == replaced[1];
    assert seq(|col|, i requires 0 <= i < |col| => YesNo(col[i])) == replaced;
    assert replaced[1..] == [Str("Yes")];
    assert FirstNonBoolean(replaced) == Some(1);
  }
}
