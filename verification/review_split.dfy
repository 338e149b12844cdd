/** `clean_review`: splits the scraped `review_bodies` text on `|` into a
    verification tag and the review text, and turns the tag into the
    boolean `verified`. */
module ReviewSplit {
  import opened Prelude
  import opened Text

  const Pipe := "|"
  const VerifiedPhrase := "Trip Verified"

  /** The review text and verification flag of one row. */
  datatype ReviewParts = ReviewParts(review: Option<string>, verified: bool)

  /** Number of pieces `body.split('|')` gives, 0 for a missing body. */
  function PieceCount(body: Option<string>): nat {
    match body
    case None => 0
    case Some(b) => |SplitOn(b, Pipe)|
  }

  /** Number of columns `str.split('|', expand=True)` produces: the largest
      piece count in the column. */
  function SplitWidth(bodies: seq<Option<string>>): (w: nat)
    ensures forall i :: 0 <= i < |bodies| ==> PieceCount(bodies[i]) <= w
    ensures |bodies| > 0 ==> exists i :: 0 <= i < |bodies| && PieceCount(bodies[i]) == w
    ensures w == 0 <==> forall i :: 0 <= i < |bodies| ==> bodies[i].None?
  {
    var counts := seq(|bodies|, i requires 0 <= i < |bodies| => PieceCount(bodies[i]));
    var w := MaxOf(counts);
    assert forall i :: 0 <= i < |bodies| ==> counts[i] == PieceCount(bodies[i]);
    w
  }

  /** Cell `k` of the expanded split: piece `k`, or missing when the body is
      missing or has fewer pieces. */
  function Cell(body: Option<string>, k: nat): Option<string> {
    match body
    case None => None
    case Some(b) =>
      var ps := SplitOn(b, Pipe);
      if k < |ps| then Some(ps[k]) else None
  }

  /** The swap of a missing review with a present tag, then
      `tag.str.contains('Trip Verified', case=False, na=False)`. */
  function Settle(tag: Option<string>, review: Option<string>): ReviewParts {
    if review.None? && tag.Some? then
      ReviewParts(tag, false)
    else
      ReviewParts(review, tag.Some? && ContainsIgnoreCase(tag.value, VerifiedPhrase))
  }

  /** `clean_review` of etl/transform.py over the `review_bodies` column. */
  function CleanReviews(bodies: seq<Option<string>>): (r: Result<seq<ReviewParts>>)
    ensures r.Ok? ==> |r.value| == |bodies|
  {
    var w := SplitWidth(bodies);
    if w == 0 then
      Err(SplitFailure("review_bodies", bodies, 0))
    else if w == 1 then
      Ok(seq(|bodies|, i requires 0 <= i < |bodies| => Settle(None, Cell(bodies[i], 0))))
    else
      Ok(seq(|bodies|, i requires 0 <= i < |bodies| => Settle(Cell(bodies[i], 0), Cell(bodies[i], 1))))
  }

  /** `clean_review` of etl/etl-aws/data_cleaning.py. With one column the
      split frame is `['review', 'verified']` but is assigned to
      `df[['verified', 'review']]` by position, so the body lands in the tag
      and the swap moves it back; with three or more columns the rename to
      two names raises. */
  function CleanReviewsLegacy(bodies: seq<Option<string>>): (r: Result<seq<ReviewParts>>)
    ensures r.Ok? ==> |r.value| == |bodies|
  {
    var w := SplitWidth(bodies);
    if w == 0 || w > 2 then
      Err(SplitFailure("review_bodies", bodies, w))
    else if w == 1 then
      Ok(seq(|bodies|, i requires 0 <= i < |bodies| => Settle(Cell(bodies[i], 0), None)))
    else
      Ok(seq(|bodies|, i requires 0 <= i < |bodies| => Settle(Cell(bodies[i], 0), Cell(bodies[i], 1))))
  }

  /** What one body becomes, stated without the table: a missing body gives
      no review and `false`; a body without `|` is all review and `false`;
      otherwise the tag is the text before the first `|`, the review the
      text between the first and the second `|`, and later pieces are
      dropped. */
  function ReviewOf(body: Option<string>): ReviewParts {
    match body
    case None => ReviewParts(None, false)
    case Some(b) =>
      if !Contains(b, Pipe) then ReviewParts(Some(b), false)
      else ReviewParts(Some(Before(After(b, Pipe), Pipe)),
                       ContainsIgnoreCase(Before(b, Pipe), VerifiedPhrase))
  }

  /** Whatever the other rows hold, each row of `clean_review` is
      `ReviewOf` of its own body; the stage fails only on a column with no
      body at all. */
  lemma CleanReviewsIsRowwise(bodies: seq<Option<string>>)
    ensures CleanReviews(bodies).Ok? <==> exists i :: 0 <= i < |bodies| && bodies[i].Some?
    ensures CleanReviews(bodies).Ok? ==>
      forall i :: 0 <= i < |bodies| ==> CleanReviews(bodies).value[i] == ReviewOf(bodies[i])
  {
    var w := SplitWidth(bodies);
    if w > 0 {
      var out := CleanReviews(bodies).value;
      forall i | 0 <= i < |bodies| ensures out[i] == ReviewOf(bodies[i]) {
        if bodies[i].Some? {
          var b := bodies[i].value;
          var ps := SplitOn(b, Pipe);
          if w == 1 {
            assert |ps| == 1;
          }
        }
      }
    }
  }

  /** When no body holds a `|`, every review is the whole body and every
      `verified` is false. */
  lemma NoPipeMeansUnverified(bodies: seq<Option<string>>)
    requires exists i :: 0 <= i < |bodies| && bodies[i].Some?
    requires forall i :: 0 <= i < |bodies| && bodies[i].Some? ==> !Contains(bodies[i].value, Pipe)
    ensures CleanReviews(bodies).Ok?
    ensures forall i :: 0 <= i < |bodies| ==>
      CleanReviews(bodies).value[i] == ReviewParts(bodies[i], false)
  {
    CleanReviewsIsRowwise(bodies);
  }

  /** The older `clean_review` gives the canonical result unless some body
      has two or more `|`, where it raises. */
  lemma LegacyAgreesUpToTwoPieces(bodies: seq<Option<string>>)
    ensures SplitWidth(bodies) > 2 ==> CleanReviewsLegacy(bodies).Err?
    ensures SplitWidth(bodies) <= 2 ==> CleanReviewsLegacy(bodies) == CleanReviews(bodies)
  {
    var w := SplitWidth(bodies);
    if w == 1 {
      var a := CleanReviewsLegacy(bodies).value;
      var b := CleanReviews(bodies).value;
      forall i | 0 <= i < |bodies| ensures a[i] == b[i] {
      }
      assert a == b;
    }
  }

  /** A body without "|" is the whole review, unverified. */
  lemma ReviewWithoutPipe(b: string)
    requires forall k :: 0 <= k < |b| ==> b[k] != '|'
    ensures ReviewOf(Some(b)) == ReviewParts(Some(b), false)
  {
    MissingChar(b, Pipe, 0);
  }

  /** A header, one "|" and a text without "|": the text is the review and
      the header decides the flag. */
  lemma ReviewAfterPipe(a: string, b: string)
    requires forall k :: 0 <= k < |a| ==> a[k] != '|'
    requires forall k :: 0 <= k < |b| ==> b[k] != '|'
    ensures ReviewOf(Some(a + Pipe + b)) == ReviewParts(Some(b), ContainsIgnoreCase(a, VerifiedPhrase))
  {
    CutAt(a, Pipe, b);
    MissingChar(b, Pipe, 0);
  }

  /** A body headed "Trip Verified|" is verified, and what follows the
      "|" is the review. */
  lemma VerifiedHeader(b: string)
    requires forall k :: 0 <= k < |b| ==> b[k] != '|'
    ensures ReviewOf(Some(VerifiedPhrase + Pipe + b)) == ReviewParts(Some(b), true)
  {
    var a := VerifiedPhrase;
    forall k | 0 <= k < |a| ensures a[k] != '|' {
      assert a[k] in "Trip Verified";
    }
    ReviewAfterPipe(a, b);
    ContainsItself(Lower(a));
  }

  /** "Average flight" is unverified with the whole text as review. */
  lemma ScenarioPlain()
    ensures ReviewOf(Some("Average flight")) == ReviewParts(Some("Average flight"), false)
  {
    var b := "Average flight";
    forall k | 0 <= k < |b| ensures b[k] != '|' {
      assert b[k] in "Average flight";
    }
    ReviewWithoutPipe(b);
  }

}
