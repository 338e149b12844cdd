/** Missing values and failing stages.

    A pandas cell that is NaN, None or pd.NA is `None` here; a stage that
    raises is `Err` carrying the reason. */
module Prelude {

  /** A cell that may be missing. */
  datatype Option<+T> = None | Some(value: T) {
    function GetOr(default: T): T {
      match this
      case Some(v) => v
      case None => default
    }
  }

  /** Why a stage raised instead of producing a table. */
  datatype Failure =
    /** `df[...]` named columns the frame does not have (KeyError). */
    | MissingColumns(names: seq<string>)
    /** A `str.split(..., expand=True)` produced `width` columns where the
        assignment needed another number (ValueError or KeyError). */
    | WidthMismatch(column: string, width: nat)
    /** A `.str` method met a non-empty column with no text at all (pandas
        reads a column whose cells are all empty as floats). */
    | NoText(column: string)
    /** `pd.to_datetime(..., format='%d %B %Y')` rejected this text. */
    | BadReviewDate(text: string)
    /** `a, b = route_part.split(' via ')` met more than one " via ". */
    | RouteUnpack(route: string)
    /** `astype('boolean')` met, in row `row` of `column`, a value that is
        neither True, False nor missing. */
    | NotBoolean(column: string, row: nat)
    /** Two columns share `name`, so `df[name]` is a frame, which has no
        `.str` accessor (AttributeError). */
    | DuplicateColumn(name: string)

  /** The three copies of the pipeline: `etl/transform.py`; the `etl-aws`
      pair `data_cleaning.py` and `feature_engineering.py`; and the older
      pair `etl/etl-aws/data_cleaning.py` and `etl/feature_engineering.py`. */
  datatype Variant = Canonical | Aws | Legacy

  /** A stage's outcome; usable with `:-`. */
  datatype Result<+T> = Ok(value: T) | Err(error: Failure) {
    predicate IsFailure() {
      Err?
    }

    function PropagateFailure<U>(): Result<U>
      requires Err?
    {
      Err(error)
    }

    function Extract(): T
      requires Ok?
    {
      value
    }
  }

  /** The failure of a `.str` split of `column` into `width` columns when
      the assignment needs another number: a non-empty column without a
      single text cell fails at the `.str` accessor, before splitting; any
      other column splits, and the assignment of the wrong number of
      columns fails, even when the width is zero (an empty column, or one
      whose texts are all whitespace). */
  function SplitFailure(column: string, cells: seq<Option<string>>, width: nat): (r: Failure)
    ensures r.NoText? <==> |cells| > 0 && forall i :: 0 <= i < |cells| ==> cells[i].None?
    ensures r.NoText? ==> r.column == column
    ensures r.WidthMismatch? ==> r == WidthMismatch(column, width)
  {
    if |cells| > 0 && forall i :: 0 <= i < |cells| ==> cells[i].None? then NoText(column)
    else WidthMismatch(column, width)
  }

  /** The largest element, 0 for an empty sequence. */
  function MaxOf(xs: seq<nat>): (m: nat)
    ensures forall k :: 0 <= k < |xs| ==> xs[k] <= m
    ensures |xs| == 0 ==> m == 0
    ensures |xs| > 0 ==> exists k :: 0 <= k < |xs| && xs[k] == m
  {
    if |xs| == 0 then 0
    else
      var rest := MaxOf(xs[1..]);
      if xs[0] >= rest then xs[0] else rest
  }
}
