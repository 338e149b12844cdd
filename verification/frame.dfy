/** The DataFrame the stages pass along, column by column as pandas keeps
    it: a list of column names, one list of cells per column, and a row
    count shared by every column. */
module Frame {
  import opened Prelude
  import opened Text
  import opened Calendar

  /** One cell. Every numeric dtype is `Num`; `Stamp` is a `Timestamp`
      holding midnight of a day. */
  datatype Value = Null | Str(s: string) | Num(x: real) | Flag(b: bool) | Stamp(d: Date)

  datatype Table = Table(names: seq<string>, cols: seq<seq<Value>>, height: nat)

  /** One list of cells per name, each `height` long. */
  predicate Valid(t: Table) {
    |t.cols| == |t.names| && forall j :: 0 <= j < |t.cols| ==> |t.cols[j]| == t.height
  }

  /** Position of the first column called `n`. */
  function IndexOf(names: seq<string>, n: string): (r: Option<nat>)
    ensures r.None? <==> n !in names
    ensures r.Some? ==> r.value < |names| && names[r.value] == n
    ensures r.Some? ==> forall k :: 0 <= k < r.value ==> names[k] != n
  {
    if |names| == 0 then None
    else if names[0] == n then Some(0)
    else
      match IndexOf(names[1..], n)
      case None => None
      case Some(k) => Some(k + 1)
  }

  /** `df[n]`: the column called `n`, a KeyError when there is none. */
  function Column(t: Table, n: string): (r: Result<seq<Value>>)
    requires Valid(t)
    ensures r.Ok? <==> n in t.names
    ensures r.Ok? ==> |r.value| == t.height
    ensures r.Ok? ==> exists j :: 0 <= j < |t.names| && t.names[j] == n && t.cols[j] == r.value
    ensures r.Err? ==> r.error == MissingColumns([n])
  {
    match IndexOf(t.names, n)
    case None => Err(MissingColumns([n]))
    case Some(j) => Ok(t.cols[j])
  }

  /** `df[n] = col`: replaces the first column called `n`, or appends a new
      column at the right. */
  function Put(t: Table, n: string, col: seq<Value>): (r: Table)
    requires Valid(t) && |col| == t.height
    ensures Valid(r) && r.height == t.height
    ensures n in t.names ==> r.names == t.names
    ensures n !in t.names ==> r.names == t.names + [n]
    ensures Column(r, n) == Ok(col)
    ensures forall m :: m != n ==> Column(r, m) == Column(t, m)
  {
    match IndexOf(t.names, n)
    case None =>
      var r := Table(t.names + [n], t.cols + [col], t.height);
      PutFresh(t, n, col);
      r
    case Some(j) =>
      PutReplace(t, j, col);
      Table(t.names, t.cols[j := col], t.height)
  }

  /** Writing column `n` leaves column `m` alone. */
  lemma PutKeeps(t: Table, n: string, col: seq<Value>, m: string)
    requires Valid(t) && |col| == t.height && m != n
    ensures Column(Put(t, n, col), m) == Column(t, m)
    ensures m in Put(t, n, col).names <==> m in t.names
  {
  }

  /** Replacing the first column called `t.names[j]` keeps every lookup of
      another name. */
  lemma PutReplace(t: Table, j: nat, col: seq<Value>)
    requires Valid(t) && |col| == t.height && j < |t.names| && IndexOf(t.names, t.names[j]) == Some(j)
    ensures var r := Table(t.names, t.cols[j := col], t.height);
      && Valid(r)
      && Column(r, t.names[j]) == Ok(col)
      && forall m :: m != t.names[j] ==> Column(r, m) == Column(t, m)
  {
    var r := Table(t.names, t.cols[j := col], t.height);
    forall m | m != t.names[j] ensures Column(r, m) == Column(t, m) {
      match IndexOf(t.names, m)
      case None =>
      case Some(k) => assert k != j;
    }
  }

  /** Appending a column keeps every lookup of another name and finds the
      new one. */
  lemma PutFresh(t: Table, n: string, col: seq<Value>)
    requires Valid(t) && |col| == t.height && n !in t.names
    ensures var r := Table(t.names + [n], t.cols + [col], t.height);
      && Valid(r)
      && Column(r, n) == Ok(col)
      && forall m :: m != n ==> Column(r, m) == Column(t, m)
  {
    var r := Table(t.names + [n], t.cols + [col], t.height);
    IndexOfAppend(t.names, n, n);
    forall m | m != n ensures Column(r, m) == Column(t, m) {
      IndexOfAppend(t.names, n, m);
    }
  }

  /** Looking a name up in a list with one more name at the end. */
  lemma {:induction false} IndexOfAppend(names: seq<string>, extra: string, m: string)
    ensures IndexOf(names + [extra], m) ==
      if m in names then IndexOf(names, m)
      else if m == extra then Some(|names|)
      else None
    decreases |names|
  {
    if |names| > 0 {
      assert (names + [extra])[1..] == names[1..] + [extra];
      IndexOfAppend(names[1..], extra, m);
    }
  }

  predicate Distinct(ns: seq<string>) {
    forall a, b :: 0 <= a < b < |ns| ==> ns[a] != ns[b]
  }

  /** `df[ns[0]] = cols[0]`, then `df[ns[1]] = cols[1]`, and so on. */
  function PutAll(t: Table, ns: seq<string>, cols: seq<seq<Value>>): (r: Table)
    requires Valid(t) && |cols| == |ns| && Distinct(ns)
    requires forall k :: 0 <= k < |cols| ==> |cols[k]| == t.height
    ensures Valid(r) && r.height == t.height
    ensures forall m :: m in r.names <==> m in t.names || m in ns
    ensures forall k :: 0 <= k < |ns| ==> Column(r, ns[k]) == Ok(cols[k])
    ensures forall m :: m !in ns ==> Column(r, m) == Column(t, m)
    decreases |ns|
  {
    if |ns| == 0 then t
    else
      var t' := Put(t, ns[0], cols[0]);
      var r := PutAll(t', ns[1..], cols[1..]);
      assert forall k :: 1 <= k < |ns| ==> ns[k] == ns[1..][k - 1] && cols[k] == cols[1..][k - 1];
      assert forall m :: m in ns <==> m == ns[0] || m in ns[1..];
      r
  }

  /** Looking a name up in a table is looking at its first column, then at
      the rest. */
  lemma ColumnCons(t: Table, m: string)
    requires Valid(t) && |t.names| > 0
    ensures Valid(Table(t.names[1..], t.cols[1..], t.height))
    ensures Column(t, m) == if t.names[0] == m then Ok(t.cols[0])
                            else Column(Table(t.names[1..], t.cols[1..], t.height), m)
  {
    var tail := Table(t.names[1..], t.cols[1..], t.height);
    assert forall j :: 0 <= j < |tail.cols| ==> tail.cols[j] == t.cols[j + 1];
  }

  /** `df.drop(columns=[n])`: removes every column called `n`; the caller
      checks that there is one. */
  function Drop(t: Table, n: string): (r: Table)
    requires Valid(t)
    ensures Valid(r) && r.height == t.height
    ensures n !in r.names
    ensures forall m :: m in r.names <==> m in t.names && m != n
    ensures forall m :: m != n ==> Column(r, m) == Column(t, m)
    decreases |t.names|
  {
    if |t.names| == 0 then t
    else
      var tail := Table(t.names[1..], t.cols[1..], t.height);
      var rest := Drop(tail, n);
      var r := if t.names[0] == n then rest
               else Table([t.names[0]] + rest.names, [t.cols[0]] + rest.cols, t.height);
      assert forall m :: m in t.names <==> m == t.names[0] || m in t.names[1..];
      forall m | m != n ensures Column(r, m) == Column(t, m) {
        ColumnCons(t, m);
        if t.names[0] != n {
          ColumnCons(r, m);
        }
      }
      r
  }

  // ---------------------------------------------------------------------
  // Renaming and selecting columns

  /** The name `df.rename(columns=m)` gives a column called `n`. */
  function Renamed(m: map<string, string>, n: string): string {
    if n in m then m[n] else n
  }

  /** `df.rename(columns=m)`: every column keeps its cells and its place;
      only the names that are keys of `m` change. */
  function Rename(t: Table, m: map<string, string>): (r: Table)
    requires Valid(t)
    ensures Valid(r) && r.height == t.height && r.cols == t.cols
    ensures |r.names| == |t.names|
    ensures forall j :: 0 <= j < |t.names| && t.names[j] !in m ==> r.names[j] == t.names[j]
    ensures forall j :: 0 <= j < |t.names| && t.names[j] in m ==> r.names[j] == m[t.names[j]]
  {
    Table(seq(|t.names|, j requires 0 <= j < |t.names| => Renamed(m, t.names[j])), t.cols, t.height)
  }

  /** Every name after renaming is an old name left alone or a new name
      of the map. */
  lemma RenameNames(t: Table, m: map<string, string>, n: string)
    requires Valid(t) && n in Rename(t, m).names
    ensures (n in t.names && n !in m) || exists k :: k in m && k in t.names && m[k] == n
  {
    var r := Rename(t, m);
    var j :| 0 <= j < |r.names| && r.names[j] == n;
    if t.names[j] in m {
      assert m[t.names[j]] == n;
    }
  }

  /** A column that is not renamed, and that no renamed column takes the
      name of, is found where it was. */
  lemma RenameKeeps(t: Table, m: map<string, string>, n: string)
    requires Valid(t)
    requires n !in m
    requires forall k :: k in m && k in t.names ==> m[k] != n
    ensures Column(Rename(t, m), n) == Column(t, n)
  {
    var r := Rename(t, m);
    RenameIndex(t.names, r.names, m, n, n);
  }

  /** A renamed column is found under its new name when no other column
      already has, or is given, that name. */
  lemma RenameMoves(t: Table, m: map<string, string>, k: string)
    requires Valid(t)
    requires k in t.names && k in m && m[k] !in t.names
    requires forall k' :: k' in m && k' in t.names && k' != k ==> m[k'] != m[k]
    ensures Column(Rename(t, m), m[k]) == Column(t, k)
  {
    var r := Rename(t, m);
    forall j | 0 <= j < |t.names| && t.names[j] != k ensures Renamed(m, t.names[j]) != m[k] {
      assert t.names[j] in t.names;
    }
    RenameIndex(t.names, r.names, m, k, m[k]);
  }

  /** The first column called `n` after renaming is the first column
      called `src` before, when `src` is the only present name that is
      renamed to `n`. */
  lemma {:induction false} RenameIndex(names: seq<string>, renamed: seq<string>,
                                       m: map<string, string>, src: string, n: string)
    requires |renamed| == |names|
    requires forall j :: 0 <= j < |names| ==> renamed[j] == Renamed(m, names[j])
    requires Renamed(m, src) == n
    requires forall j :: 0 <= j < |names| && names[j] != src ==> Renamed(m, names[j]) != n
    ensures IndexOf(renamed, n) == IndexOf(names, src)
    decreases |names|
  {
    if |names| > 0 && names[0] != src {
      RenameIndex(names[1..], renamed[1..], m, src, n);
    }
  }

  /** The requested names that the table lacks, in request order. */
  function Missing(t: Table, order: seq<string>): (r: seq<string>)
    ensures |r| == 0 <==> forall k :: 0 <= k < |order| ==> order[k] in t.names
    ensures forall k :: 0 <= k < |r| ==> r[k] in order && r[k] !in t.names
  {
    if |order| == 0 then []
    else
      var rest := Missing(t, order[1..]);
      assert forall k :: 1 <= k < |order| ==> order[k] == order[1..][k - 1];
      if order[0] in t.names then rest else [order[0]] + rest
  }

  /** `df[order]`: the named columns in the given order, a name listed
      twice giving the column twice; a KeyError listing every absent name
      when some are absent. */
  function Select(t: Table, order: seq<string>): (r: Result<Table>)
    requires Valid(t)
    ensures r.Ok? <==> forall k :: 0 <= k < |order| ==> order[k] in t.names
    ensures r.Ok? ==> Valid(r.value) && r.value.names == order && r.value.height == t.height
    ensures r.Ok? ==> forall k :: 0 <= k < |order| ==> Ok(r.value.cols[k]) == Column(t, order[k])
    ensures r.Err? ==> r.error == MissingColumns(Missing(t, order)) && |Missing(t, order)| > 0
  {
    var missing := Missing(t, order);
    if |missing| > 0 then Err(MissingColumns(missing))
    else
      var cols := seq(|order|, k requires 0 <= k < |order| => Column(t, order[k]).value);
      Ok(Table(order, cols, t.height))
  }

  /** After a selection every listed name finds its column. */
  lemma SelectFinds(t: Table, order: seq<string>, n: string)
    requires Valid(t) && Select(t, order).Ok? && n in order
    ensures Column(Select(t, order).value, n) == Column(t, n)
  {
  }

  // ---------------------------------------------------------------------
  // Cell-wise maps

  /** `x.strip() if isinstance(x, str) else x` on one cell. */
  function TrimCell(v: Value): Value {
    match v
    case Str(s) => Str(Strip(s))
    case _ => v
  }

  /** `clean_space`: `df.map` of the strip over every cell. */
  function Trim(t: Table): (r: Table)
    requires Valid(t)
    ensures Valid(r) && r.names == t.names && r.height == t.height
    ensures forall j, i :: 0 <= j < |t.cols| && 0 <= i < t.height ==>
      r.cols[j][i] == TrimCell(t.cols[j][i])
  {
    Table(t.names, seq(|t.cols|, j requires 0 <= j < |t.cols| =>
      seq(t.height, i requires 0 <= i < t.height => TrimCell(t.cols[j][i]))), t.height)
  }

  /** Every string cell loses exactly its leading and trailing whitespace
      and keeps the text between; every other cell is kept. */
  lemma TrimMeaning(t: Table, j: nat, i: nat)
    requires Valid(t) && j < |t.cols| && i < t.height
    ensures var v, c := t.cols[j][i], Trim(t).cols[j][i];
      && (v.Str? <==> c.Str?)
      && (!v.Str? ==> c == v)
      && (c.Str? ==> exists a, b :: v.s == a + c.s + b && AllSpace(a) && AllSpace(b))
      && (c.Str? && |c.s| > 0 ==> !IsSpace(c.s[0]) && !IsSpace(c.s[|c.s| - 1]))
  {
    var v, c := t.cols[j][i], Trim(t).cols[j][i];
    if v.Str? {
      assert c == Str(Strip(v.s));
      StripSurround(v.s);
    }
  }

  /** Trimming a trimmed table changes nothing. */
  lemma TrimIdempotent(t: Table)
    requires Valid(t)
    ensures Trim(Trim(t)) == Trim(t)
  {
    var a := Trim(t);
    var b := Trim(a);
    forall j, i | 0 <= j < |t.cols| && 0 <= i < t.height ensures b.cols[j][i] == a.cols[j][i] {
      if t.cols[j][i].Str? {
        StripIdempotent(t.cols[j][i].s);
      }
    }
    assert forall j :: 0 <= j < |t.cols| ==> b.cols[j] == a.cols[j];
  }

  // ---------------------------------------------------------------------
  // Reading and writing typed columns

  /** The `.str` view of a column: the text of each string cell, missing
      for every other cell. */
  function Texts(col: seq<Value>): (r: seq<Option<string>>)
    ensures |r| == |col|
    ensures forall i :: 0 <= i < |col| ==> (r[i].Some? <==> col[i].Str?)
    ensures forall i :: 0 <= i < |col| && col[i].Str? ==> r[i].value == col[i].s
  {
    seq(|col|, i requires 0 <= i < |col| => if col[i].Str? then Some(col[i].s) else None)
  }

  /** A text column as cells, missing values as `Null`. */
  function FromTexts(cells: seq<Option<string>>): (r: seq<Value>)
    ensures Texts(r) == cells
  {
    var r := seq(|cells|, i requires 0 <= i < |cells| =>
      match cells[i] case None => Null case Some(s) => Str(s));
    assert Texts(r) == cells;
    r
  }
}
