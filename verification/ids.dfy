/** `create_id`: the rows are sorted by review date, latest first and
    missing dates last, and numbered 0..N-1 in their new order. pandas'
    default sort is not stable, so the order of rows with the same date is
    left open: the sort is stated as a permutation of the rows whose dates
    are in order, and any such permutation yields the same date column. */
module Ids {
  import opened Prelude
  import opened Calendar
  import opened Frame

  const DatesReview := "Dates Review"
  const IdColumn := "id"

  /** The sort key of a cell: its day when it holds a timestamp. */
  function Key(v: Value): Option<Date> {
    if v.Stamp? then Some(v.d) else None
  }

  /** `a` may come before `b` in a descending sort with missing values
      last. */
  predicate Ahead(a: Option<Date>, b: Option<Date>) {
    b.None? || (a.Some? && OnOrBefore(b.value, a.value))
  }

  /** `Ahead` is a total order on keys. */
  lemma AheadTotalOrder(a: Option<Date>, b: Option<Date>, c: Option<Date>)
    ensures Ahead(a, b) || Ahead(b, a)
    ensures Ahead(a, b) && Ahead(b, a) ==> a == b
    ensures Ahead(a, b) && Ahead(b, c) ==> Ahead(a, c)
  {
    if a.Some? && b.Some? && c.Some? {
      OnOrBeforeTotalOrder(c.value, b.value, a.value);
      OnOrBeforeTotalOrder(a.value, b.value, c.value);
    } else if a.Some? && b.Some? {
      OnOrBeforeTotalOrder(a.value, b.value, a.value);
    }
  }

  predicate SortedKeys(ks: seq<Option<Date>>) {
    forall i, j :: 0 <= i < j < |ks| ==> Ahead(ks[i], ks[j])
  }

  /** The cells of `col` in the order `p` lists their positions. */
  function Reorder<T>(col: seq<T>, p: seq<nat>): (r: seq<T>)
    requires forall k :: 0 <= k < |p| ==> p[k] < |col|
    ensures |r| == |p|
    ensures forall k :: 0 <= k < |p| ==> r[k] == col[p[k]]
  {
    seq(|p|, k requires 0 <= k < |p| => col[p[k]])
  }

  function Keys(col: seq<Value>): (r: seq<Option<Date>>)
    ensures |r| == |col| && forall i :: 0 <= i < |col| ==> r[i] == Key(col[i])
  {
    seq(|col|, i requires 0 <= i < |col| => Key(col[i]))
  }

  /** 0, 1, …, n-1. */
  function Range(n: nat): (r: seq<nat>)
    ensures |r| == n && forall k :: 0 <= k < n ==> r[k] == k
  {
    seq(n, k requires 0 <= k < n => k)
  }

  /** `p` lists each of the positions 0..n-1 once. */
  predicate IsPermutation(p: seq<nat>, n: nat) {
    multiset(p) == multiset(Range(n))
  }

  // ---------------------------------------------------------------------
  // Insertion sort of the positions

  predicate InRange(xs: seq<nat>, n: nat) {
    forall k :: 0 <= k < |xs| ==> xs[k] < n
  }

  /** The keys of `xs`, in the order `xs` lists them, are in order. */
  predicate SortedBy(keys: seq<Option<Date>>, xs: seq<nat>)
    requires InRange(xs, |keys|)
  {
    forall i, j :: 0 <= i < j < |xs| ==> Ahead(keys[xs[i]], keys[xs[j]])
  }

  /** Puts position `x` into the sorted list `s` ahead of the first
      position whose key it may precede. */
  function Insert(keys: seq<Option<Date>>, x: nat, s: seq<nat>): (r: seq<nat>)
    requires x < |keys| && InRange(s, |keys|) && SortedBy(keys, s)
    ensures InRange(r, |keys|) && SortedBy(keys, r)
    ensures multiset(r) == multiset(s) + multiset{x}
    ensures |r| == |s| + 1
  {
    if |s| == 0 then [x]
    else if Ahead(keys[x], keys[s[0]]) then
      InsertFront(keys, x, s);
      [x] + s
    else
      var rest := Insert(keys, x, s[1..]);
      assert s == [s[0]] + s[1..];
      InsertBehind(keys, x, s, rest);
      [s[0]] + rest
  }

  lemma InsertFront(keys: seq<Option<Date>>, x: nat, s: seq<nat>)
    requires x < |keys| && InRange(s, |keys|) && SortedBy(keys, s)
    requires |s| > 0 && Ahead(keys[x], keys[s[0]])
    ensures InRange([x] + s, |keys|) && SortedBy(keys, [x] + s)
  {
    var r := [x] + s;
    forall i, j | 0 <= i < j < |r| ensures Ahead(keys[r[i]], keys[r[j]]) {
      if i == 0 && j > 1 {
        AheadTotalOrder(keys[x], keys[s[0]], keys[s[j - 1]]);
      }
    }
  }

  lemma InsertBehind(keys: seq<Option<Date>>, x: nat, s: seq<nat>, rest: seq<nat>)
    requires x < |keys| && InRange(s, |keys|) && SortedBy(keys, s)
    requires |s| > 0 && !Ahead(keys[x], keys[s[0]])
    requires InRange(rest, |keys|) && SortedBy(keys, rest)
    requires multiset(rest) == multiset(s[1..]) + multiset{x}
    ensures InRange([s[0]] + rest, |keys|) && SortedBy(keys, [s[0]] + rest)
  {
    AheadTotalOrder(keys[x], keys[s[0]], keys[x]);
    var r := [s[0]] + rest;
    forall j | 0 <= j < |rest| ensures Ahead(keys[s[0]], keys[rest[j]]) {
      assert rest[j] in multiset(rest);
      if rest[j] != x {
        assert rest[j] in multiset(s[1..]);
        var k :| 0 <= k < |s[1..]| && s[1..][k] == rest[j];
        assert s[k + 1] == rest[j];
      }
    }
    assert forall i, j :: 0 < i < j < |r| ==> r[i] == rest[i - 1] && r[j] == rest[j - 1];
  }

  /** Sorts the positions `xs` by key. */
  function SortPositions(keys: seq<Option<Date>>, xs: seq<nat>): (r: seq<nat>)
    requires InRange(xs, |keys|)
    ensures InRange(r, |keys|) && SortedBy(keys, r)
    ensures multiset(r) == multiset(xs)
  {
    if |xs| == 0 then []
    else
      assert xs == [xs[0]] + xs[1..];
      Insert(keys, xs[0], SortPositions(keys, xs[1..]))
  }

  /** `sort_values(by='Dates Review', ascending=False)`: one admissible
      order of the rows. */
  function SortOrder(keys: seq<Option<Date>>): (p: seq<nat>)
    ensures IsPermutation(p, |keys|) && InRange(p, |keys|)
    ensures SortedKeys(Reorder(keys, p))
  {
    var p := SortPositions(keys, Range(|keys|));
    var r := Reorder(keys, p);
    assert forall i, j :: 0 <= i < j < |r| ==> Ahead(r[i], r[j]) by {
      forall i, j | 0 <= i < j < |r| ensures Ahead(r[i], r[j]) {
        assert r[i] == keys[p[i]] && r[j] == keys[p[j]];
      }
    }
    p
  }

  // ---------------------------------------------------------------------
  // Permutations

  /** A permutation lists every position below `n` exactly once. */
  lemma PermutationFacts(p: seq<nat>, n: nat)
    requires IsPermutation(p, n)
    ensures |p| == n && InRange(p, n)
    ensures forall a, b :: 0 <= a < b < |p| ==> p[a] != p[b]
  {
    var r := Range(n);
    assert |p| == |multiset(p)| == |multiset(r)| == n;
    forall k | 0 <= k < |p| ensures p[k] < n {
      assert p[k] in multiset(r);
    }
    forall a, b | 0 <= a < b < |p| ensures p[a] != p[b] {
      RangeCount(n, p[a]);
      RepeatCounts(p, a, b);
    }
  }

  /** Each position below `n` occurs once in `Range(n)`. */
  lemma RangeCount(n: nat, x: nat)
    requires x < n
    ensures multiset(Range(n))[x] == 1
  {
    var r := Range(n);
    assert r == r[..x] + [x] + r[x + 1..];
    assert x !in r[..x] && x !in r[x + 1..];
  }

  /** A value at two positions occurs at least twice. */
  lemma RepeatCounts(p: seq<nat>, a: nat, b: nat)
    requires a < b < |p|
    ensures p[a] == p[b] ==> multiset(p)[p[a]] >= 2
  {
    var x := p[b];
    assert p == p[..b] + [x] + p[b + 1..];
    assert p[..b][a] == p[a];
  }

  /** Removing the element at `j` removes one copy of it. */
  lemma MultisetRemove<T>(q: seq<T>, j: nat)
    requires j < |q|
    ensures multiset(q[..j] + q[j + 1..]) == multiset(q) - multiset{q[j]}
    ensures q[j] in multiset(q)
  {
    assert q == q[..j] + [q[j]] + q[j + 1..];
  }

  /** Positions listed with the same multiplicities pick the same cells
      with the same multiplicities. */
  lemma {:induction false} ReorderSameMultiset<T>(col: seq<T>, p: seq<nat>, q: seq<nat>)
    requires InRange(p, |col|) && InRange(q, |col|)
    requires multiset(p) == multiset(q)
    ensures multiset(Reorder(col, p)) == multiset(Reorder(col, q))
    decreases |p|
  {
    if |p| == 0 {
      assert |q| == |multiset(q)| == 0;
    } else {
      var x := p[0];
      assert x in multiset(q);
      var j :| 0 <= j < |q| && q[j] == x;
      var q' := q[..j] + q[j + 1..];
      RemoveFirst(col, p);
      RemoveAt(col, q, j);
      ReorderSameMultiset(col, p[1..], q');
      PutBack(multiset(Reorder(col, p)), multiset(Reorder(col, q)), col[x]);
    }
  }

  /** `RemoveAt` for the first position. */
  lemma RemoveFirst<T>(col: seq<T>, p: seq<nat>)
    requires InRange(p, |col|) && |p| > 0
    ensures InRange(p[1..], |col|)
    ensures multiset(p[1..]) == multiset(p) - multiset{p[0]}
    ensures multiset(Reorder(col, p[1..])) == multiset(Reorder(col, p)) - multiset{col[p[0]]}
    ensures col[p[0]] in multiset(Reorder(col, p))
  {
    var r := Reorder(col, p);
    MultisetTail(p);
    MultisetTail(r);
    assert r[1..] == Reorder(col, p[1..]);
    assert r[0] in multiset(r);
  }

  lemma PutBack<T>(a: multiset<T>, b: multiset<T>, c: T)
    requires c in a && c in b && a - multiset{c} == b - multiset{c}
    ensures a == b
  {
    assert a == (a - multiset{c}) + multiset{c};
    assert b == (b - multiset{c}) + multiset{c};
  }

  /** Dropping position `j` from `p` drops one copy of it and one copy of
      the cell it picks. */
  lemma RemoveAt<T>(col: seq<T>, p: seq<nat>, j: nat)
    requires InRange(p, |col|) && j < |p|
    ensures InRange(p[..j] + p[j + 1..], |col|)
    ensures multiset(p[..j] + p[j + 1..]) == multiset(p) - multiset{p[j]}
    ensures multiset(Reorder(col, p[..j] + p[j + 1..])) == multiset(Reorder(col, p)) - multiset{col[p[j]]}
    ensures col[p[j]] in multiset(Reorder(col, p))
  {
    var r := Reorder(col, p);
    MultisetRemove(p, j);
    MultisetRemove(r, j);
    assert Reorder(col, p[..j] + p[j + 1..]) == r[..j] + r[j + 1..];
  }

  /** Reordering by a permutation keeps the cells. */
  lemma ReorderKeeps<T>(col: seq<T>, p: seq<nat>)
    requires IsPermutation(p, |col|)
    ensures InRange(p, |col|) && multiset(Reorder(col, p)) == multiset(col)
  {
    PermutationFacts(p, |col|);
    ReorderSameMultiset(col, p, Range(|col|));
    assert Reorder(col, Range(|col|)) == col;
  }

  /** Two lists of keys in order with the same keys are the same list. */
  lemma {:induction false} SortedUnique(a: seq<Option<Date>>, b: seq<Option<Date>>)
    requires SortedKeys(a) && SortedKeys(b) && multiset(a) == multiset(b)
    ensures a == b
    decreases |a|
  {
    assert |a| == |multiset(a)| == |b|;
    if |a| > 0 {
      SameFirst(a, b);
      MultisetTail(a);
      MultisetTail(b);
      SortedTail(a);
      SortedTail(b);
      SortedUnique(a[1..], b[1..]);
      ConsEqual(a, b);
    }
  }

  lemma MultisetTail<T>(q: seq<T>)
    requires |q| > 0
    ensures multiset(q[1..]) == multiset(q) - multiset{q[0]}
  {
    assert q == [q[0]] + q[1..];
  }

  lemma ConsEqual<T>(a: seq<T>, b: seq<T>)
    requires |a| == |b| > 0 && a[0] == b[0] && a[1..] == b[1..]
    ensures a == b
  {
    assert a == [a[0]] + a[1..];
    assert b == [b[0]] + b[1..];
  }

  lemma SortedTail(a: seq<Option<Date>>)
    requires SortedKeys(a) && |a| > 0
    ensures SortedKeys(a[1..])
  {
    assert forall i :: 0 <= i < |a| - 1 ==> a[1..][i] == a[i + 1];
  }

  /** Sorted lists with the same keys start with the same key. */
  lemma SameFirst(a: seq<Option<Date>>, b: seq<Option<Date>>)
    requires SortedKeys(a) && SortedKeys(b) && multiset(a) == multiset(b) && |a| > 0 && |b| > 0
    ensures a[0] == b[0]
  {
    assert a[0] in multiset(b) && b[0] in multiset(a);
    FirstIsAhead(b, a[0]);
    FirstIsAhead(a, b[0]);
    AheadTotalOrder(a[0], b[0], a[0]);
  }

  /** The first key of a sorted list may precede every key in it. */
  lemma FirstIsAhead(a: seq<Option<Date>>, x: Option<Date>)
    requires SortedKeys(a) && x in a
    ensures Ahead(a[0], x)
  {
    var j :| 0 <= j < |a| && a[j] == x;
    if j == 0 {
      AheadTotalOrder(x, x, x);
    }
  }

  // ---------------------------------------------------------------------
  // The stage

  /** The rows of `t` in the order `p`. */
  function Permute(t: Table, p: seq<nat>): (r: Table)
    requires Valid(t) && IsPermutation(p, t.height)
    ensures Valid(r) && r.names == t.names && r.height == t.height
    ensures forall m :: m in t.names ==>
      InRange(p, |Column(t, m).value|) && Column(r, m) == Ok(Reorder(Column(t, m).value, p))
  {
    PermutationFacts(p, t.height);
    Table(t.names, seq(|t.cols|, j requires 0 <= j < |t.cols| => Reorder(t.cols[j], p)), t.height)
  }

  /** The `id` column: 0, 1, …, n-1. */
  function Numbering(n: nat): (r: seq<Value>)
    ensures |r| == n && forall i :: 0 <= i < n ==> r[i] == Num(i as real)
  {
    seq(n, i requires 0 <= i < n => Num(i as real))
  }

  /** What any correct `create_id` gives: the rows of `t` in some order
      that puts the review dates latest first and missing last, with every
      column but `id` carried along and `id` numbering the rows. */
  ghost predicate Admissible(t: Table, r: Table)
    requires Valid(t)
  {
    && Valid(r) && r.height == t.height && DatesReview in t.names
    && (exists p :: IsPermutation(p, t.height) && Carries(t, r, p))
    && SortedKeys(Keys(Column(r, DatesReview).value))
    && Column(r, IdColumn) == Ok(Numbering(t.height))
  }

  /** Every column of `t` other than `id` is found in `r`, reordered by `p`. */
  ghost predicate Carries(t: Table, r: Table, p: seq<nat>)
    requires Valid(t) && Valid(r) && IsPermutation(p, t.height)
  {
    PermutationFacts(p, t.height);
    forall m :: m in t.names && m != IdColumn ==>
      Column(r, m) == Ok(Reorder(Column(t, m).value, p))
  }

  /** `create_id`. */
  function CreateId(t: Table): (r: Result<Table>)
    requires Valid(t)
    ensures r.Ok? <==> DatesReview in t.names
    ensures r.Err? ==> r.error == MissingColumns([DatesReview])
    ensures r.Ok? ==> Admissible(t, r.value)
    ensures r.Ok? ==> r.value.names == if IdColumn in t.names then t.names else t.names + [IdColumn]
  {
    var dates :- Column(t, DatesReview);
    var p := SortOrder(Keys(dates));
    var sorted := Permute(t, p);
    var r := Put(sorted, IdColumn, Numbering(t.height));
    assert Keys(Column(r, DatesReview).value) == Reorder(Keys(dates), p);
    assert Carries(t, r, p);
    Ok(r)
  }

  /** Whatever order a sort picks for rows with the same date, the date
      column comes out the same. */
  lemma AdmissibleDatesAgree(t: Table, r1: Table, r2: Table)
    requires Valid(t) && Admissible(t, r1) && Admissible(t, r2)
    ensures Keys(Column(r1, DatesReview).value) == Keys(Column(r2, DatesReview).value)
  {
    var dates := Column(t, DatesReview).value;
    var p1 :| IsPermutation(p1, t.height) && Carries(t, r1, p1);
    var p2 :| IsPermutation(p2, t.height) && Carries(t, r2, p2);
    PermutationFacts(p1, t.height);
    PermutationFacts(p2, t.height);
    var k1, k2 := Keys(Column(r1, DatesReview).value), Keys(Column(r2, DatesReview).value);
    assert k1 == Reorder(Keys(dates), p1);
    assert k2 == Reorder(Keys(dates), p2);
    ReorderKeeps(Keys(dates), p1);
    ReorderKeeps(Keys(dates), p2);
    SortedUnique(k1, k2);
  }
}
