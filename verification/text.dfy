/** Python string primitives used by the transform stages, on `seq<char>`.

    Whitespace is the set Python's `str.isspace()` accepts (the set
    `str.strip()` and `str.split()` use). Case-insensitive matching folds
    the ASCII letters only, and digits are the ASCII digits only. */
module Text {
  import opened Prelude

  /** Python's whitespace characters. */
  predicate IsSpace(c: char) {
    var n := c as int;
    (9 <= n <= 13) || (28 <= n <= 32) || n == 0x85 || n == 0xA0 || n == 0x1680
    || (0x2000 <= n <= 0x200A) || n == 0x2028 || n == 0x2029 || n == 0x202F
    || n == 0x205F || n == 0x3000
  }

  predicate IsDigit(c: char) {
    '0' <= c <= '9'
  }

  predicate IsLetter(c: char) {
    ('A' <= c <= 'Z') || ('a' <= c <= 'z')
  }

  predicate AllSpace(s: string) {
    forall k :: 0 <= k < |s| ==> IsSpace(s[k])
  }

  predicate NoSpace(s: string) {
    forall k :: 0 <= k < |s| ==> !IsSpace(s[k])
  }

  predicate AllDigits(s: string) {
    forall k :: 0 <= k < |s| ==> IsDigit(s[k])
  }

  // ---------------------------------------------------------------------
  // str.strip()

  /** The first index at or after `i` that holds no whitespace, or `|s|`. */
  function SkipSpaces(s: string, i: nat): (a: nat)
    requires i <= |s|
    ensures i <= a <= |s|
    ensures forall k :: i <= k < a ==> IsSpace(s[k])
    ensures a < |s| ==> !IsSpace(s[a])
    decreases |s| - i
  {
    if i < |s| && IsSpace(s[i]) then SkipSpaces(s, i + 1) else i
  }

  /** The end of the text before `j` once trailing whitespace is dropped. */
  function TrimEnd(s: string, j: nat): (b: nat)
    requires j <= |s|
    ensures b <= j
    ensures forall k :: b <= k < j ==> IsSpace(s[k])
    ensures b > 0 ==> !IsSpace(s[b - 1])
    decreases j
  {
    if j > 0 && IsSpace(s[j - 1]) then TrimEnd(s, j - 1) else j
  }

  /** `s.strip()`: the text between the leading and the trailing whitespace. */
  function Strip(s: string): (r: string)
    ensures var i := SkipSpaces(s, 0);
              i + |r| <= |s| && s[i..i + |r|] == r
              && forall k :: i + |r| <= k < |s| ==> IsSpace(s[k])
    ensures |r| > 0 ==> !IsSpace(r[0]) && !IsSpace(r[|r| - 1])
    ensures r == [] <==> AllSpace(s)
  {
    var a := SkipSpaces(s, 0);
    var b := TrimEnd(s, |s|);
    if a < b then
      assert !AllSpace(s) by { assert !IsSpace(s[a]); }
      s[a..b]
    else
      assert AllSpace(s) by {
        forall k | 0 <= k < |s| ensures IsSpace(s[k]) {
          assert k < a || b <= k;
        }
      }
      assert s[0..0] == "";
      ""
  }

  /** The stripped text sits between two runs of whitespace. */
  lemma StripSurround(s: string)
    ensures exists a, b :: s == a + Strip(s) + b && AllSpace(a) && AllSpace(b)
  {
    var r := Strip(s);
    var k := SkipSpaces(s, 0);
    var a, b := s[..k], s[k + |r|..];
    assert s == a + r + b;
    assert AllSpace(a) && AllSpace(b);
  }

  /** Stripping a stripped string changes nothing, so `clean_space` is
      idempotent. */
  lemma StripIdempotent(s: string)
    ensures Strip(Strip(s)) == Strip(s)
  {
    var r := Strip(s);
    if r != [] {
      assert SkipSpaces(r, 0) == 0;
      assert TrimEnd(r, |r|) == |r|;
      assert r[0..|r|] == r;
    }
  }

  // ---------------------------------------------------------------------
  // Substring search

  /** `pat` occurs in `s` starting at index `i`. */
  predicate OccursAt(s: string, pat: string, i: int) {
    0 <= i && i + |pat| <= |s| && s[i..i + |pat|] == pat
  }

  /** `s.find(pat, i)` for `i <= |s|`, as an option. */
  function FindFrom(s: string, pat: string, i: nat): (r: Option<nat>)
    requires i <= |s|
    ensures r.Some? ==> i <= r.value && OccursAt(s, pat, r.value)
    ensures r.Some? ==> forall j :: i <= j < r.value ==> !OccursAt(s, pat, j)
    ensures r.None? ==> forall j :: i <= j ==> !OccursAt(s, pat, j)
    decreases |s| - i
  {
    if OccursAt(s, pat, i) then Some(i)
    else if i + |pat| >= |s| then None
    else FindFrom(s, pat, i + 1)
  }

  /** The index of the first occurrence of `pat` in `s`. */
  function Find(s: string, pat: string): (r: Option<nat>)
    ensures r.Some? ==> OccursAt(s, pat, r.value)
    ensures r.Some? ==> forall j :: 0 <= j < r.value ==> !OccursAt(s, pat, j)
    ensures r.None? ==> forall j :: !OccursAt(s, pat, j)
  {
    FindFrom(s, pat, 0)
  }

  /** Python's `pat in s`. */
  predicate Contains(s: string, pat: string) {
    Find(s, pat).Some?
  }

  /** Every text contains itself. */
  lemma ContainsItself(s: string)
    ensures Contains(s, s)
  {
    assert OccursAt(s, s, 0) by { assert s[0..|s|] == s; }
  }

  /** A prefix of `s` that ends before `i` has no occurrence the full
      text does not have. */
  lemma NoOccurrenceInPrefix(s: string, pat: string, i: nat)
    requires i <= |s| && |pat| > 0
    requires forall j :: 0 <= j < i ==> !OccursAt(s, pat, j)
    ensures !Contains(s[..i], pat)
  {
    if Contains(s[..i], pat) {
      var j := Find(s[..i], pat).value;
      assert s[..i][j..j + |pat|] == s[j..j + |pat|];
      assert OccursAt(s, pat, j);
      assert false;
    }
  }

  // ---------------------------------------------------------------------
  // str.split(sep) and sep.join(parts)

  /** `sep.join(parts)`. */
  function Join(parts: seq<string>, sep: string): string {
    if |parts| == 0 then ""
    else if |parts| == 1 then parts[0]
    else parts[0] + sep + Join(parts[1..], sep)
  }

  lemma AppendAssociates(a: string, b: string, c: string)
    ensures a + (b + c) == a + b + c
  {
  }

  /** Joining a first piece onto at least one more puts `sep` after it. */
  lemma JoinCons(p: string, parts: seq<string>, sep: string)
    requires |parts| >= 1
    ensures Join([p] + parts, sep) == p + sep + Join(parts, sep)
  {
    assert ([p] + parts)[1..] == parts;
  }

  /** The text before the first `sep`, or all of `s` when there is none. */
  function Before(s: string, sep: string): string {
    match Find(s, sep)
    case Some(i) => s[..i]
    case None => s
  }

  /** The text after the first `sep`. */
  function After(s: string, sep: string): string
    requires Contains(s, sep)
  {
    s[Find(s, sep).value + |sep|..]
  }

  /** Python's `s.split(sep)` for a non-empty literal separator: the pieces
      between the occurrences found scanning from the left. */
  function SplitOn(s: string, sep: string): (parts: seq<string>)
    requires |sep| > 0
    ensures |parts| >= 1
    ensures Join(parts, sep) == s
    ensures forall k :: 0 <= k < |parts| ==> !Contains(parts[k], sep)
    ensures parts[0] == Before(s, sep)
    ensures |parts| == 1 <==> !Contains(s, sep)
    ensures Contains(s, sep) ==> parts[1] == Before(After(s, sep), sep)
    decreases |s|
  {
    match Find(s, sep)
    case None =>
      [s]
    case Some(i) =>
      NoOccurrenceInPrefix(s, sep, i);
      var rest := SplitOn(s[i + |sep|..], sep);
      assert s == s[..i] + sep + s[i + |sep|..];
      [s[..i]] + rest
  }

  /** Splitting text that holds `sep` gives the text before the first
      `sep`, then the pieces of the text after it. */
  lemma SplitOnCons(s: string, sep: string)
    requires |sep| > 0 && Contains(s, sep)
    ensures SplitOn(s, sep) == [Before(s, sep)] + SplitOn(After(s, sep), sep)
  {
  }

  /** Text splits into exactly two pieces when it holds `sep` once. */
  lemma SplitOnTwo(s: string, sep: string)
    requires |sep| > 0
    ensures |SplitOn(s, sep)| == 2 <==> Contains(s, sep) && !Contains(After(s, sep), sep)
  {
    if Contains(s, sep) {
      SplitOnCons(s, sep);
    }
  }

  /** Text without the character `c` is one piece when split on it. */
  lemma SplitWithoutChar(b: string, c: char)
    requires forall k :: 0 <= k < |b| ==> b[k] != c
    ensures SplitOn(b, [c]) == [b]
  {
    forall j | 0 <= j < |b| ensures !OccursAt(b, [c], j) {
      assert b[j..j + 1][0] == b[j];
    }
    assert Find(b, [c]) == None;
  }

  /** Two pieces without `c` joined by `c` split back into the pieces. */
  lemma SplitAtChar(a: string, c: char, b: string)
    requires forall k :: 0 <= k < |a| ==> a[k] != c
    requires forall k :: 0 <= k < |b| ==> b[k] != c
    ensures SplitOn(a + [c] + b, [c]) == [a, b]
  {
    var s := a + [c] + b;
    assert OccursAt(s, [c], |a|) by {
      assert s[|a|..|a| + 1] == [c];
    }
    forall j | 0 <= j < |a| ensures !OccursAt(s, [c], j) {
      assert s[j..j + 1][0] == a[j];
    }
    assert Find(s, [c]) == Some(|a|);
    assert s[..|a|] == a && s[|a| + 1..] == b;
    SplitWithoutChar(b, c);
  }

  /** The first occurrence of `sep` is at `i` when it occurs there and no
      earlier character could start it. */
  lemma FirstAt(s: string, sep: string, i: nat)
    requires |sep| > 0 && OccursAt(s, sep, i)
    requires forall j :: 0 <= j < i ==> s[j] != sep[0]
    ensures Find(s, sep) == Some(i)
  {
    assert Find(s, sep).Some?;
    var k := Find(s, sep).value;
    if k < i {
      assert false;
    }
  }

  /** In `a + sep + rest`, where `a` holds no character that starts `sep`,
      the text before the first `sep` is `a` and the text after it `rest`. */
  lemma CutAt(a: string, sep: string, rest: string)
    requires |sep| > 0
    requires forall k :: 0 <= k < |a| ==> a[k] != sep[0]
    ensures Find(a + sep + rest, sep) == Some(|a|)
    ensures Contains(a + sep + rest, sep)
    ensures Before(a + sep + rest, sep) == a
    ensures After(a + sep + rest, sep) == rest
  {
    var s := a + sep + rest;
    assert s[|a|..|a| + |sep|] == sep;
    FirstAt(s, sep, |a|);
    assert s[..|a|] == a && s[|a| + |sep|..] == rest;
  }

  /** Text lacking one character of `sep` does not hold `sep`. */
  lemma MissingChar(s: string, sep: string, m: nat)
    requires m < |sep|
    requires forall j :: 0 <= j < |s| ==> s[j] != sep[m]
    ensures !Contains(s, sep)
  {
  }

  /** Whitespace-free text is its own strip. */
  lemma StripNoSpace(s: string)
    requires NoSpace(s)
    ensures Strip(s) == s
  {
    if |s| > 0 {
      assert SkipSpaces(s, 0) == 0;
      assert TrimEnd(s, |s|) == |s|;
      assert s[0..|s|] == s;
    }
  }

  /** Python's `s.replace(pat, rep)`: every occurrence found scanning from
      the left is replaced. */
  function ReplaceAll(s: string, pat: string, rep: string): (r: string)
    requires |pat| > 0
    ensures !Contains(s, pat) ==> r == s
  {
    Join(SplitOn(s, pat), rep)
  }

  /** `s.replace(pat, rep)` writes `rep` over the first occurrence and goes
      on after it. */
  lemma ReplaceAllAt(s: string, pat: string, rep: string, i: nat)
    requires |pat| > 0 && Find(s, pat) == Some(i)
    ensures ReplaceAll(s, pat, rep) == s[..i] + rep + ReplaceAll(s[i + |pat|..], pat, rep)
  {
    var parts := SplitOn(s[i + |pat|..], pat);
    assert SplitOn(s, pat) == [s[..i]] + parts;
    JoinCons(s[..i], parts, rep);
  }

  // ---------------------------------------------------------------------
  // str.split() without a separator

  /** The first index at or after `i` that holds whitespace, or `|s|`. */
  function SkipWord(s: string, i: nat): (b: nat)
    requires i <= |s|
    ensures i <= b <= |s|
    ensures forall k :: i <= k < b ==> !IsSpace(s[k])
    ensures b < |s| ==> IsSpace(s[b])
    decreases |s| - i
  {
    if i < |s| && !IsSpace(s[i]) then SkipWord(s, i + 1) else i
  }

  /** The non-whitespace characters of `s` from index `i` on, in order. */
  function RemoveSpacesFrom(s: string, i: nat): (r: string)
    requires i <= |s|
    ensures NoSpace(r)
    decreases |s| - i
  {
    if i == |s| then ""
    else (if IsSpace(s[i]) then "" else [s[i]]) + RemoveSpacesFrom(s, i + 1)
  }

  /** `s` with every whitespace character removed. */
  function RemoveSpaces(s: string): (r: string)
    ensures NoSpace(r)
  {
    RemoveSpacesFrom(s, 0)
  }

  lemma {:induction false} RemoveSpacesSkipsSpaces(s: string, i: nat, a: nat)
    requires i <= a <= |s|
    requires forall k :: i <= k < a ==> IsSpace(s[k])
    ensures RemoveSpacesFrom(s, i) == RemoveSpacesFrom(s, a)
    decreases a - i
  {
    if i < a {
      RemoveSpacesSkipsSpaces(s, i + 1, a);
    }
  }

  lemma {:induction false} RemoveSpacesKeepsWord(s: string, a: nat, b: nat)
    requires a <= b <= |s|
    requires forall k :: a <= k < b ==> !IsSpace(s[k])
    ensures RemoveSpacesFrom(s, a) == s[a..b] + RemoveSpacesFrom(s, b)
    decreases b - a
  {
    if a < b {
      RemoveSpacesKeepsWord(s, a + 1, b);
      var rest := RemoveSpacesFrom(s, b);
      assert RemoveSpacesFrom(s, a) == [s[a]] + RemoveSpacesFrom(s, a + 1);
      assert RemoveSpacesFrom(s, a + 1) == s[a + 1..b] + rest;
      assert s[a..b] == [s[a]] + s[a + 1..b];
      assert [s[a]] + (s[a + 1..b] + rest) == ([s[a]] + s[a + 1..b]) + rest;
    }
  }

  /** Concatenation of a sequence of strings. */
  function Concat(ts: seq<string>): string {
    if |ts| == 0 then "" else ts[0] + Concat(ts[1..])
  }

  lemma ConcatCons(t: string, ts: seq<string>)
    ensures Concat([t] + ts) == t + Concat(ts)
  {
    assert ([t] + ts)[1..] == ts;
  }

  /** The words of `s` from index `i` on. */
  function WordsFrom(s: string, i: nat): (ts: seq<string>)
    requires i <= |s|
    ensures forall k :: 0 <= k < |ts| ==> |ts[k]| > 0 && NoSpace(ts[k])
    ensures Concat(ts) == RemoveSpacesFrom(s, i)
    ensures |ts| == 0 <==> forall k :: i <= k < |s| ==> IsSpace(s[k])
    decreases |s| - i
  {
    var a := SkipSpaces(s, i);
    RemoveSpacesSkipsSpaces(s, i, a);
    if a == |s| then
      []
    else
      var b := SkipWord(s, a);
      RemoveSpacesKeepsWord(s, a, b);
      var rest := WordsFrom(s, b);
      assert ([s[a..b]] + rest)[1..] == rest;
      [s[a..b]] + rest
  }

  lemma {:induction false} SkipWordOver(s: string, i: nat, j: nat)
    requires i <= j <= |s|
    requires forall k :: i <= k < j ==> !IsSpace(s[k])
    requires j == |s| || IsSpace(s[j])
    ensures SkipWord(s, i) == j
    decreases j - i
  {
    if i < j {
      SkipWordOver(s, i + 1, j);
    }
  }

  /** A word at `i` that ends at whitespace or at the end is the next word. */
  lemma WordsFromWord(s: string, i: nat, w: string)
    requires i + |w| <= |s| && s[i..i + |w|] == w
    requires |w| > 0 && NoSpace(w)
    requires i + |w| == |s| || IsSpace(s[i + |w|])
    ensures WordsFrom(s, i) == [w] + WordsFrom(s, i + |w|)
  {
    assert s[i] == w[0];
    assert SkipSpaces(s, i) == i;
    assert forall k :: i <= k < i + |w| ==> s[k] == w[k - i];
    SkipWordOver(s, i, i + |w|);
  }

  /** Whitespace before the next word is skipped. */
  lemma WordsFromSpace(s: string, i: nat)
    requires i < |s| && IsSpace(s[i])
    ensures WordsFrom(s, i) == WordsFrom(s, i + 1)
  {
    assert SkipSpaces(s, i) == SkipSpaces(s, i + 1);
  }

  /** Python's `s.split()`: the maximal runs of non-whitespace characters,
      in order. Together they hold exactly the non-whitespace text of `s`. */
  function SplitWhitespace(s: string): (ts: seq<string>)
    ensures forall k :: 0 <= k < |ts| ==> |ts[k]| > 0 && NoSpace(ts[k])
    ensures Concat(ts) == RemoveSpaces(s)
    ensures |ts| == 0 <==> AllSpace(s)
  {
    WordsFrom(s, 0)
  }

  /** A word followed by whitespace is the first word of the rest. */
  lemma WordThenRest(s: string, i: nat, w: string, k: nat, rest: seq<string>)
    requires i + |w| < |s| && s[i..i + |w|] == w
    requires |w| > 0 && NoSpace(w)
    requires IsSpace(s[i + |w|])
    requires k == i + |w| + 1 && WordsFrom(s, k) == rest
    ensures WordsFrom(s, i) == [w] + rest
  {
    WordsFromSpace(s, i + |w|);
    assert WordsFrom(s, i + |w|) == rest;
    WordsFromWord(s, i, w);
  }

  /** A word running to the end is the last word. */
  lemma LastWord(s: string, i: nat, w: string)
    requires i + |w| == |s| && s[i..] == w
    requires |w| > 0 && NoSpace(w)
    ensures WordsFrom(s, i) == [w]
  {
    WordsFromWord(s, i, w);
  }

  /** Two words separated by one whitespace character and running to the
      end are the last two words. */
  lemma LastTwoWords(s: string, i: nat, b: string, c: string)
    requires i + |b| < |s| && s[i..i + |b|] == b && IsSpace(s[i + |b|])
    requires s[i + |b| + 1..] == c
    requires |b| > 0 && NoSpace(b) && |c| > 0 && NoSpace(c)
    ensures WordsFrom(s, i) == [b, c]
  {
    LastWord(s, i + |b| + 1, c);
    WordThenRest(s, i, b, i + |b| + 1, [c]);
  }

  lemma ThreeList(a: string, b: string, c: string)
    ensures [a] + [b, c] == [a, b, c]
  {
  }

  /** Three words at known places, separated by single whitespace
      characters, are the words of `s`. */
  lemma WordsAtPlaces(s: string, a: string, b: string, c: string)
    requires |a| > 0 && |b| > 0 && |c| > 0
    requires NoSpace(a) && NoSpace(b) && NoSpace(c)
    requires |s| == |a| + |b| + |c| + 2
    requires s[0..|a|] == a && IsSpace(s[|a|])
    requires s[|a| + 1..|a| + 1 + |b|] == b && IsSpace(s[|a| + 1 + |b|])
    requires s[|a| + |b| + 2..] == c
    ensures WordsFrom(s, 0) == [a, b, c]
  {
    var i := |a| + 1;
    assert s[i..i + |b|] == b && IsSpace(s[i + |b|]);
    assert s[i + |b| + 1..] == c;
    LastTwoWords(s, i, b, c);
    WordThenRest(s, 0, a, i, [b, c]);
    ThreeList(a, b, c);
  }

  /** Three space-separated words split back into those words. */
  lemma SplitThreeWords(a: string, b: string, c: string)
    requires |a| > 0 && |b| > 0 && |c| > 0
    requires NoSpace(a) && NoSpace(b) && NoSpace(c)
    ensures SplitWhitespace(a + " " + b + " " + c) == [a, b, c]
  {
    var s := a + " " + b + " " + c;
    assert s[0..|a|] == a && s[|a|] == ' ';
    assert s[|a| + 1..|a| + 1 + |b|] == b && s[|a| + 1 + |b|] == ' ';
    assert s[|a| + |b| + 2..] == c;
    WordsAtPlaces(s, a, b, c);
  }
  // ---------------------------------------------------------------------
  // Character classes and case

  /** ASCII lower-casing of one character. */
  function LowerChar(c: char): (d: char)
    ensures 'A' <= c <= 'Z' ==> d as int == c as int + 32
    ensures !('A' <= c <= 'Z') ==> d == c
  {
    if 'A' <= c <= 'Z' then (c as int + 32) as char else c
  }

  function Lower(s: string): (r: string)
    ensures |r| == |s|
    ensures forall k :: 0 <= k < |s| ==> r[k] == LowerChar(s[k])
  {
    seq(|s|, k requires 0 <= k < |s| => LowerChar(s[k]))
  }

  /** Two strings are equal when ASCII case is ignored. */
  predicate EqualsIgnoreCase(a: string, b: string) {
    Lower(a) == Lower(b)
  }

  /** Python's `re.search(pat, s, re.IGNORECASE)` for a pattern with no
      special characters. */
  predicate ContainsIgnoreCase(s: string, pat: string) {
    Contains(Lower(s), Lower(pat))
  }

  /** Removes every character of `cs`, keeping the others in order: the
      effect of `re.sub('[()]', '', s)` with `cs = {'(', ')'}`. */
  function DropChars(s: string, cs: set<char>): (r: string)
    ensures |r| <= |s|
    ensures forall k :: 0 <= k < |r| ==> r[k] !in cs
    ensures (forall k :: 0 <= k < |s| ==> s[k] !in cs) ==> r == s
    decreases |s|
  {
    if |s| == 0 then ""
    else (if s[0] in cs then "" else [s[0]]) + DropChars(s[1..], cs)
  }

  // ---------------------------------------------------------------------
  // Decimal digits

  /** The value of a non-empty string of ASCII digits. */
  function DigitsValue(s: string): (v: nat)
    requires AllDigits(s)
    decreases |s|
  {
    if |s| == 0 then 0
    else DigitsValue(s[..|s| - 1]) * 10 + (s[|s| - 1] as int - '0' as int)
  }

  function DigitChar(d: nat): (c: char)
    requires d < 10
    ensures IsDigit(c) && c as int - '0' as int == d
  {
    ('0' as int + d) as char
  }

  /** Decimal digits of `n`, no leading zero. */
  function Decimal(n: nat): (s: string)
    ensures |s| >= 1 && AllDigits(s) && DigitsValue(s) == n
    ensures n < 10 ==> |s| == 1
    ensures 10 <= n < 100 ==> |s| == 2
    ensures 1000 <= n < 10000 ==> |s| == 4
    ensures n > 0 ==> s[0] != '0'
  {
    if n < 10 then
      var s := [DigitChar(n)];
      assert s[..0] == [];
      s
    else
      var hi := Decimal(n / 10);
      var s := hi + [DigitChar(n % 10)];
      assert s[..|s| - 1] == hi;
      s
  }

  /** Length of the leading run of ASCII digits. */
  function DigitRun(s: string): (n: nat)
    ensures n <= |s| && AllDigits(s[..n])
    ensures n < |s| ==> !IsDigit(s[n])
    decreases |s|
  {
    if |s| == 0 || !IsDigit(s[0]) then 0 else 1 + DigitRun(s[1..])
  }
}
