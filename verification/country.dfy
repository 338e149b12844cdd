/** `clean_country`: parentheses are deleted from the `countries` text. */
module Country {
  import opened Prelude
  import opened Text

  const Parens: set<char> := {'(', ')'}

  /** `re.sub(r'[()]', '', text)`, the canonical rule. */
  function CleanCountry(s: string): (r: string)
    ensures forall k :: 0 <= k < |r| ==> r[k] != '(' && r[k] != ')'
    ensures (forall k :: 0 <= k < |s| ==> s[k] != '(' && s[k] != ')') ==> r == s
  {
    DropChars(s, Parens)
  }

  /** `text.replace('(', '').replace(')', '')`, the older rule: two literal
      replacements. */
  function CleanCountryLegacy(s: string): string {
    ReplaceAll(ReplaceAll(s, "(", ""), ")", "")
  }

  /** One cell of the stage. */
  function CountryCell(cell: Option<string>, legacy: bool): (r: Option<string>)
    ensures r.None? <==> cell.None?
    ensures r.Some? ==> r.value == CleanCountry(cell.value)
  {
    match cell
    case None => None
    case Some(s) =>
      if legacy then
        LegacyAgrees(s);
        Some(CleanCountryLegacy(s))
      else Some(CleanCountry(s))
  }

  /** The stage over the column: a non-empty column without any text makes
      the `.str` accessor fail; otherwise every present cell is cleaned. */
  function CleanCountries(cells: seq<Option<string>>, legacy: bool): (r: Result<seq<Option<string>>>)
    ensures r.Ok? <==> |cells| == 0 || exists i :: 0 <= i < |cells| && cells[i].Some?
    ensures r.Ok? ==> |r.value| == |cells|
    ensures r.Ok? ==> forall i :: 0 <= i < |cells| ==>
      (cells[i].None? <==> r.value[i].None?)
      && (cells[i].Some? ==> r.value[i].value == CleanCountry(cells[i].value))
  {
    if |cells| > 0 && forall i :: 0 <= i < |cells| ==> cells[i].None? then
      Err(NoText("countries"))
    else
      Ok(seq(|cells|, i requires 0 <= i < |cells| => CountryCell(cells[i], legacy)))
  }

  /** The older copy cleans the column exactly as the canonical one. */
  lemma LegacyColumnAgrees(cells: seq<Option<string>>)
    ensures CleanCountries(cells, true) == CleanCountries(cells, false)
  {
    var x := seq(|cells|, i requires 0 <= i < |cells| => CountryCell(cells[i], true));
    var y := seq(|cells|, i requires 0 <= i < |cells| => CountryCell(cells[i], false));
    assert forall i :: 0 <= i < |cells| ==> x[i] == y[i];
    assert x == y;
  }

  /** Deleting characters distributes over concatenation. */
  lemma {:induction false} DropCharsAppend(a: string, b: string, cs: set<char>)
    ensures DropChars(a + b, cs) == DropChars(a, cs) + DropChars(b, cs)
    decreases |a|
  {
    if |a| > 0 {
      assert (a + b)[1..] == a[1..] + b;
      DropCharsAppend(a[1..], b, cs);
    } else {
      assert a + b == b;
    }
  }

  /** Deleting the characters of `cs` keeps every other character, in
      order: on one character it is the character or nothing. */
  lemma DropOneChar(c: char, cs: set<char>)
    ensures DropChars([c], cs) == if c in cs then "" else [c]
  {
    assert [c][1..] == [];
  }

  /** Cleaning keeps every character other than a parenthesis, in order:
      it works character by character, deleting `(` and `)` and keeping
      anything else. */
  lemma {:induction false} CleanCountryKeeps(a: string, b: string, c: char)
    ensures CleanCountry(a + b) == CleanCountry(a) + CleanCountry(b)
    ensures CleanCountry([c]) == if c in Parens then "" else [c]
  {
    DropCharsAppend(a, b, Parens);
    DropOneChar(c, Parens);
  }

  /** Cleaning twice is cleaning once. */
  lemma CleanCountryIdempotent(s: string)
    ensures CleanCountry(CleanCountry(s)) == CleanCountry(s)
  {
  }

  /** `text.replace(c, '')` for a one-character `c` deletes every `c`. */
  lemma {:induction false} ReplaceCharByNothing(s: string, c: char)
    ensures ReplaceAll(s, [c], "") == DropChars(s, {c})
    decreases |s|
  {
    match Find(s, [c])
    case None =>
      forall k | 0 <= k < |s| ensures s[k] != c {
        if s[k] == c {
          assert s[k..k + 1] == [c];
          assert OccursAt(s, [c], k);
        }
      }
    case Some(i) =>
      var pre := s[..i];
      var rest := s[i + 1..];
      forall k | 0 <= k < i ensures pre[k] != c {
        assert !OccursAt(s, [c], k);
        assert s[k..k + 1] == [s[k]];
      }
      ReplaceAllAt(s, [c], "", i);
      ReplaceCharByNothing(rest, c);
      var d := DropChars(rest, {c});
      assert pre + "" == pre;
      assert ReplaceAll(s, [c], "") == pre + d;
      assert s == pre + [c] + rest;
      DropCharsAt(pre, c, rest);
  }

  /** Deleting `c` from text whose first `c` follows `pre` keeps `pre`. */
  lemma DropCharsAt(pre: string, c: char, rest: string)
    requires forall k :: 0 <= k < |pre| ==> pre[k] != c
    ensures DropChars(pre + [c] + rest, {c}) == pre + DropChars(rest, {c})
  {
    assert forall k :: 0 <= k < |pre| ==> pre[k] !in {c};
    assert DropChars(pre, {c}) == pre;
    DropCharsAppend(pre, [c], {c});
    DropOneChar(c, {c});
    assert DropChars(pre + [c], {c}) == pre + "" == pre;
    DropCharsAppend(pre + [c], rest, {c});
  }

  /** Deleting one set of characters and then another deletes both. */
  lemma {:induction false} DropCharsTwice(s: string, a: set<char>, b: set<char>)
    ensures DropChars(DropChars(s, a), b) == DropChars(s, a + b)
    decreases |s|
  {
    if |s| > 0 {
      DropCharsTwice(s[1..], a, b);
      var head := if s[0] in a then "" else [s[0]];
      DropCharsAppend(head, DropChars(s[1..], a), b);
      if s[0] !in a {
        DropOneChar(s[0], b);
      }
    }
  }

  /** The two literal replacements of the older rule give the canonical
      result. */
  lemma LegacyAgrees(s: string)
    ensures CleanCountryLegacy(s) == CleanCountry(s)
  {
    ReplaceCharByNothing(s, '(');
    ReplaceCharByNothing(DropChars(s, {'('}), ')');
    DropCharsTwice(s, {'('}, {')'});
    assert {'('} + {')'} == Parens;
  }

  /** A parenthesised suffix loses its parentheses and keeps its text. */
  lemma CleanParenthesised(a: string, b: string)
    requires forall k :: 0 <= k < |a| ==> a[k] !in Parens
    requires forall k :: 0 <= k < |b| ==> b[k] !in Parens
    ensures CleanCountry(a + "(" + b + ")") == a + b
  {
    DropCharsAppend(a + "(" + b, ")", Parens);
    DropCharsAppend(a + "(", b, Parens);
    DropCharsAppend(a, "(", Parens);
    DropOneChar('(', Parens);
    DropOneChar(')', Parens);
  }

  /** "United Kingdom (UK)" becomes "United Kingdom UK". */
  lemma ScenarioUnitedKingdom()
    ensures CleanCountry("United Kingdom (UK)") == "United Kingdom UK"
  {
    var a, b := "United Kingdom ", "UK";
    forall k | 0 <= k < |a| ensures a[k] !in Parens {
      assert a[k] in "United Kingdom ";
    }
    forall k | 0 <= k < |b| ensures b[k] !in Parens {
      assert b[k] in "UK";
    }
    CleanParenthesised(a, b);
    assert a + "(" + b + ")" == "United Kingdom (UK)";
    assert a + b == "United Kingdom UK";
  }
}
