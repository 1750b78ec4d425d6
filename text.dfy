/** Character-level helpers: the case-insensitive substring test behind the
    store's `contains ... mode: 'insensitive'` filters, and decimal rendering
    and parsing of integers (template-literal interpolation of an id,
    `parseInt`, and the `isInt` check of the validator library). */
module Text {
  import opened Wrappers

  /** Case folding of one character (ASCII letters only). */
  function Fold(c: char): (d: char)
    ensures 'A' <= c <= 'Z' ==> d as int == c as int + 32
    ensures !('A' <= c <= 'Z') ==> d == c
  {
    if 'A' <= c <= 'Z' then (c as int + 32) as char else c
  }

  function FoldAll(s: string): (r: string)
    ensures |r| == |s|
    ensures forall i :: 0 <= i < |s| ==> r[i] == Fold(s[i])
  {
    seq(|s|, i requires 0 <= i < |s| => Fold(s[i]))
  }

  /** `sub` occurs in `s` at position `i`. */
  predicate OccursAt(sub: string, s: string, i: int)
  {
    0 <= i && i + |sub| <= |s| && s[i..i + |sub|] == sub
  }

  predicate IsSubstring(sub: string, s: string)
  {
    exists i :: 0 <= i <= |s| - |sub| && OccursAt(sub, s, i)
  }

  /** The store's case-insensitive `contains` filter on a text column. */
  predicate ContainsInsensitive(hay: string, needle: string)
  {
    IsSubstring(FoldAll(needle), FoldAll(hay))
  }

  /** A `contains` filter on a nullable column: a null never matches. */
  predicate ColumnContains(column: Option<string>, needle: string)
  {
    column.Some? && ContainsInsensitive(column.value, needle)
  }

  lemma FoldIdempotent(s: string)
    ensures FoldAll(FoldAll(s)) == FoldAll(s)
  {
  }

  /** Folding the needle or the column first changes nothing: the filter
      ignores letter case on both sides. */
  lemma {:induction false} ContainsIgnoresCase(hay: string, needle: string)
    ensures ContainsInsensitive(hay, needle) == ContainsInsensitive(FoldAll(hay), FoldAll(needle))
  {
    FoldIdempotent(hay);
    FoldIdempotent(needle);
  }

  /** Folding the needle alone changes nothing either. */
  lemma FoldedNeedle(hay: string, needle: string)
    ensures ContainsInsensitive(hay, FoldAll(needle)) == ContainsInsensitive(hay, needle)
  {
    ContainsIgnoresCase(hay, needle);
    ContainsIgnoresCase(hay, FoldAll(needle));
    FoldIdempotent(needle);
  }

  /** Every column contains the empty needle at position 0. */
  lemma EmptyNeedleMatches(hay: string)
    ensures ContainsInsensitive(hay, "")
  {
    assert OccursAt(FoldAll(""), FoldAll(hay), 0);
  }

  // ---- decimal digits ----------------------------------------------------

  predicate IsDigit(c: char)
  {
    '0' <= c <= '9'
  }

  predicate AllDigits(s: string)
  {
    forall i :: 0 <= i < |s| ==> IsDigit(s[i])
  }

  function DigitChar(d: int): (c: char)
    requires 0 <= d < 10
    ensures IsDigit(c) && c as int - '0' as int == d
  {
    ('0' as int + d) as char
  }

  /** The value of a run of decimal digits, most significant first. */
  function DigitsValue(s: string): nat
    requires AllDigits(s)
  {
    if s == [] then 0
    else DigitsValue(s[..|s| - 1]) * 10 + (s[|s| - 1] as int - '0' as int)
  }

  /** The shortest decimal rendering of `n` (no leading zeros). */
  function NatToDecimal(n: nat): (r: string)
    ensures |r| >= 1 && AllDigits(r)
    ensures |r| > 1 ==> r[0] != '0'
  {
    if n < 10 then [DigitChar(n)] else NatToDecimal(n / 10) + [DigitChar(n % 10)]
  }

  /** How JavaScript interpolates an integer into a template literal. */
  function IntToDecimal(i: int): (r: string)
    ensures |r| >= 1
    ensures i < 0 <==> r[0] == '-'
  {
    if i < 0 then "-" + NatToDecimal(-i) else NatToDecimal(i)
  }

  /** Integer syntax accepted by the validator library's `isInt` (leading
      zeros allowed): an optional sign followed by at least one digit, read
      with the value `parseInt` gives it. */
  function ParseInteger(s: string): (r: Option<int>)
    ensures r.Some? <==> (|s| >= 1 && AllDigits(s)) || (|s| >= 2 && (s[0] == '+' || s[0] == '-') && AllDigits(s[1..]))
  {
    if |s| >= 2 && (s[0] == '+' || s[0] == '-') && AllDigits(s[1..]) then
      var v: int := DigitsValue(s[1..]);
      Some(if s[0] == '-' then -v else v)
    else if |s| >= 1 && AllDigits(s) then
      Some(DigitsValue(s))
    else
      None
  }

  lemma {:induction false} DigitsRoundTrip(n: nat)
    ensures DigitsValue(NatToDecimal(n)) == n
    decreases n
  {
    if n >= 10 {
      var r := NatToDecimal(n);
      assert r[..|r| - 1] == NatToDecimal(n / 10);
      DigitsRoundTrip(n / 10);
    }
  }

  /** Rendering an integer and parsing it back yields the same integer. */
  lemma IntRoundTrip(i: int)
    ensures ParseInteger(IntToDecimal(i)) == Some(i)
  {
    if i < 0 {
      DigitsRoundTrip(-i);
      assert IntToDecimal(i)[1..] == NatToDecimal(-i);
    } else {
      DigitsRoundTrip(i);
    }
  }

  /** The lines of a text block joined with `sep` between neighbours. */
  function Join(lines: seq<string>, sep: char): string
  {
    if |lines| == 0 then ""
    else if |lines| == 1 then lines[0]
    else lines[0] + [sep] + Join(lines[1..], sep)
  }

  /** The pieces of `s` between occurrences of `sep` (JavaScript's
      `split`): an empty text is one empty piece. */
  function Split(s: string, sep: char): (parts: seq<string>)
    ensures |parts| >= 1
  {
    if |s| == 0 then [""]
    else
      var rest := Split(s[1..], sep);
      if s[0] == sep then [""] + rest
      else [[s[0]] + rest[0]] + rest[1..]
  }

  lemma {:induction false} SplitWithout(a: string, sep: char)
    requires sep !in a
    ensures Split(a, sep) == [a]
  {
    if |a| > 0 {
      SplitWithout(a[1..], sep);
      assert [a[0]] + a[1..] == a;
    }
  }

  lemma {:induction false} SplitAfter(a: string, sep: char, b: string)
    requires sep !in a
    ensures Split(a + [sep] + b, sep) == [a] + Split(b, sep)
  {
    var s := a + [sep] + b;
    if |a| == 0 {
      assert s[1..] == b;
    } else {
      assert s[1..] == a[1..] + [sep] + b;
      SplitAfter(a[1..], sep, b);
      assert [a[0]] + a[1..] == a;
    }
  }

  /** Splitting a joined block gives its lines back, provided no line
      holds the separator itself. */
  lemma {:induction false} SplitJoin(lines: seq<string>, sep: char)
    requires |lines| >= 1
    requires forall i :: 0 <= i < |lines| ==> sep !in lines[i]
    ensures Split(Join(lines, sep), sep) == lines
  {
    if |lines| == 1 {
      SplitWithout(lines[0], sep);
    } else {
      SplitJoin(lines[1..], sep);
      SplitAfter(lines[0], sep, Join(lines[1..], sep));
      assert [lines[0]] + lines[1..] == lines;
    }
  }
}
