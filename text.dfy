/**
 * String helpers the services rely on: decimal digits (`int.TryParse`,
 * `ToString()`, the "D2" format and fixed-width date fields), ordinal string
 * order (`OrderBy` on a string key), `Contains` and ASCII `ToLower`.
 */
module Text {
  import opened Wrappers
  import opened Seqs

  /** `int.MaxValue`. */
  const MaxInt: int := 2147483647

  predicate IsDigit(c: char)
  {
    '0' <= c <= '9'
  }

  predicate AllDigits(s: string)
  {
    forall i :: 0 <= i < |s| ==> IsDigit(s[i])
  }

  /** A non-empty run of decimal digits. */
  predicate IsDigitString(s: string)
  {
    |s| > 0 && AllDigits(s)
  }

  function DigitValue(c: char): nat
    requires IsDigit(c)
  {
    (c as int) - ('0' as int)
  }

  function DigitChar(d: nat): (c: char)
    requires d < 10
    ensures IsDigit(c) && DigitValue(c) == d
  {
    ('0' as int + d) as char
  }

  /** The value of a run of decimal digits, most significant first. */
  function DigitsValue(s: string): nat
    requires AllDigits(s)
    decreases |s|
  {
    if s == [] then 0 else DigitsValue(s[..|s| - 1]) * 10 + DigitValue(s[|s| - 1])
  }

  /** `n.ToString()` for a non-negative `n`: shortest decimal form. */
  function NatToString(n: nat): (s: string)
    ensures IsDigitString(s)
    ensures n < 10 <==> |s| == 1
    decreases n
  {
    if n < 10 then [DigitChar(n)] else NatToString(n / 10) + [DigitChar(n % 10)]
  }

  /** Reading back what `NatToString` wrote gives the number. */
  lemma {:induction false} NatToStringRoundTrip(n: nat)
    ensures DigitsValue(NatToString(n)) == n
    decreases n
  {
    if n >= 10 {
      NatToStringRoundTrip(n / 10);
      var s := NatToString(n / 10);
      assert (s + [DigitChar(n % 10)])[..|s|] == s;
    }
  }

  /** Distinct numbers are written differently. */
  lemma NatToStringInjective(m: nat, n: nat)
    requires NatToString(m) == NatToString(n)
    ensures m == n
  {
    NatToStringRoundTrip(m);
    NatToStringRoundTrip(n);
  }

  /** `i.ToString()`: a minus sign before the digits of a negative number. */
  function IntToString(i: int): (s: string)
    ensures |s| > 0
    ensures i >= 0 ==> IsDigitString(s)
    ensures i < 0 ==> s[0] == '-' && IsDigitString(s[1..])
  {
    if i < 0 then "-" + NatToString(-i) else NatToString(i)
  }

  /** `int.MinValue`. */
  const MinInt: int := -2147483648

  /** The white space `NumberStyles.Integer` allows around a number: U+0009..U+000D and the space. */
  predicate IsWhite(c: char)
  {
    c == ' ' || '\t' <= c <= '\r'
  }

  /** An optional sign followed by the digits: its value, if the digits are well formed. */
  function SignedValue(t: string): Option<int>
  {
    if t != [] && (t[0] == '-' || t[0] == '+') then
      if IsDigitString(t[1..]) then
        var magnitude: int := DigitsValue(t[1..]);
        Some(if t[0] == '-' then -magnitude else magnitude)
      else None
    else if IsDigitString(t) then Some(DigitsValue(t))
    else None
  }

  /**
   * `int.TryParse` under `NumberStyles.Integer`: white space around (dropped
   * one character at a time from either end), an optional '+' or '-', then
   * ASCII digits, and the value must fit in an `int`.
   */
  function TryParseInt(s: string): (r: Option<int>)
    ensures r.Some? ==> MinInt <= r.value <= MaxInt
    decreases |s|
  {
    if s != [] && IsWhite(s[0]) then TryParseInt(s[1..])
    else if s != [] && IsWhite(s[|s| - 1]) then TryParseInt(s[..|s| - 1])
    else
      var v := SignedValue(s);
      if v.Some? && MinInt <= v.value <= MaxInt then v else None
  }

  /** A run of digits whose value fits parses as that value. */
  lemma ParseDigits(s: string)
    requires IsDigitString(s) && DigitsValue(s) <= MaxInt
    ensures TryParseInt(s) == Some(DigitsValue(s))
  {
    assert !IsWhite(s[0]) && !IsWhite(s[|s| - 1]);
  }

  /** Parsing what `ToString()` wrote gives the number back, negative numbers included. */
  lemma ParseFormatRoundTrip(i: int)
    requires MinInt <= i <= MaxInt
    ensures TryParseInt(IntToString(i)) == Some(i)
  {
    var s := IntToString(i);
    if i < 0 {
      NatToStringRoundTrip(-i);
      assert s[1..] == NatToString(-i);
      assert !IsDigit('-');
    } else {
      NatToStringRoundTrip(i);
    }
    assert !IsWhite(s[0]) && !IsWhite(s[|s| - 1]);
  }

  /** Text that is not a sign-and-digits core never parses: names such as "A12" are skipped. */
  lemma {:induction false} ParseRejectsLetter(s: string)
    requires |s| > 0 && 'A' <= s[0] <= 'Z'
    ensures TryParseInt(s) == None
    decreases |s|
  {
    if IsWhite(s[|s| - 1]) {
      ParseRejectsLetter(s[..|s| - 1]);
    }
  }

  /** `i.ToString("D2")`: at least two digits, a minus sign kept in front. */
  function FormatD2(i: int): (s: string)
  {
    if i < 0 then "-" + PadTwo(-i) else PadTwo(i)
  }

  /** At least two digits: a single digit gets a leading zero. */
  function PadTwo(n: nat): (s: string)
    ensures IsDigitString(s) && |s| >= 2
  {
    if n < 10 then ['0', DigitChar(n)] else NatToString(n)
  }

  /** "D2" of a value in 0..99 is exactly two digits and reads back as the value. */
  lemma FormatD2TwoDigits(i: int)
    requires 0 <= i < 100
    ensures |FormatD2(i)| == 2 && AllDigits(FormatD2(i)) && DigitsValue(FormatD2(i)) == i
  {
    if i >= 10 {
      NatToStringRoundTrip(i);
      assert NatToString(i) == NatToString(i / 10) + [DigitChar(i % 10)];
    } else {
      var s := FormatD2(i);
      assert s == ['0', DigitChar(i)];
      assert s[..1] == ['0'] && ['0'][..0] == [];
      assert DigitsValue(['0']) == 0;
    }
  }

  function Pow10(w: nat): nat
  {
    if w == 0 then 1 else 10 * Pow10(w - 1)
  }

  /** A custom date field such as "yyyy" or "MM": `n` in exactly `width` digits, zero-padded. */
  function ZeroPad(n: nat, width: nat): (s: string)
    ensures |s| == width && AllDigits(s)
    decreases width
  {
    if width == 0 then [] else ZeroPad(n / 10, width - 1) + [DigitChar(n % 10)]
  }

  /** A zero-padded field reads back as the number whenever the number fits in it. */
  lemma {:induction false} ZeroPadRoundTrip(n: nat, width: nat)
    requires n < Pow10(width)
    ensures DigitsValue(ZeroPad(n, width)) == n
    decreases width
  {
    if width > 0 {
      ZeroPadRoundTrip(n / 10, width - 1);
      var s := ZeroPad(n / 10, width - 1);
      assert (s + [DigitChar(n % 10)])[..|s|] == s;
    }
  }

  // ----- ordinal order -----

  /** Ordinal (code point by code point) lexicographic order on strings. */
  predicate LexLe(a: string, b: string)
    decreases |a|
  {
    a == [] || (b != [] && (a[0] < b[0] || (a[0] == b[0] && LexLe(a[1..], b[1..]))))
  }

  lemma {:induction false} LexLeTotal(a: string, b: string)
    ensures LexLe(a, b) || LexLe(b, a)
    decreases |a|
  {
    if a != [] && b != [] && a[0] == b[0] {
      LexLeTotal(a[1..], b[1..]);
    }
  }

  lemma {:induction false} LexLeTransitive(a: string, b: string, c: string)
    requires LexLe(a, b) && LexLe(b, c)
    ensures LexLe(a, c)
    decreases |a|
  {
    if a != [] && a[0] == b[0] && b[0] == c[0] {
      LexLeTransitive(a[1..], b[1..], c[1..]);
    }
  }

  lemma {:induction false} LexLeAntisymmetric(a: string, b: string)
    requires LexLe(a, b) && LexLe(b, a)
    ensures a == b
    decreases |a|
  {
    if a != [] {
      LexLeAntisymmetric(a[1..], b[1..]);
      assert a == [a[0]] + a[1..] && b == [b[0]] + b[1..];
    }
  }

  /** String key, ascending, ordinal (`OrderBy(x => x.Name)`). */
  function ByText<T>(key: T -> string): (T, T) -> bool
  {
    (a: T, b: T) => LexLe(key(a), key(b))
  }

  lemma ByTextIsPreorder<T(!new)>(key: T -> string)
    ensures TotalPreorder(ByText(key))
  {
    forall a: T, b: T
      ensures ByText(key)(a, b) || ByText(key)(b, a)
    {
      LexLeTotal(key(a), key(b));
    }
    forall a: T, b: T, c: T | ByText(key)(a, b) && ByText(key)(b, c)
      ensures ByText(key)(a, c)
    {
      LexLeTransitive(key(a), key(b), key(c));
    }
  }

  // ----- searching and case -----

  /** `s.Contains(sub)`: `sub` occurs in `s` at some position (the empty string always does). */
  predicate Contains(s: string, sub: string)
    decreases |s|
  {
    sub <= s || (s != [] && Contains(s[1..], sub))
  }

  lemma {:induction false} ContainsAt(s: string, sub: string, k: nat)
    requires k + |sub| <= |s| && s[k..k + |sub|] == sub
    ensures Contains(s, sub)
    decreases k
  {
    if k > 0 {
      assert s[1..][k - 1..k - 1 + |sub|] == s[k..k + |sub|];
      ContainsAt(s[1..], sub, k - 1);
    }
  }

  function LowerChar(c: char): char
  {
    if 'A' <= c <= 'Z' then (c as int + 32) as char else c
  }

  /** `ToLower()` on ASCII letters; other characters are kept. */
  function ToLower(s: string): (r: string)
    ensures |r| == |s|
    ensures forall i :: 0 <= i < |s| ==> r[i] == LowerChar(s[i])
  {
    seq(|s|, i requires 0 <= i < |s| => LowerChar(s[i]))
  }

  /** The elements whose text key equals `c`'s. */
  function SameText<T>(key: T -> string, c: T): T -> bool
  {
    (y: T) => key(y) == key(c)
  }

  /** Sorting by a text key keeps the elements with equal keys in input order. */
  lemma SortByTextStable<T(!new)>(s: seq<T>, key: T -> string, c: T)
    ensures Filter(SortBy(s, ByText(key)), SameText(key, c)) == Filter(s, SameText(key, c))
  {
    ByTextIsPreorder(key);
    SortByStable(s, ByText(key), c);
    forall y: T
      ensures SameRank(ByText(key), c)(y) == SameText(key, c)(y)
    {
      LexLeTotal(key(c), key(c));
      if LexLe(key(c), key(y)) && LexLe(key(y), key(c)) {
        LexLeAntisymmetric(key(c), key(y));
      }
    }
    FilterCongruent(s, SameRank(ByText(key), c), SameText(key, c));
    FilterCongruent(SortBy(s, ByText(key)), SameRank(ByText(key), c), SameText(key, c));
  }
}
