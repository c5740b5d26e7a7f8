/** The string operations the query engine applies to labels and cell text:
    Python's `str.lower`, `str.strip`, the `in` substring test, one-character
    `str.replace`, and the decimal parsing `pandas.to_numeric` performs on a
    string (with `errors="coerce"`, so a failure is a missing value). */
module Text {
  import opened Wrappers

  // ---------------------------------------------------------------- case

  /** The capitals `str.lower` maps in this model: ASCII A-Z and the Latin-1
      capitals U+00C0..U+00DE except the multiplication sign U+00D7. */
  predicate IsUpper(c: char) {
    ('A' <= c <= 'Z') || ('\U{C0}' <= c <= '\U{DE}' && c != '\U{D7}')
  }

  function LowerChar(c: char): (d: char)
    ensures !IsUpper(d)
    ensures !IsUpper(c) ==> d == c
  {
    if IsUpper(c) then (c as int + 32) as char else c
  }

  /** Python's `s.lower()`. */
  function Lower(s: string): (r: string)
    ensures |r| == |s|
    ensures forall i :: 0 <= i < |s| ==> r[i] == LowerChar(s[i])
    ensures forall i :: 0 <= i < |r| ==> !IsUpper(r[i])
  {
    seq(|s|, i requires 0 <= i < |s| => LowerChar(s[i]))
  }

  /** Lowering twice is lowering once. */
  lemma LowerIdempotent(s: string)
    ensures Lower(Lower(s)) == Lower(s)
  {
  }

  // ---------------------------------------------------------------- strip

  /** The characters Python's `str.strip()` removes (`str.isspace`). */
  predicate IsSpace(c: char) {
    c == ' ' || ('\t' <= c <= '\r') || ('\U{1C}' <= c <= '\U{1F}')
    || c == '\U{85}' || c == '\U{A0}' || c == '\U{1680}'
    || ('\U{2000}' <= c <= '\U{200A}') || c == '\U{2028}' || c == '\U{2029}'
    || c == '\U{202F}' || c == '\U{205F}' || c == '\U{3000}'
  }

  /** The number of whitespace characters that open `s`. */
  function LeadingSpaces(s: string): (n: nat)
    ensures n <= |s|
    ensures forall i :: 0 <= i < n ==> IsSpace(s[i])
    ensures n == |s| || !IsSpace(s[n])
  {
    if |s| > 0 && IsSpace(s[0]) then 1 + LeadingSpaces(s[1..]) else 0
  }

  /** The number of whitespace characters that close `s`. */
  function TrailingSpaces(s: string): (n: nat)
    ensures n <= |s|
    ensures forall i :: |s| - n <= i < |s| ==> IsSpace(s[i])
    ensures n == |s| || !IsSpace(s[|s| - 1 - n])
  {
    if |s| > 0 && IsSpace(s[|s| - 1]) then 1 + TrailingSpaces(s[..|s| - 1]) else 0
  }

  /** Python's `s.strip()`: the longest slice of `s` that neither starts nor
      ends with whitespace, found by dropping whitespace from both ends. */
  function Trim(s: string): (r: string)
    ensures |r| <= |s|
    ensures r == [] || (!IsSpace(r[0]) && !IsSpace(r[|r| - 1]))
    ensures var a := LeadingSpaces(s);
              a + |r| <= |s| && r == s[a..a + |r|]
              && forall k :: a + |r| <= k < |s| ==> IsSpace(s[k])
  {
    var a := LeadingSpaces(s);
    var t := s[a..];
    var b := TrailingSpaces(t);
    var r := t[..|t| - b];
    assert r == s[a..a + |r|];
    r
  }

  /** A string that neither starts nor ends with whitespace is its own strip. */
  lemma TrimOfTrimmed(s: string)
    requires s == [] || (!IsSpace(s[0]) && !IsSpace(s[|s| - 1]))
    ensures Trim(s) == s
  {
  }

  // ---------------------------------------------------------------- search and replace

  /** Python's `needle in hay` on strings: `needle` opens `hay` or occurs in
      its tail. */
  predicate Contains(hay: string, needle: string)
    decreases |hay|
  {
    needle <= hay || (|hay| > 0 && Contains(hay[1..], needle))
  }

  /** The substring test holds exactly when some suffix of `hay` starts with
      `needle`. */
  lemma {:induction false} ContainsIff(hay: string, needle: string)
    ensures Contains(hay, needle) <==> exists i :: 0 <= i <= |hay| && needle <= hay[i..]
    decreases |hay|
  {
    assert hay[0..] == hay;
    if |hay| > 0 {
      ContainsIff(hay[1..], needle);
      assert forall i :: 1 <= i <= |hay| ==> hay[i..] == hay[1..][i - 1..];
    }
  }

  /** Every string contains the empty string and itself. */
  lemma ContainsEmptyAndSelf(s: string)
    ensures Contains(s, "") && Contains(s, s)
  {
    assert "" <= s[0..] && s <= s[0..];
  }

  /** `s.replace(c, "")`: every occurrence of `c` dropped, the rest kept in order. */
  function RemoveChar(s: string, c: char): (r: string)
    ensures c !in r
    ensures forall d :: d != c ==> multiset(r)[d] == multiset(s)[d]
    ensures c !in s ==> r == s
  {
    if s == [] then []
    else
      var rest := RemoveChar(s[1..], c);
      assert s == [s[0]] + s[1..];
      if s[0] == c then rest else [s[0]] + rest
  }

  /** `s.replace(a, b)` for single characters `a` and `b`. */
  function ReplaceChar(s: string, a: char, b: char): (r: string)
    ensures |r| == |s|
  {
    if s == [] then [] else [if s[0] == a then b else s[0]] + ReplaceChar(s[1..], a, b)
  }

  /** Each `a` becomes `b` and every other character stays where it is. */
  lemma {:induction false} ReplaceCharAt(s: string, a: char, b: char, i: int)
    requires 0 <= i < |s|
    ensures ReplaceChar(s, a, b)[i] == if s[i] == a then b else s[i]
  {
    if i > 0 {
      ReplaceCharAt(s[1..], a, b, i - 1);
    }
  }

  /** A text without `a` is left as it is. */
  lemma {:induction false} ReplaceAbsent(s: string, a: char, b: char)
    requires a !in s
    ensures ReplaceChar(s, a, b) == s
  {
    if s != [] {
      assert s == [s[0]] + s[1..];
      ReplaceAbsent(s[1..], a, b);
    }
  }

  /** ReplaceChar works piecewise on a concatenation. */
  lemma {:induction false} ReplaceConcat(x: string, y: string, a: char, b: char)
    ensures ReplaceChar(x + y, a, b) == ReplaceChar(x, a, b) + ReplaceChar(y, a, b)
  {
    if x == [] {
      assert x + y == y;
    } else {
      assert (x + y)[0] == x[0];
      assert (x + y)[1..] == x[1..] + y;
      ReplaceConcat(x[1..], y, a, b);
    }
  }

  // ---------------------------------------------------------------- numbers

  predicate IsDigit(c: char) { '0' <= c <= '9' }

  predicate AllDigits(s: string) { forall i :: 0 <= i < |s| ==> IsDigit(s[i]) }

  function DigitValue(c: char): (d: nat)
    requires IsDigit(c)
    ensures d < 10
  {
    (c as int) - ('0' as int)
  }

  function DigitChar(d: nat): (c: char)
    requires d < 10
    ensures IsDigit(c) && DigitValue(c) == d
  {
    ('0' as int + d) as char
  }

  /** The number a string of decimal digits denotes (0 for the empty string). */
  function DigitsValue(s: string): nat
    requires AllDigits(s)
  {
    if s == [] then 0 else DigitsValue(s[..|s| - 1]) * 10 + DigitValue(s[|s| - 1])
  }

  /** The number of decimal digits that open `s`. */
  function LeadingDigits(s: string): (n: nat)
    ensures n <= |s|
    ensures forall i :: 0 <= i < n ==> IsDigit(s[i])
    ensures n == |s| || !IsDigit(s[n])
  {
    if |s| > 0 && IsDigit(s[0]) then 1 + LeadingDigits(s[1..]) else 0
  }

  /** The value of the digits after a decimal point, read digit by digit:
      "25" is (2 + 5/10)/10. */
  function Fraction(f: string): (v: real)
    requires AllDigits(f)
    ensures 0.0 <= v < 1.0
  {
    if f == [] then 0.0 else (DigitValue(f[0]) as real + Fraction(f[1..])) / 10.0
  }

  /** An unsigned decimal: digits, optionally followed by '.' and more digits,
      with at least one digit in all ("12", "12.", "12.5", ".5"). */
  function ParseUnsigned(s: string): Option<real> {
    var k := LeadingDigits(s);
    var whole := DigitsValue(s[..k]) as real;
    if k == |s| then
      if k > 0 then Some(whole) else None
    else if s[k] == '.' && AllDigits(s[k + 1..]) && (k > 0 || k + 1 < |s|) then
      Some(whole + Fraction(s[k + 1..]))
    else None
  }

  /** `pandas.to_numeric(s, errors="coerce")` on one string: an optional
      sign before an unsigned decimal; any other text is missing (None). */
  function ParseDecimal(s: string): Option<real> {
    if |s| > 0 && (s[0] == '-' || s[0] == '+') then
      match ParseUnsigned(s[1..])
      case Some(v) => Some(if s[0] == '-' then -v else v)
      case None => None
    else ParseUnsigned(s)
  }

  /** Python's `str(n)` for a natural number. */
  function NatText(n: nat): (s: string)
    ensures |s| > 0 && AllDigits(s)
  {
    if n < 10 then [DigitChar(n)] else NatText(n / 10) + [DigitChar(n % 10)]
  }

  /** Python's `str(i)` for an integer. */
  function IntText(i: int): string {
    if i < 0 then "-" + NatText(-i) else NatText(i)
  }

  lemma {:induction false} NatTextValue(n: nat)
    ensures DigitsValue(NatText(n)) == n
  {
    if n >= 10 {
      NatTextValue(n / 10);
      var s := NatText(n);
      assert s[..|s| - 1] == NatText(n / 10);
    }
  }

  lemma AllDigitsLeading(s: string)
    requires AllDigits(s)
    ensures LeadingDigits(s) == |s|
  {
  }

  /** Parsing undoes printing: `to_numeric(str(i)) == i` for every integer. */
  lemma ParseIntText(i: int)
    ensures ParseDecimal(IntText(i)) == Some(i as real)
  {
    var n: nat := if i < 0 then -i else i;
    NatTextValue(n);
    AllDigitsLeading(NatText(n));
    assert NatText(n)[..|NatText(n)|] == NatText(n);
    if i < 0 {
      assert IntText(i)[1..] == NatText(n);
    }
  }

  /** A decimal with a fraction parses to its whole part plus the fraction
      scaled by the fraction's length: "12.5" is 12 + 5/10. */
  lemma ParseFraction(w: nat, frac: string)
    requires AllDigits(frac)
    ensures ParseDecimal(NatText(w) + "." + frac)
            == Some(w as real + Fraction(frac))
  {
    NatTextValue(w);
    ParseDigitsDotDigits(NatText(w), frac);
  }

  lemma ParseDigitsDotDigits(d: string, f: string)
    requires |d| > 0 && AllDigits(d) && AllDigits(f)
    ensures ParseDecimal(d + "." + f) == Some(DigitsValue(d) as real + Fraction(f))
  {
    var s := d + "." + f;
    assert s[..|d|] == d && s[|d| + 1..] == f;
    ParseAtPoint(s, |d|);
    assert IsDigit(s[0]);
  }

  lemma ParseAtPoint(s: string, k: nat)
    requires 0 < k < |s| && s[k] == '.' && AllDigits(s[..k]) && AllDigits(s[k + 1..])
    ensures ParseUnsigned(s) == Some(DigitsValue(s[..k]) as real + Fraction(s[k + 1..]))
  {
    LeadingDigitsStops(s, k);
  }

  lemma LeadingDigitsStops(s: string, k: nat)
    requires k < |s| && !IsDigit(s[k])
    requires forall i :: 0 <= i < k ==> IsDigit(s[i])
    ensures LeadingDigits(s) == k
  {
    if k > 0 {
      LeadingDigitsStops(s[1..], k - 1);
    }
  }

  /** Text without a single digit is never a number. */
  lemma NoDigitNoNumber(s: string)
    requires forall i :: 0 <= i < |s| ==> !IsDigit(s[i])
    ensures ParseDecimal(s) == None
  {
  }
}
