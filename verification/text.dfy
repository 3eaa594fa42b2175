/**
 The string primitives the registration form relies on: `String.prototype.trim`,
 the ASCII digit class `\d`, `parseInt(raw, 10)` on a digit string, and the
 decimal rendering of a year inside a template literal.
 */
module Text {

  /** The characters ECMAScript's `trim` removes: the WhiteSpace code points
      (TAB, VT, FF, SPACE, NBSP, ZWNBSP and the other space separators)
      and the LineTerminator code points (LF, CR, LS, PS). */
  predicate IsWhitespace(c: char)
    ensures IsWhitespace(c) <==> c as int in TrimmedCodePoints
    ensures IsWhitespace(c) ==> !IsDigit(c)
  {
    var n := c as int;
    n == 0x09 || n == 0x0A || n == 0x0B || n == 0x0C || n == 0x0D
    || n == 0x20 || n == 0xA0 || n == 0x1680
    || (0x2000 <= n <= 0x200A)
    || n == 0x2028 || n == 0x2029 || n == 0x202F || n == 0x205F
    || n == 0x3000 || n == 0xFEFF
  }

  /** The same code points, listed one by one as ECMAScript's WhiteSpace and
      LineTerminator tables (with the Unicode space separators) list them. */
  const TrimmedCodePoints: set<int> := {
    0x0009, 0x000A, 0x000B, 0x000C, 0x000D, 0x0020, 0x00A0, 0x1680,
    0x2000, 0x2001, 0x2002, 0x2003, 0x2004, 0x2005, 0x2006, 0x2007,
    0x2008, 0x2009, 0x200A, 0x2028, 0x2029, 0x202F, 0x205F, 0x3000, 0xFEFF
  }

  predicate AllWhitespace(s: string) {
    forall k :: 0 <= k < |s| ==> IsWhitespace(s[k])
  }

  /** Neither starts nor ends with whitespace. */
  predicate Unpadded(t: string) {
    t == [] || (!IsWhitespace(t[0]) && !IsWhitespace(t[|t| - 1]))
  }

  /** `t` is `s[i..j]`, everything outside `i..j` is whitespace, and `t` has no
      whitespace at either end. */
  predicate TrimAt(t: string, s: string, i: nat, j: nat) {
    i <= j <= |s| && t == s[i..j]
    && AllWhitespace(s[..i]) && AllWhitespace(s[j..]) && Unpadded(t)
  }

  /** `t` is what remains of `s` once a whitespace-only prefix and a
      whitespace-only suffix are cut off, leaving no whitespace at either end. */
  ghost predicate IsTrimOf(t: string, s: string) {
    exists i: nat, j: nat :: TrimAt(t, s, i, j)
  }

  /** Number of whitespace characters at the start of `s`. */
  function LeadingSpace(s: string): (n: nat)
    ensures n <= |s|
    ensures forall k :: 0 <= k < n ==> IsWhitespace(s[k])
    ensures n < |s| ==> !IsWhitespace(s[n])
  {
    if |s| == 0 || !IsWhitespace(s[0]) then 0 else 1 + LeadingSpace(s[1..])
  }

  /** Length of `s` without its trailing whitespace. */
  function ContentEnd(s: string): (n: nat)
    ensures n <= |s|
    ensures forall k :: n <= k < |s| ==> IsWhitespace(s[k])
    ensures n > 0 ==> !IsWhitespace(s[n - 1])
  {
    if |s| == 0 || !IsWhitespace(s[|s| - 1]) then |s| else ContentEnd(s[..|s| - 1])
  }

  /** `String.prototype.trim`. */
  function Trim(s: string): (r: string)
    ensures TrimAt(r, s, LeadingSpace(s), LeadingSpace(s) + |r|)
    ensures r == [] <==> AllWhitespace(s)
  {
    var i := LeadingSpace(s);
    var e := ContentEnd(s[i..]);
    var r := s[i..][..e];
    assert r == s[i..i + e];
    assert s[i + e..] == s[i..][e..];
    assert r != [] ==> r[0] == s[i];
    assert TrimAt(r, s, i, i + e);
    assert r == [] ==> AllWhitespace(s) by {
      if r == [] { assert s[..i] == s; }
    }
    r
  }

  /** Two non-empty trims of the same string cut at the same places. */
  lemma TrimAtUnique(s: string, t: string, i: nat, j: nat, t': string, i': nat, j': nat)
    requires TrimAt(t, s, i, j) && t != []
    requires TrimAt(t', s, i', j') && t' != []
    ensures i == i' && j == j'
  {
    assert s[i] == t[0] && s[j - 1] == t[|t| - 1];
    assert s[i'] == t'[0] && s[j' - 1] == t'[|t'| - 1];
    forall k | 0 <= k < i ensures IsWhitespace(s[k]) { assert s[k] == s[..i][k]; }
    forall k | 0 <= k < i' ensures IsWhitespace(s[k]) { assert s[k] == s[..i'][k]; }
    forall k | j <= k < |s| ensures IsWhitespace(s[k]) { assert s[k] == s[j..][k - j]; }
    forall k | j' <= k < |s| ensures IsWhitespace(s[k]) { assert s[k] == s[j'..][k - j']; }
  }

  /** An empty trim means the whole string is whitespace. */
  lemma EmptyTrimAt(s: string, i: nat, j: nat)
    requires TrimAt([], s, i, j)
    ensures AllWhitespace(s)
  {
    forall k | 0 <= k < |s| ensures IsWhitespace(s[k]) {
      if k < i { assert s[k] == s[..i][k]; } else { assert s[k] == s[j..][k - j]; }
    }
  }

  /** Trimming is characterised by `IsTrimOf`: there is exactly one way to
      cut whitespace off both ends of a string. */
  lemma TrimUnique(t: string, s: string)
    requires IsTrimOf(t, s)
    ensures t == Trim(s)
  {
    var i: nat, j: nat :| TrimAt(t, s, i, j);
    var r := Trim(s);
    var i', j' := LeadingSpace(s), LeadingSpace(s) + |r|;
    if t == [] {
      EmptyTrimAt(s, i, j);
    } else {
      assert !IsWhitespace(s[i]) by { assert s[i] == t[0]; }
      assert r != [];
      TrimAtUnique(s, t, i, j, r, i', j');
    }
  }

  /** Whitespace around an unpadded text is exactly what `trim` removes. */
  lemma TrimPadded(front: string, t: string, back: string)
    requires AllWhitespace(front) && AllWhitespace(back) && Unpadded(t)
    ensures Trim(front + t + back) == t
  {
    var s := front + t + back;
    assert s[|front|..|front| + |t|] == t;
    assert s[..|front|] == front;
    assert s[|front| + |t|..] == back;
    assert TrimAt(t, s, |front|, |front| + |t|);
    TrimUnique(t, s);
  }

  /** Text with no whitespace at either end is left as it is. */
  lemma TrimUnpadded(t: string)
    requires Unpadded(t)
    ensures Trim(t) == t
  {
    TrimPadded("", t, "");
    assert "" + t + "" == t;
  }

  predicate IsDigit(c: char) {
    '0' <= c <= '9'
  }

  predicate AllDigits(s: string) {
    forall k :: 0 <= k < |s| ==> IsDigit(s[k])
  }

  /** Matches `/^\d+$/`: one or more ASCII digits and nothing else. */
  predicate IsNumeral(s: string)
    ensures IsNumeral(s) ==> Unpadded(s)
  {
    |s| > 0 && AllDigits(s)
  }

  /** Matches `/^\d{5}$/`. */
  predicate IsFiveDigits(s: string)
    ensures IsFiveDigits(s) ==> IsNumeral(s) && DigitsValue(s) < 100000
  {
    |s| == 5 && AllDigits(s)
  }

  function DigitValue(c: char): nat {
    if IsDigit(c) then c as int - '0' as int else 0
  }

  /** The exact value of a string of decimal digits, most significant first
      (leading zeros allowed; non-digits count as 0): what `parseInt(s, 10)`
      computes, before its result is rounded to a double. */
  function DigitsValue(s: string): (r: nat)
    ensures r < Pow10(|s|)
    ensures IsNumeral(s) && s[0] != '0' ==> Pow10(|s| - 1) <= r
  {
    if |s| == 0 then 0 else 10 * DigitsValue(s[..|s| - 1]) + DigitValue(s[|s| - 1])
  }

  function Pow10(k: nat): (p: nat)
    ensures p >= 1
  {
    if k == 0 then 1 else 10 * Pow10(k - 1)
  }

  function DigitChar(d: nat): (c: char)
    requires d < 10
    ensures IsDigit(c) && DigitValue(c) == d
  {
    ('0' as int + d) as char
  }

  /** The decimal numeral of `n`, without leading zeros. */
  function Decimal(n: nat): (r: string)
    ensures IsNumeral(r)
    ensures Unpadded(r)
    ensures |r| > 1 ==> r[0] != '0'
  {
    if n < 10 then [DigitChar(n)] else Decimal(n / 10) + [DigitChar(n % 10)]
  }

  /** Parsing the rendered numeral gives back the number. */
  lemma {:induction false} DecimalRoundTrip(n: nat)
    ensures DigitsValue(Decimal(n)) == n
  {
    if n >= 10 {
      var p := Decimal(n / 10);
      var r := p + [DigitChar(n % 10)];
      assert r[..|r| - 1] == p;
      DecimalRoundTrip(n / 10);
    }
  }

  /** A leading zero does not change the value, as with `parseInt`. */
  lemma {:induction false} LeadingZeroIgnored(t: string)
    ensures DigitsValue("0" + t) == DigitsValue(t)
  {
    if t != [] {
      var u := "0" + t;
      assert u[..|u| - 1] == "0" + t[..|t| - 1];
      assert u[|u| - 1] == t[|t| - 1];
      LeadingZeroIgnored(t[..|t| - 1]);
    }
  }

  /** A numeral with a zero in front is still a numeral of the same value,
      and `trim` leaves it alone. */
  lemma ZeroNumeral(t: string)
    requires IsNumeral(t)
    ensures var z := "0" + t; Trim(z) == z && IsNumeral(z) && DigitsValue(z) == DigitsValue(t)
  {
    var z := "0" + t;
    assert z[|z| - 1] == t[|t| - 1];
    assert z[0] == '0';
    TrimUnpadded(z);
    LeadingZeroIgnored(t);
  }

  /** A number as a template literal renders it. */
  function IntText(n: int): (r: string)
    ensures r != []
    ensures n >= 0 ==> IsNumeral(r) && DigitsValue(r) == n
    ensures n >= 0 && |r| > 1 ==> r[0] != '0'
    ensures n < 0 ==> r[0] == '-' && IsNumeral(r[1..]) && DigitsValue(r[1..]) == -n
    ensures n < 0 && |r| > 2 ==> r[1] != '0'
  {
    if n < 0 then
      DecimalRoundTrip(-n);
      "-" + Decimal(-n)
    else
      DecimalRoundTrip(n);
      Decimal(n)
  }
}
