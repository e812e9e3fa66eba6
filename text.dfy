/**
  String helpers shared by the model: prefix and suffix tests, the character
  classes the source's regular expressions use, decimal numerals, and the
  leftmost-position search that a JavaScript regular-expression match performs.
*/
module JsText {
  import opened Wrappers

  predicate StartsWith(s: string, prefix: string)
  {
    |prefix| <= |s| && s[..|prefix|] == prefix
  }

  predicate EndsWith(s: string, suffix: string)
  {
    |suffix| <= |s| && s[|s| - |suffix|..] == suffix
  }

  /** `\d` in a JavaScript regular expression: the ASCII digits only. */
  predicate IsDigit(c: char)
  {
    '0' <= c <= '9'
  }

  predicate AllDigits(s: string)
  {
    forall i :: 0 <= i < |s| ==> IsDigit(s[i])
  }

  /** The characters that `.` does not match (ECMAScript LineTerminator). */
  predicate IsLineTerminator(c: char)
  {
    c == '\n' || c == '\r' || c as int == 0x2028 || c as int == 0x2029
  }

  /** The characters `parseInt` skips before the number (StrWhiteSpaceChar). */
  predicate IsJsWhiteSpace(c: char)
  {
    var x := c as int;
    x == 0x09 || x == 0x0B || x == 0x0C || x == 0x20 || x == 0xA0 || x == 0xFEFF
    || x == 0x1680 || (0x2000 <= x <= 0x200A) || x == 0x202F || x == 0x205F || x == 0x3000
    || IsLineTerminator(c)
  }

  function DigitValue(c: char): (d: nat)
    requires IsDigit(c)
    ensures d < 10
  {
    c as int - '0' as int
  }

  function DigitChar(d: nat): (c: char)
    requires d < 10
    ensures IsDigit(c) && DigitValue(c) == d
  {
    ('0' as int + d) as char
  }

  /** The value of a string of decimal digits, read most significant first. */
  function DigitsValue(s: string): nat
    requires AllDigits(s)
  {
    if s == [] then 0 else 10 * DigitsValue(s[..|s| - 1]) + DigitValue(s[|s| - 1])
  }

  /**
    The decimal numeral JavaScript prints for a non-negative integer: digits
    only, no leading zero, and reading it back gives the number.
  */
  function NatToString(n: nat): (r: string)
    ensures |r| > 0 && AllDigits(r)
    ensures r[0] == '0' ==> n == 0 && |r| == 1
    ensures DigitsValue(r) == n
  {
    if n < 10 then [DigitChar(n)]
    else
      var prefix := NatToString(n / 10);
      var r := prefix + [DigitChar(n % 10)];
      assert r[..|r| - 1] == prefix;
      r
  }

  /** JavaScript's `String(n)` for an integer `n`. */
  function IntToString(n: int): (r: string)
    ensures |r| > 0
    ensures n < 0 <==> r[0] == '-'
    ensures n >= 0 ==> r == NatToString(n)
    ensures n < 0 ==> r[1..] == NatToString(-n)
  {
    if n < 0 then "-" + NatToString(-n) else NatToString(n)
  }

  /**
    The end of the longest run of characters satisfying `p` that starts at
    `from`: a greedy `[...]*` in a regular expression.
  */
  function ScanWhile(s: string, from: nat, p: char -> bool): (r: nat)
    requires from <= |s|
    ensures from <= r <= |s|
    ensures forall i :: from <= i < r ==> p(s[i])
    ensures r < |s| ==> !p(s[r])
    decreases |s| - from
  {
    if from == |s| || !p(s[from]) then from else ScanWhile(s, from + 1, p)
  }

  /** A run that ends where `p` first fails is the run ScanWhile finds. */
  lemma ScanWhileIs(s: string, from: nat, p: char -> bool, e: nat)
    requires from <= e <= |s|
    requires forall i :: from <= i < e ==> p(s[i])
    requires e < |s| ==> !p(s[e])
    ensures ScanWhile(s, from, p) == e
  {
  }

  /**
    The least position in [lo, hi) where `p` holds: how a regular-expression
    search tries start positions from left to right and stops at the first match.
  */
  function FirstFrom(p: nat -> bool, lo: nat, hi: nat): (r: Option<nat>)
    ensures r.Some? ==> lo <= r.value < hi && p(r.value)
    ensures r.Some? ==> forall k: nat :: lo <= k < r.value ==> !p(k)
    ensures r.None? ==> forall k: nat :: lo <= k < hi ==> !p(k)
    decreases hi - lo
  {
    if hi <= lo then None
    else if p(lo) then Some(lo)
    else FirstFrom(p, lo + 1, hi)
  }

  /** A digit string without a leading zero is the numeral of its value. */
  lemma {:induction false} CanonicalNumeral(s: string)
    requires AllDigits(s) && |s| > 0
    requires s[0] != '0' || |s| == 1
    ensures NatToString(DigitsValue(s)) == s
    decreases |s|
  {
    var n := DigitsValue(s);
    var init := s[..|s| - 1];
    if |s| == 1 {
      assert init == [];
      assert DigitsValue(init) == 0;
      assert n == DigitValue(s[0]);
      assert NatToString(n) == [DigitChar(n)];
      assert DigitChar(n) == s[0];
    } else {
      assert init[0] == s[0];
      CanonicalNumeral(init);
      var m := DigitsValue(init);
      assert n / 10 == m && n % 10 == DigitValue(s[|s| - 1]);
      assert n >= 10;
      assert NatToString(n) == NatToString(m) + [DigitChar(n % 10)];
      assert DigitChar(n % 10) == s[|s| - 1];
      assert s == init + [s[|s| - 1]];
    }
  }
}
