/** The pieces of Rust's integer and string behaviour the model relies on:
    the `i32` range and its truncating division, `char::is_whitespace`,
    `str::trim`, and the decimal rendering of `format!("{}", n)`. */
module Text {

  const MinI32: int := -0x8000_0000
  const MaxI32: int := 0x7fff_ffff

  /** Rust's `i32`. */
  type I32 = x: int | MinI32 <= x <= MaxI32

  /** Rust's `/` on integers rounds toward zero (Dafny's is Euclidean):
      the quotient never takes the opposite sign of the dividend. `TruncRem`
      states the division identity it completes, which with these signs
      leaves only the truncated quotient. */
  function TruncDiv(a: int, b: int): (q: int)
    requires b > 0
    ensures a >= 0 ==> q >= 0
    ensures a <= 0 ==> q <= 0
  {
    if a >= 0 then a / b else -((-a) / b)
  }

  /** Rust's `%` on integers takes the sign of the dividend: with
      `TruncDiv` it splits `a` into quotient times divisor plus a remainder
      smaller than the divisor in size. */
  function TruncRem(a: int, b: int): (r: int)
    requires b > 0
    ensures a == TruncDiv(a, b) * b + r
    ensures a >= 0 ==> 0 <= r < b
    ensures a < 0 ==> -b < r <= 0
  {
    if a >= 0 then a % b else -((-a) % b)
  }

  /** Rust's `char::is_whitespace`: the Unicode White_Space property. */
  predicate IsWhitespace(c: char) {
    || ('\t' <= c <= '\r')
    || c == ' '
    || c == '\U{0085}'
    || c == '\U{00A0}'
    || c == '\U{1680}'
    || ('\U{2000}' <= c <= '\U{200A}')
    || c == '\U{2028}'
    || c == '\U{2029}'
    || c == '\U{202F}'
    || c == '\U{205F}'
    || c == '\U{3000}'
  }

  predicate NoWhitespace(s: string) {
    forall i :: 0 <= i < |s| ==> !IsWhitespace(s[i])
  }

  /** Empty or whitespace only. */
  predicate Blank(s: string) {
    forall i :: 0 <= i < |s| ==> IsWhitespace(s[i])
  }

  /** `str::trim_start`. */
  function TrimStart(s: string): (r: string)
    ensures |r| <= |s| && r == s[|s| - |r|..]
    ensures |r| > 0 ==> !IsWhitespace(r[0])
  {
    if |s| > 0 && IsWhitespace(s[0]) then TrimStart(s[1..]) else s
  }

  /** `str::trim_end`. */
  function TrimEnd(s: string): (r: string)
    ensures |r| <= |s| && r == s[..|r|]
    ensures |r| > 0 ==> !IsWhitespace(r[|r| - 1])
  {
    if |s| > 0 && IsWhitespace(s[|s| - 1]) then TrimEnd(s[..|s| - 1]) else s
  }

  /** `str::trim`: neither end of the result is whitespace. */
  function Trim(s: string): (r: string)
    ensures |r| <= |s|
    ensures |r| > 0 ==> !IsWhitespace(r[0]) && !IsWhitespace(r[|r| - 1])
  {
    var t := TrimStart(s);
    var r := TrimEnd(t);
    assert |r| > 0 ==> r[0] == t[0];
    r
  }

  /** `trim_start` cuts off only whitespace. */
  lemma {:induction false} TrimStartCutsBlank(s: string)
    ensures Blank(s[..|s| - |TrimStart(s)|])
    decreases |s|
  {
    if |s| > 0 && IsWhitespace(s[0]) {
      var r := TrimStart(s[1..]);
      TrimStartCutsBlank(s[1..]);
      var cut := s[..|s| - |r|];
      forall k | 0 <= k < |cut|
        ensures IsWhitespace(cut[k])
      {
        if k > 0 {
          assert cut[k] == s[1..][..|s| - 1 - |r|][k - 1];
        }
      }
    }
  }

  /** `trim_end` cuts off only whitespace. */
  lemma {:induction false} TrimEndCutsBlank(s: string)
    ensures Blank(s[|TrimEnd(s)|..])
    decreases |s|
  {
    if |s| > 0 && IsWhitespace(s[|s| - 1]) {
      var r := TrimEnd(s[..|s| - 1]);
      TrimEndCutsBlank(s[..|s| - 1]);
      var cut := s[|r|..];
      forall k | 0 <= k < |cut|
        ensures IsWhitespace(cut[k])
      {
        if k < |s| - 1 - |r| {
          assert cut[k] == s[..|s| - 1][|r|..][k];
        }
      }
    }
  }

  /** `r` is the slice of `s` starting at `i`, and everything of `s` before
      and after it is whitespace. */
  predicate CutAt(s: string, i: int, r: string) {
    0 <= i <= |s| - |r| && r == s[i..i + |r|] && Blank(s[..i]) && Blank(s[i + |r|..])
  }

  /** `trim` gives a slice of its input and cuts off only whitespace, at
      either end. */
  lemma TrimSlice(s: string)
    ensures exists i :: CutAt(s, i, Trim(s))
  {
    var t := TrimStart(s);
    var r := TrimEnd(t);
    var i := |s| - |t|;
    TrimStartCutsBlank(s);
    TrimEndCutsBlank(t);
    assert Trim(s) == r;
    assert t == s[i..];
    assert r == s[i..i + |r|];
    assert s[i + |r|..] == t[|r|..];
    assert CutAt(s, i, r);
  }

  /** Trimming a string whose first and last characters are not whitespace
      gives the string back. */
  lemma TrimUntouched(s: string)
    requires |s| > 0 && !IsWhitespace(s[0]) && !IsWhitespace(s[|s| - 1])
    ensures Trim(s) == s
  {
  }

  /** Trimming `c + s`, with `c` whitespace and `s` bordered by non-whitespace,
      drops exactly `c`. */
  lemma TrimDropsLeadingSpace(c: char, s: string)
    requires IsWhitespace(c)
    requires |s| > 0 && !IsWhitespace(s[0]) && !IsWhitespace(s[|s| - 1])
    ensures Trim([c] + s) == s
  {
    assert ([c] + s)[1..] == s;
    assert TrimStart([c] + s) == TrimStart(s) == s;
  }

  predicate IsDigit(c: char) {
    '0' <= c <= '9'
  }

  predicate AllDigits(s: string) {
    forall i :: 0 <= i < |s| ==> IsDigit(s[i])
  }

  function DigitChar(d: nat): (c: char)
    requires d < 10
    ensures IsDigit(c) && c as int - '0' as int == d
  {
    ('0' as int + d) as char
  }

  function DigitValue(c: char): (d: nat)
    requires IsDigit(c)
    ensures d < 10 && DigitChar(d) == c
  {
    c as int - '0' as int
  }

  /** The decimal numeral of a natural number, as `format!("{}", n)` writes
      it: at least one digit and no leading zero. Its partner is
      `DecimalValue`, which reads the numeral back. */
  function NatToDecimal(n: nat): (r: string)
    ensures |r| >= 1 && AllDigits(r)
    ensures n > 0 ==> r[0] != '0'
    ensures DecimalValue(r) == n
  {
    if n < 10 then [DigitChar(n)]
    else
      var p := NatToDecimal(n / 10);
      var r := p + [DigitChar(n % 10)];
      assert r[..|r| - 1] == p;
      r
  }

  /** `format!("{}", n)` for any integer: a minus sign for negatives. */
  function IntToDecimal(n: int): (r: string)
    ensures |r| >= 1 && (r[0] == '-' <==> n < 0)
    ensures n >= 0 ==> AllDigits(r) && DecimalValue(r) == n && (|r| > 1 ==> r[0] != '0')
    ensures n < 0 ==> |r| >= 2 && AllDigits(r[1..]) && DecimalValue(r[1..]) == -n && r[1] != '0'
  {
    if n >= 0 then NatToDecimal(n) else ['-'] + NatToDecimal(-n)
  }

  /** The value of a string of decimal digits (leading zeros allowed). */
  function DecimalValue(s: string): nat
    requires AllDigits(s)
  {
    if |s| == 0 then 0
    else DecimalValue(s[..|s| - 1]) * 10 + DigitValue(s[|s| - 1])
  }

  /** A digit string that does not start with `0` has a positive value. */
  lemma {:induction false} DecimalValuePositive(s: string)
    requires |s| > 0 && AllDigits(s) && s[0] != '0'
    ensures DecimalValue(s) > 0
  {
    if |s| > 1 {
      DecimalValuePositive(s[..|s| - 1]);
    }
  }

  /** Reading a canonical numeral (no leading zero unless it is `0`) and
      writing the value back gives the same numeral. */
  lemma {:induction false} DecimalRoundTrip(s: string)
    requires |s| > 0 && AllDigits(s)
    requires |s| > 1 ==> s[0] != '0'
    ensures NatToDecimal(DecimalValue(s)) == s
  {
    if |s| > 1 {
      var p := s[..|s| - 1];
      DecimalValuePositive(p);
      DecimalRoundTrip(p);
      var n := DecimalValue(s);
      assert n / 10 == DecimalValue(p);
      assert n % 10 == DigitValue(s[|s| - 1]);
      assert s == p + [s[|s| - 1]];
    }
  }
}
