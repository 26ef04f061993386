/**
 * Text helpers shared by every package: decimal formatting as done by `%d`
 * and `strconv.Itoa`, decimal parsing as done by `strconv.Atoi` on a 64-bit
 * platform, and the fact that a string joined around a separator the left
 * part does not contain can be split back apart.
 */
module Text {
  import opened Wrappers

  const MinInt64: int := -0x8000_0000_0000_0000
  const MaxInt64: int := 0x7fff_ffff_ffff_ffff

  predicate IsDigit(c: char) {
    '0' <= c <= '9'
  }

  predicate AllDigits(s: string) {
    forall i :: 0 <= i < |s| ==> IsDigit(s[i])
  }

  function DigitChar(d: nat): (c: char)
    requires d < 10
    ensures IsDigit(c)
  {
    (d + '0' as int) as char
  }

  function DigitValue(c: char): (d: nat)
    requires IsDigit(c)
    ensures d < 10 && DigitChar(d) == c
  {
    c as int - '0' as int
  }

  /** The decimal digits of `n`, most significant first, with no leading zero. */
  function NatDigits(n: nat): (s: string)
    ensures s != [] && AllDigits(s)
    decreases n
  {
    if n < 10 then [DigitChar(n)] else NatDigits(n / 10) + [DigitChar(n % 10)]
  }

  /** The number a string of decimal digits denotes. */
  function DigitsValue(s: string): nat
    requires AllDigits(s)
  {
    if s == [] then 0 else DigitsValue(s[..|s| - 1]) * 10 + DigitValue(s[|s| - 1])
  }

  lemma {:induction false} DigitsValueOfNatDigits(n: nat)
    ensures DigitsValue(NatDigits(n)) == n
    decreases n
  {
    if n >= 10 {
      var s := NatDigits(n);
      assert s[..|s| - 1] == NatDigits(n / 10);
      DigitsValueOfNatDigits(n / 10);
    }
  }

  /** `fmt.Sprintf("%d", n)`: an optional minus sign, then the digits of |n|. */
  function FormatDecimal(n: int): (s: string)
  {
    if n < 0 then "-" + NatDigits(-n) else NatDigits(n)
  }

  /**
   * `strconv.Atoi` (equivalently `strconv.ParseInt(s, 10, 64)`): an optional
   * `+` or `-`, then at least one decimal digit and nothing else; a value that
   * does not fit in 64 bits is an error.
   */
  function ParseDecimal(s: string): (r: Option<int>)
    ensures r.Some? ==> MinInt64 <= r.value <= MaxInt64
    ensures r.Some? ==> s != [] && (IsDigit(s[0]) || s[0] == '+' || s[0] == '-')
  {
    var signed := |s| > 0 && (s[0] == '+' || s[0] == '-');
    var digits := if signed then s[1..] else s;
    if digits == [] || !AllDigits(digits) then None
    else
      var magnitude: int := DigitsValue(digits);
      var v := if signed && s[0] == '-' then -magnitude else magnitude;
      if MinInt64 <= v <= MaxInt64 then Some(v) else None
  }

  /** Parsing what `%d` printed gives the number back, for every 64-bit value. */
  lemma ParseFormatRoundTrip(n: int)
    requires MinInt64 <= n <= MaxInt64
    ensures ParseDecimal(FormatDecimal(n)) == Some(n)
  {
    if n < 0 {
      assert ("-" + NatDigits(-n))[1..] == NatDigits(-n);
      DigitsValueOfNatDigits(-n);
    } else {
      DigitsValueOfNatDigits(n);
    }
  }

  /** Distinct numbers print differently. */
  lemma FormatDecimalInjective(a: int, b: int)
    ensures FormatDecimal(a) == FormatDecimal(b) <==> a == b
  {
    if FormatDecimal(a) == FormatDecimal(b) {
      FormatDecimalSign(a);
      FormatDecimalSign(b);
      if a < 0 {
        NatDigitsInjective(-a, -b);
      } else {
        NatDigitsInjective(a, b);
      }
    }
  }

  lemma FormatDecimalSign(n: int)
    ensures FormatDecimal(n)[0] == '-' <==> n < 0
    ensures n < 0 ==> FormatDecimal(n)[1..] == NatDigits(-n)
  {
    if n < 0 {
      assert ("-" + NatDigits(-n))[1..] == NatDigits(-n);
    } else {
      assert IsDigit(NatDigits(n)[0]);
    }
  }

  lemma NatDigitsInjective(a: nat, b: nat)
    ensures NatDigits(a) == NatDigits(b) ==> a == b
  {
    DigitsValueOfNatDigits(a);
    DigitsValueOfNatDigits(b);
  }

  /** The position of the first `c` in `s`. */
  function FirstIndex(s: string, c: char): (i: nat)
    requires c in s
    ensures i < |s| && s[i] == c && c !in s[..i]
  {
    if s[0] == c then 0 else 1 + FirstIndex(s[1..], c)
  }

  lemma {:induction false} FirstIndexOfJoin(x: string, y: string, c: char)
    requires c !in x
    ensures c in x + [c] + y && FirstIndex(x + [c] + y, c) == |x|
  {
    if x != [] {
      assert (x + [c] + y)[1..] == x[1..] + [c] + y;
      FirstIndexOfJoin(x[1..], y, c);
    }
  }

  /**
   * `x + sep + y` determines `x` and `y` when `x` does not contain `sep`:
   * the first separator is the one that was inserted.
   */
  lemma SplitAtSeparator(x: string, y: string, x': string, y': string, sep: char)
    requires sep !in x && sep !in x'
    requires x + [sep] + y == x' + [sep] + y'
    ensures x == x' && y == y'
  {
    var s := x + [sep] + y;
    FirstIndexOfJoin(x, y, sep);
    FirstIndexOfJoin(x', y', sep);
    assert x == s[..|x|] && y == s[|x| + 1..];
    assert x' == s[..|x'|] && y' == s[|x'| + 1..];
  }
}
