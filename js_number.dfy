/**
 * The few JavaScript number operations the player relies on, over exact reals:
 * `Number(x.toFixed(d))`, `Math.round`, `Math.floor`, the `%` remainder and the
 * decimal/hexadecimal rendering of integers. Binary floating-point error is not modelled.
 */
module JsNumber {

  /** 10^digits as a real. */
  function Scale(digits: nat): (k: real)
    ensures k >= 1.0
  {
    if digits == 0 then 1.0 else 10.0 * Scale(digits - 1)
  }

  /**
   * `Number(x.toFixed(digits))`: the multiple of 10^-digits nearest to `x`; a tie goes
   * away from zero (toFixed rounds the magnitude and puts the sign back).
   */
  function ToFixed(x: real, digits: nat): real
  {
    RoundToGrid(x, Scale(digits))
  }

  /** The multiple of 1/k nearest to `x`, a tie going away from zero. */
  function RoundToGrid(x: real, k: real): real
    requires k > 0.0
  {
    if x >= 0.0 then Units(x, k) as real / k else -(Units(-x, k) as real / k)
  }

  /** The number of whole 1/k units in `x`, rounded half up. */
  function Units(x: real, k: real): int
  {
    (x * k + 0.5).Floor
  }

  lemma MulMono(x: real, y: real, k: real)
    requires x <= y && k > 0.0
    ensures x * k <= y * k
  {
    assert (y - x) * k >= 0.0;
  }

  lemma DivMono(p: real, q: real, k: real)
    requires p <= q && k > 0.0
    ensures p / k <= q / k
  {
    assert q / k - p / k == (q - p) / k;
  }

  lemma DivStrict(p: real, q: real, k: real)
    requires p < q && k > 0.0
    ensures p / k < q / k
  {
    assert q / k - p / k == (q - p) / k;
  }

  lemma DivOfProduct(a: real, k: real)
    requires k > 0.0
    ensures (a * k) / k == a
  {
  }

  lemma ProductOfDiv(a: real, k: real)
    requires k > 0.0
    ensures (a / k) * k == a
  {
  }

  lemma UnitsMono(x: real, y: real, k: real)
    requires x <= y && k > 0.0
    ensures Units(x, k) <= Units(y, k)
  {
    MulMono(x, y, k);
  }

  lemma UnitsNonNeg(x: real, k: real)
    requires x >= 0.0 && k > 0.0
    ensures Units(x, k) >= 0
  {
    MulMono(0.0, x, k);
  }

  /** Rounding never reverses the order of two numbers. */
  lemma ToFixedMonotone(x: real, y: real, digits: nat)
    requires x <= y
    ensures ToFixed(x, digits) <= ToFixed(y, digits)
  {
    var k := Scale(digits);
    if x >= 0.0 {
      UnitsMono(x, y, k);
      DivMono(Units(x, k) as real, Units(y, k) as real, k);
    } else if y >= 0.0 {
      ToFixedSign(x, digits);
      ToFixedSign(y, digits);
    } else {
      UnitsMono(-y, -x, k);
      DivMono(Units(-y, k) as real, Units(-x, k) as real, k);
    }
  }

  /** Rounding keeps the sign (a negative number may round to zero). */
  lemma ToFixedSign(x: real, digits: nat)
    ensures x >= 0.0 ==> ToFixed(x, digits) >= 0.0
    ensures x <= 0.0 ==> ToFixed(x, digits) <= 0.0
  {
    var k := Scale(digits);
    if x >= 0.0 {
      UnitsNonNeg(x, k);
      DivMono(0.0, Units(x, k) as real, k);
    } else {
      UnitsNonNeg(-x, k);
      DivMono(0.0, Units(-x, k) as real, k);
    }
  }

  /** A number already on the grid of multiples of 10^-digits is left as it is. */
  lemma ToFixedOnGrid(n: int, digits: nat)
    ensures ToFixed(n as real / Scale(digits), digits) == n as real / Scale(digits)
  {
    GridFixed(n, Scale(digits));
  }

  lemma GridFixed(n: int, k: real)
    requires k > 0.0
    ensures RoundToGrid(n as real / k, k) == n as real / k
  {
    var x := n as real / k;
    ProductOfDiv(n as real, k);
    if n >= 0 {
      DivMono(0.0, n as real, k);
      assert Units(x, k) == n;
    } else {
      var y := (-n) as real / k;
      ProductOfDiv((-n) as real, k);
      DivMono(0.0, (-n) as real, k);
      assert y == -x;
      assert x < 0.0;
      assert Units(y, k) == -n;
    }
  }

  lemma UnitsBounds(x: real, k: real)
    requires k > 0.0
    ensures x * k - 0.5 <= Units(x, k) as real <= x * k + 0.5
  {
  }

  lemma GridError(x: real, k: real)
    requires k > 0.0 && x >= 0.0
    ensures x - 0.5 / k <= Units(x, k) as real / k <= x + 0.5 / k
  {
    var f := Units(x, k) as real;
    var a := x * k;
    UnitsBounds(x, k);
    DivMono(a - 0.5, f, k);
    DivMono(f, a + 0.5, k);
    assert (a - 0.5) / k == a / k - 0.5 / k;
    assert (a + 0.5) / k == a / k + 0.5 / k;
    DivOfProduct(x, k);
  }

  /** Rounding moves a number by at most half a unit of the last kept digit. */
  lemma ToFixedError(x: real, digits: nat)
    ensures x - 0.5 / Scale(digits) <= ToFixed(x, digits) <= x + 0.5 / Scale(digits)
  {
    var k := Scale(digits);
    if x >= 0.0 {
      GridError(x, k);
    } else {
      GridError(-x, k);
    }
  }

  /** `Math.round`: the nearest integer, a tie going up (toward +infinity). */
  function Round(x: real): (n: int)
    ensures x - 0.5 < n as real <= x + 0.5
  {
    (x + 0.5).Floor
  }

  /** A whole number. */
  predicate IsWhole(y: real)
  {
    y.Floor as real == y
  }

  /**
   * The remainder of JavaScript's `%` on numbers: it takes the sign of the dividend,
   * is smaller than the divisor in magnitude and differs from the dividend by a whole
   * number of divisors.
   */
  function Rem(x: real, m: real): (r: real)
    requires m > 0.0
    ensures x >= 0.0 ==> 0.0 <= r < m
    ensures x <= 0.0 ==> -m < r <= 0.0
    ensures IsWhole((x - r) / m)
  {
    var q := if x >= 0.0 then (x / m).Floor else -((-x) / m).Floor;
    FloorTimes(if x >= 0.0 then x else -x, m);
    var r := x - q as real * m;
    WholeQuotient(x - r, q, m);
    r
  }

  lemma WholeQuotient(y: real, q: int, m: real)
    requires m > 0.0 && y == q as real * m
    ensures IsWhole(y / m)
  {
    DivOfProduct(q as real, m);
    assert y / m == q as real;
  }

  /** The three facts above pin `%` down: no other number has all of them. */
  lemma RemUnique(x: real, m: real, r: real)
    requires m > 0.0
    requires x >= 0.0 ==> 0.0 <= r < m
    requires x <= 0.0 ==> -m < r <= 0.0
    requires IsWhole((x - r) / m)
    ensures r == Rem(x, m)
  {
    SameRemainder(x, m, r, Rem(x, m));
  }

  lemma SameRemainder(x: real, m: real, r: real, r0: real)
    requires m > 0.0
    requires x >= 0.0 ==> 0.0 <= r < m && 0.0 <= r0 < m
    requires x <= 0.0 ==> -m < r <= 0.0 && -m < r0 <= 0.0
    requires IsWhole((x - r) / m) && IsWhole((x - r0) / m)
    ensures r == r0
  {
    var a, a0 := (x - r) / m, (x - r0) / m;
    ProductOfDiv(x - r, m);
    ProductOfDiv(x - r0, m);
    var j := a0.Floor - a.Floor;
    assert j as real == a0 - a;
    assert r - r0 == (a0 - a) * m;
    var p := (j as real) * m;
    assert r - r0 == p;
    assert -m < p < m;
    NoSmallMultiple(j, m, p);
  }

  /** Zero is the only whole multiple of `m` strictly between `-m` and `m`. */
  lemma NoSmallMultiple(j: int, m: real, p: real)
    requires m > 0.0 && p == (j as real) * m
    requires -m < p < m
    ensures p == 0.0
  {
    if j >= 1 {
      ScaledUp(j as real, m, p);
    } else if j <= -1 {
      ScaledDown(j as real, m, p);
    } else {
      ScaledByZero(j as real, m, p);
    }
  }

  lemma ScaledUp(y: real, m: real, p: real)
    requires y >= 1.0 && m > 0.0 && p == y * m
    ensures p >= m
  {
    MulMono(1.0, y, m);
    assert 1.0 * m == m;
  }

  lemma ScaledDown(y: real, m: real, p: real)
    requires y <= -1.0 && m > 0.0 && p == y * m
    ensures p <= -m
  {
    MulMono(y, -1.0, m);
    assert -1.0 * m == -m;
  }

  lemma ScaledByZero(y: real, m: real, p: real)
    requires y == 0.0 && p == y * m
    ensures p == 0.0
  {
    assert y * m == 0.0 * m;
  }

  lemma FloorTimes(x: real, m: real)
    requires m > 0.0
    ensures 0.0 <= x - (x / m).Floor as real * m < m
  {
    var q := x / m;
    var f := q.Floor as real;
    assert f <= q < f + 1.0;
    ProductOfDiv(x, m);
    MulMono(f, q, m);
    MulStrict(q, f + 1.0, m);
    assert (f + 1.0) * m == f * m + m;
    assert x < f * m + m;
    assert x - f * m < m;
  }

  lemma MulStrict(x: real, y: real, k: real)
    requires x < y && k > 0.0
    ensures x * k < y * k
  {
    assert (y - x) * k > 0.0;
  }

  /** A decimal digit character. */
  function DigitChar(d: nat): (c: char)
    requires d < 10
    ensures '0' <= c <= '9'
  {
    ('0' as int + d) as char
  }

  /** The value of a decimal digit character. */
  function DigitValue(c: char): nat
    requires '0' <= c <= '9'
  {
    c as int - '0' as int
  }

  /** The number a string of decimal digits denotes, most significant digit first. */
  function DecimalValue(s: string): nat
    requires forall i :: 0 <= i < |s| ==> '0' <= s[i] <= '9'
    decreases |s|
  {
    if s == [] then 0 else DecimalValue(s[..|s| - 1]) * 10 + DigitValue(s[|s| - 1])
  }

  /** `n.toString()` for a natural number: decimal digits denoting `n`, without leading zeros. */
  function NatToString(n: nat): (s: string)
    ensures |s| >= 1
    ensures forall i :: 0 <= i < |s| ==> '0' <= s[i] <= '9'
    ensures DecimalValue(s) == n
    ensures |s| > 1 ==> s[0] != '0'
    ensures (n < 10) == (|s| == 1)
    decreases n
  {
    if n < 10 then [DigitChar(n)]
    else
      var s := NatToString(n / 10) + [DigitChar(n % 10)];
      assert s[..|s| - 1] == NatToString(n / 10);
      s
  }

  /** `n.toString()` for any integer: a leading '-' for a negative one. */
  function IntToString(n: int): (s: string)
    ensures n >= 0 ==> s == NatToString(n)
    ensures n < 0 ==> s == "-" + NatToString(-n)
  {
    if n >= 0 then NatToString(n) else "-" + NatToString(-n)
  }

  /** A lower-case hexadecimal digit character. */
  function HexDigitChar(d: nat): (c: char)
    requires d < 16
    ensures '0' <= c <= '9' || 'a' <= c <= 'f'
  {
    if d < 10 then ('0' as int + d) as char else ('a' as int + (d - 10)) as char
  }

  /** A lower-case hexadecimal digit character. */
  predicate IsLowerHexDigit(c: char)
  {
    '0' <= c <= '9' || 'a' <= c <= 'f'
  }

  /** The value of a lower-case hexadecimal digit character. */
  function LowerHexValue(c: char): nat
    requires IsLowerHexDigit(c)
  {
    if c <= '9' then c as int - '0' as int else c as int - 'a' as int + 10
  }

  /** The number a string of lower-case hexadecimal digits denotes, most significant digit first. */
  function HexNumeralValue(s: string): nat
    requires forall i :: 0 <= i < |s| ==> IsLowerHexDigit(s[i])
    decreases |s|
  {
    if s == [] then 0 else HexNumeralValue(s[..|s| - 1]) * 16 + LowerHexValue(s[|s| - 1])
  }

  /** `n.toString(16)` for a natural number: lower-case digits denoting `n`, no leading zeros. */
  function NatToHex(n: nat): (s: string)
    ensures |s| >= 1
    ensures forall i :: 0 <= i < |s| ==> IsLowerHexDigit(s[i])
    ensures HexNumeralValue(s) == n
    ensures |s| > 1 ==> s[0] != '0'
    ensures (n < 16) == (|s| == 1)
    decreases n
  {
    if n < 16 then [HexDigitChar(n)]
    else
      var s := NatToHex(n / 16) + [HexDigitChar(n % 16)];
      assert s[..|s| - 1] == NatToHex(n / 16);
      s
  }

  /** `n.toString(16)` for any integer. */
  function IntToHex(n: int): string
  {
    if n >= 0 then NatToHex(n) else "-" + NatToHex(-n)
  }
}
