/**
 * The parts of Java's arithmetic that differ from Dafny's unbounded, Euclidean
 * arithmetic and that the ray tracer relies on: 32-bit `int` wrap-around, the
 * truncating `%` on `int` and on `double`, the saturating `(int)` cast of a
 * double, and `Integer.parseInt` / `Integer.toString` on ASCII text.
 */
module JavaInt {
  import opened Results

  const MinInt: int := -0x8000_0000
  const MaxInt: int := 0x7fff_ffff
  const Modulus: int := 0x1_0000_0000

  predicate IsInt32(x: int) {
    MinInt <= x <= MaxInt
  }

  function Abs(x: int): nat {
    if x < 0 then -x else x
  }

  /** The 32-bit two's-complement value of a mathematical integer, as Java `int` arithmetic leaves it. */
  function Wrap(x: int): (r: int)
    ensures IsInt32(r)
    ensures (x - r) % Modulus == 0
    ensures IsInt32(x) ==> r == x
  {
    (x - MinInt) % Modulus + MinInt
  }

  /** Java's `a / b` on integers: the quotient truncated toward zero. */
  function Quot(a: int, b: int): (q: int)
    requires b != 0
    ensures Abs(q) == Abs(a) / Abs(b)
    ensures (a >= 0) == (b > 0) ==> q >= 0
    ensures (a >= 0) != (b > 0) ==> q <= 0
  {
    var n: int, d: int := Abs(a), Abs(b);
    DivNonneg(n, d);
    var k: int := n / d;
    if (a >= 0) == (b > 0) then k else -k
  }

  lemma DivNonneg(n: int, d: int)
    requires n >= 0 && d > 0
    ensures n / d >= 0
  {
  }

  /** Java's `a % b` on integers: the remainder takes the sign of the dividend. */
  function Rem(a: int, b: int): (r: int)
    requires b != 0
    ensures Abs(r) < Abs(b)
    ensures a >= 0 ==> r >= 0
    ensures a <= 0 ==> r <= 0
  {
    if a >= 0 then a % Abs(b) else -((-a) % Abs(b))
  }

  /** Truncated division and remainder fit together as section 15.17.3 of the Java Language Specification requires. */
  lemma QuotRem(a: int, b: int)
    requires b != 0
    ensures a == b * Quot(a, b) + Rem(a, b)
  {
    var n: int, d: int := Abs(a), Abs(b);
    var k: int := n / d;
    assert n == d * k + n % d;
    MulSigns(d, k);
    if a >= 0 && b > 0 {
      assert Quot(a, b) == k && Rem(a, b) == n % d;
    } else if a >= 0 {
      assert b == -d && Quot(a, b) == -k && Rem(a, b) == n % d;
    } else if b > 0 {
      assert a == -n && Quot(a, b) == -k && Rem(a, b) == -(n % d);
    } else {
      assert a == -n && b == -d && Quot(a, b) == k && Rem(a, b) == -(n % d);
    }
  }

  lemma MulSigns(x: int, y: int)
    ensures (-x) * (-y) == x * y && (-x) * y == -(x * y) && x * (-y) == -(x * y)
  {
  }

  /** A remainder by a positive divisor, moved into [0, b) by adding b when negative: the wrap the texture lookups use. */
  function WrapIndex(a: int, b: int): (r: int)
    requires b > 0
    ensures 0 <= r < b
    ensures 0 <= a < b ==> r == a
  {
    var x := Rem(a, b);
    if x < 0 then x + b else x
  }

  /** The wrapped index differs from the input by a whole number of periods. */
  lemma WrapIndexCongruent(a: int, b: int)
    requires b > 0
    ensures exists k: int :: a == b * k + WrapIndex(a, b)
  {
    QuotRem(a, b);
    var q := Quot(a, b);
    if Rem(a, b) < 0 {
      assert a == b * (q - 1) + WrapIndex(a, b);
    } else {
      assert a == b * q + WrapIndex(a, b);
    }
  }

  /** Truncation of a real toward zero. */
  function Trunc(d: real): (r: int)
    ensures d >= 0.0 ==> 0 <= r && r as real <= d < r as real + 1.0
    ensures d <= 0.0 ==> r <= 0 && r as real - 1.0 < d <= r as real
  {
    if d >= 0.0 then d.Floor else -((-d).Floor)
  }

  /**
   * The narrowing cast `(int) d` of a finite double (section 5.1.3 of the Java
   * Language Specification): truncation toward zero, saturating at the ends of
   * the int range.
   */
  function D2I(d: real): (r: int)
    ensures IsInt32(r)
    ensures d >= MaxInt as real ==> r == MaxInt
    ensures d <= MinInt as real ==> r == MinInt
    ensures MinInt as real < d < MaxInt as real ==> r == Trunc(d)
    ensures d >= 0.0 ==> r >= 0
  {
    if d >= MaxInt as real then MaxInt
    else if d <= MinInt as real then MinInt
    else Trunc(d)
  }

  /**
   * `(int)((double) n * (v / s))`, the scaling every texture lookup uses.
   * Dividing by a zero `s` gives an infinity with the sign of `v` (NaN when
   * `v` is also zero); multiplying by `n` keeps, flips or (for zero) destroys
   * it, and the cast takes an infinity to the nearer end of the int range and
   * NaN to zero. The divisor is taken to be positive zero.
   */
  function CastScaled(n: int, v: real, s: real): (r: int)
    ensures IsInt32(r)
    ensures s != 0.0 ==> r == D2I(Scaled(n, v, s))
    ensures n >= 0 && v >= 0.0 && s > 0.0 ==> r >= 0
    ensures s == 0.0 ==> (r == MaxInt <==> (n > 0 && v > 0.0) || (n < 0 && v < 0.0))
    ensures s == 0.0 ==> (r == 0 <==> n == 0 || v == 0.0)
  {
    if s != 0.0 then
      ScaledNonNegative(n, v, s);
      D2I(Scaled(n, v, s))
    else if (n > 0 && v > 0.0) || (n < 0 && v < 0.0) then MaxInt
    else if n == 0 || v == 0.0 then 0
    else MinInt
  }

  /** `(double) n * (v / s)` for a non-zero `s`. */
  function Scaled(n: int, v: real, s: real): real
    requires s != 0.0
  {
    n as real * (v / s)
  }

  lemma ScaledNonNegative(n: int, v: real, s: real)
    requires s != 0.0
    ensures n >= 0 && v >= 0.0 && s > 0.0 ==> Scaled(n, v, s) >= 0.0
  {
  }

  /** The fractional part of a real, with the sign of the real. */
  function Frac(q: real): (f: real)
    ensures q >= 0.0 ==> 0.0 <= f < 1.0
    ensures q <= 0.0 ==> -1.0 < f <= 0.0
  {
    q - Trunc(q) as real
  }

  /** A real is its truncation plus its fractional part. */
  lemma FracSplits(q: real)
    ensures q == Trunc(q) as real + Frac(q)
  {
  }

  /** Java's `x % y` on doubles (finite operands): x minus y times the truncated quotient, that is y times the quotient's fractional part. */
  function DoubleRem(x: real, y: real): (r: real)
    requires y != 0.0
    ensures x >= 0.0 && y > 0.0 ==> 0.0 <= r < y
    ensures x <= 0.0 && y > 0.0 ==> -y < r <= 0.0
  {
    RemBounds(x, y);
    y * Frac(x / y)
  }

  lemma RemBounds(x: real, y: real)
    requires y != 0.0
    ensures x >= 0.0 && y > 0.0 ==> 0.0 <= y * Frac(x / y) < y
    ensures x <= 0.0 && y > 0.0 ==> -y < y * Frac(x / y) <= 0.0
  {
    if y > 0.0 {
      QuotientSign(x, y);
      ScaledFraction(y, Frac(x / y));
    }
  }

  /** The remainder is what is left of `x` after taking away `y` times the truncated quotient, as section 15.17.3 of the Java Language Specification defines it. */
  lemma DoubleRemMeaning(x: real, y: real)
    requires y != 0.0
    ensures DoubleRem(x, y) == x - y * (Trunc(x / y) as real)
  {
    var q := x / y;
    var t := Trunc(q) as real;
    FracSplits(q);
    assert y * q == x;
    DistributeDifference(y, q, t);
  }

  lemma DistributeDifference(y: real, q: real, t: real)
    ensures y * (q - t) == y * q - y * t
  {
  }

  lemma QuotientSign(x: real, y: real)
    requires y > 0.0
    ensures x == y * (x / y)
    ensures x >= 0.0 ==> x / y >= 0.0
    ensures x <= 0.0 ==> x / y <= 0.0
  {
  }

  lemma ScaledFraction(y: real, f: real)
    requires y > 0.0
    ensures 0.0 <= f < 1.0 ==> 0.0 <= y * f < y
    ensures -1.0 < f <= 0.0 ==> -y < y * f <= 0.0
  {
  }

  // ---------------------------------------------------------------------------
  // Integer.parseInt and Integer.toString, for ASCII text
  // ---------------------------------------------------------------------------

  /** The value of an ASCII digit or letter in `radix`, as `Character.digit` gives it. */
  function DigitValue(c: char, radix: nat): (r: Option<nat>)
    ensures r.Some? ==> r.value < radix
  {
    var v: int :=
      if '0' <= c <= '9' then c as int - '0' as int
      else if 'a' <= c <= 'z' then c as int - 'a' as int + 10
      else if 'A' <= c <= 'Z' then c as int - 'A' as int + 10
      else -1;
    if 0 <= v < radix then Some(v) else None
  }

  /** The value of a run of digits, most significant first; None if some character is not a digit. */
  function DigitsValue(ds: string, radix: nat): Option<nat>
    decreases |ds|
  {
    if |ds| == 0 then Some(0)
    else
      match DigitsValue(ds[..|ds| - 1], radix)
      case None => None
      case Some(high) =>
        match DigitValue(ds[|ds| - 1], radix)
        case None => None
        case Some(d) => Some(high * radix + d)
  }

  /**
   * `Integer.parseInt(s, radix)`: an optional `-` or `+`, then at least one
   * digit, with a value inside the int range. None stands for the
   * NumberFormatException the method throws otherwise.
   */
  function ParseInt(s: string, radix: nat): (r: Option<int>)
    requires 2 <= radix <= 36
    ensures r.Some? ==> IsInt32(r.value)
    ensures |s| == 0 || s == "-" || s == "+" ==> r.None?
    ensures r.Some? && r.value < 0 ==> s[0] == '-'
  {
    if |s| == 0 then None
    else
      var signed := s[0] == '-' || s[0] == '+';
      var digits := if signed then s[1..] else s;
      if |digits| == 0 then None
      else
        match DigitsValue(digits, radix)
        case None => None
        case Some(v) =>
          var n: int := if s[0] == '-' then -(v as int) else v;
          if IsInt32(n) then Some(n) else None
  }

  /** The lower-case digit character for a value below 36. */
  function Digit(d: nat): (c: char)
    requires d < 36
    ensures d < 10 ==> '0' <= c <= '9' && c as int - '0' as int == d
    ensures d >= 10 ==> 'a' <= c <= 'z' && c as int - 'a' as int + 10 == d
  {
    if d < 10 then ('0' as int + d) as char else ('a' as int + d - 10) as char
  }

  lemma DigitRoundTrip(d: nat, radix: nat)
    requires d < radix <= 36
    ensures DigitValue(Digit(d), radix) == Some(d)
  {
  }

  /** `Integer.toString(n, radix)` for a non-negative n: its digits, most significant first, without leading zeros. */
  function Format(n: nat, radix: nat): (s: string)
    requires 2 <= radix <= 36
    ensures |s| > 0
    ensures s[0] != '-' && s[0] != '+'
    decreases n
  {
    if n < radix then [Digit(n)]
    else
      DivShrinks(n, radix);
      Format(n / radix, radix) + [Digit(n % radix)]
  }

  lemma DigitsValueSnoc(p: string, c: char, radix: nat, high: nat, d: nat)
    requires DigitsValue(p, radix) == Some(high)
    requires DigitValue(c, radix) == Some(d)
    ensures DigitsValue(p + [c], radix) == Some(high * radix + d)
  {
    assert (p + [c])[..|p|] == p;
  }

  lemma {:induction false} DigitsOfFormat(n: nat, radix: nat)
    requires 2 <= radix <= 36
    ensures DigitsValue(Format(n, radix), radix) == Some(n)
    decreases n
  {
    if n < radix {
      assert [Digit(n)][..0] == [];
      DigitRoundTrip(n, radix);
    } else {
      var high, low := n / radix, n % radix;
      DivMod(n, radix);
      assert high < n by { DivShrinks(n, radix); }
      DigitRoundTrip(low, radix);
      var p := Format(high, radix);
      assert Format(n, radix) == p + [Digit(low)];
      DigitsOfFormat(high, radix);
      DigitsValueSnoc(p, Digit(low), radix, high, low);
    }
  }

  lemma DivShrinks(n: nat, d: nat)
    requires n > 0 && d >= 2
    ensures n / d < n
  {
  }

  lemma DivMod(n: nat, d: nat)
    requires d > 0
    ensures n == (n / d) * d + n % d
  {
  }

  /** Parsing what `Integer.toString` prints gives back the number, negative numbers included. */
  lemma ParseFormatRoundTrip(n: int, radix: nat)
    requires 2 <= radix <= 36
    requires IsInt32(n)
    ensures n >= 0 ==> ParseInt(Format(n, radix), radix) == Some(n)
    ensures n < 0 ==> ParseInt("-" + Format(-n, radix), radix) == Some(n)
  {
    if n >= 0 {
      DigitsOfFormat(n, radix);
    } else {
      DigitsOfFormat(-n, radix);
      assert ("-" + Format(-n, radix))[1..] == Format(-n, radix);
    }
  }
}
