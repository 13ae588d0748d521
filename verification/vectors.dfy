/**
 * Minimal three-component vectors with the operations the ray tracer's
 * geometry uses: sums, differences, scaling, dot and cross products,
 * magnitude, normalisation and reflection in a normal. The repository's own
 * vector class is not part of this model; these are the textbook definitions.
 */
module Vectors {
  import opened JavaMath

  datatype Vec3 = Vec3(x: real, y: real, z: real)

  const Zero: Vec3 := Vec3(0.0, 0.0, 0.0)

  function Add(a: Vec3, b: Vec3): Vec3 {
    Vec3(a.x + b.x, a.y + b.y, a.z + b.z)
  }

  function Sub(a: Vec3, b: Vec3): Vec3 {
    Vec3(a.x - b.x, a.y - b.y, a.z - b.z)
  }

  function Scale(a: Vec3, k: real): Vec3 {
    Vec3(k * a.x, k * a.y, k * a.z)
  }

  function Dot(a: Vec3, b: Vec3): real {
    a.x * b.x + a.y * b.y + a.z * b.z
  }

  function Cross(a: Vec3, b: Vec3): Vec3 {
    Vec3(a.y * b.z - a.z * b.y, a.z * b.x - a.x * b.z, a.x * b.y - a.y * b.x)
  }

  /** The squared length, which never needs a square root. */
  function NormSq(a: Vec3): real {
    a.x * a.x + a.y * a.y + a.z * a.z
  }

  /** Only the zero vector has zero length. */
  lemma NormSqPositive(a: Vec3)
    ensures NormSq(a) >= 0.0
    ensures a != Zero ==> NormSq(a) > 0.0
  {
    SquarePositive(a.x);
    SquarePositive(a.y);
    SquarePositive(a.z);
    if a != Zero {
      assert a.x != 0.0 || a.y != 0.0 || a.z != 0.0;
      calc {
        NormSq(a);
        a.x * a.x + a.y * a.y + a.z * a.z;
      >
        0.0;
      }
    }
  }

  lemma SquarePositive(a: real)
    ensures a * a >= 0.0
    ensures a != 0.0 ==> a * a > 0.0
  {
    if a < 0.0 {
      assert a * a == (-a) * (-a);
    }
  }

  function Magnitude(m: MathLib, a: Vec3): real {
    m.sqrt(NormSq(a))
  }

  /** Comparing a magnitude with a non-negative bound is comparing the squared length with the bound's square. */
  lemma MagnitudeCompare(m: MathLib, a: Vec3, r: real)
    requires SqrtLaws(m) && r >= 0.0
    ensures Magnitude(m, a) < r <==> NormSq(a) < r * r
    ensures Magnitude(m, a) <= r <==> NormSq(a) <= r * r
  {
    NormSqPositive(a);
    SqrtCompare(m, NormSq(a), r);
  }

  /**
   * The unit vector in the direction of `a`. Java divides by a zero magnitude
   * and produces NaN components; the model leaves the zero vector unchanged.
   */
  function Normalised(m: MathLib, a: Vec3): Vec3 {
    var l := Magnitude(m, a);
    if l == 0.0 then a else Scale(a, 1.0 / l)
  }

  /** `v` reflected in the normal `n`: twice its projection on `n`, minus itself. */
  function ReflectIn(v: Vec3, n: Vec3): Vec3 {
    Sub(Scale(n, 2.0 * Dot(v, n)), v)
  }

  /** The cross product is orthogonal to both of its factors. */
  lemma CrossOrthogonal(a: Vec3, b: Vec3)
    ensures Dot(Cross(a, b), a) == 0.0
    ensures Dot(Cross(a, b), b) == 0.0
  {
  }

  /** Lagrange's identity: the squared lengths' product exceeds the squared dot product by the squared cross product. */
  lemma LagrangeIdentity(a: Vec3, b: Vec3)
    ensures NormSq(a) * NormSq(b) - Dot(a, b) * Dot(a, b) == NormSq(Cross(a, b))
  {
  }

  /** The dot product of two unit vectors, a cosine, lies in [-1, 1]. */
  lemma DotUnitBound(a: Vec3, b: Vec3)
    requires NormSq(a) == 1.0 && NormSq(b) == 1.0
    ensures -1.0 <= Dot(a, b) <= 1.0
  {
    LagrangeIdentity(a, b);
    NormSqPositive(Cross(a, b));
    SquareAtMostOne(Dot(a, b));
  }

  lemma SquareAtMostOne(x: real)
    requires x * x <= 1.0
    ensures -1.0 <= x <= 1.0
  {
  }

  /** Scaling a vector scales its dot products. */
  lemma DotScale(a: Vec3, k: real, b: Vec3)
    ensures Dot(Scale(a, k), b) == k * Dot(a, b)
  {
  }

  /** A normalised non-zero vector has unit length and points the same way as the original. */
  lemma NormalisedUnit(m: MathLib, a: Vec3)
    requires SqrtLaws(m)
    requires a != Zero
    ensures NormSq(Normalised(m, a)) == 1.0
    ensures exists k: real :: k > 0.0 && Normalised(m, a) == Scale(a, k)
  {
    NormSqPositive(a);
    var s := NormSq(a);
    var l := m.sqrt(s);
    assert l >= 0.0 && l * l == s;
    assert l != 0.0;
    var k := 1.0 / l;
    assert k > 0.0;
    calc {
      NormSq(Scale(a, k));
      (k * a.x) * (k * a.x) + (k * a.y) * (k * a.y) + (k * a.z) * (k * a.z);
      (k * k) * s;
      (k * k) * (l * l);
      (k * l) * (k * l);
      1.0;
    }
  }

  /** Normalising keeps a vector orthogonal to whatever it was orthogonal to. */
  lemma NormalisedOrthogonal(m: MathLib, a: Vec3, b: Vec3)
    requires Dot(a, b) == 0.0
    ensures Dot(Normalised(m, a), b) == 0.0
  {
    var l := Magnitude(m, a);
    if l != 0.0 {
      DotScale(a, 1.0 / l, b);
    }
  }

  /** Measured from `c`, the line through `o` along `d` is the line through `o - c` along `d`. */
  lemma OffsetAlongLine(o: Vec3, d: Vec3, c: Vec3, t: real)
    ensures Sub(Add(o, Scale(d, t)), c) == Add(Sub(o, c), Scale(d, t))
  {
  }

  /** Along the line `w + t d` the squared length is a quadratic in `t`. */
  lemma NormSqAlong(w: Vec3, d: Vec3, t: real)
    ensures NormSq(Add(w, Scale(d, t))) == Dot(d, d) * t * t + 2.0 * Dot(d, w) * t + Dot(w, w)
  {
    SquareAlong(w.x, d.x, t);
    SquareAlong(w.y, d.y, t);
    SquareAlong(w.z, d.z, t);
    QuadraticSum(d.x * d.x, d.y * d.y, d.z * d.z, d.x * w.x, d.y * w.y, d.z * w.z, t);
  }

  /** Along the line `w + t d` the dot product with `v` is affine in `t`. */
  lemma DotAlong(w: Vec3, d: Vec3, v: Vec3, t: real)
    ensures Dot(Add(w, Scale(d, t)), v) == Dot(w, v) + t * Dot(d, v)
  {
  }

  lemma SquareAlong(w: real, d: real, t: real)
    ensures (w + t * d) * (w + t * d) == d * d * t * t + 2.0 * (d * w) * t + w * w
  {
  }

  lemma QuadraticSum(a1: real, a2: real, a3: real, b1: real, b2: real, b3: real, t: real)
    ensures (a1 + a2 + a3) * t * t + 2.0 * (b1 + b2 + b3) * t
         == (a1 * t * t + 2.0 * b1 * t) + (a2 * t * t + 2.0 * b2 * t) + (a3 * t * t + 2.0 * b3 * t)
  {
  }

  /**
   * Reflection in a unit normal keeps the component along the normal, keeps
   * the length, and undoes itself.
   */
  lemma {:induction false} ReflectInLaws(v: Vec3, n: Vec3)
    requires NormSq(n) == 1.0
    ensures Dot(ReflectIn(v, n), n) == Dot(v, n)
    ensures NormSq(ReflectIn(v, n)) == NormSq(v)
    ensures ReflectIn(ReflectIn(v, n), n) == v
  {
    var d := Dot(v, n);
    var r := ReflectIn(v, n);
    assert Dot(n, n) == 1.0;
    assert Dot(r, n) == 2.0 * d * Dot(n, n) - d;
    assert NormSq(r) == 4.0 * d * d * Dot(n, n) - 4.0 * d * d + NormSq(v);
  }
}

/** Minimal RGB colours: component-wise sums, differences and products. */
module Colours {

  datatype Colour = Colour(r: real, g: real, b: real)

  /** `new ColorRGB(k)`: the same value in every channel. */
  function Grey(k: real): Colour {
    Colour(k, k, k)
  }

  function CAdd(a: Colour, b: Colour): Colour {
    Colour(a.r + b.r, a.g + b.g, a.b + b.b)
  }

  function CSub(a: Colour, b: Colour): Colour {
    Colour(a.r - b.r, a.g - b.g, a.b - b.b)
  }

  /** Scaling by a number. */
  function CScale(a: Colour, k: real): Colour {
    Colour(k * a.r, k * a.g, k * a.b)
  }

  /** Scaling channel by channel by another colour. */
  function CMul(a: Colour, b: Colour): Colour {
    Colour(a.r * b.r, a.g * b.g, a.b * b.b)
  }

  /** Every channel lies in [0, 1]. */
  predicate InUnit(c: Colour) {
    0.0 <= c.r <= 1.0 && 0.0 <= c.g <= 1.0 && 0.0 <= c.b <= 1.0
  }

  /** Every channel is at least zero. */
  predicate NonNegative(c: Colour) {
    0.0 <= c.r && 0.0 <= c.g && 0.0 <= c.b
  }

  /** Channel by channel, `a` is at most `b`. */
  predicate AtMost(a: Colour, b: Colour) {
    a.r <= b.r && a.g <= b.g && a.b <= b.b
  }
}
