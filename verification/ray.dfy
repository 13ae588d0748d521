/** A ray: an origin, a direction and the refractive index of the medium it travels in. */
module Rays {
  import opened JavaMath
  import opened Vectors

  /** The ray is immutable: its three parts are the constructor's arguments, and nothing changes them. */
  datatype Ray = Ray(origin: Vec3, direction: Vec3, refractiveIndex: real)

  /** The point reached after travelling `t` along the direction from the origin. */
  function EvaluateAt(r: Ray, t: real): Vec3 {
    Add(r.origin, Scale(r.direction, t))
  }

  /** Distance zero is the origin. */
  lemma EvaluateAtZero(r: Ray)
    ensures EvaluateAt(r, 0.0) == r.origin
  {
  }

  /** Travelling `s` and then `t` more is travelling `s + t`: the map from distance to point is affine. */
  lemma EvaluateAtShift(r: Ray, s: real, t: real)
    ensures EvaluateAt(r, s + t) == Add(EvaluateAt(r, s), Scale(r.direction, t))
  {
  }

  /** Measured from a point `c`, the component of `O + tD` along `v` is affine in `t`. */
  lemma AxialOffsetAlongRay(r: Ray, c: Vec3, v: Vec3, t: real)
    ensures Dot(Sub(EvaluateAt(r, t), c), v) == Dot(Sub(r.origin, c), v) + t * Dot(r.direction, v)
  {
    OffsetAlongLine(r.origin, r.direction, c, t);
    DotAlong(Sub(r.origin, c), r.direction, v, t);
  }

  /** Measured from a point `c`, the squared length of `O + tD` is a quadratic in `t`. */
  lemma OffsetLengthAlongRay(r: Ray, c: Vec3, t: real)
    ensures var d, w := r.direction, Sub(r.origin, c);
      NormSq(Sub(EvaluateAt(r, t), c)) == Quadratic(Dot(d, d), 2.0 * Dot(d, w), Dot(w, w), t)
  {
    OffsetAlongLine(r.origin, r.direction, c, t);
    NormSqAlong(Sub(r.origin, c), r.direction, t);
  }

  /**
   * Along a unit direction the parameter is the Euclidean distance: the
   * squared distance from the origin to the point at `t` is `t * t`. This is
   * why the shapes report the ray parameter as the hit distance.
   */
  lemma EvaluateAtDistance(r: Ray, t: real)
    requires NormSq(r.direction) == 1.0
    ensures NormSq(Sub(EvaluateAt(r, t), r.origin)) == t * t
  {
    var d := r.direction;
    calc {
      NormSq(Sub(EvaluateAt(r, t), r.origin));
      (t * d.x) * (t * d.x) + (t * d.y) * (t * d.y) + (t * d.z) * (t * d.z);
      (t * t) * NormSq(d);
      t * t;
    }
  }
}
