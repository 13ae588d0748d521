/**
 * The pinhole camera: an image plane one unit in front of the origin, 75
 * degrees wide, cut into pixels; a rotation built from three Euler angles;
 * and the primary ray through the centre of a pixel.
 */
module Cameras {
  import opened Results
  import opened JavaMath
  import opened Vectors
  import opened SquareMatrix3
  import opened Rays

  /** The horizontal field of view in degrees. */
  const Fov: real := 75.0

  /** The refractive index every primary ray starts in. */
  const StartRefractiveIndex: real := 1.0

  /**
   * A camera: where it sits, how it is turned, the image size in pixels, the
   * image plane's size in world units, and the world distance between
   * neighbouring pixels.
   */
  datatype Camera = Camera(
    origin: Vec3,
    rotation: Mat3,
    widthPx: int,
    heightPx: int,
    widthM: real,
    heightM: real,
    xStep: real,
    yStep: real)

  /** Rotation about x, y and z by the angle whose cosine and sine are given. */
  function RotX(c: real, s: real): Mat3 {
    Of(1.0, 0.0, 0.0, 0.0, c, -s, 0.0, s, c)
  }

  function RotY(c: real, s: real): Mat3 {
    Of(c, 0.0, s, 0.0, 1.0, 0.0, -s, 0.0, c)
  }

  function RotZ(c: real, s: real): Mat3 {
    Of(c, -s, 0.0, s, c, 0.0, 0.0, 0.0, 1.0)
  }

  /** `FindRotationMatrix`: the angles are in degrees; x turns first, then y, then z. */
  function FindRotationMatrix(m: MathLib, rotation: Vec3): Mat3 {
    Euler(m, Radians(m, rotation.x), Radians(m, rotation.y), Radians(m, rotation.z))
  }

  /** `RZ.multiply(RY).multiply(RX)` for angles in radians. */
  function Euler(m: MathLib, ax: real, ay: real, az: real): Mat3 {
    MatMul(MatMul(RotZ(m.cos(az), m.sin(az)), RotY(m.cos(ay), m.sin(ay))), RotX(m.cos(ax), m.sin(ax)))
  }

  /**
   * The constructor. Java divides by the pixel counts and by the aspect
   * ratio; with a zero dimension those divisions give infinities or NaN,
   * which the model reports as `None`.
   */
  function NewCamera(m: MathLib, width: int, height: int, origin: Vec3, rotation: Vec3): (r: Option<Camera>)
    ensures r.Some? <==> width != 0 && height != 0
    ensures r.Some? ==> r.value.rotation == FindRotationMatrix(m, rotation)
    ensures r.Some? ==> r.value == WithRotation(m, width, height, origin, r.value.rotation).value
    ensures r.Some? ==> Calibrated(r.value)
  {
    if width == 0 || height == 0 then None
    else WithRotation(m, width, height, origin, FindRotationMatrix(m, rotation))
  }

  /** The constructor's arithmetic, for a rotation matrix already found. */
  function WithRotation(m: MathLib, width: int, height: int, origin: Vec3, rotation: Mat3): (r: Option<Camera>)
    ensures r.Some? <==> width != 0 && height != 0
    ensures r.Some? ==> r.value.origin == origin && r.value.rotation == rotation
    ensures r.Some? ==> r.value.widthPx == width && r.value.heightPx == height
    ensures r.Some? ==> r.value.xStep * (width as real) == r.value.widthM
    ensures r.Some? ==> r.value.yStep * (height as real) == r.value.heightM
    ensures r.Some? ==> r.value.heightM * (width as real) == r.value.widthM * (height as real)
    ensures r.Some? ==> Calibrated(r.value)
  {
    if width == 0 || height == 0 then None
    else
      var aspectRatio := (width as real) / (height as real);
      var widthM := 2.0 * m.tan((Fov * m.pi / 180.0) / 2.0);
      var heightM := widthM / aspectRatio;
      DivCancel(widthM, width as real);
      DivCancel(heightM, height as real);
      AspectCancel(widthM, width as real, height as real);
      Some(Camera(origin, rotation, width, height,
                  widthM, heightM, widthM / (width as real), heightM / (height as real)))
  }

  lemma DivCancel(a: real, b: real)
    requires b != 0.0
    ensures (a / b) * b == a
  {
  }

  /** Dividing by the aspect ratio w / h keeps the ratio of the sides. */
  lemma AspectCancel(a: real, w: real, h: real)
    requires w != 0.0 && h != 0.0
    ensures (a / (w / h)) * w == a * h
  {
    var k := w / h;
    assert k * h == w;
    assert k != 0.0;
    var q := a / k;
    assert q * k == a;
    calc {
      q * w;
      q * (k * h);
      (q * k) * h;
      a * h;
    }
  }

  /** Square pixels: the plane's height is its width over the aspect ratio, so both steps are the same length. */
  lemma SquarePixels(m: MathLib, width: int, height: int, origin: Vec3, rotation: Mat3)
    requires width != 0 && height != 0
    ensures WithRotation(m, width, height, origin, rotation).value.xStep
         == WithRotation(m, width, height, origin, rotation).value.yStep
  {
    var cam := WithRotation(m, width, height, origin, rotation).value;
    StepsAgree(cam.xStep, cam.yStep, cam.widthM, cam.heightM, width as real, height as real);
  }

  lemma StepsAgree(xs: real, ys: real, wm: real, hm: real, w: real, h: real)
    requires w != 0.0 && h != 0.0
    requires xs * w == wm && ys * h == hm && hm * w == wm * h
    ensures xs == ys
  {
    calc {
      ((ys - xs) * w) * h;
      (ys * h) * w - (xs * w) * h;
      hm * w - wm * h;
      0.0;
    }
    assert (ys - xs) * w == 0.0;
  }

  /** The horizontal position on the image plane of the centre of pixel column `x`. */
  function PixelX(cam: Camera, x: int): real {
    (cam.xStep - cam.widthM) / 2.0 + (x as real) * cam.xStep
  }

  /** The vertical position of pixel row `y` as `castRay` computes it: the half-pixel offset has the wrong sign. */
  function PixelYAsWritten(cam: Camera, y: int): real {
    (cam.yStep + cam.heightM) / 2.0 - (y as real) * cam.yStep
  }

  /** The vertical position of the centre of pixel row `y`, half a pixel below the top edge as `PixelX` is half a pixel right of the left edge. */
  function PixelY(cam: Camera, y: int): real {
    (cam.heightM - cam.yStep) / 2.0 - (y as real) * cam.yStep
  }

  /** Consistent pixel geometry: the steps times the pixel counts are the plane's dimensions. */
  predicate Calibrated(cam: Camera) {
    cam.xStep * (cam.widthPx as real) == cam.widthM && cam.yStep * (cam.heightPx as real) == cam.heightM
  }

  /** Columns are spaced one step apart and mirror each other about the centre of the image. */
  lemma PixelXLayout(cam: Camera, x: int)
    requires Calibrated(cam)
    ensures PixelX(cam, x + 1) - PixelX(cam, x) == cam.xStep
    ensures PixelX(cam, x) + PixelX(cam, cam.widthPx - 1 - x) == 0.0
  {
  }

  /** The corrected rows are spaced one step apart, top to bottom, and mirror each other about the centre. */
  lemma PixelYLayout(cam: Camera, y: int)
    requires Calibrated(cam)
    ensures PixelY(cam, y) - PixelY(cam, y + 1) == cam.yStep
    ensures PixelY(cam, y) + PixelY(cam, cam.heightPx - 1 - y) == 0.0
  {
  }

  /** As written, every row sits one whole step above where the mirror symmetry puts it. */
  lemma PixelYAsWrittenShifted(cam: Camera, y: int)
    requires Calibrated(cam)
    ensures PixelYAsWritten(cam, y) == PixelY(cam, y) + cam.yStep
    ensures PixelYAsWritten(cam, y) + PixelYAsWritten(cam, cam.heightPx - 1 - y) == 2.0 * cam.yStep
  {
  }

  /** The direction from the origin through the point (px, py) of the plane at depth 1, turned by the rotation. */
  function RayThrough(m: MathLib, cam: Camera, px: real, py: real): Ray {
    var direction := Normalised(m, Vec3(px, py, 1.0));
    Ray(cam.origin, Normalised(m, LeftMultiply(cam.rotation, direction)), StartRefractiveIndex)
  }

  /**
   * `castRay`: from the camera's origin, towards the point of pixel (x, y) on
   * the plane at depth 1 with the row position as written, turned by the
   * camera's rotation and normalised, in a medium of index 1.
   */
  function CastRay(m: MathLib, cam: Camera, x: int, y: int): (r: Ray)
    ensures r.origin == cam.origin
    ensures r.refractiveIndex == StartRefractiveIndex
  {
    RayThrough(m, cam, PixelX(cam, x), PixelYAsWritten(cam, y))
  }

  /**
   * The primary ray through the centre of pixel (x, y), with the row offset
   * evidently intended. It is the ray `castRay` casts for the row below:
   * as written, every row is shown one row lower than the corrected layout
   * puts it.
   */
  function CorrectedCastRay(m: MathLib, cam: Camera, x: int, y: int): (r: Ray)
    ensures r.origin == cam.origin && r.refractiveIndex == StartRefractiveIndex
    ensures r == CastRay(m, cam, x, y + 1)
  {
    assert PixelY(cam, y) == PixelYAsWritten(cam, y + 1);
    RayThrough(m, cam, PixelX(cam, x), PixelY(cam, y))
  }

  // ---------------------------------------------------------------------------
  // Rotations keep lengths
  // ---------------------------------------------------------------------------

  /** Applying `r` never changes a vector's length. */
  ghost predicate PreservesLength(r: Mat3) {
    forall v :: NormSq(LeftMultiply(r, v)) == NormSq(v)
  }

  /** A rotation by (c, s) with c^2 + s^2 = 1 keeps the length of the pair it turns. */
  lemma PlaneRotation(c: real, s: real, p: real, q: real)
    requires c * c + s * s == 1.0
    ensures (c * p - s * q) * (c * p - s * q) + (s * p + c * q) * (s * p + c * q) == p * p + q * q
  {
    calc {
      (c * p - s * q) * (c * p - s * q) + (s * p + c * q) * (s * p + c * q);
      (c * c + s * s) * (p * p) + (c * c + s * s) * (q * q);
      1.0 * (p * p) + 1.0 * (q * q);
    }
  }

  /** Each elementary rotation has determinant `c² + s²`, which is 1 for the cosine and sine of an angle. */
  lemma ElementaryDeterminants(c: real, s: real)
    requires c * c + s * s == 1.0
    ensures Determinant(RotX(c, s)) == 1.0
    ensures Determinant(RotY(c, s)) == 1.0
    ensures Determinant(RotZ(c, s)) == 1.0
  {
  }

  lemma RotXPreservesLength(c: real, s: real)
    requires c * c + s * s == 1.0
    ensures PreservesLength(RotX(c, s))
  {
    forall v: Vec3
      ensures NormSq(LeftMultiply(RotX(c, s), v)) == NormSq(v)
    {
      PlaneRotation(c, s, v.y, v.z);
      assert LeftMultiply(RotX(c, s), v) == Vec3(v.x, c * v.y - s * v.z, s * v.y + c * v.z);
    }
  }

  lemma RotYPreservesLength(c: real, s: real)
    requires c * c + s * s == 1.0
    ensures PreservesLength(RotY(c, s))
  {
    forall v: Vec3
      ensures NormSq(LeftMultiply(RotY(c, s), v)) == NormSq(v)
    {
      PlaneRotation(c, s, v.z, v.x);
      assert LeftMultiply(RotY(c, s), v) == Vec3(s * v.z + c * v.x, v.y, c * v.z - s * v.x);
    }
  }

  lemma RotZPreservesLength(c: real, s: real)
    requires c * c + s * s == 1.0
    ensures PreservesLength(RotZ(c, s))
  {
    forall v: Vec3
      ensures NormSq(LeftMultiply(RotZ(c, s), v)) == NormSq(v)
    {
      PlaneRotation(c, s, v.x, v.y);
      assert LeftMultiply(RotZ(c, s), v) == Vec3(c * v.x - s * v.y, s * v.x + c * v.y, v.z);
    }
  }

  /** A product of length-preserving matrices preserves length. */
  lemma ProductPreservesLength(a: Mat3, b: Mat3)
    requires PreservesLength(a) && PreservesLength(b)
    ensures PreservesLength(MatMul(a, b))
  {
    forall v: Vec3
      ensures NormSq(LeftMultiply(MatMul(a, b), v)) == NormSq(v)
    {
      MatMulApply(a, b, v);
      assert NormSq(LeftMultiply(a, LeftMultiply(b, v))) == NormSq(LeftMultiply(b, v));
    }
  }

  /** Turning about x, then y, then z keeps lengths. */
  lemma EulerPreservesLength(m: MathLib, ax: real, ay: real, az: real)
    requires TrigLaws(m)
    ensures PreservesLength(Euler(m, ax, ay, az))
  {
    assert m.cos(ax) * m.cos(ax) + m.sin(ax) * m.sin(ax) == 1.0;
    assert m.cos(ay) * m.cos(ay) + m.sin(ay) * m.sin(ay) == 1.0;
    assert m.cos(az) * m.cos(az) + m.sin(az) * m.sin(az) == 1.0;
    ProductOfRotationsPreservesLength(m.cos(ax), m.sin(ax), m.cos(ay), m.sin(ay), m.cos(az), m.sin(az));
  }

  lemma ProductOfRotationsPreservesLength(cx: real, sx: real, cy: real, sy: real, cz: real, sz: real)
    requires cx * cx + sx * sx == 1.0 && cy * cy + sy * sy == 1.0 && cz * cz + sz * sz == 1.0
    ensures PreservesLength(MatMul(MatMul(RotZ(cz, sz), RotY(cy, sy)), RotX(cx, sx)))
  {
    RotXPreservesLength(cx, sx);
    RotYPreservesLength(cy, sy);
    RotZPreservesLength(cz, sz);
    ProductPreservesLength(RotZ(cz, sz), RotY(cy, sy));
    ProductPreservesLength(MatMul(RotZ(cz, sz), RotY(cy, sy)), RotX(cx, sx));
  }

  /** Whatever the angles, the camera's rotation keeps lengths. */
  lemma RotationPreservesLength(m: MathLib, rotation: Vec3)
    requires TrigLaws(m)
    ensures PreservesLength(FindRotationMatrix(m, rotation))
  {
    EulerPreservesLength(m, Radians(m, rotation.x), Radians(m, rotation.y), Radians(m, rotation.z));
  }

  /**
   * Every primary ray has a unit direction: the pixel direction is non-zero
   * because its depth is 1, and the rotation keeps it non-zero.
   */
  lemma CastRayUnit(m: MathLib, cam: Camera, x: int, y: int)
    requires SqrtLaws(m)
    requires PreservesLength(cam.rotation)
    ensures NormSq(CastRay(m, cam, x, y).direction) == 1.0
  {
    var p := Vec3(PixelX(cam, x), PixelYAsWritten(cam, y), 1.0);
    NormalisedUnit(m, p);
    var d := Normalised(m, p);
    var q := LeftMultiply(cam.rotation, d);
    assert NormSq(q) == 1.0;
    assert q != Zero;
    NormalisedUnit(m, q);
  }
}
