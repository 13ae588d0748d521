/**
 * Texture and height maps as the shapes hold them after loading an image, and
 * the two ways a lookup in them can throw.
 */
module Texels {
  import opened Results
  import opened JavaInt

  /** `ArithmeticException` from `% 0`, `ArrayIndexOutOfBoundsException`, and `NullPointerException` from a map that never loaded. */
  datatype Fault = DivideByZero | IndexOutOfBounds | NullArray

  /**
   * A map as a shape holds it: either the image was read, giving its width,
   * height and row-major array, or reading failed (the IOException is caught
   * and printed), leaving both sizes 0 and the array null.
   */
  datatype Grid<T> = Unloaded | Image(width: int, height: int, cells: seq<seq<T>>) {

    /** The recorded width, 0 until an image is read. */
    function Width(): int {
      if Unloaded? then 0 else width
    }

    /** The recorded height, 0 until an image is read. */
    function Height(): int {
      if Unloaded? then 0 else height
    }
  }

  /** A successfully loaded image: positive int sizes, `height` rows of `width` cells. */
  predicate Loaded<T>(g: Grid<T>) {
    && g.Image?
    && 0 < g.width <= MaxInt
    && 0 < g.height <= MaxInt
    && |g.cells| == g.height
    && forall i :: 0 <= i < |g.cells| ==> |g.cells[i]| == g.width
  }

  /** `array[row][col]`, which throws unless the array exists and both indices are inside it. */
  function Cell<T>(g: Grid<T>, row: int, col: int): (r: Result<T, Fault>)
    ensures g.Unloaded? ==> r == Err(NullArray)
    ensures r.Ok? <==> g.Image? && 0 <= row < |g.cells| && 0 <= col < |g.cells[row]|
    ensures r.Ok? ==> r.value == g.cells[row][col]
  {
    match g
    case Unloaded => Err(NullArray)
    case Image(_, _, cells) =>
      if 0 <= row < |cells| && 0 <= col < |cells[row]| then Ok(cells[row][col]) else Err(IndexOutOfBounds)
  }

  /** In a loaded map the cells inside the recorded sizes are exactly the ones that can be read. */
  lemma CellOfLoaded<T>(g: Grid<T>, row: int, col: int)
    requires Loaded(g)
    ensures Cell(g, row, col).Ok? <==> 0 <= row < g.height && 0 <= col < g.width
    ensures Cell(g, row, col).Err? ==> Cell(g, row, col).error == IndexOutOfBounds
  {
  }

  /** Java's `a % b` on int, throwing for a zero divisor. */
  function RemOrFault(a: int, b: int): (r: Result<int, Fault>)
    ensures r.Err? <==> b == 0
    ensures r.Err? ==> r.error == DivideByZero
    ensures r.Ok? ==> r.value == Rem(a, b)
  {
    if b == 0 then Err(DivideByZero) else Ok(Rem(a, b))
  }

  /**
   * The lookup the cone and the cylinder share, on the two indices they
   * computed: the column is reduced with `%` alone, the row is reduced, moved
   * up by the height when negative, and then flipped to `height - row - 1`.
   */
  function FlippedRowTexel<T>(g: Grid<T>, col: int, row: int): (r: Result<T, Fault>)
    ensures Loaded(g) ==> (r.Ok? <==> Rem(col, g.width) >= 0)
    ensures Loaded(g) && r.Ok? ==> r.value == g.cells[g.height - 1 - WrapIndex(row, g.height)][Rem(col, g.width)]
    ensures g.Width() == 0 || g.Height() == 0 ==> r == Err(DivideByZero)
  {
    match RemOrFault(col, g.Width())
    case Err(e) => Err(e)
    case Ok(x) =>
      match RemOrFault(row, g.Height())
      case Err(e) => Err(e)
      case Ok(z0) =>
        var z1 := if z0 < 0 then z0 + g.Height() else z0;
        var z := g.Height() - z1 - 1;
        Cell(g, z, x)
  }

  /** A non-negative column is always found, so the row flip alone never leaves the map. */
  lemma FlippedRowTexelNonNegative<T>(g: Grid<T>, col: int, row: int)
    requires Loaded(g) && col >= 0
    ensures FlippedRowTexel(g, col, row).Ok?
  {
  }

  /** A negative column that is not a multiple of the width is read one period too far left, outside the map. */
  lemma FlippedRowTexelNegative<T>(g: Grid<T>, col: int, row: int)
    requires Loaded(g) && col < 0 && Rem(col, g.width) != 0
    ensures FlippedRowTexel(g, col, row) == Err(IndexOutOfBounds)
  {
  }

  /** The same bound for any size up to `MaxInt`, 0 included. */
  lemma ScaledIndexRange(n: int, v: real, s: real)
    ensures s > 0.0 && 0 <= n <= MaxInt && 0.0 <= v <= s ==> 0 <= CastScaled(n, v, s) <= n
  {
    if s > 0.0 && 0 < n <= MaxInt && 0.0 <= v <= s {
      ScaledIndexBounds(n, v, s);
    }
  }

  /**
   * The bounds of `(int)((double) n * (v / s))` for a parameter `v` in
   * `[0, s]`: between 0 and `n`, below `n` unless `v` reaches `s`, and equal
   * to `n` when it does.
   */
  lemma ScaledIndexBounds(n: int, v: real, s: real)
    requires 0 < n <= MaxInt && s > 0.0
    requires 0.0 <= v <= s
    ensures 0 <= CastScaled(n, v, s) <= n
    ensures v < s ==> CastScaled(n, v, s) < n
    ensures v == s ==> CastScaled(n, v, s) == n
  {
    ScaledBounds(n, v, s);
    TruncatedIndexBounds(n, Scaled(n, v, s));
  }

  /** `n * (v / s)` for `v` in `[0, s]` is in `[0, n]`, below `n` unless `v` reaches `s`. */
  lemma ScaledBounds(n: int, v: real, s: real)
    requires 0 < n && s > 0.0 && 0.0 <= v <= s
    ensures 0.0 <= Scaled(n, v, s) <= n as real
    ensures v < s ==> Scaled(n, v, s) < n as real
    ensures v == s ==> Scaled(n, v, s) == n as real
  {
    FractionOfWhole(v, s);
    ScaledFractionBounds(n as real, v / s);
  }

  /** The cast of a value in `[0, n]` is in `[0, n]`, below `n` for a value below `n`, and `n` for `n` itself. */
  lemma TruncatedIndexBounds(n: int, d: real)
    requires 0 < n <= MaxInt && 0.0 <= d <= n as real
    ensures 0 <= D2I(d) <= n
    ensures d < n as real ==> D2I(d) < n
    ensures d == n as real ==> D2I(d) == n
  {
    if d < MaxInt as real {
      var k := Trunc(d);
      assert k as real <= d;
      if d == n as real {
        assert n as real <= k as real;
      }
    }
  }

  lemma FractionOfWhole(v: real, s: real)
    requires s > 0.0 && 0.0 <= v <= s
    ensures 0.0 <= v / s <= 1.0
    ensures v < s ==> v / s < 1.0
    ensures v == s ==> v / s == 1.0
  {
  }

  lemma ScaledFractionBounds(n: real, q: real)
    requires n > 0.0 && 0.0 <= q <= 1.0
    ensures 0.0 <= n * q <= n
    ensures q < 1.0 ==> n * q < n
    ensures q == 1.0 ==> n * q == n
  {
  }
}
