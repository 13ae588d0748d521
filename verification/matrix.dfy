/**
 * 3x3 matrices of reals: element access with bounds checks, minors,
 * determinant, cofactor signs, transpose, scaling, inverse with a cached
 * result, and matrix-vector and matrix-matrix products. The mutating Java
 * methods become functions from the old value to the new one.
 */
module SquareMatrix3 {
  import opened Results
  import opened Vectors

  /** Three rows, top to bottom; each row's x, y, z are its columns 0, 1, 2. */
  datatype Mat3 = Mat3(r0: Vec3, r1: Vec3, r2: Vec3)

  predicate InRange(i: int) {
    0 <= i < 3
  }

  /** Component `j` of `v`, for `j` in 0..2. */
  function Component(v: Vec3, j: int): real {
    if j == 0 then v.x else if j == 1 then v.y else v.z
  }

  /** Row `i` of `m`, for `i` in 0..2. */
  function Row(m: Mat3, i: int): Vec3 {
    if i == 0 then m.r0 else if i == 1 then m.r1 else m.r2
  }

  /** Column `j` of `m`, for `j` in 0..2. */
  function Column(m: Mat3, j: int): Vec3 {
    Vec3(Component(m.r0, j), Component(m.r1, j), Component(m.r2, j))
  }

  /** The entry in row `i` and column `j`, for `i` and `j` in 0..2. */
  function At(m: Mat3, i: int, j: int): real {
    Component(Row(m, i), j)
  }

  /** The nine entries, row by row. */
  function Of(a: real, b: real, c: real, d: real, e: real, f: real, g: real, h: real, i: real): Mat3 {
    Mat3(Vec3(a, b, c), Vec3(d, e, f), Vec3(g, h, i))
  }

  /** Two matrices with the same nine entries are equal. */
  lemma Extensionality(a: Mat3, b: Mat3)
    requires forall i, j :: InRange(i) && InRange(j) ==> At(a, i, j) == At(b, i, j)
    ensures a == b
  {
    assert At(a, 0, 0) == At(b, 0, 0) && At(a, 0, 1) == At(b, 0, 1) && At(a, 0, 2) == At(b, 0, 2);
    assert At(a, 1, 0) == At(b, 1, 0) && At(a, 1, 1) == At(b, 1, 1) && At(a, 1, 2) == At(b, 1, 2);
    assert At(a, 2, 0) == At(b, 2, 0) && At(a, 2, 1) == At(b, 2, 1) && At(a, 2, 2) == At(b, 2, 2);
  }

  const ZeroMat: Mat3 := Of(0.0, 0.0, 0.0, 0.0, 0.0, 0.0, 0.0, 0.0, 0.0)
  const Identity: Mat3 := Of(1.0, 0.0, 0.0, 0.0, 1.0, 0.0, 0.0, 0.0, 1.0)

  /** What the constructors, `setValue` and `getValue` throw: a wrongly shaped array, an index outside 0..2, or an array access past a row's end. */
  datatype MatrixError = NotThreeByThree | IndexNotBetweenZeroAndTwo | ArrayIndexOutOfBounds

  /** The cached inverse: not yet computed, or computed. `None` stands for the non-finite matrix that `1/det` gives when the determinant is zero. */
  datatype Cached = Uncomputed | Computed(value: Option<Mat3>)

  /** A `SquareMatrix3` object: its entries and its inverse cache. */
  datatype Matrix = Matrix(mat: Mat3, inverse: Cached)

  /** The no-argument constructor: all zeros, nothing cached. */
  function New(): (r: Matrix)
    ensures forall i, j :: InRange(i) && InRange(j) ==> At(r.mat, i, j) == 0.0
    ensures r.inverse == Uncomputed
  {
    Matrix(ZeroMat, Uncomputed)
  }

  /**
   * The array constructor. An empty array fails reading its first row; a row
   * count or first-row length other than 3 is rejected; later rows are not
   * checked, so a short one fails when the inverse is computed, and entries
   * past the third column are never read. The inverse is computed at once.
   */
  function FromArray(a: seq<seq<real>>): (r: Result<Matrix, MatrixError>)
    ensures r.Ok? <==> |a| == 3 && |a[0]| == 3 && |a[1]| >= 3 && |a[2]| >= 3
    ensures |a| == 0 ==> r == Err(ArrayIndexOutOfBounds)
    ensures |a| > 0 && (|a| != 3 || |a[0]| != 3) ==> r == Err(NotThreeByThree)
    ensures r.Ok? ==> r.value.inverse == Computed(InverseAsWritten(r.value.mat))
    ensures r.Ok? ==> forall i, j :: InRange(i) && InRange(j) ==> At(r.value.mat, i, j) == a[i][j]
  {
    if |a| == 0 then Err(ArrayIndexOutOfBounds)
    else if |a| != 3 || |a[0]| != 3 then Err(NotThreeByThree)
    else if |a[1]| < 3 || |a[2]| < 3 then Err(ArrayIndexOutOfBounds)
    else
      var m := Of(a[0][0], a[0][1], a[0][2], a[1][0], a[1][1], a[1][2], a[2][0], a[2][1], a[2][2]);
      Ok(Matrix(m, Computed(InverseAsWritten(m))))
  }

  /** `v` with component `j` replaced. */
  function PutComponent(v: Vec3, j: int, value: real): Vec3 {
    if j == 0 then v.(x := value) else if j == 1 then v.(y := value) else v.(z := value)
  }

  /** `m` with entry (i, j) replaced. */
  function Put(m: Mat3, i: int, j: int, value: real): Mat3 {
    if i == 0 then m.(r0 := PutComponent(m.r0, j, value))
    else if i == 1 then m.(r1 := PutComponent(m.r1, j, value))
    else m.(r2 := PutComponent(m.r2, j, value))
  }

  /** `setValue`: rejects an index outside 0..2; otherwise changes that one entry and nothing else, not even the cached inverse. */
  function SetValue(x: Matrix, row: int, column: int, value: real): (r: Result<Matrix, MatrixError>)
    ensures r.Ok? <==> InRange(row) && InRange(column)
    ensures r.Err? ==> r.error == IndexNotBetweenZeroAndTwo
    ensures r.Ok? ==> At(r.value.mat, row, column) == value
    ensures r.Ok? ==> forall i, j :: InRange(i) && InRange(j) && (i, j) != (row, column) ==> At(r.value.mat, i, j) == At(x.mat, i, j)
    ensures r.Ok? ==> r.value.inverse == x.inverse
  {
    if !InRange(row) || !InRange(column) then Err(IndexNotBetweenZeroAndTwo)
    else Ok(x.(mat := Put(x.mat, row, column, value)))
  }

  /** `getValue`: rejects an index outside 0..2; otherwise reads that entry. */
  function GetValue(x: Matrix, row: int, column: int): (r: Result<real, MatrixError>)
    ensures r.Ok? <==> InRange(row) && InRange(column)
    ensures r.Err? ==> r.error == IndexNotBetweenZeroAndTwo
    ensures r.Ok? ==> r.value == At(x.mat, row, column)
  {
    if !InRange(row) || !InRange(column) then Err(IndexNotBetweenZeroAndTwo)
    else Ok(At(x.mat, row, column))
  }

  /** Reading back an entry just written gives the written value; other entries are as before. */
  lemma SetThenGet(x: Matrix, row: int, column: int, value: real, i: int, j: int)
    requires InRange(row) && InRange(column)
    ensures GetValue(SetValue(x, row, column, value).value, i, j)
         == if (i, j) == (row, column) then Ok(value) else GetValue(x, i, j)
  {
  }

  // ---------------------------------------------------------------------------
  // Minors and the determinant
  // ---------------------------------------------------------------------------

  /** The two indices other than `i`, in increasing order. */
  function Others(i: int): (r: (int, int))
    requires InRange(i)
    ensures 0 <= r.0 < r.1 < 3 && r.0 != i && r.1 != i
  {
    if i == 0 then (1, 2) else if i == 1 then (0, 2) else (0, 1)
  }

  /** The determinant of the 2x2 matrix that deleting `row` and `column` leaves. */
  function MinorOf(m: Mat3, row: int, column: int): real
    requires InRange(row) && InRange(column)
  {
    var (r0, r1) := Others(row);
    var (c0, c1) := Others(column);
    At(m, r0, c0) * At(m, r1, c1) - At(m, r0, c1) * At(m, r1, c0)
  }

  /** The entries outside `row` and `column` that come before position (r, c) in row-major order. */
  function KeptBefore(m: Mat3, row: int, column: int, r: nat, c: nat): seq<real>
    requires r <= 3 && c <= 3
    decreases r, c
  {
    if c == 0 then (if r == 0 then [] else KeptBefore(m, row, column, r - 1, 3))
    else KeptBefore(m, row, column, r, c - 1) + Kept(m, row, column, r, c - 1)
  }

  /** Entry (r, c) if the copy keeps it. */
  function Kept(m: Mat3, row: int, column: int, r: int, c: int): seq<real> {
    if r == row || c == column then [] else [At(m, r, c)]
  }

  /** What row `r` contributes to the copy: nothing for the deleted row, else its two entries outside the deleted column. */
  function RowKept(m: Mat3, row: int, column: int, r: int): seq<real>
    requires InRange(column)
  {
    var (c0, c1) := Others(column);
    if r == row then [] else [At(m, r, c0), At(m, r, c1)]
  }

  /** Copying row `r` appends exactly that row's contribution. */
  lemma KeptRow(m: Mat3, row: int, column: int, r: nat)
    requires InRange(column) && r < 3
    ensures KeptBefore(m, row, column, r + 1, 0) == KeptBefore(m, row, column, r, 0) + RowKept(m, row, column, r)
  {
    KeptAlongRow(m, row, column, r);
    RowPieces(m, row, column, r);
    AppendThree(KeptBefore(m, row, column, r, 0), Kept(m, row, column, r, 0), Kept(m, row, column, r, 1), Kept(m, row, column, r, 2));
  }

  lemma KeptAlongRow(m: Mat3, row: int, column: int, r: nat)
    requires r < 3
    ensures KeptBefore(m, row, column, r + 1, 0)
         == KeptBefore(m, row, column, r, 0) + Kept(m, row, column, r, 0) + Kept(m, row, column, r, 1) + Kept(m, row, column, r, 2)
  {
    assert KeptBefore(m, row, column, r + 1, 0) == KeptBefore(m, row, column, r, 3);
  }

  lemma AppendThree(a: seq<real>, b: seq<real>, c: seq<real>, d: seq<real>)
    ensures a + b + c + d == a + (b + c + d)
  {
  }

  lemma RowPieces(m: Mat3, row: int, column: int, r: nat)
    requires InRange(column) && r < 3
    ensures Kept(m, row, column, r, 0) + Kept(m, row, column, r, 1) + Kept(m, row, column, r, 2) == RowKept(m, row, column, r)
  {
  }

  lemma KeptAll(m: Mat3, row: int, column: int)
    requires InRange(row) && InRange(column)
    ensures var (r0, r1) := Others(row);
            var (c0, c1) := Others(column);
            KeptBefore(m, row, column, 3, 0) == [At(m, r0, c0), At(m, r0, c1), At(m, r1, c0), At(m, r1, c1)]
  {
    KeptRows(m, row, column, 3);
    RowsAssemble(m, row, column);
  }

  /** The contributions of the rows before `r`, in order. */
  function RowsKept(m: Mat3, row: int, column: int, r: nat): seq<real>
    requires InRange(column) && r <= 3
  {
    if r == 0 then [] else RowsKept(m, row, column, r - 1) + RowKept(m, row, column, r - 1)
  }

  /** Copying whole rows gathers their contributions. */
  lemma {:induction false} KeptRows(m: Mat3, row: int, column: int, r: nat)
    requires InRange(column) && r <= 3
    ensures KeptBefore(m, row, column, r, 0) == RowsKept(m, row, column, r)
  {
    if r > 0 {
      KeptRows(m, row, column, r - 1);
      KeptRow(m, row, column, r - 1);
    }
  }

  lemma RowsAssemble(m: Mat3, row: int, column: int)
    requires InRange(row) && InRange(column)
    ensures var (r0, r1) := Others(row);
            var (c0, c1) := Others(column);
            RowsKept(m, row, column, 3) == [At(m, r0, c0), At(m, r0, c1), At(m, r1, c0), At(m, r1, c1)]
  {
    assert RowsKept(m, row, column, 1) == RowKept(m, row, column, 0);
    assert RowsKept(m, row, column, 3) == RowKept(m, row, column, 0) + RowKept(m, row, column, 1) + RowKept(m, row, column, 2);
  }

  /**
   * `minor`: the loop that copies, in row-major order, the four entries
   * outside the deleted row and column, then takes the 2x2 determinant of
   * the copy.
   */
  method Minor(m: Mat3, row: int, column: int) returns (d: real)
    requires InRange(row) && InRange(column)
    ensures d == MinorOf(m, row, column)
  {
    var minor: seq<real> := [];
    var r := 0;
    while r < 3
      invariant 0 <= r <= 3
      invariant minor == KeptBefore(m, row, column, r, 0)
    {
      var c := 0;
      while c < 3
        invariant 0 <= c <= 3
        invariant minor == KeptBefore(m, row, column, r, c)
      {
        if r != row && c != column {
          minor := minor + [At(m, r, c)];
        }
        c := c + 1;
      }
      r := r + 1;
    }
    KeptAll(m, row, column);
    d := minor[0] * minor[3] - minor[1] * minor[2];
  }

  /** `determinant`: the cofactor expansion along row 0, which is the rule of Sarrus. */
  function Determinant(m: Mat3): (d: real)
    ensures d == m.r0.x * m.r1.y * m.r2.z + m.r0.y * m.r1.z * m.r2.x + m.r0.z * m.r1.x * m.r2.y
               - m.r0.z * m.r1.y * m.r2.x - m.r0.x * m.r1.z * m.r2.y - m.r0.y * m.r1.x * m.r2.z
  {
    At(m, 0, 0) * MinorOf(m, 0, 0) - At(m, 0, 1) * MinorOf(m, 0, 1) + At(m, 0, 2) * MinorOf(m, 0, 2)
  }

  /** The matrix of all nine minors. */
  function Minors(m: Mat3): Mat3 {
    Of(MinorOf(m, 0, 0), MinorOf(m, 0, 1), MinorOf(m, 0, 2),
       MinorOf(m, 1, 0), MinorOf(m, 1, 1), MinorOf(m, 1, 2),
       MinorOf(m, 2, 0), MinorOf(m, 2, 1), MinorOf(m, 2, 2))
  }

  // ---------------------------------------------------------------------------
  // Cofactor signs, transpose, scaling
  // ---------------------------------------------------------------------------

  /** The factor `cofactorise` applies at (r, c): +1 where r + c is even, -1 where it is odd. */
  function Sign(r: int, c: int): real {
    if (c + r) % 2 == 0 then 1.0 else -1.0
  }

  /** Row `r` of `v` with the signs applied. */
  function SignRow(v: Vec3, r: int): Vec3 {
    Vec3(Sign(r, 0) * v.x, Sign(r, 1) * v.y, Sign(r, 2) * v.z)
  }

  /** `cofactorise`. */
  function Cofactorise(m: Mat3): Mat3 {
    Mat3(SignRow(m.r0, 0), SignRow(m.r1, 1), SignRow(m.r2, 2))
  }

  /** The signs undo themselves. */
  lemma CofactoriseInvolution(m: Mat3)
    ensures Cofactorise(Cofactorise(m)) == m
  {
    Extensionality(Cofactorise(Cofactorise(m)), m);
  }

  /** The true transpose. */
  function Transpose(m: Mat3): Mat3 {
    Mat3(Column(m, 0), Column(m, 1), Column(m, 2))
  }

  lemma TransposeInvolution(m: Mat3)
    ensures Transpose(Transpose(m)) == m
  {
    Extensionality(Transpose(Transpose(m)), m);
  }

  /**
   * What `transpose` leaves behind. Its loop reads from `temp`, which is the
   * same array it writes to, so each entry below the diagonal is overwritten
   * with its mirror before that mirror is read: the result copies the upper
   * triangle onto the lower one.
   */
  function AliasedTranspose(m: Mat3): (r: Mat3)
    ensures forall i, j :: InRange(i) && InRange(j) && i <= j ==> At(r, i, j) == At(m, i, j)
    ensures forall i, j :: InRange(i) && InRange(j) ==> At(r, i, j) == At(r, j, i)
  {
    Of(m.r0.x, m.r0.y, m.r0.z,
       m.r0.y, m.r1.y, m.r1.z,
       m.r0.z, m.r1.z, m.r2.z)
  }

  /** Whether the loop visits (r2, c2) before position (r, c) in row-major order. */
  predicate Visited(r2: int, c2: int, r: int, c: int) {
    r2 < r || (r2 == r && c2 < c)
  }

  /** The array after the loop has visited every position before (r, c). */
  function TransposeState(m: Mat3, r: int, c: int): Mat3 {
    Of(StateAt(m, 0, 0, r, c), StateAt(m, 0, 1, r, c), StateAt(m, 0, 2, r, c),
       StateAt(m, 1, 0, r, c), StateAt(m, 1, 1, r, c), StateAt(m, 1, 2, r, c),
       StateAt(m, 2, 0, r, c), StateAt(m, 2, 1, r, c), StateAt(m, 2, 2, r, c))
  }

  /** Entry (a, b) of that array: below the diagonal, the mirror entry once the loop has copied it. */
  function StateAt(m: Mat3, a: int, b: int, r: int, c: int): real {
    if a > b && Visited(b, a, r, c) then At(m, b, a) else At(m, a, b)
  }

  /** `transpose` as written: `Mat[c][r] = temp[r][c]` in row-major order, on one shared array. */
  method TransposeAsWritten(m: Mat3) returns (t: Mat3)
    ensures t == AliasedTranspose(m)
  {
    t := m;
    Extensionality(t, TransposeState(m, 0, 0));
    var r := 0;
    while r < 3
      invariant 0 <= r <= 3
      invariant t == TransposeState(m, r, 0)
    {
      var c := 0;
      while c < 3
        invariant 0 <= c <= 3
        invariant t == TransposeState(m, r, c)
      {
        var v := At(t, r, c);
        assert v == if r > c then At(m, c, r) else At(m, r, c);
        t := Put(t, c, r, v);
        Extensionality(t, TransposeState(m, r, c + 1));
        c := c + 1;
      }
      Extensionality(t, TransposeState(m, r + 1, 0));
      r := r + 1;
    }
    Extensionality(t, AliasedTranspose(m));
  }

  /** The aliased transpose is always symmetric, and it is the transpose exactly when the input is symmetric. */
  lemma AliasedTransposeSymmetric(m: Mat3)
    ensures AliasedTranspose(m) == Transpose(AliasedTranspose(m))
    ensures AliasedTranspose(m) == Transpose(m) <==> m == Transpose(m)
  {
    var a := AliasedTranspose(m);
    Extensionality(a, Transpose(a));
    if m == Transpose(m) {
      Extensionality(a, Transpose(m));
    }
    if a == Transpose(m) {
      forall i, j | InRange(i) && InRange(j)
        ensures At(m, i, j) == At(Transpose(m), i, j)
      {
        if i > j {
          assert At(a, i, j) == At(m, j, i);
        } else {
          assert At(a, j, i) == At(m, i, j);
        }
      }
      Extensionality(m, Transpose(m));
    }
  }

  /** A non-symmetric matrix whose aliased transpose is not its transpose. */
  lemma AliasedTransposeIsNotTranspose()
    ensures AliasedTranspose(Of(0.0, 0.0, 0.0, 1.0, 0.0, 0.0, 0.0, 0.0, 0.0))
         != Transpose(Of(0.0, 0.0, 0.0, 1.0, 0.0, 0.0, 0.0, 0.0, 0.0))
  {
    var m := Of(0.0, 0.0, 0.0, 1.0, 0.0, 0.0, 0.0, 0.0, 0.0);
    assert At(AliasedTranspose(m), 0, 1) == 0.0;
    assert At(Transpose(m), 0, 1) == 1.0;
  }

  /** `scale`: every entry times the scalar. */
  function ScaleMat(m: Mat3, k: real): Mat3 {
    Mat3(Scale(m.r0, k), Scale(m.r1, k), Scale(m.r2, k))
  }

  // ---------------------------------------------------------------------------
  // Products
  // ---------------------------------------------------------------------------

  /** `leftMultiplyVector`: the vector of the rows' dot products with `v`. */
  function LeftMultiply(m: Mat3, v: Vec3): Vec3 {
    Vec3(Dot(m.r0, v), Dot(m.r1, v), Dot(m.r2, v))
  }

  /** `multiply`'s entries: column j is `this` applied to column j of the argument. */
  function MatMul(a: Mat3, b: Mat3): Mat3 {
    FromColumns(LeftMultiply(a, Column(b, 0)), LeftMultiply(a, Column(b, 1)), LeftMultiply(a, Column(b, 2)))
  }

  /** The matrix with the given columns, as `multiply` assembles its result. */
  function FromColumns(c0: Vec3, c1: Vec3, c2: Vec3): Mat3 {
    Of(c0.x, c1.x, c2.x, c0.y, c1.y, c2.y, c0.z, c1.z, c2.z)
  }

  lemma FromColumnsScale(c0: Vec3, c1: Vec3, c2: Vec3, k: real)
    ensures FromColumns(Scale(c0, k), Scale(c1, k), Scale(c2, k)) == ScaleMat(FromColumns(c0, c1, c2), k)
  {
  }

  /** `multiply`: a new matrix built through the array constructor, so its inverse is computed at once. */
  function Multiply(x: Matrix, y: Matrix): (r: Matrix)
    ensures r.mat == MatMul(x.mat, y.mat)
    ensures r.inverse == Computed(InverseAsWritten(r.mat))
  {
    var p := MatMul(x.mat, y.mat);
    Matrix(p, Computed(InverseAsWritten(p)))
  }

  /** Entry (i, j) of the product is row i of the left factor dotted with column j of the right. */
  lemma MatMulEntries(a: Mat3, b: Mat3, i: int, j: int)
    requires InRange(i) && InRange(j)
    ensures At(MatMul(a, b), i, j) == Dot(Row(a, i), Column(b, j))
  {
  }

  /** Applying the product is applying the right factor and then the left one. */
  lemma MatMulApply(a: Mat3, b: Mat3, v: Vec3)
    ensures LeftMultiply(MatMul(a, b), v) == LeftMultiply(a, LeftMultiply(b, v))
  {
  }

  lemma MatMulIdentity(m: Mat3)
    ensures MatMul(m, Identity) == m
    ensures MatMul(Identity, m) == m
  {
  }

  /** Scaling the matrix scales the vectors it produces. */
  lemma ScaleMatApply(m: Mat3, k: real, v: Vec3)
    ensures LeftMultiply(ScaleMat(m, k), v) == Scale(LeftMultiply(m, v), k)
  {
    DotScale(m.r0, k, v);
    DotScale(m.r1, k, v);
    DotScale(m.r2, k, v);
  }

  // ---------------------------------------------------------------------------
  // The inverse
  // ---------------------------------------------------------------------------

  /** The transpose of the cofactor matrix. */
  function Adjugate(m: Mat3): Mat3 {
    Transpose(Cofactorise(Minors(m)))
  }

  /**
   * The corrected `calculateInverse`: the adjugate over the determinant,
   * `None` when the determinant is zero. It exists exactly for a non-singular
   * matrix, and it is then a right inverse.
   */
  function Inverse(m: Mat3): (r: Option<Mat3>)
    ensures r.Some? <==> Determinant(m) != 0.0
    ensures r.Some? ==> MatMul(m, r.value) == Identity
  {
    var d := Determinant(m);
    if d == 0.0 then None
    else
      AdjugateProduct(m);
      MatMulScale(m, Adjugate(m), 1.0 / d);
      assert d * (1.0 / d) == 1.0;
      Extensionality(ScaleMat(ScaleMat(Identity, d), 1.0 / d), Identity);
      Some(ScaleMat(Adjugate(m), 1.0 / d))
  }

  /**
   * `calculateInverse` as written, which goes through the aliased transpose:
   * it exists exactly for a non-singular matrix, and it is always symmetric.
   */
  function InverseAsWritten(m: Mat3): (r: Option<Mat3>)
    ensures r.Some? <==> Determinant(m) != 0.0
    ensures r.Some? ==> r.value == Transpose(r.value)
  {
    var d := Determinant(m);
    if d == 0.0 then None
    else
      var a := AliasedTranspose(Cofactorise(Minors(m)));
      SymmetricScale(a, 1.0 / d);
      Some(ScaleMat(a, 1.0 / d))
  }

  /** A multiple of a symmetric matrix is symmetric. */
  lemma SymmetricScale(a: Mat3, k: real)
    requires forall i, j :: InRange(i) && InRange(j) ==> At(a, i, j) == At(a, j, i)
    ensures ScaleMat(a, k) == Transpose(ScaleMat(a, k))
  {
    Extensionality(ScaleMat(a, k), Transpose(ScaleMat(a, k)));
  }

  /** Scaling by a non-zero factor loses nothing. */
  lemma ScaleMatInjective(a: Mat3, b: Mat3, k: real)
    requires k != 0.0 && ScaleMat(a, k) == ScaleMat(b, k)
    ensures a == b
  {
    ScaleInjective(a.r0, b.r0, k);
    ScaleInjective(a.r1, b.r1, k);
    ScaleInjective(a.r2, b.r2, k);
  }

  lemma ScaleInjective(u: Vec3, v: Vec3, k: real)
    requires k != 0.0 && Scale(u, k) == Scale(v, k)
    ensures u == v
  {
    CancelFactor(u.x, v.x, k);
    CancelFactor(u.y, v.y, k);
    CancelFactor(u.z, v.z, k);
  }

  lemma CancelFactor(x: real, y: real, k: real)
    requires k != 0.0 && k * x == k * y
    ensures x == y
  {
    assert k * (x - y) == 0.0;
  }

  /**
   * For a non-singular matrix the inverse as written is the true inverse
   * exactly when its cofactor matrix is symmetric, which is when the aliased
   * transpose happens to be the transpose.
   */
  lemma InverseAsWrittenAgrees(m: Mat3)
    requires Determinant(m) != 0.0
    ensures InverseAsWritten(m) == Inverse(m) <==> Cofactorise(Minors(m)) == Transpose(Cofactorise(Minors(m)))
  {
    var c := Cofactorise(Minors(m));
    var k := 1.0 / Determinant(m);
    AliasedTransposeSymmetric(c);
    if InverseAsWritten(m) == Inverse(m) {
      ScaleMatInjective(AliasedTranspose(c), Transpose(c), k);
    }
  }

  /** Each minor written out. */
  lemma MinorsExplicit(m: Mat3)
    ensures Minors(m)
         == Of(m.r1.y * m.r2.z - m.r1.z * m.r2.y, m.r1.x * m.r2.z - m.r1.z * m.r2.x, m.r1.x * m.r2.y - m.r1.y * m.r2.x,
               m.r0.y * m.r2.z - m.r0.z * m.r2.y, m.r0.x * m.r2.z - m.r0.z * m.r2.x, m.r0.x * m.r2.y - m.r0.y * m.r2.x,
               m.r0.y * m.r1.z - m.r0.z * m.r1.y, m.r0.x * m.r1.z - m.r0.z * m.r1.x, m.r0.x * m.r1.y - m.r0.y * m.r1.x)
  {
    assert MinorOf(m, 0, 0) == m.r1.y * m.r2.z - m.r1.z * m.r2.y;
    assert MinorOf(m, 0, 1) == m.r1.x * m.r2.z - m.r1.z * m.r2.x;
    assert MinorOf(m, 0, 2) == m.r1.x * m.r2.y - m.r1.y * m.r2.x;
    assert MinorOf(m, 1, 0) == m.r0.y * m.r2.z - m.r0.z * m.r2.y;
    assert MinorOf(m, 1, 1) == m.r0.x * m.r2.z - m.r0.z * m.r2.x;
    assert MinorOf(m, 1, 2) == m.r0.x * m.r2.y - m.r0.y * m.r2.x;
    assert MinorOf(m, 2, 0) == m.r0.y * m.r1.z - m.r0.z * m.r1.y;
    assert MinorOf(m, 2, 1) == m.r0.x * m.r1.z - m.r0.z * m.r1.x;
    assert MinorOf(m, 2, 2) == m.r0.x * m.r1.y - m.r0.y * m.r1.x;
  }

  /** The cofactor matrix's rows are the cross products of pairs of rows. */
  lemma CofactorRows(m: Mat3)
    ensures Cofactorise(Minors(m)) == Mat3(Cross(m.r1, m.r2), Cross(m.r2, m.r0), Cross(m.r0, m.r1))
  {
    CofactorRow0(m);
    CofactorRow1(m);
    CofactorRow2(m);
  }

  lemma CofactorRow0(m: Mat3)
    ensures Cofactorise(Minors(m)).r0 == Cross(m.r1, m.r2)
  {
    MinorsExplicit(m);
    SignValues();
  }

  lemma CofactorRow1(m: Mat3)
    ensures Cofactorise(Minors(m)).r1 == Cross(m.r2, m.r0)
  {
    MinorsExplicit(m);
    SignValues();
  }

  lemma CofactorRow2(m: Mat3)
    ensures Cofactorise(Minors(m)).r2 == Cross(m.r0, m.r1)
  {
    MinorsExplicit(m);
    SignValues();
  }

  /** The checkerboard of cofactor signs. */
  lemma SignValues()
    ensures Sign(0, 0) == 1.0 && Sign(0, 1) == -1.0 && Sign(0, 2) == 1.0
    ensures Sign(1, 0) == -1.0 && Sign(1, 1) == 1.0 && Sign(1, 2) == -1.0
    ensures Sign(2, 0) == 1.0 && Sign(2, 1) == -1.0 && Sign(2, 2) == 1.0
  {
  }

  /** The triple product of the rows, taken from any of them, is the determinant. */
  lemma TripleProducts(m: Mat3)
    ensures Dot(m.r0, Cross(m.r1, m.r2)) == Determinant(m)
    ensures Dot(m.r1, Cross(m.r2, m.r0)) == Determinant(m)
    ensures Dot(m.r2, Cross(m.r0, m.r1)) == Determinant(m)
  {
    var a, b, c, d, e, f, g, h, i := m.r0.x, m.r0.y, m.r0.z, m.r1.x, m.r1.y, m.r1.z, m.r2.x, m.r2.y, m.r2.z;
    TripleExpansion(a, b, c, d, e, f, g, h, i);
    TripleExpansion(d, e, f, g, h, i, a, b, c);
    TripleExpansion(g, h, i, a, b, c, d, e, f);
  }

  /** The triple product of three rows, expanded; it does not change when the rows rotate. */
  lemma TripleExpansion(a: real, b: real, c: real, d: real, e: real, f: real, g: real, h: real, i: real)
    ensures a * (e * i - f * h) + b * (f * g - d * i) + c * (d * h - e * g)
         == a * e * i + b * f * g + c * d * h - c * e * g - a * f * h - b * d * i
    ensures d * (h * c - i * b) + e * (i * a - g * c) + f * (g * b - h * a)
         == a * e * i + b * f * g + c * d * h - c * e * g - a * f * h - b * d * i
  {
  }

  /** Multiplying by a transpose dots rows with rows. */
  lemma MatMulTranspose(a: Mat3, x: Mat3)
    ensures MatMul(a, Transpose(x))
         == Of(Dot(a.r0, x.r0), Dot(a.r0, x.r1), Dot(a.r0, x.r2),
               Dot(a.r1, x.r0), Dot(a.r1, x.r1), Dot(a.r1, x.r2),
               Dot(a.r2, x.r0), Dot(a.r2, x.r1), Dot(a.r2, x.r2))
  {
  }

  /** A matrix times its adjugate is its determinant times the identity. */
  lemma AdjugateProduct(m: Mat3)
    ensures MatMul(m, Adjugate(m)) == ScaleMat(Identity, Determinant(m))
  {
    var a, b, c := m.r0, m.r1, m.r2;
    var x := Mat3(Cross(b, c), Cross(c, a), Cross(a, b));
    var d := Determinant(m);
    CofactorRows(m);
    MatMulTranspose(m, x);
    assert MatMul(m, Adjugate(m))
        == Of(Dot(a, x.r0), Dot(a, x.r1), Dot(a, x.r2),
              Dot(b, x.r0), Dot(b, x.r1), Dot(b, x.r2),
              Dot(c, x.r0), Dot(c, x.r1), Dot(c, x.r2));
    TripleProducts(m);
    CrossOrthogonal(b, c);
    CrossOrthogonal(c, a);
    CrossOrthogonal(a, b);
    ScaleIdentity(d);
  }

  lemma ScaleIdentity(d: real)
    ensures ScaleMat(Identity, d) == Of(d, 0.0, 0.0, 0.0, d, 0.0, 0.0, 0.0, d)
  {
  }

  lemma MatMulScale(a: Mat3, b: Mat3, k: real)
    ensures MatMul(a, ScaleMat(b, k)) == ScaleMat(MatMul(a, b), k)
  {
    var s := ScaleMat(b, k);
    assert Column(s, 0) == Scale(Column(b, 0), k);
    assert Column(s, 1) == Scale(Column(b, 1), k);
    assert Column(s, 2) == Scale(Column(b, 2), k);
    LeftMultiplyScale(a, Column(b, 0), k);
    LeftMultiplyScale(a, Column(b, 1), k);
    LeftMultiplyScale(a, Column(b, 2), k);
    FromColumnsScale(LeftMultiply(a, Column(b, 0)), LeftMultiply(a, Column(b, 1)), LeftMultiply(a, Column(b, 2)), k);
  }

  lemma LeftMultiplyScale(a: Mat3, v: Vec3, k: real)
    ensures LeftMultiply(a, Scale(v, k)) == Scale(LeftMultiply(a, v), k)
  {
  }

  /** A shear: the identity plus the entry `s` above the diagonal. */
  function Shear(s: real): Mat3 {
    Of(1.0, s, 0.0, 0.0, 1.0, 0.0, 0.0, 0.0, 1.0)
  }

  lemma ShearDeterminant(s: real)
    ensures Determinant(Shear(s)) == 1.0
  {
  }

  /** The shear's cofactors sit on and below the diagonal, so the aliased transpose sees only the diagonal. */
  lemma ShearAliased(s: real)
    ensures Cofactorise(Minors(Shear(s))) == Of(1.0, 0.0, 0.0, -s, 1.0, 0.0, 0.0, 0.0, 1.0)
    ensures AliasedTranspose(Cofactorise(Minors(Shear(s)))) == Identity
  {
    var m := Shear(s);
    assert m == Mat3(Vec3(1.0, s, 0.0), Vec3(0.0, 1.0, 0.0), Vec3(0.0, 0.0, 1.0));
    assert Cross(m.r1, m.r2) == Vec3(1.0, 0.0, 0.0);
    assert Cross(m.r2, m.r0) == Vec3(-s, 1.0, 0.0);
    assert Cross(m.r0, m.r1) == Vec3(0.0, 0.0, 1.0);
    CofactorRows(m);
  }

  lemma ShearInverseAsWritten(s: real)
    ensures InverseAsWritten(Shear(s)) == Some(Identity)
  {
    assert InverseAsWritten(Shear(s)) == Some(ScaleMat(AliasedTranspose(Cofactorise(Minors(Shear(s)))), 1.0)) by {
      ShearDeterminant(s);
    }
    ShearAliased(s);
    ScaleIdentity(1.0);
  }

  /**
   * Every non-trivial shear has determinant 1, yet its inverse as written is
   * the identity, which is not its inverse.
   */
  lemma InverseAsWrittenFails(s: real)
    requires s != 0.0
    ensures Determinant(Shear(s)) == 1.0
    ensures InverseAsWritten(Shear(s)) == Some(Identity)
    ensures MatMul(Shear(s), Identity) != Identity
  {
    ShearDeterminant(s);
    ShearInverseAsWritten(s);
    MatMulIdentity(Shear(s));
  }

  /**
   * `getInverse`: the cached inverse when there is one; otherwise it is
   * computed, stored and returned.
   */
  function GetInverse(x: Matrix): (r: (Matrix, Option<Mat3>))
    ensures r.0.mat == x.mat
    ensures r.0.inverse == Computed(r.1)
    ensures x.inverse.Computed? ==> r == (x, x.inverse.value)
    ensures x.inverse.Uncomputed? ==> r.1 == InverseAsWritten(x.mat)
  {
    match x.inverse
    case Computed(v) => (x, v)
    case Uncomputed =>
      var v := InverseAsWritten(x.mat);
      (x.(inverse := Computed(v)), v)
  }

  /** Asking twice gives the same answer and changes nothing the second time. */
  lemma GetInverseCaches(x: Matrix)
    ensures GetInverse(GetInverse(x).0) == GetInverse(x)
  {
  }
}
