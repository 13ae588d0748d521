# A verified model of a Java ray tracer

The modelled program is a small Whitted-style ray tracer. The command line picks a scene file, an output file, an image size and a bounce budget. The scene loader reads an XML file of spheres, planes, cones, cylinders and lights into a scene. For every pixel the camera casts a ray. The renderer traces it: it finds the nearest object hit, shades it with Phong illumination and shadow rays, and follows reflected and refracted rays until the bounce budget runs out. Texture and bump maps are looked up with Java `int` arithmetic. A 3×3 matrix class supplies the camera rotation and the inverse.

The model is in Dafny, one module per class or concern:

- `Results`, `JavaInt` and `JavaMath` hold Java's semantics:
  - `Option` and `Result`;
  - the truncating `%` and `/` on `int`, the saturating `(int)` cast, `Integer.parseInt`, and `%` on doubles;
  - `MathLib`, a record of the transcendental functions with the laws the proofs use (`sqrt(x)² = x` for `x ≥ 0`, `cos² + sin² = 1`, `acos` in `[0, π]`).
- `Vectors` and `Colours` stand in for `Vector3` and `ColorRGB`.
- `Rays`, `Cameras`, `SquareMatrix3`, `RaycastHit`, `Roots`, `Axes`, `Texels`, `Spheres`, `Planes`, `Cones`, `Cylinders`, `SceneObjects`, `Rendering`, `SceneLoading` and `CommandLine` model the classes of the same names.

Doubles are modelled as mathematical reals. The miss distance `Double.POSITIVE_INFINITY` is a datatype case (`Distance.Infinite`, `Hit.Miss`). Mutating methods become functions that return the new value.

Four places in the source do not do what their own comments and surrounding code evidently intend. They are listed under "## Findings". The operations follow the code as written, including these four places, so the rest of the model inherits their effects. Next to each as-written member sits a corrected definition with the intended property proved about it.

Two oddities are modelled exactly as written, because nothing shows they are unintended:

- the plane's texture row is scaled by the map's width but wrapped by its height (`Plane.java:321`);
- the cylinder's texture lookup reads the angle as the column and the axial height as the row, swapping the pair `getHTheta` returns.

## Model

| member | source | states |
|---|---|---|
| Rays.EvaluateAtZero | src/uk/ac/cam/cl/bdt29/Ray.java:31-33 | `evaluateAt(0)` is the origin |
| Rays.EvaluateAtShift | src/uk/ac/cam/cl/bdt29/Ray.java:31-33 | `evaluateAt(s + t)` is `evaluateAt(s)` moved by `t` along the direction: the map is affine |
| Rays.AxialOffsetAlongRay | src/uk/ac/cam/cl/bdt29/Ray.java:31-33 | the projection of `P(t) − c` on an axis grows linearly in `t` |
| Rays.OffsetLengthAlongRay | src/uk/ac/cam/cl/bdt29/Ray.java:31-33 | `|P(t) − c|²` is the quadratic in `t` that every shape's coefficients come from |
| Rays.EvaluateAtDistance | src/uk/ac/cam/cl/bdt29/Ray.java:30-33 | for a unit direction, the parameter is the distance travelled from the origin |
| Cameras.NewCamera | src/uk/ac/cam/cl/bdt29/Camera.java:26-39 | a camera exists exactly when both pixel counts are non-zero; its rotation is `FindRotationMatrix` of the angles and its steps are calibrated |
| Cameras.WithRotation | src/uk/ac/cam/cl/bdt29/Camera.java:32-38 | step × pixel count is the plane size in each direction, and the plane has the image's aspect ratio |
| Cameras.SquarePixels | src/uk/ac/cam/cl/bdt29/Camera.java:32-38 | the horizontal and vertical steps are equal |
| Cameras.PixelXLayout | src/uk/ac/cam/cl/bdt29/Camera.java:80 | pixel columns lie one step apart, and column `x` mirrors column `W − 1 − x` about the centre |
| Cameras.PixelYLayout | src/uk/ac/cam/cl/bdt29/Camera.java:81 | with the corrected offset, rows fall one step per row and row `y` mirrors row `H − 1 − y` |
| Cameras.PixelYAsWrittenShifted | src/uk/ac/cam/cl/bdt29/Camera.java:81 | as written, every row sits one whole step above the symmetric position, so mirrored rows sum to `2·yStep` rather than 0 |
| Cameras.CastRay | src/uk/ac/cam/cl/bdt29/Camera.java:76-88 | the primary ray, with the row position as written, starts at the camera's origin in a medium of index 1 |
| Cameras.CorrectedCastRay | src/uk/ac/cam/cl/bdt29/Camera.java:76-88 | with the evidently intended row offset, pixel `(x, y)` gets the ray the source casts for `(x, y + 1)`: every row is shown one row lower |
| Cameras.CastRayUnit | src/uk/ac/cam/cl/bdt29/Camera.java:83-85 | the primary ray's direction has unit length whatever the pixel |
| Cameras.ElementaryDeterminants | src/uk/ac/cam/cl/bdt29/Camera.java:51-65 | each elementary rotation has determinant 1 when `c² + s² = 1` |
| Cameras.RotXPreservesLength | src/uk/ac/cam/cl/bdt29/Camera.java:51-55 | the x rotation keeps every vector's length |
| Cameras.RotYPreservesLength | src/uk/ac/cam/cl/bdt29/Camera.java:56-60 | the y rotation keeps every vector's length |
| Cameras.RotZPreservesLength | src/uk/ac/cam/cl/bdt29/Camera.java:61-65 | the z rotation keeps every vector's length |
| Cameras.ProductPreservesLength | src/uk/ac/cam/cl/bdt29/Camera.java:71 | a product of length-preserving matrices preserves length |
| Cameras.EulerPreservesLength | src/uk/ac/cam/cl/bdt29/Camera.java:41-73 | `RZ·RY·RX` keeps lengths for any three angles |
| Cameras.RotationPreservesLength | src/uk/ac/cam/cl/bdt29/Camera.java:41-74 | the camera rotation found from any Euler angles in degrees keeps lengths |
| CommandLine.RunEnd | src/uk/ac/cam/cl/bdt29/Main.java:57-59 | the end of the maximal run of digits starting at `i` |
| CommandLine.FindFrom | src/uk/ac/cam/cl/bdt29/Main.java:57-59 | a match of `(\d+)x(\d+)` found by the scan has two non-empty all-digit groups |
| CommandLine.Resolution | src/uk/ac/cam/cl/bdt29/Main.java:55-70 | no match is a usage error, and any accepted resolution is within the supported bounds |
| CommandLine.FindExact | src/uk/ac/cam/cl/bdt29/Main.java:57-61 | on `WxH` made of two digit strings, the unanchored find returns exactly those two groups |
| CommandLine.ResolutionOfSize | src/uk/ac/cam/cl/bdt29/Main.java:57-65 | a written `WxH` is accepted with those values if and only if it is within the bounds, and is a usage error otherwise |
| CommandLine.AsymmetricBounds | src/uk/ac/cam/cl/bdt29/Main.java:62 | `4096x4095` is accepted but `4095x4096` is rejected: width may reach 4096, height may not |
| CommandLine.Step | src/uk/ac/cam/cl/bdt29/Main.java:42-74 | an option key other than the eight aliases is a usage error |
| CommandLine.ParseArguments | src/uk/ac/cam/cl/bdt29/Main.java:13-41 | an odd argument count is a usage error; no arguments give `scenes/cone.xml`, `renders/test.png`, 1920×1080 and 4 bounces |
| CommandLine.LastFromWins | src/uk/ac/cam/cl/bdt29/Main.java:41-75 | the field an option sets holds the value of that option's last occurrence |
| CommandLine.UntouchedFrom | src/uk/ac/cam/cl/bdt29/Main.java:41-75 | a field whose option never occurs keeps its value |
| CommandLine.LastOccurrenceWins | src/uk/ac/cam/cl/bdt29/Main.java:36-75 | input, output, bounces and the resolution each come from the last occurrence of their alias pair, or stay at the default |
| CommandLine.OnlyKnownKeys | src/uk/ac/cam/cl/bdt29/Main.java:71-74 | a successful parse has only known keys at its even positions |
| CommandLine.NegativeBouncesAccepted | src/uk/ac/cam/cl/bdt29/Main.java:53 | `--bounces -3` is accepted as a negative budget |
| JavaInt.Wrap | src/uk/ac/cam/cl/bdt29/elements/Sphere.java:225-226 | 32-bit wrap-around of `u + 1`: an `int`, congruent to the input modulo 2³², and unchanged on `int`s |
| JavaInt.Quot | src/uk/ac/cam/cl/bdt29/elements/Sphere.java:170-171 | Java's `/` truncates: the magnitude is `|a| / |b|`, and the sign follows the operands' signs |
| JavaInt.Rem | src/uk/ac/cam/cl/bdt29/elements/Sphere.java:170-171 | Java's `%` is smaller than the divisor in magnitude and has the dividend's sign |
| JavaInt.QuotRem | src/uk/ac/cam/cl/bdt29/elements/Sphere.java:170-171 | `a == b·(a / b) + a % b` for Java's operators |
| JavaInt.WrapIndex | src/uk/ac/cam/cl/bdt29/elements/Plane.java:240-250 | `%` followed by adding the size when negative always lands in `[0, b)`, and keeps indices already there |
| JavaInt.WrapIndexCongruent | src/uk/ac/cam/cl/bdt29/elements/Plane.java:240-250 | the wrapped index differs from the input by a multiple of the size |
| JavaInt.Trunc | src/uk/ac/cam/cl/bdt29/elements/Sphere.java:200-201 | truncation toward zero: the integer within one of `d` on the side of zero |
| JavaInt.D2I | src/uk/ac/cam/cl/bdt29/elements/Sphere.java:200-201 | the `(int)` cast saturates at the `int` bounds and truncates in between |
| JavaInt.CastScaled | src/uk/ac/cam/cl/bdt29/elements/Sphere.java:200-201 | `(int)((double) n * (v / s))` is the cast of the product; a zero `s` gives `MaxInt` for a positive quotient and 0 for NaN |
| JavaInt.ScaledNonNegative | src/uk/ac/cam/cl/bdt29/elements/Sphere.java:200-201 | the scaled value is non-negative for non-negative size, parameter and positive scale |
| JavaInt.Frac | src/uk/ac/cam/cl/bdt29/SceneLoader.java:170 | the fractional part lies in `[0, 1)` for non-negative and `(−1, 0]` for non-positive input |
| JavaInt.FracSplits | src/uk/ac/cam/cl/bdt29/SceneLoader.java:170 | a real is its truncation plus its fractional part |
| JavaInt.DoubleRem | src/uk/ac/cam/cl/bdt29/SceneLoader.java:170 | `x % 360.0` is in `[0, 360)` for non-negative and `(−360, 0]` for non-positive `x` |
| JavaInt.DoubleRemMeaning | src/uk/ac/cam/cl/bdt29/SceneLoader.java:170 | the double remainder is `x − y·trunc(x / y)` |
| JavaInt.DigitValue | src/uk/ac/cam/cl/bdt29/SceneLoader.java:195-197 | a character read as a digit is below the radix |
| JavaInt.ParseInt | src/uk/ac/cam/cl/bdt29/Main.java:53 | `Integer.parseInt` rejects the empty string and a lone sign, returns an `int`, and is negative only after a `-` |
| JavaInt.Digit | src/uk/ac/cam/cl/bdt29/SceneLoader.java:195-197 | the lower-case digit character for each value below 36 |
| JavaInt.DigitRoundTrip | src/uk/ac/cam/cl/bdt29/SceneLoader.java:195-197 | a written digit reads back as its value |
| JavaInt.Format | src/uk/ac/cam/cl/bdt29/Main.java:60-61 | a written natural is non-empty and unsigned |
| JavaInt.DigitsOfFormat | src/uk/ac/cam/cl/bdt29/Main.java:60-61 | the digits of a written natural read back as that natural |
| JavaInt.ParseFormatRoundTrip | src/uk/ac/cam/cl/bdt29/Main.java:60-61 | `parseInt` of a written `int`, with a `-` for negatives, gives the `int` back |
| RaycastHit.HitOn | src/uk/ac/cam/cl/bdt29/RaycastHit.java:25-34 | a shape's missing hit is the miss sentinel, and a present one carries the object and its finite distance |
| RaycastHit.NewScene | src/uk/ac/cam/cl/bdt29/RaycastHit.java:64-72 | a new scene has no objects or lights, ambient light 1, background 0.0001 and a zero camera |
| RaycastHit.AddObject | src/uk/ac/cam/cl/bdt29/RaycastHit.java:74-76 | appends one object and changes nothing else |
| RaycastHit.AddPointLight | src/uk/ac/cam/cl/bdt29/RaycastHit.java:128-130 | appends one light and changes nothing else |
| RaycastHit.CloserOrder | src/uk/ac/cam/cl/bdt29/RaycastHit.java:85 | the strict distance comparison is irreflexive, transitive and negatively transitive |
| RaycastHit.ClosestIsFirstNearest | src/uk/ac/cam/cl/bdt29/RaycastHit.java:79-90 | the scan returns a miss when every object misses, and otherwise the first hit in list order that no other hit is strictly closer than |
| RaycastHit.FirstNearestUnique | src/uk/ac/cam/cl/bdt29/RaycastHit.java:79-90 | the first-nearest hit is unique, so the declarative description determines the scan's result |
| RaycastHit.ClosestIgnoresMiss | src/uk/ac/cam/cl/bdt29/RaycastHit.java:85-87 | a miss never replaces the current closest hit |
| RaycastHit.FindClosestIntersection | src/uk/ac/cam/cl/bdt29/RaycastHit.java:79-90 | a miss exactly when every object misses, and no object's hit is strictly closer than the result |
| RaycastHit.FindCompoundTransmittance | src/uk/ac/cam/cl/bdt29/RaycastHit.java:92-102 | white when no object is hit strictly before the light, and in `[0, 1]` when every object hit transmits a fraction |
| RaycastHit.CompoundNothingBetween | src/uk/ac/cam/cl/bdt29/RaycastHit.java:92-102 | with no hit strictly between 0 and `d`, the compound transmittance is exactly 1 |
| RaycastHit.CompoundInUnit | src/uk/ac/cam/cl/bdt29/RaycastHit.java:92-102 | a product of transmittances in `[0, 1]` stays in `[0, 1]` |
| RaycastHit.CompoundIgnoresMiss | src/uk/ac/cam/cl/bdt29/RaycastHit.java:96 | a miss contributes nothing to the product |
| RaycastHit.AttenuateCommutes | src/uk/ac/cam/cl/bdt29/RaycastHit.java:98 | two hits' attenuations can be applied in either order |
| RaycastHit.CompoundRemove | src/uk/ac/cam/cl/bdt29/RaycastHit.java:94-100 | the product over a list is the product over the list without hit `i`, times hit `i` |
| RaycastHit.CompoundPermutation | src/uk/ac/cam/cl/bdt29/RaycastHit.java:94-100 | the compound transmittance does not depend on the order of the objects |
| RaycastHit.HitsOf | src/uk/ac/cam/cl/bdt29/RaycastHit.java:83-84 | one intersection per object, in list order |
| RaycastHit.EmptySceneQueries | src/uk/ac/cam/cl/bdt29/RaycastHit.java:79-102 | an empty scene gives a miss and a transmittance of exactly 1 |
| SquareMatrix3.New | src/uk/ac/cam/cl/bdt29/data_structures/SquareMatrix3.java:10-12 | a new matrix is all zeros with no inverse computed |
| SquareMatrix3.FromArray | src/uk/ac/cam/cl/bdt29/data_structures/SquareMatrix3.java:14-23 | the array constructor throws when there are not 3 rows or the first row is not 3 long, and otherwise copies the entries |
| SquareMatrix3.SetValue | src/uk/ac/cam/cl/bdt29/data_structures/SquareMatrix3.java:25-30 | an index outside 0..2 throws; otherwise exactly that cell changes |
| SquareMatrix3.GetValue | src/uk/ac/cam/cl/bdt29/data_structures/SquareMatrix3.java:32-37 | an index outside 0..2 throws; otherwise the cell's value |
| SquareMatrix3.SetThenGet | src/uk/ac/cam/cl/bdt29/data_structures/SquareMatrix3.java:25-37 | reading a cell just written gives the written value, and other cells are unchanged |
| SquareMatrix3.Minor | src/uk/ac/cam/cl/bdt29/data_structures/SquareMatrix3.java:43-60 | the loop's minor is the 2×2 determinant of what remains after deleting the row and the column |
| SquareMatrix3.KeptAll | src/uk/ac/cam/cl/bdt29/data_structures/SquareMatrix3.java:47-54 | the skip loop collects the four remaining entries in row-major order |
| SquareMatrix3.Determinant | src/uk/ac/cam/cl/bdt29/data_structures/SquareMatrix3.java:39-41 | the row-0 cofactor expansion equals the rule of Sarrus |
| SquareMatrix3.CofactoriseInvolution | src/uk/ac/cam/cl/bdt29/data_structures/SquareMatrix3.java:72-80 | exactly the entries with odd `r + c` are negated, and doing it twice restores the matrix |
| SquareMatrix3.TransposeInvolution | src/uk/ac/cam/cl/bdt29/data_structures/SquareMatrix3.java:62-70 | the intended transpose swaps entries and is an involution |
| SquareMatrix3.TransposeAsWritten | src/uk/ac/cam/cl/bdt29/data_structures/SquareMatrix3.java:62-70 | the aliased loop leaves `old[min(i,j)][max(i,j)]` in cell (i, j) |
| SquareMatrix3.AliasedTranspose | src/uk/ac/cam/cl/bdt29/data_structures/SquareMatrix3.java:62-70 | the aliased loop keeps the upper triangle and leaves a symmetric matrix |
| SquareMatrix3.AliasedTransposeSymmetric | src/uk/ac/cam/cl/bdt29/data_structures/SquareMatrix3.java:62-70 | the aliased result is always symmetric, and equals the transpose exactly when the input is symmetric |
| SquareMatrix3.AliasedTransposeIsNotTranspose | src/uk/ac/cam/cl/bdt29/data_structures/SquareMatrix3.java:62-70 | a concrete matrix whose aliased "transpose" is not its transpose |
| SquareMatrix3.Multiply | src/uk/ac/cam/cl/bdt29/data_structures/SquareMatrix3.java:131-147 | `multiply` returns the product and a freshly computed inverse of it |
| SquareMatrix3.MatMulEntries | src/uk/ac/cam/cl/bdt29/data_structures/SquareMatrix3.java:131-144 | entry (i, j) of the product is row i times column j |
| SquareMatrix3.MatMulApply | src/uk/ac/cam/cl/bdt29/data_structures/SquareMatrix3.java:115-147 | applying a product is applying the factors in turn, with component i of `leftMultiplyVector` being row i times the vector |
| SquareMatrix3.MatMulIdentity | src/uk/ac/cam/cl/bdt29/data_structures/SquareMatrix3.java:131-147 | the identity is neutral on both sides |
| SquareMatrix3.ScaleMatApply | src/uk/ac/cam/cl/bdt29/data_structures/SquareMatrix3.java:99-106 | applying a scaled matrix scales the image |
| SquareMatrix3.MatMulScale | src/uk/ac/cam/cl/bdt29/data_structures/SquareMatrix3.java:99-106 | a scale factor moves out of a product |
| SquareMatrix3.CofactorRows | src/uk/ac/cam/cl/bdt29/data_structures/SquareMatrix3.java:84-93 | the signed minors are the cross products of pairs of rows |
| SquareMatrix3.TripleProducts | src/uk/ac/cam/cl/bdt29/data_structures/SquareMatrix3.java:39-41 | each row's dot product with the cross of the other two, in cyclic order, is the determinant |
| SquareMatrix3.AdjugateProduct | src/uk/ac/cam/cl/bdt29/data_structures/SquareMatrix3.java:82-97 | the matrix times the transposed cofactor matrix is the determinant times the identity |
| SquareMatrix3.Inverse | src/uk/ac/cam/cl/bdt29/data_structures/SquareMatrix3.java:82-97 | with the true transpose, the inverse exists exactly when the determinant is non-zero, and the matrix times it is the identity |
| SquareMatrix3.InverseAsWritten | src/uk/ac/cam/cl/bdt29/data_structures/SquareMatrix3.java:82-97 | as written, the inverse exists exactly when the determinant is non-zero, and it is always symmetric |
| SquareMatrix3.InverseAsWrittenAgrees | src/uk/ac/cam/cl/bdt29/data_structures/SquareMatrix3.java:62-97 | for a non-singular matrix the as-written inverse is the true one exactly when the cofactor matrix is symmetric |
| SquareMatrix3.ShearInverseAsWritten | src/uk/ac/cam/cl/bdt29/data_structures/SquareMatrix3.java:82-97 | as written, the inverse of the shear `[[1,s,0],[0,1,0],[0,0,1]]` comes out as the identity |
| SquareMatrix3.InverseAsWrittenFails | src/uk/ac/cam/cl/bdt29/data_structures/SquareMatrix3.java:82-97 | for `s ≠ 0` that shear has determinant 1, yet it times the as-written inverse is not the identity |
| SquareMatrix3.GetInverse | src/uk/ac/cam/cl/bdt29/data_structures/SquareMatrix3.java:108-113 | the inverse is computed when none is cached and returned unchanged when one is, and the matrix itself is untouched |
| SquareMatrix3.GetInverseCaches | src/uk/ac/cam/cl/bdt29/data_structures/SquareMatrix3.java:108-113 | a second call returns the same inverse as the first |
| Roots.Solve | src/uk/ac/cam/cl/bdt29/elements/Cone.java:106-115 | no real roots exactly when the discriminant is negative; a zero leading coefficient is the degenerate case |
| Roots.SolveRoots | src/uk/ac/cam/cl/bdt29/elements/Sphere.java:92-100 | both formula roots solve the quadratic; they are ordered for `a > 0` and reversed for `a < 0` |
| Roots.SolveIsComplete | src/uk/ac/cam/cl/bdt29/elements/Sphere.java:92-100 | every solution of a quadratic with `a ≠ 0` is one of the two formula roots |
| Roots.NegativeDiscriminantNoSolution | src/uk/ac/cam/cl/bdt29/elements/Sphere.java:92-97 | with a negative discriminant no real parameter solves the quadratic, so the early miss loses nothing |
| Roots.ChooseRoot | src/uk/ac/cam/cl/bdt29/elements/Cone.java:118-136 | the cone's and cylinder's case analysis is a miss exactly when neither root is both ≥ 0 and kept by the filter, and otherwise the smallest such root |
| Roots.ChooseNearerRoot | src/uk/ac/cam/cl/bdt29/elements/Sphere.java:103-113 | the sphere's case analysis is a miss exactly when both roots are negative, and otherwise the smallest non-negative root |
| Roots.SmallestAdmissibleUnique | src/uk/ac/cam/cl/bdt29/elements/Cone.java:122-136 | the declarative choice is unique, so any implementation meeting it agrees with the source's branches |
| Roots.NearerRootIsUnfilteredChoice | src/uk/ac/cam/cl/bdt29/elements/Sphere.java:103-113 | the sphere's branches are the cone's branches with a filter that rejects nothing |
| Roots.PositiveLeadingFirstRoot | src/uk/ac/cam/cl/bdt29/elements/Sphere.java:99-106 | with `a > 0` a non-negative first root is always the one chosen |
| Roots.FirstSolutionIsEarliest | src/uk/ac/cam/cl/bdt29/elements/Cone.java:106-136 | the chosen root solves the quadratic, passes the filter, and is at or before every other such solution; it misses only when there is none |
| Roots.FirstSolutionOnSurface | src/uk/ac/cam/cl/bdt29/elements/Cone.java:100-136 | the same in terms of any surface whose points are the quadratic's zeros |
| Roots.NearerSolutionIsEarliest | src/uk/ac/cam/cl/bdt29/elements/Sphere.java:92-113 | the unfiltered choice is the earliest non-negative solution, missing only when there is none |
| Axes.AngleStart | src/uk/ac/cam/cl/bdt29/elements/Cone.java:72-86 | in all four branches the start vector is orthogonal to the axis |
| Axes.AngleStartUnit | src/uk/ac/cam/cl/bdt29/elements/Cone.java:72-86 | the start vector has unit length |
| Axes.AcrossOrthogonal | src/uk/ac/cam/cl/bdt29/elements/Cylinder.java:171-179 | for a unit axis, `r − (r·n) n` is orthogonal to the axis and adds back to `r` with the axial part |
| Texels.Cell | src/uk/ac/cam/cl/bdt29/elements/Cone.java:245 | `array[row][col]` throws for a map that never loaded or an index outside it, and otherwise reads that cell |
| Texels.CellOfLoaded | src/uk/ac/cam/cl/bdt29/elements/Sphere.java:269 | in a loaded map exactly the indices within the recorded sizes can be read |
| Texels.RemOrFault | src/uk/ac/cam/cl/bdt29/elements/Cone.java:235-236 | `% 0` throws `ArithmeticException`, as on a map that failed to load |
| Texels.FlippedRowTexel | src/uk/ac/cam/cl/bdt29/elements/Cone.java:235-245 | on a loaded map the lookup succeeds exactly when the column's remainder is non-negative, reading the flipped, wrapped row |
| Texels.FlippedRowTexelNonNegative | src/uk/ac/cam/cl/bdt29/elements/Cylinder.java:240-250 | a non-negative column always reads inside the map, whatever the row |
| Texels.FlippedRowTexelNegative | src/uk/ac/cam/cl/bdt29/elements/Cone.java:235-245 | a negative column that is not a multiple of the width reads outside the map |
| Texels.ScaledIndexBounds | src/uk/ac/cam/cl/bdt29/elements/Cone.java:231-233 | `(int)(n·(v/s))` for `v` in `[0, s]` is in `[0, n]`, below `n` unless `v = s` |
| Spheres.Plain | src/uk/ac/cam/cl/bdt29/elements/Sphere.java:36-47 | the short constructor keeps the centre and radius and has no maps |
| Spheres.CoefficientsMeasureDistance | src/uk/ac/cam/cl/bdt29/elements/Sphere.java:86-88 | the quadratic at `t` is `|P(t) − C|² − r²` |
| Spheres.RootIsOnSphere | src/uk/ac/cam/cl/bdt29/elements/Sphere.java:86-88 | a parameter solves the quadratic exactly when its point is on the sphere |
| Spheres.CoefficientAPositive | src/uk/ac/cam/cl/bdt29/elements/Sphere.java:86 | `a = D·D` is positive for a non-zero direction |
| Spheres.OutsideSignMeaning | src/uk/ac/cam/cl/bdt29/elements/Sphere.java:119-120 | the sign is +1 exactly when the origin is at least a radius from the centre, so an origin on the surface counts as outside |
| Spheres.NormalIsRadial | src/uk/ac/cam/cl/bdt29/elements/Sphere.java:130-136 | without a bump map, at a point off the centre, the normal has unit length and is a positive multiple of `P − C` |
| Spheres.NormalAt | src/uk/ac/cam/cl/bdt29/elements/Sphere.java:130-136 | a bumpy sphere uses the perturbed normal and any other sphere the normalised radius |
| Spheres.IntersectionWith | src/uk/ac/cam/cl/bdt29/elements/Sphere.java:76-127 | a hit is at the nearer solution, on the ray, with the radial normal flipped by the inside sign |
| Spheres.IntersectionIsFirstSurfacePoint | src/uk/ac/cam/cl/bdt29/elements/Sphere.java:86-113 | the hit is on the sphere, and no surface point lies on the ray ahead of the origin and before it |
| Spheres.HitIsOnSphere | src/uk/ac/cam/cl/bdt29/elements/Sphere.java:99-116 | the hit location is exactly a radius from the centre |
| Spheres.NoSurfacePointBeforeHit | src/uk/ac/cam/cl/bdt29/elements/Sphere.java:99-113 | every point of the sphere on the forward ray is at or after the hit, and a miss means there is none |
| Spheres.NearerSolutionOnSphere | src/uk/ac/cam/cl/bdt29/elements/Sphere.java:99-113 | the chosen parameter is the earliest non-negative one on the sphere |
| Spheres.IntersectionAtNearerSolution | src/uk/ac/cam/cl/bdt29/elements/Sphere.java:99-116 | the intersection's distance is the chosen root |
| Spheres.HeightAt | src/uk/ac/cam/cl/bdt29/elements/Sphere.java:169-174 | on a loaded map the lookup succeeds exactly when both Java remainders are non-negative, reads cell `[v % H][u % W]` for non-negative indices, and divides by zero on an empty map |
| Spheres.HeightAtNegativeColumn | src/uk/ac/cam/cl/bdt29/elements/Sphere.java:169-173 | a negative column that is not a multiple of the width throws |
| Spheres.HeightAtWrapsRight | src/uk/ac/cam/cl/bdt29/elements/Sphere.java:169-173 | the column `width` wraps to column 0 |
| Spheres.BumpGradients | src/uk/ac/cam/cl/bdt29/elements/Sphere.java:225-226 | the gradients are the forward differences to the right and below |
| Spheres.UV | src/uk/ac/cam/cl/bdt29/elements/Sphere.java:199-203 | a zero size gives index 0, and for angles in range `u` is in `[0, W]` and `v` in `[0, H]` |
| Spheres.UVRange | src/uk/ac/cam/cl/bdt29/elements/Sphere.java:199-203 | for angles in range, `u` is in `[0, W]` and `v` in `[0, H]`; they are inside the map only for `φ < 2π` and `θ < π`, and `θ = π` gives `v = H` |
| Spheres.BumpGradientsInRange | src/uk/ac/cam/cl/bdt29/elements/Sphere.java:219-226 | with texture sizes that fit an `int`, the bump lookup at the indices from the texture sizes stays inside a loaded bump map, since `%` wraps the edge |
| Spheres.BumpIndices | src/uk/ac/cam/cl/bdt29/elements/Sphere.java:199-221 | the bump indices are scaled by the texture's sizes, which are 0 for a sphere without a texture |
| Spheres.BumpIndicesUntextured | src/uk/ac/cam/cl/bdt29/elements/Sphere.java:219-226 | as written, an untextured bumpy sphere reads its bump map at `(0, 0)` and the cells right of and below it at every point |
| Spheres.IntendedBumpIndicesInMap | src/uk/ac/cam/cl/bdt29/elements/Sphere.java:199-226 | scaled by the bump map's own sizes, the indices lie inside the map away from the seam and the pole, start at 0 at the angle origin, and the gradients never fault |
| Spheres.SouthPoleOutOfBounds | src/uk/ac/cam/cl/bdt29/elements/Sphere.java:264-269 | as written, the texture lookup at the south pole reads row `H` and throws |
| Spheres.TextureTexelAsWritten | src/uk/ac/cam/cl/bdt29/elements/Sphere.java:258-270 | a map that never loaded throws a null dereference; a loaded map gives a texel from row `v` away from the seam and the pole, and throws at the south pole |
| Spheres.ClampedTexel | src/uk/ac/cam/cl/bdt29/elements/Sphere.java:258-270 | with the row clamped, the south pole reads the last row |
| Spheres.ClampedTexelInRange | src/uk/ac/cam/cl/bdt29/elements/Sphere.java:258-270 | with the clamp every point has a texel, equal to the as-written one away from the seam and the pole |
| Spheres.ColourAt | src/uk/ac/cam/cl/bdt29/elements/Sphere.java:138-143 | an untextured sphere shows its own colour; a loaded texture has a texel away from the seam and the pole, and throws at the south pole |
| Planes.ParseOperator | src/uk/ac/cam/cl/bdt29/elements/Plane.java:78-83 | `">"` keeps the outside; `"<"` and every other string keep the inside |
| Planes.Unbounded | src/uk/ac/cam/cl/bdt29/elements/Plane.java:36-48 | the short constructor has no bounding centre, an infinite radius, the `"<"` operator and no maps |
| Planes.Bounded | src/uk/ac/cam/cl/bdt29/elements/Plane.java:50-85 | the full constructor stores its arguments and normalises the operator |
| Planes.HitParameter | src/uk/ac/cam/cl/bdt29/elements/Plane.java:98-104 | the parameter exists exactly when the ray is not parallel to the plane |
| Planes.HitParameterMeaning | src/uk/ac/cam/cl/bdt29/elements/Plane.java:98-104 | the parameter's point is on the plane, and it is the only parameter whose point is |
| Planes.ClippedMeaning | src/uk/ac/cam/cl/bdt29/elements/Plane.java:114-123 | without a centre nothing is clipped; `">"` rejects points strictly inside the radius and `"<"` those strictly outside; points at the radius are kept |
| Planes.NormalIsConstant | src/uk/ac/cam/cl/bdt29/elements/Plane.java:135-140 | without a bump map the normal is the stored one at every point |
| Planes.IntersectionWith | src/uk/ac/cam/cl/bdt29/elements/Plane.java:89-131 | a miss exactly when the ray is parallel, the parameter is negative, or the point is clipped; otherwise the hit at that parameter |
| Planes.IntersectionOnPlane | src/uk/ac/cam/cl/bdt29/elements/Plane.java:98-111 | the hit is on the plane and is the ray's only point on it |
| Planes.HeightAt | src/uk/ac/cam/cl/bdt29/elements/Plane.java:240-250 | on a loaded map any pair of `int`s is wrapped into the map; an unloaded map throws |
| Planes.HeightAtCongruent | src/uk/ac/cam/cl/bdt29/elements/Plane.java:240-250 | the cell read is congruent to the requested indices modulo the sizes |
| Planes.BumpGradients | src/uk/ac/cam/cl/bdt29/elements/Plane.java:264-265 | on a loaded map the forward differences never fault |
| Planes.BumpGradientsAtEdge | src/uk/ac/cam/cl/bdt29/elements/Plane.java:264-265 | at the last cell the neighbours wrap to index 0 |
| Planes.TextureTexel | src/uk/ac/cam/cl/bdt29/elements/Plane.java:311-337 | on a loaded map the texel is the wrapped column and the flipped, wrapped row, with the row scaled by the width as written |
| Planes.ColourAt | src/uk/ac/cam/cl/bdt29/elements/Plane.java:142-148 | an untextured plane shows its own colour, and a loaded texture never faults |
| Cones.NewCone | src/uk/ac/cam/cl/bdt29/elements/Cone.java:35-86 | the constructor stores its arguments and an angle-start vector orthogonal to the axis |
| Cones.CoefficientsDescribeCone | src/uk/ac/cam/cl/bdt29/elements/Cone.java:100-104 | the quadratic at `t` is `((P−C)·V)² − |P−C|² cos²θ` |
| Cones.RootOnCone | src/uk/ac/cam/cl/bdt29/elements/Cone.java:100-104 | a parameter solves the quadratic exactly when its point is on the double cone |
| Cones.ChosenRootIsFirstConePoint | src/uk/ac/cam/cl/bdt29/elements/Cone.java:114-162 | the chosen root is the first point of the double cone on the forward ray outside the shadow cone, where `(P−C)·V ≤ 0` |
| Cones.SlantClipMeaning | src/uk/ac/cam/cl/bdt29/elements/Cone.java:142-145 | the slant clip rejects exactly the points whose distance from the apex exceeds the length |
| Cones.NormalAt | src/uk/ac/cam/cl/bdt29/elements/Cone.java:166-171 | the normal is orthogonal to `I − apex` |
| Cones.IntersectionWith | src/uk/ac/cam/cl/bdt29/elements/Cone.java:88-151 | a hit exactly when a root is chosen and its point is within the slant length, at that root |
| Cones.RTheta | src/uk/ac/cam/cl/bdt29/elements/Cone.java:181-196 | `r` is the distance from the apex and `θ`, from `acos`, lies in `[0, π]` |
| Cones.TextureTexel | src/uk/ac/cam/cl/bdt29/elements/Cone.java:226-246 | a map that never loaded divides by zero; with `θ` non-negative, the lookup on a loaded map never faults |
| Cones.ColourAt | src/uk/ac/cam/cl/bdt29/elements/Cone.java:174-179 | an untextured cone shows its own colour, and a loaded texture never faults |
| Cylinders.NewCylinder | src/uk/ac/cam/cl/bdt29/elements/Cylinder.java:41-93 | the constructor stores its arguments and an angle-start vector orthogonal to the axis |
| Cylinders.CoefficientsDescribeCylinder | src/uk/ac/cam/cl/bdt29/elements/Cylinder.java:103-112 | the quadratic at `t` is `|V × (P(t) − C)|² − r²` |
| Cylinders.RootOnCylinder | src/uk/ac/cam/cl/bdt29/elements/Cylinder.java:103-112 | a parameter solves the quadratic exactly when its point is on the infinite cylinder |
| Cylinders.ChosenRootIsFirstCylinderPoint | src/uk/ac/cam/cl/bdt29/elements/Cylinder.java:122-167 | the chosen root is the first point on the forward ray whose axial height is strictly inside `(0, length)`, missing only when there is none |
| Cylinders.NormalAt | src/uk/ac/cam/cl/bdt29/elements/Cylinder.java:171-179 | for a unit axis the normal is orthogonal to it |
| Cylinders.IntersectionWith | src/uk/ac/cam/cl/bdt29/elements/Cylinder.java:95-153 | a hit exactly when a root is chosen, at that root, with the across-axis normal |
| Cylinders.HTheta | src/uk/ac/cam/cl/bdt29/elements/Cylinder.java:189-200 | `θ`, from `acos`, lies in `[0, π]` |
| Cylinders.TextureTexel | src/uk/ac/cam/cl/bdt29/elements/Cylinder.java:231-250 | a map that never loaded divides by zero; at a point level with or above the base, the lookup on a loaded map never faults |
| Cylinders.TextureTexelSwapsCoordinates | src/uk/ac/cam/cl/bdt29/elements/Cylinder.java:231-238 | the column is the axial height scaled by `W/π` and the row the angle scaled by `H/length`: the pair from `getHTheta` is read the wrong way round |
| Cylinders.TextureTexelAtHit | src/uk/ac/cam/cl/bdt29/elements/Cylinder.java:231-250 | at any hit, the lookup on a loaded map never faults |
| Cylinders.ColourAt | src/uk/ac/cam/cl/bdt29/elements/Cylinder.java:181-187 | an untextured cylinder shows its own colour, and a loaded texture never faults at a point level with or above the base |
| SceneObjects.IntersectionWith | src/uk/ac/cam/cl/bdt29/RaycastHit.java:79-84 | whatever the shape, a hit belongs to the object and lies on the ray at a non-negative parameter |
| SceneObjects.ClosestHitAhead | src/uk/ac/cam/cl/bdt29/RaycastHit.java:79-90 | the scene's nearest hit belongs to a scene object and lies ahead on the ray |
| SceneObjects.ColourAt | src/uk/ac/cam/cl/bdt29/Renderer.java:203 | an untextured object shows its own colour |
| SceneObjects.ColourAtHitDefined | src/uk/ac/cam/cl/bdt29/Renderer.java:203 | shading a hit point on an object with a loaded map never faults, provided a sphere's point is off the seam and the south pole |
| SceneObjects.ColourAtSouthPoleFaults | src/uk/ac/cam/cl/bdt29/elements/Sphere.java:258-270 | shading a textured sphere at its south pole throws, which aborts the render |
| Rendering.Blocked | src/uk/ac/cam/cl/bdt29/Renderer.java:237-245 | a shadow ray whose nearest hit lies beyond the sampled light position loses no light |
| Rendering.PassThrough | src/uk/ac/cam/cl/bdt29/Renderer.java:226-248 | with no shadow ray obstructed, the light passes undimmed |
| Rendering.LightTermUnlit | src/uk/ac/cam/cl/bdt29/Renderer.java:261-278 | a light with `R·V ≤ 0` and `L·N ≤ 0` adds neither term |
| Rendering.Illuminate | src/uk/ac/cam/cl/bdt29/Renderer.java:197-212 | without lights only the ambient term `C_diff·I_a` is left |
| Rendering.IlluminateAddLight | src/uk/ac/cam/cl/bdt29/Renderer.java:197-280 | adding a light adds exactly its specular and diffuse terms at every point and leaves the other lights' terms unchanged |
| Rendering.IlluminateUnlit | src/uk/ac/cam/cl/bdt29/Renderer.java:211-280 | when no light passes either gate, the result is the ambient term alone |
| Rendering.PassThroughInUnit | src/uk/ac/cam/cl/bdt29/Renderer.java:226-248 | with transmittances in `[0, 1]`, the pass-through is in `[0, 1]` |
| Rendering.CosIncidence | src/uk/ac/cam/cl/bdt29/Renderer.java:102-106 | `cosThetaI` is never negative and is `±I·N` |
| Rendering.CosIncidenceInUnit | src/uk/ac/cam/cl/bdt29/Renderer.java:99-106 | for unit `I` and `N` it lies in `[0, 1]` |
| Rendering.TotallyReflectedMeaning | src/uk/ac/cam/cl/bdt29/Renderer.java:113-117 | the clamped square-root test is exactly Snell's `ratio²·sin²θI > 1` |
| Rendering.RefractionAt | src/uk/ac/cam/cl/bdt29/Renderer.java:88-135 | there is always a reflection or a refraction; the reflected ray leaves above the surface with the incoming index, the refracted ray below with the exit index, and total reflection happens exactly past the critical angle |
| Rendering.SchlickBounds | src/uk/ac/cam/cl/bdt29/Renderer.java:143 | for `R` and `cosθ` in `[0, 1]`, `F` is in `[R, 1]`: `R` at normal and 1 at grazing incidence |
| Rendering.PlanStep | src/uk/ac/cam/cl/bdt29/Renderer.java:51-187 | a step escapes exactly when the ray misses; with no bounces left it traces nothing further |
| Rendering.Trace | src/uk/ac/cam/cl/bdt29/Renderer.java:51-86 | a ray that hits nothing returns the background, and with no bounces left a hit returns `direct·(1 − T)` |
| Rendering.PlanBudgetOnlyZero | src/uk/ac/cam/cl/bdt29/Renderer.java:84-150 | the step depends on the budget only through whether it is 0, so a negative budget never reaches the base case |
| Rendering.CallDepthBounded | src/uk/ac/cam/cl/bdt29/Renderer.java:131-169 | for any planner that stops at 0, the calls nest at most `b` deep |
| Rendering.DepthBounded | src/uk/ac/cam/cl/bdt29/Renderer.java:131-169 | `trace`'s recursion is at most `bouncesLeft` deep |
| Rendering.MediumSwap | src/uk/ac/cam/cl/bdt29/Renderer.java:91-167 | a refracted ray enters the object's index, or 1 when already in it; reflected rays keep the incoming index |
| Rendering.TraceTotalInternal | src/uk/ac/cam/cl/bdt29/Renderer.java:116-135 | past the critical angle the result is `direct·(1 − T) + mirror·T`, and no Fresnel reflection is traced |
| Rendering.RefractedReflectance | src/uk/ac/cam/cl/bdt29/Renderer.java:136-146 | a refracting step uses Schlick's reflectance, which lies between the base reflectivity and 1 |
| Rendering.ChannelWeights | src/uk/ac/cam/cl/bdt29/Renderer.java:176-185 | the weights `(1−T)(1−F)`, `F` and `T(1−F)` sum to 1 and are non-negative for `F` and `T` in `[0, 1]` |
| Rendering.BlendIsConvex | src/uk/ac/cam/cl/bdt29/Renderer.java:171-185 | the recursive combination mixes colours in `[0, 1]` into a colour in `[0, 1]` |
| Rendering.BlendWithoutReflectance | src/uk/ac/cam/cl/bdt29/Renderer.java:150-185 | with `F = 0` the recursive combination equals the base case's, so the `F == 0` shortcut changes nothing |
| Rendering.MixInUnit | src/uk/ac/cam/cl/bdt29/Renderer.java:150-159 | the base-case mix of colours in `[0, 1]` is in `[0, 1]` |
| Rendering.CombineInUnit | src/uk/ac/cam/cl/bdt29/Renderer.java:150-185 | both ways of combining a hit's colours stay in `[0, 1]` |
| Rendering.TraceStepInUnit | src/uk/ac/cam/cl/bdt29/Renderer.java:51-187 | one step keeps light in `[0, 1]` when the traces it combines do |
| Rendering.AllTracesInUnit | src/uk/ac/cam/cl/bdt29/Renderer.java:51-187 | by induction on the budget, every ray's colour is in `[0, 1]` |
| Rendering.TraceInUnit | src/uk/ac/cam/cl/bdt29/Renderer.java:51-187 | in a physical world every colour `trace` returns is in `[0, 1]` |
| SceneLoading.Attribute | src/uk/ac/cam/cl/bdt29/SceneLoader.java:217 | a missing attribute reads as the empty string |
| SceneLoading.GetDouble | src/uk/ac/cam/cl/bdt29/SceneLoader.java:215-221 | the parsed value, or the fallback exactly when parsing fails |
| SceneLoading.MissingAttributeFallsBack | src/uk/ac/cam/cl/bdt29/SceneLoader.java:215-221 | a missing attribute always gives the fallback |
| SceneLoading.GetRadius | src/uk/ac/cam/cl/bdt29/SceneLoader.java:83 | the bounding radius is infinite exactly when it does not parse |
| SceneLoading.GetRotation | src/uk/ac/cam/cl/bdt29/SceneLoader.java:166-171 | each angle `% 360` lies strictly between −360 and 360, and a non-negative angle stays non-negative |
| SceneLoading.GetPlaneBoundingCentre | src/uk/ac/cam/cl/bdt29/SceneLoader.java:173-189 | a non-zero vector or three parsing attributes give the vector; a zero vector with an unparsable coordinate gives the fallback |
| SceneLoading.UnboundedWithoutCentre | src/uk/ac/cam/cl/bdt29/SceneLoader.java:173-189 | an element with none of `bx`, `by`, `bz` has no bounding centre |
| SceneLoading.GetColour | src/uk/ac/cam/cl/bdt29/SceneLoader.java:191-202 | a colour string shorter than seven characters gives black |
| SceneLoading.ColourReadsSixCharacters | src/uk/ac/cam/cl/bdt29/SceneLoader.java:191-202 | only characters 1 to 6 matter: the `#` is not checked, and anything after is ignored |
| SceneLoading.Hex2 | src/uk/ac/cam/cl/bdt29/SceneLoader.java:195-197 | two hexadecimal digits for a byte |
| SceneLoading.Hex2Parses | src/uk/ac/cam/cl/bdt29/SceneLoader.java:195-197 | two written hex digits parse back to the byte |
| SceneLoading.HexColour | src/uk/ac/cam/cl/bdt29/SceneLoader.java:191-197 | `#rrggbb` is seven characters starting with `#` |
| SceneLoading.ColourRoundTrip | src/uk/ac/cam/cl/bdt29/SceneLoader.java:191-202 | a written `#rrggbb` reads back as each byte over 255, a colour in `[0, 1]` |
| SceneLoading.SignedFieldAccepted | src/uk/ac/cam/cl/bdt29/SceneLoader.java:195-197 | `#-F0000` reads as red −15/255, not as black |
| SceneLoading.GetString | src/uk/ac/cam/cl/bdt29/SceneLoader.java:223-235 | an empty value gives the fallback; map names keep the value as a suffix; other attributes are returned unchanged |
| SceneLoading.MapDirectories | src/uk/ac/cam/cl/bdt29/SceneLoader.java:228-233 | bump maps get `bump-maps/` and textures get `textures/` prefixed |
| SceneLoading.TextureOf | src/uk/ac/cam/cl/bdt29/SceneLoader.java:64 | a texture is read exactly when one is named |
| SceneLoading.BumpMapOf | src/uk/ac/cam/cl/bdt29/SceneLoader.java:63 | a bump map is read exactly when one is named |
| SceneLoading.MaterialOf | src/uk/ac/cam/cl/bdt29/SceneLoader.java:57-62 | the material carries the given transmittance and refractive index, is transmissive exactly when the loader's test accepts that transmittance, and reads `reflectivity`, `kD`, `kS` and `alphaS` with their defaults |
| SceneLoading.ObjectOf | src/uk/ac/cam/cl/bdt29/SceneLoader.java:51-119 | an element describes an object exactly when it is a sphere, plane, cone or cylinder |
| SceneLoading.SphereOf | src/uk/ac/cam/cl/bdt29/SceneLoader.java:51-67 | a sphere with the parsed position, a radius of 1 unless given, each map exactly when named, its own transmittance and a refractive index with the sphere default |
| SceneLoading.PlaneOf | src/uk/ac/cam/cl/bdt29/SceneLoader.java:69-87 | a plane with the parsed shape and colour, and the base transmittance and refractive index |
| SceneLoading.PlaneFrom | src/uk/ac/cam/cl/bdt29/SceneLoader.java:69-87 | texture scale 10 unless given and only for a textured plane; `">"` alone keeps the outside; the radius is infinite exactly when it does not parse; a centre is the `bx`, `by`, `bz` vector, absent exactly when that is zero and not all three parse |
| SceneLoading.ConeOf | src/uk/ac/cam/cl/bdt29/SceneLoader.java:89-103 | a cone with the parsed shape and colour, and the base transmittance and refractive index |
| SceneLoading.ConeFrom | src/uk/ac/cam/cl/bdt29/SceneLoader.java:89-103 | the cone's position and axis, an angle of 45 and a length of 1 unless given, and a texture exactly when one is named |
| SceneLoading.CylinderOf | src/uk/ac/cam/cl/bdt29/SceneLoader.java:105-119 | a cylinder with the parsed shape and colour, and the base transmittance and refractive index |
| SceneLoading.CylinderFrom | src/uk/ac/cam/cl/bdt29/SceneLoader.java:105-119 | the cylinder's position and axis, a length and radius of 1 unless given, and a texture exactly when one is named |
| SceneLoading.LightOf | src/uk/ac/cam/cl/bdt29/SceneLoader.java:121-125 | a point light at the parsed position with the parsed colour and an intensity of 100 unless given |
| SceneLoading.LoadElement | src/uk/ac/cam/cl/bdt29/SceneLoader.java:41-137 | an unknown tag is an error; a shape adds exactly one object, a `point-light` exactly one light, and other tags neither |
| SceneLoading.LoadElements | src/uk/ac/cam/cl/bdt29/SceneLoader.java:38-138 | loading fails exactly when some element has an unknown tag, and a loaded scene holds one object per shape element and one light per light element, in document order |
| SceneLoading.LoadElementsFirstError | src/uk/ac/cam/cl/bdt29/SceneLoader.java:135-136 | the error names the first unknown tag |

## Left out

- Image and file I/O are not modelled. This covers ImageIO loading of maps, the `BufferedImage` in `render`, the PNG write in `Main`, and XML parsing. A map is a given `Grid`: either loaded cells or the empty state a failed load leaves. Scene elements are given as a sequence of name and attribute-map pairs.
- The scene's root-name check (`SceneLoader.java:35`) is not modelled. It compares strings with `!=`, so its outcome depends on string interning.
- `Double.parseDouble` is a parameter of the loader. The text `"Infinity"` cannot be represented, because reals have no infinity.
- `Renderer.render` and `tonemap` are left out: the pixel loop, the depth-of-field aperture sampling with `Math.random`, and the non-integer powers.
- The light jitter `Vector3.randomInsideUnitSphere` is an oracle of the world. So are a light's intensity at a distance and each object's intersection test and diffuse colour.
- Rendering.Trace: requires `bouncesLeft >= 0`. With a negative budget the Java recursion would only end when the rays stop hitting anything. `PlanBudgetOnlyZero` states what a negative budget does for one step.
- Rendering.RefractionAt: an object refractive index of 0 makes Java's ratio infinite. The model treats it as total internal reflection.
- Rendering.PassThrough: only the `ShadowRayCount = 1` configuration matters. The `k = 0` branch of `AveragePass` is never used.
- Rendering.TraceInUnit: assumes the local illumination at every hit is in `[0, 1]`. The Phong terms can exceed 1 for bright lights, and nothing in the source bounds them.
- Illumination faults are not threaded through `Rendering`. The renderer's `colourAt` returns a plain colour. In Java, a texture lookup that throws aborts the render. `SceneObjects.ColourAt` models that fault as written. `ColourAtHitDefined` states when it cannot happen, and `ColourAtSouthPoleFaults` states that it does happen at a textured sphere's south pole.
- JavaInt.DigitValue: reads only the ASCII digits and letters. `Character.digit` also accepts other Unicode digits, such as full-width ones.
- JavaInt.ParseInt: inherits that restriction, so a number written with non-ASCII digits is rejected here but accepted by `Integer.parseInt`.
- Floating-point NaN and infinity are modelled as misses. They arise from a plane parallel to the ray, a zero leading coefficient for the cylinder or cone, and a zero determinant. Such values are never the closest hit, and a singular matrix has no inverse (`None`).
- `Vectors.Normalised` leaves the zero vector unchanged where Java would produce NaN components.
- Rounding is not modelled; every double is an exact real.
- The sphere's bumpy normal, its `getPhiTheta` angles and the plane's texture rotation (`getMatrix`, Rodrigues' formula) are taken as given. The model keeps only their integer index arithmetic and their gradients.
- Non-sphere transmittance and refractive index are parameters of the loader, because `SceneObject`'s defaults are outside this model. The `isTransmissive` test is a parameter too.
- `Vector3.java`, `ColorRGB.java`, `SceneObject.java`, `PointLight.java` and `Tuple.java` are not part of this model. The model defines minimal versions of the operations it needs.
- Console output, warnings, and `System.exit` in `usageError` are not modelled. The exit is a `Usage` failure.
- Mutation and aliasing of the matrix class are modelled as values, apart from the aliasing in `transpose`, which is modelled explicitly.

## Findings

| source | as written | input that shows it | evidently intended | confidence | as-written member | corrected member |
|---|---|---|---|---|---|---|
| src/uk/ac/cam/cl/bdt29/data_structures/SquareMatrix3.java:62-70 | `temp` aliases `Mat`, so `transpose` overwrites entries it later reads, leaving a symmetric matrix; `calculateInverse` (lines 82-97) inherits this | the shear `[[1,s,0],[0,1,0],[0,0,1]]` with `s ≠ 0` has determinant 1, but its "inverse" comes out as the identity | a true transpose, so that `M · inverse = I` for every non-singular `M` | not executed | SquareMatrix3.InverseAsWrittenFails | SquareMatrix3.Inverse |
| src/uk/ac/cam/cl/bdt29/Camera.java:81 | `y_pos = (y_step + height_m)/2 − y·y_step` adds the half-pixel offset instead of subtracting it | row 0 of any image sits at `(height_m + y_step)/2`, half a pixel above the top edge; rows `y` and `H−1−y` sum to `2·y_step` | `(height_m − y_step)/2 − y·y_step`, mirroring `x_pos`, so the grid is symmetric about the axis | not executed | Cameras.PixelYAsWrittenShifted | Cameras.PixelYLayout |
| src/uk/ac/cam/cl/bdt29/elements/Sphere.java:199-203,269 | `getUV` gives `v = (int)(H·θ/π)` and `getTextureColourAt` indexes `textureMap[v][u]` without a wrap | `θ = π` (the south pole) gives `v = H`, one past the last row, which throws | an index clamped to the map, so every point of the sphere has a texel | not executed | Spheres.SouthPoleOutOfBounds | Spheres.ClampedTexelInRange |
| src/uk/ac/cam/cl/bdt29/elements/Sphere.java:199-201,219-226 | `getBumpyNormalAt` scales the bump-map indices by the texture's `textureMapWidth` and `textureMapHeight` instead of the bump map's sizes | a bumpy sphere without a texture has both texture sizes 0, so `u = v = 0` at every point and the whole sphere reads one bump cell | the bump map's own sizes, so that the indices sweep the bump map as `φ` and `θ` sweep the sphere | not executed | Spheres.BumpIndicesUntextured | Spheres.IntendedBumpIndicesInMap |
