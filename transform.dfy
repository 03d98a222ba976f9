// `Transform`: a 4x4 matrix paired with its inverse. Inversion swaps the pair
// and composition multiplies both sides in opposite orders, so both identities
// hold exactly; points, vectors, normals and boxes are mapped through the pair.
module Transform {
  import opened Geom
  import opened Bounds

  datatype Vec4 = Vec4(x: real, y: real, z: real, w: real)
  {
    function Add(o: Vec4): Vec4 { Vec4(x + o.x, y + o.y, z + o.z, w + o.w) }
    function Scale(s: real): Vec4 { Vec4(x * s, y * s, z * s, w * s) }
    function Truncate(): Vec3 { Vec3(x, y, z) }
  }

  /** `Matrix4<Float>`, column-major as in cgmath: `c0`..`c3` are the columns. */
  datatype Mat4 = Mat4(c0: Vec4, c1: Vec4, c2: Vec4, c3: Vec4)

  function Dot4(a: Vec4, b: Vec4): real {
    a.x * b.x + a.y * b.y + a.z * b.z + a.w * b.w
  }

  /** Row i of a matrix, read across the four columns. */
  function Row0(m: Mat4): Vec4 { Vec4(m.c0.x, m.c1.x, m.c2.x, m.c3.x) }
  function Row1(m: Mat4): Vec4 { Vec4(m.c0.y, m.c1.y, m.c2.y, m.c3.y) }
  function Row2(m: Mat4): Vec4 { Vec4(m.c0.z, m.c1.z, m.c2.z, m.c3.z) }
  function Row3(m: Mat4): Vec4 { Vec4(m.c0.w, m.c1.w, m.c2.w, m.c3.w) }

  /** `m * v`: the columns weighted by the components of v, that is each row against v. */
  function MulVec(m: Mat4, v: Vec4): Vec4 {
    Vec4(Dot4(Row0(m), v), Dot4(Row1(m), v), Dot4(Row2(m), v), Dot4(Row3(m), v))
  }

  /** `a * b`, column by column. */
  function MatMul(a: Mat4, b: Mat4): Mat4 {
    Mat4(MulVec(a, b.c0), MulVec(a, b.c1), MulVec(a, b.c2), MulVec(a, b.c3))
  }

  const E0: Vec4 := Vec4(1.0, 0.0, 0.0, 0.0)
  const E1: Vec4 := Vec4(0.0, 1.0, 0.0, 0.0)
  const E2: Vec4 := Vec4(0.0, 0.0, 1.0, 0.0)
  const E3: Vec4 := Vec4(0.0, 0.0, 0.0, 1.0)

  /** `IDENTITY_MAT4` */
  const Identity4: Mat4 := Mat4(E0, E1, E2, E3)

  /** `Matrix4::from_translation(d)` */
  function FromTranslation(d: Vec3): Mat4 {
    Mat4(E0, E1, E2, Vec4(d.x, d.y, d.z, 1.0))
  }

  /** `Matrix4::from_nonuniform_scale(sx, sy, sz)` */
  function FromNonuniformScale(sx: real, sy: real, sz: real): Mat4 {
    Mat4(Vec4(sx, 0.0, 0.0, 0.0), Vec4(0.0, sy, 0.0, 0.0), Vec4(0.0, 0.0, sz, 0.0), E3)
  }

  /** `Matrix4::from_cols` */
  function FromCols(c0: Vec4, c1: Vec4, c2: Vec4, c3: Vec4): Mat4 {
    Mat4(c0, c1, c2, c3)
  }

  // ------------------------------------------------------------ matrix algebra

  lemma MulVecIdentity(v: Vec4)
    ensures MulVec(Identity4, v) == v
  {
  }

  /** The basis vectors pick out the columns. */
  lemma MulVecBasis(m: Mat4)
    ensures MulVec(m, E0) == m.c0 && MulVec(m, E1) == m.c1 && MulVec(m, E2) == m.c2 && MulVec(m, E3) == m.c3
  {
  }

  lemma MatMulIdentity(m: Mat4)
    ensures MatMul(Identity4, m) == m && MatMul(m, Identity4) == m
  {
    MulVecIdentity(m.c0);
    MulVecIdentity(m.c1);
    MulVecIdentity(m.c2);
    MulVecIdentity(m.c3);
    MulVecBasis(m);
  }

  /** A row against `b * v` is the row's image under b's columns against v. */
  lemma DotMulVec(r: Vec4, b: Mat4, v: Vec4)
    ensures Dot4(r, MulVec(b, v)) == Dot4(Vec4(Dot4(r, b.c0), Dot4(r, b.c1), Dot4(r, b.c2), Dot4(r, b.c3)), v)
  {
    var u0, u1, u2, u3 := b.c0.Scale(v.x), b.c1.Scale(v.y), b.c2.Scale(v.z), b.c3.Scale(v.w);
    MulVecColumns(b, v);
    DotAdd(r, u0.Add(u1).Add(u2), u3);
    DotAdd(r, u0.Add(u1), u2);
    DotAdd(r, u0, u1);
    DotScale(r, b.c0, v.x);
    DotScale(r, b.c1, v.y);
    DotScale(r, b.c2, v.z);
    DotScale(r, b.c3, v.w);
  }

  /** `m * v` as the sum of the columns scaled by v's components. */
  lemma MulVecColumns(m: Mat4, v: Vec4)
    ensures MulVec(m, v) == m.c0.Scale(v.x).Add(m.c1.Scale(v.y)).Add(m.c2.Scale(v.z)).Add(m.c3.Scale(v.w))
  {
  }

  lemma DotAdd(r: Vec4, u: Vec4, v: Vec4)
    ensures Dot4(r, u.Add(v)) == Dot4(r, u) + Dot4(r, v)
  {
  }

  lemma DotScale(r: Vec4, u: Vec4, s: real)
    ensures Dot4(r, u.Scale(s)) == Dot4(r, u) * s
  {
  }

  /** Applying a product is applying its factors, right one first. */
  lemma MulVecAssoc(a: Mat4, b: Mat4, v: Vec4)
    ensures MulVec(MatMul(a, b), v) == MulVec(a, MulVec(b, v))
  {
    DotMulVec(Row0(a), b, v);
    DotMulVec(Row1(a), b, v);
    DotMulVec(Row2(a), b, v);
    DotMulVec(Row3(a), b, v);
  }

  lemma MatMulAssoc(a: Mat4, b: Mat4, c: Mat4)
    ensures MatMul(MatMul(a, b), c) == MatMul(a, MatMul(b, c))
  {
    MulVecAssoc(a, b, c.c0);
    MulVecAssoc(a, b, c.c1);
    MulVecAssoc(a, b, c.c2);
    MulVecAssoc(a, b, c.c3);
  }

  /** The determinant of the 3x3 matrix with columns a, b, c. */
  function Det3(a: Vec3, b: Vec3, c: Vec3): real {
    a.Dot(b.Cross(c))
  }

  /** `determinant()`, expanded along the bottom row. */
  function Determinant(m: Mat4): real {
    var a, b, c, d := m.c0.Truncate(), m.c1.Truncate(), m.c2.Truncate(), m.c3.Truncate();
    - m.c0.w * Det3(b, c, d) + m.c1.w * Det3(a, c, d) - m.c2.w * Det3(a, b, d) + m.c3.w * Det3(a, b, c)
  }

  // ------------------------------------------------------------ Transform

  /** `Transform { t, invt }`, built by `Transform::new`. */
  datatype Transform = Transform(t: Mat4, invt: Mat4)

  /** `Transform::IDENTITY` and `identity()`. */
  const Identity: Transform := Transform(Identity4, Identity4)

  /** The two matrices really are inverse to each other. */
  ghost predicate IsInversePair(tf: Transform) {
    MatMul(tf.t, tf.invt) == Identity4 && MatMul(tf.invt, tf.t) == Identity4
  }

  /** `inverse`: the pair swapped. */
  function Inverse(tf: Transform): Transform {
    Transform(tf.invt, tf.t)
  }

  /** `a * b`: `t` multiplies in order, `invt` in reverse order. */
  function Mul(a: Transform, b: Transform): Transform {
    Transform(MatMul(a.t, b.t), MatMul(b.invt, a.invt))
  }

  /** `self.then(next)` is `next * self`; it keeps matrices affine. */
  function Then(self: Transform, next: Transform): (r: Transform)
    ensures IsAffine(self.t) && IsAffine(next.t) ==> IsAffine(r.t)
  {
    Mul(next, self)
  }

  /** `translate(d)`: translation by d, undone by translation by -d. */
  function Translate(d: Vec3): Transform {
    Transform(FromTranslation(d), FromTranslation(d.Neg()))
  }

  /** `scale(sx, sy, sz)`: undone by the reciprocal scale. */
  function Scale(sx: real, sy: real, sz: real): Transform
    requires sx != 0.0 && sy != 0.0 && sz != 0.0
  {
    Transform(FromNonuniformScale(sx, sy, sz), FromNonuniformScale(1.0 / sx, 1.0 / sy, 1.0 / sz))
  }

  /** `a x b` is perpendicular to a and to b. */
  lemma CrossPerpendicular(a: Vec3, b: Vec3)
    ensures a.Cross(b).Dot(a) == 0.0 && a.Cross(b).Dot(b) == 0.0
  {
  }

  /**
   * `look_at`: the camera frame as columns (right, up, direction, position);
   * `invt` is that frame and `t` its inverse, as `inverse_transform` computes
   * it. The frame's up axis is perpendicular to both its direction and its
   * right axis. `normalize` and `inverse_transform` are parameters.
   */
  function LookAt(pos: Vec3, target: Vec3, up: Vec3, normalize: Vec3 -> Vec3, inverseTransform: Mat4 -> Mat4): (r: Transform)
    ensures r.t == inverseTransform(r.invt)
    ensures r.invt.c1.Truncate().Dot(r.invt.c2.Truncate()) == 0.0 && r.invt.c1.Truncate().Dot(r.invt.c0.Truncate()) == 0.0
  {
    var dir := normalize(target.Sub(pos));
    var right := normalize(normalize(up).Cross(dir));
    var newUp := dir.Cross(right);
    CrossPerpendicular(dir, right);
    var mat := FromCols(Vec4(right.x, right.y, right.z, 0.0), Vec4(newUp.x, newUp.y, newUp.z, 0.0),
                        Vec4(dir.x, dir.y, dir.z, 0.0), Vec4(pos.x, pos.y, pos.z, 1.0));
    Transform(inverseTransform(mat), mat)
  }

  /**
   * `camera_look_at`: `look_at(..).inverse()`, mapping camera space to world
   * space; its forward matrix is the camera frame itself, whose up axis is
   * perpendicular to the viewing direction and the right axis.
   */
  function CameraLookAt(pos: Vec3, target: Vec3, up: Vec3, normalize: Vec3 -> Vec3, inverseTransform: Mat4 -> Mat4): (r: Transform)
    ensures r.invt == inverseTransform(r.t)
    ensures r.t.c1.Truncate().Dot(r.t.c2.Truncate()) == 0.0 && r.t.c1.Truncate().Dot(r.t.c0.Truncate()) == 0.0
  {
    Inverse(LookAt(pos, target, up, normalize, inverseTransform))
  }

  /** `swaps_handedness`: for an affine matrix, the sign of the determinant of its upper-left 3x3 block. */
  function SwapsHandedness(tf: Transform): (r: bool)
    ensures IsAffine(tf.t) ==> (r <==> Det3(tf.t.c0.Truncate(), tf.t.c1.Truncate(), tf.t.c2.Truncate()) < 0.0)
  {
    AffineDeterminantIf(tf.t);
    Determinant(tf.t) < 0.0
  }

  // ------------------------------------------------------------ exact identities

  /** Inverting twice gives the original back. */
  lemma InverseInvolution(tf: Transform)
    ensures Inverse(Inverse(tf)) == tf
    ensures IsInversePair(tf) ==> IsInversePair(Inverse(tf))
  {
  }

  /** For an inverse pair, the inverse undoes the transform and the transform undoes the inverse. */
  lemma InverseUndoes(tf: Transform, v: Vec4)
    requires IsInversePair(tf)
    ensures MulVec(Inverse(tf).t, MulVec(tf.t, v)) == v && MulVec(tf.t, MulVec(Inverse(tf).t, v)) == v
  {
    MulVecAssoc(tf.invt, tf.t, v);
    MulVecAssoc(tf.t, tf.invt, v);
    MulVecIdentity(v);
  }

  /** `(a * b).inverse() == b.inverse() * a.inverse()`, exactly. */
  lemma InverseOfProduct(a: Transform, b: Transform)
    ensures Inverse(Mul(a, b)) == Mul(Inverse(b), Inverse(a))
  {
  }

  /** The product of two inverse pairs is an inverse pair. */
  lemma MulKeepsInversePair(a: Transform, b: Transform)
    requires IsInversePair(a) && IsInversePair(b)
    ensures IsInversePair(Mul(a, b))
  {
    MatMulAssoc(MatMul(a.t, b.t), b.invt, a.invt);
    MatMulAssoc(a.t, b.t, b.invt);
    MatMulIdentity(a.t);
    MatMulAssoc(MatMul(b.invt, a.invt), a.t, b.t);
    MatMulAssoc(b.invt, a.invt, a.t);
    MatMulIdentity(b.invt);
  }

  lemma IdentityIsInversePair()
    ensures IsInversePair(Identity)
  {
    MatMulIdentity(Identity4);
  }

  lemma TranslateIsInversePair(d: Vec3)
    ensures IsInversePair(Translate(d))
  {
    var m, n := FromTranslation(d), FromTranslation(d.Neg());
    assert MulVec(m, n.c3) == E3 && MulVec(n, m.c3) == E3;
    assert MulVec(m, E0) == E0 && MulVec(m, E1) == E1 && MulVec(m, E2) == E2;
    assert MulVec(n, E0) == E0 && MulVec(n, E1) == E1 && MulVec(n, E2) == E2;
  }

  lemma ScaleIsInversePair(sx: real, sy: real, sz: real)
    requires sx != 0.0 && sy != 0.0 && sz != 0.0
    ensures IsInversePair(Scale(sx, sy, sz))
  {
    var m, n := FromNonuniformScale(sx, sy, sz), FromNonuniformScale(1.0 / sx, 1.0 / sy, 1.0 / sz);
    assert sx * (1.0 / sx) == 1.0 && sy * (1.0 / sy) == 1.0 && sz * (1.0 / sz) == 1.0;
    assert MatMul(m, n).c0 == E0 && MatMul(m, n).c1 == E1 && MatMul(m, n).c2 == E2 && MatMul(m, n).c3 == E3;
    assert MatMul(n, m).c0 == E0 && MatMul(n, m).c1 == E1 && MatMul(n, m).c2 == E2 && MatMul(n, m).c3 == E3;
  }

  /** A scale swaps handedness exactly when the product of its factors is negative. */
  lemma ScaleHandedness(sx: real, sy: real, sz: real)
    requires sx != 0.0 && sy != 0.0 && sz != 0.0
    ensures Determinant(Scale(sx, sy, sz).t) == sx * sy * sz
    ensures SwapsHandedness(Scale(sx, sy, sz)) <==> sx * sy * sz < 0.0
  {
    ScaleDeterminant(sx, sy, sz);
  }

  /** A translation never swaps handedness, and neither does the identity. */
  lemma TranslateHandedness(d: Vec3)
    ensures Determinant(Translate(d).t) == 1.0 && !SwapsHandedness(Translate(d))
  {
    AffineDeterminant(FromTranslation(d));
  }

  lemma IdentityHandedness()
    ensures Determinant(Identity.t) == 1.0 && !SwapsHandedness(Identity)
  {
    assert Identity4 == FromTranslation(Vec3(0.0, 0.0, 0.0));
    TranslateHandedness(Vec3(0.0, 0.0, 0.0));
  }

  lemma ScaleDeterminant(sx: real, sy: real, sz: real)
    ensures Determinant(FromNonuniformScale(sx, sy, sz)) == sx * sy * sz
  {
    var s := FromNonuniformScale(sx, sy, sz);
    AffineDeterminant(s);
    assert Det3(s.c0.Truncate(), s.c1.Truncate(), s.c2.Truncate()) == sx * (sy * sz);
  }

  /** Expanding along a bottom row (0, 0, 0, 1) leaves the upper-left 3x3 determinant. */
  lemma AffineDeterminant(m: Mat4)
    requires IsAffine(m)
    ensures Determinant(m) == Det3(m.c0.Truncate(), m.c1.Truncate(), m.c2.Truncate())
  {
  }

  lemma AffineDeterminantIf(m: Mat4)
    ensures IsAffine(m) ==> Determinant(m) == Det3(m.c0.Truncate(), m.c1.Truncate(), m.c2.Truncate())
  {
    if IsAffine(m) {
      AffineDeterminant(m);
    }
  }

  // ------------------------------------------------------------ points and vectors

  /** cgmath's `transform_point`: through homogeneous coordinates, dividing by w. */
  function TransformPoint(m: Mat4, p: Vec3): Vec3
    requires MulVec(m, Vec4(p.x, p.y, p.z, 1.0)).w != 0.0
  {
    var h := MulVec(m, Vec4(p.x, p.y, p.z, 1.0));
    Vec3(h.x / h.w, h.y / h.w, h.z / h.w)
  }

  /** cgmath's `transform_vector`: w = 0, so translations do not apply. */
  function TransformVector(m: Mat4, v: Vec3): Vec3 {
    MulVec(m, Vec4(v.x, v.y, v.z, 0.0)).Truncate()
  }

  /** A matrix whose bottom row is (0, 0, 0, 1). */
  predicate IsAffine(m: Mat4) {
    m.c0.w == 0.0 && m.c1.w == 0.0 && m.c2.w == 0.0 && m.c3.w == 1.0
  }

  /** An affine matrix keeps w = 1, so the division is by 1. */
  lemma AffinePoint(m: Mat4, p: Vec3)
    requires IsAffine(m)
    ensures MulVec(m, Vec4(p.x, p.y, p.z, 1.0)).w == 1.0
    ensures TransformPoint(m, p) == MulVec(m, Vec4(p.x, p.y, p.z, 1.0)).Truncate()
  {
  }

  /** A product of affine matrices is affine. */
  lemma AffineMul(a: Mat4, b: Mat4)
    requires IsAffine(a) && IsAffine(b)
    ensures IsAffine(MatMul(a, b))
  {
  }

  /** An affine matrix maps w = 0 to w = 0. */
  lemma AffineVector(m: Mat4, v: Vec3)
    requires IsAffine(m)
    ensures MulVec(m, Vec4(v.x, v.y, v.z, 0.0)).w == 0.0
  {
  }

  /** `a.then(b)` applies a first, to vectors and to points. */
  lemma ThenAppliesSelfFirst(a: Transform, b: Transform, p: Vec3, v: Vec3)
    requires IsAffine(a.t) && IsAffine(b.t)
    ensures IsAffine(Then(a, b).t)
    ensures TransformVector(Then(a, b).t, v) == TransformVector(b.t, TransformVector(a.t, v))
    ensures TransformPoint(Then(a, b).t, p) == TransformPoint(b.t, TransformPoint(a.t, p))
  {
    AffineMul(b.t, a.t);
    MulVecAssoc(b.t, a.t, Vec4(v.x, v.y, v.z, 0.0));
    AffineVector(a.t, v);
    MulVecAssoc(b.t, a.t, Vec4(p.x, p.y, p.z, 1.0));
    AffinePoint(a.t, p);
    AffinePoint(b.t, TransformPoint(a.t, p));
    AffinePoint(Then(a, b).t, p);
  }

  /** `IDENTITY` fixes every point and vector. */
  lemma IdentityFixes(p: Vec3)
    ensures TransformPoint(Identity.t, p) == p && TransformVector(Identity.t, p) == p
  {
  }

  /**
   * `scale(s, s, s) * translate(d)` translates points first and then scales
   * them, and only scales vectors: with s = 2 and d = p = (1, 1, 1), the point
   * goes to (4, 4, 4) and the vector to (2, 2, 2).
   */
  lemma ScaleAfterTranslate(s: real, d: Vec3, p: Vec3)
    requires s != 0.0
    ensures var m := Mul(Scale(s, s, s), Translate(d)).t;
      IsAffine(m) && MulVec(m, Vec4(p.x, p.y, p.z, 1.0)).w == 1.0 &&
      TransformPoint(m, p) == p.Add(d).Scale(s) && TransformVector(m, p) == p.Scale(s)
  {
    var m, q := Mul(Scale(s, s, s), Translate(d)).t, p.Add(d);
    ThenAppliesSelfFirst(Translate(d), Scale(s, s, s), p, p);
    AffinePoint(m, p);
    TranslateMoves(d, p);
    assert TransformPoint(m, p) == TransformPoint(Scale(s, s, s).t, q);
    ScaleStretches(s, s, s, q);
    ScaleStretches(s, s, s, p);
  }

  /** `translate(d)` moves points by d and leaves vectors alone. */
  lemma TranslateMoves(d: Vec3, p: Vec3)
    ensures IsAffine(Translate(d).t)
    ensures TransformPoint(Translate(d).t, p) == p.Add(d) && TransformVector(Translate(d).t, p) == p
  {
    AffinePoint(Translate(d).t, p);
  }

  /** `scale(sx, sy, sz)` multiplies each coordinate of points and vectors by its factor. */
  lemma ScaleStretches(sx: real, sy: real, sz: real, p: Vec3)
    requires sx != 0.0 && sy != 0.0 && sz != 0.0
    ensures IsAffine(Scale(sx, sy, sz).t)
    ensures TransformPoint(Scale(sx, sy, sz).t, p) == Vec3(sx * p.x, sy * p.y, sz * p.z)
    ensures TransformVector(Scale(sx, sy, sz).t, p) == Vec3(sx * p.x, sy * p.y, sz * p.z)
  {
    AffinePoint(Scale(sx, sy, sz).t, p);
  }

  /** The camera sits at `pos` and looks along the normalised direction to the target. */
  lemma CameraLookAtFrame(pos: Vec3, target: Vec3, up: Vec3, normalize: Vec3 -> Vec3, inverseTransform: Mat4 -> Mat4)
    ensures var cam := CameraLookAt(pos, target, up, normalize, inverseTransform);
      IsAffine(cam.t) && TransformPoint(cam.t, Vec3(0.0, 0.0, 0.0)) == pos &&
      TransformVector(cam.t, Vec3(0.0, 0.0, 1.0)) == normalize(target.Sub(pos))
  {
  }

  // ------------------------------------------------------------ normals

  /** The upper-left 3x3 block of a matrix equals its own transpose. */
  predicate Symmetric3(m: Mat4) {
    m.c0.y == m.c1.x && m.c0.z == m.c2.x && m.c1.z == m.c2.y
  }

  /**
   * `transform_normal` as written: `invt[0][0]*n.x + invt[1][0]*n.y +
   * invt[2][0]*n.z`, which in column-major indexing applies `invt` itself;
   * it agrees with the transpose only where `invt`'s 3x3 block is symmetric.
   */
  function TransformNormalAsWritten(tf: Transform, n: Vec3): (r: Vec3)
    ensures Symmetric3(tf.invt) ==> r == TransformNormal(tf, n)
  {
    TransformVector(tf.invt, n)
  }

  /**
   * What the comment asks for: the transpose of the inverse applied to n,
   * that is the vector whose product with any u is n against `invt` u.
   */
  function TransformNormal(tf: Transform, n: Vec3): (r: Vec3)
    ensures forall u :: r.Dot(u) == n.Dot(TransformVector(tf.invt, u))
  {
    var m := tf.invt;
    var r := Vec3(m.c0.Truncate().Dot(n), m.c1.Truncate().Dot(n), m.c2.Truncate().Dot(n));
    assert forall u :: r.Dot(u) == n.Dot(TransformVector(tf.invt, u)) by {
      forall u: Vec3 {
        Bilinear(m, n, Vec4(u.x, u.y, u.z, 0.0));
      }
    }
    r
  }

  /** The corrected normal's product with a transformed vector equals n against `invt * t` applied to it. */
  lemma NormalDotVector(tf: Transform, n: Vec3, v: Vec3)
    requires IsAffine(tf.t)
    ensures TransformNormal(tf, n).Dot(TransformVector(tf.t, v)) == n.Dot(TransformVector(MatMul(tf.invt, tf.t), v))
  {
    var u := MulVec(tf.t, Vec4(v.x, v.y, v.z, 0.0));
    MulVecAssoc(tf.invt, tf.t, Vec4(v.x, v.y, v.z, 0.0));
    assert u == Vec4(u.x, u.y, u.z, 0.0);
  }

  lemma Bilinear(m: Mat4, n: Vec3, u: Vec4)
    requires u.w == 0.0
    ensures Vec3(m.c0.Truncate().Dot(n), m.c1.Truncate().Dot(n), m.c2.Truncate().Dot(n)).Dot(u.Truncate())
      == n.Dot(MulVec(m, u).Truncate())
  {
  }

  /** With an inverse pair, corrected normals stay perpendicular to transformed tangent vectors. */
  lemma NormalStaysPerpendicular(tf: Transform, n: Vec3, v: Vec3)
    requires IsInversePair(tf) && IsAffine(tf.t) && n.Dot(v) == 0.0
    ensures TransformNormal(tf, n).Dot(TransformVector(tf.t, v)) == 0.0
  {
    NormalDotVector(tf, n, v);
    MulVecIdentity(Vec4(v.x, v.y, v.z, 0.0));
  }

  /** The shear `x += k y`, paired with its inverse `x -= k y`. */
  function Shear(k: real): Transform {
    Transform(Mat4(E0, Vec4(k, 1.0, 0.0, 0.0), E2, E3), Mat4(E0, Vec4(-k, 1.0, 0.0, 0.0), E2, E3))
  }

  lemma ShearIsInversePair(k: real)
    ensures IsInversePair(Shear(k)) && IsAffine(Shear(k).t)
  {
    var t, inv := Shear(k).t, Shear(k).invt;
    assert MulVec(t, E0) == E0 && MulVec(t, inv.c1) == E1 && MulVec(t, E2) == E2 && MulVec(t, E3) == E3;
    assert MulVec(inv, E0) == E0 && MulVec(inv, t.c1) == E1 && MulVec(inv, E2) == E2 && MulVec(inv, E3) == E3;
  }

  /**
   * Under a shear by k, the normal (0, 1, 0) of the x axis transformed as
   * written has product -k with the transformed axis, so for k != 0 it is no
   * longer perpendicular; the corrected normal still is.
   */
  lemma TransformNormalAsWrittenTilts(k: real)
    ensures Vec3(0.0, 1.0, 0.0).Dot(Vec3(1.0, 0.0, 0.0)) == 0.0
    ensures TransformNormalAsWritten(Shear(k), Vec3(0.0, 1.0, 0.0)).Dot(TransformVector(Shear(k).t, Vec3(1.0, 0.0, 0.0))) == -k
    ensures TransformNormal(Shear(k), Vec3(0.0, 1.0, 0.0)).Dot(TransformVector(Shear(k).t, Vec3(1.0, 0.0, 0.0))) == 0.0
  {
    assert TransformVector(Shear(k).t, Vec3(1.0, 0.0, 0.0)) == Vec3(1.0, 0.0, 0.0);
    assert TransformNormalAsWritten(Shear(k), Vec3(0.0, 1.0, 0.0)) == Vec3(-k, 1.0, 0.0);
    assert TransformNormal(Shear(k), Vec3(0.0, 1.0, 0.0)) == Vec3(0.0, 1.0, 0.0);
  }

  // ------------------------------------------------------------ boxes

  /** The eight corners of a box; the fold below does not depend on their order. */
  function Corners(b: Bounds3): seq<Vec3> {
    var lo, hi := b.min, b.max;
    [Vec3(lo.x, lo.y, lo.z), Vec3(hi.x, lo.y, lo.z), Vec3(lo.x, hi.y, lo.z), Vec3(hi.x, hi.y, lo.z),
     Vec3(lo.x, lo.y, hi.z), Vec3(hi.x, lo.y, hi.z), Vec3(lo.x, hi.y, hi.z), Vec3(hi.x, hi.y, hi.z)]
  }

  /** `fold(acc, |b, p| b.join_point(p))` */
  function FoldJoinPoint(acc: Bounds3, ps: seq<Vec3>): Bounds3
    decreases |ps|
  {
    if ps == [] then acc else FoldJoinPoint(JoinPoint(acc, ps[0]), ps[1..])
  }

  /** The fold contains the start and every point, and lies within every box that does. */
  lemma {:induction false} FoldJoinPointBounds(acc: Bounds3, ps: seq<Vec3>)
    ensures Within(acc, FoldJoinPoint(acc, ps))
    ensures forall i :: 0 <= i < |ps| ==> Contains(FoldJoinPoint(acc, ps), ps[i])
    ensures forall c :: Within(acc, c) && (forall i :: 0 <= i < |ps| ==> Contains(c, ps[i])) ==> Within(FoldJoinPoint(acc, ps), c)
    decreases |ps|
  {
    if ps != [] {
      var next := JoinPoint(acc, ps[0]);
      FoldJoinPointBounds(next, ps[1..]);
      assert forall i :: 1 <= i < |ps| ==> ps[i] == ps[1..][i - 1];
      forall c | Within(acc, c) && (forall i :: 0 <= i < |ps| ==> Contains(c, ps[i]))
        ensures Within(FoldJoinPoint(acc, ps), c)
      {
        assert Contains(c, ps[0]);
        assert forall i :: 0 <= i < |ps[1..]| ==> Contains(c, ps[1..][i]);
      }
    }
  }

  /** The image of a point under an affine matrix (`t.transform(p)`). */
  function MapPoints(m: Mat4, ps: seq<Vec3>): (r: seq<Vec3>)
    requires IsAffine(m)
    ensures |r| == |ps| && forall i :: 0 <= i < |ps| ==> r[i] == TransformPoint(m, ps[i])
  {
    seq(|ps|, i requires 0 <= i < |ps| => AffinePoint(m, ps[i]); TransformPoint(m, ps[i]))
  }

  /**
   * `Bounds3f::transform`: the empty box joined with the eight transformed
   * corners. The result holds every transformed corner and, when they are
   * finite, is the smallest box that does.
   */
  function TransformBounds(b: Bounds3, tf: Transform): (r: Bounds3)
    requires IsAffine(tf.t)
    ensures forall i :: 0 <= i < 8 ==> Contains(r, TransformPoint(tf.t, Corners(b)[i]))
    ensures forall c ::
      ((forall i :: 0 <= i < 8 ==> Contains(c, TransformPoint(tf.t, Corners(b)[i]))) &&
       FinitePoint(TransformPoint(tf.t, Corners(b)[0]))) ==> Within(r, c)
  {
    var ps := MapPoints(tf.t, Corners(b));
    FoldJoinPointBounds(Empty3(), ps);
    assert forall c ::
      ((forall i :: 0 <= i < 8 ==> Contains(c, TransformPoint(tf.t, Corners(b)[i]))) && FinitePoint(ps[0]))
      ==> Within(FoldJoinPoint(Empty3(), ps), c) by {
      forall c | (forall i :: 0 <= i < 8 ==> Contains(c, TransformPoint(tf.t, Corners(b)[i]))) && FinitePoint(ps[0])
        ensures Within(FoldJoinPoint(Empty3(), ps), c)
      {
        assert Contains(c, ps[0]);
        assert Within(Empty3(), c);
      }
    }
    FoldJoinPoint(Empty3(), ps)
  }
}
