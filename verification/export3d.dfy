/** The 3D export of to_pos_extrapolator_pos.py: every tag pose is
    re-expressed relative to the centre pose (`inv(T_center) @ T_tag`), its
    planar position becomes `(x, 0, z)` and its heading a ground-plane
    direction vector; entries are keyed by the tag id written in decimal.
    Argument parsing and the JSON files are not part of this model.

    `np.sqrt` has no counterpart on `real`; it is the parameter `sqrt`, of
    which only "the non-negative square root of a non-negative number" is
    assumed. `np.linalg.inv` of a pose transform is written in closed form. */
module Export3D {
  import opened Wrappers
  import opened Position

  /** What the model assumes of `np.sqrt`. */
  ghost predicate IsSqrt(sqrt: real -> real) {
    forall x: real | x >= 0.0 :: sqrt(x) >= 0.0 && sqrt(x) * sqrt(x) == x
  }

  lemma MulNonNegative(x: real, y: real)
    requires x >= 0.0 && y >= 0.0
    ensures x * y >= 0.0
  {
  }

  lemma SquareNonNegative(x: real)
    ensures x * x >= 0.0
  {
    if x < 0.0 {
      MulNonNegative(-x, -x);
    } else {
      MulNonNegative(x, x);
    }
  }

  lemma MulPositive(x: real, y: real)
    requires x > 0.0 && y > 0.0
    ensures x * y > 0.0
  {
  }

  /** `MulPositive` for a product already named `z`. */
  lemma ProductPositive(x: real, y: real, z: real)
    requires x > 0.0 && y > 0.0 && z == x * y
    ensures z > 0.0
  {
  }

  lemma ProductZero(x: real, y: real, z: real)
    requires x == 0.0 && z == x * y
    ensures z == 0.0
  {
  }

  /** A common non-zero factor cancels. */
  lemma Cancel(u: real, v: real, k: real)
    requires k != 0.0 && u * k == v * k
    ensures u == v
  {
    assert (u - v) * k == 0.0;
    if u != v {
      if (u - v > 0.0) == (k > 0.0) {
        if k > 0.0 { MulPositive(u - v, k); } else { MulPositive(v - u, -k); }
      } else {
        if k > 0.0 { MulPositive(v - u, k); } else { MulPositive(u - v, -k); }
      }
    }
  }

  /** Non-negative square roots are unique. */
  lemma SquareRootUnique(a: real, b: real)
    requires a >= 0.0 && b >= 0.0 && a * a == b * b
    ensures a == b
  {
    if a < b {
      MulPositive(a + b, b - a);
    } else if b < a {
      MulPositive(a + b, a - b);
    }
  }

  /** `(x / m)² = x² / m²`. */
  lemma DivSquare(x: real, m: real)
    requires m != 0.0
    ensures (x / m) * (x / m) * (m * m) == x * x
  {
    var q := x / m;
    assert q * m == x;
    assert (q * q) * (m * m) == (q * m) * (q * m);
  }

  /** The square root of a non-negative number is positive exactly when the
      number is. */
  lemma RootPositive(q: real, sqrt: real -> real)
    requires IsSqrt(sqrt) && q >= 0.0
    ensures sqrt(q) * sqrt(q) == q
    ensures sqrt(q) > 0.0 <==> q > 0.0
  {
    var m := sqrt(q);
    if m > 0.0 {
      ProductPositive(m, m, q);
    } else {
      ProductZero(m, m, q);
    }
  }

  /** A non-zero number has a positive square. */
  lemma SquarePositive(x: real, z: real)
    requires x != 0.0 && z == x * x
    ensures z > 0.0
  {
    if x > 0.0 {
      ProductPositive(x, x, z);
    } else {
      ProductPositive(-x, -x, z);
    }
  }

  /** A sum of two squares is non-negative and zero only when both numbers are. */
  lemma SumOfSquares(x: real, y: real, x2: real, y2: real)
    requires x2 == x * x && y2 == y * y
    ensures x2 + y2 >= 0.0
    ensures x2 + y2 == 0.0 <==> x == 0.0 && y == 0.0
  {
    SquareNonNegative(x);
    SquareNonNegative(y);
    if x != 0.0 {
      SquarePositive(x, x2);
    } else {
      ProductZero(x, x, x2);
    }
    if y != 0.0 {
      SquarePositive(y, y2);
    } else {
      ProductZero(y, y, y2);
    }
  }

  /** `sin² + cos²`, the squared length of a heading: zero exactly for the
      zero heading. */
  function SquaredNorm(sin: real, cos: real): (q: real)
    ensures q >= 0.0
    ensures q == 0.0 <==> sin == 0.0 && cos == 0.0
  {
    SumOfSquares(sin, cos, sin * sin, cos * cos);
    sin * sin + cos * cos
  }

  /** `sin_cos_to_direction_vector`: the heading, scaled to unit length when
      it is not zero, as `(cos, 0, -sin)`. */
  function SinCosToDirectionVector(sin: real, cos: real, sqrt: real -> real): (d: Vec3)
    requires IsSqrt(sqrt)
    ensures d.v1 == 0.0
    ensures sin == 0.0 && cos == 0.0 ==> d == Vec3(cos, 0.0, -sin)
  {
    DirectionFrom(sin, cos, sqrt(SquaredNorm(sin, cos)))
  }

  /** The direction for a heading of magnitude `m`. */
  function DirectionFrom(sin: real, cos: real, m: real): Vec3 {
    if m > 0.0 then Vec3(cos / m, 0.0, -(sin / m))
    else Vec3(cos, 0.0, -sin)
  }

  /** A non-zero heading gives a unit direction, `(cos / m, 0, -sin / m)`
      with `m` the heading's length. */
  lemma DirectionUnit(sin: real, cos: real, sqrt: real -> real)
    requires IsSqrt(sqrt) && (sin != 0.0 || cos != 0.0)
    ensures var d := SinCosToDirectionVector(sin, cos, sqrt);
      var m := sqrt(SquaredNorm(sin, cos));
      && m > 0.0 && d.v0 * m == cos && d.v2 * m == -sin
      && d.v0 * d.v0 + d.v2 * d.v2 == 1.0
  {
    var q := SquaredNorm(sin, cos);
    RootPositive(q, sqrt);
    var m := sqrt(q);
    var d := SinCosToDirectionVector(sin, cos, sqrt);
    DivSquare(cos, m);
    DivSquare(sin, m);
    var u := d.v0 * d.v0 + d.v2 * d.v2;
    assert u * (m * m) == cos * cos + sin * sin;
    assert m * m == q == sin * sin + cos * cos;
    Cancel(u, 1.0, m * m);
  }

  lemma ScaledSquaredNorm(sin: real, cos: real, k: real)
    ensures SquaredNorm(k * sin, k * cos) == (k * k) * SquaredNorm(sin, cos)
  {
  }

  /** `sqrt(k² q) = k sqrt(q)` for positive `k`. */
  lemma ScaledRoot(q: real, k: real, qk: real, sqrt: real -> real)
    requires IsSqrt(sqrt) && q >= 0.0 && k > 0.0 && qk == (k * k) * q
    ensures sqrt(qk) == k * sqrt(q)
  {
    var kk := k * k;
    ProductPositive(k, k, kk);
    MulNonNegative(kk, q);
    var m, mk := sqrt(q), sqrt(qk);
    assert mk * mk == qk;
    assert m * m == q;
    assert (k * m) * (k * m) == kk * (m * m);
    MulNonNegative(k, m);
    SquareRootUnique(mk, k * m);
  }

  /** Scaling the heading and its magnitude together leaves the direction. */
  lemma DirectionFromScaled(sin: real, cos: real, m: real, k: real)
    requires m >= 0.0 && k > 0.0
    requires m == 0.0 ==> sin == 0.0 && cos == 0.0
    ensures DirectionFrom(k * sin, k * cos, k * m) == DirectionFrom(sin, cos, m)
  {
    if m > 0.0 {
      MulPositive(k, m);
      ScaledQuotient(cos, m, k);
      ScaledQuotient(sin, m, k);
    } else {
      ProductZero(m, k, m * k);
      ProductZero(sin, k, sin * k);
      ProductZero(cos, k, cos * k);
    }
  }

  /** The direction depends only on the heading's angle: scaling sine and
      cosine by the same positive factor changes nothing. */
  lemma DirectionScaleInvariant(sin: real, cos: real, k: real, sqrt: real -> real)
    requires IsSqrt(sqrt) && k > 0.0
    ensures SinCosToDirectionVector(k * sin, k * cos, sqrt) == SinCosToDirectionVector(sin, cos, sqrt)
  {
    var q, qk := SquaredNorm(sin, cos), SquaredNorm(k * sin, k * cos);
    ScaledSquaredNorm(sin, cos, k);
    ScaledRoot(q, k, qk, sqrt);
    RootPositive(q, sqrt);
    DirectionFromScaled(sin, cos, sqrt(q), k);
  }

  lemma ScaledQuotient(x: real, m: real, k: real)
    requires m != 0.0 && k != 0.0
    ensures (k * x) / (k * m) == x / m
  {
  }

  /** `Tag3DPosition`. */
  datatype Tag3DPosition = Tag3DPosition(x: real, y: real, z: real, directionVector: seq<real>)

  /** The closed-form inverse of a pose transform, given `a = cos / d` and
      `b = sin / d` for the determinant `d`. */
  function InverseFrom(a: real, b: real, x: real, y: real): Mat3 {
    Mat3(a, b, -(a * x + b * y),
         -b, a, b * x - a * y,
         0.0, 0.0, 1.0)
  }

  /** `np.linalg.inv` of a pose transform. The determinant is `sin² + cos²`;
      when it is zero the matrix is singular and NumPy raises. */
  function PoseInverse(p: Position2D): (r: Result<Mat3>)
    ensures r.Ok? <==> p.sin != 0.0 || p.cos != 0.0
    ensures r.Err? ==> r.error == LinAlgError
  {
    var d := SquaredNorm(p.sin, p.cos);
    if d == 0.0 then Err(LinAlgError)
    else Ok(InverseFrom(p.cos / d, p.sin / d, p.x, p.y))
  }

  /** The closed form is a two-sided inverse whenever `a cos + b sin = 1` and
      `a sin = b cos`. */
  lemma InverseFromCorrect(a: real, b: real, p: Position2D)
    requires a * p.cos + b * p.sin == 1.0 && a * p.sin == b * p.cos
    ensures Mul(InverseFrom(a, b, p.x, p.y), Transform(p)) == Identity3
    ensures Mul(Transform(p), InverseFrom(a, b, p.x, p.y)) == Identity3
  {
    var c, s, x, y := p.cos, p.sin, p.x, p.y;
    var m := Mul(InverseFrom(a, b, x, y), Transform(p));
    assert m.m02 == a * x + b * y - (a * x + b * y);
    assert m.m12 == -b * x + a * y + (b * x - a * y);
    var n := Mul(Transform(p), InverseFrom(a, b, x, y));
    assert n.m01 == c * b - s * a;
    assert n.m10 == s * a - c * b;
    assert n.m02 == -x * (a * c + b * s) + y * (a * s - b * c) + x;
    assert n.m12 == -y * (a * c + b * s) + x * (b * c - a * s) + y;
  }

  /** `a = cos / d` and `b = sin / d`, for `d = sin² + cos²`, meet the
      conditions of `InverseFromCorrect`. */
  lemma DeterminantQuotients(c: real, s: real, d: real)
    requires d != 0.0 && d == s * s + c * c
    ensures (c / d) * c + (s / d) * s == 1.0
    ensures (c / d) * s == (s / d) * c
  {
    var a, b := c / d, s / d;
    assert a * d == c && b * d == s;
    var u := a * c + b * s;
    assert u * d == (a * d) * c + (b * d) * s;
    assert (a * d) * c == c * c && (b * d) * s == s * s;
    assert u * d == c * c + s * s;
    assert u * d == d;
    Cancel(u, 1.0, d);
    assert (a * s) * d == (a * d) * s == c * s;
    assert (b * c) * d == (b * d) * c == s * c;
    Cancel(a * s, b * c, d);
  }

  /** `inv(T) @ T` and `T @ inv(T)` are both the identity. */
  lemma PoseInverseCorrect(p: Position2D)
    requires PoseInverse(p).Ok?
    ensures Mul(PoseInverse(p).value, Transform(p)) == Identity3
    ensures Mul(Transform(p), PoseInverse(p).value) == Identity3
  {
    var d := SquaredNorm(p.sin, p.cos);
    DeterminantQuotients(p.cos, p.sin, d);
    InverseFromCorrect(p.cos / d, p.sin / d, p);
  }

  /** With a unit heading the inverse is the rigid one: the transposed
      rotation and the rotated, negated translation. */
  lemma PoseInverseRigid(p: Position2D)
    requires p.sin * p.sin + p.cos * p.cos == 1.0
    ensures PoseInverse(p) == Ok(Mat3(p.cos, p.sin, -(p.cos * p.x + p.sin * p.y),
                                      -p.sin, p.cos, p.sin * p.x - p.cos * p.y,
                                      0.0, 0.0, 1.0))
  {
    var d := SquaredNorm(p.sin, p.cos);
    assert d == 1.0;
    assert p.cos / d == p.cos && p.sin / d == p.sin;
    assert PoseInverse(p) == Ok(InverseFrom(p.cos, p.sin, p.x, p.y));
    var m := InverseFrom(p.cos, p.sin, p.x, p.y);
    assert m.m02 == -(p.cos * p.x + p.sin * p.y);
    assert m.m12 == p.sin * p.x - p.cos * p.y;
  }

  /** One tag of the per-tag loop: `R = inv(T_center) @ T_tag`, then
      `x = R[0, 2]`, `y = 0`, `z = R[1, 2]` and the direction of `(R[1, 0], R[1, 1])`. */
  function ExportTag(centerInverse: Mat3, tag: Position2D, sqrt: real -> real): (t: Tag3DPosition)
    requires IsSqrt(sqrt)
    ensures t.y == 0.0 && |t.directionVector| == 3 && t.directionVector[1] == 0.0
    ensures var r := Mul(centerInverse, Transform(tag));
      && t.x == r.m02 && t.z == r.m12
      && t.directionVector == [SinCosToDirectionVector(r.m10, r.m11, sqrt).v0, 0.0, SinCosToDirectionVector(r.m10, r.m11, sqrt).v2]
  {
    var r := Mul(centerInverse, Transform(tag));
    var dir := SinCosToDirectionVector(r.Get(1, 0), r.Get(1, 1), sqrt);
    Tag3DPosition(r.Get(0, 2), 0.0, r.Get(1, 2), [dir.v0, dir.v1, dir.v2])
  }

  /** Relative to a centre with a unit heading, the exported position is the
      tag's offset from the centre turned into the centre's frame, and the
      heading is the difference of the two headings. */
  lemma ExportTagRelative(center: Position2D, tag: Position2D, sqrt: real -> real)
    requires IsSqrt(sqrt) && center.sin * center.sin + center.cos * center.cos == 1.0
    ensures PoseInverse(center).Ok?
    ensures var t := ExportTag(PoseInverse(center).value, tag, sqrt);
      var dx, dy := tag.x - center.x, tag.y - center.y;
      && t.x == center.cos * dx + center.sin * dy
      && t.z == -center.sin * dx + center.cos * dy
      && t.directionVector == [SinCosToDirectionVector(center.cos * tag.sin - center.sin * tag.cos, center.cos * tag.cos + center.sin * tag.sin, sqrt).v0,
                               0.0,
                               SinCosToDirectionVector(center.cos * tag.sin - center.sin * tag.cos, center.cos * tag.cos + center.sin * tag.sin, sqrt).v2]
  {
    PoseInverseRigid(center);
    var inv := PoseInverse(center).value;
    assert inv == InverseFrom(center.cos, center.sin, center.x, center.y);
    var r := Mul(inv, Transform(tag));
    assert r.m02 == center.cos * (tag.x - center.x) + center.sin * (tag.y - center.y);
    assert r.m12 == -center.sin * (tag.x - center.x) + center.cos * (tag.y - center.y);
    assert r.m10 == center.cos * tag.sin - center.sin * tag.cos;
    assert r.m11 == center.cos * tag.cos + center.sin * tag.sin;
  }

  /** Decimal digits of a natural number, most significant first. */
  function NatToString(n: nat): (s: string)
    ensures |s| > 0
    ensures forall k | 0 <= k < |s| :: '0' <= s[k] <= '9'
    ensures n < 10 <==> |s| == 1
  {
    if n < 10 then [Digit(n)]
    else NatToString(n / 10) + [Digit(n % 10)]
  }

  function Digit(d: nat): (c: char)
    requires d < 10
    ensures '0' <= c <= '9'
  {
    (48 + d) as char
  }

  /** `str(tag_id)`: decimal, with a leading `-` for negative ids. */
  function IntToString(i: int): (s: string)
    ensures |s| > 0
    ensures i < 0 <==> s[0] == '-'
  {
    if i < 0 then "-" + NatToString(-i) else NatToString(i)
  }

  lemma {:induction false} NatToStringInjective(a: nat, b: nat)
    requires NatToString(a) == NatToString(b)
    ensures a == b
    decreases a
  {
    var sa, sb := NatToString(a), NatToString(b);
    if a >= 10 && b >= 10 {
      assert sa[|sa| - 1] == Digit(a % 10) && sb[|sb| - 1] == Digit(b % 10);
      assert NatToString(a / 10) == sa[..|sa| - 1] == sb[..|sb| - 1] == NatToString(b / 10);
      NatToStringInjective(a / 10, b / 10);
    }
  }

  /** Different ids give different keys. */
  lemma IntToStringInjective(a: int, b: int)
    requires IntToString(a) == IntToString(b)
    ensures a == b
  {
    if a < 0 {
      assert NatToString(-a) == IntToString(a)[1..] == IntToString(b)[1..] == NatToString(-b);
      NatToStringInjective(-a, -b);
    } else {
      NatToStringInjective(a, b);
    }
  }

  /** The per-tag loop of the export script, lifted into a function: one entry
      per tag, keyed by `str(tag_id)`. The centre's inverse is taken first, so a
      singular centre fails before any tag is converted. */
  function ExportTags(tags: map<int, Position2D>, center: Position2D, sqrt: real -> real): (r: Result<map<string, Tag3DPosition>>)
    requires IsSqrt(sqrt)
    ensures r.Ok? <==> PoseInverse(center).Ok?
    ensures r.Err? ==> r.error == LinAlgError
    ensures r.Ok? ==> r.value.Keys == set id | id in tags :: IntToString(id)
    ensures r.Ok? ==> forall id | id in tags :: r.value[IntToString(id)] == ExportTag(PoseInverse(center).value, tags[id], sqrt)
  {
    match PoseInverse(center)
    case Err(e) => Err(e)
    case Ok(inv) =>
      assert forall a, b | a in tags && b in tags && IntToString(a) == IntToString(b) :: a == b by {
        forall a, b | a in tags && b in tags && IntToString(a) == IntToString(b)
          ensures a == b
        {
          IntToStringInjective(a, b);
        }
      }
      Ok(map id | id in tags :: IntToString(id) := ExportTag(inv, tags[id], sqrt))
  }

  /** Relative to the origin pose a tag is exported at its own position,
      with its own heading's direction. */
  lemma ExportTagIdentity(tag: Position2D, sqrt: real -> real)
    requires IsSqrt(sqrt)
    ensures var d := SinCosToDirectionVector(tag.sin, tag.cos, sqrt);
      ExportTag(Identity3, tag, sqrt) == Tag3DPosition(tag.x, 0.0, tag.y, [d.v0, 0.0, d.v2])
  {
    var r := Mul(Identity3, Transform(tag));
    assert r.m10 == tag.sin && r.m11 == tag.cos && r.m02 == tag.x && r.m12 == tag.y;
  }

  /** The origin pose, at `(0, 0)` with heading `(sin 0, cos 1)`. */
  predicate IsOrigin(p: Position2D) {
    p.x == 0.0 && p.y == 0.0 && p.sin == 0.0 && p.cos == 1.0
  }

  /** The origin pose inverts to the identity. */
  lemma OriginInverse(center: Position2D)
    requires IsOrigin(center)
    ensures PoseInverse(center) == Ok(Identity3)
  {
    PoseInverseRigid(center);
  }

  /** With the origin pose as centre every tag is exported as if no centre
      were applied (see `ExportTagIdentity`). */
  lemma ExportTagsIdentityCenter(tags: map<int, Position2D>, center: Position2D, sqrt: real -> real)
    requires IsSqrt(sqrt) && IsOrigin(center)
    ensures var r := ExportTags(tags, center, sqrt);
      && r.Ok?
      && forall id | id in tags :: r.value[IntToString(id)] == ExportTag(Identity3, tags[id], sqrt)
  {
    OriginInverse(center);
  }
}
