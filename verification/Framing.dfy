/** The camera that frames a cloud of points, and the projection of points to
    pixels through it (`docs/render_media.py`), over exact arithmetic. */
module Framing {
  import opened Reals

  const H_APERTURE := 20.955
  const FOCAL := 35.0

  datatype Vec = Vec(x: real, y: real, z: real) {
    function Plus(o: Vec): Vec {
      Vec(x + o.x, y + o.y, z + o.z)
    }

    function Minus(o: Vec): Vec {
      Vec(x - o.x, y - o.y, z - o.z)
    }

    function Times(k: real): Vec {
      Vec(x * k, y * k, z * k)
    }
  }

  function Dot(a: Vec, b: Vec): real {
    a.x * b.x + a.y * b.y + a.z * b.z
  }

  /** The camera's axes; it looks along minus `back`. */
  datatype Basis = Basis(right: Vec, up: Vec, back: Vec)

  ghost predicate Orthonormal(b: Basis) {
    && Dot(b.right, b.right) == 1.0 && Dot(b.up, b.up) == 1.0 && Dot(b.back, b.back) == 1.0
    && Dot(b.right, b.up) == 0.0 && Dot(b.right, b.back) == 0.0 && Dot(b.up, b.back) == 0.0
  }

  datatype Row = Row(x: real, y: real, z: real, w: real)

  /** Row-vector matrices: a point is multiplied from the left. */
  datatype Matrix = Matrix(r0: Row, r1: Row, r2: Row, r3: Row)

  function Apply(v: Row, m: Matrix): Row {
    Row(
      v.x * m.r0.x + v.y * m.r1.x + v.z * m.r2.x + v.w * m.r3.x,
      v.x * m.r0.y + v.y * m.r1.y + v.z * m.r2.y + v.w * m.r3.y,
      v.x * m.r0.z + v.y * m.r1.z + v.z * m.r2.z + v.w * m.r3.z,
      v.x * m.r0.w + v.y * m.r1.w + v.z * m.r2.w + v.w * m.r3.w)
  }

  function Mul(a: Matrix, b: Matrix): Matrix {
    Matrix(Apply(a.r0, b), Apply(a.r1, b), Apply(a.r2, b), Apply(a.r3, b))
  }

  const IDENTITY := Matrix(
    Row(1.0, 0.0, 0.0, 0.0), Row(0.0, 1.0, 0.0, 0.0), Row(0.0, 0.0, 1.0, 0.0), Row(0.0, 0.0, 0.0, 1.0))

  /** An angle, as its cosine and sine. */
  datatype Turn = Turn(cos: real, sin: real)

  ghost predicate ValidTurn(t: Turn) {
    t.cos * t.cos + t.sin * t.sin == 1.0
  }

  function TurnX(t: Turn): Matrix {
    Matrix(Row(1.0, 0.0, 0.0, 0.0), Row(0.0, t.cos, t.sin, 0.0), Row(0.0, -t.sin, t.cos, 0.0), Row(0.0, 0.0, 0.0, 1.0))
  }

  function TurnY(t: Turn): Matrix {
    Matrix(Row(t.cos, 0.0, -t.sin, 0.0), Row(0.0, 1.0, 0.0, 0.0), Row(t.sin, 0.0, t.cos, 0.0), Row(0.0, 0.0, 0.0, 1.0))
  }

  function ViewBasis(pitch: Turn, yaw: Turn): Basis {
    var m := Mul(TurnX(pitch), TurnY(yaw));
    Basis(Vec(m.r0.x, m.r0.y, m.r0.z), Vec(m.r1.x, m.r1.y, m.r1.z), Vec(m.r2.x, m.r2.y, m.r2.z))
  }

  /** Yaw turns the camera about the vertical and pitch about its own side: looking
      level along minus z at no angle, its side stays level, and it looks up by the
      sine of the pitch. */
  lemma ViewAngles(pitch: Turn, yaw: Turn)
    ensures
      var b := ViewBasis(pitch, yaw);
      && b.right == Vec(yaw.cos, 0.0, -yaw.sin)
      && b.up == Vec(pitch.sin * yaw.sin, pitch.cos, pitch.sin * yaw.cos)
      && b.back == Vec(pitch.cos * yaw.sin, -pitch.sin, pitch.cos * yaw.cos)
  {}

  lemma SumOfSquares(k: real, t: Turn)
    requires ValidTurn(t)
    ensures (k * t.cos) * (k * t.cos) + (k * t.sin) * (k * t.sin) == k * k
  {
    assert (k * t.cos) * (k * t.cos) + (k * t.sin) * (k * t.sin) == (k * k) * (t.cos * t.cos + t.sin * t.sin);
  }

  /** Every pitch and yaw give an orthonormal view. */
  lemma ViewBasisIsOrthonormal(pitch: Turn, yaw: Turn)
    requires ValidTurn(pitch) && ValidTurn(yaw)
    ensures Orthonormal(ViewBasis(pitch, yaw))
  {
    var b := ViewBasis(pitch, yaw);
    var c, s, cy, sy := pitch.cos, pitch.sin, yaw.cos, yaw.sin;
    assert b.right == Vec(cy, 0.0, -sy);
    assert b.up == Vec(s * sy, c, s * cy);
    assert b.back == Vec(c * sy, -s, c * cy);
    SumOfSquares(s, yaw);
    SumOfSquares(c, yaw);
    assert Dot(b.right, b.up) == s * (cy * sy) - s * (sy * cy);
    assert Dot(b.right, b.back) == c * (cy * sy) - c * (sy * cy);
    assert Dot(b.up, b.back) == (s * c) * (sy * sy + cy * cy) - c * s;
  }

  // ---- The camera ----------------------------------------------------------------------

  datatype Camera = Camera(
    axes: Basis,
    eye: Vec,
    focal: real,
    horizontalAperture: real,
    verticalAperture: real,
    near: real,
    far: real)

  function Max(a: real, b: real): real {
    if a >= b then a else b
  }

  function Highest(s: seq<real>): (m: real)
    requires s != []
    ensures m in s && forall k | 0 <= k < |s| :: s[k] <= m
  {
    if |s| == 1 then s[0] else Max(s[0], Highest(s[1..]))
  }

  function Lowest(s: seq<real>): (m: real)
    requires s != []
    ensures m in s && forall k | 0 <= k < |s| :: m <= s[k]
  {
    if |s| == 1 then s[0]
    else if s[0] <= Lowest(s[1..]) then s[0] else Lowest(s[1..])
  }

  function Along(cloud: seq<Vec>, axis: Vec): seq<real> {
    seq(|cloud|, k requires 0 <= k < |cloud| => Dot(cloud[k], axis))
  }

  /** Half the extent of the cloud along an axis, and its middle. */
  function HalfExtent(cloud: seq<Vec>, axis: Vec): (h: real)
    requires cloud != []
    ensures h >= 0.0
  {
    var s := Along(cloud, axis);
    assert s[0] == s[0];
    (Highest(s) - Lowest(s)) / 2.0
  }

  function Middle(cloud: seq<Vec>, axis: Vec): real
    requires cloud != []
  {
    (Lowest(Along(cloud, axis)) + Highest(Along(cloud, axis))) / 2.0
  }

  function TanH(): real {
    H_APERTURE / 2.0 / FOCAL
  }

  function TanV(aspect: real): real
    requires aspect > 0.0
  {
    H_APERTURE / aspect / 2.0 / FOCAL
  }

  /** The least distance at which the silhouette fits the frame. */
  function FitDistance(cloud: seq<Vec>, aspect: real, axes: Basis): real
    requires cloud != [] && aspect > 0.0
  {
    var halfW := Max(HalfExtent(cloud, axes.right), 0.0001);
    var halfH := Max(HalfExtent(cloud, axes.up), 0.0001);
    PositiveTans(aspect);
    Max(halfW / TanH(), halfH / TanV(aspect))
  }

  lemma PositiveTans(aspect: real)
    requires aspect > 0.0
    ensures TanH() > 0.0 && TanV(aspect) > 0.0
  {}

  function Forward(axes: Basis): Vec {
    axes.back.Times(-1.0)
  }

  function FitCamera(cloud: seq<Vec>, aspect: real, axes: Basis, margin: real): Camera
    requires cloud != [] && aspect > 0.0
  {
    var forward := Forward(axes);
    var depth := HalfExtent(cloud, forward);
    var distance := FitDistance(cloud, aspect, axes) * margin + depth;
    var centre := axes.right.Times(Middle(cloud, axes.right))
      .Plus(axes.up.Times(Middle(cloud, axes.up)))
      .Plus(forward.Times(Middle(cloud, forward)));
    Camera(axes, centre.Minus(forward.Times(distance)), FOCAL, H_APERTURE, H_APERTURE / aspect,
      Max(distance * 0.01, 0.001), distance * 8.0 + depth * 4.0)
  }

  // ---- Projection ----------------------------------------------------------------------

  function CameraMatrix(c: Camera): Matrix {
    Matrix(
      Row(c.axes.right.x, c.axes.right.y, c.axes.right.z, 0.0),
      Row(c.axes.up.x, c.axes.up.y, c.axes.up.z, 0.0),
      Row(c.axes.back.x, c.axes.back.y, c.axes.back.z, 0.0),
      Row(c.eye.x, c.eye.y, c.eye.z, 1.0))
  }

  function ViewMatrix(c: Camera): Matrix {
    var r, u, b := c.axes.right, c.axes.up, c.axes.back;
    Matrix(
      Row(r.x, u.x, b.x, 0.0),
      Row(r.y, u.y, b.y, 0.0),
      Row(r.z, u.z, b.z, 0.0),
      Row(-Dot(c.eye, r), -Dot(c.eye, u), -Dot(c.eye, b), 1.0))
  }

  /** The perspective matrix of the camera's frustum. */
  function ProjectionMatrix(c: Camera): Matrix
    requires c.focal > 0.0 && c.horizontalAperture > 0.0 && c.verticalAperture > 0.0 && c.near < c.far
  {
    Matrix(
      Row(1.0 / (c.horizontalAperture / 2.0 / c.focal), 0.0, 0.0, 0.0),
      Row(0.0, 1.0 / (c.verticalAperture / 2.0 / c.focal), 0.0, 0.0),
      Row(0.0, 0.0, -(c.far + c.near) / (c.far - c.near), -1.0),
      Row(0.0, 0.0, -2.0 * c.far * c.near / (c.far - c.near), 0.0))
  }

  datatype Pixel = Pixel(x: real, y: real) | Behind

  function Project(c: Camera, p: Vec, width: real, height: real): Pixel
    requires c.focal > 0.0 && c.horizontalAperture > 0.0 && c.verticalAperture > 0.0 && c.near < c.far
  {
    var clip := Apply(Row(p.x, p.y, p.z, 1.0), Mul(ViewMatrix(c), ProjectionMatrix(c)));
    if clip.w <= 0.000000001 then Behind
    else Pixel((clip.x / clip.w * 0.5 + 0.5) * width, (0.5 - clip.y / clip.w * 0.5) * height)
  }

  /** The view matrix undoes the camera's placement. */
  lemma ViewInvertsCamera(c: Camera)
    requires Orthonormal(c.axes)
    ensures Mul(CameraMatrix(c), ViewMatrix(c)) == IDENTITY
  {
    var m := Mul(CameraMatrix(c), ViewMatrix(c));
    assert m.r0.x == Dot(c.axes.right, c.axes.right);
    assert m.r1.y == Dot(c.axes.up, c.axes.up);
    assert m.r2.z == Dot(c.axes.back, c.axes.back);
    assert m.r0.y == Dot(c.axes.right, c.axes.up) == m.r1.x;
    assert m.r0.z == Dot(c.axes.right, c.axes.back) == m.r2.x;
    assert m.r1.z == Dot(c.axes.up, c.axes.back) == m.r2.y;
  }

  lemma DotPlus(a: Vec, b: Vec, c: Vec)
    ensures Dot(a.Plus(b), c) == Dot(a, c) + Dot(b, c)
    ensures Dot(a.Minus(b), c) == Dot(a, c) - Dot(b, c)
  {}

  lemma DotTimes(a: Vec, k: real, c: Vec)
    ensures Dot(a.Times(k), c) == k * Dot(a, c)
  {}

  /** A column that is zero but for one entry scales one column. */
  lemma SparseColumn(v: Row, a: Matrix, b: Matrix)
    requires b.r1.x == b.r2.x == b.r3.x == 0.0 && b.r0.y == b.r2.y == b.r3.y == 0.0
    requires b.r0.w == b.r1.w == b.r3.w == 0.0 && b.r2.w == -1.0
    ensures Apply(v, Mul(a, b)).x == Apply(v, a).x * b.r0.x
    ensures Apply(v, Mul(a, b)).y == Apply(v, a).y * b.r1.y
    ensures Apply(v, Mul(a, b)).w == -Apply(v, a).z
  {
    hide Apply;
    SparseRow(a.r0, b);
    SparseRow(a.r1, b);
    SparseRow(a.r2, b);
    SparseRow(a.r3, b);
    ScaledColumns(v, a, Mul(a, b), b.r0.x, b.r1.y);
  }

  lemma SparseRow(r: Row, b: Matrix)
    requires b.r1.x == b.r2.x == b.r3.x == 0.0 && b.r0.y == b.r2.y == b.r3.y == 0.0
    requires b.r0.w == b.r1.w == b.r3.w == 0.0 && b.r2.w == -1.0
    ensures Apply(r, b).x == r.x * b.r0.x && Apply(r, b).y == r.y * b.r1.y && Apply(r, b).w == -r.z
  {}

  lemma ScaledColumns(v: Row, a: Matrix, m: Matrix, k: real, l: real)
    requires m.r0.x == a.r0.x * k && m.r1.x == a.r1.x * k && m.r2.x == a.r2.x * k && m.r3.x == a.r3.x * k
    requires m.r0.y == a.r0.y * l && m.r1.y == a.r1.y * l && m.r2.y == a.r2.y * l && m.r3.y == a.r3.y * l
    requires m.r0.w == -a.r0.z && m.r1.w == -a.r1.z && m.r2.w == -a.r2.z && m.r3.w == -a.r3.z
    ensures Apply(v, m).x == Apply(v, a).x * k
    ensures Apply(v, m).y == Apply(v, a).y * l
    ensures Apply(v, m).w == -Apply(v, a).z
  {
    CommonFactor(v, a.r0.x, a.r1.x, a.r2.x, a.r3.x, k);
    CommonFactor(v, a.r0.y, a.r1.y, a.r2.y, a.r3.y, l);
  }

  lemma CommonFactor(v: Row, p: real, q: real, r: real, s: real, k: real)
    ensures v.x * (p * k) + v.y * (q * k) + v.z * (r * k) + v.w * (s * k) ==
            (v.x * p + v.y * q + v.z * r + v.w * s) * k
  {}

  /** How far in front of the eye a point is. */
  function ViewDepth(c: Camera, p: Vec): real {
    Dot(p.Minus(c.eye), Forward(c.axes))
  }

  /** Projection is perspective division by the depth in front of the eye. */
  lemma ProjectMeaning(c: Camera, p: Vec)
    requires c.focal > 0.0 && c.horizontalAperture > 0.0 && c.verticalAperture > 0.0 && c.near < c.far
    ensures
      var clip := Apply(Row(p.x, p.y, p.z, 1.0), Mul(ViewMatrix(c), ProjectionMatrix(c)));
      && clip.w == ViewDepth(c, p)
      && clip.x == Dot(p.Minus(c.eye), c.axes.right) * (1.0 / (c.horizontalAperture / 2.0 / c.focal))
      && clip.y == Dot(p.Minus(c.eye), c.axes.up) * (1.0 / (c.verticalAperture / 2.0 / c.focal))
  {
    hide Apply, Mul, Dot, ViewMatrix;
    ViewRow(c, p);
    SparseColumn(Row(p.x, p.y, p.z, 1.0), ViewMatrix(c), ProjectionMatrix(c));
    var point := p.Minus(c.eye);
    DotCommutes(point, Forward(c.axes));
    DotCommutes(point, c.axes.back);
    DotTimes(c.axes.back, -1.0, point);
  }

  lemma ViewRow(c: Camera, p: Vec)
    ensures
      var v := Apply(Row(p.x, p.y, p.z, 1.0), ViewMatrix(c));
      var point := p.Minus(c.eye);
      && v.x == Dot(point, c.axes.right) && v.y == Dot(point, c.axes.up) && v.z == Dot(point, c.axes.back)
  {
    DotPlus(p, c.eye, c.axes.right);
    DotPlus(p, c.eye, c.axes.up);
    DotPlus(p, c.eye, c.axes.back);
  }

  // ---- Framing -------------------------------------------------------------------------

  lemma DotCombination(axes: Basis, a: real, b: real, d: real, axis: Vec)
    ensures Dot(axes.right.Times(a).Plus(axes.up.Times(b)).Plus(Forward(axes).Times(d)), axis) ==
            a * Dot(axes.right, axis) + b * Dot(axes.up, axis) - d * Dot(axes.back, axis)
  {
    DotPlus(axes.right.Times(a).Plus(axes.up.Times(b)), Forward(axes).Times(d), axis);
    DotPlus(axes.right.Times(a), axes.up.Times(b), axis);
    DotTimes(axes.right, a, axis);
    DotTimes(axes.up, b, axis);
    DotTimes(Forward(axes), d, axis);
    DotTimes(axes.back, -1.0, axis);
  }

  lemma DotCommutes(a: Vec, b: Vec)
    ensures Dot(a, b) == Dot(b, a)
  {}

  /** Where the eye ends up along the camera's own axes. */
  lemma EyeCoordinates(cloud: seq<Vec>, aspect: real, axes: Basis, margin: real)
    requires cloud != [] && aspect > 0.0 && Orthonormal(axes)
    ensures
      var c := FitCamera(cloud, aspect, axes, margin);
      && Dot(c.eye, axes.right) == Middle(cloud, axes.right)
      && Dot(c.eye, axes.up) == Middle(cloud, axes.up)
      && Dot(c.eye, Forward(axes)) == Middle(cloud, Forward(axes))
           - (FitDistance(cloud, aspect, axes) * margin + HalfExtent(cloud, Forward(axes)))
  {
    hide HalfExtent, Middle, FitDistance, Dot, Orthonormal;
    var forward := Forward(axes);
    var a, b, d := Middle(cloud, axes.right), Middle(cloud, axes.up), Middle(cloud, forward);
    var distance := FitDistance(cloud, aspect, axes) * margin + HalfExtent(cloud, forward);
    var centre := axes.right.Times(a).Plus(axes.up.Times(b)).Plus(forward.Times(d));
    assert FitCamera(cloud, aspect, axes, margin).eye == centre.Minus(forward.Times(distance));
    AlongAxes(axes, a, b, d, distance, axes.right.Times(a).Plus(axes.up.Times(b)).Plus(forward.Times(d)));
  }

  lemma AlongAxes(axes: Basis, a: real, b: real, d: real, distance: real, centre: Vec)
    requires Orthonormal(axes)
    requires centre == axes.right.Times(a).Plus(axes.up.Times(b)).Plus(Forward(axes).Times(d))
    ensures
      var eye := centre.Minus(Forward(axes).Times(distance));
      Dot(eye, axes.right) == a && Dot(eye, axes.up) == b && Dot(eye, Forward(axes)) == d - distance
  {
    hide Dot, Forward;
    var eye := centre.Minus(Forward(axes).Times(distance));
    EyeAlong(axes, a, b, d, distance, centre, axes.right);
    EyeAlong(axes, a, b, d, distance, centre, axes.up);
    EyeAlong(axes, a, b, d, distance, centre, axes.back);
    DotCommutes(axes.up, axes.right);
    DotCommutes(axes.back, axes.right);
    DotCommutes(axes.back, axes.up);
    DotForward(axes, eye);
  }

  lemma DotForward(axes: Basis, v: Vec)
    ensures Dot(v, Forward(axes)) == -Dot(v, axes.back) == Dot(Forward(axes), v)
  {}

  lemma EyeAlong(axes: Basis, a: real, b: real, d: real, distance: real, centre: Vec, axis: Vec)
    requires centre == axes.right.Times(a).Plus(axes.up.Times(b)).Plus(Forward(axes).Times(d))
    ensures Dot(centre.Minus(Forward(axes).Times(distance)), axis) ==
            a * Dot(axes.right, axis) + b * Dot(axes.up, axis) - (d - distance) * Dot(axes.back, axis)
  {
    hide Dot;
    DotCombination(axes, a, b, d, axis);
    DotPlus(centre, Forward(axes).Times(distance), axis);
    DotTimes(Forward(axes), distance, axis);
    DotTimes(axes.back, -1.0, axis);
  }

  lemma WithinExtent(cloud: seq<Vec>, k: nat, axis: Vec)
    requires k < |cloud|
    ensures -HalfExtent(cloud, axis) <= Dot(cloud[k], axis) - Middle(cloud, axis) <= HalfExtent(cloud, axis)
  {
    assert Along(cloud, axis)[k] == Dot(cloud[k], axis);
  }

  /** The silhouette of a point relative to its depth, through the fitted camera. */
  lemma FittedPoint(cloud: seq<Vec>, aspect: real, axes: Basis, margin: real, k: nat)
    requires k < |cloud| && aspect > 0.0 && Orthonormal(axes)
    ensures
      var c := FitCamera(cloud, aspect, axes, margin);
      var reach := Reach(FitDistance(cloud, aspect, axes), margin);
      var point := cloud[k].Minus(c.eye);
      && reach <= ViewDepth(c, cloud[k]) <= reach + 2.0 * HalfExtent(cloud, Forward(axes))
      && -HalfExtent(cloud, axes.right) <= Dot(point, axes.right) <= HalfExtent(cloud, axes.right)
      && -HalfExtent(cloud, axes.up) <= Dot(point, axes.up) <= HalfExtent(cloud, axes.up)
  {
    hide HalfExtent, Middle, FitDistance, Dot, Orthonormal;
    var c := FitCamera(cloud, aspect, axes, margin);
    EyeCoordinates(cloud, aspect, axes, margin);
    WithinExtent(cloud, k, axes.right);
    WithinExtent(cloud, k, axes.up);
    WithinExtent(cloud, k, Forward(axes));
    DotPlus(cloud[k], c.eye, axes.right);
    DotPlus(cloud[k], c.eye, axes.up);
    DotPlus(cloud[k], c.eye, Forward(axes));
  }

  lemma FitDistanceIsPositive(cloud: seq<Vec>, aspect: real, axes: Basis)
    requires cloud != [] && aspect > 0.0
    ensures FitDistance(cloud, aspect, axes) >= 0.0003
    ensures Covers(FitDistance(cloud, aspect, axes), TanH(), HalfExtent(cloud, axes.right))
    ensures Covers(FitDistance(cloud, aspect, axes), TanV(aspect), HalfExtent(cloud, axes.up))
  {
    hide HalfExtent, TanH, TanV;
    PositiveTans(aspect);
    TanHIsSmall();
    var halfW := Max(HalfExtent(cloud, axes.right), 0.0001);
    var halfH := Max(HalfExtent(cloud, axes.up), 0.0001);
    DivideOut(halfW, TanH(), FitDistance(cloud, aspect, axes));
    DivideOut(halfH, TanV(aspect), FitDistance(cloud, aspect, axes));
    SmallDivisor(halfW, TanH());
  }

  lemma TanHIsSmall()
    ensures 0.0 < TanH() < 0.3
  {}

  lemma SmallDivisor(a: real, b: real)
    requires a >= 0.0001 && 0.0 < b < 0.3
    ensures a / b >= 0.0003
  {
    var q := a / b;
    assert q * b == a;
    if q < 0.0003 {
      SmallProduct(q, b);
    }
  }

  lemma SmallProduct(q: real, b: real)
    requires q < 0.0003 && 0.0 < b < 0.3
    ensures q * b < 0.0001
  {
    assert (0.0003 - q) * b > 0.0;
  }

  lemma DivideOut(a: real, b: real, c: real)
    requires b > 0.0 && c >= a / b
    ensures c * b >= a
  {
    assert a / b * b == a;
    assert (c - a / b) * b >= 0.0;
  }

  /** The normalised device coordinate of a point `offset` off the axis. */
  function Ndc(offset: real, tan: real, depth: real): real
    requires tan > 0.0 && depth > 0.0
  {
    offset * (1.0 / tan) / depth
  }

  ghost predicate Inside(ndc: real, margin: real)
    requires margin > 0.0
  {
    -1.0 / margin <= ndc <= 1.0 / margin
  }

  ghost predicate Covers(fit: real, tan: real, half: real) {
    fit * tan >= half
  }

  function Reach(fit: real, margin: real): real {
    fit * margin
  }

  /** `half` over the tangent and the depth stays within the margin. */
  lemma WithinMargin(offset: real, half: real, tan: real, fit: real, margin: real, depth: real)
    requires -half <= offset <= half && tan > 0.0 && fit > 0.0 && margin >= 1.0
    requires Covers(fit, tan, half) && depth >= Reach(fit, margin) && depth > 0.0
    ensures Inside(Ndc(offset, tan, depth), margin)
  {
    var n := offset * (1.0 / tan);
    assert n * tan == offset;
    Quotient(n, tan, fit);
    Bounded(n, fit, margin, depth);
  }

  lemma Quotient(n: real, tan: real, fit: real)
    requires tan > 0.0 && -(fit * tan) <= n * tan <= fit * tan
    ensures -fit <= n <= fit
  {
    if n > fit {
      PositiveProduct(n - fit, tan);
    }
    if n < -fit {
      PositiveProduct(-fit - n, tan);
    }
  }

  lemma Bounded(n: real, fit: real, margin: real, depth: real)
    requires -fit <= n <= fit && fit > 0.0 && margin >= 1.0 && depth >= fit * margin && depth > 0.0
    ensures -1.0 / margin <= n / depth <= 1.0 / margin
  {
    var q, m := n / depth, 1.0 / margin;
    assert q * depth == n && m * margin == 1.0;
    assert m > 0.0;
    assert m * depth >= m * (fit * margin);
    assert m * (fit * margin) == fit * (m * margin);
    assert m * depth >= fit;
    if q > m {
      PositiveProduct(q - m, depth);
    }
    if q < -m {
      PositiveProduct(-m - q, depth);
    }
    assert -1.0 / margin == -m;
  }

  /** A pixel within `1 / margin` of the half-frame, both ways. */
  ghost predicate Framed(pixel: Pixel, width: real, height: real, margin: real)
    requires margin > 0.0
  {
    pixel.Pixel? && InBand(pixel.x, width, margin) && InBand(pixel.y, height, margin)
  }

  ghost predicate InBand(coordinate: real, size: real, margin: real)
    requires margin > 0.0
  {
    (0.5 - 0.5 / margin) * size <= coordinate <= (0.5 + 0.5 / margin) * size
  }

  /** Every point of every cloud, seen along every orthonormal basis, lies in
      front of the eye and within the margin of the viewport. */
  lemma EveryPointIsFramed(cloud: seq<Vec>, aspect: real, axes: Basis, margin: real, k: nat, width: real, height: real)
    requires k < |cloud| && aspect > 0.0 && Orthonormal(axes) && margin >= 1.0 && width >= 0.0 && height >= 0.0
    ensures
      var c := FitCamera(cloud, aspect, axes, margin);
      && c.near < c.far && c.verticalAperture > 0.0
      && ViewDepth(c, cloud[k]) > 0.000000001
      && Framed(Project(c, cloud[k], width, height), width, height, margin)
  {
    hide *;
    var c := FitCamera(cloud, aspect, axes, margin);
    var point, depth := cloud[k].Minus(c.eye), ViewDepth(c, cloud[k]);
    FitCameraFields(cloud, aspect, axes, margin);
    PositiveTans(aspect);
    FittedSilhouette(cloud, aspect, axes, margin, k);
    ProjectedPixel(c, cloud[k], width, height);
    FramedPixel(
      Ndc(Dot(point, axes.right), TanH(), depth), Ndc(Dot(point, axes.up), TanV(aspect), depth), width, height, margin);
  }

  function PixelAt(x: real, y: real, width: real, height: real): Pixel {
    Pixel((x * 0.5 + 0.5) * width, (0.5 - y * 0.5) * height)
  }

  lemma FramedPixel(x: real, y: real, width: real, height: real, margin: real)
    requires margin >= 1.0 && Inside(x, margin) && Inside(y, margin) && width >= 0.0 && height >= 0.0
    ensures Framed(PixelAt(x, y, width, height), width, height, margin)
  {
    hide InBand, Inside;
    PixelBounds(x, width, margin);
    PixelBounds(y, height, margin);
  }

  lemma FitCameraFields(cloud: seq<Vec>, aspect: real, axes: Basis, margin: real)
    requires cloud != [] && aspect > 0.0 && margin >= 1.0
    ensures
      var c := FitCamera(cloud, aspect, axes, margin);
      && c.axes == axes && 0.0 < c.near < c.far
      && c.focal > 0.0 && c.horizontalAperture > 0.0 && c.verticalAperture > 0.0
      && c.horizontalAperture / 2.0 / c.focal == TanH() && c.verticalAperture / 2.0 / c.focal == TanV(aspect)
  {
    hide HalfExtent, FitDistance, Middle;
    FitDistanceIsPositive(cloud, aspect, axes);
    Grows(FitDistance(cloud, aspect, axes), margin);
  }

  lemma Grows(a: real, margin: real)
    requires a > 0.0 && margin >= 1.0
    ensures Reach(a, margin) >= a
  {
    assert a * (margin - 1.0) >= 0.0;
  }

  /** Normalised device coordinates of a framed point. */
  lemma FittedSilhouette(cloud: seq<Vec>, aspect: real, axes: Basis, margin: real, k: nat)
    requires k < |cloud| && aspect > 0.0 && Orthonormal(axes) && margin >= 1.0
    ensures TanH() > 0.0 && TanV(aspect) > 0.0
    ensures
      var c := FitCamera(cloud, aspect, axes, margin);
      var point, depth := cloud[k].Minus(c.eye), ViewDepth(c, cloud[k]);
      && depth > 0.000000001
      && Inside(Ndc(Dot(point, axes.right), TanH(), depth), margin)
      && Inside(Ndc(Dot(point, axes.up), TanV(aspect), depth), margin)
  {
    hide *;
    var c := FitCamera(cloud, aspect, axes, margin);
    var fit, point := FitDistance(cloud, aspect, axes), cloud[k].Minus(c.eye);
    FitDistanceIsPositive(cloud, aspect, axes);
    PositiveTans(aspect);
    FittedPoint(cloud, aspect, axes, margin, k);
    Grows(fit, margin);
    var depth := ViewDepth(c, cloud[k]);
    WithinMargin(Dot(point, axes.right), HalfExtent(cloud, axes.right), TanH(), fit, margin, depth);
    WithinMargin(Dot(point, axes.up), HalfExtent(cloud, axes.up), TanV(aspect), fit, margin, depth);
  }

  lemma ProjectedPixel(c: Camera, p: Vec, width: real, height: real)
    requires c.focal > 0.0 && c.horizontalAperture > 0.0 && c.verticalAperture > 0.0 && c.near < c.far
    ensures
      var point, depth := p.Minus(c.eye), ViewDepth(c, p);
      Project(c, p, width, height) ==
        if depth <= 0.000000001 then Behind
        else PixelAt(
          Ndc(Dot(point, c.axes.right), c.horizontalAperture / 2.0 / c.focal, depth),
          Ndc(Dot(point, c.axes.up), c.verticalAperture / 2.0 / c.focal, depth),
          width, height)
  {
    hide Dot, Mul, Apply, ViewMatrix, ProjectionMatrix, ViewDepth;
    ProjectMeaning(c, p);
  }

  lemma PixelBounds(ndc: real, width: real, margin: real)
    requires margin >= 1.0 && width >= 0.0 && Inside(ndc, margin)
    ensures InBand((ndc * 0.5 + 0.5) * width, width, margin)
    ensures InBand((0.5 - ndc * 0.5) * width, width, margin)
  {
    var h := 0.5 / margin;
    assert 1.0 / margin == 2.0 * h && -1.0 / margin == -2.0 * h;
    NonNegativeProduct(ndc * 0.5 + h, width);
    NonNegativeProduct(h - ndc * 0.5, width);
    assert (ndc * 0.5 + h) * width >= 0.0 && (h - ndc * 0.5) * width >= 0.0;
  }

  // ---- How tight the fit is ------------------------------------------------------------

  /** The point nearest to the camera is exactly the fitted distance away. */
  lemma NearestPoint(cloud: seq<Vec>, aspect: real, axes: Basis, margin: real) returns (k: nat)
    requires cloud != [] && aspect > 0.0 && Orthonormal(axes)
    ensures k < |cloud|
    ensures ViewDepth(FitCamera(cloud, aspect, axes, margin), cloud[k])
         == Reach(FitDistance(cloud, aspect, axes), margin)
  {
    hide FitDistance, Dot, Orthonormal;
    var c := FitCamera(cloud, aspect, axes, margin);
    var s := Along(cloud, Forward(axes));
    assert s[0] == s[0];
    k :| 0 <= k < |s| && s[k] == Lowest(s);
    EyeCoordinates(cloud, aspect, axes, margin);
    DotPlus(cloud[k], c.eye, Forward(axes));
  }

  /** A point of the cloud is between the camera's clipping planes. */
  ghost predicate Rendered(c: Camera, p: Vec) {
    c.near <= ViewDepth(c, p) <= c.far
  }

  /** The camera that frames every point need not render it: the near plane is
      at a hundredth of the distance to the middle, and at 0.001 at least.
      Nothing is cut off if and only if the cloud is neither too deep nor too
      close for that; the far plane never cuts. */
  lemma NothingIsClipped(cloud: seq<Vec>, aspect: real, axes: Basis, margin: real)
    requires cloud != [] && aspect > 0.0 && Orthonormal(axes) && margin >= 1.0
    ensures
      var c := FitCamera(cloud, aspect, axes, margin);
      var reach := Reach(FitDistance(cloud, aspect, axes), margin);
      (forall k | 0 <= k < |cloud| :: Rendered(c, cloud[k])) <==>
      (reach >= 0.001 && HalfExtent(cloud, Forward(axes)) <= 99.0 * reach)
  {
    hide FitDistance, Dot, Orthonormal, HalfExtent, Middle, ViewDepth;
    var c := FitCamera(cloud, aspect, axes, margin);
    var reach := Reach(FitDistance(cloud, aspect, axes), margin);
    FitDistanceIsPositive(cloud, aspect, axes);
    Grows(FitDistance(cloud, aspect, axes), margin);
    ClippingRange(cloud, aspect, axes, margin);
    var nearest := NearestPoint(cloud, aspect, axes, margin);
    forall k | 0 <= k < |cloud|
      ensures reach <= ViewDepth(c, cloud[k]) <= c.far
    {
      FittedPoint(cloud, aspect, axes, margin, k);
    }
    assert Rendered(c, cloud[nearest]) <==> c.near <= reach;
  }

  lemma ClippingRange(cloud: seq<Vec>, aspect: real, axes: Basis, margin: real)
    requires cloud != [] && aspect > 0.0
    ensures
      var c := FitCamera(cloud, aspect, axes, margin);
      var reach, depth := Reach(FitDistance(cloud, aspect, axes), margin), HalfExtent(cloud, Forward(axes));
      && (c.near <= reach <==> reach >= 0.001 && depth <= 99.0 * reach)
      && c.far == 8.0 * reach + 12.0 * depth
  {
    hide FitDistance, HalfExtent, Middle;
  }

  /** A single point, framed with the page's aspect and margin, is in front of
      the near plane. */
  lemma SinglePointIsClipped(p: Vec, axes: Basis)
    requires Orthonormal(axes)
    ensures !Rendered(FitCamera([p], 640.0 / 360.0, axes, 1.08), p)
  {
    hide Dot, Orthonormal, ViewDepth;
    var cloud, aspect := [p], 640.0 / 360.0;
    assert HalfExtent(cloud, axes.right) == 0.0 && HalfExtent(cloud, axes.up) == 0.0;
    assert FitDistance(cloud, aspect, axes) == Max(0.0001 / TanH(), 0.0001 / TanV(aspect)) < 0.0006;
    assert Reach(FitDistance(cloud, aspect, axes), 1.08) < 0.001;
    NothingIsClipped(cloud, aspect, axes, 1.08);
  }

  /** The margin is met exactly: of a flat cloud that is wide for the frame, the
      rightmost point is `1 / margin` off the axis. */
  lemma FlatCloudTouchesMargin(cloud: seq<Vec>, aspect: real, axes: Basis, margin: real) returns (k: nat)
    requires cloud != [] && aspect > 0.0 && Orthonormal(axes) && margin >= 1.0
    requires HalfExtent(cloud, Forward(axes)) == 0.0 && HalfExtent(cloud, axes.right) >= 0.0001
    requires HalfExtent(cloud, axes.right) / (20.955 / 2.0 / 35.0)
          >= Max(HalfExtent(cloud, axes.up), 0.0001) / (20.955 / aspect / 2.0 / 35.0)
    ensures k < |cloud|
    ensures
      var c := FitCamera(cloud, aspect, axes, margin);
      var point, depth := cloud[k].Minus(c.eye), ViewDepth(c, cloud[k]);
      depth > 0.0 && Ndc(Dot(point, axes.right), TanH(), depth) == 1.0 / margin
  {
    PositiveTans(aspect);
    WideFit(cloud, aspect, axes);
    k := FarthestOfFlat(cloud, aspect, axes, margin, axes.right, TanH());
  }

  lemma WideFit(cloud: seq<Vec>, aspect: real, axes: Basis)
    requires cloud != [] && aspect > 0.0 && HalfExtent(cloud, axes.right) >= 0.0001
    requires HalfExtent(cloud, axes.right) / (20.955 / 2.0 / 35.0)
          >= Max(HalfExtent(cloud, axes.up), 0.0001) / (20.955 / aspect / 2.0 / 35.0)
    ensures TanH() > 0.0 && FitDistance(cloud, aspect, axes) == HalfExtent(cloud, axes.right) / TanH()
  {
    hide HalfExtent;
    PositiveTans(aspect);
  }

  /** And of one that is high for it the topmost. */
  lemma HighCloudTouchesMargin(cloud: seq<Vec>, aspect: real, axes: Basis, margin: real) returns (k: nat)
    requires cloud != [] && aspect > 0.0 && Orthonormal(axes) && margin >= 1.0
    requires HalfExtent(cloud, Forward(axes)) == 0.0 && HalfExtent(cloud, axes.up) >= 0.0001
    requires HalfExtent(cloud, axes.up) / (20.955 / aspect / 2.0 / 35.0)
          >= Max(HalfExtent(cloud, axes.right), 0.0001) / (20.955 / 2.0 / 35.0)
    ensures k < |cloud| && TanV(aspect) > 0.0
    ensures
      var c := FitCamera(cloud, aspect, axes, margin);
      var point, depth := cloud[k].Minus(c.eye), ViewDepth(c, cloud[k]);
      depth > 0.0 && Ndc(Dot(point, axes.up), TanV(aspect), depth) == 1.0 / margin
  {
    PositiveTans(aspect);
    HighFit(cloud, aspect, axes);
    k := FarthestOfFlat(cloud, aspect, axes, margin, axes.up, TanV(aspect));
  }

  lemma HighFit(cloud: seq<Vec>, aspect: real, axes: Basis)
    requires cloud != [] && aspect > 0.0 && HalfExtent(cloud, axes.up) >= 0.0001
    requires HalfExtent(cloud, axes.up) / (20.955 / aspect / 2.0 / 35.0)
          >= Max(HalfExtent(cloud, axes.right), 0.0001) / (20.955 / 2.0 / 35.0)
    ensures TanV(aspect) > 0.0 && FitDistance(cloud, aspect, axes) == HalfExtent(cloud, axes.up) / TanV(aspect)
  {
    hide HalfExtent;
    PositiveTans(aspect);
  }

  lemma FarthestOfFlat(
      cloud: seq<Vec>, aspect: real, axes: Basis, margin: real, axis: Vec, tan: real) returns (k: nat)
    requires cloud != [] && aspect > 0.0 && Orthonormal(axes) && margin >= 1.0 && tan > 0.0
    requires axis == axes.right || axis == axes.up
    requires HalfExtent(cloud, Forward(axes)) == 0.0
    requires FitDistance(cloud, aspect, axes) == HalfExtent(cloud, axis) / tan
    ensures k < |cloud|
    ensures
      var c := FitCamera(cloud, aspect, axes, margin);
      var point, depth := cloud[k].Minus(c.eye), ViewDepth(c, cloud[k]);
      depth > 0.0 && Ndc(Dot(point, axis), tan, depth) == 1.0 / margin
  {
    hide FitDistance, Dot, Orthonormal, TanH;
    var c := FitCamera(cloud, aspect, axes, margin);
    var s, fit := Along(cloud, axis), FitDistance(cloud, aspect, axes);
    assert s[0] == s[0];
    k :| 0 <= k < |s| && s[k] == Highest(s);
    EyeCoordinates(cloud, aspect, axes, margin);
    DotPlus(cloud[k], c.eye, axis);
    FittedPoint(cloud, aspect, axes, margin, k);
    FitDistanceIsPositive(cloud, aspect, axes);
    Grows(fit, margin);
    ExactQuotient(HalfExtent(cloud, axis), tan, fit, margin);
  }

  lemma ExactQuotient(half: real, tan: real, fit: real, margin: real)
    requires tan > 0.0 && fit == half / tan && fit > 0.0 && margin >= 1.0
    ensures Reach(fit, margin) > 0.0
    ensures Ndc(half, tan, Reach(fit, margin)) == 1.0 / margin
  {
    Grows(fit, margin);
    assert half * (1.0 / tan) == fit;
    assert (1.0 / margin) * (fit * margin) == fit;
  }

  // ---- Which way up --------------------------------------------------------------------

  /** A pixel told without matrices: the middle of the viewport, moved right by the
      point's share to the right of the axis and up, which is towards smaller rows,
      by its share above it. */
  lemma PixelMeaning(c: Camera, p: Vec, width: real, height: real)
    requires c.focal > 0.0 && c.horizontalAperture > 0.0 && c.verticalAperture > 0.0 && c.near < c.far
    ensures
      var offset := Vec(p.x - c.eye.x, p.y - c.eye.y, p.z - c.eye.z);
      var right := offset.x * c.axes.right.x + offset.y * c.axes.right.y + offset.z * c.axes.right.z;
      var up := offset.x * c.axes.up.x + offset.y * c.axes.up.y + offset.z * c.axes.up.z;
      var depth := -(offset.x * c.axes.back.x + offset.y * c.axes.back.y + offset.z * c.axes.back.z);
      if depth <= 0.000000001 then Project(c, p, width, height) == Behind
      else
        var pixel := Project(c, p, width, height);
        && pixel.Pixel?
        && pixel.x == width / 2.0 + right / (c.horizontalAperture / 2.0 / c.focal) / depth * (width / 2.0)
        && pixel.y == height / 2.0 - up / (c.verticalAperture / 2.0 / c.focal) / depth * (height / 2.0)
  {
    hide *;
    var offset := Vec(p.x - c.eye.x, p.y - c.eye.y, p.z - c.eye.z);
    var right := offset.x * c.axes.right.x + offset.y * c.axes.right.y + offset.z * c.axes.right.z;
    var up := offset.x * c.axes.up.x + offset.y * c.axes.up.y + offset.z * c.axes.up.z;
    var depth := -(offset.x * c.axes.back.x + offset.y * c.axes.back.y + offset.z * c.axes.back.z);
    OffsetFrom(p, c.eye);
    DotIs(offset, c.axes.right);
    DotIs(offset, c.axes.up);
    DotIs(offset, c.axes.back);
    PixelByDots(c, p, width, height, right, up, depth);
  }

  lemma OffsetFrom(p: Vec, eye: Vec)
    ensures p.Minus(eye) == Vec(p.x - eye.x, p.y - eye.y, p.z - eye.z)
  {}

  lemma DotIs(a: Vec, b: Vec)
    ensures Dot(a, b) == a.x * b.x + a.y * b.y + a.z * b.z
  {}

  lemma PixelByDots(c: Camera, p: Vec, width: real, height: real, right: real, up: real, depth: real)
    requires c.focal > 0.0 && c.horizontalAperture > 0.0 && c.verticalAperture > 0.0 && c.near < c.far
    requires right == Dot(p.Minus(c.eye), c.axes.right) && up == Dot(p.Minus(c.eye), c.axes.up)
    requires depth == -Dot(p.Minus(c.eye), c.axes.back)
    ensures
      if depth <= 0.000000001 then Project(c, p, width, height) == Behind
      else
        var pixel := Project(c, p, width, height);
        && pixel.Pixel?
        && pixel.x == width / 2.0 + right / (c.horizontalAperture / 2.0 / c.focal) / depth * (width / 2.0)
        && pixel.y == height / 2.0 - up / (c.verticalAperture / 2.0 / c.focal) / depth * (height / 2.0)
  {
    hide Project, Dot, ViewDepth, Ndc;
    ProjectedPixel(c, p, width, height);
    DepthMeaning(c, p);
    if depth > 0.000000001 {
      NdcPixel(right, c.horizontalAperture / 2.0 / c.focal, depth, width);
      NdcPixel(up, c.verticalAperture / 2.0 / c.focal, depth, height);
    }
  }

  lemma DepthMeaning(c: Camera, p: Vec)
    ensures ViewDepth(c, p) == -Dot(p.Minus(c.eye), c.axes.back)
  {}

  lemma NdcPixel(offset: real, tan: real, depth: real, size: real)
    requires tan > 0.0 && depth > 0.0
    ensures (Ndc(offset, tan, depth) * 0.5 + 0.5) * size == size / 2.0 + offset / tan / depth * (size / 2.0)
    ensures (0.5 - Ndc(offset, tan, depth) * 0.5) * size == size / 2.0 - offset / tan / depth * (size / 2.0)
  {
    assert offset * (1.0 / tan) == offset / tan;
  }

  /** Of two points at the same depth the one further to the right is further to
      the right in the viewport, and the higher one is higher. */
  lemma ProjectionKeepsSides(c: Camera, p: Vec, q: Vec, width: real, height: real)
    requires c.focal > 0.0 && c.horizontalAperture > 0.0 && c.verticalAperture > 0.0 && c.near < c.far
    requires ViewDepth(c, p) == ViewDepth(c, q) > 0.000000001 && width > 0.0 && height > 0.0
    ensures
      var left, right := Project(c, p, width, height), Project(c, q, width, height);
      && left.Pixel? && right.Pixel?
      && (left.x < right.x <==> Dot(p, c.axes.right) < Dot(q, c.axes.right))
      && (left.y > right.y <==> Dot(p, c.axes.up) < Dot(q, c.axes.up))
  {
    hide Project, Dot;
    ProjectedPixel(c, p, width, height);
    ProjectedPixel(c, q, width, height);
    DotPlus(p, c.eye, c.axes.right);
    DotPlus(q, c.eye, c.axes.right);
    DotPlus(p, c.eye, c.axes.up);
    DotPlus(q, c.eye, c.axes.up);
    var depth, a, b := ViewDepth(c, p), p.Minus(c.eye), q.Minus(c.eye);
    NdcCompares(
      Dot(a, c.axes.right), Dot(b, c.axes.right), c.horizontalAperture / 2.0 / c.focal, depth, width);
    NdcCompares(Dot(a, c.axes.up), Dot(b, c.axes.up), c.verticalAperture / 2.0 / c.focal, depth, height);
  }

  lemma NdcCompares(a: real, b: real, tan: real, depth: real, size: real)
    requires tan > 0.0 && depth > 0.0 && size > 0.0
    ensures (Ndc(a, tan, depth) * 0.5 + 0.5) * size < (Ndc(b, tan, depth) * 0.5 + 0.5) * size <==> a < b
    ensures (0.5 - Ndc(a, tan, depth) * 0.5) * size > (0.5 - Ndc(b, tan, depth) * 0.5) * size <==> a < b
  {
    PositiveProduct(tan, depth);
    var k := size / 2.0 / (tan * depth);
    SharePerUnit(a, tan, depth, size, k);
    SharePerUnit(b, tan, depth, size, k);
    PositiveQuotient(size / 2.0, tan * depth, k);
    hide Ndc;
    if a < b {
      PositiveProduct(b - a, k);
    } else if b < a {
      PositiveProduct(a - b, k);
    }
  }

  lemma PositiveQuotient(a: real, b: real, k: real)
    requires a > 0.0 && b > 0.0 && k == a / b
    ensures k > 0.0
  {
    assert k * b == a;
    if k <= 0.0 {
      NonNegativeProduct(-k, b);
    }
  }

  lemma SharePerUnit(a: real, tan: real, depth: real, size: real, k: real)
    requires tan > 0.0 && depth > 0.0 && tan * depth > 0.0 && k == size / 2.0 / (tan * depth)
    ensures (Ndc(a, tan, depth) * 0.5 + 0.5) * size == size / 2.0 + a * k
    ensures (0.5 - Ndc(a, tan, depth) * 0.5) * size == size / 2.0 - a * k
  {
    var n := Ndc(a, tan, depth);
    var m := a * (1.0 / tan);
    assert m * tan == a && n * depth == m;
    QuotientIs(a, tan * depth, n) by {
      assert n * (tan * depth) == (n * depth) * tan;
    }
    assert a * k == n * (size / 2.0) by {
      assert k * (tan * depth) == size / 2.0;
      assert a == n * (tan * depth);
      assert a * k == n * ((tan * depth) * k);
    }
  }
}
