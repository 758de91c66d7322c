/** Rigid motions of the plane, mirroring included, as matrices over row vectors:
    a concrete group that meets every law the rest migration relies on. */
module PlanarMotions {
  import opened Options
  import opened RestMigration

  /** The linear part by rows, then the translation. */
  datatype Affine = Affine(a: real, b: real, c: real, d: real, tx: real, ty: real)

  function Pair(p: real, q: real, x: real, y: real): real {
    p * x + q * y
  }

  function Mul(m: Affine, n: Affine): Affine {
    Affine(
      Pair(m.a, m.b, n.a, n.c), Pair(m.a, m.b, n.b, n.d),
      Pair(m.c, m.d, n.a, n.c), Pair(m.c, m.d, n.b, n.d),
      Pair(m.tx, m.ty, n.a, n.c) + n.tx, Pair(m.tx, m.ty, n.b, n.d) + n.ty)
  }

  const ONE := Affine(1.0, 0.0, 0.0, 1.0, 0.0, 0.0)

  /** A turn, or a turn and a mirroring, and a translation. */
  predicate Rigid(m: Affine) {
    Pair(m.a, m.b, m.a, m.b) == 1.0 && (Proper(m) || Mirrored(m))
  }

  predicate Proper(m: Affine) {
    m.c == -m.b && m.d == m.a
  }

  predicate Mirrored(m: Affine) {
    m.c == m.b && m.d == -m.a
  }

  function Inv(m: Affine): Affine {
    Affine(m.a, m.c, m.b, m.d, -Pair(m.tx, m.ty, m.a, m.b), -Pair(m.tx, m.ty, m.c, m.d))
  }

  /** Leaves rigid motions alone and makes one of anything else. */
  function Ortho(m: Affine): Affine {
    if Rigid(m) then m else Affine(1.0, 0.0, 0.0, 1.0, m.tx, m.ty)
  }

  /** An angle by its cosine and sine. */
  datatype Turn = Turn(cos: real, sin: real)

  type Angle = t: Turn | t.cos * t.cos + t.sin * t.sin == 1.0 witness Turn(1.0, 0.0)

  datatype Scalars = Scalars(tx: real, ty: real, turn: Angle)

  function Compose(s: Scalars): Affine {
    Affine(s.turn.cos, s.turn.sin, -s.turn.sin, s.turn.cos, s.tx, s.ty)
  }

  function Decompose(m: Affine): Scalars {
    Scalars(m.tx, m.ty, if Pair(m.a, m.b, m.a, m.b) == 1.0 then Turn(m.a, m.b) else Turn(1.0, 0.0))
  }

  function Planar(): Motions<Affine, Scalars> {
    Motions(ONE, Mul, Inv, Rigid, Ortho, Compose, Decompose)
  }

  lemma Associative(m: Affine, n: Affine, o: Affine)
    ensures Mul(Mul(m, n), o) == Mul(m, Mul(n, o))
  {
    hide Pair;
    Distribute(m.a, m.b, n.a, n.b, n.c, n.d, o.a, o.c);
    Distribute(m.a, m.b, n.a, n.b, n.c, n.d, o.b, o.d);
    Distribute(m.c, m.d, n.a, n.b, n.c, n.d, o.a, o.c);
    Distribute(m.c, m.d, n.a, n.b, n.c, n.d, o.b, o.d);
    Distribute(m.tx, m.ty, n.a, n.b, n.c, n.d, o.a, o.c);
    Distribute(m.tx, m.ty, n.a, n.b, n.c, n.d, o.b, o.d);
    Translate(Pair(m.tx, m.ty, n.a, n.c), n.tx, Pair(m.tx, m.ty, n.b, n.d), n.ty, o.a, o.c);
    Translate(Pair(m.tx, m.ty, n.a, n.c), n.tx, Pair(m.tx, m.ty, n.b, n.d), n.ty, o.b, o.d);
  }

  lemma Distribute(p: real, q: real, a: real, b: real, c: real, d: real, x: real, y: real)
    ensures Pair(Pair(p, q, a, c), Pair(p, q, b, d), x, y) == Pair(p, q, Pair(a, b, x, y), Pair(c, d, x, y))
  {}

  lemma Translate(u: real, s: real, v: real, t: real, x: real, y: real)
    ensures Pair(u + s, v + t, x, y) == Pair(u, v, x, y) + Pair(s, t, x, y)
  {}

  lemma Neutral(m: Affine)
    ensures Rigid(ONE) && Mul(ONE, m) == m == Mul(m, ONE)
  {}

  lemma RigidIsClosed(m: Affine, n: Affine)
    requires Rigid(m) && Rigid(n)
    ensures Rigid(Mul(m, n))
  {
    hide Pair;
    if Proper(n) {
      ThenTurn(m, n);
    } else {
      ThenMirror(m, n);
    }
  }

  lemma ThenTurn(m: Affine, n: Affine)
    requires Rigid(m) && Rigid(n) && Proper(n)
    ensures Rigid(Mul(m, n))
  {
    hide Pair;
    TurnsCompose(m.a, m.b, n.a, n.b);
    Signs(m.b, m.a, n.a, -n.b);
    Signs(m.b, m.a, n.b, n.a);
  }

  lemma ThenMirror(m: Affine, n: Affine)
    requires Rigid(m) && Rigid(n) && Mirrored(n)
    ensures Rigid(Mul(m, n))
  {
    hide Pair;
    SameSquares(m.a, m.b);
    TurnsCompose(m.a, -m.b, n.a, n.b);
    Signs(m.a, m.b, n.a, -n.b);
    Signs(m.a, m.b, n.b, n.a);
    Signs(m.b, m.a, n.a, n.b);
    Signs(m.b, m.a, n.b, -n.a);
  }

  lemma Signs(p: real, q: real, x: real, y: real)
    ensures Pair(p, -q, x, y) == Pair(p, q, x, -y) == -Pair(-p, q, x, y)
    ensures Pair(-p, q, x, y) == -Pair(p, q, x, -y)
  {}

  lemma SameSquares(a: real, b: real)
    ensures Pair(a, -b, a, -b) == Pair(a, b, a, b)
  {}

  lemma TurnsCompose(a: real, b: real, c: real, d: real)
    requires Pair(a, b, a, b) == 1.0 && Pair(c, d, c, d) == 1.0
    ensures
      var cos, sin := Pair(a, b, c, -d), Pair(a, b, d, c);
      Pair(cos, sin, cos, sin) == 1.0 && Pair(-b, a, c, -d) == -sin && Pair(-b, a, d, c) == cos
  {
    SumsOfSquares(a * a, b * b, c * c, d * d, a * c, b * d, a * d, b * c);
    var cos, sin := a * c - b * d, a * d + b * c;
    assert Pair(a, b, c, -d) == cos && Pair(a, b, d, c) == sin;
    var cross := (a * c) * (b * d);
    assert cross == (a * d) * (b * c);
    assert cos * cos == (a * a) * (c * c) - 2.0 * cross + (b * b) * (d * d);
    assert sin * sin == (a * a) * (d * d) + 2.0 * cross + (b * b) * (c * c);
  }

  lemma SumsOfSquares(aa: real, bb: real, cc: real, dd: real, ac: real, bd: real, ad: real, bc: real)
    requires aa + bb == 1.0 && cc + dd == 1.0
    ensures aa * cc + bb * dd + aa * dd + bb * cc == 1.0
  {
    assert aa * cc + aa * dd == aa * (cc + dd);
    assert bb * cc + bb * dd == bb * (cc + dd);
  }

  lemma InverseIsInverse(m: Affine)
    requires Rigid(m)
    ensures Rigid(Inv(m)) && Mul(m, Inv(m)) == ONE && Mul(Inv(m), m) == ONE
  {
    TurnBack(m.a, m.b, m.tx, m.ty);
  }

  lemma TurnBack(a: real, b: real, tx: real, ty: real)
    requires a * a + b * b == 1.0
    ensures Pair(-Pair(tx, ty, a, b), -Pair(tx, ty, -b, a), a, -b) == -tx
    ensures Pair(-Pair(tx, ty, a, b), -Pair(tx, ty, -b, a), b, a) == -ty
  {
    var x, y, ab := tx * a + ty * b, ty * a - tx * b, a * b;
    assert x * a == tx * (a * a) + ty * ab && y * b == ty * ab - tx * (b * b);
    assert x * b == tx * ab + ty * (b * b) && y * a == ty * (a * a) - tx * ab;
    Share(tx, a * a, b * b);
    Share(ty, a * a, b * b);
  }

  lemma Share(t: real, p: real, q: real)
    requires p + q == 1.0
    ensures t * p + t * q == t
  {
    assert t * p + t * q == t * (p + q);
  }

  lemma OrthoKeepsRigid(m: Affine)
    requires Rigid(m)
    ensures Ortho(m) == m
  {}

  lemma ComposedIsSpelled(s: Scalars)
    ensures Rigid(Compose(s)) && Proper(Compose(s)) && Compose(Decompose(Compose(s))) == Compose(s)
  {}

  /** Scalars spell the turns; what mirrors needs a matrix. */
  lemma SpellableIffProper(m: Affine)
    requires Rigid(m)
    ensures Spellable(Planar(), m) <==> Proper(m)
  {
    if Proper(m) {
      assert Planar().compose(Decompose(m)) == m;
    }
    if s :| Planar().compose(s) == m {
      ComposedIsSpelled(s);
    }
  }

  lemma PlanarMonoid()
    ensures MonoidLaws(Planar())
  {
    hide Mul;
    var m := Planar();
    forall a, b, c ensures m.mul(m.mul(a, b), c) == m.mul(a, m.mul(b, c)) {
      Associative(a, b, c);
    }
    forall a ensures m.mul(m.one, a) == a && m.mul(a, m.one) == a {
      Neutral(a);
    }
  }

  lemma PlanarInverses()
    ensures InverseLaws(Planar())
  {
    hide Mul, Inv, Rigid;
    var m := Planar();
    Neutral(ONE);
    forall a, b | m.rigid(a) && m.rigid(b) ensures m.rigid(m.mul(a, b)) {
      RigidIsClosed(a, b);
    }
    forall a | m.rigid(a)
      ensures m.rigid(m.inv(a)) && m.mul(m.inv(a), a) == m.one && m.mul(a, m.inv(a)) == m.one
    {
      InverseIsInverse(a);
    }
  }

  lemma PlanarSpelling()
    ensures SpellingLaws(Planar())
  {
    hide Rigid, Ortho, Compose, Decompose;
    var m := Planar();
    forall a | m.rigid(a) ensures m.ortho(a) == a {
      OrthoKeepsRigid(a);
    }
    forall s ensures m.rigid(m.compose(s)) && m.compose(m.decompose(m.compose(s))) == m.compose(s) {
      ComposedIsSpelled(s);
    }
  }

  /** The laws hold of the length-preserving motions of the plane. */
  lemma PlanarIsLawful()
    ensures Lawful(Planar())
  {
    hide MonoidLaws, InverseLaws, SpellingLaws;
    PlanarMonoid();
    PlanarInverses();
    PlanarSpelling();
  }

  const QUARTER_TURN := Affine(0.0, 1.0, -1.0, 0.0, 0.0, 0.0)
  const SHIFT := Affine(1.0, 0.0, 0.0, 1.0, 1.0, 0.0)

  /** They do not commute, so the side a rest is divided on matters. */
  lemma PlanarDoesNotCommute()
    ensures Rigid(QUARTER_TURN) && Rigid(SHIFT)
    ensures Mul(QUARTER_TURN, SHIFT).tx != Mul(SHIFT, QUARTER_TURN).tx
  {}

  // ---- A mirrored parent ---------------------------------------------------------------

  const MIRROR := Affine(-1.0, 0.0, 0.0, 1.0, 0.0, 0.0)
  const AT_REST := Scalars(0.0, 0.0, Turn(1.0, 0.0))
  const PARENT: Path := ["rig"]
  const CHILD: Path := ["rig", "hand"]

  /** A provider and another one below it, with their matrices. */
  function TwoProviders(parent: Option<Affine>, child: Option<Affine>): Prims<Affine, Scalars> {
    map[PARENT := Prim(Provider, AT_REST, parent, None), CHILD := Prim(Provider, AT_REST, child, None)]
  }

  lemma TwoProvidersTree(parent: Option<Affine>, child: Option<Affine>)
    ensures
      var rig := TwoProviders(parent, child);
      && PARENT in rig && rig[PARENT] == Prim(Provider, AT_REST, parent, None)
      && CHILD in rig && rig[CHILD] == Prim(Provider, AT_REST, child, None)
      && (forall p | p in rig :: p == PARENT || p == CHILD)
      && IsProvider(rig, PARENT) && Nearest(rig, PARENT) == None
      && IsProvider(rig, CHILD) && Nearest(rig, CHILD) == Some(PARENT)
      && !HasRigRoot(rig)
  {
    assert |PARENT| == 1 && |CHILD| == 2 && CHILD[..1] == PARENT && PARENT[..0] == [];
    assert [] !in TwoProviders(parent, child);
  }

  /** A provider mirrored by its matrix, over one that keeps its rest in scalars. */
  const MIRRORED_RIG := TwoProviders(Some(MIRROR), None)

  lemma ComposedAtRest()
    ensures Compose(AT_REST) == ONE
  {}

  lemma RestAtRest(kind: Kind, space: Option<Affine>)
    requires space.Some? ==> Rigid(space.value)
    ensures ComposedRest(Planar(), Prim(kind, AT_REST, space, None)) == if space.Some? then space.value else ONE
  {
    hide Mul, Rigid, Ortho, Compose, ONE;
    ComposedAtRest();
    var linear := if space.Some? then space.value else ONE;
    Neutral(linear);
    OrthoKeepsRigid(linear);
  }

  lemma MirroredRests()
    ensures PARENT in MIRRORED_RIG && ComposedRest(Planar(), MIRRORED_RIG[PARENT]) == MIRROR
    ensures CHILD in MIRRORED_RIG && ComposedRest(Planar(), MIRRORED_RIG[CHILD]) == ONE
    ensures RigidRests(Planar(), MIRRORED_RIG)
  {
    hide ComposedRest, Ortho, Mul, Inv, Rigid, TwoProviders, MIRROR, ONE;
    MirrorInverse();
    Neutral(MIRROR);
    TwoProvidersTree(Some(MIRROR), None);
    RestAtRest(Provider, Some(MIRROR));
    RestAtRest(Provider, None);
  }

  /** Migrating it moves the child: its rest relative to a mirrored parent
      mirrors, and scalars cannot say so. */
  lemma MirroredParentMovesChild()
    ensures Lawful(Planar()) && RigidRests(Planar(), MIRRORED_RIG)
    ensures !SameFrames(Planar(), MIRRORED_RIG, Migrated(Planar(), MIRRORED_RIG))
  {
    hide Lawful, Planar, Migrated, TwoProviders, ComposedRest, Spellable, Nearest;
    PlanarIsLawful();
    MirroredRests();
    TwoProvidersTree(Some(MIRROR), None);
    MirroredLocal();
    MigrationPreservesIffSpellable(Planar(), MIRRORED_RIG);
    assert !ReadsBack(Planar(), MIRRORED_RIG, CHILD);
  }

  lemma MirroredLocal()
    ensures CHILD in MIRRORED_RIG && Nearest(MIRRORED_RIG, CHILD).Some?
    ensures !Spellable(Planar(), LocalRest(Planar(), MIRRORED_RIG, CHILD))
  {
    hide ComposedRest, Spellable, Nearest, TwoProviders, MIRROR, Rigid, Proper, Mul, Inv;
    MirrorInverse();
    TwoProvidersTree(Some(MIRROR), None);
    MirroredRests();
    SpellableIffProper(MIRROR);
    Neutral(MIRROR);
  }

  lemma MirrorInverse()
    ensures Rigid(MIRROR) && Inv(MIRROR) == MIRROR && !Proper(MIRROR)
  {
    hide Pair;
    Flipped(-1.0, 0.0, 1.0);
  }

  lemma Flipped(minus: real, zero: real, one: real)
    requires minus == -1.0 && zero == 0.0 && one == 1.0
    ensures Pair(minus, zero, minus, zero) == one
    ensures Pair(zero, zero, minus, zero) == zero && Pair(zero, zero, zero, one) == zero
  {}

  // ---- A second migration --------------------------------------------------------------

  /** A shifted provider over one at the identity, both kept in matrices, and no
      rig root. */
  const SHIFTED_RIG := TwoProviders(Some(SHIFT), Some(ONE))

  lemma ShiftedRests()
    ensures PARENT in SHIFTED_RIG && ComposedRest(Planar(), SHIFTED_RIG[PARENT]) == SHIFT
    ensures CHILD in SHIFTED_RIG && ComposedRest(Planar(), SHIFTED_RIG[CHILD]) == ONE
    ensures RigidRests(Planar(), SHIFTED_RIG)
  {
    hide ComposedRest, Ortho, Mul, Inv, Rigid, TwoProviders, SHIFT, ONE;
    PlanarDoesNotCommute();
    Neutral(SHIFT);
    TwoProvidersTree(Some(SHIFT), Some(ONE));
    RestAtRest(Provider, Some(SHIFT));
    RestAtRest(Provider, Some(ONE));
  }

  lemma MatricesReadBack(rig: Prims<Affine, Scalars>)
    requires forall p | p in rig :: rig[p].space.Some?
    ensures LocalsSpellable(Planar(), rig) && LocalsSpellable(Planar(), Migrated(Planar(), rig))
  {
    hide Planar, Migrated;
    forall p | p in Migrated(Planar(), rig) ensures Migrated(Planar(), rig)[p].space.Some? {
      MigrationKeepsShape(Planar(), rig);
      MigrationKeepsSpelling(Planar(), rig, p);
    }
  }

  /** The first migration keeps the child where it is and the second one, which
      nothing stops, moves it. */
  lemma SecondMigrationMovesChild()
    ensures !HasRigRoot(SHIFTED_RIG) && Lawful(Planar()) && RigidRests(Planar(), SHIFTED_RIG)
    ensures
      var once := Migrated(Planar(), SHIFTED_RIG);
      && SameFrames(Planar(), SHIFTED_RIG, once) && !AlreadyMigrated(once)
      && !SameWorld(Planar(), once, Migrated(Planar(), once))
  {
    hide Lawful, Planar, Migrated, TwoProviders, ComposedRest, Spellable, Nearest, ReadsBack, WorldRest;
    TwoProvidersTree(Some(SHIFT), Some(ONE));
    PlanarIsLawful();
    ShiftedRests();
    assert SHIFT != ONE;
    MatricesReadBack(SHIFTED_RIG);
    MigrationPreservesIffSpellable(Planar(), SHIFTED_RIG);
    StampIsOnRigRoot(Planar(), SHIFTED_RIG);
    OneIsOne();
    SecondMigrationWithoutRoot(Planar(), SHIFTED_RIG);
    assert !ParentsAtIdentity(Planar(), SHIFTED_RIG) by {
      assert IsProvider(SHIFTED_RIG, CHILD);
    }
  }

  lemma OneIsOne()
    ensures Planar().one == ONE
  {}

  // ---- What rests do to points ---------------------------------------------------------

  datatype Point = Point(x: real, y: real)

  /** A point as a row times the matrix. */
  function Move(m: Affine, p: Point): Point {
    Point(p.x * m.a + p.y * m.c + m.tx, p.x * m.b + p.y * m.d + m.ty)
  }

  lemma MulMoves(m: Affine, n: Affine, p: Point)
    ensures Move(Mul(m, n), p) == Move(n, Move(m, p))
  {
    hide Pair;
    MoveByPairs(m, p);
    MoveByPairs(n, Move(m, p));
    MoveByPairs(Mul(m, n), p);
    Distribute(p.x, p.y, m.a, m.b, m.c, m.d, n.a, n.c);
    Distribute(p.x, p.y, m.a, m.b, m.c, m.d, n.b, n.d);
    Translate(Pair(p.x, p.y, m.a, m.c), m.tx, Pair(p.x, p.y, m.b, m.d), m.ty, n.a, n.c);
    Translate(Pair(p.x, p.y, m.a, m.c), m.tx, Pair(p.x, p.y, m.b, m.d), m.ty, n.b, n.d);
  }

  lemma MoveByPairs(m: Affine, p: Point)
    ensures Move(m, p) == Point(Pair(p.x, p.y, m.a, m.c) + m.tx, Pair(p.x, p.y, m.b, m.d) + m.ty)
  {}

  /** A prim's rest takes a point through its scalars, turning and then translating
      it, and then through its matrix. */
  lemma RestMovesPoints(prim: Prim<Affine, Scalars>, p: Point)
    requires prim.space.Some? ==> Rigid(prim.space.value)
    ensures
      var turned := Point(
        p.x * prim.scalars.turn.cos - p.y * prim.scalars.turn.sin + prim.scalars.tx,
        p.x * prim.scalars.turn.sin + p.y * prim.scalars.turn.cos + prim.scalars.ty);
      Move(ComposedRest(Planar(), prim), p)
        == if prim.space.Some? then Move(prim.space.value, turned) else turned
  {
    hide Rigid, Ortho, Mul;
    var c := Compose(prim.scalars);
    var space := if prim.space.Some? then prim.space.value else ONE;
    ComposedIsSpelled(prim.scalars);
    Neutral(c);
    RigidIsClosed(c, space);
    OrthoKeepsRigid(Mul(c, space));
    assert ComposedRest(Planar(), prim) == Mul(c, space);
    MulMoves(c, space, p);
  }

  /** A provider's frame takes a point through its own rest and then through the
      frame of the nearest provider above it. */
  lemma FramesMovePoints(prims: Prims<Affine, Scalars>, path: Path, above: Path, p: Point)
    requires path in prims && IsNearest(prims, path, above)
    ensures Move(WorldRest(Planar(), prims, path), p)
         == Move(WorldRest(Planar(), prims, above), Move(ComposedRest(Planar(), prims[path]), p))
  {
    hide ComposedRest, Nearest, Mul, Move;
    NearestIsNearest(prims, path);
    MulMoves(ComposedRest(Planar(), prims[path]), WorldRest(Planar(), prims, above), p);
  }
}
