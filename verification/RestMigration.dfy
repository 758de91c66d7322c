/** Rebasing absolute rest frames onto their parents, in place, over a whole
    hierarchy (`tools/migrateRestToLocal.py`). */
module RestMigration {
  import opened Options
  import Maps

  // ---- Rigid motions -------------------------------------------------------------------

  /** Transforms `M`, and the scalars `S` (translations and Euler angles) that a
      prim may spell one by. The rigid ones keep lengths and may mirror; not all
      of them can be spelled. */
  datatype Motions<!M, !S> = Motions(
    one: M,
    mul: (M, M) -> M,
    inv: M -> M,
    rigid: M -> bool,
    ortho: M -> M,
    compose: S -> M,
    decompose: M -> S)

  ghost predicate MonoidLaws<M(!new), S(!new)>(m: Motions<M, S>) {
    && (forall a, b, c {:trigger m.mul(m.mul(a, b), c)} :: m.mul(m.mul(a, b), c) == m.mul(a, m.mul(b, c)))
    && (forall a {:trigger m.mul(m.one, a)} :: m.mul(m.one, a) == a)
    && (forall a {:trigger m.mul(a, m.one)} :: m.mul(a, m.one) == a)
  }

  ghost predicate InverseLaws<M(!new), S(!new)>(m: Motions<M, S>) {
    && m.rigid(m.one)
    && (forall a, b {:trigger m.mul(a, b)} :: m.rigid(a) && m.rigid(b) ==> m.rigid(m.mul(a, b)))
    && (forall a {:trigger m.inv(a)} :: m.rigid(a) ==>
          m.rigid(m.inv(a)) && m.mul(m.inv(a), a) == m.one && m.mul(a, m.inv(a)) == m.one)
  }

  ghost predicate SpellingLaws<M(!new), S(!new)>(m: Motions<M, S>) {
    && (forall a {:trigger m.ortho(a)} :: m.rigid(a) ==> m.ortho(a) == a)
    && (forall s {:trigger m.compose(s)} :: m.rigid(m.compose(s)))
    && (forall s {:trigger m.compose(s)} :: m.compose(m.decompose(m.compose(s))) == m.compose(s))
  }

  /** Some scalars compose to `a`. */
  ghost predicate Spellable<M, S(!new)>(m: Motions<M, S>, a: M) {
    exists s :: m.compose(s) == a
  }

  /** Rigid motions form a group, orthonormalising leaves them alone, and what
      scalars compose to is composed again from the scalars it decomposes into. */
  ghost predicate Lawful<M(!new), S(!new)>(m: Motions<M, S>) {
    MonoidLaws(m) && InverseLaws(m) && SpellingLaws(m)
  }

  lemma Associates<M(!new), S(!new)>(m: Motions<M, S>, a: M, b: M, c: M)
    requires Lawful(m)
    ensures m.mul(m.mul(a, b), c) == m.mul(a, m.mul(b, c))
  {}

  lemma Neutral<M(!new), S(!new)>(m: Motions<M, S>, a: M)
    requires Lawful(m)
    ensures m.rigid(m.one) && m.mul(m.one, a) == a == m.mul(a, m.one)
  {}

  lemma Inverse<M(!new), S(!new)>(m: Motions<M, S>, a: M)
    requires Lawful(m) && m.rigid(a)
    ensures m.rigid(m.inv(a)) && m.mul(m.inv(a), a) == m.one == m.mul(a, m.inv(a))
  {}

  lemma RigidProduct<M(!new), S(!new)>(m: Motions<M, S>, a: M, b: M)
    requires Lawful(m) && m.rigid(a) && m.rigid(b)
    ensures m.rigid(m.mul(a, b))
  {}

  lemma Spelled<M(!new), S(!new)>(m: Motions<M, S>, a: M, s: S)
    requires Lawful(m) && m.rigid(a)
    ensures m.ortho(a) == a && m.rigid(m.compose(s))
    ensures m.compose(m.decompose(a)) == a <==> Spellable(m, a)
  {}

  // ---- The stage -----------------------------------------------------------------------

  /** A prim's names from the root down. */
  type Path = seq<string>

  datatype Kind = Provider | RigRoot | Other

  /** `space` is the authored `rest:space`, if any; its fallback is identity. */
  datatype Prim<M, S> = Prim(kind: Kind, scalars: S, space: Option<M>, version: Option<int>)

  type Prims<!M, !S> = map<Path, Prim<M, S>>

  const RIG_VERSION := 2

  predicate IsProvider<M, S>(prims: Prims<M, S>, p: Path) {
    p in prims && prims[p].kind == Provider
  }

  /** The nearest frame-provider ancestor. */
  function Nearest<M, S>(prims: Prims<M, S>, p: Path): (r: Option<Path>)
    ensures r.Some? ==> IsProvider(prims, r.value) && r.value < p
    decreases |p|
  {
    if p == [] then None
    else
      var parent := p[..|p| - 1];
      if parent !in prims then None
      else if IsProvider(prims, parent) then Some(parent)
      else Nearest(prims, parent)
  }

  /** `q` is a provider above `p`, and whatever lies between them is a prim and is none. */
  ghost predicate IsNearest<M, S>(prims: Prims<M, S>, p: Path, q: Path) {
    && q < p && q in prims && prims[q].kind == Provider
    && forall k | |q| < k < |p| :: p[..k] in prims && prims[p[..k]].kind != Provider
  }

  lemma {:induction false} NearestIsNearest<M, S>(prims: Prims<M, S>, p: Path)
    ensures forall q :: Nearest(prims, p) == Some(q) <==> IsNearest(prims, p, q)
    decreases |p|
  {
    if p != [] {
      var parent := p[..|p| - 1];
      NearestIsNearest(prims, parent);
      assert forall k | 0 <= k <= |parent| :: p[..k] == parent[..k];
      forall q ensures Nearest(prims, p) == Some(q) <==> IsNearest(prims, p, q) {
        if q < p && |q| < |parent| {
          assert p[..|parent|] == parent && q < parent;
          assert IsNearest(prims, p, q) <==>
            parent in prims && prims[parent].kind != Provider && IsNearest(prims, parent, q);
        } else if q < p {
          assert q == parent;
        }
      }
    }
  }

  /** Every prim's parent is a prim. */
  ghost predicate ClosedUnderParents<M, S>(prims: Prims<M, S>) {
    forall p | p in prims && p != [] :: p[..|p| - 1] in prims
  }

  lemma {:induction false} PrefixIsPrim<M, S>(prims: Prims<M, S>, p: Path, k: nat)
    requires ClosedUnderParents(prims) && p in prims && k <= |p|
    ensures p[..k] in prims
    decreases |p| - k
  {
    if k < |p| {
      PrefixIsPrim(prims, p, k + 1);
      assert p[..k + 1][..k] == p[..k];
    } else {
      assert p[..k] == p;
    }
  }

  /** On a stage every provider that has a provider anywhere above it is rebased,
      and by the lowest of those. */
  lemma ProvidersBelowAreRebased<M, S>(prims: Prims<M, S>, p: Path, q: Path)
    requires ClosedUnderParents(prims) && p in prims && prims[p].kind == Provider
    requires q < p && q in prims && prims[q].kind == Provider
    ensures p in Rebasing(prims)
    ensures q <= Nearest(prims, p).value < p
  {
    LowestProvider(prims, p, q);
    var r :| IsNearest(prims, p, r) && q <= r;
    NearestIsNearest(prims, p);
  }

  lemma {:induction false} LowestProvider<M, S>(prims: Prims<M, S>, p: Path, q: Path)
    requires ClosedUnderParents(prims) && p in prims && q < p && q in prims && prims[q].kind == Provider
    ensures exists r :: IsNearest(prims, p, r) && q <= r
    decreases |p|
  {
    var parent := p[..|p| - 1];
    assert q <= parent;
    if prims[parent].kind == Provider {
      assert IsNearest(prims, p, parent);
    } else {
      assert q != parent && q < parent;
      LowestProvider(prims, parent, q);
      var r :| IsNearest(prims, parent, r) && q <= r;
      assert forall k | 0 <= k <= |parent| :: p[..k] == parent[..k];
      assert IsNearest(prims, p, r);
    }
  }

  function Space<M, S>(m: Motions<M, S>, prim: Prim<M, S>): M {
    if prim.space.Some? then prim.space.value else m.one
  }

  /** The prim's own rest factor. */
  function ComposedRest<M, S>(m: Motions<M, S>, prim: Prim<M, S>): M {
    m.ortho(m.mul(m.compose(prim.scalars), Space(m, prim)))
  }

  /** Its world rest, when rests are relative to the nearest provider's. */
  function WorldRest<M, S>(m: Motions<M, S>, prims: Prims<M, S>, p: Path): M
    requires p in prims
    decreases |p|
  {
    var parent := Nearest(prims, p);
    if parent.None? then ComposedRest(m, prims[p])
    else m.mul(ComposedRest(m, prims[p]), WorldRest(m, prims, parent.value))
  }

  /** `local` written in the spelling the prim already uses. */
  function Written<M, S>(m: Motions<M, S>, prim: Prim<M, S>, local: M): Prim<M, S> {
    if prim.space.Some? then prim.(space := Some(m.mul(m.inv(m.compose(prim.scalars)), local)))
    else prim.(scalars := m.decompose(local))
  }

  function Rebased<M, S>(m: Motions<M, S>, prims: Prims<M, S>, p: Path): Prim<M, S>
    requires p in prims
  {
    var parent := Nearest(prims, p);
    if !IsProvider(prims, p) || parent.None? then prims[p]
    else Written(m, prims[p], m.mul(ComposedRest(m, prims[p]), m.inv(ComposedRest(m, prims[parent.value]))))
  }

  function Stamped<M, S>(prim: Prim<M, S>): Prim<M, S> {
    if prim.kind == RigRoot then prim.(version := Some(RIG_VERSION)) else prim
  }

  ghost function Migrated<M, S>(m: Motions<M, S>, prims: Prims<M, S>): Prims<M, S> {
    Maps.Tabulate(prims.Keys, p requires p in prims => Stamped(Rebased(m, prims, p)))
  }

  predicate HasVersion<M, S>(prim: Prim<M, S>) {
    prim.kind == RigRoot && prim.version.Some? && prim.version.value >= RIG_VERSION
  }

  ghost predicate AlreadyMigrated<M, S>(prims: Prims<M, S>) {
    exists p :: p in prims && HasVersion(prims[p])
  }

  /** The traversal visits every prim once, in whatever order. */
  ghost predicate Traversal<M, S>(prims: Prims<M, S>, order: seq<Path>) {
    && (forall p :: p in order <==> p in prims)
    && (forall i, j | 0 <= i < j < |order| :: order[i] != order[j])
  }

  /** The providers a migration rewrites. */
  ghost function Rebasing<M, S>(prims: Prims<M, S>): set<Path> {
    set p | p in prims && IsProvider(prims, p) && Nearest(prims, p).Some?
  }

  /** A rewriting loop that has visited `order[..k]`. */
  ghost predicate HalfWay<M, S>(m: Motions<M, S>, before: Prims<M, S>, now: Prims<M, S>, order: seq<Path>, k: nat)
    requires k <= |order|
  {
    && now.Keys == before.Keys
    && (forall j | 0 <= j < |order| :: order[j] in before)
    && (forall j | 0 <= j < k :: now[order[j]] == Rebased(m, before, order[j]))
    && (forall j | k <= j < |order| :: now[order[j]] == before[order[j]])
  }

  /** The prims it has rewritten. */
  ghost function Counted<M, S>(before: Prims<M, S>, order: seq<Path>, k: nat): set<Path>
    requires k <= |order|
  {
    if k == 0 then {}
    else Counted(before, order, k - 1) + if order[k - 1] in Rebasing(before) then {order[k - 1]} else {}
  }

  lemma NoneYet<M, S>(m: Motions<M, S>, before: Prims<M, S>, order: seq<Path>)
    requires Traversal(before, order)
    ensures HalfWay(m, before, before, order, 0) && Counted(before, order, 0) == {}
  {
    forall j | 0 <= j < |order| ensures order[j] in before {
      assert order[j] in order;
    }
  }

  lemma {:induction false} CountedMeaning<M, S>(before: Prims<M, S>, order: seq<Path>, k: nat, p: Path)
    requires k <= |order|
    ensures p in Counted(before, order, k) <==> p in Rebasing(before) && p in order[..k]
  {
    if k > 0 {
      CountedMeaning(before, order, k - 1, p);
      assert order[..k] == order[..k - 1] + [order[k - 1]];
    }
  }

  lemma VisitedOrNot<M, S>(m: Motions<M, S>, before: Prims<M, S>, now: Prims<M, S>, order: seq<Path>, k: nat)
    requires Traversal(before, order) && k < |order| && HalfWay(m, before, now, order, k)
    ensures order[k] in now && now.Keys == before.Keys && now[order[k]] == before[order[k]]
    ensures forall q | q in now :: now[q] == before[q] || now[q] == Rebased(m, before, q)
  {
    hide Rebased;
    forall q | q in now ensures now[q] == before[q] || now[q] == Rebased(m, before, q) {
      assert q in order;
      var j :| 0 <= j < |order| && order[j] == q;
    }
  }

  lemma OneMorePrim<M, S>(
      m: Motions<M, S>, before: Prims<M, S>, now: Prims<M, S>, order: seq<Path>, k: nat, prim: Prim<M, S>)
    requires Traversal(before, order) && k < |order| && HalfWay(m, before, now, order, k)
    requires order[k] in before && prim == Rebased(m, before, order[k])
    ensures HalfWay(m, before, now[order[k] := prim], order, k + 1)
  {
    hide Rebased;
  }

  lemma OneMoreCounted<M, S>(before: Prims<M, S>, order: seq<Path>, k: nat)
    requires Traversal(before, order) && k < |order|
    ensures |Counted(before, order, k + 1)| ==
            |Counted(before, order, k)| + if order[k] in Rebasing(before) then 1 else 0
  {
    hide Rebasing;
    CountedMeaning(before, order, k, order[k]);
  }

  lemma AllRebased<M, S>(m: Motions<M, S>, before: Prims<M, S>, now: Prims<M, S>, order: seq<Path>)
    requires Traversal(before, order) && HalfWay(m, before, now, order, |order|)
    ensures now.Keys == before.Keys && forall p | p in before :: now[p] == Rebased(m, before, p)
    ensures Counted(before, order, |order|) == Rebasing(before)
  {
    hide Rebased;
    forall p | p in before ensures now[p] == Rebased(m, before, p) {
      assert p in order;
    }
    forall p ensures p in Counted(before, order, |order|) <==> p in Rebasing(before) {
      CountedMeaning(before, order, |order|, p);
      assert order[..|order|] == order;
    }
  }

  class Stage<M(==), S> {
    const motions: Motions<M, S>
    const order: seq<Path>
    var prims: Prims<M, S>

    ghost predicate Valid()
      reads this
    {
      Traversal(prims, order)
    }

    constructor (motions: Motions<M, S>, prims: Prims<M, S>, order: seq<Path>)
      requires Traversal(prims, order)
      ensures Valid() && this.prims == prims && this.motions == motions && this.order == order
    {
      this.motions, this.prims, this.order := motions, prims, order;
    }

    method ParentProvider(p: Path) returns (provider: Option<Path>)
      ensures provider == Nearest(prims, p)
      ensures forall q :: provider == Some(q) <==> IsNearest(prims, p, q)
    {
      NearestIsNearest(prims, p);
      if p == [] {
        return None;
      }
      var parent := p[..|p| - 1];
      while parent in prims
        invariant Nearest(prims, p) ==
          if parent !in prims then None
          else if IsProvider(prims, parent) then Some(parent)
          else Nearest(prims, parent)
        decreases |parent|
      {
        if IsProvider(prims, parent) {
          return Some(parent);
        }
        if parent == [] {
          return None;
        }
        parent := parent[..|parent| - 1];
      }
      return None;
    }

    /** World rests under the old, absolute rule. */
    method AbsoluteWorldRests() returns (frames: map<Path, M>)
      requires Valid()
      ensures forall p :: p in frames <==> IsProvider(prims, p)
      ensures forall p | IsProvider(prims, p) :: frames[p] == ComposedRest(motions, prims[p])
    {
      frames := map[];
      for k := 0 to |order|
        invariant forall p :: p in frames <==> p in order[..k] && IsProvider(prims, p)
        invariant forall p | p in frames :: frames[p] == ComposedRest(motions, prims[p])
      {
        assert order[..k + 1] == order[..k] + [order[k]];
        if IsProvider(prims, order[k]) {
          frames := frames[order[k] := ComposedRest(motions, prims[order[k]])];
        }
      }
      assert order[..|order|] == order;
    }

    /** Frames remembered so far are right, and only providers have one. */
    ghost predicate Memo(frames: map<Path, M>)
      reads this
    {
      forall p | p in frames :: IsProvider(prims, p) && frames[p] == WorldRest(motions, prims, p)
    }

    method ResolveFrame(p: Path, known: map<Path, M>) returns (frame: M, frames: map<Path, M>)
      requires IsProvider(prims, p) && Memo(known)
      ensures Memo(frames) && known.Keys + {p} <= frames.Keys && frame == WorldRest(motions, prims, p)
      decreases |p|
    {
      frames := known;
      if p !in frames {
        var parent := ParentProvider(p);
        var rest := ComposedRest(motions, prims[p]);
        if parent.Some? {
          var above;
          above, frames := ResolveFrame(parent.value, frames);
          rest := motions.mul(rest, above);
        }
        frames := frames[p := rest];
      }
      frame := frames[p];
    }

    /** World rests under the new, parent-relative rule. */
    method LocalWorldRests() returns (frames: map<Path, M>)
      requires Valid()
      ensures forall p :: p in frames <==> IsProvider(prims, p)
      ensures forall p | IsProvider(prims, p) :: frames[p] == WorldRest(motions, prims, p)
    {
      frames := map[];
      for k := 0 to |order|
        invariant Memo(frames)
        invariant forall j | 0 <= j < k && IsProvider(prims, order[j]) :: order[j] in frames
      {
        if IsProvider(prims, order[k]) {
          var frame;
          frame, frames := ResolveFrame(order[k], frames);
        }
      }
    }

    method IsMigrated() returns (migrated: bool)
      requires Valid()
      ensures migrated <==> AlreadyMigrated(prims)
      ensures migrated <==> exists p :: p in prims && prims[p].kind == RigRoot && prims[p].version.Some?
                                        && prims[p].version.value >= 2
    {
      for k := 0 to |order|
        invariant forall j | 0 <= j < k :: !HasVersion(prims[order[j]])
      {
        assert order[k] in order;
        if HasVersion(prims[order[k]]) {
          return true;
        }
      }
      return false;
    }

    method WriteRest(p: Path, local: M)
      requires p in prims
      modifies this
      ensures prims == old(prims)[p := Written(motions, old(prims)[p], local)]
    {
      var prim := prims[p];
      if prim.space.Some? {
        prims := prims[p := prim.(space := Some(motions.mul(motions.inv(motions.compose(prim.scalars)), local)))];
        return;
      }
      prims := prims[p := prim.(scalars := motions.decompose(local))];
    }

    method Stamp()
      requires Valid()
      modifies this
      ensures Valid()
      ensures prims.Keys == old(prims).Keys && forall p | p in prims :: prims[p] == Stamped(old(prims)[p])
      ensures forall p | p in prims ::
                prims[p] == if prims[p].kind == RigRoot then old(prims)[p].(version := Some(2)) else old(prims)[p]
    {
      for k := 0 to |order|
        invariant prims.Keys == old(prims).Keys
        invariant forall p | p in prims :: prims[p] == if p in order[..k] then Stamped(old(prims)[p]) else old(prims)[p]
      {
        var p := order[k];
        assert p in order && order[..k + 1] == order[..k] + [p];
        if prims[p].kind == RigRoot {
          prims := prims[p := prims[p].(version := Some(RIG_VERSION))];
        }
      }
      assert order[..|order|] == order;
    }

    /** One prim of the rewriting loop. */
    method RebasePrim(p: Path, absolute: map<Path, M>, ghost before: Prims<M, S>) returns (counted: bool)
      requires p in prims && prims.Keys == before.Keys && prims[p] == before[p]
      requires forall q | q in prims :: prims[q] == before[q] || prims[q] == Rebased(motions, before, q)
      requires forall q | IsProvider(before, q) :: q in absolute && absolute[q] == ComposedRest(motions, before[q])
      modifies this
      ensures prims == old(prims)[p := Rebased(motions, before, p)]
      ensures counted <==> p in Rebasing(before)
    {
      hide Nearest, Written, Rebased, ComposedRest;
      SameKinds(motions, before, prims, p);
      RebasedMeaning(motions, before, p);
      counted := false;
      if IsProvider(prims, p) {
        var parent := ParentProvider(p);
        if parent.Some? {
          WriteRest(p, motions.mul(absolute[p], motions.inv(absolute[parent.value])));
          counted := true;
        }
      }
      assert prims == old(prims)[p := Rebased(motions, before, p)];
    }

    method RebaseAll(absolute: map<Path, M>) returns (rewritten: nat)
      requires Valid()
      requires forall q | IsProvider(prims, q) :: q in absolute && absolute[q] == ComposedRest(motions, prims[q])
      modifies this
      ensures Valid()
      ensures prims.Keys == old(prims).Keys && forall p | p in prims :: prims[p] == Rebased(motions, old(prims), p)
      ensures rewritten == |Rebasing(old(prims))|
    {
      hide Nearest, Rebased, ComposedRest, Rebasing, HalfWay, Counted;
      ghost var before := prims;
      NoneYet(motions, before, order);
      rewritten := 0;
      for k := 0 to |order|
        invariant HalfWay(motions, before, prims, order, k)
        invariant rewritten == |Counted(before, order, k)|
      {
        VisitedOrNot(motions, before, prims, order, k);
        OneMorePrim(motions, before, prims, order, k, Rebased(motions, before, order[k]));
        OneMoreCounted(before, order, k);
        var counted := RebasePrim(order[k], absolute, before);
        if counted {
          rewritten := rewritten + 1;
        }
      }
      AllRebased(motions, before, prims, order);
    }

    /** Rewrites every provider below another one, from a snapshot of the
        absolute rests, and stamps the rig roots. */
    method MigrateStage() returns (rewritten: nat)
      requires Valid()
      modifies this
      ensures Valid()
      ensures AlreadyMigrated(old(prims)) ==> prims == old(prims) && rewritten == 0
      ensures !AlreadyMigrated(old(prims)) ==>
                prims == Migrated(motions, old(prims)) && rewritten == |Rebasing(old(prims))|
    {
      hide Rebased, ComposedRest, HasVersion, Rebasing;
      var migrated := IsMigrated();
      if migrated {
        return 0;
      }
      var absolute := AbsoluteWorldRests();
      rewritten := RebaseAll(absolute);
      Stamp();
    }

    /** Migrating again changes nothing on a stage that has a rig root. */
    method MigrateTwice() returns (first: nat, second: nat)
      requires Valid() && HasRigRoot(prims)
      modifies this
      ensures Valid() && second == 0
      ensures prims == if AlreadyMigrated(old(prims)) then old(prims) else Migrated(motions, old(prims))
    {
      hide Migrated, AlreadyMigrated, Rebasing, HasRigRoot;
      StampIsOnRigRoot(motions, prims);
      first := MigrateStage();
      second := MigrateStage();
    }
  }

  lemma RebasedMeaning<M, S>(m: Motions<M, S>, prims: Prims<M, S>, p: Path)
    requires p in prims
    ensures p in Rebasing(prims) <==> IsProvider(prims, p) && Nearest(prims, p).Some?
    ensures p !in Rebasing(prims) ==> Rebased(m, prims, p) == prims[p]
    ensures p in Rebasing(prims) ==>
              var parent := Nearest(prims, p).value;
              Rebased(m, prims, p) ==
                Written(m, prims[p], m.mul(ComposedRest(m, prims[p]), m.inv(ComposedRest(m, prims[parent]))))
  {}

  lemma MigratedProvider<M, S>(m: Motions<M, S>, prims: Prims<M, S>, p: Path)
    requires IsProvider(prims, p)
    ensures p in Migrated(m, prims) && Migrated(m, prims)[p] == Rebased(m, prims, p)
  {
    hide ComposedRest, Nearest;
  }

  lemma RigidRest<M, S>(m: Motions<M, S>, prims: Prims<M, S>, p: Path)
    requires RigidRests(m, prims) && IsProvider(prims, p)
    ensures m.rigid(ComposedRest(m, prims[p]))
  {}

  // ---- What a rewrite leaves alone -----------------------------------------------------

  ghost predicate SameShape<M, S>(a: Prims<M, S>, b: Prims<M, S>) {
    a.Keys == b.Keys && forall p | p in a :: a[p].kind == b[p].kind
  }

  lemma {:induction false} NearestByShape<M, S>(a: Prims<M, S>, b: Prims<M, S>, p: Path)
    requires SameShape(a, b)
    ensures Nearest(a, p) == Nearest(b, p)
    decreases |p|
  {
    if p != [] {
      NearestByShape(a, b, p[..|p| - 1]);
    }
  }

  /** Rewriting rests in the middle of a migration does not change who is whose
      parent. */
  lemma SameKinds<M, S>(m: Motions<M, S>, before: Prims<M, S>, now: Prims<M, S>, p: Path)
    requires now.Keys == before.Keys
    requires forall q | q in now :: now[q] == before[q] || now[q] == Rebased(m, before, q)
    ensures IsProvider(now, p) <==> IsProvider(before, p)
    ensures Nearest(now, p) == Nearest(before, p)
  {
    NearestByShape(now, before, p);
  }

  /** Every prim keeps its kind, a prim keeps to its spelling and the scalars
      next to a matrix stay untouched, and only providers below a provider and
      rig roots change at all. */
  lemma MigrationKeepsSpelling<M, S>(m: Motions<M, S>, prims: Prims<M, S>, p: Path)
    requires p in prims
    ensures
      var after := Migrated(m, prims);
      && p in after && after[p].kind == prims[p].kind
      && (after[p].space.Some? <==> prims[p].space.Some?)
      && (prims[p].space.Some? ==> after[p].scalars == prims[p].scalars)
      && (p !in Rebasing(prims) && prims[p].kind != RigRoot ==> after[p] == prims[p])
  {}

  // ---- Migration preserves meaning -----------------------------------------------------

  /** Every provider's composed rest is a rigid motion. */
  ghost predicate RigidRests<M, S>(m: Motions<M, S>, prims: Prims<M, S>) {
    forall p | IsProvider(prims, p) :: m.rigid(ComposedRest(m, prims[p]))
  }

  /** The rest of a provider relative to its nearest one. */
  function LocalRest<M, S>(m: Motions<M, S>, prims: Prims<M, S>, p: Path): M
    requires p in prims && Nearest(prims, p).Some?
  {
    m.mul(ComposedRest(m, prims[p]), m.inv(ComposedRest(m, prims[Nearest(prims, p).value])))
  }

  /** Wherever a rest is kept in scalars, the local rest can be spelled by some:
      no mirroring hides in it. */
  ghost predicate LocalsSpellable<M(!new), S(!new)>(m: Motions<M, S>, prims: Prims<M, S>) {
    forall p | p in prims :: ReadsBack(m, prims, p)
  }

  ghost predicate ReadsBack<M, S(!new)>(m: Motions<M, S>, prims: Prims<M, S>, p: Path)
    requires p in prims
  {
    IsProvider(prims, p) && Nearest(prims, p).Some? && prims[p].space.None? ==> Spellable(m, LocalRest(m, prims, p))
  }

  /** What is written is what is read back: always through a matrix, and through
      scalars exactly when it can be spelled by them. */
  lemma WrittenReadsBack<M(!new), S(!new)>(m: Motions<M, S>, prim: Prim<M, S>, local: M)
    requires Lawful(m) && m.rigid(local)
    ensures ComposedRest(m, Written(m, prim, local)) == local <==> prim.space.Some? || Spellable(m, local)
    ensures prim.space.None? ==> ComposedRest(m, Written(m, prim, local)) == m.compose(m.decompose(local))
    ensures m.rigid(ComposedRest(m, Written(m, prim, local)))
  {
    hide Lawful;
    var c := m.compose(prim.scalars);
    Spelled(m, local, prim.scalars);
    Spelled(m, local, m.decompose(local));
    var read := m.compose(m.decompose(local));
    Spelled(m, read, prim.scalars);
    Neutral(m, read);
    Inverse(m, c);
    Associates(m, c, m.inv(c), local);
    Neutral(m, local);
  }

  lemma RebasedRest<M(!new), S(!new)>(m: Motions<M, S>, prims: Prims<M, S>, p: Path)
    requires Lawful(m) && RigidRests(m, prims) && IsProvider(prims, p)
    ensures
      var after := ComposedRest(m, Migrated(m, prims)[p]);
      && m.rigid(after)
      && (Nearest(prims, p).None? ==> after == ComposedRest(m, prims[p]))
      && (Nearest(prims, p).Some? ==>
            && m.rigid(LocalRest(m, prims, p))
            && (after == LocalRest(m, prims, p) <==> ReadsBack(m, prims, p))
            && (prims[p].space.None? ==> after == m.compose(m.decompose(LocalRest(m, prims, p)))))
  {
    hide ComposedRest, Rebased, Lawful, Nearest, Written, RigidRests, Spellable, Migrated;
    ProviderIsPrim(prims, p);
    RebasedMeaning(m, prims, p);
    MigratedProvider(m, prims, p);
    RigidRest(m, prims, p);
    if Nearest(prims, p).Some? {
      var parent := Nearest(prims, p).value;
      RigidRest(m, prims, parent);
      var a, b := ComposedRest(m, prims[p]), ComposedRest(m, prims[parent]);
      Inverse(m, b);
      RigidProduct(m, a, m.inv(b));
      WrittenReadsBack(m, prims[p], m.mul(a, m.inv(b)));
    }
  }

  lemma ProviderIsPrim<M, S>(prims: Prims<M, S>, p: Path)
    requires IsProvider(prims, p)
    ensures p in prims
  {}

  /** The world rest of every provider, taken relative to its parents after the
      migration, is what it was absolutely before: the products telescope up
      the chain of providers. */
  lemma {:induction false} MigrationPreservesWorldRests<M(!new), S(!new)>(m: Motions<M, S>, prims: Prims<M, S>, p: Path)
    requires Lawful(m) && RigidRests(m, prims) && LocalsSpellable(m, prims) && IsProvider(prims, p)
    ensures p in Migrated(m, prims) && WorldRest(m, Migrated(m, prims), p) == ComposedRest(m, prims[p])
    decreases |p|
  {
    hide ComposedRest, Rebased, Lawful, RigidRests, ReadsBack;
    var after, parent := Migrated(m, prims), Nearest(prims, p);
    MigrationKeepsShape(m, prims);
    NearestByShape(after, prims, p);
    RebasedRest(m, prims, p);
    if parent.Some? {
      MigrationPreservesWorldRests(m, prims, parent.value);
      RigidRest(m, prims, parent.value);
      Cancel(m, ComposedRest(m, prims[p]), ComposedRest(m, prims[parent.value]));
    }
  }

  /** The two meanings of a stage's rests agree on every provider. */
  ghost predicate SameFrames<M, S>(m: Motions<M, S>, prims: Prims<M, S>, again: Prims<M, S>) {
    forall p | IsProvider(prims, p) :: p in again && WorldRest(m, again, p) == ComposedRest(m, prims[p])
  }

  /** A migration preserves every frame if and only if every local rest it has
      to put in scalars can be spelled by scalars. */
  lemma MigrationPreservesIffSpellable<M(!new), S(!new)>(m: Motions<M, S>, prims: Prims<M, S>)
    requires Lawful(m) && RigidRests(m, prims)
    ensures SameFrames(m, prims, Migrated(m, prims)) <==> LocalsSpellable(m, prims)
  {
    hide ComposedRest, Rebased, Lawful, RigidRests, WorldRest, Migrated, Nearest, Spellable;
    if LocalsSpellable(m, prims) {
      forall p | IsProvider(prims, p)
        ensures p in Migrated(m, prims) && WorldRest(m, Migrated(m, prims), p) == ComposedRest(m, prims[p])
      {
        MigrationPreservesWorldRests(m, prims, p);
      }
    }
    if SameFrames(m, prims, Migrated(m, prims)) {
      forall p | p in prims && IsProvider(prims, p) && Nearest(prims, p).Some? ensures ReadsBack(m, prims, p) {
        PreservedReadsBack(m, prims, p);
      }
    }
  }

  lemma PreservedReadsBack<M(!new), S(!new)>(m: Motions<M, S>, prims: Prims<M, S>, p: Path)
    requires Lawful(m) && RigidRests(m, prims) && SameFrames(m, prims, Migrated(m, prims))
    requires IsProvider(prims, p) && Nearest(prims, p).Some?
    ensures ReadsBack(m, prims, p)
  {
    hide ComposedRest, Rebased, Lawful, RigidRests, Migrated, Nearest, Spellable;
    var after, parent := Migrated(m, prims), Nearest(prims, p).value;
    MigrationKeepsShape(m, prims);
    NearestByShape(after, prims, p);
    RebasedRest(m, prims, p);
    RigidRest(m, prims, parent);
    Divide(m, ComposedRest(m, after[p]), ComposedRest(m, prims[parent]), ComposedRest(m, prims[p]));
  }

  lemma Divide<M(!new), S(!new)>(m: Motions<M, S>, a: M, b: M, product: M)
    requires Lawful(m) && m.rigid(b) && m.mul(a, b) == product
    ensures a == m.mul(product, m.inv(b))
  {
    hide Lawful;
    Associates(m, a, b, m.inv(b));
    Inverse(m, b);
    Neutral(m, a);
  }

  lemma MigrationKeepsShape<M, S>(m: Motions<M, S>, prims: Prims<M, S>)
    ensures SameShape(Migrated(m, prims), prims)
  {}

  lemma Cancel<M(!new), S(!new)>(m: Motions<M, S>, a: M, b: M)
    requires Lawful(m) && m.rigid(b)
    ensures m.mul(m.mul(a, m.inv(b)), b) == a
  {
    hide Lawful;
    Associates(m, a, m.inv(b), b);
    Inverse(m, b);
    Neutral(m, a);
  }

  // ---- Migrating twice -----------------------------------------------------------------

  ghost predicate HasRigRoot<M, S>(prims: Prims<M, S>) {
    exists p :: p in prims && prims[p].kind == RigRoot
  }

  /** A migrated stage knows that it is one exactly when it has a rig root to
      carry the stamp; then a second migration changes nothing. */
  lemma StampIsOnRigRoot<M, S>(m: Motions<M, S>, prims: Prims<M, S>)
    ensures AlreadyMigrated(Migrated(m, prims)) <==> HasRigRoot(prims)
  {
    var after := Migrated(m, prims);
    if p :| p in prims && prims[p].kind == RigRoot {
      assert p in after && HasVersion(after[p]);
    }
    if p :| p in after && HasVersion(after[p]) {
      assert p in prims && prims[p].kind == RigRoot;
    }
  }

  /** Every provider with a provider below it rests at the identity. */
  ghost predicate ParentsAtIdentity<M, S>(m: Motions<M, S>, prims: Prims<M, S>) {
    forall p | IsProvider(prims, p) && Nearest(prims, p).Some? ::
      ComposedRest(m, prims[Nearest(prims, p).value]) == m.one
  }

  /** Both stages mean the same, their rests read relative to parents. */
  ghost predicate SameWorld<M, S>(m: Motions<M, S>, a: Prims<M, S>, b: Prims<M, S>) {
    forall p | IsProvider(a, p) :: p in b && WorldRest(m, b, p) == WorldRest(m, a, p)
  }

  /** Rebasing the rest of `p` once more leaves it as it is: its parent's rest is
      the identity, or scalars drop exactly what dividing by it put in. */
  ghost predicate Unmoved<M, S(!new)>(m: Motions<M, S>, prims: Prims<M, S>, p: Path)
    requires p in prims
  {
    IsProvider(prims, p) && Nearest(prims, p).Some? ==>
      if ReadsBack(m, prims, p) then ComposedRest(m, prims[Nearest(prims, p).value]) == m.one
      else m.compose(m.decompose(LocalRest(m, prims, p))) == ComposedRest(m, prims[p])
  }

  lemma RebasedIsUnmoved<M(!new), S(!new)>(m: Motions<M, S>, prims: Prims<M, S>, p: Path)
    requires Lawful(m) && RigidRests(m, prims) && IsProvider(prims, p)
    ensures p in prims && p in Migrated(m, prims)
    ensures ComposedRest(m, Migrated(m, prims)[p]) == ComposedRest(m, prims[p]) <==> Unmoved(m, prims, p)
  {
    hide ComposedRest, Rebased, Lawful, Nearest, RigidRests, Spellable, Migrated;
    MigratedProvider(m, prims, p);
    RebasedRest(m, prims, p);
    if Nearest(prims, p).Some? {
      var parent := Nearest(prims, p).value;
      RigidRest(m, prims, p);
      RigidRest(m, prims, parent);
      Unchanged(m, ComposedRest(m, prims[p]), ComposedRest(m, prims[parent]));
    }
  }

  lemma {:induction false} WorldRestIsRigid<M(!new), S(!new)>(m: Motions<M, S>, prims: Prims<M, S>, p: Path)
    requires Lawful(m) && RigidRests(m, prims) && IsProvider(prims, p)
    ensures m.rigid(WorldRest(m, prims, p))
    decreases |p|
  {
    hide ComposedRest, Lawful, RigidRests;
    RigidRest(m, prims, p);
    var parent := Nearest(prims, p);
    if parent.Some? {
      WorldRestIsRigid(m, prims, parent.value);
      RigidProduct(m, ComposedRest(m, prims[p]), WorldRest(m, prims, parent.value));
    }
  }

  lemma SameFactor<M(!new), S(!new)>(m: Motions<M, S>, a: M, b: M, w: M)
    requires Lawful(m) && m.rigid(w) && m.mul(a, w) == m.mul(b, w)
    ensures a == b
  {
    hide Lawful;
    Divide(m, a, w, m.mul(a, w));
    Divide(m, b, w, m.mul(b, w));
  }

  lemma {:induction false} UnmovedKeepsWorld<M(!new), S(!new)>(m: Motions<M, S>, prims: Prims<M, S>, p: Path)
    requires Lawful(m) && RigidRests(m, prims) && IsProvider(prims, p)
    requires forall q | q in prims :: Unmoved(m, prims, q)
    ensures p in Migrated(m, prims) && WorldRest(m, Migrated(m, prims), p) == WorldRest(m, prims, p)
    decreases |p|
  {
    hide ComposedRest, Rebased, Lawful, RigidRests, Unmoved, Migrated;
    MigrationKeepsShape(m, prims);
    NearestByShape(Migrated(m, prims), prims, p);
    RebasedIsUnmoved(m, prims, p);
    var parent := Nearest(prims, p);
    if parent.Some? {
      UnmovedKeepsWorld(m, prims, parent.value);
    }
  }

  lemma KeptWorldIsUnmoved<M(!new), S(!new)>(m: Motions<M, S>, prims: Prims<M, S>, p: Path)
    requires Lawful(m) && RigidRests(m, prims) && IsProvider(prims, p)
    requires SameWorld(m, prims, Migrated(m, prims))
    ensures p in prims && Unmoved(m, prims, p)
  {
    hide ComposedRest, Rebased, Lawful, RigidRests, Unmoved, Migrated, Nearest;
    MigrationKeepsShape(m, prims);
    NearestByShape(Migrated(m, prims), prims, p);
    RebasedIsUnmoved(m, prims, p);
    var parent := Nearest(prims, p);
    if parent.Some? {
      WorldRestIsRigid(m, prims, parent.value);
      var now := ComposedRest(m, Migrated(m, prims)[p]);
      SameFactor(m, now, ComposedRest(m, prims[p]), WorldRest(m, prims, parent.value));
    }
  }

  /** Migrating a stage whose rests are relative already, as a second migration
      does: every frame is kept if and only if every rest is left as it is. */
  lemma RebasingRelativeRests<M(!new), S(!new)>(m: Motions<M, S>, prims: Prims<M, S>)
    requires Lawful(m) && RigidRests(m, prims)
    ensures SameWorld(m, prims, Migrated(m, prims)) <==> forall p | p in prims :: Unmoved(m, prims, p)
  {
    hide ComposedRest, Rebased, Lawful, RigidRests, WorldRest, Migrated, Nearest, ReadsBack;
    if SameWorld(m, prims, Migrated(m, prims)) {
      forall p | p in prims ensures Unmoved(m, prims, p) {
        if IsProvider(prims, p) {
          KeptWorldIsUnmoved(m, prims, p);
        }
      }
    }
    if forall p | p in prims :: Unmoved(m, prims, p) {
      forall p | IsProvider(prims, p)
        ensures p in Migrated(m, prims) && WorldRest(m, Migrated(m, prims), p) == WorldRest(m, prims, p)
      {
        UnmovedKeepsWorld(m, prims, p);
      }
    }
  }

  /** Dividing by the identity gives back the rest, which scalars could spell. */
  lemma IdentityParents<M(!new), S(!new)>(m: Motions<M, S>, prims: Prims<M, S>, p: Path)
    requires Lawful(m) && RigidRests(m, prims) && ParentsAtIdentity(m, prims) && p in prims
    ensures ReadsBack(m, prims, p)
    ensures IsProvider(prims, p) ==>
              p in Migrated(m, prims) && ComposedRest(m, Migrated(m, prims)[p]) == ComposedRest(m, prims[p])
  {
    hide ComposedRest, Rebased, Lawful, RigidRests, Migrated, Nearest;
    if IsProvider(prims, p) {
      MigratedProvider(m, prims, p);
      RebasedRest(m, prims, p);
      if Nearest(prims, p).Some? {
        RigidRest(m, prims, p);
        Neutral(m, m.one);
        Unchanged(m, ComposedRest(m, prims[p]), m.one);
        if prims[p].space.None? {
          ScalarsSpell(m, prims[p]);
        }
      }
    }
  }

  lemma ScalarsSpell<M(!new), S(!new)>(m: Motions<M, S>, prim: Prim<M, S>)
    requires Lawful(m) && prim.space.None?
    ensures Spellable(m, ComposedRest(m, prim))
  {
    hide Lawful;
    var c := m.compose(prim.scalars);
    Neutral(m, c);
    Spelled(m, m.one, prim.scalars);
    Spelled(m, c, prim.scalars);
  }

  lemma {:induction false} ParentStaysAtIdentity<M(!new), S(!new)>(m: Motions<M, S>, prims: Prims<M, S>, p: Path)
    requires Lawful(m) && RigidRests(m, prims) && LocalsSpellable(m, prims)
    requires ParentsAtIdentity(m, Migrated(m, prims))
    requires IsProvider(prims, p) && Nearest(prims, p).Some?
    ensures ComposedRest(m, prims[Nearest(prims, p).value]) == m.one
    decreases |p|
  {
    hide ComposedRest, Rebased, Lawful, RigidRests, ReadsBack, Migrated, Spellable;
    var once, parent := Migrated(m, prims), Nearest(prims, p).value;
    MigrationKeepsShape(m, prims);
    NearestByShape(once, prims, p);
    RebasedRest(m, prims, parent);
    if Nearest(prims, parent).Some? {
      ParentStaysAtIdentity(m, prims, parent);
      RigidRest(m, prims, parent);
      Neutral(m, m.one);
      Unchanged(m, ComposedRest(m, prims[parent]), m.one);
    }
  }

  /** Without a rig root nothing stops a second migration. It keeps the frames if
      and only if it leaves every rest as the first one made it; it does so where
      every parent rested at the identity to begin with, and, where scalars can
      spell the rests of both migrations, nowhere else. */
  lemma SecondMigrationWithoutRoot<M(!new), S(!new)>(m: Motions<M, S>, prims: Prims<M, S>)
    requires Lawful(m) && RigidRests(m, prims)
    ensures
      var once := Migrated(m, prims);
      && (SameWorld(m, once, Migrated(m, once)) <==> forall p | p in once :: Unmoved(m, once, p))
      && (ParentsAtIdentity(m, prims) ==> SameWorld(m, once, Migrated(m, once)))
      && (LocalsSpellable(m, prims) && LocalsSpellable(m, once) ==>
            (SameWorld(m, once, Migrated(m, once)) <==> ParentsAtIdentity(m, prims)))
  {
    hide ComposedRest, WorldRest, Nearest, Migrated, Rebased, Lawful, ReadsBack;
    var once := Migrated(m, prims);
    MigrationKeepsRigid(m, prims);
    RebasingRelativeRests(m, once);
    if ParentsAtIdentity(m, prims) {
      IdentityStays(m, prims);
    }
    if LocalsSpellable(m, prims) && LocalsSpellable(m, once) && SameWorld(m, once, Migrated(m, once)) {
      forall p | IsProvider(once, p) && Nearest(once, p).Some?
        ensures ComposedRest(m, once[Nearest(once, p).value]) == m.one
      {
        assert Unmoved(m, once, p);
      }
      forall p | IsProvider(prims, p) && Nearest(prims, p).Some?
        ensures ComposedRest(m, prims[Nearest(prims, p).value]) == m.one
      {
        ParentStaysAtIdentity(m, prims, p);
      }
    }
  }

  lemma IdentityStays<M(!new), S(!new)>(m: Motions<M, S>, prims: Prims<M, S>)
    requires Lawful(m) && RigidRests(m, prims) && ParentsAtIdentity(m, prims)
    ensures forall p | p in Migrated(m, prims) :: Unmoved(m, Migrated(m, prims), p)
  {
    hide ComposedRest, Migrated, Rebased, Lawful, ReadsBack, RigidRests;
    var once := Migrated(m, prims);
    MigrationKeepsShape(m, prims);
    MigrationKeepsRigid(m, prims);
    forall p | IsProvider(once, p) && Nearest(once, p).Some?
      ensures ComposedRest(m, once[Nearest(once, p).value]) == m.one
    {
      NearestByShape(once, prims, p);
      IdentityParents(m, prims, Nearest(prims, p).value);
    }
    forall p | p in once ensures Unmoved(m, once, p) {
      IdentityParents(m, once, p);
    }
  }

  lemma MigrationKeepsRigid<M(!new), S(!new)>(m: Motions<M, S>, prims: Prims<M, S>)
    requires Lawful(m) && RigidRests(m, prims)
    ensures RigidRests(m, Migrated(m, prims))
  {
    hide ComposedRest, Lawful, Nearest, Rebased, Spellable;
    MigrationKeepsShape(m, prims);
    forall p | IsProvider(Migrated(m, prims), p) ensures m.rigid(ComposedRest(m, Migrated(m, prims)[p])) {
      assert IsProvider(prims, p);
      RebasedRest(m, prims, p);
    }
  }

  /** Dividing by a motion changes nothing only if that motion is the identity. */
  lemma Unchanged<M(!new), S(!new)>(m: Motions<M, S>, a: M, b: M)
    requires Lawful(m) && m.rigid(a) && m.rigid(b)
    ensures m.mul(a, m.inv(b)) == a <==> b == m.one
  {
    hide Lawful;
    Neutral(m, a);
    Neutral(m, b);
    Inverse(m, m.one);
    Neutral(m, m.inv(m.one));
    Inverse(m, a);
    Cancel(m, a, b);
    Associates(m, m.inv(a), a, b);
  }

  /** Migrating and reading back, as the command does: every provider's frame
      before and after, the same exactly when the scalars could take them. */
  method MigrateAndCompare<M(!new,==), S(!new)>(stage: Stage<M, S>) returns (before: map<Path, M>, after: map<Path, M>)
    requires stage.Valid() && Lawful(stage.motions) && RigidRests(stage.motions, stage.prims)
    requires !AlreadyMigrated(stage.prims)
    modifies stage
    ensures before == after <==> LocalsSpellable(stage.motions, old(stage.prims))
    ensures forall p :: p in after <==> IsProvider(stage.prims, p)
    ensures HasRigRoot(stage.prims) <==> AlreadyMigrated(stage.prims)
  {
    hide ComposedRest, Rebased, Lawful, WorldRest, Migrated, LocalsSpellable, HasRigRoot, AlreadyMigrated, RigidRests,
      Rebasing;
    ghost var prims := stage.prims;
    before := stage.AbsoluteWorldRests();
    var rewritten := stage.MigrateStage();
    after := stage.LocalWorldRests();
    MigrationKeepsShape(stage.motions, prims);
    StampIsOnRigRoot(stage.motions, prims);
    RootsKept(prims, stage.prims);
    MigrationPreservesIffSpellable(stage.motions, prims);
    assert before.Keys == after.Keys;
    assert before == after <==> forall p | IsProvider(prims, p) :: after[p] == before[p];
  }

  lemma RootsKept<M, S>(a: Prims<M, S>, b: Prims<M, S>)
    requires SameShape(b, a)
    ensures HasRigRoot(a) <==> HasRigRoot(b)
  {
    if p :| p in a && a[p].kind == RigRoot {
      assert p in b;
    }
    if p :| p in b && b[p].kind == RigRoot {
      assert p in a;
    }
  }
}
