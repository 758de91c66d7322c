/** Re-executing a cone: the clusters reached from the seeds are found by bitset
    unions, and running only those from the last frame's slots gives the slots a
    full run gives. */
module ConeRuns {
  import opened Options
  import opened FiniteSets
  import opened Digraphs
  import opened OpGraph
  import opened ClusterSets
  import opened Cones
  import opened TopologicalOrder
  import opened BakedRuns
  import opened ScheduleRuns
  import Executor

  // ---- The dirty clusters --------------------------------------------------------------

  /** The cluster of a step; steps and clusters out of range have none. */
  function SeedOf(count: nat, clusterOf: seq<int>, step: int): Option<nat> {
    if 0 <= step < |clusterOf| && 0 <= clusterOf[step] < count then Some(clusterOf[step]) else None
  }

  ghost predicate ReachedFromSeed(clusters: seq<Cluster>, clusterOf: seq<int>, step: int, c: nat) {
    var seed := SeedOf(|clusters|, clusterOf, step);
    seed.Some? && Reaches(ClusterSuccs(clusters), seed.value, c)
  }

  /** What the clusters of the first `k` steps reach. */
  ghost function Dirty(clusters: seq<Cluster>, clusterOf: seq<int>, steps: seq<int>, k: nat): set<nat>
    requires k <= |steps|
  {
    set c | c in Naturals(|clusters|) && exists j :: 0 <= j < k && ReachedFromSeed(clusters, clusterOf, steps[j], c)
  }

  /** `step` is in a cluster that reaches `c`. */
  ghost predicate InCone(clusters: seq<Cluster>, clusterOf: seq<int>, step: int, c: nat) {
    && 0 <= step < |clusterOf| && 0 <= clusterOf[step] < |clusters|
    && Reaches<nat>(ClusterSuccs(clusters), clusterOf[step], c)
  }

  lemma DirtyMeaning(clusters: seq<Cluster>, clusterOf: seq<int>, steps: seq<int>)
    ensures forall c: nat :: c in Dirty(clusters, clusterOf, steps, |steps|) <==>
              c < |clusters| && exists k :: 0 <= k < |steps| && InCone(clusters, clusterOf, steps[k], c)
  {
    hide Reaches;
    hide InCone, ReachedFromSeed;
    forall step, c: nat
      ensures InCone(clusters, clusterOf, step, c) <==> ReachedFromSeed(clusters, clusterOf, step, c)
    {
      InConeMeaning(clusters, clusterOf, step, c);
    }
  }

  lemma InConeMeaning(clusters: seq<Cluster>, clusterOf: seq<int>, step: int, c: nat)
    ensures InCone(clusters, clusterOf, step, c) <==> ReachedFromSeed(clusters, clusterOf, step, c)
  {
    hide Reaches;
  }

  lemma NoSeeds(clusters: seq<Cluster>, clusterOf: seq<int>, steps: seq<int>)
    ensures Dirty(clusters, clusterOf, steps, 0) == {}
  {}

  lemma OneMoreSeed(clusters: seq<Cluster>, clusterOf: seq<int>, steps: seq<int>, k: nat)
    requires k < |steps|
    ensures
      var seed := SeedOf(|clusters|, clusterOf, steps[k]);
      Dirty(clusters, clusterOf, steps, k + 1) ==
        Dirty(clusters, clusterOf, steps, k) + if seed.Some? then Cone(clusters, seed.value) else {}
  {
    hide Reaches, SeedOf;
  }

  /** The union of the cones of the steps' clusters is what those reach. */
  method DirtyClusters(clusters: seq<Cluster>, cones: seq<ClusterSet>, clusterOf: seq<int>, steps: seq<int>)
    returns (dirty: ClusterSet)
    requires |cones| == |clusters|
    requires forall c: nat | c < |clusters| ::
               |cones[c].words| == (|clusters| + 63) / 64 && cones[c].Members() == Cone(clusters, c)
    ensures fresh(dirty) && dirty.Members() == Dirty(clusters, clusterOf, steps, |steps|)
    ensures |dirty.words| == (|clusters| + 63) / 64
    ensures forall c: nat :: c in dirty.Members() <==> c < |clusters| && exists k ::
              0 <= k < |steps| && InCone(clusters, clusterOf, steps[k], c)
  {
    DirtyMeaning(clusters, clusterOf, steps);
    hide InCone;
    hide Dirty, Cone, MembersOf;
    dirty := new ClusterSet();
    dirty.Resize(|clusters|);
    NoSeeds(clusters, clusterOf, steps);
    for k := 0 to |steps|
      invariant fresh(dirty) && dirty.Members() == Dirty(clusters, clusterOf, steps, k)
      invariant |dirty.words| == (|clusters| + 63) / 64
      invariant forall c: nat | c < |clusters| :: cones[c] != dirty
      invariant forall c: nat | c < |clusters| ::
                  |cones[c].words| == (|clusters| + 63) / 64 && cones[c].Members() == Cone(clusters, c)
    {
      OneMoreSeed(clusters, clusterOf, steps, k);
      if 0 <= steps[k] < |clusterOf| {
        var cluster := clusterOf[steps[k]];
        if 0 <= cluster < |cones| {
          var grew := dirty.Union(cones[cluster]);
        }
      }
    }
  }

  /** They include the seeds and whatever follows one of them. */
  lemma DirtyIsClosed(clusters: seq<Cluster>, clusterOf: seq<int>, steps: seq<int>)
    requires InverseEdges(clusters)
    ensures Closed(ClusterSuccs(clusters), Dirty(clusters, clusterOf, steps, |steps|))
    ensures forall k | 0 <= k < |steps| && SeedOf(|clusters|, clusterOf, steps[k]).Some? ::
              SeedOf(|clusters|, clusterOf, steps[k]).value in Dirty(clusters, clusterOf, steps, |steps|)
  {
    hide Reaches, InverseEdges, Dirty, Succ, ClusterSuccs;
    var edges, dirty := ClusterSuccs(clusters), Dirty(clusters, clusterOf, steps, |steps|);
    forall k | 0 <= k < |steps| && SeedOf(|clusters|, clusterOf, steps[k]).Some?
      ensures SeedOf(|clusters|, clusterOf, steps[k]).value in dirty
    {
      var seed := SeedOf(|clusters|, clusterOf, steps[k]).value;
      ReachesSelf(edges, seed);
      InDirty(clusters, clusterOf, steps, k, seed);
    }
    forall a, b | a in dirty && b in Succ(edges, a) ensures b in dirty {
      DirtyStep(clusters, clusterOf, steps, a, b);
    }
  }

  lemma InDirty(clusters: seq<Cluster>, clusterOf: seq<int>, steps: seq<int>, k: nat, c: nat)
    requires k < |steps| && c < |clusters| && ReachedFromSeed(clusters, clusterOf, steps[k], c)
    ensures c in Dirty(clusters, clusterOf, steps, |steps|)
  {
    hide ReachedFromSeed;
  }

  lemma DirtyStep(clusters: seq<Cluster>, clusterOf: seq<int>, steps: seq<int>, a: nat, b: nat)
    requires InverseEdges(clusters) && b in Succ(ClusterSuccs(clusters), a)
    requires a in Dirty(clusters, clusterOf, steps, |steps|)
    ensures b in Dirty(clusters, clusterOf, steps, |steps|)
  {
    hide Reaches, SeedOf;
    var j: nat :| j < |steps| && ReachedFromSeed(clusters, clusterOf, steps[j], a);
    SuccOfReached(ClusterSuccs(clusters), SeedOf(|clusters|, clusterOf, steps[j]).value, a, b);
    InDirty(clusters, clusterOf, steps, j, b);
  }

  /** Nothing smaller does. */
  lemma DirtyIsLeast(clusters: seq<Cluster>, clusterOf: seq<int>, steps: seq<int>, t: set<nat>)
    requires Closed(ClusterSuccs(clusters), t)
    requires forall k | 0 <= k < |steps| && SeedOf(|clusters|, clusterOf, steps[k]).Some? ::
               SeedOf(|clusters|, clusterOf, steps[k]).value in t
    ensures Dirty(clusters, clusterOf, steps, |steps|) <= t
  {
    hide Reaches, Closed, SeedOf;
    forall c | c in Dirty(clusters, clusterOf, steps, |steps|) ensures c in t {
      var j :| 0 <= j < |steps| && ReachedFromSeed(clusters, clusterOf, steps[j], c);
      ClosedHoldsReached(ClusterSuccs(clusters), t, SeedOf(|clusters|, clusterOf, steps[j]).value, c);
    }
  }

  // ---- The last frame's slots ----------------------------------------------------------

  /** No slot is written by two steps. */
  ghost predicate OneWriter(g: Graph) {
    forall w: nat, u: nat, v | Writes(g, w, v) && Writes(g, u, v) :: w == u
  }

  lemma OneWriterMeaning(g: Graph)
    ensures OneWriter(g) <==>
              forall i: nat, j: nat, v | i < j < |g.ops| && v in g.ops[i].outputs :: v !in g.ops[j].outputs
  {
    if OneWriter(g) {
      forall i: nat, j: nat, v | i < j < |g.ops| && v in g.ops[i].outputs ensures v !in g.ops[j].outputs {
        assert Writes(g, i, v);
        assert v in g.ops[j].outputs ==> Writes(g, j, v);
      }
    }
  }

  /** A step that writes anything reads only slots written before its turn. */
  ghost predicate ReadersFollow(g: Graph) {
    forall w: nat, i: nat, u, v | Writes(g, w, v) && Writes(g, i, u) && v in g.ops[i].inputs :: w < i
  }

  /** This frame starts from the slots the last frame's full run left, with the
      changed inputs written over them. */
  ghost predicate Follows<D(!new)>(last: Program<D>, now: Program<D>, changed: set<ValueId>) {
    && ValidProgram(last) && ValidProgram(now) && OneWriter(now.g) && ReadersFollow(now.g)
    && now.g == last.g && now.effect == last.effect
    && (forall v <- changed :: Leaf(now.g.ops, v))
    && (forall v: ValueId | v !in changed :: Executor.SameAt(v, InOrder(last, |last.g.ops|), now.start))
  }

  /** Whatever reads a changed input is in a dirty cluster, and so is whatever
      follows one. */
  ghost predicate NextFrame<D(!new)>(last: Program<D>, now: Program<D>, changed: set<ValueId>, dirty: set<nat>) {
    && Follows(last, now, changed)
    && (forall i: nat, v | i < |now.g.ops| && v in now.g.ops[i].inputs && v in changed :: now.g.opClusters[i] in dirty)
    && Downstream(now.g, dirty)
  }

  /** With one writer a slot keeps from its writer's turn to the end. */
  lemma WrittenOnce<D(!new)>(p: Program<D>, w: nat, v: ValueId, m: nat)
    requires ValidProgram(p) && OneWriter(p.g) && Writes(p.g, w, v) && m <= |p.g.ops|
    ensures w < m ==> Executor.SameAt(v, InOrder(p, w + 1), InOrder(p, m))
    ensures m <= w ==> Executor.SameAt(v, p.start, InOrder(p, m))
  {
    hide ValidProgram, InOrder;
    StartOf(p);
    if w < m {
      NotWrittenBetween(p, v, w + 1, m);
    } else {
      NotWrittenBetween(p, v, 0, m);
    }
  }

  /** At the end of a run a step's inputs are still what it read. */
  lemma InputsLast<D(!new)>(p: Program<D>, i: nat, u: ValueId)
    requires ValidProgram(p) && ReadersFollow(p.g) && Writes(p.g, i, u)
    ensures Executor.InputsOf(p.g, InOrder(p, |p.g.ops|), i) == Executor.InputsOf(p.g, InOrder(p, i), i)
  {
    hide InOrder, ConflictsOrdered, Partition, ClusterEdges, Acyclic;
    forall v | v in p.g.ops[i].inputs ensures Executor.SameAt(v, InOrder(p, i), InOrder(p, |p.g.ops|)) {
      forall w: nat | i <= w < |p.g.ops| ensures !Writes(p.g, w, v) {}
      NotWrittenBetween(p, v, i, |p.g.ops|);
    }
  }

  /** In this frame's program order a clean step finds the inputs it had in the
      last frame, and so writes what the slots hold already. */
  lemma {:induction false} CleanStepRepeats<D(!new)>(
      last: Program<D>, now: Program<D>, changed: set<ValueId>, dirty: set<nat>, i: nat, v: ValueId)
    requires NextFrame(last, now, changed, dirty)
    requires i < |now.g.ops| && now.g.opClusters[i] !in dirty && Writes(now.g, i, v)
    ensures Executor.SameAt(v, InOrder(now, i + 1), now.start)
    decreases i
  {
    hide InOrder, ConflictsOrdered, Acyclic, ClusterEdges;
    forall u | u in now.g.ops[i].inputs
      ensures Executor.SameAt(u, InOrder(now, i), InOrder(last, |last.g.ops|))
    {
      CleanInput(last, now, changed, dirty, i, u);
      if w: nat :| Writes(now.g, w, u) {
        assert w < i;
        CleanWriter(now.g, dirty, i, w, u);
        CleanStepRepeats(last, now, changed, dirty, w, u);
        WrittenOnce(now, w, u, i);
      } else {
        NotWrittenBetween(now, u, 0, i);
        StartOf(now);
      }
    }
    assert Executor.InputsOf(now.g, InOrder(now, i), i) == Executor.InputsOf(last.g, InOrder(last, |last.g.ops|), i);
    InputsLast(last, i, v);
    SameOutput(last, now, i, v);
    WrittenOnce(last, i, v, |last.g.ops|);
    assert v !in changed;
  }

  lemma SameOutput<D(!new)>(last: Program<D>, now: Program<D>, i: nat, v: ValueId)
    requires ValidProgram(last) && ValidProgram(now) && now.g == last.g && now.effect == last.effect
    requires Writes(now.g, i, v)
    requires Executor.InputsOf(now.g, InOrder(now, i), i) == Executor.InputsOf(last.g, InOrder(last, i), i)
    ensures Executor.SameAt(v, InOrder(now, i + 1), InOrder(last, i + 1))
  {
    hide ConflictsOrdered, Acyclic, ClusterEdges, Partition, ForwardEdges;
    var out := now.effect(i, Executor.InputsOf(now.g, InOrder(now, i), i));
    assert out.Keys == Executor.OutputSet(now.g, i) && v in out;
    assert InOrder(now, i + 1) == InOrder(now, i) + out && InOrder(last, i + 1) == InOrder(last, i) + out;
  }

  lemma CleanInput<D(!new)>(
      last: Program<D>, now: Program<D>, changed: set<ValueId>, dirty: set<nat>, i: nat, u: ValueId)
    requires NextFrame(last, now, changed, dirty)
    requires i < |now.g.ops| && now.g.opClusters[i] !in dirty && u in now.g.ops[i].inputs
    ensures Executor.SameAt(u, now.start, InOrder(last, |last.g.ops|))
  {
    hide ValidProgram, InOrder;
    assert u !in changed;
  }

  /** A clean step's inputs come from clean steps. */
  lemma CleanWriter(g: Graph, dirty: set<nat>, i: nat, w: nat, v: ValueId)
    requires Orderly(g) && Downstream(g, dirty) && w < i < |g.ops| && g.opClusters[i] !in dirty
    requires Writes(g, w, v) && v in g.ops[i].inputs
    ensures g.opClusters[w] !in dirty
  {
    hide ClusterEdges, Acyclic, ForwardEdges, ClosedBack, Reaches, Downstream;
    CleanIsClosed(g, dirty);
    assert Conflict(g, w, i);
    EarlierIsDone(g, CleanSteps(g, dirty), w, i);
  }

  /** So the cone can be run alone: the clean slots are up to date. */
  lemma ConeIsStartable<D(!new)>(last: Program<D>, now: Program<D>, changed: set<ValueId>, dirty: set<nat>)
    requires NextFrame(last, now, changed, dirty)
    ensures Startable(now, dirty)
  {
    hide InOrder, ConflictsOrdered, Acyclic, ClusterEdges, ForwardEdges;
    var clean := CleanSteps(now.g, dirty);
    forall v: ValueId, m: nat | m <= |now.g.ops| && Frontier(now.g, clean, v, m)
      ensures Executor.SameAt(v, now.start, InOrder(now, m))
    {
      if w: nat :| Writes(now.g, w, v) {
        assert w in clean <==> w < m;
        WrittenOnce(now, w, v, m);
        if w < m {
          CleanStepRepeats(last, now, changed, dirty, w, v);
        }
      } else {
        NotWrittenBetween(now, v, 0, m);
        StartOf(now);
      }
    }
  }

  /** Cone re-execution agrees with full re-execution: a run of the cone alone,
      however it interleaves, and a run of everything from the same slots leave
      the same slots. */
  lemma ConeAgreesWithFullRun<D(!new)>(
      last: Program<D>, now: Program<D>, changed: set<ValueId>, dirty: set<nat>, all: set<nat>,
      cone: seq<State<D>>, coneActions: seq<Action>, full: seq<State<D>>, fullActions: seq<Action>)
    requires NextFrame(last, now, changed, dirty) && forall c: nat | c < |now.g.clusters| :: c in all
    requires Interleaves(now, dirty, cone, coneActions) && Quiescent(now, cone[|coneActions|])
    requires Interleaves(now, all, full, fullActions) && Quiescent(now, full[|fullActions|])
    ensures cone[|coneActions|].store == full[|fullActions|].store
  {
    hide Downstream, Startable, Quiescent, Interleaves, ValidProgram, InOrder, OneWriter, ReadersFollow;
    ConeIsStartable(last, now, changed, dirty);
    RunsAgree(now, dirty, cone, coneActions);
    FullRunsAgree(now, all, full, fullActions);
  }

  // ---- One thread ----------------------------------------------------------------------

  /** The dirty clusters in topological order, each member in turn. */
  method RerunCone<D(!new)>(p: Program<D>, order: seq<nat>, dirty: ClusterSet) returns (store: Store<D>)
    requires Startable(p, dirty.Members()) && Ordered(p.g.clusters, order)
    requires forall c: nat | c < |p.g.clusters| :: c in order
    requires |dirty.words| == (|p.g.clusters| + 63) / 64
    ensures store == InOrder(p, |p.g.ops|)
  {
    hide InOrder, Current, ClosedBack, PredsIn, ConflictsOrdered, Acyclic, ForwardEdges, ClusterEdges, MembersOf;
    store := p.start;
    ghost var done := CleanSteps(p.g, dirty.Members());
    CleanIsClosed(p.g, dirty.Members());
    for at := 0 to |order|
      invariant Current(p, store, done) && ClosedBack(p.g, done)
      invariant DoneBefore(p.g, order, dirty.Members(), done, at, 0)
    {
      var c := order[at];
      var run := dirty.Test(c);
      if run {
        var members := p.g.clusters[c].members;
        for k := 0 to |members|
          invariant Current(p, store, done) && ClosedBack(p.g, done)
          invariant DoneBefore(p.g, order, dirty.Members(), done, at, k)
        {
          var i := members[k];
          TurnInOrder(p, order, dirty.Members(), done, at, k);
          InputsInOrder(p, store, done, i);
          StepLands(p, store, done, i);
          MemberDone(p.g, order, dirty.Members(), done, at, k);
          store := store + p.effect(i, Executor.InputsOf(p.g, store, i));
          done := done + {i};
        }
        ClusterDone(p.g, order, dirty.Members(), done, at);
      } else {
        CleanCluster(p.g, order, dirty.Members(), done, at);
      }
    }
    AllInOrder(p, order, dirty.Members(), done);
    AllDone(p, store, done);
  }

  /** Done are the clean steps, those of the first `at` clusters in the order,
      and the first `k` of the next one. */
  ghost predicate DoneBefore(g: Graph, order: seq<nat>, dirty: set<nat>, done: set<nat>, at: nat, k: nat) {
    forall i: nat :: i in done <==> DoneOp(g, order, dirty, at, k, i)
  }

  ghost predicate DoneOp(g: Graph, order: seq<nat>, dirty: set<nat>, at: nat, k: nat, i: nat) {
    && i < |g.ops| == |g.opClusters|
    && (|| g.opClusters[i] !in dirty
        || (exists j :: 0 <= j < at && j < |order| && order[j] == g.opClusters[i])
        || (at < |order| && g.opClusters[i] == order[at] && AmongFirst(g, order[at], k, i)))
  }

  ghost predicate AmongFirst(g: Graph, c: nat, k: nat, i: nat) {
    c < |g.clusters| && exists j :: 0 <= j < k && j < |g.clusters[c].members| && g.clusters[c].members[j] == i
  }

  lemma CleanIsClosed(g: Graph, dirty: set<nat>)
    requires Orderly(g) && Downstream(g, dirty)
    ensures ClosedBack(g, CleanSteps(g, dirty))
  {
    hide ConflictsOrdered, PredsIn;
    forall i: nat | i in CleanSteps(g, dirty) ensures PredsIn(g, i, CleanSteps(g, dirty)) {
      CleanPreds(g, dirty, i);
    }
  }

  lemma TurnInOrder<D(!new)>(p: Program<D>, order: seq<nat>, dirty: set<nat>, done: set<nat>, at: nat, k: nat)
    requires ValidProgram(p) && Ordered(p.g.clusters, order)
    requires at < |order| && order[at] < |p.g.clusters| && order[at] in dirty
    requires DoneBefore(p.g, order, dirty, done, at, k) && k < |p.g.clusters[order[at]].members|
    ensures var i := p.g.clusters[order[at]].members[k]; i < |p.g.ops| && i !in done && PredsIn(p.g, i, done)
  {
    hide ConflictsOrdered, Acyclic;
    var c := order[at];
    var members := p.g.clusters[c].members;
    var i := members[k];
    MemberInRange(p.g, c, k);
    if AmongFirst(p.g, c, k, i) {
      var j :| 0 <= j < k && j < |members| && members[j] == i;
      NoDuplicates(members, j, k);
    }
    forall j <- p.g.ops[i].preds ensures j in done {
      var d := p.g.opClusters[j];
      assert j < i;
      var m :| 0 <= m < |p.g.clusters[d].members| && p.g.clusters[d].members[m] == j;
      if d == c {
        SmallerIsEarlier(members, m, k);
        assert AmongFirst(p.g, c, k, j);
      } else {
        assert d in p.g.clusters[c].preds && d in order[..at];
        var e :| 0 <= e < at && order[e] == d;
      }
      assert DoneOp(p.g, order, dirty, at, k, j);
    }
  }

  lemma MemberDone(g: Graph, order: seq<nat>, dirty: set<nat>, done: set<nat>, at: nat, k: nat)
    requires Partition(g) && DoneBefore(g, order, dirty, done, at, k)
    requires at < |order| && order[at] < |g.clusters| && k < |g.clusters[order[at]].members|
    ensures DoneBefore(g, order, dirty, done + {g.clusters[order[at]].members[k]}, at, k + 1)
  {
    var c := order[at];
    MemberInRange(g, c, k);
    forall i: nat ensures AmongFirst(g, c, k + 1, i) <==> AmongFirst(g, c, k, i) || i == g.clusters[c].members[k] {
      assert i == g.clusters[c].members[k] ==> AmongFirst(g, c, k + 1, i);
    }
  }

  lemma ClusterDone(g: Graph, order: seq<nat>, dirty: set<nat>, done: set<nat>, at: nat)
    requires Partition(g) && at < |order| && order[at] < |g.clusters|
    requires DoneBefore(g, order, dirty, done, at, |g.clusters[order[at]].members|)
    ensures DoneBefore(g, order, dirty, done, at + 1, 0)
  {
    var c := order[at];
    var m := |g.clusters[c].members|;
    forall i: nat ensures DoneOp(g, order, dirty, at, m, i) <==> DoneOp(g, order, dirty, at + 1, 0, i) {
      if i < |g.ops| && g.opClusters[i] == c {
        assert i in g.clusters[c].members;
        assert AmongFirst(g, c, |g.clusters[c].members|, i);
      }
    }
  }

  lemma CleanCluster(g: Graph, order: seq<nat>, dirty: set<nat>, done: set<nat>, at: nat)
    requires at < |order| && order[at] !in dirty && DoneBefore(g, order, dirty, done, at, 0)
    ensures DoneBefore(g, order, dirty, done, at + 1, 0)
  {
    forall i: nat ensures DoneOp(g, order, dirty, at, 0, i) <==> DoneOp(g, order, dirty, at + 1, 0, i) {}
  }

  lemma AllInOrder<D(!new)>(p: Program<D>, order: seq<nat>, dirty: set<nat>, done: set<nat>)
    requires ValidProgram(p) && DoneBefore(p.g, order, dirty, done, |order|, 0)
    requires forall c: nat | c < |p.g.clusters| :: c in order
    ensures forall i: nat :: i in done <==> i < |p.g.ops|
  {
    hide ConflictsOrdered, Acyclic, ForwardEdges, ClusterEdges;
    forall i: nat | i < |p.g.ops| ensures DoneOp(p.g, order, dirty, |order|, 0, i) {
      assert p.g.opClusters[i] in order;
    }
  }

  // ---- From the changed inputs to the slots --------------------------------------------

  lemma EdgesAreInverse<D(!new)>(p: Program<D>)
    requires ValidProgram(p)
    ensures InverseEdges(p.g.clusters)
  {
    hide ConflictsOrdered, Acyclic, ForwardEdges;
  }

  /** Some step of the list is in the cluster of step `i`. */
  ghost predicate Seeded(g: Graph, steps: seq<int>, i: nat)
    requires i < |g.ops| == |g.opClusters|
  {
    exists k :: 0 <= k < |steps| && 0 <= steps[k] < |g.ops| && g.opClusters[steps[k]] == g.opClusters[i]
  }

  /** Whatever reads a changed slot is in the cluster of a listed step. */
  ghost predicate SeedsCover(g: Graph, changed: set<ValueId>, steps: seq<int>) {
    && |g.ops| == |g.opClusters|
    && forall i: nat, v | i < |g.ops| && v in g.ops[i].inputs && v in changed :: Seeded(g, steps, i)
  }

  lemma SeedsReachAll<D(!new)>(
      last: Program<D>, now: Program<D>, changed: set<ValueId>, steps: seq<int>, dirty: set<nat>)
    requires Follows(last, now, changed) && Closed(ClusterSuccs(now.g.clusters), dirty)
    requires SeedsCover(now.g, changed, steps)
    requires forall k | 0 <= k < |steps| && SeedOf(|now.g.clusters|, now.g.opClusters, steps[k]).Some? ::
               SeedOf(|now.g.clusters|, now.g.opClusters, steps[k]).value in dirty
    ensures NextFrame(last, now, changed, dirty)
  {
    EdgesAreInverse(now);
    hide Follows, ClusterSuccs, Seeded;
    var clusters := now.g.clusters;
    forall c: nat, d: nat | c < |clusters| && d < |clusters| && d in clusters[c].preds && d in dirty
      ensures c in dirty
    {
      assert c in clusters[d].succs;
      assert c in Succ(ClusterSuccs(clusters), d);
    }
    forall i: nat, v | i < |now.g.ops| && v in now.g.ops[i].inputs && v in changed
      ensures now.g.opClusters[i] in dirty
    {
      SeedIsDirty(now, steps, dirty, i);
    }
  }

  lemma SeedIsDirty<D(!new)>(p: Program<D>, steps: seq<int>, dirty: set<nat>, i: nat)
    requires ValidProgram(p) && i < |p.g.ops| && Seeded(p.g, steps, i)
    requires forall k | 0 <= k < |steps| && SeedOf(|p.g.clusters|, p.g.opClusters, steps[k]).Some? ::
               SeedOf(|p.g.clusters|, p.g.opClusters, steps[k]).value in dirty
    ensures p.g.opClusters[i] in dirty
  {
    hide ConflictsOrdered, Acyclic, ForwardEdges, ClusterEdges;
    var k :| 0 <= k < |steps| && 0 <= steps[k] < |p.g.ops| && p.g.opClusters[steps[k]] == p.g.opClusters[i];
    assert SeedOf(|p.g.clusters|, p.g.opClusters, steps[k]) == Some(p.g.opClusters[i]);
  }

  /** Re-evaluation from end to end: order the clusters, close their cones, unite
      those of the listed steps, and run only these clusters. If every reader of
      a changed input shares a cluster with a listed step, the slots are those
      of a full run. */
  method Reevaluate<D(!new)>(ghost last: Program<D>, now: Program<D>, ghost changed: set<ValueId>, steps: seq<int>)
    returns (store: Store<D>)
    requires Follows(last, now, changed) && SeedsCover(now.g, changed, steps)
    ensures store == InOrder(now, |now.g.ops|)
  {
    hide Ordered, Acyclic, InverseEdges, Stuck, Cone, OrderedCone, Dirty, Closed, ForwardEdges, Partition,
      ClusterEdges, ConflictsOrdered, InOrder, SeedsCover;
    EdgesAreInverse(now);
    var order := ClusterTopologicalOrder(now.g.clusters);
    CompleteIffAcyclic(now.g.clusters, order);
    var cones := BuildCones(now.g.clusters, order);
    var dirty := DirtyClusters(now.g.clusters, cones, now.g.opClusters, steps);
    DirtyIsClosed(now.g.clusters, now.g.opClusters, steps);
    SeedsReachAll(last, now, changed, steps, dirty.Members());
    ConeIsStartable(last, now, changed, dirty.Members());
    store := RerunCone(now, order, dirty);
  }
}
