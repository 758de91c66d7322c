/** The order in which clusters are listed, each after its predecessors
    (`RigExecBakedClusterTopologicalOrder`), and what is missing from it when the
    cluster graph has a cycle. */
module TopologicalOrder {
  import opened FiniteSets
  import opened Digraphs
  import opened OpGraph

  /** Cluster edges are in range, sorted and each other's inverse. */
  ghost predicate InverseEdges(clusters: seq<Cluster>) {
    && (forall c | 0 <= c < |clusters| ::
          StrictlyIncreasing(clusters[c].preds) && StrictlyIncreasing(clusters[c].succs))
    && (forall c, d | 0 <= c < |clusters| && d in clusters[c].preds :: d < |clusters|)
    && (forall c, d | 0 <= c < |clusters| && d in clusters[c].succs :: d < |clusters|)
    && (forall c, d | 0 <= c < |clusters| && 0 <= d < |clusters| ::
          d in clusters[c].preds <==> c in clusters[d].succs)
  }

  ghost function Unplaced(clusters: seq<Cluster>, placed: set<nat>, c: nat): set<nat>
    requires c < |clusters|
  {
    set p | p in clusters[c].preds && p !in placed
  }

  /** Distinct clusters, each after all of its predecessors. */
  ghost predicate Ordered(clusters: seq<Cluster>, order: seq<nat>) {
    && (forall k | 0 <= k < |order| :: order[k] < |clusters|)
    && (forall j, k | 0 <= j < k < |order| :: order[j] != order[k])
    && (forall k, p | 0 <= k < |order| && order[k] < |clusters| && p in clusters[order[k]].preds :: p in order[..k])
  }

  /** `c` lies on a cycle of successor edges. */
  ghost predicate OnCycle(clusters: seq<Cluster>, c: nat) {
    exists next :: next in Succ(ClusterSuccs(clusters), c) && Reaches(ClusterSuccs(clusters), next, c)
  }

  /** `c` is on a cycle or downstream of one. */
  ghost predicate Stuck(clusters: seq<Cluster>, c: nat) {
    exists d: nat :: d < |clusters| && OnCycle(clusters, d) && Reaches(ClusterSuccs(clusters), d, c)
  }

  // ---- Why the missing clusters are missing ------------------------------------------------

  /** What precedes an ordered cluster is ordered before it. */
  lemma {:induction false} ReachedBackIsEarlier(clusters: seq<Cluster>, order: seq<nat>, p: seq<nat>, k: nat)
    requires InverseEdges(clusters) && Ordered(clusters, order) && k < |order|
    requires IsPath(ClusterSuccs(clusters), p) && p[|p| - 1] == order[k] && p[0] < |clusters|
    ensures exists j :: 0 <= j <= k && order[j] == p[0] && (|p| > 1 ==> j < k)
  {
    if |p| > 1 {
      var q := p[..|p| - 1];
      var last := q[|q| - 1];
      assert order[k] == p[|p| - 1] && p[|p| - 1] in Succ(ClusterSuccs(clusters), last);
      assert last in clusters[order[k]].preds;
      var j :| 0 <= j < |order[..k]| && order[..k][j] == last;
      ReachedBackIsEarlier(clusters, order, q, j);
    }
  }

  lemma OrderedIsNotStuck(clusters: seq<Cluster>, order: seq<nat>, k: nat)
    requires InverseEdges(clusters) && Ordered(clusters, order) && k < |order|
    ensures !Stuck(clusters, order[k])
  {
    var edges := ClusterSuccs(clusters);
    if Stuck(clusters, order[k]) {
      var d: nat :| d < |clusters| && OnCycle(clusters, d) && Reaches(edges, d, order[k]);
      var p :| IsPath(edges, p) && p[0] == d && p[|p| - 1] == order[k];
      ReachedBackIsEarlier(clusters, order, p, k);
      var j :| 0 <= j <= k && order[j] == d;
      var next :| next in Succ(edges, d) && Reaches(edges, next, d);
      var q :| IsPath(edges, q) && q[0] == next && q[|q| - 1] == d;
      CycleThroughOrdered(clusters, order, j, q);
    }
  }

  /** No cycle goes through an ordered cluster: it would precede itself. */
  lemma CycleThroughOrdered(clusters: seq<Cluster>, order: seq<nat>, j: nat, q: seq<nat>)
    requires InverseEdges(clusters) && Ordered(clusters, order) && j < |order|
    requires IsPath(ClusterSuccs(clusters), q) && q[|q| - 1] == order[j]
    ensures q[0] !in Succ(ClusterSuccs(clusters), order[j])
  {
    if q[0] in Succ(ClusterSuccs(clusters), order[j]) {
      var p := [order[j]] + q;
      forall i | 0 <= i < |p| - 1 ensures p[i + 1] in Succ(ClusterSuccs(clusters), p[i]) {
        if i > 0 {
          assert p[i] == q[i - 1] && p[i + 1] == q[i];
        }
      }
      ReachedBackIsEarlier(clusters, order, p, j);
    }
  }

  /** The members of `s` that reach `c` along at least one edge. */
  ghost function Ancestors(clusters: seq<Cluster>, s: set<nat>, c: nat): set<nat> {
    set a | a in s && StrictlyReaches(clusters, a, c)
  }

  ghost predicate StrictlyReaches(clusters: seq<Cluster>, a: nat, c: nat) {
    exists next :: next in Succ(ClusterSuccs(clusters), a) && Reaches(ClusterSuccs(clusters), next, c)
  }

  lemma StrictThenReaches(clusters: seq<Cluster>, a: nat, b: nat, c: nat)
    requires StrictlyReaches(clusters, a, b) && Reaches(ClusterSuccs(clusters), b, c)
    ensures StrictlyReaches(clusters, a, c) && Reaches(ClusterSuccs(clusters), a, c)
  {
    var edges := ClusterSuccs(clusters);
    var next :| next in Succ(edges, a) && Reaches(edges, next, b);
    ReachesTransitive(edges, next, b, c);
    ReachesBySucc(edges, a, next, c);
  }

  ghost predicate HasPredIn(clusters: seq<Cluster>, s: set<nat>, c: nat) {
    c < |clusters| && exists p :: p in clusters[c].preds && p in s
  }

  lemma PredReaches(clusters: seq<Cluster>, p: nat, c: nat)
    requires InverseEdges(clusters) && c < |clusters| && p in clusters[c].preds
    ensures StrictlyReaches(clusters, p, c) && Reaches(ClusterSuccs(clusters), p, c)
  {
    var edges := ClusterSuccs(clusters);
    assert c in Succ(edges, p);
    ReachesSelf(edges, c);
    assert StrictlyReaches(clusters, p, c);
    StrictThenReaches(clusters, p, c, c);
  }

  lemma FewerAncestors(clusters: seq<Cluster>, s: set<nat>, p: nat, c: nat)
    requires p in s && StrictlyReaches(clusters, p, c) && Reaches(ClusterSuccs(clusters), p, c)
    requires !StrictlyReaches(clusters, p, p)
    ensures |Ancestors(clusters, s, p)| < |Ancestors(clusters, s, c)|
  {
    forall a | a in Ancestors(clusters, s, p) ensures a in Ancestors(clusters, s, c) {
      StrictThenReaches(clusters, a, p, c);
    }
    SmallerSet(Ancestors(clusters, s, p), Ancestors(clusters, s, c), p);
  }

  lemma StuckDownstream(clusters: seq<Cluster>, p: nat, c: nat)
    requires Stuck(clusters, p) && Reaches(ClusterSuccs(clusters), p, c)
    ensures Stuck(clusters, c)
  {
    var d: nat :| d < |clusters| && OnCycle(clusters, d) && Reaches(ClusterSuccs(clusters), d, p);
    ReachesTransitive(ClusterSuccs(clusters), d, p, c);
  }

  /** Where every member has a predecessor among the members, walking backward
      shrinks the ancestors until it finds a cycle. */
  lemma {:induction false} BackwardWalkFindsCycle(clusters: seq<Cluster>, s: set<nat>, c: nat)
    requires InverseEdges(clusters) && c in s && forall d <- s :: HasPredIn(clusters, s, d)
    ensures Stuck(clusters, c)
    decreases |Ancestors(clusters, s, c)|
  {
    assert HasPredIn(clusters, s, c);
    var p :| p in clusters[c].preds && p in s;
    assert HasPredIn(clusters, s, p);
    PredReaches(clusters, p, c);
    if StrictlyReaches(clusters, p, p) {
      assert OnCycle(clusters, p);
    } else {
      FewerAncestors(clusters, s, p, c);
      BackwardWalkFindsCycle(clusters, s, p);
      StuckDownstream(clusters, p, c);
    }
  }

  lemma SmallerSet(a: set<nat>, b: set<nat>, x: nat)
    requires a <= b && x in b && x !in a
    ensures |a| < |b|
  {
    assert b == a + (b - a) && x in b - a;
  }

  // ---- The algorithm -------------------------------------------------------------------------

  /** Between clusters: placed clusters are ordered, the counts are of unplaced
      predecessors, and the ready clusters are those with none. */
  ghost predicate Counting(clusters: seq<Cluster>, remaining: seq<int>, ready: seq<nat>, order: seq<nat>) {
    && |remaining| == |clusters|
    && Ordered(clusters, order)
    && (forall c: nat | c < |clusters| :: remaining[c] == |Unplaced(clusters, Elements(order), c)|)
    && ReadyIs(clusters, remaining, ready, order)
  }

  ghost predicate ReadyIs(clusters: seq<Cluster>, remaining: seq<int>, ready: seq<nat>, order: seq<nat>) {
    && |remaining| == |clusters|
    && (forall k | 0 <= k < |ready| :: ready[k] < |clusters| && ready[k] !in order && remaining[ready[k]] == 0)
    && (forall j, k | 0 <= j < k < |ready| :: ready[j] != ready[k])
    && (forall c: nat | c < |clusters| && c !in order && remaining[c] == 0 :: c in ready)
  }

  /** While the placed cluster's successors from `k` on are still to be counted down. */
  ghost predicate CountingDown(
      clusters: seq<Cluster>, remaining: seq<int>, ready: seq<nat>, order: seq<nat>, succs: seq<nat>, k: nat)
  {
    && |remaining| == |clusters| && k <= |succs|
    && (forall c: nat | c < |clusters| ::
          remaining[c] == |Unplaced(clusters, Elements(order), c)| + if c in succs[k..] then 1 else 0)
    && ReadyIs(clusters, remaining, ready, order)
  }

  lemma PlaceOrdered(clusters: seq<Cluster>, order: seq<nat>, c: nat)
    requires Ordered(clusters, order) && c < |clusters| && c !in order
    requires Unplaced(clusters, Elements(order), c) == {}
    ensures Ordered(clusters, order + [c])
  {
    var after := order + [c];
    forall k, p | 0 <= k < |after| && p in clusters[after[k]].preds ensures p in after[..k] {
      if k == |order| {
        assert after[k] == c && p !in Unplaced(clusters, Elements(order), c);
        assert after[..k] == order;
      } else {
        assert after[..k] == order[..k];
      }
    }
  }

  /** Placing `c` uncounts it at exactly its successors. */
  lemma PlaceCounts(clusters: seq<Cluster>, order: seq<nat>, c: nat, d: nat)
    requires InverseEdges(clusters) && c < |clusters| && d < |clusters| && c !in order
    ensures |Unplaced(clusters, Elements(order), d)|
         == |Unplaced(clusters, Elements(order + [c]), d)| + if d in clusters[c].succs then 1 else 0
  {
    var before := Unplaced(clusters, Elements(order), d);
    var after := Unplaced(clusters, Elements(order + [c]), d);
    assert Elements(order + [c]) == Elements(order) + {c};
    if d in clusters[c].succs {
      assert c in before;
      assert after == before - {c};
    } else {
      assert after == before;
    }
  }

  lemma PlaceNext(clusters: seq<Cluster>, remaining: seq<int>, ready: seq<nat>, order: seq<nat>)
    requires InverseEdges(clusters) && Counting(clusters, remaining, ready, order) && |ready| > 0
    ensures var c := ready[|ready| - 1];
            && c < |clusters|
            && Ordered(clusters, order + [c])
            && CountingDown(clusters, remaining, ready[..|ready| - 1], order + [c], clusters[c].succs, 0)
  {
    hide Unplaced, InverseEdges, Ordered, Elements;
    var c := ready[|ready| - 1];
    assert |Unplaced(clusters, Elements(order), c)| == 0;
    PlaceOrdered(clusters, order, c);
    var succs := clusters[c].succs;
    assert succs[0..] == succs;
    forall d: nat | d < |clusters|
      ensures remaining[d] == |Unplaced(clusters, Elements(order + [c]), d)| + if d in succs[0..] then 1 else 0
    {
      PlaceCounts(clusters, order, c, d);
    }
    var rest := ready[..|ready| - 1];
    forall d: nat | d < |clusters| && d !in order + [c] && remaining[d] == 0 ensures d in rest {
      var j :| 0 <= j < |ready| && ready[j] == d;
      assert rest[j] == d;
    }
  }

  lemma CountDown(
      clusters: seq<Cluster>, remaining: seq<int>, ready: seq<nat>, order: seq<nat>, succs: seq<nat>, k: nat)
    requires CountingDown(clusters, remaining, ready, order, succs, k) && k < |succs|
    requires StrictlyIncreasing(succs) && succs[k] < |clusters| && succs[k] !in order
    ensures var next := succs[k];
            var left := remaining[next] - 1;
            var queue := if left == 0 then ready + [next] else ready;
            CountingDown(clusters, remaining[next := left], queue, order, succs, k + 1)
  {
    hide Unplaced, Elements, ReadyIs, StrictlyIncreasing;
    NextToCount(succs, k);
    assert |remaining| == |clusters|;
    CountedReady(clusters, remaining, ready, order, succs[k], remaining[succs[k]] - 1);
  }

  lemma CountedReady(
      clusters: seq<Cluster>, remaining: seq<int>, ready: seq<nat>, order: seq<nat>, next: nat, left: int)
    requires ReadyIs(clusters, remaining, ready, order) && next < |clusters| && next !in order
    requires left == remaining[next] - 1 && remaining[next] > 0
    ensures ReadyIs(clusters, remaining[next := left], if left == 0 then ready + [next] else ready, order)
  {
    assert next !in ready;
  }

  lemma NextToCount(succs: seq<nat>, k: nat)
    requires k < |succs| && StrictlyIncreasing(succs)
    ensures forall c: nat :: c in succs[k..] <==> c == succs[k] || c in succs[k + 1..]
    ensures succs[k] !in succs[k + 1..]
  {
    assert succs[k..] == [succs[k]] + succs[k + 1..];
    assert forall j | k < j < |succs| :: succs[k] < succs[j];
  }

  /** Every cluster that is neither on a cycle nor downstream of one, exactly
      once, each after all of its predecessors. */
  method ClusterTopologicalOrder(clusters: seq<Cluster>) returns (order: seq<nat>)
    requires InverseEdges(clusters)
    ensures Ordered(clusters, order)
    ensures forall c: nat | c < |clusters| :: c in order <==> !Stuck(clusters, c)
  {
    var remaining := seq(|clusters|, c requires 0 <= c < |clusters| => |clusters[c].preds|);
    order := [];
    var ready: seq<nat> := [];
    forall c: nat | c < |clusters| ensures remaining[c] == |Unplaced(clusters, {}, c)| {
      DistinctCount(clusters[c].preds);
      assert Unplaced(clusters, {}, c) == Elements(clusters[c].preds);
    }
    for c := 0 to |clusters|
      invariant forall k | 0 <= k < |ready| :: ready[k] < c && remaining[ready[k]] == 0
      invariant forall j, k | 0 <= j < k < |ready| :: ready[j] != ready[k]
      invariant forall d: nat | d < c && remaining[d] == 0 :: d in ready
    {
      if remaining[c] == 0 {
        ready := ready + [c];
      }
    }
    assert Elements(order) == {};
    while |ready| > 0
      invariant Counting(clusters, remaining, ready, order)
      decreases |clusters| - |order|
    {
      PlaceNext(clusters, remaining, ready, order);
      var cluster := ready[|ready| - 1];
      ready := ready[..|ready| - 1];
      order := order + [cluster];
      var succs := clusters[cluster].succs;
      OrderShort(clusters, order);
      for k := 0 to |succs|
        invariant CountingDown(clusters, remaining, ready, order, succs, k)
      {
        assert succs[k] in succs;
        LaterIsUnplaced(clusters, order, succs[k]);
        CountDown(clusters, remaining, ready, order, succs, k);
        var left := remaining[succs[k]] - 1;
        remaining := remaining[succs[k] := left];
        if left == 0 {
          ready := ready + [succs[k]];
        }
      }
    }
    assert ready == [];
    Complete(clusters, remaining, order);
  }

  lemma OrderShort(clusters: seq<Cluster>, order: seq<nat>)
    requires Ordered(clusters, order)
    ensures |order| <= |clusters|
  {
    DistinctBounded(order, |clusters|);
  }

  /** A successor of the cluster just placed cannot have been placed before it. */
  lemma LaterIsUnplaced(clusters: seq<Cluster>, order: seq<nat>, next: nat)
    requires InverseEdges(clusters) && Ordered(clusters, order) && |order| > 0 && next < |clusters|
    requires next in clusters[order[|order| - 1]].succs
    ensures next !in order
  {
    var last := order[|order| - 1];
    assert last in clusters[next].preds;
    forall k | 0 <= k < |order| ensures order[k] != next {}
  }

  lemma Complete(clusters: seq<Cluster>, remaining: seq<int>, order: seq<nat>)
    requires InverseEdges(clusters) && Counting(clusters, remaining, [], order)
    ensures forall c: nat | c < |clusters| :: c in order <==> !Stuck(clusters, c)
  {
    var missing := set c | c in Naturals(|clusters|) && c !in order;
    forall c <- missing ensures HasPredIn(clusters, missing, c) {
      assert remaining[c] != 0;
      var p :| p in Unplaced(clusters, Elements(order), c);
      assert p in missing;
    }
    hide Counting, HasPredIn, Stuck;
    forall c: nat | c < |clusters| ensures c in order <==> !Stuck(clusters, c) {
      if c in order {
        var k :| 0 <= k < |order| && order[k] == c;
        OrderedIsNotStuck(clusters, order, k);
      } else {
        assert c in missing;
        BackwardWalkFindsCycle(clusters, missing, c);
      }
    }
  }

  // ---- Completeness and acyclicity -------------------------------------------------------------

  /** An ordering of every cluster ranks the graph, so an executor can trust it. */
  lemma CompleteOrderIsAcyclic(clusters: seq<Cluster>, order: seq<nat>)
    requires InverseEdges(clusters) && Ordered(clusters, order) && forall c: nat | c < |clusters| :: c in order
    ensures Acyclic(clusters)
  {
    var rank := seq(|clusters|, c requires 0 <= c < |clusters| => Position(order, c));
    forall c: nat, d: nat | c < |clusters| && d < |clusters| && d in clusters[c].preds ensures rank[d] < rank[c] {
      var k := Position(order, c);
      assert d in order[..k];
      var j :| 0 <= j < |order[..k]| && order[..k][j] == d;
      assert order[Position(order, d)] == order[j];
    }
    assert Ranks(clusters, rank);
  }

  ghost function Position(order: seq<nat>, c: nat): (k: nat)
    ensures c in order ==> k < |order| && order[k] == c
  {
    if exists k :: 0 <= k < |order| && order[k] == c then
      var k: nat :| k < |order| && order[k] == c; k
    else 0
  }

  /** A ranked graph has no cycle. */
  lemma AcyclicIsNotStuck(clusters: seq<Cluster>, c: nat)
    requires InverseEdges(clusters) && Acyclic(clusters)
    ensures !Stuck(clusters, c)
  {
    var edges := ClusterSuccs(clusters);
    if Stuck(clusters, c) {
      var rank :| Ranks(clusters, rank);
      var d: nat :| d < |clusters| && OnCycle(clusters, d);
      var next :| next in Succ(edges, d) && Reaches(edges, next, d);
      var p :| IsPath(edges, p) && p[0] == next && p[|p| - 1] == d;
      assert d in clusters[next].preds;
      RanksAlong(clusters, rank, p);
    }
  }

  lemma {:induction false} RanksAlong(clusters: seq<Cluster>, rank: seq<nat>, p: seq<nat>)
    requires InverseEdges(clusters) && Ranks(clusters, rank) && IsPath(ClusterSuccs(clusters), p) && p[0] < |clusters|
    ensures p[|p| - 1] < |clusters| && rank[p[0]] <= rank[p[|p| - 1]]
  {
    if |p| > 1 {
      assert p[1] in clusters[p[0]].succs;
      assert p[0] in clusters[p[1]].preds;
      RanksAlong(clusters, rank, p[1..]);
    }
  }

  /** The order names every cluster exactly when the cluster graph is acyclic. */
  lemma CompleteIffAcyclic(clusters: seq<Cluster>, order: seq<nat>)
    requires InverseEdges(clusters) && Ordered(clusters, order)
    requires forall c: nat | c < |clusters| :: c in order <==> !Stuck(clusters, c)
    ensures (forall c: nat | c < |clusters| :: c in order) <==> Acyclic(clusters)
  {
    if forall c: nat | c < |clusters| :: c in order {
      CompleteOrderIsAcyclic(clusters, order);
    }
    if Acyclic(clusters) {
      forall c: nat | c < |clusters| ensures c in order {
        AcyclicIsNotStuck(clusters, c);
      }
    }
  }
}
