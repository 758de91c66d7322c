/** Each cluster's cone, everything its output can reach, closed with bitset
    unions in one backward pass over the topological order. */
module Cones {
  import opened FiniteSets
  import opened Digraphs
  import opened OpGraph
  import opened TopologicalOrder
  import opened ClusterSets

  /** The clusters `c` reaches, itself included. */
  ghost function Cone(clusters: seq<Cluster>, c: nat): set<nat> {
    set d | d in Naturals(|clusters|) && Reaches(ClusterSuccs(clusters), c, d)
  }

  /** Of those, the ones the order names. */
  ghost function OrderedCone(clusters: seq<Cluster>, order: seq<nat>, c: nat): set<nat> {
    set d | d in Cone(clusters, c) && d in order
  }

  /** What reaches an ordered cluster is ordered itself. */
  lemma ReachingIsOrdered(clusters: seq<Cluster>, order: seq<nat>, c: nat, d: nat)
    requires InverseEdges(clusters) && Ordered(clusters, order) && c < |clusters|
    requires d in OrderedCone(clusters, order, c)
    ensures c in order
  {
    var p :| IsPath(ClusterSuccs(clusters), p) && p[0] == c && p[|p| - 1] == d;
    var k :| 0 <= k < |order| && order[k] == d;
    ReachedBackIsEarlier(clusters, order, p, k);
  }

  lemma CompleteCone(clusters: seq<Cluster>, order: seq<nat>, c: nat)
    requires forall d: nat | d < |clusters| :: d in order
    ensures OrderedCone(clusters, order, c) == Cone(clusters, c)
  {
    hide Reaches;
  }

  /** A cone is the cluster and its successors' cones. */
  ghost function SuccessorCones(clusters: seq<Cluster>, order: seq<nat>, c: nat, k: nat): set<nat>
    requires c < |clusters| && k <= |clusters[c].succs|
  {
    if k == 0 then {c}
    else SuccessorCones(clusters, order, c, k - 1) + OrderedCone(clusters, order, clusters[c].succs[k - 1])
  }

  lemma {:induction false} SuccessorConesHold(clusters: seq<Cluster>, order: seq<nat>, c: nat, k: nat, d: nat)
    requires c < |clusters| && k <= |clusters[c].succs|
    ensures d in SuccessorCones(clusters, order, c, k) <==>
      d == c || exists j :: 0 <= j < k && d in OrderedCone(clusters, order, clusters[c].succs[j])
  {
    hide OrderedCone;
    if k > 0 {
      SuccessorConesHold(clusters, order, c, k - 1, d);
    }
  }

  lemma ConeUnfolds(clusters: seq<Cluster>, order: seq<nat>, c: nat)
    requires InverseEdges(clusters) && c < |clusters| && c in order
    ensures OrderedCone(clusters, order, c) == SuccessorCones(clusters, order, c, |clusters[c].succs|)
  {
    hide SuccessorCones, Reaches;
    var edges, succs := ClusterSuccs(clusters), clusters[c].succs;
    forall d: nat
      ensures d in OrderedCone(clusters, order, c) <==> d in SuccessorCones(clusters, order, c, |succs|)
    {
      SuccessorConesHold(clusters, order, c, |succs|, d);
      ReachesSelf(edges, c);
      if d in OrderedCone(clusters, order, c) && d != c {
        var next := ReachesFirstStep(edges, c, d);
        var j :| 0 <= j < |succs| && succs[j] == next;
        assert d in OrderedCone(clusters, order, succs[j]);
      }
      if j :| 0 <= j < |succs| && d in OrderedCone(clusters, order, succs[j]) {
        assert succs[j] in Succ(edges, c);
        ReachesBySucc(edges, c, succs[j], d);
      }
    }
  }

  ghost predicate Distinct(sets: seq<ClusterSet>) {
    forall i, j | 0 <= i < j < |sets| :: sets[i] != sets[j]
  }

  /** The sets' widths and contents: cones for the clusters in `order[k..]`,
      nothing yet for the others. */
  ghost predicate ClosedFrom(clusters: seq<Cluster>, order: seq<nat>, sets: seq<ClusterSet>, k: nat)
    requires k <= |order|
    reads set s | s in sets
  {
    && |sets| == |clusters|
    && (forall c: nat | c < |clusters| ::
          |sets[c].words| == (|clusters| + 63) / 64
          && sets[c].Members() == if c in order[k..] then OrderedCone(clusters, order, c) else {})
  }

  method EmptySets(n: nat) returns (sets: seq<ClusterSet>)
    ensures |sets| == n && Distinct(sets) && forall s <- sets :: fresh(s)
    ensures forall c: nat | c < n :: |sets[c].words| == (n + 63) / 64 && sets[c].Members() == {}
  {
    sets := [];
    for c := 0 to n
      invariant |sets| == c && Distinct(sets) && forall s <- sets :: fresh(s)
      invariant forall d: nat | d < c :: |sets[d].words| == (n + 63) / 64 && sets[d].Members() == {}
    {
      var s := new ClusterSet();
      s.Resize(n);
      sets := sets + [s];
    }
  }

  /** Those of the successors of the cluster at `k` that are in the order come
      later, and it does not. */
  lemma SuccessorsAreClosed(clusters: seq<Cluster>, order: seq<nat>, k: nat)
    requires InverseEdges(clusters) && Ordered(clusters, order) && k < |order|
    ensures forall c: nat | c != order[k] :: c in order[k..] <==> c in order[k + 1..]
    ensures order[k] in order[k..] && order[k] !in order[k + 1..]
    ensures forall j | 0 <= j < |clusters[order[k]].succs| ::
              var next := clusters[order[k]].succs[j];
              next < |clusters| && next != order[k] && (next in order ==> next in order[k + 1..])
  {
    var succs := clusters[order[k]].succs;
    assert order[k..] == [order[k]] + order[k + 1..];
    forall j | 0 <= j < |succs|
      ensures succs[j] < |clusters| && succs[j] != order[k] && (succs[j] in order ==> succs[j] in order[k + 1..])
    {
      var next := succs[j];
      assert next in succs && next < |clusters|;
      assert order[k] in clusters[next].preds;
      if next in order {
        var m :| 0 <= m < |order| && order[m] == next;
        assert order[k] in order[..m];
        assert order[k + 1..][m - (k + 1)] == next;
      }
    }
  }

  /** A successor's set holds its cone already, or has no ordered cluster to hold. */
  lemma NextIsClosed(clusters: seq<Cluster>, order: seq<nat>, sets: seq<ClusterSet>, k: nat, next: nat)
    requires InverseEdges(clusters) && Ordered(clusters, order) && k <= |order| && next < |clusters|
    requires ClosedFrom(clusters, order, sets, k) && (next in order ==> next in order[k..])
    ensures sets[next].Members() == OrderedCone(clusters, order, next)
  {
    hide OrderedCone, InverseEdges, Ordered;
    if next !in order {
      forall d | d in OrderedCone(clusters, order, next) ensures false {
        ReachingIsOrdered(clusters, order, next, d);
      }
    }
  }

  /** Closes one cluster over its successors, which are closed already. */
  method CloseCluster(clusters: seq<Cluster>, ghost order: seq<nat>, sets: seq<ClusterSet>, ghost k: nat, cluster: nat)
    requires InverseEdges(clusters) && Ordered(clusters, order) && Distinct(sets)
    requires 0 < k <= |order| && order[k - 1] == cluster < |clusters|
    requires ClosedFrom(clusters, order, sets, k)
    modifies sets[cluster]
    ensures ClosedFrom(clusters, order, sets, k - 1)
  {
    hide OrderedCone, InverseEdges, Ordered, MembersOf;
    var cone, succs := sets[cluster], clusters[cluster].succs;
    ghost var width := |cone.words|;
    SuccessorsAreClosed(clusters, order, k - 1);
    forall j | 0 <= j < |succs| ensures sets[succs[j]].Members() == OrderedCone(clusters, order, succs[j]) {
      NextIsClosed(clusters, order, sets, k, succs[j]);
    }
    assert forall c: nat | c < |clusters| && c != cluster :: sets[c] != cone;
    cone.Set(cluster);
    var j := 0;
    while j < |succs|
      invariant 0 <= j <= |succs|
      invariant cone.Members() == SuccessorCones(clusters, order, cluster, j) && |cone.words| == width
      invariant forall c: nat | c < |clusters| && c != cluster :: sets[c].words == old(sets[c].words)
    {
      ghost var next := succs[j];
      assert next < |clusters| && next != cluster;
      assert old(sets[next].Members()) == OrderedCone(clusters, order, next);
      var grew := cone.Union(sets[succs[j]]);
      j := j + 1;
    }
    ConeUnfolds(clusters, order, cluster);
    forall c: nat | c < |clusters| && c != cluster
      ensures |sets[c].words| == width
      ensures sets[c].Members() == if c in order[k - 1..] then OrderedCone(clusters, order, c) else {}
    {
      assert sets[c].Members() == old(sets[c].Members());
    }
  }

  /** The cones of every cluster: after the backward pass each bitset holds
      exactly the clusters its cluster reaches, of those the order names. In an
      acyclic graph it names them all. */
  method BuildCones(clusters: seq<Cluster>, order: seq<nat>) returns (cones: seq<ClusterSet>)
    requires InverseEdges(clusters) && Ordered(clusters, order)
    ensures |cones| == |clusters|
    ensures forall c: nat | c < |clusters| ::
              && |cones[c].words| == (|clusters| + 63) / 64
              && cones[c].Members() == OrderedCone(clusters, order, c)
    ensures (forall c: nat | c < |clusters| :: c in order) ==>
              forall c: nat | c < |clusters| :: cones[c].Members() == Cone(clusters, c)
  {
    hide OrderedCone;
    cones := EmptySets(|clusters|);
    var k := |order|;
    while k > 0
      invariant 0 <= k <= |order| && Distinct(cones) && forall s <- cones :: fresh(s)
      invariant ClosedFrom(clusters, order, cones, k)
    {
      assert cones[order[k - 1]] in cones;
      CloseCluster(clusters, order, cones, k, order[k - 1]);
      k := k - 1;
    }
    assert order[0..] == order;
    forall c: nat | c < |clusters| ensures cones[c].Members() == OrderedCone(clusters, order, c) {
      NextIsClosed(clusters, order, cones, 0, c);
    }
    if forall c: nat | c < |clusters| :: c in order {
      forall c: nat | c < |clusters| ensures cones[c].Members() == Cone(clusters, c) {
        CompleteCone(clusters, order, c);
      }
    }
  }
}
