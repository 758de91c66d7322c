/** The check a build makes of a clustering of its steps (`ValidateClusters`):
    a partition with members in program order, edges that match and cover the
    step edges, and an order that names every cluster after its predecessors. */
module StepClusters {
  import opened FiniteSets
  import opened StepGraph

  datatype StepCluster = StepCluster(members: seq<int>, preds: seq<int>, succs: seq<int>)

  datatype Clustering = Clustering(clusterOf: seq<int>, clusters: seq<StepCluster>, order: seq<int>)

  /** Every step names a cluster, the one the clustering puts it in. */
  ghost predicate Assigned(steps: seq<Step>, all: Clustering) {
    && |all.clusterOf| == |steps|
    && forall i | 0 <= i < |steps| :: 0 <= all.clusterOf[i] < |all.clusters| && steps[i].cluster == all.clusterOf[i]
  }

  predicate AssignedAt(steps: seq<Step>, all: Clustering, i: nat)
    requires i < |steps| == |all.clusterOf|
  {
    0 <= all.clusterOf[i] < |all.clusters| && steps[i].cluster == all.clusterOf[i]
  }

  predicate MemberOk(steps: seq<Step>, all: Clustering, c: nat, member: int)
    requires |all.clusterOf| == |steps|
  {
    0 <= member < |steps| && all.clusterOf[member] == c
  }

  predicate PredClusterOk(all: Clustering, c: nat, pred: int) {
    0 <= pred < |all.clusters| && pred != c && SortedContains(all.clusters[pred].succs, c)
  }

  predicate SuccClusterOk(all: Clustering, c: nat, succ: int) {
    0 <= succ < |all.clusters| && succ != c && SortedContains(all.clusters[succ].preds, c)
  }

  ghost predicate ClusterOk(steps: seq<Step>, all: Clustering, c: nat)
    requires c < |all.clusters| && |all.clusterOf| == |steps|
  {
    var cluster := all.clusters[c];
    && Increasing(cluster.members) && Increasing(cluster.preds) && Increasing(cluster.succs)
    && (forall k | 0 <= k < |cluster.members| :: MemberOk(steps, all, c, cluster.members[k]))
    && (forall k | 0 <= k < |cluster.preds| :: PredClusterOk(all, c, cluster.preds[k]))
    && (forall k | 0 <= k < |cluster.succs| :: SuccClusterOk(all, c, cluster.succs[k]))
  }

  /** How many members the first `n` clusters have. */
  function Total(clusters: seq<StepCluster>, n: nat): nat
    requires n <= |clusters|
  {
    if n == 0 then 0 else Total(clusters, n - 1) + |clusters[n - 1].members|
  }

  /** An edge from another cluster is an edge between the clusters. */
  predicate EdgeCovered(steps: seq<Step>, all: Clustering, i: nat, pred: int)
    requires i < |steps| && Assigned(steps, all)
  {
    0 <= pred < |steps| ==>
      var from, to := all.clusterOf[pred], all.clusterOf[i];
      from == to || SortedContains(all.clusters[to].preds, from)
  }

  ghost predicate EdgesCovered(steps: seq<Step>, all: Clustering, i: nat)
    requires i < |steps| && Assigned(steps, all)
  {
    forall k | 0 <= k < |steps[i].preds| :: EdgeCovered(steps, all, i, steps[i].preds[k])
  }

  /** The order names clusters, each once. */
  ghost predicate Names(all: Clustering) {
    && (forall k | 0 <= k < |all.order| :: 0 <= all.order[k] < |all.clusters|)
    && (forall j, k | 0 <= j < k < |all.order| :: all.order[j] != all.order[k])
  }

  /** It names every cluster, none before a predecessor. */
  ghost predicate OrderOk(all: Clustering) {
    && Names(all) && |all.order| == |all.clusters|
    && forall j, k | 0 <= j < |all.order| && 0 <= k < |all.order|
                     && all.order[j] in all.clusters[all.order[k]].preds :: j <= k
  }

  ghost predicate ClustersValid(steps: seq<Step>, all: Clustering) {
    && Assigned(steps, all)
    && (forall c: nat | c < |all.clusters| :: ClusterOk(steps, all, c))
    && Total(all.clusters, |all.clusters|) == |steps|
    && (forall i: nat | i < |steps| :: EdgesCovered(steps, all, i))
    && OrderOk(all)
  }

  // ---- The check -----------------------------------------------------------------------

  method CheckAssigned(steps: seq<Step>, all: Clustering) returns (ok: bool)
    ensures ok <==> Assigned(steps, all)
  {
    if |all.clusterOf| != |steps| {
      return false;
    }
    for i := 0 to |steps|
      invariant forall j | 0 <= j < i :: 0 <= all.clusterOf[j] < |all.clusters| && steps[j].cluster == all.clusterOf[j]
    {
      if !AssignedAt(steps, all, i) {
        return false;
      }
    }
    return true;
  }

  method CheckCluster(steps: seq<Step>, all: Clustering, c: nat) returns (ok: bool)
    requires c < |all.clusters| && |all.clusterOf| == |steps|
    ensures ok <==> ClusterOk(steps, all, c)
  {
    hide SortedContains, Increasing, MemberOk, PredClusterOk, SuccClusterOk;
    var cluster := all.clusters[c];
    var members, preds, succs := cluster.members, cluster.preds, cluster.succs;
    ok := SortedUnique(members);
    for k := 0 to |members|
      invariant ok <==> Increasing(members) && forall j | 0 <= j < k :: MemberOk(steps, all, c, members[j])
    {
      ok := ok && MemberOk(steps, all, c, members[k]);
    }
    ghost var membersOk := ok;
    var predsSorted := SortedUnique(preds);
    var succsSorted := SortedUnique(succs);
    if !predsSorted || !succsSorted {
      return false;
    }
    for k := 0 to |preds|
      invariant ok <==> membersOk && forall j | 0 <= j < k :: PredClusterOk(all, c, preds[j])
    {
      ok := ok && PredClusterOk(all, c, preds[k]);
    }
    ghost var predsOk := ok;
    for k := 0 to |succs|
      invariant ok <==> predsOk && forall j | 0 <= j < k :: SuccClusterOk(all, c, succs[j])
    {
      ok := ok && SuccClusterOk(all, c, succs[k]);
    }
  }

  method CheckCovered(steps: seq<Step>, all: Clustering) returns (ok: bool)
    requires Assigned(steps, all)
    ensures ok <==> forall i: nat | i < |steps| :: EdgesCovered(steps, all, i)
  {
    hide SortedContains, EdgeCovered;
    ok := true;
    for i := 0 to |steps|
      invariant ok <==> forall j: nat | j < i :: EdgesCovered(steps, all, j)
    {
      var covered := true;
      for k := 0 to |steps[i].preds|
        invariant covered <==> forall j | 0 <= j < k :: EdgeCovered(steps, all, i, steps[i].preds[j])
      {
        covered := covered && EdgeCovered(steps, all, i, steps[i].preds[k]);
      }
      assert covered <==> EdgesCovered(steps, all, i);
      ok := ok && covered;
    }
  }

  /** Where each cluster stands among the first `k` of the order; -1 for nowhere. */
  ghost predicate Positions(all: Clustering, position: seq<int>, k: nat)
    requires k <= |all.order|
  {
    && |position| == |all.clusters|
    && (forall c | 0 <= c < |position| && position[c] >= 0 :: position[c] < k && all.order[position[c]] == c)
    && (forall j | 0 <= j < k :: 0 <= all.order[j] < |position| && position[all.order[j]] == j)
    && (forall c | 0 <= c < |position| && position[c] < 0 :: position[c] == -1)
  }

  method FindPositions(all: Clustering) returns (ok: bool, position: seq<int>)
    ensures ok <==> Names(all)
    ensures ok ==> Positions(all, position, |all.order|)
  {
    position := seq(|all.clusters|, _ => -1);
    for k := 0 to |all.order|
      invariant Positions(all, position, k)
    {
      var c := all.order[k];
      if c < 0 || c >= |all.clusters| || position[c] >= 0 {
        return false, position;
      }
      position := position[c := k];
    }
    return true, position;
  }

  method CheckOrder(all: Clustering) returns (ok: bool)
    ensures ok <==> OrderOk(all)
  {
    hide Names;
    var named, position := FindPositions(all);
    if !named || |all.order| != |all.clusters| {
      return false;
    }
    EveryPositionIsFilled(all, position);
    ok := true;
    for c := 0 to |all.clusters|
      invariant ok <==> forall d: nat | d < c :: PredsFirst(all, position, d)
    {
      var preds := all.clusters[c].preds;
      var first := true;
      for k := 0 to |preds|
        invariant first <==> forall j | 0 <= j < k :: NotAfter(position, preds[j], c)
      {
        first := first && NotAfter(position, preds[k], c);
      }
      assert first <==> PredsFirst(all, position, c);
      ok := ok && first;
    }
    OrderByPositions(all, position);
  }

  predicate NotAfter(position: seq<int>, pred: int, c: nat)
    requires c < |position|
  {
    0 <= pred < |position| ==> position[pred] <= position[c]
  }

  ghost predicate PredsFirst(all: Clustering, position: seq<int>, c: nat)
    requires c < |all.clusters| == |position|
  {
    forall k | 0 <= k < |all.clusters[c].preds| :: NotAfter(position, all.clusters[c].preds[k], c)
  }

  lemma NamesAreDistinct(all: Clustering)
    requires Names(all)
    ensures forall j, k | 0 <= j < k < |all.order| :: all.order[j] != all.order[k]
    ensures forall k | 0 <= k < |all.order| :: 0 <= all.order[k] < |all.clusters|
  {}

  /** As many names as clusters name them all. */
  lemma EveryPositionIsFilled(all: Clustering, position: seq<int>)
    requires Names(all) && |all.order| == |all.clusters| && Positions(all, position, |all.order|)
    ensures forall c: nat | c < |all.clusters| :: 0 <= position[c] < |all.order| && all.order[position[c]] == c
  {
    forall c: nat | c < |all.clusters| ensures position[c] >= 0 {
      if position[c] < 0 {
        NoneIsMissing(all.order, |all.clusters|, c);
      }
    }
  }

  ghost function Integers(n: nat): (s: set<int>)
    ensures forall c :: c in s <==> 0 <= c < n
    ensures |s| == n
  {
    if n == 0 then {} else Integers(n - 1) + {n - 1}
  }

  lemma OrderByPositions(all: Clustering, position: seq<int>)
    requires Names(all) && |all.order| == |all.clusters| && Positions(all, position, |all.order|)
    requires forall c: nat | c < |all.clusters| :: 0 <= position[c] < |all.order| && all.order[position[c]] == c
    ensures (forall c: nat | c < |all.clusters| :: PredsFirst(all, position, c)) <==> OrderOk(all)
  {
    NamesAreDistinct(all);
    if forall c: nat | c < |all.clusters| :: PredsFirst(all, position, c) {
      forall j, k | 0 <= j < |all.order| && 0 <= k < |all.order| && all.order[j] in all.clusters[all.order[k]].preds
        ensures j <= k
      {
        var c := all.order[k];
        var m :| 0 <= m < |all.clusters[c].preds| && all.clusters[c].preds[m] == all.order[j];
        assert PredsFirst(all, position, c) && NotAfter(position, all.clusters[c].preds[m], c);
      }
    }
    if OrderOk(all) {
      forall c: nat | c < |all.clusters| ensures PredsFirst(all, position, c) {
        forall m | 0 <= m < |all.clusters[c].preds| ensures NotAfter(position, all.clusters[c].preds[m], c) {
          var pred := all.clusters[c].preds[m];
          if 0 <= pred < |position| {
            assert all.order[position[pred]] in all.clusters[all.order[position[c]]].preds;
          }
        }
      }
    }
  }

  /** Accepts exactly the valid clusterings. */
  method ValidateClusters(steps: seq<Step>, all: Clustering) returns (ok: bool)
    ensures ok <==> ClustersValid(steps, all)
  {
    hide ClusterOk, EdgesCovered, OrderOk;
    ok := CheckAssigned(steps, all);
    if !ok {
      return;
    }
    var members := 0;
    for c := 0 to |all.clusters|
      invariant members == Total(all.clusters, c)
      invariant ok <==> forall d: nat | d < c :: ClusterOk(steps, all, d)
    {
      members := members + |all.clusters[c].members|;
      var cluster := CheckCluster(steps, all, c);
      ok := ok && cluster;
    }
    var covered := CheckCovered(steps, all);
    var order := CheckOrder(all);
    ok := ok && members == |steps| && covered && order;
  }

  // ---- What an accepted clustering promises --------------------------------------------

  /** The members of the first `n` clusters, one cluster after another: no step
      occurs twice. */
  lemma {:induction false} MembersApart(steps: seq<Step>, all: Clustering, n: nat) returns (members: seq<int>)
    requires Assigned(steps, all) && n <= |all.clusters|
    requires forall c: nat | c < |all.clusters| :: ClusterOk(steps, all, c)
    ensures |members| == Total(all.clusters, n)
    ensures forall j, k | 0 <= j < k < |members| :: members[j] != members[k]
    ensures forall m <- members ::
              0 <= m < |steps| && 0 <= all.clusterOf[m] < n && m in all.clusters[all.clusterOf[m]].members
    ensures forall c, m | 0 <= c < n && m in all.clusters[c].members :: m in members
  {
    hide SortedContains, PredClusterOk, SuccClusterOk;
    if n == 0 {
      members := [];
    } else {
      var before := MembersApart(steps, all, n - 1);
      var last := all.clusters[n - 1].members;
      assert ClusterOk(steps, all, n - 1);
      forall m <- last ensures 0 <= m < |steps| && all.clusterOf[m] == n - 1 {
        var k :| 0 <= k < |last| && last[k] == m;
        assert MemberOk(steps, all, n - 1, last[k]);
      }
      members := before + last;
      forall j, k | 0 <= j < k < |members| ensures members[j] != members[k] {
        assert j < |before| ==> members[j] in before;
        assert k >= |before| ==> members[k] in last;
      }
    }
  }

  /** Every step is a member of its cluster: there are as many members as steps,
      and no step is a member twice. */
  lemma EveryStepIsMember(steps: seq<Step>, all: Clustering, i: nat)
    requires ClustersValid(steps, all) && i < |steps|
    ensures 0 <= all.clusterOf[i] < |all.clusters| && i in all.clusters[all.clusterOf[i]].members
  {
    hide ClusterOk, EdgesCovered, OrderOk;
    var members := MembersApart(steps, all, |all.clusters|);
    if i !in members {
      NoneIsMissing(members, |steps|, i);
    }
  }

  lemma NoneIsMissing(members: seq<int>, n: nat, i: nat)
    requires forall j, k | 0 <= j < k < |members| :: members[j] != members[k]
    requires |members| == n && i < n && forall m <- members :: 0 <= m < n
    ensures i in members
  {
    if i !in members {
      DistinctCount(members);
      forall x | x in Elements(members) ensures x in Integers(n) - {i} {}
      SubsetIsNoLarger(Elements(members), Integers(n) - {i});
    }
  }

  lemma MembersMatch(steps: seq<Step>, all: Clustering, c: nat, i: int)
    requires ClustersValid(steps, all) && c < |all.clusters| && i in all.clusters[c].members
    ensures 0 <= i < |steps| && all.clusterOf[i] == c
  {
    hide EdgesCovered, OrderOk, SortedContains;
    assert ClusterOk(steps, all, c);
    var k :| 0 <= k < |all.clusters[c].members| && all.clusters[c].members[k] == i;
    assert MemberOk(steps, all, c, all.clusters[c].members[k]);
  }

  lemma PredsMatch(steps: seq<Step>, all: Clustering, c: nat, d: int)
    requires ClustersValid(steps, all) && c < |all.clusters| && d in all.clusters[c].preds
    ensures 0 <= d < |all.clusters| && c in all.clusters[d].succs
  {
    hide EdgesCovered, OrderOk, SortedContains;
    assert ClusterOk(steps, all, c);
    var k :| 0 <= k < |all.clusters[c].preds| && all.clusters[c].preds[k] == d;
    assert PredClusterOk(all, c, all.clusters[c].preds[k]);
    assert ClusterOk(steps, all, d);
    SortedContainsIsMembership(all.clusters[d].succs, c);
  }

  lemma SuccsMatch(steps: seq<Step>, all: Clustering, c: nat, d: int)
    requires ClustersValid(steps, all) && c < |all.clusters| && d in all.clusters[c].succs
    ensures 0 <= d < |all.clusters| && c in all.clusters[d].preds
  {
    hide EdgesCovered, OrderOk, SortedContains;
    assert ClusterOk(steps, all, c);
    var k :| 0 <= k < |all.clusters[c].succs| && all.clusters[c].succs[k] == d;
    assert SuccClusterOk(all, c, all.clusters[c].succs[k]);
    assert ClusterOk(steps, all, d);
    SortedContainsIsMembership(all.clusters[d].preds, c);
  }

  lemma StepEdgeIsClusterEdge(steps: seq<Step>, all: Clustering, i: nat, j: int)
    requires ClustersValid(steps, all) && i < |steps| && j in steps[i].preds && 0 <= j < |steps|
    ensures 0 <= all.clusterOf[i] < |all.clusters|
    ensures all.clusterOf[j] == all.clusterOf[i] || all.clusterOf[j] in all.clusters[all.clusterOf[i]].preds
  {
    hide OrderOk, SortedContains;
    assert EdgesCovered(steps, all, i);
    var k :| 0 <= k < |steps[i].preds| && steps[i].preds[k] == j;
    assert EdgeCovered(steps, all, i, steps[i].preds[k]);
    var to := all.clusterOf[i];
    assert ClusterOk(steps, all, to);
    SortedContainsIsMembership(all.clusters[to].preds, all.clusterOf[j]);
  }
}
