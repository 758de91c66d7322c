/** The compiled operation graph: operations in canonical order, the values
    they read and write, and their partition into clusters. */
module OpGraph {
  import opened Digraphs

  type ValueId = nat

  datatype Op = Op(
    inputs: seq<ValueId>,
    outputs: seq<ValueId>,
    preds: seq<nat>,
    succs: seq<nat>)

  datatype Cluster = Cluster(members: seq<nat>, preds: seq<nat>, succs: seq<nat>)

  datatype Graph = Graph(ops: seq<Op>, clusters: seq<Cluster>, opClusters: seq<nat>)

  ghost predicate StrictlyIncreasing(s: seq<nat>) {
    forall i, j | 0 <= i < j < |s| :: s[i] < s[j]
  }

  /** `preds` point backward, and `preds` and `succs` are sorted, free of
      duplicates and each other's inverse. */
  ghost predicate ForwardEdges(ops: seq<Op>) {
    && (forall i | 0 <= i < |ops| :: StrictlyIncreasing(ops[i].preds) && StrictlyIncreasing(ops[i].succs))
    && (forall i, j | 0 <= i < |ops| && j in ops[i].preds :: j < i)
    && (forall i, j | 0 <= i < |ops| && j in ops[i].succs :: j < |ops|)
    && (forall i, j | 0 <= i < |ops| && 0 <= j < |ops| :: j in ops[i].preds <==> i in ops[j].succs)
  }

  /** Every value has at most one producer, and whoever reads a produced value
      names its producer among its predecessors. */
  ghost predicate SingleProducers(ops: seq<Op>) {
    && (forall i, j, v | 0 <= i < |ops| && 0 <= j < |ops| && v in ops[i].outputs && v in ops[j].outputs :: i == j)
    && (forall i, j, v | 0 <= i < |ops| && 0 <= j < |ops| && v in ops[i].outputs && v in ops[j].inputs ::
          i in ops[j].preds)
  }

  /** No operation writes `v`: it is sampled, not computed. */
  ghost predicate Leaf(ops: seq<Op>, v: ValueId) {
    forall i | 0 <= i < |ops| :: v !in ops[i].outputs
  }

  ghost predicate MemberOf(g: Graph, c: nat, i: nat) {
    i < |g.ops| == |g.opClusters| && g.opClusters[i] == c
  }

  /** The clusters partition the operations, members in program order. */
  ghost predicate Partition(g: Graph) {
    && |g.opClusters| == |g.ops|
    && (forall i | 0 <= i < |g.ops| :: g.opClusters[i] < |g.clusters| && i in g.clusters[g.opClusters[i]].members)
    && (forall c | 0 <= c < |g.clusters| :: StrictlyIncreasing(g.clusters[c].members))
    && (forall c, i | 0 <= c < |g.clusters| && i in g.clusters[c].members :: MemberOf(g, c, i))
  }

  /** Cluster edges are mutual inverses and cover every operation edge that
      leaves a cluster. */
  ghost predicate ClusterEdges(g: Graph)
    requires Partition(g)
  {
    && (forall c | 0 <= c < |g.clusters| ::
          StrictlyIncreasing(g.clusters[c].preds) && StrictlyIncreasing(g.clusters[c].succs))
    && (forall c, d | 0 <= c < |g.clusters| && d in g.clusters[c].preds :: d < |g.clusters|)
    && (forall c, d | 0 <= c < |g.clusters| && d in g.clusters[c].succs :: d < |g.clusters|)
    && (forall c, d | 0 <= c < |g.clusters| && 0 <= d < |g.clusters| ::
          d in g.clusters[c].preds <==> c in g.clusters[d].succs)
    && (forall i, j | 0 <= i < |g.ops| && j in g.ops[i].preds && j < |g.ops| ::
          g.opClusters[j] == g.opClusters[i] || g.opClusters[j] in g.clusters[g.opClusters[i]].preds)
  }

  /** `rank` puts every cluster after its predecessors. */
  ghost predicate Ranks(clusters: seq<Cluster>, rank: seq<nat>) {
    && |rank| == |clusters|
    && forall c, d | 0 <= c < |clusters| && 0 <= d < |clusters| && d in clusters[c].preds :: rank[d] < rank[c]
  }

  ghost predicate Acyclic(clusters: seq<Cluster>) {
    exists rank :: Ranks(clusters, rank)
  }

  /** What an executor may trust of a graph it is handed. */
  ghost predicate Runnable(g: Graph) {
    && ForwardEdges(g.ops)
    && SingleProducers(g.ops)
    && Partition(g)
    && ClusterEdges(g)
    && Acyclic(g.clusters)
  }

  /** Operation edges as successor lists. */
  function OpEdges(ops: seq<Op>): (edges: Edges<nat>)
    ensures forall i: nat :: i in edges <==> i < |ops|
    ensures forall i: nat | i < |ops| :: edges[i] == ops[i].succs
  {
    if ops == [] then map[]
    else OpEdges(ops[..|ops| - 1])[|ops| - 1 := ops[|ops| - 1].succs]
  }

  function ClusterSuccs(clusters: seq<Cluster>): (edges: Edges<nat>)
    ensures forall c: nat :: c in edges <==> c < |clusters|
    ensures forall c: nat | c < |clusters| :: edges[c] == clusters[c].succs
  {
    if clusters == [] then map[]
    else ClusterSuccs(clusters[..|clusters| - 1])[|clusters| - 1 := clusters[|clusters| - 1].succs]
  }

  lemma MemberInRange(g: Graph, c: nat, k: nat)
    requires Partition(g) && c < |g.clusters| && k < |g.clusters[c].members|
    ensures g.clusters[c].members[k] < |g.ops| && g.opClusters[g.clusters[c].members[k]] == c
  {
    assert MemberOf(g, c, g.clusters[c].members[k]);
  }

  lemma RankStep(clusters: seq<Cluster>, rank: seq<nat>, d: nat, c: nat)
    requires Ranks(clusters, rank) && c < |clusters| && d < |clusters| && d in clusters[c].preds
    ensures rank[d] < rank[c]
  {}

  lemma SelfEdgeFree(g: Graph, c: nat)
    requires Acyclic(g.clusters) && c < |g.clusters|
    ensures c !in g.clusters[c].preds
  {
    var rank :| Ranks(g.clusters, rank);
    if c in g.clusters[c].preds {
      RankStep(g.clusters, rank, c, c);
    }
  }

  lemma NoDuplicates(s: seq<nat>, i: nat, j: nat)
    requires StrictlyIncreasing(s) && i < |s| && j < |s| && s[i] == s[j]
    ensures i == j
  {}
}
