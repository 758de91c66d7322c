/** What a build accepts is what a schedule needs: from the checks of
    `RigExecBakedValidateStepGraph` to runs that agree and cones that may stand
    for full runs. */
module BuiltPrograms {
  import opened Digraphs
  import opened OpGraph
  import opened TopologicalOrder
  import opened BakedRuns
  import opened ConeRuns
  import opened StepGraph
  import opened StepClusters
  import Executor

  /** The step graph and its clustering pass every check. */
  ghost predicate Accepted(steps: seq<Step>, d: Domains, all: Clustering) {
    EdgesValid(steps) && ProducersValid(steps, d) && ClustersValid(steps, all)
  }

  method ValidateStepGraph(steps: seq<Step>, d: Domains, all: Clustering) returns (ok: bool)
    requires DomainsInRange(steps, d)
    ensures ok <==> Accepted(steps, d, all)
  {
    hide EdgesValid, ProducersValid, ClustersValid;
    var edges := ValidateStepEdges(steps);
    var producers := ValidateSlotProducers(steps, d);
    var clusters := ValidateClusters(steps, all);
    ok := edges && producers && clusters;
  }

  // ---- Steps as a graph ----------------------------------------------------------------

  /** One name for each slot of each domain. */
  type SlotNames = (nat, nat) -> ValueId

  ghost predicate Injective(id: SlotNames) {
    forall a, b, c, e :: id(a, b) == id(c, e) ==> a == c && b == e
  }

  ghost predicate NamesRead(step: Step, id: SlotNames, v: ValueId) {
    exists domain: nat, slot: nat :: ReadsSlot(step, domain, slot) && id(domain, slot) == v
  }

  ghost predicate NamesWritten(step: Step, id: SlotNames, v: ValueId) {
    exists domain: nat, slot: nat :: WritesSlot(step, domain, slot) && id(domain, slot) == v
  }

  /** The graph has the steps, their edges and their slots, and the clusters. */
  ghost predicate Describes(g: Graph, steps: seq<Step>, all: Clustering, id: SlotNames) {
    && DescribesSteps(g, steps, id)
    && g.opClusters == all.clusterOf && |g.clusters| == |all.clusters|
    && forall c: nat | c < |g.clusters| ::
         && g.clusters[c].members == all.clusters[c].members
         && g.clusters[c].preds == all.clusters[c].preds
         && g.clusters[c].succs == all.clusters[c].succs
  }

  ghost predicate DescribesSteps(g: Graph, steps: seq<Step>, id: SlotNames) {
    && |g.ops| == |steps|
    && (forall i: nat | i < |g.ops| :: g.ops[i].preds == steps[i].preds && g.ops[i].succs == steps[i].succs)
    && (forall i: nat, v | i < |g.ops| :: v in g.ops[i].inputs <==> NamesRead(steps[i], id, v))
    && (forall i: nat, v | i < |g.ops| :: v in g.ops[i].outputs <==> NamesWritten(steps[i], id, v))
  }

  /** No step writes a slot the prologue fills. */
  ghost predicate SourcesUnwritten(steps: seq<Step>, d: Domains) {
    forall i: nat, domain: nat, slot: nat | i < |steps| && d.source(domain) :: !WritesSlot(steps[i], domain, slot)
  }

  // ---- What acceptance gives -----------------------------------------------------------

  lemma BuiltEdges(g: Graph, steps: seq<Step>, id: SlotNames)
    requires EdgesValid(steps) && DescribesSteps(g, steps, id)
    ensures ForwardEdges(g.ops)
  {
    hide NamesRead, NamesWritten;
  }

  lemma BuiltPartition(g: Graph, steps: seq<Step>, all: Clustering, id: SlotNames)
    requires ClustersValid(steps, all) && Describes(g, steps, all, id)
    ensures Partition(g)
  {
    hide NamesRead, NamesWritten, EdgesCovered, OrderOk;
    forall i: nat | i < |g.ops| ensures g.opClusters[i] < |g.clusters| && i in g.clusters[g.opClusters[i]].members {
      EveryStepIsMember(steps, all, i);
    }
    forall c: nat | c < |g.clusters| ensures OpGraph.StrictlyIncreasing(g.clusters[c].members) {
      assert ClusterOk(steps, all, c);
    }
    forall c: nat, i | c < |g.clusters| && i in g.clusters[c].members ensures MemberOf(g, c, i) {
      MembersMatch(steps, all, c, i);
    }
  }

  lemma BuiltClusterEdges(g: Graph, steps: seq<Step>, all: Clustering, id: SlotNames)
    requires EdgesValid(steps) && ClustersValid(steps, all) && Describes(g, steps, all, id) && Partition(g)
    ensures ClusterEdges(g)
  {
    hide NamesRead, NamesWritten, EdgesCovered, OrderOk, Partition;
    forall c: nat | c < |g.clusters|
      ensures OpGraph.StrictlyIncreasing(g.clusters[c].preds) && OpGraph.StrictlyIncreasing(g.clusters[c].succs)
    {
      assert ClusterOk(steps, all, c);
    }
    hide ClustersValid, EdgesValid;
    forall c: nat, d | c < |g.clusters| && d in g.clusters[c].preds ensures d < |g.clusters| {
      PredsMatch(steps, all, c, d);
    }
    forall c: nat, d | c < |g.clusters| && d in g.clusters[c].succs ensures d < |g.clusters| {
      SuccsMatch(steps, all, c, d);
    }
    forall c: nat, d: nat | c < |g.clusters| && d < |g.clusters|
      ensures d in g.clusters[c].preds <==> c in g.clusters[d].succs
    {
      if d in g.clusters[c].preds {
        PredsMatch(steps, all, c, d);
      }
      if c in g.clusters[d].succs {
        SuccsMatch(steps, all, d, c);
      }
    }
    forall i: nat, j | i < |g.ops| && j in g.ops[i].preds && j < |g.ops|
      ensures g.opClusters[j] == g.opClusters[i] || g.opClusters[j] in g.clusters[g.opClusters[i]].preds
    {
      StepEdgeIsClusterEdge(steps, all, i, j);
    }
  }

  /** The accepted order, as cluster indices. */
  ghost function OrderOf(all: Clustering): (order: seq<nat>)
    requires Names(all)
    ensures |order| == |all.order| && forall k | 0 <= k < |order| :: order[k] == all.order[k]
  {
    seq(|all.order|, k requires 0 <= k < |all.order| => all.order[k] as nat)
  }

  /** Each cluster stands in it, after its predecessors. */
  lemma BuiltOrder(g: Graph, steps: seq<Step>, all: Clustering, id: SlotNames)
    requires ClustersValid(steps, all) && Describes(g, steps, all, id) && InverseEdges(g.clusters)
    ensures Ordered(g.clusters, OrderOf(all)) && Acyclic(g.clusters)
    ensures forall c: nat | c < |g.clusters| :: c in OrderOf(all)
  {
    hide NamesRead, NamesWritten, EdgesCovered, DescribesSteps;
    var order := OrderOf(all);
    forall c: nat | c < |g.clusters| ensures c in order {
      NoneIsMissing(all.order, |g.clusters|, c);
      var k :| 0 <= k < |all.order| && all.order[k] == c;
      assert order[k] == c;
    }
    forall k, d | 0 <= k < |order| && d in g.clusters[order[k]].preds ensures d in order[..k] {
      PredsMatch(steps, all, order[k], d);
      PredStandsBefore(g, steps, all, order, k, d);
    }
    CompleteOrderIsAcyclic(g.clusters, order);
  }

  lemma PredStandsBefore(g: Graph, steps: seq<Step>, all: Clustering, order: seq<nat>, k: nat, d: nat)
    requires ClustersValid(steps, all) && order == OrderOf(all) && k < |order| && d in order
    requires d in all.clusters[order[k]].preds
    ensures d in order[..k]
  {
    hide EdgesCovered;
    var j :| 0 <= j < |order| && order[j] == d;
    assert all.order[j] in all.clusters[all.order[k]].preds;
    assert ClusterOk(steps, all, order[k]);
    var m :| 0 <= m < |all.clusters[order[k]].preds| && all.clusters[order[k]].preds[m] == d;
    assert PredClusterOk(all, order[k], all.clusters[order[k]].preds[m]);
    assert order[..k][j] == d;
  }

  /** Whatever reads a slot follows the one step that writes it, by an edge. */
  lemma ReaderHasEdge(
      g: Graph, steps: seq<Step>, d: Domains, id: SlotNames, w: nat, i: nat, v: ValueId)
    requires EdgesValid(steps) && ProducersValid(steps, d) && DescribesSteps(g, steps, id) && Injective(id)
    requires SourcesUnwritten(steps, d) && OneWriter(g) && Writes(g, w, v) && i < |g.ops| && v in g.ops[i].inputs
    ensures w < i && w in g.ops[i].preds
  {
    hide SortedContains, AllAdmitted;
    var domain: nat, slot: nat :| WritesSlot(steps[w], domain, slot) && id(domain, slot) == v;
    var readDomain: nat, readSlot: nat :| ReadsSlot(steps[i], readDomain, readSlot) && id(readDomain, readSlot) == v;
    assert readDomain == domain && readSlot == slot;
    assert ReadsProduced(steps, d, i);
    var k :| 0 <= k < |steps[i].read| && Covers(steps[i].read[k], domain, slot);
    assert RangeProduced(steps, d, i, steps[i].read[k]);
    assert Produced(steps, d, i, domain, slot);
    var writer := FirstWriter(steps, domain, slot, |steps|);
    assert 0 <= writer <= w;
    assert NamesWritten(steps[writer], id, v);
    assert Writes(g, writer, v);
    SortedContainsIsMembership(steps[i].preds, w);
  }

  lemma BuiltConflicts(g: Graph, steps: seq<Step>, d: Domains, id: SlotNames)
    requires EdgesValid(steps) && ProducersValid(steps, d) && DescribesSteps(g, steps, id) && Injective(id)
    requires SourcesUnwritten(steps, d) && OneWriter(g) && ForwardEdges(g.ops)
    ensures ConflictsOrdered(g) && ReadersFollow(g)
  {
    hide EdgesValid, ProducersValid, DescribesSteps, SourcesUnwritten, Reaches;
    forall w: nat, i: nat, u, v | Writes(g, w, v) && Writes(g, i, u) && v in g.ops[i].inputs ensures w < i {
      ReaderHasEdge(g, steps, d, id, w, i, v);
    }
    forall j: nat, i: nat | j < i < |g.ops| && Conflict(g, j, i) ensures Reaches(OpEdges(g.ops), j, i) {
      var v :| (Writes(g, j, v) && Touches(g, i, v)) || (Touches(g, j, v) && Writes(g, i, v));
      if Writes(g, j, v) && v in g.ops[i].inputs {
        ReaderHasEdge(g, steps, d, id, j, i, v);
        ReachesSelf(OpEdges(g.ops), j);
        SuccOfReached(OpEdges(g.ops), j, j, i);
      } else if Writes(g, i, v) && v in g.ops[j].inputs {
        ReaderHasEdge(g, steps, d, id, i, j, v);
      }
    }
  }

  /** What a build accepts is orderly: with one writer for each slot, and none for
      those the prologue fills, conflicting steps are ordered, readers follow
      their writers, the clusters partition the steps and cover their edges, and
      the stored order runs them. */
  lemma AcceptedIsOrderly(g: Graph, steps: seq<Step>, d: Domains, all: Clustering, id: SlotNames)
    requires Accepted(steps, d, all) && Describes(g, steps, all, id) && Injective(id)
    requires SourcesUnwritten(steps, d) && OneWriter(g)
    ensures Orderly(g) && ReadersFollow(g)
    ensures Names(all) && Ordered(g.clusters, OrderOf(all)) && forall c: nat | c < |g.clusters| :: c in OrderOf(all)
  {
    BuiltShape(g, steps, all, id);
    hide EdgesValid, ProducersValid, ClustersValid, SourcesUnwritten, OneWriter, ForwardEdges, Partition, ClusterEdges,
      Acyclic, ConflictsOrdered, ReadersFollow, InverseEdges, Ordered, DescribesSteps;
    BuiltEdges(g, steps, id);
    BuiltPartition(g, steps, all, id);
    BuiltClusterEdges(g, steps, all, id);
    ClusterEdgesAreInverse(g);
    BuiltOrder(g, steps, all, id);
    BuiltConflicts(g, steps, d, id);
  }

  lemma BuiltShape(g: Graph, steps: seq<Step>, all: Clustering, id: SlotNames)
    requires ClustersValid(steps, all) && Describes(g, steps, all, id)
    ensures DescribesSteps(g, steps, id) && Names(all)
  {}

  lemma ClusterEdgesAreInverse(g: Graph)
    requires Partition(g) && ClusterEdges(g)
    ensures InverseEdges(g.clusters)
  {
    hide Partition;
  }

  // ---- Re-evaluating a built program ---------------------------------------------------

  ghost predicate EffectsDeclared<D(!new)>(p: Program<D>) {
    forall i: nat, inputs | i < |p.g.ops| :: p.effect(i, inputs).Keys == Executor.OutputSet(p.g, i)
  }

  /** This frame's slots are the last frame's, with the changed ones written over. */
  ghost predicate Continues<D(!new)>(last: Program<D>, now: Program<D>, changed: set<ValueId>) {
    && now.g == last.g && now.effect == last.effect && EffectsDeclared(now)
    && (forall v <- changed :: Leaf(now.g.ops, v))
    && (forall v: ValueId | v !in changed :: Executor.SameAt(v, InOrder(last, |last.g.ops|), now.start))
  }

  /** A program the build accepts re-evaluates by cones: what is asked of readers
      elsewhere the checks have seen to. */
  method ReevaluateBuilt<D(!new)>(
      ghost steps: seq<Step>, ghost d: Domains, ghost all: Clustering, ghost id: SlotNames,
      ghost last: Program<D>, now: Program<D>, ghost changed: set<ValueId>, seeds: seq<int>)
    returns (store: Store<D>)
    requires Accepted(steps, d, all) && Describes(now.g, steps, all, id) && Injective(id)
    requires SourcesUnwritten(steps, d) && OneWriter(now.g)
    requires Continues(last, now, changed) && SeedsCover(now.g, changed, seeds)
    ensures store == InOrder(now, |now.g.ops|)
  {
    hide Accepted, Describes, Injective, SourcesUnwritten, OneWriter, Orderly, ReadersFollow, InOrder, SeedsCover;
    AcceptedIsOrderly(now.g, steps, d, all, id);
    store := Reevaluate(last, now, changed, seeds);
  }
}
