/** What the checks of a build accept, rule by rule. */
module BuildRules {
  import opened FiniteSets
  import opened StepGraph
  import opened StepClusters

  // ---- Producers -----------------------------------------------------------------------

  ghost predicate Reads(steps: seq<Step>, i: nat, domain: nat, slot: nat) {
    i < |steps| && exists k :: 0 <= k < |steps[i].read| && HoldsSlot(steps[i].read[k], domain, slot)
  }

  ghost predicate Writes(steps: seq<Step>, i: nat, domain: nat, slot: nat) {
    i < |steps| && exists k :: 0 <= k < |steps[i].write| && HoldsSlot(steps[i].write[k], domain, slot)
  }

  ghost predicate HoldsSlot(r: SlotRange, domain: nat, slot: nat) {
    r.domain == domain && r.begin <= slot && slot < r.end
  }

  /** Step `w` writes the slot, and no step before it does. */
  ghost predicate WritesFirst(steps: seq<Step>, w: nat, domain: nat, slot: nat) {
    Writes(steps, w, domain, slot) && forall j: nat | j < w :: !Writes(steps, j, domain, slot)
  }

  /** The retired domain is named nowhere, and the one that admits stage frames is
      read as its one slot and written by nothing. */
  ghost predicate NamesAdmitted(steps: seq<Step>, d: Domains) {
    && (forall i: nat, k | i < |steps| && 0 <= k < |steps[i].read| ::
          && steps[i].read[k].domain != d.retired
          && (steps[i].read[k].domain == d.admission ==> steps[i].read[k].begin == 0 && steps[i].read[k].end == 1))
    && (forall i: nat, k | i < |steps| && 0 <= k < |steps[i].write| ::
          steps[i].write[k].domain != d.retired && steps[i].write[k].domain != d.admission)
  }

  /** What step `i` reads there comes from the first step to write it, an earlier
      one that is among its predecessors; or no step writes it and it is seeded. */
  ghost predicate HasSource(steps: seq<Step>, d: Domains, i: nat, domain: nat, slot: nat)
    requires i < |steps|
  {
    || (exists w: nat :: w < i && w in steps[i].preds && WritesFirst(steps, w, domain, slot))
    || (d.seeded(domain, slot) && forall w: nat :: !Writes(steps, w, domain, slot))
  }

  ghost predicate ReadsHaveSources(steps: seq<Step>, d: Domains) {
    forall i: nat, domain: nat, slot: nat | Reads(steps, i, domain, slot) && !d.source(domain) ::
      HasSource(steps, d, i, domain, slot)
  }

  lemma WritesMeaning(steps: seq<Step>, i: nat, domain: nat, slot: nat)
    ensures Writes(steps, i, domain, slot) <==> i < |steps| && WritesSlot(steps[i], domain, slot)
  {
    if i < |steps| {
      assert forall k | 0 <= k < |steps[i].write| ::
        HoldsSlot(steps[i].write[k], domain, slot) <==> Covers(steps[i].write[k], domain, slot);
    }
  }

  lemma FirstWriterWrites(steps: seq<Step>, domain: nat, slot: nat, w: nat)
    ensures WritesFirst(steps, w, domain, slot) <==> FirstWriter(steps, domain, slot, |steps|) == w
    ensures FirstWriter(steps, domain, slot, |steps|) < 0 <==> forall j: nat :: !Writes(steps, j, domain, slot)
  {
    hide Writes, WritesSlot, FirstWriter;
    var first := FirstWriter(steps, domain, slot, |steps|);
    forall j: nat ensures Writes(steps, j, domain, slot) <==> j < |steps| && WritesSlot(steps[j], domain, slot) {
      WritesMeaning(steps, j, domain, slot);
    }
    if first >= 0 {
      assert Writes(steps, first, domain, slot);
    }
  }

  lemma ProducedMeaning(steps: seq<Step>, d: Domains, i: nat, domain: nat, slot: nat)
    requires EdgesValid(steps) && i < |steps|
    ensures Produced(steps, d, i, domain, slot) <==> HasSource(steps, d, i, domain, slot)
  {
    hide WritesFirst, Writes, FirstWriter, SortedContains, Increasing;
    var first := FirstWriter(steps, domain, slot, |steps|);
    forall w: nat ensures WritesFirst(steps, w, domain, slot) <==> first == w {
      FirstWriterWrites(steps, domain, slot, w);
    }
    FirstWriterWrites(steps, domain, slot, 0);
    SortedContainsIsMembership(steps[i].preds, first);
  }

  lemma RangeMeaning(steps: seq<Step>, d: Domains, i: nat, r: SlotRange)
    requires EdgesValid(steps) && i < |steps|
    ensures RangeProduced(steps, d, i, r) <==>
              d.source(r.domain) || forall slot: nat | HoldsSlot(r, r.domain, slot) ::
                HasSource(steps, d, i, r.domain, slot)
  {
    hide Produced, HasSource, EdgesValid;
    forall slot: nat ensures Produced(steps, d, i, r.domain, slot) <==> HasSource(steps, d, i, r.domain, slot) {
      ProducedMeaning(steps, d, i, r.domain, slot);
    }
  }

  lemma AdmittedMeaning(steps: seq<Step>, d: Domains)
    ensures (forall i: nat | i < |steps| ::
               AllAdmitted(steps[i].read, d, false) && AllAdmitted(steps[i].write, d, true))
            <==> NamesAdmitted(steps, d)
  {
    if NamesAdmitted(steps, d) {
      forall i: nat | i < |steps|
        ensures AllAdmitted(steps[i].read, d, false) && AllAdmitted(steps[i].write, d, true)
      {}
    }
    if forall i: nat | i < |steps| :: AllAdmitted(steps[i].read, d, false) && AllAdmitted(steps[i].write, d, true) {
      forall i: nat, k | i < |steps| && 0 <= k < |steps[i].read|
        ensures steps[i].read[k].domain != d.retired
        ensures steps[i].read[k].domain == d.admission ==> steps[i].read[k].begin == 0 && steps[i].read[k].end == 1
      {
        assert Admitted(steps[i].read[k], d, false);
      }
      forall i: nat, k | i < |steps| && 0 <= k < |steps[i].write|
        ensures steps[i].write[k].domain != d.retired && steps[i].write[k].domain != d.admission
      {
        assert Admitted(steps[i].write[k], d, true);
      }
    }
  }

  lemma ReadsMeaning(steps: seq<Step>, d: Domains)
    requires EdgesValid(steps)
    ensures (forall i: nat | i < |steps| :: ReadsProduced(steps, d, i)) <==> ReadsHaveSources(steps, d)
  {
    hide HasSource, RangeProduced, EdgesValid;
    forall i: nat, k | i < |steps| && 0 <= k < |steps[i].read|
      ensures RangeProduced(steps, d, i, steps[i].read[k]) <==>
                d.source(steps[i].read[k].domain)
                || forall slot: nat | HoldsSlot(steps[i].read[k], steps[i].read[k].domain, slot) ::
                  HasSource(steps, d, i, steps[i].read[k].domain, slot)
    {
      RangeMeaning(steps, d, i, steps[i].read[k]);
    }
    if ReadsHaveSources(steps, d) {
      forall i: nat | i < |steps| ensures ReadsProduced(steps, d, i) {
        forall k | 0 <= k < |steps[i].read| ensures RangeProduced(steps, d, i, steps[i].read[k]) {
          var r := steps[i].read[k];
          forall slot: nat | HoldsSlot(r, r.domain, slot) && !d.source(r.domain)
            ensures HasSource(steps, d, i, r.domain, slot)
          {
            assert Reads(steps, i, r.domain, slot);
          }
        }
      }
    }
    if forall i: nat | i < |steps| :: ReadsProduced(steps, d, i) {
      forall i: nat, domain: nat, slot: nat | Reads(steps, i, domain, slot) && !d.source(domain)
        ensures HasSource(steps, d, i, domain, slot)
      {
        var k :| 0 <= k < |steps[i].read| && HoldsSlot(steps[i].read[k], domain, slot);
        assert ReadsProduced(steps, d, i);
        assert RangeProduced(steps, d, i, steps[i].read[k]);
      }
    }
  }

  /** With its edges in order a step graph passes the producer check exactly if it
      names what it may and every slot read has its source. */
  lemma ProducersMeaning(steps: seq<Step>, d: Domains)
    requires EdgesValid(steps)
    ensures ProducersValid(steps, d) <==> NamesAdmitted(steps, d) && ReadsHaveSources(steps, d)
  {
    AdmittedMeaning(steps, d);
    ReadsMeaning(steps, d);
    hide NamesAdmitted, ReadsHaveSources, AllAdmitted, ReadsProduced, EdgesValid;
  }

  // ---- Clusters ------------------------------------------------------------------------

  /** Each step in the one cluster it names, members in program order. */
  ghost predicate Partitions(steps: seq<Step>, all: Clustering) {
    && |all.clusterOf| == |steps|
    && (forall i | 0 <= i < |steps| :: 0 <= all.clusterOf[i] < |all.clusters| && steps[i].cluster == all.clusterOf[i])
    && (forall c | 0 <= c < |all.clusters| :: Increasing(all.clusters[c].members))
    && (forall c, i | 0 <= c < |all.clusters| ::
          i in all.clusters[c].members <==> PutIn(all, c, i))
  }

  ghost predicate PutIn(all: Clustering, c: int, i: int) {
    0 <= i < |all.clusterOf| && all.clusterOf[i] == c
  }

  /** Sorted lists of other clusters, predecessors and successors of each other. */
  ghost predicate EdgesMatch(all: Clustering) {
    && (forall c | 0 <= c < |all.clusters| ::
          Increasing(all.clusters[c].preds) && Increasing(all.clusters[c].succs))
    && (forall c, d | 0 <= c < |all.clusters| && d in all.clusters[c].preds :: 0 <= d < |all.clusters| && d != c)
    && (forall c, d | 0 <= c < |all.clusters| && d in all.clusters[c].succs :: 0 <= d < |all.clusters| && d != c)
    && (forall c, d | 0 <= c < |all.clusters| && 0 <= d < |all.clusters| ::
          d in all.clusters[c].preds <==> c in all.clusters[d].succs)
  }

  /** A step edge that leaves a cluster is an edge between the clusters. */
  ghost predicate EdgesCover(steps: seq<Step>, all: Clustering)
    requires Partitions(steps, all)
  {
    forall i: nat, j: nat | i < |steps| && j < |steps| && j in steps[i].preds ::
      || all.clusterOf[j] == all.clusterOf[i]
      || all.clusterOf[j] in all.clusters[all.clusterOf[i]].preds
  }

  /** Every cluster once, each after its predecessors. */
  ghost predicate OrderLists(all: Clustering) {
    && (forall k | 0 <= k < |all.order| :: 0 <= all.order[k] < |all.clusters|)
    && (forall j, k | 0 <= j < k < |all.order| :: all.order[j] != all.order[k])
    && (forall c | 0 <= c < |all.clusters| :: c in all.order)
    && (forall j, k | 0 <= j < |all.order| && 0 <= k < |all.order|
                      && all.order[j] in all.clusters[all.order[k]].preds :: j < k)
  }

  lemma AcceptedIsSound(steps: seq<Step>, all: Clustering)
    requires ClustersValid(steps, all)
    ensures Partitions(steps, all) && EdgesMatch(all) && EdgesCover(steps, all) && OrderLists(all)
  {
    hide ClusterOk, EdgesCovered, SortedContains, Increasing, OrderOk;
    forall c, i | 0 <= c < |all.clusters| ensures i in all.clusters[c].members <==> PutIn(all, c, i) {
      if i in all.clusters[c].members {
        MembersMatch(steps, all, c, i);
      } else if 0 <= i < |steps| {
        EveryStepIsMember(steps, all, i);
      }
    }
    forall c: nat | c < |all.clusters| ensures Increasing(all.clusters[c].members) {
      assert ClusterOk(steps, all, c);
      IncreasingParts(steps, all, c);
    }
    AcceptedEdgesMatch(steps, all);
    forall i: nat, j: nat | i < |steps| && j < |steps| && j in steps[i].preds
      ensures all.clusterOf[j] == all.clusterOf[i] || all.clusterOf[j] in all.clusters[all.clusterOf[i]].preds
    {
      StepEdgeIsClusterEdge(steps, all, i, j);
    }
    AcceptedOrder(all);
  }

  lemma IncreasingParts(steps: seq<Step>, all: Clustering, c: nat)
    requires c < |all.clusters| && |all.clusterOf| == |steps| && ClusterOk(steps, all, c)
    ensures Increasing(all.clusters[c].members) && Increasing(all.clusters[c].preds)
    ensures Increasing(all.clusters[c].succs)
    ensures forall d | d in all.clusters[c].preds || d in all.clusters[c].succs :: d != c
  {
    hide Increasing, SortedContains;
    forall d | d in all.clusters[c].preds ensures d != c {
      var k :| 0 <= k < |all.clusters[c].preds| && all.clusters[c].preds[k] == d;
      assert PredClusterOk(all, c, all.clusters[c].preds[k]);
    }
    forall d | d in all.clusters[c].succs ensures d != c {
      var k :| 0 <= k < |all.clusters[c].succs| && all.clusters[c].succs[k] == d;
      assert SuccClusterOk(all, c, all.clusters[c].succs[k]);
    }
  }

  lemma AcceptedEdgesMatch(steps: seq<Step>, all: Clustering)
    requires ClustersValid(steps, all)
    ensures EdgesMatch(all)
  {
    hide ClusterOk, EdgesCovered, SortedContains, Increasing, OrderOk;
    forall c | 0 <= c < |all.clusters| ensures Increasing(all.clusters[c].preds) && Increasing(all.clusters[c].succs) {
      assert ClusterOk(steps, all, c);
      IncreasingParts(steps, all, c);
    }
    forall c, d | 0 <= c < |all.clusters| && d in all.clusters[c].preds ensures 0 <= d < |all.clusters| && d != c {
      assert ClusterOk(steps, all, c);
      IncreasingParts(steps, all, c);
      PredsMatch(steps, all, c, d);
    }
    forall c, d | 0 <= c < |all.clusters| && d in all.clusters[c].succs ensures 0 <= d < |all.clusters| && d != c {
      assert ClusterOk(steps, all, c);
      IncreasingParts(steps, all, c);
      SuccsMatch(steps, all, c, d);
    }
    forall c, d | 0 <= c < |all.clusters| && 0 <= d < |all.clusters|
      ensures d in all.clusters[c].preds <==> c in all.clusters[d].succs
    {
      if d in all.clusters[c].preds {
        PredsMatch(steps, all, c, d);
      }
      if c in all.clusters[d].succs {
        SuccsMatch(steps, all, d, c);
      }
    }
  }

  lemma AcceptedOrder(all: Clustering)
    requires OrderOk(all) && EdgesMatch(all)
    ensures OrderLists(all)
  {
    hide Increasing;
    forall c: nat | c < |all.clusters| ensures c in all.order {
      forall m <- all.order ensures 0 <= m < |all.clusters| {
        var k :| 0 <= k < |all.order| && all.order[k] == m;
      }
      NoneIsMissing(all.order, |all.clusters|, c);
    }
  }

  lemma SoundIsAccepted(steps: seq<Step>, all: Clustering)
    requires Partitions(steps, all) && EdgesMatch(all) && EdgesCover(steps, all) && OrderLists(all)
    ensures ClustersValid(steps, all)
  {
    hide Increasing, SortedContains, OrderLists, ClusterOk, EdgesCovered;
    forall c: nat | c < |all.clusters| ensures ClusterOk(steps, all, c) {
      SoundCluster(steps, all, c);
    }
    assert Assigned(steps, all);
    var members := MembersApart(steps, all, |all.clusters|);
    forall i | 0 <= i < |steps| ensures i in members {
      assert PutIn(all, all.clusterOf[i], i);
    }
    AllAreMembers(steps, all, members);
    forall i: nat | i < |steps| ensures EdgesCovered(steps, all, i) {
      SoundEdges(steps, all, i);
    }
    SoundOrder(all);
  }

  lemma SoundCluster(steps: seq<Step>, all: Clustering, c: nat)
    requires Partitions(steps, all) && EdgesMatch(all) && c < |all.clusters|
    ensures ClusterOk(steps, all, c)
  {
    hide Increasing, SortedContains;
    var cluster := all.clusters[c];
    forall k | 0 <= k < |cluster.members| ensures MemberOk(steps, all, c, cluster.members[k]) {
      var m := cluster.members[k];
      assert m in all.clusters[c].members;
      assert PutIn(all, c, m);
    }
    forall k | 0 <= k < |cluster.preds| ensures PredClusterOk(all, c, cluster.preds[k]) {
      assert cluster.preds[k] in cluster.preds;
      SortedContainsIsMembership(all.clusters[cluster.preds[k]].succs, c);
    }
    forall k | 0 <= k < |cluster.succs| ensures SuccClusterOk(all, c, cluster.succs[k]) {
      assert cluster.succs[k] in cluster.succs;
      SortedContainsIsMembership(all.clusters[cluster.succs[k]].preds, c);
    }
  }

  lemma AllAreMembers(steps: seq<Step>, all: Clustering, members: seq<int>)
    requires Partitions(steps, all) && |members| == Total(all.clusters, |all.clusters|)
    requires forall j, k | 0 <= j < k < |members| :: members[j] != members[k]
    requires forall m <- members :: 0 <= m < |steps|
    requires forall i | 0 <= i < |steps| :: i in members
    ensures Total(all.clusters, |all.clusters|) == |steps|
  {
    hide Partitions, Total;
    DistinctCount(members);
    assert Elements(members) == Integers(|steps|);
  }

  lemma SoundEdges(steps: seq<Step>, all: Clustering, i: nat)
    requires Partitions(steps, all) && EdgesMatch(all) && EdgesCover(steps, all) && i < |steps|
    requires Assigned(steps, all)
    ensures EdgesCovered(steps, all, i)
  {
    hide Increasing, SortedContains;
    forall k | 0 <= k < |steps[i].preds| ensures EdgeCovered(steps, all, i, steps[i].preds[k]) {
      var j := steps[i].preds[k];
      assert j in steps[i].preds;
      if 0 <= j < |steps| {
        SortedContainsIsMembership(all.clusters[all.clusterOf[i]].preds, all.clusterOf[j]);
      }
    }
  }

  lemma SoundOrder(all: Clustering)
    requires OrderLists(all)
    ensures OrderOk(all)
  {
    DistinctCount(all.order);
    assert Elements(all.order) == Integers(|all.clusters|);
  }

  /** A clustering is accepted exactly if it partitions the steps, its edges match
      each other and cover the steps', and its order lists every cluster after its
      predecessors. */
  lemma ClusteringMeaning(steps: seq<Step>, all: Clustering)
    ensures ClustersValid(steps, all) <==>
              Partitions(steps, all) && EdgesMatch(all) && EdgesCover(steps, all) && OrderLists(all)
  {
    hide ClustersValid, Partitions, EdgesMatch, EdgesCover, OrderLists;
    if ClustersValid(steps, all) {
      AcceptedIsSound(steps, all);
    }
    if Partitions(steps, all) && EdgesMatch(all) && EdgesCover(steps, all) && OrderLists(all) {
      SoundIsAccepted(steps, all);
    }
  }
}
