/** The check a serialized packing must pass before it is executed
    (`RigExecValidateOpClusters`): it accepts exactly the valid packings. */
module ClusterValidation {
  import opened Options
  import opened OpGraph
  import opened Lowering

  /** What the first loop has established of the first `n` clusters. */
  ghost predicate Checked(g: Graph, n: nat) {
    && |g.opClusters| == |g.ops| && n <= |g.clusters|
    && (forall c | 0 <= c < n ::
          CheckedMembers(g, c, |g.clusters[c].members|) && 0 < |g.clusters[c].members| <= MAX_MEMBERS)
    && (forall c, d | 0 <= c < d < n :: g.clusters[c].members[0] < g.clusters[d].members[0])
  }

  /** The first `k` members of cluster `c` are a chain of its own operations. */
  ghost predicate CheckedMembers(g: Graph, c: nat, k: nat)
    requires c < |g.clusters|
  {
    var members := g.clusters[c].members;
    && k <= |members|
    && (forall p | 0 <= p < k :: MemberOf(g, c, members[p]))
    && (forall p | 0 < p < k :: members[p - 1] < members[p]
          && g.ops[members[p - 1]].succs == [members[p]] && g.ops[members[p]].preds == [members[p - 1]])
  }

  lemma {:induction false} CheckedIncreases(g: Graph, c: nat, k: nat, p: nat, q: nat)
    requires c < |g.clusters| && CheckedMembers(g, c, k) && p < q < k
    ensures g.clusters[c].members[p] < g.clusters[c].members[q]
  {
    if p < q - 1 {
      CheckedIncreases(g, c, k, p, q - 1);
    }
  }

  /** Operations marked by the first loop: members of clusters before `n`, and the
      first `k` members of cluster `n`. */
  ghost predicate Marked(g: Graph, seen: seq<bool>, n: nat, k: nat) {
    |seen| == |g.ops| && forall i: nat | i < |g.ops| :: seen[i] <==> Covered(g, n, k, i)
  }

  ghost predicate Covered(g: Graph, n: nat, k: nat, i: nat) {
    exists c: nat, p: nat :: At(g, c, p, i) && (c < n || (c == n && p < k))
  }

  ghost predicate At(g: Graph, c: nat, p: nat, i: nat) {
    c < |g.clusters| && p < |g.clusters[c].members| && g.clusters[c].members[p] == i
  }

  lemma CheckedShape(g: Graph, n: nat)
    requires n <= |g.clusters| && Checked(g, n)
    ensures |g.opClusters| == |g.ops|
  {}

  lemma IsMember(g: Graph, n: nat, op: nat)
    requires |g.opClusters| == |g.ops| && op < |g.ops| && g.opClusters[op] == n
    ensures MemberOf(g, n, op)
  {}

  lemma NoMembersChecked(g: Graph, n: nat)
    requires n < |g.clusters|
    ensures CheckedMembers(g, n, 0)
  {}

  lemma MemberChecked(g: Graph, n: nat, part: nat)
    requires n < |g.clusters| && part < |g.clusters[n].members| && CheckedMembers(g, n, part)
    requires MemberOf(g, n, g.clusters[n].members[part])
    requires part > 0 ==>
      var before, op := g.clusters[n].members[part - 1], g.clusters[n].members[part];
      before < op && before < |g.ops| && op < |g.ops| && g.ops[before].succs == [op] && g.ops[op].preds == [before]
    ensures CheckedMembers(g, n, part + 1)
  {}

  /** Checks one cluster's members, marking each as seen. */
  method CheckMembers(g: Graph, n: nat, seen0: seq<bool>) returns (ok: bool, seen: seq<bool>)
    requires n < |g.clusters| && Checked(g, n) && Marked(g, seen0, n, 0)
    ensures ok ==> CheckedMembers(g, n, |g.clusters[n].members|) && Marked(g, seen, n + 1, 0)
    ensures !ok ==> !ValidClusters(g)
  {
    hide Checked, ValidClusters, Covered, Partition;
    CheckedShape(g, n);
    seen := seen0;
    var members := g.clusters[n].members;
    NoMembersChecked(g, n);
    for part := 0 to |members|
      invariant CheckedMembers(g, n, part) && Marked(g, seen, n, part)
    {
      var op := members[part];
      if op >= |g.ops| || seen[op] || g.opClusters[op] != n {
        RejectMember(g, n, part, seen);
        return false, seen;
      }
      if part > 0 {
        var before := members[part - 1];
        if before >= op || g.ops[before].succs != [op] || g.ops[op].preds != [before] {
          RejectLink(g, n, part);
          return false, seen;
        }
      }
      MarkMember(g, seen, n, part);
      assert MemberOf(g, n, op) by { IsMember(g, n, op); }
      MemberChecked(g, n, part);
      seen := seen[op := true];
    }
    NextCluster(g, seen, n);
    return true, seen;
  }

  lemma RejectLink(g: Graph, n: nat, part: nat)
    requires n < |g.clusters| && 0 < part < |g.clusters[n].members|
    requires var members := g.clusters[n].members;
             && members[part - 1] < |g.ops| && members[part] < |g.ops|
             && (members[part - 1] >= members[part]
                 || g.ops[members[part - 1]].succs != [members[part]]
                 || g.ops[members[part]].preds != [members[part - 1]])
    ensures !ValidClusters(g)
  {}

  lemma RejectMember(g: Graph, n: nat, part: nat, seen: seq<bool>)
    requires n < |g.clusters| && part < |g.clusters[n].members|
    requires |g.opClusters| == |g.ops| && Marked(g, seen, n, part)
    requires var op := g.clusters[n].members[part];
             op >= |g.ops| || seen[op] || g.opClusters[op] != n
    ensures !Partition(g) && !ValidClusters(g)
  {
    var op := g.clusters[n].members[part];
    if Partition(g) {
      MemberInRange(g, n, part);
      OnceCovered(g, n, part);
    }
  }

  /** In a partition an operation is not among the members before its own place. */
  lemma OnceCovered(g: Graph, n: nat, part: nat)
    requires Partition(g) && n < |g.clusters| && part < |g.clusters[n].members|
    ensures !Covered(g, n, part, g.clusters[n].members[part])
  {
    var op := g.clusters[n].members[part];
    MemberInRange(g, n, part);
    forall c: nat, p: nat | At(g, c, p, op) ensures c == n && p >= part {
      MemberInRange(g, c, p);
    }
  }

  lemma MarkMember(g: Graph, seen: seq<bool>, n: nat, part: nat)
    requires n < |g.clusters| && part < |g.clusters[n].members| && Marked(g, seen, n, part)
    requires g.clusters[n].members[part] < |g.ops|
    ensures Marked(g, seen[g.clusters[n].members[part] := true], n, part + 1)
  {
    var op := g.clusters[n].members[part];
    assert At(g, n, part, op);
    forall i: nat | i < |g.ops| ensures Covered(g, n, part + 1, i) <==> Covered(g, n, part, i) || i == op {
      if Covered(g, n, part + 1, i) && i != op {
        var c: nat, p: nat :| At(g, c, p, i) && (c < n || (c == n && p < part + 1));
        assert c < n || p < part;
      }
    }
  }

  lemma NextCluster(g: Graph, seen: seq<bool>, n: nat)
    requires n < |g.clusters| && Marked(g, seen, n, |g.clusters[n].members|)
    ensures Marked(g, seen, n + 1, 0)
  {
    forall i: nat | i < |g.ops| ensures Covered(g, n + 1, 0, i) <==> Covered(g, n, |g.clusters[n].members|, i) {
      if Covered(g, n + 1, 0, i) {
        var c: nat, p: nat :| At(g, c, p, i) && c < n + 1;
      }
      if Covered(g, n, |g.clusters[n].members|, i) {
        var c: nat, p: nat :| At(g, c, p, i) && c <= n;
      }
    }
  }

  /** The checks made of the clusters themselves amount to these conditions. */
  ghost predicate WellPacked(g: Graph) {
    && (|g.ops| == 0 ==> |g.clusters| == 0)
    && Partition(g)
    && (forall c | 0 <= c < |g.clusters| ::
          0 < |g.clusters[c].members| <= MAX_MEMBERS && Chain(g.ops, g.clusters[c].members))
    && (forall c, d | 0 <= c < d < |g.clusters| :: g.clusters[c].members[0] < g.clusters[d].members[0])
  }

  lemma CheckedIsWellPacked(g: Graph, seen: seq<bool>)
    requires Checked(g, |g.clusters|) && Marked(g, seen, |g.clusters|, 0)
    requires (|g.ops| == 0 ==> |g.clusters| == 0) && forall i | 0 <= i < |g.ops| :: seen[i]
    ensures WellPacked(g)
  {
    forall i: nat | i < |g.ops|
      ensures g.opClusters[i] < |g.clusters| && i in g.clusters[g.opClusters[i]].members
    {
      assert seen[i] && Covered(g, |g.clusters|, 0, i);
      var c: nat, p: nat :| At(g, c, p, i);
      assert MemberOf(g, c, g.clusters[c].members[p]);
    }
    forall c | 0 <= c < |g.clusters| ensures StrictlyIncreasing(g.clusters[c].members) {
      forall p, q | 0 <= p < q < |g.clusters[c].members| ensures g.clusters[c].members[p] < g.clusters[c].members[q] {
        CheckedIncreases(g, c, |g.clusters[c].members|, p, q);
      }
    }
    forall c, i | 0 <= c < |g.clusters| && i in g.clusters[c].members ensures MemberOf(g, c, i) {
      var p :| 0 <= p < |g.clusters[c].members| && g.clusters[c].members[p] == i;
    }
    forall c | 0 <= c < |g.clusters| ensures Chain(g.ops, g.clusters[c].members) {
      assert forall p | 0 <= p < |g.clusters[c].members| :: MemberOf(g, c, g.clusters[c].members[p]);
    }
  }

  lemma CheckedNext(g: Graph, n: nat)
    requires n < |g.clusters| && Checked(g, n)
    requires CheckedMembers(g, n, |g.clusters[n].members|) && 0 < |g.clusters[n].members| <= MAX_MEMBERS
    requires n > 0 ==> g.clusters[n - 1].members[0] < g.clusters[n].members[0]
    ensures Checked(g, n + 1)
  {
    forall c | 0 <= c < n ensures g.clusters[c].members[0] < g.clusters[n].members[0] {
      if c < n - 1 {
        assert g.clusters[c].members[0] < g.clusters[n - 1].members[0];
      }
    }
  }

  /** Checks membership, order and shape of every cluster. */
  method CheckClusters(g: Graph) returns (ok: bool)
    ensures ok ==> WellPacked(g)
    ensures !ok ==> !ValidClusters(g)
  {
    if |g.opClusters| != |g.ops| || (|g.ops| == 0 && |g.clusters| > 0) {
      return false;
    }
    var seen := seq(|g.ops|, _ => false);
    var previousStart := 0;
    assert Checked(g, 0) && Marked(g, seen, 0, 0);
    hide Marked, CheckedMembers;
    for group := 0 to |g.clusters|
      invariant Checked(g, group) && Marked(g, seen, group, 0)
      invariant group > 0 ==> previousStart == g.clusters[group - 1].members[0]
    {
      var members := g.clusters[group].members;
      if |members| == 0 || |members| > MAX_MEMBERS {
        return false;
      }
      if group > 0 && members[0] <= previousStart {
        assert g.clusters[group].members[0] <= g.clusters[group - 1].members[0];
        return false;
      }
      previousStart := members[0];
      var fine;
      fine, seen := CheckMembers(g, group, seen);
      if !fine {
        return false;
      }
      CheckedNext(g, group);
    }
    assert |seen| == |g.ops| by {
      MarkedLength(g, seen, |g.clusters|);
    }
    for op := 0 to |g.ops|
      invariant forall i | 0 <= i < op :: seen[i]
    {
      if !seen[op] {
        UnseenIsUncovered(g, seen, op);
        return false;
      }
    }
    CheckedIsWellPacked(g, seen);
    return true;
  }

  lemma MarkedLength(g: Graph, seen: seq<bool>, n: nat)
    requires Marked(g, seen, n, 0)
    ensures |seen| == |g.ops|
  {}

  lemma UnseenIsUncovered(g: Graph, seen: seq<bool>, i: nat)
    requires Marked(g, seen, |g.clusters|, 0) && i < |g.ops| && !seen[i]
    ensures !Partition(g)
  {
    if Partition(g) {
      var c := g.opClusters[i];
      var p :| 0 <= p < |g.clusters[c].members| && g.clusters[c].members[p] == i;
      assert At(g, c, p, i);
    }
  }

  /** Collects the cluster edges, refusing one that does not point forward. */
  method CheckEdges(g: Graph) returns (ok: bool, preds: seq<seq<nat>>, succs: seq<seq<nat>>)
    requires WellPacked(g)
    ensures ok ==> Backward(g.ops) && Collected(g.ops, g.opClusters, |g.clusters|, preds, succs, |g.ops|, 0)
    ensures !ok ==> !ValidClusters(g)
  {
    hide WellPacked, Seen, Collected, ValidClusters;
    var n := |g.clusters|;
    PackedShape(g);
    preds, succs := seq(n, _ => []), seq(n, _ => []);
    CollectNothing(g.ops, g.opClusters, n);
    for op := 0 to |g.ops|
      invariant Collected(g.ops, g.opClusters, n, preds, succs, op, 0) && |preds| == |succs| == n
      invariant forall i, j | 0 <= i < op && j in g.ops[i].preds :: j < i
    {
      var part := 0;
      while part < |g.ops[op].preds|
        invariant 0 <= part <= |g.ops[op].preds|
        invariant Collected(g.ops, g.opClusters, n, preds, succs, op, part) && |preds| == |succs| == n
        invariant forall k | 0 <= k < part :: g.ops[op].preds[k] < op
      {
        var before := g.ops[op].preds[part];
        assert before in g.ops[op].preds;
        if before >= op {
          LatePredIsInvalid(g, op, before);
          return false, preds, succs;
        }
        CollectStep(g.ops, g.opClusters, n, preds, succs, op, part);
        var a, b := g.opClusters[before], g.opClusters[op];
        if a != b {
          if a >= b {
            BackwardEdgeIsInvalid(g, before, op, a, b);
            return false, preds, succs;
          }
          preds := preds[b := preds[b] + [a]];
          succs := succs[a := succs[a] + [b]];
        }
        part := part + 1;
      }
      CollectNext(g.ops, g.opClusters, n, preds, succs, op);
    }
    return true, preds, succs;
  }

  lemma CollectNothing(ops: seq<Op>, membership: seq<nat>, n: nat)
    requires |membership| == |ops|
    ensures Collected(ops, membership, n, seq(n, _ => []), seq(n, _ => []), 0, 0)
  {}

  lemma CollectNext(ops: seq<Op>, membership: seq<nat>, n: nat, preds: seq<seq<nat>>, succs: seq<seq<nat>>, op: nat)
    requires |membership| == |ops| && op < |ops|
    requires Collected(ops, membership, n, preds, succs, op, |ops[op].preds|)
    ensures Collected(ops, membership, n, preds, succs, op + 1, 0)
  {
    forall a: nat, b: nat
      ensures Seen(ops, membership, a, b, op, |ops[op].preds|) <==> Seen(ops, membership, a, b, op + 1, 0)
    {
      SeenNext(ops, membership, a, b, op);
    }
  }

  /** A packing that is safe: every operation in one cluster, clusters of up to 64
      in ascending order of their first operations, each a line of operations that
      are each other's only neighbour, and the edges between clusters exactly those
      of their operations, which all point backward. */
  ghost predicate SafePacking(g: Graph) {
    && |g.opClusters| == |g.ops|
    && (forall c: nat, i: nat | c < |g.clusters| :: i in g.clusters[c].members <==> InCluster(g, c, i))
    && (forall i | 0 <= i < |g.ops| :: g.opClusters[i] < |g.clusters|)
    && (forall c | 0 <= c < |g.clusters| :: 1 <= |g.clusters[c].members| <= 64)
    && (forall c | 0 <= c < |g.clusters| :: IsLine(g.ops, g.clusters[c].members))
    && (forall c, d | 0 <= c < d < |g.clusters| :: g.clusters[c].members[0] < g.clusters[d].members[0])
    && (forall c | 0 <= c < |g.clusters| ::
          Ascending(g.clusters[c].preds) && Ascending(g.clusters[c].succs))
    && (forall c, a: nat | 0 <= c < |g.clusters| :: a in g.clusters[c].preds <==> a != c && Leads(g, a, c))
    && (forall c: nat, a: nat | c < |g.clusters| :: a in g.clusters[c].succs <==> a != c && Leads(g, c, a))
    && (forall i, j | 0 <= i < |g.ops| && j in g.ops[i].preds :: j < i)
  }

  ghost predicate InCluster(g: Graph, c: nat, i: nat)
    requires |g.opClusters| == |g.ops|
  {
    i < |g.ops| && g.opClusters[i] == c
  }

  ghost predicate Ascending(s: seq<nat>) {
    forall j, k | 0 <= j < k < |s| :: s[j] < s[k]
  }

  ghost predicate IsLine(ops: seq<Op>, members: seq<nat>) {
    && Ascending(members)
    && (forall k | 0 <= k < |members| :: members[k] < |ops|)
    && (forall k | 0 <= k < |members| - 1 ::
          ops[members[k]].succs == [members[k + 1]] && ops[members[k + 1]].preds == [members[k]])
  }

  /** An operation of cluster `b` names one of cluster `a` as a predecessor. */
  ghost predicate Leads(g: Graph, a: nat, b: nat)
    requires |g.opClusters| == |g.ops|
  {
    exists i: nat, j: nat :: i < |g.ops| && j < |g.ops| && j in g.ops[i].preds
                             && g.opClusters[j] == a && g.opClusters[i] == b
  }

  lemma LeadsIsQuotient(g: Graph, a: nat, b: nat)
    requires |g.opClusters| == |g.ops|
    ensures Quotient(g, a, b) <==> a != b && Leads(g, a, b)
  {
    if a != b && Leads(g, a, b) {
      var i: nat, j: nat :| i < |g.ops| && j < |g.ops| && j in g.ops[i].preds
        && g.opClusters[j] == a && g.opClusters[i] == b;
      assert Crosses(g, j, i, a, b);
    }
  }

  lemma LineIsChain(ops: seq<Op>, members: seq<nat>)
    ensures IsLine(ops, members) <==> StrictlyIncreasing(members) && Chain(ops, members)
  {
    if Chain(ops, members) {
      forall k | 0 <= k < |members| - 1
        ensures ops[members[k]].succs == [members[k + 1]] && ops[members[k + 1]].preds == [members[k]]
      {
        assert k + 1 - 1 == k;
      }
    }
  }

  lemma SafeIsValid(g: Graph)
    requires SafePacking(g)
    ensures ValidClusters(g)
  {
    hide Quotient, Leads, Chain, IsLine, Ascending, StrictlyIncreasing;
    forall c | 0 <= c < |g.clusters|
      ensures StrictlyIncreasing(g.clusters[c].members) && Chain(g.ops, g.clusters[c].members)
    {
      LineIsChain(g.ops, g.clusters[c].members);
    }
    SafeIsPartition(g);
    SafeEdges(g);
    if |g.clusters| > 0 {
      assert g.clusters[0].members[0] in g.clusters[0].members;
    }
  }

  lemma SafeIsPartition(g: Graph)
    requires SafePacking(g)
    requires forall c | 0 <= c < |g.clusters| :: StrictlyIncreasing(g.clusters[c].members)
    ensures Partition(g)
  {
    hide Leads, IsLine, Ascending, StrictlyIncreasing;
    forall c: nat, i: nat | c < |g.clusters| && i in g.clusters[c].members ensures MemberOf(g, c, i) {
      assert InCluster(g, c, i);
    }
    forall i: nat | i < |g.ops| ensures i in g.clusters[g.opClusters[i]].members {
      assert InCluster(g, g.opClusters[i], i);
    }
  }

  lemma SafeEdges(g: Graph)
    requires SafePacking(g)
    ensures EdgesAreQuotient(g)
  {
    hide Quotient, Leads, IsLine;
    forall c: nat, a: nat
      ensures Quotient(g, a, c) <==> a != c && Leads(g, a, c)
    {
      LeadsIsQuotient(g, a, c);
    }
    forall c: nat | c < |g.clusters|
      ensures StrictlyIncreasing(g.clusters[c].preds) && StrictlyIncreasing(g.clusters[c].succs)
    {
      assert Ascending(g.clusters[c].preds) && Ascending(g.clusters[c].succs);
    }
    hide Ascending;
    forall c: nat, a: nat | c < |g.clusters| ensures a in g.clusters[c].preds <==> Quotient(g, a, c) {}
    forall c: nat, a: nat | c < |g.clusters| ensures a in g.clusters[c].succs <==> Quotient(g, c, a) {}
  }

  lemma ValidIsSafe(g: Graph)
    requires ValidClusters(g)
    ensures SafePacking(g)
  {
    hide Quotient, Leads, Chain, IsLine, Ascending, StrictlyIncreasing;
    forall c: nat, i: nat | c < |g.clusters|
      ensures i in g.clusters[c].members <==> InCluster(g, c, i)
    {
      if i in g.clusters[c].members {
        assert MemberOf(g, c, i);
      }
    }
    forall c | 0 <= c < |g.clusters| ensures IsLine(g.ops, g.clusters[c].members) {
      LineIsChain(g.ops, g.clusters[c].members);
    }
    ValidEdges(g);
  }

  lemma ValidEdges(g: Graph)
    requires ValidClusters(g)
    ensures |g.opClusters| == |g.ops|
    ensures forall c | 0 <= c < |g.clusters| :: Ascending(g.clusters[c].preds) && Ascending(g.clusters[c].succs)
    ensures forall c, a: nat | 0 <= c < |g.clusters| :: a in g.clusters[c].preds <==> a != c && Leads(g, a, c)
    ensures forall c: nat, a: nat | c < |g.clusters| :: a in g.clusters[c].succs <==> a != c && Leads(g, c, a)
  {
    hide Quotient, Leads, Chain;
    forall c: nat, a: nat
      ensures Quotient(g, a, c) <==> a != c && Leads(g, a, c)
    {
      LeadsIsQuotient(g, a, c);
    }
  }

  lemma SafeIffValid(g: Graph)
    ensures SafePacking(g) <==> ValidClusters(g)
  {
    hide SafePacking, ValidClusters;
    if SafePacking(g) {
      SafeIsValid(g);
    }
    if ValidClusters(g) {
      ValidIsSafe(g);
    }
  }

  /** The whole check accepts exactly the valid packings, which are the safe ones. */
  method ValidateOpClusters(g: Graph) returns (ok: bool)
    ensures ok <==> ValidClusters(g)
    ensures ok <==> SafePacking(g)
  {
    SafeIffValid(g);
    hide SafePacking;
    var packed := CheckClusters(g);
    if !packed {
      return false;
    }
    var forward, preds, succs := CheckEdges(g);
    if !forward {
      return false;
    }
    for group := 0 to |g.clusters|
      invariant forall c | 0 <= c < group ::
        g.clusters[c].preds == Unique(preds[c]) && g.clusters[c].succs == Unique(succs[c])
    {
      if g.clusters[group].preds != Unique(preds[group]) || g.clusters[group].succs != Unique(succs[group]) {
        WrongEdges(g, preds, succs, group);
        return false;
      }
    }
    RightEdges(g, preds, succs);
    return true;
  }

  lemma PackedShape(g: Graph)
    requires WellPacked(g)
    ensures |g.opClusters| == |g.ops| && forall i | 0 <= i < |g.ops| :: g.opClusters[i] < |g.clusters|
  {}

  lemma LatePredIsInvalid(g: Graph, i: nat, j: nat)
    requires i < |g.ops| && j in g.ops[i].preds && j >= i
    ensures !ValidClusters(g)
  {}

  lemma BackwardEdgeIsInvalid(g: Graph, j: nat, i: nat, a: nat, b: nat)
    requires i < |g.ops| == |g.opClusters| && j < |g.ops| && j in g.ops[i].preds
    requires g.opClusters[j] == a && g.opClusters[i] == b && a > b
    ensures !ValidClusters(g)
  {
    assert Crosses(g, j, i, a, b);
    if ValidClusters(g) {
      QuotientGoesForward(g, a, b);
    }
  }

  lemma RightEdges(g: Graph, preds: seq<seq<nat>>, succs: seq<seq<nat>>)
    requires WellPacked(g) && Backward(g.ops) && Collected(g.ops, g.opClusters, |g.clusters|, preds, succs, |g.ops|, 0)
    requires forall c | 0 <= c < |g.clusters| ::
               g.clusters[c].preds == Unique(preds[c]) && g.clusters[c].succs == Unique(succs[c])
    ensures ValidClusters(g)
  {
    var groups := seq(|g.clusters|, c requires 0 <= c < |g.clusters| => g.clusters[c].members);
    assert g.clusters == Clusters(groups, preds, succs);
    LoweredEdges(groups, preds, succs, g);
  }

  lemma WrongEdges(g: Graph, preds: seq<seq<nat>>, succs: seq<seq<nat>>, c: nat)
    requires Backward(g.ops) && |g.opClusters| == |g.ops|
    requires Collected(g.ops, g.opClusters, |g.clusters|, preds, succs, |g.ops|, 0)
    requires c < |g.clusters| && (g.clusters[c].preds != Unique(preds[c]) || g.clusters[c].succs != Unique(succs[c]))
    ensures !EdgesAreQuotient(g)
  {
    if EdgesAreQuotient(g) {
      UniqueSorts(preds[c]);
      UniqueSorts(succs[c]);
      forall a: nat ensures a in g.clusters[c].preds <==> a in Unique(preds[c]) {
        QuotientIsSeen(g, a, c);
      }
      forall a: nat ensures a in g.clusters[c].succs <==> a in Unique(succs[c]) {
        QuotientIsSeen(g, c, a);
      }
      SortedIsCanonical(g.clusters[c].preds, Unique(preds[c]));
      SortedIsCanonical(g.clusters[c].succs, Unique(succs[c]));
    }
  }

  /** What the lowering builds, the check accepts, and the executor may run. */
  method LowerAndValidate(ops: seq<Op>, costs: seq<real>, grain: real) returns (result: Option<Graph>, ok: bool)
    requires ForwardEdges(ops) && SingleProducers(ops)
    requires grain >= 0.0 && (costs == [] || |costs| == |ops|) && forall c <- costs :: c >= 0.0
    ensures result.Some? && ok && result.value.ops == ops && Runnable(result.value)
  {
    assert Backward(ops);
    result := LowerOpClusters(ops, costs, grain);
    ok := ValidateOpClusters(result.value);
    ValidIsRunnable(result.value);
  }
}
