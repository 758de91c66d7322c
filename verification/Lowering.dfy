/** How operations are packed into clusters, and how a packing is checked:
    `RigExecLowerOpClusters` and `RigExecValidateOpClusters`. */
module Lowering {
  import opened Options
  import opened OpGraph

  const MAX_MEMBERS: nat := 64

  /** Predecessor and successor lists are sorted, in range and each other's
      inverse; nothing yet says which way they point. */
  ghost predicate MutualEdges(ops: seq<Op>) {
    && (forall i | 0 <= i < |ops| :: StrictlyIncreasing(ops[i].preds) && StrictlyIncreasing(ops[i].succs))
    && (forall i, j | 0 <= i < |ops| && j in ops[i].preds :: j < |ops|)
    && (forall i, j | 0 <= i < |ops| && j in ops[i].succs :: j < |ops|)
    && (forall i, j | 0 <= i < |ops| && 0 <= j < |ops| :: j in ops[i].preds <==> i in ops[j].succs)
  }

  ghost predicate Backward(ops: seq<Op>) {
    forall i, j | 0 <= i < |ops| && j in ops[i].preds :: j < i
  }

  /** An operation with one successor names a later one. */
  ghost predicate SolesForward(ops: seq<Op>) {
    forall i | 0 <= i < |ops| && |ops[i].succs| == 1 :: i < ops[i].succs[0] < |ops|
  }

  lemma MutualSolesForward(ops: seq<Op>)
    requires MutualEdges(ops) && Backward(ops)
    ensures SolesForward(ops)
  {
    forall i | 0 <= i < |ops| && |ops[i].succs| == 1 ensures i < ops[i].succs[0] < |ops| {
      var next := ops[i].succs[0];
      assert next in ops[i].succs;
      assert i in ops[next].preds;
    }
  }

  /** Consecutive members are each other's only neighbour. */
  ghost predicate Chain(ops: seq<Op>, members: seq<nat>) {
    && (forall k | 0 <= k < |members| :: members[k] < |ops|)
    && (forall k | 0 < k < |members| ::
          ops[members[k - 1]].succs == [members[k]] && ops[members[k]].preds == [members[k - 1]])
  }

  /** Some operation of `b` depends on an operation of another cluster `a`. */
  ghost predicate Quotient(g: Graph, a: nat, b: nat) {
    a != b && exists i: nat, j: nat :: Crosses(g, j, i, a, b)
  }

  ghost predicate Crosses(g: Graph, j: nat, i: nat, a: nat, b: nat) {
    && i < |g.ops| == |g.opClusters| && j < |g.ops| && j in g.ops[i].preds
    && g.opClusters[j] == a && g.opClusters[i] == b
  }

  /** A packing an executor may trust: chains of at most 64, numbered by their
      first operation, whose edges are exactly the operation edges between them. */
  ghost predicate ValidClusters(g: Graph) {
    && (|g.ops| == 0 ==> |g.clusters| == 0)
    && Partition(g)
    && Backward(g.ops)
    && (forall c | 0 <= c < |g.clusters| ::
          0 < |g.clusters[c].members| <= MAX_MEMBERS && Chain(g.ops, g.clusters[c].members))
    && (forall c, d | 0 <= c < d < |g.clusters| :: g.clusters[c].members[0] < g.clusters[d].members[0])
    && EdgesAreQuotient(g)
  }

  ghost predicate EdgesAreQuotient(g: Graph) {
    forall c | 0 <= c < |g.clusters| ::
      && StrictlyIncreasing(g.clusters[c].preds) && StrictlyIncreasing(g.clusters[c].succs)
      && (forall a :: a in g.clusters[c].preds <==> Quotient(g, a, c))
      && (forall a :: a in g.clusters[c].succs <==> Quotient(g, c, a))
  }

  // ---- What a valid packing promises --------------------------------------------------

  /** An edge into a cluster enters at its first member, so it comes from a
      cluster with a smaller number. */
  lemma QuotientGoesForward(g: Graph, a: nat, b: nat)
    requires Partition(g) && Backward(g.ops) && Quotient(g, a, b)
    requires forall c | 0 <= c < |g.clusters| :: 0 < |g.clusters[c].members| && Chain(g.ops, g.clusters[c].members)
    requires forall c, d | 0 <= c < d < |g.clusters| :: g.clusters[c].members[0] < g.clusters[d].members[0]
    ensures a < b < |g.clusters|
  {
    var i: nat, j: nat :| Crosses(g, j, i, a, b);
    var from, to := g.clusters[a].members, g.clusters[b].members;
    assert i in to && j in from;
    var k :| 0 <= k < |to| && to[k] == i;
    if k > 0 {
      assert g.ops[i].preds == [to[k - 1]] && j == to[k - 1];
      MemberInRange(g, b, k - 1);
    }
    var l :| 0 <= l < |from| && from[l] == j;
    assert from[0] <= j < i == to[0];
  }

  /** Whatever is validly packed is runnable. */
  lemma ValidIsRunnable(g: Graph)
    requires ForwardEdges(g.ops) && SingleProducers(g.ops) && ValidClusters(g)
    ensures Runnable(g)
  {
    forall i, j | 0 <= i < |g.ops| && j in g.ops[i].preds && j < |g.ops| && g.opClusters[j] != g.opClusters[i]
      ensures g.opClusters[j] in g.clusters[g.opClusters[i]].preds
    {
      assert Crosses(g, j, i, g.opClusters[j], g.opClusters[i]);
    }
    forall c, d | 0 <= c < |g.clusters| && d in g.clusters[c].preds ensures d < c {
      QuotientGoesForward(g, d, c);
    }
    forall c, d | 0 <= c < |g.clusters| && d in g.clusters[c].succs ensures d < |g.clusters| {
      QuotientGoesForward(g, c, d);
    }
    assert ClusterEdges(g);
    assert Ranks(g.clusters, seq(|g.clusters|, c => c));
  }

  // ---- Sorting and deduplicating --------------------------------------------------------

  function Insert(x: nat, s: seq<nat>): seq<nat> {
    if s == [] then [x]
    else if x < s[0] then [x] + s
    else if x == s[0] then s
    else [s[0]] + Insert(x, s[1..])
  }

  /** `Unique`: the values sorted, each once. */
  function Unique(values: seq<nat>): seq<nat> {
    if values == [] then [] else Insert(values[0], Unique(values[1..]))
  }

  lemma {:induction false} InsertSorts(x: nat, s: seq<nat>)
    requires StrictlyIncreasing(s)
    ensures StrictlyIncreasing(Insert(x, s))
    ensures forall y :: y in Insert(x, s) <==> y == x || y in s
  {
    if s != [] && x > s[0] {
      InsertSorts(x, s[1..]);
      var rest := Insert(x, s[1..]);
      forall k | 0 <= k < |rest| ensures s[0] < rest[k] {
        assert rest[k] in rest;
        if rest[k] != x {
          var m :| 0 <= m < |s| - 1 && s[1..][m] == rest[k];
          assert s[m + 1] == rest[k];
        }
      }
      assert forall y :: y in s <==> y == s[0] || y in s[1..];
    }
  }

  lemma {:induction false} UniqueSorts(values: seq<nat>)
    ensures StrictlyIncreasing(Unique(values))
    ensures forall y :: y in Unique(values) <==> y in values
  {
    if values != [] {
      UniqueSorts(values[1..]);
      InsertSorts(values[0], Unique(values[1..]));
    }
  }

  lemma NonemptyHasElement(t: seq<nat>)
    ensures t == [] || exists y :: y in t
  {
    if t != [] {
      assert t[0] in t;
    }
  }

  /** A strictly increasing list is determined by its elements. */
  lemma {:induction false} SortedIsCanonical(s: seq<nat>, t: seq<nat>)
    requires StrictlyIncreasing(s) && StrictlyIncreasing(t)
    requires forall y :: y in s <==> y in t
    ensures s == t
  {
    if s == [] {
      NonemptyHasElement(t);
    } else {
      assert s[0] in t;
      assert t[0] in s;
      assert s[0] == t[0];
      forall y ensures y in s[1..] <==> y in t[1..] {
        assert y in s[1..] ==> y in s && y != s[0];
        assert y in t[1..] ==> y in t && y != t[0];
      }
      SortedIsCanonical(s[1..], t[1..]);
    }
  }

  // ---- Packing ------------------------------------------------------------------------------

  const UNASSIGNED: int := -1

  function CostAt(costs: seq<real>, op: nat): real {
    if op < |costs| then costs[op] else 1.0
  }

  function CostOf(costs: seq<real>, members: seq<nat>): real {
    if members == [] then 0.0 else CostOf(costs, members[..|members| - 1]) + CostAt(costs, members[|members| - 1])
  }

  /** A microsecond for every member if no costs are given, and otherwise theirs
      added up. */
  lemma {:induction false} CostMeaning(costs: seq<real>, members: seq<nat>, i: nat)
    ensures CostOf([], members) == |members| as real
    ensures CostOf(costs, []) == 0.0
    ensures i < |costs| ==> CostOf(costs, members + [i]) == CostOf(costs, members) + costs[i]
  {
    assert (members + [i])[..|members|] == members;
    if members != [] {
      CostMeaning(costs, members[..|members| - 1], i);
    }
  }

  /** A group under construction or finished: a chain within the size and the grain. */
  ghost predicate Group(ops: seq<Op>, costs: seq<real>, grain: real, members: seq<nat>) {
    && 0 < |members| <= MAX_MEMBERS
    && Chain(ops, members) && StrictlyIncreasing(members)
    && (|members| > 1 ==> grain > 0.0 && CostOf(costs, members) <= grain)
  }

  /** No further operation could have been taken in: the grain is zero, the group
      is full, its last member has no single successor, that successor has
      another predecessor, or the two together would cost more than the grain. */
  ghost predicate Maximal(ops: seq<Op>, costs: seq<real>, grain: real, members: seq<nat>)
    requires 0 < |members| && members[|members| - 1] < |ops|
  {
    var last := members[|members| - 1];
    || grain == 0.0
    || |members| >= MAX_MEMBERS
    || |ops[last].succs| != 1
    || (var next := ops[last].succs[0];
        && last < next < |ops|
        && (ops[next].preds != [last] || CostOf(costs, members) + CostAt(costs, next) > grain))
  }

  /** Fewer than 64 operations, and after the last of them comes `next` and no other,
      and `next` comes after it and no other. */
  ghost predicate MightTakeIn(ops: seq<Op>, members: seq<nat>, next: nat) {
    && 0 < |members| < 64 && members[|members| - 1] < |ops| && next < |ops|
    && ops[members[|members| - 1]].succs == [next] && ops[next].preds == [members[|members| - 1]]
  }

  lemma MaximalTakesInNone(ops: seq<Op>, costs: seq<real>, grain: real, members: seq<nat>, next: nat)
    requires MightTakeIn(ops, members, next) && grain > 0.0 && Maximal(ops, costs, grain, members)
    ensures CostOf(costs, members) + CostAt(costs, next) > grain
  {}

  /** The groups so far and who is in them; every operation below `bound` is. */
  ghost predicate Packed(
      ops: seq<Op>, costs: seq<real>, grain: real, groups: seq<seq<nat>>, membership: seq<int>, bound: nat) {
    && |membership| == |ops| && bound <= |ops|
    && (forall c | 0 <= c < |groups| ::
          Group(ops, costs, grain, groups[c]) && Maximal(ops, costs, grain, groups[c]))
    && (forall c, d | 0 <= c < d < |groups| :: groups[c][0] < groups[d][0])
    && (forall c | 0 <= c < |groups| :: groups[c][0] < bound)
    && (forall c, k | 0 <= c < |groups| && 0 <= k < |groups[c]| ::
          groups[c][k] < |ops| && membership[groups[c][k]] == c)
    && (forall i | 0 <= i < |ops| :: membership[i] != UNASSIGNED ==>
          0 <= membership[i] < |groups| && i in groups[membership[i]])
    && (forall i | 0 <= i < bound :: membership[i] != UNASSIGNED)
  }

  /** The group being grown: packed so far except that `group` is already claimed. */
  ghost predicate Growing(
      ops: seq<Op>, costs: seq<real>, grain: real, groups: seq<seq<nat>>, before: seq<int>,
      group: seq<nat>, membership: seq<int>, start: nat)
  {
    && Packed(ops, costs, grain, groups, before, start)
    && Group(ops, costs, grain, group) && group[0] == start
    && |membership| == |ops|
    && (forall k | 0 <= k < |group| :: before[group[k]] == UNASSIGNED && membership[group[k]] == |groups|)
    && (forall i | 0 <= i < |ops| && i !in group :: membership[i] == before[i])
  }

  lemma GrownIsPacked(
      ops: seq<Op>, costs: seq<real>, grain: real, groups: seq<seq<nat>>, before: seq<int>,
      group: seq<nat>, membership: seq<int>, start: nat)
    requires start < |ops| && Growing(ops, costs, grain, groups, before, group, membership, start)
    requires Maximal(ops, costs, grain, group)
    ensures Packed(ops, costs, grain, groups + [group], membership, start + 1)
  {
    var all := groups + [group];
    assert start in group;
    forall c, k | 0 <= c < |all| && 0 <= k < |all[c]|
      ensures all[c][k] < |ops| && membership[all[c][k]] == c
    {
      if c < |groups| {
        assert before[groups[c][k]] == c;
      }
    }
    forall i | 0 <= i < |ops| && membership[i] != UNASSIGNED
      ensures 0 <= membership[i] < |all| && i in all[membership[i]]
    {
      if i in group {
        var k :| 0 <= k < |group| && group[k] == i;
      }
    }
    forall i | 0 <= i < start + 1 ensures membership[i] != UNASSIGNED {}
  }

  lemma GroupGrows(ops: seq<Op>, costs: seq<real>, grain: real, group: seq<nat>, next: nat)
    requires Group(ops, costs, grain, group) && |group| < MAX_MEMBERS && grain > 0.0
    requires group[|group| - 1] < next < |ops|
    requires ops[group[|group| - 1]].succs == [next] && ops[next].preds == [group[|group| - 1]]
    requires CostOf(costs, group) + CostAt(costs, next) <= grain
    ensures Group(ops, costs, grain, group + [next])
    ensures CostOf(costs, group + [next]) == CostOf(costs, group) + CostAt(costs, next)
  {
    assert (group + [next])[..|group|] == group;
    assert forall k | 0 <= k < |group| - 1 :: group[k] < group[|group| - 1];
  }

  /** A grouped operation opened its group, or follows its one predecessor in it. */
  lemma FollowsItsPred(
      ops: seq<Op>, costs: seq<real>, grain: real, groups: seq<seq<nat>>, membership: seq<int>, start: nat, op: nat)
    requires Packed(ops, costs, grain, groups, membership, start)
    requires op < |ops| && membership[op] != UNASSIGNED
    ensures op < start || exists prev: nat :: prev < |ops| && ops[op].preds == [prev] && membership[prev] != UNASSIGNED
  {
    var c := membership[op];
    var k :| 0 <= k < |groups[c]| && groups[c][k] == op;
    assert Group(ops, costs, grain, groups[c]);
    if k > 0 {
      var prev := groups[c][k - 1];
      assert membership[prev] == c && ops[op].preds == [prev];
    }
  }

  /** A later operation whose one predecessor is the group's last member is in no
      group: it could only have been taken in after that member. */
  lemma SoleSuccessorIsFree(
      ops: seq<Op>, costs: seq<real>, grain: real, groups: seq<seq<nat>>, before: seq<int>,
      group: seq<nat>, membership: seq<int>, start: nat, next: nat)
    requires Growing(ops, costs, grain, groups, before, group, membership, start)
    requires group[|group| - 1] < next < |ops| && ops[next].preds == [group[|group| - 1]]
    ensures membership[next] == UNASSIGNED
  {
    var current := group[|group| - 1];
    if next in group {
      var k :| 0 <= k < |group| && group[k] == next;
    } else if before[next] != UNASSIGNED {
      FollowsItsPred(ops, costs, grain, groups, before, start, next);
    }
  }

  /** Taking in the next operation keeps the group's place among the others. */
  lemma GrowingStep(
      ops: seq<Op>, costs: seq<real>, grain: real, groups: seq<seq<nat>>, before: seq<int>,
      group: seq<nat>, membership: seq<int>, start: nat, next: nat)
    requires Growing(ops, costs, grain, groups, before, group, membership, start)
    requires next < |ops| && membership[next] == UNASSIGNED && Group(ops, costs, grain, group + [next])
    ensures Growing(ops, costs, grain, groups, before, group + [next], membership[next := |groups|], start)
  {
    var longer := group + [next];
    forall k | 0 <= k < |longer|
      ensures before[longer[k]] == UNASSIGNED && membership[next := |groups|][longer[k]] == |groups|
    {
      if k < |group| {
        assert longer[k] == group[k] && group[k] in group;
      } else {
        assert next !in group;
      }
    }
    assert longer[0] == group[0];
    forall i | 0 <= i < |ops| && i !in group + [next] ensures membership[next := |groups|][i] == before[i] {
      assert i !in group;
    }
  }

  lemma GroupStarts(
      ops: seq<Op>, costs: seq<real>, grain: real, groups: seq<seq<nat>>, before: seq<int>, start: nat)
    requires start < |ops| && Packed(ops, costs, grain, groups, before, start) && before[start] == UNASSIGNED
    ensures Growing(ops, costs, grain, groups, before, [start], before[start := |groups|], start)
    ensures CostOf(costs, [start]) == CostAt(costs, start)
  {
    hide Packed;
    PackedSize(ops, costs, grain, groups, before, start);
    assert [start][..0] == [];
  }

  lemma PackedSize(ops: seq<Op>, costs: seq<real>, grain: real, groups: seq<seq<nat>>, before: seq<int>, start: nat)
    requires Packed(ops, costs, grain, groups, before, start)
    ensures |before| == |ops|
  {}

  lemma GrowingSize(
      ops: seq<Op>, costs: seq<real>, grain: real, groups: seq<seq<nat>>, before: seq<int>,
      group: seq<nat>, membership: seq<int>, start: nat)
    requires Growing(ops, costs, grain, groups, before, group, membership, start)
    ensures |membership| == |ops| && |group| > 0 && group[|group| - 1] < |ops|
    ensures Group(ops, costs, grain, group)
  {
    hide Packed;
  }

  /** Grows one group from `start`, taking in the sole successor of its last
      member while that has no other predecessor, is free, and fits the grain. */
  method Grow(
      ops: seq<Op>, costs: seq<real>, grain: real,
      ghost groups: seq<seq<nat>>, before: seq<int>, start: nat, cluster: int)
    returns (result: Option<(seq<nat>, seq<int>)>)
    requires grain >= 0.0
    requires start < |ops| && Packed(ops, costs, grain, groups, before, start)
    requires before[start] == UNASSIGNED && cluster == |groups|
    ensures result.None? ==> grain > 0.0 && !SolesForward(ops)
    ensures result.Some? ==>
      && Growing(ops, costs, grain, groups, before, result.value.0, result.value.1, start)
      && Maximal(ops, costs, grain, result.value.0)
  {
    hide Packed, Growing, Group;
    PackedSize(ops, costs, grain, groups, before, start);
    var group: seq<nat>, membership, current := [start], before[start := cluster], start;
    var total := CostAt(costs, start);
    GroupStarts(ops, costs, grain, groups, before, start);
    while grain != 0.0 && |group| < MAX_MEMBERS && |ops[current].succs| == 1
      invariant Growing(ops, costs, grain, groups, before, group, membership, start)
      invariant |group| > 0 && |membership| == |ops|
      invariant current == group[|group| - 1] < |ops| && total == CostOf(costs, group)
      decreases MAX_MEMBERS - |group|
    {
      GrowingSize(ops, costs, grain, groups, before, group, membership, start);
      var next := ops[current].succs[0];
      if next >= |ops| || next <= current {
        return None;
      }
      if membership[next] != UNASSIGNED || |ops[next].preds| != 1 || ops[next].preds[0] != current
         || total + CostAt(costs, next) > grain {
        if ops[next].preds == [current] {
          SoleSuccessorIsFree(ops, costs, grain, groups, before, group, membership, start, next);
        }
        return Some((group, membership));
      }
      GroupGrows(ops, costs, grain, group, next);
      GrowingStep(ops, costs, grain, groups, before, group, membership, start, next);
      group := group + [next];
      membership := membership[next := cluster];
      total := total + CostAt(costs, next);
      current := next;
    }
    return Some((group, membership));
  }

  method Pack(ops: seq<Op>, costs: seq<real>, grain: real) returns (result: Option<(seq<seq<nat>>, seq<int>)>)
    requires grain >= 0.0
    ensures result.None? ==> grain > 0.0 && !SolesForward(ops)
    ensures result.Some? ==> Packed(ops, costs, grain, result.value.0, result.value.1, |ops|)
  {
    var groups: seq<seq<nat>>, membership := [], seq(|ops|, _ => UNASSIGNED);
    for start := 0 to |ops|
      invariant Packed(ops, costs, grain, groups, membership, start)
    {
      if membership[start] == UNASSIGNED {
        var grown := Grow(ops, costs, grain, groups, membership, start, |groups|);
        if grown.None? {
          return None;
        }
        GrownIsPacked(ops, costs, grain, groups, membership, grown.value.0, grown.value.1, start);
        groups, membership := groups + [grown.value.0], grown.value.1;
      }
    }
    return Some((groups, membership));
  }

  // ---- Edges ------------------------------------------------------------------------------

  function Clusters(groups: seq<seq<nat>>, preds: seq<seq<nat>>, succs: seq<seq<nat>>): seq<Cluster>
    requires |groups| == |preds| == |succs|
  {
    seq(|groups|, c requires 0 <= c < |groups| => Cluster(groups[c], Unique(preds[c]), Unique(succs[c])))
  }

  /** An edge between different clusters seen among the first `bound` operations,
      and the first `part` predecessors of the next one. */
  ghost predicate Seen(ops: seq<Op>, membership: seq<nat>, a: nat, b: nat, bound: nat, part: nat)
    requires |membership| == |ops|
  {
    a != b && exists i: nat, k: nat :: SeenAt(ops, membership, i, k, a, b, bound, part)
  }

  ghost predicate SeenAt(ops: seq<Op>, membership: seq<nat>, i: nat, k: nat, a: nat, b: nat, bound: nat, part: nat)
    requires |membership| == |ops|
  {
    && i < |ops| && k < |ops[i].preds| && ops[i].preds[k] < |ops|
    && (i < bound || (i == bound && k < part))
    && membership[ops[i].preds[k]] == a && membership[i] == b
  }

  lemma SeenStep(ops: seq<Op>, membership: seq<nat>, a: nat, b: nat, bound: nat, part: nat)
    requires |membership| == |ops| && bound < |ops| && part < |ops[bound].preds| && ops[bound].preds[part] < |ops|
    ensures Seen(ops, membership, a, b, bound, part + 1) <==>
      Seen(ops, membership, a, b, bound, part)
      || (a != b && a == membership[ops[bound].preds[part]] && b == membership[bound])
  {
    if Seen(ops, membership, a, b, bound, part + 1) {
      var i: nat, k: nat :| SeenAt(ops, membership, i, k, a, b, bound, part + 1);
      assert SeenAt(ops, membership, i, k, a, b, bound, part) || (i == bound && k == part);
    }
    if Seen(ops, membership, a, b, bound, part) {
      var i: nat, k: nat :| SeenAt(ops, membership, i, k, a, b, bound, part);
      assert SeenAt(ops, membership, i, k, a, b, bound, part + 1);
    }
    if a != b && a == membership[ops[bound].preds[part]] && b == membership[bound] {
      assert SeenAt(ops, membership, bound, part, a, b, bound, part + 1);
    }
  }

  lemma SeenNext(ops: seq<Op>, membership: seq<nat>, a: nat, b: nat, bound: nat)
    requires |membership| == |ops| && bound < |ops|
    ensures Seen(ops, membership, a, b, bound, |ops[bound].preds|) <==> Seen(ops, membership, a, b, bound + 1, 0)
  {
    if Seen(ops, membership, a, b, bound, |ops[bound].preds|) {
      var i: nat, k: nat :| SeenAt(ops, membership, i, k, a, b, bound, |ops[bound].preds|);
      assert SeenAt(ops, membership, i, k, a, b, bound + 1, 0);
    }
    if Seen(ops, membership, a, b, bound + 1, 0) {
      var i: nat, k: nat :| SeenAt(ops, membership, i, k, a, b, bound + 1, 0);
      assert SeenAt(ops, membership, i, k, a, b, bound, |ops[bound].preds|);
    }
  }

  /** The lists collected so far hold exactly the edges seen so far. */
  ghost predicate Collected(
      ops: seq<Op>, membership: seq<nat>, n: nat, preds: seq<seq<nat>>, succs: seq<seq<nat>>, bound: nat, part: nat)
    requires |membership| == |ops|
  {
    && |preds| == |succs| == n
    && (forall b: nat, a: nat | b < n :: a in preds[b] <==> Seen(ops, membership, a, b, bound, part))
    && (forall a: nat, b: nat | a < n :: b in succs[a] <==> Seen(ops, membership, a, b, bound, part))
  }

  lemma CollectStep(
      ops: seq<Op>, membership: seq<nat>, n: nat, preds: seq<seq<nat>>, succs: seq<seq<nat>>, bound: nat, part: nat)
    requires |membership| == |ops| && Collected(ops, membership, n, preds, succs, bound, part)
    requires bound < |ops| && part < |ops[bound].preds| && ops[bound].preds[part] < |ops|
    requires membership[bound] < n && membership[ops[bound].preds[part]] < n
    ensures var before, after := membership[ops[bound].preds[part]], membership[bound];
            if before != after then
              Collected(ops, membership, n, preds[after := preds[after] + [before]],
                        succs[before := succs[before] + [after]], bound, part + 1)
            else Collected(ops, membership, n, preds, succs, bound, part + 1)
  {
    var before, after := membership[ops[bound].preds[part]], membership[bound];
    forall a: nat, b: nat
      ensures Seen(ops, membership, a, b, bound, part + 1) <==>
        Seen(ops, membership, a, b, bound, part) || (before != after && a == before && b == after)
    {
      SeenStep(ops, membership, a, b, bound, part);
    }
    hide Seen;
    if before != after {
      var preds', succs' := preds[after := preds[after] + [before]], succs[before := succs[before] + [after]];
      assert forall b: nat, a: nat | b < n :: a in preds'[b] <==> a in preds[b] || (b == after && a == before);
      assert forall a: nat, b: nat | a < n :: b in succs'[a] <==> b in succs[a] || (a == before && b == after);
    }
  }

  /** Collects the cluster edges; None when an operation depends on a later one. */
  method Connect(ops: seq<Op>, membership: seq<nat>, n: nat)
    returns (result: Option<(seq<seq<nat>>, seq<seq<nat>>)>)
    requires |membership| == |ops| && forall i | 0 <= i < |ops| :: membership[i] < n
    ensures result.Some? <==> Backward(ops)
    ensures result.Some? ==> Collected(ops, membership, n, result.value.0, result.value.1, |ops|, 0)
  {
    var preds: seq<seq<nat>>, succs: seq<seq<nat>> := seq(n, _ => []), seq(n, _ => []);
    for op := 0 to |ops|
      invariant Collected(ops, membership, n, preds, succs, op, 0)
      invariant forall i, j | 0 <= i < op && j in ops[i].preds :: j < i
    {
      var part := 0;
      while part < |ops[op].preds|
        invariant 0 <= part <= |ops[op].preds|
        invariant Collected(ops, membership, n, preds, succs, op, part)
        invariant forall k | 0 <= k < part :: ops[op].preds[k] < op
      {
        var pred := ops[op].preds[part];
        assert pred in ops[op].preds;
        if pred >= op {
          return None;
        }
        CollectStep(ops, membership, n, preds, succs, op, part);
        var before, after := membership[pred], membership[op];
        if before != after {
          preds := preds[after := preds[after] + [before]];
          succs := succs[before := succs[before] + [after]];
        }
        part := part + 1;
      }
      forall a: nat, b: nat {
        SeenNext(ops, membership, a, b, op);
      }
    }
    return Some((preds, succs));
  }

  ghost predicate Accepted(ops: seq<Op>, costs: seq<real>, grain: real) {
    grain >= 0.0 && (costs == [] || |costs| == |ops|) && (forall c <- costs :: c >= 0.0) && Backward(ops)
  }

  /** The lowering: every admissible graph and cost vector is packed, and packed
      validly: no group of several operations costs more than the grain, and no
      chain is cut short of it. What is packed is admissible; what is not, is not,
      or has an operation whose one successor does not come later, which no graph
      with mutual edges has. */
  method LowerOpClusters(ops: seq<Op>, costs: seq<real>, grain: real) returns (result: Option<Graph>)
    ensures result.Some? ==> Accepted(ops, costs, grain)
    ensures result.None? ==> !Accepted(ops, costs, grain) || (grain > 0.0 && !SolesForward(ops))
    ensures MutualEdges(ops) ==> (result.Some? <==> Accepted(ops, costs, grain))
    ensures result.Some? ==>
      var g := result.value;
      && g.ops == ops && ValidClusters(g)
      && (forall c | 0 <= c < |g.clusters| && |g.clusters[c].members| > 1 ::
            grain > 0.0 && CostOf(costs, g.clusters[c].members) <= grain)
      && (forall c | 0 <= c < |g.clusters| :: Maximal(ops, costs, grain, g.clusters[c].members))
    ensures result.Some? ==>
      && grain >= 0.0 && (costs == [] || |costs| == |ops|) && (forall c <- costs :: c >= 0.0)
      && (forall i, j | 0 <= i < |ops| && j in ops[i].preds :: j < i)
    ensures result.Some? && grain > 0.0 ==> forall c, next |
      0 <= c < |result.value.clusters| && MightTakeIn(ops, result.value.clusters[c].members, next) ::
        CostOf(costs, result.value.clusters[c].members) + CostAt(costs, next) > grain
  {
    hide MightTakeIn, ValidClusters, Packed, Collected, MutualEdges, SolesForward, Maximal, CostOf;
    if grain < 0.0 || (costs != [] && |costs| != |ops|) {
      return None;
    }
    for k := 0 to |costs|
      invariant forall j | 0 <= j < k :: costs[j] >= 0.0
    {
      if costs[k] < 0.0 {
        assert costs[k] in costs;
        return None;
      }
    }
    if MutualEdges(ops) && Backward(ops) {
      MutualSolesForward(ops);
    }
    var packed := Pack(ops, costs, grain);
    if packed.None? {
      return None;
    }
    var groups := packed.value.0;
    var membership: seq<nat> := Assigned(ops, costs, grain, groups, packed.value.1);
    PackedSize(ops, costs, grain, groups, packed.value.1, |ops|);
    assert membership == packed.value.1;
    var edges := Connect(ops, membership, |groups|);
    if edges.None? {
      return None;
    }
    var g := Graph(ops, Clusters(groups, edges.value.0, edges.value.1), membership);
    LoweredIsValid(costs, grain, groups, membership, edges.value.0, edges.value.1, g);
    CollectedShape(ops, membership, |groups|, edges.value.0, edges.value.1);
    LoweredIsMaximal(costs, grain, groups, membership, edges.value.0, edges.value.1, g);
    return Some(g);
  }

  /** Once every operation is in a group, no membership is the sentinel. */
  function Assigned(
      ops: seq<Op>, costs: seq<real>, grain: real, groups: seq<seq<nat>>, membership: seq<int>): (r: seq<nat>)
    requires Packed(ops, costs, grain, groups, membership, |ops|)
    ensures |r| == |ops| && forall i | 0 <= i < |ops| :: r[i] == membership[i] < |groups|
  {
    seq(|ops|, i requires 0 <= i < |ops| => membership[i] as nat)
  }

  /** What was packed is within the grain, and nothing could be taken in. */
  lemma LoweredIsMaximal(
      costs: seq<real>, grain: real, groups: seq<seq<nat>>, membership: seq<nat>,
      preds: seq<seq<nat>>, succs: seq<seq<nat>>, g: Graph)
    requires Packed(g.ops, costs, grain, groups, membership, |g.ops|)
    requires |preds| == |succs| == |groups| && g.clusters == Clusters(groups, preds, succs)
    ensures forall c | 0 <= c < |g.clusters| ::
              0 < |g.clusters[c].members| && g.clusters[c].members[|g.clusters[c].members| - 1] < |g.ops|
    ensures forall c | 0 <= c < |g.clusters| && |g.clusters[c].members| > 1 ::
              grain > 0.0 && CostOf(costs, g.clusters[c].members) <= grain
    ensures forall c | 0 <= c < |g.clusters| :: Maximal(g.ops, costs, grain, g.clusters[c].members)
    ensures grain > 0.0 ==> forall c, next | 0 <= c < |g.clusters| && MightTakeIn(g.ops, g.clusters[c].members, next) ::
              CostOf(costs, g.clusters[c].members) + CostAt(costs, next) > grain
  {
    hide Chain, StrictlyIncreasing, CostOf, Maximal, MightTakeIn;
    forall c | 0 <= c < |g.clusters|
      ensures Group(g.ops, costs, grain, groups[c]) && Maximal(g.ops, costs, grain, groups[c])
    {
      LastInRange(g.ops, groups[c]);
    }
    forall c | 0 <= c < |g.clusters|
      ensures 0 < |groups[c]| && groups[c][|groups[c]| - 1] < |g.ops|
    {
      LastInRange(g.ops, groups[c]);
    }
    forall c, next | grain > 0.0 && 0 <= c < |g.clusters| && MightTakeIn(g.ops, g.clusters[c].members, next)
      ensures CostOf(costs, g.clusters[c].members) + CostAt(costs, next) > grain
    {
      MaximalTakesInNone(g.ops, costs, grain, g.clusters[c].members, next);
    }
  }

  lemma CollectedShape(
      ops: seq<Op>, membership: seq<nat>, n: nat, preds: seq<seq<nat>>, succs: seq<seq<nat>>)
    requires |membership| == |ops| && Collected(ops, membership, n, preds, succs, |ops|, 0)
    ensures |preds| == |succs| == n
  {}

  lemma LastInRange(ops: seq<Op>, members: seq<nat>)
    requires Chain(ops, members)
    ensures 0 < |members| ==> members[|members| - 1] < |ops|
  {}

  lemma QuotientIsSeen(g: Graph, a: nat, b: nat)
    requires Backward(g.ops) && |g.opClusters| == |g.ops|
    ensures Quotient(g, a, b) <==> Seen(g.ops, g.opClusters, a, b, |g.ops|, 0)
  {
    if Quotient(g, a, b) {
      var i: nat, j: nat :| Crosses(g, j, i, a, b);
      var k :| 0 <= k < |g.ops[i].preds| && g.ops[i].preds[k] == j;
      assert SeenAt(g.ops, g.opClusters, i, k, a, b, |g.ops|, 0);
    }
    if Seen(g.ops, g.opClusters, a, b, |g.ops|, 0) {
      var i: nat, k: nat :| SeenAt(g.ops, g.opClusters, i, k, a, b, |g.ops|, 0);
      assert g.ops[i].preds[k] in g.ops[i].preds;
      assert Crosses(g, g.ops[i].preds[k], i, a, b);
    }
  }

  lemma LoweredPartition(costs: seq<real>, grain: real, groups: seq<seq<nat>>, g: Graph)
    requires Packed(g.ops, costs, grain, groups, g.opClusters, |g.ops|)
    requires |g.clusters| == |groups| && forall c | 0 <= c < |groups| :: g.clusters[c].members == groups[c]
    ensures Partition(g)
  {
    forall c, i | 0 <= c < |g.clusters| && i in g.clusters[c].members ensures MemberOf(g, c, i) {
      var k :| 0 <= k < |groups[c]| && groups[c][k] == i;
    }
    forall c | 0 <= c < |g.clusters| ensures StrictlyIncreasing(g.clusters[c].members) {
      assert Group(g.ops, costs, grain, groups[c]);
    }
  }

  lemma LoweredEdges(groups: seq<seq<nat>>, preds: seq<seq<nat>>, succs: seq<seq<nat>>, g: Graph)
    requires Backward(g.ops) && |g.opClusters| == |g.ops|
    requires Collected(g.ops, g.opClusters, |groups|, preds, succs, |g.ops|, 0)
    requires g.clusters == Clusters(groups, preds, succs)
    ensures EdgesAreQuotient(g)
  {
    forall c | 0 <= c < |g.clusters|
      ensures StrictlyIncreasing(g.clusters[c].preds) && StrictlyIncreasing(g.clusters[c].succs)
      ensures forall a :: a in g.clusters[c].preds <==> Quotient(g, a, c)
      ensures forall a :: a in g.clusters[c].succs <==> Quotient(g, c, a)
    {
      UniqueSorts(preds[c]);
      UniqueSorts(succs[c]);
      forall a: nat ensures a in g.clusters[c].preds <==> Quotient(g, a, c) {
        QuotientIsSeen(g, a, c);
      }
      forall a: nat ensures a in g.clusters[c].succs <==> Quotient(g, c, a) {
        QuotientIsSeen(g, c, a);
      }
    }
  }

  lemma LoweredIsValid(
      costs: seq<real>, grain: real, groups: seq<seq<nat>>, membership: seq<nat>,
      preds: seq<seq<nat>>, succs: seq<seq<nat>>, g: Graph)
    requires Backward(g.ops) && Packed(g.ops, costs, grain, groups, membership, |g.ops|)
    requires Collected(g.ops, membership, |groups|, preds, succs, |g.ops|, 0)
    requires g.opClusters == membership && g.clusters == Clusters(groups, preds, succs)
    ensures ValidClusters(g)
  {
    LoweredPartition(costs, grain, groups, g);
    LoweredEdges(groups, preds, succs, g);
    forall c | 0 <= c < |g.clusters|
      ensures 0 < |g.clusters[c].members| <= MAX_MEMBERS && Chain(g.ops, g.clusters[c].members)
    {
      assert Group(g.ops, costs, grain, groups[c]);
    }
    assert |groups| > 0 ==> Group(g.ops, costs, grain, groups[0]) && groups[0][0] < |g.ops|;
  }
}
