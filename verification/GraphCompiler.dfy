/** From operation descriptors to a compiled graph (`RigExecCompileOpGraph`). */
module GraphCompiler {
  import opened Options
  import opened FiniteSets
  import opened Digraphs
  import opened OpGraph
  import opened TopologicalOrder
  import opened CanonicalOrder
  import opened Lowering
  import opened Descriptors
  import StrongComponents

  datatype Policy = Reject | SetAside

  // ---- Keys and producers --------------------------------------------------------------

  /** Written by an operation before `i`, or among the first `part` outputs of `i`. */
  ghost predicate Indexed(ds: seq<Descriptor>, i: nat, part: nat, j: nat, v: ValueId) {
    j < |ds| && if j == i then part <= |ds[i].outputs| && v in ds[i].outputs[..part] else j < i && v in ds[j].outputs
  }

  ghost predicate Producing(
      ds: seq<Descriptor>, leaves: seq<ValueId>, producers: map<ValueId, nat>, i: nat, part: nat) {
    && (forall v | v in producers :: Indexed(ds, i, part, producers[v], v))
    && (forall j, v | Indexed(ds, i, part, j, v) :: v in producers && producers[v] == j && v !in leaves)
  }

  lemma IndexStarts(ds: seq<Descriptor>, i: nat, j: nat, v: ValueId)
    requires i < |ds|
    ensures Indexed(ds, i + 1, 0, j, v) <==> Indexed(ds, i, |ds[i].outputs|, j, v)
  {
    assert ds[i].outputs[..|ds[i].outputs|] == ds[i].outputs;
  }

  lemma IndexStep(ds: seq<Descriptor>, i: nat, part: nat, j: nat, v: ValueId)
    requires i < |ds| && part < |ds[i].outputs|
    ensures Indexed(ds, i, part + 1, j, v) <==> Indexed(ds, i, part, j, v) || (j == i && v == ds[i].outputs[part])
  {
    assert ds[i].outputs[..part + 1] == ds[i].outputs[..part] + [ds[i].outputs[part]];
  }

  lemma ProducingStep(
      ds: seq<Descriptor>, leaves: seq<ValueId>, producers: map<ValueId, nat>, i: nat, part: nat, next: nat)
    requires i < |ds| && part < |ds[i].outputs| && Producing(ds, leaves, producers, i, part) && next == part + 1
    requires var v := ds[i].outputs[part]; v !in leaves && (v in producers ==> producers[v] == i)
    ensures Producing(ds, leaves, producers[ds[i].outputs[part] := i], i, next)
  {
    forall j: nat, v
      ensures Indexed(ds, i, next, j, v) <==> Indexed(ds, i, part, j, v) || (j == i && v == ds[i].outputs[part])
    {
      IndexStep(ds, i, part, j, v);
    }
    hide Indexed;
  }

  lemma ProducingNext(ds: seq<Descriptor>, leaves: seq<ValueId>, producers: map<ValueId, nat>, i: nat, next: nat)
    requires i < |ds| && Producing(ds, leaves, producers, i, |ds[i].outputs|) && next == i + 1
    ensures Producing(ds, leaves, producers, next, 0)
  {
    var all := |ds[i].outputs|;
    forall j: nat, v ensures Indexed(ds, next, 0, j, v) <==> Indexed(ds, i, all, j, v) {
      IndexStarts(ds, i, j, v);
    }
    hide Indexed;
  }

  ghost predicate OwnKeys(ds: seq<Descriptor>) {
    && (forall i | 0 <= i < |ds| :: ds[i].key != "")
    && (forall i, j | 0 <= i < |ds| && 0 <= j < |ds| && ds[i].key == ds[j].key :: i == j)
  }

  ghost predicate OwnValues(ds: seq<Descriptor>, leaves: seq<ValueId>) {
    && (forall i, j, v | Writes(ds, i, v) && Writes(ds, j, v) :: i == j)
    && (forall i, v | Writes(ds, i, v) :: v !in leaves)
  }

  ghost predicate IsIndex(ds: seq<Descriptor>, producers: map<ValueId, nat>) {
    && (forall v | v in producers :: Writes(ds, producers[v], v))
    && (forall j, v | Writes(ds, j, v) :: v in producers && producers[v] == j)
  }

  lemma AllIndexed(ds: seq<Descriptor>, leaves: seq<ValueId>, producers: map<ValueId, nat>)
    requires Producing(ds, leaves, producers, |ds|, 0)
    ensures IsIndex(ds, producers) && OwnValues(ds, leaves)
  {
    forall j: nat, v ensures Indexed(ds, |ds|, 0, j, v) <==> Writes(ds, j, v) {}
    hide Indexed, Writes;
  }

  lemma TwoProducers(
      ds: seq<Descriptor>, leaves: seq<ValueId>, producers: map<ValueId, nat>, i: nat, part: nat, v: ValueId)
    requires i < |ds| && part < |ds[i].outputs| && v == ds[i].outputs[part]
    requires Producing(ds, leaves, producers, i, part)
    requires (v in producers && producers[v] != i) || v in leaves
    ensures !OwnValues(ds, leaves)
  {
    assert Writes(ds, i, v);
    if v in producers {
      assert Indexed(ds, i, part, producers[v], v);
      assert producers[v] != i ==> Writes(ds, producers[v], v);
    }
  }

  /** Which operation writes each value, unless a key is empty or taken, a value
      has two producers, or a leaf is written. */
  method IndexProducers(ds: seq<Descriptor>, leaves: seq<ValueId>) returns (result: Option<map<ValueId, nat>>)
    ensures result.Some? <==> OwnKeys(ds) && OwnValues(ds, leaves)
    ensures result.Some? ==> IsIndex(ds, result.value)
  {
    hide Producing, OwnValues, IsIndex;
    var producers: map<ValueId, nat> := map[];
    var keys: set<string> := {};
    assert Producing(ds, leaves, producers, 0, 0) by { NothingIndexed(ds, leaves); }
    for i := 0 to |ds|
      invariant forall key :: key in keys <==> exists j :: 0 <= j < i && ds[j].key == key
      invariant forall j | 0 <= j < i :: ds[j].key != ""
      invariant forall j, k | 0 <= j < i && 0 <= k < i && ds[j].key == ds[k].key :: j == k
      invariant Producing(ds, leaves, producers, i, 0)
    {
      if ds[i].key == "" || ds[i].key in keys {
        return None;
      }
      keys := keys + {ds[i].key};
      for part := 0 to |ds[i].outputs|
        invariant Producing(ds, leaves, producers, i, part)
      {
        var v := ds[i].outputs[part];
        if (v in producers && producers[v] != i) || v in leaves {
          TwoProducers(ds, leaves, producers, i, part, v);
          return None;
        }
        ProducingStep(ds, leaves, producers, i, part, part + 1);
        producers := producers[v := i];
      }
      ProducingNext(ds, leaves, producers, i, i + 1);
    }
    AllIndexed(ds, leaves, producers);
    return Some(producers);
  }

  lemma NothingIndexed(ds: seq<Descriptor>, leaves: seq<ValueId>)
    ensures Producing(ds, leaves, map[], 0, 0)
  {}

  // ---- Dependences ---------------------------------------------------------------------

  ghost predicate Sourced(ds: seq<Descriptor>, leaves: seq<ValueId>, i: nat) {
    && i < |ds|
    && (forall p | p in ds[i].predecessors :: p < |ds|)
    && (forall v | v in ds[i].inputs :: v in leaves || exists j :: Writes(ds, j, v))
  }

  /** The predecessors of one operation, sorted, each once. */
  method PredsOf(ds: seq<Descriptor>, leaves: seq<ValueId>, producers: map<ValueId, nat>, i: nat)
    returns (result: Option<seq<nat>>)
    requires i < |ds| && IsIndex(ds, producers)
    ensures result.Some? <==> Sourced(ds, leaves, i)
    ensures result.Some? ==>
      StrictlyIncreasing(result.value) && forall j: nat :: j in result.value <==> DependsOn(ds, i, j)
  {
    var list := ds[i].predecessors;
    for k := 0 to |ds[i].predecessors|
      invariant forall m | 0 <= m < k :: ds[i].predecessors[m] < |ds|
    {
      if ds[i].predecessors[k] >= |ds| {
        assert ds[i].predecessors[k] in ds[i].predecessors;
        return None;
      }
    }
    for k := 0 to |ds[i].inputs|
      invariant forall m | 0 <= m < k :: ds[i].inputs[m] in producers || ds[i].inputs[m] in leaves
      invariant forall j :: j in list <==> j in ds[i].predecessors || ProducesSome(ds[i].inputs[..k], producers, j)
    {
      var v := ds[i].inputs[k];
      assert ds[i].inputs[..k + 1] == ds[i].inputs[..k] + [v];
      if v in producers {
        list := list + [producers[v]];
      } else if v !in leaves {
        assert v in ds[i].inputs;
        return None;
      }
    }
    assert ds[i].inputs[..|ds[i].inputs|] == ds[i].inputs;
    UniqueSorts(list);
    result := Some(Unique(list));
    ListIsDependence(ds, producers, i, list);
  }

  ghost predicate ProducesSome(values: seq<ValueId>, producers: map<ValueId, nat>, j: nat) {
    exists v :: v in values && v in producers && producers[v] == j
  }

  lemma ListIsDependence(ds: seq<Descriptor>, producers: map<ValueId, nat>, i: nat, list: seq<nat>)
    requires i < |ds| && IsIndex(ds, producers) && forall p <- ds[i].predecessors :: p < |ds|
    requires forall j :: j in list <==> j in ds[i].predecessors || ProducesSome(ds[i].inputs, producers, j)
    ensures forall j: nat :: j in list <==> DependsOn(ds, i, j)
  {
    forall j: nat
      ensures ProducesSome(ds[i].inputs, producers, j) <==> exists v :: v in ds[i].inputs && Writes(ds, j, v)
    {
      if v :| v in ds[i].inputs && Writes(ds, j, v) {
        assert v in producers && producers[v] == j;
      }
    }
  }

  /** The predecessors of the operations before `i` are known, and their
      successors' lists hold exactly these. */
  ghost predicate Connecting(
      ds: seq<Descriptor>, preds: StrongComponents.Lists, succs: StrongComponents.Lists, i: nat, part: nat)
  {
    && |preds| == |succs| == |ds|
    && (forall a: nat | a < i && a < |ds| :: StrictlyIncreasing(preds[a]))
    && (forall a: nat, b: nat | a < i && a < |ds| :: b in preds[a] <==> DependsOn(ds, a, b))
    && (forall b: nat, a: nat | b < |ds| && a in succs[b] :: Linked(preds, i, part, a, b))
    && (forall b: nat, a: nat | b < |ds| && Linked(preds, i, part, a, b) :: a in succs[b])
  }

  ghost predicate Linked(preds: StrongComponents.Lists, i: nat, part: nat, a: nat, b: nat) {
    a < |preds| && if a == i then part <= |preds[i]| && b in preds[i][..part] else a < i && b in preds[a]
  }

  lemma LinkStep(preds: StrongComponents.Lists, i: nat, part: nat, a: nat, b: nat)
    requires i < |preds| && part < |preds[i]|
    ensures Linked(preds, i, part + 1, a, b) <==> Linked(preds, i, part, a, b) || (a == i && b == preds[i][part])
  {
    assert preds[i][..part + 1] == preds[i][..part] + [preds[i][part]];
  }

  lemma LinkNext(preds: StrongComponents.Lists, i: nat, a: nat, b: nat)
    requires i < |preds|
    ensures Linked(preds, i + 1, 0, a, b) <==> Linked(preds, i, |preds[i]|, a, b)
  {
    assert preds[i][..|preds[i]|] == preds[i];
  }

  lemma ConnectStep(
      ds: seq<Descriptor>, preds: StrongComponents.Lists, succs: StrongComponents.Lists, i: nat, part: nat)
    requires i < |ds| && Connecting(ds, preds, succs, i, part) && part < |preds[i]| && preds[i][part] < |ds|
    ensures
      var p := preds[i][part];
      Connecting(ds, preds, succs[p := succs[p] + [i]], i, part + 1)
  {
    forall a: nat, b: nat
      ensures Linked(preds, i, part + 1, a, b) <==> Linked(preds, i, part, a, b) || (a == i && b == preds[i][part])
    {
      LinkStep(preds, i, part, a, b);
    }
    hide Linked, DependsOn, StrictlyIncreasing;
    var p := preds[i][part];
    var after := succs[p := succs[p] + [i]];
    assert forall b: nat, a: nat | b < |ds| :: a in after[b] <==> a in succs[b] || (a == i && b == p);
  }

  lemma ConnectPreds(
      ds: seq<Descriptor>, preds: StrongComponents.Lists, succs: StrongComponents.Lists, i: nat, list: seq<nat>)
    requires i < |ds| && Connecting(ds, preds, succs, i, 0)
    ensures Connecting(ds, preds[i := list], succs, i, 0)
  {
    hide DependsOn, StrictlyIncreasing;
  }

  lemma ConnectNext(ds: seq<Descriptor>, preds: StrongComponents.Lists, succs: StrongComponents.Lists, i: nat)
    requires i < |ds| && |preds| == |ds| && Connecting(ds, preds, succs, i, |preds[i]|)
    requires StrictlyIncreasing(preds[i]) && forall b: nat :: b in preds[i] <==> DependsOn(ds, i, b)
    ensures Connecting(ds, preds, succs, i + 1, 0)
  {
    forall a: nat, b: nat ensures Linked(preds, i + 1, 0, a, b) <==> Linked(preds, i, |preds[i]|, a, b) {
      LinkNext(preds, i, a, b);
    }
    hide Linked, DependsOn, StrictlyIncreasing;
  }

  /** The dependences as sorted lists in both directions. */
  ghost predicate Connected(ds: seq<Descriptor>, preds: StrongComponents.Lists, succs: StrongComponents.Lists) {
    && StrongComponents.Inverse(succs, preds) && |preds| == |ds|
    && Sorted(preds) && Sorted(succs)
    && (forall a: nat, b: nat | a < |ds| :: b in preds[a] <==> DependsOn(ds, a, b))
  }

  method SortAll(lists: StrongComponents.Lists) returns (sorted: StrongComponents.Lists)
    ensures Sorted(sorted) && |sorted| == |lists|
    ensures forall b: nat, a | b < |lists| :: a in sorted[b] <==> a in lists[b]
  {
    hide StrictlyIncreasing;
    sorted := [];
    for b := 0 to |lists|
      invariant |sorted| == b && Sorted(sorted)
      invariant forall c: nat, a | c < b :: a in sorted[c] <==> a in lists[c]
    {
      UniqueSorts(lists[b]);
      sorted := sorted + [Unique(lists[b])];
    }
  }

  lemma ConnectedAtEnd(
      ds: seq<Descriptor>, preds: StrongComponents.Lists, succs: StrongComponents.Lists, sorted: StrongComponents.Lists)
    requires Connecting(ds, preds, succs, |ds|, 0) && Sorted(sorted) && |sorted| == |ds|
    requires forall b: nat, a | b < |ds| :: a in sorted[b] <==> a in succs[b]
    ensures Connected(ds, preds, sorted)
  {
    hide StrictlyIncreasing;
    forall a: nat, b: nat ensures Linked(preds, |ds|, 0, a, b) <==> a < |ds| && b in preds[a] {}
    forall a: nat, b: nat | DependsOn(ds, a, b) ensures b < |ds| {}
    hide Linked, DependsOn;
    forall a: nat, b: nat | a < |ds| && b < |ds| ensures b in sorted[a] <==> a in preds[b] {
      assert b in succs[a] <==> Linked(preds, |ds|, 0, b, a);
    }
    forall a: nat, b: nat | a < |ds| && b in sorted[a] ensures b < |ds| {
      assert b in succs[a];
    }
  }

  method Connect(ds: seq<Descriptor>, leaves: seq<ValueId>, producers: map<ValueId, nat>)
    returns (result: Option<(StrongComponents.Lists, StrongComponents.Lists)>)
    requires IsIndex(ds, producers)
    ensures result.Some? <==> forall i: nat | i < |ds| :: Sourced(ds, leaves, i)
    ensures result.Some? ==> Connected(ds, result.value.0, result.value.1)
  {
    hide IsIndex, Sourced, StrictlyIncreasing, Connecting, DependsOn;
    var preds: StrongComponents.Lists, succs: StrongComponents.Lists := seq(|ds|, _ => []), seq(|ds|, _ => []);
    assert Connecting(ds, preds, succs, 0, 0) by { NothingConnected(ds); }
    for i := 0 to |ds|
      invariant |preds| == |succs| == |ds| && Connecting(ds, preds, succs, i, 0)
      invariant forall j: nat | j < i :: Sourced(ds, leaves, j)
    {
      var list := PredsOf(ds, leaves, producers, i);
      if list.None? {
        return None;
      }
      ConnectPreds(ds, preds, succs, i, list.value);
      preds := preds[i := list.value];
      for part := 0 to |preds[i]|
        invariant |succs| == |ds| && Connecting(ds, preds, succs, i, part)
      {
        var p := preds[i][part];
        assert p in preds[i];
        InRangeOfDependence(ds, i, p);
        ConnectStep(ds, preds, succs, i, part);
        succs := succs[p := succs[p] + [i]];
      }
      ConnectNext(ds, preds, succs, i);
    }
    var sorted := SortAll(succs);
    ConnectedAtEnd(ds, preds, succs, sorted);
    return Some((preds, sorted));
  }

  lemma NothingConnected(ds: seq<Descriptor>)
    ensures Connecting(ds, seq(|ds|, _ => []), seq(|ds|, _ => []), 0, 0)
  {}

  // ---- Loops ---------------------------------------------------------------------------

  lemma CycleIsLoop(ds: seq<Descriptor>, preds: StrongComponents.Lists, succs: StrongComponents.Lists, i: nat)
    requires Connected(ds, preds, succs) && StrongComponents.OnCycle(succs, i)
    ensures OnLoop(ds, i)
  {
    hide DependsOn, Sorted;
    var edges := StrongComponents.EdgesOf(succs);
    var next :| next in succs[i] && StrongComponents.Joined(succs, next, i);
    var q :| IsPath(edges, q) && q[0] == next && q[|q| - 1] == i;
    var p := [i] + q;
    forall k: nat | k < |p| - 1 ensures DependsOn(ds, p[k + 1], p[k]) {
      assert p[k + 1] == q[k];
      if k > 0 {
        assert p[k] == q[k - 1] && q[k - 1 + 1] in Succ(edges, q[k - 1]);
      }
      assert p[k] < |succs| && p[k + 1] in succs[p[k]];
    }
    assert Dependences(ds, p);
  }

  lemma LoopIsCycle(ds: seq<Descriptor>, preds: StrongComponents.Lists, succs: StrongComponents.Lists, i: nat)
    requires Connected(ds, preds, succs) && OnLoop(ds, i)
    ensures StrongComponents.OnCycle(succs, i)
  {
    hide DependsOn, Sorted;
    var edges := StrongComponents.EdgesOf(succs);
    var p :| |p| > 1 && Dependences(ds, p) && p[0] == i == p[|p| - 1];
    forall k: nat | k < |p| - 1 ensures p[k] < |succs| && p[k + 1] in succs[p[k]] {
      assert DependsOn(ds, p[k + 1], p[k]);
      InRangeOfDependence(ds, p[k + 1], p[k]);
    }
    var q := p[1..];
    forall k: nat | k < |q| - 1 ensures q[k + 1] in Succ(edges, q[k]) {
      assert p[k + 1 + 1] in succs[p[k + 1]];
    }
    assert p[0 + 1] in succs[p[0]];
    assert IsPath(edges, q) && q[0] == p[1] && q[|q| - 1] == i;
    assert StrongComponents.Joined(succs, p[1], i);
  }

  /** Marks the members of every component that holds a cycle. */
  method MarkExcluded(n: nat, components: seq<seq<nat>>) returns (excluded: seq<bool>)
    requires forall c, v | 0 <= c < |components| && v in components[c] :: v < n
    ensures |excluded| == n
    ensures forall v: nat | v < n :: excluded[v] <==> exists c :: 0 <= c < |components| && v in components[c]
  {
    excluded := seq(n, _ => false);
    for c := 0 to |components|
      invariant |excluded| == n
      invariant forall v: nat | v < n :: excluded[v] <==> exists d :: 0 <= d < c && v in components[d]
    {
      ghost var before := excluded;
      for k := 0 to |components[c]|
        invariant |excluded| == n
        invariant forall v: nat | v < n :: excluded[v] <==> before[v] || v in components[c][..k]
      {
        assert components[c][k] in components[c];
        assert components[c][..k + 1] == components[c][..k] + [components[c][k]];
        excluded := excluded[components[c][k] := true];
      }
      assert components[c][..|components[c]|] == components[c];
    }
  }

  ghost predicate Excludes(ds: seq<Descriptor>, excluded: seq<bool>) {
    |excluded| == |ds| && forall i: nat | i < |ds| :: excluded[i] <==> OnLoop(ds, i)
  }

  lemma ExcludedAreLoops(
      ds: seq<Descriptor>, preds: StrongComponents.Lists, succs: StrongComponents.Lists, excluded: seq<bool>)
    requires Connected(ds, preds, succs) && |excluded| == |ds|
    requires forall v: nat | v < |ds| :: excluded[v] <==> StrongComponents.OnCycle(succs, v)
    ensures Excludes(ds, excluded) && ExcludesCycles(succs, excluded)
  {
    hide OnLoop, StrongComponents.OnCycle;
    forall i: nat | i < |ds| ensures excluded[i] <==> OnLoop(ds, i) {
      if StrongComponents.OnCycle(succs, i) {
        CycleIsLoop(ds, preds, succs, i);
      }
      if OnLoop(ds, i) {
        LoopIsCycle(ds, preds, succs, i);
      }
    }
  }

  lemma LoopsInRange(ds: seq<Descriptor>, i: nat)
    requires OnLoop(ds, i)
    ensures i < |ds|
  {
    hide DependsOn;
    var p :| |p| > 1 && Dependences(ds, p) && p[0] == i == p[|p| - 1];
    DependenceInRange(ds, p, 0);
  }

  // ---- The order -----------------------------------------------------------------------

  lemma ReadyIsPlaceable(
      ds: seq<Descriptor>, preds: StrongComponents.Lists, succs: StrongComponents.Lists, excluded: seq<bool>,
      placed: seq<nat>, r: nat)
    requires Connected(ds, preds, succs) && Excludes(ds, excluded)
    ensures IsReady(Active(preds, succs, excluded), placed, r) <==> Placeable(ds, placed, r)
  {
    hide DependsOn, OnLoop, Sorted, Kept;
    forall j: nat | DependsOn(ds, r, j) ensures r < |ds| && j < |ds| {
      InRangeOfDependence(ds, r, j);
    }
    if r < |ds| && !excluded[r] {
      assert Active(preds, succs, excluded)[r].preds == Kept(preds[r], excluded);
    }
  }

  lemma CanonicalIsKeyOrder(
      ds: seq<Descriptor>, preds: StrongComponents.Lists, succs: StrongComponents.Lists, excluded: seq<bool>,
      keys: seq<string>, order: seq<nat>)
    requires Connected(ds, preds, succs) && Excludes(ds, excluded)
    requires |keys| == |ds| && forall i | 0 <= i < |ds| :: keys[i] == ds[i].key
    requires Canonical(Active(preds, succs, excluded), keys, order)
    requires forall c: nat | c < |ds| :: c in order <==> !excluded[c]
    ensures KeyOrder(ds, order)
  {
    hide StrongComponents.Inverse, Sorted, DependsOn, OnLoop, Placeable, IsReady, Less, Kept;
    StrongComponents.InverseShape(succs, preds);
    var active := Active(preds, succs, excluded);
    forall k: nat | k < |order| ensures LeastPlaceable(ds, order[..k], order[k]) {
      NextIsReady(active, order, k);
      ReadyIsPlaceable(ds, preds, succs, excluded, order[..k], order[k]);
      assert LeastAt(active, keys, order[..k], order[k]);
      PlaceableShape(ds, order[..k], order[k]);
      forall j: nat | Placeable(ds, order[..k], j) && j != order[k]
        ensures j < |ds| && Less(ds[order[k]].key, ds[j].key)
      {
        PlaceableShape(ds, order[..k], j);
        ReadyIsPlaceable(ds, preds, succs, excluded, order[..k], j);
      }
    }
  }

  lemma NextIsReady(active: seq<Cluster>, order: seq<nat>, k: nat)
    requires Ordered(active, order) && k < |order|
    ensures IsReady(active, order[..k], order[k])
  {}

  // ---- The compiled operations ---------------------------------------------------------

  /** Where the kept operations are in the order. */
  ghost predicate Placed(order: seq<nat>, excluded: seq<bool>, index: seq<int>) {
    && |index| == |excluded|
    && (forall k | 0 <= k < |order| :: order[k] < |index| && !excluded[order[k]] && index[order[k]] == k)
    && (forall i: nat | i < |excluded| && !excluded[i] :: i in order)
    && (forall i: nat | i < |excluded| && excluded[i] :: index[i] == -1)
  }

  method IndexOrder(ds: seq<Descriptor>, order: seq<nat>, excluded: seq<bool>) returns (index: seq<int>)
    requires KeyOrder(ds, order) && Excludes(ds, excluded)
    ensures Placed(order, excluded, index)
  {
    hide KeyOrder, OnLoop;
    forall k: nat | k < |order| ensures order[k] < |ds| && !OnLoop(ds, order[k]) {
      PlacedShape(ds, order, k);
    }
    forall i: nat | i < |excluded| && !excluded[i] ensures i in order {
      AllArePlaced(ds, order, i);
    }
    index := seq(|ds|, _ => -1);
    for k := 0 to |order|
      invariant |index| == |ds| && forall j | 0 <= j < k :: index[order[j]] == j
      invariant forall i: nat | i < |excluded| && excluded[i] :: index[i] == -1
    {
      forall j: nat | j < k ensures order[j] != order[k] {
        PlacedOnce(ds, order, j, k);
      }
      index := index[order[k] := k];
    }
  }

  ghost predicate PlaceOf(order: seq<nat>, list: seq<nat>, j: nat) {
    j < |order| && order[j] in list
  }

  /** The places of the kept entries of a list, sorted, each once. */
  method PlacesOf(list: seq<nat>, excluded: seq<bool>, ghost order: seq<nat>, index: seq<int>)
    returns (places: seq<nat>)
    requires Placed(order, excluded, index) && forall x <- list :: x < |excluded|
    ensures StrictlyIncreasing(places)
    ensures forall j: nat :: j in places <==> PlaceOf(order, list, j)
  {
    hide StrictlyIncreasing;
    var found: seq<nat> := [];
    for k := 0 to |list|
      invariant forall j: nat :: j in found <==> j < |order| && order[j] in list[..k]
    {
      assert list[k] in list;
      assert list[..k + 1] == list[..k] + [list[k]];
      if !excluded[list[k]] {
        PlaceIsFound(order, excluded, index, list[k]);
        found := found + [index[list[k]]];
      }
    }
    assert list[..|list|] == list;
    UniqueSorts(found);
    places := Unique(found);
  }

  lemma PlaceIsFound(order: seq<nat>, excluded: seq<bool>, index: seq<int>, x: nat)
    requires Placed(order, excluded, index) && x < |excluded| && !excluded[x]
    ensures 0 <= index[x] < |order| && order[index[x]] == x
    ensures forall j | 0 <= j < |order| && order[j] == x :: j == index[x]
  {
    var k :| 0 <= k < |order| && order[k] == x;
  }

  ghost predicate ReadersUpTo(ops: seq<Op>, readers: map<ValueId, seq<nat>>, i: nat, part: nat) {
    && (forall v, j | ReadUpTo(ops, i, part, j, v) :: v in readers && j in readers[v])
    && (forall v | v in readers :: readers[v] != [])
    && (forall v, j | v in readers && j in readers[v] :: ReadUpTo(ops, i, part, j, v))
  }

  ghost predicate ReadUpTo(ops: seq<Op>, i: nat, part: nat, j: nat, v: ValueId) {
    j < |ops| && if j == i then part <= |ops[i].inputs| && v in ops[i].inputs[..part] else j < i && v in ops[j].inputs
  }

  function ReaderAdded(readers: map<ValueId, seq<nat>>, v: ValueId, i: nat): map<ValueId, seq<nat>> {
    readers[v := (if v in readers then readers[v] else []) + [i]]
  }

  lemma ReadersStep(ops: seq<Op>, readers: map<ValueId, seq<nat>>, i: nat, part: nat, next: nat)
    requires i < |ops| && part < |ops[i].inputs| && next == part + 1 && ReadersUpTo(ops, readers, i, part)
    ensures ReadersUpTo(ops, ReaderAdded(readers, ops[i].inputs[part], i), i, next)
  {
    var u := ops[i].inputs[part];
    assert ops[i].inputs[..next] == ops[i].inputs[..part] + [u];
    forall j: nat, v
      ensures ReadUpTo(ops, i, next, j, v) <==> ReadUpTo(ops, i, part, j, v) || (j == i && v == u)
    {}
    hide ReadUpTo;
    var after := ReaderAdded(readers, u, i);
    assert forall v, j | v in after && j in after[v] :: (v in readers && j in readers[v]) || (v == u && j == i);
  }

  lemma ReadersNext(ops: seq<Op>, readers: map<ValueId, seq<nat>>, i: nat, next: nat)
    requires i < |ops| && next == i + 1 && ReadersUpTo(ops, readers, i, |ops[i].inputs|)
    ensures ReadersUpTo(ops, readers, next, 0)
  {
    var all := |ops[i].inputs|;
    assert ops[i].inputs[..all] == ops[i].inputs;
    forall j: nat, v ensures ReadUpTo(ops, next, 0, j, v) <==> ReadUpTo(ops, i, all, j, v) {}
    hide ReadUpTo;
  }

  method SortReaders(readers: map<ValueId, seq<nat>>) returns (sorted: map<ValueId, seq<nat>>)
    requires forall v | v in readers :: readers[v] != []
    ensures forall v :: v in sorted <==> v in readers
    ensures forall v | v in sorted :: StrictlyIncreasing(sorted[v]) && sorted[v] != []
    ensures forall v, i | v in sorted :: i in sorted[v] <==> i in readers[v]
  {
    hide StrictlyIncreasing;
    sorted := map[];
    var values := readers.Keys;
    while values != {}
      invariant values <= readers.Keys
      invariant forall v :: v in sorted <==> v in readers && v !in values
      invariant forall v | v in sorted :: StrictlyIncreasing(sorted[v]) && sorted[v] != []
      invariant forall v, i | v in sorted :: i in sorted[v] <==> i in readers[v]
    {
      var v :| v in values;
      UniqueSorts(readers[v]);
      assert readers[v][0] in Unique(readers[v]);
      sorted := sorted[v := Unique(readers[v])];
      values := values - {v};
    }
  }

  /** For every value the operations that read it. */
  method ListReaders(ops: seq<Op>) returns (readers: map<ValueId, seq<nat>>)
    ensures ReadersOf(ops, readers)
  {
    hide ReadersUpTo, StrictlyIncreasing;
    var found: map<ValueId, seq<nat>> := map[];
    assert ReadersUpTo(ops, found, 0, 0) by { NothingRead(ops); }
    for i := 0 to |ops|
      invariant ReadersUpTo(ops, found, i, 0)
    {
      for part := 0 to |ops[i].inputs|
        invariant ReadersUpTo(ops, found, i, part)
      {
        ReadersStep(ops, found, i, part, part + 1);
        found := ReaderAdded(found, ops[i].inputs[part], i);
      }
      ReadersNext(ops, found, i, i + 1);
    }
    AllRead(ops, found);
    readers := SortReaders(found);
  }

  lemma NothingRead(ops: seq<Op>)
    ensures ReadersUpTo(ops, map[], 0, 0)
  {}

  lemma AllRead(ops: seq<Op>, readers: map<ValueId, seq<nat>>)
    requires ReadersUpTo(ops, readers, |ops|, 0)
    ensures forall v | v in readers :: readers[v] != []
    ensures forall i, v | ReadAt(ops, i, v) :: v in readers
    ensures forall v, i | v in readers :: i in readers[v] <==> ReadAt(ops, i, v)
  {
    var all := |ops|;
    forall j: nat, v ensures ReadUpTo(ops, all, 0, j, v) <==> ReadAt(ops, j, v) {}
    hide ReadUpTo, ReadAt;
  }

  /** The operations in their order, each with its dependences by place. */
  method BuildOps(
      ds: seq<Descriptor>, preds: StrongComponents.Lists, succs: StrongComponents.Lists, excluded: seq<bool>,
      order: seq<nat>, index: seq<int>)
    returns (ops: seq<Op>)
    requires Connected(ds, preds, succs) && |excluded| == |ds| && Placed(order, excluded, index)
    ensures OpsOf(ds, order, ops)
  {
    hide DependsOn, Sorted, StrictlyIncreasing, Placed, PlaceOf, OpsOf;
    PlacesInRange(order, excluded, index);
    ops := [];
    for k := 0 to |order|
      invariant |ops| == k
      invariant forall i: nat | i < k :: ops[i].inputs == ds[order[i]].inputs && ops[i].outputs == ds[order[i]].outputs
      invariant forall i: nat | i < k :: StrictlyIncreasing(ops[i].preds) && StrictlyIncreasing(ops[i].succs)
      invariant forall i: nat, j: nat | i < k :: j in ops[i].preds <==> PlaceOf(order, preds[order[i]], j)
      invariant forall i: nat, j: nat | i < k :: j in ops[i].succs <==> PlaceOf(order, succs[order[i]], j)
    {
      var original := order[k];
      var predecessors := PlacesOf(preds[original], excluded, order, index);
      var successors := PlacesOf(succs[original], excluded, order, index);
      ops := ops + [Op(ds[original].inputs, ds[original].outputs, predecessors, successors)];
    }
    BuiltOps(ds, preds, succs, order, ops);
  }

  lemma BuiltOps(
      ds: seq<Descriptor>, preds: StrongComponents.Lists, succs: StrongComponents.Lists, order: seq<nat>, ops: seq<Op>)
    requires |preds| == |succs| == |ds| && Connected(ds, preds, succs)
    requires |ops| == |order| && forall k | 0 <= k < |order| :: order[k] < |ds|
    requires forall i: nat | i < |ops| ::
               ops[i].inputs == ds[order[i]].inputs && ops[i].outputs == ds[order[i]].outputs
    requires forall i: nat | i < |ops| :: StrictlyIncreasing(ops[i].preds) && StrictlyIncreasing(ops[i].succs)
    requires forall i: nat, j: nat | i < |ops| :: j in ops[i].preds <==> PlaceOf(order, preds[order[i]], j)
    requires forall i: nat, j: nat | i < |ops| :: j in ops[i].succs <==> PlaceOf(order, succs[order[i]], j)
    ensures OpsOf(ds, order, ops)
  {
    hide Connected, Follows, PlaceOf, StrictlyIncreasing;
    forall k: nat, j: nat | k < |ops| ensures j in ops[k].preds <==> Follows(ds, order, k, j) {
      FollowsByLists(ds, preds, succs, order, k, j);
    }
    forall k: nat, j: nat | k < |ops| ensures j in ops[k].succs <==> Follows(ds, order, j, k) {
      FollowsByLists(ds, preds, succs, order, j, k);
    }
  }

  lemma FollowsByLists(
      ds: seq<Descriptor>, preds: StrongComponents.Lists, succs: StrongComponents.Lists, order: seq<nat>,
      k: nat, j: nat)
    requires Connected(ds, preds, succs) && forall i | 0 <= i < |order| :: order[i] < |ds|
    ensures |preds| == |succs| == |ds|
    ensures k < |order| ==> (Follows(ds, order, k, j) <==> PlaceOf(order, preds[order[k]], j))
    ensures j < |order| ==> (Follows(ds, order, k, j) <==> PlaceOf(order, succs[order[j]], k))
  {
    hide DependsOn, Sorted;
    if k < |order| && j < |order| {
      assert order[j] in preds[order[k]] <==> DependsOn(ds, order[k], order[j]);
    }
  }

  lemma PlacesInRange(order: seq<nat>, excluded: seq<bool>, index: seq<int>)
    requires Placed(order, excluded, index)
    ensures forall k | 0 <= k < |order| :: order[k] < |excluded|
  {}

  method ListVolatile(ds: seq<Descriptor>, order: seq<nat>) returns (ops: seq<nat>)
    requires forall k | 0 <= k < |order| :: order[k] < |ds|
    ensures StrictlyIncreasing(ops) && forall k: nat :: k in ops <==> Volatile(ds, order, k)
  {
    ops := [];
    for k := 0 to |order|
      invariant StrictlyIncreasing(ops) && forall i | 0 <= i < |ops| :: ops[i] < k
      invariant forall i: nat :: i in ops <==> i < k && Volatile(ds, order, i)
    {
      if ds[order[k]].volatileInput {
        ops := ops + [k];
      }
    }
  }

  // ---- The compiler --------------------------------------------------------------------

  lemma AdmissibleInParts(ds: seq<Descriptor>, leaves: seq<ValueId>)
    ensures Admissible(ds, leaves) <==>
              |ds| <= MAX_OPERATIONS && OwnKeys(ds) && OwnValues(ds, leaves)
              && forall i: nat | i < |ds| :: Sourced(ds, leaves, i)
  {
    if forall i: nat | i < |ds| :: Sourced(ds, leaves, i) {
      forall i: nat, p | i < |ds| && p in ds[i].predecessors ensures p < |ds| {
        assert Sourced(ds, leaves, i);
      }
      forall i: nat, v | i < |ds| && v in ds[i].inputs ensures v in leaves || exists j :: Writes(ds, j, v) {
        assert Sourced(ds, leaves, i);
      }
    }
  }

  /** Why descriptors are refused: too many of them, an empty key, a key taken, a
      value with two producers, a leaf written, a predecessor that is none, or a
      read that neither a leaf nor an operation supplies. */
  ghost predicate Faulty(ds: seq<Descriptor>, leaves: seq<ValueId>) {
    || |ds| > 0xFFFF_FFFF
    || (exists i :: 0 <= i < |ds| && ds[i].key == "")
    || (exists i, j :: 0 <= i < |ds| && 0 <= j < |ds| && i != j && ds[i].key == ds[j].key)
    || (exists i, j, v :: Writes(ds, i, v) && Writes(ds, j, v) && i != j)
    || (exists i, v :: Writes(ds, i, v) && v in leaves)
    || (exists i, p :: 0 <= i < |ds| && p in ds[i].predecessors && p >= |ds|)
    || (exists i, v :: 0 <= i < |ds| && v in ds[i].inputs && Unsupplied(ds, leaves, v))
  }

  ghost predicate Unsupplied(ds: seq<Descriptor>, leaves: seq<ValueId>, v: ValueId) {
    v !in leaves && forall j | 0 <= j < |ds| :: v !in ds[j].outputs
  }

  lemma UnsuppliedMeaning(ds: seq<Descriptor>, leaves: seq<ValueId>, v: ValueId)
    ensures Unsupplied(ds, leaves, v) <==> !(v in leaves || exists j: nat :: Writes(ds, j, v))
  {
    if j :| 0 <= j < |ds| && v in ds[j].outputs {
      assert Writes(ds, j, v);
    }
  }

  lemma FaultyIsInadmissible(ds: seq<Descriptor>, leaves: seq<ValueId>)
    ensures Faulty(ds, leaves) <==> !Admissible(ds, leaves)
  {
    forall v ensures Unsupplied(ds, leaves, v) <==> !(v in leaves || exists j: nat :: Writes(ds, j, v)) {
      UnsuppliedMeaning(ds, leaves, v);
    }
    hide Unsupplied, Writes;
  }

  lemma SomeLoop(ds: seq<Descriptor>)
    ensures (exists i :: OnLoop(ds, i)) <==> exists p :: Loops(ds, p)
  {
    hide OnLoop;
    if i: nat :| OnLoop(ds, i) {
      LoopMeaning(ds, i);
    }
    if p :| Loops(ds, p) {
      LoopBack(ds, p);
    }
  }

  /** Which operations are on a loop. */
  method FindExcluded(ds: seq<Descriptor>, preds: StrongComponents.Lists, succs: StrongComponents.Lists)
    returns (excluded: seq<bool>, cyclic: bool)
    requires Connected(ds, preds, succs)
    ensures Excludes(ds, excluded) && ExcludesCycles(succs, excluded)
    ensures cyclic <==> exists i :: OnLoop(ds, i)
  {
    hide OnLoop, StrongComponents.OnCycle, DependsOn, Sorted, StrongComponents.IsWhole;
    var components := StrongComponents.Components(succs, preds);
    forall c, v | 0 <= c < |components| && v in components[c] ensures v < |ds| {
      CycleInRange(succs, v);
    }
    excluded := MarkExcluded(|ds|, components);
    ExcludedAreLoops(ds, preds, succs, excluded);
    cyclic := components != [];
    if cyclic {
      WholeIsNotEmpty(succs, components[0]);
      var v :| v in components[0];
      assert excluded[v];
    }
    if i: nat :| OnLoop(ds, i) {
      LoopsInRange(ds, i);
      assert excluded[i];
    }
  }

  lemma CycleInRange(succs: StrongComponents.Lists, v: nat)
    requires StrongComponents.OnCycle(succs, v)
    ensures v < |succs|
  {}

  lemma WholeIsNotEmpty(succs: StrongComponents.Lists, component: seq<nat>)
    requires StrongComponents.IsWhole(succs, component)
    ensures exists v :: v in component
  {}

  method KeysOf(ds: seq<Descriptor>) returns (keys: seq<string>)
    ensures |keys| == |ds| && forall i | 0 <= i < |ds| :: keys[i] == ds[i].key
  {
    keys := seq(|ds|, i requires 0 <= i < |ds| => ds[i].key);
  }

  method Order(
      ds: seq<Descriptor>, preds: StrongComponents.Lists, succs: StrongComponents.Lists, excluded: seq<bool>)
    returns (order: seq<nat>)
    requires OwnKeys(ds) && Connected(ds, preds, succs) && Excludes(ds, excluded) && ExcludesCycles(succs, excluded)
    ensures KeyOrder(ds, order)
  {
    hide OnLoop, StrongComponents.OnCycle, DependsOn, Canonical, Stuck, Kept, KeyOrder;
    var keys := KeysOf(ds);
    order := OrderCanonically(preds, succs, excluded, keys);
    forall c: nat | c < |ds| ensures c in order <==> !excluded[c] {
      StuckIffExcluded(preds, succs, excluded, c);
    }
    CanonicalIsKeyOrder(ds, preds, succs, excluded, keys, order);
  }

  /** Lowering at grain zero: every operation its own cluster. */
  method LowerSingly(ops: seq<Op>) returns (graph: Graph)
    requires ForwardEdges(ops)
    ensures graph.ops == ops && ValidClusters(graph) && Singletons(graph)
  {
    hide ValidClusters;
    var lowered := LowerOpClusters(ops, [], 0.0);
    graph := lowered.value;
    ClustersAreNotEmpty(graph);
  }

  lemma ClustersAreNotEmpty(g: Graph)
    requires ValidClusters(g)
    ensures forall c | 0 <= c < |g.clusters| :: |g.clusters[c].members| > 0
  {}

  /** Everything admissible compiles, unless there is a loop and loops are
      rejected; what is compiled is the graph of the operations on no loop, in the
      order of their keys. */
  method CompileOpGraph(ds: seq<Descriptor>, leaves: seq<ValueId>, policy: Policy) returns (result: Option<Compiled>)
    ensures result.Some? <==> Admissible(ds, leaves) && (policy.Reject? ==> forall i :: !OnLoop(ds, i))
    ensures result.Some? ==> CompilesTo(ds, result.value)
    ensures result.None? <==> Faulty(ds, leaves) || (policy.Reject? && exists p :: Loops(ds, p))
  {
    FaultyIsInadmissible(ds, leaves);
    SomeLoop(ds);
    hide Faulty, Loops;
    hide OnLoop, Admissible, OwnKeys, OwnValues, IsIndex, Sourced, Connected, Excludes, ExcludesCycles, KeyOrder,
      Placed, OpsOf, ReadersOf, StrictlyIncreasing, Volatile, ValidClusters, Singletons, ForwardEdges;
    AdmissibleInParts(ds, leaves);
    if |ds| > MAX_OPERATIONS {
      return None;
    }
    var producers := IndexProducers(ds, leaves);
    if producers.None? {
      return None;
    }
    var lists := Connect(ds, leaves, producers.value);
    if lists.None? {
      return None;
    }
    var preds, succs := lists.value.0, lists.value.1;
    var excluded, cyclic := FindExcluded(ds, preds, succs);
    if cyclic && policy.Reject? {
      return None;
    }
    var order := Order(ds, preds, succs, excluded);
    ExcludedShape(ds, excluded);
    var index := IndexOrder(ds, order, excluded);
    PlacedIndex(order, excluded, index);
    var ops := BuildOps(ds, preds, succs, excluded, order, index);
    var readers := ListReaders(ops);
    var volatileOps := ListVolatile(ds, order);
    PlacedIsForward(ds, order, ops);
    var graph := LowerSingly(ops);
    var keys := seq(|order|, k requires 0 <= k < |order| => ds[order[k]].key);
    result := Some(Compiled(graph, keys, order, index, readers, volatileOps));
  }

  lemma ExcludedShape(ds: seq<Descriptor>, excluded: seq<bool>)
    requires Excludes(ds, excluded)
    ensures |excluded| == |ds| && forall i: nat | i < |ds| :: excluded[i] <==> OnLoop(ds, i)
  {}

  lemma PlacedIndex(order: seq<nat>, excluded: seq<bool>, index: seq<int>)
    requires Placed(order, excluded, index)
    ensures |index| == |excluded| && forall k | 0 <= k < |order| :: order[k] < |index| && index[order[k]] == k
    ensures forall i: nat | i < |excluded| && excluded[i] :: index[i] == -1
  {}
}
