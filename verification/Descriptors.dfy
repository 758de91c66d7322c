/** What an operation graph is compiled from, what the compiled graph has to do
    with it, and why the way the operations are listed does not matter. */
module Descriptors {
  import opened FiniteSets
  import opened OpGraph
  import opened CanonicalOrder
  import opened Lowering
  import opened CandidateWave

  datatype Descriptor = Descriptor(
    key: string,
    inputs: seq<ValueId>,
    outputs: seq<ValueId>,
    predecessors: seq<nat>,
    volatileInput: bool)

  const MAX_OPERATIONS: nat := 0xFFFF_FFFF

  ghost predicate Writes(ds: seq<Descriptor>, j: nat, v: ValueId) {
    j < |ds| && v in ds[j].outputs
  }

  /** Operation `i` names `j` as a predecessor or reads a value that `j` writes. */
  ghost predicate DependsOn(ds: seq<Descriptor>, i: nat, j: nat) {
    i < |ds| && j < |ds| && (j in ds[i].predecessors || exists v :: v in ds[i].inputs && Writes(ds, j, v))
  }

  ghost predicate Dependences(ds: seq<Descriptor>, p: seq<nat>) {
    |p| > 0 && forall k | 0 <= k < |p| - 1 :: DependsOn(ds, p[k + 1], p[k])
  }

  /** `i` depends on itself, directly or through others. */
  ghost predicate OnLoop(ds: seq<Descriptor>, i: nat) {
    exists p :: |p| > 1 && Dependences(ds, p) && p[0] == i == p[|p| - 1]
  }

  ghost predicate Admissible(ds: seq<Descriptor>, leaves: seq<ValueId>) {
    && |ds| <= MAX_OPERATIONS
    && (forall i | 0 <= i < |ds| :: ds[i].key != "")
    && (forall i, j | 0 <= i < |ds| && 0 <= j < |ds| && ds[i].key == ds[j].key :: i == j)
    && (forall i, j, v | Writes(ds, i, v) && Writes(ds, j, v) :: i == j)
    && (forall i, v | Writes(ds, i, v) :: v !in leaves)
    && (forall i, p | 0 <= i < |ds| && p in ds[i].predecessors :: p < |ds|)
    && (forall i, v | 0 <= i < |ds| && v in ds[i].inputs :: v in leaves || exists j :: Writes(ds, j, v))
  }

  // ---- What is compiled ----------------------------------------------------------------

  datatype Compiled = Compiled(
    graph: Graph,
    keys: seq<string>,
    originals: seq<nat>,
    canonicalIndex: seq<int>,
    readers: map<ValueId, seq<nat>>,
    volatileOps: seq<nat>)

  /** Not on a loop, not placed, and waiting for nothing that is on none. */
  ghost predicate Placeable(ds: seq<Descriptor>, placed: seq<nat>, i: nat) {
    && i < |ds| && !OnLoop(ds, i) && i !in placed
    && forall j: nat | DependsOn(ds, i, j) && !OnLoop(ds, j) :: j in placed
  }

  ghost predicate LeastPlaceable(ds: seq<Descriptor>, placed: seq<nat>, i: nat) {
    && Placeable(ds, placed, i)
    && forall j: nat | Placeable(ds, placed, j) && j != i :: j < |ds| && Less(ds[i].key, ds[j].key)
  }

  /** Everything that is on no loop, at each place the least key that can be placed. */
  ghost predicate KeyOrder(ds: seq<Descriptor>, order: seq<nat>) {
    && (forall k | 0 <= k < |order| :: LeastPlaceable(ds, order[..k], order[k]))
    && (forall i: nat | i < |ds| && !OnLoop(ds, i) :: i in order)
  }

  /** The operation at place `k` depends on the one at place `j`. */
  ghost predicate Follows(ds: seq<Descriptor>, order: seq<nat>, k: nat, j: nat) {
    k < |order| && j < |order| && DependsOn(ds, order[k], order[j])
  }

  /** The operations in their order, with their dependences by place. */
  ghost predicate OpsOf(ds: seq<Descriptor>, order: seq<nat>, ops: seq<Op>) {
    && |ops| == |order|
    && (forall k | 0 <= k < |order| ::
          order[k] < |ds| && ops[k].inputs == ds[order[k]].inputs && ops[k].outputs == ds[order[k]].outputs)
    && (forall k | 0 <= k < |ops| :: StrictlyIncreasing(ops[k].preds) && StrictlyIncreasing(ops[k].succs))
    && (forall k: nat, j: nat | k < |ops| :: j in ops[k].preds <==> Follows(ds, order, k, j))
    && (forall k: nat, j: nat | k < |ops| :: j in ops[k].succs <==> Follows(ds, order, j, k))
  }

  ghost predicate ReadAt(ops: seq<Op>, i: nat, v: ValueId) {
    i < |ops| && v in ops[i].inputs
  }

  ghost predicate ReadersOf(ops: seq<Op>, readers: map<ValueId, seq<nat>>) {
    && (forall i, v | ReadAt(ops, i, v) :: v in readers)
    && (forall v | v in readers :: readers[v] != [] && StrictlyIncreasing(readers[v]))
    && (forall v, i | v in readers :: i in readers[v] <==> ReadAt(ops, i, v))
  }

  ghost predicate Volatile(ds: seq<Descriptor>, order: seq<nat>, k: nat) {
    k < |order| && order[k] < |ds| && ds[order[k]].volatileInput
  }

  ghost predicate Singletons(g: Graph) {
    forall c | 0 <= c < |g.clusters| :: |g.clusters[c].members| == 1
  }

  ghost predicate CompilesTo(ds: seq<Descriptor>, c: Compiled) {
    && KeyOrder(ds, c.originals)
    && OpsOf(ds, c.originals, c.graph.ops)
    && |c.keys| == |c.originals| && (forall k | 0 <= k < |c.keys| :: c.keys[k] == ds[c.originals[k]].key)
    && |c.canonicalIndex| == |ds|
    && (forall k | 0 <= k < |c.originals| :: c.canonicalIndex[c.originals[k]] == k)
    && (forall i: nat | i < |ds| && OnLoop(ds, i) :: c.canonicalIndex[i] == -1)
    && ReadersOf(c.graph.ops, c.readers)
    && StrictlyIncreasing(c.volatileOps) && (forall k: nat :: k in c.volatileOps <==> Volatile(ds, c.originals, k))
    && ValidClusters(c.graph) && Singletons(c.graph)
  }

  // ---- What may be trusted of it -------------------------------------------------------

  lemma PlacedOnce(ds: seq<Descriptor>, order: seq<nat>, j: nat, k: nat)
    requires KeyOrder(ds, order) && j < k < |order|
    ensures order[j] != order[k]
  {
    assert LeastPlaceable(ds, order[..k], order[k]);
    assert order[..k][j] == order[j];
  }

  lemma PlacedShape(ds: seq<Descriptor>, order: seq<nat>, k: nat)
    requires KeyOrder(ds, order) && k < |order|
    ensures order[k] < |ds| && !OnLoop(ds, order[k])
  {
    assert LeastPlaceable(ds, order[..k], order[k]);
  }

  lemma DependsOnEarlier(ds: seq<Descriptor>, order: seq<nat>, k: nat, j: nat)
    requires KeyOrder(ds, order) && k < |order| && j < |order| && DependsOn(ds, order[k], order[j])
    ensures j < k
  {
    hide OnLoop, DependsOn, Less;
    PlacedShape(ds, order, j);
    assert LeastPlaceable(ds, order[..k], order[k]);
    var i :| 0 <= i < k && order[..k][i] == order[j];
    if j > i {
      PlacedOnce(ds, order, i, j);
    }
  }

  /** Every operation comes after those it depends on. */
  lemma PlacedIsForward(ds: seq<Descriptor>, order: seq<nat>, ops: seq<Op>)
    requires KeyOrder(ds, order) && OpsOf(ds, order, ops)
    ensures ForwardEdges(ops)
  {
    hide KeyOrder, DependsOn, StrictlyIncreasing;
    forall k: nat, j: nat | k < |ops| && j in ops[k].preds ensures j < k {
      PredDepends(ds, order, ops, k, j);
      DependsOnEarlier(ds, order, k, j);
    }
    forall k: nat, j: nat | k < |ops| && j < |ops| ensures j in ops[k].preds <==> k in ops[j].succs {
      PredDepends(ds, order, ops, k, j);
    }
    forall k: nat, j: nat | k < |ops| && j in ops[k].succs ensures j < |ops| {
      PredDepends(ds, order, ops, j, k);
    }
  }

  lemma PredDepends(ds: seq<Descriptor>, order: seq<nat>, ops: seq<Op>, k: nat, j: nat)
    requires OpsOf(ds, order, ops)
    ensures |ops| == |order|
    ensures k < |ops| && j in ops[k].preds <==> k < |order| && j < |order| && DependsOn(ds, order[k], order[j])
    ensures j < |ops| && k in ops[j].succs <==> k < |order| && j < |order| && DependsOn(ds, order[k], order[j])
  {
    hide StrictlyIncreasing, DependsOn;
  }

  lemma PlacedHasProducers(ds: seq<Descriptor>, leaves: seq<ValueId>, order: seq<nat>, ops: seq<Op>)
    requires Admissible(ds, leaves) && KeyOrder(ds, order) && OpsOf(ds, order, ops)
    ensures SingleProducers(ops)
  {
    hide KeyOrder, StrictlyIncreasing;
    forall i: nat, j: nat, v | i < |ops| && j < |ops| && v in ops[i].outputs && v in ops[j].outputs ensures i == j {
      assert Writes(ds, order[i], v) && Writes(ds, order[j], v);
      if i < j {
        PlacedOnce(ds, order, i, j);
      } else if j < i {
        PlacedOnce(ds, order, j, i);
      }
    }
    forall i: nat, j: nat, v | i < |ops| && j < |ops| && v in ops[i].outputs && v in ops[j].inputs
      ensures i in ops[j].preds
    {
      assert Writes(ds, order[i], v);
      assert DependsOn(ds, order[j], order[i]);
    }
  }

  /** What compiles is what the executor asks for: it is runnable, its readers are
      complete and in range, and what is declared a leaf is written by nothing. */
  lemma CompiledIsRunnable(ds: seq<Descriptor>, leaves: seq<ValueId>, c: Compiled)
    requires Admissible(ds, leaves) && CompilesTo(ds, c)
    ensures Runnable(c.graph) && ReadersComplete(c.graph, c.readers)
    ensures forall v <- c.readers.Keys :: InRange(c.readers[v], |c.graph.ops|)
    ensures InRange(c.volatileOps, |c.graph.ops|)
    ensures forall v <- leaves :: Leaf(c.graph.ops, v)
  {
    hide KeyOrder, ValidClusters, Singletons, DependsOn, OnLoop, StrictlyIncreasing, Runnable;
    PlacedIsForward(ds, c.originals, c.graph.ops);
    PlacedHasProducers(ds, leaves, c.originals, c.graph.ops);
    ValidIsRunnable(c.graph);
    forall i: nat, v | i < |c.graph.ops| && v in c.graph.ops[i].inputs ensures v in c.readers && i in c.readers[v] {
      assert ReadAt(c.graph.ops, i, v);
    }
    forall i: nat, v | i < |c.graph.ops| && v in c.graph.ops[i].outputs ensures v !in leaves {
      assert Writes(ds, c.originals[i], v);
    }
  }

  // ---- What order that is --------------------------------------------------------------

  /** An operation that does not depend on the one just before it has the later key. */
  lemma NeighboursAscend(ds: seq<Descriptor>, c: Compiled, k: nat)
    requires CompilesTo(ds, c) && k + 1 < |c.originals|
    requires !DependsOn(ds, c.originals[k + 1], c.originals[k])
    ensures Precedes(c.keys[k], c.keys[k + 1])
  {
    hide OnLoop, DependsOn, Less, OpsOf, ReadersOf, ValidClusters, Singletons, Volatile, Precedes, KeyOrder;
    NextCouldBePlaced(ds, c.originals, k);
    LessIsLexicographic(c.keys[k], c.keys[k + 1]);
  }

  lemma NextCouldBePlaced(ds: seq<Descriptor>, order: seq<nat>, k: nat)
    requires KeyOrder(ds, order) && k + 1 < |order| && !DependsOn(ds, order[k + 1], order[k])
    ensures order[k] < |ds| && order[k + 1] < |ds| && Less(ds[order[k]].key, ds[order[k + 1]].key)
  {
    hide OnLoop, DependsOn, Less, Placeable;
    PlacedShape(ds, order, k);
    PlacedShape(ds, order, k + 1);
    assert LeastPlaceable(ds, order[..k], order[k]);
    assert LeastPlaceable(ds, order[..k + 1], order[k + 1]);
    assert order[..k + 1] == order[..k] + [order[k]];
    PlacedOnce(ds, order, k, k + 1);
    PlaceableEarlier(ds, order[..k], order[k], order[k + 1]);
  }

  lemma PlaceableEarlier(ds: seq<Descriptor>, placed: seq<nat>, i: nat, j: nat)
    requires Placeable(ds, placed + [i], j) && !DependsOn(ds, j, i)
    ensures Placeable(ds, placed, j) && j < |ds|
  {
    hide OnLoop, DependsOn;
    assert forall x :: x in placed + [i] <==> x in placed || x == i;
  }

  lemma LoopDepends(ds: seq<Descriptor>, i: nat)
    requires OnLoop(ds, i)
    ensures exists j: nat :: DependsOn(ds, j, i)
  {
    hide DependsOn;
    var p :| |p| > 1 && Dependences(ds, p) && p[0] == i == p[|p| - 1];
    assert DependsOn(ds, p[0 + 1], p[0]);
  }

  /** Operations that do not depend on each other compile to their keys sorted. */
  lemma IndependentIsSorted(ds: seq<Descriptor>, c: Compiled)
    requires CompilesTo(ds, c) && forall i: nat, j: nat :: !DependsOn(ds, i, j)
    ensures forall i | 0 <= i < |ds| :: ds[i].key in c.keys
    ensures forall j, k | 0 <= j < k < |c.keys| :: Precedes(c.keys[j], c.keys[k])
  {
    forall i: nat | i < |ds| ensures !OnLoop(ds, i) {
      if OnLoop(ds, i) {
        LoopDepends(ds, i);
      }
    }
    hide OnLoop, DependsOn, Precedes, OpsOf, ReadersOf, ValidClusters, Singletons, Volatile;
    forall i: nat | i < |ds| ensures ds[i].key in c.keys {
      AllArePlaced(ds, c.originals, i);
      var k :| 0 <= k < |c.originals| && c.originals[k] == i;
      assert c.keys[k] == ds[i].key;
    }
    hide KeyOrder;
    forall j: nat, k: nat | j < k < |c.keys| ensures Precedes(c.keys[j], c.keys[k]) {
      IndependentAscends(ds, c, j, k);
    }
  }

  lemma {:induction false} IndependentAscends(ds: seq<Descriptor>, c: Compiled, j: nat, k: nat)
    requires CompilesTo(ds, c) && j < k < |c.keys| && forall i: nat, i': nat :: !DependsOn(ds, i, i')
    ensures Precedes(c.keys[j], c.keys[k])
  {
    hide KeyOrder, DependsOn, Precedes, Less, OpsOf, ReadersOf, ValidClusters, Singletons, Volatile;
    NeighboursAscend(ds, c, k - 1);
    if j < k - 1 {
      IndependentAscends(ds, c, j, k - 1);
      LessIsLexicographic(c.keys[j], c.keys[k - 1]);
      LessIsLexicographic(c.keys[k - 1], c.keys[k]);
      LessTransitive(c.keys[j], c.keys[k - 1], c.keys[k]);
      LessIsLexicographic(c.keys[j], c.keys[k]);
    }
  }

  // ---- What depends on what ------------------------------------------------------------

  /** Operation `i` of the list is compiled to place `k`. */
  ghost predicate CompiledAt(ds: seq<Descriptor>, c: Compiled, i: nat, k: nat) {
    i < |ds| && k < |c.originals| && c.originals[k] == i
  }

  /** An edge joins two compiled operations exactly if one names the other as its
      predecessor or reads a value the other writes; and such a one comes later. */
  lemma EdgesAreDependences(ds: seq<Descriptor>, c: Compiled, i: nat, k: nat, j: nat, l: nat)
    requires CompilesTo(ds, c) && CompiledAt(ds, c, i, k) && CompiledAt(ds, c, j, l)
    ensures k < |c.graph.ops| && l < |c.graph.ops|
    ensures
      && (l in c.graph.ops[k].preds <==> Uses(ds, i, j)) && (k in c.graph.ops[l].succs <==> Uses(ds, i, j))
      && (Uses(ds, i, j) ==> l < k)
    ensures c.graph.ops[k].inputs == ds[i].inputs && c.graph.ops[k].outputs == ds[i].outputs
    ensures k in c.volatileOps <==> ds[i].volatileInput
  {
    PredDepends(ds, c.originals, c.graph.ops, k, l);
    DependsByValues(ds, i, j);
    if DependsOn(ds, i, j) {
      DependsOnEarlier(ds, c.originals, k, l);
    }
    hide KeyOrder, DependsOn, Uses, OnLoop, ReadersOf, ValidClusters, Singletons, StrictlyIncreasing;
    assert Volatile(ds, c.originals, k) <==> ds[i].volatileInput;
  }

  lemma DependsByValues(ds: seq<Descriptor>, i: nat, j: nat)
    requires i < |ds| && j < |ds|
    ensures DependsOn(ds, i, j) <==> Uses(ds, i, j)
  {
    if v :| v in ds[i].inputs && v in ds[j].outputs {
      assert Writes(ds, j, v);
    }
  }

  /** `i` names `j` as a predecessor or reads a value it writes. */
  ghost predicate Uses(ds: seq<Descriptor>, i: nat, j: nat)
    requires i < |ds| && j < |ds|
  {
    j in ds[i].predecessors || exists v :: v in ds[i].inputs && v in ds[j].outputs
  }

  /** Each uses the next, and the last is the first again. */
  ghost predicate Loops(ds: seq<Descriptor>, p: seq<nat>) {
    && |p| > 1 && p[0] == p[|p| - 1]
    && (forall k | 0 <= k < |p| :: p[k] < |ds|)
    && forall k | 0 <= k < |p| - 1 :: Uses(ds, p[k], p[k + 1])
  }

  /** What is not compiled is what depends on itself, directly or through others. */
  lemma SetAsideIffLoops(ds: seq<Descriptor>, c: Compiled, i: nat)
    requires CompilesTo(ds, c) && i < |ds|
    ensures (exists k :: CompiledAt(ds, c, i, k)) <==> !exists p :: Loops(ds, p) && p[0] == i
    ensures c.canonicalIndex[i] == -1 <==> exists p :: Loops(ds, p) && p[0] == i
  {
    LoopMeaning(ds, i);
    hide OnLoop, OpsOf, ReadersOf, ValidClusters, Singletons, StrictlyIncreasing, Volatile, Loops;
    if !OnLoop(ds, i) {
      AllArePlaced(ds, c.originals, i);
      var k :| 0 <= k < |c.originals| && c.originals[k] == i;
      assert CompiledAt(ds, c, i, k) && c.canonicalIndex[i] == k;
    } else if k: nat :| CompiledAt(ds, c, i, k) {
      PlacedShape(ds, c.originals, k);
    }
  }

  lemma LoopMeaning(ds: seq<Descriptor>, i: nat)
    ensures OnLoop(ds, i) <==> exists p :: Loops(ds, p) && p[0] == i
  {
    hide DependsOn;
    if OnLoop(ds, i) {
      var p :| |p| > 1 && Dependences(ds, p) && p[0] == i == p[|p| - 1];
      var q := Backward(p);
      forall k | 0 <= k < |q| ensures q[k] < |ds| {
        DependenceInRange(ds, p, |p| - 1 - k);
      }
      forall k | 0 <= k < |q| - 1 ensures Uses(ds, q[k], q[k + 1]) {
        var m := |p| - 2 - k;
        assert DependsOn(ds, p[m + 1], p[m]);
        DependsByValues(ds, q[k], q[k + 1]);
      }
      assert Loops(ds, q);
    }
    if p :| Loops(ds, p) && p[0] == i {
      LoopBack(ds, p);
    }
  }

  lemma LoopBack(ds: seq<Descriptor>, p: seq<nat>)
    requires Loops(ds, p)
    ensures OnLoop(ds, p[0])
  {
    hide DependsOn;
    var q := Backward(p);
    forall k | 0 <= k < |q| - 1 ensures DependsOn(ds, q[k + 1], q[k]) {
      var m := |p| - 2 - k;
      assert q[k + 1] == p[m] && q[k] == p[m + 1];
      DependsByValues(ds, p[m], p[m + 1]);
    }
    assert Dependences(ds, q);
  }

  function Backward(p: seq<nat>): (q: seq<nat>)
    ensures |q| == |p| && forall k | 0 <= k < |p| :: q[k] == p[|p| - 1 - k]
  {
    seq(|p|, k requires 0 <= k < |p| => p[|p| - 1 - k])
  }

  // ---- Listing the operations otherwise ------------------------------------------------

  function Renamed(pi: seq<nat>, s: seq<nat>): (r: seq<nat>)
    ensures |r| == |s| && forall k | 0 <= k < |s| :: r[k] == if s[k] < |pi| then pi[s[k]] else s[k]
  {
    seq(|s|, k requires 0 <= k < |s| => if s[k] < |pi| then pi[s[k]] else s[k])
  }

  /** Each undoes the other. */
  ghost predicate Renaming(pi: seq<nat>, qi: seq<nat>) {
    && |pi| == |qi|
    && (forall i | 0 <= i < |pi| :: pi[i] < |pi| && qi[pi[i]] == i)
    && (forall j | 0 <= j < |qi| :: qi[j] < |qi| && pi[qi[j]] == j)
  }

  /** The same operations, each listed where `pi` puts it. */
  ghost predicate Relisted(ds: seq<Descriptor>, es: seq<Descriptor>, pi: seq<nat>, qi: seq<nat>) {
    && |ds| == |es| == |pi| && Renaming(pi, qi)
    && forall i | 0 <= i < |ds| :: es[pi[i]] == ds[i].(predecessors := Renamed(pi, ds[i].predecessors))
  }

  lemma RelistedBack(ds: seq<Descriptor>, es: seq<Descriptor>, pi: seq<nat>, qi: seq<nat>)
    requires Relisted(ds, es, pi, qi)
    ensures Relisted(es, ds, qi, pi)
  {
    forall j | 0 <= j < |es| ensures ds[qi[j]] == es[j].(predecessors := Renamed(qi, es[j].predecessors)) {
      var was := ds[qi[j]].predecessors;
      assert es[pi[qi[j]]] == ds[qi[j]].(predecessors := Renamed(pi, was));
      assert Renamed(qi, Renamed(pi, was)) == was;
    }
  }

  lemma RelistedWrites(ds: seq<Descriptor>, es: seq<Descriptor>, pi: seq<nat>, qi: seq<nat>, j: nat, v: ValueId)
    requires Relisted(ds, es, pi, qi) && j < |ds|
    ensures Writes(ds, j, v) <==> Writes(es, pi[j], v)
  {}

  lemma RenamedHolds(pi: seq<nat>, qi: seq<nat>, s: seq<nat>, x: nat)
    requires Renaming(pi, qi) && x < |pi|
    ensures x in s <==> pi[x] in Renamed(pi, s)
  {
    if x in s {
      var k :| 0 <= k < |s| && s[k] == x;
      assert Renamed(pi, s)[k] == pi[x];
    }
    if pi[x] in Renamed(pi, s) {
      var k :| 0 <= k < |s| && Renamed(pi, s)[k] == pi[x];
      assert s[k] == x;
    }
  }

  lemma RelistedDepends(ds: seq<Descriptor>, es: seq<Descriptor>, pi: seq<nat>, qi: seq<nat>, i: nat, j: nat)
    requires Relisted(ds, es, pi, qi) && i < |ds| && j < |ds|
    ensures DependsOn(ds, i, j) <==> DependsOn(es, pi[i], pi[j])
  {
    RenamedHolds(pi, qi, ds[i].predecessors, j);
    forall v ensures Writes(ds, j, v) <==> Writes(es, pi[j], v) {
      RelistedWrites(ds, es, pi, qi, j, v);
    }
    assert es[pi[i]].inputs == ds[i].inputs;
    hide Writes;
    if DependsOn(es, pi[i], pi[j]) && j !in ds[i].predecessors {
      var v :| v in es[pi[i]].inputs && Writes(es, pi[j], v);
      assert Writes(ds, j, v);
    }
  }

  lemma RelistedLoop(ds: seq<Descriptor>, es: seq<Descriptor>, pi: seq<nat>, qi: seq<nat>, i: nat)
    requires Relisted(ds, es, pi, qi) && OnLoop(ds, i)
    ensures i < |ds| && OnLoop(es, pi[i])
  {
    hide DependsOn;
    var p :| |p| > 1 && Dependences(ds, p) && p[0] == i == p[|p| - 1];
    forall k | 0 <= k < |p| ensures p[k] < |ds| {
      DependenceInRange(ds, p, k);
    }
    var q := Renamed(pi, p);
    forall k | 0 <= k < |q| - 1 ensures DependsOn(es, q[k + 1], q[k]) {
      assert DependsOn(ds, p[k + 1], p[k]);
      RelistedDepends(ds, es, pi, qi, p[k + 1], p[k]);
    }
    assert Dependences(es, q);
  }

  lemma DependenceInRange(ds: seq<Descriptor>, p: seq<nat>, k: nat)
    requires Dependences(ds, p) && |p| > 1 && k < |p|
    ensures p[k] < |ds|
  {
    if k > 0 {
      assert DependsOn(ds, p[k - 1 + 1], p[k - 1]);
    } else {
      assert DependsOn(ds, p[k + 1], p[k]);
    }
  }

  lemma LoopEitherWay(ds: seq<Descriptor>, es: seq<Descriptor>, pi: seq<nat>, qi: seq<nat>, i: nat)
    requires Relisted(ds, es, pi, qi) && i < |ds|
    ensures OnLoop(ds, i) <==> OnLoop(es, pi[i])
  {
    hide OnLoop;
    if OnLoop(ds, i) {
      RelistedLoop(ds, es, pi, qi, i);
    }
    if OnLoop(es, pi[i]) {
      RelistedBack(ds, es, pi, qi);
      RelistedLoop(es, ds, qi, pi, pi[i]);
    }
  }

  lemma RelistedPlaceable(
      ds: seq<Descriptor>, es: seq<Descriptor>, pi: seq<nat>, qi: seq<nat>, placed: seq<nat>, i: nat)
    requires Relisted(ds, es, pi, qi) && Placeable(ds, placed, i)
    ensures i < |ds| && Placeable(es, Renamed(pi, placed), pi[i])
  {
    hide OnLoop, DependsOn;
    LoopEitherWay(ds, es, pi, qi, i);
    RenamedHolds(pi, qi, placed, i);
    forall j: nat | DependsOn(es, pi[i], j) && !OnLoop(es, j) ensures j in Renamed(pi, placed) {
      assert j < |es| by {
        InRangeOfDependence(es, pi[i], j);
      }
      RelistedDepends(ds, es, pi, qi, i, qi[j]);
      LoopEitherWay(ds, es, pi, qi, qi[j]);
      RenamedHolds(pi, qi, placed, qi[j]);
    }
  }

  lemma InRangeOfDependence(ds: seq<Descriptor>, i: nat, j: nat)
    requires DependsOn(ds, i, j)
    ensures i < |ds| && j < |ds|
  {}

  /** What can be placed after the same operations is the same. */
  lemma PlaceableEitherWay(
      ds: seq<Descriptor>, es: seq<Descriptor>, pi: seq<nat>, qi: seq<nat>, placed: seq<nat>, i: nat)
    requires Relisted(ds, es, pi, qi) && i < |ds| && forall x <- placed :: x < |ds|
    ensures Placeable(ds, placed, i) <==> Placeable(es, Renamed(pi, placed), pi[i])
  {
    hide Placeable;
    if Placeable(ds, placed, i) {
      RelistedPlaceable(ds, es, pi, qi, placed, i);
    }
    if Placeable(es, Renamed(pi, placed), pi[i]) {
      RelistedBack(ds, es, pi, qi);
      RelistedPlaceable(es, ds, qi, pi, Renamed(pi, placed), pi[i]);
      assert Renamed(qi, Renamed(pi, placed)) == placed by {
        assert forall k | 0 <= k < |placed| :: placed[k] in placed;
      }
    }
  }

  /** The least is the least in either list. */
  lemma SameNext(
      ds: seq<Descriptor>, es: seq<Descriptor>, pi: seq<nat>, qi: seq<nat>, placed: seq<nat>, i: nat, j: nat)
    requires Relisted(ds, es, pi, qi) && forall x <- placed :: x < |ds|
    requires LeastPlaceable(ds, placed, i) && LeastPlaceable(es, Renamed(pi, placed), j)
    ensures j == pi[i]
  {
    hide Less;
    if j != pi[i] {
      PlaceableShape(es, Renamed(pi, placed), j);
      PlaceableEitherWay(ds, es, pi, qi, placed, i);
      PlaceableEitherWay(ds, es, pi, qi, placed, qi[j]);
      hide Placeable;
      assert es[pi[i]].key == ds[i].key && es[pi[qi[j]]].key == ds[qi[j]].key;
      LessIsTotal(es[j].key, ds[i].key);
    }
  }

  lemma PlaceableShape(ds: seq<Descriptor>, placed: seq<nat>, i: nat)
    requires Placeable(ds, placed, i)
    ensures i < |ds| && !OnLoop(ds, i) && i !in placed
  {}

  lemma {:induction false} SamePrefix(
      ds: seq<Descriptor>, es: seq<Descriptor>, pi: seq<nat>, qi: seq<nat>, order: seq<nat>, other: seq<nat>, k: nat)
    requires Relisted(ds, es, pi, qi) && KeyOrder(ds, order) && KeyOrder(es, other) && k <= |order| && k <= |other|
    ensures other[..k] == Renamed(pi, order[..k])
  {
    hide LeastPlaceable, Relisted, OnLoop;
    if k > 0 {
      SamePrefix(ds, es, pi, qi, order, other, k - 1);
      PlacedInRange(ds, order, k - 1);
      assert LeastPlaceable(ds, order[..k - 1], order[k - 1]);
      assert LeastPlaceable(es, other[..k - 1], other[k - 1]);
      SameNext(ds, es, pi, qi, order[..k - 1], order[k - 1], other[k - 1]);
      RelistedSize(ds, es, pi, qi);
      PlacedShape(ds, order, k - 1);
      assert other[..k] == other[..k - 1] + [other[k - 1]];
      assert order[..k] == order[..k - 1] + [order[k - 1]];
    }
  }

  lemma RelistedSize(ds: seq<Descriptor>, es: seq<Descriptor>, pi: seq<nat>, qi: seq<nat>)
    requires Relisted(ds, es, pi, qi)
    ensures |ds| == |es| == |pi| == |qi| && Renaming(pi, qi)
  {}

  lemma PlacedInRange(ds: seq<Descriptor>, order: seq<nat>, k: nat)
    requires KeyOrder(ds, order) && k <= |order|
    ensures forall x <- order[..k] :: x < |ds|
  {
    hide KeyOrder;
    forall x | x in order[..k] ensures x < |ds| {
      var i :| 0 <= i < k && order[..k][i] == x;
      PlacedShape(ds, order, i);
    }
  }

  lemma NoShorter(
      ds: seq<Descriptor>, es: seq<Descriptor>, pi: seq<nat>, qi: seq<nat>, order: seq<nat>, other: seq<nat>)
    requires Relisted(ds, es, pi, qi) && KeyOrder(ds, order) && KeyOrder(es, other)
    ensures |other| <= |order|
  {
    hide OnLoop, Relisted, KeyOrder;
    RelistedSize(ds, es, pi, qi);
    PlacedInRange(es, other, |other|);
    assert other[..|other|] == other;
    var named := Renamed(qi, other);
    forall j, k | 0 <= j < k < |named| ensures named[j] != named[k] {
      PlacedOnce(es, other, j, k);
      assert other[j] in other && other[k] in other;
    }
    forall i | i in named ensures i in order {
      var k :| 0 <= k < |named| && named[k] == i;
      PlacedShape(es, other, k);
      LoopEitherWay(ds, es, pi, qi, i);
      AllArePlaced(ds, order, i);
    }
    DistinctWithin(named, order);
  }

  lemma AllArePlaced(ds: seq<Descriptor>, order: seq<nat>, i: nat)
    requires KeyOrder(ds, order) && i < |ds| && !OnLoop(ds, i)
    ensures i in order
  {}

  /** The order is the keys' own: however the operations are listed, the same ones
      come in the same order. */
  lemma OrderIsKeysOnly(
      ds: seq<Descriptor>, es: seq<Descriptor>, pi: seq<nat>, qi: seq<nat>, order: seq<nat>, other: seq<nat>)
    requires Relisted(ds, es, pi, qi) && KeyOrder(ds, order) && KeyOrder(es, other)
    ensures other == Renamed(pi, order)
  {
    hide KeyOrder, Relisted;
    NoShorter(ds, es, pi, qi, order, other);
    RelistedBack(ds, es, pi, qi);
    NoShorter(es, ds, qi, pi, other, order);
    SamePrefix(ds, es, pi, qi, order, other, |order|);
    assert order[..|order|] == order && other[..|other|] == other;
  }

  // ---- Everything else is the same too -------------------------------------------------

  lemma SameOps(
      ds: seq<Descriptor>, es: seq<Descriptor>, pi: seq<nat>, qi: seq<nat>, order: seq<nat>, ops: seq<Op>,
      others: seq<Op>)
    requires Relisted(ds, es, pi, qi) && OpsOf(ds, order, ops) && OpsOf(es, Renamed(pi, order), others)
    ensures ops == others
  {
    hide DependsOn, StrictlyIncreasing;
    var other := Renamed(pi, order);
    forall k: nat | k < |ops| ensures ops[k] == others[k] {
      assert es[other[k]].inputs == ds[order[k]].inputs && es[other[k]].outputs == ds[order[k]].outputs;
      forall j: nat ensures j in ops[k].preds <==> j in others[k].preds {
        SameDependence(ds, es, pi, qi, order, ops, others, k, j);
      }
      forall j: nat ensures j in ops[k].succs <==> j in others[k].succs {
        SameDependence(ds, es, pi, qi, order, ops, others, j, k);
      }
      SortedIsCanonical(ops[k].preds, others[k].preds);
      SortedIsCanonical(ops[k].succs, others[k].succs);
    }
  }

  lemma SameDependence(
      ds: seq<Descriptor>, es: seq<Descriptor>, pi: seq<nat>, qi: seq<nat>, order: seq<nat>, ops: seq<Op>,
      others: seq<Op>, k: nat, j: nat)
    requires Relisted(ds, es, pi, qi) && OpsOf(ds, order, ops) && OpsOf(es, Renamed(pi, order), others)
    ensures |others| == |ops|
    ensures k < |ops| ==> (j in ops[k].preds <==> j in others[k].preds)
    ensures j < |ops| ==> (k in ops[j].succs <==> k in others[j].succs)
  {
    PredDepends(ds, order, ops, k, j);
    PredDepends(es, Renamed(pi, order), others, k, j);
    if k < |order| && j < |order| {
      RelistedDepends(ds, es, pi, qi, order[k], order[j]);
    }
    hide DependsOn, OpsOf, Relisted;
  }

  lemma SameReaders(ops: seq<Op>, readers: map<ValueId, seq<nat>>, others: map<ValueId, seq<nat>>)
    requires ReadersOf(ops, readers) && ReadersOf(ops, others)
    ensures readers == others
  {
    hide StrictlyIncreasing, ReadAt;
    forall v ensures v in readers <==> v in others {
      if v in readers {
        assert readers[v][0] in readers[v];
      }
      if v in others {
        assert others[v][0] in others[v];
      }
    }
    forall v | v in readers ensures readers[v] == others[v] {
      SortedIsCanonical(readers[v], others[v]);
    }
  }

  lemma {:induction false} AtLeastIndex(s: seq<nat>, k: nat)
    requires StrictlyIncreasing(s) && k < |s|
    ensures k <= s[k]
  {
    if k > 0 {
      AtLeastIndex(s, k - 1);
    }
  }

  /** One operation to a cluster: each is in the cluster of its own number. */
  lemma SingletonIsItsNumber(g: Graph)
    requires ValidClusters(g) && Singletons(g)
    ensures |g.clusters| == |g.ops|
    ensures forall c | 0 <= c < |g.clusters| :: g.clusters[c].members == [c] && g.opClusters[c] == c
  {
    hide EdgesAreQuotient, Chain, Backward;
    var firsts := seq(|g.clusters|, c requires 0 <= c < |g.clusters| => g.clusters[c].members[0]);
    assert StrictlyIncreasing(firsts);
    forall i: nat | i < |g.ops| ensures g.opClusters[i] < |firsts| && firsts[g.opClusters[i]] == i {
      assert i in g.clusters[g.opClusters[i]].members;
    }
    forall c: nat | c < |firsts| ensures firsts[c] < |g.ops| && g.opClusters[firsts[c]] == c {
      MemberInRange(g, c, 0);
    }
    assert StrictlyIncreasing(g.opClusters);
    forall i: nat | i < |g.ops| ensures g.opClusters[i] == i {
      AtLeastIndex(g.opClusters, i);
      AtLeastIndex(firsts, g.opClusters[i]);
    }
    DistinctBounded(firsts, |g.ops|);
    DistinctBounded(g.opClusters, |g.clusters|);
    forall c: nat | c < |g.clusters| ensures g.clusters[c].members == [c] {
      assert firsts[g.opClusters[c]] == c;
    }
  }

  lemma SameClusters(g: Graph, h: Graph)
    requires ValidClusters(g) && Singletons(g) && ValidClusters(h) && Singletons(h) && g.ops == h.ops
    ensures g == h
  {
    SingletonIsItsNumber(g);
    SingletonIsItsNumber(h);
    hide Singletons, Partition, Backward, Chain, StrictlyIncreasing;
    assert g.opClusters == h.opClusters;
    forall a: nat, b: nat ensures Quotient(g, a, b) <==> Quotient(h, a, b) {
      SameQuotient(g, h, a, b);
      SameQuotient(h, g, a, b);
    }
    hide Quotient;
    forall c: nat | c < |g.clusters| ensures g.clusters[c] == h.clusters[c] {
      SortedIsCanonical(g.clusters[c].preds, h.clusters[c].preds);
      SortedIsCanonical(g.clusters[c].succs, h.clusters[c].succs);
    }
  }

  lemma SameQuotient(g: Graph, h: Graph, a: nat, b: nat)
    requires g.ops == h.ops && g.opClusters == h.opClusters
    ensures Quotient(g, a, b) ==> Quotient(h, a, b)
  {
    if Quotient(g, a, b) {
      var i: nat, j: nat :| Crosses(g, j, i, a, b);
      assert Crosses(h, j, i, a, b);
    }
  }

  /** The compiled graph depends on the operations and their keys, and not on how
      they are listed: relisting changes only what records the listing. */
  lemma CompilationIsKeysOnly(
      ds: seq<Descriptor>, es: seq<Descriptor>, pi: seq<nat>, qi: seq<nat>, c: Compiled, d: Compiled)
    requires Relisted(ds, es, pi, qi) && CompilesTo(ds, c) && CompilesTo(es, d)
    ensures d.graph == c.graph && d.keys == c.keys && d.readers == c.readers && d.volatileOps == c.volatileOps
    ensures d.originals == Renamed(pi, c.originals)
    ensures forall i | 0 <= i < |ds| :: d.canonicalIndex[pi[i]] == c.canonicalIndex[i]
  {
    hide KeyOrder, OpsOf, ReadersOf, ValidClusters, Singletons, DependsOn, OnLoop, StrictlyIncreasing;
    OrderIsKeysOnly(ds, es, pi, qi, c.originals, d.originals);
    SameOps(ds, es, pi, qi, c.originals, c.graph.ops, d.graph.ops);
    SameReaders(c.graph.ops, c.readers, d.readers);
    SameClusters(c.graph, d.graph);
    PlacedInRange(ds, c.originals, |c.originals|);
    assert c.originals[..|c.originals|] == c.originals;
    forall k: nat ensures Volatile(ds, c.originals, k) <==> Volatile(es, d.originals, k) {}
    SortedIsCanonical(c.volatileOps, d.volatileOps);
    forall k: nat | k < |c.keys| ensures c.keys[k] == d.keys[k] {
      PlacedShape(ds, c.originals, k);
    }
    forall i: nat | i < |ds| ensures d.canonicalIndex[pi[i]] == c.canonicalIndex[i] {
      LoopEitherWay(ds, es, pi, qi, i);
      if !OnLoop(ds, i) {
        AllArePlaced(ds, c.originals, i);
        var k :| 0 <= k < |c.originals| && c.originals[k] == i;
        assert d.originals[k] == pi[i];
      }
    }
  }

  lemma RelistedAdmissible(
      ds: seq<Descriptor>, es: seq<Descriptor>, pi: seq<nat>, qi: seq<nat>, leaves: seq<ValueId>)
    requires Relisted(ds, es, pi, qi) && Admissible(ds, leaves)
    ensures Admissible(es, leaves)
  {
    forall i: nat, j: nat | i < |es| && j < |es| && es[i].key == es[j].key ensures i == j {
      assert ds[qi[i]].key == es[pi[qi[i]]].key && ds[qi[j]].key == es[pi[qi[j]]].key;
    }
    forall i: nat | i < |es| ensures es[i].key != "" {
      assert ds[qi[i]].key == es[pi[qi[i]]].key;
    }
    forall i: nat, v | Writes(es, i, v) ensures Writes(ds, qi[i], v) && v !in leaves {
      RelistedWrites(ds, es, pi, qi, qi[i], v);
    }
    forall i: nat, j: nat, v | Writes(es, i, v) && Writes(es, j, v) ensures i == j {
      assert qi[i] == qi[j];
    }
    forall i: nat, p | i < |es| && p in es[i].predecessors ensures p < |es| {
      var was := ds[qi[i]].predecessors;
      assert es[pi[qi[i]]].predecessors == Renamed(pi, was);
      var k :| 0 <= k < |Renamed(pi, was)| && Renamed(pi, was)[k] == p;
      assert was[k] in was;
    }
    forall i: nat, v | i < |es| && v in es[i].inputs ensures v in leaves || exists j :: Writes(es, j, v) {
      assert es[pi[qi[i]]].inputs == ds[qi[i]].inputs;
      if v !in leaves {
        var j: nat :| Writes(ds, j, v);
        RelistedWrites(ds, es, pi, qi, j, v);
      }
    }
  }

  /** Nor does the listing decide what is accepted or what is set aside. */
  lemma AcceptanceIsKeysOnly(
      ds: seq<Descriptor>, es: seq<Descriptor>, pi: seq<nat>, qi: seq<nat>, leaves: seq<ValueId>)
    requires Relisted(ds, es, pi, qi)
    ensures Admissible(ds, leaves) <==> Admissible(es, leaves)
    ensures (exists i :: OnLoop(ds, i)) <==> (exists i :: OnLoop(es, i))
    ensures forall i | 0 <= i < |ds| :: OnLoop(ds, i) <==> OnLoop(es, pi[i])
  {
    hide Admissible, OnLoop;
    RelistedBack(ds, es, pi, qi);
    if Admissible(ds, leaves) {
      RelistedAdmissible(ds, es, pi, qi, leaves);
    }
    if Admissible(es, leaves) {
      RelistedAdmissible(es, ds, qi, pi, leaves);
    }
    forall i: nat | i < |ds| ensures OnLoop(ds, i) <==> OnLoop(es, pi[i]) {
      LoopEitherWay(ds, es, pi, qi, i);
    }
    if i: nat :| OnLoop(ds, i) {
      RelistedLoop(ds, es, pi, qi, i);
    }
    if i: nat :| OnLoop(es, i) {
      RelistedLoop(es, ds, qi, pi, i);
    }
  }
}
