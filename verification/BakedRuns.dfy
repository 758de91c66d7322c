/** Runs of a clustered schedule whose steps may share slots: any two steps that
    conflict are ordered by a path of edges, and nothing else is assumed of who
    writes what. Steps read their slots when they start and write them when
    they end, so bodies of different clusters overlap freely. */
module BakedRuns {
  import opened Digraphs
  import opened OpGraph
  import Executor

  type Store<!D> = Executor.Store<D>

  /** The schedule, what each step makes of the slots it reads, and the slots
      as they are before the run. */
  datatype Program<!D> = Program(g: Graph, effect: (nat, Store<D>) -> Store<D>, start: Store<D>)

  ghost predicate Writes(g: Graph, i: nat, v: ValueId) {
    i < |g.ops| && v in g.ops[i].outputs
  }

  ghost predicate Touches(g: Graph, i: nat, v: ValueId) {
    i < |g.ops| && (v in g.ops[i].inputs || v in g.ops[i].outputs)
  }

  /** The steps share a slot that one of them writes. */
  ghost predicate Conflict(g: Graph, i: nat, j: nat) {
    exists v :: (Writes(g, i, v) && Touches(g, j, v)) || (Touches(g, i, v) && Writes(g, j, v))
  }

  ghost predicate ConflictsOrdered(g: Graph) {
    forall j: nat, i: nat | j < i < |g.ops| && Conflict(g, j, i) :: Reaches(OpEdges(g.ops), j, i)
  }

  ghost predicate Orderly(g: Graph) {
    && ForwardEdges(g.ops) && Partition(g) && ClusterEdges(g) && Acyclic(g.clusters)
    && ConflictsOrdered(g)
  }

  ghost predicate ValidProgram<D(!new)>(p: Program<D>) {
    && Orderly(p.g)
    && forall i: nat, inputs | i < |p.g.ops| :: p.effect(i, inputs).Keys == Executor.OutputSet(p.g, i)
  }

  function After<D>(p: Program<D>, i: nat, store: Store<D>): Store<D>
    requires i < |p.g.ops|
  {
    store + p.effect(i, Executor.InputsOf(p.g, store, i))
  }

  /** The slots after the first `m` steps in program order. */
  function InOrder<D>(p: Program<D>, m: nat): Store<D>
    requires m <= |p.g.ops|
  {
    if m == 0 then p.start else After(p, m - 1, InOrder(p, m - 1))
  }

  // ---- Slots and the steps done --------------------------------------------------------

  /** Of the writers of `v`, exactly those before step `m` are done. */
  ghost predicate Frontier(g: Graph, done: set<nat>, v: ValueId, m: nat) {
    forall w: nat | Writes(g, w, v) :: w in done <==> w < m
  }

  /** Every slot holds what it holds in program order, as far as its writers
      are done. */
  ghost predicate Current<D>(p: Program<D>, store: Store<D>, done: set<nat>) {
    forall v: ValueId, m: nat | m <= |p.g.ops| && Frontier(p.g, done, v, m) ::
      Executor.SameAt(v, store, InOrder(p, m))
  }

  /** Whatever precedes a step that is done is done. */
  ghost predicate ClosedBack(g: Graph, done: set<nat>) {
    forall i: nat | i in done :: i < |g.ops| && PredsIn(g, i, done)
  }

  ghost predicate PredsIn(g: Graph, i: nat, done: set<nat>)
    requires i < |g.ops|
  {
    forall j <- g.ops[i].preds :: j in done
  }

  /** A path into a step whose predecessors are done comes from a step done. */
  lemma {:induction false} PathIsDone(g: Graph, done: set<nat>, path: seq<nat>)
    requires ForwardEdges(g.ops) && ClosedBack(g, done)
    requires IsPath(OpEdges(g.ops), path) && path[|path| - 1] < |g.ops|
    requires path[|path| - 1] in done || (|path| > 1 && PredsIn(g, path[|path| - 1], done))
    ensures path[0] in done
    decreases |path|
  {
    if |path| > 1 {
      var last, before := path[|path| - 1], path[|path| - 2];
      assert path[|path| - 2 + 1] in Succ(OpEdges(g.ops), before);
      assert before in g.ops[last].preds;
      var shorter := path[..|path| - 1];
      assert shorter[|shorter| - 1] == before && before in done;
      PathIsDone(g, done, shorter);
    }
  }

  lemma EarlierIsDone(g: Graph, done: set<nat>, j: nat, i: nat)
    requires ForwardEdges(g.ops) && ClosedBack(g, done) && j != i < |g.ops|
    requires Reaches(OpEdges(g.ops), j, i) && (i in done || PredsIn(g, i, done))
    ensures j in done
  {
    var path :| IsPath(OpEdges(g.ops), path) && path[0] == j && path[|path| - 1] == i;
    PathIsDone(g, done, path);
  }

  /** A step whose predecessors are done finds each of its slots just as its
      turn in program order would. */
  lemma TurnOf(g: Graph, done: set<nat>, i: nat, v: ValueId)
    requires ForwardEdges(g.ops) && ConflictsOrdered(g) && ClosedBack(g, done)
    requires i < |g.ops| && i !in done && PredsIn(g, i, done) && Touches(g, i, v)
    ensures Frontier(g, done, v, i)
  {
    hide PredsIn, ForwardEdges, ClosedBack, Reaches;
    forall w: nat | Writes(g, w, v) ensures w in done <==> w < i {
      if w < i {
        assert Conflict(g, w, i);
        EarlierIsDone(g, done, w, i);
      } else if w > i && w in done {
        assert Conflict(g, i, w);
        EarlierIsDone(g, done, i, w);
      }
    }
  }

  /** A slot nobody writes in between keeps its value. */
  lemma {:induction false} NotWrittenBetween<D(!new)>(p: Program<D>, v: ValueId, a: nat, b: nat)
    requires ValidProgram(p) && a <= b <= |p.g.ops|
    requires forall w: nat | a <= w < b :: !Writes(p.g, w, v)
    ensures Executor.SameAt(v, InOrder(p, a), InOrder(p, b))
  {
    if a < b {
      NotWrittenBetween(p, v, a, b - 1);
      assert !Writes(p.g, b - 1, v);
    }
  }

  lemma InputsInOrder<D(!new)>(p: Program<D>, store: Store<D>, done: set<nat>, i: nat)
    requires ValidProgram(p) && Current(p, store, done) && ClosedBack(p.g, done)
    requires i < |p.g.ops| && i !in done && PredsIn(p.g, i, done)
    ensures Executor.InputsOf(p.g, store, i) == Executor.InputsOf(p.g, InOrder(p, i), i)
  {
    hide PredsIn, ClosedBack, Frontier, InOrder, ConflictsOrdered, ForwardEdges, Partition, ClusterEdges;
    forall v | v in p.g.ops[i].inputs ensures Executor.SameAt(v, store, InOrder(p, i)) {
      TurnOf(p.g, done, i, v);
    }
  }

  /** What a step wrote is what the slot holds in program order until the slot
      is written again. */
  lemma WrittenInOrder<D(!new)>(p: Program<D>, done: set<nat>, i: nat, v: ValueId, m: nat)
    requires ValidProgram(p) && Writes(p.g, i, v) && m <= |p.g.ops|
    requires Frontier(p.g, done, v, i) && Frontier(p.g, done + {i}, v, m)
    ensures i < m && Executor.SameAt(v, InOrder(p, i + 1), InOrder(p, m))
  {
    assert i in done + {i};
    forall w: nat | i + 1 <= w < m ensures !Writes(p.g, w, v) {
      assert w in done + {i} <==> w in done;
    }
    NotWrittenBetween(p, v, i + 1, m);
  }

  /** A step that ran on its program-order inputs brings its slots forward and
      disturbs no other. */
  lemma StepLands<D(!new)>(p: Program<D>, store: Store<D>, done: set<nat>, i: nat)
    requires ValidProgram(p) && Current(p, store, done) && ClosedBack(p.g, done)
    requires i < |p.g.ops| && i !in done && PredsIn(p.g, i, done)
    ensures
      var out := p.effect(i, Executor.InputsOf(p.g, InOrder(p, i), i));
      Current(p, store + out, done + {i}) && ClosedBack(p.g, done + {i})
  {
    var out := p.effect(i, Executor.InputsOf(p.g, InOrder(p, i), i));
    assert out.Keys == Executor.OutputSet(p.g, i);
    forall v: ValueId, m: nat | m <= |p.g.ops| && Frontier(p.g, done + {i}, v, m)
      ensures Executor.SameAt(v, store + out, InOrder(p, m))
    {
      SlotLands(p, store, done, i, v, m);
    }
  }

  lemma SlotLands<D(!new)>(p: Program<D>, store: Store<D>, done: set<nat>, i: nat, v: ValueId, m: nat)
    requires ValidProgram(p) && Current(p, store, done) && ClosedBack(p.g, done)
    requires i < |p.g.ops| && i !in done && PredsIn(p.g, i, done)
    requires m <= |p.g.ops| && Frontier(p.g, done + {i}, v, m)
    ensures Executor.SameAt(v, store + p.effect(i, Executor.InputsOf(p.g, InOrder(p, i), i)), InOrder(p, m))
  {
    hide PredsIn, ClosedBack, ConflictsOrdered, ForwardEdges, Partition, ClusterEdges, Acyclic;
    var out := p.effect(i, Executor.InputsOf(p.g, InOrder(p, i), i));
    assert out.Keys == Executor.OutputSet(p.g, i);
    if Writes(p.g, i, v) {
      TurnOf(p.g, done, i, v);
      WrittenInOrder(p, done, i, v, m);
      assert v in out && InOrder(p, i + 1) == InOrder(p, i) + out;
    } else {
      assert v !in out;
      forall w: nat | Writes(p.g, w, v) ensures w in done <==> w < m {
        assert w in done + {i} <==> w < m;
      }
      assert Frontier(p.g, done, v, m);
    }
  }

  /** Once every step is done the slots are those of program order. */
  lemma AllDone<D(!new)>(p: Program<D>, store: Store<D>, done: set<nat>)
    requires Current(p, store, done) && forall i: nat :: i in done <==> i < |p.g.ops|
    ensures store == InOrder(p, |p.g.ops|)
  {
    hide InOrder;
    var last := InOrder(p, |p.g.ops|);
    forall v: ValueId ensures (v in store <==> v in last) && (v in last ==> store[v] == last[v]) {
      assert Frontier(p.g, done, v, |p.g.ops|);
      assert Executor.SameAt(v, store, last);
    }
  }
}
