/** Repeating a frame with no input changed: when the slots stay as they are,
    and so when a cone of nothing may stand for a full run. */
module RepeatedFrames {
  import opened OpGraph
  import opened BakedRuns
  import opened ScheduleRuns
  import opened ConeRuns
  import Executor

  /** The same frame again, from the slots the first one left. */
  ghost function Again<D>(p: Program<D>): Program<D> {
    Program(p.g, p.effect, InOrder(p, |p.g.ops|))
  }

  /** If readers follow the writers, the slots stay as they are. */
  lemma RepeatKeepsSlots<D(!new)>(p: Program<D>)
    requires ValidProgram(p) && OneWriter(p.g) && ReadersFollow(p.g)
    ensures InOrder(Again(p), |p.g.ops|) == InOrder(p, |p.g.ops|)
  {
    hide InOrder, ForwardEdges, ClusterEdges, Acyclic, ConflictsOrdered, OneWriter, ReadersFollow;
    var again := Again(p);
    ConeIsStartable(p, again, {}, {});
    AllDone(again, again.start, CleanSteps(p.g, {}));
  }

  // ---- A reader before its writer ------------------------------------------------------

  function Fill(keys: seq<ValueId>, x: int): (m: map<ValueId, int>)
    ensures forall v :: v in m <==> v in keys
    ensures forall v | v in m :: m[v] == x
  {
    if keys == [] then map[] else Fill(keys[1..], x)[keys[0] := x]
  }

  /** Step `i` writes one more than slot `v` held; every other step writes 7. */
  function Echo(g: Graph, i: nat, v: ValueId, k: nat, inputs: Store<int>): Store<int> {
    if k >= |g.ops| then map[]
    else Fill(g.ops[k].outputs, if k == i && v in inputs then inputs[v] + 1 else 7)
  }

  function EchoFrom(g: Graph, i: nat, v: ValueId, start: Store<int>): Program<int> {
    Program(g, (k, inputs) => Echo(g, i, v, k, inputs), start)
  }

  lemma EchoIsValid(g: Graph, i: nat, v: ValueId, start: Store<int>)
    requires Orderly(g)
    ensures ValidProgram(EchoFrom(g, i, v, start))
  {
    hide Orderly;
  }

  /** What step `k` leaves in its slot is there at the end. */
  lemma EchoEnds(g: Graph, i: nat, v: ValueId, start: Store<int>, k: nat, u: ValueId)
    requires Orderly(g) && OneWriter(g) && Writes(g, k, u) && i < |g.ops|
    ensures
      var p := EchoFrom(g, i, v, start);
      var inputs, last := Executor.InputsOf(g, InOrder(p, k), k), InOrder(p, |g.ops|);
      u in last && last[u] == if k == i && v in inputs then inputs[v] + 1 else 7
  {
    var p := EchoFrom(g, i, v, start);
    EchoIsValid(g, i, v, start);
    WrittenOnce(p, k, u, |g.ops|);
    hide Orderly, OneWriter;
    assert InOrder(p, k + 1) == InOrder(p, k) + Echo(g, i, v, k, Executor.InputsOf(g, InOrder(p, k), k));
  }

  /** The early reader passes on what the last frame left. */
  lemma EarlyReaderEchoes(g: Graph, i: nat, u: ValueId, w: nat, v: ValueId, start: Store<int>)
    requires Orderly(g) && OneWriter(g) && i <= w && v in start
    requires Writes(g, w, v) && Writes(g, i, u) && v in g.ops[i].inputs
    ensures
      var last := InOrder(EchoFrom(g, i, v, start), |g.ops|);
      && u in last && last[u] == start[v] + 1
      && v in last && last[v] == if w == i then start[v] + 1 else 7
  {
    hide Orderly, InOrder, Echo;
    var p := EchoFrom(g, i, v, start);
    EchoIsValid(g, i, v, start);
    WrittenOnce(p, w, v, i);
    EchoEnds(g, i, v, start, i, u);
    EchoEnds(g, i, v, start, w, v);
  }

  /** Repeating a frame keeps the slots, whatever the steps compute and whatever
      the slots held, if and only if every step that writes anything reads only
      slots written before its turn. */
  lemma RepeatKeepsSlotsIffReadersFollow(g: Graph)
    requires Orderly(g) && OneWriter(g)
    ensures
      (forall p: Program<int> | p.g == g && ValidProgram(p) :: InOrder(Again(p), |g.ops|) == InOrder(p, |g.ops|))
        <==> ReadersFollow(g)
  {
    hide Orderly, OneWriter, InOrder, Echo;
    if ReadersFollow(g) {
      forall p: Program<int> | p.g == g && ValidProgram(p) ensures InOrder(Again(p), |g.ops|) == InOrder(p, |g.ops|) {
        RepeatKeepsSlots(p);
      }
    } else {
      var w: nat, i: nat, u, v :| Writes(g, w, v) && Writes(g, i, u) && v in g.ops[i].inputs && i <= w;
      var p := EchoFrom(g, i, v, map[v := 5]);
      EchoIsValid(g, i, v, p.start);
      EarlyReaderEchoes(g, i, u, w, v, p.start);
      EarlyReaderEchoes(g, i, u, w, v, Again(p).start);
      assert InOrder(Again(p), |g.ops|)[u] != InOrder(p, |g.ops|)[u];
    }
  }
}
