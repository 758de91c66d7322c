/** The candidates of an execution: what its lists make mandatory, what they
    reach, found by a worklist that lists each operation once. */
module CandidateWave {
  import opened Options
  import opened FiniteSets
  import opened Digraphs
  import opened OpGraph

  /** The lists an execution is started with. */
  datatype Request = Request(
    readers: map<ValueId, seq<nat>>,
    volatileOps: seq<nat>,
    changedLeaves: seq<ValueId>,
    seedOps: seq<nat>,
    candidateOps: seq<nat>,
    force: bool)

  /** The marks of a worklist: operations already listed, each once. */
  datatype Marks = Marks(seeded: seq<bool>, candidates: seq<bool>, pending: seq<nat>)

  ghost predicate InRange(s: seq<nat>, n: nat) {
    forall i <- s :: i < n
  }

  ghost predicate Admissible(g: Graph, r: Request) {
    && |g.opClusters| == |g.ops| && (|g.ops| > 0 ==> |g.clusters| > 0)
    && InRange(r.seedOps, |g.ops|) && InRange(r.candidateOps, |g.ops|) && InRange(r.volatileOps, |g.ops|)
  }

  /** Operations whose bodies must run. */
  ghost predicate Mandatory(r: Request, i: nat) {
    r.force || i in r.seedOps || i in r.volatileOps
  }

  ghost predicate ReadsChanged(r: Request, i: nat) {
    exists v <- r.changedLeaves :: v in r.readers && i in r.readers[v]
  }

  /** Where the candidate wave starts. */
  ghost function Sources(g: Graph, r: Request): set<nat> {
    set i | i in Naturals(|g.ops|) && (Mandatory(r, i) || i in r.candidateOps || ReadsChanged(r, i))
  }

  ghost predicate WellMarked(n: nat, m: Marks) {
    && |m.seeded| == |m.candidates| == n
    && (forall i <- m.pending :: i < n && m.candidates[i])
    && (forall i: nat | i < n && m.candidates[i] :: i in m.pending)
    && (forall j, k | 0 <= j < k < |m.pending| :: m.pending[j] != m.pending[k])
  }

  method List(n: nat, m: Marks, i: nat) returns (after: Marks)
    requires WellMarked(n, m) && i < n
    ensures WellMarked(n, after) && after.seeded == m.seeded && m.pending <= after.pending
    ensures forall k: nat | k < n :: after.candidates[k] <==> m.candidates[k] || k == i
  {
    after := m;
    if !m.candidates[i] {
      after := m.(candidates := m.candidates[i := true], pending := m.pending + [i]);
    }
  }

  method ListAll(n: nat, m: Marks, ops: seq<nat>, mandatory: bool) returns (after: Marks)
    requires WellMarked(n, m) && InRange(ops, n)
    ensures WellMarked(n, after) && m.pending <= after.pending
    ensures forall k: nat | k < n :: after.candidates[k] <==> m.candidates[k] || k in ops
    ensures forall k: nat | k < n :: after.seeded[k] <==> m.seeded[k] || (mandatory && k in ops)
  {
    after := m;
    for j := 0 to |ops|
      invariant WellMarked(n, after) && m.pending <= after.pending
      invariant forall k: nat | k < n :: after.candidates[k] <==> m.candidates[k] || k in ops[..j]
      invariant forall k: nat | k < n :: after.seeded[k] <==> m.seeded[k] || (mandatory && k in ops[..j])
    {
      assert ops[j] in ops && ops[..j + 1] == ops[..j] + [ops[j]];
      if mandatory {
        after := after.(seeded := after.seeded[ops[j] := true]);
      }
      after := List(n, after, ops[j]);
    }
    assert ops[..|ops|] == ops;
  }

  ghost predicate Expanded(g: Graph, m: Marks, op: nat) {
    op < |g.ops| == |m.candidates| && forall j <- g.ops[op].succs :: j < |g.ops| && m.candidates[j]
  }

  /** Everything marked is reached, and what the first `at` entries lead to is marked. */
  ghost predicate Closing(g: Graph, start: set<nat>, m: Marks, at: nat) {
    && WellMarked(|g.ops|, m) && at <= |m.pending|
    && (forall i: nat | i < |g.ops| && i in start :: m.candidates[i])
    && (forall i: nat | i < |g.ops| && m.candidates[i] :: ReachedFrom(OpEdges(g.ops), start, i))
    && (forall k: nat | k < at :: Expanded(g, m, m.pending[k]))
  }

  /** Listing one entry's successors lets the scan move past it. */
  lemma ClosingStep(g: Graph, start: set<nat>, before: Marks, after: Marks, at: nat)
    requires ForwardEdges(g.ops) && Closing(g, start, before, at) && at < |before.pending|
    requires WellMarked(|g.ops|, after) && before.pending <= after.pending
    requires before.pending[at] in before.pending
    requires forall k: nat | k < |g.ops| ::
      after.candidates[k] <==> before.candidates[k] || k in g.ops[before.pending[at]].succs
    ensures Closing(g, start, after, at + 1)
  {
    var op := before.pending[at];
    assert before.candidates[op];
    forall k: nat | k < at + 1 ensures Expanded(g, after, after.pending[k]) {
      assert after.pending[k] == before.pending[k];
      assert k < at ==> Expanded(g, before, before.pending[k]);
    }
    forall i: nat | i < |g.ops| && after.candidates[i] ensures ReachedFrom(OpEdges(g.ops), start, i) {
      if !before.candidates[i] {
        SuccReached(g, start, op, i);
      }
    }
  }

  lemma SuccReached(g: Graph, start: set<nat>, op: nat, next: nat)
    requires op < |g.ops| && ReachedFrom(OpEdges(g.ops), start, op) && next in g.ops[op].succs
    ensures ReachedFrom(OpEdges(g.ops), start, next)
  {
    var source :| source in start && Reaches(OpEdges(g.ops), source, op);
    SuccOfReached(OpEdges(g.ops), source, op, next);
  }

  /** A finished scan has found exactly what is reached. */
  ghost function MarkedSet(g: Graph, m: Marks): set<nat>
    requires |m.candidates| == |g.ops|
  {
    set i | i in Naturals(|g.ops|) && m.candidates[i]
  }

  lemma MarkedIsClosed(g: Graph, start: set<nat>, m: Marks)
    requires Closing(g, start, m, |m.pending|)
    ensures Closed(OpEdges(g.ops), MarkedSet(g, m))
  {
    hide ReachedFrom;
    forall a, b | a in MarkedSet(g, m) && b in Succ(OpEdges(g.ops), a) ensures b in MarkedSet(g, m) {
      assert a in m.pending;
      var k :| 0 <= k < |m.pending| && m.pending[k] == a;
      assert Expanded(g, m, m.pending[k]);
    }
  }

  lemma ClosingDone(g: Graph, start: set<nat>, m: Marks)
    requires Closing(g, start, m, |m.pending|) && start <= Naturals(|g.ops|)
    ensures forall i: nat | i < |g.ops| :: m.candidates[i] <==> ReachedFrom(OpEdges(g.ops), start, i)
  {
    hide ReachedFrom, Closed, OpEdges, Expanded;
    MarkedIsClosed(g, start, m);
    ClosedAndReachedIsReachability(OpEdges(g.ops), start, MarkedSet(g, m));
    forall i: nat | i < |g.ops| ensures m.candidates[i] <==> ReachedFrom(OpEdges(g.ops), start, i) {
      assert i in MarkedSet(g, m) <==> m.candidates[i];
    }
  }

  lemma ClosingStarts(g: Graph, start: set<nat>, m: Marks)
    requires WellMarked(|g.ops|, m) && start <= Naturals(|g.ops|)
    requires forall i: nat | i < |g.ops| :: i in start <==> m.candidates[i]
    ensures Closing(g, start, m, 0)
  {
    hide Reaches, OpEdges;
    forall i <- start ensures ReachedFrom(OpEdges(g.ops), start, i) {
      ReachesSelf(OpEdges(g.ops), i);
    }
  }

  lemma ClosingHere(g: Graph, start: set<nat>, m: Marks, at: nat)
    requires ForwardEdges(g.ops) && Closing(g, start, m, at)
    ensures at <= |m.pending| && WellMarked(|g.ops|, m)
    ensures at < |m.pending| ==>
              m.pending[at] in m.pending && m.pending[at] < |g.ops| && InRange(g.ops[m.pending[at]].succs, |g.ops|)
  {
    hide ReachedFrom;
  }

  method CloseOver(g: Graph, ghost start: set<nat>, m: Marks) returns (after: Marks)
    requires ForwardEdges(g.ops) && WellMarked(|g.ops|, m) && start <= Naturals(|g.ops|)
    requires forall i: nat | i < |g.ops| :: i in start <==> m.candidates[i]
    ensures WellMarked(|g.ops|, after) && after.seeded == m.seeded
    ensures forall i: nat | i < |g.ops| :: after.candidates[i] <==> ReachedFrom(OpEdges(g.ops), start, i)
  {
    hide Closing, ForwardEdges, ReachedFrom;
    var n := |g.ops|;
    after := m;
    ClosingStarts(g, start, m);
    ClosingHere(g, start, m, 0);
    var at := 0;
    while at < |after.pending|
      invariant Closing(g, start, after, at) && after.seeded == m.seeded
      invariant WellMarked(n, after) && at <= |after.pending|
      decreases n - at
    {
      DistinctBounded(after.pending, n);
      ClosingHere(g, start, after, at);
      ghost var before := after;
      after := ListAll(n, after, g.ops[after.pending[at]].succs, false);
      ClosingStep(g, start, before, after, at);
      at := at + 1;
      ClosingHere(g, start, after, at);
    }
    ClosingDone(g, start, after);
  }

  method AllInRange(ops: seq<nat>, n: nat) returns (ok: bool)
    ensures ok <==> InRange(ops, n)
  {
    for k := 0 to |ops|
      invariant forall j | 0 <= j < k :: ops[j] < n
    {
      if ops[k] >= n {
        assert ops[k] in ops;
        return false;
      }
    }
    return true;
  }

  ghost predicate ReadBefore(r: Request, k: nat, i: nat)
    requires k <= |r.changedLeaves|
  {
    exists j :: 0 <= j < k && r.changedLeaves[j] in r.readers && i in r.readers[r.changedLeaves[j]]
  }

  method ListReaders(n: nat, m: Marks, r: Request) returns (after: Marks)
    requires WellMarked(n, m) && forall v <- r.readers.Keys :: InRange(r.readers[v], n)
    ensures WellMarked(n, after) && after.seeded == m.seeded
    ensures forall i: nat | i < n :: after.candidates[i] <==> m.candidates[i] || ReadsChanged(r, i)
  {
    after := m;
    for k := 0 to |r.changedLeaves|
      invariant WellMarked(n, after) && after.seeded == m.seeded
      invariant forall i: nat | i < n :: after.candidates[i] <==> m.candidates[i] || ReadBefore(r, k, i)
    {
      if r.changedLeaves[k] in r.readers {
        after := ListAll(n, after, r.readers[r.changedLeaves[k]], false);
      }
    }
  }

  /** The candidate wave of an execution: None when the request names an
      operation out of range, else the operations that must run, and exactly
      the operations reached from the request's sources, each listed once. */
  method Candidates(g: Graph, r: Request) returns (result: Option<Marks>)
    requires ForwardEdges(g.ops)
    requires forall v <- r.readers.Keys :: InRange(r.readers[v], |g.ops|)
    ensures result.Some? <==> Admissible(g, r)
    ensures result.None? <==>
      || |g.opClusters| != |g.ops| || (|g.ops| > 0 && |g.clusters| == 0)
      || (exists i :: i >= |g.ops| && (i in r.seedOps || i in r.candidateOps || i in r.volatileOps))
    ensures result.Some? ==>
      var m := result.value;
      && WellMarked(|g.ops|, m)
      && (forall i: nat | i < |g.ops| :: m.seeded[i] <==> r.force || i in r.seedOps || i in r.volatileOps)
      && (forall i: nat | i < |g.ops| :: m.candidates[i] <==> ReachedFrom(OpEdges(g.ops), Sources(g, r), i))
  {
    var n := |g.ops|;
    if |g.opClusters| != n || (n > 0 && |g.clusters| == 0) {
      return None;
    }
    var seedsOk := AllInRange(r.seedOps, n);
    var candidatesOk := AllInRange(r.candidateOps, n);
    var volatileOk := AllInRange(r.volatileOps, n);
    if !seedsOk || !candidatesOk || !volatileOk {
      return None;
    }
    var m := Marks(seq(n, _ => r.force), seq(n, _ => false), []);
    m := ListAll(n, m, r.seedOps, true);
    m := ListAll(n, m, r.candidateOps, false);
    m := ListReaders(n, m, r);
    if r.force {
      m := ListAll(n, m, seq(n, i => i), true);
    } else {
      m := ListAll(n, m, r.volatileOps, true);
    }
    forall i: nat | i < n ensures i in Sources(g, r) <==> m.candidates[i] {
      assert seq(n, k => k)[i] == i;
    }
    m := CloseOver(g, Sources(g, r), m);
    return Some(m);
  }

  /** `readers` lists every reader of every value. */
  ghost predicate ReadersComplete(g: Graph, readers: map<ValueId, seq<nat>>) {
    forall i, v | 0 <= i < |g.ops| && v in g.ops[i].inputs :: v in readers && i in readers[v]
  }

  /** The candidate wave is what the state machine asks of its candidates. */
  lemma CandidatesFit(g: Graph, r: Request, seeded: set<nat>, candidates: set<nat>)
    requires ForwardEdges(g.ops) && ReadersComplete(g, r.readers)
    requires forall i: nat :: i in seeded <==> i < |g.ops| && Mandatory(r, i)
    requires forall i: nat :: i in candidates <==> i < |g.ops| && ReachedFrom(OpEdges(g.ops), Sources(g, r), i)
    ensures seeded <= candidates
    ensures forall i, v | 0 <= i < |g.ops| && v in g.ops[i].inputs && v in r.changedLeaves :: i in candidates
    ensures forall i, j | 0 <= i < |g.ops| && j in g.ops[i].preds && j in candidates :: i in candidates
  {
    var start := Sources(g, r);
    forall i: nat | i in start ensures i in candidates {
      ReachesSelf(OpEdges(g.ops), i);
    }
    forall i: nat, v | i < |g.ops| && v in g.ops[i].inputs && v in r.changedLeaves ensures i in candidates {
      assert ReadsChanged(r, i);
      assert i in start;
    }
    forall i: nat, j | i < |g.ops| && j in g.ops[i].preds && j in candidates ensures i in candidates {
      assert i in g.ops[j].succs;
      SuccReached(g, start, j, i);
    }
  }

  /** Successors lead from an operation that a list names, or that reads a changed
      leaf, along `p`. */
  ghost predicate Wave(g: Graph, r: Request, p: seq<nat>) {
    && |p| > 0
    && (forall k | 0 <= k < |p| :: p[k] < |g.ops|)
    && (forall k | 0 <= k < |p| - 1 :: p[k + 1] in g.ops[p[k]].succs)
    && (r.force || p[0] in r.seedOps || p[0] in r.volatileOps || p[0] in r.candidateOps || Reader(r, p[0]))
  }

  ghost predicate Reader(r: Request, i: nat) {
    exists v :: v in r.changedLeaves && v in r.readers && i in r.readers[v]
  }

  /** The candidates are what such a wave arrives at. */
  lemma WaveMeaning(g: Graph, r: Request, i: nat)
    requires ForwardEdges(g.ops) && i < |g.ops|
    ensures ReachedFrom(OpEdges(g.ops), Sources(g, r), i) <==> exists p :: Wave(g, r, p) && p[|p| - 1] == i
  {
    var edges := OpEdges(g.ops);
    if ReachedFrom(edges, Sources(g, r), i) {
      var a :| a in Sources(g, r) && Reaches(edges, a, i);
      var p :| IsPath(edges, p) && p[0] == a && p[|p| - 1] == i;
      forall k | 0 <= k < |p| ensures p[k] < |g.ops| {
        OnWave(g, p, k);
      }
      forall k | 0 <= k < |p| - 1 ensures p[k + 1] in g.ops[p[k]].succs {
        assert p[k + 1] in Succ(edges, p[k]);
      }
      assert Wave(g, r, p);
    }
    if p :| Wave(g, r, p) && p[|p| - 1] == i {
      assert IsPath(edges, p);
      assert p[0] in Sources(g, r);
    }
  }

  lemma {:induction false} OnWave(g: Graph, p: seq<nat>, k: nat)
    requires ForwardEdges(g.ops) && IsPath(OpEdges(g.ops), p) && p[0] < |g.ops| && k < |p|
    ensures p[k] < |g.ops|
  {
    if k > 0 {
      OnWave(g, p, k - 1);
      assert p[k - 1 + 1] in Succ(OpEdges(g.ops), p[k - 1]);
    }
  }
}
