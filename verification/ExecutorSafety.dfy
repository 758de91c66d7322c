/** What every step of the executor keeps, over every interleaving of its tasks. */
module ExecutorSafety {
  import opened Options
  import opened OpGraph
  import opened Executor

  // ---- The invariant -----------------------------------------------------------------

  ghost predicate Shape<D>(job: Job<D>, s: State<D>) {
    var clusters := job.g.clusters;
    && |s.tasks| == |s.unresolved| == |clusters|
    && |s.completion| == |job.g.ops|
    && forall c | 0 <= c < |clusters| ::
         match s.tasks[c]
         case AtMember(at) => at <= |clusters[c].members|
         case Checked(at) => at < |clusters[c].members|
         case InBody(at, held) => at < |clusters[c].members|
         case Releasing(next) => next <= |clusters[c].succs|
         case _ => true
  }

  ghost predicate GateOf<D>(job: Job<D>, s: State<D>, c: nat)
    requires Shape(job, s) && c < |job.g.clusters|
  {
    if CandidateCluster(job, c) then
      s.unresolved[c] == |Pending(job, s, c)| && (s.tasks[c].Waiting? <==> Pending(job, s, c) != {})
    else
      s.tasks[c].Waiting?
  }

  /** A task is held back exactly while a candidate predecessor has not counted
      itself off, and the count is how many have not: it never underflows. */
  ghost predicate Gated<D>(job: Job<D>, s: State<D>)
    requires Shape(job, s)
  {
    forall c: nat | c < |job.g.clusters| :: GateOf(job, s, c)
  }

  /** The task of operation `i`'s cluster has gone past it. */
  ghost predicate Passed<D>(job: Job<D>, s: State<D>, i: nat)
    requires Partition(job.g) && Shape(job, s) && i < |job.g.ops|
  {
    var c := job.g.opClusters[i];
    var members := job.g.clusters[c].members;
    match s.tasks[c]
    case Waiting => false
    case Ready => false
    case AtMember(at) => at == |members| || i < members[at]
    case Checked(at) => i < members[at]
    case InBody(at, held) => i < members[at]
    case Releasing(next) => true
    case Finished => true
  }

  ghost predicate PredsSettled<D>(job: Job<D>, s: State<D>, i: nat)
    requires i < |job.g.ops|
  {
    forall j <- job.g.ops[i].preds :: j in s.settled
  }

  ghost predicate Settlement<D>(job: Job<D>, s: State<D>)
    requires Partition(job.g) && Shape(job, s)
  {
    var n := |job.g.ops|;
    && (forall i <- s.settled :: i < n && Consistent(job, s.store, i) && PredsSettled(job, s, i))
    && (forall i <- s.settled :: i in job.candidates ==> Passed(job, s, i))
    && (forall i | 0 <= i < n && i !in job.candidates :: i in s.settled)
    && (s.ok ==> forall i | 0 <= i < n && Passed(job, s, i) :: i in s.settled)
  }

  /** A body in flight read settled inputs, and nothing has touched them since. */
  ghost predicate InFlight<D>(job: Job<D>, s: State<D>)
    requires Partition(job.g) && Shape(job, s)
  {
    forall c: nat | InOp(job, s, c) ::
      var i := Current(job, s, c);
      && i in job.candidates && i in s.ran && i !in s.settled
      && PredsSettled(job, s, i)
      && s.tasks[c].held == InputsOf(job.g, s.store, i)
  }

  ghost predicate IsChecked<D>(job: Job<D>, s: State<D>, c: nat) {
    AtOp(job, s, c) && s.tasks[c].Checked?
  }

  /** A checked operation's predecessors are settled, and stay so even when
      another body fails before it is entered. */
  ghost predicate Cleared<D>(job: Job<D>, s: State<D>) {
    forall c: nat | IsChecked(job, s, c) ::
      Current(job, s, c) in job.candidates && PredsSettled(job, s, Current(job, s, c))
  }

  /** An operation that ran is a candidate now passed or in flight. */
  ghost predicate RanAccounted<D>(job: Job<D>, s: State<D>, i: nat)
    requires Partition(job.g) && Shape(job, s)
  {
    i < |job.g.ops| && i in job.candidates
    && (Passed(job, s, i) || exists c: nat :: InOp(job, s, c) && Current(job, s, c) == i)
  }

  /** An unflagged value is the retained one, and a flagged output was left. */
  ghost predicate Flagged<D>(job: Job<D>, s: State<D>)
    requires Partition(job.g) && Shape(job, s)
  {
    && (s.ok ==> forall v: ValueId | v !in s.changed :: SameAt(v, job.retained, s.store))
    && (forall i, v | 0 <= i < |job.g.ops| && v in job.g.ops[i].outputs && v in s.changed :: Passed(job, s, i))
    && (forall v: ValueId | Leaf(job.g.ops, v) :: SameAt(v, job.start, s.store))
    && (forall i <- s.ran :: RanAccounted(job, s, i))
  }

  /** After a failure, some operation failed on settled inputs. */
  ghost predicate Witness<D>(job: Job<D>, s: State<D>, f: nat)
    requires Partition(job.g) && Shape(job, s)
  {
    && f < |job.g.ops|
    && Passed(job, s, f) && f !in s.settled && PredsSettled(job, s, f)
    && job.body(f, InputsOf(job.g, s.store, f)).None?
  }

  ghost predicate Explained<D>(job: Job<D>, s: State<D>)
    requires Partition(job.g) && Shape(job, s)
  {
    !s.ok ==> exists f :: Witness(job, s, f)
  }

  ghost predicate Inv<D(!new)>(job: Job<D>, s: State<D>) {
    && ValidJob(job)
    && Shape(job, s)
    && Gated(job, s)
    && Settlement(job, s)
    && InFlight(job, s)
    && Cleared(job, s)
    && Flagged(job, s)
    && Explained(job, s)
  }

  // ---- The start ------------------------------------------------------------------------

  lemma InitialInv<D(!new)>(job: Job<D>, s: State<D>)
    requires ValidJob(job) && Initial(job, s)
    ensures Inv(job, s)
  {
    assert forall c: nat | c < |job.g.clusters| :: Pending(job, s, c) == {} <==> |Pending(job, s, c)| == 0;
    assert Gated(job, s);
    forall i <- s.settled
      ensures Consistent(job, s.store, i) && PredsSettled(job, s, i)
    {
      RetainedConsistent(job, i);
    }
    assert Settlement(job, s);
    forall i, v | 0 <= i < |job.g.ops| && v in job.g.ops[i].outputs ensures v !in s.changed {
      assert !Leaf(job.g.ops, v);
    }
  }

  /** An operation no candidate reaches was not disturbed by the new leaves. */
  lemma RetainedConsistent<D(!new)>(job: Job<D>, i: nat)
    requires ValidJob(job) && i < |job.g.ops| && i !in job.candidates
    ensures Consistent(job, job.start, i)
  {
    assert Consistent(job, job.retained, i);
    forall v | v in job.g.ops[i].inputs ensures SameAt(v, job.retained, job.start) {}
    assert InputsOf(job.g, job.retained, i) == InputsOf(job.g, job.start, i);
    forall v | v in OutputSet(job.g, i) ensures SameAt(v, job.retained, job.start) {
      assert !Leaf(job.g.ops, v);
    }
  }

  // ---- Tasks moving --------------------------------------------------------------------------

  /** Only cluster `c`'s task differs, and it neither starts nor stops waiting
      nor counts anything off. */
  ghost predicate MovesOnly<D>(job: Job<D>, s: State<D>, t: State<D>, c: nat)
    requires Shape(job, s) && Shape(job, t) && c < |job.g.clusters|
  {
    && t.unresolved == s.unresolved
    && (forall d | 0 <= d < |s.tasks| && d != c :: t.tasks[d] == s.tasks[d])
    && !s.tasks[c].Waiting? && !t.tasks[c].Waiting?
    && (forall d | 0 <= d < |job.g.clusters| && c in job.g.clusters[d].preds ::
          Released(job, s, c, d) == Released(job, t, c, d))
  }

  lemma GateKept<D(!new)>(job: Job<D>, s: State<D>, t: State<D>, c: nat)
    requires Inv(job, s) && Shape(job, t) && c < |job.g.clusters| && MovesOnly(job, s, t, c)
    ensures Gated(job, t)
  {
    forall d: nat | d < |job.g.clusters| ensures GateOf(job, t, d) {
      assert GateOf(job, s, d);
      forall p | p in job.g.clusters[d].preds && p < |job.g.clusters|
        ensures Released(job, s, p, d) == Released(job, t, p, d)
      {}
      assert Pending(job, t, d) == Pending(job, s, d);
    }
  }

  /** A task that has begun finds every predecessor of its current operation passed. */
  lemma PredsPassed<D(!new)>(job: Job<D>, s: State<D>, c: nat, j: nat)
    requires ForwardEdges(job.g.ops) && Partition(job.g) && ClusterEdges(job.g)
    requires Shape(job, s) && Gated(job, s) && (AtOp(job, s, c) || InOp(job, s, c))
    requires Current(job, s, c) in job.candidates
    requires j in job.g.ops[Current(job, s, c)].preds
    ensures j < |job.g.ops| && (Passed(job, s, j) || j !in job.candidates)
  {
    var i := Current(job, s, c);
    assert j < i;
    var d := job.g.opClusters[j];
    MemberInRange(job.g, c, s.tasks[c].at);
    if d != c {
      assert d in job.g.clusters[c].preds;
      assert GateOf(job, s, c);
      assert CandidateCluster(job, c) && Pending(job, s, c) == {};
      if CandidateCluster(job, d) {
        assert d !in Pending(job, s, c);
      }
    }
  }

  lemma PredsSettledAt<D(!new)>(job: Job<D>, s: State<D>, c: nat)
    requires Inv(job, s) && AtOp(job, s, c) && s.ok && Current(job, s, c) in job.candidates
    ensures PredsSettled(job, s, Current(job, s, c))
  {
    forall j <- job.g.ops[Current(job, s, c)].preds ensures j in s.settled {
      PredsPassed(job, s, c, j);
    }
  }

  /** Moving one member on passes that member and nothing else. */
  lemma PassedNext<D(!new)>(job: Job<D>, s: State<D>, t: State<D>, c: nat, i: nat)
    requires ValidJob(job) && Shape(job, s) && Shape(job, t) && (AtOp(job, s, c) || InOp(job, s, c))
    requires t.tasks == s.tasks[c := AtMember(s.tasks[c].at + 1)] && i < |job.g.ops|
    ensures Passed(job, t, i) <==> Passed(job, s, i) || i == Current(job, s, c)
    ensures !Passed(job, s, Current(job, s, c))
  {
    var members := job.g.clusters[c].members;
    var at := s.tasks[c].at;
    MemberInRange(job.g, c, at);
    if job.g.opClusters[i] == c {
      var k :| 0 <= k < |members| && members[k] == i;
      assert k < at ==> members[k] < members[at];
      assert k > at ==> members[at] < members[k];
      if at + 1 < |members| {
        assert k < at + 1 ==> members[k] < members[at + 1];
        assert k > at + 1 ==> members[at + 1] < members[k];
      }
    }
  }

  lemma SameInputs<D>(g: Graph, a: Store<D>, b: Store<D>, i: nat)
    requires i < |g.ops| && forall v <- g.ops[i].inputs :: SameAt(v, a, b)
    ensures InputsOf(g, a, i) == InputsOf(g, b, i)
  {
    hide Gather;
    assert forall v :: v in InputsOf(g, a, i) <==> v in InputsOf(g, b, i);
  }

  /** An unsettled operation writes nothing that an operation with settled
      predecessors reads, and nothing that another operation writes. */
  lemma Undisturbed<D(!new)>(job: Job<D>, s: State<D>, j: nat, out: Store<D>, i: nat)
    requires ValidJob(job) && j < |job.g.ops| && i < |job.g.ops| && i != j
    requires j !in s.settled && PredsSettled(job, s, i)
    requires out.Keys <= OutputSet(job.g, j)
    ensures InputsOf(job.g, s.store + out, i) == InputsOf(job.g, s.store, i)
    ensures forall v <- job.g.ops[i].outputs :: SameAt(v, s.store, s.store + out)
  {
    hide InputsOf, Gather, ForwardEdges, Partition, ClusterEdges, Consistent, Leaf;
    assert forall v | v in out.Keys :: v in job.g.ops[j].outputs;
    assert forall v | v in job.g.ops[i].inputs :: v !in out.Keys;
    assert forall v | v in job.g.ops[i].outputs :: v !in out.Keys;
    SameInputs(job.g, s.store + out, s.store, i);
  }

  lemma OutputsDeclared<D(!new)>(job: Job<D>, i: nat, inputs: Store<D>)
    requires ValidJob(job) && i < |job.g.ops| && job.body(i, inputs).Some?
    ensures job.body(i, inputs).value.Keys == OutputSet(job.g, i)
  {}

  // ---- Steps that only move a task ------------------------------------------------------

  lemma ClearedKept<D(!new)>(job: Job<D>, s: State<D>, t: State<D>)
    requires Cleared(job, s) && s.settled <= t.settled
    requires forall c: nat | IsChecked(job, t, c) :: IsChecked(job, s, c) && t.tasks[c] == s.tasks[c]
    ensures Cleared(job, t)
  {
    forall c: nat | IsChecked(job, t, c)
      ensures Current(job, t, c) in job.candidates && PredsSettled(job, t, Current(job, t, c))
    {
      assert IsChecked(job, s, c) && PredsSettled(job, s, Current(job, s, c));
    }
  }

  /** A step that moves a task past no operation and into no body. */
  lemma BookkeepingKeeps<D(!new)>(job: Job<D>, s: State<D>, t: State<D>)
    requires Inv(job, s) && Shape(job, t) && Gated(job, t)
    requires t.store == s.store && t.changed == s.changed && t.settled == s.settled
    requires t.ran == s.ran && t.ok == s.ok
    requires forall i: nat | i < |job.g.ops| :: Passed(job, t, i) == Passed(job, s, i)
    requires forall c: nat :: InOp(job, t, c) <==> InOp(job, s, c)
    requires forall c: nat | InOp(job, s, c) :: t.tasks[c] == s.tasks[c]
    requires forall c: nat | IsChecked(job, t, c) :: IsChecked(job, s, c) && t.tasks[c] == s.tasks[c]
    ensures Inv(job, t)
  {
    ClearedKept(job, s, t);
    assert Settlement(job, t);
    assert InFlight(job, t);
    RanKept(job, s, t);
    assert Flagged(job, t);
    if !t.ok {
      var f: nat :| Witness(job, s, f);
      assert Witness(job, t, f);
    }
  }

  /** Both before the first member, or both after the last. */
  ghost predicate SamePlace<D>(a: Task<D>, b: Task<D>) {
    || a == b
    || ((a.Waiting? || a.Ready?) && (b.Waiting? || b.Ready?))
    || ((a.Releasing? || a.Finished?) && (b.Releasing? || b.Finished?))
  }

  lemma SamePlaces<D>(job: Job<D>, s: State<D>, t: State<D>)
    requires Partition(job.g) && Shape(job, s) && Shape(job, t)
    requires forall d | 0 <= d < |s.tasks| :: SamePlace(s.tasks[d], t.tasks[d])
    ensures forall i: nat | i < |job.g.ops| :: Passed(job, t, i) == Passed(job, s, i)
    ensures forall d: nat :: InOp(job, t, d) <==> InOp(job, s, d)
    ensures forall d: nat | InOp(job, s, d) :: t.tasks[d] == s.tasks[d]
    ensures forall d: nat | IsChecked(job, t, d) :: IsChecked(job, s, d) && t.tasks[d] == s.tasks[d]
  {
    forall i: nat | i < |job.g.ops| ensures Passed(job, t, i) == Passed(job, s, i) {
      assert SamePlace(s.tasks[job.g.opClusters[i]], t.tasks[job.g.opClusters[i]]);
    }
    forall d: nat
      ensures InOp(job, t, d) <==> InOp(job, s, d)
      ensures InOp(job, s, d) ==> t.tasks[d] == s.tasks[d]
      ensures IsChecked(job, t, d) ==> IsChecked(job, s, d) && t.tasks[d] == s.tasks[d]
    {
      assert d < |s.tasks| ==> SamePlace(s.tasks[d], t.tasks[d]);
    }
  }

  lemma BeginKeeps<D(!new)>(job: Job<D>, s: State<D>, c: nat)
    requires Inv(job, s) && Enabled(job, s, Begin(c))
    ensures Inv(job, Step(job, s, Begin(c)))
  {
    hide Gated, Settlement, InFlight, Cleared, Flagged, Explained, CandidateCluster, Moved, InputsOf, ForwardEdges,
      SingleProducers, ClusterEdges, Acyclic, Leaf, Needed;
    var t := Step(job, s, Begin(c));
    GateKept(job, s, t, c);
    forall i: nat | i < |job.g.ops| ensures Passed(job, t, i) == Passed(job, s, i) {
      if job.g.opClusters[i] == c {
        var members := job.g.clusters[c].members;
        var k :| 0 <= k < |members| && members[k] == i;
        assert k > 0 ==> members[0] < members[k];
      }
    }
    BookkeepingKeeps(job, s, t);
  }

  lemma FinishKeeps<D(!new)>(job: Job<D>, s: State<D>, c: nat)
    requires Inv(job, s) && Enabled(job, s, Finish(c))
    ensures Inv(job, Step(job, s, Finish(c)))
  {
    hide Numbered, CandidatesBefore, Gated, Settlement, InFlight, Cleared, Flagged, Explained, CandidateCluster,
      Moved, InputsOf, ForwardEdges, SingleProducers, ClusterEdges, Acyclic, Leaf, Needed;
    var t := Step(job, s, Finish(c));
    GateKept(job, s, t, c);
    forall i: nat | i < |job.g.ops| ensures Passed(job, t, i) == Passed(job, s, i) {}
    BookkeepingKeeps(job, s, t);
  }

  lemma RetireKeeps<D(!new)>(job: Job<D>, s: State<D>, c: nat)
    requires Inv(job, s) && Enabled(job, s, Retire(c))
    ensures Inv(job, Step(job, s, Retire(c)))
  {
    hide Gated, Settlement, InFlight, Cleared, Flagged, Explained, CandidateCluster, Moved, InputsOf;
    var t := Step(job, s, Retire(c));
    forall d | 0 <= d < |job.g.clusters| && c in job.g.clusters[d].preds ensures Released(job, s, c, d) {
      assert d in job.g.clusters[c].succs;
    }
    GateKept(job, s, t, c);
    forall d | 0 <= d < |s.tasks| ensures SamePlace(s.tasks[d], t.tasks[d]) {}
    SamePlaces(job, s, t);
    BookkeepingKeeps(job, s, t);
  }

  ghost function NextOf<D>(job: Job<D>, s: State<D>, c: nat): nat
    requires Enabled(job, s, Release(c))
  {
    job.g.clusters[c].succs[s.tasks[c].next]
  }

  /** A task about to count itself off is one its successor waits for. */
  lemma ReleaseAwaited<D(!new)>(job: Job<D>, s: State<D>, c: nat)
    requires Runnable(job.g) && Shape(job, s) && Gated(job, s) && Enabled(job, s, Release(c))
    ensures var next := NextOf(job, s, c);
            && next != c && CandidateCluster(job, c) && c in Pending(job, s, next)
            && (CandidateCluster(job, next) ==> s.tasks[next].Waiting? && s.unresolved[next] > 0)
  {
    var next := NextOf(job, s, c);
    SelfEdgeFree(job.g, c);
    assert GateOf(job, s, c) && GateOf(job, s, next);
    assert next in job.g.clusters[c].succs;
    assert c in job.g.clusters[next].preds;
    assert !Released(job, s, c, next) by {
      var succs := job.g.clusters[c].succs;
      assert forall k | 0 <= k < s.tasks[c].next :: succs[k] < succs[s.tasks[c].next];
    }
  }

  lemma ReleasedAfter<D(!new)>(job: Job<D>, s: State<D>, c: nat, p: nat, d: nat)
    requires Runnable(job.g) && Shape(job, s) && Gated(job, s) && Enabled(job, s, Release(c))
    requires p < |job.g.clusters| && |Step(job, s, Release(c)).tasks| == |job.g.clusters|
    ensures Released(job, Step(job, s, Release(c)), p, d)
       <==> Released(job, s, p, d) || (p == c && d == NextOf(job, s, c))
  {
    ReleaseAwaited(job, s, c);
    var t := Step(job, s, Release(c));
    var next := NextOf(job, s, c);
    if p == c {
      assert t.tasks[c] == Releasing(s.tasks[c].next + 1);
    } else if p == next {
      assert GateOf(job, s, p);
    } else {
      assert t.tasks[p] == s.tasks[p];
    }
  }

  /** Counting off shrinks the successor's pending set by exactly this cluster,
      and no other pending set. */
  lemma ReleasePending<D(!new)>(job: Job<D>, s: State<D>, c: nat, d: nat)
    requires Runnable(job.g) && Shape(job, s) && Gated(job, s) && Enabled(job, s, Release(c))
    requires d < |job.g.clusters| == |Step(job, s, Release(c)).tasks|
    ensures Pending(job, Step(job, s, Release(c)), d)
         == Pending(job, s, d) - (if d == NextOf(job, s, c) then {c} else {})
  {
    forall p: nat | p < |job.g.clusters| {
      ReleasedAfter(job, s, c, p, d);
    }
  }

  /** What counting off does to the gate of each cluster. */
  lemma ReleaseEffect<D(!new)>(job: Job<D>, s: State<D>, c: nat)
    requires Runnable(job.g) && Shape(job, s) && Gated(job, s) && Enabled(job, s, Release(c))
    ensures var t := Step(job, s, Release(c));
            var next := NextOf(job, s, c);
            && Shape(job, t)
            && t == s.(tasks := t.tasks, unresolved := t.unresolved)
            && t.tasks[c] == Releasing(s.tasks[c].next + 1)
            && (forall d: nat | d < |s.tasks| && d != c ::
                  t.tasks[d] ==
                    if d == next && CandidateCluster(job, d) && s.unresolved[d] == 1 then Ready else s.tasks[d])
            && (forall d: nat | d < |s.tasks| ::
                  t.unresolved[d] == s.unresolved[d] - if d == next && CandidateCluster(job, d) then 1 else 0)
  {
    hide ForwardEdges, SingleProducers, Gated, CandidateCluster, Pending;
    ReleaseAwaited(job, s, c);
  }

  /** The gate of one cluster, from what counting off did to its pending set. */
  lemma ReleaseGateOf<D>(job: Job<D>, s: State<D>, t: State<D>, c: nat, next: nat, d: nat)
    requires Shape(job, s) && Shape(job, t) && d < |job.g.clusters| && c < |s.tasks| && GateOf(job, s, d)
    requires next != c && s.tasks[c].Releasing? && t.tasks[c].Releasing?
    requires next < |s.tasks| && c in Pending(job, s, next)
    requires Pending(job, t, d) == Pending(job, s, d) - (if d == next then {c} else {})
    requires d != c ==>
      t.tasks[d] == if d == next && CandidateCluster(job, d) && s.unresolved[d] == 1 then Ready else s.tasks[d]
    requires t.unresolved[d] == s.unresolved[d] - if d == next && CandidateCluster(job, d) then 1 else 0
    requires CandidateCluster(job, next) ==> s.tasks[next].Waiting?
    ensures GateOf(job, t, d)
  {
    hide Pending, CandidateCluster;
    var before, after := Pending(job, s, d), Pending(job, t, d);
    if d == next {
      assert before == after + {c};
    } else {
      assert before == after;
    }
  }

  lemma ReleaseGate<D(!new)>(job: Job<D>, s: State<D>, t: State<D>, c: nat)
    requires Runnable(job.g) && Shape(job, s) && Gated(job, s) && Enabled(job, s, Release(c))
    requires t == Step(job, s, Release(c))
    ensures Shape(job, t) && Gated(job, t)
  {
    hide Pending, CandidateCluster, Runnable, GateOf, Step;
    ReleaseEffect(job, s, c);
    ReleaseAwaited(job, s, c);
    forall d: nat | d < |job.g.clusters| ensures GateOf(job, t, d) {
      ReleasePending(job, s, c, d);
      ReleaseGateOf(job, s, t, c, NextOf(job, s, c), d);
    }
  }

  lemma ReleaseKeeps<D(!new)>(job: Job<D>, s: State<D>, c: nat)
    requires Inv(job, s) && Enabled(job, s, Release(c))
    ensures Inv(job, Step(job, s, Release(c)))
  {
    hide Step, Gated, Settlement, InFlight, Cleared, Flagged, Explained, Passed, InOp, CandidateCluster, Pending;
    var t := Step(job, s, Release(c));
    ReleaseEffect(job, s, c);
    ReleaseAwaited(job, s, c);
    ReleaseGate(job, s, t, c);
    forall d | 0 <= d < |s.tasks| ensures SamePlace(s.tasks[d], t.tasks[d]) {}
    SamePlaces(job, s, t);
    BookkeepingKeeps(job, s, t);
  }

  // ---- Steps at an operation -----------------------------------------------------------------

  /** An unflagged, unseeded candidate still holds what its body would compute. */
  lemma UnneededConsistent<D(!new)>(job: Job<D>, s: State<D>, c: nat)
    requires Inv(job, s) && AtOp(job, s, c) && s.ok && !Needed(job, s, Current(job, s, c))
    ensures Consistent(job, s.store, Current(job, s, c))
  {
    var i := Current(job, s, c);
    PassedNext(job, s, s.(tasks := s.tasks[c := AtMember(s.tasks[c].at + 1)]), c, i);
    assert Consistent(job, job.retained, i);
    forall v | v in job.g.ops[i].inputs ensures SameAt(v, job.retained, s.store) {}
    SameInputs(job.g, job.retained, s.store, i);
    forall v | v in OutputSet(job.g, i) ensures SameAt(v, job.retained, s.store) {
      assert v in job.g.ops[i].outputs;
      assert v !in s.changed;
    }
  }

  lemma PassKeeps<D(!new)>(job: Job<D>, s: State<D>, c: nat)
    requires Inv(job, s) && Enabled(job, s, Pass(c))
    ensures Inv(job, Step(job, s, Pass(c)))
  {
    hide Flagged, Explained, Gated;
    var t := Step(job, s, Pass(c));
    var i := Current(job, s, c);
    GateKept(job, s, t, c);
    if s.tasks[c].Checked? {
      assert IsChecked(job, s, c);
      if s.ok {
        UnneededConsistent(job, s, c);
      }
    }
    MoveOnKeeps(job, s, t, c);
  }

  /** Passing an operation that is settled, or that is left unsettled because the
      run has failed, in a store and with flags that did not change. */
  lemma MoveOnKeeps<D(!new)>(job: Job<D>, s: State<D>, t: State<D>, c: nat)
    requires Inv(job, s) && AtOp(job, s, c) && Shape(job, t) && Gated(job, t)
    requires t.tasks == s.tasks[c := AtMember(s.tasks[c].at + 1)]
    requires t.store == s.store && t.changed == s.changed && t.ran == s.ran && t.ok == s.ok
    requires t.settled == if s.ok then s.settled + {Current(job, s, c)} else s.settled
    requires s.ok ==> Consistent(job, s.store, Current(job, s, c)) && PredsSettled(job, s, Current(job, s, c))
    ensures Inv(job, t)
  {
    hide Gated, ForwardEdges, SingleProducers, ClusterEdges, Acyclic, Needed, Gather, CandidateCluster, Leaf;
    var i := Current(job, s, c);
    forall k: nat | k < |job.g.ops| ensures Passed(job, t, k) <==> Passed(job, s, k) || k == i {
      PassedNext(job, s, t, c, k);
    }
    assert Settlement(job, t);
    forall d: nat | InOp(job, t, d)
      ensures var k := Current(job, t, d);
              && k in job.candidates && k in t.ran && k !in t.settled && PredsSettled(job, t, k)
              && t.tasks[d].held == InputsOf(job.g, t.store, k)
    {
      assert InOp(job, s, d) && d != c;
      DistinctCurrents(job, s, c, d);
    }
    ClearedKept(job, s, t);
    RanKept(job, s, t);
    assert Flagged(job, t);
    if !t.ok {
      var f: nat :| Witness(job, s, f);
      assert Witness(job, t, f);
    }
  }

  lemma DistinctCurrents<D>(job: Job<D>, s: State<D>, c: nat, d: nat)
    requires Partition(job.g) && c != d
    requires AtOp(job, s, c) || InOp(job, s, c)
    requires AtOp(job, s, d) || InOp(job, s, d)
    ensures Current(job, s, c) != Current(job, s, d)
  {
    MemberInRange(job.g, c, s.tasks[c].at);
    MemberInRange(job.g, d, s.tasks[d].at);
  }

  /** What had run stays accounted for when no task leaves a body unpassed. */
  lemma RanKept<D(!new)>(job: Job<D>, s: State<D>, t: State<D>)
    requires ValidJob(job) && Shape(job, s) && Shape(job, t)
    requires forall i <- s.ran :: RanAccounted(job, s, i)
    requires forall k: nat | k < |job.g.ops| && Passed(job, s, k) :: Passed(job, t, k)
    requires forall d: nat | InOp(job, s, d) ::
               (InOp(job, t, d) && t.tasks[d] == s.tasks[d]) || Passed(job, t, Current(job, s, d))
    ensures forall i <- s.ran :: RanAccounted(job, t, i)
  {
    forall i <- s.ran ensures RanAccounted(job, t, i) {
      assert RanAccounted(job, s, i);
      if !Passed(job, t, i) {
        var d: nat :| InOp(job, s, d) && Current(job, s, d) == i;
        assert InOp(job, t, d) && Current(job, t, d) == i;
      }
    }
  }

  /** Finding that no body has failed: the predecessors, all passed, are settled. */
  lemma CheckKeeps<D(!new)>(job: Job<D>, s: State<D>, c: nat)
    requires Inv(job, s) && Enabled(job, s, Check(c))
    ensures Inv(job, Step(job, s, Check(c)))
  {
    hide Gated, Settlement, InFlight, Cleared, Flagged, Explained, CandidateCluster, Moved, InputsOf, Partition,
      ClusterEdges, ForwardEdges;
    var t := Step(job, s, Check(c));
    GateKept(job, s, t, c);
    PredsSettledAt(job, s, c);
    CheckMoves(job, s, t, c);
    CheckClears(job, s, t, c);
    CheckSettles(job, s, t);
  }

  lemma CheckMoves<D>(job: Job<D>, s: State<D>, t: State<D>, c: nat)
    requires Partition(job.g) && Shape(job, s) && Shape(job, t) && AtOp(job, s, c)
    requires t.tasks == s.tasks[c := Checked(s.tasks[c].at)]
    ensures forall k: nat | k < |job.g.ops| :: Passed(job, t, k) == Passed(job, s, k)
    ensures forall d: nat :: InOp(job, t, d) <==> InOp(job, s, d)
    ensures forall d: nat | InOp(job, s, d) :: t.tasks[d] == s.tasks[d]
  {}

  lemma CheckClears<D>(job: Job<D>, s: State<D>, t: State<D>, c: nat)
    requires Cleared(job, s) && AtOp(job, s, c)
    requires t == s.(tasks := s.tasks[c := Checked(s.tasks[c].at)])
    requires Current(job, s, c) in job.candidates && PredsSettled(job, s, Current(job, s, c))
    ensures Cleared(job, t)
  {
    forall d: nat | IsChecked(job, t, d)
      ensures Current(job, t, d) in job.candidates && PredsSettled(job, t, Current(job, t, d))
    {
      assert d != c ==> IsChecked(job, s, d);
    }
  }

  lemma CheckSettles<D(!new)>(job: Job<D>, s: State<D>, t: State<D>)
    requires Inv(job, s) && Shape(job, t) && t == s.(tasks := t.tasks)
    requires forall k: nat | k < |job.g.ops| :: Passed(job, t, k) == Passed(job, s, k)
    requires forall d: nat :: InOp(job, t, d) <==> InOp(job, s, d)
    requires forall d: nat | InOp(job, s, d) :: t.tasks[d] == s.tasks[d]
    ensures Settlement(job, t) && InFlight(job, t) && Flagged(job, t) && Explained(job, t)
  {
    hide Gated, Cleared;
    RanKept(job, s, t);
    if !t.ok {
      var f: nat :| Witness(job, s, f);
      assert Witness(job, t, f);
    }
  }

  lemma EnterKeeps<D(!new)>(job: Job<D>, s: State<D>, c: nat)
    requires Inv(job, s) && Enabled(job, s, Enter(c))
    ensures Inv(job, Step(job, s, Enter(c)))
  {
    hide Settlement, InFlight, Flagged, Explained, Gated, Needed, Gather, Moved, CandidateCluster, ForwardEdges,
      SingleProducers, ClusterEdges, Acyclic, Leaf;
    var t := Step(job, s, Enter(c));
    var i := Current(job, s, c);
    GateKept(job, s, t, c);
    assert IsChecked(job, s, c);
    PassedNext(job, s, s.(tasks := s.tasks[c := AtMember(s.tasks[c].at + 1)]), c, i);
    EntersKeep(job, s, t, c);
  }

  /** From `s` to `t`, cluster `c`'s task entered its current operation's body. */
  ghost predicate Enters<D>(job: Job<D>, s: State<D>, t: State<D>, c: nat)
    requires Partition(job.g) && Shape(job, s)
  {
    AtOp(job, s, c) &&
    var i := Current(job, s, c);
    && t == s.(tasks := s.tasks[c := InBody(s.tasks[c].at, InputsOf(job.g, s.store, i))], ran := s.ran + {i})
    && i in job.candidates && PredsSettled(job, s, i) && !Passed(job, s, i)
  }

  lemma EnterFlight<D(!new)>(job: Job<D>, s: State<D>, t: State<D>, c: nat)
    requires Inv(job, s) && Shape(job, t) && Enters(job, s, t, c)
    ensures InFlight(job, t)
  {
    forall d: nat | InOp(job, t, d)
      ensures var k := Current(job, t, d);
              && k in job.candidates && k in t.ran && k !in t.settled && PredsSettled(job, t, k)
              && t.tasks[d].held == InputsOf(job.g, t.store, k)
    {
      if d != c {
        assert InOp(job, s, d);
      }
    }
  }

  lemma EntersPassed<D>(job: Job<D>, s: State<D>, t: State<D>, c: nat, k: nat)
    requires Partition(job.g) && Shape(job, s) && Shape(job, t) && Enters(job, s, t, c) && k < |job.g.ops|
    ensures Passed(job, t, k) == Passed(job, s, k)
  {
    hide PredsSettled, InputsOf;
  }

  lemma EnterSettles<D(!new)>(job: Job<D>, s: State<D>, t: State<D>)
    requires Inv(job, s) && Shape(job, t) && t.settled == s.settled && t.store == s.store && t.ok == s.ok
    requires forall k: nat | k < |job.g.ops| :: Passed(job, t, k) == Passed(job, s, k)
    ensures Settlement(job, t) && Explained(job, t)
  {
    hide Gated, InFlight, Cleared, Flagged, Passed, Consistent, InputsOf;
    if !t.ok {
      var f: nat :| Witness(job, s, f);
      assert Witness(job, t, f);
    }
  }

  lemma EnterFlags<D(!new)>(job: Job<D>, s: State<D>, t: State<D>, c: nat)
    requires Inv(job, s) && Shape(job, t) && Enters(job, s, t, c)
    requires forall k: nat | k < |job.g.ops| :: Passed(job, t, k) == Passed(job, s, k)
    ensures Flagged(job, t)
  {
    hide Gated, InFlight, Cleared, Settlement, Explained, Passed;
    assert InOp(job, t, c) && Current(job, t, c) == Current(job, s, c);
    RanKept(job, s, t);
  }

  lemma EntersKeep<D(!new)>(job: Job<D>, s: State<D>, t: State<D>, c: nat)
    requires Inv(job, s) && Shape(job, t) && Gated(job, t) && Enters(job, s, t, c)
    ensures Inv(job, t)
  {
    hide Gated, InFlight, Cleared, Settlement, Explained, Flagged, Passed;
    forall k: nat | k < |job.g.ops| ensures Passed(job, t, k) == Passed(job, s, k) {
      EntersPassed(job, s, t, c, k);
    }
    EnterSettles(job, s, t);
    EnterFlight(job, s, t, c);
    ClearedKept(job, s, t);
    EnterFlags(job, s, t, c);
  }

  // ---- A body leaving -------------------------------------------------------------------------

  /** What a body leaving with `written` keeps of every other operation. */
  lemma OthersKept<D(!new)>(job: Job<D>, s: State<D>, c: nat, written: Store<D>, k: nat)
    requires Inv(job, s) && InOp(job, s, c) && k < |job.g.ops| && k != Current(job, s, c)
    requires written.Keys <= OutputSet(job.g, Current(job, s, c)) && PredsSettled(job, s, k)
    ensures InputsOf(job.g, s.store + written, k) == InputsOf(job.g, s.store, k)
    ensures Consistent(job, s.store, k) ==> Consistent(job, s.store + written, k)
  {
    Undisturbed(job, s, Current(job, s, c), written, k);
    if Consistent(job, s.store, k) {
      var inputs := InputsOf(job.g, s.store, k);
      OutputsDeclared(job, k, inputs);
      forall v <- job.body(k, inputs).value.Keys ensures SameAt(v, s.store, s.store + written) {
        assert v in job.g.ops[k].outputs;
      }
    }
  }

  /** A body reads none of its own outputs. */
  lemma OwnInputsKept<D(!new)>(job: Job<D>, store: Store<D>, written: Store<D>, i: nat)
    requires ValidJob(job) && i < |job.g.ops| && written.Keys <= OutputSet(job.g, i)
    ensures InputsOf(job.g, store + written, i) == InputsOf(job.g, store, i)
  {
    forall v | v in job.g.ops[i].inputs ensures v !in written.Keys {
      if v in written.Keys {
        OwnProducer(job.g.ops, i, v);
      }
    }
  }

  lemma OwnProducer(ops: seq<Op>, i: nat, v: ValueId)
    requires ForwardEdges(ops) && SingleProducers(ops) && i < |ops|
    ensures !(v in ops[i].outputs && v in ops[i].inputs)
  {
    if v in ops[i].outputs && v in ops[i].inputs {
      ProducerIsPred(ops, i, i, v);
      PredIsEarlier(ops, i, i);
    }
  }

  lemma ProducerIsPred(ops: seq<Op>, i: nat, j: nat, v: ValueId)
    requires SingleProducers(ops) && i < |ops| && j < |ops| && v in ops[i].outputs && v in ops[j].inputs
    ensures i in ops[j].preds
  {}

  lemma PredIsEarlier(ops: seq<Op>, j: nat, i: nat)
    requires ForwardEdges(ops) && i < |ops| && j in ops[i].preds
    ensures j < i
  {}

  /** From `s` to `t`, cluster `c`'s body left, having written `written`. */
  ghost predicate Leaves<D>(job: Job<D>, s: State<D>, t: State<D>, c: nat, written: Store<D>) {
    InOp(job, s, c) &&
    var i := Current(job, s, c);
    var out := job.body(i, s.tasks[c].held);
    && written.Keys <= OutputSet(job.g, i)
    && t.tasks == s.tasks[c := AtMember(s.tasks[c].at + 1)]
    && t.store == s.store + written && t.ran == s.ran
    && s.changed <= t.changed <= s.changed + OutputSet(job.g, i)
    && (if out.Some? then
          t.ok == s.ok && t.settled == s.settled + {i} && written == out.value
          && Moved(s.store, written) <= t.changed
        else
          !t.ok && t.settled == s.settled)
  }

  lemma LeavePassed<D(!new)>(job: Job<D>, s: State<D>, t: State<D>, c: nat, written: Store<D>)
    requires Inv(job, s) && Shape(job, t) && Leaves(job, s, t, c, written)
    ensures forall k: nat | k < |job.g.ops| :: Passed(job, t, k) <==> Passed(job, s, k) || k == Current(job, s, c)
    ensures !Passed(job, s, Current(job, s, c))
  {
    forall k: nat | k < |job.g.ops| ensures Passed(job, t, k) <==> Passed(job, s, k) || k == Current(job, s, c) {
      PassedNext(job, s, t, c, k);
    }
    PassedNext(job, s, t, c, Current(job, s, c));
  }

  lemma LeaveSettles<D(!new)>(job: Job<D>, s: State<D>, t: State<D>, c: nat, written: Store<D>)
    requires Inv(job, s) && Shape(job, t) && Leaves(job, s, t, c, written)
    ensures Settlement(job, t)
  {
    hide Gated, Flagged, Explained, Gather, Needed, Acyclic, ClusterEdges, CandidateCluster;
    var i := Current(job, s, c);
    LeavePassed(job, s, t, c, written);
    OwnInputsKept(job, s.store, written, i);
    forall k <- t.settled ensures Consistent(job, t.store, k) && PredsSettled(job, t, k) {
      if k != i {
        OthersKept(job, s, c, written, k);
      }
    }
  }

  lemma LeaveFlight<D(!new)>(job: Job<D>, s: State<D>, t: State<D>, c: nat, written: Store<D>)
    requires Inv(job, s) && Shape(job, t) && Leaves(job, s, t, c, written)
    ensures InFlight(job, t)
  {
    forall d: nat | InOp(job, t, d)
      ensures var k := Current(job, t, d);
              && k in job.candidates && k in t.ran && k !in t.settled && PredsSettled(job, t, k)
              && t.tasks[d].held == InputsOf(job.g, t.store, k)
    {
      assert InOp(job, s, d) && d != c;
      DistinctCurrents(job, s, c, d);
      OthersKept(job, s, c, written, Current(job, s, d));
    }
  }

  lemma LeaveFlags<D(!new)>(job: Job<D>, s: State<D>, t: State<D>, c: nat, written: Store<D>)
    requires Inv(job, s) && Shape(job, t) && Leaves(job, s, t, c, written)
    ensures Flagged(job, t)
  {
    var i := Current(job, s, c);
    LeavePassed(job, s, t, c, written);
    forall k, v | 0 <= k < |job.g.ops| && v in job.g.ops[k].outputs && v in t.changed
      ensures Passed(job, t, k)
    {
      if v !in s.changed {
        assert v in job.g.ops[i].outputs;
      }
    }
    forall v: ValueId | Leaf(job.g.ops, v) ensures SameAt(v, job.start, t.store) {
      assert v !in written;
    }
    if t.ok {
      forall v: ValueId | v !in t.changed ensures SameAt(v, job.retained, t.store) {
        assert SameAt(v, job.retained, s.store);
        assert v !in Moved(s.store, written);
      }
    }
    RanKept(job, s, t);
  }

  /** A task leaving a body keeps the invariant, whichever way the body ended. */
  lemma LeavesKeep<D(!new)>(job: Job<D>, s: State<D>, t: State<D>, c: nat, written: Store<D>)
    requires Inv(job, s) && Shape(job, t) && Gated(job, t) && Leaves(job, s, t, c, written)
    ensures Inv(job, t)
  {
    hide Gated, Flagged, Gather, ClusterEdges, ForwardEdges, SingleProducers, Acyclic, CandidateCluster;
    var i := Current(job, s, c);
    LeavePassed(job, s, t, c, written);
    LeaveSettles(job, s, t, c, written);
    LeaveFlight(job, s, t, c, written);
    ClearedKept(job, s, t);
    LeaveFlags(job, s, t, c, written);
    if job.body(i, s.tasks[c].held).None? {
      OwnInputsKept(job, s.store, written, i);
      assert Witness(job, t, i);
    } else if !t.ok {
      var f: nat :| Witness(job, s, f);
      OthersKept(job, s, c, written, f);
      assert Witness(job, t, f);
    }
  }

  ghost function Written<D>(job: Job<D>, s: State<D>, c: nat, partial: Store<D>): Store<D>
    requires InOp(job, s, c)
  {
    var i := Current(job, s, c);
    var out := job.body(i, s.tasks[c].held);
    if out.Some? then out.value else partial - (partial.Keys - OutputSet(job.g, i))
  }

  lemma LeaveEffect<D(!new)>(job: Job<D>, s: State<D>, c: nat, flagged: set<ValueId>, partial: Store<D>)
    requires ValidJob(job) && Shape(job, s) && Enabled(job, s, Leave(c, flagged, partial))
    ensures var t := Step(job, s, Leave(c, flagged, partial));
            && Shape(job, t) && t.unresolved == s.unresolved
            && Leaves(job, s, t, c, Written(job, s, c, partial))
  {
    var i := Current(job, s, c);
    if job.body(i, s.tasks[c].held).Some? {
      OutputsDeclared(job, i, s.tasks[c].held);
    }
  }

  lemma LeaveKeeps<D(!new)>(job: Job<D>, s: State<D>, c: nat, flagged: set<ValueId>, partial: Store<D>)
    requires Inv(job, s) && Enabled(job, s, Leave(c, flagged, partial))
    ensures Inv(job, Step(job, s, Leave(c, flagged, partial)))
  {
    var t := Step(job, s, Leave(c, flagged, partial));
    LeaveEffect(job, s, c, flagged, partial);
    hide Step, Written, GateOf;
    GateKept(job, s, t, c);
    LeavesKeep(job, s, t, c, Written(job, s, c, partial));
  }

  /** Every step keeps the invariant. */
  lemma StepKeeps<D(!new)>(job: Job<D>, s: State<D>, a: Action<D>)
    requires Inv(job, s) && Enabled(job, s, a)
    ensures Inv(job, Step(job, s, a))
  {
    match a
    case Begin(c) => BeginKeeps(job, s, c);
    case Pass(c) => PassKeeps(job, s, c);
    case Check(c) => CheckKeeps(job, s, c);
    case Enter(c) => EnterKeeps(job, s, c);
    case Leave(c, flagged, partial) => LeaveKeeps(job, s, c, flagged, partial);
    case Finish(c) => FinishKeeps(job, s, c);
    case Release(c) => ReleaseKeeps(job, s, c);
    case Retire(c) => RetireKeeps(job, s, c);
  }

  /** Every state of every run satisfies the invariant. */
  lemma {:induction false} RunKeeps<D(!new)>(job: Job<D>, states: seq<State<D>>, actions: seq<Action<D>>, k: nat)
    requires ValidJob(job) && IsRun(job, states, actions) && k < |states|
    ensures Inv(job, states[k])
  {
    if k == 0 {
      InitialInv(job, states[0]);
    } else {
      RunKeeps(job, states, actions, k - 1);
      StepKeeps(job, states[k - 1], actions[k - 1]);
    }
  }
}
