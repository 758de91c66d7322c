/** The executor's main results: whatever the interleaving, it cannot race,
    cannot stall, runs each body at most once, and ends exactly where running
    every operation in program order ends. */
module ExecutorResults {
  import opened Options
  import opened FiniteSets
  import opened Digraphs
  import opened OpGraph
  import opened Executor
  import opened ExecutorSafety

  // ---- Races ------------------------------------------------------------------------

  /** While one task is inside a body, no other task is at or inside an
      operation that reads or writes what that body writes. */
  lemma RaceFree<D(!new)>(job: Job<D>, s: State<D>, c: nat, d: nat, v: ValueId)
    requires Inv(job, s) && c != d && InOp(job, s, c)
    requires
      || InOp(job, s, d)
      || IsChecked(job, s, d)
      || (AtOp(job, s, d) && s.ok && Current(job, s, d) in job.candidates)
    requires v in job.g.ops[Current(job, s, c)].outputs
    ensures v !in job.g.ops[Current(job, s, d)].inputs && v !in job.g.ops[Current(job, s, d)].outputs
  {
    var i, j := Current(job, s, c), Current(job, s, d);
    DistinctCurrents(job, s, c, d);
    if AtOp(job, s, d) && !IsChecked(job, s, d) {
      PredsSettledAt(job, s, d);
    }
    if v in job.g.ops[j].inputs {
      ProducerIsPred(job.g.ops, i, j, v);
    }
  }

  /** Whether a checked operation must run, and what it would read, no other task
      can change: asking and reading may each come at any later moment. */
  lemma CheckedInputsAreStable<D(!new)>(job: Job<D>, s: State<D>, a: Action<D>, d: nat)
    requires Inv(job, s) && Enabled(job, s, a) && IsChecked(job, s, d) && a.c != d
    ensures
      var t, i := Step(job, s, a), Current(job, s, d);
      && IsChecked(job, t, d) && Current(job, t, d) == i
      && Needed(job, t, i) == Needed(job, s, i)
      && InputsOf(job.g, t.store, i) == InputsOf(job.g, s.store, i)
  {
    hide Inv, Step, Needed, InputsOf, Enabled;
    var i := Current(job, s, d);
    CheckedStays(job, s, a, d);
    if a.Leave? {
      LeaveIsElsewhere(job, s, a, i, d);
    } else {
      OnlyLeavingWrites(job, s, a);
      NeededByFlags(job, s, Step(job, s, a), i);
    }
  }

  lemma CheckedStays<D(!new)>(job: Job<D>, s: State<D>, a: Action<D>, d: nat)
    requires Inv(job, s) && Enabled(job, s, a) && IsChecked(job, s, d) && a.c != d
    ensures IsChecked(job, Step(job, s, a), d) && Current(job, Step(job, s, a), d) == Current(job, s, d) < |job.g.ops|
  {
    hide Numbered, CandidatesBefore, CandidateCluster, InputsOf, OutputSet, Moved, Needed, Settlement, InFlight,
      Cleared, Flagged, Explained;
    if a.Release? {
      ReleaseEffect(job, s, a.c);
      ReleaseAwaited(job, s, a.c);
    } else {
      OthersStay(job, s, a);
    }
  }

  lemma OnlyLeavingWrites<D>(job: Job<D>, s: State<D>, a: Action<D>)
    requires Enabled(job, s, a) && !a.Leave?
    ensures Step(job, s, a).store == s.store && Step(job, s, a).changed == s.changed
  {}

  lemma NeededByFlags<D>(job: Job<D>, s: State<D>, t: State<D>, i: nat)
    requires i < |job.g.ops| && forall v <- job.g.ops[i].inputs :: v in t.changed <==> v in s.changed
    ensures Needed(job, t, i) == Needed(job, s, i)
  {}

  lemma LeaveIsElsewhere<D(!new)>(job: Job<D>, s: State<D>, a: Action<D>, i: nat, d: nat)
    requires Inv(job, s) && Enabled(job, s, a) && a.Leave? && IsChecked(job, s, d) && a.c != d
    requires i == Current(job, s, d) < |job.g.ops|
    ensures var t := Step(job, s, a);
            && Needed(job, t, i) == Needed(job, s, i)
            && InputsOf(job.g, t.store, i) == InputsOf(job.g, s.store, i)
  {
    hide InputsOf, Needed, Step, Settlement, Flagged, Explained, Gated;
    var j, t, written := Current(job, s, a.c), Step(job, s, a), Written(job, s, a.c, a.partial);
    LeaveEffect(job, s, a.c, a.flagged, a.partial);
    DistinctCurrents(job, s, a.c, d);
    Undisturbed(job, s, j, written, i);
    forall v <- job.g.ops[i].inputs ensures v in t.changed <==> v in s.changed {
      if v in job.g.ops[j].outputs {
        ProducerIsPred(job.g.ops, j, i, v);
      }
    }
    NeededByFlags(job, s, t, i);
  }

  // ---- Each body at most once ------------------------------------------------------------

  /** A body that is about to run has not run in this execution. */
  lemma EnterIsFresh<D(!new)>(job: Job<D>, s: State<D>, c: nat)
    requires Inv(job, s) && Enabled(job, s, Enter(c))
    ensures Current(job, s, c) !in s.ran
  {
    var i := Current(job, s, c);
    PassedNext(job, s, s.(tasks := s.tasks[c := AtMember(s.tasks[c].at + 1)]), c, i);
    if i in s.ran {
      assert RanAccounted(job, s, i);
      var d: nat :| InOp(job, s, d) && Current(job, s, d) == i;
      DistinctCurrents(job, s, c, d);
    }
  }

  lemma {:induction false} RanGrows<D(!new)>(
      job: Job<D>, states: seq<State<D>>, actions: seq<Action<D>>, j: nat, k: nat)
    requires IsRun(job, states, actions) && j <= k < |states|
    ensures states[j].ran <= states[k].ran
  {
    if j < k {
      RanGrows(job, states, actions, j, k - 1);
      assert states[k] == Step(job, states[k - 1], actions[k - 1]);
    }
  }

  /** No run enters the same operation's body twice. */
  lemma BodiesRunOnce<D(!new)>(job: Job<D>, states: seq<State<D>>, actions: seq<Action<D>>, j: nat, k: nat)
    requires ValidJob(job) && IsRun(job, states, actions) && j < k < |actions|
    requires actions[j].Enter? && actions[k].Enter?
    ensures Enabled(job, states[j], actions[j]) && Enabled(job, states[k], actions[k])
    ensures Current(job, states[j], actions[j].c) != Current(job, states[k], actions[k].c)
  {
    RunKeeps(job, states, actions, k);
    EnterIsFresh(job, states[k], actions[k].c);
    assert states[j + 1] == Step(job, states[j], actions[j]);
    RanGrows(job, states, actions, j + 1, k);
  }

  // ---- Progress ------------------------------------------------------------------------

  /** A candidate cluster that has not finished can move, or waits for one that can. */
  lemma {:induction false} SomeoneCanMove<D(!new)>(job: Job<D>, s: State<D>, rank: seq<nat>, c: nat)
    requires Inv(job, s) && Ranks(job.g.clusters, rank) && c < |job.g.clusters|
    requires CandidateCluster(job, c) && !s.tasks[c].Finished?
    ensures exists a: Action<D> :: Enabled(job, s, a)
    decreases rank[c]
  {
    hide Settlement, InFlight, Cleared, Flagged, Explained, ForwardEdges, SingleProducers, Consistent, Needed;
    assert GateOf(job, s, c);
    match s.tasks[c]
    case Waiting =>
      var p :| p in Pending(job, s, c);
      RankStep(job.g.clusters, rank, p, c);
      SomeoneCanMove(job, s, rank, p);
    case Ready =>
      assert Enabled(job, s, Begin(c));
    case AtMember(at) =>
      if at < |job.g.clusters[c].members| {
        MemberInRange(job.g, c, at);
        assert Enabled(job, s, Pass(c)) || Enabled(job, s, Check(c));
      } else {
        assert Enabled(job, s, Finish(c));
      }
    case Checked(at) =>
      MemberInRange(job.g, c, at);
      assert Enabled(job, s, Pass(c)) || Enabled(job, s, Enter(c));
    case InBody(at, held) =>
      MemberInRange(job.g, c, at);
      assert Enabled(job, s, Leave(c, {}, map[]));
    case Releasing(next) =>
      if next < |job.g.clusters[c].succs| {
        assert job.g.clusters[c].succs[next] in job.g.clusters[c].succs;
        assert Enabled(job, s, Release(c));
      } else {
        assert Enabled(job, s, Retire(c));
      }
  }

  /** No deadlock: nothing can move exactly when every candidate cluster has
      finished, and no other cluster was ever touched. */
  lemma QuiescentIsComplete<D(!new)>(job: Job<D>, s: State<D>)
    requires Inv(job, s)
    ensures Quiescent(job, s) <==>
              forall c: nat | c < |job.g.clusters| && CandidateCluster(job, c) :: s.tasks[c].Finished?
    ensures forall c: nat | c < |job.g.clusters| && !CandidateCluster(job, c) :: s.tasks[c].Waiting?
  {
    hide Settlement, InFlight, Cleared, Flagged, Explained, ForwardEdges, SingleProducers, Partition, ClusterEdges,
      Consistent;
    forall c: nat | c < |job.g.clusters| && !CandidateCluster(job, c) ensures s.tasks[c].Waiting? {
      assert GateOf(job, s, c);
    }
    if Quiescent(job, s) {
      var rank :| Ranks(job.g.clusters, rank);
      forall c: nat | c < |job.g.clusters| && CandidateCluster(job, c) ensures s.tasks[c].Finished? {
        if !s.tasks[c].Finished? {
          SomeoneCanMove(job, s, rank, c);
        }
      }
    }
  }

  /** What cluster `c`'s task still has to do, at most. */
  ghost function Work<D>(job: Job<D>, s: State<D>, c: nat): nat
    requires Shape(job, s) && c < |job.g.clusters|
  {
    var members, succs := |job.g.clusters[c].members|, |job.g.clusters[c].succs|;
    if !CandidateCluster(job, c) then 0
    else
      match s.tasks[c]
      case Waiting => 3 * members + succs + 3
      case Ready => 3 * members + succs + 3
      case AtMember(at) => 3 * (members - at) + succs + 2
      case Checked(at) => 3 * (members - at) + succs + 1
      case InBody(at, held) => 3 * (members - at) + succs
      case Releasing(next) => succs - next + 1
      case Finished => 0
  }

  ghost function TotalWork<D>(job: Job<D>, s: State<D>, n: nat): nat
    requires Shape(job, s) && n <= |job.g.clusters|
  {
    if n == 0 then 0 else TotalWork(job, s, n - 1) + Work(job, s, n - 1)
  }

  lemma {:induction false} TotalWorkDrops<D>(job: Job<D>, s: State<D>, t: State<D>, c: nat, n: nat)
    requires Shape(job, s) && Shape(job, t) && n <= |job.g.clusters| && c < |job.g.clusters|
    requires forall d: nat | d < |job.g.clusters| && d != c :: Work(job, t, d) == Work(job, s, d)
    requires Work(job, t, c) < Work(job, s, c)
    ensures TotalWork(job, t, n) <= TotalWork(job, s, n)
    ensures c < n ==> TotalWork(job, t, n) < TotalWork(job, s, n)
  {
    if n > 0 {
      TotalWorkDrops(job, s, t, c, n - 1);
    }
  }

  lemma ReleaseWorks<D(!new)>(job: Job<D>, s: State<D>, c: nat)
    requires Inv(job, s) && Enabled(job, s, Release(c))
    ensures var t := Step(job, s, Release(c));
            && Shape(job, t) && Work(job, t, c) < Work(job, s, c)
            && forall d: nat | d < |job.g.clusters| && d != c :: Work(job, t, d) == Work(job, s, d)
  {
    hide Settlement, InFlight, Cleared, Flagged, Explained;
    ReleaseEffect(job, s, c);
    ReleaseAwaited(job, s, c);
    hide Step;
  }

  lemma TaskWorks<D(!new)>(job: Job<D>, s: State<D>, a: Action<D>)
    requires Inv(job, s) && Enabled(job, s, a) && !a.Release? && Shape(job, Step(job, s, a))
    ensures var t := Step(job, s, a);
            && Work(job, t, a.c) < Work(job, s, a.c)
            && forall d: nat | d < |job.g.clusters| && d != a.c :: Work(job, t, d) == Work(job, s, d)
  {
    hide Numbered, CandidatesBefore, CandidateCluster, Inv;
    ActorIsCandidate(job, s, a);
    OthersStay(job, s, a);
    var t := Step(job, s, a);
    assert forall d: nat | d < |job.g.clusters| && d != a.c :: t.tasks[d] == s.tasks[d];
  }

  lemma ActorIsCandidate<D(!new)>(job: Job<D>, s: State<D>, a: Action<D>)
    requires Inv(job, s) && Enabled(job, s, a)
    ensures Shape(job, s) && CandidateCluster(job, a.c)
  {
    hide ValidJob, Settlement, InFlight, Cleared, Flagged, Explained, CandidateCluster;
    assert GateOf(job, s, a.c);
  }

  lemma OthersStay<D>(job: Job<D>, s: State<D>, a: Action<D>)
    requires Enabled(job, s, a) && !a.Release?
    ensures Step(job, s, a).tasks == s.tasks[a.c := Step(job, s, a).tasks[a.c]]
  {
    hide Numbered, CandidatesBefore, CandidateCluster;
  }

  /** Every step is progress. */
  lemma StepWorks<D(!new)>(job: Job<D>, s: State<D>, a: Action<D>)
    requires Inv(job, s) && Enabled(job, s, a)
    ensures Inv(job, Step(job, s, a))
    ensures TotalWork(job, Step(job, s, a), |job.g.clusters|) < TotalWork(job, s, |job.g.clusters|)
  {
    StepKeeps(job, s, a);
    if a.Release? {
      ReleaseWorks(job, s, a.c);
    } else {
      TaskWorks(job, s, a);
    }
    var t := Step(job, s, a);
    hide Step, Work;
    TotalWorkDrops(job, s, t, a.c, |job.g.clusters|);
  }

  /** Every run is at most as long as the candidates' work: the executor terminates. */
  lemma {:induction false} RunsAreBounded<D(!new)>(job: Job<D>, states: seq<State<D>>, actions: seq<Action<D>>, k: nat)
    requires ValidJob(job) && IsRun(job, states, actions) && k < |states|
    ensures Inv(job, states[0]) && Inv(job, states[k])
    ensures k + TotalWork(job, states[k], |job.g.clusters|) <= TotalWork(job, states[0], |job.g.clusters|)
  {
    RunKeeps(job, states, actions, 0);
    if k > 0 {
      RunsAreBounded(job, states, actions, k - 1);
      StepWorks(job, states[k - 1], actions[k - 1]);
    }
  }

  // ---- Agreement with program order ----------------------------------------------------------

  /** Program order and the executor agree on leaves and on settled outputs. */
  lemma {:induction false} PrefixAgrees<D(!new)>(job: Job<D>, s: State<D>, n: nat, v: ValueId)
    requires Inv(job, s) && n <= |job.g.ops| && ProgramOrder(job, n).Some?
    requires Leaf(job.g.ops, v) || exists i: nat :: i < n && i in s.settled && v in job.g.ops[i].outputs
    ensures SameAt(v, ProgramOrder(job, n).value, s.store)
    decreases n, 0
  {
    hide Gather, Partition, ClusterEdges, InFlight, Cleared, Explained, Gated;
    if n > 0 {
      var before := ProgramOrder(job, n - 1).value;
      var out := job.body(n - 1, InputsOf(job.g, before, n - 1)).value;
      OutputsDeclared(job, n - 1, InputsOf(job.g, before, n - 1));
      if v in job.g.ops[n - 1].outputs {
        assert n - 1 in s.settled;
        PrefixInputsAgree(job, s, n - 1);
        assert Consistent(job, s.store, n - 1);
      } else {
        assert v !in out;
        PrefixAgrees(job, s, n - 1, v);
      }
    }
  }

  lemma {:induction false} PrefixInputsAgree<D(!new)>(job: Job<D>, s: State<D>, n: nat)
    requires Inv(job, s) && n < |job.g.ops| && ProgramOrder(job, n).Some? && PredsSettled(job, s, n)
    ensures InputsOf(job.g, ProgramOrder(job, n).value, n) == InputsOf(job.g, s.store, n)
    decreases n, 1
  {
    forall v | v in job.g.ops[n].inputs
      ensures SameAt(v, ProgramOrder(job, n).value, s.store)
    {
      if !Leaf(job.g.ops, v) {
        var i: nat :| i < |job.g.ops| && v in job.g.ops[i].outputs;
        ProducerIsPred(job.g.ops, i, n, v);
        PredIsEarlier(job.g.ops, i, n);
      }
      PrefixAgrees(job, s, n, v);
    }
  }

  lemma {:induction false} SettledSucceeds<D(!new)>(job: Job<D>, s: State<D>, n: nat)
    requires Inv(job, s) && n <= |job.g.ops| && forall i: nat | i < n :: i in s.settled
    ensures ProgramOrder(job, n).Some?
  {
    if n > 0 {
      SettledSucceeds(job, s, n - 1);
      PrefixInputsAgree(job, s, n - 1);
      assert Consistent(job, s.store, n - 1);
    }
  }

  lemma {:induction false} SuccessOfPrefix<D>(job: Job<D>, n: nat, m: nat)
    requires n <= m <= |job.g.ops| && ProgramOrder(job, m).Some?
    ensures ProgramOrder(job, n).Some?
  {
    if n < m {
      SuccessOfPrefix(job, n, m - 1);
    }
  }

  /** A failing body fails in program order too. */
  lemma FailureIsReal<D(!new)>(job: Job<D>, s: State<D>)
    requires Inv(job, s) && !s.ok
    ensures ProgramOrder(job, |job.g.ops|).None?
  {
    var f: nat :| Witness(job, s, f);
    if ProgramOrder(job, |job.g.ops|).Some? {
      SuccessOfPrefix(job, f + 1, |job.g.ops|);
      PrefixInputsAgree(job, s, f);
    }
  }

  /** The main theorem, at rest: success is reported exactly when running every
    operation in program order succeeds, and then the store is exactly that run's. */
  lemma RestAgrees<D(!new)>(job: Job<D>, s: State<D>)
    requires Inv(job, s) && Quiescent(job, s)
    ensures var reference := ProgramOrder(job, |job.g.ops|);
            && (s.ok <==> reference.Some?)
            && (s.ok ==> s.store == reference.value)
  {
    if s.ok {
      RestSettles(job, s);
      SettledSucceeds(job, s, |job.g.ops|);
      var reference := ProgramOrder(job, |job.g.ops|).value;
      forall v: ValueId ensures SameAt(v, reference, s.store) {
        PrefixAgrees(job, s, |job.g.ops|, v);
      }
      SameStores(reference, s.store);
    } else {
      FailureIsReal(job, s);
    }
  }

  lemma SameStores<D(!new)>(a: Store<D>, b: Store<D>)
    requires forall v: ValueId :: SameAt(v, a, b)
    ensures a == b
  {
    forall v: ValueId ensures (v in a <==> v in b) && (v in a ==> a[v] == b[v]) {
      assert SameAt(v, a, b);
    }
    assert a.Keys == b.Keys;
  }

  lemma RestSettles<D(!new)>(job: Job<D>, s: State<D>)
    requires Inv(job, s) && Quiescent(job, s)
    ensures forall i: nat | i < |job.g.ops| && i in job.candidates :: Passed(job, s, i)
    ensures s.ok ==> forall i: nat | i < |job.g.ops| :: i in s.settled
  {
    QuiescentIsComplete(job, s);
    forall i: nat | i < |job.g.ops| && i in job.candidates ensures Passed(job, s, i) {
      assert CandidateCluster(job, job.g.opClusters[i]);
    }
  }

  /** However the tasks interleaved, an execution that has come to rest reports
      success exactly when running every operation in program order succeeds,
      and then has left exactly that run's store. */
  lemma AgreesWithProgramOrder<D(!new)>(job: Job<D>, states: seq<State<D>>, actions: seq<Action<D>>)
    requires ValidJob(job) && IsRun(job, states, actions) && Quiescent(job, states[|actions|])
    ensures var last := states[|actions|];
            var reference := ProgramOrder(job, |job.g.ops|);
            && (last.ok <==> reference.Some?)
            && (last.ok ==> last.store == reference.value)
  {
    RunKeeps(job, states, actions, |actions|);
    RestAgrees(job, states[|actions|]);
  }

  /** What a run leaves whether or not it fails, and at every moment before: for as
      far as program order gets, an operation that has settled holds its
      program-order values, and the leaves are as they were published. */
  lemma SettledHoldsProgramOrder<D(!new)>(
      job: Job<D>, states: seq<State<D>>, actions: seq<Action<D>>, k: nat, n: nat)
    requires ValidJob(job) && IsRun(job, states, actions) && k < |states|
    requires n <= |job.g.ops| && ProgramOrder(job, n).Some?
    ensures forall i: nat, v | i < n && i in states[k].settled && v in job.g.ops[i].outputs ::
              SameAt(v, ProgramOrder(job, n).value, states[k].store)
    ensures forall v: ValueId | Leaf(job.g.ops, v) :: SameAt(v, job.start, states[k].store)
  {
    hide ProgramOrder, IsRun, SameAt;
    RunKeeps(job, states, actions, k);
    forall i: nat, v | i < n && i in states[k].settled && v in job.g.ops[i].outputs
      ensures SameAt(v, ProgramOrder(job, n).value, states[k].store)
    {
      PrefixAgrees(job, states[k], n, v);
    }
  }

  /** No failure is made up: a run that has failed has an operation to show for it. */
  lemma FailureHasWitness<D(!new)>(job: Job<D>, states: seq<State<D>>, actions: seq<Action<D>>, k: nat)
    requires ValidJob(job) && IsRun(job, states, actions) && k < |states| && !states[k].ok
    ensures exists f: nat :: FailsFirst(job, states[k], f)
  {
    hide IsRun, FailsFirst;
    RunKeeps(job, states, actions, k);
    var f: nat :| Witness(job, states[k], f);
    WitnessFailsFirst(job, states[k], f);
  }

  /** Operation `f` fails on what its settled predecessors gave it, and so it does
      in program order, if that gets as far. */
  ghost predicate FailsFirst<D>(job: Job<D>, s: State<D>, f: nat) {
    && f < |job.g.ops| && PredsSettled(job, s, f)
    && job.body(f, InputsOf(job.g, s.store, f)).None?
    && (ProgramOrder(job, f).Some? ==> ProgramOrder(job, f + 1).None?)
  }

  lemma WitnessFailsFirst<D(!new)>(job: Job<D>, s: State<D>, f: nat)
    requires Inv(job, s) && Witness(job, s, f)
    ensures FailsFirst(job, s, f)
  {
    if ProgramOrder(job, f).Some? {
      PrefixInputsAgree(job, s, f);
      assert ProgramOrder(job, f + 1).None?;
    }
  }

  /** Re-running a cone agrees with re-running everything: two executions over
      the same operations, bodies and published leaves end alike, whatever
      their seeds, their candidates and their clusterings. */
  lemma ConeAgreesWithForce<D(!new)>(
      cone: Job<D>, states: seq<State<D>>, actions: seq<Action<D>>,
      force: Job<D>, states': seq<State<D>>, actions': seq<Action<D>>)
    requires ValidJob(cone) && IsRun(cone, states, actions) && Quiescent(cone, states[|actions|])
    requires ValidJob(force) && IsRun(force, states', actions') && Quiescent(force, states'[|actions'|])
    requires cone.g.ops == force.g.ops && cone.body == force.body && cone.start == force.start
    ensures states[|actions|].ok == states'[|actions'|].ok
    ensures states[|actions|].ok ==> states[|actions|].store == states'[|actions'|].store
  {
    AgreesWithProgramOrder(cone, states, actions);
    AgreesWithProgramOrder(force, states', actions');
    SameProgramOrder(cone, force, |cone.g.ops|);
  }

  lemma {:induction false} SameProgramOrder<D>(a: Job<D>, b: Job<D>, n: nat)
    requires a.g.ops == b.g.ops && a.body == b.body && a.start == b.start && n <= |a.g.ops|
    ensures ProgramOrder(a, n) == ProgramOrder(b, n)
  {
    if n > 0 {
      SameProgramOrder(a, b, n - 1);
    }
  }

  // ---- Frame after frame -----------------------------------------------------------------------

  ghost function AllOps(g: Graph): set<nat> {
    Naturals(|g.ops|)
  }

  ghost predicate PublishesDeclared<D(!new)>(g: Graph, body: (nat, Store<D>) -> Option<Store<D>>) {
    forall i: nat, inputs | i < |g.ops| && body(i, inputs).Some? :: body(i, inputs).value.Keys == OutputSet(g, i)
  }

  /** A forced run needs no history: whatever the store was, it may be started. */
  lemma ForceIsValid<D(!new)>(g: Graph, body: (nat, Store<D>) -> Option<Store<D>>, store: Store<D>)
    requires Runnable(g) && PublishesDeclared(g, body)
    ensures ValidJob(Job(g, body, store, store, {}, AllOps(g), AllOps(g)))
  {}

  /** A frame that ended well hands the next one what it needs. For any bodies
      that differ only at seeded operations, any leaves published anew, and any
      candidates closed as the executor closes them, the next frame may be run
      as a cone over this frame's final store. */
  lemma NextFrameIsValid<D(!new)>(job: Job<D>, s: State<D>, next: Job<D>)
    requires Inv(job, s) && Quiescent(job, s) && s.ok
    requires next.g == job.g && next.retained == s.store && PublishesDeclared(next.g, next.body)
    requires forall i: nat, inputs | i < |job.g.ops| && i !in next.seeded :: next.body(i, inputs) == job.body(i, inputs)
    requires forall v <- next.changedLeaves :: Leaf(next.g.ops, v)
    requires forall v: ValueId | v !in next.changedLeaves :: SameAt(v, next.retained, next.start)
    requires next.seeded <= next.candidates <= AllOps(next.g)
    requires forall i, v | 0 <= i < |next.g.ops| && v in next.g.ops[i].inputs && v in next.changedLeaves ::
        i in next.candidates
    requires forall i, j | 0 <= i < |next.g.ops| && j in next.g.ops[i].preds && j in next.candidates ::
        i in next.candidates
    ensures ValidJob(next)
  {
    RestSettles(job, s);
    forall i: nat | i < |next.g.ops| && i !in next.seeded ensures Consistent(next, next.retained, i) {
      assert Consistent(job, s.store, i);
    }
  }
}
