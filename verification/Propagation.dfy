/** Change propagation: which bodies an execution runs, and where a clean output
    stops the wave. */
module Propagation {
  import opened Options
  import opened OpGraph
  import opened Executor
  import opened ExecutorSafety
  import opened ExecutorResults

  /** Operation `i` is a seed or reads one of the values. */
  ghost predicate AskedFor<D>(job: Job<D>, values: set<ValueId>, i: nat) {
    i < |job.g.ops| && (i in job.seeded || exists v :: v in job.g.ops[i].inputs && v in values)
  }

  /** What ran was asked for, and what was asked for and is settled ran. */
  ghost predicate Sparing<D>(job: Job<D>, s: State<D>) {
    && job.changedLeaves <= s.changed
    && (forall i <- s.ran :: i in job.candidates && AskedFor(job, s.changed, i))
    && (s.ok ==> forall i | i in s.settled && i in job.candidates && AskedFor(job, s.changed, i) :: i in s.ran)
  }

  /** A changed value is a changed leaf, differs from the retained one, or was flagged. */
  ghost predicate Accounted<D>(job: Job<D>, s: State<D>, flags: set<ValueId>) {
    s.ok ==> forall v <- s.changed :: v in job.changedLeaves || v in flags || !SameAt(v, job.retained, s.store)
  }

  /** What an action flags. */
  ghost function FlagsOf<D>(job: Job<D>, s: State<D>, a: Action<D>): set<ValueId>
    requires Enabled(job, s, a)
  {
    if a.Leave? then a.flagged * OutputSet(job.g, Current(job, s, a.c)) else {}
  }

  // ---- The start -----------------------------------------------------------------------

  lemma InitialSparing<D(!new)>(job: Job<D>, s: State<D>, flags: set<ValueId>)
    requires Initial(job, s)
    ensures Sparing(job, s) && Accounted(job, s, flags)
  {}

  // ---- Steps ---------------------------------------------------------------------------

  lemma AskedForMore<D>(job: Job<D>, some: set<ValueId>, more: set<ValueId>, i: nat)
    requires some <= more && AskedFor(job, some, i)
    ensures AskedFor(job, more, i)
  {}

  lemma NotAskedForMore<D>(job: Job<D>, some: set<ValueId>, more: set<ValueId>, i: nat)
    requires AskedFor(job, more, i) && forall v | v in more && v !in some :: v !in job.g.ops[i].inputs
    ensures AskedFor(job, some, i)
  {}

  lemma NeededIsAskedFor<D>(job: Job<D>, s: State<D>, i: nat)
    requires i < |job.g.ops|
    ensures Needed(job, s, i) <==> AskedFor(job, s.changed, i)
  {}

  lemma BookkeepingSpares<D>(job: Job<D>, s: State<D>, a: Action<D>, flags: set<ValueId>)
    requires Enabled(job, s, a) && !a.Enter? && !a.Leave? && !a.Pass?
    requires Sparing(job, s) && Accounted(job, s, flags)
    ensures Sparing(job, Step(job, s, a)) && Accounted(job, Step(job, s, a), flags)
  {
    hide AskedFor, SameAt, Numbered, CandidatesBefore, CandidateCluster;
  }

  lemma PassSpares<D(!new)>(job: Job<D>, s: State<D>, c: nat, flags: set<ValueId>)
    requires Inv(job, s) && Enabled(job, s, Pass(c)) && Sparing(job, s) && Accounted(job, s, flags)
    ensures Sparing(job, Step(job, s, Pass(c))) && Accounted(job, Step(job, s, Pass(c)), flags)
  {
    hide AskedFor, SameAt, Needed, Inv;
    NeededIsAskedFor(job, s, Current(job, s, c));
  }

  lemma EnterSpares<D(!new)>(job: Job<D>, s: State<D>, c: nat, flags: set<ValueId>)
    requires Inv(job, s) && Enabled(job, s, Enter(c)) && Sparing(job, s) && Accounted(job, s, flags)
    ensures Sparing(job, Step(job, s, Enter(c))) && Accounted(job, Step(job, s, Enter(c)), flags)
  {
    hide AskedFor, SameAt, Needed, Inv, InputsOf;
    NeededIsAskedFor(job, s, Current(job, s, c));
    EnteredIsCandidate(job, s, c);
  }

  lemma EnteredIsCandidate<D(!new)>(job: Job<D>, s: State<D>, c: nat)
    requires Inv(job, s) && Enabled(job, s, Enter(c))
    ensures Current(job, s, c) in job.candidates
  {
    assert IsChecked(job, s, c);
  }

  /** A body leaving changes nothing that a settled operation reads. */
  lemma LeaveAsksNoSettled<D(!new)>(job: Job<D>, s: State<D>, t: State<D>, c: nat, written: Store<D>, k: nat)
    requires Inv(job, s) && Leaves(job, s, t, c, written) && k in s.settled && AskedFor(job, t.changed, k)
    ensures AskedFor(job, s.changed, k)
  {
    hide Gated, Cleared, Flagged, Explained, Partition, ClusterEdges, Consistent, InputsOf, Moved;
    var i := Current(job, s, c);
    assert PredsSettled(job, s, k) && i !in s.settled;
    forall v | v in t.changed && v !in s.changed ensures v !in job.g.ops[k].inputs {
      assert v in job.g.ops[i].outputs;
      if v in job.g.ops[k].inputs {
        ProducerIsPred(job.g.ops, i, k, v);
      }
    }
    NotAskedForMore(job, s.changed, t.changed, k);
  }

  lemma LeaveSpares<D(!new)>(job: Job<D>, s: State<D>, c: nat, flagged: set<ValueId>, partial: Store<D>)
    requires Inv(job, s) && Enabled(job, s, Leave(c, flagged, partial)) && Sparing(job, s)
    ensures Sparing(job, Step(job, s, Leave(c, flagged, partial)))
  {
    hide AskedFor, Gated, Settlement, Cleared, Flagged, Explained, Step;
    var t := Step(job, s, Leave(c, flagged, partial));
    LeaveEffect(job, s, c, flagged, partial);
    forall i <- t.ran ensures i in job.candidates && AskedFor(job, t.changed, i) {
      AskedForMore(job, s.changed, t.changed, i);
    }
    if t.ok {
      forall k | k in t.settled && k in job.candidates && AskedFor(job, t.changed, k) ensures k in t.ran {
        if k in s.settled {
          LeaveAsksNoSettled(job, s, t, c, Written(job, s, c, partial), k);
        }
      }
    }
  }

  /** An output not yet left by its body is the retained one. */
  lemma UnleftIsRetained<D(!new)>(job: Job<D>, s: State<D>, c: nat, v: ValueId)
    requires Inv(job, s) && InOp(job, s, c) && v in job.g.ops[Current(job, s, c)].outputs
    ensures v !in s.changed
    ensures s.ok ==> SameAt(v, job.retained, s.store)
  {
    hide Settlement, InFlight, Cleared, Explained, Gated;
    PassedNext(job, s, s.(tasks := s.tasks[c := AtMember(s.tasks[c].at + 1)]), c, Current(job, s, c));
  }

  lemma LeaveChanges<D(!new)>(
      job: Job<D>, s: State<D>, c: nat, flagged: set<ValueId>, partial: Store<D>, v: ValueId)
    requires Inv(job, s) && Enabled(job, s, Leave(c, flagged, partial)) && s.ok
    requires var t := Step(job, s, Leave(c, flagged, partial)); t.ok && v in t.changed
    ensures
      var t := Step(job, s, Leave(c, flagged, partial));
      || v in FlagsOf(job, s, Leave(c, flagged, partial))
      || !SameAt(v, job.retained, t.store)
      || (v in s.changed && SameAt(v, s.store, t.store))
  {
    var i := Current(job, s, c);
    LeaveEffect(job, s, c, flagged, partial);
    if v in job.g.ops[i].outputs {
      UnleftIsRetained(job, s, c, v);
    }
    hide Inv;
  }

  lemma LeaveAccounts<D(!new)>(
      job: Job<D>, s: State<D>, c: nat, flagged: set<ValueId>, partial: Store<D>, flags: set<ValueId>)
    requires Inv(job, s) && Enabled(job, s, Leave(c, flagged, partial)) && Accounted(job, s, flags)
    ensures Accounted(
              job, Step(job, s, Leave(c, flagged, partial)), flags + FlagsOf(job, s, Leave(c, flagged, partial)))
  {
    hide Inv, FlagsOf;
    var t := Step(job, s, Leave(c, flagged, partial));
    if t.ok {
      forall v <- t.changed
        ensures v in job.changedLeaves || v in flags + FlagsOf(job, s, Leave(c, flagged, partial))
             || !SameAt(v, job.retained, t.store)
      {
        LeaveChanges(job, s, c, flagged, partial, v);
      }
    }
  }

  lemma StepSpares<D(!new)>(job: Job<D>, s: State<D>, a: Action<D>, flags: set<ValueId>)
    requires Inv(job, s) && Enabled(job, s, a) && Sparing(job, s) && Accounted(job, s, flags)
    ensures Sparing(job, Step(job, s, a)) && Accounted(job, Step(job, s, a), flags + FlagsOf(job, s, a))
  {
    hide Inv, Sparing, Accounted, Step;
    if a.Pass? {
      PassSpares(job, s, a.c, flags);
    } else if a.Enter? {
      EnterSpares(job, s, a.c, flags);
    } else if a.Leave? {
      LeaveSpares(job, s, a.c, a.flagged, a.partial);
      LeaveAccounts(job, s, a.c, a.flagged, a.partial, flags);
    } else {
      BookkeepingSpares(job, s, a, flags);
    }
    assert !a.Leave? ==> flags + FlagsOf(job, s, a) == flags;
  }

  // ---- Runs ----------------------------------------------------------------------------

  /** What the first `k` actions of a run flagged. */
  ghost function Flags<D>(job: Job<D>, states: seq<State<D>>, actions: seq<Action<D>>, k: nat): set<ValueId>
    requires IsRun(job, states, actions) && k <= |actions|
  {
    if k == 0 then {} else Flags(job, states, actions, k - 1) + FlagsOf(job, states[k - 1], actions[k - 1])
  }

  /** Action `j` is a body of operation `i` leaving and flagging its output `v`. */
  ghost predicate FlaggedAt<D>(job: Job<D>, s: State<D>, a: Action<D>, v: ValueId) {
    a.Leave? && InOp(job, s, a.c) && v in a.flagged && v in job.g.ops[Current(job, s, a.c)].outputs
  }

  lemma {:induction false} RunSpares<D(!new)>(
      job: Job<D>, states: seq<State<D>>, actions: seq<Action<D>>, k: nat)
    requires ValidJob(job) && IsRun(job, states, actions) && k <= |actions|
    ensures Sparing(job, states[k]) && Accounted(job, states[k], Flags(job, states, actions, k))
  {
    hide Sparing, Accounted, Enabled, Step;
    if k == 0 {
      InitialSparing(job, states[0], {});
    } else {
      RunSpares(job, states, actions, k - 1);
      RunKeeps(job, states, actions, k - 1);
      StepSpares(job, states[k - 1], actions[k - 1], Flags(job, states, actions, k - 1));
    }
  }

  lemma {:induction false} FlagsMeaning<D>(
      job: Job<D>, states: seq<State<D>>, actions: seq<Action<D>>, k: nat, v: ValueId)
    requires IsRun(job, states, actions) && k <= |actions|
    ensures v in Flags(job, states, actions, k) <==>
              exists j: nat :: j < k && FlaggedAt(job, states[j], actions[j], v)
  {
    hide Step, FlaggedAt, FlagsOf, Enabled, Initial;
    if k > 0 {
      FlagsMeaning(job, states, actions, k - 1, v);
      FlagsOfMeaning(job, states[k - 1], actions[k - 1], v);
    }
  }

  lemma FlagsOfMeaning<D>(job: Job<D>, s: State<D>, a: Action<D>, v: ValueId)
    requires Enabled(job, s, a)
    ensures v in FlagsOf(job, s, a) <==> FlaggedAt(job, s, a, v)
  {}

  lemma {:induction false} ChangesGrow<D>(
      job: Job<D>, states: seq<State<D>>, actions: seq<Action<D>>, k: nat)
    requires IsRun(job, states, actions) && k <= |actions|
    ensures job.changedLeaves + Flags(job, states, actions, k) <= states[k].changed
  {
    if k > 0 {
      ChangesGrow(job, states, actions, k - 1);
      var s, a := states[k - 1], actions[k - 1];
      assert states[k] == Step(job, s, a);
      StepChanges(job, s, a);
    }
  }

  lemma StepChanges<D>(job: Job<D>, s: State<D>, a: Action<D>)
    requires Enabled(job, s, a)
    ensures s.changed + FlagsOf(job, s, a) <= Step(job, s, a).changed
  {
    hide Numbered, CandidatesBefore, CandidateCluster, InputsOf;
  }

  /** At every moment of every run, a body that has run was that of a candidate
      which is a seed or reads a value that has changed. */
  lemma RanWasAskedFor<D(!new)>(
      job: Job<D>, states: seq<State<D>>, actions: seq<Action<D>>, k: nat, i: nat)
    requires ValidJob(job) && IsRun(job, states, actions) && k <= |actions| && i in states[k].ran
    ensures i in job.candidates && i < |job.g.ops|
    ensures i in job.seeded || exists v :: v in job.g.ops[i].inputs && v in states[k].changed
  {
    RunSpares(job, states, actions, k);
    hide IsRun, ValidJob;
  }

  /** A run that ended well ran exactly the candidates that are seeds or read a
      changed value. */
  lemma RanIffAskedFor<D(!new)>(job: Job<D>, states: seq<State<D>>, actions: seq<Action<D>>, i: nat)
    requires ValidJob(job) && IsRun(job, states, actions) && Quiescent(job, states[|actions|])
    requires states[|actions|].ok && i < |job.g.ops|
    ensures
      var last := states[|actions|];
      i in last.ran <==>
        i in job.candidates && (i in job.seeded || exists v :: v in job.g.ops[i].inputs && v in last.changed)
  {
    var last := states[|actions|];
    RunSpares(job, states, actions, |actions|);
    RunKeeps(job, states, actions, |actions|);
    RestSettles(job, last);
    hide IsRun, ValidJob, Quiescent, Inv;
    assert AskedFor(job, last.changed, i) <==>
      i in job.seeded || exists v :: v in job.g.ops[i].inputs && v in last.changed;
  }

  /** And a value has changed exactly if it is a changed leaf, or is not what was
      retained, or the body that left it flagged it. */
  lemma ChangedIffMoved<D(!new)>(job: Job<D>, states: seq<State<D>>, actions: seq<Action<D>>, k: nat, v: ValueId)
    requires ValidJob(job) && IsRun(job, states, actions) && k <= |actions| && states[k].ok
    ensures
      v in states[k].changed <==>
        || v in job.changedLeaves
        || !SameAt(v, job.retained, states[k].store)
        || exists j: nat :: j < k && FlaggedAt(job, states[j], actions[j], v)
  {
    RunSpares(job, states, actions, k);
    RunKeeps(job, states, actions, k);
    FlagsMeaning(job, states, actions, k, v);
    ChangesGrow(job, states, actions, k);
    UnchangedIsRetained(job, states[k], v);
    hide IsRun, ValidJob, FlaggedAt, Flags, SameAt, Inv;
    assert v in states[k].changed ==>
      v in job.changedLeaves || v in Flags(job, states, actions, k) || !SameAt(v, job.retained, states[k].store);
  }

  lemma UnchangedIsRetained<D(!new)>(job: Job<D>, s: State<D>, v: ValueId)
    requires Inv(job, s) && s.ok
    ensures v in s.changed || SameAt(v, job.retained, s.store)
  {
    hide Gated, Settlement, InFlight, Cleared, Explained;
  }

  /** Operation `i` reads a changed leaf, or a value program order makes another
      than the retained one. */
  ghost predicate ReadsNews<D>(job: Job<D>, reference: Store<D>, i: nat) {
    i < |job.g.ops| &&
    exists v :: v in job.g.ops[i].inputs && (v in job.changedLeaves || !SameAt(v, job.retained, reference))
  }

  /** At rest, with nothing flagged, what ran is told by program order alone: a
      clean retained output stops the wave. */
  lemma RestRan<D(!new)>(job: Job<D>, s: State<D>, i: nat)
    requires Inv(job, s) && Quiescent(job, s) && s.ok && Sparing(job, s) && Accounted(job, s, {})
    requires i < |job.g.ops|
    ensures ProgramOrder(job, |job.g.ops|).Some?
    ensures i in s.ran <==>
              i in job.candidates && (i in job.seeded || ReadsNews(job, ProgramOrder(job, |job.g.ops|).value, i))
  {
    RestAgrees(job, s);
    RestSettles(job, s);
    forall v: ValueId ensures v in s.changed <==> v in job.changedLeaves || !SameAt(v, job.retained, s.store) {
      UnchangedIsRetained(job, s, v);
    }
    hide Inv, SameAt, ProgramOrder, Quiescent;
  }
}
