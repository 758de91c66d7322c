/** The executor's one-thread form: after the candidate worklist, the ready queue
    that runs clusters one after another. Its every action is one the state
    machine allows, so it inherits the machine's results. */
module SerialExecutor {
  import opened Options
  import opened FiniteSets
  import opened Digraphs
  import opened OpGraph
  import opened Executor
  import opened ExecutorSafety
  import opened ExecutorResults
  import opened CompletionOrder
  import opened Propagation
  import opened CandidateWave

  // ---- The ready queue -----------------------------------------------------------------------

  ghost function CandidatePreds<D>(job: Job<D>, c: nat): set<nat>
    requires c < |job.g.clusters|
  {
    set p: nat | p in job.g.clusters[c].preds && p < |job.g.clusters| && CandidateCluster(job, p)
  }

  ghost predicate Unstarted<D>(s: State<D>) {
    forall c | 0 <= c < |s.tasks| :: s.tasks[c].Waiting? || s.tasks[c].Ready?
  }

  lemma UnstartedPending<D>(job: Job<D>, s: State<D>, c: nat)
    requires c < |job.g.clusters| == |s.tasks| && Unstarted(s)
    ensures Pending(job, s, c) == CandidatePreds(job, c)
  {
    forall p: nat | p < |job.g.clusters| ensures !Released(job, s, p, c) {}
  }

  ghost predicate IsReady<D>(job: Job<D>, c: nat)
    requires c < |job.g.clusters|
  {
    CandidateCluster(job, c) && CandidatePreds(job, c) == {}
  }

  /** The state the machine starts from, given the counts the workspace holds. */
  ghost function InitialState<D>(job: Job<D>, unresolved: seq<int>): State<D> {
    State(job.start, job.changedLeaves, unresolved,
          seq(|job.g.clusters|, c requires 0 <= c < |job.g.clusters| => if IsReady(job, c) then Ready else Waiting),
          {}, AllOps(job.g) - job.candidates, seq(|job.g.ops|, _ => 0), 0, true)
  }

  lemma InitialStateIsInitial<D>(job: Job<D>, unresolved: seq<int>)
    requires |unresolved| == |job.g.clusters|
    requires forall c | 0 <= c < |job.g.clusters| && CandidateCluster(job, c) ::
        unresolved[c] == |CandidatePreds(job, c)|
    ensures Initial(job, InitialState(job, unresolved))
  {
    var s := InitialState(job, unresolved);
    assert Unstarted(s);
    forall c: nat | c < |job.g.clusters| ensures Pending(job, s, c) == CandidatePreds(job, c) {
      UnstartedPending(job, s, c);
    }
    assert forall c: nat | c < |job.g.clusters| :: CandidatePreds(job, c) == {} <==> |CandidatePreds(job, c)| == 0;
    assert s.settled == (set i: nat | i < |job.g.ops| && i !in job.candidates);
  }

  method CountDependencies<D>(job: Job<D>, c: nat) returns (dependencies: int)
    requires c < |job.g.clusters| && StrictlyIncreasing(job.g.clusters[c].preds)
    requires forall p <- job.g.clusters[c].preds :: p < |job.g.clusters|
    ensures dependencies == |CandidatePreds(job, c)|
  {
    hide CandidateCluster;
    var preds := job.g.clusters[c].preds;
    dependencies := 0;
    ghost var counted: set<nat> := {};
    for k := 0 to |preds|
      invariant counted == (set p: nat | p in preds[..k] && p < |job.g.clusters| && CandidateCluster(job, p))
      invariant dependencies == |counted|
    {
      assert preds[..k + 1] == preds[..k] + [preds[k]];
      assert preds[k] in preds;
      assert forall j | 0 <= j < k :: preds[j] < preds[k];
      if CandidateCluster(job, preds[k]) {
        dependencies := dependencies + 1;
        counted := counted + {preds[k]};
      }
    }
    assert preds[..|preds|] == preds;
    assert counted == CandidatePreds(job, c);
  }

  /** The ready queue: clusters before `at` have finished, those from `at` on are
      ready, all others wait. */
  ghost predicate Queued<D>(job: Job<D>, s: State<D>, ready: seq<nat>, at: nat) {
    && |s.tasks| == |job.g.clusters| && at <= |ready|
    && (forall k | 0 <= k < |ready| :: ready[k] < |s.tasks|)
    && (forall j, k | 0 <= j < k < |ready| :: ready[j] != ready[k])
    && (forall k | 0 <= k < at :: s.tasks[ready[k]].Finished?)
    && (forall k | at <= k < |ready| :: s.tasks[ready[k]].Ready?)
    && (forall c: nat | c < |s.tasks| && c !in ready :: s.tasks[c].Waiting?)
  }

  /** Counts every candidate cluster's candidate predecessors and queues those
      that have none. */
  method Prepare<D(!new)>(job: Job<D>, stale: seq<int>) returns (unresolved: seq<int>, ready: seq<nat>)
    requires ValidJob(job) && |stale| == |job.g.clusters|
    ensures |unresolved| == |job.g.clusters|
    ensures Initial(job, InitialState(job, unresolved))
    ensures Queued(job, InitialState(job, unresolved), ready, 0)
  {
    unresolved := stale;
    ready := [];
    for c := 0 to |job.g.clusters|
      invariant |unresolved| == |job.g.clusters|
      invariant forall d: nat | d < c && CandidateCluster(job, d) :: unresolved[d] == |CandidatePreds(job, d)|
      invariant forall d: nat :: d in ready <==> d < c && IsReady(job, d)
      invariant forall k | 0 <= k < |ready| :: ready[k] < c && ready[k] in ready
      invariant forall j, k | 0 <= j < k < |ready| :: ready[j] != ready[k]
    {
      if CandidateCluster(job, c) {
        var dependencies := CountDependencies(job, c);
        assert dependencies == 0 <==> CandidatePreds(job, c) == {};
        if dependencies == 0 {
          ready := ready + [c];
        }
        unresolved := unresolved[c := dependencies];
      }
    }
    InitialStateIsInitial(job, unresolved);
  }

  ghost predicate Good<D(!new)>(job: Job<D>, s: State<D>) {
    Inv(job, s) && Numbering(job, s) && Sparing(job, s) && Accounted(job, s, {})
  }

  lemma StepGood<D(!new)>(job: Job<D>, s: State<D>, a: Action<D>)
    requires Good(job, s) && Enabled(job, s, a) && (a.Leave? ==> a.flagged == {})
    ensures Good(job, Step(job, s, a))
  {
    hide Inv, Numbering, Sparing, Accounted, Step, Enabled;
    StepNumbers(job, s, a);
    StepSpares(job, s, a, {});
    NothingFlagged(job, s, a);
  }

  lemma NothingFlagged<D>(job: Job<D>, s: State<D>, a: Action<D>)
    requires Enabled(job, s, a) && (a.Leave? ==> a.flagged == {})
    ensures {} + FlagsOf(job, s, a) == {}
  {}

  /** Nothing but cluster `c`'s task and the values it publishes moved. */
  ghost predicate OnlyMoved<D>(s: State<D>, t: State<D>, c: nat, task: Task<D>)
    requires c < |s.tasks|
  {
    && t.tasks == s.tasks[c := task]
    && t.unresolved == s.unresolved && t.completion == s.completion && t.sequence == s.sequence
  }

  lemma EnterEffect<D(!new)>(job: Job<D>, s: State<D>, c: nat)
    requires Good(job, s) && Enabled(job, s, Enter(c))
    ensures var i := Current(job, s, c);
            var t := Step(job, s, Enter(c));
            && t == s.(tasks := s.tasks[c := InBody(s.tasks[c].at, InputsOf(job.g, s.store, i))], ran := s.ran + {i})
            && Enabled(job, t, Leave(c, {}, map[])) && Current(job, t, c) == i
  {}

  lemma GoodBody<D(!new)>(job: Job<D>, s: State<D>, c: nat)
    requires Good(job, s) && InOp(job, s, c)
    ensures var out := job.body(Current(job, s, c), s.tasks[c].held);
            out.Some? ==> out.value.Keys == OutputSet(job.g, Current(job, s, c))
  {
    hide Gated, Settlement, InFlight, Cleared, Flagged, Explained, Numbering;
    var i := Current(job, s, c);
    if job.body(i, s.tasks[c].held).Some? {
      OutputsDeclared(job, i, s.tasks[c].held);
    }
  }

  lemma MovedWithin<D>(store: Store<D>, out: Store<D>, declared: set<ValueId>)
    requires out.Keys == declared
    ensures (Moved(store, out) + {}) * declared == Moved(store, out)
  {}

  lemma LeaveQuietly<D(!new)>(job: Job<D>, s: State<D>, c: nat)
    requires Good(job, s) && Enabled(job, s, Leave(c, {}, map[]))
    ensures var i := Current(job, s, c);
            var out := job.body(i, s.tasks[c].held);
            var t := Step(job, s, Leave(c, {}, map[]));
            && OnlyMoved(s, t, c, AtMember(s.tasks[c].at + 1))
            && Publishes(s, t, out) && t.ran == s.ran
  {
    hide Good, Moved, OutputSet;
    var i := Current(job, s, c);
    GoodBody(job, s, c);
    if job.body(i, s.tasks[c].held).Some? {
      MovedWithin(s.store, job.body(i, s.tasks[c].held).value, OutputSet(job.g, i));
    } else {
      assert s.changed + {} * OutputSet(job.g, i) == s.changed;
    }
  }

  /** What a body's result does to the published values. */
  ghost predicate Publishes<D>(s: State<D>, t: State<D>, out: Option<Store<D>>) {
    if out.Some? then
      t.store == s.store + out.value && t.changed == s.changed + Moved(s.store, out.value) && t.ok == s.ok
    else
      t.store == s.store && t.changed == s.changed && !t.ok
  }

  /** Cluster `c`'s task at its current member: the body runs, or is passed over. */
  lemma MemberStep<D(!new)>(job: Job<D>, s: State<D>, c: nat) returns (t: State<D>)
    requires Good(job, s) && AtOp(job, s, c) && s.tasks[c].AtMember?
    ensures Good(job, t)
    ensures OnlyMoved(s, t, c, AtMember(s.tasks[c].at + 1))
    ensures var i := Current(job, s, c);
            if i in job.candidates && s.ok && Needed(job, s, i) then
              Publishes(s, t, job.body(i, InputsOf(job.g, s.store, i))) && t.ran == s.ran + {i}
            else
              t.store == s.store && t.changed == s.changed && t.ok == s.ok && t.ran == s.ran
  {
    hide Good, Needed, OutputSet, Moved;
    var i := Current(job, s, c);
    if i in job.candidates && s.ok {
      var checked := CheckFirst(job, s, c);
      if Needed(job, s, i) {
        t := EnterAndLeave(job, checked, c);
      } else {
        t := PassOver(job, checked, c);
      }
    } else {
      t := PassOver(job, s, c);
    }
  }

  lemma CheckFirst<D(!new)>(job: Job<D>, s: State<D>, c: nat) returns (t: State<D>)
    requires Good(job, s) && Enabled(job, s, Check(c))
    ensures Good(job, t) && t == s.(tasks := s.tasks[c := Checked(s.tasks[c].at)])
    ensures AtOp(job, t, c) && Current(job, t, c) == Current(job, s, c)
    ensures Needed(job, t, Current(job, s, c)) == Needed(job, s, Current(job, s, c))
  {
    hide Good;
    StepGood(job, s, Check(c));
    t := Step(job, s, Check(c));
  }

  lemma EnterAndLeave<D(!new)>(job: Job<D>, s: State<D>, c: nat) returns (t: State<D>)
    requires Good(job, s) && Enabled(job, s, Enter(c))
    ensures Good(job, t) && OnlyMoved(s, t, c, AtMember(s.tasks[c].at + 1))
    ensures Publishes(s, t, job.body(Current(job, s, c), InputsOf(job.g, s.store, Current(job, s, c))))
    ensures t.ran == s.ran + {Current(job, s, c)}
  {
    hide Good, Step;
    StepGood(job, s, Enter(c));
    EnterEffect(job, s, c);
    var inside := Step(job, s, Enter(c));
    StepGood(job, inside, Leave(c, {}, map[]));
    LeaveQuietly(job, inside, c);
    t := Step(job, inside, Leave(c, {}, map[]));
    assert t.tasks == s.tasks[c := AtMember(s.tasks[c].at + 1)];
  }

  lemma PassOver<D(!new)>(job: Job<D>, s: State<D>, c: nat) returns (t: State<D>)
    requires Good(job, s) && Enabled(job, s, Pass(c))
    ensures Good(job, t) && OnlyMoved(s, t, c, AtMember(s.tasks[c].at + 1))
    ensures t.store == s.store && t.changed == s.changed && t.ok == s.ok && t.ran == s.ran
  {
    hide Good;
    StepGood(job, s, Pass(c));
    t := Step(job, s, Pass(c));
  }

  lemma AtMemberOf<D(!new)>(job: Job<D>, s: State<D>, c: nat, k: nat)
    requires Good(job, s) && c < |s.tasks| && s.tasks[c] == AtMember(k)
    ensures c < |job.g.clusters| && k <= |job.g.clusters[c].members|
    ensures k < |job.g.clusters[c].members| ==>
              AtOp(job, s, c) && Current(job, s, c) == job.g.clusters[c].members[k] < |job.g.ops|
  {
    if k < |job.g.clusters[c].members| {
      MemberInRange(job.g, c, k);
    }
  }

  /** One cluster's members, in order: a candidate's body runs when a seed or a
      changed input asks for it and no body has failed. */
  method RunMembers<D(!new,==)>(
      job: Job<D>, ghost s: State<D>, c: nat, store0: Store<D>, changed0: set<ValueId>, ran0: set<nat>, ok0: bool)
    returns (ghost t: State<D>, store: Store<D>, changed: set<ValueId>, ran: set<nat>, ok: bool)
    requires Good(job, s)
    requires s.store == store0 && s.changed == changed0 && s.ran == ran0 && s.ok == ok0
    requires c < |s.tasks| && c < |job.g.clusters| && s.tasks[c] == AtMember(0)
    ensures Good(job, t)
    ensures t.store == store && t.changed == changed && t.ran == ran && t.ok == ok
    ensures t.unresolved == s.unresolved && t.completion == s.completion && t.sequence == s.sequence
    ensures OnlyMoved(s, t, c, AtMember(|job.g.clusters[c].members|))
  {
    hide Good;
    t, store, changed, ran, ok := s, store0, changed0, ran0, ok0;
    var members := job.g.clusters[c].members;
    for k := 0 to |members|
      invariant Good(job, t)
      invariant t.store == store && t.changed == changed && t.ran == ran && t.ok == ok
      invariant OnlyMoved(s, t, c, AtMember(k))
    {
      var i := members[k];
      AtMemberOf(job, t, c, k);
      ghost var before := t;
      t := MemberStep(job, t, c);
      if i in job.candidates && ok && (i in job.seeded || exists v <- job.g.ops[i].inputs :: v in changed) {
        assert Needed(job, before, i);
        ran := ran + {i};
        var out := job.body(i, InputsOf(job.g, store, i));
        if out.Some? {
          changed := changed + Moved(store, out.value);
          store := store + out.value;
        } else {
          ok := false;
        }
      }
    }
  }

  lemma FinishResult<D(!new)>(job: Job<D>, s: State<D>, c: nat)
    requires Good(job, s) && Enabled(job, s, Finish(c))
    ensures c < |job.g.clusters|
    ensures var members := job.g.clusters[c].members;
            && (forall k | 0 <= k < |members| :: members[k] < |s.completion|)
            && Step(job, s, Finish(c)).completion == Numbered(job, s, c, |members|)
            && Step(job, s, Finish(c)).sequence == s.sequence + CandidatesBefore(job, c, |members|)
  {
    var members := job.g.clusters[c].members;
    forall k | 0 <= k < |members| ensures members[k] < |s.completion| {
      MemberInRange(job.g, c, k);
    }
  }

  /** Numbers a cluster's candidate members on from `finished`. */
  method Complete<D(!new)>(job: Job<D>, ghost s: State<D>, c: nat, completion0: seq<nat>, finished0: nat)
    returns (completion: seq<nat>, finished: nat)
    requires c < |job.g.clusters| && s.completion == completion0 && s.sequence == finished0
    requires forall k | 0 <= k < |job.g.clusters[c].members| :: job.g.clusters[c].members[k] < |completion0|
    ensures completion == Numbered(job, s, c, |job.g.clusters[c].members|)
    ensures finished == finished0 + CandidatesBefore(job, c, |job.g.clusters[c].members|)
  {
    completion, finished := completion0, finished0;
    var members := job.g.clusters[c].members;
    for k := 0 to |members|
      invariant completion == Numbered(job, s, c, k)
      invariant finished == finished0 + CandidatesBefore(job, c, k)
    {
      if members[k] in job.candidates {
        finished := finished + 1;
        completion := completion[members[k] := finished];
      }
    }
  }

  /** The queue while the cluster at its front, `ready[at]`, is being run. */
  ghost predicate QueuedBut<D>(job: Job<D>, s: State<D>, ready: seq<nat>, at: nat) {
    && |s.tasks| == |job.g.clusters| && at < |ready|
    && (forall k | 0 <= k < |ready| :: ready[k] < |s.tasks|)
    && (forall j, k | 0 <= j < k < |ready| :: ready[j] != ready[k])
    && (forall k | 0 <= k < at :: s.tasks[ready[k]].Finished?)
    && (forall k | at < k < |ready| :: s.tasks[ready[k]].Ready?)
    && (forall c: nat | c < |s.tasks| && c !in ready :: s.tasks[c].Waiting?)
  }

  /** `next` waits for this one count only. */
  predicate IsLast<D>(job: Job<D>, s: State<D>, next: nat)
    requires next < |job.g.clusters| == |s.unresolved|
  {
    CandidateCluster(job, next) && s.unresolved[next] == 1
  }

  function CountedOff<D>(job: Job<D>, s: State<D>, next: nat): seq<int>
    requires next < |job.g.clusters| == |s.unresolved|
  {
    if CandidateCluster(job, next) then s.unresolved[next := s.unresolved[next] - 1] else s.unresolved
  }

  lemma ReleasedQueue<D>(
      job: Job<D>, s: State<D>, t: State<D>, c: nat, next: nat, last: bool, ready: seq<nat>, at: nat)
    requires QueuedBut(job, s, ready, at) && ready[at] == c && |t.tasks| == |s.tasks|
    requires next < |s.tasks| && next != c
    requires forall d: nat | d < |s.tasks| && d != c :: t.tasks[d] == if d == next && last then Ready else s.tasks[d]
    requires last ==> s.tasks[next].Waiting?
    ensures QueuedBut(job, t, if last then ready + [next] else ready, at)
  {
    var after := if last then ready + [next] else ready;
    assert last ==> next !in ready;
    assert ready[at] in ready;
    forall d: nat | d < |t.tasks| && d !in after ensures t.tasks[d].Waiting? {
      assert d !in ready;
    }
  }

  /** Cluster `ready[at]` counted itself off at its successor number `k`, which
      is queued if that was its last one. */
  ghost predicate ReleasedOne<D>(job: Job<D>, s: State<D>, t: State<D>, ready: seq<nat>, at: nat, k: nat) {
    && at < |ready| && ready[at] < |job.g.clusters| == |s.unresolved| == |s.tasks| == |t.tasks|
    && k < |job.g.clusters[ready[at]].succs|
    && var c := ready[at];
    var next := job.g.clusters[c].succs[k];
    && next < |job.g.clusters| && next != c
    && t == s.(tasks := t.tasks, unresolved := t.unresolved)
    && t.tasks[c] == Releasing(k + 1)
    && t.unresolved == CountedOff(job, s, next)
    && QueuedBut(job, t, if IsLast(job, s, next) then ready + [next] else ready, at)
  }

  lemma ReleaseAt<D(!new)>(job: Job<D>, s: State<D>, ready: seq<nat>, at: nat, k: nat) returns (t: State<D>)
    requires Good(job, s) && QueuedBut(job, s, ready, at)
    requires s.tasks[ready[at]] == Releasing(k) && k < |job.g.clusters[ready[at]].succs|
    ensures Good(job, t) && ReleasedOne(job, s, t, ready, at, k)
  {
    hide *;
    QueueFront(job, s, ready, at);
    var c := ready[at];
    var next := job.g.clusters[c].succs[k];
    t := ReleaseStep(job, s, c, k);
    var last := IsLast(job, s, next);
    ReleasedQueue(job, s, t, c, next, last, ready, at);
    ReleasedOneBy(job, s, t, ready, at, k, c, next);
  }

  lemma QueueFront<D>(job: Job<D>, s: State<D>, ready: seq<nat>, at: nat)
    requires QueuedBut(job, s, ready, at)
    ensures at < |ready| && ready[at] < |s.tasks| == |job.g.clusters|
  {}

  lemma ReleasedOneBy<D>(job: Job<D>, s: State<D>, t: State<D>, ready: seq<nat>, at: nat, k: nat, c: nat, next: nat)
    requires at < |ready| && ready[at] == c < |job.g.clusters| == |s.unresolved| == |s.tasks| == |t.tasks|
    requires k < |job.g.clusters[c].succs| && job.g.clusters[c].succs[k] == next < |job.g.clusters| && next != c
    requires t == s.(tasks := t.tasks, unresolved := t.unresolved) && t.tasks[c] == Releasing(k + 1)
    requires t.unresolved == CountedOff(job, s, next)
    requires QueuedBut(job, t, if IsLast(job, s, next) then ready + [next] else ready, at)
    ensures ReleasedOne(job, s, t, ready, at, k)
  {
    hide QueuedBut, CandidateCluster;
  }

  lemma ReleaseStep<D(!new)>(job: Job<D>, s: State<D>, c: nat, k: nat) returns (t: State<D>)
    requires Good(job, s) && c < |s.tasks| == |job.g.clusters|
    requires s.tasks[c] == Releasing(k) && k < |job.g.clusters[c].succs|
    ensures Good(job, t)
    ensures var next := job.g.clusters[c].succs[k];
            && next < |job.g.clusters| == |s.unresolved| == |s.tasks| && next != c
            && t == s.(tasks := t.tasks, unresolved := t.unresolved)
            && |t.tasks| == |s.tasks| && t.tasks[c] == Releasing(k + 1)
            && t.unresolved == CountedOff(job, s, next)
            && (forall d: nat | d < |s.tasks| && d != c ::
                  t.tasks[d] == if d == next && IsLast(job, s, next) then Ready else s.tasks[d])
            && (IsLast(job, s, next) ==> s.tasks[next].Waiting?)
  {
    hide Good, Step, CandidateCluster, Enabled;
    ReleaseEnabled(job, s, c, k);
    StepGood(job, s, Release(c));
    ReleaseFacts(job, s, c);
    t := Step(job, s, Release(c));
  }

  lemma ReleaseEnabled<D(!new)>(job: Job<D>, s: State<D>, c: nat, k: nat)
    requires Good(job, s) && c < |s.tasks| == |job.g.clusters|
    requires s.tasks[c] == Releasing(k) && k < |job.g.clusters[c].succs|
    ensures Enabled(job, s, Release(c))
  {
    assert job.g.clusters[c].succs[k] in job.g.clusters[c].succs;
  }

  lemma ReleaseFacts<D(!new)>(job: Job<D>, s: State<D>, c: nat)
    requires Good(job, s) && Enabled(job, s, Release(c))
    ensures var next := NextOf(job, s, c);
            var t := Step(job, s, Release(c));
            var last := IsLast(job, s, next);
            && next < |job.g.clusters| == |s.unresolved| == |s.tasks| && next != c
            && t == s.(tasks := t.tasks, unresolved := t.unresolved)
            && |t.tasks| == |s.tasks| && t.tasks[c] == Releasing(s.tasks[c].next + 1)
            && t.unresolved == CountedOff(job, s, next)
            && (forall d: nat | d < |s.tasks| && d != c ::
                  t.tasks[d] == if d == next && last then Ready else s.tasks[d])
            && (last ==> s.tasks[next].Waiting?)
  {
    ReleaseAwaited(job, s, c);
    ReleaseEffect(job, s, c);
  }

  /** Counts cluster `c` off at each successor, queueing those it was last for. */
  method ReleaseSuccessors<D(!new)>(
      job: Job<D>, ghost s: State<D>, c: nat, unresolved0: seq<int>, ready0: seq<nat>, ghost at: nat)
    returns (ghost t: State<D>, unresolved: seq<int>, ready: seq<nat>)
    requires Good(job, s) && s.unresolved == unresolved0
    requires c < |s.tasks| && c < |job.g.clusters| && s.tasks[c] == Releasing(0)
    requires at < |ready0| && ready0[at] == c && QueuedBut(job, s, ready0, at)
    ensures Good(job, t) && t.unresolved == unresolved
    ensures |t.tasks| == |s.tasks| && t == s.(tasks := t.tasks, unresolved := t.unresolved)
    ensures t.tasks[c] == Releasing(|job.g.clusters[c].succs|)
    ensures ready0 <= ready && QueuedBut(job, t, ready, at)
  {
    hide Good, CandidateCluster, QueuedBut;
    t, unresolved, ready := s, unresolved0, ready0;
    var succs := job.g.clusters[c].succs;
    for k := 0 to |succs|
      invariant Good(job, t) && t.unresolved == unresolved
      invariant |t.tasks| == |s.tasks| && t == s.(tasks := t.tasks, unresolved := t.unresolved)
      invariant t.tasks[c] == Releasing(k)
      invariant ready0 <= ready && QueuedBut(job, t, ready, at)
    {
      t := ReleaseAt(job, t, ready, at, k);
      if CandidateCluster(job, succs[k]) {
        var left := unresolved[succs[k]] - 1;
        unresolved := unresolved[succs[k] := left];
        if left == 0 {
          ready := ready + [succs[k]];
        }
      }
    }
  }

  lemma QueueFrame<D>(job: Job<D>, s: State<D>, t: State<D>, ready: seq<nat>, at: nat)
    requires QueuedBut(job, s, ready, at) && |t.tasks| == |s.tasks|
    requires forall d: nat | d < |s.tasks| && d != ready[at] :: t.tasks[d] == s.tasks[d]
    ensures QueuedBut(job, t, ready, at)
  {
    assert ready[at] in ready;
  }

  lemma BeginAt<D(!new)>(job: Job<D>, s: State<D>, ready: seq<nat>, at: nat) returns (t: State<D>)
    requires Good(job, s) && Queued(job, s, ready, at) && at < |ready|
    ensures ready[at] < |s.tasks| == |job.g.clusters| && t == s.(tasks := s.tasks[ready[at] := AtMember(0)])
    ensures Good(job, t) && QueuedBut(job, t, ready, at)
  {
    hide Numbering, Settlement, InFlight, Cleared, Flagged, Explained, Gated, ValidJob;
    var c := ready[at];
    assert c in ready;
    assert Enabled(job, s, Begin(c));
    StepGood(job, s, Begin(c));
    t := Step(job, s, Begin(c));
    assert QueuedBut(job, s, ready, at);
    QueueFrame(job, s, t, ready, at);
  }

  lemma FinishAt<D(!new)>(job: Job<D>, begun: State<D>, s: State<D>, ready: seq<nat>, at: nat) returns (t: State<D>)
    requires Good(job, s) && QueuedBut(job, begun, ready, at)
    requires ready[at] < |begun.tasks| == |job.g.clusters|
    requires OnlyMoved(begun, s, ready[at], AtMember(|job.g.clusters[ready[at]].members|))
    ensures ready[at] < |s.tasks| == |job.g.clusters|
    ensures Enabled(job, s, Finish(ready[at])) && t == Step(job, s, Finish(ready[at]))
    ensures t == s.(tasks := s.tasks[ready[at] := Releasing(0)], completion := t.completion, sequence := t.sequence)
    ensures Good(job, t) && QueuedBut(job, t, ready, at)
  {
    hide Numbering, Settlement, InFlight, Cleared, Flagged, Explained, Gated, ValidJob, Numbered, CandidatesBefore;
    QueueFrame(job, begun, s, ready, at);
    StepGood(job, s, Finish(ready[at]));
    t := Step(job, s, Finish(ready[at]));
    QueueFrame(job, s, t, ready, at);
  }

  lemma RetireAt<D(!new)>(job: Job<D>, s: State<D>, ready: seq<nat>, at: nat) returns (t: State<D>)
    requires Good(job, s) && QueuedBut(job, s, ready, at)
    requires ready[at] < |s.tasks| == |job.g.clusters|
    requires s.tasks[ready[at]] == Releasing(|job.g.clusters[ready[at]].succs|)
    ensures t == s.(tasks := s.tasks[ready[at] := Finished])
    ensures Good(job, t) && Queued(job, t, ready, at + 1) && at + 1 <= |ready| <= |job.g.clusters|
  {
    hide Good;
    StepGood(job, s, Retire(ready[at]));
    t := Step(job, s, Retire(ready[at]));
    QueueFrame(job, s, t, ready, at);
    QueueShort(job, t, ready, at + 1);
  }

  lemma QueueShort<D>(job: Job<D>, s: State<D>, ready: seq<nat>, at: nat)
    requires Queued(job, s, ready, at)
    ensures |ready| <= |job.g.clusters|
  {
    assert InRange(ready, |job.g.clusters|);
    DistinctBounded(ready, |job.g.clusters|);
  }

  lemma InitialGood<D(!new)>(job: Job<D>, unresolved: seq<int>, ready: seq<nat>) returns (s: State<D>)
    requires ValidJob(job) && |unresolved| == |job.g.clusters| && Initial(job, InitialState(job, unresolved))
    requires Queued(job, InitialState(job, unresolved), ready, 0)
    ensures Good(job, s) && Queued(job, s, ready, 0) && |ready| <= |job.g.clusters|
    ensures s.store == job.start && s.changed == job.changedLeaves && s.ok && s.unresolved == unresolved
    ensures s.completion == seq(|job.g.ops|, _ => 0) && s.sequence == 0 && s.ran == {}
  {
    s := InitialState(job, unresolved);
    InitialInv(job, s);
    InitialSparing(job, s, {});
    InitialNumbering(job, s);
    QueueShort(job, s, ready, 0);
  }

  /** An exhausted queue leaves nothing that can move. */
  lemma QueueDone<D(!new)>(job: Job<D>, s: State<D>, ready: seq<nat>)
    requires Inv(job, s) && Queued(job, s, ready, |ready|)
    ensures Quiescent(job, s)
  {
    forall a: Action<D> ensures !Enabled(job, s, a) {
      if a.c < |s.tasks| && a.c in ready {
        var k :| 0 <= k < |ready| && ready[k] == a.c;
        assert s.tasks[ready[k]].Finished?;
      }
    }
  }

  lemma RestNumbers<D(!new)>(job: Job<D>, s: State<D>)
    requires Good(job, s) && Quiescent(job, s)
    ensures forall i: nat | i < |s.completion| :: s.completion[i] > 0 <==> i in job.candidates
    ensures NumbersFollowEdges(job, s.completion)
  {
    QuiescentIsComplete(job, s);
    forall i: nat | i < |job.g.ops| && i in job.candidates ensures Counted(s, job.g.opClusters[i]) {
      assert CandidateCluster(job, job.g.opClusters[i]);
    }
  }

  /** An exhausted queue means a finished execution. */
  lemma SerialDone<D(!new)>(job: Job<D>, s: State<D>, ready: seq<nat>)
    requires Good(job, s) && Queued(job, s, ready, |ready|)
    ensures var reference := ProgramOrder(job, |job.g.ops|);
            && (s.ok <==> reference.Some?)
            && (s.ok ==> s.store == reference.value)
    ensures |s.completion| == |job.g.ops|
    ensures forall i: nat | i < |s.completion| :: s.completion[i] > 0 <==> i in job.candidates
    ensures NumbersFollowEdges(job, s.completion)
    ensures forall i <- s.ran :: i < |job.g.ops| && i in job.candidates
    ensures s.ok ==> forall i: nat | i < |job.g.ops| :: i in s.ran <==> Runs(job, i)
  {
    QueueDone(job, s, ready);
    RestAgrees(job, s);
    RestNumbers(job, s);
    if s.ok {
      forall i: nat | i < |job.g.ops| ensures i in s.ran <==> Runs(job, i) {
        RestRan(job, s, i);
      }
    }
  }

  /** Operation `i` is a candidate that is a seed, reads a changed leaf, or reads
      a value that program order makes another than the retained one. */
  ghost predicate Runs<D>(job: Job<D>, i: nat) {
    && i in job.candidates && ProgramOrder(job, |job.g.ops|).Some?
    && (i in job.seeded || ReadsNews(job, ProgramOrder(job, |job.g.ops|).value, i))
  }

  /** The one-thread execution. It reports success exactly when running every
      operation in program order succeeds, leaves that run's store, numbers its
      candidates topologically, and runs no body whose inputs did not change. */
  method ExecuteSerial<D(!new,==)>(job: Job<D>, stale: seq<int>)
    returns (store: Store<D>, ok: bool, completion: seq<nat>, ran: set<nat>)
    requires ValidJob(job) && |stale| == |job.g.clusters|
    ensures var reference := ProgramOrder(job, |job.g.ops|);
            && (ok <==> reference.Some?)
            && (ok ==> store == reference.value)
    ensures |completion| == |job.g.ops|
    ensures forall i: nat | i < |completion| :: completion[i] > 0 <==> i in job.candidates
    ensures NumbersFollowEdges(job, completion)
    ensures forall i <- ran :: i < |job.g.ops| && i in job.candidates
    ensures ok ==> forall i: nat | i < |job.g.ops| :: i in ran <==> Runs(job, i)
  {
    var n := |job.g.clusters|;
    hide *;
    var unresolved, ready := Prepare(job, stale);
    ghost var s := InitialGood(job, unresolved, ready);
    store, ok := job.start, true;
    var changed := job.changedLeaves;
    ran := {};
    completion := seq(|job.g.ops|, _ => 0);
    var finished := 0;
    var at := 0;
    while at < |ready|
      invariant Good(job, s) && Queued(job, s, ready, at) && at <= |ready| <= n
      invariant s.store == store && s.changed == changed && s.ran == ran && s.ok == ok
      invariant s.unresolved == unresolved && s.completion == completion && s.sequence == finished
      decreases n - at
    {
      var c := ready[at];
      s := BeginAt(job, s, ready, at);
      ghost var begun := s;
      s, store, changed, ran, ok := RunMembers(job, s, c, store, changed, ran, ok);
      ghost var counted := FinishAt(job, begun, s, ready, at);
      FinishResult(job, s, c);
      completion, finished := Complete(job, s, c, completion, finished);
      s, unresolved, ready := ReleaseSuccessors(job, counted, c, unresolved, ready, at);
      s := RetireAt(job, s, ready, at);
      at := at + 1;
    }
    SerialDone(job, s, ready);
  }

  // ---- From a request to a result ------------------------------------------------------

  /** What the caller of an execution keeps from frame to frame: operations no
      list makes mandatory still hold what they would compute, and only the
      changed leaves were published anew. */
  ghost predicate UpToDate<D(!new)>(
      g: Graph, body: (nat, Store<D>) -> Option<Store<D>>, retained: Store<D>, start: Store<D>, r: Request)
  {
    var job := Job(g, body, retained, start, Elements(r.changedLeaves), {}, {});
    && Runnable(g) && PublishesDeclared(g, body) && ReadersComplete(g, r.readers)
    && (forall v <- r.readers.Keys :: InRange(r.readers[v], |g.ops|))
    && (forall v <- r.changedLeaves :: Leaf(g.ops, v))
    && (forall v: ValueId | v !in r.changedLeaves :: SameAt(v, retained, start))
    && (forall i: nat | i < |g.ops| && !(r.force || i in r.seedOps || i in r.volatileOps) ::
          Consistent(job, retained, i))
  }

  lemma RequestedJobIsValid<D(!new)>(job: Job<D>, r: Request)
    requires UpToDate(job.g, job.body, job.retained, job.start, r) && job.changedLeaves == Elements(r.changedLeaves)
    requires forall i: nat :: i in job.seeded <==>
               i < |job.g.ops| && (r.force || i in r.seedOps || i in r.volatileOps)
    requires forall i: nat :: i in job.candidates <==>
               i < |job.g.ops| && ReachedFrom(OpEdges(job.g.ops), Sources(job.g, r), i)
    ensures ValidJob(job)
  {
    hide ForwardEdges, SingleProducers, Partition, ClusterEdges, Acyclic, ReachedFrom, OpEdges, Sources,
      ReadersComplete, InputsOf;
    CandidatesFit(job.g, r, job.seeded, job.candidates);
    forall i: nat | i < |job.g.ops| && i !in job.seeded ensures Consistent(job, job.retained, i) {
      var bare := Job(job.g, job.body, job.retained, job.start, Elements(r.changedLeaves), {}, {});
      assert Consistent(bare, job.retained, i);
    }
  }

  lemma RequestShape<D(!new)>(
      g: Graph, body: (nat, Store<D>) -> Option<Store<D>>, retained: Store<D>, start: Store<D>, r: Request)
    requires UpToDate(g, body, retained, start, r)
    ensures ForwardEdges(g.ops) && forall v <- r.readers.Keys :: InRange(r.readers[v], |g.ops|)
  {}

  function TrueAt(marks: seq<bool>): (s: set<nat>)
    ensures forall i: nat :: i in s <==> i < |marks| && marks[i]
  {
    set i: nat | i < |marks| && marks[i]
  }

  /** One execution on one thread, from its lists to its store: refused exactly
      when a list is out of range, and otherwise it succeeds exactly when running
      everything in program order does, leaves the same store, numbers exactly
      the operations its sources reach, and runs those of them that are mandatory
      or read a changed leaf or a value that came out another than retained. */
  method Execute<D(!new,==)>(
      g: Graph, body: (nat, Store<D>) -> Option<Store<D>>, retained: Store<D>, start: Store<D>, r: Request,
      stale: seq<int>)
    returns (admitted: bool, store: Store<D>, ok: bool, completion: seq<nat>, ran: set<nat>)
    requires UpToDate(g, body, retained, start, r) && |stale| == |g.clusters|
    ensures admitted <==> Admissible(g, r)
    ensures
      var reference := ProgramOrder(Job(g, body, retained, start, {}, {}, {}), |g.ops|);
      admitted ==> (ok <==> reference.Some?) && (ok ==> store == reference.value)
    ensures admitted ==> |completion| == |g.ops| && forall i: nat | i < |completion| ::
              completion[i] > 0 <==> ReachedFrom(OpEdges(g.ops), Sources(g, r), i)
    ensures
      var reference := ProgramOrder(Job(g, body, retained, start, {}, {}, {}), |g.ops|);
      admitted && ok ==> forall i: nat | i < |g.ops| :: i in ran <==>
        && ReachedFrom(OpEdges(g.ops), Sources(g, r), i)
        && (r.force || i in r.seedOps || i in r.volatileOps
            || exists v <- g.ops[i].inputs :: v in r.changedLeaves || !SameAt(v, retained, reference.value))
  {
    hide UpToDate, ReachedFrom, OpEdges, Sources, ValidJob, ProgramOrder, Admissible;
    RequestShape(g, body, retained, start, r);
    var wave := Candidates(g, r);
    if wave.None? {
      return false, start, false, [], {};
    }
    var m := wave.value;
    var seeded, candidates := TrueAt(m.seeded), TrueAt(m.candidates);
    var job := Job(g, body, retained, start, Elements(r.changedLeaves), seeded, candidates);
    RequestedJobIsValid(job, r);
    store, ok, completion, ran := ExecuteSerial(job, stale);
    SameProgramOrder(job, Job(g, body, retained, start, {}, {}, {}), |g.ops|);
    admitted := true;
  }
}
