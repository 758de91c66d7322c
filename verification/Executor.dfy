/** The readiness and change-propagation executor of the op graph, as a state
    machine over what its tasks do: one dispatched task per cluster, an atomic
    count of unfinished predecessors deciding what becomes runnable, and a
    body split where another task can interleave with it. */
module Executor {
  import opened Options
  import opened OpGraph

  /** A store of values; a value id without an entry was never published. */
  type Store<!D> = map<ValueId, D>

  /** One execution's fixed inputs. `body(i, inputs)` is operation `i`'s body:
      its published values, or None when it gives the run back. `retained` is
      the store the last execution left, `start` the store after this
      generation's leaves were published over it. */
  datatype Job<!D> = Job(
    g: Graph,
    body: (nat, Store<D>) -> Option<Store<D>>,
    retained: Store<D>,
    start: Store<D>,
    changedLeaves: set<ValueId>,
    seeded: set<nat>,
    candidates: set<nat>)

  /** Where one cluster's task stands. `at` indexes the member it is about to
      look at; once it has found that no body has failed, the member is checked
      and may still run after another fails; inside a body it holds the inputs
      that body read. */
  datatype Task<!D> =
    | Waiting
    | Ready
    | AtMember(at: nat)
    | Checked(at: nat)
    | InBody(at: nat, held: Store<D>)
    | Releasing(next: nat)
    | Finished

  /** `settled` is a history variable: the operations whose outputs are this
      generation's values. `completion` numbers from 1, zero meaning unnumbered. */
  datatype State<!D> = State(
    store: Store<D>,
    changed: set<ValueId>,
    unresolved: seq<int>,
    tasks: seq<Task<D>>,
    ran: set<nat>,
    settled: set<nat>,
    completion: seq<nat>,
    sequence: nat,
    ok: bool)

  /** One thing one task does. A leaving body may flag more of its outputs than
      moved, and a failing one may have published some of them. */
  datatype Action<!D> =
    | Begin(c: nat)
    | Pass(c: nat)
    | Check(c: nat)
    | Enter(c: nat)
    | Leave(c: nat, flagged: set<ValueId>, partial: Store<D>)
    | Finish(c: nat)
    | Release(c: nat)
    | Retire(c: nat)

  // ---- Bodies ---------------------------------------------------------------------

  /** The entries of the store under some of its keys. */
  function Gather<D>(keys: seq<ValueId>, store: Store<D>): (found: Store<D>)
    ensures forall v :: v in found <==> v in keys && v in store
    ensures forall v | v in found :: found[v] == store[v]
  {
    if keys == [] then map[]
    else
      var rest := Gather(keys[1..], store);
      if keys[0] in store then rest[keys[0] := store[keys[0]]] else rest
  }

  function InputsOf<D>(g: Graph, store: Store<D>, i: nat): (inputs: Store<D>)
    requires i < |g.ops|
    ensures forall v :: v in inputs <==> v in g.ops[i].inputs && v in store
    ensures forall v | v in inputs :: inputs[v] == store[v]
  {
    Gather(g.ops[i].inputs, store)
  }

  function OutputSet(g: Graph, i: nat): set<ValueId>
    requires i < |g.ops|
  {
    set v | v in g.ops[i].outputs
  }

  /** The store holds what operation `i` computes from the store. */
  ghost predicate Consistent<D>(job: Job<D>, store: Store<D>, i: nat)
    requires i < |job.g.ops|
  {
    var out := job.body(i, InputsOf(job.g, store, i));
    out.Some? && forall v <- out.value.Keys :: v in store && store[v] == out.value[v]
  }

  ghost predicate SameAt<D>(v: ValueId, a: Store<D>, b: Store<D>) {
    (v in a <==> v in b) && (v in a ==> a[v] == b[v])
  }

  /** What the callers of the executor establish. Bodies publish exactly their
      declared outputs; leaves differ from the retained store only where flagged;
      every operation outside the seeds was consistent when the last execution
      ended; candidates hold the seeds and the readers of changed leaves and are
      closed under successors. */
  ghost predicate ValidJob<D(!new)>(job: Job<D>) {
    var g := job.g;
    && Runnable(g)
    && (forall i: nat, inputs | i < |g.ops| && job.body(i, inputs).Some? ::
          job.body(i, inputs).value.Keys == OutputSet(g, i))
    && (forall v <- job.changedLeaves :: Leaf(g.ops, v))
    && (forall v: ValueId | v !in job.changedLeaves :: SameAt(v, job.retained, job.start))
    && (forall i | 0 <= i < |g.ops| && i !in job.seeded :: Consistent(job, job.retained, i))
    && job.seeded <= job.candidates
    && (forall i <- job.candidates :: i < |g.ops|)
    && (forall i, v | 0 <= i < |g.ops| && v in g.ops[i].inputs && v in job.changedLeaves :: i in job.candidates)
    && (forall i, j | 0 <= i < |g.ops| && j in g.ops[i].preds && j in job.candidates :: i in job.candidates)
  }

  /** Program order on one thread, every body run: the reference execution of the
      first `n` operations. */
  function ProgramOrder<D>(job: Job<D>, n: nat): Option<Store<D>>
    requires n <= |job.g.ops|
  {
    if n == 0 then Some(job.start)
    else
      var before := ProgramOrder(job, n - 1);
      if before.None? then None
      else
        var out := job.body(n - 1, InputsOf(job.g, before.value, n - 1));
        if out.None? then None else Some(before.value + out.value)
  }

  // ---- The machine ----------------------------------------------------------------

  predicate CandidateCluster<D>(job: Job<D>, c: nat)
    requires c < |job.g.clusters|
  {
    exists i <- job.g.clusters[c].members :: i in job.candidates
  }

  /** Predecessor `p` of `c` has already counted itself off. */
  ghost predicate Released<D>(job: Job<D>, s: State<D>, p: nat, c: nat)
    requires p < |job.g.clusters| == |s.tasks|
  {
    s.tasks[p].Finished?
    || (s.tasks[p].Releasing? && exists k | 0 <= k < s.tasks[p].next && k < |job.g.clusters[p].succs| ::
          job.g.clusters[p].succs[k] == c)
  }

  /** The candidate predecessors `c` still waits for. */
  ghost function Pending<D>(job: Job<D>, s: State<D>, c: nat): set<nat>
    requires c < |job.g.clusters| == |s.tasks|
  {
    set p: nat | p in job.g.clusters[c].preds && p < |job.g.clusters|
                 && CandidateCluster(job, p) && !Released(job, s, p, c)
  }

  ghost predicate Initial<D>(job: Job<D>, s: State<D>)
  {
    var n := |job.g.clusters|;
    && s.store == job.start
    && s.changed == job.changedLeaves
    && |s.tasks| == |s.unresolved| == n
    && (forall c | 0 <= c < n :: s.tasks[c] ==
          if CandidateCluster(job, c) && |Pending(job, s, c)| == 0 then Ready else Waiting)
    && (forall c | 0 <= c < n && CandidateCluster(job, c) :: s.unresolved[c] == |Pending(job, s, c)|)
    && s.ran == {}
    && s.settled == (set i: nat | i < |job.g.ops| && i !in job.candidates)
    && s.completion == seq(|job.g.ops|, _ => 0)
    && s.sequence == 0
    && s.ok
  }

  predicate Needed<D>(job: Job<D>, s: State<D>, i: nat)
    requires i < |job.g.ops|
  {
    i in job.seeded || exists v <- job.g.ops[i].inputs :: v in s.changed
  }

  /** The member cluster `c`'s task is at, when it is at one. */
  ghost predicate AtOp<D>(job: Job<D>, s: State<D>, c: nat) {
    && c < |s.tasks| && c < |job.g.clusters|
    && (s.tasks[c].AtMember? || s.tasks[c].Checked?)
    && s.tasks[c].at < |job.g.clusters[c].members|
    && job.g.clusters[c].members[s.tasks[c].at] < |job.g.ops|
  }

  ghost predicate InOp<D>(job: Job<D>, s: State<D>, c: nat) {
    && c < |s.tasks| && c < |job.g.clusters|
    && s.tasks[c].InBody?
    && s.tasks[c].at < |job.g.clusters[c].members|
    && job.g.clusters[c].members[s.tasks[c].at] < |job.g.ops|
  }

  ghost function Current<D>(job: Job<D>, s: State<D>, c: nat): nat
    requires AtOp(job, s, c) || InOp(job, s, c)
  {
    job.g.clusters[c].members[s.tasks[c].at]
  }

  ghost predicate Enabled<D>(job: Job<D>, s: State<D>, a: Action<D>) {
    && a.c < |s.tasks| && a.c < |job.g.clusters|
    && match a
       case Begin(c) => s.tasks[c].Ready?
       case Pass(c) => AtOp(job, s, c)
                       && var i := Current(job, s, c);
                       if s.tasks[c].Checked? then !Needed(job, s, i) else !(i in job.candidates && s.ok)
       case Check(c) => AtOp(job, s, c) && s.tasks[c].AtMember? && Current(job, s, c) in job.candidates && s.ok
       case Enter(c) => AtOp(job, s, c) && s.tasks[c].Checked? && Needed(job, s, Current(job, s, c))
       case Leave(c, flagged, partial) => InOp(job, s, c)
       case Finish(c) => s.tasks[c].AtMember? && s.tasks[c].at == |job.g.clusters[c].members|
       case Release(c) => s.tasks[c].Releasing? && s.tasks[c].next < |job.g.clusters[c].succs|
                          && var next := job.g.clusters[c].succs[s.tasks[c].next];
                          next < |job.g.clusters| && next < |s.tasks| && next < |s.unresolved|
       case Retire(c) => s.tasks[c].Releasing? && s.tasks[c].next == |job.g.clusters[c].succs|
  }

  /** How many of the first `k` members are candidates. */
  ghost function CandidatesBefore<D>(job: Job<D>, c: nat, k: nat): nat
    requires c < |job.g.clusters| && k <= |job.g.clusters[c].members|
  {
    if k == 0 then 0
    else CandidatesBefore(job, c, k - 1) + if job.g.clusters[c].members[k - 1] in job.candidates then 1 else 0
  }

  /** The completion numbers after cluster `c` numbered its first `k` members. */
  ghost function Numbered<D>(job: Job<D>, s: State<D>, c: nat, k: nat): (r: seq<nat>)
    requires c < |job.g.clusters| && k <= |job.g.clusters[c].members|
    ensures |r| == |s.completion|
  {
    if k == 0 then s.completion
    else
      var before := Numbered(job, s, c, k - 1);
      var i := job.g.clusters[c].members[k - 1];
      if i in job.candidates && i < |s.completion| then
        before[i := s.sequence + CandidatesBefore(job, c, k - 1) + 1]
      else before
  }

  function Moved<D(==)>(store: Store<D>, out: Store<D>): set<ValueId> {
    set v | v in out && (v !in store || store[v] != out[v])
  }

  ghost function Step<D>(job: Job<D>, s: State<D>, a: Action<D>): State<D>
    requires Enabled(job, s, a)
  {
    match a
    case Begin(c) =>
      s.(tasks := s.tasks[c := AtMember(0)])
    case Pass(c) =>
      var i := Current(job, s, c);
      s.(tasks := s.tasks[c := AtMember(s.tasks[c].at + 1)],
         settled := if s.ok then s.settled + {i} else s.settled)
    case Check(c) =>
      s.(tasks := s.tasks[c := Checked(s.tasks[c].at)])
    case Enter(c) =>
      var i := Current(job, s, c);
      s.(tasks := s.tasks[c := InBody(s.tasks[c].at, InputsOf(job.g, s.store, i))],
         ran := s.ran + {i})
    case Leave(c, flagged, partial) =>
      var i := Current(job, s, c);
      var out := job.body(i, s.tasks[c].held);
      var after := s.tasks[c := AtMember(s.tasks[c].at + 1)];
      var declared := OutputSet(job.g, i);
      if out.Some? then
        s.(tasks := after,
           store := s.store + out.value,
           changed := s.changed + (Moved(s.store, out.value) + flagged) * declared,
           settled := s.settled + {i})
      else
        s.(tasks := after,
           store := s.store + (partial - (partial.Keys - declared)),
           changed := s.changed + flagged * declared,
           ok := false)
    case Finish(c) =>
      var m := |job.g.clusters[c].members|;
      s.(tasks := s.tasks[c := Releasing(0)],
         completion := Numbered(job, s, c, m),
         sequence := s.sequence + CandidatesBefore(job, c, m))
    case Release(c) =>
      var next := job.g.clusters[c].succs[s.tasks[c].next];
      var after := s.tasks[c := Releasing(s.tasks[c].next + 1)];
      if CandidateCluster(job, next) then
        s.(tasks := if s.unresolved[next] == 1 then after[next := Ready] else after,
           unresolved := s.unresolved[next := s.unresolved[next] - 1])
      else
        s.(tasks := after)
    case Retire(c) =>
      s.(tasks := s.tasks[c := Finished])
  }

  /** The states of a run: each the next one's predecessor by an enabled action. */
  ghost predicate IsRun<D>(job: Job<D>, states: seq<State<D>>, actions: seq<Action<D>>) {
    && |states| == |actions| + 1
    && Initial(job, states[0])
    && forall k | 0 <= k < |actions| ::
         Enabled(job, states[k], actions[k]) && states[k + 1] == Step(job, states[k], actions[k])
  }

  ghost predicate Quiescent<D(!new)>(job: Job<D>, s: State<D>) {
    forall a: Action<D> :: !Enabled(job, s, a)
  }
}
