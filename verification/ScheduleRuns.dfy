/** Every interleaving of a clustered schedule: a cluster starts once its
    predecessors have finished and runs its members in order. A run may leave
    clean clusters out, which is how a cone is re-executed. */
module ScheduleRuns {
  import opened FiniteSets
  import opened Digraphs
  import opened OpGraph
  import opened BakedRuns
  import Executor

  datatype Task<!D> = Idle | AtMember(at: nat) | InBody(at: nat, held: Store<D>) | Finished

  /** `done` and `order` are history: the steps done, and the steps run in the
      order they ended. */
  datatype State<!D> = State(store: Store<D>, tasks: seq<Task<D>>, done: set<nat>, order: seq<nat>)

  datatype Action = Start(c: nat) | Enter(c: nat) | Leave(c: nat) | Finish(c: nat)

  function Members(g: Graph, c: nat): seq<nat>
    requires c < |g.clusters|
  {
    g.clusters[c].members
  }

  ghost predicate Enabled<D>(p: Program<D>, s: State<D>, a: Action) {
    && a.c < |p.g.clusters| == |s.tasks|
    && var members, task := Members(p.g, a.c), s.tasks[a.c];
    match a
    case Start(c) => task.Idle? && forall d <- p.g.clusters[c].preds :: d < |s.tasks| ==> s.tasks[d].Finished?
    case Enter(c) => task.AtMember? && task.at < |members| && members[task.at] < |p.g.ops|
    case Leave(c) => task.InBody? && task.at < |members| && members[task.at] < |p.g.ops|
    case Finish(c) => task.AtMember? && task.at == |members|
  }

  ghost function Next<D>(p: Program<D>, s: State<D>, a: Action): State<D>
    requires Enabled(p, s, a)
  {
    var members, task := Members(p.g, a.c), s.tasks[a.c];
    match a
    case Start(c) => s.(tasks := s.tasks[c := AtMember(0)])
    case Enter(c) => s.(tasks := s.tasks[c := InBody(task.at, Executor.InputsOf(p.g, s.store, members[task.at]))])
    case Leave(c) =>
      var i := members[task.at];
      State(s.store + p.effect(i, task.held), s.tasks[c := AtMember(task.at + 1)], s.done + {i}, s.order + [i])
    case Finish(c) => s.(tasks := s.tasks[c := Finished])
  }

  /** The steps of the clusters left out. */
  ghost function CleanSteps(g: Graph, dirty: set<nat>): set<nat>
    requires |g.opClusters| == |g.ops|
  {
    set i | i in Naturals(|g.ops|) && g.opClusters[i] !in dirty
  }

  /** Whatever follows a dirty cluster is dirty. */
  ghost predicate Downstream(g: Graph, dirty: set<nat>) {
    forall c: nat, d: nat | c < |g.clusters| && d < |g.clusters| && d in g.clusters[c].preds && d in dirty :: c in dirty
  }

  /** The clusters to run include whatever follows one of them, and the slots
      hold what the steps left out would write. */
  ghost predicate Startable<D(!new)>(p: Program<D>, dirty: set<nat>) {
    && ValidProgram(p) && Downstream(p.g, dirty)
    && Current(p, p.start, CleanSteps(p.g, dirty))
  }

  ghost function InitialState<D>(p: Program<D>, dirty: set<nat>): State<D>
    requires |p.g.opClusters| == |p.g.ops|
  {
    State(p.start, seq(|p.g.clusters|, c requires 0 <= c < |p.g.clusters| => if c in dirty then Idle else Finished),
      CleanSteps(p.g, dirty), [])
  }

  ghost predicate Interleaves<D(!new)>(p: Program<D>, dirty: set<nat>, states: seq<State<D>>, actions: seq<Action>)
    requires |p.g.opClusters| == |p.g.ops|
  {
    && |states| == |actions| + 1
    && states[0] == InitialState(p, dirty)
    && forall k | 0 <= k < |actions| ::
          Enabled(p, states[k], actions[k]) && states[k + 1] == Next(p, states[k], actions[k])
  }

  ghost predicate IsRun<D(!new)>(p: Program<D>, dirty: set<nat>, states: seq<State<D>>, actions: seq<Action>) {
    Startable(p, dirty) && Interleaves(p, dirty, states, actions)
  }

  // ---- The invariant -------------------------------------------------------------------

  function Progress<D>(p: Program<D>, s: State<D>, c: nat): nat
    requires c < |p.g.clusters| == |s.tasks|
  {
    match s.tasks[c]
    case Idle => 0
    case AtMember(at) => at
    case InBody(at, held) => at
    case Finished => |Members(p.g, c)|
  }

  /** A cluster's steps done are the members it has passed. */
  ghost predicate DoneIs<D>(p: Program<D>, s: State<D>)
    requires |p.g.clusters| == |s.tasks|
  {
    && (forall i: nat | i in s.done :: i < |p.g.ops|)
    && forall c: nat, k: nat | c < |p.g.clusters| && k < |Members(p.g, c)| ::
         Members(p.g, c)[k] in s.done <==> k < Progress(p, s, c)
  }

  ghost predicate Placed<D>(p: Program<D>, s: State<D>) {
    && |p.g.clusters| == |s.tasks|
    && forall c: nat | c < |s.tasks| ::
         && Progress(p, s, c) <= |Members(p.g, c)|
         && (s.tasks[c].InBody? ==> s.tasks[c].at < |Members(p.g, c)| && Members(p.g, c)[s.tasks[c].at] < |p.g.ops|)
  }

  /** A body in flight holds the inputs its turn in program order would give it. */
  ghost predicate Held<D>(p: Program<D>, s: State<D>)
    requires Placed(p, s)
  {
    forall c: nat | c < |s.tasks| && s.tasks[c].InBody? ::
      var i := Members(p.g, c)[s.tasks[c].at];
      s.tasks[c].held == Executor.InputsOf(p.g, InOrder(p, i), i)
  }

  ghost predicate Started<D>(p: Program<D>, s: State<D>)
    requires |p.g.clusters| == |s.tasks|
  {
    forall c: nat, d: nat | c < |s.tasks| && d < |s.tasks| && !s.tasks[c].Idle? && d in p.g.clusters[c].preds ::
      s.tasks[d].Finished?
  }

  /** The steps run so far: those done of the dirty clusters, each once, each
      after its predecessors. */
  ghost predicate History<D>(p: Program<D>, dirty: set<nat>, s: State<D>)
    requires |p.g.opClusters| == |p.g.ops|
  {
    && (forall i: nat :: i in s.order <==> i in s.done && i !in CleanSteps(p.g, dirty))
    && (forall j, k | 0 <= j < k < |s.order| :: s.order[j] != s.order[k])
    && (forall k, j | 0 <= k < |s.order| && s.order[k] < |p.g.ops| && j in p.g.ops[s.order[k]].preds ::
          j in CleanSteps(p.g, dirty) || j in s.order[..k])
  }

  ghost predicate Inv<D(!new)>(p: Program<D>, dirty: set<nat>, s: State<D>) {
    && ValidProgram(p)
    && Placed(p, s) && DoneIs(p, s) && Held(p, s) && Started(p, s)
    && ClosedBack(p.g, s.done) && Current(p, s.store, s.done)
    && History(p, dirty, s)
  }

  lemma StartInv<D(!new)>(p: Program<D>, dirty: set<nat>)
    requires Startable(p, dirty)
    ensures Inv(p, dirty, InitialState(p, dirty))
  {
    hide Current, InOrder, ConflictsOrdered;
    var s := InitialState(p, dirty);
    forall c: nat, k: nat | c < |p.g.clusters| && k < |Members(p.g, c)|
      ensures Members(p.g, c)[k] in s.done <==> k < Progress(p, s, c)
    {
      MemberInRange(p.g, c, k);
    }
    forall i: nat | i in s.done ensures PredsIn(p.g, i, s.done) {
      CleanPreds(p.g, dirty, i);
    }
  }

  lemma CleanPreds(g: Graph, dirty: set<nat>, i: nat)
    requires Orderly(g) && Downstream(g, dirty) && i in CleanSteps(g, dirty)
    ensures PredsIn(g, i, CleanSteps(g, dirty))
  {
    hide ConflictsOrdered;
    forall j <- g.ops[i].preds ensures j in CleanSteps(g, dirty) {
      var c, d := g.opClusters[i], g.opClusters[j];
      assert j < i && (d == c || d in g.clusters[c].preds);
    }
  }

  lemma SmallerIsEarlier(s: seq<nat>, j: nat, k: nat)
    requires StrictlyIncreasing(s) && j < |s| && k < |s| && s[j] < s[k]
    ensures j < k
  {}

  /** The step a cluster is at is not done, and its predecessors are. */
  lemma StepIsReady<D(!new)>(p: Program<D>, dirty: set<nat>, s: State<D>, c: nat)
    requires Inv(p, dirty, s) && c < |s.tasks| && (s.tasks[c].AtMember? || s.tasks[c].InBody?)
    requires s.tasks[c].at < |Members(p.g, c)|
    ensures var i := Members(p.g, c)[s.tasks[c].at];
            && i < |p.g.ops| && p.g.opClusters[i] == c && i !in s.done && PredsIn(p.g, i, s.done)
  {
    hide Current, InOrder, ConflictsOrdered, History, Held, ClosedBack;
    var at := s.tasks[c].at;
    var i := Members(p.g, c)[at];
    MemberInRange(p.g, c, at);
    forall j <- p.g.ops[i].preds ensures j in s.done {
      var d := p.g.opClusters[j];
      assert j < i;
      var k :| 0 <= k < |Members(p.g, d)| && Members(p.g, d)[k] == j;
      if d == c {
        SmallerIsEarlier(Members(p.g, c), k, at);
      } else {
        assert d in p.g.clusters[c].preds && s.tasks[d].Finished?;
      }
    }
  }

  // ---- Every action keeps it -----------------------------------------------------------

  /** A step that only moves a task, past no step and into no body. */
  lemma MovesKeep<D(!new)>(p: Program<D>, dirty: set<nat>, s: State<D>, t: State<D>, c: nat)
    requires Inv(p, dirty, s) && c < |s.tasks| == |t.tasks| && t == s.(tasks := s.tasks[c := t.tasks[c]])
    requires !t.tasks[c].InBody? && !t.tasks[c].Idle? && Progress(p, t, c) == Progress(p, s, c)
    requires s.tasks[c].Finished? ==> t.tasks[c].Finished?
    requires s.tasks[c].Idle? ==> forall d: nat | d < |s.tasks| && d in p.g.clusters[c].preds ::
        s.tasks[d].Finished? && d != c
    ensures Inv(p, dirty, t)
  {
    hide ValidProgram, Current, ClosedBack, History;
    ShapeOf(p);
    SameHistory(p, dirty, s, t);
    forall d: nat | d < |s.tasks| ensures Progress(p, t, d) == Progress(p, s, d) {
      if d != c {
        assert t.tasks[d] == s.tasks[d];
      }
    }
  }

  lemma StartKeeps<D(!new)>(p: Program<D>, dirty: set<nat>, s: State<D>, c: nat)
    requires Inv(p, dirty, s) && Enabled(p, s, Start(c))
    ensures Inv(p, dirty, Next(p, s, Start(c)))
  {
    hide DoneIs, Held, Started, ClosedBack, Current, History, ConflictsOrdered;
    SelfEdgeFree(p.g, c);
    MovesKeep(p, dirty, s, Next(p, s, Start(c)), c);
  }

  lemma FinishKeeps<D(!new)>(p: Program<D>, dirty: set<nat>, s: State<D>, c: nat)
    requires Inv(p, dirty, s) && Enabled(p, s, Finish(c))
    ensures Inv(p, dirty, Next(p, s, Finish(c)))
  {
    hide DoneIs, Held, Started, ClosedBack, Current, History, ValidProgram;
    MovesKeep(p, dirty, s, Next(p, s, Finish(c)), c);
  }

  lemma EnterKeeps<D(!new)>(p: Program<D>, dirty: set<nat>, s: State<D>, c: nat)
    requires Inv(p, dirty, s) && Enabled(p, s, Enter(c))
    ensures Inv(p, dirty, Next(p, s, Enter(c)))
  {
    hide ClosedBack, Current, History, ValidProgram, PredsIn, InOrder;
    StepIsReady(p, dirty, s, c);
    InputsInOrder(p, s.store, s.done, Members(p.g, c)[s.tasks[c].at]);
    var t := Next(p, s, Enter(c));
    ShapeOf(p);
    SameHistory(p, dirty, s, t);
    forall d: nat | d < |s.tasks| ensures Progress(p, t, d) == Progress(p, s, d) {
      if d != c {
        assert t.tasks[d] == s.tasks[d];
      }
    }
  }

  /** A step that ends makes one more member done, and nothing else. */
  lemma LeaveDone<D(!new)>(p: Program<D>, dirty: set<nat>, s: State<D>, c: nat)
    requires Inv(p, dirty, s) && Enabled(p, s, Leave(c))
    ensures var t := Next(p, s, Leave(c)); Placed(p, t) && DoneIs(p, t) && Held(p, t) && Started(p, t)
  {
    hide ClosedBack, Current, History, InOrder, ConflictsOrdered;
    var t, at := Next(p, s, Leave(c)), s.tasks[c].at;
    forall d: nat, k: nat | d < |p.g.clusters| && k < |Members(p.g, d)|
      ensures Members(p.g, d)[k] in t.done <==> k < Progress(p, t, d)
    {
      MemberInRange(p.g, d, k);
      MemberInRange(p.g, c, at);
      if Members(p.g, d)[k] == Members(p.g, c)[at] {
        NoDuplicates(Members(p.g, c), k, at);
      } else if d == c {
        assert k != at;
      } else {
        assert t.tasks[d] == s.tasks[d];
      }
    }
  }

  lemma LeaveHistory<D(!new)>(p: Program<D>, dirty: set<nat>, s: State<D>, i: nat)
    requires |p.g.opClusters| == |p.g.ops| && History(p, dirty, s)
    requires i < |p.g.ops| && i !in s.done && PredsIn(p.g, i, s.done) && i !in CleanSteps(p.g, dirty)
    ensures History(p, dirty, s.(done := s.done + {i}, order := s.order + [i]))
  {
    hide CleanSteps;
    var order := s.order + [i];
    forall k, j | 0 <= k < |order| && order[k] < |p.g.ops| && j in p.g.ops[order[k]].preds
      ensures j in CleanSteps(p.g, dirty) || j in order[..k]
    {
      if k < |s.order| {
        assert order[k] == s.order[k] && order[..k] == s.order[..k];
      } else {
        assert order[..k] == s.order;
      }
    }
  }

  /** A cluster that is running is one of those to run. */
  ghost predicate RunsDirty<D>(dirty: set<nat>, s: State<D>) {
    forall c: nat | c < |s.tasks| && !s.tasks[c].Finished? :: c in dirty
  }

  lemma LeaveKeeps<D(!new)>(p: Program<D>, dirty: set<nat>, s: State<D>, c: nat)
    requires Inv(p, dirty, s) && RunsDirty(dirty, s) && Enabled(p, s, Leave(c))
    ensures Inv(p, dirty, Next(p, s, Leave(c)))
  {
    hide ValidProgram, DoneIs, Started, ClosedBack, Current, History, PredsIn, InOrder;
    var i := Members(p.g, c)[s.tasks[c].at];
    StepIsReady(p, dirty, s, c);
    StepLands(p, s.store, s.done, i);
    LeaveDone(p, dirty, s, c);
    ShapeOf(p);
    LeaveHistory(p, dirty, s, i);
    var t := Next(p, s, Leave(c));
    SameHistory(p, dirty, s.(done := s.done + {i}, order := s.order + [i]), t);
  }

  lemma ShapeOf<D(!new)>(p: Program<D>)
    requires ValidProgram(p)
    ensures |p.g.opClusters| == |p.g.ops|
  {}

  lemma SameHistory<D(!new)>(p: Program<D>, dirty: set<nat>, s: State<D>, t: State<D>)
    requires |p.g.opClusters| == |p.g.ops| && History(p, dirty, s) && t.done == s.done && t.order == s.order
    ensures History(p, dirty, t)
  {}

  lemma DirtyKept<D(!new)>(p: Program<D>, dirty: set<nat>, s: State<D>, a: Action)
    requires Enabled(p, s, a) && RunsDirty(dirty, s)
    ensures RunsDirty(dirty, Next(p, s, a))
  {
    var t := Next(p, s, a);
    forall c: nat | c < |t.tasks| && !t.tasks[c].Finished? ensures c in dirty {
      if c != a.c {
        assert t.tasks[c] == s.tasks[c];
      }
    }
  }

  lemma NextKeeps<D(!new)>(p: Program<D>, dirty: set<nat>, s: State<D>, a: Action)
    requires Inv(p, dirty, s) && RunsDirty(dirty, s) && Enabled(p, s, a)
    ensures Inv(p, dirty, Next(p, s, a)) && RunsDirty(dirty, Next(p, s, a))
  {
    hide Inv, Enabled, Next, RunsDirty;
    DirtyKept(p, dirty, s, a);
    match a {
      case Start(c) => StartKeeps(p, dirty, s, c);
      case Enter(c) => EnterKeeps(p, dirty, s, c);
      case Leave(c) => LeaveKeeps(p, dirty, s, c);
      case Finish(c) => FinishKeeps(p, dirty, s, c);
    }
  }

  /** Every state of every interleaving keeps the invariant: what is done is
      what program order would have made of it. */
  lemma {:induction false} RunKeeps<D(!new)>(
      p: Program<D>, dirty: set<nat>, states: seq<State<D>>, actions: seq<Action>, k: nat)
    requires IsRun(p, dirty, states, actions) && k < |states|
    ensures Inv(p, dirty, states[k]) && RunsDirty(dirty, states[k])
  {
    hide Inv, Enabled, Next, Startable;
    if k == 0 {
      StartInv(p, dirty);
    } else {
      RunKeeps(p, dirty, states, actions, k - 1);
      NextKeeps(p, dirty, states[k - 1], actions[k - 1]);
    }
  }

  // ---- Every run ends, and where -------------------------------------------------------

  ghost predicate Quiescent<D(!new)>(p: Program<D>, s: State<D>) {
    forall a :: !Enabled(p, s, a)
  }

  /** Going back from an unfinished cluster along unfinished predecessors ends
      at one that can move. */
  lemma {:induction false} SomeoneCanMove<D(!new)>(p: Program<D>, dirty: set<nat>, s: State<D>, rank: seq<nat>, c: nat)
    returns (a: Action)
    requires Inv(p, dirty, s) && Ranks(p.g.clusters, rank) && c < |s.tasks| && !s.tasks[c].Finished?
    ensures Enabled(p, s, a)
    decreases rank[c]
  {
    hide DoneIs, Held, Started, ClosedBack, Current, History, ConflictsOrdered;
    var members := Members(p.g, c);
    match s.tasks[c] {
      case Idle =>
        if d :| d in p.g.clusters[c].preds && d < |s.tasks| && !s.tasks[d].Finished? {
          RankStep(p.g.clusters, rank, d, c);
          a := SomeoneCanMove(p, dirty, s, rank, d);
        } else {
          a := Start(c);
        }
      case AtMember(at) =>
        if at < |members| {
          MemberInRange(p.g, c, at);
          a := Enter(c);
        } else {
          a := Finish(c);
        }
      case InBody(at, held) =>
        a := Leave(c);
      case Finished => assert false;
    }
  }

  /** A state in which nothing can move has finished everything: there is no
      deadlock. */
  lemma QuiescentIsFinished<D(!new)>(p: Program<D>, dirty: set<nat>, s: State<D>)
    requires Inv(p, dirty, s) && Quiescent(p, s)
    ensures forall i: nat :: i in s.done <==> i < |p.g.ops|
  {
    hide Held, Started, ClosedBack, Current, History, ConflictsOrdered, Enabled;
    var rank :| Ranks(p.g.clusters, rank);
    forall c: nat | c < |s.tasks| ensures s.tasks[c].Finished? {
      if !s.tasks[c].Finished? {
        var a := SomeoneCanMove(p, dirty, s, rank, c);
      }
    }
    forall i: nat | i < |p.g.ops| ensures i in s.done {
      var c := p.g.opClusters[i];
      var k :| 0 <= k < |Members(p.g, c)| && Members(p.g, c)[k] == i;
      assert k < Progress(p, s, c);
    }
  }

  /** Schedule independence: however the tasks interleave, a run that has come
      to rest has run every step of the clusters to run exactly once, each after
      its predecessors, and leaves the slots program order leaves. */
  lemma RunsAgree<D(!new)>(p: Program<D>, dirty: set<nat>, states: seq<State<D>>, actions: seq<Action>)
    requires IsRun(p, dirty, states, actions) && Quiescent(p, states[|actions|])
    ensures states[|actions|].store == InOrder(p, |p.g.ops|)
    ensures |p.g.opClusters| == |p.g.ops|
    ensures
      var order := states[|actions|].order;
      && (forall i: nat :: i in order <==> i < |p.g.ops| && p.g.opClusters[i] in dirty)
      && (forall j, k | 0 <= j < k < |order| :: order[j] != order[k])
      && (forall k, j | 0 <= k < |order| && order[k] < |p.g.ops| && j in p.g.ops[order[k]].preds && j < |p.g.ops| ::
            p.g.opClusters[j] !in dirty || j in order[..k])
  {
    hide Placed, DoneIs, Held, Started, ClosedBack, Current, Quiescent, InOrder;
    var last := states[|actions|];
    RunKeeps(p, dirty, states, actions, |actions|);
    QuiescentIsFinished(p, dirty, last);
    AllDone(p, last.store, last.done);
  }

  // ---- A full run ----------------------------------------------------------------------

  /** With nothing left out nothing is assumed of the slots. */
  lemma FullRunStarts<D(!new)>(p: Program<D>, dirty: set<nat>)
    requires ValidProgram(p) && forall c: nat | c < |p.g.clusters| :: c in dirty
    ensures Startable(p, dirty)
  {
    hide InOrder, ConflictsOrdered;
    forall v: ValueId, m: nat | m <= |p.g.ops| && Frontier(p.g, CleanSteps(p.g, dirty), v, m)
      ensures Executor.SameAt(v, p.start, InOrder(p, m))
    {
      forall w: nat | w < m ensures !Writes(p.g, w, v) {}
      NotWrittenBetween(p, v, 0, m);
      StartOf(p);
    }
  }

  /** Serial, parallel and any other interleaving of a whole schedule leave the
      same slots, from whatever slots they start. */
  lemma FullRunsAgree<D(!new)>(p: Program<D>, all: set<nat>, states: seq<State<D>>, actions: seq<Action>)
    requires ValidProgram(p) && forall c: nat | c < |p.g.clusters| :: c in all
    requires Interleaves(p, all, states, actions) && Quiescent(p, states[|actions|])
    ensures states[|actions|].store == InOrder(p, |p.g.ops|)
  {
    hide ValidProgram, Interleaves, Quiescent, Startable, InOrder;
    FullRunStarts(p, all);
    RunsAgree(p, all, states, actions);
  }

  lemma StartOf<D>(p: Program<D>)
    ensures InOrder(p, 0) == p.start
  {}

  // ---- How long a run is ---------------------------------------------------------------

  /** The actions cluster `c` has still to take. */
  ghost function Left<D>(p: Program<D>, s: State<D>, c: nat): int
    requires c < |p.g.clusters| == |s.tasks|
  {
    match s.tasks[c]
    case Idle => 2 * |Members(p.g, c)| + 2
    case AtMember(at) => 2 * (|Members(p.g, c)| - at) + 1
    case InBody(at, held) => 2 * (|Members(p.g, c)| - at)
    case Finished => 0
  }

  ghost function LeftBefore<D>(p: Program<D>, s: State<D>, n: nat): int
    requires n <= |p.g.clusters| == |s.tasks|
  {
    if n == 0 then 0 else LeftBefore(p, s, n - 1) + Left(p, s, n - 1)
  }

  lemma {:induction false} OneLess<D(!new)>(p: Program<D>, s: State<D>, a: Action, n: nat)
    requires Enabled(p, s, a) && n <= |s.tasks|
    ensures LeftBefore(p, Next(p, s, a), n) == LeftBefore(p, s, n) - if a.c < n then 1 else 0
  {
    if n > 0 {
      OneLess(p, s, a, n - 1);
      assert n - 1 != a.c ==> Next(p, s, a).tasks[n - 1] == s.tasks[n - 1];
    }
  }

  lemma {:induction false} LeftIsNotNegative<D(!new)>(p: Program<D>, s: State<D>, n: nat)
    requires Placed(p, s) && n <= |s.tasks|
    ensures LeftBefore(p, s, n) >= 0
  {
    if n > 0 {
      LeftIsNotNegative(p, s, n - 1);
      assert Progress(p, s, n - 1) <= |Members(p.g, n - 1)|;
    }
  }

  /** No run takes more actions than its first state has to take. */
  lemma {:induction false} RunsAreBounded<D(!new)>(
      p: Program<D>, dirty: set<nat>, states: seq<State<D>>, actions: seq<Action>, k: nat)
    requires IsRun(p, dirty, states, actions) && k <= |actions|
    ensures |states[k].tasks| == |p.g.clusters| == |states[0].tasks|
    ensures k + LeftBefore(p, states[k], |p.g.clusters|) == LeftBefore(p, states[0], |p.g.clusters|)
    ensures k <= LeftBefore(p, states[0], |p.g.clusters|)
  {
    hide Startable, LeftBefore;
    RunKeeps(p, dirty, states, actions, k);
    LeftIsNotNegative(p, states[k], |p.g.clusters|);
    if k > 0 {
      RunsAreBounded(p, dirty, states, actions, k - 1);
      OneLess(p, states[k - 1], actions[k - 1], |p.g.clusters|);
    }
  }
}
