/** The numbers the executor gives its candidates as their clusters finish. */
module CompletionOrder {
  import opened OpGraph
  import opened Executor
  import opened ExecutorSafety
  import opened ExecutorResults

  /** Cluster `c` has numbered its members. */
  ghost predicate Counted<D>(s: State<D>, c: nat)
    requires c < |s.tasks|
  {
    s.tasks[c].Releasing? || s.tasks[c].Finished?
  }

  ghost function NumberedOps<D>(s: State<D>): set<nat> {
    set i: nat | i < |s.completion| && s.completion[i] > 0
  }

  /** Numbered operations are the candidates of counted clusters; the numbers run
      from 1 to `sequence`, each used once, and every predecessor's is smaller. */
  ghost predicate Numbering<D>(job: Job<D>, s: State<D>)
    requires Partition(job.g) && Shape(job, s)
  {
    var n := |job.g.ops|;
    && (forall i | 0 <= i < n :: s.completion[i] > 0 <==> i in job.candidates && Counted(s, job.g.opClusters[i]))
    && (forall i | 0 <= i < n :: s.completion[i] <= s.sequence)
    && (forall i, j | 0 <= i < n && 0 <= j < n && s.completion[i] == s.completion[j] > 0 :: i == j)
    && (forall i, j | 0 <= i < n && j in job.g.ops[i].preds && j < n && j in job.candidates && s.completion[i] > 0 ::
          0 < s.completion[j] < s.completion[i])
    && |NumberedOps(s)| == s.sequence
  }

  /** A candidate's number is larger than those of its candidate predecessors. */
  ghost predicate NumbersFollowEdges<D>(job: Job<D>, number: seq<nat>) {
    forall i: nat, j: nat
      | i in job.candidates && j in job.candidates && i < |number| && i < |job.g.ops| && j in job.g.ops[i].preds ::
        j < |number| ==> number[j] < number[i]
  }

  lemma InitialNumbering<D(!new)>(job: Job<D>, s: State<D>)
    requires ValidJob(job) && Initial(job, s) && Shape(job, s)
    ensures Numbering(job, s)
  {
    assert NumberedOps(s) == {};
  }

  /** Numbering touches exactly the candidates among the first `k` members. */
  lemma {:induction false} NumberedUnchanged<D>(job: Job<D>, s: State<D>, c: nat, k: nat, i: nat)
    requires c < |job.g.clusters| && k <= |job.g.clusters[c].members| && i < |s.completion|
    requires i !in job.candidates || forall p | 0 <= p < k :: job.g.clusters[c].members[p] != i
    ensures Numbered(job, s, c, k)[i] == s.completion[i]
  {
    if k > 0 {
      NumberedUnchanged(job, s, c, k - 1, i);
    }
  }

  lemma {:induction false} NumberedAt<D>(job: Job<D>, s: State<D>, c: nat, k: nat, p: nat)
    requires Partition(job.g) && Shape(job, s)
    requires c < |job.g.clusters| && p < k <= |job.g.clusters[c].members|
    requires job.g.clusters[c].members[p] in job.candidates
    ensures job.g.clusters[c].members[p] < |s.completion|
    ensures Numbered(job, s, c, k)[job.g.clusters[c].members[p]] == s.sequence + CandidatesBefore(job, c, p) + 1
  {
    MemberInRange(job.g, c, p);
    if p < k - 1 {
      NumberedAt(job, s, c, k - 1, p);
      assert job.g.clusters[c].members[p] < job.g.clusters[c].members[k - 1];
    }
  }

  lemma {:induction false} CandidatesIncrease<D>(job: Job<D>, c: nat, p: nat, q: nat)
    requires c < |job.g.clusters| && p < q <= |job.g.clusters[c].members|
    ensures CandidatesBefore(job, c, p) + (if job.g.clusters[c].members[p] in job.candidates then 1 else 0)
         <= CandidatesBefore(job, c, q)
  {
    if p + 1 < q {
      CandidatesIncrease(job, c, p, q - 1);
    }
  }

  ghost function CandidateMembers<D>(job: Job<D>, c: nat, k: nat): set<nat>
    requires c < |job.g.clusters| && k <= |job.g.clusters[c].members|
  {
    if k == 0 then {}
    else
      var i := job.g.clusters[c].members[k - 1];
      CandidateMembers(job, c, k - 1) + if i in job.candidates then {i} else {}
  }

  lemma {:induction false} CandidateMembersUpTo<D>(job: Job<D>, c: nat, k: nat, i: nat)
    requires c < |job.g.clusters| && k <= |job.g.clusters[c].members|
    ensures i in CandidateMembers(job, c, k) <==>
              i in job.candidates && exists p :: 0 <= p < k && job.g.clusters[c].members[p] == i
  {
    if k > 0 {
      CandidateMembersUpTo(job, c, k - 1, i);
    }
  }

  lemma CandidateMembersMeaning<D>(job: Job<D>, c: nat, i: nat)
    requires Partition(job.g) && c < |job.g.clusters|
    ensures i in CandidateMembers(job, c, |job.g.clusters[c].members|) <==> NewlyNumbered(job, c, i)
  {
    var members := job.g.clusters[c].members;
    CandidateMembersUpTo(job, c, |members|, i);
    if p :| 0 <= p < |members| && members[p] == i {
      MemberInRange(job.g, c, p);
    }
    if i < |job.g.ops| && job.g.opClusters[i] == c {
      var p := PositionOf(job.g, i);
    }
  }

  lemma {:induction false} CandidateMembersCount<D>(job: Job<D>, c: nat, k: nat)
    requires c < |job.g.clusters| && k <= |job.g.clusters[c].members|
    requires StrictlyIncreasing(job.g.clusters[c].members)
    ensures |CandidateMembers(job, c, k)| == CandidatesBefore(job, c, k)
  {
    if k > 0 {
      CandidateMembersCount(job, c, k - 1);
      NotYetAMember(job, c, k);
      var i := job.g.clusters[c].members[k - 1];
      var fewer := CandidateMembers(job, c, k - 1);
      assert CandidateMembers(job, c, k) == fewer + if i in job.candidates then {i} else {};
      assert CandidatesBefore(job, c, k) == CandidatesBefore(job, c, k - 1) + if i in job.candidates then 1 else 0;
      hide *;
      OneMore(fewer, i);
    }
  }

  lemma NotYetAMember<D>(job: Job<D>, c: nat, k: nat)
    requires c < |job.g.clusters| && 0 < k <= |job.g.clusters[c].members|
    requires StrictlyIncreasing(job.g.clusters[c].members)
    ensures job.g.clusters[c].members[k - 1] !in CandidateMembers(job, c, k - 1)
  {
    hide CandidateMembers;
    CandidateMembersUpTo(job, c, k - 1, job.g.clusters[c].members[k - 1]);
  }

  lemma OneMore(a: set<nat>, i: nat)
    requires i !in a
    ensures |a + {i}| == |a| + 1 && a + {} == a
  {}

  lemma DisjointUnion(a: set<nat>, b: set<nat>, both: set<nat>)
    requires forall i: nat :: (i in both <==> i in a || i in b) && !(i in a && i in b)
    ensures |both| == |a| + |b|
  {
    assert both == a + b;
  }

  /** The position of an operation among its cluster's members. */
  lemma PositionOf(g: Graph, i: nat) returns (p: nat)
    requires Partition(g) && i < |g.ops|
    ensures p < |g.clusters[g.opClusters[i]].members| && g.clusters[g.opClusters[i]].members[p] == i
  {
    p :| 0 <= p < |g.clusters[g.opClusters[i]].members| && g.clusters[g.opClusters[i]].members[p] == i;
  }

  /** What finishing does to one operation's number. */
  lemma FinishNumber<D(!new)>(job: Job<D>, s: State<D>, c: nat, i: nat) returns (p: nat)
    requires Partition(job.g) && Shape(job, s) && Enabled(job, s, Finish(c)) && i < |job.g.ops|
    ensures var number := Step(job, s, Finish(c)).completion;
            && |number| == |job.g.ops|
            && if i in job.candidates && job.g.opClusters[i] == c then
                 p < |job.g.clusters[c].members| && job.g.clusters[c].members[p] == i
                 && number[i] == s.sequence + CandidatesBefore(job, c, p) + 1
                 && number[i] <= Step(job, s, Finish(c)).sequence
               else number[i] == s.completion[i]
  {
    p := PositionOf(job.g, i);
    var m := |job.g.clusters[c].members|;
    if i in job.candidates && job.g.opClusters[i] == c {
      NumberedAt(job, s, c, m, p);
      CandidatesIncrease(job, c, p, m);
    } else {
      forall q | 0 <= q < m && i in job.candidates ensures job.g.clusters[c].members[q] != i {
        MemberInRange(job.g, c, q);
      }
      NumberedUnchanged(job, s, c, m, i);
    }
  }

  /** Two numbers given together follow member order. */
  lemma FinishOrder<D(!new)>(job: Job<D>, s: State<D>, c: nat, j: nat, i: nat)
    requires Partition(job.g) && Shape(job, s) && Enabled(job, s, Finish(c)) && j < i < |job.g.ops|
    requires j in job.candidates && i in job.candidates && job.g.opClusters[i] == c && job.g.opClusters[j] == c
    ensures Step(job, s, Finish(c)).completion[j] < Step(job, s, Finish(c)).completion[i]
  {
    var p := FinishNumber(job, s, c, j);
    var q := FinishNumber(job, s, c, i);
    assert p < q;
    hide Step, Partition, Shape;
    CandidatesIncrease(job, c, p, q);
  }

  /** A task that has begun finds every candidate predecessor cluster counted. */
  lemma PredClustersCounted<D(!new)>(job: Job<D>, s: State<D>, c: nat, d: nat)
    requires Inv(job, s) && c < |job.g.clusters| && CandidateCluster(job, c) && !s.tasks[c].Waiting?
    requires d in job.g.clusters[c].preds && d < |job.g.clusters| && CandidateCluster(job, d)
    ensures Counted(s, d)
  {
    assert GateOf(job, s, c);
    assert d !in Pending(job, s, c);
  }

  /** Operation `i` gets its number when cluster `c` finishes. */
  ghost predicate NewlyNumbered<D>(job: Job<D>, c: nat, i: nat)
    requires |job.g.opClusters| == |job.g.ops|
  {
    i < |job.g.ops| && i in job.candidates && job.g.opClusters[i] == c
  }

  /** From `s` to `t`, cluster `c`'s candidates got the next numbers in program
      order and nothing else was numbered. */
  ghost predicate Extends<D>(job: Job<D>, s: State<D>, t: State<D>, c: nat)
    requires Partition(job.g) && Shape(job, s) && Shape(job, t)
  {
    var n := |job.g.ops|;
    && c < |s.tasks| && s.tasks[c].AtMember? && t.tasks == s.tasks[c := Releasing(0)]
    && s.sequence <= t.sequence
    && (forall i: nat | i < n && NewlyNumbered(job, c, i) :: s.sequence < t.completion[i] <= t.sequence)
    && (forall i: nat | i < n && !NewlyNumbered(job, c, i) :: t.completion[i] == s.completion[i])
    && (forall j: nat, i: nat | j < i < n && NewlyNumbered(job, c, j) && NewlyNumbered(job, c, i) ::
          t.completion[j] < t.completion[i])
  }

  lemma FinishExtends<D(!new)>(job: Job<D>, s: State<D>, c: nat)
    requires Inv(job, s) && Enabled(job, s, Finish(c)) && Shape(job, Step(job, s, Finish(c)))
    ensures Extends(job, s, Step(job, s, Finish(c)), c)
  {
    hide Numbered, CandidatesBefore, Gated, Settlement, InFlight, Cleared, Flagged, Explained;
    var t := Step(job, s, Finish(c));
    forall i: nat | i < |job.g.ops|
      ensures NewlyNumbered(job, c, i) ==> s.sequence < t.completion[i] <= t.sequence
      ensures !NewlyNumbered(job, c, i) ==> t.completion[i] == s.completion[i]
    {
      var p := FinishNumber(job, s, c, i);
    }
    forall j: nat, i: nat | j < i < |job.g.ops| && NewlyNumbered(job, c, j) && NewlyNumbered(job, c, i)
      ensures t.completion[j] < t.completion[i]
    {
      FinishOrder(job, s, c, j, i);
    }
  }

  /** The candidate predecessors of what is being numbered are numbered already,
      or are being numbered as well. */
  ghost predicate PredsNumbered<D>(job: Job<D>, s: State<D>, c: nat)
    requires Partition(job.g) && Shape(job, s)
  {
    forall i: nat, j: nat | NewlyNumbered(job, c, i) && j in job.g.ops[i].preds && j in job.candidates ::
      j < i && (NewlyNumbered(job, c, j) || Counted(s, job.g.opClusters[j]))
  }

  lemma FinishedPreds<D(!new)>(job: Job<D>, s: State<D>, c: nat)
    requires Inv(job, s) && Enabled(job, s, Finish(c))
    ensures PredsNumbered(job, s, c)
  {
    hide Gated, Settlement, InFlight, Cleared, Flagged, Explained, Acyclic, SingleProducers, Numbered,
      CandidatesBefore;
    forall i: nat, j: nat | NewlyNumbered(job, c, i) && j in job.g.ops[i].preds && j in job.candidates
      ensures j < i && (NewlyNumbered(job, c, j) || Counted(s, job.g.opClusters[j]))
    {
      PredIsEarlier(job.g.ops, j, i);
      if job.g.opClusters[j] != c {
        assert CandidateCluster(job, c);
        assert CandidateCluster(job, job.g.opClusters[j]);
        PredClustersCounted(job, s, c, job.g.opClusters[j]);
      }
    }
  }

  /** Finishing a cluster extends the numbering. */
  lemma ExtendsNumbering<D>(job: Job<D>, s: State<D>, t: State<D>, c: nat)
    requires Partition(job.g) && Shape(job, s) && Shape(job, t)
    requires Numbering(job, s) && Extends(job, s, t, c) && PredsNumbered(job, s, c)
    requires |NumberedOps(t)| == t.sequence
    ensures Numbering(job, t)
  {
    hide NumberedOps;
    forall i: nat | i < |job.g.ops|
      ensures t.completion[i] > 0 <==> i in job.candidates && Counted(t, job.g.opClusters[i])
    {}
    ExtendedEdges(job, s, t, c);
  }

  lemma ExtendedEdges<D>(job: Job<D>, s: State<D>, t: State<D>, c: nat)
    requires Partition(job.g) && Shape(job, s) && Shape(job, t)
    requires Numbering(job, s) && Extends(job, s, t, c) && PredsNumbered(job, s, c)
    ensures forall i: nat, j: nat
              | i < |job.g.ops| && j in job.g.ops[i].preds && j < |job.g.ops| && j in job.candidates
                && t.completion[i] > 0 ::
              0 < t.completion[j] < t.completion[i]
  {
    hide NumberedOps;
    forall i: nat, j: nat
      | i < |job.g.ops| && j in job.g.ops[i].preds && j < |job.g.ops| && j in job.candidates && t.completion[i] > 0
      ensures 0 < t.completion[j] < t.completion[i]
    {
      assert NewlyNumbered(job, c, i) || !NewlyNumbered(job, c, i);
    }
  }

  lemma FinishCount<D(!new)>(job: Job<D>, s: State<D>, t: State<D>, c: nat)
    requires Partition(job.g) && Shape(job, s) && Shape(job, t)
    requires Numbering(job, s) && Extends(job, s, t, c) && c < |job.g.clusters|
    requires t.sequence == s.sequence + CandidatesBefore(job, c, |job.g.clusters[c].members|)
    ensures |NumberedOps(t)| == t.sequence
  {
    hide CandidatesBefore, CandidateMembers;
    var m := |job.g.clusters[c].members|;
    var added := CandidateMembers(job, c, m);
    CandidateMembersCount(job, c, m);
    forall i: nat
      ensures (i in NumberedOps(t) <==> i in NumberedOps(s) || i in added) && !(i in NumberedOps(s) && i in added)
    {
      CandidateMembersMeaning(job, c, i);
    }
    hide *;
    DisjointUnion(NumberedOps(s), added, NumberedOps(t));
    NumberingCounts(job, s);
  }

  lemma NumberingCounts<D>(job: Job<D>, s: State<D>)
    requires Partition(job.g) && Shape(job, s) && Numbering(job, s)
    ensures |NumberedOps(s)| == s.sequence
  {}

  lemma FinishNumbers<D(!new)>(job: Job<D>, s: State<D>, c: nat)
    requires Inv(job, s) && Numbering(job, s) && Enabled(job, s, Finish(c))
    requires Shape(job, Step(job, s, Finish(c)))
    ensures Numbering(job, Step(job, s, Finish(c)))
  {
    hide Numbered, CandidatesBefore, Gated, Settlement, InFlight, Cleared, Flagged, Explained, Numbering, Extends,
      PredsNumbered;
    FinishExtends(job, s, c);
    FinishedPreds(job, s, c);
    FinishCount(job, s, Step(job, s, Finish(c)), c);
    ExtendsNumbering(job, s, Step(job, s, Finish(c)), c);
  }

  lemma ReleaseCounts<D(!new)>(job: Job<D>, s: State<D>, c: nat)
    requires Inv(job, s) && Enabled(job, s, Release(c))
    ensures var t := Step(job, s, Release(c));
            && t.completion == s.completion && t.sequence == s.sequence && |t.tasks| == |s.tasks|
            && forall d: nat | d < |s.tasks| :: Counted(t, d) == Counted(s, d)
  {
    ReleaseEffect(job, s, c);
    ReleaseAwaited(job, s, c);
  }

  lemma CountedKept<D(!new)>(job: Job<D>, s: State<D>, a: Action<D>)
    requires Inv(job, s) && Enabled(job, s, a) && !a.Finish? && Shape(job, Step(job, s, a))
    ensures var t := Step(job, s, a);
            && t.completion == s.completion && t.sequence == s.sequence
            && forall c: nat | c < |s.tasks| :: Counted(t, c) == Counted(s, c)
  {
    hide Numbered, CandidatesBefore, ValidJob, Gated, Settlement, InFlight, Cleared, Flagged, Explained,
      CandidateCluster, Moved, InputsOf, OutputSet, Needed;
    if a.Release? {
      ReleaseCounts(job, s, a.c);
      hide Step;
    }
  }

  lemma StepNumbers<D(!new)>(job: Job<D>, s: State<D>, a: Action<D>)
    requires Inv(job, s) && Numbering(job, s) && Enabled(job, s, a)
    ensures Inv(job, Step(job, s, a)) && Numbering(job, Step(job, s, a))
  {
    StepKeeps(job, s, a);
    if a.Finish? {
      FinishNumbers(job, s, a.c);
    } else {
      CountedKept(job, s, a);
      NumberingKept(job, s, Step(job, s, a));
    }
  }

  lemma NumberingKept<D(!new)>(job: Job<D>, s: State<D>, t: State<D>)
    requires Partition(job.g) && Shape(job, s) && Shape(job, t) && Numbering(job, s)
    requires t.completion == s.completion && t.sequence == s.sequence
    requires forall c: nat | c < |s.tasks| :: Counted(t, c) == Counted(s, c)
    ensures Numbering(job, t)
  {
    assert NumberedOps(t) == NumberedOps(s);
  }

  lemma {:induction false} RunNumbers<D(!new)>(job: Job<D>, states: seq<State<D>>, actions: seq<Action<D>>, k: nat)
    requires ValidJob(job) && IsRun(job, states, actions) && k < |states|
    ensures Inv(job, states[k]) && Numbering(job, states[k])
  {
    if k == 0 {
      InitialInv(job, states[0]);
      InitialNumbering(job, states[0]);
    } else {
      RunNumbers(job, states, actions, k - 1);
      StepNumbers(job, states[k - 1], actions[k - 1]);
    }
  }

  /** Once every task has come to rest, exactly the candidates are numbered, with
      each of 1 to their count once, every predecessor before its successors. */
  lemma CompletionIsTopological<D(!new)>(job: Job<D>, states: seq<State<D>>, actions: seq<Action<D>>)
    requires ValidJob(job) && IsRun(job, states, actions) && Quiescent(job, states[|actions|])
    ensures var number := states[|actions|].completion;
            && |number| == |job.g.ops|
            && (forall i: nat | i < |number| :: number[i] > 0 <==> i in job.candidates)
            && (forall i: nat | i < |number| :: number[i] <= |job.candidates|)
            && (forall i: nat, j: nat | i < |number| && j < |number| && number[i] == number[j] > 0 :: i == j)
            && NumbersFollowEdges(job, number)
  {
    hide *;
    RunLength(job, states, actions);
    var last := states[|actions|];
    RunNumbers(job, states, actions, |actions|);
    AllCounted(job, last);
    NumberingComplete(job, last);
  }

  lemma RunLength<D>(job: Job<D>, states: seq<State<D>>, actions: seq<Action<D>>)
    requires IsRun(job, states, actions)
    ensures |states| == |actions| + 1
  {}

  lemma AllCounted<D(!new)>(job: Job<D>, s: State<D>)
    requires Inv(job, s) && Quiescent(job, s)
    ensures Partition(job.g) && Shape(job, s) && forall i <- job.candidates :: i < |job.g.ops|
    ensures forall i: nat | i < |job.g.ops| && i in job.candidates :: Counted(s, job.g.opClusters[i])
  {
    hide Gated, Settlement, InFlight, Cleared, Flagged, Explained;
    QuiescentIsComplete(job, s);
    forall i: nat | i < |job.g.ops| && i in job.candidates ensures Counted(s, job.g.opClusters[i]) {
      assert CandidateCluster(job, job.g.opClusters[i]);
    }
  }

  lemma NumberingComplete<D>(job: Job<D>, s: State<D>)
    requires Partition(job.g) && Shape(job, s) && Numbering(job, s)
    requires forall i <- job.candidates :: i < |job.g.ops|
    requires forall i: nat | i < |job.g.ops| && i in job.candidates :: Counted(s, job.g.opClusters[i])
    ensures var number := s.completion;
            && |number| == |job.g.ops|
            && (forall i: nat | i < |number| :: number[i] > 0 <==> i in job.candidates)
            && (forall i: nat | i < |number| :: number[i] <= |job.candidates|)
            && (forall i: nat, j: nat | i < |number| && j < |number| && number[i] == number[j] > 0 :: i == j)
            && NumbersFollowEdges(job, number)
  {
    assert NumberedOps(s) == job.candidates;
  }
}
