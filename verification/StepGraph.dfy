/** The checks a build makes of its steps before it hands the program out: edges
    that point the right way and match (`ValidateStepEdges`), and a producer
    with an edge for every slot read (`ValidateSlotProducers`). */
module StepGraph {

  /** Slots `begin` up to and not including `end` of a domain. */
  datatype SlotRange = SlotRange(domain: nat, begin: nat, end: nat)

  datatype Step = Step(
    preds: seq<int>,
    succs: seq<int>,
    cluster: int,
    read: seq<SlotRange>,
    write: seq<SlotRange>)

  /** What is said of slot domains: how many there are, which the prologue fills,
      which is retired, which admits stage frames, and which slots are seeded or
      excluded. */
  datatype Domains = Domains(
    count: nat,
    source: nat -> bool,
    retired: nat,
    admission: nat,
    seeded: (nat, nat) -> bool)

  // ---- Sorted lists --------------------------------------------------------------------

  ghost predicate Increasing(s: seq<int>) {
    forall i, j | 0 <= i < j < |s| :: s[i] < s[j]
  }

  method SortedUnique(s: seq<int>) returns (ok: bool)
    ensures ok <==> Increasing(s)
  {
    var k := 1;
    while k < |s|
      invariant 1 <= k && forall i, j | 0 <= i < j < k && j < |s| :: s[i] < s[j]
    {
      if s[k - 1] >= s[k] {
        return false;
      }
      k := k + 1;
    }
    return true;
  }

  function LowerBound(values: seq<int>, value: int, low: nat, high: nat): (at: nat)
    requires low <= high <= |values|
    ensures low <= at <= high
    decreases high - low
  {
    if low == high then low
    else
      var middle := low + (high - low) / 2;
      if values[middle] < value then LowerBound(values, value, middle + 1, high)
      else LowerBound(values, value, low, middle)
  }

  /** Binary search; what it answers of a list out of order is of no account. */
  predicate SortedContains(values: seq<int>, value: int) {
    var at := LowerBound(values, value, 0, |values|);
    at < |values| && values[at] <= value
  }

  lemma {:induction false} LowerBoundSplits(values: seq<int>, value: int, low: nat, high: nat)
    requires Increasing(values) && low <= high <= |values|
    requires forall k | 0 <= k < low :: values[k] < value
    requires forall k | high <= k < |values| :: values[k] >= value
    ensures var at := LowerBound(values, value, low, high);
            && (forall k | 0 <= k < at :: values[k] < value)
            && (forall k | at <= k < |values| :: values[k] >= value)
    decreases high - low
  {
    hide Increasing;
    if low < high {
      var middle := low + (high - low) / 2;
      OnEitherSide(values, value, middle);
      if values[middle] < value {
        LowerBoundSplits(values, value, middle + 1, high);
      } else {
        LowerBoundSplits(values, value, low, middle);
      }
    }
  }

  lemma OnEitherSide(values: seq<int>, value: int, middle: nat)
    requires Increasing(values) && middle < |values|
    ensures values[middle] < value ==> forall k | 0 <= k < middle + 1 :: values[k] < value
    ensures values[middle] >= value ==> forall k | middle <= k < |values| :: values[k] >= value
  {}

  lemma SortedContainsIsMembership(values: seq<int>, value: int)
    requires Increasing(values)
    ensures SortedContains(values, value) <==> value in values
  {
    LowerBoundSplits(values, value, 0, |values|);
  }

  // ---- Edges ---------------------------------------------------------------------------

  ghost predicate StepEdges(steps: seq<Step>, i: nat)
    requires i < |steps|
  {
    && Increasing(steps[i].preds) && Increasing(steps[i].succs)
    && (forall k | 0 <= k < |steps[i].preds| :: PredOk(steps, i, steps[i].preds[k]))
    && (forall k | 0 <= k < |steps[i].succs| :: SuccOk(steps, i, steps[i].succs[k]))
  }

  predicate PredOk(steps: seq<Step>, i: nat, pred: int)
    requires i < |steps|
  {
    0 <= pred < i && SortedContains(steps[pred].succs, i)
  }

  predicate SuccOk(steps: seq<Step>, i: nat, succ: int)
    requires i < |steps|
  {
    i < succ < |steps| && SortedContains(steps[succ].preds, i)
  }

  /** Predecessors point backward and successors forward, each list sorted and
      free of repetitions and each the inverse of the other. */
  ghost predicate EdgesValid(steps: seq<Step>) {
    && (forall i | 0 <= i < |steps| :: Increasing(steps[i].preds) && Increasing(steps[i].succs))
    && (forall i, j | 0 <= i < |steps| && j in steps[i].preds :: 0 <= j < i)
    && (forall i, j | 0 <= i < |steps| && j in steps[i].succs :: i < j < |steps|)
    && (forall i: nat, j: nat | i < |steps| && j < |steps| :: j in steps[i].preds <==> i in steps[j].succs)
  }

  method ValidateStepEdges(steps: seq<Step>) returns (ok: bool)
    ensures ok <==> EdgesValid(steps)
  {
    hide SortedContains, Increasing;
    ok := true;
    for i := 0 to |steps|
      invariant ok <==> forall j: nat | j < i :: StepEdges(steps, j)
    {
      var predsSorted := SortedUnique(steps[i].preds);
      var succsSorted := SortedUnique(steps[i].succs);
      var edges := false;
      if predsSorted && succsSorted {
        edges := ValidateEdgesOf(steps, i);
      }
      assert edges <==> StepEdges(steps, i);
      ok := ok && edges;
    }
    StepEdgesMeaning(steps);
  }

  method ValidateEdgesOf(steps: seq<Step>, i: nat) returns (ok: bool)
    requires i < |steps| && Increasing(steps[i].preds) && Increasing(steps[i].succs)
    ensures ok <==> StepEdges(steps, i)
  {
    hide SortedContains, Increasing;
    ok := true;
    var preds, succs := steps[i].preds, steps[i].succs;
    for k := 0 to |preds|
      invariant ok <==> forall j | 0 <= j < k :: PredOk(steps, i, preds[j])
    {
      ok := ok && PredOk(steps, i, preds[k]);
    }
    for k := 0 to |succs|
      invariant ok <==>
        && (forall j | 0 <= j < |preds| :: PredOk(steps, i, preds[j]))
        && (forall j | 0 <= j < k :: SuccOk(steps, i, succs[j]))
    {
      ok := ok && SuccOk(steps, i, succs[k]);
    }
  }

  lemma StepEdgesMeaning(steps: seq<Step>)
    ensures (forall i: nat | i < |steps| :: StepEdges(steps, i)) <==> EdgesValid(steps)
  {
    hide SortedContains, Increasing;
    if forall i: nat | i < |steps| :: StepEdges(steps, i) {
      AcceptedEdges(steps);
    }
    if EdgesValid(steps) {
      forall i: nat | i < |steps| ensures StepEdges(steps, i) {
        forall k | 0 <= k < |steps[i].preds| ensures PredOk(steps, i, steps[i].preds[k]) {
          var pred := steps[i].preds[k];
          assert pred in steps[i].preds;
          SortedContainsIsMembership(steps[pred].succs, i);
        }
        forall k | 0 <= k < |steps[i].succs| ensures SuccOk(steps, i, steps[i].succs[k]) {
          var succ := steps[i].succs[k];
          assert succ in steps[i].succs;
          SortedContainsIsMembership(steps[succ].preds, i);
        }
      }
    }
  }

  lemma AcceptedPred(steps: seq<Step>, i: nat, j: int)
    requires forall i: nat | i < |steps| :: StepEdges(steps, i)
    requires i < |steps| && j in steps[i].preds
    ensures 0 <= j < i && i in steps[j].succs
  {
    hide SortedContains, Increasing;
    var k :| 0 <= k < |steps[i].preds| && steps[i].preds[k] == j;
    assert StepEdges(steps, i) && PredOk(steps, i, j);
    assert StepEdges(steps, j);
    SortedContainsIsMembership(steps[j].succs, i);
  }

  lemma AcceptedSucc(steps: seq<Step>, i: nat, j: int)
    requires forall i: nat | i < |steps| :: StepEdges(steps, i)
    requires i < |steps| && j in steps[i].succs
    ensures i < j < |steps| && i in steps[j].preds
  {
    hide SortedContains, Increasing;
    var k :| 0 <= k < |steps[i].succs| && steps[i].succs[k] == j;
    assert StepEdges(steps, i) && SuccOk(steps, i, j);
    assert StepEdges(steps, j);
    SortedContainsIsMembership(steps[j].preds, i);
  }

  lemma AcceptedEdges(steps: seq<Step>)
    requires forall i: nat | i < |steps| :: StepEdges(steps, i)
    ensures EdgesValid(steps)
  {
    hide SortedContains, Increasing;
    forall i, j | 0 <= i < |steps| && j in steps[i].preds ensures 0 <= j < i {
      AcceptedPred(steps, i, j);
    }
    forall i, j | 0 <= i < |steps| && j in steps[i].succs ensures i < j < |steps| {
      AcceptedSucc(steps, i, j);
    }
    forall i: nat, j: nat | i < |steps| && j < |steps| ensures j in steps[i].preds <==> i in steps[j].succs {
      if j in steps[i].preds {
        AcceptedPred(steps, i, j);
      }
      if i in steps[j].succs {
        AcceptedSucc(steps, j, i);
      }
    }
    forall i | 0 <= i < |steps| ensures Increasing(steps[i].preds) && Increasing(steps[i].succs) {
      assert StepEdges(steps, i);
    }
  }

  // ---- Producers -----------------------------------------------------------------------

  predicate Covers(r: SlotRange, domain: nat, slot: nat) {
    r.domain == domain && r.begin <= slot < r.end
  }

  ghost predicate ReadsSlot(step: Step, domain: nat, slot: nat) {
    exists k :: 0 <= k < |step.read| && Covers(step.read[k], domain, slot)
  }

  ghost predicate WritesSlot(step: Step, domain: nat, slot: nat) {
    exists k :: 0 <= k < |step.write| && Covers(step.write[k], domain, slot)
  }

  /** The lowest of the first `n` steps that write a slot; -1 for none. */
  ghost function FirstWriter(steps: seq<Step>, domain: nat, slot: nat, n: nat): (writer: int)
    requires n <= |steps|
    ensures -1 <= writer < n
    ensures writer >= 0 ==> WritesSlot(steps[writer], domain, slot)
    ensures forall w: nat | w < n && WritesSlot(steps[w], domain, slot) :: 0 <= writer <= w
  {
    if n == 0 then -1
    else
      var before := FirstWriter(steps, domain, slot, n - 1);
      if before >= 0 then before else if WritesSlot(steps[n - 1], domain, slot) then n - 1 else -1
  }

  ghost predicate DomainsInRange(steps: seq<Step>, d: Domains) {
    forall i: nat | i < |steps| :: RangesIn(steps[i].read, d) && RangesIn(steps[i].write, d)
  }

  ghost predicate RangesIn(ranges: seq<SlotRange>, d: Domains) {
    forall k | 0 <= k < |ranges| :: ranges[k].domain < d.count
  }

  /** No range names the retired domain, and the domain that admits stage frames
      is read as one slot and never written. */
  predicate Admitted(r: SlotRange, d: Domains, written: bool) {
    r.domain != d.retired && (r.domain == d.admission ==> r.begin == 0 && r.end == 1 && !written)
  }

  ghost predicate AllAdmitted(ranges: seq<SlotRange>, d: Domains, written: bool) {
    forall k | 0 <= k < |ranges| :: Admitted(ranges[k], d, written)
  }

  /** A slot read has its first writer among the reader's predecessors, or no
      writer and a seed. */
  ghost predicate Produced(steps: seq<Step>, d: Domains, i: nat, domain: nat, slot: nat)
    requires i < |steps|
  {
    var writer := FirstWriter(steps, domain, slot, |steps|);
    if 0 <= writer < i then SortedContains(steps[i].preds, writer) else writer < 0 && d.seeded(domain, slot)
  }

  ghost predicate RangeProduced(steps: seq<Step>, d: Domains, i: nat, r: SlotRange)
    requires i < |steps|
  {
    d.source(r.domain) || forall slot: nat | r.begin <= slot < r.end :: Produced(steps, d, i, r.domain, slot)
  }

  ghost predicate ReadsProduced(steps: seq<Step>, d: Domains, i: nat)
    requires i < |steps|
  {
    forall k | 0 <= k < |steps[i].read| :: RangeProduced(steps, d, i, steps[i].read[k])
  }

  ghost predicate ProducersValid(steps: seq<Step>, d: Domains) {
    && (forall i: nat | i < |steps| :: AllAdmitted(steps[i].read, d, false) && AllAdmitted(steps[i].write, d, true))
    && (forall i: nat | i < |steps| :: ReadsProduced(steps, d, i))
  }

  type Row = seq<int>

  function At(row: Row, slot: nat): int {
    if slot < |row| then row[slot] else -1
  }

  /** A row of first writers after one more range written by step `index`. */
  method MarkWrite(row: Row, r: SlotRange, index: nat) returns (marked: Row)
    requires r.begin < r.end
    ensures forall slot: nat :: At(marked, slot) ==
              if At(row, slot) < 0 && r.begin <= slot < r.end then index else
              if At(row, slot) < 0 && slot >= |row| then -1 else At(row, slot)
  {
    marked := row;
    if |marked| < r.end {
      marked := marked + seq(r.end - |marked|, _ => -1);
    }
    ghost var wide := marked;
    assert forall slot: nat :: At(wide, slot) == At(row, slot);
    for slot := r.begin to r.end
      invariant |marked| == |wide|
      invariant forall s | 0 <= s < |wide| :: marked[s] == if wide[s] < 0 && r.begin <= s < slot then index else wide[s]
    {
      if marked[slot] < 0 {
        marked := marked[slot := index];
      }
    }
  }

  /** The table while step `index` is being entered: its first `k` ranges count. */
  ghost predicate Entered(steps: seq<Step>, d: Domains, table: seq<Row>, index: nat, k: nat)
    requires index <= |steps| && (index < |steps| ==> k <= |steps[index].write|) && (index == |steps| ==> k == 0)
  {
    && |table| == d.count
    && forall domain: nat, slot: nat | domain < d.count && !d.source(domain) ::
         At(table[domain], slot) ==
           var before := FirstWriter(steps, domain, slot, index);
           if before >= 0 then before
           else if index < |steps| && exists j :: 0 <= j < k && Covers(steps[index].write[j], domain, slot) then index
           else -1
  }

  lemma EnterNext(steps: seq<Step>, d: Domains, table: seq<Row>, index: nat)
    requires index < |steps| && Entered(steps, d, table, index, |steps[index].write|)
    ensures Entered(steps, d, table, index + 1, 0)
  {}

  lemma SkipWrite(steps: seq<Step>, d: Domains, table: seq<Row>, index: nat, k: nat)
    requires index < |steps| && k < |steps[index].write| && Entered(steps, d, table, index, k)
    requires d.source(steps[index].write[k].domain) || steps[index].write[k].end <= steps[index].write[k].begin
    ensures Entered(steps, d, table, index, k + 1)
  {}

  lemma EnterWrite(steps: seq<Step>, d: Domains, table: seq<Row>, index: nat, k: nat, row: Row)
    requires index < |steps| && k < |steps[index].write| && Entered(steps, d, table, index, k)
    requires var r := steps[index].write[k];
             && r.domain < d.count
             && forall slot: nat :: At(row, slot) ==
                  if At(table[r.domain], slot) < 0 && r.begin <= slot < r.end then index else
                  if At(table[r.domain], slot) < 0 && slot >= |table[r.domain]| then -1 else At(table[r.domain], slot)
    ensures Entered(steps, d, table[steps[index].write[k].domain := row], index, k + 1)
  {
    var r := steps[index].write[k];
    var after := table[r.domain := row];
    forall domain: nat, slot: nat | domain < d.count && !d.source(domain)
      ensures At(after[domain], slot) ==
        var before := FirstWriter(steps, domain, slot, index);
        if before >= 0 then before
        else if exists j :: 0 <= j < k + 1 && Covers(steps[index].write[j], domain, slot) then index
        else -1
    {
      OneMoreCovers(steps[index].write, k, domain, slot);
    }
  }

  lemma OneMoreCovers(writes: seq<SlotRange>, k: nat, domain: nat, slot: nat)
    requires k < |writes|
    ensures (exists j :: 0 <= j < k + 1 && Covers(writes[j], domain, slot)) <==>
              (exists j :: 0 <= j < k && Covers(writes[j], domain, slot)) || Covers(writes[k], domain, slot)
  {}

  method FirstWriters(steps: seq<Step>, d: Domains) returns (table: seq<Row>)
    requires DomainsInRange(steps, d)
    ensures |table| == d.count
    ensures forall domain: nat, slot: nat | domain < d.count && !d.source(domain) ::
              At(table[domain], slot) == FirstWriter(steps, domain, slot, |steps|)
  {
    hide Covers;
    table := seq(d.count, _ => []);
    for index := 0 to |steps|
      invariant Entered(steps, d, table, index, 0)
    {
      var writes := steps[index].write;
      assert RangesIn(writes, d);
      for k := 0 to |writes|
        invariant Entered(steps, d, table, index, k)
      {
        var write := writes[k];
        if d.source(write.domain) || write.end <= write.begin {
          SkipWrite(steps, d, table, index, k);
        } else {
          var row := MarkWrite(table[write.domain], write, index);
          EnterWrite(steps, d, table, index, k, row);
          table := table[write.domain := row];
        }
      }
      EnterNext(steps, d, table, index);
    }
  }

  method CheckAdmitted(ranges: seq<SlotRange>, d: Domains, written: bool) returns (ok: bool)
    ensures ok <==> AllAdmitted(ranges, d, written)
  {
    ok := true;
    for k := 0 to |ranges|
      invariant ok <==> forall j | 0 <= j < k :: Admitted(ranges[j], d, written)
    {
      ok := ok && Admitted(ranges[k], d, written);
    }
  }

  method CheckRead(steps: seq<Step>, d: Domains, table: seq<Row>, i: nat, r: SlotRange) returns (ok: bool)
    requires i < |steps| && r.domain < d.count == |table|
    requires !d.source(r.domain) ==>
               forall slot: nat :: At(table[r.domain], slot) == FirstWriter(steps, r.domain, slot, |steps|)
    ensures ok <==> RangeProduced(steps, d, i, r)
  {
    hide SortedContains;
    ok := true;
    if d.source(r.domain) || r.end <= r.begin {
      return;
    }
    var row := table[r.domain];
    for slot := r.begin to r.end
      invariant ok <==> forall s: nat | r.begin <= s < slot :: Produced(steps, d, i, r.domain, s)
    {
      var writer := if slot < |row| then row[slot] else -1;
      assert writer == At(row, slot) == FirstWriter(steps, r.domain, slot, |steps|);
      assert Produced(steps, d, i, r.domain, slot) <==>
        if 0 <= writer < i then SortedContains(steps[i].preds, writer) else writer < 0 && d.seeded(r.domain, slot);
      if 0 <= writer < i {
        ok := ok && SortedContains(steps[i].preds, writer);
      } else {
        ok := ok && writer < 0 && d.seeded(r.domain, slot);
      }
    }
  }

  /** Accepts exactly the programs whose every read is produced. */
  method ValidateSlotProducers(steps: seq<Step>, d: Domains) returns (ok: bool)
    requires DomainsInRange(steps, d)
    ensures ok <==> ProducersValid(steps, d)
  {
    hide AllAdmitted, RangeProduced, FirstWriter;
    ok := true;
    for i := 0 to |steps|
      invariant ok <==> forall j: nat | j < i ::
                  AllAdmitted(steps[j].read, d, false) && AllAdmitted(steps[j].write, d, true)
    {
      var readOk := CheckAdmitted(steps[i].read, d, false);
      var writeOk := CheckAdmitted(steps[i].write, d, true);
      ok := ok && readOk && writeOk;
    }
    ghost var admitted := ok;
    var table := FirstWriters(steps, d);
    for i := 0 to |steps|
      invariant ok <==> admitted && forall j: nat | j < i :: ReadsProduced(steps, d, j)
    {
      assert RangesIn(steps[i].read, d);
      var produced := true;
      for k := 0 to |steps[i].read|
        invariant produced <==> forall j | 0 <= j < k :: RangeProduced(steps, d, i, steps[i].read[j])
      {
        var readProduced := CheckRead(steps, d, table, i, steps[i].read[k]);
        produced := produced && readProduced;
      }
      assert produced <==> ReadsProduced(steps, d, i);
      ok := ok && produced;
    }
  }
}
