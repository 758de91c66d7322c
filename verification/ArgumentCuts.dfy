/** Where a command's arguments are cut, told without the scanner: at whitespace
    outside quotes and outside brackets. */
module ArgumentCuts {
  import opened CMakeText

  function Quotes(s: string): nat {
    if s == [] then 0 else Quotes(s[..|s| - 1]) + if s[|s| - 1] == '"' then 1 else 0
  }

  /** Behind an odd number of quotes. */
  predicate InQuotes(s: string, i: nat)
    requires i <= |s|
  {
    Quotes(s[..i]) % 2 == 1
  }

  /** Brackets opened less brackets closed before position `i`, those in quotes
      not counted. */
  function Balance(s: string, i: nat): int
    requires i <= |s|
  {
    if i == 0 then 0
    else
      Balance(s, i - 1) +
      if InQuotes(s, i - 1) then 0
      else if s[i - 1] in "([{" then 1
      else if s[i - 1] in ")]}" then -1
      else 0
  }

  /** No bracket is open: the balance was never lower. A closing bracket too many
      closes nothing. */
  ghost predicate NoneOpen(s: string, i: nat)
    requires i <= |s|
  {
    forall j | 0 <= j <= i :: Balance(s, i) <= Balance(s, j)
  }

  ghost predicate Cut(s: string, i: nat) {
    i < |s| && IsSpace(s[i]) && !InQuotes(s, i) && NoneOpen(s, i)
  }

  // ---- What the scanner knows ----------------------------------------------------------

  /** The least balance so far. */
  function Floor(s: string, i: nat): int
    requires i <= |s|
  {
    if i == 0 then 0
    else if Balance(s, i) < Floor(s, i - 1) then Balance(s, i) else Floor(s, i - 1)
  }

  lemma {:induction false} FloorIsLeast(s: string, i: nat)
    requires i <= |s|
    ensures forall j | 0 <= j <= i :: Floor(s, i) <= Balance(s, j)
    ensures exists j | 0 <= j <= i :: Floor(s, i) == Balance(s, j)
  {
    if i > 0 {
      FloorIsLeast(s, i - 1);
      var j :| 0 <= j <= i - 1 && Floor(s, i - 1) == Balance(s, j);
      assert Floor(s, i) == Balance(s, if Balance(s, i) < Floor(s, i - 1) then i else j);
    } else {
      assert Floor(s, i) == Balance(s, 0);
    }
  }

  lemma {:induction false} RunCounts(s: string, i: nat)
    requires i <= |s|
    ensures Run(START, s[..i]) == Scan(Balance(s, i) - Floor(s, i), InQuotes(s, i))
    ensures Balance(s, i) >= Floor(s, i)
  {
    hide IsSpace;
    if i > 0 {
      RunCounts(s, i - 1);
      assert s[..i] == s[..i - 1] + [s[i - 1]];
      RunOne(START, s[..i - 1], s[i - 1]);
      assert s[..i][..|s[..i]| - 1] == s[..i - 1];
    }
  }

  lemma BreaksIsCut(s: string, i: nat)
    requires i < |s|
    ensures Breaks(Run(START, s[..i]), s[i]) <==> Cut(s, i)
  {
    hide IsSpace;
    RunCounts(s, i);
    FloorIsLeast(s, i);
  }

  // ---- The arguments -------------------------------------------------------------------

  /** The stretches between cuts from `start` on, the empty ones left out; only the
      last can have whitespace at its end to lose. */
  ghost predicate AreArguments(s: string, start: nat, args: seq<string>)
    decreases |s| - start
  {
    if start >= |s| then args == []
    else if Cut(s, start) then AreArguments(s, start + 1, args)
    else exists end: nat :: ArgumentTo(s, start, end, args)
  }

  ghost predicate ArgumentTo(s: string, start: nat, end: nat, args: seq<string>)
    decreases |s| - start, 0
  {
    && start < end <= |s| && (forall k | start <= k < end :: !Cut(s, k)) && (end == |s| || Cut(s, end))
    && args != [] && args[0] == TrimRight(s[start..end]) && (end < |s| ==> args[0] == s[start..end])
    && AreArguments(s, end, args[1..])
  }

  lemma CutResets(s: string, i: nat)
    requires i < |s| && Cut(s, i)
    ensures Run(START, s[..i]) == START && Run(START, s[..i + 1]) == START
  {
    BreaksIsCut(s, i);
    assert s[..i + 1] == s[..i] + [s[i]];
    RunOne(START, s[..i], s[i]);
    SpaceKeepsStart(s[i]);
  }

  lemma SpaceKeepsStart(c: char)
    requires IsSpace(c)
    ensures Step(START, c) == START
  {}

  /** From a fresh start at `start` on, having collected up to `i`. */
  lemma {:induction false} SplitIsArguments(s: string, start: nat, i: nat)
    requires start <= i <= |s| && Run(START, s[..start]) == START
    requires forall k | start <= k < i :: !Cut(s, k)
    ensures i == start ==> AreArguments(s, start, Split(START, [], s[start..]))
    ensures i > start ==>
              exists end: nat :: end >= i && ArgumentTo(s, start, end, Split(Run(START, s[..i]), s[start..i], s[i..]))
    decreases |s| - start, |s| - i
  {
    hide IsSpace, Cut, Trim, Token, Whole, Step, Breaks, Run, Unbroken, Split;
    var collected := s[start..i];
    Collects(s, start, i);
    SplitUnfold(Run(START, s[..i]), collected, s[i..]);
    if i == |s| {
      assert s[i..] == [];
      if i > start {
        LastArgument(s, start);
      } else {
        StartIsUnbroken();
        LastEmitted([]);
      }
    } else {
      assert s[i..][0] == s[i] && s[i..][1..] == s[i + 1..];
      BreaksIsCut(s, i);
      if Cut(s, i) {
        CutResets(s, i);
        SplitIsArguments(s, i + 1, i + 1);
        WholeEmitted(collected);
        if i > start {
          ArgumentEnds(s, start, i, Split(START, [], s[i + 1..]));
        } else {
          assert [] + Split(START, [], s[i + 1..]) == Split(START, [], s[i + 1..]);
        }
      } else {
        SplitIsArguments(s, start, i + 1);
        assert s[..i + 1] == s[..i] + [s[i]];
        RunOne(START, s[..i], s[i]);
        assert collected + [s[i]] == s[start..i + 1];
        if i == start {
          assert s[start..i] == [];
          OneMoreArgument(s, start);
        }
      }
    }
  }

  lemma OneMoreArgument(s: string, start: nat)
    requires start < |s| && !Cut(s, start)
    requires exists end: nat :: ArgumentTo(s, start, end, Split(START, [], s[start..]))
    ensures AreArguments(s, start, Split(START, [], s[start..]))
  {
    hide Cut;
  }

  /** What has been collected since `start` is unbroken and leads where the whole
      text so far does. */
  lemma {:induction false} Collects(s: string, start: nat, i: nat)
    requires start <= i <= |s| && Run(START, s[..start]) == START
    requires forall k | start <= k < i :: !Cut(s, k)
    ensures Run(START, s[start..i]) == Run(START, s[..i])
    ensures Unbroken(START, s[start..i])
  {
    hide Cut, Step, Breaks;
    assert s[..i] == s[..start] + s[start..i];
    RunAppend(START, s[..start], s[start..i]);
    if i > start {
      Collects(s, start, i - 1);
      assert s[start..i] == s[start..i - 1] + [s[i - 1]];
      RunOne(START, s[start..i - 1], s[i - 1]);
      BreaksIsCut(s, i - 1);
    }
  }

  lemma LastArgument(s: string, start: nat)
    requires start < |s| && Run(START, s[..start]) == START && forall k | start <= k < |s| :: !Cut(s, k)
    ensures ArgumentTo(s, start, |s|, Split(Run(START, s[..|s|]), s[start..|s|], s[|s|..]))
  {
    hide Cut, Step, Breaks, Trim, Token;
    Collects(s, start, |s|);
    LastEmitted(s[start..|s|]);
    assert s[|s|..] == [];
  }

  lemma ArgumentEnds(s: string, start: nat, end: nat, rest: seq<string>)
    requires start < end < |s| && Cut(s, end) && (forall k | start <= k < end :: !Cut(s, k))
    requires AreArguments(s, end + 1, rest) && TrimRight(s[start..end]) == s[start..end]
    ensures ArgumentTo(s, start, end, [s[start..end]] + rest)
  {
    hide Cut, TrimRight;
    assert ([s[start..end]] + rest)[1..] == rest;
  }

  /** The splitter cuts where whitespace is outside quotes and brackets, and
      nowhere else: inside either an argument goes on. */
  lemma SplitIsAtCuts(body: string)
    ensures AreArguments(body, 0, Split(START, [], body))
  {
    hide Cut;
    assert body[..0] == [] && body[0..] == body;
    StartIsUnbroken();
    SplitIsArguments(body, 0, 0);
  }

  /** The cuts leave one way to read the arguments. */
  lemma {:induction false} ArgumentsAreUnique(s: string, start: nat, a: seq<string>, b: seq<string>)
    requires AreArguments(s, start, a) && AreArguments(s, start, b)
    ensures a == b
    decreases |s| - start
  {
    hide Cut, TrimRight;
    if start < |s| {
      if Cut(s, start) {
        ArgumentsAreUnique(s, start + 1, a, b);
      } else {
        var end: nat :| ArgumentTo(s, start, end, a);
        var last: nat :| ArgumentTo(s, start, last, b);
        assert end == last;
        ArgumentsAreUnique(s, end, a[1..], b[1..]);
        assert a == [a[0]] + a[1..] && b == [b[0]] + b[1..];
      }
    }
  }
}
