/** Reading CMake text: dropping comments and splitting a command's arguments
    (`tools/select_affected_tests.py`), each a scanner over characters proved
    against a state machine. */
module CMakeText {

  // ---- Comments ------------------------------------------------------------------------

  /** Where the scan stands. Inside a string only the character just passed
      matters: a quote after a backslash does not end it. */
  datatype Mode = Code | Quoted(prev: char) | Comment

  function NextMode(m: Mode, c: char): Mode {
    match m
    case Code => if c == '"' then Quoted('"') else if c == '#' then Comment else Code
    case Quoted(prev) => if c == '"' && prev != '\\' then Code else Quoted(c)
    case Comment => if c == '\n' then Code else Comment
  }

  /** Whether the scanner drops `c`. */
  predicate Dropped(m: Mode, c: char) {
    NextMode(m, c) == Comment
  }

  function Stripped(m: Mode, s: string): string
    decreases |s|
  {
    if s == [] then []
    else (if Dropped(m, s[0]) then [] else [s[0]]) + Stripped(NextMode(m, s[0]), s[1..])
  }

  function ModeAfter(m: Mode, s: string): Mode
    decreases |s|
  {
    if s == [] then m else ModeAfter(NextMode(m, s[0]), s[1..])
  }

  lemma StrippedUnfold(m: Mode, s: string)
    ensures s == [] ==> Stripped(m, s) == [] && ModeAfter(m, s) == m
    ensures s != [] ==>
              var rest := Stripped(NextMode(m, s[0]), s[1..]);
              && Stripped(m, s) == (if Dropped(m, s[0]) then rest else [s[0]] + rest)
              && ModeAfter(m, s) == ModeAfter(NextMode(m, s[0]), s[1..])
  {
    hide NextMode, Dropped;
  }

  lemma {:induction false} StrippedAppend(m: Mode, s: string, t: string)
    ensures Stripped(m, s + t) == Stripped(m, s) + Stripped(ModeAfter(m, s), t)
    ensures ModeAfter(m, s + t) == ModeAfter(ModeAfter(m, s), t)
    decreases |s|
  {
    hide *;
    StrippedUnfold(m, s);
    StrippedUnfold(m, s + t);
    if s == [] {
      assert s + t == t;
    } else {
      assert (s + t)[0] == s[0] && (s + t)[1..] == s[1..] + t;
      StrippedAppend(NextMode(m, s[0]), s[1..], t);
    }
  }

  lemma {:induction false} StrippedTake(text: string, i: nat)
    requires i < |text|
    ensures Stripped(Code, text[..i + 1]) ==
            Stripped(Code, text[..i]) + if Dropped(ModeAfter(Code, text[..i]), text[i]) then [] else [text[i]]
    ensures ModeAfter(Code, text[..i + 1]) == NextMode(ModeAfter(Code, text[..i]), text[i])
  {
    assert text[..i + 1] == text[..i] + [text[i]];
    StrippedAppend(Code, text[..i], [text[i]]);
    assert [text[i]][1..] == [];
  }

  method StripComments(text: string) returns (out: string)
    ensures out == Stripped(Code, text)
  {
    out := "";
    var i, inString := 0, false;
    while i < |text|
      invariant 0 <= i <= |text|
      invariant out == Stripped(Code, text[..i])
      invariant inString ==> i > 0 && ModeAfter(Code, text[..i]) == Quoted(text[i - 1])
      invariant !inString ==>
                  || ModeAfter(Code, text[..i]) == Code
                  || (ModeAfter(Code, text[..i]) == Comment && (i < |text| ==> text[i] == '\n'))
    {
      var c := text[i];
      StrippedTake(text, i);
      if inString {
        out := out + [c];
        if c == '"' && text[i - 1] != '\\' {
          inString := false;
        }
        i := i + 1;
      } else if c == '"' {
        inString := true;
        out := out + [c];
        i := i + 1;
      } else if c == '#' {
        ghost var start := i;
        while i < |text| && text[i] != '\n'
          invariant start <= i <= |text|
          invariant out == Stripped(Code, text[..i])
          invariant ModeAfter(Code, text[..i]) == if i == start then Code else Comment
          decreases |text| - i
        {
          StrippedTake(text, i);
          i := i + 1;
        }
      } else {
        out := out + [c];
        i := i + 1;
      }
    }
    assert text[..i] == text;
  }

  /** A comment, once gone, leaves the scanner where it would have been. */
  function Resumed(m: Mode): Mode {
    if m == Comment then Code else m
  }

  /** Stripping twice is stripping once: the second scan goes through the very
      string states of the first and meets no comment. */
  lemma {:induction false} StripIsIdempotent(m: Mode, s: string)
    ensures Stripped(Resumed(m), Stripped(m, s)) == Stripped(m, s)
    decreases |s|
  {
    if s != [] {
      var rest := Stripped(NextMode(m, s[0]), s[1..]);
      StripIsIdempotent(NextMode(m, s[0]), s[1..]);
      if !Dropped(m, s[0]) {
        assert Stripped(m, s) == [s[0]] + rest;
        assert ([s[0]] + rest)[1..] == rest;
      } else {
        assert Stripped(m, s) == rest;
      }
    }
  }

  /** The text between newlines. */
  function Lines(s: string): (lines: seq<string>)
    ensures |lines| > 0
  {
    if s == [] then [[]]
    else
      var rest := Lines(s[1..]);
      if s[0] == '\n' then [[]] + rest else [[s[0]] + rest[0]] + rest[1..]
  }

  /** Every newline stays, and what stays of a line is its beginning. */
  lemma {:induction false} StripKeepsLines(m: Mode, s: string)
    ensures |Lines(Stripped(m, s))| == |Lines(s)|
    ensures forall k | 0 <= k < |Lines(s)| :: Lines(Stripped(m, s))[k] <= Lines(s)[k]
    ensures m == Comment ==> Lines(Stripped(m, s))[0] == []
    decreases |s|
  {
    hide Stripped;
    StrippedUnfold(m, s);
    if s != [] {
      var rest := Stripped(NextMode(m, s[0]), s[1..]);
      StripKeepsLines(NextMode(m, s[0]), s[1..]);
      assert ([s[0]] + rest)[1..] == rest;
    }
  }

  /** The quoted strings of a text, quotes included; `cur` is the one being
      read. A string left open at the end counts as well. */
  function Strings(m: Mode, cur: string, s: string): seq<string>
    decreases |s|
  {
    if s == [] then if m.Quoted? then [cur] else []
    else
      var next := NextMode(m, s[0]);
      if m.Quoted? then
        if next.Quoted? then Strings(next, cur + [s[0]], s[1..])
        else [cur + [s[0]]] + Strings(next, [], s[1..])
      else Strings(next, if next.Quoted? then [s[0]] else [], s[1..])
  }

  /** Quoted strings come through untouched, hash signs and all. */
  lemma {:induction false} StripKeepsStrings(m: Mode, cur: string, s: string)
    requires m.Quoted? || cur == []
    ensures Strings(Resumed(m), cur, Stripped(m, s)) == Strings(m, cur, s)
    decreases |s|
  {
    if s != [] {
      var next := NextMode(m, s[0]);
      var rest := Stripped(next, s[1..]);
      var more := if m.Quoted? && next.Quoted? then cur + [s[0]] else if next.Quoted? then [s[0]] else [];
      StripKeepsStrings(next, more, s[1..]);
      if Dropped(m, s[0]) {
        assert Stripped(m, s) == rest;
      } else {
        assert Stripped(m, s)[1..] == rest;
      }
    }
  }

  predicate HasComment(m: Mode, s: string)
    decreases |s|
  {
    s != [] && (Dropped(m, s[0]) || HasComment(NextMode(m, s[0]), s[1..]))
  }

  /** Only text without comments is left alone. */
  lemma {:induction false} StripChangesOnlyComments(m: Mode, s: string)
    ensures Stripped(m, s) == s <==> !HasComment(m, s)
    ensures |Stripped(m, s)| <= |s|
    decreases |s|
  {
    if s != [] {
      StripChangesOnlyComments(NextMode(m, s[0]), s[1..]);
      var rest := Stripped(NextMode(m, s[0]), s[1..]);
      if Dropped(m, s[0]) {
        assert Stripped(m, s) == rest;
      } else {
        assert Stripped(m, s)[1..] == rest && s == [s[0]] + s[1..];
      }
    }
  }

  /** What the public entry point promises, from its initial state. */
  lemma CommentStrippingIsSafe(text: string)
    ensures Stripped(Code, Stripped(Code, text)) == Stripped(Code, text)
    ensures !HasComment(Code, Stripped(Code, text))
    ensures |Lines(Stripped(Code, text))| == |Lines(text)|
    ensures forall k | 0 <= k < |Lines(text)| :: Lines(Stripped(Code, text))[k] <= Lines(text)[k]
    ensures Strings(Code, [], Stripped(Code, text)) == Strings(Code, [], text)
  {
    StripIsIdempotent(Code, text);
    StripChangesOnlyComments(Code, Stripped(Code, text));
    StripKeepsLines(Code, text);
    StripKeepsStrings(Code, [], text);
  }

  // ---- Arguments -----------------------------------------------------------------------

  /** Python's whitespace. */
  predicate IsSpace(c: char) {
    || '\t' <= c <= '\r'
    || '\U{1c}' <= c <= ' '
    || c == '\U{85}'
    || c == '\U{a0}'
    || c == '\U{1680}'
    || '\U{2000}' <= c <= '\U{200a}'
    || c == '\U{2028}'
    || c == '\U{2029}'
    || c == '\U{202f}'
    || c == '\U{205f}'
    || c == '\U{3000}'
  }

  function TrimLeft(s: string): string {
    if s != [] && IsSpace(s[0]) then TrimLeft(s[1..]) else s
  }

  function TrimRight(s: string): string {
    if s != [] && IsSpace(s[|s| - 1]) then TrimRight(s[..|s| - 1]) else s
  }

  function Trim(s: string): string {
    TrimRight(TrimLeft(s))
  }

  datatype Scan = Scan(depth: nat, inString: bool)

  const START := Scan(0, false)

  function Step(st: Scan, c: char): Scan {
    if st.inString then st.(inString := c != '"')
    else if c == '"' then st.(inString := true)
    else if c in "([{" then st.(depth := st.depth + 1)
    else if c in ")]}" then st.(depth := if st.depth == 0 then 0 else st.depth - 1)
    else st
  }

  /** Tokens break at whitespace outside quotes and brackets. */
  predicate Breaks(st: Scan, c: char) {
    st == START && IsSpace(c)
  }

  function Emitted(cur: string): seq<string> {
    if Trim(cur) == [] then [] else [Trim(cur)]
  }

  function Split(st: Scan, cur: string, s: string): seq<string>
    decreases |s|
  {
    if s == [] then Emitted(cur)
    else if Breaks(st, s[0]) then Emitted(cur) + Split(START, [], s[1..])
    else Split(Step(st, s[0]), cur + [s[0]], s[1..])
  }

  lemma SplitUnfold(st: Scan, cur: string, s: string)
    ensures Split(st, cur, s) ==
              if s == [] then Emitted(cur)
              else if Breaks(st, s[0]) then Emitted(cur) + Split(START, [], s[1..])
              else Split(Step(st, s[0]), cur + [s[0]], s[1..])
  {
    hide IsSpace, Trim;
  }

  lemma PunctuationIsNoSpace(c: char)
    requires c == '"' || c in "([{" || c in ")]}"
    ensures !IsSpace(c)
  {}

  method SplitArgs(body: string) returns (args: seq<string>)
    ensures args == Split(START, [], body)
  {
    hide Trim, IsSpace, Split;
    args := [];
    var cur: string := [];
    var depth: nat, inString := 0, false;
    for i := 0 to |body|
      invariant args + Split(Scan(depth, inString), cur, body[i..]) == Split(START, [], body)
    {
      var c := body[i];
      assert body[i..][0] == c && body[i..][1..] == body[i + 1..];
      SplitUnfold(Scan(depth, inString), cur, body[i..]);
      if c == '"' || c in "([{" || c in ")]}" {
        PunctuationIsNoSpace(c);
      }
      if inString {
        cur := cur + [c];
        if c == '"' {
          inString := false;
        }
      } else if c == '"' {
        inString := true;
        cur := cur + [c];
      } else if c in "([{" {
        depth := depth + 1;
        cur := cur + [c];
      } else if c in ")]}" {
        depth := if depth == 0 then 0 else depth - 1;
        cur := cur + [c];
      } else if IsSpace(c) && depth == 0 {
        var token := Trim(cur);
        if token != [] {
          args := args + [token];
        }
        cur := [];
      } else {
        cur := cur + [c];
      }
    }
    SplitUnfold(Scan(depth, inString), cur, []);
    var token := Trim(cur);
    if token != [] {
      args := args + [token];
    }
  }

  // ---- What a token is -----------------------------------------------------------------

  function Run(st: Scan, s: string): Scan
    decreases |s|
  {
    if s == [] then st else Run(Step(st, s[0]), s[1..])
  }

  /** No character of `s`, read from `st`, breaks the token. */
  predicate Unbroken(st: Scan, s: string)
    decreases |s|
  {
    s == [] || (!Breaks(st, s[0]) && Unbroken(Step(st, s[0]), s[1..]))
  }

  /** Nonempty, not split by the scanner, and nothing to trim. */
  predicate Token(s: string) {
    s != [] && Unbroken(START, s) && !IsSpace(s[0]) && !IsSpace(s[|s| - 1])
  }

  /** A token after which the scanner is back in its initial state. */
  predicate Whole(s: string) {
    Token(s) && Run(START, s) == START
  }

  lemma {:induction false} RunAppend(st: Scan, s: string, t: string)
    ensures Run(st, s + t) == Run(Run(st, s), t)
    ensures Unbroken(st, s + t) <==> Unbroken(st, s) && Unbroken(Run(st, s), t)
    decreases |s|
  {
    if s == [] {
      assert s + t == t;
    } else {
      assert (s + t)[0] == s[0] && (s + t)[1..] == s[1..] + t;
      RunAppend(Step(st, s[0]), s[1..], t);
    }
  }

  lemma RunOne(st: Scan, s: string, c: char)
    ensures Run(st, s + [c]) == Step(Run(st, s), c)
    ensures Unbroken(st, s + [c]) <==> Unbroken(st, s) && !Breaks(Run(st, s), c)
  {
    RunAppend(st, s, [c]);
    assert [c][1..] == [];
  }

  lemma TrimOfTight(s: string)
    requires s != [] && !IsSpace(s[0]) && !IsSpace(s[|s| - 1])
    ensures Trim(s) == s
  {}

  /** The scan never collects leading whitespace, and what it has collected when
      it breaks ends in no whitespace either. */
  lemma Collected(cur: string)
    requires Unbroken(START, cur)
    ensures cur != [] ==> !IsSpace(cur[0])
    ensures cur != [] && Run(START, cur) == START ==> Whole(cur)
  {
    if cur != [] && Run(START, cur) == START {
      var n := |cur| - 1;
      assert cur == cur[..n] + [cur[n]];
      RunOne(START, cur[..n], cur[n]);
    }
  }

  lemma {:induction false} TrimRightIsPrefix(s: string)
    ensures TrimRight(s) <= s
    ensures TrimRight(s) != [] ==> !IsSpace(TrimRight(s)[|TrimRight(s)| - 1])
    ensures s != [] && !IsSpace(s[0]) ==> TrimRight(s) != []
  {
    if s != [] && IsSpace(s[|s| - 1]) {
      TrimRightIsPrefix(s[..|s| - 1]);
    }
  }

  /** What is left at the end of the text is one token, perhaps unfinished. */
  lemma LastEmitted(cur: string)
    requires Unbroken(START, cur)
    ensures cur == [] ==> Emitted(cur) == []
    ensures cur != [] ==> Emitted(cur) == [TrimRight(cur)] && Token(TrimRight(cur))
  {
    if cur != [] {
      Collected(cur);
      TrimRightIsPrefix(cur);
      var token := TrimRight(cur);
      assert cur == token + cur[|token|..];
      RunAppend(START, token, cur[|token|..]);
    }
  }

  ghost predicate Tokens(args: seq<string>) {
    && (forall k | 0 <= k < |args| :: Token(args[k]))
    && (forall k | 0 <= k < |args| - 1 :: Whole(args[k]))
  }

  /** Every argument is a token, and only the last can be unfinished. */
  lemma {:induction false} SplitGivesTokens(st: Scan, cur: string, s: string)
    requires Unbroken(START, cur) && Run(START, cur) == st
    ensures Tokens(Split(st, cur, s))
    decreases |s|
  {
    hide Token, Unbroken, Run;
    if s == [] {
      LastEmitted(cur);
    } else if Breaks(st, s[0]) {
      WholeEmitted(cur);
      StartIsUnbroken();
      SplitGivesTokens(START, [], s[1..]);
      var rest := Split(START, [], s[1..]);
      assert forall k | 0 <= k < |rest| :: (Emitted(cur) + rest)[|Emitted(cur)| + k] == rest[k];
    } else {
      RunOne(START, cur, s[0]);
      SplitGivesTokens(Step(st, s[0]), cur + [s[0]], s[1..]);
    }
  }

  lemma StartIsUnbroken()
    ensures Unbroken(START, []) && Run(START, []) == START
  {}

  lemma WholeEmitted(cur: string)
    requires Unbroken(START, cur) && Run(START, cur) == START
    ensures cur == [] ==> Emitted(cur) == []
    ensures cur != [] ==> Emitted(cur) == [cur] && Whole(cur) && Token(cur)
  {
    Collected(cur);
    if cur != [] {
      TrimOfTight(cur);
    }
  }

  // ---- Round trip ----------------------------------------------------------------------

  function Joined(args: seq<string>): string {
    if args == [] then []
    else if |args| == 1 then args[0]
    else args[0] + [' '] + Joined(args[1..])
  }

  /** Reading an unbroken stretch only collects it. */
  lemma {:induction false} SplitCollects(st: Scan, cur: string, t: string, rest: string)
    requires Unbroken(st, t)
    ensures Split(st, cur, t + rest) == Split(Run(st, t), cur + t, rest)
    decreases |t|
  {
    if t == [] {
      assert t + rest == rest && cur + t == cur;
    } else {
      assert (t + rest)[0] == t[0] && (t + rest)[1..] == t[1..] + rest;
      SplitCollects(Step(st, t[0]), cur + [t[0]], t[1..], rest);
      assert cur + [t[0]] + t[1..] == cur + t;
    }
  }

  lemma {:induction false} SplitUndoesJoin(args: seq<string>)
    requires Tokens(args)
    ensures Split(START, [], Joined(args)) == args
  {
    hide Unbroken, Run;
    if args != [] {
      var t := args[0];
      assert Token(t) && [] + t == t;
      TrimOfTight(t);
      if |args| == 1 {
        SplitCollects(START, [], t, []);
        assert t + [] == t;
      } else {
        var rest := [' '] + Joined(args[1..]);
        assert Joined(args) == t + rest && rest[1..] == Joined(args[1..]);
        assert Whole(t);
        SplitCollects(START, [], t, rest);
        SplitUndoesJoin(args[1..]);
      }
    }
  }

  /** For every string at all: splitting, joining by spaces and splitting again
      gives the same arguments. */
  lemma SplitIsStable(body: string)
    ensures Split(START, [], Joined(Split(START, [], body))) == Split(START, [], body)
  {
    StartIsUnbroken();
    SplitGivesTokens(START, [], body);
    SplitUndoesJoin(Split(START, [], body));
  }

  /** The text without the whitespace that breaks tokens. */
  function Unspaced(st: Scan, s: string): string
    decreases |s|
  {
    if s == [] then []
    else if Breaks(st, s[0]) then Unspaced(START, s[1..])
    else [s[0]] + Unspaced(Step(st, s[0]), s[1..])
  }

  function Concat(args: seq<string>): string {
    if args == [] then [] else args[0] + Concat(args[1..])
  }

  /** `t` is all of `s`, except perhaps for whitespace at its end. */
  predicate AllButTrailing(t: string, s: string) {
    t <= s && forall k | |t| <= k < |s| :: IsSpace(s[k])
  }

  /** Nothing is lost or made up: the arguments run together are the text without
      its separating whitespace, but for whitespace at the end of an unfinished
      last argument. */
  lemma {:induction false} SplitKeepsText(st: Scan, cur: string, s: string)
    requires Unbroken(START, cur) && Run(START, cur) == st
    ensures AllButTrailing(Concat(Split(st, cur, s)), cur + Unspaced(st, s))
    decreases |s|
  {
    hide Token, Unbroken, Run;
    if s == [] {
      LastEmitted(cur);
      TrimmedWasSpace(cur);
      assert cur + [] == cur;
      assert cur != [] ==> Concat([TrimRight(cur)]) == TrimRight(cur) + [];
    } else if Breaks(st, s[0]) {
      WholeEmitted(cur);
      StartIsUnbroken();
      SplitKeepsText(START, [], s[1..]);
      var rest := Split(START, [], s[1..]);
      assert [] + Unspaced(START, s[1..]) == Unspaced(START, s[1..]);
      if cur == [] {
        assert Emitted(cur) + rest == rest;
      } else {
        assert (Emitted(cur) + rest)[0] == cur && (Emitted(cur) + rest)[1..] == rest;
      }
    } else {
      RunOne(START, cur, s[0]);
      SplitKeepsText(Step(st, s[0]), cur + [s[0]], s[1..]);
      assert cur + [s[0]] + Unspaced(Step(st, s[0]), s[1..]) == cur + Unspaced(st, s);
    }
  }

  lemma {:induction false} TrimmedWasSpace(s: string)
    ensures AllButTrailing(TrimRight(s), s)
  {
    if s != [] && IsSpace(s[|s| - 1]) {
      TrimmedWasSpace(s[..|s| - 1]);
    }
  }
}
