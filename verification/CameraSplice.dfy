/** Finding the camera block of a stage's text by a scan over its lines, and
    splicing another one in (`docs/fit_cameras.py`). */
module CameraSplice {

  datatype Result<T> = Ok(value: T) | Error(message: string)

  const HEAD := "    def Camera \"MainCam\""
  const OPEN := "    {"
  const CLOSE := "    }"

  // ---- Lines ---------------------------------------------------------------------------

  /** The characters Python's `splitlines` breaks at. */
  predicate IsBreak(c: char) {
    || c == '\n' || c == '\r' || c == '\U{0b}' || c == '\U{0c}'
    || '\U{1c}' <= c <= '\U{1e}'
    || c == '\U{85}' || c == '\U{2028}' || c == '\U{2029}'
  }

  /** Where the first line ends, its break included; `\r\n` is one break. */
  function LineEnd(s: string): (e: nat)
    requires s != []
    ensures 0 < e <= |s|
  {
    if s[0] == '\r' && |s| > 1 && s[1] == '\n' then 2
    else if IsBreak(s[0]) || |s| == 1 then 1
    else 1 + LineEnd(s[1..])
  }

  /** The lines of a text, each with its break. */
  function Lines(s: string): seq<string> {
    if s == [] then [] else [s[..LineEnd(s)]] + Lines(s[LineEnd(s)..])
  }

  lemma LinesUnfold(s: string)
    requires s != []
    ensures Lines(s) == [s[..LineEnd(s)]] + Lines(s[LineEnd(s)..])
  {}

  method SplitLines(s: string) returns (lines: seq<string>)
    ensures lines == Lines(s)
  {
    hide LineEnd;
    lines := [];
    var start := 0;
    assert s[0..] == s;
    while start < |s|
      invariant 0 <= start <= |s|
      invariant lines + Lines(s[start..]) == Lines(s)
      decreases |s| - start
    {
      hide Lines;
      var rest := s[start..];
      var e := LineEnd(rest);
      LinesUnfold(rest);
      assert rest[e..] == s[start + e..];
      lines, start := lines + [rest[..e]], start + e;
    }
  }

  /** A line without its newline characters. */
  function Content(line: string): string {
    if line != [] && (line[|line| - 1] == '\n' || line[|line| - 1] == '\r') then Content(line[..|line| - 1]) else line
  }

  /** The number of characters in some lines. */
  function Length(lines: seq<string>): nat {
    if lines == [] then 0 else Length(lines[..|lines| - 1]) + |lines[|lines| - 1]|
  }

  lemma {:induction false} LengthAppend(a: seq<string>, b: seq<string>)
    ensures Length(a + b) == Length(a) + Length(b)
  {
    if b == [] {
      assert a + b == a;
    } else {
      assert (a + b)[..|a + b| - 1] == a + b[..|b| - 1];
      LengthAppend(a, b[..|b| - 1]);
    }
  }

  lemma {:induction false} LinesLength(s: string)
    ensures Length(Lines(s)) == |s|
  {
    if s != [] {
      var e := LineEnd(s);
      LinesLength(s[e..]);
      LengthAppend([s[..e]], Lines(s[e..]));
      assert [s[..e]][..0] == [];
    }
  }

  /** The first line of a text is the first line of every prefix that holds it. */
  lemma {:induction false} LineEndOfPrefix(s: string, n: nat)
    requires s != [] && LineEnd(s) <= n <= |s|
    ensures LineEnd(s[..n]) == LineEnd(s)
  {
    if !(s[0] == '\r' && |s| > 1 && s[1] == '\n') && !IsBreak(s[0]) && |s| > 1 {
      LineEndOfPrefix(s[1..], n - 1);
      assert s[..n][1..] == s[1..][..n - 1];
    }
  }

  lemma NoLines()
    ensures Lines([]) == [] && Length([]) == 0
  {}

  lemma LengthOfOne(line: string)
    ensures Length([line]) == |line|
  {
    assert [line][..0] == [];
  }

  /** The position after `k` lines is the first line and `k - 1` of the rest. */
  lemma LengthFromFirst(s: string, k: nat)
    requires s != [] && 0 < k <= |Lines(s)|
    ensures k - 1 <= |Lines(s[LineEnd(s)..])|
    ensures Lines(s)[..k] == [s[..LineEnd(s)]] + Lines(s[LineEnd(s)..])[..k - 1]
    ensures Lines(s)[k..] == Lines(s[LineEnd(s)..])[k - 1..]
    ensures Length(Lines(s)[..k]) == LineEnd(s) + Length(Lines(s[LineEnd(s)..])[..k - 1])
  {
    hide Lines, Length, LineEnd;
    LinesUnfold(s);
    LengthAppend([s[..LineEnd(s)]], Lines(s[LineEnd(s)..])[..k - 1]);
    LengthOfOne(s[..LineEnd(s)]);
  }

  /** A text can be cut between any two of its lines. */
  lemma {:induction false} CutBetweenLines(s: string, k: nat)
    requires k <= |Lines(s)|
    ensures
      var cut := Length(Lines(s)[..k]);
      cut <= |s| && Lines(s[..cut]) == Lines(s)[..k] && Lines(s[cut..]) == Lines(s)[k..]
  {
    hide Lines, Length, LineEnd;
    NoLines();
    if k == 0 {
      assert Lines(s)[..0] == [] && s[..0] == [] && s[0..] == s;
    } else {
      var e := LineEnd(s);
      var first, rest := s[..e], s[e..];
      LengthFromFirst(s, k);
      CutBetweenLines(rest, k - 1);
      var cut := Length(Lines(rest)[..k - 1]);
      var head := s[..e + cut];
      LineEndOfPrefix(s, e + cut);
      LinesUnfold(head);
      assert head[..e] == first && head[e..] == rest[..cut];
      assert s[e + cut..] == rest[cut..];
    }
  }

  /** Texts that join at the end of a line join their lines. */
  predicate JoinsAtLine(a: string, b: string) {
    a == [] || b == [] || (IsBreak(a[|a| - 1]) && !(a[|a| - 1] == '\r' && b[0] == '\n'))
  }

  lemma {:induction false} LineEndOfJoin(a: string, b: string)
    requires a != [] && b != [] && JoinsAtLine(a, b)
    ensures LineEnd(a + b) == LineEnd(a)
  {
    if |a| > 1 && !IsBreak(a[0]) {
      LineEndOfJoin(a[1..], b);
      assert (a + b)[1..] == a[1..] + b;
    }
  }

  lemma {:induction false} LinesOfJoin(a: string, b: string)
    requires JoinsAtLine(a, b)
    ensures Lines(a + b) == Lines(a) + Lines(b)
    decreases |a|
  {
    hide LineEnd;
    if a == [] {
      assert a + b == b;
    } else if b == [] {
      assert a + b == a;
    } else {
      hide Lines;
      LineEndOfJoin(a, b);
      var e := LineEnd(a);
      LinesUnfold(a);
      LinesUnfold(a + b);
      assert (a + b)[..e] == a[..e] && (a + b)[e..] == a[e..] + b;
      LinesOfJoin(a[e..], b);
    }
  }

  /** A line that others follow ends in a break. */
  lemma {:induction false} LineIsBroken(s: string)
    requires s != [] && LineEnd(s) < |s|
    ensures IsBreak(s[LineEnd(s) - 1])
    ensures !(s[LineEnd(s) - 1] == '\r' && s[LineEnd(s)] == '\n')
  {
    if !(s[0] == '\r' && |s| > 1 && s[1] == '\n') && !IsBreak(s[0]) && |s| > 1 {
      LineIsBroken(s[1..]);
    }
  }

  lemma {:induction false} CutJoinsAtLine(s: string, k: nat)
    requires k <= |Lines(s)| && Length(Lines(s)[..k]) <= |s|
    ensures var cut := Length(Lines(s)[..k]); JoinsAtLine(s[..cut], s[cut..])
  {
    hide Lines, Length, LineEnd;
    NoLines();
    if k == 0 {
      assert Lines(s)[..0] == [];
    } else {
      var e := LineEnd(s);
      var rest := s[e..];
      LengthFromFirst(s, k);
      CutBetweenLines(rest, k - 1);
      CutJoinsAtLine(rest, k - 1);
      var cut := Length(Lines(rest)[..k - 1]);
      assert s[e + cut..] == rest[cut..];
      if cut > 0 {
        assert s[..e + cut][e + cut - 1] == rest[..cut][cut - 1];
      } else if e < |s| {
        LineIsBroken(s);
        assert s[..e][e - 1] == s[e - 1] && s[e..][0] == s[e];
      }
    }
  }

  // ---- The camera block ----------------------------------------------------------------

  datatype Span = Absent | Found(start: nat, end: nat) | Malformed(message: string)

  ghost predicate FirstHead(lines: seq<string>, i: nat) {
    i < |lines| && Content(lines[i]) == HEAD && forall j | 0 <= j < i :: Content(lines[j]) != HEAD
  }

  /** Lines `i` to `c` are the camera: the first head, a brace at the prim's own
      indent right after it, and the first closing one after that. */
  ghost predicate IsBlock(lines: seq<string>, i: nat, c: nat) {
    && FirstHead(lines, i)
    && i + 2 <= c < |lines|
    && Content(lines[i + 1]) == OPEN
    && Content(lines[c]) == CLOSE
    && forall j | i + 2 <= j < c :: Content(lines[j]) != CLOSE
  }

  ghost predicate NoHead(lines: seq<string>) {
    forall j | 0 <= j < |lines| :: Content(lines[j]) != HEAD
  }

  /** The span of the camera's lines in characters; none exactly when no line is
      a head; an error when there is a head without a block. */
  ghost predicate SpanIs(text: string, span: Span) {
    var lines := Lines(text);
    match span
    case Absent => NoHead(lines)
    case Found(start, end) =>
      exists i: nat, c: nat ::
        IsBlock(lines, i, c) && start == Length(lines[..i]) && end == Length(lines[..c + 1])
    case Malformed(message) =>
      exists i: nat :: FirstHead(lines, i) && (forall c: nat :: !IsBlock(lines, i, c)) && message == Complaint(lines, i)
  }

  /** What is wrong with a head at line `i` that opens no block. */
  function Complaint(lines: seq<string>, i: nat): string {
    if i + 1 >= |lines| || Content(lines[i + 1]) != OPEN then "MainCam is not followed by an opening brace"
    else "MainCam block is never closed"
  }

  lemma NextLength(lines: seq<string>, k: nat)
    requires k < |lines|
    ensures Length(lines[..k + 1]) == Length(lines[..k]) + |lines[k]|
  {
    assert lines[..k + 1][..k] == lines[..k];
  }

  method CameraBlockSpan(text: string) returns (span: Span)
    ensures SpanIs(text, span)
  {
    hide Content, Length, Lines;
    var lines := SplitLines(text);
    var offset := 0;
    NoLines();
    assert lines[..0] == [];
    for index := 0 to |lines|
      invariant offset == Length(lines[..index])
      invariant forall j | 0 <= j < index :: Content(lines[j]) != HEAD
    {
      NextLength(lines, index);
      var line := lines[index];
      if Content(line) != HEAD {
        offset := offset + |line|;
        continue;
      }
      assert FirstHead(lines, index);
      var cursor := offset + |line|;
      if index + 1 >= |lines| || Content(lines[index + 1]) != OPEN {
        return Malformed("MainCam is not followed by an opening brace");
      }
      NextLength(lines, index + 1);
      cursor := cursor + |lines[index + 1]|;
      for k := index + 2 to |lines|
        invariant cursor == Length(lines[..k])
        invariant forall j | index + 2 <= j < k :: Content(lines[j]) != CLOSE
      {
        NextLength(lines, k);
        cursor := cursor + |lines[k]|;
        if Content(lines[k]) == CLOSE {
          assert IsBlock(lines, index, k);
          return Found(offset, cursor);
        }
      }
      return Malformed("MainCam block is never closed");
    }
    return Absent;
  }

  lemma BlockIsUnique(lines: seq<string>, i: nat, c: nat, j: nat, d: nat)
    requires IsBlock(lines, i, c) && IsBlock(lines, j, d)
    ensures i == j && c == d
  {}

  /** The text determines the span. */
  lemma SpanIsUnique(text: string, a: Span, b: Span)
    requires SpanIs(text, a) && SpanIs(text, b)
    ensures a == b
  {
    hide Content, Lines, Length, Complaint;
    if a.Found? && b.Found? {
      var lines := Lines(text);
      var i: nat, c: nat :| IsBlock(lines, i, c) && a.start == Length(lines[..i]) && a.end == Length(lines[..c + 1]);
      var j: nat, d: nat :| IsBlock(lines, j, d) && b.start == Length(lines[..j]) && b.end == Length(lines[..d + 1]);
      BlockIsUnique(lines, i, c, j, d);
    }
  }

  // ---- Splicing ------------------------------------------------------------------------

  /** A camera block as the template writes it: a head, a brace, no line that is
      the closing brace but the last, and a newline at the end. */
  ghost predicate WellFormed(block: string) {
    var lines := Lines(block);
    && lines != []
    && IsBlock(lines, 0, |lines| - 1)
    && block[|block| - 1] == '\n'
  }

  lemma WellFormedStart(block: string)
    requires block != [] && Lines(block) != [] && Content(Lines(block)[0]) == HEAD
    ensures block[0] == ' '
  {
    ContentIsPrefix(Lines(block)[0]);
    assert Lines(block)[0] == block[..LineEnd(block)];
  }

  lemma {:induction false} ContentIsPrefix(line: string)
    ensures Content(line) <= line
  {
    if line != [] && (line[|line| - 1] == '\n' || line[|line| - 1] == '\r') {
      ContentIsPrefix(line[..|line| - 1]);
    }
  }

  lemma FoundAt(text: string, i: nat, c: nat)
    requires IsBlock(Lines(text), i, c)
    ensures SpanIs(text, Found(Length(Lines(text)[..i]), Length(Lines(text)[..c + 1])))
  {}

  lemma WellFormedLines(block: string)
    requires WellFormed(block)
    ensures block != [] && block[|block| - 1] == '\n'
    ensures Lines(block) != [] && IsBlock(Lines(block), 0, |Lines(block)| - 1)
  {}

  lemma NewlineJoins(a: string, b: string)
    requires a == [] || a[|a| - 1] == '\n'
    ensures JoinsAtLine(a, b)
  {}

  /** Between a headless text and anything at all, a block is found where it is. */
  lemma BlockInContext(pre: string, block: string, post: string)
    requires WellFormed(block) && NoHead(Lines(pre)) && JoinsAtLine(pre, block)
    ensures SpanIs(pre + block + post, Found(|pre|, |pre| + |block|))
  {
    hide *;
    var a, b, c := Lines(pre), Lines(block), Lines(post);
    var rest := block + post;
    WellFormedLines(block);
    NewlineJoins(block, post);
    LinesOfJoin(block, post);
    JoinsByFirst(pre, block, rest);
    LinesOfJoin(pre, rest);
    assert pre + block + post == pre + rest;
    LinesLength(pre);
    LinesLength(block);
    LengthAppend(a, b);
    ShiftedBlock(a, b, c);
    FoundAt(pre + rest, |a|, |a| + |b| - 1);
    assert (a + (b + c))[..|a|] == a && (a + (b + c))[..|a| + |b|] == a + b;
  }

  lemma JoinsByFirst(a: string, b: string, c: string)
    requires JoinsAtLine(a, b) && b != [] && c != [] && b[0] == c[0]
    ensures JoinsAtLine(a, c)
  {}

  lemma ShiftedBlock(a: seq<string>, b: seq<string>, c: seq<string>)
    requires NoHead(a) && b != [] && IsBlock(b, 0, |b| - 1)
    ensures IsBlock(a + (b + c), |a|, |a| + |b| - 1)
  {
    hide Content;
    var lines := a + (b + c);
    forall j | 0 <= j < |b| ensures lines[|a| + j] == b[j] {}
    forall j | |a| + 2 <= j < |a| + |b| - 1 ensures Content(lines[j]) != CLOSE {
      assert lines[j] == b[j - |a|];
    }
  }

  /** What precedes the block found is headless, and ends at the end of a line. */
  lemma BeforeBlock(text: string, start: nat, end: nat, block: string)
    requires SpanIs(text, Found(start, end)) && WellFormed(block)
    ensures start <= end <= |text|
    ensures NoHead(Lines(text[..start])) && JoinsAtLine(text[..start], block)
  {
    hide Content, Lines, Length, JoinsAtLine;
    var lines := Lines(text);
    var i: nat, c: nat :| IsBlock(lines, i, c) && start == Length(lines[..i]) && end == Length(lines[..c + 1]);
    FoundInText(text, Found(start, end));
    CutBetweenLines(text, i);
    CutJoinsAtLine(text, i);
    StartsAtHead(text[start..]);
    StartsAtHead(block);
    JoinsEither(text[..start], text[start..], block);
  }

  lemma JoinsEither(a: string, b: string, c: string)
    requires JoinsAtLine(a, b) && b != [] && c != [] && c[0] != '\n'
    ensures JoinsAtLine(a, c)
  {}

  lemma StartsAtHead(s: string)
    requires Lines(s) != [] && Content(Lines(s)[0]) == HEAD
    ensures s != [] && s[0] == ' '
  {
    WellFormedStart(s);
  }

  function TrimNewlines(s: string): string {
    if s != [] && s[|s| - 1] == '\n' then TrimNewlines(s[..|s| - 1]) else s
  }

  const NOT_CLOSED := "unexpected stage ending: the file does not close with '}'"

  /** The text with the block in it, given where its camera is. */
  function Spliced(text: string, block: string, span: Span): Result<string>
    requires span.Found? ==> span.start <= span.end <= |text|
  {
    match span
    case Found(start, end) => Ok(text[..start] + block + text[end..])
    case Malformed(message) => Error(message)
    case Absent =>
      var stripped := TrimNewlines(text);
      if stripped == [] || stripped[|stripped| - 1] != '}' then Error(NOT_CLOSED)
      else Ok(TrimNewlines(stripped[..|stripped| - 1]) + "\n\n" + block + "}\n")
  }

  /** `result` is what injecting the block gives. */
  ghost predicate Injected(text: string, block: string, result: Result<string>) {
    exists span ::
      && SpanIs(text, span)
      && (span.Found? ==> span.start <= span.end <= |text|)
      && result == Spliced(text, block, span)
  }

  method InjectCamera(text: string, block: string) returns (result: Result<string>)
    ensures Injected(text, block, result)
  {
    hide SpanIs;
    var span := CameraBlockSpan(text);
    FoundInText(text, span);
    match span {
      case Found(start, end) =>
        result := Ok(text[..start] + block + text[end..]);
      case Malformed(message) =>
        result := Error(message);
      case Absent =>
        var stripped := TrimNewlines(text);
        if stripped == [] || stripped[|stripped| - 1] != '}' {
          result := Error(NOT_CLOSED);
        } else {
          result := Ok(TrimNewlines(stripped[..|stripped| - 1]) + "\n\n" + block + "}\n");
        }
    }
    assert result == Spliced(text, block, span);
  }

  lemma FoundInText(text: string, span: Span)
    requires SpanIs(text, span)
    ensures span.Found? ==> span.start <= span.end <= |text|
  {
    hide Content, Lines, Length;
    if span.Found? {
      var lines := Lines(text);
      var i: nat, c: nat :|
        IsBlock(lines, i, c) && span.start == Length(lines[..i]) && span.end == Length(lines[..c + 1]);
      CutBetweenLines(text, c + 1);
      assert lines[..c + 1] == lines[..i] + lines[i..c + 1];
      LengthAppend(lines[..i], lines[i..c + 1]);
    }
  }

  lemma InjectionIsDetermined(text: string, block: string, a: Result<string>, b: Result<string>)
    requires Injected(text, block, a) && Injected(text, block, b)
    ensures a == b
  {
    hide SpanIs, Spliced;
    var s :| SpanIs(text, s) && (s.Found? ==> s.start <= s.end <= |text|) && a == Spliced(text, block, s);
    var t :| SpanIs(text, t) && (t.Found? ==> t.start <= t.end <= |text|) && b == Spliced(text, block, t);
    SpanIsUnique(text, s, t);
  }

  // ---- Replacing a camera --------------------------------------------------------------

  /** A camera already there is replaced and nothing else is touched; the new
      block is found exactly where it was put. */
  lemma ReplacementIsLocal(text: string, start: nat, end: nat, block: string, result: Result<string>)
    requires SpanIs(text, Found(start, end)) && WellFormed(block) && Injected(text, block, result)
    ensures start <= end <= |text| && result == Ok(text[..start] + block + text[end..])
    ensures SpanIs(result.value, Found(start, start + |block|))
  {
    hide SpanIs, WellFormed;
    BeforeBlock(text, start, end, block);
    InjectionIsDetermined(text, block, result, Spliced(text, block, Found(start, end)));
    BlockInContext(text[..start], block, text[end..]);
  }

  /** Of two injections into a text with a camera the last one wins. */
  lemma LastWriteWins(text: string, start: nat, end: nat, first: string, second: string,
      once: Result<string>, twice: Result<string>, straight: Result<string>)
    requires SpanIs(text, Found(start, end)) && WellFormed(first) && WellFormed(second)
    requires Injected(text, first, once) && once.Ok? && Injected(once.value, second, twice)
    requires Injected(text, second, straight)
    ensures twice == straight && twice.Ok?
  {
    hide SpanIs, WellFormed, Injected;
    ReplacementIsLocal(text, start, end, first, once);
    ReplacementIsLocal(text, start, end, second, straight);
    ReplacementIsLocal(once.value, start, start + |first|, second, twice);
    assert once.value[..start] == text[..start];
    assert once.value[start + |first|..] == text[end..];
  }

  // ---- Adding a camera -----------------------------------------------------------------

  function Last(s: string): string {
    if s == [] then [] else Lines(s)[|Lines(s)| - 1]
  }

  /** A character more belongs to the last line, unless that one has ended. */
  lemma {:induction false} AddChar(s: string, c: char)
    requires s != []
    ensures
      var ended := IsBreak(s[|s| - 1]) && !(s[|s| - 1] == '\r' && c == '\n');
      Lines(s + [c]) == if ended then Lines(s) + [[c]] else Lines(s)[..|Lines(s)| - 1] + [Last(s) + [c]]
  {
    hide LineEnd, Lines;
    var e := LineEnd(s);
    LinesUnfold(s);
    if e < |s| {
      var rest := s[e..];
      LineIsBroken(s);
      JoinOfCut(s, e, c);
      AddChar(rest, c);
      LinesAreThere(rest);
      assert Last(s) == Last(rest);
      assert Lines(s)[..|Lines(s)| - 1] == [s[..e]] + Lines(rest)[..|Lines(rest)| - 1];
    } else {
      OneLine(s, c);
    }
  }

  lemma JoinOfCut(s: string, e: nat, c: char)
    requires s != [] && e == LineEnd(s) < |s| && IsBreak(s[e - 1]) && !(s[e - 1] == '\r' && s[e] == '\n')
    ensures Lines(s + [c]) == [s[..e]] + Lines(s[e..] + [c])
  {
    hide Lines, LineEnd;
    var first, rest := s[..e], s[e..];
    assert s + [c] == first + (rest + [c]) && s == first + rest;
    LinesOfJoin(first, rest + [c]);
    LinesOfJoin(first, rest);
    LinesUnfold(s);
    assert ([s[..e]] + Lines(rest))[..1] == [first];
    LineEndOfPrefix(s, e);
    LinesUnfold(first);
    NoLines();
    assert first[..e] == first && first[e..] == [];
  }

  /** A text of a single line and a character more. */
  lemma {:induction false} OneLine(s: string, c: char)
    requires s != [] && LineEnd(s) == |s|
    ensures
      var ended := IsBreak(s[|s| - 1]) && !(s[|s| - 1] == '\r' && c == '\n');
      Lines(s + [c]) == if ended then Lines(s) + [[c]] else Lines(s)[..|Lines(s)| - 1] + [Last(s) + [c]]
  {
    hide Lines;
    var ended := IsBreak(s[|s| - 1]) && !(s[|s| - 1] == '\r' && c == '\n');
    SingleLine(s);
    if ended {
      LinesOfJoin(s, [c]);
      SingleLine([c]);
    } else {
      OpenLineGrows(s, c);
      SingleLine(s + [c]);
      assert Lines(s)[..0] + [Last(s) + [c]] == [s + [c]];
    }
  }

  lemma SingleLine(s: string)
    requires s != [] && LineEnd(s) == |s|
    ensures Lines(s) == [s]
  {
    NoLines();
    assert s[..|s|] == s && s[|s|..] == [];
  }

  lemma {:induction false} OpenLineGrows(s: string, c: char)
    requires s != [] && LineEnd(s) == |s|
    requires !(IsBreak(s[|s| - 1]) && !(s[|s| - 1] == '\r' && c == '\n'))
    ensures LineEnd(s + [c]) == |s| + 1
  {
    if |s| > 1 && !IsBreak(s[0]) {
      OpenLineGrows(s[1..], c);
      assert (s + [c])[1..] == s[1..] + [c];
    }
  }

  lemma ContentOfNewline(line: string)
    ensures Content(line + "\n") == Content(line)
  {
    assert (line + "\n")[..|line|] == line;
  }

  lemma NoHeadAppend(lines: seq<string>, line: string)
    ensures NoHead(lines + [line]) <==> NoHead(lines) && Content(line) != HEAD
  {
    hide Content;
    var more := lines + [line];
    assert more[|lines|] == line && forall j | 0 <= j < |lines| :: more[j] == lines[j];
  }

  /** A newline at the end makes no line a head, nor stops one being it. */
  lemma NewlineKeepsHeads(s: string)
    ensures NoHead(Lines(s + "\n")) <==> NoHead(Lines(s))
  {
    hide Lines, Content, NoHead;
    EmptyIsNoHead();
    NewlineAlone();
    NoLines();
    if s == [] {
      assert s + "\n" == "\n";
      NoHeadAppend([], "\n");
      assert [] + ["\n"] == ["\n"];
    } else {
      assert s + "\n" == s + ['\n'];
      AddChar(s, '\n');
      AllButLast(s);
      NoHeadAppend(Lines(s), "\n");
      ContentOfNewline(Last(s));
      NoHeadAppend(Lines(s)[..|Lines(s)| - 1], Last(s) + "\n");
      NoHeadAppend(Lines(s)[..|Lines(s)| - 1], Last(s));
      assert Last(s) + "\n" == Last(s) + ['\n'];
    }
  }

  lemma AllButLast(s: string)
    requires s != []
    ensures |Lines(s)| > 0 && Lines(s) == Lines(s)[..|Lines(s)| - 1] + [Last(s)]
  {}

  lemma EmptyIsNoHead()
    ensures NoHead([]) && Content([]) != HEAD
  {}

  lemma NewlineAlone()
    ensures Lines("\n") == ["\n"] && Content("\n") == []
  {
    SingleLine("\n");
  }

  lemma LinesAreThere(s: string)
    requires s != []
    ensures |Lines(s)| > 0 && Last(s) == Lines(s)[|Lines(s)| - 1]
  {}

  lemma {:induction false} TrimKeepsHeads(s: string)
    ensures NoHead(Lines(TrimNewlines(s))) <==> NoHead(Lines(s))
  {
    if s != [] && s[|s| - 1] == '\n' {
      TrimKeepsHeads(s[..|s| - 1]);
      NewlineKeepsHeads(s[..|s| - 1]);
      assert s == s[..|s| - 1] + "\n";
    }
  }

  /** Taking the last brace off a headless text leaves it headless, unless it
      stood right behind a head. */
  lemma HeadBeforeBrace(s: string)
    requires NoHead(Lines(s + "}"))
    ensures NoHead(Lines(s)) <==> s == [] || Content(Last(s)) != HEAD
    ensures !NoHead(Lines(s)) ==> FirstHead(Lines(s), |Lines(s)| - 1) && !IsBreak(s[|s| - 1])
  {
    hide Lines, Content, NoHead;
    NoLines();
    EmptyIsNoHead();
    if s != [] {
      assert s + "}" == s + ['}'];
      AddChar(s, '}');
      AllButLast(s);
      var others := Lines(s)[..|Lines(s)| - 1];
      NoHeadAppend(others, Last(s));
      NoHeadAppend(others, Last(s) + ['}']);
      NoHeadAppend(Lines(s), ['}']);
      HeadIsFirst(others, Last(s));
    }
  }

  lemma HeadIsFirst(others: seq<string>, line: string)
    requires NoHead(others)
    ensures Content(line) == HEAD ==> FirstHead(others + [line], |others|)
  {
    hide Content;
    assert forall j | 0 <= j < |others| :: (others + [line])[j] == others[j];
  }

  /** The text before the brace that closes the stage. */
  ghost predicate ClosesAfter(text: string, body: string) {
    TrimNewlines(text) == body + "}"
  }

  /** The part of the text that stays in front of an added camera. */
  function Front(body: string): string {
    TrimNewlines(body) + "\n\n"
  }

  lemma AddedText(text: string, body: string, block: string, result: Result<string>)
    requires SpanIs(text, Absent) && ClosesAfter(text, body) && Injected(text, block, result)
    ensures result == Ok(Front(body) + block + "}\n")
  {
    hide SpanIs;
    InjectionIsDetermined(text, block, result, Spliced(text, block, Absent));
    assert (body + "}")[..|body|] == body;
  }

  lemma FrontHeads(text: string, body: string)
    requires SpanIs(text, Absent) && ClosesAfter(text, body)
    ensures NoHead(Lines(body + "}"))
    ensures NoHead(Lines(Front(body))) <==> NoHead(Lines(body))
  {
    hide Lines, NoHead;
    TrimKeepsHeads(text);
    TrimKeepsHeads(body);
    NewlineKeepsHeads(TrimNewlines(body));
    NewlineKeepsHeads(TrimNewlines(body) + "\n");
    assert TrimNewlines(body) + "\n" + "\n" == Front(body);
  }

  /** A camera added to a text without one is found where it was put, if and
      only if the stage's last brace is not on a line with a camera's head. */
  lemma AdditionIsFound(text: string, body: string, block: string, result: Result<string>)
    requires SpanIs(text, Absent) && ClosesAfter(text, body) && WellFormed(block)
    requires Injected(text, block, result)
    ensures result == Ok(Front(body) + block + "}\n")
    ensures SpanIs(result.value, Found(|Front(body)|, |Front(body)| + |block|)) <==>
            (body == [] || Content(Last(body)) != HEAD)
  {
    hide Lines, Content, WellFormed, Injected, SpanIs, TrimNewlines;
    AddedText(text, body, block, result);
    FrontHeads(text, body);
    HeadBeforeBrace(body);
    if body == [] || Content(Last(body)) != HEAD {
      NewlineJoins(Front(body), block);
      BlockInContext(Front(body), block, "}\n");
    } else {
      BareHeadIsMalformed(body, block + "}\n");
      var span := Malformed("MainCam is not followed by an opening brace");
      assert Front(body) + block + "}\n" == Front(body) + (block + "}\n");
      if SpanIs(result.value, Found(|Front(body)|, |Front(body)| + |block|)) {
        SpanIsUnique(result.value, span, Found(|Front(body)|, |Front(body)| + |block|));
      }
    }
  }

  /** A head left bare in front of the camera spoils the text. */
  lemma BareHeadIsMalformed(body: string, rest: string)
    requires body != [] && !IsBreak(body[|body| - 1]) && FirstHead(Lines(body), |Lines(body)| - 1)
    ensures SpanIs(Front(body) + rest, Malformed("MainCam is not followed by an opening brace"))
  {
    hide Lines, Content;
    var n := |Lines(body)|;
    assert TrimNewlines(body) == body;
    var top, tail := body + "\n", "\n" + rest;
    assert Front(body) + rest == top + tail;
    assert top == body + ['\n'];
    AddChar(body, '\n');
    LinesAreThere(body);
    ContentOfNewline(Last(body));
    LinesOfJoin(top, tail);
    NewlineFirst(rest);
    var lines := Lines(top) + Lines(tail);
    assert lines[n - 1] == Last(body) + ['\n'] == Last(body) + "\n";
    forall j | 0 <= j < n - 1 ensures lines[j] == Lines(body)[j] {}
    assert FirstHead(lines, n - 1);
    assert lines[n] == "\n";
    NewlineAlone();
    assert Content(lines[n]) != OPEN;
  }

  lemma NewlineFirst(rest: string)
    ensures Lines("\n" + rest) != [] && Lines("\n" + rest)[0] == "\n"
  {
    assert ("\n" + rest)[..1] == "\n";
  }

  /** Of two injections into a text without a camera the last one wins as well,
      if and only if the closing brace is not on a line with a camera's head. */
  lemma LastAdditionWins(text: string, body: string, first: string, second: string,
      once: Result<string>, twice: Result<string>, straight: Result<string>)
    requires SpanIs(text, Absent) && ClosesAfter(text, body) && WellFormed(first) && WellFormed(second)
    requires Injected(text, first, once) && once.Ok? && Injected(once.value, second, twice)
    requires Injected(text, second, straight)
    ensures straight.Ok?
    ensures twice == straight <==> body == [] || Content(Last(body)) != HEAD
  {
    hide SpanIs, WellFormed, Injected, Content, Last, ClosesAfter, Front;
    AdditionIsFound(text, body, first, once);
    AddedText(text, body, second, straight);
    var front := Front(body);
    if body == [] || Content(Last(body)) != HEAD {
      ReplacementIsLocal(once.value, |front|, |front| + |first|, second, twice);
      assert once.value[..|front|] == front;
      assert once.value[|front| + |first|..] == "}\n";
    } else {
      SpoiledText(text, body, first, once, second, twice);
    }
  }

  lemma SpoiledText(
      text: string, body: string, first: string, once: Result<string>, second: string, twice: Result<string>)
    requires SpanIs(text, Absent) && ClosesAfter(text, body) && body != [] && Content(Last(body)) == HEAD
    requires Injected(text, first, once) && once.Ok? && Injected(once.value, second, twice)
    ensures twice.Error?
  {
    hide Lines, Content, Injected, SpanIs, TrimNewlines;
    AddedText(text, body, first, once);
    FrontHeads(text, body);
    HeadBeforeBrace(body);
    BareHeadIsMalformed(body, first + "}\n");
    assert Front(body) + first + "}\n" == Front(body) + (first + "}\n");
    MalformedStays(once.value, "MainCam is not followed by an opening brace", second, twice);
  }

  lemma MalformedStays(text: string, message: string, block: string, result: Result<string>)
    requires SpanIs(text, Malformed(message)) && Injected(text, block, result)
    ensures result.Error?
  {
    hide SpanIs;
    InjectionIsDetermined(text, block, result, Spliced(text, block, Malformed(message)));
  }

  /** The last brace on a line of its own, as a stage ends: nothing is in the
      way. */
  lemma BraceOnItsOwnLine(body: string)
    requires body == [] || body[|body| - 1] == '\n'
    requires NoHead(Lines(body + "}"))
    ensures body == [] || Content(Last(body)) != HEAD
  {
    hide Lines, Content;
    HeadBeforeBrace(body);
  }

  // ---- The template --------------------------------------------------------------------

  /** A line of the template: no break but the newline it ends in. */
  predicate TemplateLine(line: string) {
    && line != [] && line[|line| - 1] == '\n'
    && forall k | 0 <= k < |line| - 1 :: !IsBreak(line[k])
  }

  function Concat(lines: seq<string>): string {
    if lines == [] then [] else lines[0] + Concat(lines[1..])
  }

  lemma {:induction false} TemplateLineEnd(line: string)
    requires TemplateLine(line)
    ensures LineEnd(line) == |line|
  {
    if |line| > 1 {
      TemplateLineEnd(line[1..]);
    }
  }

  lemma {:induction false} LinesOfTemplate(lines: seq<string>)
    requires forall k | 0 <= k < |lines| :: TemplateLine(lines[k])
    ensures Lines(Concat(lines)) == lines
  {
    hide LineEnd;
    if lines != [] {
      var first, rest := lines[0], Concat(lines[1..]);
      LinesOfTemplate(lines[1..]);
      TemplateLineEnd(first);
      SingleLine(first);
      hide Lines;
      NewlineJoins(first, rest);
      LinesOfJoin(first, rest);
    }
  }

  /** A property line, indented below the prim. */
  function Inner(field: string): string {
    "        " + field + "\n"
  }

  /** What the camera's properties say. */
  function Fields(n: seq<string>): (fields: seq<string>)
    requires |n| == 11
    ensures |fields| == 7
  {
    [ "float2 clippingRange = (" + n[0] + ", " + n[1] + ")",
      "float focalLength = " + n[2],
      "float horizontalAperture = " + n[3],
      "float verticalAperture = " + n[4],
      "double3 xformOp:rotateXYZ = (" + n[5] + ", " + n[6] + ", " + n[7] + ")",
      "double3 xformOp:translate = (" + n[8] + ", " + n[9] + ", " + n[10] + ")",
      "uniform token[] xformOpOrder = [" + "\"xformOp:translate\", " + "\"xformOp:rotateXYZ\"]" ]
  }

  /** The camera as it is written, around its numbers. */
  function Template(n: seq<string>): (lines: seq<string>)
    requires |n| == 11
    ensures |lines| == 10
  {
    [HEAD + "\n", OPEN + "\n"]
    + seq(7, k requires 0 <= k < 7 => Inner(Fields(n)[k]))
    + [CLOSE + "\n"]
  }

  predicate Plain(s: string) {
    forall k | 0 <= k < |s| :: !IsBreak(s[k])
  }

  ghost predicate PlainNumbers(n: seq<string>) {
    |n| == 11 && forall k | 0 <= k < |n| :: Plain(n[k])
  }

  lemma PlainAppend(a: string, b: string)
    ensures Plain(a + b) <==> Plain(a) && Plain(b)
  {
    assert forall k | 0 <= k < |b| :: (a + b)[|a| + k] == b[k];
    assert forall k | 0 <= k < |a| :: (a + b)[k] == a[k];
  }

  lemma LensNames()
    ensures Plain("float focalLength = ") && Plain("float horizontalAperture = ")
  {}

  lemma ApertureName()
    ensures Plain("float verticalAperture = ")
  {}

  lemma PlacementNames()
    ensures Plain("double3 xformOp:rotateXYZ = (") && Plain("double3 xformOp:translate = (")
    ensures Plain("float2 clippingRange = (")
  {
    RotateName();
    TranslateName();
    RangeName();
  }

  lemma RotateName()
    ensures Plain("double3 xformOp:rotateXYZ = (")
  {}

  lemma TranslateName()
    ensures Plain("double3 xformOp:translate = (")
  {}

  lemma RangeName()
    ensures Plain("float2 clippingRange = (")
  {}

  lemma Punctuation()
    ensures Plain(", ") && Plain(")") && Plain(HEAD) && Plain(OPEN) && Plain(CLOSE) && Plain("        ")
  {}

  lemma OpOrderIsPlain()
    ensures Plain("uniform token[] xformOpOrder = [" + "\"xformOp:translate\", " + "\"xformOp:rotateXYZ\"]")
  {
    hide Plain;
    OpOrderStarts();
    OpOrderTranslates();
    OpOrderRotates();
    PlainAppend("uniform token[] xformOpOrder = [", "\"xformOp:translate\", ");
    PlainAppend("uniform token[] xformOpOrder = [" + "\"xformOp:translate\", ", "\"xformOp:rotateXYZ\"]");
  }

  lemma OpOrderStarts()
    ensures Plain("uniform token[] xformOpOrder = [")
  {}

  lemma OpOrderTranslates()
    ensures Plain("\"xformOp:translate\", ")
  {}

  lemma OpOrderRotates()
    ensures Plain("\"xformOp:rotateXYZ\"]")
  {}

  lemma PairIsPlain(name: string, a: string, b: string)
    requires Plain(name) && Plain(a) && Plain(b)
    ensures Plain(name + a + ", " + b + ")")
  {
    hide Plain;
    Punctuation();
    PlainAppend(name, a);
    PlainAppend(name + a, ", ");
    PlainAppend(name + a + ", ", b);
    PlainAppend(name + a + ", " + b, ")");
  }

  lemma TripleIsPlain(name: string, a: string, b: string, c: string)
    requires Plain(name) && Plain(a) && Plain(b) && Plain(c)
    ensures Plain(name + a + ", " + b + ", " + c + ")")
  {
    hide Plain;
    Punctuation();
    PlainAppend(name, a);
    PlainAppend(name + a, ", ");
    PlainAppend(name + a + ", ", b);
    PlainAppend(name + a + ", " + b, ", ");
    PlainAppend(name + a + ", " + b + ", ", c);
    PlainAppend(name + a + ", " + b + ", " + c, ")");
  }

  lemma FieldsArePlain(n: seq<string>)
    requires PlainNumbers(n)
    ensures forall k | 0 <= k < 7 :: Plain(Fields(n)[k])
  {
    hide Plain;
    LensNames();
    ApertureName();
    PlacementNames();
    OpOrderIsPlain();
    PairIsPlain("float2 clippingRange = (", n[0], n[1]);
    PlainAppend("float focalLength = ", n[2]);
    PlainAppend("float horizontalAperture = ", n[3]);
    PlainAppend("float verticalAperture = ", n[4]);
    TripleIsPlain("double3 xformOp:rotateXYZ = (", n[5], n[6], n[7]);
    TripleIsPlain("double3 xformOp:translate = (", n[8], n[9], n[10]);
  }

  /** A plain text and a newline make a line of the template, with the text for
      its content. */
  lemma PlainLine(s: string)
    requires Plain(s)
    ensures TemplateLine(s + "\n") && Content(s + "\n") == s
  {
    var line := s + "\n";
    forall k | 0 <= k < |line| - 1 ensures !IsBreak(line[k]) {
      assert line[k] == s[k];
    }
    assert line[..|line| - 1] == s;
    assert s != [] ==> !IsBreak(s[|s| - 1]);
  }

  lemma InnerLine(field: string)
    requires Plain(field)
    ensures TemplateLine(Inner(field)) && Content(Inner(field)) != CLOSE
  {
    hide Plain;
    Punctuation();
    PlainAppend("        ", field);
    PlainLine("        " + field);
    assert ("        " + field)[4] == ' ' && CLOSE[4] == '}';
  }

  lemma TemplateLines(n: seq<string>)
    requires PlainNumbers(n)
    ensures |Template(n)| == 10
    ensures forall k | 0 <= k < 10 :: TemplateLine(Template(n)[k])
    ensures Content(Template(n)[0]) == HEAD && Content(Template(n)[1]) == OPEN && Content(Template(n)[9]) == CLOSE
    ensures forall k | 2 <= k < 9 :: Content(Template(n)[k]) != CLOSE
  {
    hide Plain, TemplateLine, Content, Fields, Inner;
    Punctuation();
    FieldsArePlain(n);
    PlainLine(HEAD);
    PlainLine(OPEN);
    PlainLine(CLOSE);
    forall k | 2 <= k < 9
      ensures TemplateLine(Template(n)[k]) && Content(Template(n)[k]) != CLOSE
    {
      InnerLine(Fields(n)[k - 2]);
    }
  }

  /** Whatever the numbers are, the template is a well-formed block. */
  lemma TemplateIsWellFormed(n: seq<string>)
    requires |n| == 11 && PlainNumbers(n)
    ensures WellFormed(Concat(Template(n)))
  {
    hide Template, PlainNumbers, TemplateLine, Content, Lines, Concat;
    TemplateLines(n);
    LinesOfTemplate(Template(n));
    ConcatEnd(Template(n));
  }

  lemma {:induction false} ConcatEnd(lines: seq<string>)
    requires lines != [] && forall k | 0 <= k < |lines| :: TemplateLine(lines[k])
    ensures Concat(lines) != [] && Concat(lines)[|Concat(lines)| - 1] == '\n'
  {
    if |lines| > 1 {
      ConcatEnd(lines[1..]);
    } else {
      assert Concat(lines[1..]) == [];
    }
  }

  // ---- A brace behind a head -----------------------------------------------------------

  lemma PlainIsOneLine(s: string)
    requires Plain(s) && s != []
    ensures Lines(s) == [s] && Content(s) == s && Last(s) == s
  {
    PlainLineEnd(s);
    LinesUnfold(s);
    assert s[..|s|] == s && s[|s|..] == [];
    assert Lines(s) == [s] + Lines([]);
    assert !IsBreak(s[|s| - 1]);
  }

  lemma {:induction false} PlainLineEnd(s: string)
    requires Plain(s) && s != []
    ensures LineEnd(s) == |s|
  {
    if |s| > 1 {
      PlainLineEnd(s[1..]);
    }
  }

  lemma BracePlain()
    ensures Plain("}")
  {}

  /** A text that closes right behind a camera's head, so that nothing finds the
      head until a camera has been added after it. */
  lemma HeadBeforeClosingBrace()
    ensures SpanIs(HEAD + "}", Absent) && ClosesAfter(HEAD + "}", HEAD)
    ensures HEAD != [] && Content(Last(HEAD)) == HEAD
  {
    hide Lines, Content, Last, Plain;
    Punctuation();
    BracePlain();
    PlainAppend(HEAD, "}");
    PlainIsOneLine(HEAD);
    PlainIsOneLine(HEAD + "}");
  }
}
