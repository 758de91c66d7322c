/** The lines of a stage's text, the camera's text and where it is added, spelled out. */
module StageText {
  import opened CameraSplice

  // ---- Lines ---------------------------------------------------------------------------

  /** A line: characters that break nothing, and then one break, if it is not the
      last; a carriage return and a newline are one break. */
  ghost predicate IsLine(line: string, last: bool) {
    exists body, end :: EndsIn(line, body, end, last)
  }

  ghost predicate EndsIn(line: string, body: string, end: string, last: bool) {
    && line == body + end && line != []
    && (forall k | 0 <= k < |body| :: !IsBreak(body[k]))
    && ((end == [] && last) || (|end| == 1 && IsBreak(end[0])) || end == "\r\n")
  }

  /** No carriage return is torn from its newline. */
  ghost predicate Untorn(lines: seq<string>) {
    forall k | 0 <= k < |lines| - 1 && lines[k] != [] && lines[k + 1] != [] ::
      !(lines[k][|lines[k]| - 1] == '\r' && lines[k + 1][0] == '\n')
  }

  lemma {:induction false} LineEndMeaning(s: string)
    requires s != []
    ensures IsLine(s[..LineEnd(s)], LineEnd(s) == |s|)
    ensures LineEnd(s) < |s| ==> !(s[LineEnd(s) - 1] == '\r' && s[LineEnd(s)] == '\n')
  {
    hide IsLine, IsBreak;
    if LineEnd(s) < |s| {
      LineIsBroken(s);
    }
    if s[0] == '\r' && |s| > 1 && s[1] == '\n' {
      assert s[..2] == "\r\n";
      ReturnIsLine(|s| == 2);
    } else if IsBreak(s[0]) {
      assert s[..1] == [s[0]];
      BreakIsLine(s[0], |s| == 1);
    } else if |s| == 1 {
      assert s[..1] == [s[0]];
      CharIsLine(s[0]);
    } else {
      LineEndMeaning(s[1..]);
      var e := LineEnd(s[1..]);
      LongerLine(s[0], s[1..][..e], e == |s| - 1);
      assert s[..1 + e] == [s[0]] + s[1..][..e];
    }
  }

  lemma ReturnIsLine(last: bool)
    ensures IsLine("\r\n", last)
  {
    assert EndsIn("\r\n", [], "\r\n", last);
  }

  lemma BreakIsLine(c: char, last: bool)
    requires IsBreak(c)
    ensures IsLine([c], last)
  {
    assert EndsIn([c], [], [c], last);
  }

  lemma CharIsLine(c: char)
    requires !IsBreak(c)
    ensures IsLine([c], true)
  {
    assert EndsIn([c], [c], [], true);
  }

  lemma LongerLine(c: char, line: string, last: bool)
    requires !IsBreak(c) && IsLine(line, last)
    ensures IsLine([c] + line, last)
  {
    hide IsBreak;
    var body, end :| EndsIn(line, body, end, last);
    LongerBody(c, body);
    assert [c] + (body + end) == ([c] + body) + end;
    assert EndsIn([c] + line, [c] + body, end, last);
  }

  lemma LongerBody(c: char, body: string)
    requires !IsBreak(c) && forall k | 0 <= k < |body| :: !IsBreak(body[k])
    ensures forall k | 0 <= k < |[c] + body| :: !IsBreak(([c] + body)[k])
  {
    hide IsBreak;
    forall k | 0 <= k < |[c] + body| ensures !IsBreak(([c] + body)[k]) {
      assert k > 0 ==> ([c] + body)[k] == body[k - 1];
    }
  }

  ghost predicate AreLines(lines: seq<string>) {
    (forall k | 0 <= k < |lines| :: IsLine(lines[k], k + 1 == |lines|)) && Untorn(lines)
  }

  /** The lines run together are the text, each is a line, and no break is torn. */
  lemma {:induction false} LinesMeaning(s: string)
    ensures Concat(Lines(s)) == s && AreLines(Lines(s))
  {
    hide LineEnd, IsLine;
    if s != [] {
      hide Lines;
      LinesUnfold(s);
      LineEndMeaning(s);
      var e := LineEnd(s);
      LinesMeaning(s[e..]);
      assert s == s[..e] + s[e..];
      OneMoreLine(s, e, Lines(s[e..]));
    }
  }

  lemma OneMoreLine(s: string, e: nat, rest: seq<string>)
    requires 0 < e <= |s| && IsLine(s[..e], e == |s|) && AreLines(rest) && Concat(rest) == s[e..]
    requires e < |s| ==> !(s[e - 1] == '\r' && s[e] == '\n')
    ensures AreLines([s[..e]] + rest) && Concat([s[..e]] + rest) == s
  {
    hide IsLine;
    var lines := [s[..e]] + rest;
    assert lines[1..] == rest && s == s[..e] + s[e..];
    FirstOfRest(s[e..], rest);
    forall k | 0 <= k < |lines| ensures IsLine(lines[k], k + 1 == |lines|) {
      assert k > 0 ==> lines[k] == rest[k - 1];
    }
    UntornAhead(s[..e], rest);
  }

  lemma UntornAhead(line: string, rest: seq<string>)
    requires Untorn(rest)
    requires line != [] && rest != [] && rest[0] != [] ==> !(line[|line| - 1] == '\r' && rest[0][0] == '\n')
    ensures Untorn([line] + rest)
  {
    var lines := [line] + rest;
    forall k | 0 <= k < |lines| - 1 && lines[k] != [] && lines[k + 1] != []
      ensures !(lines[k][|lines[k]| - 1] == '\r' && lines[k + 1][0] == '\n')
    {
      if k > 0 {
        assert lines[k] == rest[k - 1] && lines[k + 1] == rest[k - 1 + 1];
      }
    }
  }

  lemma FirstOfRest(t: string, rest: seq<string>)
    requires AreLines(rest) && Concat(rest) == t
    ensures rest == [] <==> t == []
    ensures rest != [] ==> rest[0] != [] && rest[0][0] == t[0]
  {
    if rest != [] {
      assert IsLine(rest[0], 0 + 1 == |rest|);
    }
  }

  /** What is compared of a line is the line without the carriage returns and
      newlines at its end. */
  lemma {:induction false} ContentMeaning(line: string)
    ensures Content(line) <= line
    ensures forall k | |Content(line)| <= k < |line| :: line[k] == '\n' || line[k] == '\r'
    ensures Content(line) != [] ==> Content(line)[|Content(line)| - 1] != '\n'
                                    && Content(line)[|Content(line)| - 1] != '\r'
  {
    if line != [] && (line[|line| - 1] == '\n' || line[|line| - 1] == '\r') {
      ContentMeaning(line[..|line| - 1]);
    }
  }

  // ---- Where the camera is -------------------------------------------------------------

  /** Line `i` is the first that says `def Camera "MainCam"` at the prim's indent. */
  ghost predicate HeadAt(lines: seq<string>, i: nat) {
    && i < |lines| && Content(lines[i]) == "    def Camera \"MainCam\""
    && forall j | 0 <= j < i :: Content(lines[j]) != "    def Camera \"MainCam\""
  }

  /** Line `c` is the first closing brace at that indent two lines after line `i` or
      later. */
  ghost predicate ClosedAt(lines: seq<string>, i: nat, c: nat) {
    i + 2 <= c < |lines| && Content(lines[c]) == "    }" && forall j | i + 2 <= j < c :: Content(lines[j]) != "    }"
  }

  /** With its head at line `i` the camera is said not to be followed by a brace if
      the next line is none, and otherwise not to be closed if no line is its closing
      brace; and else it goes from the head to that brace. */
  ghost predicate SpanFrom(lines: seq<string>, i: nat, span: Span)
    requires i < |lines|
  {
    if i + 1 >= |lines| || Content(lines[i + 1]) != "    {" then
      span == Malformed("MainCam is not followed by an opening brace")
    else if forall c: nat :: !ClosedAt(lines, i, c) then span == Malformed("MainCam block is never closed")
    else
      exists c: nat :: ClosedAt(lines, i, c) && span == Found(Length(lines[..i]), Length(lines[..c + 1]))
  }

  lemma HeadIsFirst(lines: seq<string>, i: nat)
    ensures HeadAt(lines, i) <==> FirstHead(lines, i)
  {}

  lemma BlockIsClosed(lines: seq<string>, i: nat, c: nat)
    requires FirstHead(lines, i)
    ensures IsBlock(lines, i, c) <==> i + 1 < |lines| && Content(lines[i + 1]) == "    {" && ClosedAt(lines, i, c)
  {}

  lemma OneHead(lines: seq<string>, i: nat, j: nat)
    requires FirstHead(lines, i) && FirstHead(lines, j)
    ensures i == j
  {}

  lemma SpanAtHead(text: string, span: Span, i: nat)
    requires SpanIs(text, span) && FirstHead(Lines(text), i)
    ensures !span.Absent? && SpanFrom(Lines(text), i, span)
  {
    hide Content, Length, Lines, ClosedAt, FirstHead;
    var lines := Lines(text);
    HeadIsInRange(lines, i);
    forall c: nat
      ensures IsBlock(lines, i, c) <==> i + 1 < |lines| && Content(lines[i + 1]) == "    {" && ClosedAt(lines, i, c)
    {
      BlockIsClosed(lines, i, c);
    }
    match span {
      case Absent => NoHeadIsFirst(lines, i);
      case Found(start, end) =>
        var j: nat, c: nat :| IsBlock(lines, j, c) && start == Length(lines[..j]) && end == Length(lines[..c + 1]);
        BlockHead(lines, j, c);
        OneHead(lines, i, j);
        assert ClosedAt(lines, i, c);
      case Malformed(message) =>
        var j: nat :| FirstHead(lines, j) && (forall c: nat :: !IsBlock(lines, j, c))
          && message == Complaint(lines, j);
        OneHead(lines, i, j);
    }
  }

  lemma HeadIsInRange(lines: seq<string>, i: nat)
    requires FirstHead(lines, i)
    ensures i < |lines|
  {}

  lemma NoHeadIsFirst(lines: seq<string>, i: nat)
    requires NoHead(lines)
    ensures !FirstHead(lines, i)
  {}

  lemma BlockHead(lines: seq<string>, i: nat, c: nat)
    requires IsBlock(lines, i, c)
    ensures FirstHead(lines, i)
  {}

  /** The camera is absent exactly if no line is its head, and otherwise is where
      its head is. */
  lemma SpanMeaning(text: string, span: Span)
    requires SpanIs(text, span)
    ensures span.Absent? <==> forall i: nat :: !HeadAt(Lines(text), i)
    ensures forall i: nat | HeadAt(Lines(text), i) :: SpanFrom(Lines(text), i, span)
  {
    hide Content, Length, Lines, HeadAt, FirstHead, IsBlock, SpanFrom, NoHead;
    var lines := Lines(text);
    forall i: nat ensures HeadAt(lines, i) <==> FirstHead(lines, i) {
      HeadIsFirst(lines, i);
    }
    forall i: nat | FirstHead(lines, i) ensures i < |lines| && !span.Absent? && SpanFrom(lines, i, span) {
      HeadIsInRange(lines, i);
      SpanAtHead(text, span, i);
    }
    if span.Absent? {
      forall i: nat ensures !HeadAt(lines, i) {
        assert NoHead(lines);
        NoHeadIsFirst(lines, i);
      }
    } else {
      var i := SomeHead(text, span);
    }
  }

  lemma SomeHead(text: string, span: Span) returns (i: nat)
    requires SpanIs(text, span) && !span.Absent?
    ensures HeadAt(Lines(text), i)
  {
    hide Content, Length, Lines, FirstHead, HeadAt, IsBlock, Complaint;
    var lines := Lines(text);
    match span {
      case Found(start, end) =>
        var j: nat, c: nat :| IsBlock(lines, j, c);
        BlockHead(lines, j, c);
        i := j;
      case Malformed(message) =>
        i :| FirstHead(lines, i);
    }
    HeadIsFirst(lines, i);
  }

  // ---- The camera as written -----------------------------------------------------------

  /** The ten lines, with the numbers where they belong: the clipping range, the
      lens, the rotation and then the translation. */
  lemma TemplateText(n: seq<string>)
    requires |n| == 11
    ensures Template(n)[0] == "    def Camera \"MainCam\"" + "\n"
    ensures Template(n)[1] == "    {" + "\n"
    ensures Template(n)[2] == "        " + ("float2 clippingRange = (" + n[0] + ", " + n[1] + ")") + "\n"
    ensures Template(n)[3] == "        " + ("float focalLength = " + n[2]) + "\n"
    ensures Template(n)[4] == "        " + ("float horizontalAperture = " + n[3]) + "\n"
    ensures Template(n)[5] == "        " + ("float verticalAperture = " + n[4]) + "\n"
    ensures Template(n)[6]
         == "        " + ("double3 xformOp:rotateXYZ = (" + n[5] + ", " + n[6] + ", " + n[7] + ")") + "\n"
    ensures Template(n)[7]
         == "        " + ("double3 xformOp:translate = (" + n[8] + ", " + n[9] + ", " + n[10] + ")") + "\n"
    ensures Template(n)[8] ==
              "        "
              + ("uniform token[] xformOpOrder = [" + "\"xformOp:translate\", " + "\"xformOp:rotateXYZ\"]")
              + "\n"
    ensures Template(n)[9] == "    }" + "\n"
  {}

  // ---- Adding a camera -----------------------------------------------------------------

  predicate Newlines(s: string) {
    forall k | 0 <= k < |s| :: s[k] == '\n'
  }

  lemma {:induction false} TrimMeaning(s: string, end: string)
    requires Newlines(end) && (s == [] || s[|s| - 1] != '\n')
    ensures TrimNewlines(s + end) == s
    decreases |end|
  {
    if end == [] {
      assert s + end == s;
    } else {
      assert (s + end)[..|s + end| - 1] == s + end[..|end| - 1];
      TrimMeaning(s, end[..|end| - 1]);
    }
  }

  /** A text that has no camera gets it in front of its closing brace, a blank line
      after what comes before, whatever newlines there were. */
  lemma AddedInFrontOfBrace(body: string, gap: string, end: string, block: string, result: Result<string>)
    requires body == [] || body[|body| - 1] != '\n'
    requires Newlines(gap) && Newlines(end) && SpanIs(body + gap + "}" + end, Absent)
    requires Injected(body + gap + "}" + end, block, result)
    ensures result == Ok(body + "\n\n" + block + "}\n")
  {
    hide SpanIs;
    var text, stripped := body + gap + "}" + end, body + gap + "}";
    TrimMeaning(stripped, end);
    TrimMeaning(body, gap);
    assert stripped[..|stripped| - 1] == body + gap;
    InjectionIsDetermined(text, block, result, Spliced(text, block, Absent));
  }

  /** And is refused if the last thing in it but newlines is no closing brace. */
  lemma RefusedWithoutBrace(body: string, end: string, block: string, result: Result<string>)
    requires body == [] || (body[|body| - 1] != '\n' && body[|body| - 1] != '}')
    requires Newlines(end) && SpanIs(body + end, Absent) && Injected(body + end, block, result)
    ensures result.Error?
  {
    hide SpanIs;
    TrimMeaning(body, end);
    InjectionIsDetermined(body + end, block, result, Spliced(body + end, block, Absent));
  }
}
