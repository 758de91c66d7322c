/** What a comment is, told without the scanner: a text falls into plain
    characters, quoted strings and comments, and stripping drops the comments. */
module CommentPieces {
  import opened CMakeText

  /** The first and only quote that may end the string is its last character: every
      other one stands behind a backslash. */
  ghost predicate IsString(t: string) {
    && |t| > 1 && t[0] == '"' && t[|t| - 1] == '"' && t[|t| - 2] != '\\'
    && NoneCloses(t, |t| - 1)
  }

  ghost predicate NoneCloses(t: string, n: nat) {
    forall k | 0 < k < n && k < |t| && t[k] == '"' :: t[k - 1] == '\\'
  }

  /** A string that is not closed before the text ends. */
  ghost predicate IsOpenString(t: string) {
    t != [] && t[0] == '"' && NoneCloses(t, |t|)
  }

  ghost predicate IsPlain(t: string) {
    |t| == 1 && t[0] != '"' && t[0] != '#'
  }

  ghost predicate IsComment(t: string) {
    t != [] && t[0] == '#' && '\n' !in t
  }

  /** Plain characters, closed strings, comments to the end of their line, and at
      the end perhaps a string left open. */
  ghost predicate Pieces(ps: seq<string>) {
    forall k | 0 <= k < |ps| ::
      || IsPlain(ps[k])
      || IsString(ps[k])
      || (IsOpenString(ps[k]) && k + 1 == |ps|)
      || (IsComment(ps[k]) && (k + 1 == |ps| || ps[k + 1] == "\n"))
  }

  function Uncommented(ps: seq<string>): string {
    if ps == [] then []
    else (if ps[0] != [] && ps[0][0] == '#' then [] else ps[0]) + Uncommented(ps[1..])
  }

  // ---- What the scanner makes of each --------------------------------------------------

  lemma PlainStays(t: string)
    requires IsPlain(t)
    ensures Stripped(Code, t) == t && ModeAfter(Code, t) == Code
  {
    assert t == [t[0]] && t[1..] == [];
  }

  lemma {:induction false} CommentGoes(t: string)
    requires '\n' !in t
    ensures Stripped(Comment, t) == [] && ModeAfter(Comment, t) == Comment
  {
    if t != [] {
      CommentGoes(t[1..]);
    }
  }

  lemma CommentIsDropped(t: string)
    requires IsComment(t)
    ensures Stripped(Code, t) == [] && ModeAfter(Code, t) == Comment
  {
    CommentGoes(t[1..]);
  }

  /** The scan of a string from its `k`-th character on. */
  lemma {:induction false} StringIsKept(t: string, k: nat)
    requires 0 < k <= |t| && t[0] == '"' && NoneCloses(t, |t|)
    ensures Stripped(Quoted(t[k - 1]), t[k..]) == t[k..] && ModeAfter(Quoted(t[k - 1]), t[k..]) == Quoted(t[|t| - 1])
    decreases |t| - k
  {
    if k < |t| {
      StringIsKept(t, k + 1);
      assert t[k..][0] == t[k] && t[k..][1..] == t[k + 1..];
      assert t[k..] == [t[k]] + t[k + 1..];
    }
  }

  lemma OpenStringStays(t: string)
    requires IsOpenString(t)
    ensures Stripped(Code, t) == t && ModeAfter(Code, t) == Quoted(t[|t| - 1])
  {
    StringIsKept(t, 1);
    assert t == [t[0]] + t[1..];
  }

  lemma StringStays(t: string)
    requires IsString(t)
    ensures Stripped(Code, t) == t && ModeAfter(Code, t) == Code
  {
    var open, close := t[..|t| - 1], [t[|t| - 1]];
    assert t == open + close && close[1..] == [];
    OpenStringStays(open);
    StrippedAppend(Code, open, close);
  }

  lemma LineEndResumes(s: string)
    requires s == [] || s[0] == '\n'
    ensures Stripped(Comment, s) == Stripped(Code, s)
  {}

  lemma LastOpens(ps: seq<string>)
    requires Pieces(ps) && |ps| > 0
    ensures Pieces(ps[1..])
    ensures IsPlain(ps[0]) || IsString(ps[0]) || (IsOpenString(ps[0]) && ps[1..] == [])
         || (IsComment(ps[0]) && (Concat(ps[1..]) == [] || Concat(ps[1..])[0] == '\n'))
  {
    hide IsPlain, IsString, IsOpenString, IsComment;
    forall k | 0 <= k < |ps[1..]| ensures ps[1..][k] == ps[k + 1] {}
  }

  /** Stripping drops exactly the comments, however the text is taken apart. */
  lemma {:induction false} StrippingDropsComments(ps: seq<string>)
    requires Pieces(ps)
    ensures Stripped(Code, Concat(ps)) == Uncommented(ps)
  {
    hide Stripped, ModeAfter;
    if ps == [] {
      StrippedUnfold(Code, []);
    } else {
      LastOpens(ps);
      var rest := Concat(ps[1..]);
      StrippingDropsComments(ps[1..]);
      StrippedAppend(Code, ps[0], rest);
      if IsPlain(ps[0]) {
        PlainStays(ps[0]);
      } else if IsComment(ps[0]) {
        CommentIsDropped(ps[0]);
        LineEndResumes(rest);
      } else if IsString(ps[0]) {
        StringStays(ps[0]);
      } else {
        OpenStringStays(ps[0]);
        StrippedUnfold(ModeAfter(Code, ps[0]), []);
      }
    }
  }

  // ---- Every text falls into pieces ----------------------------------------------------

  lemma {:induction false} LineEndOf(s: string, k: nat) returns (end: nat)
    requires k <= |s| && '\n' !in s[..k]
    ensures k <= end <= |s| && '\n' !in s[..end] && (end < |s| ==> s[end] == '\n')
    decreases |s| - k
  {
    end := k;
    if k < |s| && s[k] != '\n' {
      assert s[..k + 1] == s[..k] + [s[k]];
      end := LineEndOf(s, k + 1);
    }
  }

  lemma {:induction false} CloseOf(s: string, k: nat) returns (close: nat)
    requires 0 < k <= |s| && NoneCloses(s, k)
    ensures k <= close <= |s| && NoneCloses(s, close)
    ensures close < |s| ==> s[close] == '"' && s[close - 1] != '\\'
    decreases |s| - k
  {
    close := k;
    if k < |s| && (s[k] != '"' || s[k - 1] == '\\') {
      close := CloseOf(s, k + 1);
    }
  }

  lemma PieceAhead(p: string, ps: seq<string>)
    requires Pieces(ps)
    requires IsPlain(p) || IsString(p) || (IsComment(p) && (ps == [] || ps[0] == "\n"))
    ensures Pieces([p] + ps) && Concat([p] + ps) == p + Concat(ps)
  {
    hide IsPlain, IsString, IsOpenString, IsComment;
    var all := [p] + ps;
    assert all[1..] == ps;
    forall k | 0 <= k < |all|
      ensures IsPlain(all[k]) || IsString(all[k]) || (IsOpenString(all[k]) && k + 1 == |all|)
           || (IsComment(all[k]) && (k + 1 == |all| || all[k + 1] == "\n"))
    {
      if k > 0 {
        assert all[k] == ps[k - 1];
        assert k + 1 < |all| ==> all[k + 1] == ps[k - 1 + 1];
      }
    }
  }

  /** A text that starts a line starts with a plain character. */
  lemma {:induction false} TextHasPieces(s: string) returns (ps: seq<string>)
    ensures Pieces(ps) && Concat(ps) == s
    ensures s != [] && s[0] == '\n' ==> ps != [] && ps[0] == "\n"
    decreases |s|
  {
    hide Pieces, IsString, IsOpenString, IsComment;
    if s == [] {
      ps := [];
      NoPieces();
    } else if s[0] == '#' {
      var end := LineEndOf(s, 0);
      ps := TextHasPieces(s[end..]);
      CommentPiece(s, end, ps);
      PieceAhead(s[..end], ps);
      ps := [s[..end]] + ps;
      assert s == s[..end] + s[end..];
    } else if s[0] == '"' {
      NothingCloses(s);
      var close := CloseOf(s, 1);
      if close < |s| {
        ps := TextHasPieces(s[close + 1..]);
        StringPiece(s, close);
        PieceAhead(s[..close + 1], ps);
        ps := [s[..close + 1]] + ps;
        assert s == s[..close + 1] + s[close + 1..];
      } else {
        ps := [s];
        OnePiece(s);
      }
    } else {
      ps := TextHasPieces(s[1..]);
      PieceAhead([s[0]], ps);
      ps := [[s[0]]] + ps;
      assert s == [s[0]] + s[1..];
    }
  }

  lemma NoPieces()
    ensures Pieces([]) && Concat([]) == []
  {}

  lemma NothingCloses(s: string)
    ensures NoneCloses(s, 1)
  {}

  lemma OnePiece(s: string)
    requires s != [] && s[0] == '"' && NoneCloses(s, |s|)
    ensures Pieces([s]) && Concat([s]) == s
  {
    assert [s][1..] == [];
    assert s + [] == s;
    assert IsOpenString([s][0]);
  }

  lemma CommentPiece(s: string, end: nat, ps: seq<string>)
    requires s != [] && s[0] == '#' && end <= |s| && '\n' !in s[..end] && (end < |s| ==> s[end] == '\n')
    requires Pieces(ps) && Concat(ps) == s[end..]
    requires s[end..] != [] && s[end..][0] == '\n' ==> ps != [] && ps[0] == "\n"
    ensures IsComment(s[..end]) && (ps == [] || ps[0] == "\n")
  {
    hide IsString, IsPlain, IsOpenString;
    assert end > 0;
    if end == |s| && ps != [] {
      FirstPieceIsNotEmpty(ps);
    }
  }

  lemma FirstPieceIsNotEmpty(ps: seq<string>)
    requires Pieces(ps) && ps != []
    ensures Concat(ps) != []
  {
    assert ps[0] != [];
  }

  lemma StringPiece(s: string, close: nat)
    requires s != [] && s[0] == '"' && 1 <= close < |s| && NoneCloses(s, close)
    requires s[close] == '"' && s[close - 1] != '\\'
    ensures IsString(s[..close + 1])
  {}

  /** Every text is a sequence of such pieces, and stripping leaves the others. */
  lemma CommentsAreWhatIsDropped(text: string)
    ensures exists ps :: Pieces(ps) && Concat(ps) == text && Stripped(Code, text) == Uncommented(ps)
    ensures forall ps | Pieces(ps) && Concat(ps) == text :: Stripped(Code, text) == Uncommented(ps)
  {
    hide Pieces, Stripped, Uncommented;
    var some := TextHasPieces(text);
    forall ps | Pieces(ps) && Concat(ps) == text ensures Stripped(Code, text) == Uncommented(ps) {
      StrippingDropsComments(ps);
    }
  }

  // ---- Text without quotes -------------------------------------------------------------

  /** A line up to its first hash sign. */
  function BeforeHash(line: string): string {
    if line == [] || line[0] == '#' then [] else [line[0]] + BeforeHash(line[1..])
  }

  lemma {:induction false} BeforeHashMeaning(line: string)
    ensures BeforeHash(line) <= line && '#' !in BeforeHash(line)
    ensures |BeforeHash(line)| < |line| ==> line[|BeforeHash(line)|] == '#'
  {
    if line != [] && line[0] != '#' {
      BeforeHashMeaning(line[1..]);
    }
  }

  lemma LinesUnfold(s: string)
    ensures s == [] ==> Lines(s) == [[]]
    ensures s != [] ==>
              var rest := Lines(s[1..]);
              Lines(s) == if s[0] == '\n' then [[]] + rest else [[s[0]] + rest[0]] + rest[1..]
  {}

  lemma {:induction false} UnquotedLines(m: Mode, s: string)
    requires '"' !in s && (m == Code || m == Comment)
    ensures |Lines(Stripped(m, s))| == |Lines(s)|
    ensures m == Code ==> Lines(Stripped(m, s))[0] == BeforeHash(Lines(s)[0])
    ensures m == Comment ==> Lines(Stripped(m, s))[0] == []
    ensures forall k | 0 < k < |Lines(s)| :: Lines(Stripped(m, s))[k] == BeforeHash(Lines(s)[k])
    decreases |s|
  {
    hide Stripped, Lines, ModeAfter;
    StrippedUnfold(m, s);
    LinesUnfold(s);
    LinesUnfold(Stripped(m, s));
    if s != [] {
      var rest := Stripped(NextMode(m, s[0]), s[1..]);
      assert s[0] in s;
      UnquotedLines(NextMode(m, s[0]), s[1..]);
      assert ([s[0]] + rest)[1..] == rest;
    }
  }

  /** Without a quote in the text every line is cut before its first hash sign. */
  lemma UnquotedIsCutAtHash(text: string, k: nat)
    requires '"' !in text && k < |Lines(text)|
    ensures |Lines(Stripped(Code, text))| == |Lines(text)|
    ensures
      var line, left := Lines(text)[k], Lines(Stripped(Code, text))[k];
      left <= line && '#' !in left && (|left| < |line| ==> line[|left|] == '#')
  {
    UnquotedLines(Code, text);
    BeforeHashMeaning(Lines(text)[k]);
  }
}
