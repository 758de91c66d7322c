/** Link lines of a CMake file: the visibility each command gives a name, what
    several commands for one target add up to, and the names a library
    publishes (`tools/select_affected_tests.py`). */
module LinkLines {

  datatype Visibility = Public | Private | Interface

  /** What one argument of a link command amounts to: a keyword, or the library
      names found in it. */
  datatype LinkArg = Keyword(visibility: Visibility) | Names(names: seq<string>)

  /** A library name together with the keyword in force where it stands. */
  datatype Mention = Mention(name: string, visibility: Visibility)

  /** The keyword in force after `args`; PUBLIC before any keyword. */
  function InForce(args: seq<LinkArg>): Visibility {
    if args == [] then Public
    else if args[|args| - 1].Keyword? then args[|args| - 1].visibility
    else InForce(args[..|args| - 1])
  }

  function Mentions(args: seq<LinkArg>): seq<Mention> {
    if args == [] then []
    else
      var last := args[|args| - 1];
      Mentions(args[..|args| - 1]) + if last.Keyword? then [] else Under(last.names, InForce(args))
  }

  function Under(names: seq<string>, v: Visibility): seq<Mention> {
    seq(|names|, k requires 0 <= k < |names| => Mention(names[k], v))
  }

  function NamesOf(mentions: seq<Mention>): seq<string> {
    seq(|mentions|, k requires 0 <= k < |mentions| => mentions[k].name)
  }

  ghost predicate Mentioned(mentions: seq<Mention>, name: string) {
    exists k :: 0 <= k < |mentions| && mentions[k].name == name
  }

  /** `k` is the last place that mentions `name`. */
  ghost predicate LastMention(mentions: seq<Mention>, name: string, k: nat) {
    k < |mentions| && mentions[k].name == name && forall j | k < j < |mentions| :: mentions[j].name != name
  }

  /** What one command says of `name`: PUBLIC if it is mentioned under PUBLIC
      anywhere, otherwise whatever it is mentioned under last. */
  ghost predicate Says(mentions: seq<Mention>, name: string, v: Visibility) {
    if Mention(name, Public) in mentions then v == Public
    else exists k: nat :: LastMention(mentions, name, k) && mentions[k].visibility == v
  }

  ghost predicate Describes(vis: map<string, Visibility>, mentions: seq<Mention>) {
    && (forall name :: name in vis <==> Mentioned(mentions, name))
    && (forall name | name in vis :: Says(mentions, name, vis[name]))
  }

  lemma MentionAgain(mentions: seq<Mention>, vis: map<string, Visibility>, m: Mention, after: map<string, Visibility>)
    requires Describes(vis, mentions)
    requires after == if m.name in vis && vis[m.name] == Public then vis else vis[m.name := m.visibility]
    ensures Describes(after, mentions + [m])
  {
    var more := mentions + [m];
    forall name ensures name in after <==> Mentioned(more, name) {
      if k :| 0 <= k < |mentions| && mentions[k].name == name {
        assert more[k].name == name;
      }
      assert more[|mentions|] == m;
      if k :| 0 <= k < |more| && more[k].name == name {
        assert k < |mentions| ==> mentions[k].name == name;
      }
    }
    forall name | name in after ensures Says(more, name, after[name]) {
      if name == m.name {
        assert LastMention(more, name, |mentions|);
        assert more[|mentions|] == m;
      } else {
        assert name in vis && Says(mentions, name, vis[name]);
        if Mention(name, Public) !in mentions {
          var k: nat :| LastMention(mentions, name, k) && mentions[k].visibility == vis[name];
          assert LastMention(more, name, k) && more[k] == mentions[k];
        }
      }
    }
  }

  lemma NothingDescribed()
    ensures Describes(map[], [])
  {}

  /** Names listed under one keyword: PUBLIC, once given, stays. */
  method Record(names: seq<string>, v: Visibility, was: map<string, Visibility>, ghost mentions: seq<Mention>)
    returns (given: map<string, Visibility>)
    requires Describes(was, mentions)
    ensures Describes(given, mentions + Under(names, v))
  {
    hide Describes;
    given := was;
    assert mentions + [] == mentions;
    for j := 0 to |names|
      invariant Describes(given, mentions + Under(names, v)[..j])
    {
      ghost var before, m := mentions + Under(names, v)[..j], Mention(names[j], v);
      ghost var was := given;
      if names[j] !in given || given[names[j]] != Public {
        given := given[names[j] := v];
      }
      MentionAgain(before, was, m, given);
      assert mentions + Under(names, v)[..j + 1] == before + [m];
    }
    assert Under(names, v)[..|names|] == Under(names, v);
  }

  /** The link lists of one target, filled by its commands in file order. */
  class Target {
    var links: seq<string>
    var vis: map<string, Visibility>

    constructor ()
      ensures links == [] && vis == map[]
    {
      links, vis := [], map[];
    }

    /** One `target_link_libraries` command. */
    method Link(args: seq<LinkArg>) returns (ghost visibility: map<string, Visibility>)
      modifies this
      ensures links == old(links) + NamesOf(Mentions(args))
      ensures Describes(visibility, Mentions(args)) && vis == old(vis) + visibility
    {
      hide Describes;
      var inForce, named := Public, [];
      var given: map<string, Visibility> := map[];
      NothingDescribed();
      var k := 0;
      while k < |args|
        invariant 0 <= k <= |args| && inForce == InForce(args[..k])
        invariant named == NamesOf(Mentions(args[..k])) && Describes(given, Mentions(args[..k]))
        invariant links == old(links) && vis == old(vis)
      {
        assert args[..k + 1][..k] == args[..k];
        if args[k].Keyword? {
          assert Mentions(args[..k + 1]) == Mentions(args[..k]);
          inForce := args[k].visibility;
        } else {
          given := Record(args[k].names, inForce, given, Mentions(args[..k]));
          assert Mentions(args[..k + 1]) == Mentions(args[..k]) + Under(args[k].names, inForce);
          named := named + args[k].names;
        }
        k := k + 1;
      }
      assert args[..k] == args;
      links := links + named;
      vis := vis + given;
      visibility := given;
    }
  }

  // ---- Several commands for one target -------------------------------------------------

  /** The last command that mentions `name`. */
  ghost predicate LastCommand(commands: seq<seq<LinkArg>>, name: string, c: nat) {
    && c < |commands|
    && Mentioned(Mentions(commands[c]), name)
    && forall d | c < d < |commands| :: !Mentioned(Mentions(commands[d]), name)
  }

  ghost predicate EverMentioned(commands: seq<seq<LinkArg>>, name: string) {
    exists c :: 0 <= c < |commands| && Mentioned(Mentions(commands[c]), name)
  }

  /** The last command that mentions `name` gives it visibility `v`. */
  ghost predicate LastSays(commands: seq<seq<LinkArg>>, name: string, v: Visibility) {
    exists c: nat :: LastCommand(commands, name, c) && Says(Mentions(commands[c]), name, v)
  }

  ghost predicate Summarizes(vis: map<string, Visibility>, commands: seq<seq<LinkArg>>) {
    && (forall name :: name in vis <==> EverMentioned(commands, name))
    && (forall name | name in vis :: LastSays(commands, name, vis[name]))
  }

  lemma NothingSummarized()
    ensures Summarizes(map[], [])
  {}

  lemma OneMoreMention(commands: seq<seq<LinkArg>>, next: seq<LinkArg>, name: string)
    ensures EverMentioned(commands + [next], name) <==> EverMentioned(commands, name) || Mentioned(Mentions(next), name)
  {
    hide Mentions, Mentioned;
    var more := commands + [next];
    assert more[|commands|] == next;
    if c :| 0 <= c < |more| && Mentioned(Mentions(more[c]), name) {
      assert c < |commands| ==> more[c] == commands[c];
    }
    if c :| 0 <= c < |commands| && Mentioned(Mentions(commands[c]), name) {
      assert more[c] == commands[c];
    }
  }

  lemma OneMoreSays(commands: seq<seq<LinkArg>>, next: seq<LinkArg>, name: string, v: Visibility)
    requires if Mentioned(Mentions(next), name) then Says(Mentions(next), name, v) else LastSays(commands, name, v)
    ensures LastSays(commands + [next], name, v)
  {
    hide Mentions, Mentioned, Says;
    var more := commands + [next];
    assert more[|commands|] == next;
    if Mentioned(Mentions(next), name) {
      assert LastCommand(more, name, |commands|);
    } else {
      var c: nat :| LastCommand(commands, name, c) && Says(Mentions(commands[c]), name, v);
      assert more[c] == commands[c] && LastCommand(more, name, c);
    }
  }

  lemma OneMoreCommand(
      was: map<string, Visibility>, commands: seq<seq<LinkArg>>, next: seq<LinkArg>, given: map<string, Visibility>)
    requires Summarizes(was, commands) && Describes(given, Mentions(next))
    ensures Summarizes(was + given, commands + [next])
  {
    hide Mentions, Says, LastSays, EverMentioned;
    var more := commands + [next];
    forall name ensures name in was + given <==> EverMentioned(more, name) {
      OneMoreMention(commands, next, name);
    }
    forall name | name in was + given ensures LastSays(more, name, (was + given)[name]) {
      OneMoreSays(commands, next, name, (was + given)[name]);
    }
  }

  lemma MentionedIsNamed(mentions: seq<Mention>, name: string)
    ensures name in NamesOf(mentions) <==> Mentioned(mentions, name)
  {
    if Mentioned(mentions, name) {
      var k :| 0 <= k < |mentions| && mentions[k].name == name;
      assert NamesOf(mentions)[k] == name;
    }
  }

  /** A target after all of its commands: a name has the visibility the last
      command mentioning it gives it, whatever the earlier ones said. */
  method LinkAll(commands: seq<seq<LinkArg>>) returns (links: seq<string>, vis: map<string, Visibility>)
    ensures forall name :: name in vis <==> name in links
    ensures Summarizes(vis, commands)
  {
    hide Mentions, LastSays, EverMentioned, Mentioned, Says;
    var target := new Target();
    NothingSummarized();
    var k := 0;
    while k < |commands|
      invariant 0 <= k <= |commands| && fresh(target)
      invariant forall name :: name in target.vis <==> name in target.links
      invariant Summarizes(target.vis, commands[..k])
    {
      ghost var was := target.vis;
      ghost var given := target.Link(commands[k]);
      OneMoreCommand(was, commands[..k], commands[k], given);
      assert commands[..k + 1] == commands[..k] + [commands[k]];
      forall name ensures name in given <==> name in NamesOf(Mentions(commands[k])) {
        MentionedIsNamed(Mentions(commands[k]), name);
      }
      k := k + 1;
    }
    assert commands[..k] == commands;
    links, vis := target.links, target.vis;
  }

  /** "PUBLIC wins when a later private link repeats the name" holds within a
      command only. Across commands a name ends PUBLIC if and only if the last
      command that mentions it does so under PUBLIC. */
  lemma PublicWinsInLastCommandOnly(commands: seq<seq<LinkArg>>, name: string, c: nat, v: Visibility)
    requires LastCommand(commands, name, c) && Says(Mentions(commands[c]), name, v)
    ensures v == Public <==> Mention(name, Public) in Mentions(commands[c])
  {
    if Mention(name, Public) !in Mentions(commands[c]) {
      var k: nat :| LastMention(Mentions(commands[c]), name, k) && Mentions(commands[c])[k].visibility == v;
      assert Mentions(commands[c])[k] == Mention(name, v);
    }
  }

  /** A PRIVATE link in a later command does override PUBLIC. */
  lemma LaterCommandOverridesPublic()
    ensures
      var earlier := [Keyword(Public), Names(["util"])];
      var later := [Keyword(Private), Names(["util"])];
      && Says(Mentions(earlier), "util", Public)
      && LastCommand([earlier, later], "util", 1)
      && Says(Mentions(later), "util", Private)
      && !Says(Mentions(later), "util", Public)
  {
    hide *;
    NameUnderKeyword("util", Public);
    NameUnderKeyword("util", Private);
    OneMention("util", Public);
    OneMention("util", Private);
    SecondIsLast([Keyword(Public), Names(["util"])], [Keyword(Private), Names(["util"])], "util");
  }

  lemma NameUnderKeyword(name: string, v: Visibility)
    ensures Mentions([Keyword(v), Names([name])]) == [Mention(name, v)]
  {
    var keyword: seq<LinkArg>, args := [Keyword(v)], [Keyword(v), Names([name])];
    assert keyword[..0] == [] && args[..1] == keyword;
    assert Mentions(keyword) == [];
    assert keyword[0].Keyword? && InForce(keyword) == keyword[0].visibility;
    assert args[1].Names? && InForce(args) == InForce(keyword) == v;
    assert Under([name], v) == [Mention(name, v)];
  }

  lemma OneMention(name: string, v: Visibility)
    ensures Mentioned([Mention(name, v)], name)
    ensures forall w :: Says([Mention(name, v)], name, w) <==> v == w
  {
    var m := [Mention(name, v)];
    assert LastMention(m, name, 0) && m[0] == Mention(name, v);
  }

  lemma SecondIsLast(first: seq<LinkArg>, second: seq<LinkArg>, name: string)
    requires Mentioned(Mentions(second), name)
    ensures LastCommand([first, second], name, 1)
  {
    hide Mentions, Mentioned;
  }

  // ---- One command, argument by argument -----------------------------------------------

  /** The last keyword before argument `i` is `v`; before the first one PUBLIC holds. */
  ghost predicate InForceAt(args: seq<LinkArg>, i: nat, v: Visibility) {
    && i <= |args|
    && (|| (v == Public && NoKeyword(args, 0, i))
        || exists j: nat :: j < i && args[j] == Keyword(v) && NoKeyword(args, j + 1, i))
  }

  ghost predicate NoKeyword(args: seq<LinkArg>, from: nat, to: nat) {
    forall k | from <= k < to && k < |args| :: !args[k].Keyword?
  }

  ghost predicate GivenAt(args: seq<LinkArg>, i: nat, name: string) {
    i < |args| && args[i].Names? && name in args[i].names
  }

  lemma {:induction false} InForceMeaning(args: seq<LinkArg>, i: nat, v: Visibility)
    requires i <= |args|
    ensures InForceAt(args, i, v) <==> InForce(args[..i]) == v
  {
    if i > 0 {
      assert args[..i][..i - 1] == args[..i - 1] && args[..i][i - 1] == args[i - 1];
      InForceMeaning(args, i - 1, v);
      if args[i - 1].Keyword? {
        if InForce(args[..i]) == v {
          assert args[i - 1] == Keyword(v) && NoKeyword(args, i, i);
        }
      } else {
        SameKeywords(args, i - 1, v);
      }
    }
  }

  lemma SameKeywords(args: seq<LinkArg>, i: nat, v: Visibility)
    requires i < |args| && !args[i].Keyword?
    ensures InForceAt(args, i + 1, v) <==> InForceAt(args, i, v)
  {
    assert forall j: nat | j <= i :: NoKeyword(args, j, i + 1) <==> NoKeyword(args, j, i);
    if InForceAt(args, i, v) && !(v == Public && NoKeyword(args, 0, i)) {
      var j: nat :| j < i && args[j] == Keyword(v) && NoKeyword(args, j + 1, i);
      assert NoKeyword(args, j + 1, i + 1);
    }
  }

  lemma MentionsNext(args: seq<LinkArg>, n: nat)
    requires n < |args|
    ensures Mentions(args[..n + 1]) ==
              if args[n].Keyword? then Mentions(args[..n])
              else Mentions(args[..n]) + Under(args[n].names, InForce(args[..n]))
  {
    assert args[..n + 1][..n] == args[..n] && args[..n + 1][n] == args[n];
  }

  /** The names are listed argument by argument, in order and with repetitions. */
  lemma NamesAreInOrder(args: seq<LinkArg>, n: nat)
    requires n < |args|
    ensures NamesOf(Mentions(args[..n + 1])) ==
              NamesOf(Mentions(args[..n])) + if args[n].Names? then args[n].names else []
    ensures Mentions(args[..0]) == []
  {
    hide Mentions;
    MentionsNext(args, n);
    NoMentions(args);
  }

  lemma {:induction false} MentionedWhereGiven(args: seq<LinkArg>, n: nat, name: string, v: Visibility)
    requires n <= |args|
    ensures Mention(name, v) in Mentions(args[..n]) <==>
              exists i: nat :: i < n && GivenAt(args, i, name) && InForceAt(args, i, v)
    ensures Mentioned(Mentions(args[..n]), name) <==> exists i: nat :: i < n && GivenAt(args, i, name)
  {
    hide InForceAt, Mentions;
    if n > 0 {
      MentionedWhereGiven(args, n - 1, name, v);
      MentionsNext(args, n - 1);
      var before := Mentions(args[..n - 1]);
      if args[n - 1].Names? {
        InForceMeaning(args, n - 1, v);
        UnderMeaning(before, args[n - 1].names, InForce(args[..n - 1]), name, v);
      }
      assert GivenAt(args, n - 1, name) <==> args[n - 1].Names? && name in args[n - 1].names;
    } else {
      NoMentions(args);
    }
  }

  lemma NoMentions(args: seq<LinkArg>)
    ensures Mentions(args[..0]) == []
  {}

  lemma UnderMeaning(before: seq<Mention>, names: seq<string>, w: Visibility, name: string, v: Visibility)
    ensures Mention(name, v) in before + Under(names, w) <==> Mention(name, v) in before || (name in names && v == w)
    ensures Mentioned(before + Under(names, w), name) <==> Mentioned(before, name) || name in names
  {
    var all := before + Under(names, w);
    if name in names {
      var k :| 0 <= k < |names| && names[k] == name;
      assert all[|before| + k] == Mention(name, w);
    }
    if k :| 0 <= k < |all| && all[k].name == name {
      assert k >= |before| ==> names[k - |before|] == name;
      assert k < |before| ==> before[k].name == name;
    }
    if k :| 0 <= k < |before| && before[k].name == name {
      assert all[k].name == name;
    }
  }

  ghost predicate LastGiven(args: seq<LinkArg>, n: nat, i: nat, name: string) {
    i < n && GivenAt(args, i, name) && forall k: nat | i < k < n :: !GivenAt(args, k, name)
  }

  ghost predicate LastIs(mentions: seq<Mention>, name: string, v: Visibility) {
    exists k: nat :: LastMention(mentions, name, k) && mentions[k].visibility == v
  }

  lemma LastUnder(before: seq<Mention>, names: seq<string>, w: Visibility, name: string, v: Visibility)
    ensures LastIs(before + Under(names, w), name, v) <==> if name in names then v == w else LastIs(before, name, v)
  {
    var all := before + Under(names, w);
    if name in names {
      var k := LastOf(names, name);
      assert LastMention(all, name, |before| + k) && all[|before| + k].visibility == w;
    } else {
      if k: nat :| LastMention(before, name, k) && before[k].visibility == v {
        assert LastMention(all, name, k) && all[k] == before[k];
      }
      forall k | |before| <= k < |all| ensures all[k].name != name {
        assert all[k].name == names[k - |before|] && names[k - |before|] in names;
      }
      if k: nat :| LastMention(all, name, k) && all[k].visibility == v {
        assert forall j | k < j < |before| :: all[j] == before[j];
        assert LastMention(before, name, k) && all[k] == before[k];
      }
    }
  }

  lemma {:induction false} LastOf(names: seq<string>, name: string) returns (k: nat)
    requires name in names
    ensures k < |names| && names[k] == name && forall j | k < j < |names| :: names[j] != name
  {
    k := |names| - 1;
    if names[k] != name {
      assert names == names[..k] + [names[k]];
      k := LastOf(names[..k], name);
    }
  }

  lemma {:induction false} LastWhereGiven(args: seq<LinkArg>, n: nat, name: string, v: Visibility)
    requires n <= |args|
    ensures LastIs(Mentions(args[..n]), name, v) <==>
              exists i: nat :: LastGiven(args, n, i, name) && InForceAt(args, i, v)
  {
    hide InForceAt, Mentions, LastIs;
    if n > 0 {
      LastWhereGiven(args, n - 1, name, v);
      MentionsNext(args, n - 1);
      InForceMeaning(args, n - 1, v);
      if args[n - 1].Names? {
        LastUnder(Mentions(args[..n - 1]), args[n - 1].names, InForce(args[..n - 1]), name, v);
      }
      if GivenAt(args, n - 1, name) {
        assert LastGiven(args, n, n - 1, name);
      } else {
        assert forall i: nat :: LastGiven(args, n, i, name) <==> LastGiven(args, n - 1, i, name);
      }
    } else {
      NoMentions(args);
      NothingIsLast(name, v);
    }
  }

  lemma NothingIsLast(name: string, v: Visibility)
    ensures !LastIs([], name, v)
  {}

  /** One command, told by its arguments: a name is PUBLIC if it is given anywhere
      where PUBLIC is in force, and otherwise has the keyword in force where it is
      given last. */
  lemma CommandSays(args: seq<LinkArg>, name: string, v: Visibility)
    ensures Mentioned(Mentions(args), name) <==> exists i: nat :: GivenAt(args, i, name)
    ensures Says(Mentions(args), name, v) <==>
              if exists i: nat :: GivenAt(args, i, name) && InForceAt(args, i, Public) then v == Public
              else exists i: nat :: LastGiven(args, |args|, i, name) && InForceAt(args, i, v)
  {
    hide InForceAt, Mentions, Mentioned;
    assert args[..|args|] == args;
    MentionedWhereGiven(args, |args|, name, Public);
    LastWhereGiven(args, |args|, name, v);
    assert LastIs(Mentions(args), name, v) <==>
      exists k: nat :: LastMention(Mentions(args), name, k) && Mentions(args)[k].visibility == v;
  }

  /** The name is given in command `c` and in none after it. */
  ghost predicate GivenLastIn(commands: seq<seq<LinkArg>>, c: nat, name: string) {
    && c < |commands| && (exists i: nat :: GivenAt(commands[c], i, name))
    && forall d: nat, i: nat | c < d < |commands| :: !GivenAt(commands[d], i, name)
  }

  ghost predicate SaidBy(args: seq<LinkArg>, name: string, v: Visibility) {
    if exists i: nat :: GivenAt(args, i, name) && InForceAt(args, i, Public) then v == Public
    else exists i: nat :: LastGiven(args, |args|, i, name) && InForceAt(args, i, v)
  }

  /** All the commands of a target, told by their arguments: what a name ends with
      is what the last command that gives it says, and nothing else. */
  lemma TargetSays(commands: seq<seq<LinkArg>>, name: string, v: Visibility)
    ensures EverMentioned(commands, name) <==>
              exists c: nat, i: nat :: c < |commands| && GivenAt(commands[c], i, name)
    ensures LastSays(commands, name, v) <==>
              exists c: nat :: GivenLastIn(commands, c, name) && SaidBy(commands[c], name, v)
  {
    forall c: nat | c < |commands|
      ensures Mentioned(Mentions(commands[c]), name) <==> exists i: nat :: GivenAt(commands[c], i, name)
      ensures Says(Mentions(commands[c]), name, v) <==> SaidBy(commands[c], name, v)
    {
      CommandSays(commands[c], name, v);
    }
    hide Mentions, Mentioned, Says, GivenAt, SaidBy;
    forall c: nat ensures LastCommand(commands, name, c) <==> GivenLastIn(commands, c, name) {}
  }

  // ---- Published names -----------------------------------------------------------------

  /** The links that a consumer sees. */
  function PublicNames(links: seq<string>, vis: map<string, Visibility>): (names: seq<string>)
    ensures forall name :: name in names <==> name in links && (name in vis ==> vis[name] != Private)
  {
    if links == [] then []
    else
      (if links[0] in vis && vis[links[0]] == Private then [] else [links[0]]) + PublicNames(links[1..], vis)
  }

  /** They keep their order. */
  lemma {:induction false} PublicNamesInOrder(before: seq<string>, after: seq<string>, vis: map<string, Visibility>)
    ensures PublicNames(before + after, vis) == PublicNames(before, vis) + PublicNames(after, vis)
  {
    hide PublicNames;
    if before == [] {
      NoNames(vis);
      assert before + after == after;
      assert [] + PublicNames(after, vis) == PublicNames(after, vis);
    } else {
      PublicNamesInOrder(before[1..], after, vis);
      var first := FirstName(before, vis);
      FirstNameAhead(before, vis);
      FirstNameAhead(before + after, vis);
      assert (before + after)[1..] == before[1..] + after;
      Associates(first, PublicNames(before[1..], vis), PublicNames(after, vis));
    }
  }

  lemma NoNames(vis: map<string, Visibility>)
    ensures PublicNames([], vis) == []
  {}

  function FirstName(links: seq<string>, vis: map<string, Visibility>): seq<string>
    requires links != []
  {
    if links[0] in vis && vis[links[0]] == Private then [] else [links[0]]
  }

  lemma FirstNameAhead(links: seq<string>, vis: map<string, Visibility>)
    requires links != []
    ensures PublicNames(links, vis) == FirstName(links, vis) + PublicNames(links[1..], vis)
  {}

  lemma Associates(a: seq<string>, b: seq<string>, c: seq<string>)
    ensures (a + b) + c == a + (b + c)
  {}

  /** And their repetitions. */
  lemma {:induction false} PublicNamesRepeat(links: seq<string>, vis: map<string, Visibility>, name: string)
    ensures multiset(PublicNames(links, vis))[name] ==
              if name in vis && vis[name] == Private then 0 else multiset(links)[name]
  {
    hide PublicNames;
    if links == [] {
      NoNames(vis);
    } else {
      PublicNamesRepeat(links[1..], vis, name);
      FirstNameAhead(links, vis);
      assert links == [links[0]] + links[1..];
      CountAppend([links[0]], links[1..], name);
      CountAppend(FirstName(links, vis), PublicNames(links[1..], vis), name);
    }
  }

  lemma CountAppend(a: seq<string>, b: seq<string>, name: string)
    ensures multiset(a + b)[name] == multiset(a)[name] + multiset(b)[name]
  {}
}
