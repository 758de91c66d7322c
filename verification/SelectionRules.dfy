/** What a changed path selects, rule by rule and in terms of its text. */
module SelectionRules {
  import opened Digraphs
  import opened LinkLines
  import opened Selector

  // ---- Texts ---------------------------------------------------------------------------

  lemma {:induction false} ContainsMeaning(s: string, part: string)
    ensures Contains(s, part) <==> exists before, after :: s == before + part + after
  {
    if Contains(s, part) {
      if part <= s {
        assert s == [] + part + s[|part|..];
      } else {
        ContainsMeaning(s[1..], part);
        var before, after :| s[1..] == before + part + after;
        assert s == ([s[0]] + before) + part + after;
      }
    }
    if before, after :| s == before + part + after {
      if before == [] {
        assert s == part + after;
      } else {
        assert s[1..] == before[1..] + part + after;
        ContainsMeaning(s[1..], part);
      }
    }
  }

  lemma EndsWithMeaning(s: string, suffix: string)
    ensures EndsWith(s, suffix) <==> exists before :: s == before + suffix
  {
    if EndsWith(s, suffix) {
      assert s == s[..|s| - |suffix|] + suffix;
    }
  }

  lemma StartsWithMeaning(s: string, prefix: string)
    ensures StartsWith(s, prefix) <==> exists rest :: s == prefix + rest
  {
    if StartsWith(s, prefix) {
      assert s == prefix + s[|prefix|..];
    }
  }

  /** A path under `libs/` or `tests/`. */
  ghost predicate SourcePath(path: string) {
    exists rest :: path == "libs/" + rest || path == "tests/" + rest
  }

  ghost predicate HeaderPath(path: string) {
    exists stem :: path == stem + ".h" || path == stem + ".hpp"
  }

  ghost predicate BuildPath(path: string) {
    exists rest :: path == rest + "CMakeLists.txt" || path == "cmake/" + rest
  }

  ghost predicate SchemaPath(path: string) {
    exists before, after :: path == before + "schema.usda" + after
  }

  lemma PathKinds(path: string)
    ensures InTree(path) <==> SourcePath(path)
    ensures Header(path) <==> HeaderPath(path)
    ensures EndsWith(path, "CMakeLists.txt") || StartsWith(path, "cmake/") <==> BuildPath(path)
    ensures Contains(path, "schema.usda") <==> SchemaPath(path)
  {
    hide StartsWith, EndsWith, Contains;
    StartsWithMeaning(path, "libs/");
    StartsWithMeaning(path, "tests/");
    StartsWithMeaning(path, "cmake/");
    EndsWithMeaning(path, ".h");
    EndsWithMeaning(path, ".hpp");
    EndsWithMeaning(path, "CMakeLists.txt");
    ContainsMeaning(path, "schema.usda");
  }

  // ---- What a path marks ---------------------------------------------------------------

  /** Some library's source list names the file at `path`. */
  ghost predicate Compiled(model: Model, files: Files, lib: string, path: string) {
    lib in model.libraries && exists src :: src in model.libraries[lib].sources && files.normal(src) == path
  }

  /** An executable's source list names `path`, or a text that `path` ends in. */
  ghost predicate Lists(model: Model, exe: string, path: string) {
    exe in model.executables && exists src, before :: src in model.executables[exe].sources && path == before + src
  }

  lemma ListsMeaning(model: Model, exe: string, path: string)
    ensures Lists(model, exe, path) <==> exe in model.executables && ListsSource(model.executables[exe], path)
  {
    hide EndsWith;
    if exe in model.executables {
      forall src | src in model.executables[exe].sources
        ensures EndsWith(path, src) <==> exists before :: path == before + src
      {
        EndsWithMeaning(path, src);
      }
      if path in model.executables[exe].sources {
        assert path == [] + path;
      }
    }
  }

  /** A source path that a library compiles marks the libraries that compile it. */
  lemma SourceMarks(model: Model, files: Files, path: string, lib: string, mark: string)
    requires SourcePath(path) && Compiled(model, files, lib, path)
    ensures Touches(model, files, path, mark) <==> Compiled(model, files, mark, path)
  {
    hide InTree, Header, EndsWith, StartsWith, Contains;
    PathKinds(path);
    assert Compiles(model, files, lib, path);
  }

  /** A header that no library compiles marks what its includers belong to. */
  lemma HeaderMarks(model: Model, files: Files, path: string, mark: string)
    requires SourcePath(path) && HeaderPath(path) && files.follow
    requires forall lib :: !Compiled(model, files, lib, path)
    ensures
      Touches(model, files, path, mark) <==>
        exists inc :: inc in files.includers(path) &&
          (Compiled(model, files, mark, inc) || exists exe :: mark == "exe:" + exe && Lists(model, exe, inc))
  {
    hide InTree, Header, EndsWith, StartsWith, Contains, ListsSource, Lists;
    PathKinds(path);
    assert forall lib :: Compiles(model, files, lib, path) <==> Compiled(model, files, lib, path);
    forall inc, exe
      ensures Lists(model, exe, inc) <==> exe in model.executables && ListsSource(model.executables[exe], inc)
    {
      ListsMeaning(model, exe, inc);
    }
    assert forall inc :: Includes(model, files, mark, inc) <==>
      (Compiled(model, files, mark, inc) || exists exe :: mark == "exe:" + exe && Lists(model, exe, inc));
  }

  /** Any other source path marks nothing. */
  lemma OtherSourceMarksNothing(model: Model, files: Files, path: string, mark: string)
    requires SourcePath(path) && !(files.follow && HeaderPath(path))
    requires forall lib :: !Compiled(model, files, lib, path)
    ensures !Touches(model, files, path, mark)
  {
    hide InTree, Header, EndsWith, StartsWith, Contains;
    PathKinds(path);
    assert forall lib :: Compiles(model, files, lib, path) <==> Compiled(model, files, lib, path);
  }

  /** Elsewhere a build file marks everything, the schema the evaluator, and
      nothing else marks anything. */
  lemma ElsewhereMarks(model: Model, files: Files, path: string, mark: string)
    requires !SourcePath(path)
    ensures Touches(model, files, path, mark) <==>
              if BuildPath(path) then mark == "*" else SchemaPath(path) && mark == "rigExec"
  {
    hide InTree, Header, EndsWith, StartsWith, Contains;
    PathKinds(path);
  }

  // ---- What a path selects -------------------------------------------------------------

  /** A registered test of `exe` whose name holds no variable. */
  ghost predicate Registered(model: Model, exe: string, name: string) {
    && exe in model.executables && exe != "" && Test(name, exe) in model.tests
    && forall before, after :: name != before + "${" + after
  }

  lemma RegisteredIsTest(model: Model, exe: string, name: string)
    requires Registered(model, exe, name)
    ensures exe in model.executables && TestOf(model, exe, name)
  {
    hide Contains;
    ContainsMeaning(name, "${");
  }

  /** A path links from `exe` to `lib`: one link of any kind, and then links that
      are not private. */
  ghost predicate Links(model: Model, exe: string, p: seq<string>) {
    && exe in model.executables && |p| > 0 && p[0] in model.executables[exe].links
    && forall k | 0 <= k < |p| - 1 :: Published(model, p[k], p[k + 1])
  }

  ghost predicate Published(model: Model, lib: string, dep: string) {
    && lib in model.libraries && dep in model.libraries[lib].links
    && (dep in model.libraries[lib].vis ==> model.libraries[lib].vis[dep] != Private)
  }

  lemma {:induction false} LinksConsume(model: Model, exe: string, p: seq<string>)
    requires Links(model, exe, p)
    ensures Consumes(model, exe, p[|p| - 1])
  {
    hide Reaches;
    if |p| == 1 {
      ReachesSelf(PublicEdges(model), p[0]);
      assert p[0] in LinkSet(model, exe);
    } else {
      var q := p[..|p| - 1];
      LinksConsume(model, exe, q);
      assert Published(model, p[|p| - 2], p[|p| - 2 + 1]);
      PublishedLinksAreConsumed(model, exe, q[|q| - 1], p[|p| - 1]);
    }
  }

  lemma ConsumedIsLinked(model: Model, exe: string, lib: string)
    requires Consumes(model, exe, lib)
    ensures exists p :: Links(model, exe, p) && |p| > 0 && p[|p| - 1] == lib
  {
    var edges := PublicEdges(model);
    var first :| first in LinkSet(model, exe) && Reaches(edges, first, lib);
    var p :| IsPath(edges, p) && p[0] == first && p[|p| - 1] == lib;
    forall k | 0 <= k < |p| - 1 ensures Published(model, p[k], p[k + 1]) {
      assert p[k + 1] in Succ(edges, p[k]);
    }
    assert Links(model, exe, p);
  }

  ghost predicate Consumer(model: Model, exe: string, lib: string) {
    exists p :: Links(model, exe, p) && |p| > 0 && p[|p| - 1] == lib
  }

  lemma ConsumerMeaning(model: Model, exe: string, lib: string)
    ensures Consumer(model, exe, lib) <==> Consumes(model, exe, lib)
  {
    hide Consumes, Links;
    if p :| Links(model, exe, p) && |p| > 0 && p[|p| - 1] == lib {
      LinksConsume(model, exe, p);
    }
    if Consumes(model, exe, lib) {
      ConsumedIsLinked(model, exe, lib);
    }
  }

  lemma MarkSelects(
      model: Model, files: Files, paths: seq<string>, raw: string, mark: string, exe: string, name: string)
    requires raw in paths && Touches(model, files, files.normal(raw), mark) && Registered(model, exe, name)
    requires mark == "*" || mark == "exe:" + exe || Consumer(model, exe, mark)
    ensures Selected(model, files, paths, exe) && TestSelected(model, files, paths, name)
  {
    hide Touches, Consumes, SourceChanged, Consumer, TestOf, Registered;
    RegisteredIsTest(model, exe, name);
    ConsumerMeaning(model, exe, mark);
    assert Marked(model, files, paths, mark);
  }

  /** A change to a source of a library selects every test of every executable
      that consumes the library. */
  lemma SourceSelects(
      model: Model, files: Files, paths: seq<string>, raw: string, lib: string, exe: string, name: string)
    requires raw in paths && SourcePath(files.normal(raw)) && Compiled(model, files, lib, files.normal(raw))
    requires Consumer(model, exe, lib) && Registered(model, exe, name)
    ensures Selected(model, files, paths, exe) && TestSelected(model, files, paths, name)
  {
    hide SourcePath, Compiled, Consumer, Registered, Touches, Selected, TestSelected;
    SourceMarks(model, files, files.normal(raw), lib, lib);
    MarkSelects(model, files, paths, raw, lib, exe, name);
  }

  /** A change to a source of an executable selects its tests. */
  lemma OwnSourceSelects(
      model: Model, files: Files, paths: seq<string>, raw: string, src: string, exe: string, name: string)
    requires raw in paths && exe in model.executables && src in model.executables[exe].sources
    requires files.normal(src) == files.normal(raw) && Registered(model, exe, name)
    ensures Selected(model, files, paths, exe) && TestSelected(model, files, paths, name)
  {
    hide Marked, Consumes, TestOf, Registered;
    RegisteredIsTest(model, exe, name);
    assert SourceChanged(model, files, paths, exe);
  }

  /** A change to a header selects those of the executables that list an includer
      or consume a library that compiles one. */
  lemma HeaderSelects(
      model: Model, files: Files, paths: seq<string>, raw: string, inc: string, lib: string, exe: string, name: string)
    requires raw in paths && SourcePath(files.normal(raw)) && HeaderPath(files.normal(raw)) && files.follow
    requires forall l :: !Compiled(model, files, l, files.normal(raw))
    requires inc in files.includers(files.normal(raw))
    requires Lists(model, exe, inc) || (Compiled(model, files, lib, inc) && Consumer(model, exe, lib))
    requires Registered(model, exe, name)
    ensures Selected(model, files, paths, exe) && TestSelected(model, files, paths, name)
  {
    hide SourcePath, HeaderPath, Compiled, Consumer, Registered, Touches, Selected, TestSelected, Lists;
    var mark := if Lists(model, exe, inc) then "exe:" + exe else lib;
    HeaderMarks(model, files, files.normal(raw), mark);
    MarkSelects(model, files, paths, raw, mark, exe, name);
  }

  /** A change to a build file selects every test. */
  lemma BuildFileSelects(model: Model, files: Files, paths: seq<string>, raw: string, exe: string, name: string)
    requires raw in paths && !SourcePath(files.normal(raw)) && BuildPath(files.normal(raw))
    requires Registered(model, exe, name)
    ensures Selected(model, files, paths, exe) && TestSelected(model, files, paths, name)
  {
    hide SourcePath, BuildPath, SchemaPath, Registered, Touches, Selected, TestSelected;
    ElsewhereMarks(model, files, files.normal(raw), "*");
    MarkSelects(model, files, paths, raw, "*", exe, name);
  }

  /** A change to the schema selects those of the executables that consume the evaluator. */
  lemma SchemaSelects(model: Model, files: Files, paths: seq<string>, raw: string, exe: string, name: string)
    requires raw in paths && !SourcePath(files.normal(raw)) && !BuildPath(files.normal(raw))
    requires SchemaPath(files.normal(raw)) && Consumer(model, exe, "rigExec") && Registered(model, exe, name)
    ensures Selected(model, files, paths, exe) && TestSelected(model, files, paths, name)
  {
    hide SourcePath, BuildPath, SchemaPath, Registered, Touches, Selected, TestSelected, Consumer;
    ElsewhereMarks(model, files, files.normal(raw), "rigExec");
    MarkSelects(model, files, paths, raw, "rigExec", exe, name);
  }

  /** Nothing is selected without such a reason: some changed path marks
      everything, or the executable, or a library it consumes, or is one of its
      sources. */
  lemma SelectedHasReason(model: Model, files: Files, paths: seq<string>, name: string)
    requires TestSelected(model, files, paths, name)
    ensures
      exists exe, raw :: Registered(model, exe, name) && raw in paths &&
        (|| Touches(model, files, files.normal(raw), "*")
         || Touches(model, files, files.normal(raw), "exe:" + exe)
         || (exists lib :: Touches(model, files, files.normal(raw), lib) && Consumer(model, exe, lib))
         || exists src :: src in model.executables[exe].sources && files.normal(src) == files.normal(raw))
  {
    hide Touches, Consumes, Consumer, Contains;
    ContainsMeaning(name, "${");
    var exe :| Selected(model, files, paths, exe) && TestOf(model, exe, name);
    forall lib ensures Consumer(model, exe, lib) <==> Consumes(model, exe, lib) {
      ConsumerMeaning(model, exe, lib);
    }
  }

  // ---- The order of the tests ----------------------------------------------------------

  ghost predicate FirstAt(names: seq<string>, name: string, k: nat) {
    k < |names| && names[k] == name && forall j | 0 <= j < k :: names[j] != name
  }

  /** Names are listed in the order in which they occur first. */
  lemma {:induction false} FirstTimesInOrder(names: seq<string>, i: nat, j: nat, k: nat, l: nat)
    requires i < j < |FirstTimes(names)|
    requires FirstAt(names, FirstTimes(names)[i], k) && FirstAt(names, FirstTimes(names)[j], l)
    ensures k < l
  {
    var shorter, last := names[..|names| - 1], names[|names| - 1];
    var before := FirstTimes(shorter);
    if j < |before| {
      FirstOfShorter(names, before[i], k);
      FirstOfShorter(names, before[j], l);
      FirstTimesInOrder(shorter, i, j, k, l);
    } else {
      assert before[i] in before && before[i] in shorter;
      var m :| 0 <= m < |shorter| && shorter[m] == before[i];
      assert names[m] == before[i];
      assert last !in shorter;
      forall n | 0 <= n < |shorter| ensures names[n] != last {
        assert shorter[n] in shorter;
      }
    }
  }

  lemma FirstOfShorter(names: seq<string>, name: string, k: nat)
    requires names != [] && name in FirstTimes(names[..|names| - 1]) && FirstAt(names, name, k)
    ensures FirstAt(names[..|names| - 1], name, k)
  {
    var shorter := names[..|names| - 1];
    assert name in shorter;
    var m :| 0 <= m < |shorter| && shorter[m] == name;
    assert names[m] == name;
  }

  /** The tests of an executable come in the order of the file, and those of several
      executables executable by executable. */
  lemma {:induction false} TestsInFileOrder(before: seq<Test>, after: seq<Test>, exe: string)
    ensures TestsOf(before + after, exe) == TestsOf(before, exe) + TestsOf(after, exe)
  {
    hide Contains;
    if after == [] {
      assert before + after == before;
    } else {
      var shorter := after[..|after| - 1];
      TestsInFileOrder(before, shorter, exe);
      assert (before + after)[..|before + after| - 1] == before + shorter;
    }
  }

  lemma {:induction false} TestsByExecutable(tests: seq<Test>, before: seq<string>, after: seq<string>)
    ensures AllTests(tests, before + after) == AllTests(tests, before) + AllTests(tests, after)
    ensures forall exe :: AllTests(tests, [exe]) == TestsOf(tests, exe)
  {
    hide Contains, TestsOf;
    forall exe ensures AllTests(tests, [exe]) == TestsOf(tests, exe) {
      assert [exe][..0] == [];
      assert AllTests(tests, []) == [];
    }
    if after == [] {
      assert before + after == before;
    } else {
      var shorter := after[..|after| - 1];
      TestsByExecutable(tests, before, shorter);
      assert (before + after)[..|before + after| - 1] == before + shorter;
    }
  }
}
