/** Which tests a set of changed paths selects: a worklist closure over
    published links and the selection built on it
    (`tools/select_affected_tests.py`). */
module Selector {
  import opened FiniteSets
  import opened Digraphs
  import opened LinkLines
  import Maps

  datatype Library = Library(sources: seq<string>, links: seq<string>, vis: map<string, Visibility>)

  datatype Executable = Executable(sources: seq<string>, links: seq<string>)

  datatype Test = Test(name: string, executable: string)

  datatype Model = Model(
    libraries: map<string, Library>,
    executables: map<string, Executable>,
    tests: seq<Test>)

  /** What the selector is told about the file system: path normalisation and,
      when headers are followed, the files that include a header. */
  datatype Files = Files(normal: string -> string, follow: bool, includers: string -> seq<string>)

  // ---- Closure -------------------------------------------------------------------------

  ghost function Vertices(start: set<string>, edges: Edges<string>): set<string> {
    start + set a, b | a in edges && b in edges[a] :: b
  }

  method Listed(s: set<string>) returns (list: seq<string>)
    ensures forall x :: x in list <==> x in s
    ensures |list| == |s|
  {
    var rest := s;
    list := [];
    while rest != {}
      invariant rest <= s && |list| + |rest| == |s|
      invariant forall x :: x in list <==> x in s - rest
    {
      var x :| x in rest;
      list, rest := list + [x], rest - {x};
    }
  }

  /** Adds the unseen ones of `next` to the seen vertices and to the stack. */
  method Visit(next: seq<string>, before: set<string>, below: seq<string>)
    returns (seen: set<string>, stack: seq<string>)
    ensures forall n :: n in seen <==> n in before || n in next
    ensures forall a :: a in stack <==> a in below || (a in seen && a !in before)
    ensures |stack| - |seen| == |below| - |before|
  {
    seen, stack := before, below;
    for k := 0 to |next|
      invariant forall n :: n in seen <==> n in before || n in next[..k]
      invariant forall a :: a in stack <==> a in below || (a in seen && a !in before)
      invariant |stack| - |seen| == |below| - |before|
    {
      assert next[..k + 1] == next[..k] + [next[k]];
      if next[k] !in seen {
        seen, stack := seen + {next[k]}, stack + [next[k]];
      }
    }
    assert next[..|next|] == next;
  }

  /** Everything reached from `start`, cyclic graphs included: the least set
      around `start` that no edge leaves. */
  method Closure(start: set<string>, edges: Edges<string>) returns (seen: set<string>)
    ensures forall b :: b in seen <==> ReachedFrom(edges, start, b)
    ensures start <= seen && Closed(edges, seen)
    ensures forall t: set<string> | start <= t && Closed(edges, t) :: seen <= t
  {
    hide Reaches, IsPath, ReachedFrom, Vertices;
    seen := start;
    var stack := Listed(start);
    ghost var all := Vertices(start, edges);
    StartIsReached(edges, start);
    while stack != []
      invariant start <= seen <= all
      invariant forall a <- stack :: a in seen
      invariant forall b <- seen :: ReachedFrom(edges, start, b)
      invariant forall a, b | a in seen && a !in stack && b in Succ(edges, a) :: b in seen
      decreases |all| - |seen| + |stack|
    {
      var cur := stack[|stack| - 1];
      ghost var below, before := stack, seen;
      stack := stack[..|stack| - 1];
      assert below == stack + [cur];
      seen, stack := Visit(Succ(edges, cur), seen, stack);
      forall n <- Succ(edges, cur)
        ensures ReachedFrom(edges, start, n) && n in all
      {
        StepIsReached(edges, start, cur, n);
      }
      SubsetIsNoLarger(seen, all);
    }
    ClosedAndReachedIsReachability(edges, start, seen);
  }

  lemma StartIsReached(edges: Edges<string>, start: set<string>)
    ensures start <= Vertices(start, edges) && forall a <- start :: ReachedFrom(edges, start, a)
  {
    forall a <- start ensures ReachedFrom(edges, start, a) {
      ReachesSelf(edges, a);
    }
  }

  lemma StepIsReached(edges: Edges<string>, start: set<string>, cur: string, next: string)
    requires ReachedFrom(edges, start, cur) && next in Succ(edges, cur)
    ensures ReachedFrom(edges, start, next) && next in Vertices(start, edges)
  {
    var a :| a in start && Reaches(edges, a, cur);
    SuccOfReached(edges, a, cur, next);
  }

  // ---- Index ---------------------------------------------------------------------------

  ghost function PublicEdges(model: Model): Edges<string> {
    Maps.Tabulate(model.libraries.Keys,
      name requires name in model.libraries => PublicNames(model.libraries[name].links, model.libraries[name].vis))
  }

  method BuildPublicEdges(model: Model) returns (edges: Edges<string>)
    ensures edges == PublicEdges(model)
  {
    edges := map[];
    var todo := model.libraries.Keys;
    while todo != {}
      invariant todo <= model.libraries.Keys && edges.Keys == model.libraries.Keys - todo
      invariant forall name | name in edges :: edges[name] == PublicEdges(model)[name]
    {
      var name :| name in todo;
      var lib := model.libraries[name];
      edges := edges[name := PublicNames(lib.links, lib.vis)];
      todo := todo - {name};
    }
  }

  /** Library `lib` compiles the file at `path`. */
  ghost predicate Compiles(model: Model, files: Files, lib: string, path: string) {
    lib in model.libraries && exists src <- model.libraries[lib].sources :: files.normal(src) == path
  }

  /** The source index, filled by a pass over libraries and their sources. */
  method SourceOwners(model: Model, files: Files) returns (owners: map<string, seq<string>>)
    ensures forall path, lib :: (path in owners && lib in owners[path]) <==> Compiles(model, files, lib, path)
    ensures forall path <- owners :: owners[path] != []
  {
    owners := map[];
    var todo := model.libraries.Keys;
    while todo != {}
      invariant todo <= model.libraries.Keys
      invariant forall path, lib :: (path in owners && lib in owners[path]) <==>
                  (lib !in todo && Compiles(model, files, lib, path))
      invariant forall path <- owners :: owners[path] != []
    {
      var lib :| lib in todo;
      var sources := model.libraries[lib].sources;
      var k := 0;
      while k < |sources|
        invariant 0 <= k <= |sources|
        invariant forall path, l :: (path in owners && l in owners[path]) <==>
                    || (l !in todo && Compiles(model, files, l, path))
                    || (l == lib && exists src <- sources[..k] :: files.normal(src) == path)
        invariant forall path <- owners :: owners[path] != []
      {
        var path := files.normal(sources[k]);
        assert sources[..k + 1] == sources[..k] + [sources[k]];
        owners := owners[path := (if path in owners then owners[path] else []) + [lib]];
        k := k + 1;
      }
      assert sources[..k] == sources;
      todo := todo - {lib};
    }
  }

  // ---- What one changed path touches ---------------------------------------------------

  predicate StartsWith(s: string, prefix: string) {
    prefix <= s
  }

  predicate EndsWith(s: string, suffix: string) {
    |suffix| <= |s| && s[|s| - |suffix|..] == suffix
  }

  predicate Contains(s: string, part: string) {
    |part| <= |s| && (part <= s || Contains(s[1..], part))
  }

  /** The executable's own file list names `path`, in full or as a suffix. */
  predicate ListsSource(exe: Executable, path: string) {
    path in exe.sources || exists s <- exe.sources :: EndsWith(path, s)
  }

  predicate InTree(path: string) {
    StartsWith(path, "libs/") || StartsWith(path, "tests/")
  }

  predicate Header(path: string) {
    EndsWith(path, ".h") || EndsWith(path, ".hpp")
  }

  /** What the file `inc` belongs to: a library that compiles it, or `exe:` and
      an executable that lists it. */
  ghost predicate Includes(model: Model, files: Files, mark: string, inc: string) {
    || Compiles(model, files, mark, inc)
    || exists exe <- model.executables :: mark == "exe:" + exe && ListsSource(model.executables[exe], inc)
  }

  /** `mark` is what a change to `path` marks: a library, `exe:` and an
      executable, or `*` for everything. */
  ghost predicate Touches(model: Model, files: Files, path: string, mark: string) {
    if InTree(path) then
      if exists lib :: Compiles(model, files, lib, path) then Compiles(model, files, mark, path)
      else if files.follow && Header(path) then
        exists inc <- files.includers(path) :: Includes(model, files, mark, inc)
      else false
    else if EndsWith(path, "CMakeLists.txt") || StartsWith(path, "cmake/") then mark == "*"
    else Contains(path, "schema.usda") && mark == "rigExec"
  }

  ghost predicate Marked(model: Model, files: Files, paths: seq<string>, mark: string) {
    exists raw <- paths :: Touches(model, files, files.normal(raw), mark)
  }

  /** The executables whose sources list the included file. */
  method MarkExecutables(model: Model, inc: string) returns (marks: set<string>)
    ensures forall m :: m in marks <==>
              exists exe <- model.executables :: m == "exe:" + exe && ListsSource(model.executables[exe], inc)
  {
    marks := {};
    var todo := model.executables.Keys;
    while todo != {}
      invariant todo <= model.executables.Keys
      invariant forall m :: m in marks <==>
                  exists exe <- model.executables ::
                    exe !in todo && m == "exe:" + exe && ListsSource(model.executables[exe], inc)
    {
      var exe :| exe in todo;
      if ListsSource(model.executables[exe], inc) {
        marks := marks + {"exe:" + exe};
      }
      todo := todo - {exe};
    }
  }

  /** One pass over the changed paths. */
  method MarkTouched(model: Model, files: Files, owners: map<string, seq<string>>, paths: seq<string>)
    returns (libs: set<string>)
    requires forall path, lib :: (path in owners && lib in owners[path]) <==> Compiles(model, files, lib, path)
    requires forall path <- owners :: owners[path] != []
    ensures forall m :: m in libs <==> Marked(model, files, paths, m)
  {
    libs := {};
    for p := 0 to |paths|
      invariant forall m :: m in libs <==> Marked(model, files, paths[..p], m)
    {
      var touched := MarkPath(model, files, owners, files.normal(paths[p]));
      libs := libs + touched;
      assert paths[..p + 1] == paths[..p] + [paths[p]];
    }
    assert paths[..|paths|] == paths;
  }

  method MarkPath(model: Model, files: Files, owners: map<string, seq<string>>, rel: string)
    returns (libs: set<string>)
    requires forall path, lib :: (path in owners && lib in owners[path]) <==> Compiles(model, files, lib, path)
    requires forall path <- owners :: owners[path] != []
    ensures forall m :: m in libs <==> Touches(model, files, rel, m)
  {
    hide Compiles, ListsSource, EndsWith, StartsWith, Contains;
    libs := {};
    if InTree(rel) {
      if rel in owners {
        assert owners[rel][0] in owners[rel];
        libs := set lib | lib in owners[rel];
      } else if files.follow && Header(rel) {
        var includers := files.includers(rel);
        for k := 0 to |includers|
          invariant forall m :: m in libs <==>
                      exists inc <- includers[..k] :: Includes(model, files, m, inc)
        {
          var inc := includers[k];
          var marks := MarkExecutables(model, inc);
          assert includers[..k + 1] == includers[..k] + [inc];
          marks := marks + if inc in owners then set lib | lib in owners[inc] else {};
          assert forall m :: m in marks <==> Includes(model, files, m, inc);
          libs := libs + marks;
        }
        assert includers[..|includers|] == includers;
      }
    } else if EndsWith(rel, "CMakeLists.txt") || StartsWith(rel, "cmake/") {
      libs := {"*"};
    } else if Contains(rel, "schema.usda") {
      libs := {"rigExec"};
    }
  }

  // ---- Selection -----------------------------------------------------------------------

  /** One link of `exe`, of whatever visibility, and then published links only
      lead to `lib`. */
  ghost predicate Consumes(model: Model, exe: string, lib: string) {
    exe in model.executables && ReachedFrom(PublicEdges(model), LinkSet(model, exe), lib)
  }

  function LinkSet(model: Model, exe: string): set<string>
    requires exe in model.executables
  {
    set l | l in model.executables[exe].links
  }

  ghost predicate SourceChanged(model: Model, files: Files, paths: seq<string>, exe: string) {
    exe in model.executables &&
    exists src <- model.executables[exe].sources, raw <- paths :: files.normal(src) == files.normal(raw)
  }

  ghost predicate Selected(model: Model, files: Files, paths: seq<string>, exe: string) {
    && exe in model.executables
    && (|| Marked(model, files, paths, "*")
        || (exists lib :: Marked(model, files, paths, lib) && Consumes(model, exe, lib))
        || Marked(model, files, paths, "exe:" + exe)
        || SourceChanged(model, files, paths, exe))
  }

  /** A registered test of `exe`, unless its name still holds a variable. */
  ghost predicate TestOf(model: Model, exe: string, name: string) {
    exe != "" && !Contains(name, "${") && Test(name, exe) in model.tests
  }

  method ChangedSource(files: Files, paths: seq<string>, sources: seq<string>) returns (changed: bool)
    ensures changed <==> exists src <- sources, raw <- paths :: files.normal(src) == files.normal(raw)
  {
    var pathset := set raw | raw in paths :: files.normal(raw);
    changed := false;
    for k := 0 to |sources|
      invariant changed <==> exists src <- sources[..k], raw <- paths :: files.normal(src) == files.normal(raw)
    {
      assert sources[..k + 1] == sources[..k] + [sources[k]];
      if files.normal(sources[k]) in pathset {
        changed := true;
      }
    }
    assert sources[..|sources|] == sources;
  }

  /** The executables to rebuild. */
  method SelectExecutables(model: Model, files: Files, paths: seq<string>) returns (exes: set<string>)
    ensures forall exe :: exe in exes <==> Selected(model, files, paths, exe)
  {
    hide Marked, ReachedFrom, SourceChanged;
    var owners := SourceOwners(model, files);
    var libs := MarkTouched(model, files, owners, paths);
    if "*" in libs {
      return model.executables.Keys;
    }
    var publicEdges := BuildPublicEdges(model);
    exes := {};
    var todo := model.executables.Keys;
    while todo != {}
      invariant todo <= model.executables.Keys
      invariant forall exe :: exe in exes <==> exe !in todo && Selected(model, files, paths, exe)
    {
      var exe :| exe in todo;
      var named := LinkSet(model, exe);
      var reached := Closure(named, publicEdges);
      Meet(named, libs);
      Meet(reached, libs);
      var changed := ChangedSource(files, paths, model.executables[exe].sources);
      SourceHit(model, files, paths, exe, changed);
      if named * libs != {} || reached * libs != {} || ("exe:" + exe) in libs {
        exes := exes + {exe};
      }
      if changed {
        exes := exes + {exe};
      }
      todo := todo - {exe};
    }
  }

  lemma Meet(a: set<string>, b: set<string>)
    ensures a * b != {} <==> exists x :: x in a && x in b
  {
    if x :| x in a && x in b {
      assert x in a * b;
    }
  }

  lemma SourceHit(model: Model, files: Files, paths: seq<string>, exe: string, changed: bool)
    requires exe in model.executables
    requires changed <==> exists src <- model.executables[exe].sources, raw <- paths ::
                            files.normal(src) == files.normal(raw)
    ensures changed <==> SourceChanged(model, files, paths, exe)
  {}

  /** The names of the tests of `exe` among `tests`, in file order. */
  function TestsOf(tests: seq<Test>, exe: string): seq<string> {
    if tests == [] then []
    else
      var last := tests[|tests| - 1];
      TestsOf(tests[..|tests| - 1], exe)
        + if last.executable == exe && exe != "" && !Contains(last.name, "${") then [last.name] else []
  }

  function AllTests(tests: seq<Test>, exes: seq<string>): seq<string> {
    if exes == [] then [] else AllTests(tests, exes[..|exes| - 1]) + TestsOf(tests, exes[|exes| - 1])
  }

  /** Each name where it occurs first. */
  function FirstTimes(names: seq<string>): (firsts: seq<string>)
    ensures forall name :: name in firsts <==> name in names
    ensures forall i, j | 0 <= i < j < |firsts| :: firsts[i] != firsts[j]
  {
    if names == [] then []
    else
      var before, last := FirstTimes(names[..|names| - 1]), names[|names| - 1];
      assert names == names[..|names| - 1] + [last];
      if last in before then before else before + [last]
  }

  lemma {:induction false} TestsOfMeaning(tests: seq<Test>, exe: string, name: string)
    ensures name in TestsOf(tests, exe) <==> exe != "" && !Contains(name, "${") && Test(name, exe) in tests
  {
    hide Contains;
    if tests != [] {
      TestsOfMeaning(tests[..|tests| - 1], exe, name);
      assert tests == tests[..|tests| - 1] + [tests[|tests| - 1]];
    }
  }

  lemma {:induction false} AllTestsMeaning(model: Model, exes: seq<string>, name: string)
    ensures name in AllTests(model.tests, exes) <==> exists exe <- exes :: TestOf(model, exe, name)
  {
    hide Contains;
    if exes != [] {
      var shorter, last := exes[..|exes| - 1], exes[|exes| - 1];
      AllTestsMeaning(model, shorter, name);
      TestsOfMeaning(model.tests, last, name);
      assert exes == shorter + [last];
      assert forall exe :: exe in exes <==> exe in shorter || exe == last;
      assert name in TestsOf(model.tests, last) <==> TestOf(model, last, name);
    }
  }

  /** What comes first stays first. */
  lemma {:induction false} FirstTimesAppend(before: seq<string>, after: seq<string>)
    ensures FirstTimes(before) <= FirstTimes(before + after)
  {
    if after == [] {
      assert before + after == before;
    } else {
      var shorter := after[..|after| - 1];
      FirstTimesAppend(before, shorter);
      assert (before + after)[..|before + after| - 1] == before + shorter;
    }
  }

  lemma OneMoreTest(tests: seq<Test>, t: nat, exe: string, before: seq<string>)
    requires t < |tests|
    ensures
      var met := before + TestsOf(tests[..t], exe);
      before + TestsOf(tests[..t + 1], exe) ==
        if tests[t].executable == exe && exe != "" && !Contains(tests[t].name, "${") then met + [tests[t].name] else met
  {
    hide Contains;
    assert tests[..t + 1][..t] == tests[..t];
  }

  lemma FirstTimesNext(met: seq<string>, name: string)
    ensures FirstTimes(met + [name]) == if name in FirstTimes(met) then FirstTimes(met) else FirstTimes(met) + [name]
  {
    assert (met + [name])[..|met|] == met;
  }

  /** Adds the tests of one executable to those listed already. */
  method AddNames(tests: seq<Test>, exe: string, listed: seq<string>, ghost before: seq<string>)
    returns (ordered: seq<string>)
    requires listed == FirstTimes(before)
    ensures ordered == FirstTimes(before + TestsOf(tests, exe))
  {
    hide Contains, TestsOf, FirstTimes;
    ordered := listed;
    NoTests(exe, before);
    assert tests[..0] == [];
    for t := 0 to |tests|
      invariant ordered == FirstTimes(before + TestsOf(tests[..t], exe))
    {
      OneMoreTest(tests, t, exe, before);
      FirstTimesNext(before + TestsOf(tests[..t], exe), tests[t].name);
      if tests[t].executable == exe && exe != "" {
        if tests[t].name !in ordered && !Contains(tests[t].name, "${") {
          ordered := ordered + [tests[t].name];
        }
      }
    }
    assert tests[..|tests|] == tests;
  }

  lemma NoTests(exe: string, before: seq<string>)
    ensures before + TestsOf([], exe) == before
  {}

  /** The tests of `exes` in the order met, each once. */
  method NamesFor(model: Model, exes: seq<string>) returns (ordered: seq<string>)
    ensures ordered == FirstTimes(AllTests(model.tests, exes))
    ensures forall name :: name in ordered <==> exists exe <- exes :: TestOf(model, exe, name)
    ensures forall i, j | 0 <= i < j < |ordered| :: ordered[i] != ordered[j]
  {
    hide TestsOf, TestOf;
    ordered := [];
    for e := 0 to |exes|
      invariant ordered == FirstTimes(AllTests(model.tests, exes[..e]))
    {
      ordered := AddNames(model.tests, exes[e], ordered, AllTests(model.tests, exes[..e]));
      assert exes[..e + 1][..e] == exes[..e];
    }
    assert exes[..|exes|] == exes;
    forall name ensures name in ordered <==> exists exe <- exes :: TestOf(model, exe, name) {
      AllTestsMeaning(model, exes, name);
    }
  }

  ghost predicate TestSelected(model: Model, files: Files, paths: seq<string>, name: string) {
    exists exe :: Selected(model, files, paths, exe) && TestOf(model, exe, name)
  }

  /** Selection is reachability: the tests listed are exactly those of the
      executables that consume what changed. */
  method SelectTests(model: Model, files: Files, paths: seq<string>) returns (exes: set<string>, tests: seq<string>)
    ensures forall exe :: exe in exes <==> Selected(model, files, paths, exe)
    ensures forall name :: name in tests <==> TestSelected(model, files, paths, name)
    ensures forall i, j | 0 <= i < j < |tests| :: tests[i] != tests[j]
  {
    hide Selected, TestOf;
    exes := SelectExecutables(model, files, paths);
    var list := Listed(exes);
    tests := NamesFor(model, list);
  }

  // ---- Properties of the selection -----------------------------------------------------

  /** Changing more files never drops a test. */
  lemma SelectionIsMonotone(model: Model, files: Files, fewer: seq<string>, more: seq<string>, name: string)
    requires forall raw <- fewer :: raw in more
    requires TestSelected(model, files, fewer, name)
    ensures TestSelected(model, files, more, name)
  {
    hide Touches, Consumes, TestOf;
    forall mark | Marked(model, files, fewer, mark) ensures Marked(model, files, more, mark) {}
    var exe :| Selected(model, files, fewer, exe) && TestOf(model, exe, name);
    assert SourceChanged(model, files, fewer, exe) ==> SourceChanged(model, files, more, exe);
    assert Selected(model, files, more, exe);
  }

  /** Every library that links `lib` does so privately. */
  ghost predicate OnlyPrivately(model: Model, lib: string) {
    forall name | name in model.libraries && lib in model.libraries[name].links ::
      lib in model.libraries[name].vis && model.libraries[name].vis[lib] == Private
  }

  lemma NobodyPublishes(model: Model, lib: string)
    requires OnlyPrivately(model, lib)
    ensures forall parent :: lib !in Succ(PublicEdges(model), parent)
  {}

  /** There is no hop through a private parent: a library linked only privately
      is consumed only by the executables that link it themselves. */
  lemma PrivateLinksStop(model: Model, exe: string, lib: string)
    requires OnlyPrivately(model, lib)
    ensures Consumes(model, exe, lib) <==> exe in model.executables && lib in model.executables[exe].links
  {
    var edges := PublicEdges(model);
    NobodyPublishes(model, lib);
    if Consumes(model, exe, lib) {
      var first :| first in LinkSet(model, exe) && Reaches(edges, first, lib);
      if first != lib {
        var parent := ReachesLastStep(edges, first, lib);
      }
    }
    if exe in model.executables && lib in model.executables[exe].links {
      ReachesSelf(edges, lib);
      assert lib in LinkSet(model, exe);
    }
  }

  /** Consumers pass published links on: what a consumed library publishes is
      consumed as well. */
  lemma PublishedLinksAreConsumed(model: Model, exe: string, lib: string, dep: string)
    requires Consumes(model, exe, lib) && lib in model.libraries
    requires dep in model.libraries[lib].links
    requires dep in model.libraries[lib].vis ==> model.libraries[lib].vis[dep] != Private
    ensures Consumes(model, exe, dep)
  {
    var edges := PublicEdges(model);
    var first :| first in LinkSet(model, exe) && Reaches(edges, first, lib);
    SuccOfReached(edges, first, lib, dep);
  }
}
