/** Building the dependency graph from the source files: where determinism comes from. */
module GraphBuild {
  import opened Sequences
  import opened Bytes
  import opened DepGraph
  import opened ModulePaths
  import opened Sorting
  import opened Strings
  import Comments
  import Utf8
  import DottedCalls
  import ModuleTables

  datatype SourceFile = SourceFile(rel: ByteString, bytes: ByteString)

  /** The mount-statement scan (`extract_mounts`) enters as a function of a source and of
      the module it belongs to. */
  type MountScan = (ByteString, ByteString) -> Edges

  function SourceText(f: SourceFile): ByteString { if ValidUtf8(f.bytes) then f.bytes else [] }

  function ModuleOf(f: SourceFile, mounts: MountScan): Module {
    var name, src := FileToModule(f.rel), SourceText(f);
    var e := mounts(src, name);
    Module(name, e.(call := e.call + DottedCalls.CallsFrom(Comments.Strip(src), 0, name),
                    path := e.path + DottedCalls.ModulesFrom(Comments.Strip(src), 0, name)))
  }

  function ModulesOf(files: seq<SourceFile>, mounts: MountScan): seq<Module> {
    Map(f => ModuleOf(f, mounts), files)
  }

  predicate ByName(a: Module, b: Module) { LexLe(a.name, b.name) }

  function SortedModules(files: seq<SourceFile>, mounts: MountScan): seq<Module> {
    Sort(ModulesOf(files, mounts), ByName)
  }

  function GraphResult(ms: seq<Module>): Option<ByteString> {
    if GraphFits(ms) then Some(GraphBytes(ms)) else None
  }

  method ScanFile(f: SourceFile, mounts: MountScan) returns (m: Module)
    ensures m == ModuleOf(f, mounts)
  {
    var name := FileToModule(f.rel);
    var src := SourceText(f);
    var edges := DottedCalls.ExtractDottedCallEdges(src, name, mounts(src, name));
    m := Module(name, edges);
  }

  lemma {:induction false} ModuleAt(files: seq<SourceFile>, mounts: MountScan, i: nat)
    requires i < |files|
    ensures |ModulesOf(files, mounts)| == |files| && ModulesOf(files, mounts)[i] == ModuleOf(files[i], mounts)
  {
  }

  method ScanFiles(files: seq<SourceFile>, mounts: MountScan) returns (entries: seq<Module>)
    ensures entries == ModulesOf(files, mounts)
  {
    entries := [];
    ghost var all := ModulesOf(files, mounts);
    for i := 0 to |files|
      invariant |all| == |files| && entries == all[..i]
    {
      var m := ScanNth(files, mounts, i);
      TakeOneMore(all, i);
      entries := entries + [m];
    }
  }

  method ScanNth(files: seq<SourceFile>, mounts: MountScan, i: nat) returns (m: Module)
    requires i < |files|
    ensures |ModulesOf(files, mounts)| == |files| && m == ModulesOf(files, mounts)[i]
  {
    m := ScanFile(files[i], mounts);
    ModuleAt(files, mounts, i);
  }

  /** `build_dep_graph`. */
  method BuildDepGraph(files: seq<SourceFile>, mounts: MountScan) returns (r: Option<ByteString>)
    ensures r == GraphResult(SortedModules(files, mounts))
  {
    var entries := ScanFiles(files, mounts);
    r := WriteGraph(Sort(entries, ByName));
  }

  lemma {:induction false} NameOrder()
    ensures Preorder(ByName)
    ensures forall a, b :: ByName(a, b) && ByName(b, a) ==> a.name == b.name
  {
    LexOrder();
  }

  /** The graph bytes do not depend on the order in which the files were listed, as long as
      files that name the same module give it the same edges. */
  lemma {:induction false} GraphForgetsFileOrder(a: seq<SourceFile>, b: seq<SourceFile>, mounts: MountScan)
    requires multiset(a) == multiset(b)
    requires TiesAreEqual(ModulesOf(a, mounts), ByName)
    ensures GraphResult(SortedModules(a, mounts)) == GraphResult(SortedModules(b, mounts))
  {
    NameOrder();
    MapForgetsOrder(f => ModuleOf(f, mounts), a, b);
    SortForgetsOrder(ModulesOf(a, mounts), ModulesOf(b, mounts), ByName);
  }

  lemma {:induction false} DistinctTieFree(ms: seq<Module>)
    requires Distinct(ms)
    ensures TiesAreEqual(ms, ByName)
  {
    forall x, y | x in ms && y in ms && ByName(x, y) && ByName(y, x) ensures x == y {
      LexTotal(x.name, y.name);
      var i :| 0 <= i < |ms| && ms[i] == x;
      var j :| 0 <= j < |ms| && ms[j] == y;
    }
  }

  lemma {:induction false} SortedKeepsModules(ms: seq<Module>)
    ensures multiset(Sort(ms, ByName)) == multiset(ms)
  {
    NameOrder();
    SortSorts(ms, ByName);
  }

  /** In particular when no two files name the same module. */
  lemma {:induction false} DistinctModulesDoNotTie(files: seq<SourceFile>, mounts: MountScan)
    requires Distinct(ModulesOf(files, mounts))
    ensures TiesAreEqual(ModulesOf(files, mounts), ByName)
    ensures Distinct(SortedModules(files, mounts))
  {
    DistinctTieFree(ModulesOf(files, mounts));
    SortedKeepsModules(ModulesOf(files, mounts));
    DistinctIsCounted(ModulesOf(files, mounts), SortedModules(files, mounts));
  }

  lemma {:induction false} DistinctOnce(ms: seq<Module>, m: Module)
    requires Distinct(ms)
    ensures multiset(ms)[m] <= 1
  {
    if ms != [] {
      DistinctOnce(ms[1..], m);
      assert ms == [ms[0]] + ms[1..];
      if m == ms[0] {
        assert m !in ms[1..];
      }
    }
  }

  lemma {:induction false} TwiceIn<T>(b: seq<T>, i: nat, j: nat)
    requires i < j < |b| && b[i] == b[j]
    ensures multiset(b)[b[i]] >= 2
  {
    assert b == b[..j] + b[j..];
    assert b[..j][i] == b[i] && b[j..][0] == b[i];
  }

  lemma {:induction false} SameNameSame(a: seq<Module>, x: Module, y: Module)
    requires Distinct(a) && x in a && y in a && x.name == y.name
    ensures x == y
  {
    var p :| 0 <= p < |a| && a[p] == x;
    var q :| 0 <= q < |a| && a[q] == y;
  }

  lemma {:induction false} DistinctIsCounted(a: seq<Module>, b: seq<Module>)
    requires Distinct(a) && multiset(a) == multiset(b)
    ensures Distinct(b)
  {
    SameMembers(a, b);
    forall i, j | 0 <= i < j < |b| ensures b[i].name != b[j].name {
      if b[i].name == b[j].name {
        SameNameSame(a, b[i], b[j]);
        TwiceIn(b, i, j);
        DistinctOnce(a, b[i]);
      }
    }
  }

  // ---------------------------------------------------------------- the exact condition

  ghost predicate RecoverableModule(m: Module) {
    ValidModule(m) && EdgeCount(m.edges) < U16_LIMIT && ModuleTables.WritableEntry(ToEntry(m), ModuleTables.Wrapping32)
  }

  /** Modules that the writer accepts and the reader gives back. */
  ghost predicate Recoverable(ms: seq<Module>) { |ms| < U32_LIMIT && forall m :: m in ms ==> RecoverableModule(m) }

  lemma {:induction false} RecoverableFits(ms: seq<Module>)
    requires Recoverable(ms)
    ensures GraphFits(ms) && forall i :: 0 <= i < |ms| ==> ValidModule(ms[i]) && EdgeCount(ms[i].edges) < U16_LIMIT
  {
    forall i | 0 <= i < |ms| ensures RecoverableModule(ms[i]) {
      assert ms[i] in ms;
    }
  }

  lemma {:induction false} RecoverableIsCounted(a: seq<Module>, b: seq<Module>)
    requires Recoverable(a) && multiset(a) == multiset(b)
    ensures Recoverable(b)
  {
    SameMembers(a, b);
    assert |a| == |multiset(a)| == |multiset(b)| == |b|;
  }

  /** Two listings of the same files give the same bytes only if they give the same sorted
      modules. */
  lemma {:induction false} SameBytesSameModules(a: seq<SourceFile>, b: seq<SourceFile>, mounts: MountScan)
    requires Recoverable(ModulesOf(a, mounts)) && SameElements(a, b)
    ensures GraphResult(SortedModules(a, mounts)) == GraphResult(SortedModules(b, mounts))
       <==> SortedModules(a, mounts) == SortedModules(b, mounts)
  {
    MapForgetsOrder(f => ModuleOf(f, mounts), a, b);
    SortedKeepsModules(ModulesOf(a, mounts));
    SortedKeepsModules(ModulesOf(b, mounts));
    RecoverableIsCounted(ModulesOf(a, mounts), SortedModules(a, mounts));
    RecoverableIsCounted(ModulesOf(a, mounts), SortedModules(b, mounts));
    RecoverableFits(SortedModules(a, mounts));
    RecoverableFits(SortedModules(b, mounts));
    if GraphResult(SortedModules(a, mounts)) == GraphResult(SortedModules(b, mounts)) {
      GraphPrefixFree(SortedModules(a, mounts), SortedModules(b, mounts), [], []);
    }
  }

  ghost predicate GraphOrderFree(files: seq<SourceFile>, mounts: MountScan) {
    forall b :: SameElements(files, b) ==>
      GraphResult(SortedModules(b, mounts)) == GraphResult(SortedModules(files, mounts))
  }

  /** Exactly when the graph is deterministic: every order of the files gives the same bytes if
      and only if files that name the same module give it the same edges. */
  lemma {:induction false} GraphOrderIff(files: seq<SourceFile>, mounts: MountScan)
    requires Recoverable(ModulesOf(files, mounts))
    ensures GraphOrderFree(files, mounts) <==> TiesAreEqual(ModulesOf(files, mounts), ByName)
  {
    NameOrder();
    var f := (x: SourceFile) => ModuleOf(x, mounts);
    OrderFreeIff(f, files, ByName);
    forall b | SameElements(files, b)
      ensures GraphResult(SortedModules(b, mounts)) == GraphResult(SortedModules(files, mounts))
         <==> Sort(Map(f, b), ByName) == Sort(Map(f, files), ByName)
    {
      SameBytesSameModules(files, b, mounts);
      SameMap(f, b, mounts);
      SameMap(f, files, mounts);
    }
    SameMap(f, files, mounts);
  }

  lemma {:induction false} SameMap(f: SourceFile -> Module, files: seq<SourceFile>, mounts: MountScan)
    requires forall x :: f(x) == ModuleOf(x, mounts)
    ensures Map(f, files) == ModulesOf(files, mounts)
  {
  }

  lemma {:induction false} StripAdded(s: ByteString, suffix: ByteString)
    ensures StripSuffix(s + suffix, suffix) == s
  {
    assert (s + suffix)[|s|..] == suffix && (s + suffix)[..|s|] == s;
  }

  lemma {:induction false} NoBackslash(s: ByteString)
    requires '\\' !in s
    ensures ForwardSlashes(s) == s
  {
    if s != [] {
      assert s[0] in s;
      NoBackslash(s[1..]);
      assert s == [s[0]] + s[1..];
    }
  }

  /** The name of a directory or of a source file without its ending. */
  predicate PathPart(d: ByteString) {
    d != [] && '/' !in d && '\\' !in d && StripSuffix(d, ".vr") == d
  }

  /** The module of a source file: its directories and its name after the crate, with dots; and a
      file that is called `mod` is the module of its directory.  Either slash will do. */
  lemma {:induction false} ModuleOfPath(dirs: seq<ByteString>, name: ByteString, slash: Byte)
    requires (forall d :: d in dirs ==> PathPart(d)) && PathPart(name) && slash in {'/', '\\'}
    requires name == "mod" || !EndsInMod(name)
    ensures FileToModule(Join<Byte>(dirs + [name + ".vr"], slash)) ==
            "core" + DotEach(if name == "mod" then dirs else dirs + [name])
  {
    var parts := dirs + [name + ".vr"];
    SlashesForward(parts, slash);
    SplitJoin<Byte>(parts, '/');
    ComponentsOf(dirs, name);
    DotsConcat(dirs, [name]);
    ModSuffix(dirs, name);
  }

  predicate EndsInMod(name: ByteString) { name == "mod" || StripSuffix(name, ".mod") != name }

  lemma {:induction false} ForwardConcat(a: ByteString, b: ByteString)
    ensures ForwardSlashes(a + b) == ForwardSlashes(a) + ForwardSlashes(b)
  {
    if a == [] {
      assert a + b == b;
    } else {
      ForwardConcat(a[1..], b);
      assert (a + b)[1..] == a[1..] + b;
    }
  }

  lemma {:induction false} SlashForward(slash: Byte)
    requires slash in {'/', '\\'}
    ensures ForwardSlashes([slash]) == ['/']
  {
    assert [slash][1..] == [];
  }

  lemma {:induction false} SlashesForward(parts: seq<ByteString>, slash: Byte)
    requires parts != [] && slash in {'/', '\\'} && forall p :: p in parts ==> '\\' !in p
    ensures ForwardSlashes(Join<Byte>(parts, slash)) == Join<Byte>(parts, '/')
    decreases |parts|
  {
    assert parts[0] in parts;
    NoBackslash(parts[0]);
    if |parts| > 1 {
      SlashesForward(parts[1..], slash);
      SlashForward(slash);
      hide ForwardSlashes;
      ForwardConcat(parts[0], [slash]);
      ForwardConcat(parts[0] + [slash], Join<Byte>(parts[1..], slash));
    }
  }

  lemma {:induction false} ComponentsOf(dirs: seq<ByteString>, name: ByteString)
    requires (forall d :: d in dirs ==> PathPart(d)) && PathPart(name)
    ensures Components(dirs + [name + ".vr"]) == dirs + [name]
  {
    StripAdded(name, ".vr");
    if dirs == [] {
      ComponentsOne(name + ".vr", name);
      assert [] + [name + ".vr"] == [name + ".vr"];
    } else {
      assert dirs[0] in dirs;
      ComponentsOf(dirs[1..], name);
      assert (dirs + [name + ".vr"])[1..] == dirs[1..] + [name + ".vr"];
      HeadTailConcat(dirs, [name]);
    }
  }

  lemma {:induction false} DotsConcat(a: seq<ByteString>, b: seq<ByteString>)
    ensures DotEach(a + b) == DotEach(a) + DotEach(b)
  {
    if a == [] {
      assert a + b == b;
    } else {
      DotsConcat(a[1..], b);
      assert (a + b)[1..] == a[1..] + b;
    }
  }

  lemma {:induction false} ModSuffix(dirs: seq<ByteString>, name: ByteString)
    requires name == "mod" || !EndsInMod(name)
    ensures StripSuffix("core" + (DotEach(dirs) + DotEach([name])), ".mod") ==
            "core" + (if name == "mod" then DotEach(dirs) else DotEach(dirs) + DotEach([name]))
  {
    var head := "core" + DotEach(dirs);
    assert DotEach([name]) == ['.'] + name;
    assert "core" + (DotEach(dirs) + DotEach([name])) == head + (['.'] + name);
    if name == "mod" {
      StripAdded(head, ".mod");
      assert ['.'] + name == ".mod";
    } else {
      NotStripped(head, name);
    }
  }

  lemma {:induction false} NotStripped(head: ByteString, name: ByteString)
    requires !EndsInMod(name)
    ensures StripSuffix(head + (['.'] + name), ".mod") == head + (['.'] + name)
  {
    var s := head + (['.'] + name);
    if |name| >= 4 {
      assert s[|s| - 4..] == name[|name| - 4..];
    } else if |name| == 3 {
      assert s[|s| - 4..] == ['.'] + name;
      assert (['.'] + name)[1..] == name && ".mod"[1..] == "mod";
    } else if |s| >= 4 {
      assert s[|s| - 4..][3 - |name|] == '.' && (".mod")[3 - |name|] != '.';
    }
  }

  function CoreModule(d: ByteString): ByteString { "core" + (['.'] + d) }

  lemma {:induction false} FileNames(d: ByteString)
    requires d != [] && '/' !in d && '\\' !in d
    requires StripSuffix(CoreModule(d), ".mod") == CoreModule(d)
    ensures FileToModule(d + ".vr") == CoreModule(d)
  {
    NoBackslash(d + ".vr");
    SplitPlain<Byte>(d + ".vr", '/');
    StripAdded(d, ".vr");
    ComponentsOne(d + ".vr", d);
    assert DotEach([d]) == ['.'] + d + DotEach([d][1..]);
  }

  lemma {:induction false} ComponentsOne(part: ByteString, name: ByteString)
    requires part != [] && StripSuffix(part, ".vr") == name
    ensures Components([part]) == [name]
  {
    assert Components([part][1..]) == [];
  }

  lemma {:induction false} DirectoryParts(d: ByteString, mod: ByteString)
    requires d != [] && '/' !in d && '\\' !in d && StripSuffix(d, ".vr") == d && mod == "mod"
    ensures Split<Byte>(ForwardSlashes(d + ['/'] + (mod + ".vr")), '/') == [d] + [mod + ".vr"]
    ensures Components([d] + [mod + ".vr"]) == [d] + [mod]
  {
    NoBackslash(d + ['/'] + (mod + ".vr"));
    SplitPlain<Byte>(mod + ".vr", '/');
    SplitHead<Byte>(d, '/', mod + ".vr");
    StripAdded(mod, ".vr");
    ComponentsOne(mod + ".vr", mod);
    assert ([d] + [mod + ".vr"])[1..] == [mod + ".vr"];
  }

  lemma {:induction false} DirectoryNames(d: ByteString, mod: ByteString)
    requires d != [] && '/' !in d && '\\' !in d && StripSuffix(d, ".vr") == d && mod == "mod"
    ensures FileToModule(d + ['/'] + (mod + ".vr")) == CoreModule(d)
  {
    DirectoryParts(d, mod);
    assert ([d] + [mod])[1..] == [mod] && [mod][1..] == [];
    assert DotEach([mod]) == ['.'] + mod + DotEach([]);
    assert DotEach([d] + [mod]) == ['.'] + d + DotEach([mod]);
    assert "core" + DotEach([d] + [mod]) == CoreModule(d) + ".mod";
    StripAdded(CoreModule(d), ".mod");
  }

  /** The tie is real: `d.vr` and `d/mod.vr` name the same module. */
  lemma {:induction false} FileAndDirectoryTie(d: ByteString)
    requires d != [] && '/' !in d && '\\' !in d
    requires StripSuffix(d, ".vr") == d && StripSuffix(CoreModule(d), ".mod") == CoreModule(d)
    ensures FileToModule(d + ".vr") == FileToModule(d + ['/'] + "mod.vr")
  {
    FileNames(d);
    DirectoryNames(d, "mod");
    assert "mod" + ".vr" == "mod.vr";
  }

  /** The modules are written in the order of their names, each file's module once. */
  lemma {:induction false} ModulesInOrder(files: seq<SourceFile>, mounts: MountScan)
    ensures var ms := SortedModules(files, mounts);
      && SameElements(ms, ModulesOf(files, mounts))
      && forall i, j :: 0 <= i < j < |ms| ==> LexLe(ms[i].name, ms[j].name)
  {
    NameOrder();
    SortSorts(ModulesOf(files, mounts), ByName);
    var ms := SortedModules(files, mounts);
    forall i, j | 0 <= i < j < |ms| ensures LexLe(ms[i].name, ms[j].name) {
      assert ByName(ms[i], ms[j]);
    }
  }

  /** A file that is not text is a module without source. */
  lemma {:induction false} UnreadableIsEmpty(f: SourceFile, mounts: MountScan)
    requires !(exists ns :: Utf8.AllScalar(ns) && Utf8.EncodedAll(ns) == f.bytes)
    ensures ModuleOf(f, mounts) == ModuleOf(f.(bytes := []), mounts)
  {
    Utf8.ValidIff(f.bytes);
  }

  /** And one that is text is read: the mounts of its source, and the calls of its source without
      comments. */
  lemma {:induction false} TextIsRead(f: SourceFile, mounts: MountScan, ns: seq<nat>)
    requires Utf8.AllScalar(ns) && Utf8.EncodedAll(ns) == f.bytes
    ensures var name, m := FileToModule(f.rel), ModuleOf(f, mounts);
      && m.name == name
      && m.edges.glob == mounts(f.bytes, name).glob && m.edges.nested == mounts(f.bytes, name).nested
      && m.edges.call == mounts(f.bytes, name).call + DottedCalls.CallsFrom(Comments.Strip(f.bytes), 0, name)
      && m.edges.path == mounts(f.bytes, name).path + DottedCalls.ModulesFrom(Comments.Strip(f.bytes), 0, name)
  {
    Utf8.ValidIff(f.bytes);
  }
}
