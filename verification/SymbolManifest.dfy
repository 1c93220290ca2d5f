/** The symbol manifest: the top-level declarations of every module, as the build script
    writes them and as the compiler reads them. */
module SymbolManifest {
  import opened Sequences
  import opened Bytes
  import opened ModuleTables
  import opened Sorting
  import GraphBuild
  import ModulePaths

  datatype Kind = Type | Fn | Const | Theorem | Axiom | Lemma | Protocol
  datatype Symbol = Symbol(kind: Kind, public: bool, name: ByteString)
  datatype Module = Module(name: ByteString, symbols: seq<Symbol>)

  const TAG_WIDTH: nat := 2

  function KindByte(k: Kind): Byte {
    match k
    case Type => 0 as char
    case Fn => 1 as char
    case Const => 2 as char
    case Theorem => 3 as char
    case Axiom => 4 as char
    case Lemma => 5 as char
    case Protocol => 6 as char
  }

  function VisibilityByte(public: bool): Byte { if public then 1 as char else 0 as char }

  function ToItem(s: Symbol): Item { Item([KindByte(s.kind), VisibilityByte(s.public)], s.name) }

  function ToItems(symbols: seq<Symbol>): seq<Item> { Map(ToItem, symbols) }

  function ToEntry(m: Module): Entry { Entry(m.name, ToItems(m.symbols)) }

  function ToEntries(ms: seq<Module>): seq<Entry> { Map(ToEntry, ms) }

  predicate ManifestFits(ms: seq<Module>) { |ms| < U32_LIMIT && Writable(ToEntries(ms), Checked) }

  function ManifestBytes(ms: seq<Module>): ByteString
    requires ManifestFits(ms)
  {
    TableBytes(ToEntries(ms), Checked)
  }

  function ManifestResult(ms: seq<Module>): Option<ByteString> {
    if ManifestFits(ms) then Some(ManifestBytes(ms)) else None
  }

  // ---------------------------------------------------------------- the writer

  lemma {:induction false} MapSnoc<A, B>(f: A -> B, xs: seq<A>, x: A)
    ensures Map(f, xs + [x]) == Map(f, xs) + [f(x)]
  {
  }

  lemma {:induction false} OneMoreSymbol(out: ByteString, symbols: seq<Symbol>, i: nat)
    requires i < |symbols| && AllWritable(ToItems(symbols[..i])) && WritableStr(symbols[i].name)
    ensures AllWritable(ToItems(symbols[..i + 1]))
    ensures out + ItemsBytes(ToItems(symbols[..i + 1]))
         == out + ItemsBytes(ToItems(symbols[..i])) + [KindByte(symbols[i].kind)]
            + [VisibilityByte(symbols[i].public)] + StrBytes(symbols[i].name)
  {
    var s, before := symbols[i], ToItems(symbols[..i]);
    MapSnoc(ToItem, symbols[..i], s);
    TakeOneMore(symbols, i);
    ItemsBytesSnoc(before, ToItem(s));
    assert out + (ItemsBytes(before) + ToItem(s).tag + StrBytes(s.name))
        == out + ItemsBytes(before) + [KindByte(s.kind)] + [VisibilityByte(s.public)] + StrBytes(s.name);
  }

  method WriteSymbols(out: ByteString, symbols: seq<Symbol>) returns (r: Option<ByteString>)
    ensures r == if AllWritable(ToItems(symbols)) then Some(out + ItemsBytes(ToItems(symbols))) else None
  {
    var acc := out;
    for i := 0 to |symbols|
      invariant AllWritable(ToItems(symbols[..i]))
      invariant acc == out + ItemsBytes(ToItems(symbols[..i]))
    {
      var s := symbols[i];
      var w := WriteStr(acc + [KindByte(s.kind)] + [VisibilityByte(s.public)], s.name);
      if w.None? {
        assert ToItems(symbols)[i].name == s.name;
        return None;
      }
      OneMoreSymbol(out, symbols, i);
      acc := w.value;
    }
    assert symbols[..|symbols|] == symbols;
    return Some(acc);
  }

  method WriteModule(out: ByteString, m: Module) returns (r: Option<ByteString>)
    ensures r == if WritableEntry(ToEntry(m), Checked) then Some(out + EntryBytes(ToEntry(m), Checked)) else None
  {
    var w := WriteStr(out, m.name);
    if w.None? || |m.symbols| >= U16_LIMIT { return None; }
    w := WriteSymbols(w.value + U16(|m.symbols|), m.symbols);
    if w.Some? {
      assert w.value == out + (StrBytes(m.name) + (U16(|m.symbols|) + ItemsBytes(ToItems(m.symbols))));
    }
    return w;
  }

  lemma {:induction false} OneMoreModule(ms: seq<Module>, i: nat)
    requires i < |ms| && Writable(ToEntries(ms[..i]), Checked) && WritableEntry(ToEntry(ms[i]), Checked)
    ensures Writable(ToEntries(ms[..i + 1]), Checked)
    ensures EntriesBytes(ToEntries(ms[..i + 1]), Checked) ==
      EntriesBytes(ToEntries(ms[..i]), Checked) + EntryBytes(ToEntry(ms[i]), Checked)
  {
    MapSnoc(ToEntry, ms[..i], ms[i]);
    TakeOneMore(ms, i);
    EntriesBytesAppend(ToEntries(ms[..i]), ToEntry(ms[i]), Checked);
  }

  lemma {:induction false} BadModule(ms: seq<Module>, i: nat)
    requires i < |ms| && !WritableEntry(ToEntry(ms[i]), Checked)
    ensures ManifestResult(ms) == None
  {
    assert ToEntries(ms)[i] == ToEntry(ms[i]);
  }

  ghost predicate Written(ms: seq<Module>, i: nat, out: ByteString) {
    && i <= |ms| < U32_LIMIT && Writable(ToEntries(ms[..i]), Checked)
    && out == U32(|ms|) + EntriesBytes(ToEntries(ms[..i]), Checked)
  }

  lemma {:induction false} WrittenNext(ms: seq<Module>, i: nat, out: ByteString)
    requires i < |ms| && Written(ms, i, out) && WritableEntry(ToEntry(ms[i]), Checked)
    ensures Written(ms, i + 1, out + EntryBytes(ToEntry(ms[i]), Checked))
  {
    hide EntriesBytes, EntryBytes, ToEntry;
    OneMoreModule(ms, i);
  }

  lemma {:induction false} WrittenAll(ms: seq<Module>, out: ByteString)
    requires Written(ms, |ms|, out)
    ensures ManifestResult(ms) == Some(out)
  {
    assert ms[..|ms|] == ms;
  }

  /** The writing loop of `build_symbol_manifest`, on modules that are already sorted. */
  method WriteManifest(ms: seq<Module>) returns (r: Option<ByteString>)
    ensures r == ManifestResult(ms)
  {
    if |ms| >= U32_LIMIT { return None; }
    var out: ByteString := U32(|ms|);
    for i := 0 to |ms|
      invariant Written(ms, i, out)
    {
      var w := WriteModule(out, ms[i]);
      if w.None? {
        BadModule(ms, i);
        return None;
      }
      WrittenNext(ms, i, out);
      out := w.value;
    }
    WrittenAll(ms, out);
    return Some(out);
  }

  // ---------------------------------------------------------------- the reader

  /** `SymbolKind::from_u8`. */
  function KindOf(b: Byte): Option<Kind> {
    match b as int
    case 0 => Some(Type)
    case 1 => Some(Fn)
    case 2 => Some(Const)
    case 3 => Some(Theorem)
    case 4 => Some(Axiom)
    case 5 => Some(Lemma)
    case 6 => Some(Protocol)
    case _ => None
  }

  /** `Visibility::from_u8`: anything but 1 is private. */
  function PublicOf(b: Byte): bool { b as int == 1 }

  function SymbolOf(it: Item): Option<Symbol> {
    if |it.tag| != TAG_WIDTH then None
    else match KindOf(it.tag[0])
      case None => None
      case Some(k) => Some(Symbol(k, PublicOf(it.tag[1]), it.name))
  }

  function SymbolsOf(items: seq<Item>): Option<seq<Symbol>> {
    if items == [] then Some([])
    else match (SymbolOf(items[0]), SymbolsOf(items[1..]))
      case (Some(s), Some(rest)) => Some([s] + rest)
      case _ => None
  }

  type Manifest = map<ByteString, seq<Symbol>>

  function InsertModules(g: Manifest, entries: seq<Entry>): Option<Manifest>
    decreases |entries|
  {
    if entries == [] then Some(g)
    else match SymbolsOf(entries[0].items)
      case None => None
      case Some(syms) => InsertModules(g[entries[0].name := syms], entries[1..])
  }

  function ManifestOf(data: ByteString): Option<Manifest> {
    match ReadTable(data, TAG_WIDTH)
    case None => None
    case Some((entries, _)) => InsertModules(map[], entries)
  }

  ghost function RestOfSymbols(data: ByteString, n: nat, done: seq<Symbol>): Option<(seq<Symbol>, ByteString)> {
    match ReadItems(data, n, TAG_WIDTH)
    case None => None
    case Some((items, rest)) =>
      match SymbolsOf(items)
      case None => None
      case Some(syms) => Some((done + syms, rest))
  }

  lemma {:induction false} RestOfSymbolsStep(data: ByteString, n: nat, done: seq<Symbol>)
    requires n > 0
    ensures RestOfSymbols(data, n, done) ==
      match ReadItem(data, TAG_WIDTH)
      case None => None
      case Some((it, rest)) =>
        match SymbolOf(it)
        case None => None
        case Some(s) => RestOfSymbols(rest, n - 1, done + [s])
  {
    if ReadItem(data, TAG_WIDTH).Some? {
      var (it, rest) := ReadItem(data, TAG_WIDTH).value;
      if ReadItems(rest, n - 1, TAG_WIDTH).Some? {
        var its := ReadItems(rest, n - 1, TAG_WIDTH).value.0;
        assert ([it] + its)[1..] == its;
        if SymbolOf(it).Some? && SymbolsOf(its).Some? {
          PushThenRest(done, SymbolOf(it).value, SymbolsOf(its).value);
        }
      }
    }
  }

  method ReadSymbolsAt(data: ByteString, start: nat, count: nat) returns (r: Option<seq<Symbol>>, next: nat)
    requires start <= |data|
    ensures next <= |data|
    ensures match RestOfSymbols(data[start..], count, [])
      case None => r == None
      case Some((syms, rest)) => r == Some(syms) && data[next..] == rest
  {
    var symbols: seq<Symbol> := [];
    next := start;
    for i := 0 to count
      invariant next <= |data|
      invariant RestOfSymbols(data[start..], count, []) == RestOfSymbols(data[next..], count - i, symbols)
    {
      RestOfSymbolsStep(data[next..], count - i, symbols);
      if next + 2 > |data| { return None, next; }
      var kind := KindOf(data[next]);
      var public := PublicOf(data[next + 1]);
      assert data[next..][..TAG_WIDTH] == [data[next], data[next + 1]];
      assert data[next..][TAG_WIDTH..] == data[next + 2..];
      if kind.None? { return None, next; }
      var name;
      name, next := ReadStrAt(data, next + 2);
      if name.None? { return None, next; }
      symbols := symbols + [Symbol(kind.value, public, name.value)];
    }
    assert symbols + [] == symbols;
    return Some(symbols), next;
  }

  ghost function RestOfManifest(data: ByteString, n: nat, g: Manifest): Option<Manifest> {
    match ReadEntries(data, n, TAG_WIDTH)
    case None => None
    case Some((entries, _)) => InsertModules(g, entries)
  }

  lemma {:induction false} RestOfManifestStep(data: ByteString, n: nat, g: Manifest)
    requires n > 0
    ensures RestOfManifest(data, n, g) ==
      match ReadStr(data)
      case None => None
      case Some((name, rest)) =>
        if |rest| < 2 then None
        else match RestOfSymbols(rest[2..], ReadU16(rest), [])
          case None => None
          case Some((syms, end)) => RestOfManifest(end, n - 1, g[name := syms])
  {
    if ReadEntry(data, TAG_WIDTH).Some? {
      var (e, rest) := ReadEntry(data, TAG_WIDTH).value;
      if SymbolsOf(e.items).Some? {
        assert [] + SymbolsOf(e.items).value == SymbolsOf(e.items).value;
      }
      if ReadEntries(rest, n - 1, TAG_WIDTH).Some? {
        var es := ReadEntries(rest, n - 1, TAG_WIDTH).value.0;
        assert ([e] + es)[1..] == es;
      }
    }
  }

  /** `SymbolManifest::parse_archive`. */
  method ParseManifest(data: ByteString) returns (r: Option<Manifest>)
    ensures r == ManifestOf(data)
  {
    if |data| < 4 { return None; }
    var moduleCount := ReadU32(data[..4]);
    assert moduleCount == ReadU32(data) by {
      assert data[..4][2..] == data[2..4];
    }
    var cursor: nat := 4;
    var byModule: Manifest := map[];
    for i := 0 to moduleCount
      invariant cursor <= |data|
      invariant ManifestOf(data) == RestOfManifest(data[cursor..], moduleCount - i, byModule)
    {
      RestOfManifestStep(data[cursor..], moduleCount - i, byModule);
      var name, symCount;
      name, symCount, cursor := ReadHeadAt(data, cursor);
      if name.None? { return None; }
      var syms;
      syms, cursor := ReadSymbolsAt(data, cursor, symCount);
      if syms.None? { return None; }
      byModule := byModule[name.value := syms.value];
    }
    return Some(byModule);
  }

  // ---------------------------------------------------------------- the writer and the reader agree

  ghost predicate ValidModule(m: Module) {
    ValidUtf8(m.name) && forall i :: 0 <= i < |m.symbols| ==> ValidUtf8(m.symbols[i].name)
  }

  ghost predicate Distinct(ms: seq<Module>) {
    forall i, j :: 0 <= i < j < |ms| ==> ms[i].name != ms[j].name
  }

  lemma {:induction false} SymbolsComeBack(symbols: seq<Symbol>)
    ensures SymbolsOf(ToItems(symbols)) == Some(symbols)
  {
    if symbols != [] {
      SymbolsComeBack(symbols[1..]);
      assert ToItems(symbols)[1..] == ToItems(symbols[1..]);
      assert SymbolOf(ToItem(symbols[0])) == Some(symbols[0]);
      assert [symbols[0]] + symbols[1..] == symbols;
    }
  }

  function ManifestFrom(g: Manifest, ms: seq<Module>): Manifest
    decreases |ms|
  {
    if ms == [] then g else ManifestFrom(g[ms[0].name := ms[0].symbols], ms[1..])
  }

  lemma {:induction false} InsertAll(g: Manifest, ms: seq<Module>)
    ensures InsertModules(g, ToEntries(ms)) == Some(ManifestFrom(g, ms))
    decreases |ms|
  {
    if ms != [] {
      SymbolsComeBack(ms[0].symbols);
      InsertAll(g[ms[0].name := ms[0].symbols], ms[1..]);
      assert ToEntries(ms)[1..] == ToEntries(ms[1..]);
    }
  }

  lemma {:induction false} ManifestFromKeeps(g: Manifest, ms: seq<Module>, k: ByteString)
    requires forall i :: 0 <= i < |ms| ==> ms[i].name != k
    ensures k in ManifestFrom(g, ms) <==> k in g
    ensures k in g ==> ManifestFrom(g, ms)[k] == g[k]
    decreases |ms|
  {
    if ms != [] {
      ManifestFromKeeps(g[ms[0].name := ms[0].symbols], ms[1..], k);
    }
  }

  /** No later module has its name. */
  ghost predicate IsLast(ms: seq<Module>, i: nat) {
    i < |ms| && forall j :: i < j < |ms| ==> ms[j].name != ms[i].name
  }

  /** The reader keeps the last module of a name. */
  lemma {:induction false} ManifestFromAt(g: Manifest, ms: seq<Module>, i: nat)
    requires IsLast(ms, i)
    ensures ms[i].name in ManifestFrom(g, ms) && ManifestFrom(g, ms)[ms[i].name] == ms[i].symbols
    decreases |ms|
  {
    var g' := g[ms[0].name := ms[0].symbols];
    if i == 0 {
      ManifestFromKeeps(g', ms[1..], ms[0].name);
    } else {
      assert forall j :: i - 1 < j < |ms[1..]| ==> ms[1..][j] == ms[j + 1];
      ManifestFromAt(g', ms[1..], i - 1);
    }
  }

  lemma {:induction false} LastOf(ms: seq<Module>, i: nat) returns (k: nat)
    requires i < |ms|
    ensures i <= k && IsLast(ms, k) && ms[k].name == ms[i].name
    decreases |ms| - i
  {
    if j :| i < j < |ms| && ms[j].name == ms[i].name {
      k := LastOf(ms, j);
    } else {
      k := i;
    }
  }

  /** What the reader makes of a list of modules: of each name the last module. */
  ghost predicate HoldsLast(g: Manifest, ms: seq<Module>) {
    && (forall i: nat :: IsLast(ms, i) ==> ms[i].name in g && g[ms[i].name] == ms[i].symbols)
    && (forall k :: k in g ==> exists i: nat :: IsLast(ms, i) && ms[i].name == k)
  }

  lemma {:induction false} ManifestFromLast(ms: seq<Module>)
    ensures HoldsLast(ManifestFrom(map[], ms), ms)
  {
    var g := ManifestFrom(map[], ms);
    forall i: nat | IsLast(ms, i) ensures ms[i].name in g && g[ms[i].name] == ms[i].symbols {
      ManifestFromAt(map[], ms, i);
    }
    forall k | k in g ensures exists i: nat :: IsLast(ms, i) && ms[i].name == k {
      if forall i :: 0 <= i < |ms| ==> ms[i].name != k {
        ManifestFromKeeps(map[], ms, k);
      } else {
        var i :| 0 <= i < |ms| && ms[i].name == k;
        var last := LastOf(ms, i);
      }
    }
  }

  /** Every module of the list is found with its own symbols. */
  ghost predicate HoldsEvery(g: Manifest, ms: seq<Module>) {
    forall i :: 0 <= i < |ms| ==> ms[i].name in g && g[ms[i].name] == ms[i].symbols
  }

  /** Modules of one name have the same symbols. */
  ghost predicate NamesAgree(ms: seq<Module>) {
    forall i, j :: 0 <= i < j < |ms| && ms[i].name == ms[j].name ==> ms[i].symbols == ms[j].symbols
  }

  lemma {:induction false} EveryIff(g: Manifest, ms: seq<Module>)
    requires HoldsLast(g, ms)
    ensures HoldsEvery(g, ms) <==> NamesAgree(ms)
    ensures Distinct(ms) ==> HoldsEvery(g, ms)
  {
    if NamesAgree(ms) {
      forall i | 0 <= i < |ms| ensures ms[i].name in g && g[ms[i].name] == ms[i].symbols {
        var k := LastOf(ms, i);
      }
    }
  }

  lemma {:induction false} ManifestReadable(ms: seq<Module>)
    requires ManifestFits(ms) && forall i :: 0 <= i < |ms| ==> ValidModule(ms[i])
    ensures Readable(ToEntries(ms), TAG_WIDTH)
  {
    forall i | 0 <= i < |ms| ensures WellTyped(ToEntries(ms)[i], TAG_WIDTH) && |ToEntries(ms)[i].items| < U16_LIMIT {
      assert WritableEntry(ToEntries(ms)[i], Checked);
      assert ToEntries(ms)[i] == ToEntry(ms[i]);
    }
  }

  lemma {:induction false} ManifestReadsBack(ms: seq<Module>, rest: ByteString)
    requires ManifestFits(ms)
    requires forall i :: 0 <= i < |ms| ==> ValidModule(ms[i])
    ensures ManifestOf(ManifestBytes(ms) + rest) == Some(ManifestFrom(map[], ms))
  {
    ManifestReadable(ms);
    TableReadBack(ToEntries(ms), rest, TAG_WIDTH, Checked);
    hide ReadTable, TableBytes, InsertModules, ManifestFrom;
    InsertAll(map[], ms);
  }

  /** The reader recovers of each name the last module that was written, and nothing else,
      whatever bytes follow; it finds every module with its own symbols if and only if modules
      of one name have the same, as they do when names are distinct.  No condition on
      the counts: this writer refuses a module whose count does not fit. */
  lemma {:induction false} ManifestRoundTrip(ms: seq<Module>, rest: ByteString)
    requires ManifestFits(ms)
    requires forall i :: 0 <= i < |ms| ==> ValidModule(ms[i])
    ensures ManifestOf(ManifestBytes(ms) + rest).Some?
    ensures var g := ManifestOf(ManifestBytes(ms) + rest).value;
      && HoldsLast(g, ms) && (HoldsEvery(g, ms) <==> NamesAgree(ms)) && (Distinct(ms) ==> HoldsEvery(g, ms))
  {
    ManifestReadsBack(ms, rest);
    hide ManifestOf, ManifestFrom, HoldsLast, HoldsEvery, NamesAgree;
    ManifestFromLast(ms);
    EveryIff(ManifestFrom(map[], ms), ms);
  }

  lemma {:induction false} ManifestPrefixFree(a: seq<Module>, b: seq<Module>, x: ByteString, y: ByteString)
    requires ManifestFits(a) && ManifestFits(b) && ManifestBytes(a) + x == ManifestBytes(b) + y
    requires forall i :: 0 <= i < |a| ==> ValidModule(a[i])
    requires forall i :: 0 <= i < |b| ==> ValidModule(b[i])
    ensures a == b && x == y
  {
    ManifestReadable(a);
    ManifestReadable(b);
    TablePrefixFree(ToEntries(a), ToEntries(b), x, y, TAG_WIDTH, Checked);
    assert |a| == |ToEntries(a)| == |b|;
    forall i | 0 <= i < |a| ensures a[i] == b[i] {
      assert ToEntry(a[i]) == ToEntries(a)[i] == ToEntry(b[i]);
      SymbolsComeBack(a[i].symbols);
      SymbolsComeBack(b[i].symbols);
    }
  }

  // ---------------------------------------------------------------- from the files

  predicate ByName(a: Module, b: Module) { LexLe(a.name, b.name) }

  /** The declaration scan (`extract_symbols`) enters as a function of a source. */
  type SymbolScan = ByteString -> seq<Symbol>

  function ModuleOf(f: GraphBuild.SourceFile, scan: SymbolScan): Module {
    Module(ModulePaths.FileToModule(f.rel), scan(GraphBuild.SourceText(f)))
  }

  function ModulesOf(files: seq<GraphBuild.SourceFile>, scan: SymbolScan): seq<Module> {
    Map(f => ModuleOf(f, scan), files)
  }

  function SortedModules(files: seq<GraphBuild.SourceFile>, scan: SymbolScan): seq<Module> {
    Sort(ModulesOf(files, scan), ByName)
  }

  method ScanFile(f: GraphBuild.SourceFile, scan: SymbolScan) returns (m: Module)
    ensures m == ModuleOf(f, scan)
  {
    var name := ModulePaths.FileToModule(f.rel);
    var syms := scan(GraphBuild.SourceText(f));
    m := Module(name, syms);
  }

  method ScanNth(files: seq<GraphBuild.SourceFile>, scan: SymbolScan, i: nat) returns (m: Module)
    requires i < |files|
    ensures |ModulesOf(files, scan)| == |files| && m == ModulesOf(files, scan)[i]
  {
    m := ScanFile(files[i], scan);
  }

  /** The loop over the files. */
  method ScanFiles(files: seq<GraphBuild.SourceFile>, scan: SymbolScan) returns (entries: seq<Module>)
    ensures entries == ModulesOf(files, scan)
  {
    entries := [];
    ghost var all := ModulesOf(files, scan);
    for i := 0 to |files|
      invariant |all| == |files| && entries == all[..i]
    {
      var m := ScanNth(files, scan, i);
      TakeOneMore(all, i);
      entries := entries + [m];
    }
  }

  /** `build_symbol_manifest`. */
  method BuildSymbolManifest(files: seq<GraphBuild.SourceFile>, scan: SymbolScan) returns (r: Option<ByteString>)
    ensures r == ManifestResult(SortedModules(files, scan))
  {
    var entries := ScanFiles(files, scan);
    r := WriteManifest(Sort(entries, ByName));
  }

  lemma {:induction false} DistinctTieFree(ms: seq<Module>)
    requires Distinct(ms)
    ensures TiesAreEqual(ms, ByName)
  {
    forall x, y | x in ms && y in ms && ByName(x, y) && ByName(y, x) ensures x == y {
      LexTotal(x.name, y.name);
      var i :| 0 <= i < |ms| && ms[i] == x;
      var j :| 0 <= j < |ms| && ms[j] == y;
    }
  }

  lemma {:induction false} NameOrder()
    ensures Preorder(ByName)
  {
    LexOrder();
  }

  /** The manifest bytes do not depend on the order in which the files were listed, as long as
      files that name the same module declare the same symbols. */
  lemma {:induction false} ManifestForgetsFileOrder(a: seq<GraphBuild.SourceFile>, b: seq<GraphBuild.SourceFile>,
                                                    scan: SymbolScan)
    requires multiset(a) == multiset(b) && TiesAreEqual(ModulesOf(a, scan), ByName)
    ensures ManifestResult(SortedModules(a, scan)) == ManifestResult(SortedModules(b, scan))
  {
    NameOrder();
    MapForgetsOrder(f => ModuleOf(f, scan), a, b);
    SortForgetsOrder(ModulesOf(a, scan), ModulesOf(b, scan), ByName);
  }

  ghost predicate RecoverableModule(m: Module) { ValidModule(m) && WritableEntry(ToEntry(m), Checked) }

  /** Modules that the writer accepts and the reader gives back. */
  ghost predicate Recoverable(ms: seq<Module>) { |ms| < U32_LIMIT && forall m :: m in ms ==> RecoverableModule(m) }

  lemma {:induction false} RecoverableFits(ms: seq<Module>)
    requires Recoverable(ms)
    ensures ManifestFits(ms) && forall i :: 0 <= i < |ms| ==> ValidModule(ms[i])
  {
    forall i | 0 <= i < |ms| ensures RecoverableModule(ms[i]) {
      assert ms[i] in ms;
    }
  }

  lemma {:induction false} RecoverableIsCounted(a: seq<Module>, b: seq<Module>)
    requires Recoverable(a) && multiset(a) == multiset(b)
    ensures Recoverable(b)
  {
    SameMembers(a, b);
    assert |a| == |multiset(a)| == |multiset(b)| == |b|;
  }

  lemma {:induction false} SortedKeepsModules(ms: seq<Module>)
    ensures multiset(Sort(ms, ByName)) == multiset(ms)
  {
    NameOrder();
    SortSorts(ms, ByName);
  }

  lemma {:induction false} SameBytesSameModules(a: seq<GraphBuild.SourceFile>, b: seq<GraphBuild.SourceFile>,
                                                scan: SymbolScan)
    requires Recoverable(ModulesOf(a, scan)) && SameElements(a, b)
    ensures ManifestResult(SortedModules(a, scan)) == ManifestResult(SortedModules(b, scan))
       <==> SortedModules(a, scan) == SortedModules(b, scan)
  {
    MapForgetsOrder(f => ModuleOf(f, scan), a, b);
    SortedKeepsModules(ModulesOf(a, scan));
    SortedKeepsModules(ModulesOf(b, scan));
    RecoverableIsCounted(ModulesOf(a, scan), SortedModules(a, scan));
    RecoverableIsCounted(ModulesOf(a, scan), SortedModules(b, scan));
    RecoverableFits(SortedModules(a, scan));
    RecoverableFits(SortedModules(b, scan));
    if ManifestResult(SortedModules(a, scan)) == ManifestResult(SortedModules(b, scan)) {
      ManifestPrefixFree(SortedModules(a, scan), SortedModules(b, scan), [], []);
    }
  }

  ghost predicate ManifestOrderFree(files: seq<GraphBuild.SourceFile>, scan: SymbolScan) {
    forall b :: SameElements(files, b) ==>
      ManifestResult(SortedModules(b, scan)) == ManifestResult(SortedModules(files, scan))
  }

  /** Exactly when the manifest is deterministic: every order of the files gives the same bytes
      if and only if files that name the same module declare the same symbols. */
  lemma {:induction false} ManifestOrderIff(files: seq<GraphBuild.SourceFile>, scan: SymbolScan)
    requires Recoverable(ModulesOf(files, scan))
    ensures ManifestOrderFree(files, scan) <==> TiesAreEqual(ModulesOf(files, scan), ByName)
  {
    NameOrder();
    var f := (x: GraphBuild.SourceFile) => ModuleOf(x, scan);
    OrderFreeIff(f, files, ByName);
    forall b | SameElements(files, b)
      ensures ManifestResult(SortedModules(b, scan)) == ManifestResult(SortedModules(files, scan))
         <==> Sort(Map(f, b), ByName) == Sort(Map(f, files), ByName)
    {
      SameBytesSameModules(files, b, scan);
      SameMap(f, b, scan);
      SameMap(f, files, scan);
    }
    SameMap(f, files, scan);
  }

  lemma {:induction false} SameMap(f: GraphBuild.SourceFile -> Module, files: seq<GraphBuild.SourceFile>,
                                   scan: SymbolScan)
    requires forall x :: f(x) == ModuleOf(x, scan)
    ensures Map(f, files) == ModulesOf(files, scan)
  {
  }

  /** The modules are written in the order of their names, each file's module once. */
  lemma {:induction false} ModulesInOrder(files: seq<GraphBuild.SourceFile>, scan: SymbolScan)
    ensures var ms := SortedModules(files, scan);
      && SameElements(ms, ModulesOf(files, scan))
      && forall i, j :: 0 <= i < j < |ms| ==> LexLe(ms[i].name, ms[j].name)
  {
    NameOrder();
    SortSorts(ModulesOf(files, scan), ByName);
    var ms := SortedModules(files, scan);
    forall i, j | 0 <= i < j < |ms| ensures LexLe(ms[i].name, ms[j].name) {
      assert ByName(ms[i], ms[j]);
    }
  }

  const KINDS: seq<Kind> := [Type, Fn, Const, Theorem, Axiom, Lemma, Protocol]

  /** The two bytes of a symbol: its kind by its place in the list, then 1 for a public one; and
      what any two bytes are read as. */
  lemma {:induction false} TagReads(kind: Byte, visibility: Byte, name: ByteString)
    ensures SymbolOf(Item([kind, visibility], name)) ==
            if kind as int < 7 then Some(Symbol(KINDS[kind as int], visibility as int == 1, name)) else None
    ensures forall s: Symbol :: ToItem(s).name == s.name && |ToItem(s).tag| == 2 && ToItem(s).tag[0] as int < 7
              && KINDS[ToItem(s).tag[0] as int] == s.kind && ToItem(s).tag[1] as int == (if s.public then 1 else 0)
  {
  }
}
