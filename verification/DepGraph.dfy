/** The mount dependency graph: the writer in the build script and the reader that the
    compiler runs on the embedded bytes. */
module DepGraph {
  import opened Sequences
  import opened Bytes
  import opened ModuleTables

  const EDGE_PATH: Byte := 0 as char
  const EDGE_GLOB: Byte := 1 as char
  const EDGE_NESTED: Byte := 2 as char
  const EDGE_CALL: Byte := 3 as char
  const KIND_WIDTH: nat := 1

  datatype Edges = Edges(path: seq<ByteString>, glob: seq<ByteString>,
                         nested: seq<ByteString>, call: seq<ByteString>)
  const NO_EDGES := Edges([], [], [], [])

  datatype Module = Module(name: ByteString, edges: Edges)

  function Tagged(kind: Byte, targets: seq<ByteString>): (items: seq<Item>)
    ensures |items| == |targets|
  {
    if targets == [] then [] else [Item([kind], targets[0])] + Tagged(kind, targets[1..])
  }

  /** The layout order: paths, globs, calls, nested leaves. */
  function EdgeItems(e: Edges): seq<Item> {
    Tagged(EDGE_PATH, e.path) + PathSuffix(e)
  }

  function PathSuffix(e: Edges): seq<Item> { Tagged(EDGE_GLOB, e.glob) + GlobSuffix(e) }

  function GlobSuffix(e: Edges): seq<Item> { Tagged(EDGE_CALL, e.call) + Tagged(EDGE_NESTED, e.nested) }

  function ToEntry(m: Module): Entry { Entry(m.name, EdgeItems(m.edges)) }

  function ToEntries(ms: seq<Module>): (es: seq<Entry>)
    ensures |es| == |ms|
    ensures forall i :: 0 <= i < |ms| ==> es[i] == ToEntry(ms[i])
  {
    if ms == [] then [] else [ToEntry(ms[0])] + ToEntries(ms[1..])
  }

  predicate GraphFits(ms: seq<Module>) {
    |ms| < U32_LIMIT && Writable(ToEntries(ms), Wrapping32)
  }

  function GraphBytes(ms: seq<Module>): ByteString
    requires GraphFits(ms)
  {
    TableBytes(ToEntries(ms), Wrapping32)
  }

  // ---------------------------------------------------------------- the writer

  lemma {:induction false} TaggedAppend(kind: Byte, xs: seq<ByteString>, x: ByteString)
    ensures Tagged(kind, xs + [x]) == Tagged(kind, xs) + [Item([kind], x)]
  {
    if xs == [] {
      assert xs + [x] == [x];
      assert Tagged(kind, [x][1..]) == [];
    } else {
      TaggedAppend(kind, xs[1..], x);
      assert (xs + [x])[1..] == xs[1..] + [x];
    }
  }

  lemma {:induction false} TaggedAt(kind: Byte, xs: seq<ByteString>)
    ensures forall i :: 0 <= i < |xs| ==> Tagged(kind, xs)[i] == Item([kind], xs[i])
  {
    if xs != [] {
      TaggedAt(kind, xs[1..]);
    }
  }

  /** One of the four edge loops: a kind byte and the target, for each target. */
  method WriteEdges(out: ByteString, kind: Byte, targets: seq<ByteString>) returns (r: Option<ByteString>)
    ensures r == if AllWritable(Tagged(kind, targets)) then Some(out + ItemsBytes(Tagged(kind, targets))) else None
  {
    TaggedAt(kind, targets);
    var acc := out;
    for i := 0 to |targets|
      invariant AllWritable(Tagged(kind, targets[..i]))
      invariant acc == out + ItemsBytes(Tagged(kind, targets[..i]))
    {
      TaggedAppend(kind, targets[..i], targets[i]);
      TakeOneMore(targets, i);
      var w := WriteStr(acc + [kind], targets[i]);
      if w.None? {
        assert Tagged(kind, targets)[i].name == targets[i];
        return None;
      }
      ItemsBytesSnoc(Tagged(kind, targets[..i]), Item([kind], targets[i]));
      acc := w.value;
    }
    assert targets[..|targets|] == targets;
    return Some(acc);
  }

  method WriteAllEdges(out: ByteString, e: Edges) returns (r: Option<ByteString>)
    ensures r == if AllWritable(EdgeItems(e)) then Some(out + ItemsBytes(EdgeItems(e))) else None
  {
    AllWritableConcat(Tagged(EDGE_PATH, e.path), PathSuffix(e));
    AllWritableConcat(Tagged(EDGE_GLOB, e.glob), GlobSuffix(e));
    AllWritableConcat(Tagged(EDGE_CALL, e.call), Tagged(EDGE_NESTED, e.nested));
    var w := WriteEdges(out, EDGE_PATH, e.path);
    if w.None? { return None; }
    r := WriteEdges(w.value, EDGE_GLOB, e.glob);
    if r.None? { return None; }
    r := WriteEdges(r.value, EDGE_CALL, e.call);
    if r.None? { return None; }
    r := WriteEdges(r.value, EDGE_NESTED, e.nested);
    if r.None? { return None; }
    Concat5(out, ItemsBytes(Tagged(EDGE_PATH, e.path)), ItemsBytes(Tagged(EDGE_GLOB, e.glob)),
            ItemsBytes(Tagged(EDGE_CALL, e.call)), ItemsBytes(Tagged(EDGE_NESTED, e.nested)));
  }

  lemma {:induction false} Concat5(out: ByteString, a: ByteString, b: ByteString, c: ByteString, d: ByteString)
    ensures out + a + b + c + d == out + (a + (b + (c + d)))
  {
  }

  method WriteModule(out: ByteString, m: Module) returns (r: Option<ByteString>)
    ensures r == if WritableEntry(ToEntry(m), Wrapping32) then Some(out + EntryBytes(ToEntry(m), Wrapping32)) else None
  {
    var e := m.edges;
    var w := WriteStr(out, m.name);
    if w.None? { return None; }
    var total: nat := (|e.path| + |e.glob| + |e.nested| + |e.call|) % U32_LIMIT;
    assert total == CountField(|EdgeItems(e)|, Wrapping32);
    if total >= U16_LIMIT { return None; }
    w := WriteAllEdges(w.value + U16(total), e);
    if w.Some? {
      assert w.value == out + (StrBytes(m.name) + (U16(total) + ItemsBytes(EdgeItems(e))));
    }
    return w;
  }

  lemma {:induction false} ToEntriesSnoc(ms: seq<Module>, m: Module)
    ensures ToEntries(ms + [m]) == ToEntries(ms) + [ToEntry(m)]
  {
  }

  lemma {:induction false} BadModule(ms: seq<Module>, i: nat)
    requires i < |ms| && !WritableEntry(ToEntry(ms[i]), Wrapping32)
    ensures !GraphFits(ms)
  {
    assert ToEntries(ms)[i] == ToEntry(ms[i]);
  }

  ghost predicate Written(ms: seq<Module>, i: nat, out: ByteString) {
    && i <= |ms| < U32_LIMIT && Writable(ToEntries(ms[..i]), Wrapping32)
    && out == U32(|ms|) + EntriesBytes(ToEntries(ms[..i]), Wrapping32)
  }

  lemma {:induction false} WrittenNext(ms: seq<Module>, i: nat, out: ByteString)
    requires i < |ms| && Written(ms, i, out) && WritableEntry(ToEntry(ms[i]), Wrapping32)
    ensures Written(ms, i + 1, out + EntryBytes(ToEntry(ms[i]), Wrapping32))
  {
    hide EntryBytes, EntriesBytes, U32;
    ToEntriesSnoc(ms[..i], ms[i]);
    TakeOneMore(ms, i);
    EntriesBytesAppend(ToEntries(ms[..i]), ToEntry(ms[i]), Wrapping32);
  }

  lemma {:induction false} WrittenAll(ms: seq<Module>, out: ByteString)
    requires Written(ms, |ms|, out)
    ensures GraphFits(ms) && out == GraphBytes(ms)
  {
    assert ms[..|ms|] == ms;
  }

  /** The writing loop of `build_dep_graph`, on modules that are already sorted. */
  method WriteGraph(ms: seq<Module>) returns (r: Option<ByteString>)
    ensures r == if GraphFits(ms) then Some(GraphBytes(ms)) else None
  {
    if |ms| >= U32_LIMIT { return None; }
    var out: ByteString := U32(|ms|);
    for i := 0 to |ms|
      invariant Written(ms, i, out)
    {
      var w := WriteModule(out, ms[i]);
      if w.None? {
        BadModule(ms, i);
        return None;
      }
      WrittenNext(ms, i, out);
      out := w.value;
    }
    WrittenAll(ms, out);
    return Some(out);
  }

  // ---------------------------------------------------------------- the reader

  predicate KnownKind(kind: Byte) {
    kind == EDGE_PATH || kind == EDGE_GLOB || kind == EDGE_NESTED || kind == EDGE_CALL
  }

  /** Extend the list of one kind. */
  function Extend(e: Edges, kind: Byte, targets: seq<ByteString>): Edges
    requires KnownKind(kind)
  {
    if kind == EDGE_PATH then e.(path := e.path + targets)
    else if kind == EDGE_GLOB then e.(glob := e.glob + targets)
    else if kind == EDGE_NESTED then e.(nested := e.nested + targets)
    else e.(call := e.call + targets)
  }

  /** Push one decoded edge on the list of its kind. */
  function PushEdge(e: Edges, it: Item): Option<Edges> {
    if |it.tag| != KIND_WIDTH || !KnownKind(it.tag[0]) then None
    else Some(Extend(e, it.tag[0], [it.name]))
  }

  function PushEdges(e: Edges, items: seq<Item>): Option<Edges>
    decreases |items|
  {
    if items == [] then Some(e)
    else match PushEdge(e, items[0])
      case None => None
      case Some(e') => PushEdges(e', items[1..])
  }

  type Graph = map<ByteString, Edges>

  function InsertModules(g: Graph, entries: seq<Entry>): Option<Graph>
    decreases |entries|
  {
    if entries == [] then Some(g)
    else match PushEdges(NO_EDGES, entries[0].items)
      case None => None
      case Some(e) => InsertModules(g[entries[0].name := e], entries[1..])
  }

  /** What the reader makes of a byte string. */
  function GraphOf(data: ByteString): Option<Graph> {
    match ReadTable(data, KIND_WIDTH)
    case None => None
    case Some((entries, _)) => InsertModules(map[], entries)
  }

  ghost function RestOfEdges(data: ByteString, n: nat, e: Edges): Option<(Edges, ByteString)> {
    match ReadItems(data, n, KIND_WIDTH)
    case None => None
    case Some((items, rest)) =>
      match PushEdges(e, items)
      case None => None
      case Some(e') => Some((e', rest))
  }

  lemma {:induction false} RestOfEdgesStep(data: ByteString, n: nat, e: Edges)
    requires n > 0
    ensures RestOfEdges(data, n, e) ==
      match ReadItem(data, KIND_WIDTH)
      case None => None
      case Some((it, rest)) =>
        match PushEdge(e, it)
        case None => None
        case Some(e') => RestOfEdges(rest, n - 1, e')
  {
    if ReadItem(data, KIND_WIDTH).Some? {
      var (it, rest) := ReadItem(data, KIND_WIDTH).value;
      if ReadItems(rest, n - 1, KIND_WIDTH).Some? {
        var its := ReadItems(rest, n - 1, KIND_WIDTH).value.0;
        assert ([it] + its)[1..] == its;
      }
    }
  }

  method ReadEdgesAt(data: ByteString, start: nat, count: nat) returns (r: Option<Edges>, next: nat)
    requires start <= |data|
    ensures next <= |data|
    ensures match RestOfEdges(data[start..], count, NO_EDGES)
      case None => r == None
      case Some((e, rest)) => r == Some(e) && data[next..] == rest
  {
    var e := NO_EDGES;
    next := start;
    for i := 0 to count
      invariant next <= |data|
      invariant RestOfEdges(data[start..], count, NO_EDGES) == RestOfEdges(data[next..], count - i, e)
    {
      RestOfEdgesStep(data[next..], count - i, e);
      if next >= |data| { return None, next; }
      var kind := data[next];
      assert data[next..][..KIND_WIDTH] == [kind];
      assert data[next..][KIND_WIDTH..] == data[next + 1..];
      next := next + 1;
      var target;
      target, next := ReadStrAt(data, next);
      if target.None? { return None, next; }
      if kind == EDGE_PATH { e := e.(path := e.path + [target.value]); }
      else if kind == EDGE_GLOB { e := e.(glob := e.glob + [target.value]); }
      else if kind == EDGE_NESTED { e := e.(nested := e.nested + [target.value]); }
      else if kind == EDGE_CALL { e := e.(call := e.call + [target.value]); }
      else { return None, next; }
    }
    return Some(e), next;
  }

  ghost function RestOfGraph(data: ByteString, n: nat, g: Graph): Option<Graph> {
    match ReadEntries(data, n, KIND_WIDTH)
    case None => None
    case Some((entries, _)) => InsertModules(g, entries)
  }

  lemma {:induction false} RestOfGraphStep(data: ByteString, n: nat, g: Graph)
    requires n > 0
    ensures RestOfGraph(data, n, g) ==
      match ReadStr(data)
      case None => None
      case Some((name, rest)) =>
        if |rest| < 2 then None
        else match RestOfEdges(rest[2..], ReadU16(rest), NO_EDGES)
          case None => None
          case Some((e, end)) => RestOfGraph(end, n - 1, g[name := e])
  {
    if ReadEntry(data, KIND_WIDTH).Some? {
      var (e, rest) := ReadEntry(data, KIND_WIDTH).value;
      if ReadEntries(rest, n - 1, KIND_WIDTH).Some? {
        var es := ReadEntries(rest, n - 1, KIND_WIDTH).value.0;
        assert ([e] + es)[1..] == es;
      }
    }
  }

  /** `DepGraph::parse_archive`. */
  method ParseGraph(data: ByteString) returns (r: Option<Graph>)
    ensures r == GraphOf(data)
  {
    if |data| < 4 { return None; }
    var moduleCount := ReadU32(data[..4]);
    assert moduleCount == ReadU32(data) by {
      assert data[..4][2..] == data[2..4];
    }
    var cursor: nat := 4;
    var edges: Graph := map[];
    for i := 0 to moduleCount
      invariant cursor <= |data|
      invariant GraphOf(data) == RestOfGraph(data[cursor..], moduleCount - i, edges)
    {
      RestOfGraphStep(data[cursor..], moduleCount - i, edges);
      var name, edgeCount;
      name, edgeCount, cursor := ReadHeadAt(data, cursor);
      if name.None? { return None; }
      var e;
      e, cursor := ReadEdgesAt(data, cursor, edgeCount);
      if e.None? { return None; }
      edges := edges[name.value := e.value];
    }
    return Some(edges);
  }

  // ---------------------------------------------------------------- the writer and the reader agree

  ghost predicate ValidTargets(targets: seq<ByteString>) {
    forall i :: 0 <= i < |targets| ==> ValidUtf8(targets[i])
  }

  /** Every Rust string is UTF-8. */
  ghost predicate ValidModule(m: Module) {
    && ValidUtf8(m.name) && ValidTargets(m.edges.path) && ValidTargets(m.edges.glob)
    && ValidTargets(m.edges.nested) && ValidTargets(m.edges.call)
  }

  function EdgeCount(e: Edges): nat { |e.path| + |e.glob| + |e.nested| + |e.call| }

  ghost predicate Distinct(ms: seq<Module>) {
    forall i, j :: 0 <= i < j < |ms| ==> ms[i].name != ms[j].name
  }

  lemma {:induction false} ExtendTwice(e: Edges, kind: Byte, x: ByteString, xs: seq<ByteString>)
    requires KnownKind(kind)
    ensures Extend(Extend(e, kind, [x]), kind, xs) == Extend(e, kind, [x] + xs)
    ensures Extend(e, kind, []) == e
  {
    assert e.path + [x] + xs == e.path + ([x] + xs) && e.path + [] == e.path;
    assert e.glob + [x] + xs == e.glob + ([x] + xs) && e.glob + [] == e.glob;
    assert e.nested + [x] + xs == e.nested + ([x] + xs) && e.nested + [] == e.nested;
    assert e.call + [x] + xs == e.call + ([x] + xs) && e.call + [] == e.call;
  }

  lemma {:induction false} PushTagged(e: Edges, kind: Byte, xs: seq<ByteString>, rest: seq<Item>)
    requires KnownKind(kind)
    ensures PushEdges(e, Tagged(kind, xs) + rest) == PushEdges(Extend(e, kind, xs), rest)
    decreases |xs|
  {
    if xs == [] {
      ExtendTwice(e, kind, [], []);
      assert Tagged(kind, xs) + rest == rest;
    } else {
      ExtendTwice(e, kind, xs[0], xs[1..]);
      assert [xs[0]] + xs[1..] == xs;
      PushTagged(Extend(e, kind, [xs[0]]), kind, xs[1..], rest);
      assert (Tagged(kind, xs) + rest)[1..] == Tagged(kind, xs[1..]) + rest;
    }
  }

  /** The four lists come back, each in its own order, although they share one stream. */
  lemma {:induction false} EdgesComeBack(e: Edges)
    ensures PushEdges(NO_EDGES, EdgeItems(e)) == Some(e)
  {
    var globs, calls, nested :=
      Tagged(EDGE_GLOB, e.glob), Tagged(EDGE_CALL, e.call), Tagged(EDGE_NESTED, e.nested);
    var e1 := Extend(NO_EDGES, EDGE_PATH, e.path);
    var e2 := Extend(e1, EDGE_GLOB, e.glob);
    var e3 := Extend(e2, EDGE_CALL, e.call);
    PushTagged(NO_EDGES, EDGE_PATH, e.path, globs + (calls + nested));
    PushTagged(e1, EDGE_GLOB, e.glob, calls + nested);
    PushTagged(e2, EDGE_CALL, e.call, nested);
    PushTagged(e3, EDGE_NESTED, e.nested, []);
    assert nested + [] == nested;
    assert Extend(e3, EDGE_NESTED, e.nested) == e;
  }

  function GraphFrom(g: Graph, ms: seq<Module>): Graph
    decreases |ms|
  {
    if ms == [] then g else GraphFrom(g[ms[0].name := ms[0].edges], ms[1..])
  }

  lemma {:induction false} InsertAll(g: Graph, ms: seq<Module>)
    ensures InsertModules(g, ToEntries(ms)) == Some(GraphFrom(g, ms))
    decreases |ms|
  {
    if ms != [] {
      EdgesComeBack(ms[0].edges);
      InsertAll(g[ms[0].name := ms[0].edges], ms[1..]);
      assert ToEntries(ms)[1..] == ToEntries(ms[1..]);
    }
  }

  lemma {:induction false} GraphFromKeeps(g: Graph, ms: seq<Module>, k: ByteString)
    requires forall i :: 0 <= i < |ms| ==> ms[i].name != k
    ensures k in GraphFrom(g, ms) <==> k in g
    ensures k in g ==> GraphFrom(g, ms)[k] == g[k]
    decreases |ms|
  {
    if ms != [] {
      GraphFromKeeps(g[ms[0].name := ms[0].edges], ms[1..], k);
    }
  }

  /** No later module has its name. */
  ghost predicate IsLast(ms: seq<Module>, i: nat) {
    i < |ms| && forall j :: i < j < |ms| ==> ms[j].name != ms[i].name
  }

  /** The reader keeps the last module of a name. */
  lemma {:induction false} GraphFromAt(g: Graph, ms: seq<Module>, i: nat)
    requires IsLast(ms, i)
    ensures ms[i].name in GraphFrom(g, ms) && GraphFrom(g, ms)[ms[i].name] == ms[i].edges
    decreases |ms|
  {
    var g' := g[ms[0].name := ms[0].edges];
    if i == 0 {
      GraphFromKeeps(g', ms[1..], ms[0].name);
    } else {
      assert forall j :: i - 1 < j < |ms[1..]| ==> ms[1..][j] == ms[j + 1];
      GraphFromAt(g', ms[1..], i - 1);
    }
  }

  lemma {:induction false} LastOf(ms: seq<Module>, i: nat) returns (k: nat)
    requires i < |ms|
    ensures i <= k && IsLast(ms, k) && ms[k].name == ms[i].name
    decreases |ms| - i
  {
    if j :| i < j < |ms| && ms[j].name == ms[i].name {
      k := LastOf(ms, j);
    } else {
      k := i;
    }
  }

  /** What the reader makes of a list of modules: of each name the last module. */
  ghost predicate HoldsLast(g: Graph, ms: seq<Module>) {
    && (forall i: nat :: IsLast(ms, i) ==> ms[i].name in g && g[ms[i].name] == ms[i].edges)
    && (forall k :: k in g ==> exists i: nat :: IsLast(ms, i) && ms[i].name == k)
  }

  lemma {:induction false} GraphFromLast(ms: seq<Module>)
    ensures HoldsLast(GraphFrom(map[], ms), ms)
  {
    var g := GraphFrom(map[], ms);
    forall i: nat | IsLast(ms, i) ensures ms[i].name in g && g[ms[i].name] == ms[i].edges {
      GraphFromAt(map[], ms, i);
    }
    forall k | k in g ensures exists i: nat :: IsLast(ms, i) && ms[i].name == k {
      if forall i :: 0 <= i < |ms| ==> ms[i].name != k {
        GraphFromKeeps(map[], ms, k);
      } else {
        var i :| 0 <= i < |ms| && ms[i].name == k;
        var last := LastOf(ms, i);
      }
    }
  }

  /** Every module of the list is found with its own edges. */
  ghost predicate HoldsEvery(g: Graph, ms: seq<Module>) {
    forall i :: 0 <= i < |ms| ==> ms[i].name in g && g[ms[i].name] == ms[i].edges
  }

  /** Modules of one name have the same edges. */
  ghost predicate NamesAgree(ms: seq<Module>) {
    forall i, j :: 0 <= i < j < |ms| && ms[i].name == ms[j].name ==> ms[i].edges == ms[j].edges
  }

  lemma {:induction false} EveryIff(g: Graph, ms: seq<Module>)
    requires HoldsLast(g, ms)
    ensures HoldsEvery(g, ms) <==> NamesAgree(ms)
    ensures Distinct(ms) ==> HoldsEvery(g, ms)
  {
    if NamesAgree(ms) {
      forall i | 0 <= i < |ms| ensures ms[i].name in g && g[ms[i].name] == ms[i].edges {
        var k := LastOf(ms, i);
      }
    }
  }

  lemma {:induction false} EdgeItemsTyped(m: Module)
    requires ValidModule(m)
    ensures WellTyped(ToEntry(m), KIND_WIDTH)
    ensures |ToEntry(m).items| == EdgeCount(m.edges)
  {
    TaggedAt(EDGE_PATH, m.edges.path);
    TaggedAt(EDGE_GLOB, m.edges.glob);
    TaggedAt(EDGE_CALL, m.edges.call);
    TaggedAt(EDGE_NESTED, m.edges.nested);
    var items := ToEntry(m).items;
    forall i | 0 <= i < |items| ensures ValidUtf8(items[i].name) && |items[i].tag| == KIND_WIDTH {
      var a, b, c := |m.edges.path|, |m.edges.glob|, |m.edges.call|;
      if i < a {
      } else if i < a + b {
        assert items[i] == Tagged(EDGE_GLOB, m.edges.glob)[i - a];
      } else if i < a + b + c {
        assert items[i] == Tagged(EDGE_CALL, m.edges.call)[i - a - b];
      } else {
        assert items[i] == Tagged(EDGE_NESTED, m.edges.nested)[i - a - b - c];
      }
    }
  }

  lemma {:induction false} GraphReadable(ms: seq<Module>)
    requires forall i :: 0 <= i < |ms| ==> ValidModule(ms[i]) && EdgeCount(ms[i].edges) < U16_LIMIT
    ensures Readable(ToEntries(ms), KIND_WIDTH)
  {
    forall i | 0 <= i < |ms| ensures WellTyped(ToEntries(ms)[i], KIND_WIDTH) && |ToEntries(ms)[i].items| < U16_LIMIT {
      EdgeItemsTyped(ms[i]);
    }
  }

  lemma {:induction false} GraphReadsBack(ms: seq<Module>, rest: ByteString)
    requires GraphFits(ms)
    requires forall i :: 0 <= i < |ms| ==> ValidModule(ms[i]) && EdgeCount(ms[i].edges) < U16_LIMIT
    ensures GraphOf(GraphBytes(ms) + rest) == Some(GraphFrom(map[], ms))
  {
    GraphReadable(ms);
    TableReadBack(ToEntries(ms), rest, KIND_WIDTH, Wrapping32);
    hide ReadTable, TableBytes, InsertModules, GraphFrom;
    InsertAll(map[], ms);
  }

  /** The reader recovers of each name the last module that was written, and nothing else,
      whatever bytes follow; it finds every module with its own edges if and only if modules
      of one name have the same, as they do when names are distinct. */
  lemma {:induction false} GraphRoundTrip(ms: seq<Module>, rest: ByteString)
    requires GraphFits(ms)
    requires forall i :: 0 <= i < |ms| ==> ValidModule(ms[i]) && EdgeCount(ms[i].edges) < U16_LIMIT
    ensures GraphOf(GraphBytes(ms) + rest).Some?
    ensures var g := GraphOf(GraphBytes(ms) + rest).value;
      && HoldsLast(g, ms) && (HoldsEvery(g, ms) <==> NamesAgree(ms)) && (Distinct(ms) ==> HoldsEvery(g, ms))
  {
    GraphReadsBack(ms, rest);
    hide GraphOf, GraphFrom, HoldsLast, HoldsEvery, NamesAgree;
    GraphFromLast(ms);
    EveryIff(GraphFrom(map[], ms), ms);
  }

  /** Two different module lists never share a prefix of bytes that one of them ends. */
  lemma {:induction false} GraphPrefixFree(a: seq<Module>, b: seq<Module>, x: ByteString, y: ByteString)
    requires GraphFits(a) && GraphFits(b) && GraphBytes(a) + x == GraphBytes(b) + y
    requires forall i :: 0 <= i < |a| ==> ValidModule(a[i]) && EdgeCount(a[i].edges) < U16_LIMIT
    requires forall i :: 0 <= i < |b| ==> ValidModule(b[i]) && EdgeCount(b[i].edges) < U16_LIMIT
    ensures a == b && x == y
  {
    GraphReadable(a);
    GraphReadable(b);
    TablePrefixFree(ToEntries(a), ToEntries(b), x, y, KIND_WIDTH, Wrapping32);
    forall i | 0 <= i < |a| ensures a[i] == b[i] {
      assert ToEntries(a)[i] == ToEntries(b)[i];
      EdgesComeBack(a[i].edges);
      EdgesComeBack(b[i].edges);
    }
  }

  /** Exactly which written graphs are read back entry by entry: those in which no module
      has 65536 edges or more.  A module with 4294967296 edges is written with a count of 0. */
  lemma {:induction false} GraphReadBackIff(ms: seq<Module>, rest: ByteString)
    requires GraphFits(ms) && forall i :: 0 <= i < |ms| ==> ValidModule(ms[i])
    ensures ReadTable(GraphBytes(ms) + rest, KIND_WIDTH) == Some((ToEntries(ms), rest)) <==>
      forall i :: 0 <= i < |ms| ==> EdgeCount(ms[i].edges) < U16_LIMIT
  {
    forall i | 0 <= i < |ms|
      ensures WellTyped(ToEntries(ms)[i], KIND_WIDTH) && |ToEntries(ms)[i].items| == EdgeCount(ms[i].edges)
    {
      EdgeItemsTyped(ms[i]);
    }
    ReadBackIff(ToEntries(ms), rest, KIND_WIDTH, Wrapping32);
  }

  // ---------------------------------------------------------------- the bytes of the edges

  /** One byte for the kind and the target after its length, for each of them. */
  function EachEdge(kind: nat, targets: seq<ByteString>): ByteString
    requires kind < 256 && Short(targets)
  {
    if targets == [] then []
    else [kind as char] + (U16(|targets[0]|) + targets[0]) + EachEdge(kind, targets[1..])
  }

  predicate Short(targets: seq<ByteString>) { forall i :: 0 <= i < |targets| ==> WritableStr(targets[i]) }

  predicate AllShort(e: Edges) { Short(e.path) && Short(e.glob) && Short(e.nested) && Short(e.call) }

  lemma {:induction false} TaggedBytes(kind: Byte, targets: seq<ByteString>)
    requires Short(targets)
    ensures AllWritable(Tagged(kind, targets))
    ensures ItemsBytes(Tagged(kind, targets)) == EachEdge(kind as int, targets)
  {
    TaggedAt(kind, targets);
    if targets != [] {
      TaggedBytes(kind, targets[1..]);
    }
  }

  /** The edges of a module are its path edges with kind 0, its glob edges with kind 1, its call
      edges with kind 3 and its nested edges with kind 2, in this order. */
  lemma {:induction false} EdgesOnTheWire(e: Edges)
    requires AllShort(e)
    ensures AllWritable(EdgeItems(e))
    ensures ItemsBytes(EdgeItems(e)) ==
            EachEdge(0, e.path) + (EachEdge(1, e.glob) + (EachEdge(3, e.call) + EachEdge(2, e.nested)))
  {
    TaggedBytes(EDGE_PATH, e.path);
    TaggedBytes(EDGE_GLOB, e.glob);
    TaggedBytes(EDGE_CALL, e.call);
    TaggedBytes(EDGE_NESTED, e.nested);
    hide Tagged, EachEdge;
    ItemsBytesConcat(Tagged(EDGE_CALL, e.call), Tagged(EDGE_NESTED, e.nested));
    ItemsBytesConcat(Tagged(EDGE_GLOB, e.glob), GlobSuffix(e));
    ItemsBytesConcat(Tagged(EDGE_PATH, e.path), PathSuffix(e));
  }

  /** The kind byte of an edge says to which list its target goes; any other is refused. */
  lemma {:induction false} KindReads(e: Edges, kind: Byte, target: ByteString)
    ensures PushEdge(e, Item([kind], target)) ==
      if kind as int == 0 then Some(e.(path := e.path + [target]))
      else if kind as int == 1 then Some(e.(glob := e.glob + [target]))
      else if kind as int == 2 then Some(e.(nested := e.nested + [target]))
      else if kind as int == 3 then Some(e.(call := e.call + [target]))
      else None
  {
  }
}
