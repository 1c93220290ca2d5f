/** The scanner for dotted cross-module calls, such as `super.darwin.libsystem.read(…)`. */
module DottedCalls {
  import opened Sequences
  import opened Bytes
  import opened ModulePaths
  import Comments
  import DepGraph

  predicate WordByte(c: Byte) {
    '0' <= c <= '9' || 'A' <= c <= 'Z' || 'a' <= c <= 'z' || c == '_'
  }

  predicate PathByte(c: Byte) { WordByte(c) || c == '.' }

  /** Length of the root that starts at `i`, with its dot; 0 when there is none. */
  function HeadLength(s: ByteString, i: nat): nat
    requires i <= |s|
  {
    if StartsWith(s[i..], "super.") then 6 else if StartsWith(s[i..], "core.") then 5 else 0
  }

  predicate Boundary(s: ByteString, i: nat)
    requires i <= |s|
  {
    i == 0 || !PathByte(s[i - 1])
  }

  /** End of the maximal run of path bytes from `j` on. */
  function RunEnd(s: ByteString, j: nat): (e: nat)
    requires j <= |s|
    ensures j <= e <= |s|
    ensures forall k :: j <= k < e ==> PathByte(s[k])
    ensures e < |s| ==> !PathByte(s[e])
    decreases |s| - j
  {
    if j < |s| && PathByte(s[j]) then RunEnd(s, j + 1) else j
  }

  function Dots(s: ByteString): nat {
    if s == [] then 0 else (if s[0] == '.' then 1 else 0) + Dots(s[1..])
  }

  /** A call starts at `i`: a rooted path on a token boundary, maximal, followed by `(`,
      with two dots or more after the dot of its root. */
  predicate CallAt(s: ByteString, i: nat)
    requires i <= |s|
  {
    && HeadLength(s, i) > 0
    && Boundary(s, i)
    && var j := RunEnd(s, i + HeadLength(s, i));
       j < |s| && s[j] == '(' && Dots(s[i + HeadLength(s, i)..j]) >= 2
  }

  /** The called name at `i`, function segment included. */
  function Whole(s: ByteString, i: nat): ByteString
    requires i <= |s| && HeadLength(s, i) > 0
  {
    s[i..RunEnd(s, i + HeadLength(s, i))]
  }

  /** Resolved names of all the calls that start at `i` or later, in order. */
  function CallsFrom(s: ByteString, i: nat, current: ByteString): seq<ByteString>
    requires i <= |s|
    decreases |s| - i
  {
    if i == |s| then []
    else (if CallAt(s, i) then [ResolvePath(Whole(s, i), current)] else []) + CallsFrom(s, i + 1, current)
  }

  /** The modules of those calls: what precedes the last dot of each name. */
  function ModulesFrom(s: ByteString, i: nat, current: ByteString): seq<ByteString>
    requires i <= |s|
    decreases |s| - i
  {
    if i == |s| then []
    else (if CallAt(s, i) then [ResolvePath(BeforeLastDot(Whole(s, i)), current)] else [])
         + ModulesFrom(s, i + 1, current)
  }

  lemma {:induction false} HeadBytes(s: ByteString, i: nat)
    requires i <= |s| && HeadLength(s, i) > 0
    ensures i + HeadLength(s, i) <= |s|
    ensures forall k :: i <= k < i + HeadLength(s, i) ==> PathByte(s[k])
    ensures s[i + HeadLength(s, i) - 1] == '.'
  {
    var head: ByteString := if HeadLength(s, i) == 6 then "super." else "core.";
    assert s[i..][..|head|] == head;
    forall k | i <= k < i + |head| ensures s[k] == head[k - i] {
      assert s[k] == s[i..][..|head|][k - i];
    }
  }

  /** The scanner may jump past a path it has read: nothing starts inside it. */
  lemma {:induction false} JumpIsSafe(s: ByteString, i: nat, j: nat, current: ByteString)
    requires 1 <= i <= j <= |s|
    requires forall m :: i - 1 <= m < j - 1 ==> PathByte(s[m])
    ensures CallsFrom(s, i, current) == CallsFrom(s, j, current)
    ensures ModulesFrom(s, i, current) == ModulesFrom(s, j, current)
    decreases j - i
  {
    if i < j {
      JumpIsSafe(s, i + 1, j, current);
    }
  }

  lemma {:induction false} DotsSnoc(s: ByteString, c: Byte)
    ensures Dots(s + [c]) == Dots(s) + if c == '.' then 1 else 0
  {
    if s == [] {
      assert s + [c] == [c] && [c][1..] == [];
    } else {
      DotsSnoc(s[1..], c);
      assert (s + [c])[1..] == s[1..] + [c];
    }
  }

  lemma {:induction false} RunEndWithin(s: ByteString, j: nat, k: nat)
    requires j <= k <= |s| && forall m :: j <= m < k ==> PathByte(s[m])
    ensures RunEnd(s, j) == RunEnd(s, k)
    decreases k - j
  {
    if j < k {
      RunEndWithin(s, j + 1, k);
    }
  }

  lemma {:induction false} BeforeLastDotAt(s: ByteString, d: nat)
    requires d < |s| && s[d] == '.' && forall k :: d < k < |s| ==> s[k] != '.'
    ensures BeforeLastDot(s) == s[..d]
  {
    assert s[d] in s;
    if d < |s| - 1 {
      BeforeLastDotAt(s[..|s| - 1], d);
      assert s[..|s| - 1][..d] == s[..d];
    }
  }

  lemma {:induction false} AsciiIsUtf8(s: ByteString)
    requires forall k :: 0 <= k < |s| ==> PathByte(s[k])
    ensures ValidUtf8(s)
  {
    if s != [] {
      AsciiIsUtf8(s[1..]);
    }
  }

  /** The walk along one dotted path: its end, its number of segments counting the root as
      one, and the position of its last dot. */
  method WalkPath(bytes: ByteString, from: nat) returns (j: nat, segments: nat, lastDot: nat)
    requires from <= |bytes|
    ensures j == RunEnd(bytes, from)
    ensures segments == 1 + Dots(bytes[from..j])
    ensures segments == 1 ==> lastDot == 0
    ensures segments > 1 ==> from <= lastDot < j && bytes[lastDot] == '.'
    ensures segments > 1 ==> forall k :: lastDot < k < j ==> bytes[k] != '.'
  {
    j, segments, lastDot := from, 1, 0;
    while j < |bytes|
      invariant from <= j <= |bytes|
      invariant forall k :: from <= k < j ==> PathByte(bytes[k])
      invariant segments == 1 + Dots(bytes[from..j])
      invariant segments == 1 ==> lastDot == 0 && forall k :: from <= k < j ==> bytes[k] != '.'
      invariant segments > 1 ==> from <= lastDot < j && bytes[lastDot] == '.'
      invariant segments > 1 ==> forall k :: lastDot < k < j ==> bytes[k] != '.'
    {
      var c := bytes[j];
      assert bytes[from..j + 1] == bytes[from..j] + [c];
      DotsSnoc(bytes[from..j], c);
      if WordByte(c) {
        j := j + 1;
      } else if c == '.' {
        lastDot := j;
        segments := segments + 1;
        j := j + 1;
      } else {
        break;
      }
    }
    RunEndWithin(bytes, from, j);
  }

  lemma {:induction false} NoCallStep(s: ByteString, i: nat, current: ByteString)
    requires i < |s| && !(HeadLength(s, i) > 0 && Boundary(s, i))
    ensures CallsFrom(s, i, current) == CallsFrom(s, i + 1, current)
    ensures ModulesFrom(s, i, current) == ModulesFrom(s, i + 1, current)
  {
  }

  /** What one path contributes, and where the scan goes on after it. */
  lemma {:induction false} PathStep(s: ByteString, i: nat, current: ByteString)
    requires i < |s| && HeadLength(s, i) > 0 && Boundary(s, i)
    ensures var j := RunEnd(s, i + HeadLength(s, i));
      && i + 1 < j
      && CallsFrom(s, i, current) ==
         (if CallAt(s, i) then [ResolvePath(s[i..j], current)] else []) + CallsFrom(s, j, current)
      && ModulesFrom(s, i, current) ==
         (if CallAt(s, i) then [ResolvePath(BeforeLastDot(s[i..j]), current)] else []) + ModulesFrom(s, j, current)
  {
    HeadBytes(s, i);
    JumpIsSafe(s, i + 1, RunEnd(s, i + HeadLength(s, i)), current);
  }

  /** The module of a call is sliced off at the last dot. */
  lemma {:induction false} SlicedAtLastDot(s: ByteString, start: nat, dot: nat, end: nat)
    requires start <= dot < end <= |s| && s[dot] == '.' && forall k :: dot < k < end ==> s[k] != '.'
    requires forall k :: start <= k < end ==> PathByte(s[k])
    ensures s[start..dot] == BeforeLastDot(s[start..end]) && ValidUtf8(s[start..dot])
  {
    BeforeLastDotAt(s[start..end], dot - start);
    TakeOfSlice(s, start, dot, end);
    AsciiIsUtf8(s[start..dot]);
  }

  /** The scan at a path: reads it, pushes both edges of a call, returns its end. */
  method ReadPath(bytes: ByteString, i: nat, current: ByteString, edges: DepGraph.Edges)
    returns (r: DepGraph.Edges, next: nat)
    requires i < |bytes| && HeadLength(bytes, i) > 0 && Boundary(bytes, i)
    ensures next == RunEnd(bytes, i + HeadLength(bytes, i)) && next > i + 1
    ensures r == if CallAt(bytes, i) then edges.(call := edges.call + [ResolvePath(bytes[i..next], current)],
        path := edges.path + [ResolvePath(BeforeLastDot(bytes[i..next]), current)])
      else edges
  {
    HeadBytes(bytes, i);
    r := edges;
    var start := i;
    var j, segments, lastDot := WalkPath(bytes, i + HeadLength(bytes, i));
    var isCall := j < |bytes| && bytes[j] == '(';
    AsciiIsUtf8(bytes[start..j]);
    if segments >= 3 {
      SlicedAtLastDot(bytes, start, lastDot, j);
    }
    if isCall && segments >= 3 && lastDot > start
       && ValidUtf8(bytes[start..lastDot]) && ValidUtf8(bytes[start..j]) {
      r := r.(call := r.call + [ResolvePath(bytes[start..j], current)]);
      r := r.(path := r.path + [ResolvePath(bytes[start..lastDot], current)]);
    }
    next := Max(j, start + 1);
  }

  /** With `r` built so far and the scan at `i`, what is still to come completes the edges. */
  ghost predicate Scanned(s: ByteString, current: ByteString, edges: DepGraph.Edges, r: DepGraph.Edges, i: nat)
    requires i <= |s|
  {
    && r.glob == edges.glob && r.nested == edges.nested
    && r.call + CallsFrom(s, i, current) == edges.call + CallsFrom(s, 0, current)
    && r.path + ModulesFrom(s, i, current) == edges.path + ModulesFrom(s, 0, current)
  }

  lemma {:induction false} ScannedPath(s: ByteString, current: ByteString, edges: DepGraph.Edges, was: DepGraph.Edges,
                                       r: DepGraph.Edges, i: nat)
    requires i < |s| && HeadLength(s, i) > 0 && Boundary(s, i)
    requires Scanned(s, current, edges, was, i)
    requires var w := Whole(s, i);
      r == if CallAt(s, i) then was.(call := was.call + [ResolvePath(w, current)],
        path := was.path + [ResolvePath(BeforeLastDot(w), current)])
      else was
    ensures Scanned(s, current, edges, r, RunEnd(s, i + HeadLength(s, i)))
  {
    PathStep(s, i, current);
    var j := RunEnd(s, i + HeadLength(s, i));
    var w := Whole(s, i);
    var calls, mods := CallsFrom(s, j, current), ModulesFrom(s, j, current);
    if CallAt(s, i) {
      PushThenRest(was.call, ResolvePath(w, current), calls);
      PushThenRest(was.path, ResolvePath(BeforeLastDot(w), current), mods);
    } else {
      assert [] + calls == calls && [] + mods == mods;
    }
  }

  lemma {:induction false} ScannedByte(s: ByteString, current: ByteString, edges: DepGraph.Edges, r: DepGraph.Edges,
                                       i: nat)
    requires i < |s| && Scanned(s, current, edges, r, i)
    requires HeadLength(s, i) == 0 || !Boundary(s, i)
    ensures Scanned(s, current, edges, r, i + 1)
  {
    NoCallStep(s, i, current);
  }

  /** The turn of the scan that reads a path. */
  method ScanPath(bytes: ByteString, i: nat, current: ByteString, ghost edges: DepGraph.Edges, was: DepGraph.Edges)
    returns (r: DepGraph.Edges, next: nat)
    requires i < |bytes| && HeadLength(bytes, i) > 0 && Boundary(bytes, i) && Scanned(bytes, current, edges, was, i)
    ensures i < next <= |bytes| && Scanned(bytes, current, edges, r, next)
  {
    r, next := ReadPath(bytes, i, current, was);
    ScannedPath(bytes, current, edges, was, r, i);
  }

  lemma {:induction false} ScannedAll(s: ByteString, current: ByteString, edges: DepGraph.Edges, r: DepGraph.Edges)
    requires Scanned(s, current, edges, r, |s|)
    ensures r == edges.(call := edges.call + CallsFrom(s, 0, current), path := edges.path + ModulesFrom(s, 0, current))
  {
    assert r.call + [] == r.call && r.path + [] == r.path;
  }

  /** `extract_dotted_call_edges`: a scan that skips each path it reads records, in order,
      exactly the calls that start at any position of the stripped source. */
  method ExtractDottedCallEdges(src: ByteString, current: ByteString, edges: DepGraph.Edges)
    returns (r: DepGraph.Edges)
    ensures r == edges.(call := edges.call + CallsFrom(Comments.Strip(src), 0, current),
                        path := edges.path + ModulesFrom(Comments.Strip(src), 0, current))
  {
    var bytes := Comments.StripComments(src);
    r := edges;
    var i := 0;
    while i < |bytes|
      invariant 0 <= i <= |bytes|
      invariant Scanned(bytes, current, edges, r, i)
    {
      var headLen := HeadLength(bytes, i);
      if headLen == 0 || (i > 0 && (WordByte(bytes[i - 1]) || bytes[i - 1] == '.')) {
        ScannedByte(bytes, current, edges, r, i);
        i := i + 1;
      } else {
        r, i := ScanPath(bytes, i, current, edges, r);
      }
    }
    ScannedAll(bytes, current, edges, r);
  }

  lemma {:induction false} SplitAtLastDot(s: ByteString)
    requires '.' in s
    ensures exists leaf :: '.' !in leaf && s == Dotted(BeforeLastDot(s), leaf)
  {
    if s[|s| - 1] == '.' {
      var leaf: ByteString := [];
      assert '.' !in leaf && s == Dotted(s[..|s| - 1], leaf);
    } else {
      SplitAtLastDot(s[..|s| - 1]);
      var leaf :| '.' !in leaf && s[..|s| - 1] == Dotted(BeforeLastDot(s[..|s| - 1]), leaf);
      assert s == Dotted(BeforeLastDot(s), leaf + [s[|s| - 1]]);
    }
  }

  lemma {:induction false} DottedTail(m: ByteString, leaf: ByteString, h: nat)
    requires h <= |Dotted(m, leaf)| && '.' !in leaf && Dots(Dotted(m, leaf)[h..]) >= 1
    ensures h <= |m|
  {
    var w := Dotted(m, leaf);
    forall k | |m| < k < |w| ensures w[k] != '.' {
      assert w[k] == leaf[k - |m| - 1];
    }
    assert w[|m|] == '.';
    TailDots(w, h, |m|);
  }

  lemma {:induction false} DottedIsPath(m: ByteString, leaf: ByteString)
    requires forall k :: 0 <= k < |Dotted(m, leaf)| ==> PathByte(Dotted(m, leaf)[k])
    ensures NoSpace(m) && NoSpace(leaf)
  {
    var w := Dotted(m, leaf);
    forall k | 0 <= k < |m| ensures PathByte(m[k]) {
      assert m[k] == w[k];
    }
    forall k | 0 <= k < |leaf| ensures PathByte(leaf[k]) {
      assert leaf[k] == w[|m| + 1 + k];
    }
  }

  lemma {:induction false} RootedName(m: ByteString, leaf: ByteString, h: nat, current: ByteString)
    requires forall k :: 0 <= k < |Dotted(m, leaf)| ==> PathByte(Dotted(m, leaf)[k])
    requires '.' !in leaf && h <= |Dotted(m, leaf)| && Dots(Dotted(m, leaf)[h..]) >= 1
    requires Dotted(m, leaf)[..h] == "super." || Dotted(m, leaf)[..h] == "core."
    ensures ResolvePath(Dotted(m, leaf), current) == Dotted(ResolvePath(m, current), leaf)
  {
    DottedTail(m, leaf, h);
    DottedIsPath(m, leaf);
    assert m[..h] == Dotted(m, leaf)[..h];
    ResolveAppendsRooted(m, leaf, current);
  }

  /** The module edge written beside a call is the call without its last segment, resolved
      in the same way: walking from the module of a call finds the module's own edges. */
  lemma {:induction false} CallNamesItsModule(s: ByteString, i: nat, current: ByteString)
    requires i <= |s| && CallAt(s, i)
    ensures Names(ResolvePath(Whole(s, i), current), ResolvePath(BeforeLastDot(Whole(s, i)), current))
  {
    HeadBytes(s, i);
    var h, j := HeadLength(s, i), RunEnd(s, i + HeadLength(s, i));
    var w := Whole(s, i);
    assert w[..h] == s[i..][..h];
    assert w[h..] == s[i + h..j];
    assert w[h - 1] in w;
    SplitAtLastDot(w);
    var leaf :| '.' !in leaf && w == Dotted(BeforeLastDot(w), leaf);
    RootedName(BeforeLastDot(w), leaf, h, current);
  }

  /** With two dots after the root, the last dot is not the dot of the root. */
  lemma {:induction false} TailDots(w: ByteString, h: nat, d: nat)
    requires h <= |w| && d < |w| && w[d] == '.' && forall k :: d < k < |w| ==> w[k] != '.'
    requires Dots(w[h..]) >= 1
    ensures h <= d
  {
    if d < h {
      NoDots(w[h..]);
    }
  }

  lemma {:induction false} NoDots(s: ByteString)
    requires forall k :: 0 <= k < |s| ==> s[k] != '.'
    ensures Dots(s) == 0
  {
    if s != [] {
      NoDots(s[1..]);
    }
  }

  /** The name is the module, a dot and one more segment. */
  ghost predicate Names(name: ByteString, mod: ByteString) {
    exists leaf :: '.' !in leaf && name == Dotted(mod, leaf)
  }

  ghost predicate AllName(names: seq<ByteString>, mods: seq<ByteString>) {
    |names| == |mods| && forall k :: 0 <= k < |names| ==> Names(names[k], mods[k])
  }

  lemma {:induction false} OneMoreNames(name: ByteString, mod: ByteString, names: seq<ByteString>,
                                        mods: seq<ByteString>)
    requires Names(name, mod) && AllName(names, mods)
    ensures AllName([name] + names, [mod] + mods)
  {
  }

  lemma {:induction false} FirstCall(s: ByteString, i: nat, current: ByteString)
    requires i < |s|
    ensures !CallAt(s, i) ==> CallsFrom(s, i, current) == CallsFrom(s, i + 1, current)
                              && ModulesFrom(s, i, current) == ModulesFrom(s, i + 1, current)
    ensures CallAt(s, i) ==>
      && CallsFrom(s, i, current) == [ResolvePath(Whole(s, i), current)] + CallsFrom(s, i + 1, current)
      && ModulesFrom(s, i, current) ==
           [ResolvePath(BeforeLastDot(Whole(s, i)), current)] + ModulesFrom(s, i + 1, current)
  {
  }

  /** Every call edge is the path edge pushed beside it, a dot and a segment without dots. */
  lemma {:induction false} CallsNameTheirModules(s: ByteString, i: nat, current: ByteString)
    requires i <= |s|
    ensures AllName(CallsFrom(s, i, current), ModulesFrom(s, i, current))
    decreases |s| - i
  {
    if i < |s| {
      CallsNameTheirModules(s, i + 1, current);
      FirstCall(s, i, current);
      if CallAt(s, i) {
        CallNamesItsModule(s, i, current);
        OneMoreNames(ResolvePath(Whole(s, i), current), ResolvePath(BeforeLastDot(Whole(s, i)), current),
                     CallsFrom(s, i + 1, current), ModulesFrom(s, i + 1, current));
      }
    }
  }

  // ---------------------------------------------------------------- what a call looks like

  ghost predicate IsPathText(p: ByteString) {
    forall c :: c in p ==> 'a' <= c <= 'z' || 'A' <= c <= 'Z' || '0' <= c <= '9' || c in "_."
  }

  ghost predicate TwoDots(p: ByteString) {
    exists a: ByteString, b: ByteString, c: ByteString :: p == a + ("." + (b + ("." + c)))
  }

  /** A root, a path with two dots in it, and a parenthesis. */
  ghost predicate CallText(text: ByteString, head: ByteString, path: ByteString, rest: ByteString) {
    && text == head + (path + ("(" + rest)) && head in {"super.", "core."}
    && IsPathText(path) && TwoDots(path)
  }

  lemma {:induction false} FirstDot(s: ByteString) returns (a: ByteString, rest: ByteString)
    requires Dots(s) > 0
    ensures s == a + ("." + rest) && Dots(rest) == Dots(s) - 1
  {
    if s[0] == '.' {
      a, rest := [], s[1..];
    } else {
      a, rest := FirstDot(s[1..]);
      a := [s[0]] + a;
    }
  }

  lemma {:induction false} DotsThere(a: ByteString, rest: ByteString)
    ensures Dots(a + ("." + rest)) == Dots(a) + 1 + Dots(rest)
  {
    var s := a + ("." + rest);
    if a == [] {
      assert s[0] == '.' && s[1..] == rest;
    } else {
      assert s[0] == a[0] && s[1..] == a[1..] + ("." + rest);
      DotsThere(a[1..], rest);
    }
  }

  lemma {:induction false} TwoDotsIff(p: ByteString)
    ensures Dots(p) >= 2 <==> TwoDots(p)
  {
    if Dots(p) >= 2 {
      var a, more := FirstDot(p);
      var b, c := FirstDot(more);
    }
    if TwoDots(p) {
      var a: ByteString, b: ByteString, c: ByteString :| p == a + ("." + (b + ("." + c)));
      DotsThere(a, b + ("." + c));
      DotsThere(b, c);
    }
  }

  lemma {:induction false} PathTextRuns(s: ByteString, j: nat, path: ByteString)
    requires IsPathText(path) && j + |path| < |s| && s[j..j + |path|] == path && s[j + |path|] == '('
    ensures RunEnd(s, j) == j + |path|
  {
    forall k | j <= k < j + |path| ensures PathByte(s[k]) {
      assert s[k] == path[k - j] && path[k - j] in path;
    }
    RunEndWithin(s, j, j + |path|);
  }

  lemma {:induction false} HeadIs(s: ByteString, i: nat, head: ByteString, rest: ByteString)
    requires i <= |s| && s[i..] == head + rest && head in {"super.", "core."}
    ensures HeadLength(s, i) == |head|
  {
    assert s[i..][..|head|] == head;
    assert s[i..][0] == head[0];
    if head == "core." {
      assert |s[i..]| >= 6 ==> s[i..][..6][0] == 'c';
    }
  }

  /** Reading a root with a path and a parenthesis after it. */
  lemma {:induction false} ReadsCall(s: ByteString, i: nat, head: ByteString, path: ByteString, rest: ByteString)
    requires i <= |s| && s[i..] == head + (path + ("(" + rest)) && head in {"super.", "core."} && IsPathText(path)
    ensures var j := i + |head|;
      && HeadLength(s, i) == |head| && j + |path| < |s| && RunEnd(s, j) == j + |path|
      && s[j..j + |path|] == path && s[j + |path|] == '(' && Whole(s, i) == head + path
  {
    var j, e := i + |head|, i + |head| + |path|;
    HeadIs(s, i, head, path + ("(" + rest));
    hide HeadLength;
    PiecesAt(s, i, head, path, "(" + rest);
    PathTextRuns(s, j, path);
  }

  /** Exactly where a call starts: at `super.` or `core.`, not right after a letter, a digit, an
      underscore or a dot, with a path of those behind it that holds two dots and runs up to an
      opening parenthesis; and the called name is the root and that path. */
  lemma {:induction false} CallIff(before: ByteString, text: ByteString)
    ensures CallAt(before + text, |before|) <==>
            && (before == [] || !IsPathText([before[|before| - 1]]))
            && exists head, path, rest :: CallText(text, head, path, rest)
    ensures forall head, path, rest :: CallText(text, head, path, rest) ==>
              HeadLength(before + text, |before|) > 0 && Whole(before + text, |before|) == head + path
  {
    var s, i := before + text, |before|;
    assert s[i..] == text;
    BoundaryIff(before, text);
    hide HeadLength, RunEnd, Boundary, Dots, TwoDots, IsPathText, Whole;
    if CallAt(s, i) {
      var path := CallShape(s, i);
    }
    forall head, path, rest | CallText(text, head, path, rest)
      ensures HeadLength(s, i) > 0 && Whole(s, i) == head + path && (CallAt(s, i) <==> Boundary(s, i))
    {
      CallTextIsCall(s, i, head, path, rest);
    }
  }

  lemma {:induction false} CallTextIsCall(s: ByteString, i: nat, head: ByteString, path: ByteString, rest: ByteString)
    requires i <= |s| && CallText(s[i..], head, path, rest)
    ensures HeadLength(s, i) > 0 && Whole(s, i) == head + path && (CallAt(s, i) <==> Boundary(s, i))
  {
    ReadsCall(s, i, head, path, rest);
    TwoDotsIff(path);
  }

  lemma {:induction false} BoundaryIff(before: ByteString, text: ByteString)
    ensures Boundary(before + text, |before|) <==> (before == [] || !IsPathText([before[|before| - 1]]))
  {
    if before != [] {
      assert (before + text)[|before| - 1] == before[|before| - 1];
      assert [before[|before| - 1]][0] in [before[|before| - 1]];
    }
  }

  lemma {:induction false} CallShape(s: ByteString, i: nat) returns (path: ByteString)
    requires i <= |s| && CallAt(s, i)
    ensures exists head, rest :: CallText(s[i..], head, path, rest)
  {
    var j := i + HeadLength(s, i);
    var e := RunEnd(s, j);
    var head: ByteString, rest: ByteString := s[i..j], s[e + 1..];
    path := s[j..e];
    TwoDotsIff(path);
    assert s[i..] == head + (path + ("(" + rest));
    assert head == if HeadLength(s, i) == 6 then "super." else "core.";
    assert IsPathText(path);
    assert CallText(s[i..], head, path, rest);
  }
}
