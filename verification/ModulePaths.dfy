/** Module names: of a source file, and of a possibly relative path in a module. */
module ModulePaths {
  import opened Bytes
  import opened Strings

  /** Each part with a dot before it: what joining appends after the first part. */
  function DotEach(parts: seq<ByteString>): ByteString {
    if parts == [] then [] else ['.'] + parts[0] + DotEach(parts[1..])
  }

  function StripSuffix(s: ByteString, suffix: ByteString): ByteString {
    if |s| >= |suffix| && s[|s| - |suffix|..] == suffix then s[..|s| - |suffix|] else s
  }

  function ForwardSlashes(s: ByteString): ByteString {
    if s == [] then [] else [if s[0] == '\\' then '/' else s[0]] + ForwardSlashes(s[1..])
  }

  function Components(parts: seq<ByteString>): seq<ByteString> {
    if parts == [] then []
    else (if parts[0] == [] then [] else [StripSuffix(parts[0], ".vr")]) + Components(parts[1..])
  }

  /** `file_to_module`: `shell/exec.vr` is `core.shell.exec`, `shell/mod.vr` is `core.shell`. */
  function FileToModule(rel: ByteString): ByteString {
    StripSuffix("core" + DotEach(Components(Split<Byte>(ForwardSlashes(rel), '/'))), ".mod")
  }

  // ---------------------------------------------------------------- resolve_path

  /** ASCII white space. */
  predicate Space(c: Byte) { 9 <= c as int <= 13 || c == ' ' }

  predicate NoSpace(s: ByteString) { forall i :: 0 <= i < |s| ==> !Space(s[i]) }

  function TrimStart(s: ByteString): ByteString {
    if s != [] && Space(s[0]) then TrimStart(s[1..]) else s
  }

  function TrimEnd(s: ByteString): ByteString {
    if s != [] && Space(s[|s| - 1]) then TrimEnd(s[..|s| - 1]) else s
  }

  function TrimStartDots(s: ByteString): ByteString {
    if s != [] && s[0] == '.' then TrimStartDots(s[1..]) else s
  }

  predicate StartsWith(s: ByteString, prefix: ByteString) {
    |s| >= |prefix| && s[..|prefix|] == prefix
  }

  /** The text before the last dot, or all of it: `rsplit_once('.')`. */
  function BeforeLastDot(s: ByteString): ByteString {
    if '.' !in s then s
    else if s[|s| - 1] == '.' then s[..|s| - 1]
    else BeforeLastDot(s[..|s| - 1])
  }

  function Parent(current: ByteString): ByteString {
    var parent := BeforeLastDot(current);
    if parent == [] then "core" else parent
  }

  function ResolveTrimmed(t: ByteString, current: ByteString): ByteString {
    if StartsWith(t, ".") then
      var rest := TrimStartDots(t[1..]);
      if rest == [] then current
      else if current == [] then rest
      else current + "." + rest
    else if StartsWith(t, "super.") then Parent(current) + "." + t[6..]
    else if t == "super" then Parent(current)
    else t
  }

  function ResolvePath(raw: ByteString, current: ByteString): ByteString {
    ResolveTrimmed(TrimEnd(TrimStart(raw)), current)
  }

  function Dotted(prefix: ByteString, leaf: ByteString): ByteString { prefix + "." + leaf }

  lemma {:induction false} TrimNothing(s: ByteString)
    requires NoSpace(s)
    ensures TrimEnd(TrimStart(s)) == s
  {
  }

  lemma {:induction false} LastDotIs(head: ByteString, last: ByteString)
    requires '.' !in last
    ensures BeforeLastDot(Dotted(head, last)) == head
    decreases |last|
  {
    var s := Dotted(head, last);
    assert s[|head|] == '.';
    if last == [] {
      assert s[..|s| - 1] == head;
    } else {
      var n := |last| - 1;
      assert last[n] in last && forall x :: x in last[..n] ==> x in last;
      assert s[..|s| - 1] == Dotted(head, last[..n]);
      LastDotIs(head, last[..n]);
    }
  }

  /** The module above `current`: what `super` stands for. */
  ghost predicate IsAbove(above: ByteString, current: ByteString) {
    || (exists last :: '.' !in last && current == Dotted(above, last) && above != [])
    || ('.' !in current && current != [] && above == current)
    || ((current == [] || exists last :: '.' !in last && current == Dotted([], last)) && above == "core")
  }

  /** `super` is the parent of a module with dots, a module without dots itself, and the crate
      where there is no name left. */
  lemma {:induction false} ParentIsAbove(above: ByteString, current: ByteString)
    requires IsAbove(above, current)
    ensures Parent(current) == above
  {
    if last :| '.' !in last && current == Dotted(above, last) && above != [] {
      LastDotIs(above, last);
    } else if last :| '.' !in last && current == Dotted([], last) {
      LastDotIs([], last);
    }
  }

  /** Every module has one above it. */
  lemma {:induction false} SomeAbove(current: ByteString)
    ensures IsAbove(Parent(current), current)
  {
    if '.' in current {
      var head, last := CutLast(current);
      LastDotIs(head, last);
    }
  }

  lemma {:induction false} CutLast(s: ByteString) returns (head: ByteString, last: ByteString)
    requires '.' in s
    ensures '.' !in last && s == Dotted(head, last)
  {
    var n := |s| - 1;
    if s[n] == '.' {
      head, last := s[..n], [];
    } else {
      assert s == s[..n] + [s[n]];
      var l;
      head, l := CutLast(s[..n]);
      last := l + [s[n]];
    }
  }

  /** `super.rest` is `rest` in the module above, and `super` that module. */
  lemma {:induction false} SuperResolves(rest: ByteString, above: ByteString, current: ByteString)
    requires NoSpace(rest) && IsAbove(above, current)
    ensures ResolvePath("super." + rest, current) == above + "." + rest
    ensures ResolvePath("super", current) == above
  {
    var path := "super." + rest;
    ParentIsAbove(above, current);
    TrimNothing(path);
    TrimNothing("super");
    assert path[..6] == "super." && path[6..] == rest && path[0] == 's';
    assert path[..1] == ['s'] && "super"[..1] == ['s'];
  }

  /** A path that starts with dots, however many, goes on in the current module. */
  lemma {:induction false} DotsResolve(dots: ByteString, rest: ByteString, current: ByteString)
    requires dots != [] && AllDots(dots) && NoSpace(rest) && (rest == [] || rest[0] != '.')
    ensures ResolvePath(dots + rest, current) ==
            if rest == [] then current else if current == [] then rest else current + "." + rest
  {
    var path := dots + rest;
    assert NoSpace(path) && path[0] == '.' && path[..1] == ".";
    assert path[1..] == dots[1..] + rest;
    TrimNothing(path);
    DotsTrimmed(dots[1..], rest);
  }

  lemma {:induction false} DotsTrimmed(dots: ByteString, rest: ByteString)
    requires AllDots(dots) && (rest == [] || rest[0] != '.')
    ensures TrimStartDots(dots + rest) == rest
  {
    if dots == [] {
      assert dots + rest == rest;
    } else {
      assert (dots + rest)[1..] == dots[1..] + rest;
      DotsTrimmed(dots[1..], rest);
    }
  }

  /** Any other path stands for itself. */
  lemma {:induction false} PlainResolves(path: ByteString, current: ByteString)
    requires NoSpace(path) && path != "super"
    requires !(|path| >= 6 && path[..6] == "super.") && (path == [] || path[0] != '.')
    ensures ResolvePath(path, current) == path
  {
    TrimNothing(path);
    assert path != [] ==> path[..1] == [path[0]];
  }

  /** White space around a path does not matter. */
  lemma {:induction false} BlanksDoNotMatter(a: ByteString, path: ByteString, b: ByteString, current: ByteString)
    requires NoSpace(path) && path != []
    requires (forall i :: 0 <= i < |a| ==> Space(a[i])) && forall i :: 0 <= i < |b| ==> Space(b[i])
    ensures ResolvePath(a + path + b, current) == ResolvePath(path, current)
  {
    TrimsStart(a, path + b);
    assert a + path + b == a + (path + b);
    TrimsEnd(path, b);
    TrimNothing(path);
  }

  lemma {:induction false} TrimsStart(a: ByteString, s: ByteString)
    requires (forall i :: 0 <= i < |a| ==> Space(a[i])) && s != [] && !Space(s[0])
    ensures TrimStart(a + s) == s
  {
    if a == [] {
      assert a + s == s;
    } else {
      assert (a + s)[1..] == a[1..] + s;
      TrimsStart(a[1..], s);
    }
  }

  lemma {:induction false} TrimsEnd(s: ByteString, b: ByteString)
    requires (forall i :: 0 <= i < |b| ==> Space(b[i])) && s != [] && !Space(s[|s| - 1])
    ensures TrimEnd(s + b) == s
    decreases |b|
  {
    if b == [] {
      assert s + b == s;
    } else {
      var n := |b| - 1;
      assert (s + b)[..|s + b| - 1] == s + b[..n];
      TrimsEnd(s, b[..n]);
    }
  }

  predicate AllDots(s: ByteString) { forall i :: 0 <= i < |s| ==> s[i] == '.' }

  lemma {:induction false} TrimDotsOfDotted(s: ByteString, leaf: ByteString)
    requires leaf != [] && leaf[0] != '.'
    ensures TrimStartDots(Dotted(s, leaf)) == if AllDots(s) then leaf else Dotted(TrimStartDots(s), leaf)
    ensures TrimStartDots(s) == [] <==> AllDots(s)
  {
    var d := Dotted(s, leaf);
    if s == [] {
      assert d[1..] == leaf;
    } else if s[0] == '.' {
      assert d[1..] == Dotted(s[1..], leaf);
      assert s == [s[0]] + s[1..];
      TrimDotsOfDotted(s[1..], leaf);
    } else {
      assert d[0] == s[0];
    }
  }

  lemma {:induction false} StartsWithOfDotted(s: ByteString, leaf: ByteString)
    requires s != []
    ensures StartsWith(Dotted(s, leaf), ".") <==> StartsWith(s, ".")
    ensures StartsWith(Dotted(s, leaf), "super.") <==> StartsWith(s, "super.") || s == "super"
  {
    var d := Dotted(s, leaf);
    assert d[0] == s[0];
    assert StartsWith(s, ".") <==> s[0] == '.';
    assert StartsWith(d, ".") <==> d[0] == '.';
    if |s| >= 6 {
      assert d[..6] == s[..6];
    } else {
      assert d[|s|] == '.' && d[..|s|] == s;
      if StartsWith(d, "super.") {
        assert d[..6] == "super.";
        assert d[..6][|s|] == '.';
        assert s == "super."[..|s|];
      }
      if s == "super" {
        assert d[..6] == "super.";
      }
    }
  }

  lemma {:induction false} ResolveDots(raw: ByteString, leaf: ByteString, current: ByteString)
    requires NoSpace(raw) && NoSpace(leaf) && leaf != [] && '.' !in leaf
    requires StartsWith(raw, ".")
    ensures ResolvePath(Dotted(raw, leaf), current) == Dotted(ResolvePath(raw, current), leaf) <==>
      (AllDots(raw) ==> current != [])
  {
    StartsWithOfDotted(raw, leaf);
    assert leaf[0] in leaf;
    var rest := raw[1..];
    assert Dotted(raw, leaf)[1..] == Dotted(rest, leaf);
    assert raw == ['.'] + rest;
    TrimDotsOfDotted(rest, leaf);
    assert AllDots(raw) <==> AllDots(rest);
    ResolveRelative(raw, current);
    ResolveRelative(Dotted(raw, leaf), current);
    hide ResolvePath, TrimStartDots;
    RelativeAppends(TrimStartDots(rest), leaf, current);
  }

  /** A path that starts with a dot, by what is left without its dots. */
  function Relative(rest: ByteString, current: ByteString): ByteString {
    if rest == [] then current else if current == [] then rest else current + "." + rest
  }

  lemma {:induction false} ResolveRelative(raw: ByteString, current: ByteString)
    requires NoSpace(raw) && StartsWith(raw, ".")
    ensures ResolvePath(raw, current) == Relative(TrimStartDots(raw[1..]), current)
  {
    TrimNothing(raw);
  }

  lemma {:induction false} RelativeAppends(rest: ByteString, leaf: ByteString, current: ByteString)
    requires leaf != []
    ensures Relative(if rest == [] then leaf else Dotted(rest, leaf), current) == Dotted(Relative(rest, current), leaf)
       <==> (rest == [] ==> current != [])
  {
    if rest == [] && current == [] {
      assert |Dotted(Relative(rest, current), leaf)| == 1 + |leaf|;
    } else if rest != [] {
      assert current + "." + Dotted(rest, leaf) == Dotted(current + "." + rest, leaf);
    }
  }

  /** Exactly when resolving commutes with appending a segment: unless the path is empty, or
      is nothing but dots in a module without a name. */
  lemma {:induction false} ResolveAppends(raw: ByteString, leaf: ByteString, current: ByteString)
    requires NoSpace(raw) && NoSpace(leaf) && leaf != [] && '.' !in leaf
    ensures ResolvePath(Dotted(raw, leaf), current) == Dotted(ResolvePath(raw, current), leaf) <==>
      raw != [] && (AllDots(raw) ==> current != [])
  {
    if raw == [] {
      TrimNothing(raw);
      TrimNothing(Dotted(raw, leaf));
      assert leaf[0] in leaf;
      assert Dotted(raw, leaf)[1..] == leaf;
      TrimDotsOfDotted([], leaf);
      var resolved := ResolvePath(Dotted(raw, leaf), current);
      assert |Dotted(ResolvePath(raw, current), leaf)| == 1 + |leaf|;
      assert current != [] ==> |resolved| == |current| + 1 + |leaf|;
    } else if StartsWith(raw, ".") {
      ResolveDots(raw, leaf, current);
    } else {
      assert raw[..1] == [raw[0]];
      ResolvePlain(raw, leaf, current);
    }
  }

  lemma {:induction false} ResolvePlain(raw: ByteString, leaf: ByteString, current: ByteString)
    requires NoSpace(raw) && NoSpace(leaf) && raw != [] && !StartsWith(raw, ".")
    ensures ResolvePath(Dotted(raw, leaf), current) == Dotted(ResolvePath(raw, current), leaf)
  {
    TrimNothing(raw);
    TrimNothing(Dotted(raw, leaf));
    ResolveTrimmedPlain(raw, leaf, current);
  }

  lemma {:induction false} ResolveTrimmedPlain(t: ByteString, leaf: ByteString, current: ByteString)
    requires t != [] && !StartsWith(t, ".")
    ensures ResolveTrimmed(Dotted(t, leaf), current) == Dotted(ResolveTrimmed(t, current), leaf)
  {
    StartsWithOfDotted(t, leaf);
    if t == "super" {
      assert Dotted(t, leaf)[6..] == leaf;
    } else if StartsWith(t, "super.") {
      assert Dotted(t, leaf)[6..] == Dotted(t[6..], leaf);
      assert Parent(current) + "." + Dotted(t[6..], leaf) == Dotted(Parent(current) + "." + t[6..], leaf);
    } else {
      assert Dotted(t, leaf)[|t|] == '.';
    }
  }

  /** For a path rooted at `super.` or `core.` the appended segment may even be empty. */
  lemma {:induction false} ResolveAppendsRooted(raw: ByteString, leaf: ByteString, current: ByteString)
    requires NoSpace(raw) && NoSpace(leaf)
    requires StartsWith(raw, "super.") || StartsWith(raw, "core.")
    ensures ResolvePath(Dotted(raw, leaf), current) == Dotted(ResolvePath(raw, current), leaf)
  {
    assert raw[0] != '.' by {
      assert raw[0] == if StartsWith(raw, "super.") then raw[..6][0] else raw[..5][0];
    }
    ResolvePlain(raw, leaf, current);
  }

  /** The white space by its characters. */
  lemma {:induction false} SpacesAre(c: Byte)
    ensures Space(c) <==> c as int in {0x09, 0x0a, 0x0b, 0x0c, 0x0d, 0x20}
  {
  }
}
