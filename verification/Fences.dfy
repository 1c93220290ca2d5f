/** The fence checker of the documentation: which pages have every block and every admonition
    closed. */
module Fences {
  import opened Bytes
  import opened Sequences
  import opened Strings

  /** What the checker sees of a line: a run of fence characters with or without an info string,
      an admonition marker, or text. */
  datatype Line = Fence(ch: char, len: nat, info: bool) | AdmOpen | AdmClose | Plain

  function Leading(s: string, c: char): (n: nat)
    ensures n <= |s|
  {
    if s != [] && s[0] == c then 1 + Leading(s[1..], c) else 0
  }

  /** `FENCE`, `ADM_OPEN` and `ADM_CLOSE`, tried in that order. */
  function Classify(line: string): Line {
    var body := line[Leading(line, ' ')..];
    if Leading(line, ' ') <= 3 && body != [] && body[0] in "`~" && Leading(body, body[0]) >= 3 then
      Fence(body[0], Leading(body, body[0]), !Blank(body[Leading(body, body[0])..]))
    else if |line| > 3 && line[..3] == ":::" && 'a' <= line[3] <= 'z' then AdmOpen
    else if |line| >= 3 && line[..3] == ":::" && Blank(line[3..]) then AdmClose
    else Plain
  }

  function Repeat(c: char, n: nat): string { seq(n, _ => c) }

  lemma {:induction false} LeadingIs(s: string, c: char, n: nat)
    requires n <= |s| && s[..n] == Repeat(c, n) && (n == |s| || s[n] != c)
    ensures Leading(s, c) == n
  {
    if n > 0 {
      assert s[0] == s[..n][0] == c;
      assert s[1..][..n - 1] == s[..n][1..] == Repeat(c, n - 1);
      LeadingIs(s[1..], c, n - 1);
    }
  }

  lemma {:induction false} LeadingSplits(s: string, c: char)
    ensures var n := Leading(s, c); s == Repeat(c, n) + s[n..] && (s[n..] == [] || s[n..][0] != c)
  {
    if s != [] && s[0] == c {
      LeadingSplits(s[1..], c);
      var n := Leading(s, c);
      assert s[n..] == s[1..][n - 1..];
      assert Repeat(c, n) == [c] + Repeat(c, n - 1);
      hide Repeat, Leading;
      Regroup([c], Repeat(c, n - 1), s[n..]);
      assert s == [c] + s[1..];
    }
  }

  /** The lines a fence of `len` characters `ch` is written as. */
  ghost predicate WritesFence(line: string, indent: nat, ch: char, len: nat, rest: string) {
    && line == Repeat(' ', indent) + Repeat(ch, len) + rest
    && indent <= 3 && len >= 3 && ch in "`~" && (rest == [] || rest[0] != ch)
  }

  /** A fence line is at most three spaces, a whole run of three or more, and a rest that is the
      info string unless it is blank; and nothing else is one. */
  lemma {:induction false} FenceLines(line: string, ch: char, len: nat, info: bool)
    ensures Classify(line) == Fence(ch, len, info) <==>
            exists indent: nat, rest: string :: WritesFence(line, indent, ch, len, rest) && info == !Blank(rest)
  {
    if Classify(line) == Fence(ch, len, info) {
      FenceParts(line);
      var indent := Leading(line, ' ');
      assert WritesFence(line, indent, ch, len, line[indent..][len..]);
    }
    if indent: nat, rest: string :| WritesFence(line, indent, ch, len, rest) && info == !Blank(rest) {
      FenceReads(line, indent, ch, len, rest);
    }
  }

  lemma {:induction false} FenceParts(line: string)
    requires Classify(line).Fence?
    ensures var l, indent := Classify(line), Leading(line, ' ');
      l.len <= |line[indent..]| && WritesFence(line, indent, l.ch, l.len, line[indent..][l.len..])
  {
    LeadingSplits(line, ' ');
    LeadingSplits(line[Leading(line, ' ')..], Classify(line).ch);
  }

  lemma {:induction false} FenceReads(line: string, indent: nat, ch: char, len: nat, rest: string)
    requires WritesFence(line, indent, ch, len, rest)
    ensures Classify(line) == Fence(ch, len, !Blank(rest))
  {
    var body := Repeat(ch, len) + rest;
    assert line == Repeat(' ', indent) + body;
    assert body[0] == ch;
    LeadingIs(line, ' ', indent);
    LeadingIs(body, ch, len);
    assert line[indent..] == body && body[len..] == rest;
  }

  /** An admonition opener is three colons and a lower-case letter, a closer three colons and at
      most white space, both at the start of the line; and nothing else is one. */
  lemma {:induction false} AdmonitionLines(line: string)
    ensures Classify(line) == AdmOpen <==> |line| > 3 && line[..3] == ":::" && 'a' <= line[3] <= 'z'
    ensures Classify(line) == AdmClose <==> |line| >= 3 && line[..3] == ":::" && Blank(line[3..])
  {
    if |line| >= 3 && line[..3] == ":::" {
      assert line[0] == line[..3][0] == ':';
      assert Leading(line, ' ') == 0 && line[0..] == line;
      if |line| > 3 && 'a' <= line[3] <= 'z' {
        assert line[3..][0] == line[3];
      }
    }
  }

  // ---------------------------------------------------------------- the walk

  datatype Opener = Opener(ch: char, len: nat, line: nat)

  datatype Defect =
    | FenceInFence(line: nat, since: nat)
    | UnclosedFence(line: nat, ch: char, len: nat)
    | UnclosedAdmonition(line: nat)

  /** The run matches the opener's character, is at least as long, and has no info string. */
  predicate Closes(l: Line, ch: char, len: nat) { l.Fence? && l.ch == ch && l.len >= len && !l.info }

  /** A block that is started inside a block of the same fence. */
  predicate Restarts(l: Line, ch: char, len: nat) { l.Fence? && l.ch == ch && l.len == len && l.info }

  /** The defects of the lines from number `n` on, inside the given fence and admonition. */
  function DefectsFrom(ls: seq<Line>, n: nat, fence: Option<Opener>, adm: Option<nat>): seq<Defect>
    decreases |ls|
  {
    if ls == [] then Unclosed(fence, adm)
    else
      Found(ls[0], n, fence)
      + DefectsFrom(ls[1..], n + 1, NextFence(ls[0], n, fence),
                    if fence.None? then Admonition(ls[0], n, adm) else adm)
  }

  function Unclosed(fence: Option<Opener>, adm: Option<nat>): seq<Defect> {
    (if fence.Some? then [UnclosedFence(fence.value.line, fence.value.ch, fence.value.len)] else [])
    + (if adm.Some? then [UnclosedAdmonition(adm.value)] else [])
  }

  function Found(l: Line, n: nat, fence: Option<Opener>): seq<Defect> {
    match fence
    case Some(f) => if Restarts(l, f.ch, f.len) then [FenceInFence(n, f.line)] else []
    case None => []
  }

  function NextFence(l: Line, n: nat, fence: Option<Opener>): Option<Opener> {
    match fence
    case Some(f) => if Closes(l, f.ch, f.len) then None else fence
    case None => if l.Fence? then Some(Opener(l.ch, l.len, n)) else None
  }

  function Admonition(l: Line, n: nat, adm: Option<nat>): Option<nat> {
    match l
    case AdmOpen => if adm.None? then Some(n) else adm
    case AdmClose => None
    case _ => adm
  }

  function Lines(text: string): (ls: seq<Line>) {
    ClassifyAll(Split(text, '\n'))
  }

  function ClassifyAll(lines: seq<string>): (ls: seq<Line>)
    ensures |ls| == |lines| && forall i :: 0 <= i < |ls| ==> ls[i] == Classify(lines[i])
  {
    if lines == [] then [] else [Classify(lines[0])] + ClassifyAll(lines[1..])
  }

  lemma {:induction false} OneLine(ls: seq<Line>, i: nat, fence: Option<Opener>, adm: Option<nat>, out: seq<Defect>,
                fence': Option<Opener>, adm': Option<nat>, out': seq<Defect>)
    requires i < |ls|
    requires out' == out + Found(ls[i], i + 1, fence) && fence' == NextFence(ls[i], i + 1, fence)
    requires adm' == if fence.None? then Admonition(ls[i], i + 1, adm) else adm
    ensures out' + DefectsFrom(ls[i + 1..], i + 2, fence', adm') == out + DefectsFrom(ls[i..], i + 1, fence, adm)
  {
    assert ls[i..][0] == ls[i] && ls[i..][1..] == ls[i + 1..];
  }

  lemma {:induction false} AtEnd(ls: seq<Line>, fence: Option<Opener>, adm: Option<nat>, out: seq<Defect>)
    ensures out + DefectsFrom(ls[|ls|..], |ls| + 1, fence, adm)
         == (if fence.Some? then out + [UnclosedFence(fence.value.line, fence.value.ch, fence.value.len)] else out)
            + (if adm.Some? then [UnclosedAdmonition(adm.value)] else [])
  {
    assert ls[|ls|..] == [];
  }

  /** `defects`: the fence and admonition state machine over the lines of a page. */
  method Defects(text: string) returns (out: seq<Defect>)
    ensures out == DefectsFrom(Lines(text), 1, None, None)
  {
    var fence: Option<Opener> := None;
    var adm: Option<nat> := None;
    out := [];
    var lines := Split(text, '\n');
    ghost var ls := Lines(text);
    ghost var whole := DefectsFrom(ls, 1, None, None);
    assert ls[0..] == ls;
    for i := 0 to |lines|
      invariant out + DefectsFrom(ls[i..], i + 1, fence, adm) == whole
    {
      var n := i + 1;
      var l := Classify(lines[i]);
      ghost var fence0, adm0, out0 := fence, adm, out;
      if l.Fence? {
        if fence.None? {
          fence := Some(Opener(l.ch, l.len, n));
        } else if l.ch == fence.value.ch && l.len >= fence.value.len && !l.info {
          fence := None;
        } else if l.ch == fence.value.ch && l.len == fence.value.len && l.info {
          out := out + [FenceInFence(n, fence.value.line)];
        }
      } else if fence.None? {
        if l.AdmOpen? {
          if adm.None? {
            adm := Some(n);
          }
        } else if l.AdmClose? {
          adm := None;
        }
      }
      assert out == out0 + Found(l, n, fence0);
      OneLine(ls, i, fence0, adm0, out0, fence, adm, out);
    }
    AtEnd(ls, fence, adm, out);
    if fence.Some? {
      out := out + [UnclosedFence(fence.value.line, fence.value.ch, fence.value.len)];
    }
    if adm.Some? {
      out := out + [UnclosedAdmonition(adm.value)];
    }
  }

  // ---------------------------------------------------------------- well-formed pages

  /** A page: lines outside fences, and blocks of an opener, its content and its closer. */
  datatype Page =
    | End
    | Outside(line: Line, rest: Page)
    | Block(ch: char, len: nat, info: bool, content: seq<Line>, close: Line, rest: Page)

  function Print(p: Page): seq<Line> {
    match p
    case End => []
    case Outside(l, rest) => [l] + Print(rest)
    case Block(ch, len, info, content, close, rest) => [Fence(ch, len, info)] + content + [close] + Print(rest)
  }

  /** Every block is closed by a run that matches its opener, and before that holds no line that
      would close it and none that starts a block at its own length. */
  ghost predicate Paired(p: Page) {
    match p
    case End => true
    case Outside(l, rest) => !l.Fence? && Paired(rest)
    case Block(ch, len, _, content, close, rest) => Content(content, ch, len) && Closes(close, ch, len) && Paired(rest)
  }

  ghost predicate Content(content: seq<Line>, ch: char, len: nat) {
    forall l :: l in content ==> !Closes(l, ch, len) && !Restarts(l, ch, len)
  }

  function OutsideLines(p: Page): seq<Line> {
    match p
    case End => []
    case Outside(l, rest) => [l] + OutsideLines(rest)
    case Block(_, _, _, _, _, rest) => OutsideLines(rest)
  }

  ghost predicate ClosedLater(ls: seq<Line>, j: int) {
    exists k :: 0 <= k < |ls| && j < k && ls[k].AdmClose?
  }

  /** No admonition opener, nor one that is still open, comes after the last closer. */
  ghost predicate AdmonitionsClosed(ls: seq<Line>, pending: bool) {
    && (pending ==> ClosedLater(ls, -1))
    && forall j :: 0 <= j < |ls| && ls[j].AdmOpen? ==> ClosedLater(ls, j)
  }

  lemma {:induction false} LaterTail(l: Line, ls: seq<Line>, j: int)
    requires j >= -1
    ensures ClosedLater([l] + ls, j + 1) <==> ClosedLater(ls, j)
  {
    var all := [l] + ls;
    if k :| 0 <= k < |ls| && j < k && ls[k].AdmClose? {
      assert all[k + 1].AdmClose?;
    }
    if k :| 0 <= k < |all| && j + 1 < k && all[k].AdmClose? {
      assert ls[k - 1].AdmClose?;
    }
  }

  lemma {:induction false} AdmonitionStep(l: Line, n: nat, adm: Option<nat>, ls: seq<Line>)
    ensures AdmonitionsClosed([l] + ls, adm.Some?) <==> AdmonitionsClosed(ls, Admonition(l, n, adm).Some?)
  {
    var all := [l] + ls;
    forall j | -1 <= j ensures ClosedLater(all, j + 1) <==> ClosedLater(ls, j) {
      LaterTail(l, ls, j);
    }
    LaterTail(l, ls, -1);
    assert all[0] == l;
    assert ClosedLater(all, -1) <==> l.AdmClose? || ClosedLater(all, 0);
    assert forall j :: 0 <= j < |ls| ==> all[j + 1] == ls[j];
    assert (forall j :: 0 <= j < |ls| && ls[j].AdmOpen? ==> ClosedLater(ls, j))
      <==> (forall j :: 1 <= j < |all| && all[j].AdmOpen? ==> ClosedLater(all, j - 1 + 1));
  }

  // ---------------------------------------------------------------- no defect: a well-formed page

  lemma {:induction false} InsideBlock(content: seq<Line>, close: Line, rest: seq<Line>, n: nat, f: Opener,
                                       adm: Option<nat>)
    requires Content(content, f.ch, f.len) && Closes(close, f.ch, f.len)
    ensures DefectsFrom(content + [close] + rest, n, Some(f), adm) == DefectsFrom(rest, n + |content| + 1, None, adm)
    decreases |content|
  {
    var all := content + [close] + rest;
    if content == [] {
      assert all[1..] == rest;
    } else {
      assert all[0] == content[0] && content[0] in content;
      assert all[1..] == content[1..] + [close] + rest;
      InsideBlock(content[1..], close, rest, n + 1, f, adm);
    }
  }

  lemma {:induction false} PageHasNoDefect(p: Page, n: nat, adm: Option<nat>)
    requires Paired(p) && AdmonitionsClosed(OutsideLines(p), adm.Some?)
    ensures DefectsFrom(Print(p), n, None, adm) == []
    decreases p
  {
    match p
    case End =>
    case Outside(l, rest) =>
      AdmonitionStep(l, n, adm, OutsideLines(rest));
      PageHasNoDefect(rest, n + 1, Admonition(l, n, adm));
      assert Print(p)[1..] == Print(rest);
    case Block(ch, len, info, content, close, rest) =>
      BlockFirst(p, n, adm);
      InsideBlock(content, close, Print(rest), n + 1, Opener(ch, len, n), adm);
      PageHasNoDefect(rest, n + 1 + |content| + 1, adm);
  }

  lemma {:induction false} BlockFirst(p: Page, n: nat, adm: Option<nat>)
    requires p.Block?
    ensures DefectsFrom(Print(p), n, None, adm)
         == DefectsFrom(p.content + [p.close] + Print(p.rest), n + 1, Some(Opener(p.ch, p.len, n)), adm)
  {
    assert Print(p)[0] == Fence(p.ch, p.len, p.info);
    assert Print(p)[1..] == p.content + [p.close] + Print(p.rest);
  }

  lemma {:induction false} InsideStep(ls: seq<Line>, n: nat, f: Opener, adm: Option<nat>)
    requires DefectsFrom(ls, n, Some(f), adm) == []
    ensures ls != [] && !Restarts(ls[0], f.ch, f.len)
    ensures DefectsFrom(ls[1..], n + 1, if Closes(ls[0], f.ch, f.len) then None else Some(f), adm) == []
  {
  }

  lemma {:induction false} ContentGrows(ls: seq<Line>, j: nat, ch: char, len: nat)
    requires j < |ls| - 1 && Content(ls[1..][..j], ch, len)
    requires !Closes(ls[0], ch, len) && !Restarts(ls[0], ch, len)
    ensures Content(ls[..j + 1], ch, len) && ls[j + 2..] == ls[1..][j + 1..]
  {
    assert ls[..j + 1] == [ls[0]] + ls[1..][..j];
  }

  /** Inside a block without a defect there is a closer, and all before it is content. */
  lemma {:induction false} FindClose(ls: seq<Line>, n: nat, f: Opener, adm: Option<nat>) returns (k: nat)
    requires DefectsFrom(ls, n, Some(f), adm) == []
    ensures k < |ls| && Content(ls[..k], f.ch, f.len) && Closes(ls[k], f.ch, f.len)
    ensures DefectsFrom(ls[k + 1..], n + k + 1, None, adm) == []
    decreases |ls|
  {
    InsideStep(ls, n, f, adm);
    if Closes(ls[0], f.ch, f.len) {
      k := 0;
    } else {
      var j := FindClose(ls[1..], n + 1, f, adm);
      k := j + 1;
      ContentGrows(ls, j, f.ch, f.len);
    }
  }

  lemma {:induction false} ParsePage(ls: seq<Line>, n: nat, adm: Option<nat>) returns (p: Page)
    requires DefectsFrom(ls, n, None, adm) == []
    ensures Print(p) == ls && Paired(p) && AdmonitionsClosed(OutsideLines(p), adm.Some?)
    decreases |ls|
  {
    if ls == [] {
      p := End;
    } else if ls[0].Fence? {
      var f := Opener(ls[0].ch, ls[0].len, n);
      var k := FindClose(ls[1..], n + 1, f, adm);
      var rest := ParsePage(ls[1..][k + 1..], n + 1 + k + 1, adm);
      p := Block(f.ch, f.len, ls[0].info, ls[1..][..k], ls[1..][k], rest);
      BlockPrints(ls, k, rest);
    } else {
      var rest := ParsePage(ls[1..], n + 1, Admonition(ls[0], n, adm));
      p := Outside(ls[0], rest);
      AdmonitionStep(ls[0], n, adm, OutsideLines(rest));
    }
  }

  lemma {:induction false} BlockPrints(ls: seq<Line>, k: nat, rest: Page)
    requires ls != [] && ls[0].Fence? && k < |ls[1..]| && Print(rest) == ls[1..][k + 1..]
    ensures Print(Block(ls[0].ch, ls[0].len, ls[0].info, ls[1..][..k], ls[1..][k], rest)) == ls
  {
    assert ls[1..] == ls[1..][..k] + [ls[1..][k]] + ls[1..][k + 1..];
  }

  /** A page has no defect exactly when it can be read as text and blocks in which every fence
      opener is closed by a matching run, none is started again inside at its own length, and
      outside the blocks no admonition opener comes after the last closer. */
  lemma {:induction false} NoDefectIff(text: string)
    ensures DefectsFrom(Lines(text), 1, None, None) == [] <==>
            exists p: Page :: Print(p) == Lines(text) && Paired(p) && AdmonitionsClosed(OutsideLines(p), false)
  {
    if DefectsFrom(Lines(text), 1, None, None) == [] {
      var p := ParsePage(Lines(text), 1, None);
    }
    if p: Page :| Print(p) == Lines(text) && Paired(p) && AdmonitionsClosed(OutsideLines(p), false) {
      PageHasNoDefect(p, 1, None);
    }
  }

  /** The reading is unique: a page without defects has one set of blocks. */
  lemma {:induction false} PageIsUnique(p: Page, q: Page)
    requires Paired(p) && Paired(q) && Print(p) == Print(q)
    ensures p == q
    decreases p
  {
    match p
    case End =>
      assert q.End?;
    case Outside(l, rest) =>
      assert q.Outside? by { assert Print(q)[0] == l; }
      assert Print(p)[1..] == Print(rest) && Print(q)[1..] == Print(q.rest);
      PageIsUnique(rest, q.rest);
    case Block(ch, len, info, content, close, rest) =>
      assert Print(p)[0] == Fence(ch, len, info);
      assert q.Block? by { assert Print(q)[0] == Fence(ch, len, info); }
      assert Print(p)[1..] == content + [close] + Print(rest);
      assert Print(q)[1..] == q.content + [q.close] + Print(q.rest);
      SameContent(content, close, Print(rest), q.content, q.close, Print(q.rest), ch, len);
      PageIsUnique(rest, q.rest);
  }

  lemma {:induction false} SameContent(c: seq<Line>, close: Line, rest: seq<Line>, d: seq<Line>, close': Line,
                                       rest': seq<Line>, ch: char, len: nat)
    requires Content(c, ch, len) && Content(d, ch, len) && Closes(close, ch, len) && Closes(close', ch, len)
    requires c + [close] + rest == d + [close'] + rest'
    ensures c == d && close == close' && rest == rest'
  {
    var all := c + [close] + rest;
    assert all[|c|] == close && all[|d|] == close';
    assert forall k :: 0 <= k < |c| ==> all[k] == c[k] && all[k] in c;
    assert forall k :: 0 <= k < |d| ==> all[k] == d[k] && all[k] in d;
    assert |c| == |d|;
    assert all[..|c|] == c && all[..|d|] == d;
    assert all[|c| + 1..] == rest && all[|d| + 1..] == rest';
  }

  /** A fence may hold any shorter runs, and any lines that are no fence: whatever stands in
      it, the page is without defect. */
  lemma {:induction false} ShorterRunsAreContent(ch: char, len: nat, info: bool, content: seq<Line>)
    requires forall l :: l in content && l.Fence? ==> l.ch != ch || l.len < len
    ensures DefectsFrom([Fence(ch, len, info)] + content + [Fence(ch, len, false)], 1, None, None) == []
  {
    var p := Block(ch, len, info, content, Fence(ch, len, false), End);
    PageHasNoDefect(p, 1, None);
    assert Print(p) == [Fence(ch, len, info)] + content + [Fence(ch, len, false)];
  }

  // ---------------------------------------------------------------- which defects, and where

  /** The line at `k` opens a block: a fence line, with every block that opened before it closed
      again. */
  ghost predicate OpensAt(ls: seq<Line>, k: nat)
    requires k < |ls|
    decreases k
  {
    ls[k].Fence? && forall j: nat :: j < k && ls[j].Fence? && OpensAt(ls, j) ==> ClosedBetween(ls, j, k)
  }

  ghost predicate ClosedBetween(ls: seq<Line>, j: nat, k: nat)
    requires j < |ls| && k <= |ls| && ls[j].Fence?
  {
    exists c :: j < c < k && Closes(ls[c], ls[j].ch, ls[j].len)
  }

  /** The block that opens at `j` is still open before line `i`. */
  ghost predicate HoldsAt(ls: seq<Line>, j: nat, i: nat)
    requires i <= |ls|
  {
    j < i && ls[j].Fence? && OpensAt(ls, j) && !ClosedBetween(ls, j, i)
  }

  /** Line `i` is outside every block, and no fence line. */
  ghost predicate OutsideAt(ls: seq<Line>, i: nat)
    requires i < |ls|
  {
    !ls[i].Fence? && forall j: nat :: !HoldsAt(ls, j, i)
  }

  ghost predicate AdmClosedBetween(ls: seq<Line>, a: nat, i: nat)
    requires i <= |ls|
  {
    exists c: nat :: a < c < i && OutsideAt(ls, c) && ls[c].AdmClose?
  }

  /** The admonition that opens at `a` is the one that is open before line `i`: none is closed
      after it, and every one before it was closed. */
  ghost predicate PendingAt(ls: seq<Line>, a: nat, i: nat)
    requires i <= |ls|
  {
    && a < i && OutsideAt(ls, a) && ls[a].AdmOpen? && !AdmClosedBetween(ls, a, i)
    && forall b: nat :: b < a && OutsideAt(ls, b) && ls[b].AdmOpen? ==> AdmClosedBetween(ls, b, a)
  }

  /** The fence that the walk is in before line `i`. */
  function FenceAt(ls: seq<Line>, i: nat): Option<Opener>
    requires i <= |ls|
  {
    if i == 0 then None else NextFence(ls[i - 1], i, FenceAt(ls, i - 1))
  }

  function AdmAt(ls: seq<Line>, i: nat): Option<nat>
    requires i <= |ls|
  {
    if i == 0 then None
    else if FenceAt(ls, i - 1).None? then Admonition(ls[i - 1], i, AdmAt(ls, i - 1)) else AdmAt(ls, i - 1)
  }

  ghost predicate FenceIs(ls: seq<Line>, i: nat, fence: Option<Opener>)
    requires i <= |ls|
  {
    && (fence.None? ==> forall j: nat :: !HoldsAt(ls, j, i))
    && (fence.Some? ==> exists j: nat :: OnlyHolder(ls, j, i) && fence.value == Opener(ls[j].ch, ls[j].len, j + 1))
  }

  ghost predicate OnlyHolder(ls: seq<Line>, j: nat, i: nat)
    requires i <= |ls|
  {
    HoldsAt(ls, j, i) && forall k: nat :: HoldsAt(ls, k, i) ==> k == j
  }

  lemma {:induction false} HoldsNext(ls: seq<Line>, j: nat, i: nat)
    requires i < |ls|
    ensures HoldsAt(ls, j, i + 1) <==>
            || (j < i && HoldsAt(ls, j, i) && !Closes(ls[i], ls[j].ch, ls[j].len))
            || (j == i && ls[i].Fence? && forall k: nat :: !HoldsAt(ls, k, i))
  {
    if j < i && ls[j].Fence? {
      assert ClosedBetween(ls, j, i + 1) <==> ClosedBetween(ls, j, i) || Closes(ls[i], ls[j].ch, ls[j].len);
    }
    if j == i && ls[i].Fence? {
      assert !ClosedBetween(ls, i, i + 1);
      OpensIff(ls, i);
    }
  }

  lemma {:induction false} OpensIff(ls: seq<Line>, i: nat)
    requires i < |ls| && ls[i].Fence?
    ensures OpensAt(ls, i) <==> forall k: nat :: !HoldsAt(ls, k, i)
  {
    if forall k: nat :: !HoldsAt(ls, k, i) {
      forall k: nat | k < i && ls[k].Fence? && OpensAt(ls, k)
        ensures ClosedBetween(ls, k, i)
      {
        assert !HoldsAt(ls, k, i);
      }
    }
  }

  lemma {:induction false} FenceStep(ls: seq<Line>, i: nat, fence: Option<Opener>)
    requires i < |ls| && FenceIs(ls, i, fence)
    ensures FenceIs(ls, i + 1, NextFence(ls[i], i + 1, fence))
  {
    forall j: nat ensures HoldsAt(ls, j, i + 1) <==>
                          || (j < i && HoldsAt(ls, j, i) && !Closes(ls[i], ls[j].ch, ls[j].len))
                          || (j == i && ls[i].Fence? && forall k: nat :: !HoldsAt(ls, k, i))
    {
      HoldsNext(ls, j, i);
    }
    if fence.None? && ls[i].Fence? {
      assert OnlyHolder(ls, i, i + 1);
    }
    if fence.Some? {
      var j: nat :| OnlyHolder(ls, j, i) && fence.value == Opener(ls[j].ch, ls[j].len, j + 1);
      if !Closes(ls[i], ls[j].ch, ls[j].len) {
        assert OnlyHolder(ls, j, i + 1);
      }
    }
  }

  lemma {:induction false} FenceStart(ls: seq<Line>)
    ensures FenceIs(ls, 0, None)
  {
  }

  lemma {:induction false} FenceAtIs(ls: seq<Line>, i: nat)
    requires i <= |ls|
    ensures FenceIs(ls, i, FenceAt(ls, i))
  {
    hide FenceIs, NextFence;
    if i == 0 {
      FenceStart(ls);
    } else {
      FenceAtIs(ls, i - 1);
      FenceStep(ls, i - 1, FenceAt(ls, i - 1));
    }
  }

  ghost predicate AdmIs(ls: seq<Line>, i: nat, adm: Option<nat>)
    requires i <= |ls|
  {
    && (adm.None? ==> forall a: nat :: a < i && OutsideAt(ls, a) && ls[a].AdmOpen? ==> AdmClosedBetween(ls, a, i))
    && (adm.Some? ==> adm.value > 0 && PendingAt(ls, adm.value - 1, i))
  }

  lemma {:induction false} OutsideNow(ls: seq<Line>, i: nat)
    requires i < |ls|
    ensures OutsideAt(ls, i) <==> !ls[i].Fence? && FenceAt(ls, i).None?
  {
    FenceAtIs(ls, i);
  }

  lemma {:induction false} AdmClosedNext(ls: seq<Line>, a: nat, i: nat)
    requires a < i < |ls|
    ensures AdmClosedBetween(ls, a, i + 1) <==> AdmClosedBetween(ls, a, i) || (OutsideAt(ls, i) && ls[i].AdmClose?)
  {
  }

  lemma {:induction false} AdmStep(ls: seq<Line>, i: nat, adm: Option<nat>)
    requires i < |ls| && AdmIs(ls, i, adm)
    ensures AdmIs(ls, i + 1, if FenceAt(ls, i).None? then Admonition(ls[i], i + 1, adm) else adm)
  {
    OutsideNow(ls, i);
    forall a: nat | a < i
      ensures AdmClosedBetween(ls, a, i + 1) <==> AdmClosedBetween(ls, a, i) || (OutsideAt(ls, i) && ls[i].AdmClose?)
    {
      AdmClosedNext(ls, a, i);
    }
    hide FenceAt, OutsideAt, AdmClosedBetween;
    assert !AdmClosedBetween(ls, i, i + 1) by {
      NothingBetween(ls, i);
    }
  }

  lemma {:induction false} NothingBetween(ls: seq<Line>, i: nat)
    requires i < |ls|
    ensures !AdmClosedBetween(ls, i, i + 1)
  {
  }

  lemma {:induction false} AdmAtIs(ls: seq<Line>, i: nat)
    requires i <= |ls|
    ensures AdmIs(ls, i, AdmAt(ls, i))
  {
    if i > 0 {
      AdmAtIs(ls, i - 1);
      AdmStep(ls, i - 1, AdmAt(ls, i - 1));
    }
  }

  /** What the walk finds at the lines from `i` on. */
  function FoundFrom(ls: seq<Line>, i: nat): seq<Defect>
    requires i <= |ls|
    decreases |ls| - i
  {
    if i == |ls| then [] else FoundAt(ls, i) + FoundFrom(ls, i + 1)
  }

  function FoundAt(ls: seq<Line>, i: nat): seq<Defect>
    requires i < |ls|
  {
    Found(ls[i], i + 1, FenceAt(ls, i))
  }

  lemma {:induction false} DefectsByLine(ls: seq<Line>, i: nat)
    requires i <= |ls|
    ensures DefectsFrom(ls[i..], i + 1, FenceAt(ls, i), AdmAt(ls, i))
         == FoundFrom(ls, i) + Unclosed(FenceAt(ls, |ls|), AdmAt(ls, |ls|))
    decreases |ls| - i
  {
    hide Unclosed, Found, NextFence, Admonition;
    if i < |ls| {
      DefectsByLine(ls, i + 1);
      assert ls[i..][0] == ls[i] && ls[i..][1..] == ls[i + 1..];
      Regroup(FoundAt(ls, i), FoundFrom(ls, i + 1), Unclosed(FenceAt(ls, |ls|), AdmAt(ls, |ls|)));
    }
  }

  lemma {:induction false} FoundIn(ls: seq<Line>, i: nat, d: Defect)
    requires i <= |ls|
    ensures d in FoundFrom(ls, i) <==> exists k :: i <= k < |ls| && d in FoundAt(ls, k)
    decreases |ls| - i
  {
    hide FoundAt;
    if i < |ls| {
      FoundIn(ls, i + 1, d);
    }
  }

  /** A line that starts a block inside a block of the same fence, by their lines. */
  ghost predicate StartsInside(ls: seq<Line>, d: Defect) {
    exists i: nat :: i < |ls| && StartsInsideAt(ls, i, d)
  }

  ghost predicate StartsInsideAt(ls: seq<Line>, i: nat, d: Defect)
    requires i < |ls|
  {
    exists j: nat :: HoldsAt(ls, j, i) && Restarts(ls[i], ls[j].ch, ls[j].len) && d == FenceInFence(i + 1, j + 1)
  }

  ghost predicate NeverClosed(ls: seq<Line>, d: Defect) {
    exists j: nat :: HoldsAt(ls, j, |ls|) && d == UnclosedFence(j + 1, ls[j].ch, ls[j].len)
  }

  ghost predicate NeverAdmClosed(ls: seq<Line>, d: Defect) {
    exists a: nat :: PendingAt(ls, a, |ls|) && d == UnclosedAdmonition(a + 1)
  }

  lemma {:induction false} FoundIff(ls: seq<Line>, d: Defect)
    ensures d in FoundFrom(ls, 0) <==> StartsInside(ls, d)
  {
    FoundIn(ls, 0, d);
    forall k: nat | k < |ls|
      ensures d in FoundAt(ls, k) <==> StartsInsideAt(ls, k, d)
    {
      FoundAtIff(ls, k, d);
    }
    hide FoundAt, FoundFrom, StartsInsideAt;
    assert StartsInside(ls, d) <==> exists k: nat :: k < |ls| && StartsInsideAt(ls, k, d);
  }

  lemma {:induction false} FoundAtIff(ls: seq<Line>, i: nat, d: Defect)
    requires i < |ls|
    ensures d in FoundAt(ls, i) <==> StartsInsideAt(ls, i, d)
  {
    FenceAtIs(ls, i);
    hide FenceAt, HoldsAt;
  }

  lemma {:induction false} UnclosedIff(ls: seq<Line>, d: Defect)
    ensures d in Unclosed(FenceAt(ls, |ls|), AdmAt(ls, |ls|)) <==> NeverClosed(ls, d) || NeverAdmClosed(ls, d)
  {
    FenceAtIs(ls, |ls|);
    AdmAtIs(ls, |ls|);
    var adm := AdmAt(ls, |ls|);
    if NeverAdmClosed(ls, d) {
      var a: nat :| PendingAt(ls, a, |ls|) && d == UnclosedAdmonition(a + 1);
      OnePending(ls, a, |ls|, adm);
    }
    if adm.Some? && d == UnclosedAdmonition(adm.value) {
      assert PendingAt(ls, adm.value - 1, |ls|);
    }
  }

  lemma {:induction false} OnePending(ls: seq<Line>, a: nat, i: nat, adm: Option<nat>)
    requires i <= |ls| && PendingAt(ls, a, i) && AdmIs(ls, i, adm)
    ensures adm == Some(a + 1)
  {
    ClosedLonger(ls, i);
  }

  lemma {:induction false} ClosedLonger(ls: seq<Line>, i: nat)
    requires i <= |ls|
    ensures forall a: nat, k: nat :: k <= i && AdmClosedBetween(ls, a, k) ==> AdmClosedBetween(ls, a, i)
  {
    forall a: nat, k: nat | k <= i && AdmClosedBetween(ls, a, k)
      ensures AdmClosedBetween(ls, a, i)
    {
      var c: nat :| a < c < k && OutsideAt(ls, c) && ls[c].AdmClose?;
    }
  }

  /** Exactly which defects are reported, with the lines they name: a fence line that starts a
      block again inside its own, the block that is never closed, and the admonition that is
      open at the end. */
  lemma {:induction false} DefectsIff(ls: seq<Line>, d: Defect)
    ensures d in DefectsFrom(ls, 1, None, None) <==> StartsInside(ls, d) || NeverClosed(ls, d) || NeverAdmClosed(ls, d)
  {
    DefectsByLine(ls, 0);
    assert ls[0..] == ls;
    FoundIff(ls, d);
    UnclosedIff(ls, d);
  }
}
