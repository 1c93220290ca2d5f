/** Bracketed text as a grammar: what the scanners of declarations are given, and what one
    depth counter sees of it. */
module Brackets {
  import opened Sequences
  import opened Bytes

  datatype Piece = Plain(c: char) | Escaped(c: char)

  /** Text with nested brackets, arrows and string literals.  An angle that compares, as in a
      refinement type, is a character of its own. */
  datatype Text =
    | End
    | Ch(c: char, rest: Text)
    | Arrow(rest: Text)
    | Str(quote: char, body: seq<Piece>, rest: Text)
    | Group(open: char, inner: Text, close: char, rest: Text)

  predicate Opens(c: char) { c == '(' || c == '[' || c == '{' || c == '<' }

  predicate Closes(c: char) { c == ')' || c == ']' || c == '}' || c == '>' }

  predicate Quote(c: char) { c == '"' || c == '\'' }

  function PrintBody(body: seq<Piece>): string {
    if body == [] then ""
    else (match body[0] case Plain(c) => [c] case Escaped(c) => ['\\', c]) + PrintBody(body[1..])
  }

  function Print(t: Text): string {
    match t
    case End => ""
    case Ch(c, rest) => [c] + Print(rest)
    case Arrow(rest) => "->" + Print(rest)
    case Str(q, body, rest) => [q] + (PrintBody(body) + [q] + Print(rest))
    case Group(o, inner, c, rest) => [o] + (Print(inner) + ([c] + Print(rest)))
  }

  /** A body that ends where its literal ends: without escapes every quote closes. */
  predicate GoodBody(body: seq<Piece>, q: char, escapes: bool) {
    forall p :: p in body ==>
      match p case Plain(c) => c != q && (escapes ==> c != '\\') case Escaped(_) => escapes
  }

  predicate Loose(c: char) { c == '<' || c == '>' }

  /** Brackets stand for nesting, but for angles that compare, and quotes only for literals. A
      bracket may be closed by one of another kind: one counter does not see the difference. */
  predicate Balanced(t: Text, escapes: bool) {
    match t
    case End => true
    case Ch(c, rest) => (Opens(c) || Closes(c) ==> Loose(c)) && !Quote(c) && Balanced(rest, escapes)
    case Arrow(rest) => Balanced(rest, escapes)
    case Str(q, body, rest) => Quote(q) && GoodBody(body, q, escapes) && Balanced(rest, escapes)
    case Group(o, inner, c, rest) => Opens(o) && Closes(c) && Balanced(inner, escapes) && Balanced(rest, escapes)
  }

  function Turn(c: char): int { if c == '>' then 1 else if c == '<' then -1 else 0 }

  /** How far the counter of all brackets is below the nesting at the end of the text: an arrow
      and a `>` that compares lower it, a `<` that compares raises it. */
  function Drift(t: Text): int {
    match t
    case End => 0
    case Ch(c, rest) => Turn(c) + Drift(rest)
    case Arrow(rest) => 1 + Drift(rest)
    case Str(_, _, rest) => Drift(rest)
    case Group(_, inner, _, rest) => Drift(inner) + Drift(rest)
  }

  /** Without arrows and without angles that compare. */
  predicate Tight(t: Text) {
    match t
    case End => true
    case Ch(c, rest) => !Loose(c) && Tight(rest)
    case Arrow(_) => false
    case Str(_, _, rest) => Tight(rest)
    case Group(_, inner, _, rest) => Tight(inner) && Tight(rest)
  }

  predicate NoTopComma(t: Text) {
    match t
    case End => true
    case Ch(c, rest) => c != ',' && NoTopComma(rest)
    case Arrow(rest) => NoTopComma(rest)
    case Str(_, _, rest) => NoTopComma(rest)
    case Group(_, _, _, rest) => NoTopComma(rest)
  }

  /** The commas that are nested as deep as the drift of the text before them, for text inside
      `nesting` brackets and after a drift of `drift`. */
  function LiveCommas(t: Text, nesting: nat, drift: int): nat {
    match t
    case End => 0
    case Ch(c, rest) => (if c == ',' && nesting == drift then 1 else 0) + LiveCommas(rest, nesting, drift + Turn(c))
    case Arrow(rest) => LiveCommas(rest, nesting, drift + 1)
    case Str(_, _, rest) => LiveCommas(rest, nesting, drift)
    case Group(_, inner, _, rest) =>
      LiveCommas(inner, nesting + 1, drift) + LiveCommas(rest, nesting, drift + Drift(inner))
  }

  function Append(t: Text, more: Text): Text {
    match t
    case End => more
    case Ch(c, rest) => Ch(c, Append(rest, more))
    case Arrow(rest) => Arrow(Append(rest, more))
    case Str(q, body, rest) => Str(q, body, Append(rest, more))
    case Group(o, inner, c, rest) => Group(o, inner, c, Append(rest, more))
  }

  lemma {:induction false} AppendPrints(t: Text, more: Text)
    ensures Print(Append(t, more)) == Print(t) + Print(more)
    decreases t
  {
    match t
    case End => assert "" + Print(more) == Print(more);
    case Ch(c, rest) =>
      AppendPrints(rest, more);
      Regroup([c], Print(rest), Print(more));
    case Arrow(rest) =>
      AppendPrints(rest, more);
      Regroup("->", Print(rest), Print(more));
    case Str(q, body, rest) =>
      AppendPrints(rest, more);
      Regroup(PrintBody(body) + [q], Print(rest), Print(more));
      Regroup([q], PrintBody(body) + [q] + Print(rest), Print(more));
    case Group(o, inner, c, rest) =>
      AppendPrints(rest, more);
      Regroup([c], Print(rest), Print(more));
      Regroup(Print(inner), [c] + Print(rest), Print(more));
      Regroup([o], Print(inner) + ([c] + Print(rest)), Print(more));
  }

  // ---------------------------------------------------------------- the parts at depth zero

  /** How much of `s` the rest of a literal takes, its closing quote included. */
  function StringLen(s: string, q: char, escapes: bool): (n: nat)
    ensures n <= |s|
    decreases |s|
  {
    if s == "" then 0
    else if escapes && s[0] == '\\' then (if |s| == 1 then 1 else 2 + StringLen(s[2..], q, escapes))
    else if s[0] == q then 1
    else 1 + StringLen(s[1..], q, escapes)
  }

  function Prepend(x: string, parts: seq<string>): (r: seq<string>)
    requires parts != []
    ensures r != []
  {
    [x + parts[0]] + parts[1..]
  }

  function Deeper(c: char, depth: int): int {
    if Opens(c) then depth + 1 else if Closes(c) then depth - 1 else depth
  }

  /** The text cut at the commas outside literals at which one counter of all brackets is zero. */
  function Parts(s: string, depth: int, escapes: bool): (parts: seq<string>)
    ensures parts != []
    decreases |s|
  {
    if s == "" then [""]
    else if Quote(s[0]) then
      var k := 1 + StringLen(s[1..], s[0], escapes);
      Prepend(s[..k], Parts(s[k..], depth, escapes))
    else if s[0] == ',' && depth == 0 then [""] + Parts(s[1..], depth, escapes)
    else Prepend([s[0]], Parts(s[1..], Deeper(s[0], depth), escapes))
  }

  lemma {:induction false} PrependTwice(x: string, y: string, parts: seq<string>)
    requires parts != []
    ensures Prepend(x, Prepend(y, parts)) == Prepend(x + y, parts)
  {
    assert x + (y + parts[0]) == x + y + parts[0];
  }

  lemma {:induction false} BodyLength(body: seq<Piece>, q: char, escapes: bool, rest: string)
    requires Quote(q) && GoodBody(body, q, escapes)
    ensures StringLen(PrintBody(body) + [q] + rest, q, escapes) == |PrintBody(body)| + 1
    decreases |body|
  {
    var s := PrintBody(body) + [q] + rest;
    if body != [] {
      var tail := PrintBody(body[1..]) + [q] + rest;
      assert body[0] in body && forall p :: p in body[1..] ==> p in body;
      BodyLength(body[1..], q, escapes, rest);
      match body[0]
      case Plain(c) => assert s[0] == c && s[1..] == tail;
      case Escaped(c) => assert s[0] == '\\' && s[2..] == tail;
    }
  }

  /** One character that neither cuts nor opens a literal. */
  lemma {:induction false} PartsChar(c: char, s: string, depth: int, escapes: bool)
    requires !Quote(c) && (c == ',' ==> depth != 0)
    ensures Parts([c] + s, depth, escapes) == Prepend([c], Parts(s, Deeper(c, depth), escapes))
  {
    assert ([c] + s)[1..] == s;
  }

  lemma {:induction false} PartsString(q: char, body: seq<Piece>, s: string, depth: int, escapes: bool)
    requires Quote(q) && GoodBody(body, q, escapes)
    ensures Parts([q] + (PrintBody(body) + [q] + s), depth, escapes)
         == Prepend([q] + PrintBody(body) + [q], Parts(s, depth, escapes))
  {
    var tail := PrintBody(body) + [q] + s;
    var all := [q] + tail;
    BodyLength(body, q, escapes, s);
    var k := 1 + (|PrintBody(body)| + 1);
    assert all[1..] == tail;
    assert all[..k] == [q] + PrintBody(body) + [q] && all[k..] == s;
  }

  lemma {:induction false} PrependCut(x: string, parts: seq<string>)
    ensures Prepend(x, [""] + parts) == [x] + parts
  {
    assert x + "" == x;
  }

  /** The text `x` goes to the first part whole, and takes the counter from `depth` to `to`. */
  ghost predicate Skips(x: string, s: string, depth: int, to: int, escapes: bool) {
    Parts(x + s, depth, escapes) == Prepend(x, Parts(s, to, escapes))
  }

  lemma {:induction false} SkipChar(c: char, x: string, s: string, depth: int, to: int, escapes: bool)
    requires Skips(x, s, Deeper(c, depth), to, escapes)
    requires !Quote(c) && (c == ',' ==> depth != 0)
    ensures Skips([c] + x, s, depth, to, escapes)
  {
    PartsChar(c, x + s, depth, escapes);
    PrependTwice([c], x, Parts(s, to, escapes));
    assert [c] + x + s == [c] + (x + s);
  }

  lemma {:induction false} ArrowDepths(depth: int)
    ensures Deeper('-', depth) == depth && Deeper('>', depth) == depth - 1
  {
  }

  /** The second character of an arrow counts as a closing bracket. */
  lemma {:induction false} SkipArrow(x: string, s: string, depth: int, to: int, escapes: bool)
    requires Skips(x, s, depth - 1, to, escapes)
    ensures Skips("->" + x, s, depth, to, escapes)
  {
    ArrowDepths(depth);
    SkipChar('>', x, s, depth, to, escapes);
    SkipChar('-', ['>'] + x, s, depth, to, escapes);
    assert ['-'] + (['>'] + x) == "->" + x;
  }

  lemma {:induction false} SkipString(q: char, body: seq<Piece>, x: string, s: string, depth: int, to: int,
                                      escapes: bool)
    requires Skips(x, s, depth, to, escapes) && Quote(q) && GoodBody(body, q, escapes)
    ensures Skips([q] + (PrintBody(body) + [q] + x), s, depth, to, escapes)
  {
    var b := PrintBody(body);
    PartsString(q, body, x + s, depth, escapes);
    PrependTwice([q] + b + [q], x, Parts(s, to, escapes));
    Reassociate(q, b, x, s);
  }

  lemma {:induction false} Reassociate(q: char, b: string, x: string, s: string)
    ensures [q] + (b + [q] + x) + s == [q] + (b + [q] + (x + s))
    ensures [q] + (b + [q] + x) == [q] + b + [q] + x
  {
  }

  lemma {:induction false} SkipBoth(x: string, y: string, s: string, depth: int, mid: int, to: int, escapes: bool)
    requires Skips(x, y + s, depth, mid, escapes) && Skips(y, s, mid, to, escapes)
    ensures Skips(x + y, s, depth, to, escapes)
  {
    Regroup(x, y, s);
    PrependTwice(x, y, Parts(s, to, escapes));
  }

  lemma {:induction false} SkipGroup(o: char, inner: string, y: string, s: string, depth: int, mid: int, to: int,
                                     e: bool)
    requires Opens(o) && Skips(inner, y + s, depth + 1, mid, e) && Skips(y, s, mid, to, e)
    ensures Skips([o] + (inner + y), s, depth, to, e)
  {
    SkipBoth(inner, y, s, depth + 1, mid, to, e);
    SkipChar(o, inner + y, s, depth, to, e);
  }

  /** The counter is the nesting less the drift so far: text without a live comma is not cut. */
  lemma {:induction false} TextSkips(t: Text, s: string, nesting: nat, drift: int, depth: int, to: int, escapes: bool)
    requires Balanced(t, escapes) && LiveCommas(t, nesting, drift) == 0
    requires depth == nesting - drift && to == depth - Drift(t)
    ensures Skips(Print(t), s, depth, to, escapes)
    decreases t, 0
  {
    hide Parts;
    match t
    case End => NothingSkips(s, depth, escapes);
    case Ch(c, rest) =>
      TextSkips(rest, s, nesting, drift + Turn(c), Deeper(c, depth), to, escapes);
      SkipChar(c, Print(rest), s, depth, to, escapes);
    case Arrow(rest) =>
      TextSkips(rest, s, nesting, drift + 1, depth - 1, to, escapes);
      SkipArrow(Print(rest), s, depth, to, escapes);
    case Str(q, body, rest) =>
      TextSkips(rest, s, nesting, drift, depth, to, escapes);
      SkipString(q, body, Print(rest), s, depth, to, escapes);
    case Group(o, inner, c, rest) =>
      var mid, y := depth + 1 - Drift(inner), [c] + Print(rest);
      ClosedSkips(c, rest, s, nesting, drift + Drift(inner), mid, to, escapes);
      TextSkips(inner, y + s, nesting + 1, drift, depth + 1, mid, escapes);
      SkipGroup(o, Print(inner), y, s, depth, mid, to, escapes);
  }

  lemma {:induction false} ClosedSkips(c: char, t: Text, s: string, nesting: nat, drift: int, depth: int, to: int,
                                       e: bool)
    requires Closes(c) && Balanced(t, e) && LiveCommas(t, nesting, drift) == 0
    requires depth - 1 == nesting - drift && to == depth - 1 - Drift(t)
    ensures Skips([c] + Print(t), s, depth, to, e)
    decreases t, 1
  {
    hide Parts;
    TextSkips(t, s, nesting, drift, depth - 1, to, e);
    SkipChar(c, Print(t), s, depth, to, e);
  }

  lemma {:induction false} NothingSkips(s: string, depth: int, escapes: bool)
    ensures Skips("", s, depth, depth, escapes)
  {
    assert "" + s == s;
    var parts := Parts(s, depth, escapes);
    assert "" + parts[0] == parts[0];
  }

  // ---------------------------------------------------------------- live commas cut

  /** The text `x` is cut: the first part ends inside of it. */
  ghost predicate CutInside(x: string, s: string, depth: int, escapes: bool) {
    |Parts(x + s, depth, escapes)[0]| < |x|
  }

  lemma {:induction false} CutLater(x: string, y: string, s: string, depth: int, mid: int, escapes: bool)
    requires Skips(x, y + s, depth, mid, escapes) && CutInside(y, s, mid, escapes)
    ensures CutInside(x + y, s, depth, escapes)
  {
    Regroup(x, y, s);
  }

  lemma {:induction false} CutEarlier(x: string, y: string, s: string, depth: int, escapes: bool)
    requires CutInside(x, y + s, depth, escapes)
    ensures CutInside(x + y, s, depth, escapes)
  {
    Regroup(x, y, s);
  }

  lemma {:induction false} CutAtComma(x: string, s: string, escapes: bool)
    ensures CutInside([','] + x, s, 0, escapes)
  {
    assert ([','] + x + s)[0] == ',';
  }

  lemma {:induction false} OneSkips(c: char, s: string, depth: int, escapes: bool)
    requires !Quote(c) && (c == ',' ==> depth != 0)
    ensures Skips([c], s, depth, Deeper(c, depth), escapes)
  {
    NothingSkips(s, Deeper(c, depth), escapes);
    SkipChar(c, "", s, depth, Deeper(c, depth), escapes);
    assert [c] + "" == [c];
  }

  lemma {:induction false} CutInGroup(o: char, inner: string, c: char, x: string, s: string, depth: int, escapes: bool)
    requires Opens(o) && CutInside(inner, [c] + x + s, depth + 1, escapes)
    ensures CutInside([o] + (inner + ([c] + x)), s, depth, escapes)
  {
    CutEarlier(inner, [c] + x, s, depth + 1, escapes);
    OneSkips(o, inner + ([c] + x) + s, depth, escapes);
    CutLater([o], inner + ([c] + x), s, depth, depth + 1, escapes);
  }

  lemma {:induction false} CutAfterGroup(o: char, inner: string, c: char, x: string, s: string,
                                         depth: int, mid: int, escapes: bool)
    requires Opens(o) && Closes(c) && Skips(inner, [c] + x + s, depth + 1, mid, escapes)
    requires CutInside(x, s, mid - 1, escapes)
    ensures CutInside([o] + (inner + ([c] + x)), s, depth, escapes)
  {
    OneSkips(c, x + s, mid, escapes);
    CutLater([c], x, s, mid, mid - 1, escapes);
    CutLater(inner, [c] + x, s, depth + 1, mid, escapes);
    OneSkips(o, inner + ([c] + x) + s, depth, escapes);
    CutLater([o], inner + ([c] + x), s, depth, depth + 1, escapes);
  }

  lemma {:induction false} CutAfterArrow(x: string, s: string, depth: int, escapes: bool)
    requires CutInside(x, s, depth - 1, escapes)
    ensures CutInside("->" + x, s, depth, escapes)
  {
    ArrowDepths(depth);
    OneSkips('>', x + s, depth, escapes);
    CutLater(['>'], x, s, depth, depth - 1, escapes);
    OneSkips('-', ['>'] + x + s, depth, escapes);
    CutLater(['-'], ['>'] + x, s, depth, depth, escapes);
    assert ['-'] + (['>'] + x) == "->" + x;
  }

  lemma {:induction false} CutAfterString(q: char, body: seq<Piece>, x: string, s: string, depth: int, escapes: bool)
    requires Quote(q) && GoodBody(body, q, escapes) && CutInside(x, s, depth, escapes)
    ensures CutInside([q] + (PrintBody(body) + [q] + x), s, depth, escapes)
  {
    PartsString(q, body, x + s, depth, escapes);
    Reassociate(q, PrintBody(body), x, s);
  }

  /** Text with a live comma is cut inside. */
  lemma {:induction false} TextIsCut(t: Text, s: string, nesting: nat, drift: int, escapes: bool)
    requires Balanced(t, escapes) && LiveCommas(t, nesting, drift) > 0
    ensures CutInside(Print(t), s, nesting - drift, escapes)
    decreases t
  {
    hide Parts;
    var depth := nesting - drift;
    match t
    case Ch(c, rest) =>
      if c == ',' && nesting == drift {
        CutAtComma(Print(rest), s, escapes);
      } else {
        TextIsCut(rest, s, nesting, drift + Turn(c), escapes);
        OneSkips(c, Print(rest) + s, depth, escapes);
        CutLater([c], Print(rest), s, depth, Deeper(c, depth), escapes);
      }
    case Arrow(rest) =>
      TextIsCut(rest, s, nesting, drift + 1, escapes);
      CutAfterArrow(Print(rest), s, depth, escapes);
    case Str(q, body, rest) =>
      TextIsCut(rest, s, nesting, drift, escapes);
      CutAfterString(q, body, Print(rest), s, depth, escapes);
    case Group(o, inner, c, rest) =>
      GroupIsCut(o, inner, c, rest, s, nesting, drift, escapes);
  }

  lemma {:induction false} GroupIsCut(o: char, inner: Text, c: char, rest: Text, s: string,
                                      nesting: nat, drift: int, escapes: bool)
    requires Opens(o) && Closes(c) && Balanced(inner, escapes) && Balanced(rest, escapes)
    requires LiveCommas(inner, nesting + 1, drift) + LiveCommas(rest, nesting, drift + Drift(inner)) > 0
    ensures CutInside([o] + (Print(inner) + ([c] + Print(rest))), s, nesting - drift, escapes)
    decreases Group(o, inner, c, rest), 0
  {
    hide Parts;
    var depth := nesting - drift;
    if LiveCommas(inner, nesting + 1, drift) > 0 {
      TextIsCut(inner, [c] + Print(rest) + s, nesting + 1, drift, escapes);
      CutInGroup(o, Print(inner), c, Print(rest), s, depth, escapes);
    } else {
      TextSkips(inner, [c] + Print(rest) + s, nesting + 1, drift, depth + 1, depth + 1 - Drift(inner), escapes);
      TextIsCut(rest, s, nesting, drift + Drift(inner), escapes);
      CutAfterGroup(o, Print(inner), c, Print(rest), s, depth, depth + 1 - Drift(inner), escapes);
    }
  }

  // ---------------------------------------------------------------- how many parts

  /** The text `x` adds `k` parts and takes the counter from `depth` to `to`. */
  ghost predicate Adds(x: string, s: string, depth: int, to: int, k: nat, escapes: bool) {
    |Parts(x + s, depth, escapes)| == k + |Parts(s, to, escapes)|
  }

  lemma {:induction false} AddsChar(c: char, x: string, s: string, depth: int, to: int, k: nat, escapes: bool)
    requires !Quote(c) && Adds(x, s, Deeper(c, depth), to, k, escapes)
    ensures Adds([c] + x, s, depth, to, (if c == ',' && depth == 0 then 1 else 0) + k, escapes)
  {
    Regroup([c], x, s);
    assert ([c] + (x + s))[1..] == x + s;
    if c == ',' && depth == 0 {
      assert Parts([c] + (x + s), depth, escapes) == [""] + Parts(x + s, depth, escapes);
    } else {
      PartsChar(c, x + s, depth, escapes);
    }
  }

  lemma {:induction false} AddsBoth(x: string, y: string, s: string, depth: int, mid: int, to: int, j: nat, k: nat,
                                    e: bool)
    requires Adds(x, y + s, depth, mid, j, e) && Adds(y, s, mid, to, k, e)
    ensures Adds(x + y, s, depth, to, j + k, e)
  {
    Regroup(x, y, s);
  }

  lemma {:induction false} AddsArrow(x: string, s: string, depth: int, to: int, k: nat, escapes: bool)
    requires Adds(x, s, depth - 1, to, k, escapes)
    ensures Adds("->" + x, s, depth, to, k, escapes)
  {
    ArrowDepths(depth);
    AddsChar('>', x, s, depth, to, k, escapes);
    AddsChar('-', ['>'] + x, s, depth, to, k, escapes);
    assert ['-'] + (['>'] + x) == "->" + x;
  }

  lemma {:induction false} AddsString(q: char, body: seq<Piece>, x: string, s: string, depth: int, to: int, k: nat,
                                      e: bool)
    requires Quote(q) && GoodBody(body, q, e) && Adds(x, s, depth, to, k, e)
    ensures Adds([q] + (PrintBody(body) + [q] + x), s, depth, to, k, e)
  {
    PartsString(q, body, x + s, depth, e);
    Reassociate(q, PrintBody(body), x, s);
  }

  lemma {:induction false} AddsGroup(o: char, inner: string, c: char, x: string, s: string,
                                     depth: int, mid: int, to: int, j: nat, k: nat, escapes: bool)
    requires Opens(o) && Closes(c)
    requires Adds(x, s, mid - 1, to, k, escapes) && Adds(inner, [c] + x + s, depth + 1, mid, j, escapes)
    ensures Adds([o] + (inner + ([c] + x)), s, depth, to, j + k, escapes)
  {
    AddsChar(c, x, s, mid, to, k, escapes);
    AddsBoth(inner, [c] + x, s, depth + 1, mid, to, j, k, escapes);
    AddsChar(o, inner + ([c] + x), s, depth, to, j + k, escapes);
  }

  /** Exactly the live commas cut. */
  lemma {:induction false} LiveCommasCut(t: Text, s: string, nesting: nat, drift: int, depth: int, to: int, k: nat,
                                         e: bool)
    requires Balanced(t, e) && k == LiveCommas(t, nesting, drift)
    requires depth == nesting - drift && to == depth - Drift(t)
    ensures Adds(Print(t), s, depth, to, k, e)
    decreases t
  {
    hide Parts;
    match t
    case End => assert "" + s == s;
    case Ch(c, rest) =>
      CharCommasCut(c, rest, s, nesting, drift, depth, to, e);
    case Arrow(rest) =>
      LiveCommasCut(rest, s, nesting, drift + 1, depth - 1, to, k, e);
      AddsArrow(Print(rest), s, depth, to, k, e);
    case Str(q, body, rest) =>
      LiveCommasCut(rest, s, nesting, drift, depth, to, k, e);
      AddsString(q, body, Print(rest), s, depth, to, k, e);
    case Group(o, inner, c, rest) =>
      GroupCommasCut(o, inner, c, rest, s, nesting, drift, depth, depth + 1 - Drift(inner), to, e);
  }

  lemma {:induction false} CharCommasCut(c: char, rest: Text, s: string, nesting: nat, drift: int, depth: int, to: int,
                                         e: bool)
    requires !Quote(c) && (Opens(c) || Closes(c) ==> Loose(c)) && Balanced(rest, e)
    requires depth == nesting - drift && to == depth - Turn(c) - Drift(rest)
    ensures Adds([c] + Print(rest), s, depth, to,
                 (if c == ',' && nesting == drift then 1 else 0) + LiveCommas(rest, nesting, drift + Turn(c)), e)
    decreases Ch(c, rest), 0
  {
    hide Parts;
    var k := LiveCommas(rest, nesting, drift + Turn(c));
    LiveCommasCut(rest, s, nesting, drift + Turn(c), Deeper(c, depth), to, k, e);
    AddsChar(c, Print(rest), s, depth, to, k, e);
  }

  lemma {:induction false} GroupCommasCut(o: char, inner: Text, c: char, rest: Text, s: string,
                                          nesting: nat, drift: int, depth: int, mid: int, to: int, e: bool)
    requires Opens(o) && Closes(c) && Balanced(inner, e) && Balanced(rest, e)
    requires depth == nesting - drift && mid == depth + 1 - Drift(inner) && to == mid - 1 - Drift(rest)
    ensures Adds([o] + (Print(inner) + ([c] + Print(rest))), s, depth, to,
                 LiveCommas(inner, nesting + 1, drift) + LiveCommas(rest, nesting, drift + Drift(inner)), e)
    decreases Group(o, inner, c, rest), 0
  {
    hide Parts;
    var j, k := LiveCommas(inner, nesting + 1, drift), LiveCommas(rest, nesting, drift + Drift(inner));
    LiveCommasCut(rest, s, nesting, drift + Drift(inner), mid - 1, to, k, e);
    LiveCommasCut(inner, [c] + Print(rest) + s, nesting + 1, drift, depth + 1, mid, j, e);
    AddsGroup(o, Print(inner), c, Print(rest), s, depth, mid, to, j, k, e);
  }

  // ---------------------------------------------------------------- lists

  /** The texts with a comma between any two. */
  function Commas(ps: seq<Text>): Text {
    if ps == [] then End
    else if |ps| == 1 then ps[0]
    else Append(ps[0], Ch(',', Commas(ps[1..])))
  }

  predicate Item(t: Text, escapes: bool) { Balanced(t, escapes) && NoTopComma(t) }

  lemma {:induction false} AppendBalanced(t: Text, more: Text, escapes: bool)
    requires Balanced(t, escapes) && Balanced(more, escapes)
    ensures Balanced(Append(t, more), escapes)
    decreases t
  {
    if !t.End? {
      AppendBalanced(t.rest, more, escapes);
    }
  }

  lemma {:induction false} AppendItem(t: Text, more: Text, escapes: bool)
    requires Item(t, escapes) && Item(more, escapes)
    ensures Item(Append(t, more), escapes)
    decreases t
  {
    if !t.End? {
      AppendItem(t.rest, more, escapes);
    }
  }

  function Prints(ps: seq<Text>): (r: seq<string>)
    ensures |r| == |ps| && forall i :: 0 <= i < |ps| ==> r[i] == Print(ps[i])
  {
    if ps == [] then [] else [Print(ps[0])] + Prints(ps[1..])
  }

  /** The counter comes back to zero at the end of the item, and at no comma of it. */
  predicate Level(t: Text) { Drift(t) == 0 && LiveCommas(t, 0, 0) == 0 }

  /** All items but the last are level, and the last has no live comma. */
  predicate CutRight(ps: seq<Text>)
    requires ps != []
  {
    && (forall i :: 0 <= i < |ps| - 1 ==> Level(ps[i]))
    && LiveCommas(ps[|ps| - 1], 0, 0) == 0
  }

  /** In tight text the live commas are those at the top. */
  lemma {:induction false} TightIsLevel(t: Text, nesting: nat)
    requires Tight(t) && (nesting == 0 ==> NoTopComma(t))
    ensures LiveCommas(t, nesting, 0) == 0 && Drift(t) == 0
    decreases t
  {
    match t
    case End =>
    case Ch(_, rest) => TightIsLevel(rest, nesting);
    case Str(_, _, rest) => TightIsLevel(rest, nesting);
    case Group(_, inner, _, rest) =>
      TightIsLevel(inner, nesting + 1);
      TightIsLevel(rest, nesting);
  }

  lemma {:induction false} TightIsCutRight(ps: seq<Text>, escapes: bool)
    requires ps != [] && forall p :: p in ps ==> Item(p, escapes) && Tight(p)
    ensures CutRight(ps)
  {
    forall i | 0 <= i < |ps| ensures Level(ps[i]) {
      assert ps[i] in ps;
      TightIsLevel(ps[i], 0);
    }
  }

  lemma {:induction false} CutRightTail(ps: seq<Text>)
    requires |ps| > 1
    ensures CutRight(ps) <==> Level(ps[0]) && CutRight(ps[1..])
  {
    var rest := ps[1..];
    assert rest[|rest| - 1] == ps[|ps| - 1];
    assert forall i :: 1 <= i < |ps| ==> rest[i - 1] == ps[i];
    assert forall i :: 0 <= i < |rest| ==> rest[i] == ps[i + 1];
  }

  lemma {:induction false} PartsOfOne(t: Text, e: bool)
    requires Balanced(t, e)
    ensures Parts(Print(t), 0, e) == [Print(t)] <==> LiveCommas(t, 0, 0) == 0
  {
    assert Print(t) + "" == Print(t);
    if LiveCommas(t, 0, 0) == 0 {
      TextSkips(t, "", 0, 0, 0, 0 - Drift(t), e);
    } else {
      TextIsCut(t, "", 0, 0, e);
    }
  }

  /** What follows a separator that the counter cannot see goes to the part before it. */
  lemma {:induction false} CommaUnseen(x: string, s: string, depth: int, e: bool)
    requires depth != 0 && Skips(x, [','] + s, 0, depth, e)
    ensures |Parts(x + ([','] + s), 0, e)[0]| > |x|
  {
    PartsChar(',', s, depth, e);
  }

  lemma {:induction false} FirstPart(t: Text, s: string, e: bool)
    requires Balanced(t, e)
    ensures Level(t) ==> Parts(Print(t) + ([','] + s), 0, e) == [Print(t)] + Parts(s, 0, e)
    ensures !Level(t) ==> Parts(Print(t) + ([','] + s), 0, e)[0] != Print(t)
  {
    var tail := [','] + s;
    if LiveCommas(t, 0, 0) > 0 {
      TextIsCut(t, tail, 0, 0, e);
    } else {
      TextSkips(t, tail, 0, 0, 0, 0 - Drift(t), e);
      if Drift(t) == 0 {
        assert tail[1..] == s;
        PrependCut(Print(t), Parts(s, 0, e));
      } else {
        CommaUnseen(Print(t), s, 0 - Drift(t), e);
      }
    }
  }

  /** A printed list is cut into exactly its items if and only if all of them but the last are
      level and none holds a comma nested as deep as the drift before it. */
  lemma {:induction false} PartsOfList(ps: seq<Text>, e: bool)
    requires ps != [] && forall p :: p in ps ==> Balanced(p, e)
    ensures Parts(Print(Commas(ps)), 0, e) == Prints(ps) <==> CutRight(ps)
    decreases |ps|
  {
    assert ps[0] in ps && forall p :: p in ps[1..] ==> p in ps;
    if |ps| == 1 {
      PartsOfOne(ps[0], e);
    } else {
      var more := Print(Commas(ps[1..]));
      PartsOfList(ps[1..], e);
      CutRightTail(ps);
      AppendPrints(ps[0], Ch(',', Commas(ps[1..])));
      FirstPart(ps[0], more, e);
      HeadAndTail(Print(ps[0]), Parts(more, 0, e), Prints(ps[1..]));
    }
  }

  lemma {:induction false} HeadAndTail(x: string, a: seq<string>, b: seq<string>)
    ensures [x] + a == [x] + b <==> a == b
  {
    assert ([x] + a)[1..] == a && ([x] + b)[1..] == b;
  }

  // ---------------------------------------------------------------- the matching bracket

  function Further(n: nat, k: Option<nat>): Option<nat> {
    match k case None => None case Some(i) => Some(n + i)
  }

  /** A pair of brackets to balance, and whether the scan steps over arrows. */
  datatype Pair = Pair(open: char, close: char, arrows: bool)

  const PARENS := Pair('(', ')', false)
  const ANGLES := Pair('<', '>', true)

  /** Where a counter of one pair, now at `depth`, comes back to zero. Literals are nothing
      special to it. */
  function Close(s: string, depth: int, p: Pair): (k: Option<nat>)
    ensures k.Some? ==> k.value < |s| && s[k.value] == p.close
    decreases |s|
  {
    if s == "" then None
    else if p.arrows && |s| >= 2 && s[0] == '-' && s[1] == '>' then Further(2, Close(s[2..], depth, p))
    else if s[0] == p.close && depth == 1 then Some(0)
    else Further(1, Close(s[1..], Counted(s[0], depth, p), p))
  }

  function Counted(c: char, depth: int, p: Pair): int {
    if c == p.open then depth + 1 else if c == p.close then depth - 1 else depth
  }

  predicate Without(s: string, open: char, close: char) { open !in s && close !in s }

  /** The pair stands only for nesting: it is closed by its own kind, and is in no literal. */
  predicate Matched(t: Text, open: char, close: char) {
    match t
    case End => true
    case Ch(c, rest) => c != open && c != close && Matched(rest, open, close)
    case Arrow(rest) => Matched(rest, open, close)
    case Str(_, body, rest) => Without(PrintBody(body), open, close) && Matched(rest, open, close)
    case Group(o, inner, c, rest) =>
      (o == open <==> c == close) && Matched(inner, open, close) && Matched(rest, open, close)
  }

  predicate StartsLoose(t: Text) { t.Ch? && t.c == '>' }

  predicate EndsInDash(t: Text) {
    match t
    case End => false
    case Ch(c, rest) => if rest.End? then c == '-' else EndsInDash(rest)
    case Arrow(rest) => EndsInDash(rest)
    case Str(_, _, rest) => EndsInDash(rest)
    case Group(_, _, _, rest) => EndsInDash(rest)
  }

  /** Nothing but an arrow reads as one: no dash stands before an angle that compares, and no
      group that `>` closes ends in a dash. */
  predicate DashSafe(t: Text) {
    match t
    case End => true
    case Ch(c, rest) => !(c == '-' && StartsLoose(rest)) && DashSafe(rest)
    case Arrow(rest) => DashSafe(rest)
    case Str(_, _, rest) => DashSafe(rest)
    case Group(_, inner, c, rest) => !(c == '>' && EndsInDash(inner)) && DashSafe(inner) && DashSafe(rest)
  }

  predicate StartsAngle(s: string) { s != "" && s[0] == '>' }

  ghost predicate Walks(x: string, s: string, depth: int, p: Pair) {
    Close(x + s, depth, p) == Further(|x|, Close(s, depth, p))
  }

  lemma {:induction false} WalkChar(c: char, x: string, s: string, depth: int, p: Pair)
    requires Walks(x, s, depth, p) && c != p.open && c != p.close
    requires p.arrows && c == '-' ==> !StartsAngle(x + s)
    ensures Walks([c] + x, s, depth, p)
  {
    assert [c] + x + s == [c] + (x + s);
    assert ([c] + (x + s))[1..] == x + s;
  }

  lemma {:induction false} WalkArrow(x: string, s: string, depth: int, p: Pair)
    requires Walks(x, s, depth, p) && p in {PARENS, ANGLES}
    ensures Walks("->" + x, s, depth, p)
  {
    if p == PARENS {
      WalkChar('>', x, s, depth, p);
      WalkChar('-', ['>'] + x, s, depth, p);
      assert ['-'] + (['>'] + x) == "->" + x;
    } else {
      var all := "->" + x + s;
      assert all[2..] == x + s;
    }
  }

  lemma {:induction false} WalkRun(run: string, x: string, s: string, depth: int, p: Pair)
    requires Walks(x, s, depth, p) && Without(run, p.open, p.close) && p in {PARENS, ANGLES}
    requires run == "" || run[|run| - 1] != '-'
    ensures Walks(run + x, s, depth, p)
    decreases |run|
  {
    if run == "" {
      assert run + x == x;
    } else {
      assert run[0] in run;
      WalkRun(run[1..], x, s, depth, p);
      assert [run[0]] + (run[1..] + x) == run + x;
      if |run| > 1 {
        assert run[1] in run && (run[1..] + x + s)[0] == run[1];
      }
      WalkChar(run[0], run[1..] + x, s, depth, p);
    }
  }

  lemma {:induction false} CloseStep(c: char, s: string, depth: int, p: Pair)
    requires c != '-' && !(c == p.close && depth == 1)
    ensures Close([c] + s, depth, p) == Further(1, Close(s, Counted(c, depth, p), p))
  {
    assert ([c] + s)[1..] == s;
  }

  lemma {:induction false} GroupChain(f: (string, int) -> Option<nat>, o: char, inner: string, c: char, x: string,
                                      s: string, depth: int, deeper: int)
    requires f(x + s, depth) == Further(|x|, f(s, depth))
    requires f([c] + (x + s), deeper) == Further(1, f(x + s, depth))
    requires f(inner + ([c] + (x + s)), deeper) == Further(|inner|, f([c] + (x + s), deeper))
    requires f([o] + (inner + ([c] + (x + s))), depth) == Further(1, f(inner + ([c] + (x + s)), deeper))
    ensures f([o] + (inner + ([c] + x)) + s, depth) == Further(|[o] + (inner + ([c] + x))|, f(s, depth))
  {
    assert [o] + (inner + ([c] + x)) + s == [o] + (inner + ([c] + (x + s)));
  }

  lemma {:induction false} WalkGroup(o: char, inner: string, c: char, x: string, s: string, depth: nat, p: Pair)
    requires Opens(o) && Closes(c) && depth >= 1 && p in {PARENS, ANGLES} && (o == p.open <==> c == p.close)
    requires Walks(x, s, depth, p)
    requires Walks(inner, [c] + (x + s), Counted(o, depth, p), p)
    ensures Walks([o] + (inner + ([c] + x)), s, depth, p)
  {
    var deeper := Counted(o, depth, p);
    assert Counted(c, deeper, p) == depth && !(c == p.close && deeper == 1) && o != p.close;
    CloseStep(c, x + s, deeper, p);
    CloseStep(o, inner + ([c] + (x + s)), depth, p);
    GroupChain((y, d) => Close(y, d, p), o, inner, c, x, s, depth, deeper);
  }

  lemma {:induction false} FirstNotAngle(t: Text, s: string, escapes: bool)
    requires Balanced(t, escapes) && !StartsLoose(t)
    ensures t.End? ==> Print(t) + s == s
    ensures !t.End? ==> !StartsAngle(Print(t) + s)
  {
    match t
    case End =>
    case Ch(c, rest) =>
    case Arrow(rest) => assert (Print(t) + s)[0] == '-';
    case Str(q, _, _) => assert (Print(t) + s)[0] == q;
    case Group(o, _, _, _) => assert (Print(t) + s)[0] == o;
  }

  /** The counter of one pair leaves balanced text as it entered it. */
  lemma {:induction false} TextWalks(t: Text, s: string, depth: nat, p: Pair, escapes: bool)
    requires Balanced(t, escapes) && Matched(t, p.open, p.close)
    requires depth >= 1 && p in {PARENS, ANGLES}
    requires p.arrows ==> DashSafe(t) && !(EndsInDash(t) && StartsAngle(s))
    ensures Walks(Print(t), s, depth, p)
    decreases t
  {
    match t
    case End => assert "" + s == s;
    case Ch(c, rest) =>
      TextWalks(rest, s, depth, p, escapes);
      if p.arrows && c == '-' {
        FirstNotAngle(rest, s, escapes);
      }
      WalkChar(c, Print(rest), s, depth, p);
    case Arrow(rest) =>
      TextWalks(rest, s, depth, p, escapes);
      WalkArrow(Print(rest), s, depth, p);
    case Str(q, body, rest) =>
      TextWalks(rest, s, depth, p, escapes);
      WalkLiteral(q, PrintBody(body), Print(rest), s, depth, p);
    case Group(o, inner, c, rest) =>
      TextWalks(rest, s, depth, p, escapes);
      TextWalks(inner, [c] + (Print(rest) + s), Counted(o, depth, p), p, escapes);
      WalkGroup(o, Print(inner), c, Print(rest), s, depth, p);
  }

  lemma {:induction false} WalkLiteral(q: char, body: string, x: string, s: string, depth: nat, p: Pair)
    requires Quote(q) && Without(body, p.open, p.close) && Walks(x, s, depth, p) && p in {PARENS, ANGLES}
    ensures Walks([q] + (body + [q] + x), s, depth, p)
  {
    var lit := [q] + body + [q];
    WalkRun(lit, x, s, depth, p);
    assert [q] + (body + [q] + x) == lit + x;
  }

  function InParens(s: string): Option<string> {
    if s == "" || s[0] != '(' then None
    else match Close(s[1..], 1, PARENS)
      case Some(k) => Some(s[1..][..k])
      case None => None
  }

  /** A scan from the bracket at `start` has come to `i`; `goal` is how far past the bracket its
      match is. */
  ghost predicate Scanned(body: string, start: nat, i: nat, depth: nat, p: Pair, goal: Option<nat>)
    requires start < |body| && i <= |body|
  {
    if depth == 0 then i == start && goal == Close(body[start + 1..], 1, p)
    else i > start && goal == Further(i - start - 1, Close(body[i..], depth, p))
  }

  lemma {:induction false} CloseAt(body: string, i: nat, depth: int, p: Pair)
    requires i < |body| && !(p.arrows && body[i] == '-' && i + 1 < |body| && body[i + 1] == '>')
    ensures Close(body[i..], depth, p) ==
      if body[i] == p.close && depth == 1 then Some(0)
      else Further(1, Close(body[i + 1..], Counted(body[i], depth, p), p))
  {
    assert body[i..][0] == body[i] && body[i..][1..] == body[i + 1..];
    assert i + 1 < |body| ==> body[i..][1] == body[i + 1];
  }

  lemma {:induction false} ScanStep(body: string, start: nat, i: nat, depth: nat, p: Pair, goal: Option<nat>)
    requires start < |body| && i < |body| && body[start] == p.open && p in {PARENS, ANGLES}
    requires Scanned(body, start, i, depth, p, goal)
    requires !(p.arrows && body[i] == '-' && i + 1 < |body| && body[i + 1] == '>')
    requires !(depth == 1 && body[i] == p.close)
    ensures Counted(body[i], depth, p) > 0 && Scanned(body, start, i + 1, Counted(body[i], depth, p), p, goal)
  {
    if depth > 0 {
      CloseAt(body, i, depth, p);
    }
  }

  lemma {:induction false} ScanArrow(body: string, start: nat, i: nat, depth: nat, p: Pair, goal: Option<nat>)
    requires start < |body| && i + 1 < |body| && body[start] == p.open && p == ANGLES
    requires Scanned(body, start, i, depth, p, goal) && body[i] == '-' && body[i + 1] == '>'
    ensures depth > 0 && Scanned(body, start, i + 2, depth, p, goal)
  {
    assert body[i..][2..] == body[i + 2..];
    assert body[i..][1] == body[i + 1];
  }

  lemma {:induction false} MatchFound(body: string, start: nat, i: nat, p: Pair, goal: Option<nat>)
    requires start < |body| && i < |body| && body[start] == p.open && p in {PARENS, ANGLES}
    requires Scanned(body, start, i, 1, p, goal) && body[i] == p.close
    ensures goal == Some(i - start - 1)
    ensures body[start + 1..][i - start - 1 + 1..] == body[i + 1..]
    ensures body[start + 1..][..i - start - 1] == body[start + 1..i]
  {
    CloseAt(body, i, 1, p);
  }

  lemma {:induction false} NoMatch(body: string, start: nat, depth: nat, p: Pair, goal: Option<nat>)
    requires start < |body| && body[start] == p.open && Scanned(body, start, |body|, depth, p, goal)
    ensures goal == None
  {
    assert body[|body|..] == "";
  }

  /** Read from `depth`, the counter of the pair stays above zero all through `s` and ends at
      one; and no arrow starts at the end of `s`. */
  predicate Keeps(s: string, depth: int, p: Pair)
    decreases |s|
  {
    if s == "" then depth == 1
    else if p.arrows && |s| >= 2 && s[0] == '-' && s[1] == '>' then Keeps(s[2..], depth, p)
    else !(p.arrows && s == "-") && Counted(s[0], depth, p) >= 1 && Keeps(s[1..], Counted(s[0], depth, p), p)
  }

  lemma {:induction false} CloseAtEnd(s: string, depth: int, p: Pair)
    requires p in {PARENS, ANGLES} && s != "" && s[0] == p.close && depth >= 1
    ensures Close(s, depth, p) == Some(0) <==> depth == 1
  {
  }

  lemma {:induction false} CloseOver(s: string, tail: string, depth: int, p: Pair)
    requires p in {PARENS, ANGLES} && depth >= 1 && s != "" && tail != "" && tail[0] == p.close
    requires !(p.arrows && |s| >= 2 && s[0] == '-' && s[1] == '>')
    ensures var d := Counted(s[0], depth, p);
      Close(s + tail, depth, p) ==
        if p.arrows && s == "-" then Further(2, Close(tail[1..], depth, p))
        else if d == 0 then Some(0) else Further(1, Close(s[1..] + tail, d, p))
  {
    var all := s + tail;
    assert all[1..] == s[1..] + tail && all[0] == s[0];
    assert all[1] == if |s| == 1 then p.close else s[1];
    if s == "-" {
      assert all[2..] == tail[1..];
    }
  }

  /** The bracket that opened before `s` is closed right after `s`: exactly when. */
  lemma {:induction false} ClosesAfter(s: string, after: string, depth: int, p: Pair)
    requires p in {PARENS, ANGLES} && depth >= 1
    ensures Close(s + ([p.close] + after), depth, p) == Some(|s|) <==> Keeps(s, depth, p)
    decreases |s|
  {
    var tail := [p.close] + after;
    if s == "" {
      assert s + tail == tail;
      CloseAtEnd(tail, depth, p);
    } else if p.arrows && |s| >= 2 && s[0] == '-' && s[1] == '>' {
      assert (s + tail)[2..] == s[2..] + tail;
      ClosesAfter(s[2..], after, depth, p);
    } else {
      CloseOver(s, tail, depth, p);
      if Counted(s[0], depth, p) >= 1 {
        ClosesAfter(s[1..], after, Counted(s[0], depth, p), p);
      }
    }
  }

  /** Balanced text keeps the counter of a pair that stands only for nesting. */
  lemma {:induction false} TextKeeps(t: Text, p: Pair, escapes: bool)
    requires Balanced(t, escapes) && Matched(t, p.open, p.close) && p in {PARENS, ANGLES}
    requires p.arrows ==> DashSafe(t) && !EndsInDash(t)
    ensures Keeps(Print(t), 1, p)
  {
    TextWalks(t, [p.close] + "", 1, p, escapes);
    assert Close([p.close] + "", 1, p) == Some(0);
    ClosesAfter(Print(t), "", 1, p);
  }

  lemma {:induction false} LiteralStep(s: string, i: nat, q: char, e: bool)
    requires i < |s| && e
    ensures StringLen(s[i..], q, e) ==
      if s[i] == '\\' then (if i + 2 <= |s| then 2 + StringLen(s[i + 2..], q, e) else 1)
      else if s[i] == q then 1
      else 1 + StringLen(s[i + 1..], q, e)
  {
    assert s[i..][1..] == s[i + 1..];
    if i + 2 <= |s| {
      assert s[i..][2..] == s[i + 2..];
    }
  }

  // ---------------------------------------------------------------- the characters themselves

  /** No bracket, no quote and no comma. */
  predicate Ordinary(x: string) { forall i :: 0 <= i < |x| ==> x[i] !in "([{<)]}>\"\'," }

  lemma {:induction false} OrdinaryChar(c: char)
    requires c !in "([{<)]}>\"\',"
    ensures !Opens(c) && !Closes(c) && !Quote(c) && c != ','
  {
    var all := "([{<)]}>\"\',";
    assert forall i :: 0 <= i < |all| ==> c != all[i];
    assert c != all[0] && c != all[1] && c != all[2] && c != all[3];
    assert c != all[4] && c != all[5] && c != all[6] && c != all[7];
    assert c != all[8] && c != all[9] && c != all[10];
  }

  lemma {:induction false} OrdinarySkips(x: string, s: string, depth: int, escapes: bool)
    requires Ordinary(x)
    ensures Parts(x + s, depth, escapes) == Prepend(x, Parts(s, depth, escapes))
  {
    if x == "" {
      var parts := Parts(s, depth, escapes);
      assert x + s == s && x + parts[0] == parts[0] && [parts[0]] + parts[1..] == parts;
    } else {
      assert x + s == [x[0]] + (x[1..] + s);
      OrdinaryChar(x[0]);
      PartsChar(x[0], x[1..] + s, depth, escapes);
      OrdinarySkips(x[1..], s, depth, escapes);
      PrependTwice([x[0]], x[1..], Parts(s, depth, escapes));
      assert [x[0]] + x[1..] == x;
    }
  }

  /** Outside brackets and quotes a comma separates. */
  lemma {:induction false} CommaSeparates(x: string, y: string, escapes: bool)
    requires Ordinary(x) && Ordinary(y)
    ensures Parts(x + ("," + y), 0, escapes) == [x, y]
  {
    OrdinarySkips(x, "," + y, 0, escapes);
    OrdinarySkips(y, "", 0, escapes);
    assert y + "" == y && ("," + y)[1..] == y;
    PrependCut(x, Parts(y, 0, escapes));
  }

  /** Between any of the four openers and any of the four closers it does not. */
  lemma {:induction false} BracketsHold(open: char, x: string, y: string, close: char, escapes: bool)
    requires open in "([{<" && close in ")]}>" && Ordinary(x) && Ordinary(y)
    ensures Parts([open] + (x + ("," + (y + [close]))), 0, escapes) == [[open] + (x + ("," + (y + [close])))]
  {
    var a, b, c := x + ("," + (y + [close])), "," + (y + [close]), y + [close];
    var deep := Deeper(open, 0);
    assert deep == 1 && !Quote(open) && !Quote(close);
    PartsChar(close, "", deep, escapes);
    assert [close] + "" == [close] && Parts([close], deep, escapes) == [[close]];
    OrdinarySkips(y, [close], deep, escapes);
    assert Parts(c, deep, escapes) == [c];
    PartsChar(',', c, deep, escapes);
    assert Parts(b, deep, escapes) == [b];
    OrdinarySkips(x, b, deep, escapes);
    assert Parts(a, deep, escapes) == [a];
    PartsChar(open, a, 0, escapes);
  }

  /** Between two quotes of one kind neither a comma nor a bracket counts. */
  lemma {:induction false} QuotesHold(q: char, x: string, escapes: bool)
    requires q in "\"\'" && q !in x && '\\' !in x
    ensures Parts([q] + (x + [q]), 0, escapes) == [[q] + (x + [q])]
  {
    var s := [q] + (x + [q]);
    QuoteEnds(x, q, escapes);
    assert s[0] == q && s[1..] == x + [q] && s[..|s|] == s && s[|s|..] == "" && Quote(q);
    assert s + "" == s && Prepend(s, [""]) == [s];
  }

  lemma {:induction false} QuoteEnds(x: string, q: char, escapes: bool)
    requires q !in x && '\\' !in x && q != '\\'
    ensures StringLen(x + [q], q, escapes) == |x| + 1
  {
    if x != "" {
      assert (x + [q])[0] == x[0] && (x + [q])[1..] == x[1..] + [q];
      QuoteEnds(x[1..], q, escapes);
    }
  }
}
