/** Dropping the bodies of ignored tests: where a brace-balanced body ends, and the cut. */
module IgnoredTests {
  import opened Sequences
  import opened Bytes
  import opened Brackets
  import opened Spans

  /** How far past `s` starts the brace that brings the depth back to zero ends; string literals
      are stepped over, with their escapes. */
  function BraceEnd(s: string, depth: int, escapes: bool): (n: Option<nat>)
    ensures n.Some? ==> 0 < n.value <= |s|
    decreases |s|
  {
    if s == "" then None
    else if s[0] == '"' then
      var k := 1 + StringLen(s[1..], '"', escapes);
      Further(k, BraceEnd(s[k..], depth, escapes))
    else if s[0] == '}' && depth == 1 then Some(1)
    else Further(1, BraceEnd(s[1..], BraceDepth(s[0], depth), escapes))
  }

  function BraceDepth(c: char, depth: int): int {
    if c == '{' then depth + 1 else if c == '}' then depth - 1 else depth
  }

  /** Just past the brace that matches the one at `open`, or the end of the text. */
  function BodyEndOf(text: string, open: nat): (end: nat)
    requires open < |text|
    ensures open < end <= |text|
  {
    match BraceEnd(text[open + 1..], 1, true)
    case Some(n) => open + 1 + n
    case None => |text|
  }

  /** The scan has come to `i`; `goal` is where it would end, from just past the first brace. */
  ghost predicate Reached(text: string, open: nat, i: nat, depth: nat, e: bool, goal: Option<nat>)
    requires open < |text| && i <= |text|
  {
    if depth == 0 then i == open && goal == BraceEnd(text[open + 1..], 1, e)
    else i > open && goal == Further(i - open - 1, BraceEnd(text[i..], depth, e))
  }

  lemma {:induction false} BraceAt(text: string, i: nat, depth: int, e: bool)
    requires i < |text| && text[i] != '"'
    ensures BraceEnd(text[i..], depth, e)
         == if text[i] == '}' && depth == 1 then Some(1)
            else Further(1, BraceEnd(text[i + 1..], BraceDepth(text[i], depth), e))
  {
    assert text[i..][0] == text[i] && text[i..][1..] == text[i + 1..];
  }

  lemma {:induction false} LiteralAt(text: string, i: nat, depth: int, end: nat, e: bool)
    requires i < end <= |text| && text[i] == '"' && end == i + 1 + StringLen(text[i + 1..], '"', e)
    ensures BraceEnd(text[i..], depth, e) == Further(end - i, BraceEnd(text[end..], depth, e))
  {
    assert text[i..][0] == text[i] && text[i..][1..] == text[i + 1..] && text[i..][end - i..] == text[end..];
  }

  lemma {:induction false} ReachEnd(text: string, open: nat, i: nat, depth: nat, e: bool, goal: Option<nat>)
    requires open < |text| && i < |text| && text[open] == '{' && Reached(text, open, i, depth, e, goal)
    requires text[i] == '}' && depth == 1
    ensures goal == Some(i - open)
  {
    BraceAt(text, i, depth, e);
  }

  lemma {:induction false} ReachChar(text: string, open: nat, i: nat, depth: nat, e: bool, goal: Option<nat>)
    requires open < |text| && i < |text| && text[open] == '{' && Reached(text, open, i, depth, e, goal)
    requires text[i] != '"' && !(text[i] == '}' && depth == 1)
    ensures BraceDepth(text[i], depth) > 0 && Reached(text, open, i + 1, BraceDepth(text[i], depth), e, goal)
  {
    if depth > 0 {
      BraceAt(text, i, depth, e);
    }
  }

  lemma {:induction false} ReachLiteral(text: string, open: nat, i: nat, depth: nat, end: nat, e: bool,
                                        goal: Option<nat>)
    requires open < |text| && i < end <= |text| && text[open] == '{' && text[i] == '"'
    requires Reached(text, open, i, depth, e, goal) && end == i + 1 + StringLen(text[i + 1..], '"', e)
    ensures Reached(text, open, end, depth, e, goal)
  {
    LiteralAt(text, i, depth, end, e);
  }

  lemma {:induction false} NotReached(text: string, open: nat, depth: nat, e: bool, goal: Option<nat>)
    requires open < |text| && text[open] == '{' && Reached(text, open, |text|, depth, e, goal)
    ensures goal == None
  {
    assert text[|text|..] == "";
  }

  /** `_body_end`: the index just past the brace that matches the one at `open`. */
  method BodyEnd(text: string, open: nat) returns (end: nat)
    requires open < |text| && text[open] == '{'
    ensures end == BodyEndOf(text, open)
  {
    var depth: nat := 0;
    var i := open;
    ghost var goal := BraceEnd(text[open + 1..], 1, true);
    while i < |text|
      invariant open <= i <= |text| && Reached(text, open, i, depth, true, goal)
    {
      if text[i] == '"' {
        var j := SkipString(text, i);
        ReachLiteral(text, open, i, depth, j, true, goal);
        i := j;
      } else {
        if text[i] == '}' && depth == 1 {
          ReachEnd(text, open, i, depth, true, goal);
          return i + 1;
        }
        ReachChar(text, open, i, depth, true, goal);
        depth := BraceDepth(text[i], depth);
        i := i + 1;
      }
    }
    NotReached(text, open, depth, true, goal);
    return |text|;
  }

  /** The inner loop: past the string literal that opens at `at`. */
  method SkipString(text: string, at: nat) returns (i: nat)
    requires at < |text| && text[at] == '"'
    ensures at < i <= |text| && i == at + 1 + StringLen(text[at + 1..], '"', true)
  {
    i := at + 1;
    while i < |text| && text[i] != '"'
      invariant at < i <= |text|
      invariant at + 1 + StringLen(text[at + 1..], '"', true) == i + StringLen(text[i..], '"', true)
    {
      LiteralStep(text, i, '"', true);
      i := if text[i] == '\\' && i + 2 <= |text| then i + 2 else i + 1;
    }
    if i < |text| {
      LiteralStep(text, i, '"', true);
      i := i + 1;
    } else {
      assert text[|text|..] == "";
    }
  }

  // ---------------------------------------------------------------- balanced bodies

  /** A test body as this scan sees it: only braces nest, and only double quotes make literals. */
  predicate Body(t: Text) {
    match t
    case End => true
    case Ch(c, rest) => c != '{' && c != '}' && c != '"' && Body(rest)
    case Arrow(rest) => Body(rest)
    case Str(q, body, rest) => q == '"' && GoodBody(body, q, true) && Body(rest)
    case Group(o, inner, c, rest) => o == '{' && c == '}' && Body(inner) && Body(rest)
  }

  ghost predicate StepsOver(x: string, s: string, depth: int, e: bool) {
    BraceEnd(x + s, depth, e) == Further(|x|, BraceEnd(s, depth, e))
  }

  lemma {:induction false} BraceChar(c: char, s: string, depth: int, e: bool)
    requires c != '"' && !(c == '}' && depth == 1)
    ensures BraceEnd([c] + s, depth, e) == Further(1, BraceEnd(s, BraceDepth(c, depth), e))
  {
    assert ([c] + s)[1..] == s;
  }

  lemma {:induction false} OverChar(c: char, x: string, s: string, depth: int, e: bool)
    requires StepsOver(x, s, depth, e) && c != '{' && c != '}' && c != '"'
    ensures StepsOver([c] + x, s, depth, e)
  {
    BraceChar(c, x + s, depth, e);
    Regroup([c], x, s);
  }

  lemma {:induction false} OverString(body: seq<Piece>, x: string, s: string, depth: int, e: bool)
    requires StepsOver(x, s, depth, e) && GoodBody(body, '"', e)
    ensures StepsOver(['"'] + (PrintBody(body) + ['"'] + x), s, depth, e)
  {
    OverLiteral(body, x + s, depth, e);
    Reassociate('"', PrintBody(body), x, s);
    assert |['"'] + (PrintBody(body) + ['"'] + x)| == |PrintBody(body)| + 2 + |x|;
  }

  lemma {:induction false} OverLiteral(body: seq<Piece>, s: string, depth: int, e: bool)
    requires GoodBody(body, '"', e)
    ensures BraceEnd(['"'] + (PrintBody(body) + ['"'] + s), depth, e)
         == Further(|PrintBody(body)| + 2, BraceEnd(s, depth, e))
  {
    var tail := PrintBody(body) + ['"'] + s;
    BodyLength(body, '"', e, s);
    assert (['"'] + tail)[1..] == tail;
    assert (['"'] + tail)[|PrintBody(body)| + 2..] == s;
  }

  lemma {:induction false} OpenBrace(s: string, depth: nat, e: bool)
    requires depth >= 1
    ensures BraceEnd(['{'] + s, depth, e) == Further(1, BraceEnd(s, depth + 1, e))
  {
    BraceChar('{', s, depth, e);
  }

  lemma {:induction false} CloseBrace(s: string, depth: nat, e: bool)
    requires depth >= 1
    ensures BraceEnd(['}'] + s, depth + 1, e) == Further(1, BraceEnd(s, depth, e))
  {
    BraceChar('}', s, depth + 1, e);
  }

  lemma {:induction false} OverGroup(inner: string, x: string, s: string, depth: nat, e: bool)
    requires depth >= 1 && StepsOver(x, s, depth, e) && StepsOver(inner, ['}'] + (x + s), depth + 1, e)
    ensures StepsOver(['{'] + (inner + (['}'] + x)), s, depth, e)
  {
    CloseBrace(x + s, depth, e);
    OpenBrace(inner + (['}'] + (x + s)), depth, e);
    GroupChain((y, d) => BraceEnd(y, d, e), '{', inner, '}', x, s, depth, depth + 1);
  }

  lemma {:induction false} BodyStepsOver(t: Text, s: string, depth: nat, e: bool)
    requires Body(t) && depth >= 1 && e
    ensures StepsOver(Print(t), s, depth, e)
    decreases t
  {
    match t
    case End => assert "" + s == s;
    case Ch(c, rest) =>
      BodyStepsOver(rest, s, depth, e);
      OverChar(c, Print(rest), s, depth, e);
    case Arrow(rest) =>
      BodyStepsOver(rest, s, depth, e);
      OverChar('>', Print(rest), s, depth, e);
      OverChar('-', ['>'] + Print(rest), s, depth, e);
      assert ['-'] + (['>'] + Print(rest)) == "->" + Print(rest);
    case Str(q, body, rest) =>
      BodyStepsOver(rest, s, depth, e);
      OverString(body, Print(rest), s, depth, e);
    case Group(o, inner, c, rest) =>
      BodyStepsOver(rest, s, depth, e);
      BodyStepsOver(inner, ['}'] + (Print(rest) + s), depth + 1, e);
      OverGroup(Print(inner), Print(rest), s, depth, e);
  }

  /** For a brace-balanced body, whatever its strings hold, the end is just past its own brace. */
  lemma {:induction false} BodyEndsAtItsBrace(before: string, t: Text, after: string)
    requires Body(t)
    ensures var text := before + ("{" + (Print(t) + ("}" + after)));
      BodyEndOf(text, |before|) == |before| + |"{" + Print(t) + "}"|
  {
    var tail := Print(t) + ("}" + after);
    var text := before + ("{" + tail);
    assert text[|before| + 1..] == tail;
    BodyStepsOver(t, "}" + after, 1, true);
    assert BraceEnd("}" + after, 1, true) == Some(1);
  }

  // ---------------------------------------------------------------- the cut

  /** Where an ignored test starts, and where the brace of its body is. */
  type Mark = (nat, nat)

  ghost predicate GoodMarks(text: string, marks: seq<Mark>) {
    forall k :: 0 <= k < |marks| ==> marks[k].0 <= marks[k].1 < |text| && text[marks[k].1] == '{'
  }

  function TestSpans(text: string, marks: seq<Mark>): (spans: seq<Span>)
    requires GoodMarks(text, marks)
    ensures |spans| == |marks|
    ensures forall k :: 0 <= k < |marks| ==> spans[k] == (marks[k].0, BodyEndOf(text, marks[k].1))
  {
    if marks == [] then []
    else [(marks[0].0, BodyEndOf(text, marks[0].1))] + TestSpans(text, marks[1..])
  }

  /** `strip_ignored_tests`: the text without the tests from their attribute to the end of their
      body, each character outside them kept in its place. */
  method StripIgnoredTests(text: string, marks: seq<Mark>) returns (out: string)
    requires GoodMarks(text, marks)
    ensures out == Deleted(text, TestSpans(text, marks))
  {
    var spans: seq<Span> := [];
    for k := 0 to |marks|
      invariant spans == TestSpans(text, marks)[..k]
    {
      var end := BodyEnd(text, marks[k].1);
      spans := spans + [(marks[k].0, end)];
    }
    assert spans == TestSpans(text, marks);
    out := DeleteSpans(text, spans);
  }
}
