/** How the call-arity gate finds the parameter text of a declaration, past its generics. */
module Declarations {
  import opened Bytes
  import opened Brackets

  // ---------------------------------------------------------------- the parameter text

  function SkipIn(s: string, blanks: string): string {
    if s != "" && s[0] in blanks then SkipIn(s[1..], blanks) else s
  }

  /** What follows a generic parameter list, if there is one; nothing if it is never closed. */
  function AfterAngles(s: string): string {
    if s == "" || s[0] != '<' then s
    else match Close(s[1..], 1, ANGLES)
      case Some(k) => s[1..][k + 1..]
      case None => ""
  }

  function ParamTextOf(s: string): Option<string> {
    InParens(SkipIn(AfterAngles(SkipIn(s, " \t")), " \t\n"))
  }

  method SkipBlanks(body: string, at: nat, blanks: string) returns (i: nat)
    requires at <= |body|
    ensures at <= i <= |body| && body[i..] == SkipIn(body[at..], blanks)
  {
    i := at;
    while i < |body| && body[i] in blanks
      invariant at <= i <= |body| && SkipIn(body[i..], blanks) == SkipIn(body[at..], blanks)
    {
      assert body[i..][1..] == body[i + 1..];
      i := i + 1;
    }
  }

  lemma {:induction false} ScanStart(body: string, start: nat, p: Pair)
    requires start < |body|
    ensures Scanned(body, start, start, 0, p, Close(body[start + 1..], 1, p))
  {
  }

  /** The angle loop: past the list that opens at `start`, or at the end of the text. */
  method SkipAngles(body: string, start: nat) returns (i: nat)
    requires start < |body| && body[start] == '<'
    ensures i <= |body| && body[i..] == AfterAngles(body[start..])
  {
    i := start;
    var depth: nat := 0;
    ghost var goal := Close(body[start + 1..], 1, ANGLES);
    assert body[start..][1..] == body[start + 1..];
    ScanStart(body, start, ANGLES);
    hide Close, Scanned;
    while i < |body|
      invariant start <= i <= |body| && Scanned(body, start, i, depth, ANGLES, goal)
      decreases |body| - i
    {
      if body[i] == '-' && i + 1 < |body| && body[i + 1] == '>' {
        ScanArrow(body, start, i, depth, ANGLES, goal);
        i := i + 2;
      } else if body[i] == '>' && depth == 1 {
        MatchFound(body, start, i, ANGLES, goal);
        return i + 1;
      } else {
        ScanStep(body, start, i, depth, ANGLES, goal);
        depth := Counted(body[i], depth, ANGLES);
        i := i + 1;
      }
    }
    NoMatch(body, start, depth, ANGLES, goal);
    assert body[i..] == "";
  }

  /** The parenthesis loop: the text between the one at `start` and its match. */
  method BetweenParens(body: string, start: nat) returns (text: Option<string>)
    requires start < |body| && body[start] == '('
    ensures text == InParens(body[start..])
  {
    var i := start;
    var depth: nat := 0;
    ghost var goal := Close(body[start + 1..], 1, PARENS);
    assert body[start..][1..] == body[start + 1..];
    while i < |body|
      invariant start <= i <= |body| && Scanned(body, start, i, depth, PARENS, goal)
    {
      if body[i] == ')' && depth == 1 {
        MatchFound(body, start, i, PARENS, goal);
        return Some(body[start + 1..i]);
      }
      ScanStep(body, start, i, depth, PARENS, goal);
      depth := Counted(body[i], depth, PARENS);
      i := i + 1;
    }
    NoMatch(body, start, depth, PARENS, goal);
    return None;
  }

  /** `param_text`: the text between the parentheses of the function whose name ends at `at`. */
  method ParamText(body: string, at: nat) returns (text: Option<string>)
    requires at <= |body|
    ensures text == ParamTextOf(body[at..])
  {
    var i := SkipBlanks(body, at, " \t");
    if i < |body| && body[i] == '<' {
      i := SkipAngles(body, i);
    }
    i := SkipBlanks(body, i, " \t\n");
    if i >= |body| || body[i] != '(' {
      return None;
    }
    text := BetweenParens(body, i);
  }

  lemma {:induction false} SkipAll(blanks: string, all: string, s: string)
    requires forall i :: 0 <= i < |blanks| ==> blanks[i] in all
    requires s == "" || s[0] !in all
    ensures SkipIn(blanks + s, all) == s
    decreases |blanks|
  {
    if blanks == "" {
      assert blanks + s == s;
    } else {
      assert (blanks + s)[1..] == blanks[1..] + s;
      SkipAll(blanks[1..], all, s);
    }
  }

  /** A declaration from the end of its name on: the generics are optional. */
  function Declaration(blanks: string, generics: Option<string>, gap: string, params: string, after: string): string {
    blanks + ((match generics case Some(g) => "<" + (g + (">" + (gap + Parenthesised(params, after))))
                              case None => gap + Parenthesised(params, after)))
  }

  function Parenthesised(params: string, after: string): string { "(" + (params + (")" + after)) }

  lemma {:induction false} InParensReads(params: string, after: string)
    ensures InParens(Parenthesised(params, after)) == Some(params) <==> Keeps(params, 1, PARENS)
  {
    var s := Parenthesised(params, after);
    var tail := params + ([')'] + after);
    assert s[1..] == tail && tail[..|params|] == params;
    ClosesAfter(params, after, 1, PARENS);
  }

  lemma {:induction false} AfterAnglesReads(g: string, s: string)
    ensures Keeps(g, 1, ANGLES) ==> AfterAngles("<" + (g + (">" + s))) == s
    ensures s != "" && AfterAngles("<" + (g + (">" + s))) == s ==> Keeps(g, 1, ANGLES)
  {
    var all := "<" + (g + (">" + s));
    var tail := g + (['>'] + s);
    assert all[1..] == tail && tail[|g| + 1..] == s;
    ClosesAfter(g, s, 1, ANGLES);
  }

  /** For any text in the generics that keeps its angle bracket open to its end, arrows not
      counting, `param_text` returns exactly the text between the parentheses if and only if
      that text keeps the parenthesis open to its end. */
  lemma {:induction false} ParamTextReads(blanks: string, generics: Option<string>, gap: string, params: string,
                                          after: string)
    requires forall i :: 0 <= i < |blanks| ==> blanks[i] in " \t"
    requires forall i :: 0 <= i < |gap| ==> gap[i] in " \t\n"
    requires generics.Some? ==> Keeps(generics.value, 1, ANGLES)
    ensures ParamTextOf(Declaration(blanks, generics, gap, params, after)) == Some(params) <==> Keeps(params, 1, PARENS)
  {
    var list := Parenthesised(params, after);
    InParensReads(params, after);
    SkipAll(gap, " \t\n", list);
    match generics
    case Some(g) =>
      SkipAll(blanks, " \t", "<" + (g + (">" + (gap + list))));
      AfterAnglesReads(g, gap + list);
    case None =>
      NoGenerics(blanks, gap, list);
  }

  /** Generics of any nesting, with function types and their arrows, do keep it open; and so do
      parameters whose parentheses only nest. */
  lemma {:induction false} DeclaredTextReads(blanks: string, generics: Text, gap: string, params: Text, after: string,
                                             e: bool)
    requires forall i :: 0 <= i < |blanks| ==> blanks[i] in " \t"
    requires forall i :: 0 <= i < |gap| ==> gap[i] in " \t\n"
    requires Balanced(generics, e) && Matched(generics, '<', '>') && DashSafe(generics) && !EndsInDash(generics)
    requires Balanced(params, e) && Matched(params, '(', ')')
    ensures ParamTextOf(Declaration(blanks, Some(Print(generics)), gap, Print(params), after)) == Some(Print(params))
  {
    TextKeeps(generics, ANGLES, e);
    TextKeeps(params, PARENS, e);
    ParamTextReads(blanks, Some(Print(generics)), gap, Print(params), after);
  }

  lemma {:induction false} SkipTwice(s: string, few: string, many: string)
    requires forall c :: c in few ==> c in many
    ensures SkipIn(SkipIn(s, few), many) == SkipIn(s, many)
    decreases |s|
  {
    if s != "" && s[0] in few {
      SkipTwice(s[1..], few, many);
    }
  }

  /** Without generics the two skips meet: what the first leaves, the second takes. */
  lemma {:induction false} NoGenerics(blanks: string, gap: string, list: string)
    requires forall i :: 0 <= i < |blanks| ==> blanks[i] in " \t"
    requires forall i :: 0 <= i < |gap| ==> gap[i] in " \t\n"
    requires list != "" && list[0] == '('
    ensures SkipIn(AfterAngles(SkipIn(blanks + (gap + list), " \t")), " \t\n") == list
  {
    var all := blanks + gap + list;
    assert blanks + (gap + list) == all;
    SkipAll(blanks + gap, " \t\n", list);
    SkipTwice(all, " \t", " \t\n");
    assert SkipIn(all, " \t") != "" ==> SkipIn(all, " \t")[0] != '<';
  }
}
