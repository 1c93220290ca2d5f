/** How the bare-name gate counts the parameters of a declaration line, function types and
    string defaults included. */
module BareNames {
  import opened Sequences
  import opened Bytes
  import opened Brackets
  import opened Strings

  // ---------------------------------------------------------------- the parameter list

  /** The text between the first parenthesis of the line and its match. */
  function ParamListOf(line: string): Option<string> {
    if '(' !in line then None
    else if line[0] == '(' then InParens(line)
    else ParamListOf(line[1..])
  }

  lemma {:induction false} FirstParen(line: string, i: nat)
    requires i < |line| && line[i] == '(' && '(' !in line[..i]
    ensures ParamListOf(line) == ParamListOf(line[i..])
    decreases i
  {
    if i > 0 {
      assert line[0] == line[..i][0];
      assert line[1..][..i - 1] == line[..i][1..];
      assert line[1..][i - 1..] == line[i..];
      assert line[i] in line;
      FirstParen(line[1..], i - 1);
    }
  }

  /** `line.find("(")`. */
  method FindParen(line: string) returns (i: nat)
    ensures i <= |line| && '(' !in line[..i] && (i < |line| ==> line[i] == '(')
  {
    i := 0;
    while i < |line| && line[i] != '('
      invariant i <= |line| && '(' !in line[..i]
    {
      i := i + 1;
    }
  }

  /** `param_list`: the full parameter list of the line, balanced. */
  method ParamList(line: string) returns (params: Option<string>)
    ensures params == ParamListOf(line)
  {
    var i := FindParen(line);
    if i == |line| {
      assert line[..i] == line;
      return None;
    }
    FirstParen(line, i);
    var depth: nat := 0;
    ghost var goal := Close(line[i + 1..], 1, PARENS);
    assert line[i..][1..] == line[i + 1..];
    for j := i to |line|
      invariant Scanned(line, i, j, depth, PARENS, goal)
    {
      if line[j] == ')' && depth == 1 {
        MatchFound(line, i, j, PARENS, goal);
        return Some(line[i + 1..j]);
      }
      ScanStep(line, i, j, depth, PARENS, goal);
      depth := Counted(line[j], depth, PARENS);
    }
    NoMatch(line, i, depth, PARENS, goal);
    return None;
  }

  // ---------------------------------------------------------------- splitting

  /** `params.replace("->", "~~")`. */
  function BlankArrows(s: string): (r: string)
    ensures |r| == |s|
  {
    if s == "" then ""
    else if |s| >= 2 && s[0] == '-' && s[1] == '>' then "~~" + BlankArrows(s[2..])
    else [s[0]] + BlankArrows(s[1..])
  }

  /** The parts as the loop over the characters builds them: `cur` is the part so far, `quote`
      the open quote or nothing. */
  function Gather(s: string, depth: int, quote: Option<char>, cur: string): (parts: seq<string>)
    ensures parts != []
    decreases |s|
  {
    if s == "" then [cur]
    else if quote.Some? then Gather(s[1..], depth, if s[0] == quote.value then None else quote, cur + [s[0]])
    else if Quote(s[0]) then Gather(s[1..], depth, Some(s[0]), cur + [s[0]])
    else
      var d := Deeper(s[0], depth);
      if s[0] == ',' && d == 0 then [cur] + Gather(s[1..], d, None, "")
      else Gather(s[1..], d, None, cur + [s[0]])
  }

  /** The loop from this state gives what is gathered so far, then the parts of the rest. */
  ghost predicate Gathered(s: string, depth: int, quote: Option<char>, cur: string, e: bool) {
    Gather(s, depth, quote, cur) ==
      match quote
      case None => Prepend(cur, Parts(s, depth, e))
      case Some(q) => var k := StringLen(s, q, e); Prepend(cur + s[..k], Parts(s[k..], depth, e))
  }

  lemma {:induction false} GatheredAtClose(s: string, depth: int, q: char, cur: string, e: bool)
    requires s != "" && s[0] == q && !e && Gathered(s[1..], depth, None, cur + [q], e)
    ensures Gathered(s, depth, Some(q), cur, e)
  {
    assert StringLen(s, q, e) == 1;
    assert s[..1] == [q];
  }

  lemma {:induction false} GatheredInQuote(s: string, depth: int, q: char, cur: string, e: bool)
    requires s != "" && s[0] != q && !e && Gathered(s[1..], depth, Some(q), cur + [s[0]], e)
    ensures Gathered(s, depth, Some(q), cur, e)
  {
    var k := StringLen(s[1..], q, e);
    assert StringLen(s, q, e) == 1 + k;
    assert s[..1 + k] == [s[0]] + s[1..][..k];
    assert s[1 + k..] == s[1..][k..];
    assert cur + s[..1 + k] == cur + [s[0]] + s[1..][..k];
  }

  lemma {:induction false} GatheredAtQuote(s: string, depth: int, cur: string, e: bool)
    requires s != "" && Quote(s[0]) && Gathered(s[1..], depth, Some(s[0]), cur + [s[0]], e)
    ensures Gathered(s, depth, None, cur, e)
  {
    var k := StringLen(s[1..], s[0], e);
    var rest := Parts(s[1..][k..], depth, e);
    assert s[..1 + k] == [s[0]] + s[1..][..k] && s[1 + k..] == s[1..][k..];
    assert cur + [s[0]] + s[1..][..k] == cur + s[..1 + k];
    assert Parts(s, depth, e) == Prepend(s[..1 + k], rest);
    PrependTwice(cur, s[..1 + k], rest);
    assert Gather(s, depth, None, cur) == Prepend(cur + s[..1 + k], rest);
  }

  lemma {:induction false} GatheredAtComma(s: string, depth: int, cur: string, e: bool)
    requires s != "" && s[0] == ',' && depth == 0 && Gathered(s[1..], depth, None, "", e)
    ensures Gathered(s, depth, None, cur, e)
  {
    var rest := Parts(s[1..], depth, e);
    PrependCut(cur, rest);
    assert "" + rest[0] == rest[0];
    assert Prepend("", rest) == rest;
  }

  lemma {:induction false} GatheredAtChar(s: string, depth: int, cur: string, e: bool)
    requires s != "" && !Quote(s[0]) && !(s[0] == ',' && depth == 0)
    requires Gathered(s[1..], Deeper(s[0], depth), None, cur + [s[0]], e)
    ensures Gathered(s, depth, None, cur, e)
  {
    PrependTwice(cur, [s[0]], Parts(s[1..], Deeper(s[0], depth), e));
  }

  /** The loop over the characters cuts the text into its parts. */
  lemma {:induction false} GatherIsParts(s: string, depth: int, quote: Option<char>, cur: string, e: bool)
    requires !e
    ensures Gathered(s, depth, quote, cur, e)
    decreases |s|
  {
    if s == "" {
      assert cur + "" == cur && s[0..] == "";
    } else if quote.Some? {
      GatherIsParts(s[1..], depth, if s[0] == quote.value then None else quote, cur + [s[0]], e);
      if s[0] == quote.value {
        GatheredAtClose(s, depth, quote.value, cur, e);
      } else {
        GatheredInQuote(s, depth, quote.value, cur, e);
      }
    } else if Quote(s[0]) {
      GatherIsParts(s[1..], depth, Some(s[0]), cur + [s[0]], e);
      GatheredAtQuote(s, depth, cur, e);
    } else if s[0] == ',' && depth == 0 {
      GatherIsParts(s[1..], depth, None, "", e);
      GatheredAtComma(s, depth, cur, e);
    } else {
      GatherIsParts(s[1..], Deeper(s[0], depth), None, cur + [s[0]], e);
      GatheredAtChar(s, depth, cur, e);
    }
  }

  /** `split_params`: the stripped parts at the top-level commas, arrows blanked first. */
  method SplitParams(params: string) returns (out: seq<string>)
    ensures out == Kept(Parts(BlankArrows(params), 0, false))
  {
    var s := BlankArrows(params);
    out := [];
    var depth := 0;
    var quote: Option<char> := None;
    var cur := "";
    ghost var whole := Gather(s, 0, None, "");
    assert s[0..] == s;
    for i := 0 to |s|
      invariant whole == out + Gather(s[i..], depth, quote, cur)
    {
      var ch := s[i];
      GatherStep(s, i, depth, quote, cur, out);
      if quote.Some? {
        cur := cur + [ch];
        if ch == quote.value {
          quote := None;
        }
      } else if Quote(ch) {
        quote := Some(ch);
        cur := cur + [ch];
      } else {
        depth := Deeper(ch, depth);
        if ch == ',' && depth == 0 {
          out := out + [cur];
          cur := "";
        } else {
          cur := cur + [ch];
        }
      }
    }
    assert s[|s|..] == "";
    out := out + [cur];
    GatherWhole(s, false);
    out := Kept(out);
  }

  lemma {:induction false} GatherWhole(s: string, e: bool)
    requires !e
    ensures Gather(s, 0, None, "") == Parts(s, 0, e)
  {
    GatherIsParts(s, 0, None, "", e);
    assert "" + Parts(s, 0, e)[0] == Parts(s, 0, e)[0];
  }

  lemma {:induction false} GatherStep(s: string, i: nat, depth: int, quote: Option<char>, cur: string, out: seq<string>)
    requires i < |s|
    ensures var d := if quote.Some? || Quote(s[i]) then depth else Deeper(s[i], depth);
      out + Gather(s[i..], depth, quote, cur) ==
        if quote == None && s[i] == ',' && d == 0 then out + [cur] + Gather(s[i + 1..], d, None, "")
        else out + Gather(s[i + 1..], d,
                          if quote.Some? then (if s[i] == quote.value then None else quote)
                          else if Quote(s[i]) then Some(s[i]) else None, cur + [s[i]])
  {
    assert s[i..][0] == s[i] && s[i..][1..] == s[i + 1..];
  }

  /** `arity`. */
  method Arity(params: string) returns (n: nat)
    ensures n == |Kept(Parts(BlankArrows(params), 0, false))|
  {
    var parts := SplitParams(params);
    n := |parts|;
  }

  // ---------------------------------------------------------------- declared parameters

  function Plains(s: string): (body: seq<Piece>)
    ensures PrintBody(body) == s
    ensures |body| == |s| && forall i :: 0 <= i < |s| ==> body[i] == Plain(s[i])
  {
    if s == "" then [] else [Plain(s[0])] + Plains(s[1..])
  }

  /** The text with its arrows, and those in its literals, blanked. */
  function BlankText(t: Text): Text {
    match t
    case End => End
    case Ch(c, rest) => Ch(c, BlankText(rest))
    case Arrow(rest) => Ch('~', Ch('~', BlankText(rest)))
    case Str(q, body, rest) => Str(q, Plains(BlankArrows(PrintBody(body))), BlankText(rest))
    case Group(o, inner, c, rest) => Group(o, BlankText(inner), c, BlankText(rest))
  }

  lemma {:induction false} BlankOne(c: char, s: string)
    requires !(c == '-' && StartsAngle(s))
    ensures BlankArrows([c] + s) == [c] + BlankArrows(s)
  {
    assert ([c] + s)[1..] == s;
  }

  lemma {:induction false} BlankTwo(s: string)
    ensures BlankArrows("->" + s) == "~~" + BlankArrows(s)
  {
    assert ("->" + s)[2..] == s;
  }

  ghost predicate BlanksApart(x: string, s: string) { BlankArrows(x + s) == BlankArrows(x) + BlankArrows(s) }

  lemma {:induction false} ApartChar(c: char, x: string, s: string)
    requires BlanksApart(x, s) && !(c == '-' && StartsAngle(x)) && !(c == '-' && StartsAngle(x + s))
    ensures BlanksApart([c] + x, s)
  {
    BlankOne(c, x + s);
    BlankOne(c, x);
    Regroup([c], x, s);
    Regroup([c], BlankArrows(x), BlankArrows(s));
  }

  lemma {:induction false} ApartArrow(x: string, s: string)
    requires BlanksApart(x, s)
    ensures BlanksApart("->" + x, s)
  {
    BlankTwo(x + s);
    BlankTwo(x);
    Regroup("->", x, s);
    Regroup("~~", BlankArrows(x), BlankArrows(s));
  }

  /** No arrow starts in one text and ends in the other. */
  lemma {:induction false} BlankUpTo(x: string, s: string)
    requires !StartsAngle(s)
    ensures BlanksApart(x, s)
    decreases |x|
  {
    if x == "" {
      assert "" + s == s;
    } else if |x| >= 2 && x[0] == '-' && x[1] == '>' {
      BlankUpTo(x[2..], s);
      ApartArrow(x[2..], s);
      assert x == "->" + x[2..];
    } else {
      BlankUpTo(x[1..], s);
      ApartChar(x[0], x[1..], s);
      assert x == [x[0]] + x[1..];
    }
  }

  lemma {:induction false} BlankKeepsOut(x: string, c: char)
    requires c !in x && c != '~'
    ensures c !in BlankArrows(x)
    decreases |x|
  {
    if |x| >= 2 && x[0] == '-' && x[1] == '>' {
      assert forall i :: 0 <= i < |x[2..]| ==> x[2..][i] == x[i + 2];
      BlankKeepsOut(x[2..], c);
    } else if x != "" {
      assert forall i :: 0 <= i < |x[1..]| ==> x[1..][i] == x[i + 1];
      BlankKeepsOut(x[1..], c);
    }
  }

  lemma {:induction false} NotInBody(body: seq<Piece>, q: char, e: bool)
    requires GoodBody(body, q, e) && !e
    ensures q !in PrintBody(body)
    decreases |body|
  {
    if body != [] {
      assert body[0] in body && forall p :: p in body[1..] ==> p in body;
      NotInBody(body[1..], q, e);
    }
  }

  lemma {:induction false} BlankBodyGood(body: seq<Piece>, q: char, e: bool)
    requires GoodBody(body, q, e) && Quote(q) && !e
    ensures GoodBody(Plains(BlankArrows(PrintBody(body))), q, e)
  {
    NotInBody(body, q, e);
    BlankKeepsOut(PrintBody(body), q);
  }

  /** Blanking `x` before `s` gives `y`, and leaves `s` to be blanked alone. */
  ghost predicate BlanksTo(x: string, y: string, s: string) { BlankArrows(x + s) == y + BlankArrows(s) }

  lemma {:induction false} BlankChar(c: char, x: string, y: string, s: string)
    requires BlanksTo(x, y, s) && !(c == '-' && StartsAngle(x + s))
    ensures BlanksTo([c] + x, [c] + y, s)
  {
    BlankOne(c, x + s);
    Regroup([c], x, s);
    Regroup([c], y, BlankArrows(s));
  }

  lemma {:induction false} BlankArrow(x: string, y: string, s: string)
    requires BlanksTo(x, y, s)
    ensures BlanksTo("->" + x, ['~'] + (['~'] + y), s)
  {
    BlankTwo(x + s);
    Regroup("->", x, s);
    Regroup("~~", y, BlankArrows(s));
    assert ['~'] + (['~'] + y) == "~~" + y;
  }

  /** Blanking the printed text is printing the blanked text. */
  lemma {:induction false} BlankPrints(t: Text, s: string, e: bool)
    requires Balanced(t, e) && !e && DashSafe(t) && !(EndsInDash(t) && StartsAngle(s))
    ensures BlanksTo(Print(t), Print(BlankText(t)), s)
    decreases t
  {
    match t
    case End => assert "" + s == s;
    case Ch(c, rest) =>
      BlankPrints(rest, s, e);
      if c == '-' {
        FirstNotAngle(rest, s, e);
      }
      BlankChar(c, Print(rest), Print(BlankText(rest)), s);
    case Arrow(rest) =>
      BlankPrints(rest, s, e);
      BlankArrow(Print(rest), Print(BlankText(rest)), s);
    case Str(q, body, rest) =>
      BlankPrints(rest, s, e);
      BlankLiteral(q, PrintBody(body), Print(rest), s, Print(BlankText(rest)));
    case Group(o, inner, c, rest) =>
      BlankPrints(rest, s, e);
      BlankPrints(inner, [c] + (Print(rest) + s), e);
      BlankGroup(o, Print(inner), c, Print(rest), s, Print(BlankText(inner)), Print(BlankText(rest)));
  }

  lemma {:induction false} BlankLiteral(q: char, body: string, x: string, s: string, x': string)
    requires Quote(q) && BlanksTo(x, x', s)
    ensures BlanksTo([q] + (body + [q] + x), [q] + (BlankArrows(body) + [q] + x'), s)
  {
    hide BlankArrows;
    var b := BlankArrows(body);
    var tail := [q] + (x + s);
    BlankOne(q, x + s);
    BlankUpTo(body, tail);
    BlankOne(q, body + tail);
    Reassociate(q, body, x, s);
    Reassociate(q, b, x', BlankArrows(s));
    assert body + [q] + (x + s) == body + tail;
    assert b + [q] + (x' + BlankArrows(s)) == b + ([q] + (x' + BlankArrows(s)));
  }

  lemma {:induction false} BlankGroup(o: char, inner: string, c: char, x: string, s: string, inner': string, x': string)
    requires Opens(o) && Closes(c) && BlanksTo(x, x', s) && BlanksTo(inner, inner', [c] + (x + s))
    ensures BlanksTo([o] + (inner + ([c] + x)), [o] + (inner' + ([c] + x')), s)
  {
    BlankOne(c, x + s);
    BlankOne(o, inner + ([c] + (x + s)));
    assert [o] + (inner + ([c] + x)) + s == [o] + (inner + ([c] + (x + s)));
  }

  /** Without angles that compare. */
  predicate SignFree(t: Text) {
    match t
    case End => true
    case Ch(c, rest) => !Loose(c) && SignFree(rest)
    case Arrow(rest) => SignFree(rest)
    case Str(_, _, rest) => SignFree(rest)
    case Group(_, inner, _, rest) => SignFree(inner) && SignFree(rest)
  }

  lemma {:induction false} BlankItem(t: Text, e: bool)
    requires Balanced(t, e) && !e
    ensures Balanced(BlankText(t), e) && (SignFree(t) ==> Tight(BlankText(t)))
    ensures NoTopComma(t) ==> NoTopComma(BlankText(t))
    decreases t
  {
    match t
    case End =>
    case Ch(_, rest) => BlankItem(rest, e);
    case Arrow(rest) => BlankItem(rest, e);
    case Str(q, body, rest) =>
      BlankItem(rest, e);
      BlankBodyGood(body, q, e);
    case Group(_, inner, _, rest) =>
      BlankItem(inner, e);
      BlankItem(rest, e);
  }

  lemma {:induction false} BlankAppend(t: Text, more: Text)
    ensures BlankText(Append(t, more)) == Append(BlankText(t), BlankText(more))
    decreases t
  {
    if !t.End? {
      BlankAppend(t.rest, more);
    }
  }

  function BlankAll(ps: seq<Text>): (r: seq<Text>)
    ensures |r| == |ps| && forall i :: 0 <= i < |ps| ==> r[i] == BlankText(ps[i])
  {
    if ps == [] then [] else [BlankText(ps[0])] + BlankAll(ps[1..])
  }

  lemma {:induction false} BlankCommas(ps: seq<Text>)
    ensures BlankText(Commas(ps)) == Commas(BlankAll(ps))
    decreases |ps|
  {
    if |ps| > 1 {
      BlankCommas(ps[1..]);
      BlankAppend(ps[0], Ch(',', Commas(ps[1..])));
      assert BlankAll(ps)[1..] == BlankAll(ps[1..]);
    }
  }

  lemma {:induction false} BlankStaysBlank(s: string)
    ensures Blank(BlankArrows(s)) <==> Blank(s)
    decreases |s|
  {
    if |s| >= 2 && s[0] == '-' && s[1] == '>' {
      assert BlankArrows(s)[0] == '~' && !PySpace(s[0]);
    } else if s != "" {
      BlankStaysBlank(s[1..]);
      BlankHead(s[0], s[1..]);
      BlankHead(s[0], BlankArrows(s[1..]));
      assert s == [s[0]] + s[1..];
    }
  }

  lemma {:induction false} BlankHead(c: char, s: string)
    ensures Blank([c] + s) <==> PySpace(c) && Blank(s)
  {
    var all := [c] + s;
    assert forall i :: 0 <= i < |s| ==> s[i] == all[i + 1];
    assert forall i :: 1 <= i < |all| ==> all[i] == s[i - 1];
    assert all[0] == c;
  }

  /** A parameter with its default. */
  predicate Declarable(p: Text) { Balanced(p, false) && DashSafe(p) && !Blank(Print(p)) }

  predicate Listable(t: Text) { Balanced(t, false) && DashSafe(t) }

  lemma {:induction false} AppendListable(t: Text, more: Text)
    requires Listable(t) && Listable(more) && !StartsLoose(more)
    ensures Listable(Append(t, more))
    decreases t
  {
    if !t.End? {
      AppendListable(t.rest, more);
    }
  }

  lemma {:induction false} CommasListable(ps: seq<Text>)
    requires forall p :: p in ps ==> Declarable(p)
    ensures Listable(Commas(ps))
    decreases |ps|
  {
    if ps != [] {
      assert ps[0] in ps;
    }
    if |ps| > 1 {
      CommasListable(ps[1..]);
      AppendListable(ps[0], Ch(',', Commas(ps[1..])));
    }
  }

  lemma {:induction false} AppendMatched(t: Text, more: Text, open: char, close: char)
    requires Matched(t, open, close) && Matched(more, open, close)
    ensures Matched(Append(t, more), open, close)
    decreases t
  {
    if !t.End? {
      AppendMatched(t.rest, more, open, close);
    }
  }

  lemma {:induction false} CommasMatched(ps: seq<Text>, open: char, close: char)
    requires open != ',' && close != ',' && forall p :: p in ps ==> Matched(p, open, close)
    ensures Matched(Commas(ps), open, close)
    decreases |ps|
  {
    if ps != [] {
      assert ps[0] in ps;
    }
    if |ps| > 1 {
      CommasMatched(ps[1..], open, close);
      AppendMatched(ps[0], Ch(',', Commas(ps[1..])), open, close);
    }
  }

  lemma {:induction false} KeepsAll(ps: seq<Text>)
    requires forall p :: p in ps ==> Declarable(p)
    ensures |Kept(Prints(BlankAll(ps)))| == |ps|
    decreases |ps|
  {
    if ps != [] {
      assert ps[0] in ps;
      KeepsAll(ps[1..]);
      BlankPrints(ps[0], "", false);
      assert Print(ps[0]) + "" == Print(ps[0]) && Print(BlankText(ps[0])) + "" == Print(BlankText(ps[0]));
      BlankStaysBlank(Print(ps[0]));
      StripBlank(Print(BlankText(ps[0])));
      assert Prints(BlankAll(ps))[1..] == Prints(BlankAll(ps[1..]));
    }
  }

  /** For every list of parameters, `split_params` cuts at the parameters if and only if, arrows
      blanked, all of them but the last are level and none holds a comma nested as deep as the
      drift before it; then it finds each of them. */
  lemma {:induction false} SplitsEvery(ps: seq<Text>, e: bool)
    requires !e && forall p :: p in ps ==> Declarable(p)
    ensures var parts := Parts(BlankArrows(Print(Commas(ps))), 0, e);
      && (ps != [] ==> (parts == Prints(BlankAll(ps)) <==> CutRight(BlankAll(ps))))
      && (ps == [] || CutRight(BlankAll(ps)) ==> |Kept(parts)| == |ps|)
  {
    CommasListable(ps);
    BlankPrints(Commas(ps), "", e);
    var t := Print(Commas(ps));
    assert t + "" == t && Print(BlankText(Commas(ps))) + "" == Print(BlankText(Commas(ps)));
    BlankCommas(ps);
    KeepsAll(ps);
    if ps != [] {
      BlankAllBalanced(ps, e);
      PartsOfList(BlankAll(ps), e);
    }
  }

  lemma {:induction false} BlankAllBalanced(ps: seq<Text>, e: bool)
    requires !e && forall p :: p in ps ==> Declarable(p)
    ensures forall p :: p in BlankAll(ps) ==> Balanced(p, e)
  {
    forall i | 0 <= i < |ps| ensures Balanced(BlankAll(ps)[i], e) {
      assert ps[i] in ps;
      BlankItem(ps[i], e);
    }
  }

  /** In particular when no angle compares, whatever arrows there are. */
  lemma {:induction false} SignFreeIsCutRight(ps: seq<Text>, e: bool)
    requires !e && ps != [] && forall p :: p in ps ==> Item(p, e) && SignFree(p)
    ensures CutRight(BlankAll(ps))
  {
    forall i | 0 <= i < |ps| ensures Item(BlankAll(ps)[i], e) && Tight(BlankAll(ps)[i]) {
      assert ps[i] in ps;
      BlankItem(ps[i], e);
    }
    TightIsCutRight(BlankAll(ps), e);
  }

  /** The line of a declaration: `before` ends with its name. */
  function Line(before: string, ps: seq<Text>, after: string): string {
    before + ("(" + (Print(Commas(ps)) + (")" + after)))
  }

  /** For every declaration line: `param_list` gives its parameter list if and only if the list
      keeps its parenthesis open to its end, and the arity of that list is the number of
      parameters if they are cut right. */
  lemma {:induction false} ArityOfLine(before: string, ps: seq<Text>, after: string)
    requires '(' !in before && forall p :: p in ps ==> Declarable(p)
    ensures ParamListOf(Line(before, ps, after)) == Some(Print(Commas(ps))) <==> Keeps(Print(Commas(ps)), 1, PARENS)
    ensures ps == [] || CutRight(BlankAll(ps)) ==> |Kept(Parts(BlankArrows(Print(Commas(ps))), 0, false))| == |ps|
  {
    SplitsEvery(ps, false);
    var line := Line(before, ps, after);
    var list := Print(Commas(ps));
    var tail := list + ([')'] + after);
    assert line[..|before|] == before && line[|before|] == '(';
    FirstParen(line, |before|);
    assert line[|before|..] == "(" + tail && ("(" + tail)[1..] == tail && tail[..|list|] == list;
    ClosesAfter(list, after, 1, PARENS);
  }

  /** A parenthesis that a default string closes ends the list: `f(msg: Text = ":)")`. */
  lemma {:induction false} SmileEndsList(before: string, rest: string)
    requires '(' !in before
    ensures ParamListOf(before + ("(" + ("msg: Text = \":" + (")" + rest)))) == Some("msg: Text = \":")
  {
    var cut := "msg: Text = \":";
    var tail := cut + ([')'] + rest);
    var line := before + ("(" + (cut + (")" + rest)));
    assert line[..|before|] == before && line[|before|] == '(';
    FirstParen(line, |before|);
    assert line[|before|..] == "(" + tail && ("(" + tail)[1..] == tail && tail[..|cut|] == cut;
    RunKeeps(cut);
    ClosesAfter(cut, rest, 1, PARENS);
  }

  lemma {:induction false} RunKeeps(s: string)
    requires Without(s, '(', ')')
    ensures Keeps(s, 1, PARENS)
    decreases |s|
  {
    if s != "" {
      assert s[0] in s;
      RunKeeps(s[1..]);
    }
  }
}
