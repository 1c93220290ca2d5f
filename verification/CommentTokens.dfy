/** What the comment stripper means, token by token: every source is a list of literals,
    comments and plain bytes, and stripping drops the comments and nothing else. */
module CommentTokens {
  import opened Bytes
  import opened Sequences
  import opened Comments

  datatype Piece = Raw(c: Byte) | Escaped(c: Byte)

  datatype Token =
    | Plain(c: Byte)
    | Literal(body: seq<Piece>)
    | LineNote(text: ByteString)
    | BlockNote(text: ByteString)
    | OpenLiteral(body: seq<Piece>, dangling: bool)  // runs to the end of the file
    | OpenBlock(text: ByteString)                    // runs to the end of the file

  function PrintPieces(body: seq<Piece>): ByteString {
    if body == [] then []
    else (match body[0] case Raw(c) => [c] case Escaped(c) => ['\\', c]) + PrintPieces(body[1..])
  }

  function Print(t: Token): ByteString {
    match t
    case Plain(c) => [c]
    case Literal(body) => ['"'] + PrintPieces(body) + ['"']
    case LineNote(text) => "//" + text
    case BlockNote(text) => "/*" + text + "*/"
    case OpenLiteral(body, dangling) => ['"'] + PrintPieces(body) + (if dangling then ['\\'] else [])
    case OpenBlock(text) => "/*" + text
  }

  function PrintAll(ts: seq<Token>): ByteString {
    if ts == [] then [] else Print(ts[0]) + PrintAll(ts[1..])
  }

  /** What must survive of a token: all of it, unless it is a comment; of a block comment,
      its newlines. */
  function Kept(t: Token): ByteString {
    match t
    case LineNote(_) => []
    case BlockNote(text) => Newlines(text)
    case OpenBlock(text) => Newlines(text)
    case _ => Print(t)
  }

  function KeptAll(ts: seq<Token>): ByteString {
    if ts == [] then [] else Kept(ts[0]) + KeptAll(ts[1..])
  }

  predicate GoodPieces(body: seq<Piece>) {
    forall i :: 0 <= i < |body| && body[i].Raw? ==> body[i].c != '"' && body[i].c != '\\'
  }

  predicate NoClose(text: ByteString) {
    forall i :: 0 <= i < |text| - 1 ==> text[i] != '*' || text[i + 1] != '/'
  }

  predicate StartsComment(s: ByteString) { s != [] && (s[0] == '/' || s[0] == '*') }

  /** The token is what a reader of the language sees at the head of `Print(t) + rest`. */
  predicate Fits(t: Token, rest: ByteString) {
    match t
    case Plain(c) => c != '"' && (c == '/' ==> !StartsComment(rest))
    case Literal(body) => GoodPieces(body)
    case LineNote(text) => '\n' !in text && (rest == [] || rest[0] == '\n')
    case BlockNote(text) => NoClose(text)
    case OpenLiteral(body, _) => GoodPieces(body) && rest == []
    case OpenBlock(text) => NoClose(text) && rest == []
  }

  /** The tokens are the ones a reader of the language would see. */
  predicate WellFormed(ts: seq<Token>) {
    ts == [] || (Fits(ts[0], PrintAll(ts[1..])) && WellFormed(ts[1..]))
  }

  lemma {:induction false} KeepPiece(p: Piece, t: ByteString)
    requires GoodPieces([p])
    ensures var s: ByteString := match p case Raw(c) => [c] case Escaped(c) => ['\\', c];
      Keep(s + t, InString) == s + Keep(t, InString)
  {
    assert [p][0] == p;
    match p {
      case Raw(c) => assert ([c] + t)[1..] == t;
      case Escaped(c) => assert (['\\', c] + t)[2..] == t;
    }
  }

  lemma {:induction false} KeepPieces(body: seq<Piece>, rest: ByteString)
    requires GoodPieces(body)
    ensures Keep(PrintPieces(body) + rest, InString) == PrintPieces(body) + Keep(rest, InString)
  {
    if body == [] {
      assert PrintPieces(body) + rest == rest;
    } else {
      KeepPieces(body[1..], rest);
      KeepPiece(body[0], PrintPieces(body[1..]) + rest);
      var p: ByteString := match body[0] case Raw(c) => [c] case Escaped(c) => ['\\', c];
      Regroup(p, PrintPieces(body[1..]), rest);
      Regroup(p, PrintPieces(body[1..]), Keep(rest, InString));
    }
  }

  lemma {:induction false} KeepLine(text: ByteString, rest: ByteString)
    requires '\n' !in text && (rest == [] || rest[0] == '\n')
    ensures Keep(text + rest, InLine) == if rest == [] then [] else Keep(rest, Code)
  {
    if text == [] {
      assert text + rest == rest;
    } else {
      assert text[0] in text;
      assert (text + rest)[1..] == text[1..] + rest;
      KeepLine(text[1..], rest);
    }
  }

  lemma {:induction false} KeepBlock(text: ByteString, rest: ByteString)
    requires NoClose(text) && (rest == [] || (|rest| >= 2 && rest[0] == '*' && rest[1] == '/'))
    ensures Keep(text + rest, InBlock) == Newlines(text) + (if rest == [] then [] else Keep(rest[2..], Code))
  {
    if text == [] {
      assert text + rest == rest;
    } else {
      KeepBlock(text[1..], rest);
      KeepBlockByte(text, rest);
      NewlinesHead(text);
      hide Keep, Newlines, NoClose;
      Regroup(Newlines([text[0]]), Newlines(text[1..]), if rest == [] then [] else Keep(rest[2..], Code));
    }
  }

  lemma {:induction false} NewlinesHead(text: ByteString)
    requires text != []
    ensures Newlines(text) == Newlines([text[0]]) + Newlines(text[1..])
  {
    assert [text[0]][1..] == [];
  }

  lemma {:induction false} KeepBlockByte(text: ByteString, rest: ByteString)
    requires NoClose(text) && text != [] && (rest == [] || (|rest| >= 2 && rest[0] == '*' && rest[1] == '/'))
    ensures Keep(text + rest, InBlock) == Newlines([text[0]]) + Keep(text[1..] + rest, InBlock)
  {
    var s := text + rest;
    assert s[1..] == text[1..] + rest && s[0] == text[0];
    assert |text| > 1 ==> s[1] == text[1];
    assert [text[0]][1..] == [];
  }

  lemma {:induction false} KeepOpenQuote(t: ByteString)
    ensures Keep(['"'] + t, Code) == ['"'] + Keep(t, InString)
  {
    assert (['"'] + t)[1..] == t;
  }

  lemma {:induction false} KeepCloseQuote(t: ByteString)
    ensures Keep(['"'] + t, InString) == ['"'] + Keep(t, Code)
  {
    assert (['"'] + t)[1..] == t;
  }

  lemma {:induction false} KeepOpenBlockNote(t: ByteString)
    ensures Keep("/*" + t, Code) == Keep(t, InBlock)
  {
    assert ("/*" + t)[2..] == t;
  }

  lemma {:induction false} KeepOpenLineNote(t: ByteString)
    ensures Keep("//" + t, Code) == Keep(t, InLine)
  {
    assert ("//" + t)[2..] == t;
  }

  lemma {:induction false} KeepLiteral(body: seq<Piece>, rest: ByteString)
    requires GoodPieces(body)
    ensures Keep(Print(Literal(body)) + rest, Code) == Print(Literal(body)) + Keep(rest, Code)
  {
    var tail, p := ['"'] + rest, PrintPieces(body);
    KeepOpenQuote(p + tail);
    KeepPieces(body, tail);
    KeepCloseQuote(rest);
    hide Keep, PrintPieces;
    LiteralPrints(p, rest);
    LiteralPrints(p, Keep(rest, Code));
  }

  lemma {:induction false} LiteralPrints(p: ByteString, rest: ByteString)
    ensures ['"'] + p + ['"'] + rest == ['"'] + (p + (['"'] + rest))
  {
  }

  lemma {:induction false} KeepOpenLiteral(body: seq<Piece>, dangling: bool)
    requires GoodPieces(body)
    ensures Keep(Print(OpenLiteral(body, dangling)), Code) == Print(OpenLiteral(body, dangling))
  {
    var tail: ByteString := if dangling then ['\\'] else [];
    KeepOpenQuote(PrintPieces(body) + tail);
    KeepPieces(body, tail);
    assert Print(OpenLiteral(body, dangling)) == ['"'] + (PrintPieces(body) + tail);
    assert Keep(tail, InString) == tail;
  }

  lemma {:induction false} KeepBlockNote(text: ByteString, rest: ByteString)
    requires NoClose(text)
    ensures Keep(Print(BlockNote(text)) + rest, Code) == Newlines(text) + Keep(rest, Code)
  {
    var tail := "*/" + rest;
    KeepOpenBlockNote(text + tail);
    KeepBlock(text, tail);
    assert tail[2..] == rest;
    assert Print(BlockNote(text)) + rest == "/*" + (text + tail);
  }

  lemma {:induction false} KeepToken(t: Token, rest: ByteString)
    requires Fits(t, rest)
    ensures Keep(Print(t) + rest, Code) == Kept(t) + Keep(rest, Code)
  {
    match t {
      case Plain(c) =>
        assert ([c] + rest)[1..] == rest;
      case Literal(body) =>
        KeepLiteral(body, rest);
      case LineNote(text) =>
        KeepLine(text, rest);
        KeepOpenLineNote(text + rest);
        assert Print(t) + rest == "//" + (text + rest);
      case BlockNote(text) =>
        KeepBlockNote(text, rest);
      case OpenLiteral(body, dangling) =>
        KeepOpenLiteral(body, dangling);
        assert Print(t) + rest == Print(t);
      case OpenBlock(text) =>
        KeepBlock(text, []);
        KeepOpenBlockNote(text + []);
        assert Print(t) + rest == "/*" + (text + []);
    }
  }

  /** Stripping is the removal of the comment tokens: no literal is touched, whatever it
      contains, and no plain byte is lost. */
  lemma {:induction false} KeepPrinted(ts: seq<Token>)
    requires WellFormed(ts)
    ensures Keep(PrintAll(ts), Code) == KeptAll(ts)
  {
    if ts != [] {
      KeepPrinted(ts[1..]);
      KeepToken(ts[0], PrintAll(ts[1..]));
    }
  }

  lemma {:induction false} ReadPieces(s: ByteString) returns (body: seq<Piece>, rest: ByteString)
    ensures GoodPieces(body) && PrintPieces(body) + rest == s
    ensures rest == [] || rest == ['\\'] || rest[0] == '"'
    decreases |s|
  {
    if s == [] || s[0] == '"' || s == ['\\'] {
      body, rest := [], s;
      assert PrintPieces(body) + rest == s;
    } else {
      var n := if s[0] == '\\' then 2 else 1;
      var p := if n == 2 then Escaped(s[1]) else Raw(s[0]);
      body, rest := ReadPieces(s[n..]);
      assert ([p] + body)[1..] == body;
      body := [p] + body;
      assert s == s[..n] + s[n..];
    }
  }

  lemma {:induction false} ReadLine(s: ByteString) returns (text: ByteString, rest: ByteString)
    ensures '\n' !in text && text + rest == s && (rest == [] || rest[0] == '\n')
    decreases |s|
  {
    if s == [] || s[0] == '\n' {
      text, rest := [], s;
    } else {
      text, rest := ReadLine(s[1..]);
      text := [s[0]] + text;
    }
  }

  lemma {:induction false} ReadBlock(s: ByteString) returns (text: ByteString, rest: ByteString)
    ensures NoClose(text) && text + rest == s
    ensures rest == [] || (|rest| >= 2 && rest[0] == '*' && rest[1] == '/')
    decreases |s|
  {
    if s == [] || (|s| >= 2 && s[0] == '*' && s[1] == '/') {
      text, rest := [], s;
    } else {
      text, rest := ReadBlock(s[1..]);
      assert text != [] ==> text[0] == (text + rest)[0] == s[1];
      text := [s[0]] + text;
    }
  }

  /** One token off a nonempty source. */
  lemma {:induction false} ReadToken(s: ByteString) returns (t: Token, rest: ByteString)
    requires s != []
    ensures Print(t) + rest == s && |rest| < |s|
    ensures Fits(t, rest)
  {
    if s[0] == '"' {
      var body, tail := ReadPieces(s[1..]);
      if tail != [] && tail[0] == '"' {
        t, rest := Literal(body), tail[1..];
      } else {
        t, rest := OpenLiteral(body, tail != []), [];
      }
    } else if s[0] == '/' && |s| > 1 && s[1] == '/' {
      var text;
      text, rest := ReadLine(s[2..]);
      t := LineNote(text);
    } else if s[0] == '/' && |s| > 1 && s[1] == '*' {
      var text, tail := ReadBlock(s[2..]);
      if tail == [] {
        t, rest := OpenBlock(text), [];
      } else {
        t, rest := BlockNote(text), tail[2..];
        assert s == "/*" + text + "*/" + rest;
      }
    } else {
      t, rest := Plain(s[0]), s[1..];
    }
  }

  lemma {:induction false} Tokenize(s: ByteString) returns (ts: seq<Token>)
    ensures WellFormed(ts) && PrintAll(ts) == s
    decreases |s|
  {
    if s == [] {
      ts := [];
    } else {
      var t, rest := ReadToken(s);
      var more := Tokenize(rest);
      ts := [t] + more;
      assert ts[1..] == more;
    }
  }

  // ---------------------------------------------------------------- one reading

  /** What stops a literal: its quote, a backslash with nothing after it, or the end. */
  predicate StopsPieces(x: ByteString) { x == [] || x[0] == '"' || x == ['\\'] }

  lemma {:induction false} PieceGoesOn(body: seq<Piece>, x: ByteString)
    requires GoodPieces(body) && body != []
    ensures !StopsPieces(PrintPieces(body) + x)
  {
    match body[0]
    case Raw(c) => assert (PrintPieces(body) + x)[0] == c;
    case Escaped(c) => assert (PrintPieces(body) + x)[..2] == ['\\', c];
  }

  lemma {:induction false} SamePiece(p: Piece, q: Piece, x: ByteString, y: ByteString)
    requires GoodPieces([p]) && GoodPieces([q])
    requires PrintPieces([p]) + x == PrintPieces([q]) + y
    ensures p == q && x == y
  {
    assert [p][0] == p && [q][0] == q && [p][1..] == [] && [q][1..] == [];
    var s, n := PrintPieces([p]) + x, |PrintPieces([p])|;
    assert s[0] == PrintPieces([p])[0] == PrintPieces([q])[0];
    assert |PrintPieces([q])| == n && s[n - 1] == PrintPieces([p])[n - 1] == PrintPieces([q])[n - 1];
    assert s[n..] == x && (PrintPieces([q]) + y)[n..] == y;
  }

  lemma {:induction false} HeadPiece(body: seq<Piece>, x: ByteString)
    requires body != [] && GoodPieces(body)
    ensures PrintPieces(body) + x == PrintPieces([body[0]]) + (PrintPieces(body[1..]) + x)
    ensures GoodPieces([body[0]]) && GoodPieces(body[1..])
  {
    assert [body[0]][1..] == [];
    assert PrintPieces([body[0]]) + [] == PrintPieces([body[0]]);
    Regroup(PrintPieces([body[0]]), PrintPieces(body[1..]), x);
  }

  lemma {:induction false} SamePieces(a: seq<Piece>, x: ByteString, b: seq<Piece>, y: ByteString)
    requires GoodPieces(a) && GoodPieces(b) && StopsPieces(x) && StopsPieces(y)
    requires PrintPieces(a) + x == PrintPieces(b) + y
    ensures a == b && x == y
    decreases |a|
  {
    if a == [] || b == [] {
      assert [] + x == x && [] + y == y;
      if a != [] {
        PieceGoesOn(a, x);
      }
      if b != [] {
        PieceGoesOn(b, y);
      }
    } else {
      HeadPiece(a, x);
      HeadPiece(b, y);
      SamePiece(a[0], b[0], PrintPieces(a[1..]) + x, PrintPieces(b[1..]) + y);
      SamePieces(a[1..], x, b[1..], y);
      HeadTail(a);
      HeadTail(b);
    }
  }

  lemma {:induction false} SameLine(a: ByteString, x: ByteString, b: ByteString, y: ByteString)
    requires '\n' !in a && '\n' !in b && (x == [] || x[0] == '\n') && (y == [] || y[0] == '\n')
    requires a + x == b + y
    ensures a == b && x == y
  {
    var s := a + x;
    assert forall i :: 0 <= i < |a| ==> s[i] == a[i] && a[i] in a;
    assert forall i :: 0 <= i < |b| ==> s[i] == b[i] && b[i] in b;
    assert x != [] ==> s[|a|] == x[0];
    assert y != [] ==> s[|b|] == y[0];
    assert |a| == |b|;
    assert s[..|a|] == a && s[..|b|] == b && s[|a|..] == x && s[|b|..] == y;
  }

  predicate Closed(x: ByteString) { |x| >= 2 && x[0] == '*' && x[1] == '/' }

  lemma {:induction false} NoCloseAhead(a: ByteString, x: ByteString, i: nat)
    requires NoClose(a) && (x == [] || Closed(x)) && i < |a|
    ensures !Closed((a + x)[i..])
  {
    var s := a + x;
    if i + 1 < |s| {
      assert s[i..][0] == a[i] && s[i..][1] == if i + 1 < |a| then a[i + 1] else x[0];
    }
  }

  lemma {:induction false} SameBlock(a: ByteString, x: ByteString, b: ByteString, y: ByteString)
    requires NoClose(a) && NoClose(b) && (x == [] || Closed(x)) && (y == [] || Closed(y))
    requires a + x == b + y
    ensures a == b && x == y
  {
    var s := a + x;
    assert s[..|a|] == a && s[..|b|] == b && s[|a|..] == x && s[|b|..] == y;
    if |a| < |b| {
      NoCloseAhead(b, y, |a|);
    } else if |b| < |a| {
      NoCloseAhead(a, x, |b|);
    }
  }

  predicate Quoted(t: Token) { t.Literal? || t.OpenLiteral? }

  predicate Block(t: Token) { t.BlockNote? || t.OpenBlock? }

  function Second(s: ByteString): Option<Byte> { if |s| >= 2 then Some(s[1]) else None }

  /** The first byte of a token, and the one after it, tell what it is. */
  lemma {:induction false} KindShows(t: Token, rest: ByteString)
    requires Fits(t, rest)
    ensures var s := Print(t) + rest;
      && s != []
      && (Quoted(t) <==> s[0] == '"')
      && (t.LineNote? <==> s[0] == '/' && Second(s) == Some('/'))
      && (Block(t) <==> s[0] == '/' && Second(s) == Some('*'))
      && (t.Plain? ==> s[0] == t.c && s[1..] == rest)
  {
    var s := Print(t) + rest;
    match t
    case Plain(c) => assert s == [c] + rest;
    case Literal(body) => assert s[0] == '"';
    case LineNote(text) => assert s[0] == '/' && s[1] == '/';
    case BlockNote(text) => assert s[0] == '/' && s[1] == '*';
    case OpenLiteral(body, _) => assert s[0] == '"';
    case OpenBlock(text) => assert s[0] == '/' && s[1] == '*';
  }

  function BodyOf(t: Token): seq<Piece>
    requires Quoted(t)
  {
    match t case Literal(body) => body case OpenLiteral(body, _) => body
  }

  function AfterBody(t: Token, rest: ByteString): ByteString
    requires Quoted(t)
  {
    if t.Literal? then ['"'] + rest else if t.dangling then ['\\'] else []
  }

  lemma {:induction false} QuotedPrints(t: Token, rest: ByteString)
    requires Quoted(t) && Fits(t, rest)
    ensures Print(t) + rest == ['"'] + (PrintPieces(BodyOf(t)) + AfterBody(t, rest))
    ensures StopsPieces(AfterBody(t, rest)) && GoodPieces(BodyOf(t))
  {
  }

  function TextOf(t: Token): ByteString
    requires Block(t)
  {
    match t case BlockNote(text) => text case OpenBlock(text) => text
  }

  function AfterText(t: Token, rest: ByteString): ByteString
    requires Block(t)
  {
    if t.BlockNote? then "*/" + rest else []
  }

  lemma {:induction false} BlockPrints(t: Token, rest: ByteString)
    requires Block(t) && Fits(t, rest)
    ensures Print(t) + rest == "/*" + (TextOf(t) + AfterText(t, rest))
    ensures NoClose(TextOf(t)) && (AfterText(t, rest) == [] || Closed(AfterText(t, rest)))
  {
  }

  lemma {:induction false} SameQuoted(t: Token, x: ByteString, u: Token, y: ByteString)
    requires Quoted(t) && Quoted(u) && Fits(t, x) && Fits(u, y) && Print(t) + x == Print(u) + y
    ensures t == u && x == y
  {
    QuotedPrints(t, x);
    QuotedPrints(u, y);
    AfterPrefix(['"'], PrintPieces(BodyOf(t)) + AfterBody(t, x), PrintPieces(BodyOf(u)) + AfterBody(u, y));
    SamePieces(BodyOf(t), AfterBody(t, x), BodyOf(u), AfterBody(u, y));
    assert t.Literal? ==> AfterBody(t, x)[0] == '"';
    assert u.Literal? ==> AfterBody(u, y)[0] == '"';
    if t.Literal? && u.Literal? {
      AfterPrefix(['"'], x, y);
    } else {
      assert t.OpenLiteral? && u.OpenLiteral?;
      assert t.dangling ==> |AfterBody(t, x)| == 1;
      assert u.dangling ==> |AfterBody(u, y)| == 1;
    }
  }

  lemma {:induction false} AfterPrefix(p: ByteString, x: ByteString, y: ByteString)
    requires p + x == p + y
    ensures x == y
  {
    assert (p + x)[|p|..] == x && (p + y)[|p|..] == y;
  }

  lemma {:induction false} SameBlockToken(t: Token, x: ByteString, u: Token, y: ByteString)
    requires Block(t) && Block(u) && Fits(t, x) && Fits(u, y) && Print(t) + x == Print(u) + y
    ensures t == u && x == y
  {
    BlockPrints(t, x);
    BlockPrints(u, y);
    AfterPrefix("/*", TextOf(t) + AfterText(t, x), TextOf(u) + AfterText(u, y));
    SameBlock(TextOf(t), AfterText(t, x), TextOf(u), AfterText(u, y));
    if t.BlockNote? && u.BlockNote? {
      AfterPrefix("*/", x, y);
    }
  }

  lemma {:induction false} SameToken(t: Token, x: ByteString, u: Token, y: ByteString)
    requires Fits(t, x) && Fits(u, y) && Print(t) + x == Print(u) + y
    ensures t == u && x == y
  {
    KindShows(t, x);
    KindShows(u, y);
    if Quoted(t) {
      SameQuoted(t, x, u, y);
    } else if Block(t) {
      SameBlockToken(t, x, u, y);
    } else if t.LineNote? {
      Regroup("//", t.text, x);
      Regroup("//", u.text, y);
      AfterPrefix("//", t.text + x, u.text + y);
      SameLine(t.text, x, u.text, y);
    }
  }

  /** A source is read in one way only: the tokens are determined by what they print. */
  lemma {:induction false} OneReading(ts: seq<Token>, us: seq<Token>)
    requires WellFormed(ts) && WellFormed(us) && PrintAll(ts) == PrintAll(us)
    ensures ts == us
    decreases |ts|
  {
    if ts != [] {
      KindShows(ts[0], PrintAll(ts[1..]));
    }
    if us != [] {
      KindShows(us[0], PrintAll(us[1..]));
    }
    if ts != [] {
      SameToken(ts[0], PrintAll(ts[1..]), us[0], PrintAll(us[1..]));
      OneReading(ts[1..], us[1..]);
      HeadTail(ts);
      HeadTail(us);
    }
  }

  /** For every source there are tokens that print to it, and stripping keeps exactly what
      must survive of them. */
  lemma {:induction false} EverySource(s: ByteString)
    ensures exists ts :: WellFormed(ts) && PrintAll(ts) == s && Strip(s) == PushAll(KeptAll(ts))
  {
    var ts := Tokenize(s);
    KeepPrinted(ts);
  }
}
