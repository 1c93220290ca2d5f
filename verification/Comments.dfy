/** The comment stripper that every textual scan of the build script runs first. */
module Comments {
  import opened Bytes
  import Utf8
  import opened Sequences

  datatype Mode = Code | InLine | InBlock | InString

  /** The bytes that survive, before they are pushed on the output string. */
  function Keep(src: ByteString, mode: Mode): ByteString
    decreases |src|
  {
    if src == [] then []
    else
      var c, more := src[0], |src| > 1;
      match mode
      case InLine =>
        if c == '\n' then ['\n'] + Keep(src[1..], Code) else Keep(src[1..], InLine)
      case InBlock =>
        if c == '*' && more && src[1] == '/' then Keep(src[2..], Code)
        else (if c == '\n' then ['\n'] else []) + Keep(src[1..], InBlock)
      case InString =>
        if c == '\\' && more then [c, src[1]] + Keep(src[2..], InString)
        else [c] + Keep(src[1..], if c == '"' then Code else InString)
      case Code =>
        if c == '/' && more && src[1] == '/' then Keep(src[2..], InLine)
        else if c == '/' && more && src[1] == '*' then Keep(src[2..], InBlock)
        else [c] + Keep(src[1..], if c == '"' then InString else Code)
  }

  /** `out.push(c as char)`: a byte from 128 up becomes a two-byte character. */
  function Push(c: Byte): ByteString {
    if c as int < 128 then [c] else [(0xC0 + c as int / 64) as char, (0x80 + c as int % 64) as char]
  }

  /** So a byte is written as the code point that it is taken for. */
  lemma {:induction false} PushIsUtf8(c: Byte)
    ensures Push(c) == Utf8.Encoded(c as int)
  {
  }

  function PushAll(s: ByteString): ByteString {
    if s == [] then [] else Push(s[0]) + PushAll(s[1..])
  }

  function Strip(src: ByteString): ByteString { PushAll(Keep(src, Code)) }

  function ModeOf(inLine: bool, inBlock: bool, inString: bool): Mode {
    if inLine then InLine else if inBlock then InBlock else if inString then InString else Code
  }

  lemma {:induction false} PushAllSplit(a: ByteString, b: ByteString)
    ensures PushAll(a + b) == PushAll(a) + PushAll(b)
    decreases |a|
  {
    if a == [] {
      assert a + b == b;
    } else {
      assert (a + b)[1..] == a[1..] + b;
      PushAllSplit(a[1..], b);
    }
  }

  lemma {:induction false} PushOne(c: Byte)
    ensures PushAll([c]) == Push(c)
  {
    assert PushAll([c][1..]) == [];
  }

  /** One step of the scanning loop, on the byte at the head of what is left. */
  function StepOut(src: ByteString, mode: Mode): ByteString
    requires src != []
  {
    var c, more := src[0], |src| > 1;
    match mode
    case InLine | InBlock => if c == '\n' then ['\n'] else []
    case InString => if c == '\\' && more then Push(c) + Push(src[1]) else Push(c)
    case Code => if c == '/' && more && (src[1] == '/' || src[1] == '*') then [] else Push(c)
  }

  function StepLength(src: ByteString, mode: Mode): (n: nat)
    requires src != []
    ensures 1 <= n <= |src|
  {
    var c, more := src[0], |src| > 1;
    if || (mode == InBlock && c == '*' && more && src[1] == '/')
       || (mode == InString && c == '\\' && more)
       || (mode == Code && c == '/' && more && (src[1] == '/' || src[1] == '*')) then 2 else 1
  }

  function StepMode(src: ByteString, mode: Mode): Mode
    requires src != []
  {
    var c, more := src[0], |src| > 1;
    match mode
    case InLine => if c == '\n' then Code else InLine
    case InBlock => if c == '*' && more && src[1] == '/' then Code else InBlock
    case InString => if c == '"' then Code else InString
    case Code =>
      if c == '/' && more && src[1] == '/' then InLine
      else if c == '/' && more && src[1] == '*' then InBlock
      else if c == '"' then InString else Code
  }

  /** The bytes kept by one step, before they are pushed. */
  function StepKept(src: ByteString, mode: Mode): ByteString
    requires src != []
  {
    var c, more := src[0], |src| > 1;
    match mode
    case InLine | InBlock => if c == '\n' then ['\n'] else []
    case InString => if c == '\\' && more then [c, src[1]] else [c]
    case Code => if c == '/' && more && (src[1] == '/' || src[1] == '*') then [] else [c]
  }

  lemma {:induction false} StepKeeps(src: ByteString, mode: Mode)
    requires src != []
    ensures Keep(src, mode) == StepKept(src, mode) + Keep(src[StepLength(src, mode)..], StepMode(src, mode))
  {
  }

  lemma {:induction false} StepPushes(src: ByteString, mode: Mode)
    requires src != []
    ensures PushAll(StepKept(src, mode)) == StepOut(src, mode)
  {
    PushOne('\n');
    PushOne(src[0]);
    if |src| > 1 {
      PushOne(src[1]);
      PushAllSplit([src[0]], [src[1]]);
    }
  }

  lemma {:induction false} Step(src: ByteString, mode: Mode)
    requires src != []
    ensures PushAll(Keep(src, mode)) ==
      StepOut(src, mode) + PushAll(Keep(src[StepLength(src, mode)..], StepMode(src, mode)))
  {
    StepKeeps(src, mode);
    StepPushes(src, mode);
    PushAllSplit(StepKept(src, mode), Keep(src[StepLength(src, mode)..], StepMode(src, mode)));
  }

  /** With `out` written and `rest` to be read, the whole result is `out` and what is left. */
  ghost predicate Stripping(bytes: ByteString, i: nat, mode: Mode, out: ByteString)
    requires i <= |bytes|
  {
    out + PushAll(Keep(bytes[i..], mode)) == Strip(bytes)
  }

  /** The loop invariant moves along with one step. */
  lemma {:induction false} ScanStep(bytes: ByteString, i: nat, mode: Mode, out: ByteString,
                                    next: nat, mode': Mode, out': ByteString)
    requires i < |bytes| && Stripping(bytes, i, mode, out)
    requires next == i + StepLength(bytes[i..], mode) && mode' == StepMode(bytes[i..], mode)
    requires out' == out + StepOut(bytes[i..], mode)
    ensures next <= |bytes| && Stripping(bytes, next, mode', out')
  {
    Step(bytes[i..], mode);
    assert bytes[i..][StepLength(bytes[i..], mode)..] == bytes[next..];
    Regroup(out, StepOut(bytes[i..], mode), PushAll(Keep(bytes[next..], mode')));
  }

  /** `strip_comments`. */
  method StripComments(bytes: ByteString) returns (out: ByteString)
    ensures out == Strip(bytes)
  {
    out := [];
    var i := 0;
    var inBlock, inString, inLine := false, false, false;
    while i < |bytes|
      invariant 0 <= i <= |bytes|
      invariant (inBlock ==> !inString && !inLine) && (inString ==> !inLine)
      invariant Stripping(bytes, i, ModeOf(inLine, inBlock, inString), out)
    {
      var c := bytes[i];
      ghost var i0, mode0, out0 := i, ModeOf(inLine, inBlock, inString), out;
      if inLine {
        if c == '\n' {
          inLine := false;
          out := out + ['\n'];
        }
        i := i + 1;
      } else if inBlock {
        if c == '*' && i + 1 < |bytes| && bytes[i + 1] == '/' {
          inBlock := false;
          i := i + 2;
        } else {
          if c == '\n' {
            out := out + ['\n'];
          }
          i := i + 1;
        }
      } else if inString {
        if c == '\\' && i + 1 < |bytes| {
          out := out + Push(c);
          out := out + Push(bytes[i + 1]);
          Regroup(out0, Push(c), Push(bytes[i + 1]));
          i := i + 2;
        } else {
          if c == '"' {
            inString := false;
          }
          out := out + Push(c);
          i := i + 1;
        }
      } else if c == '/' && i + 1 < |bytes| && bytes[i + 1] == '/' {
        inLine := true;
        i := i + 2;
      } else if c == '/' && i + 1 < |bytes| && bytes[i + 1] == '*' {
        inBlock := true;
        i := i + 2;
      } else {
        if c == '"' {
          inString := true;
        }
        out := out + Push(c);
        i := i + 1;
      }
      ScanStep(bytes, i0, mode0, out0, i, ModeOf(inLine, inBlock, inString), out);
    }
    assert bytes[|bytes|..] == [];
  }

  // ---------------------------------------------------------------- newlines

  function Newlines(s: ByteString): ByteString {
    if s == [] then [] else (if s[0] == '\n' then ['\n'] else []) + Newlines(s[1..])
  }

  lemma {:induction false} NewlinesFirst(c: Byte, s: ByteString)
    ensures Newlines([c] + s) == (if c == '\n' then ['\n'] else []) + Newlines(s)
  {
    assert ([c] + s)[1..] == s;
  }

  lemma {:induction false} NewlinesSplit(a: ByteString, b: ByteString)
    ensures Newlines(a + b) == Newlines(a) + Newlines(b)
    decreases |a|
  {
    if a == [] {
      assert a + b == b;
    } else {
      NewlinesSplit(a[1..], b);
      NewlinesFirst(a[0], a[1..] + b);
      NewlinesFirst(a[0], a[1..]);
      assert a + b == [a[0]] + (a[1..] + b) && a == [a[0]] + a[1..];
    }
  }

  lemma {:induction false} NewlinesHead(s: ByteString, n: nat)
    requires n <= |s|
    ensures Newlines(s) == Newlines(s[..n]) + Newlines(s[n..])
  {
    NewlinesSplit(s[..n], s[n..]);
    assert s == s[..n] + s[n..];
  }

  lemma {:induction false} NewlinesShort(s: ByteString)
    requires |s| <= 2
    ensures Newlines(s) == (if |s| > 0 && s[0] == '\n' then ['\n'] else [])
                         + (if |s| > 1 && s[1] == '\n' then ['\n'] else [])
  {
    if |s| == 2 {
      assert Newlines(s[1..]) == (if s[1] == '\n' then ['\n'] else []) + Newlines(s[1..][1..]);
    }
  }

  lemma {:induction false} StepKeepsNewlines(src: ByteString, mode: Mode)
    requires src != []
    ensures Newlines(StepOut(src, mode)) == Newlines(src[..StepLength(src, mode)])
  {
    hide Newlines;
    NewlinesShort(src[..StepLength(src, mode)]);
    NewlinesShort(Push(src[0]));
    NewlinesShort(['\n']);
    NewlinesShort([]);
    if |src| > 1 {
      NewlinesShort(Push(src[1]));
      NewlinesSplit(Push(src[0]), Push(src[1]));
    }
  }

  lemma {:induction false} KeepKeepsNewlines(src: ByteString, mode: Mode)
    ensures Newlines(PushAll(Keep(src, mode))) == Newlines(src)
    decreases |src|
  {
    if src != [] {
      var n := StepLength(src, mode);
      Step(src, mode);
      StepKeepsNewlines(src, mode);
      KeepKeepsNewlines(src[n..], StepMode(src, mode));
      NewlinesSplit(StepOut(src, mode), PushAll(Keep(src[n..], StepMode(src, mode))));
      NewlinesHead(src, n);
    }
  }

  /** Every newline survives, in a comment or out of it, and none is added: the stripped
      text has the line numbering of the source.  No assumption on the bytes. */
  lemma {:induction false} StripKeepsNewlines(src: ByteString)
    ensures Newlines(Strip(src)) == Newlines(src)
  {
    KeepKeepsNewlines(src, Code);
  }

  // ---------------------------------------------------------------- idempotence

  predicate Ascii(s: ByteString) { forall i :: 0 <= i < |s| ==> s[i] as int < 128 }

  lemma {:induction false} PushAllLength(s: ByteString)
    ensures |PushAll(s)| >= |s|
    ensures |PushAll(s)| == |s| <==> Ascii(s)
    ensures Ascii(s) ==> PushAll(s) == s
    ensures Ascii(PushAll(s)) <==> Ascii(s)
  {
    if s != [] {
      PushAllLength(s[1..]);
      AsciiConcat([s[0]], s[1..]);
      AsciiConcat(Push(s[0]), PushAll(s[1..]));
      PushIsAscii(s[0]);
      hide Push, PushAll, Ascii;
      assert s == [s[0]] + s[1..];
    }
  }

  lemma {:induction false} AsciiConcat(a: ByteString, b: ByteString)
    ensures Ascii(a + b) <==> Ascii(a) && Ascii(b)
  {
    assert forall i :: 0 <= i < |a| ==> a[i] == (a + b)[i];
    assert forall i :: 0 <= i < |b| ==> b[i] == (a + b)[|a| + i];
  }

  lemma {:induction false} PushIsAscii(c: Byte)
    ensures 1 <= |Push(c)| <= 2 && (|Push(c)| == 1 <==> Ascii([c])) && (Ascii(Push(c)) <==> Ascii([c]))
    ensures Ascii([c]) ==> Push(c) == [c]
  {
    assert [c][0] == c && Push(c)[0] in Push(c);
  }

  /** Outside a comment, a text that does not open one starts with its own first byte. */
  lemma {:induction false} KeepHead(src: ByteString, mode: Mode)
    requires src != [] && ((mode == Code && src[0] != '/') || mode == InString)
    ensures Keep(src, mode) != [] && Keep(src, mode)[0] == src[0]
  {
  }

  function Reading(mode: Mode): Mode { if mode == InString then InString else Code }

  /** Bytes outside comments that cannot start anything are copied. */
  lemma {:induction false} CopyPush(c: Byte, t: ByteString, mode: Mode)
    requires mode == Code || mode == InString
    requires c as int >= 128 || (c != '"' && c != '\\' && c != '/')
    ensures Keep(Push(c) + t, mode) == Push(c) + Keep(t, mode)
  {
    var p := Push(c);
    assert (p + t)[1..] == p[1..] + t;
    if |p| == 2 {
      assert (p[1..] + t)[1..] == t;
      assert Keep(p[1..] + t, mode) == [p[1]] + Keep(t, mode);
    } else {
      assert p[1..] + t == t;
    }
  }

  lemma {:induction false} KeepAgain(src: ByteString, mode: Mode)
    ensures Keep(PushAll(Keep(src, mode)), Reading(mode)) == PushAll(Keep(src, mode))
    decreases |src|
  {
    if src != [] {
      var n, next := StepLength(src, mode), StepMode(src, mode);
      var out, rest := StepOut(src, mode), PushAll(Keep(src[n..], next));
      Step(src, mode);
      KeepAgain(src[n..], next);
      if out == [] {
        assert out + rest == rest;
      } else if mode == InLine || mode == InBlock {
        assert (out + rest)[1..] == rest;
      } else if mode == InString {
        KeepAgainInString(src);
      } else if src[0] == '/' {
        assert (out + rest)[1..] == rest;
        if |src| > 1 {
          KeepHead(src[1..], Code);
          assert rest[0] == Push(src[1])[0];
        } else {
          assert rest == [];
        }
      } else if src[0] == '"' || src[0] == '\\' {
        assert (out + rest)[1..] == rest;
      } else {
        CopyPush(src[0], rest, Code);
      }
    }
  }

  lemma {:induction false} KeepAgainEscape(c: Byte, rest: ByteString)
    requires Keep(rest, InString) == rest
    ensures Keep(['\\'] + (Push(c) + rest), InString) == ['\\'] + (Push(c) + rest)
  {
    var p := Push(c);
    var all := ['\\'] + (p + rest);
    assert all[2..] == p[1..] + rest;
    if |p| == 2 {
      assert (p[1..] + rest)[1..] == rest;
      assert p[1] as int >= 128;
    } else {
      assert p[1..] + rest == rest;
    }
  }

  lemma {:induction false} KeepAgainInString(src: ByteString)
    requires src != []
    requires var rest := PushAll(Keep(src[StepLength(src, InString)..], StepMode(src, InString)));
      Keep(rest, StepMode(src, InString)) == rest
    ensures var rest := PushAll(Keep(src[StepLength(src, InString)..], StepMode(src, InString)));
      Keep(StepOut(src, InString) + rest, InString) == StepOut(src, InString) + rest
  {
    var rest := PushAll(Keep(src[StepLength(src, InString)..], StepMode(src, InString)));
    if src[0] == '\\' && |src| > 1 {
      KeepAgainEscape(src[1], rest);
      Regroup(['\\'], Push(src[1]), rest);
    } else if src[0] == '"' || src[0] == '\\' || src[0] == '/' {
      assert (StepOut(src, InString) + rest)[1..] == rest;
    } else {
      CopyPush(src[0], rest, InString);
    }
  }

  /** Removing the comments never creates a comment or a literal out of what surrounded
      them: a second pass removes nothing.  It leaves its input unchanged exactly when the
      bytes outside the comments are ASCII, since each pass re-encodes every other byte. */
  lemma {:induction false} StripAgain(src: ByteString)
    ensures Strip(Strip(src)) == PushAll(Strip(src))
    ensures Strip(Strip(src)) == Strip(src) <==> Ascii(Keep(src, Code))
  {
    KeepAgain(src, Code);
    PushAllLength(Keep(src, Code));
    PushAllLength(Strip(src));
  }
}
