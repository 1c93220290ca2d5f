/** The receipt of a completed bake: what it records, and what verifying against it means. */
module Receipt {
  import opened Bytes
  import opened ModulePaths

  predicate LowerHex(c: Byte) { '0' <= c <= '9' || 'a' <= c <= 'f' }
  predicate UpperHex(c: Byte) { 'A' <= c <= 'F' }

  predicate IsDigest(s: ByteString) { |s| == 64 && forall i :: 0 <= i < |s| ==> LowerHex(s[i]) }

  /** A BLAKE3 hash, as the 64 lower-case digits that it is displayed with. */
  type Digest = s: ByteString | IsDigest(s) witness seq(64, _ => '0')

  datatype Inputs = Inputs(producer: ByteString, target: ByteString, fingerprint: Digest, sdk: Digest)
  datatype Sidecars = Sidecars(metadata: Digest, symbols: Digest)

  function ToLower(c: Byte): Byte {
    if UpperHex(c) then (c as int - 'A' as int + 'a' as int) as char else c
  }

  function LowerAll(s: ByteString): (r: ByteString)
    ensures |r| == |s| && forall i :: 0 <= i < |s| ==> r[i] == ToLower(s[i])
  {
    if s == [] then [] else [ToLower(s[0])] + LowerAll(s[1..])
  }

  /** `Hash::from_hex`: 64 digits of either case. */
  function FromHex(s: ByteString): Option<Digest> {
    if |s| == 64 && (forall i :: 0 <= i < |s| ==> LowerHex(s[i]) || UpperHex(s[i])) then Some(LowerAll(s)) else None
  }

  // ---------------------------------------------------------------- encoding

  function Line(key: ByteString, value: ByteString): ByteString { key + "=" + value + "\n" }

  function Lines(keys: seq<ByteString>, values: seq<ByteString>): ByteString
    requires |keys| == |values|
  {
    if keys == [] then [] else Line(keys[0], values[0]) + Lines(keys[1..], values[1..])
  }

  const HEADER: ByteString := "verum-stdlib-bake-v2\n"
  const INPUT_KEYS: seq<ByteString> := ["producer", "target", "source", "sdk", "archive"]

  function InputValues(i: Inputs, archive: Digest): seq<ByteString> {
    [i.producer, i.target, i.fingerprint, i.sdk, archive]
  }

  function Head(i: Inputs, archive: Digest): ByteString { HEADER + Lines(INPUT_KEYS, InputValues(i, archive)) }

  function Encode(i: Inputs, archive: Digest, s: Sidecars): ByteString {
    Head(i, archive) + Line("metadata", s.metadata) + Line("symbols", s.symbols)
  }

  // ---------------------------------------------------------------- verification

  function AfterNewline(s: ByteString): ByteString {
    if s == [] || s[|s| - 1] == '\n' then [] else AfterNewline(s[..|s| - 1]) + [s[|s| - 1]]
  }

  lemma {:induction false} AfterNewlineIsShort(s: ByteString)
    ensures |AfterNewline(s)| <= |s|
  {
    if s != [] && s[|s| - 1] != '\n' {
      AfterNewlineIsShort(s[..|s| - 1]);
    }
  }

  /** One `next()` of `lines().rev()`: the last line, without its end, and what precedes it. */
  function NextLineBack(s: ByteString): Option<(ByteString, ByteString)> {
    if s == [] then None
    else
      var body := if s[|s| - 1] == '\n' then s[..|s| - 1] else s;
      AfterNewlineIsShort(body);
      var line := AfterNewline(body);
      Some((StripSuffix(line, "\r"), body[..|body| - |line|]))
  }

  /** `strip_prefix(key=)` and `from_hex` on a line. */
  function HexOfLine(key: ByteString, line: ByteString): Option<Digest> {
    if StartsWith(line, key + "=") then FromHex(line[|key| + 1..]) else None
  }

  /** `attested_sidecars`: the sidecar digests that the receipt records for these inputs and
      this archive, if that is what it is a receipt of. */
  function Attested(receipt: Option<ByteString>, i: Inputs, archive: Digest): Option<Sidecars> {
    if receipt.None? then None
    else match NextLineBack(receipt.value)
      case None => None
      case Some((last, before)) =>
        match NextLineBack(before)
        case None => None
        case Some((previous, _)) =>
          match (HexOfLine("symbols", last), HexOfLine("metadata", previous))
          case (Some(symbols), Some(metadata)) =>
            if Encode(i, archive, Sidecars(metadata, symbols)) == receipt.value then Some(Sidecars(metadata, symbols))
            else None
          case _ => None
  }

  /** `verify_copy`, on the receipt read and on the digests of the three files examined. */
  predicate Verifies(receipt: Option<ByteString>, i: Inputs, archive: Digest, found: Sidecars) {
    var recorded := Attested(receipt, i, archive);
    recorded.Some? && recorded.value.metadata == found.metadata && recorded.value.symbols == found.symbols
  }

  lemma {:induction false} AfterNewlineOf(s: ByteString, line: ByteString)
    requires '\n' !in line && (s == [] || s[|s| - 1] == '\n')
    ensures AfterNewline(s + line) == line
  {
    if line == [] {
      assert s + line == s;
    } else {
      var n := |line| - 1;
      assert line[n] in line;
      assert (s + line)[..|s + line| - 1] == s + line[..n];
      AfterNewlineOf(s, line[..n]);
      assert line[..n] + [line[n]] == line;
    }
  }

  lemma {:induction false} NextLineBackOf(s: ByteString, line: ByteString)
    requires '\n' !in line && line != [] && line[|line| - 1] != '\r'
    requires s == [] || s[|s| - 1] == '\n'
    ensures NextLineBack(s + line + "\n") == Some((line, s))
  {
    var t := s + line + "\n";
    assert t[..|t| - 1] == s + line;
    AfterNewlineOf(s, line);
    assert StripSuffix(line, "\r") == line by {
      assert line[|line| - 1..] == [line[|line| - 1]];
    }
    assert (s + line)[..|s + line| - |line|] == s;
  }

  lemma {:induction false} HexOfDigest(d: Digest)
    ensures FromHex(d) == Some(d) && '\n' !in d
  {
    assert LowerAll(d) == d;
  }

  lemma {:induction false} DigestLine(key: ByteString, d: Digest)
    requires '\n' !in key
    ensures HexOfLine(key, key + "=" + d) == Some(d)
    ensures '\n' !in key + "=" + d && (key + "=" + d)[|key + "=" + d| - 1] != '\r'
  {
    var k := key + "=";
    HexOfDigest(d);
    assert (k + d)[..|k|] == k && (k + d)[|k|..] == d;
    assert (k + d)[|k + d| - 1] == d[63];
  }

  lemma {:induction false} LinesEnd(keys: seq<ByteString>, values: seq<ByteString>)
    requires |keys| == |values| && keys != []
    ensures Lines(keys, values) != [] && Lines(keys, values)[|Lines(keys, values)| - 1] == '\n'
  {
    if |keys| > 1 {
      LinesEnd(keys[1..], values[1..]);
    }
  }

  lemma {:induction false} NextOfLine(s: ByteString, key: ByteString, d: Digest)
    requires '\n' !in key && s != [] && s[|s| - 1] == '\n'
    ensures NextLineBack(s + Line(key, d)) == Some((key + "=" + d, s))
    ensures HexOfLine(key, key + "=" + d) == Some(d)
  {
    DigestLine(key, d);
    NextLineBackOf(s, key + "=" + d);
    assert s + Line(key, d) == s + (key + "=" + d) + "\n";
  }

  lemma {:induction false} EndsInNewline(s: ByteString, key: ByteString, d: Digest)
    ensures var t := s + Line(key, d); t != [] && t[|t| - 1] == '\n'
  {
  }

  lemma {:induction false} EncodedIsAttested(i: Inputs, archive: Digest, s: Sidecars)
    ensures Attested(Some(Encode(i, archive, s)), i, archive) == Some(s)
  {
    var head := Head(i, archive);
    LinesEnd(INPUT_KEYS, InputValues(i, archive));
    assert head[|head| - 1] == '\n';
    NextOfLine(head, "metadata", s.metadata);
    EndsInNewline(head, "metadata", s.metadata);
    NextOfLine(head + Line("metadata", s.metadata), "symbols", s.symbols);
  }

  /** A receipt attests exactly what it encodes. */
  lemma {:induction false} AttestedIff(receipt: Option<ByteString>, i: Inputs, archive: Digest, s: Sidecars)
    ensures Attested(receipt, i, archive) == Some(s) <==> receipt == Some(Encode(i, archive, s))
  {
    EncodedIsAttested(i, archive, s);
  }

  /** Verification accepts three files exactly when the receipt is the one that a bake from
      these inputs records for files with these digests. */
  lemma {:induction false} VerifiesIff(receipt: Option<ByteString>, i: Inputs, archive: Digest, found: Sidecars)
    ensures Verifies(receipt, i, archive, found) <==> receipt == Some(Encode(i, archive, found))
  {
    AttestedIff(receipt, i, archive, found);
    var recorded := Attested(receipt, i, archive);
    if recorded.Some? {
      assert recorded.value == Sidecars(recorded.value.metadata, recorded.value.symbols);
    }
  }

  // ---------------------------------------------------------------- a receipt has one meaning

  predicate OneLine(i: Inputs) { '\n' !in i.producer && '\n' !in i.target }

  lemma {:induction false} UpToNewline(a: ByteString, b: ByteString, x: ByteString, y: ByteString)
    requires '\n' !in a && '\n' !in b && a + "\n" + x == b + "\n" + y
    ensures a == b && x == y
  {
    FirstNewline(a, x);
    FirstNewline(b, y);
    assert |a| == |b|;
  }

  lemma {:induction false} FirstNewline(a: ByteString, x: ByteString)
    requires '\n' !in a
    ensures forall i :: 0 <= i < |a| ==> (a + "\n" + x)[i] != '\n'
    ensures (a + "\n" + x)[|a|] == '\n'
    ensures a == (a + "\n" + x)[..|a|] && x == (a + "\n" + x)[|a| + 1..]
  {
    forall i | 0 <= i < |a| ensures (a + "\n" + x)[i] != '\n' {
      assert (a + "\n" + x)[i] == a[i];
    }
  }

  lemma {:induction false} LineReadBack(key: ByteString, a: ByteString, b: ByteString, x: ByteString, y: ByteString)
    requires '\n' !in a && '\n' !in b && Line(key, a) + x == Line(key, b) + y
    ensures a == b && x == y
  {
    var k := key + "=";
    assert Line(key, a) + x == k + (a + "\n" + x) && Line(key, b) + y == k + (b + "\n" + y);
    assert (k + (a + "\n" + x))[|k|..] == a + "\n" + x && (k + (b + "\n" + y))[|k|..] == b + "\n" + y;
    UpToNewline(a, b, x, y);
  }

  lemma {:induction false} LinesReadBack(keys: seq<ByteString>, a: seq<ByteString>, b: seq<ByteString>, x: ByteString,
                                         y: ByteString)
    requires |keys| == |a| == |b| && Lines(keys, a) + x == Lines(keys, b) + y
    requires forall i :: 0 <= i < |keys| ==> '\n' !in a[i] && '\n' !in b[i]
    ensures a == b && x == y
  {
    if keys == [] {
      assert Lines(keys, a) + x == x && Lines(keys, b) + y == y;
    } else {
      var p, q := Lines(keys[1..], a[1..]) + x, Lines(keys[1..], b[1..]) + y;
      assert Lines(keys, a) + x == Line(keys[0], a[0]) + p && Lines(keys, b) + y == Line(keys[0], b[0]) + q;
      LineReadBack(keys[0], a[0], b[0], p, q);
      LinesReadBack(keys[1..], a[1..], b[1..], x, y);
      assert a == [a[0]] + a[1..] && b == [b[0]] + b[1..];
    }
  }

  lemma {:induction false} HeadReadBack(i: Inputs, a: Digest, x: ByteString, j: Inputs, b: Digest, y: ByteString)
    requires OneLine(i) && OneLine(j) && Head(i, a) + x == Head(j, b) + y
    ensures i == j && a == b && x == y
  {
    var u, v := Lines(INPUT_KEYS, InputValues(i, a)) + x, Lines(INPUT_KEYS, InputValues(j, b)) + y;
    assert Head(i, a) + x == HEADER + u && Head(j, b) + y == HEADER + v;
    assert (HEADER + u)[|HEADER|..] == u && (HEADER + v)[|HEADER|..] == v;
    LinesReadBack(INPUT_KEYS, InputValues(i, a), InputValues(j, b), x, y);
    assert InputValues(i, a)[0] == InputValues(j, b)[0] && InputValues(i, a)[1] == InputValues(j, b)[1]
        && InputValues(i, a)[2] == InputValues(j, b)[2] && InputValues(i, a)[3] == InputValues(j, b)[3]
        && InputValues(i, a)[4] == InputValues(j, b)[4];
  }

  /** Receipts of different bakes are different texts: a receipt fixes the producer, the
      target, both source digests and the digests of the three files. */
  lemma {:induction false} EncodeIsInjective(i: Inputs, a: Digest, s: Sidecars, j: Inputs, b: Digest, t: Sidecars)
    requires OneLine(i) && OneLine(j) && Encode(i, a, s) == Encode(j, b, t)
    ensures i == j && a == b && s == t
  {
    var x := Line("metadata", s.metadata) + Line("symbols", s.symbols);
    var y := Line("metadata", t.metadata) + Line("symbols", t.symbols);
    assert Encode(i, a, s) == Head(i, a) + x && Encode(j, b, t) == Head(j, b) + y;
    HeadReadBack(i, a, x, j, b, y);
    LineReadBack("metadata", s.metadata, t.metadata, Line("symbols", s.symbols), Line("symbols", t.symbols));
    assert Line("symbols", s.symbols) + [] == Line("symbols", t.symbols) + [];
    LineReadBack("symbols", s.symbols, t.symbols, [], []);
  }

  /** One-line inputs are needed for that: a producer that spans two lines can pass for the
      same receipt as another producer and target. */
  lemma {:induction false} MultiLineInputsCollide(a: ByteString, b: ByteString, c: ByteString, f: Digest, sdk: Digest,
                                                  d: Digest, s: Sidecars)
    ensures var i, j := Inputs(a + "\ntarget=" + b, c, f, sdk), Inputs(a, b + "\ntarget=" + c, f, sdk);
      i != j && Encode(i, d, s) == Encode(j, d, s)
  {
    var i, j := Inputs(a + "\ntarget=" + b, c, f, sdk), Inputs(a, b + "\ntarget=" + c, f, sdk);
    assert |i.producer| > |j.producer|;
    TwoLines(a, b, c);
    HeadSplit(i, d);
    HeadSplit(j, d);
    hide Line, Lines, Head;
  }

  lemma {:induction false} TwoLines(a: ByteString, b: ByteString, c: ByteString)
    ensures Line("producer", a + "\ntarget=" + b) + Line("target", c)
         == Line("producer", a) + Line("target", b + "\ntarget=" + c)
  {
  }

  function LaterValues(i: Inputs, d: Digest): seq<ByteString> { [i.fingerprint, i.sdk, d] }

  lemma {:induction false} HeadSplit(i: Inputs, d: Digest)
    ensures Head(i, d) == HEADER + ((Line("producer", i.producer) + Line("target", i.target))
      + Lines(INPUT_KEYS[2..], LaterValues(i, d)))
  {
    var v := InputValues(i, d);
    assert v[1..][1..] == LaterValues(i, d) && INPUT_KEYS[1..][1..] == INPUT_KEYS[2..];
    assert Lines(INPUT_KEYS[1..], v[1..]) == Line("target", i.target) + Lines(INPUT_KEYS[2..], LaterValues(i, d));
    assert Lines(INPUT_KEYS, v) == Line("producer", i.producer) + Lines(INPUT_KEYS[1..], v[1..]);
  }

  function Field(key: ByteString, value: ByteString, rest: ByteString): ByteString {
    key + ("=" + (value + ("\n" + rest)))
  }

  /** The text of a receipt: a header, then the producer, the target, the digests of the
      sources, of the kit and of the archive, and last those of the two sidecars. */
  lemma {:induction false} ReceiptText(i: Inputs, archive: Digest, s: Sidecars)
    ensures Encode(i, archive, s) == "verum-stdlib-bake-v2\n" +
      Field("producer", i.producer, Field("target", i.target, Field("source", i.fingerprint, Field("sdk", i.sdk,
        Field("archive", archive, Field("metadata", s.metadata, Field("symbols", s.symbols, [])))))))
  {
    var tail := Line("metadata", s.metadata) + Line("symbols", s.symbols);
    LineField("metadata", s.metadata, Line("symbols", s.symbols));
    LineField("symbols", s.symbols, []);
    hide Line, Lines, Field;
    LinesText(INPUT_KEYS, InputValues(i, archive), tail);
    assert Encode(i, archive, s) == HEADER + (Lines(INPUT_KEYS, InputValues(i, archive)) + tail);
    FiveFields(i, archive, tail);
  }

  lemma {:induction false} LineField(key: ByteString, value: ByteString, rest: ByteString)
    ensures Line(key, value) + rest == Field(key, value, rest)
    ensures rest == [] ==> Line(key, value) == Field(key, value, [])
  {
  }

  function FieldsThen(keys: seq<ByteString>, values: seq<ByteString>, tail: ByteString): ByteString
    requires |keys| == |values|
  {
    if keys == [] then tail else Field(keys[0], values[0], FieldsThen(keys[1..], values[1..], tail))
  }

  lemma {:induction false} LinesText(keys: seq<ByteString>, values: seq<ByteString>, tail: ByteString)
    requires |keys| == |values|
    ensures Lines(keys, values) + tail == FieldsThen(keys, values, tail)
  {
    if keys != [] {
      LinesText(keys[1..], values[1..], tail);
      var rest := Lines(keys[1..], values[1..]);
      LineField(keys[0], values[0], rest + tail);
      assert Line(keys[0], values[0]) + rest + tail == Line(keys[0], values[0]) + (rest + tail);
    }
  }

  lemma {:induction false} FiveFields(i: Inputs, archive: Digest, tail: ByteString)
    ensures FieldsThen(INPUT_KEYS, InputValues(i, archive), tail) ==
      Field("producer", i.producer, Field("target", i.target, Field("source", i.fingerprint, Field("sdk", i.sdk,
        Field("archive", archive, tail)))))
  {
    hide Field;
    var ks, vs := INPUT_KEYS, InputValues(i, archive);
    assert ks[5..] == [] && vs[5..] == [];
    assert FieldsThen(ks[4..], vs[4..], tail) == Field("archive", archive, tail) by {
      assert ks[4..][1..] == ks[5..] && vs[4..][1..] == vs[5..];
    }
    assert FieldsThen(ks[3..], vs[3..], tail) == Field("sdk", i.sdk, FieldsThen(ks[4..], vs[4..], tail)) by {
      assert ks[3..][1..] == ks[4..] && vs[3..][1..] == vs[4..];
    }
    assert FieldsThen(ks[2..], vs[2..], tail) == Field("source", i.fingerprint, FieldsThen(ks[3..], vs[3..], tail)) by {
      assert ks[2..][1..] == ks[3..] && vs[2..][1..] == vs[3..];
    }
    assert FieldsThen(ks[1..], vs[1..], tail) == Field("target", i.target, FieldsThen(ks[2..], vs[2..], tail)) by {
      assert ks[1..][1..] == ks[2..] && vs[1..][1..] == vs[2..];
    }
  }

  /** The hexadecimal digits, and the digest that a text of 64 of them is read as. */
  lemma {:induction false} HexDigitsAre(c: Byte)
    ensures LowerHex(c) <==> c in {'0', '1', '2', '3', '4', '5', '6', '7', '8', '9', 'a', 'b', 'c', 'd', 'e', 'f'}
    ensures UpperHex(c) <==> c in {'A', 'B', 'C', 'D', 'E', 'F'}
  {
  }
}
