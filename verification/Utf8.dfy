/** What valid UTF-8 is: the byte sequences that encode code points, and no others. */
module Utf8 {
  import opened Bytes

  /** A code point that is no surrogate. */
  predicate Scalar(n: nat) { n < 0xD800 || 0xE000 <= n < 0x11_0000 }

  function Tail(n: nat): Byte { (0x80 + n % 64) as char }

  function Encoded(n: nat): ByteString
    requires Scalar(n)
  {
    if n < 0x80 then [n as char]
    else if n < 0x800 then [(0xC0 + n / 64) as char, Tail(n)]
    else if n < 0x1_0000 then [(0xE0 + n / 64 / 64) as char, Tail(n / 64), Tail(n)]
    else [(0xF0 + n / 64 / 64 / 64) as char, Tail(n / 64 / 64), Tail(n / 64), Tail(n)]
  }

  predicate AllScalar(ns: seq<nat>) { forall i :: 0 <= i < |ns| ==> Scalar(ns[i]) }

  function EncodedAll(ns: seq<nat>): ByteString
    requires AllScalar(ns)
  {
    if ns == [] then [] else Encoded(ns[0]) + EncodedAll(ns[1..])
  }

  lemma {:induction false} EncodedIsValid(n: nat, rest: ByteString)
    requires Scalar(n) && ValidUtf8(rest)
    ensures ValidUtf8(Encoded(n) + rest)
  {
    var s := Encoded(n) + rest;
    assert s[|Encoded(n)|..] == rest;
  }

  lemma {:induction false} AllEncodedIsValid(ns: seq<nat>)
    requires AllScalar(ns)
    ensures ValidUtf8(EncodedAll(ns))
  {
    if ns != [] {
      AllEncodedIsValid(ns[1..]);
      EncodedIsValid(ns[0], EncodedAll(ns[1..]));
    }
  }

  function Low(b: Byte): (k: nat)
    requires Continuation(b)
    ensures k < 64 && Tail(k) == b
  {
    b as int - 0x80
  }

  lemma {:induction false} Shifted(hi: nat, lo: nat)
    requires lo < 64
    ensures (64 * hi + lo) / 64 == hi && Tail(64 * hi + lo) == Tail(lo)
  {
  }

  lemma {:induction false} OfOne(a: Byte)
    requires a as int < 0x80
    ensures Encoded(a as int) == [a]
  {
  }

  lemma {:induction false} OfTwo(a: Byte, b: Byte)
    requires 0xC2 <= a as int < 0xE0 && Continuation(b)
    ensures var n := 64 * (a as int - 0xC0) + Low(b); Scalar(n) && Encoded(n) == [a, b]
  {
    Shifted(a as int - 0xC0, Low(b));
  }

  lemma {:induction false} OfThree(a: Byte, b: Byte, c: Byte)
    requires 0xE0 <= a as int < 0xF0 && Continuation(b) && Continuation(c)
    requires (a as int == 0xE0 ==> b as int >= 0xA0) && (a as int == 0xED ==> (b as int) < 0xA0)
    ensures var n := 64 * (64 * (a as int - 0xE0) + Low(b)) + Low(c); Scalar(n) && Encoded(n) == [a, b, c]
  {
    Shifted(a as int - 0xE0, Low(b));
    Shifted(64 * (a as int - 0xE0) + Low(b), Low(c));
  }

  lemma {:induction false} OfFour(a: Byte, b: Byte, c: Byte, d: Byte)
    requires 0xF0 <= a as int < 0xF5 && Continuation(b) && Continuation(c) && Continuation(d)
    requires (a as int == 0xF0 ==> b as int >= 0x90) && (a as int == 0xF4 ==> (b as int) < 0x90)
    ensures var n := 64 * (64 * (64 * (a as int - 0xF0) + Low(b)) + Low(c)) + Low(d);
      Scalar(n) && Encoded(n) == [a, b, c, d]
  {
    var k := 64 * (a as int - 0xF0) + Low(b);
    Shifted(a as int - 0xF0, Low(b));
    Shifted(k, Low(c));
    Shifted(64 * k + Low(c), Low(d));
  }

  lemma {:induction false} FirstEncoded(s: ByteString) returns (n: nat, rest: ByteString)
    requires s != [] && ValidUtf8(s)
    ensures Scalar(n) && s == Encoded(n) + rest && ValidUtf8(rest) && |rest| < |s|
  {
    hide Encoded;
    var b := s[0] as int;
    if b < 0x80 {
      n, rest := b, s[1..];
      OfOne(s[0]);
    } else if b < 0xE0 {
      n, rest := 64 * (b - 0xC0) + Low(s[1]), s[2..];
      OfTwo(s[0], s[1]);
    } else if b < 0xF0 {
      n, rest := 64 * (64 * (b - 0xE0) + Low(s[1])) + Low(s[2]), s[3..];
      OfThree(s[0], s[1], s[2]);
    } else {
      n, rest := 64 * (64 * (64 * (b - 0xF0) + Low(s[1])) + Low(s[2])) + Low(s[3]), s[4..];
      OfFour(s[0], s[1], s[2], s[3]);
    }
  }

  lemma {:induction false} ReadsEncoded(s: ByteString) returns (ns: seq<nat>)
    requires ValidUtf8(s)
    ensures AllScalar(ns) && EncodedAll(ns) == s
    decreases |s|
  {
    if s == [] {
      ns := [];
    } else {
      var n, rest := FirstEncoded(s);
      var more := ReadsEncoded(rest);
      ns := [n] + more;
      assert ns[1..] == more;
    }
  }

  /** A byte sequence is valid exactly when it encodes some code points. */
  lemma {:induction false} ValidIff(s: ByteString)
    ensures ValidUtf8(s) <==> exists ns :: AllScalar(ns) && EncodedAll(ns) == s
  {
    if ValidUtf8(s) {
      var ns := ReadsEncoded(s);
    }
    if ns :| AllScalar(ns) && EncodedAll(ns) == s {
      AllEncodedIsValid(ns);
    }
  }
}
