/** Byte strings and the little-endian integers of the archive formats.

    A Rust string is modelled as the sequence of its UTF-8 bytes, each byte being
    a character below 256, so that ASCII literals can be written as strings. */
module Bytes {
  type Byte = c: char | c as int < 256 witness ' '
  type ByteString = seq<Byte>

  datatype Option<+T> = None | Some(value: T)

  function Max(a: int, b: int): int { if a >= b then a else b }

  const U16_LIMIT: nat := 0x1_0000
  const U32_LIMIT: nat := 0x1_0000_0000
  const U64_LIMIT: nat := 0x1_0000_0000_0000_0000

  function U16(n: nat): (r: ByteString)
    requires n < U16_LIMIT
    ensures |r| == 2
  {
    [(n % 256) as char, (n / 256) as char]
  }

  function U32(n: nat): (r: ByteString)
    requires n < U32_LIMIT
    ensures |r| == 4
  {
    U16(n % U16_LIMIT) + U16(n / U16_LIMIT)
  }

  function U64(n: nat): (r: ByteString)
    requires n < U64_LIMIT
    ensures |r| == 8
  {
    U32(n % U32_LIMIT) + U32(n / U32_LIMIT)
  }

  /** The little-endian integer at the head of `data`. */
  function ReadU16(data: ByteString): (n: nat)
    requires |data| >= 2
    ensures n < U16_LIMIT
  {
    data[0] as int + 256 * (data[1] as int)
  }

  function ReadU32(data: ByteString): (n: nat)
    requires |data| >= 4
    ensures n < U32_LIMIT
  {
    ReadU16(data) + U16_LIMIT * ReadU16(data[2..])
  }

  function ReadU64(data: ByteString): (n: nat)
    requires |data| >= 8
    ensures n < U64_LIMIT
  {
    ReadU32(data) + U32_LIMIT * ReadU32(data[4..])
  }

  lemma {:induction false} U16ReadBack(n: nat, rest: ByteString)
    requires n < U16_LIMIT
    ensures ReadU16(U16(n) + rest) == n && (U16(n) + rest)[2..] == rest
  {
  }

  lemma {:induction false} U32ReadBack(n: nat, rest: ByteString)
    requires n < U32_LIMIT
    ensures ReadU32(U32(n) + rest) == n && (U32(n) + rest)[4..] == rest
  {
    var low, high := U16(n % U16_LIMIT), U16(n / U16_LIMIT);
    U16ReadBack(n % U16_LIMIT, high + rest);
    U16ReadBack(n / U16_LIMIT, rest);
    assert U32(n) + rest == low + (high + rest);
  }

  lemma {:induction false} U64ReadBack(n: nat, rest: ByteString)
    requires n < U64_LIMIT
    ensures ReadU64(U64(n) + rest) == n && (U64(n) + rest)[8..] == rest
  {
    var low, high := U32(n % U32_LIMIT), U32(n / U32_LIMIT);
    U32ReadBack(n % U32_LIMIT, high + rest);
    U32ReadBack(n / U32_LIMIT, rest);
    assert U64(n) + rest == low + (high + rest);
  }

  /** The concatenated images of the elements. */
  function Flatten<T>(f: T -> ByteString, xs: seq<T>): ByteString {
    if xs == [] then [] else f(xs[0]) + Flatten(f, xs[1..])
  }

  lemma {:induction false} FlattenSnoc<T>(f: T -> ByteString, xs: seq<T>, x: T)
    ensures Flatten(f, xs + [x]) == Flatten(f, xs) + f(x)
  {
    if xs == [] {
      assert xs + [x] == [x] && [x][1..] == [];
    } else {
      FlattenSnoc(f, xs[1..], x);
      assert (xs + [x])[1..] == xs[1..] + [x];
    }
  }

  lemma {:induction false} FlattenConcat<T>(f: T -> ByteString, xs: seq<T>, ys: seq<T>)
    ensures Flatten(f, xs + ys) == Flatten(f, xs) + Flatten(f, ys)
  {
    if xs == [] {
      assert xs + ys == ys;
    } else {
      FlattenConcat(f, xs[1..], ys);
      assert (xs + ys)[1..] == xs[1..] + ys;
    }
  }

  lemma {:induction false} FlattenTwo<T>(f: T -> ByteString, x: T, y: T)
    ensures Flatten(f, [x, y]) == f(x) + f(y)
  {
    assert [x, y][1..] == [y] && [y][1..] == [];
    assert Flatten(f, [y]) == f(y) + Flatten(f, [y][1..]);
  }

  lemma {:induction false} FlattenPrefix<T>(f: T -> ByteString, xs: seq<T>, i: nat)
    requires i < |xs|
    ensures Flatten(f, xs[..i + 1]) == Flatten(f, xs[..i]) + f(xs[i])
    ensures xs[..|xs|] == xs
  {
    assert xs[..i + 1] == xs[..i] + [xs[i]];
    FlattenSnoc(f, xs[..i], xs[i]);
  }

  lemma {:induction false} FlattenGrow<T>(base: ByteString, f: T -> ByteString, xs: seq<T>, i: nat)
    requires i < |xs|
    ensures base + Flatten(f, xs[..i]) + f(xs[i]) == base + Flatten(f, xs[..i + 1])
  {
    FlattenPrefix(f, xs, i);
  }

  predicate Continuation(b: Byte) { 0x80 <= b as int < 0xC0 }

  /** Well-formed UTF-8, table 3-7 of the Unicode Standard: what `String::from_utf8` accepts. */
  predicate ValidUtf8(s: ByteString) {
    if s == [] then true
    else
      var b := s[0] as int;
      if b < 0x80 then ValidUtf8(s[1..])
      else if 0xC2 <= b < 0xE0 then
        |s| >= 2 && Continuation(s[1]) && ValidUtf8(s[2..])
      else if 0xE0 <= b < 0xF0 then
        && |s| >= 3 && Continuation(s[1]) && Continuation(s[2])
        && (b == 0xE0 ==> s[1] as int >= 0xA0) && (b == 0xED ==> (s[1] as int) < 0xA0)
        && ValidUtf8(s[3..])
      else if 0xF0 <= b < 0xF5 then
        && |s| >= 4 && Continuation(s[1]) && Continuation(s[2]) && Continuation(s[3])
        && (b == 0xF0 ==> s[1] as int >= 0x90) && (b == 0xF4 ==> (s[1] as int) < 0x90)
        && ValidUtf8(s[4..])
      else false
  }
}
