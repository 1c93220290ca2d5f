/** The byte streams whose hashes identify a set of source files. */
module SourceIdentity {
  import opened Bytes
  import opened Sequences
  import opened Sorting
  import opened Strings

  datatype Source = Source(path: ByteString, bytes: ByteString)

  const NUL: Byte := 0 as char

  /** The two parts of a file, in the order they are hashed. */
  function Parts(s: Source): seq<ByteString> { [s.path, s.bytes] }

  /** A part after its length, which is cast with `as u64`. */
  function Frame(part: ByteString): ByteString { U64(|part| % U64_LIMIT) + part }

  function NulEnd(part: ByteString): ByteString { part + [NUL] }

  function FramedFile(s: Source): ByteString { Flatten(Frame, Parts(s)) }

  function NulEndedFile(s: Source): ByteString { Flatten(NulEnd, Parts(s)) }

  /** Nothing in the framed stream says how many files there are. */
  function Framed(files: seq<Source>): ByteString { Flatten(FramedFile, files) }

  function NulEnded(files: seq<Source>): ByteString { Flatten(NulEndedFile, files) }

  lemma {:induction false} TwoParts(s: Source)
    ensures FramedFile(s) == Frame(s.path) + Frame(s.bytes)
    ensures NulEndedFile(s) == NulEnd(s.path) + NulEnd(s.bytes)
  {
    FlattenTwo(Frame, s.path, s.bytes);
    FlattenTwo(NulEnd, s.path, s.bytes);
  }

  /** The streams of one file: its path, then its contents, each after its length or before a NUL. */
  lemma {:induction false} StreamsOfFile(s: Source)
    ensures FramedFile(s) == U64(|s.path| % U64_LIMIT) + s.path + (U64(|s.bytes| % U64_LIMIT) + s.bytes)
    ensures NulEndedFile(s) == s.path + [0 as char] + (s.bytes + [0 as char])
  {
    TwoParts(s);
  }

  /** The four updates of one file. */
  method UpdateFile(hash: ByteString, s: Source) returns (r: ByteString)
    ensures r == hash + FramedFile(s)
  {
    TwoParts(s);
    r := hash + U64(|s.path| % U64_LIMIT);
    r := r + s.path;
    r := r + U64(|s.bytes| % U64_LIMIT);
    r := r + s.bytes;
  }

  /** The hasher input of the source proof: the files are sorted, then streamed. */
  method IdentityStream(files: seq<Source>, pathOrder: (Source, Source) -> bool) returns (hash: ByteString)
    ensures hash == Framed(Sort(files, pathOrder))
  {
    var sorted := Sort(files, pathOrder);
    hash := [];
    for i := 0 to |sorted|
      invariant hash == Framed(sorted[..i])
    {
      FlattenPrefix(FramedFile, sorted, i);
      hash := UpdateFile(hash, sorted[i]);
    }
    assert sorted[..|sorted|] == sorted;
  }

  method UpdatePart(framed: ByteString, sdk: ByteString, part: ByteString) returns (f: ByteString, n: ByteString)
    ensures f == framed + Frame(part) && n == sdk + NulEnd(part)
  {
    f := framed + U64(|part| % U64_LIMIT);
    f := f + part;
    n := sdk + part;
    n := n + [NUL];
  }

  /** The inner loop, over the parts of one file. */
  method UpdateParts(framed: ByteString, sdk: ByteString, parts: seq<ByteString>)
    returns (f: ByteString, n: ByteString)
    ensures f == framed + Flatten(Frame, parts) && n == sdk + Flatten(NulEnd, parts)
  {
    f, n := framed, sdk;
    for k := 0 to |parts|
      invariant f == framed + Flatten(Frame, parts[..k])
      invariant n == sdk + Flatten(NulEnd, parts[..k])
    {
      FlattenGrow(framed, Frame, parts, k);
      FlattenGrow(sdk, NulEnd, parts, k);
      f, n := UpdatePart(f, n, parts[k]);
    }
    assert parts[..|parts|] == parts;
  }

  /** `source_digests`: the two streams of the bake receipt. */
  method DigestStreams(files: seq<Source>) returns (framed: ByteString, sdk: ByteString)
    ensures framed == Framed(files) && sdk == NulEnded(files)
  {
    framed, sdk := [], [];
    for i := 0 to |files|
      invariant framed == Framed(files[..i]) && sdk == NulEnded(files[..i])
    {
      FlattenPrefix(FramedFile, files, i);
      FlattenPrefix(NulEndedFile, files, i);
      framed, sdk := UpdateParts(framed, sdk, Parts(files[i]));
    }
    assert files[..|files|] == files;
  }

  // ---------------------------------------------------------------- what the streams determine

  /** Lengths below 2^64: true of everything in memory. */
  predicate Sized(files: seq<Source>) {
    forall i :: 0 <= i < |files| ==> |files[i].path| < U64_LIMIT && |files[i].bytes| < U64_LIMIT
  }

  lemma {:induction false} FrameHead(a: ByteString, x: ByteString)
    requires |a| < U64_LIMIT
    ensures |Frame(a) + x| >= 8 && ReadU64(Frame(a) + x) == |a| && (Frame(a) + x)[8..] == a + x
  {
    assert |a| % U64_LIMIT == |a|;
    assert Frame(a) + x == U64(|a|) + (a + x);
    U64ReadBack(|a|, a + x);
  }

  lemma {:induction false} FrameReadBack(a: ByteString, b: ByteString, x: ByteString, y: ByteString)
    requires |a| < U64_LIMIT && |b| < U64_LIMIT && Frame(a) + x == Frame(b) + y
    ensures a == b && x == y
  {
    FrameHead(a, x);
    FrameHead(b, y);
    assert a == (a + x)[..|a|] && x == (a + x)[|a|..];
    assert b == (b + y)[..|a|] && y == (b + y)[|a|..];
  }

  lemma {:induction false} FramedFileReadBack(f: Source, g: Source, x: ByteString, y: ByteString)
    requires Sized([f]) && Sized([g]) && FramedFile(f) + x == FramedFile(g) + y
    ensures f == g && x == y
  {
    assert [f][0] == f && [g][0] == g;
    TwoParts(f);
    TwoParts(g);
    assert FramedFile(f) + x == Frame(f.path) + (Frame(f.bytes) + x);
    assert FramedFile(g) + y == Frame(g.path) + (Frame(g.bytes) + y);
    FrameReadBack(f.path, g.path, Frame(f.bytes) + x, Frame(g.bytes) + y);
    FrameReadBack(f.bytes, g.bytes, x, y);
  }

  lemma {:induction false} EmptyStreams(files: seq<Source>)
    ensures Framed(files) == [] <==> files == []
    ensures NulEnded(files) == [] <==> files == []
  {
    if files != [] {
      TwoParts(files[0]);
    }
  }

  /** The framed stream determines the list, of any length, with no count in front. */
  lemma {:induction false} FramedIsInjective(a: seq<Source>, b: seq<Source>)
    requires Sized(a) && Sized(b) && Framed(a) == Framed(b)
    ensures a == b
  {
    if a == [] || b == [] {
      EmptyStreams(a);
      EmptyStreams(b);
    } else {
      FramedFileReadBack(a[0], b[0], Framed(a[1..]), Framed(b[1..]));
      FramedIsInjective(a[1..], b[1..]);
      assert a == [a[0]] + a[1..] && b == [b[0]] + b[1..];
    }
  }

  lemma {:induction false} SizedIsCounted(a: seq<Source>, b: seq<Source>)
    requires Sized(a) && multiset(a) == multiset(b)
    ensures Sized(b)
  {
    SameMembers(a, b);
    forall i | 0 <= i < |b| ensures |b[i].path| < U64_LIMIT && |b[i].bytes| < U64_LIMIT {
      assert b[i] in a;
    }
  }

  /** The identity of a source tree is its set of files: two listings give one stream exactly
      when they list the same files, in whatever order the directories were read. */
  lemma {:induction false} IdentityIsTheFileSet(a: seq<Source>, b: seq<Source>, pathOrder: (Source, Source) -> bool)
    requires Sized(a) && Sized(b) && Preorder(pathOrder) && TiesAreEqual(a, pathOrder)
    ensures Framed(Sort(a, pathOrder)) == Framed(Sort(b, pathOrder)) <==> multiset(a) == multiset(b)
  {
    SortSorts(a, pathOrder);
    SortSorts(b, pathOrder);
    SizedIsCounted(a, Sort(a, pathOrder));
    SizedIsCounted(b, Sort(b, pathOrder));
    if multiset(a) == multiset(b) {
      SortForgetsOrder(a, b, pathOrder);
    } else if Framed(Sort(a, pathOrder)) == Framed(Sort(b, pathOrder)) {
      FramedIsInjective(Sort(a, pathOrder), Sort(b, pathOrder));
    }
  }

  // ---------------------------------------------------------------- the stream with NULs

  /** The pieces between the NULs of both parts of every file, in order. */
  function Fields(files: seq<Source>): seq<ByteString> {
    if files == [] then [] else FieldsOf(files[0]) + Fields(files[1..])
  }

  function FieldsOf(s: Source): seq<ByteString> { Split<Byte>(s.path, NUL) + Split<Byte>(s.bytes, NUL) }

  lemma {:induction false} FirstNul(a: ByteString, x: ByteString)
    requires NUL !in a
    ensures forall i :: 0 <= i < |a| ==> (NulEnd(a) + x)[i] != NUL
    ensures (NulEnd(a) + x)[|a|] == NUL
    ensures a == (NulEnd(a) + x)[..|a|] && x == (NulEnd(a) + x)[|a| + 1..]
  {
    forall i | 0 <= i < |a| ensures (NulEnd(a) + x)[i] != NUL {
      assert (NulEnd(a) + x)[i] == a[i];
    }
  }

  lemma {:induction false} UpToNul(a: ByteString, b: ByteString, x: ByteString, y: ByteString)
    requires NUL !in a && NUL !in b && NulEnd(a) + x == NulEnd(b) + y
    ensures a == b && x == y
  {
    FirstNul(a, x);
    FirstNul(b, y);
    assert |a| == |b|;
  }

  /** A part is ended as its fields are, each by its own NUL. */
  lemma {:induction false} JoinEnds(parts: seq<ByteString>)
    requires parts != []
    ensures NulEnd(Join<Byte>(parts, NUL)) == Flatten(NulEnd, parts)
    decreases |parts|
  {
    if |parts| == 1 {
      assert parts[1..] == [];
    } else {
      JoinEnds(parts[1..]);
      Regroup(NulEnd(parts[0]), Join<Byte>(parts[1..], NUL), [NUL]);
    }
  }

  lemma {:induction false} PartEnds(part: ByteString)
    ensures NulEnd(part) == Flatten(NulEnd, Split<Byte>(part, NUL))
    ensures forall p :: p in Split<Byte>(part, NUL) ==> NUL !in p
  {
    JoinSplit<Byte>(part, NUL);
    JoinEnds(Split<Byte>(part, NUL));
  }

  lemma {:induction false} FileFields(s: Source)
    ensures NulEndedFile(s) == Flatten(NulEnd, FieldsOf(s))
    ensures forall p :: p in FieldsOf(s) ==> NUL !in p
  {
    TwoParts(s);
    PartEnds(s.path);
    PartEnds(s.bytes);
    FlattenConcat(NulEnd, Split<Byte>(s.path, NUL), Split<Byte>(s.bytes, NUL));
  }

  /** The stream is the fields, each ended by a NUL, and no field holds one. */
  lemma {:induction false} StreamOfFields(files: seq<Source>)
    ensures NulEnded(files) == Flatten(NulEnd, Fields(files))
    ensures forall p :: p in Fields(files) ==> NUL !in p
  {
    if files != [] {
      StreamOfFields(files[1..]);
      FileFields(files[0]);
      FlattenConcat(NulEnd, FieldsOf(files[0]), Fields(files[1..]));
    }
  }

  lemma {:induction false} EndedIsInjective(u: seq<ByteString>, v: seq<ByteString>)
    requires (forall p :: p in u ==> NUL !in p) && (forall p :: p in v ==> NUL !in p)
    requires Flatten(NulEnd, u) == Flatten(NulEnd, v)
    ensures u == v
  {
    if u != [] && v != [] {
      assert u[0] in u && v[0] in v;
      assert (forall p :: p in u[1..] ==> p in u) && (forall p :: p in v[1..] ==> p in v);
      UpToNul(u[0], v[0], Flatten(NulEnd, u[1..]), Flatten(NulEnd, v[1..]));
      EndedIsInjective(u[1..], v[1..]);
      HeadTail(u);
      HeadTail(v);
    }
  }

  /** The NUL-ended stream, used by the SDK digest and the cache key, determines the fields of
      the files and nothing else: not which of them make up a path, a content or a file. */
  lemma {:induction false} NulEndedIff(a: seq<Source>, b: seq<Source>)
    ensures NulEnded(a) == NulEnded(b) <==> Fields(a) == Fields(b)
  {
    StreamOfFields(a);
    StreamOfFields(b);
    if NulEnded(a) == NulEnded(b) {
      EndedIsInjective(Fields(a), Fields(b));
    }
  }

  predicate NulFree(files: seq<Source>) {
    forall i :: 0 <= i < |files| ==> NUL !in files[i].path && NUL !in files[i].bytes
  }

  lemma {:induction false} NulFreeFields(files: seq<Source>)
    requires NulFree(files)
    ensures |Fields(files)| == 2 * |files|
    ensures files != [] ==> Fields(files) == [files[0].path, files[0].bytes] + Fields(files[1..])
  {
    if files != [] {
      SplitPlain<Byte>(files[0].path, NUL);
      SplitPlain<Byte>(files[0].bytes, NUL);
      NulFreeFields(files[1..]);
    }
  }

  /** So it determines the list among the lists without a NUL, whose fields are their parts. */
  lemma {:induction false} NulEndedIsInjective(a: seq<Source>, b: seq<Source>)
    requires NulFree(a) && NulFree(b) && NulEnded(a) == NulEnded(b)
    ensures a == b
  {
    NulEndedIff(a, b);
    SameFields(a, b);
  }

  lemma {:induction false} SameFields(a: seq<Source>, b: seq<Source>)
    requires NulFree(a) && NulFree(b) && Fields(a) == Fields(b)
    ensures a == b
  {
    NulFreeFields(a);
    NulFreeFields(b);
    if a != [] {
      var x, y := Fields(a[1..]), Fields(b[1..]);
      TwoFields(a[0], x, b[0], y);
      SameFields(a[1..], b[1..]);
      HeadTail(a);
      HeadTail(b);
    }
  }

  lemma {:induction false} TwoFields(f: Source, x: seq<ByteString>, g: Source, y: seq<ByteString>)
    requires [f.path, f.bytes] + x == [g.path, g.bytes] + y
    ensures f == g && x == y
  {
    var u, v := [f.path, f.bytes] + x, [g.path, g.bytes] + y;
    assert u[0] == v[0] && u[1] == v[1] && u[2..] == x && v[2..] == y;
  }

  function Merged(f: Source, g: Source): Source {
    Source(f.path, f.bytes + [NUL] + (g.path + [NUL] + g.bytes))
  }

  lemma {:induction false} MergedFields(f: Source, g: Source)
    ensures FieldsOf(f) + FieldsOf(g) == FieldsOf(Merged(f, g))
  {
    SplitConcat<Byte>(g.path, NUL, g.bytes);
    SplitConcat<Byte>(f.bytes, NUL, g.path + [NUL] + g.bytes);
    Regroup(Split<Byte>(f.path, NUL), Split<Byte>(f.bytes, NUL), FieldsOf(g));
  }

  /** Content with a NUL can pass for a second file: two files, and the one file that
      carries the second inside the first, have one NUL-ended stream.  Their framed
      streams differ, so the fingerprint tells them apart. */
  lemma {:induction false} NulEndedMergesFiles(f: Source, g: Source, rest: seq<Source>)
    requires Sized([f, g] + rest) && Sized([Merged(f, g)] + rest)
    ensures NulEnded([f, g] + rest) == NulEnded([Merged(f, g)] + rest)
    ensures Framed([f, g] + rest) != Framed([Merged(f, g)] + rest)
  {
    var two, one := [f, g] + rest, [Merged(f, g)] + rest;
    assert two[1..] == [g] + rest && ([g] + rest)[1..] == rest && one[1..] == rest;
    MergedFields(f, g);
    Regroup(FieldsOf(f), FieldsOf(g), Fields(rest));
    assert Fields([g] + rest) == FieldsOf(g) + Fields(rest);
    NulEndedIff(two, one);
    assert |two| == |one| + 1;
    if Framed(two) == Framed(one) {
      FramedIsInjective(two, one);
    }
  }
}
