/** Facts about sequences of any type, each with a name so that a proof can use just that one. */
module Sequences {
  lemma {:induction false} Regroup<T>(x: seq<T>, y: seq<T>, z: seq<T>)
    ensures x + y + z == x + (y + z)
  {
  }

  lemma {:induction false} HeadTail<T>(xs: seq<T>)
    requires xs != []
    ensures [xs[0]] + xs[1..] == xs
  {
  }

  lemma {:induction false} HeadTailConcat<T>(a: seq<T>, b: seq<T>)
    requires a != []
    ensures (a + b)[0] == a[0] && (a + b)[1..] == a[1..] + b
    ensures a + b == [a[0]] + (a[1..] + b)
  {
  }

  lemma {:induction false} TakeOneMore<T>(xs: seq<T>, i: nat)
    requires i < |xs|
    ensures xs[..i + 1] == xs[..i] + [xs[i]]
  {
  }

  lemma {:induction false} TakeOfSlice<T>(xs: seq<T>, a: nat, b: nat, c: nat)
    requires a <= b <= c <= |xs|
    ensures xs[a..c][..b - a] == xs[a..b]
  {
  }

  lemma {:induction false} PushThenRest<T>(a: seq<T>, x: T, b: seq<T>)
    ensures a + [x] + b == a + ([x] + b)
  {
  }

  lemma {:induction false} PiecesAt<T>(s: seq<T>, i: nat, a: seq<T>, b: seq<T>, c: seq<T>)
    requires i <= |s| && s[i..] == a + (b + c)
    ensures |s| == i + |a| + |b| + |c|
    ensures s[i + |a|..i + |a| + |b|] == b && s[i..i + |a| + |b|] == a + b
    ensures c != [] ==> s[i + |a| + |b|] == c[0]
  {
    var t := s[i..];
    assert |t| == |a| + |b| + |c|;
    assert t[|a|..|a| + |b|] == b && t[..|a| + |b|] == a + b;
    assert c != [] ==> t[|a| + |b|] == c[0];
    assert s[i + |a|..i + |a| + |b|] == t[|a|..|a| + |b|] && s[i..i + |a| + |b|] == t[..|a| + |b|];
  }
}
