/** Sorting as a function of the multiset of the elements: why the outputs that are
    sorted first do not depend on the order in which a directory is enumerated. */
module Sorting {
  import opened Sequences

  ghost predicate Preorder<T(!new)>(le: (T, T) -> bool) {
    && (forall x, y :: le(x, y) || le(y, x))
    && (forall x, y, z :: le(x, y) && le(y, z) ==> le(x, z))
  }

  ghost predicate SortedBy<T>(xs: seq<T>, le: (T, T) -> bool) {
    forall i, j :: 0 <= i < j < |xs| ==> le(xs[i], xs[j])
  }

  /** Among the listed elements, ties are only between equal elements. */
  ghost predicate TiesAreEqual<T(!new)>(xs: seq<T>, le: (T, T) -> bool) {
    forall x, y :: x in xs && y in xs && le(x, y) && le(y, x) ==> x == y
  }

  function Insert<T>(x: T, xs: seq<T>, le: (T, T) -> bool): seq<T> {
    if xs == [] || le(x, xs[0]) then [x] + xs
    else [xs[0]] + Insert(x, xs[1..], le)
  }

  /** The stable sort of the standard libraries, as an insertion sort. */
  function Sort<T>(xs: seq<T>, le: (T, T) -> bool): seq<T> {
    if xs == [] then [] else Insert(xs[0], Sort(xs[1..], le), le)
  }

  lemma {:induction false} InsertAdds<T>(x: T, xs: seq<T>, le: (T, T) -> bool)
    ensures multiset(Insert(x, xs, le)) == multiset{x} + multiset(xs)
  {
    if xs != [] && !le(x, xs[0]) {
      InsertAdds(x, xs[1..], le);
      HeadTail(xs);
    }
  }

  lemma {:induction false} SortedCons<T(!new)>(x: T, xs: seq<T>, le: (T, T) -> bool)
    requires SortedBy(xs, le) && forall y :: y in xs ==> le(x, y)
    ensures SortedBy([x] + xs, le)
  {
  }

  lemma {:induction false} InsertSorts<T(!new)>(x: T, xs: seq<T>, le: (T, T) -> bool)
    requires Preorder(le) && SortedBy(xs, le)
    ensures SortedBy(Insert(x, xs, le), le)
  {
    if xs == [] || le(x, xs[0]) {
      assert forall y :: y in xs ==> le(xs[0], y);
      SortedCons(x, xs, le);
    } else {
      var rest := Insert(x, xs[1..], le);
      InsertSorts(x, xs[1..], le);
      InsertAdds(x, xs[1..], le);
      forall y | y in rest ensures le(xs[0], y) {
        assert y in multiset(rest);
        assert y == x || y in xs[1..];
      }
      SortedCons(xs[0], rest, le);
    }
  }

  lemma {:induction false} SortSorts<T(!new)>(xs: seq<T>, le: (T, T) -> bool)
    requires Preorder(le)
    ensures SortedBy(Sort(xs, le), le)
    ensures multiset(Sort(xs, le)) == multiset(xs)
    ensures |Sort(xs, le)| == |xs|
  {
    if xs != [] {
      SortSorts(xs[1..], le);
      InsertSorts(xs[0], Sort(xs[1..], le), le);
      InsertAdds(xs[0], Sort(xs[1..], le), le);
      assert xs == [xs[0]] + xs[1..];
    }
    assert |multiset(Sort(xs, le))| == |multiset(xs)|;
  }

  lemma {:induction false} SameMembers<T>(xs: seq<T>, ys: seq<T>)
    requires multiset(xs) == multiset(ys)
    ensures forall x :: x in xs <==> x in ys
  {
    forall x ensures x in xs <==> x in ys {
      assert x in xs <==> x in multiset(xs);
      assert x in ys <==> x in multiset(ys);
    }
  }

  lemma {:induction false} SameFirst<T(!new)>(xs: seq<T>, ys: seq<T>, le: (T, T) -> bool)
    requires Preorder(le) && SortedBy(xs, le) && SortedBy(ys, le) && xs != [] && ys != []
    requires multiset(xs) == multiset(ys) && TiesAreEqual(xs, le)
    ensures xs[0] == ys[0]
  {
    SameMembers(xs, ys);
    assert xs[0] in ys && ys[0] in xs;
    var i :| 0 <= i < |ys| && ys[i] == xs[0];
    var j :| 0 <= j < |xs| && xs[j] == ys[0];
    assert le(xs[0], ys[0]) && le(ys[0], xs[0]);
  }

  lemma {:induction false} RestOf<T>(xs: seq<T>)
    requires xs != []
    ensures multiset(xs[1..]) == multiset(xs) - multiset{xs[0]}
  {
    assert xs == [xs[0]] + xs[1..];
  }

  lemma {:induction false} SortedIsUnique<T(!new)>(xs: seq<T>, ys: seq<T>, le: (T, T) -> bool)
    requires Preorder(le) && SortedBy(xs, le) && SortedBy(ys, le)
    requires multiset(xs) == multiset(ys) && TiesAreEqual(xs, le)
    ensures xs == ys
    decreases |xs|
  {
    assert |xs| == |multiset(xs)| == |multiset(ys)| == |ys|;
    if xs != [] {
      SameFirst(xs, ys, le);
      RestOf(xs);
      RestOf(ys);
      SortedIsUnique(xs[1..], ys[1..], le);
      HeadTail(xs);
      HeadTail(ys);
    }
  }

  /** Sorting forgets the order of its input. */
  lemma {:induction false} SortForgetsOrder<T(!new)>(xs: seq<T>, ys: seq<T>, le: (T, T) -> bool)
    requires Preorder(le) && multiset(xs) == multiset(ys) && TiesAreEqual(xs, le)
    ensures Sort(xs, le) == Sort(ys, le)
  {
    SortSorts(xs, le);
    SortSorts(ys, le);
    SameMembers(xs, Sort(xs, le));
    SortedIsUnique(Sort(xs, le), Sort(ys, le), le);
  }

  // ---------------------------------------------------------------- mapping

  function Map<A, B>(f: A -> B, xs: seq<A>): (ys: seq<B>)
    ensures |ys| == |xs|
    ensures forall i :: 0 <= i < |xs| ==> ys[i] == f(xs[i])
  {
    if xs == [] then [] else [f(xs[0])] + Map(f, xs[1..])
  }

  lemma {:induction false} MapRemove<A, B>(f: A -> B, xs: seq<A>, k: nat)
    requires k < |xs|
    ensures multiset(xs) == multiset{xs[k]} + multiset(xs[..k] + xs[k + 1..])
    ensures multiset(Map(f, xs)) == multiset{f(xs[k])} + multiset(Map(f, xs[..k] + xs[k + 1..]))
  {
    var ys := Map(f, xs);
    WithoutOne(xs, k);
    WithoutOne(ys, k);
    MapCut(f, xs, k);
  }

  lemma {:induction false} WithoutOne<T>(xs: seq<T>, k: nat)
    requires k < |xs|
    ensures multiset(xs) == multiset{xs[k]} + multiset(xs[..k] + xs[k + 1..])
  {
    MiddleOut(xs[..k], xs[k], xs[k + 1..]);
    assert xs == xs[..k] + [xs[k]] + xs[k + 1..];
  }

  lemma {:induction false} MapCut<A, B>(f: A -> B, xs: seq<A>, k: nat)
    requires k < |xs|
    ensures Map(f, xs[..k] + xs[k + 1..]) == Map(f, xs)[..k] + Map(f, xs)[k + 1..]
  {
  }

  lemma {:induction false} MapForgetsOrder<A, B>(f: A -> B, xs: seq<A>, ys: seq<A>)
    requires multiset(xs) == multiset(ys)
    ensures multiset(Map(f, xs)) == multiset(Map(f, ys))
  {
    if xs == [] {
      assert |multiset(ys)| == 0;
    } else {
      var k := IndexIn(xs[0], ys, xs);
      var rest := ys[..k] + ys[k + 1..];
      MapRemove(f, ys, k);
      assert multiset(xs[1..]) == multiset(rest) by {
        assert xs == [xs[0]] + xs[1..];
        Cancel(xs[0], multiset(xs[1..]), multiset(rest));
      }
      MapForgetsOrder(f, xs[1..], rest);
    }
  }

  lemma {:induction false} IndexIn<T>(x: T, ys: seq<T>, xs: seq<T>) returns (k: nat)
    requires x in xs && multiset(xs) == multiset(ys)
    ensures k < |ys| && ys[k] == x
  {
    assert x in multiset(ys);
    k :| 0 <= k < |ys| && ys[k] == x;
  }

  lemma {:induction false} Cancel<T>(x: T, a: multiset<T>, b: multiset<T>)
    requires multiset{x} + a == multiset{x} + b
    ensures a == b
  {
    assert a == multiset{x} + a - multiset{x};
  }

  // ---------------------------------------------------------------- ties

  function TiedOne<T>(y: T, x: T, le: (T, T) -> bool): seq<T> { if le(x, y) && le(y, x) then [y] else [] }

  /** The elements that tie with `x`, in their order. */
  function Tied<T>(xs: seq<T>, x: T, le: (T, T) -> bool): seq<T> {
    if xs == [] then [] else TiedOne(xs[0], x, le) + Tied(xs[1..], x, le)
  }

  lemma {:induction false} TiedHead<T>(y: T, xs: seq<T>, x: T, le: (T, T) -> bool)
    ensures Tied([y] + xs, x, le) == TiedOne(y, x, le) + Tied(xs, x, le)
  {
    assert ([y] + xs)[1..] == xs;
  }

  lemma {:induction false} Swap<T>(p: seq<T>, q: seq<T>, r: seq<T>)
    requires p == [] || q == []
    ensures p + (q + r) == q + (p + r)
  {
  }

  lemma {:induction false} PassBy<T(!new)>(y: T, m: T, inserted: seq<T>, xs: seq<T>, x: T, le: (T, T) -> bool)
    requires Preorder(le) && !le(y, m) && Tied(inserted, x, le) == TiedOne(y, x, le) + Tied(xs, x, le)
    ensures Tied([m] + inserted, x, le) == TiedOne(y, x, le) + Tied([m] + xs, x, le)
  {
    TiedHead(m, inserted, x, le);
    TiedHead(m, xs, x, le);
    assert le(y, x) && le(x, m) ==> le(y, m);
    Swap(TiedOne(m, x, le), TiedOne(y, x, le), Tied(xs, x, le));
  }

  lemma {:induction false} InsertIsStable<T(!new)>(y: T, xs: seq<T>, x: T, le: (T, T) -> bool)
    requires Preorder(le)
    ensures Tied(Insert(y, xs, le), x, le) == TiedOne(y, x, le) + Tied(xs, x, le)
    decreases |xs|
  {
    if xs == [] || le(y, xs[0]) {
      TiedHead(y, xs, x, le);
    } else {
      InsertIsStable(y, xs[1..], x, le);
      PassBy(y, xs[0], Insert(y, xs[1..], le), xs[1..], x, le);
      HeadTail(xs);
    }
  }

  /** Elements that tie keep their order. */
  lemma {:induction false} SortIsStable<T(!new)>(xs: seq<T>, x: T, le: (T, T) -> bool)
    requires Preorder(le)
    ensures Tied(Sort(xs, le), x, le) == Tied(xs, x, le)
    decreases |xs|
  {
    if xs != [] {
      SortIsStable(xs[1..], x, le);
      InsertIsStable(xs[0], Sort(xs[1..], le), x, le);
    }
  }

  lemma {:induction false} TieShows<T(!new)>(x: T, y: T, rest: seq<T>, le: (T, T) -> bool)
    requires Preorder(le) && le(x, y) && le(y, x) && x != y
    ensures Sort([x, y] + rest, le) != Sort([y, x] + rest, le)
  {
    assert le(x, x);
    SortIsStable([x, y] + rest, x, le);
    SortIsStable([y, x] + rest, x, le);
    assert Tied([x, y] + rest, x, le)[0] == x && Tied([y, x] + rest, x, le)[0] == y;
  }

  ghost predicate SameElements<T>(xs: seq<T>, ys: seq<T>) { multiset(xs) == multiset(ys) }

  /** What is sorted does not depend on the order in which its sources are listed. */
  ghost predicate OrderFree<A(!new), B>(f: A -> B, xs: seq<A>, le: (B, B) -> bool) {
    forall ys :: SameElements(xs, ys) ==> Sort(Map(f, ys), le) == Sort(Map(f, xs), le)
  }

  lemma {:induction false} MiddleOut<T>(a: seq<T>, x: T, b: seq<T>)
    ensures multiset(a + [x] + b) == multiset{x} + multiset(a + b)
  {
  }

  lemma {:induction false} TakeOut<T>(xs: seq<T>, i: nat, j: nat) returns (rest: seq<T>, k: nat)
    requires i < |xs| && j < |xs| && i != j
    ensures multiset(xs) == multiset{xs[i]} + multiset(rest) && k < |rest| && rest[k] == xs[j]
  {
    rest, k := xs[..i] + xs[i + 1..], if j < i then j else j - 1;
    WithoutOne(xs, i);
  }

  lemma {:induction false} TakeLast<T>(xs: seq<T>, i: nat) returns (rest: seq<T>)
    requires i < |xs|
    ensures multiset(xs) == multiset{xs[i]} + multiset(rest)
  {
    rest := xs[..i] + xs[i + 1..];
    WithoutOne(xs, i);
  }

  /** Two elements at different places may be listed first, in either order. */
  lemma {:induction false} TwoFirst<T>(xs: seq<T>, i: nat, j: nat) returns (rest: seq<T>)
    requires i < |xs| && j < |xs| && i != j
    ensures SameElements(xs, [xs[i], xs[j]] + rest) && SameElements(xs, [xs[j], xs[i]] + rest)
  {
    var most, k := TakeOut(xs, i, j);
    rest := TakeLast(most, k);
    Pair(xs[i], xs[j], rest);
    Pair(xs[j], xs[i], rest);
  }

  lemma {:induction false} Pair<T>(x: T, y: T, rest: seq<T>)
    ensures multiset([x, y] + rest) == multiset{x} + multiset{y} + multiset(rest)
  {
    assert [x, y] + rest == [x] + [y] + rest;
  }

  lemma {:induction false} MapTwo<A, B>(f: A -> B, x: A, y: A, rest: seq<A>)
    ensures Map(f, [x, y] + rest) == [f(x), f(y)] + Map(f, rest)
  {
    MapHead(f, x, [y] + rest);
    MapHead(f, y, rest);
    assert [x, y] + rest == [x] + ([y] + rest);
    assert [f(x), f(y)] + Map(f, rest) == [f(x)] + ([f(y)] + Map(f, rest));
  }

  lemma {:induction false} MapHead<A, B>(f: A -> B, x: A, rest: seq<A>)
    ensures Map(f, [x] + rest) == [f(x)] + Map(f, rest)
  {
    assert ([x] + rest)[1..] == rest;
  }

  lemma {:induction false} TieBreaksOrder<A(!new), B(!new)>(f: A -> B, xs: seq<A>, i: nat, j: nat, le: (B, B) -> bool)
    requires Preorder(le) && i < |xs| && j < |xs|
    requires le(f(xs[i]), f(xs[j])) && le(f(xs[j]), f(xs[i])) && f(xs[i]) != f(xs[j])
    ensures !OrderFree(f, xs, le)
  {
    var rest := TwoFirst(xs, i, j);
    MapTwo(f, xs[i], xs[j], rest);
    MapTwo(f, xs[j], xs[i], rest);
    TieShows(f(xs[i]), f(xs[j]), Map(f, rest), le);
    TwoOrders(f, xs, [xs[i], xs[j]] + rest, [xs[j], xs[i]] + rest, le);
  }

  lemma {:induction false} TwoOrders<A(!new), B(!new)>(f: A -> B, xs: seq<A>, ys: seq<A>, zs: seq<A>,
                                                       le: (B, B) -> bool)
    requires SameElements(xs, ys) && SameElements(xs, zs) && Sort(Map(f, ys), le) != Sort(Map(f, zs), le)
    ensures !OrderFree(f, xs, le)
  {
  }

  lemma {:induction false} NoTieNoOrder<A(!new), B(!new)>(f: A -> B, xs: seq<A>, le: (B, B) -> bool)
    requires Preorder(le) && TiesAreEqual(Map(f, xs), le)
    ensures OrderFree(f, xs, le)
  {
    forall ys | SameElements(xs, ys) ensures Sort(Map(f, ys), le) == Sort(Map(f, xs), le) {
      MapForgetsOrder(f, xs, ys);
      SortForgetsOrder(Map(f, xs), Map(f, ys), le);
    }
  }

  /** Exactly when that is so: sources that tie give the same element. */
  lemma {:induction false} OrderFreeIff<A(!new), B(!new)>(f: A -> B, xs: seq<A>, le: (B, B) -> bool)
    requires Preorder(le)
    ensures OrderFree(f, xs, le) <==> TiesAreEqual(Map(f, xs), le)
  {
    var ms := Map(f, xs);
    if TiesAreEqual(ms, le) {
      NoTieNoOrder(f, xs, le);
    } else {
      var x, y :| x in ms && y in ms && le(x, y) && le(y, x) && x != y;
      var i :| 0 <= i < |ms| && ms[i] == x;
      var j :| 0 <= j < |ms| && ms[j] == y;
      TieBreaksOrder(f, xs, i, j, le);
    }
  }

  // ---------------------------------------------------------------- string order

  /** Lexicographic order by code unit, as on Rust and Python strings. */
  predicate LexLe(a: string, b: string) {
    if a == [] then true
    else if b == [] then false
    else a[0] < b[0] || (a[0] == b[0] && LexLe(a[1..], b[1..]))
  }

  /** A string is not after another when it is a prefix of it, or is below it where the two first
      differ. */
  lemma {:induction false} LexLeIff(a: string, b: string)
    ensures LexLe(a, b) <==>
            || a <= b
            || exists i :: 0 <= i < |a| && i < |b| && a[..i] == b[..i] && a[i] < b[i]
  {
    if a != [] && b != [] {
      LexLeIff(a[1..], b[1..]);
      if a[0] == b[0] {
        if a[1..] <= b[1..] {
          assert a == [a[0]] + a[1..] && b == [b[0]] + b[1..];
        } else if i :| 0 <= i < |a[1..]| && i < |b[1..]| && a[1..][..i] == b[1..][..i] && a[1..][i] < b[1..][i] {
          assert a[..i + 1] == [a[0]] + a[1..][..i] && b[..i + 1] == [b[0]] + b[1..][..i];
          assert a[i + 1] < b[i + 1];
        }
        if a <= b {
          assert a[1..] <= b[1..];
        } else if i :| 0 <= i < |a| && i < |b| && a[..i] == b[..i] && a[i] < b[i] {
          assert i > 0 && a[1..][..i - 1] == a[..i][1..] && b[1..][..i - 1] == b[..i][1..];
          assert a[1..][i - 1] < b[1..][i - 1];
        }
      } else {
        if a[0] < b[0] {
          assert a[..0] == b[..0];
        }
        SharedHead(a, b);
      }
    }
  }

  lemma {:induction false} SharedHead(a: string, b: string)
    requires a != [] && b != []
    ensures forall i :: 0 < i <= |a| && i <= |b| && a[..i] == b[..i] ==> a[0] == b[0]
  {
    forall i | 0 < i <= |a| && i <= |b| && a[..i] == b[..i] ensures a[0] == b[0] {
      assert a[..i][0] == a[0] && b[..i][0] == b[0];
    }
  }

  lemma {:induction false} LexTotal(a: string, b: string)
    ensures LexLe(a, b) || LexLe(b, a)
    ensures LexLe(a, b) && LexLe(b, a) ==> a == b
  {
    if a != [] && b != [] {
      LexTotal(a[1..], b[1..]);
      assert a == [a[0]] + a[1..] && b == [b[0]] + b[1..];
    }
  }

  lemma {:induction false} LexTransitive(a: string, b: string, c: string)
    requires LexLe(a, b) && LexLe(b, c)
    ensures LexLe(a, c)
  {
    if a != [] && b != [] && c != [] && a[0] == b[0] == c[0] {
      LexTransitive(a[1..], b[1..], c[1..]);
    }
  }

  lemma {:induction false} LexOrder()
    ensures Preorder(LexLe)
    ensures forall a, b :: LexLe(a, b) && LexLe(b, a) ==> a == b
  {
    forall a, b ensures (LexLe(a, b) || LexLe(b, a)) && (LexLe(a, b) && LexLe(b, a) ==> a == b) {
      LexTotal(a, b);
    }
    forall a, b, c | LexLe(a, b) && LexLe(b, c) ensures LexLe(a, c) {
      LexTransitive(a, b, c);
    }
  }

  lemma {:induction false} LeastString(s: set<string>) returns (m: string)
    requires s != {}
    ensures m in s && forall x :: x in s ==> LexLe(m, x)
  {
    m :| m in s;
    LexOrder();
    if s != {m} {
      var rest := s - {m};
      var k := LeastString(rest);
      if LexLe(m, k) {
        assert forall x :: x in s ==> x == m || x in rest;
      } else {
        m := k;
        assert forall x :: x in s ==> x !in rest ==> LexLe(m, x);
      }
    }
  }

  /** `sorted(…)` of a set of strings. */
  method SortedStrings(s: set<string>) returns (xs: seq<string>)
    ensures SortedBy(xs, LexLe) && multiset(xs) == multiset(s)
    ensures forall x :: x in xs <==> x in s
  {
    xs := [];
    var rest := s;
    LexOrder();
    while rest != {}
      invariant rest <= s && SortedBy(xs, LexLe)
      invariant forall x, y :: x in xs && y in rest ==> LexLe(x, y)
      invariant multiset(xs) + multiset(rest) == multiset(s)
      invariant forall x :: x in s <==> x in xs || x in rest
      decreases rest
    {
      ghost var least := LeastString(rest);
      var m :| m in rest && forall x :: x in rest ==> LexLe(m, x);
      xs := xs + [m];
      rest := rest - {m};
    }
  }
}
