/** The ring law: every declared unit has a ring, dependencies never rise, and a cycle of units
    stays inside one cohesive ring. */
module Rings {
  import opened Bytes
  import opened Strings

  /** A declared unit covers itself and the modules below it. */
  predicate Covers(unit: string, m: string) {
    |unit| <= |m| && m[..|unit|] == unit && (|unit| == |m| || m[|unit|] == '.')
  }

  /** The longest declared name that covers the module, among those of at most `k` characters. */
  function LongestDeclared(m: string, declared: set<string>, k: nat): (unit: Option<string>)
    requires k <= |m|
    ensures unit.Some? ==> unit.value in declared
  {
    if m[..k] in declared && Covers(m[..k], m) then Some(m[..k])
    else if k == 0 then None
    else LongestDeclared(m, declared, k - 1)
  }

  function Unit(m: string, ringOf: map<string, real>): Option<string> {
    LongestDeclared(m, ringOf.Keys, |m|)
  }

  function RingOf(m: string, ringOf: map<string, real>): Option<real> {
    match Unit(m, ringOf)
    case None => None
    case Some(u) => Some(ringOf[u])
  }

  lemma {:induction false} LongestIsLongest(m: string, declared: set<string>, k: nat)
    requires k <= |m|
    ensures match LongestDeclared(m, declared, k)
      case Some(u) => u in declared && Covers(u, m) && |u| <= k
                      && forall d :: d in declared && Covers(d, m) && |d| <= k ==> |d| <= |u|
      case None => forall d :: d in declared && |d| <= k ==> !Covers(d, m)
    decreases k
  {
    if m[..k] in declared && Covers(m[..k], m) {
    } else if k > 0 {
      LongestIsLongest(m, declared, k - 1);
      assert forall d :: Covers(d, m) && |d| == k ==> d == m[..k];
    } else {
      assert forall d :: Covers(d, m) && |d| == k ==> d == m[..k];
    }
  }

  /** The unit of a module is a declared name that covers it, and no longer one does; a module
      has no unit only if nothing declared covers it. */
  lemma {:induction false} UnitIsLongest(m: string, ringOf: map<string, real>)
    ensures match Unit(m, ringOf)
      case Some(u) => u in ringOf && Covers(u, m)
                      && forall d :: d in ringOf && Covers(d, m) ==> |d| <= |u|
      case None => forall d :: d in ringOf ==> !Covers(d, m)
  {
    LongestIsLongest(m, ringOf.Keys, |m|);
    assert forall d :: Covers(d, m) ==> |d| <= |m|;
  }

  // ---------------------------------------------------------------- the two look-ups

  /** Where a covering name of `m` may end. */
  predicate Boundary(m: string, k: nat)
    requires k <= |m|
  {
    k == |m| || m[k] == '.'
  }

  /** Where the first `i` parts of `m` end. */
  function Cut(m: string, i: nat): (k: nat)
    requires 1 <= i <= |Split(m, '.')|
    ensures k <= |m| && Boundary(m, k)
  {
    if m == "" then 0
    else if m[0] == '.' then (if i == 1 then 0 else 1 + Cut(m[1..], i - 1))
    else 1 + Cut(m[1..], i)
  }

  ghost predicate NoBoundary(m: string, lo: int, hi: int)
    requires hi <= |m|
  {
    forall k :: 0 <= k && lo < k < hi ==> !Boundary(m, k)
  }

  lemma {:induction false} CutSkips(m: string, i: nat)
    requires 1 <= i <= |Split(m, '.')|
    ensures i == 1 ==> NoBoundary(m, -1, Cut(m, i))
    ensures i > 1 ==> Cut(m, i - 1) < Cut(m, i) && NoBoundary(m, Cut(m, i - 1), Cut(m, i))
    ensures i == |Split(m, '.')| ==> Cut(m, i) == |m|
  {
    if m == "" {
    } else if m[0] == '.' {
      if i > 1 {
        CutSkips(m[1..], i - 1);
        TailBoundaries(m, if i > 2 then Cut(m[1..], i - 2) else -1, Cut(m[1..], i - 1));
      }
    } else {
      CutSkips(m[1..], i);
      TailBoundaries(m, if i > 1 then Cut(m[1..], i - 1) else -1, Cut(m[1..], i));
    }
  }

  lemma {:induction false} TailBoundaries(m: string, lo: int, hi: int)
    requires m != "" && hi < |m| && NoBoundary(m[1..], lo, hi) && -1 <= lo
    ensures forall k :: 1 <= k && lo + 1 < k < hi + 1 ==> !Boundary(m, k)
  {
    forall k | 1 <= k && lo + 1 < k < hi + 1 ensures !Boundary(m, k) {
      assert !Boundary(m[1..], k - 1);
    }
  }

  lemma {:induction false} CandidateIsCut(m: string, i: nat)
    requires 1 <= i <= |Split(m, '.')|
    ensures Join(Split(m, '.')[..i], '.') == m[..Cut(m, i)]
  {
    if m == "" {
    } else if m[0] != '.' {
      CandidateIsCut(m[1..], i);
      PlainHead(m, i);
    } else if i > 1 {
      CandidateIsCut(m[1..], i - 1);
      DotHead(m, i);
    }
  }

  lemma {:induction false} PlainHead(m: string, i: nat)
    requires m != "" && m[0] != '.' && 1 <= i <= |Split(m, '.')|
    requires Join(Split(m[1..], '.')[..i], '.') == m[1..][..Cut(m[1..], i)]
    ensures Join(Split(m, '.')[..i], '.') == m[..Cut(m, i)]
  {
    var rest := Split(m[1..], '.');
    FirstParts(m[0], rest, i);
    JoinHead([m[0]], rest[..i], '.');
    HeadThen(m, Cut(m[1..], i));
  }

  lemma {:induction false} FirstParts(c: char, rest: seq<string>, i: nat)
    requires 1 <= i <= |rest|
    ensures ([[c] + rest[0]] + rest[1..])[..i] == [[c] + rest[..i][0]] + rest[..i][1..]
  {
  }

  lemma {:induction false} HeadThen(m: string, n: nat)
    requires m != "" && n <= |m[1..]|
    ensures [m[0]] + m[1..][..n] == m[..n + 1]
  {
  }

  lemma {:induction false} DotHead(m: string, i: nat)
    requires m != "" && m[0] == '.' && 1 < i <= |Split(m, '.')|
    requires Join(Split(m[1..], '.')[..i - 1], '.') == m[1..][..Cut(m[1..], i - 1)]
    ensures Join(Split(m, '.')[..i], '.') == m[..Cut(m, i)]
  {
    var rest := Split(m[1..], '.');
    assert Split(m, '.')[..i] == [[]] + rest[..i - 1];
    HeadThen(m, Cut(m[1..], i - 1));
    JoinAfterEmpty(rest[..i - 1]);
  }

  lemma {:induction false} JoinAfterEmpty(parts: seq<string>)
    requires parts != []
    ensures Join([""] + parts, '.') == ['.'] + Join(parts, '.')
  {
    assert ([""] + parts)[1..] == parts;
  }

  /** The scan may skip lengths at which no declared name ends at a boundary. */
  lemma {:induction false} SkipLengths(m: string, declared: set<string>, lo: nat, hi: nat)
    requires lo <= hi <= |m|
    requires forall k :: lo < k <= hi && Boundary(m, k) ==> m[..k] !in declared
    ensures LongestDeclared(m, declared, hi) == LongestDeclared(m, declared, lo)
    decreases hi
  {
    if lo < hi {
      SkipLengths(m, declared, lo, hi - 1);
    }
  }

  /** One turn of the two look-up loops: the candidate of `i` parts is the answer, or the
      answer is that of the candidates with fewer. */
  lemma {:induction false} TryCandidate(m: string, declared: set<string>, i: nat)
    requires 1 <= i <= |Split(m, '.')|
    ensures var c := Join(Split(m, '.')[..i], '.');
      LongestDeclared(m, declared, Cut(m, i)) ==
        if c in declared then Some(c)
        else if i == 1 then None
        else LongestDeclared(m, declared, Cut(m, i - 1))
  {
    CandidateIsCut(m, i);
    CutSkips(m, i);
    var c := m[..Cut(m, i)];
    if c !in declared {
      SkipLengths(m, declared, if i == 1 then 0 else Cut(m, i - 1), Cut(m, i));
    }
  }

  /** `placement_of`: the declared unit that carries the module's ring. */
  method PlacementOf(m: string, ringOf: map<string, real>) returns (unit: Option<string>)
    ensures unit == Unit(m, ringOf)
  {
    var parts := Split(m, '.');
    CutSkips(m, |parts|);
    for i := |parts| downto 0
      invariant i > 0 ==> Unit(m, ringOf) == LongestDeclared(m, ringOf.Keys, Cut(m, i))
      invariant i == 0 ==> Unit(m, ringOf) == None
    {
      TryCandidate(m, ringOf.Keys, i + 1);
      var candidate := Join(parts[..i + 1], '.');
      if candidate in ringOf {
        return Some(candidate);
      }
    }
    return None;
  }

  /** `ring_for`: the ring of the unit that `placement_of` finds, and of no other. */
  method RingFor(m: string, ringOf: map<string, real>) returns (ring: Option<real>)
    ensures ring == RingOf(m, ringOf)
  {
    var parts := Split(m, '.');
    CutSkips(m, |parts|);
    for i := |parts| downto 0
      invariant i > 0 ==> Unit(m, ringOf) == LongestDeclared(m, ringOf.Keys, Cut(m, i))
      invariant i == 0 ==> Unit(m, ringOf) == None
    {
      TryCandidate(m, ringOf.Keys, i + 1);
      var candidate := Join(parts[..i + 1], '.');
      if candidate in ringOf {
        return Some(ringOf[candidate]);
      }
    }
    return None;
  }
}
