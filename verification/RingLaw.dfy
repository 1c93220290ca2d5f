/** The ring gate: upward edges, declared exceptions and cycles inside a ring, and what their
    absence says about the whole dependency graph. */
module RingLaw {
  import opened Sequences
  import opened Bytes
  import opened Cycles
  import opened Rings

  type Dependency = (string, string)

  /** The declarations of the ring table. */
  datatype Law = Law(ringOf: map<string, real>, cohesive: set<real>, exceptions: set<string>)

  function Label(e: Dependency): string { e.0 + " -> " + e.1 }

  predicate Rises(e: Dependency, law: Law) {
    match (RingOf(e.0, law.ringOf), RingOf(e.1, law.ringOf))
    case (Some(s), Some(d)) => d > s
    case _ => false
  }

  predicate Excused(e: Dependency, law: Law) { Rises(e, law) && Label(e) in law.exceptions }

  /** The edges that the law is about: all but the rising ones that are declared exceptions. */
  function Bound(edges: seq<Dependency>, law: Law): seq<Dependency> {
    if edges == [] then []
    else (if Excused(edges[0], law) then [] else [edges[0]]) + Bound(edges[1..], law)
  }

  // ---------------------------------------------------------------- layers

  /** Some module of the first unit depends on some module of the second. */
  ghost predicate UnitEdge(edges: seq<Dependency>, law: Law, a: string, b: string) {
    exists e :: e in edges && Unit(e.0, law.ringOf) == Some(a) && Unit(e.1, law.ringOf) == Some(b)
  }

  ghost predicate UnitWalk(edges: seq<Dependency>, law: Law, w: seq<string>) {
    && w != [] && (forall u :: u in w ==> u in law.ringOf)
    && forall i :: 0 <= i < |w| - 1 ==> UnitEdge(edges, law, w[i], w[i + 1])
  }

  ghost predicate NeverRises(law: Law, w: seq<string>)
    requires forall u :: u in w ==> u in law.ringOf
  {
    forall i, j :: 0 <= i <= j < |w| ==> law.ringOf[w[j]] <= law.ringOf[w[i]]
  }

  ghost predicate InOneCohesiveRing(law: Law, w: seq<string>)
    requires forall u :: u in w ==> u in law.ringOf
  {
    exists r :: r in law.cohesive && forall i :: 0 <= i < |w| ==> law.ringOf[w[i]] == r
  }

  ghost predicate OneUnit(w: seq<string>) { forall u, v :: u in w && v in w ==> u == v }

  /** The layered graph: no walk of dependencies climbs, and the units that reach one another
      all lie in one cohesive ring. */
  ghost predicate Layered(edges: seq<Dependency>, law: Law) {
    && (forall w :: UnitWalk(edges, law, w) ==> NeverRises(law, w))
    && (forall w :: UnitWalk(edges, law, w) && w[0] == w[|w| - 1] && !OneUnit(w)
                    ==> InOneCohesiveRing(law, w))
  }

  /** The edge that the second loop of the gate adds to `intra`. */
  ghost predicate IntraEdge(edges: seq<Dependency>, law: Law, a: string, b: string) {
    && a != b && UnitEdge(edges, law, a, b)
    && a in law.ringOf && b in law.ringOf && law.ringOf[a] == law.ringOf[b]
    && law.ringOf[a] !in law.cohesive
  }

  ghost predicate IsIntra(edges: seq<Dependency>, law: Law, g: Graph) {
    forall a, b :: Edge(g, a, b) <==> IntraEdge(edges, law, a, b)
  }

  // ---------------------------------------------------------------- the gate decides layering

  ghost predicate NoRise(edges: seq<Dependency>, law: Law) {
    forall e :: e in edges ==> !Rises(e, law)
  }

  lemma {:induction false} TailWalk(edges: seq<Dependency>, law: Law, w: seq<string>)
    requires UnitWalk(edges, law, w) && |w| > 1
    ensures UnitWalk(edges, law, w[1..]) && UnitEdge(edges, law, w[0], w[1])
  {
    var rest := w[1..];
    assert UnitEdge(edges, law, w[0], w[0 + 1]);
    forall i | 0 <= i < |rest| - 1 ensures UnitEdge(edges, law, rest[i], rest[i + 1]) {
      assert UnitEdge(edges, law, w[i + 1], w[i + 1 + 1]);
    }
  }

  lemma {:induction false} WalkNeverRises(edges: seq<Dependency>, law: Law, w: seq<string>)
    requires NoRise(edges, law) && UnitWalk(edges, law, w)
    ensures NeverRises(law, w)
    decreases |w|
  {
    if |w| > 1 {
      var rest := w[1..];
      TailWalk(edges, law, w);
      WalkNeverRises(edges, law, rest);
      StepDown(edges, law, w[0], w[1]);
      assert forall i :: 0 < i < |w| ==> w[i] == rest[i - 1];
      assert rest[0] == w[1];
    }
  }

  lemma {:induction false} StepDown(edges: seq<Dependency>, law: Law, a: string, b: string)
    requires NoRise(edges, law) && UnitEdge(edges, law, a, b)
    requires a in law.ringOf && b in law.ringOf
    ensures law.ringOf[b] <= law.ringOf[a]
  {
    var e :| e in edges && Unit(e.0, law.ringOf) == Some(a) && Unit(e.1, law.ringOf) == Some(b);
    assert !Rises(e, law);
  }

  /** The walk without the steps that stay in a unit. */
  function Compress(w: seq<string>): seq<string>
    requires w != []
  {
    if |w| == 1 then w
    else if w[0] == w[1] then Compress(w[1..])
    else [w[0]] + Compress(w[1..])
  }

  ghost predicate OneRing(law: Law, w: seq<string>, r: real) {
    forall u :: u in w ==> u in law.ringOf && law.ringOf[u] == r
  }

  lemma {:induction false} CompressIsPath(edges: seq<Dependency>, law: Law, g: Graph, w: seq<string>,
                                          r: real)
    requires IsIntra(edges, law, g) && UnitWalk(edges, law, w)
    requires OneRing(law, w, r) && r !in law.cohesive
    ensures var c := Compress(w);
      c != [] && c[0] == w[0] && c[|c| - 1] == w[|w| - 1] && IsPath(g, c)
    decreases |w|
  {
    if |w| > 1 {
      var rest := w[1..];
      TailWalk(edges, law, w);
      CompressIsPath(edges, law, g, rest, r);
      if w[0] != w[1] {
        assert Edge(g, w[0], w[1]);
        PathWithHead(g, w[0], Compress(rest));
      }
    }
  }

  lemma {:induction false} CompressedToOne(w: seq<string>)
    requires w != []
    ensures Compress(w) != [] && (|Compress(w)| == 1 ==> OneUnit(w))
    decreases |w|
  {
    if |w| > 1 {
      CompressedToOne(w[1..]);
      assert forall u :: u in w ==> u == w[0] || u in w[1..];
      assert w[1] in w[1..];
    }
  }

  lemma {:induction false} PathWithHead(g: Graph, a: string, p: seq<string>)
    requires p != [] && IsPath(g, p) && Edge(g, a, p[0])
    ensures IsPath(g, [a] + p)
  {
    var q := [a] + p;
    forall i | 0 <= i < |q| - 1 ensures Edge(g, q[i], q[i + 1]) {
      assert i > 0 ==> q[i] == p[i - 1] && q[i + 1] == p[i];
    }
  }

  lemma {:induction false} CompressedClosedWalk(edges: seq<Dependency>, law: Law, g: Graph, w: seq<string>, r: real)
    requires IsIntra(edges, law, g) && UnitWalk(edges, law, w)
    requires OneRing(law, w, r) && r !in law.cohesive
    requires w[0] == w[|w| - 1] && !OneUnit(w)
    ensures ClosedWalk(g, Compress(w))
  {
    CompressIsPath(edges, law, g, w, r);
    CompressedToOne(w);
  }

  lemma {:induction false} ClosedWalkIsCohesive(edges: seq<Dependency>, law: Law, g: Graph, w: seq<string>)
    requires NoRise(edges, law) && IsIntra(edges, law, g) && Acyclic(g)
    requires UnitWalk(edges, law, w) && w[0] == w[|w| - 1] && !OneUnit(w)
    ensures InOneCohesiveRing(law, w)
  {
    WalkNeverRises(edges, law, w);
    var r := law.ringOf[w[0]];
    forall i | 0 <= i < |w| ensures law.ringOf[w[i]] == r {
      assert law.ringOf[w[|w| - 1]] <= law.ringOf[w[i]] <= law.ringOf[w[0]];
    }
    if r !in law.cohesive {
      CompressedClosedWalk(edges, law, g, w, r);
    }
  }

  /** No rising edge and no cycle inside a ring: then the graph is layered, and only then. */
  lemma {:induction false} GateDecidesLayering(edges: seq<Dependency>, law: Law, g: Graph)
    requires IsIntra(edges, law, g)
    ensures NoRise(edges, law) && Acyclic(g) <==> Layered(edges, law)
  {
    if NoRise(edges, law) && Acyclic(g) {
      forall w | UnitWalk(edges, law, w) ensures NeverRises(law, w) {
        WalkNeverRises(edges, law, w);
      }
      forall w | UnitWalk(edges, law, w) && w[0] == w[|w| - 1] && !OneUnit(w)
        ensures InOneCohesiveRing(law, w)
      {
        ClosedWalkIsCohesive(edges, law, g, w);
      }
    }
    if Layered(edges, law) {
      forall e | e in edges ensures !Rises(e, law) {
        LayeredEdge(edges, law, e);
      }
      forall w: seq<string> ensures !ClosedWalk(g, w) {
        LayeredHasNoCycle(edges, law, g, w);
      }
    }
  }

  lemma {:induction false} LayeredEdge(edges: seq<Dependency>, law: Law, e: Dependency)
    requires Layered(edges, law) && e in edges
    ensures !Rises(e, law)
  {
    match (Unit(e.0, law.ringOf), Unit(e.1, law.ringOf))
    case (Some(a), Some(b)) =>
      var w := [a, b];
      assert UnitEdge(edges, law, w[0], w[0 + 1]);
      assert UnitWalk(edges, law, w);
      assert law.ringOf[w[1]] <= law.ringOf[w[0]];
    case _ =>
  }

  /** A cycle inside a ring is a closed walk of units, in a ring that is not cohesive. */
  lemma {:induction false} IntraCycleWalk(edges: seq<Dependency>, law: Law, g: Graph, w: seq<string>)
    requires IsIntra(edges, law, g) && ClosedWalk(g, w)
    ensures UnitWalk(edges, law, w) && !OneUnit(w) && law.ringOf[w[0]] !in law.cohesive
  {
    forall i | 0 <= i < |w| - 1 ensures IntraEdge(edges, law, w[i], w[i + 1]) {
      assert Edge(g, w[i], w[i + 1]);
    }
    forall i | 0 <= i < |w| ensures w[i] in law.ringOf {
      var k := if i < |w| - 1 then i else 0;
      assert IntraEdge(edges, law, w[k], w[k + 1]);
    }
    assert IntraEdge(edges, law, w[0], w[0 + 1]);
    assert w[0] in w && w[1] in w;
  }

  lemma {:induction false} LayeredHasNoCycle(edges: seq<Dependency>, law: Law, g: Graph, w: seq<string>)
    requires Layered(edges, law) && IsIntra(edges, law, g)
    ensures !ClosedWalk(g, w)
  {
    if ClosedWalk(g, w) {
      IntraCycleWalk(edges, law, g, w);
    }
  }

  /** The exceptions take nothing away from the graph of cycles: a rising edge joins two rings. */
  lemma {:induction false} BoundKeepsIntra(edges: seq<Dependency>, law: Law, g: Graph)
    requires IsIntra(edges, law, g)
    ensures IsIntra(Bound(edges, law), law, g)
  {
    BoundMembers(edges, law);
    forall a, b ensures IntraEdge(edges, law, a, b) <==> IntraEdge(Bound(edges, law), law, a, b) {
    }
  }

  lemma {:induction false} BoundMembers(edges: seq<Dependency>, law: Law)
    ensures forall e :: e in Bound(edges, law) <==> e in edges && !Excused(e, law)
  {
    if edges != [] {
      BoundMembers(edges[1..], law);
      assert edges == [edges[0]] + edges[1..];
    }
  }

  // ---------------------------------------------------------------- walks of modules

  /** A walk of dependencies through modules that all have a unit. */
  ghost predicate PlacedWalk(edges: seq<Dependency>, law: Law, p: seq<string>) {
    && p != [] && (forall i :: 0 <= i < |p| ==> Unit(p[i], law.ringOf).Some?)
    && forall i :: 0 <= i < |p| - 1 ==> (p[i], p[i + 1]) in edges
  }

  function Units(law: Law, p: seq<string>): (w: seq<string>)
    requires forall i :: 0 <= i < |p| ==> Unit(p[i], law.ringOf).Some?
    ensures |w| == |p|
    ensures forall i :: 0 <= i < |p| ==> Unit(p[i], law.ringOf) == Some(w[i])
  {
    if p == [] then [] else [Unit(p[0], law.ringOf).value] + Units(law, p[1..])
  }

  lemma {:induction false} UnitsWalk(edges: seq<Dependency>, law: Law, p: seq<string>)
    requires PlacedWalk(edges, law, p)
    ensures UnitWalk(edges, law, Units(law, p))
  {
    var w := Units(law, p);
    forall u | u in w ensures u in law.ringOf {
      var i :| 0 <= i < |w| && w[i] == u;
      assert Unit(p[i], law.ringOf) == Some(u);
    }
    forall i | 0 <= i < |w| - 1 ensures UnitEdge(edges, law, w[i], w[i + 1]) {
      var e := (p[i], p[i + 1]);
      assert e in edges;
      assert Unit(e.0, law.ringOf) == Some(w[i]) && Unit(e.1, law.ringOf) == Some(w[i + 1]);
    }
  }

  lemma {:induction false} UnitRing(law: Law, p: seq<string>, i: nat)
    requires forall k :: 0 <= k < |p| ==> Unit(p[k], law.ringOf).Some?
    requires i < |p|
    ensures var u := Units(law, p)[i];
      Unit(p[i], law.ringOf) == Some(u) && RingOf(p[i], law.ringOf) == Some(law.ringOf[u])
  {
    assert Unit(p[i], law.ringOf) == Some(Units(law, p)[i]);
  }

  lemma {:induction false} SameUnit(law: Law, p: seq<string>, i: nat, j: nat)
    requires forall k :: 0 <= k < |p| ==> Unit(p[k], law.ringOf).Some?
    requires i < |p| && j < |p| && p[i] == p[j]
    ensures |Units(law, p)| == |p| && Units(law, p)[i] == Units(law, p)[j]
  {
    UnitRing(law, p, i);
    UnitRing(law, p, j);
  }

  /** In a layered library the ring never rises along a walk of placed modules. */
  lemma {:induction false} PlacedWalkNeverRises(edges: seq<Dependency>, law: Law, p: seq<string>, i: nat, j: nat)
    requires Layered(edges, law) && PlacedWalk(edges, law, p) && i <= j < |p|
    ensures RingOf(p[j], law.ringOf).value <= RingOf(p[i], law.ringOf).value
  {
    UnitsWalk(edges, law, p);
    UnitRing(law, p, i);
    UnitRing(law, p, j);
    assert NeverRises(law, Units(law, p));
  }

  lemma {:induction false} CycleIsCohesive(edges: seq<Dependency>, law: Law, w: seq<string>, i: nat, j: nat)
    requires Layered(edges, law) && UnitWalk(edges, law, w) && w[0] == w[|w| - 1]
    requires i < |w| && j < |w| && w[i] != w[j]
    ensures law.ringOf[w[i]] == law.ringOf[w[j]] && law.ringOf[w[i]] in law.cohesive
  {
    assert w[i] in w && w[j] in w;
    assert InOneCohesiveRing(law, w);
  }

  lemma {:induction false} ClosedUnits(law: Law, p: seq<string>, i: nat, j: nat)
    requires forall k :: 0 <= k < |p| ==> Unit(p[k], law.ringOf).Some?
    requires i < |p| && j < |p| && p[0] == p[|p| - 1]
    requires Unit(p[i], law.ringOf) != Unit(p[j], law.ringOf)
    ensures var w := Units(law, p); |w| == |p| && w[0] == w[|w| - 1] && w[i] != w[j]
  {
    UnitRing(law, p, i);
    UnitRing(law, p, j);
    SameUnit(law, p, 0, |p| - 1);
  }

  /** A walk that comes back to its module through a second unit stays in one cohesive ring. */
  lemma {:induction false} PlacedCycleIsCohesive(edges: seq<Dependency>, law: Law, p: seq<string>, i: nat, j: nat)
    requires Layered(edges, law) && PlacedWalk(edges, law, p) && p[0] == p[|p| - 1]
    requires i < |p| && j < |p| && Unit(p[i], law.ringOf) != Unit(p[j], law.ringOf)
    ensures RingOf(p[i], law.ringOf) == RingOf(p[j], law.ringOf)
    ensures RingOf(p[i], law.ringOf).value in law.cohesive
  {
    ClosedUnits(law, p, i, j);
    UnitsWalk(edges, law, p);
    CycleIsCohesive(edges, law, Units(law, p), i, j);
    UnitRing(law, p, i);
    UnitRing(law, p, j);
  }

  // ---------------------------------------------------------------- the loops of main

  /** The first loop: rising edges are reported as violations, or as declared exceptions. */
  method RisingEdges(edges: seq<Dependency>, law: Law)
    returns (violations: seq<Dependency>, excused: seq<Dependency>)
    ensures forall e :: e in violations <==> e in edges && Rises(e, law) && e.0 + " -> " + e.1 !in law.exceptions
    ensures forall e :: e in excused <==> e in edges && Rises(e, law) && e.0 + " -> " + e.1 in law.exceptions
  {
    violations, excused := [], [];
    for i := 0 to |edges|
      invariant forall e :: e in violations <==> e in edges[..i] && Rises(e, law) && !Excused(e, law)
      invariant forall e :: e in excused <==> e in edges[..i] && Excused(e, law)
    {
      var e := edges[i];
      TakeOneMore(edges, i);
      var rs := RingFor(e.0, law.ringOf);
      var rd := RingFor(e.1, law.ringOf);
      if rs.Some? && rd.Some? && rd.value > rs.value {
        if Label(e) in law.exceptions {
          excused := excused + [e];
        } else {
          violations := violations + [e];
        }
      }
    }
  }

  /** The second loop: the dependencies between distinct units of one ring that is not
      declared cohesive. */
  method IntraRing(edges: seq<Dependency>, law: Law) returns (intra: Graph)
    ensures IsIntra(edges, law, intra)
  {
    intra := map[];
    for i := 0 to |edges|
      invariant IsIntra(edges[..i], law, intra)
    {
      var e := edges[i];
      TakeOneMore(edges, i);
      var us := PlacementOf(e.0, law.ringOf);
      var ud := PlacementOf(e.1, law.ringOf);
      var rs := RingFor(e.0, law.ringOf);
      var rd := RingFor(e.1, law.ringOf);
      ghost var before := intra;
      if us.Some? && ud.Some? && us != ud && rs == rd && rs.value !in law.cohesive {
        intra := intra[us.value := Successors(intra, us.value) + {ud.value}];
      }
      GrowIntra(edges[..i], e, law, before, intra);
    }
  }

  lemma {:induction false} GrowIntra(edges: seq<Dependency>, e: Dependency, law: Law, before: Graph, after: Graph)
    requires IsIntra(edges, law, before)
    requires forall a, b :: Edge(after, a, b) <==> Edge(before, a, b) || IntraEdge([e], law, a, b)
    ensures IsIntra(edges + [e], law, after)
  {
    forall a, b
      ensures IntraEdge(edges + [e], law, a, b) <==> IntraEdge(edges, law, a, b) || IntraEdge([e], law, a, b)
    {
      assert forall x :: x in edges + [e] <==> x in edges || x in [e];
    }
  }

  /** The gate on the graph of the library. It reports no violation and no cycle exactly when
      the dependencies, but for the declared exceptions, are layered; every cycle it reports is
      one, and every cycle of units inside a ring takes the last edge of a reported one. */
  method Gate(edges: seq<Dependency>, law: Law)
    returns (violations: seq<Dependency>, excused: seq<Dependency>, cycles: seq<seq<string>>,
             ghost intra: Graph)
    ensures violations == [] && cycles == [] <==> Layered(Bound(edges, law), law)
    ensures violations == [] && excused == [] && cycles == [] ==> Layered(edges, law)
    ensures law.exceptions == {} ==> (violations == [] && cycles == [] <==> Layered(edges, law))
    ensures forall e :: e in violations <==> e in edges && Rises(e, law) && e.0 + " -> " + e.1 !in law.exceptions
    ensures forall e :: e in excused <==> e in edges && Rises(e, law) && e.0 + " -> " + e.1 in law.exceptions
    ensures IsIntra(edges, law, intra) && AllSimple(intra, cycles)
    ensures forall w :: ClosedWalk(intra, w) ==> TakesReported(cycles, w)
  {
    violations, excused := RisingEdges(edges, law);
    var g := IntraRing(edges, law);
    intra := g;
    var finder := new CycleFinder(g);
    finder.FindCycles();
    cycles := finder.cycles;
    BoundKeepsIntra(edges, law, g);
    BoundMembers(edges, law);
    GateDecidesLayering(Bound(edges, law), law, g);
    GateDecidesLayering(edges, law, g);
    Verdict(edges, law, violations, excused);
    if law.exceptions == {} {
      NothingExcused(edges, law);
    }
  }

  /** What the law is about, in the words of the table: a rising edge is left out exactly when
      the table names it. */
  lemma {:induction false} BoundIff(edges: seq<Dependency>, law: Law, e: Dependency)
    ensures e in Bound(edges, law) <==>
            e in edges && !(Rises(e, law) && e.0 + " -> " + e.1 in law.exceptions)
  {
    BoundMembers(edges, law);
  }

  lemma {:induction false} NothingExcused(edges: seq<Dependency>, law: Law)
    requires law.exceptions == {}
    ensures Bound(edges, law) == edges
  {
    if edges != [] {
      NothingExcused(edges[1..], law);
      HeadTail(edges);
    }
  }

  /** An edge rises when both ends have a unit and the ring of the second is the higher one. */
  lemma {:induction false} RisesIff(e: Dependency, law: Law)
    ensures Rises(e, law) <==>
            var s, d := Unit(e.0, law.ringOf), Unit(e.1, law.ringOf);
            s.Some? && d.Some? && s.value in law.ringOf && d.value in law.ringOf
            && law.ringOf[s.value] < law.ringOf[d.value]
  {
  }

  lemma {:induction false} Verdict(edges: seq<Dependency>, law: Law, violations: seq<Dependency>,
                                   excused: seq<Dependency>)
    requires forall e :: e in violations <==> e in edges && Rises(e, law) && !Excused(e, law)
    requires forall e :: e in excused <==> e in edges && Excused(e, law)
    ensures violations == [] <==> NoRise(Bound(edges, law), law)
    ensures violations == [] && excused == [] ==> NoRise(edges, law)
  {
    BoundMembers(edges, law);
    if violations != [] {
      assert violations[0] in violations;
    }
  }
}
