/** The cycle finder of the ring gate: a depth-first walk that reports every edge back into
    its own stack. */
module Cycles {
  import opened Sequences
  import opened Sorting

  /** The successors of each unit that has any. */
  type Graph = map<string, set<string>>

  function Successors(g: Graph, n: string): set<string> { if n in g then g[n] else {} }

  predicate Edge(g: Graph, a: string, b: string) { b in Successors(g, a) }

  function Nodes(g: Graph): set<string> { g.Keys + set a, b | a in g && b in g[a] :: b }

  ghost predicate IsPath(g: Graph, p: seq<string>) {
    forall i :: 0 <= i < |p| - 1 ==> Edge(g, p[i], p[i + 1])
  }

  predicate NoRepeat(p: seq<string>) { forall i, j :: 0 <= i < j < |p| ==> p[i] != p[j] }

  /** A closed walk: at least one edge, back to where it started. */
  ghost predicate ClosedWalk(g: Graph, w: seq<string>) {
    |w| >= 2 && IsPath(g, w) && w[0] == w[|w| - 1]
  }

  /** A closed walk that repeats no node but the first. */
  ghost predicate SimpleCycle(g: Graph, c: seq<string>) {
    ClosedWalk(g, c) && NoRepeat(c[..|c| - 1])
  }

  ghost predicate Acyclic(g: Graph) { forall w: seq<string> :: !ClosedWalk(g, w) }

  /** Some reported cycle is closed by this edge. */
  ghost predicate Reported(cycles: seq<seq<string>>, a: string, b: string) {
    exists c :: c in cycles && |c| >= 2 && c[|c| - 2] == a && c[|c| - 1] == b
  }

  /** Every successor comes before the node, but for the edges that were reported: a reversed
      topological order of the rest of the graph. */
  ghost predicate Ordered(g: Graph, cycles: seq<seq<string>>, done: seq<string>) {
    forall k, v :: 0 <= k < |done| && Edge(g, done[k], v) ==> Settled(cycles, done, k, v)
  }

  ghost predicate Settled(cycles: seq<seq<string>>, done: seq<string>, k: nat, v: string)
    requires k < |done|
  {
    v in done[..k] || Reported(cycles, done[k], v)
  }

  function IndexOf(s: seq<string>, x: string): (i: nat)
    requires x in s
    ensures i < |s| && s[i] == x && x !in s[..i]
  {
    if s[0] == x then 0 else 1 + IndexOf(s[1..], x)
  }

  /** The stack from an earlier node on, closed by the edge back to that node. */
  lemma {:induction false} BackEdgeClosesCycle(g: Graph, stack: seq<string>, next: string)
    requires next in stack && IsPath(g, stack) && NoRepeat(stack)
    requires Edge(g, stack[|stack| - 1], next)
    ensures SimpleCycle(g, stack[IndexOf(stack, next)..] + [next])
  {
    var i := IndexOf(stack, next);
    var c := stack[i..] + [next];
    assert c[..|c| - 1] == stack[i..];
    forall k | 0 <= k < |c| - 1 ensures Edge(g, c[k], c[k + 1]) {
      assert c[k] == stack[i + k];
      assert k < |c| - 2 ==> c[k + 1] == stack[i + k + 1];
    }
  }

  /** What the walk keeps true of its four variables and of the nodes it has finished with. */
  ghost predicate Good(g: Graph, stack: seq<string>, onStack: set<string>, seen: set<string>,
                       cycles: seq<seq<string>>, done: seq<string>) {
    && OnPath(g, stack, onStack)
    && Visited(stack, seen, done) && seen <= Nodes(g)
    && AllSimple(g, cycles)
    && Ordered(g, cycles, done)
  }

  ghost predicate OnPath(g: Graph, stack: seq<string>, onStack: set<string>) {
    IsPath(g, stack) && NoRepeat(stack) && forall x :: x in onStack <==> x in stack
  }

  ghost predicate Visited(stack: seq<string>, seen: set<string>, done: seq<string>) {
    && (forall x :: x in seen <==> x in stack || x in done)
    && (forall x :: x in stack ==> x !in done)
  }

  ghost predicate AllSimple(g: Graph, cycles: seq<seq<string>>) {
    forall c :: c in cycles ==> SimpleCycle(g, c)
  }

  lemma {:induction false} PushOnPath(g: Graph, stack: seq<string>, onStack: set<string>, node: string)
    requires OnPath(g, stack, onStack) && node !in stack
    requires stack != [] ==> Edge(g, stack[|stack| - 1], node)
    ensures OnPath(g, stack + [node], onStack + {node})
  {
  }

  lemma {:induction false} PopOnPath(g: Graph, stack: seq<string>, onStack: set<string>, node: string)
    requires OnPath(g, stack + [node], onStack)
    ensures OnPath(g, stack, onStack - {node})
  {
    var all := stack + [node];
    assert forall i :: 0 <= i < |stack| ==> stack[i] == all[i];
    assert all[|stack|] == node;
  }

  lemma {:induction false} PopVisited(stack: seq<string>, seen: set<string>, done: seq<string>, node: string)
    requires Visited(stack + [node], seen, done) && NoRepeat(stack + [node])
    ensures Visited(stack, seen, done + [node])
  {
    var all := stack + [node];
    assert forall i :: 0 <= i < |stack| ==> stack[i] == all[i];
    assert all[|stack|] == node;
    forall x ensures x in all <==> x in stack || x == node {
    }
  }

  lemma {:induction false} ReportedStays(cycles: seq<seq<string>>, more: seq<seq<string>>, a: string, b: string)
    requires cycles <= more && Reported(cycles, a, b)
    ensures Reported(more, a, b)
  {
    var c :| c in cycles && |c| >= 2 && c[|c| - 2] == a && c[|c| - 1] == b;
    assert c in more;
  }

  lemma {:induction false} OrderedStays(g: Graph, cycles: seq<seq<string>>, more: seq<seq<string>>, done: seq<string>)
    requires Ordered(g, cycles, done) && cycles <= more
    ensures Ordered(g, more, done)
  {
    forall k, v | 0 <= k < |done| && Edge(g, done[k], v) ensures Settled(more, done, k, v) {
      assert Settled(cycles, done, k, v);
      if v !in done[..k] {
        ReportedStays(cycles, more, done[k], v);
      }
    }
  }

  /** What the walk knows of a successor it has looked at. */
  ghost predicate Looked(cycles: seq<seq<string>>, done: seq<string>, node: string, v: string) {
    v in done || Reported(cycles, node, v)
  }

  lemma {:induction false} LookedStays(cycles: seq<seq<string>>, more: seq<seq<string>>, done: seq<string>,
                    done': seq<string>, node: string, v: string)
    requires Looked(cycles, done, node, v) && cycles <= more && done <= done'
    ensures Looked(more, done', node, v)
  {
    if v !in done {
      ReportedStays(cycles, more, node, v);
    }
  }

  ghost predicate AllLooked(cycles: seq<seq<string>>, done: seq<string>, node: string, vs: seq<string>) {
    forall v :: v in vs ==> Looked(cycles, done, node, v)
  }

  lemma {:induction false} AllLookedStay(cycles: seq<seq<string>>, more: seq<seq<string>>, done: seq<string>,
                      done': seq<string>, node: string, vs: seq<string>)
    requires AllLooked(cycles, done, node, vs) && cycles <= more && done <= done'
    ensures AllLooked(more, done', node, vs)
  {
    forall v | v in vs ensures Looked(more, done', node, v) {
      LookedStays(cycles, more, done, done', node, v);
    }
  }

  /** A node may be added to the finished ones once all its successors have been looked at. */
  lemma {:induction false} FinishOrdered(g: Graph, cycles: seq<seq<string>>, done: seq<string>, node: string)
    requires Ordered(g, cycles, done)
    requires forall v :: v in Successors(g, node) ==> Looked(cycles, done, node, v)
    ensures Ordered(g, cycles, done + [node])
  {
    var all := done + [node];
    forall k, v | 0 <= k < |all| && Edge(g, all[k], v) ensures Settled(cycles, all, k, v) {
      assert all[..k] == done[..k];
      assert k < |done| ==> Settled(cycles, done, k, v);
      assert k == |done| ==> done[..k] == done;
    }
  }

  lemma {:induction false} Push(g: Graph, stack: seq<string>, onStack: set<string>, seen: set<string>,
             cycles: seq<seq<string>>, done: seq<string>, node: string)
    requires Good(g, stack, onStack, seen, cycles, done) && node in Nodes(g) && node !in seen
    requires stack != [] ==> Edge(g, stack[|stack| - 1], node)
    ensures Good(g, stack + [node], onStack + {node}, seen + {node}, cycles, done)
    ensures onStack == onStack + {node} - {node}
  {
    PushOnPath(g, stack, onStack, node);
    assert forall x :: x in stack + [node] <==> x in stack || x == node;
  }

  lemma {:induction false} Finish(g: Graph, stack: seq<string>, onStack: set<string>, seen: set<string>,
               cycles: seq<seq<string>>, done: seq<string>, node: string)
    requires Good(g, stack + [node], onStack, seen, cycles, done)
    requires forall v :: v in Successors(g, node) ==> Looked(cycles, done, node, v)
    ensures Good(g, stack, onStack - {node}, seen, cycles, done + [node])
  {
    PopOnPath(g, stack, onStack, node);
    PopVisited(stack, seen, done, node);
    FinishOrdered(g, cycles, done, node);
  }

  class CycleFinder {
    const intra: Graph
    var seen: set<string>
    var stack: seq<string>
    var onStack: set<string>
    var cycles: seq<seq<string>>
    /** The nodes whose walk has returned, in that order. */
    ghost var done: seq<string>

    ghost predicate Valid()
      reads this
    {
      Good(intra, stack, onStack, seen, cycles, done)
    }

    constructor (g: Graph)
      ensures Valid() && intra == g && seen == {} && stack == [] && cycles == [] && done == []
    {
      intra := g;
      seen, stack, onStack, cycles, done := {}, [], {}, [], [];
    }

    /** The walk from one new node: it comes back with the stack as it was, the node and all
        that it reached done, and every reported list a simple cycle. */
    method Walk(node: string)
      requires Valid() && node in Nodes(intra) && node !in seen
      requires stack != [] ==> Edge(intra, stack[|stack| - 1], node)
      modifies this
      ensures Valid() && stack == old(stack) && onStack == old(onStack)
      ensures old(seen) <= seen && node in done
      ensures old(done) <= done && old(cycles) <= cycles
      decreases Nodes(intra) - seen, 0
    {
      ghost var stack0 := stack;
      Push(intra, stack, onStack, seen, cycles, done, node);
      seen := seen + {node};
      stack := stack + [node];
      onStack := onStack + {node};
      var nexts := SortedStrings(Successors(intra, node));
      for i := 0 to |nexts|
        invariant Valid() && stack == stack0 + [node] && onStack == old(onStack) + {node}
        invariant old(seen) + {node} <= seen && old(done) <= done && old(cycles) <= cycles
        invariant AllLooked(cycles, done, node, nexts[..i])
      {
        ghost var before, doneBefore := cycles, done;
        Visit(node, nexts[i]);
        AllLookedStay(before, cycles, doneBefore, done, node, nexts[..i]);
        TakeOneMore(nexts, i);
      }
      assert forall v :: v in Successors(intra, node) ==> v in nexts[..|nexts|];
      Leave(stack0, node);
    }

    /** The end of a walk: the node is popped, and is done. */
    method Leave(ghost below: seq<string>, node: string)
      requires Valid() && stack == below + [node]
      requires forall v :: v in Successors(intra, node) ==> Looked(cycles, done, node, v)
      modifies this
      ensures Valid() && stack == below && onStack == old(onStack) - {node}
      ensures seen == old(seen) && cycles == old(cycles) && done == old(done) + [node]
    {
      Finish(intra, below, onStack, seen, cycles, done, node);
      assert stack[..|stack| - 1] == below;
      stack := stack[..|stack| - 1];
      onStack := onStack - {node};
      done := done + [node];
    }

    /** One turn of the walk's loop: a back edge is reported, a new node is walked. */
    method Visit(node: string, next: string)
      requires Valid() && stack != [] && stack[|stack| - 1] == node && Edge(intra, node, next)
      modifies this
      ensures Valid() && stack == old(stack) && onStack == old(onStack)
      ensures old(seen) <= seen && old(done) <= done && old(cycles) <= cycles
      ensures Looked(cycles, done, node, next)
      decreases Nodes(intra) - seen, 1
    {
      if next in onStack {
        BackEdgeClosesCycle(intra, stack, next);
        var cycle := stack[IndexOf(stack, next)..] + [next];
        OrderedStays(intra, cycles, cycles + [cycle], done);
        cycles := cycles + [cycle];
        assert cycle in cycles;
      } else if next !in seen {
        Walk(next);
      }
    }

    /** The loop over all nodes: the reports are simple cycles, every closed walk of the graph
        takes the closing edge of one of them, and so there is none exactly when the graph has
        no closed walk at all. */
    method FindCycles()
      requires Valid() && seen == {} && stack == [] && cycles == [] && done == []
      modifies this
      ensures AllSimple(intra, cycles)
      ensures forall w :: ClosedWalk(intra, w) ==> TakesReported(cycles, w)
      ensures cycles == [] <==> Acyclic(intra)
    {
      var nodes := SortedStrings(intra.Keys);
      for i := 0 to |nodes|
        invariant Valid() && stack == []
        invariant forall j :: 0 <= j < i ==> nodes[j] in done
      {
        if nodes[i] !in seen {
          Walk(nodes[i]);
        }
      }
      OrderedCovers(intra, cycles, done);
      if cycles != [] {
        assert cycles[0] in cycles;
        assert ClosedWalk(intra, cycles[0]);
      }
    }
  }

  ghost predicate TakesReported(cycles: seq<seq<string>>, w: seq<string>) {
    exists i :: 0 <= i < |w| - 1 && Reported(cycles, w[i], w[i + 1])
  }

  lemma {:induction false} PathDescends(g: Graph, cycles: seq<seq<string>>, done: seq<string>,
                                        w: seq<string>)
    requires Ordered(g, cycles, done) && IsPath(g, w) && |w| >= 1 && w[0] in done
    requires !TakesReported(cycles, w)
    ensures w[|w| - 1] in done
    ensures |w| >= 2 ==> IndexOf(done, w[|w| - 1]) < IndexOf(done, w[0])
    decreases |w|
  {
    if |w| >= 2 {
      var k := IndexOf(done, w[0]);
      assert Edge(g, w[0], w[1]);
      assert Settled(cycles, done, k, w[1]);
      FirstIsEarly(done, k, w[1]);
      forall i | 0 <= i < |w| - 2 ensures !Reported(cycles, w[1..][i], w[1..][i + 1]) {
        assert !Reported(cycles, w[i + 1], w[i + 2]);
      }
      PathDescends(g, cycles, done, w[1..]);
    }
  }

  lemma {:induction false} FirstIsEarly(s: seq<string>, k: nat, x: string)
    requires k <= |s| && x in s[..k]
    ensures x in s && IndexOf(s, x) < k
    decreases |s|
  {
    if s[0] != x {
      assert s[..k][1..] == s[1..][..k - 1];
      FirstIsEarly(s[1..], k - 1, x);
    }
  }

  lemma {:induction false} OrderedCovers(g: Graph, cycles: seq<seq<string>>, done: seq<string>)
    requires Ordered(g, cycles, done) && forall n :: n in g ==> n in done
    ensures forall w :: ClosedWalk(g, w) ==> TakesReported(cycles, w)
  {
    forall w | ClosedWalk(g, w) ensures TakesReported(cycles, w) {
      assert Edge(g, w[0], w[1]);
      if !TakesReported(cycles, w) {
        PathDescends(g, cycles, done, w);
      }
    }
  }
}
