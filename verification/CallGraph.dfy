/** The static call graph of the firmware image, as the allocation budget reads
    it: which functions are reachable, and in what order a depth-first walk
    finishes them. */
module CallGraph {

  datatype Fn = Fn(name: string)

  /** One entry of a caller's table: a callee and the number of call sites. */
  datatype Call = Call(callee: Fn, sites: nat)

  type Graph = map<Fn, seq<Call>>

  function Calls(g: Graph, f: Fn): seq<Call> {
    if f in g then g[f] else []
  }

  /** Every caller's table has one entry per callee. */
  ghost predicate WellFormed(g: Graph) {
    forall f :: f in g ==> forall i, j :: 0 <= i < j < |g[f]| ==> g[f][i].callee != g[f][j].callee
  }

  ghost predicate Edge(g: Graph, f: Fn, c: Fn) {
    exists i :: 0 <= i < |Calls(g, f)| && Calls(g, f)[i].callee == c
  }

  // ----- walks

  ghost predicate Walk(g: Graph, w: seq<Fn>) {
    forall i :: 0 <= i < |w| - 1 ==> Step(g, w, i)
  }

  ghost predicate Step(g: Graph, w: seq<Fn>, i: nat)
    requires i + 1 < |w|
  {
    Edge(g, w[i], w[i + 1])
  }

  /** `f` is reached from a root by some walk. */
  ghost predicate Reached(g: Graph, roots: seq<Fn>, f: Fn) {
    exists w: seq<Fn> :: |w| > 0 && w[0] in roots && w[|w| - 1] == f && Walk(g, w)
  }

  /** No walk from a function that is reached comes back to it. */
  ghost predicate Acyclic(g: Graph, roots: seq<Fn>) {
    forall w: seq<Fn> :: |w| > 1 && Walk(g, w) && Reached(g, roots, w[0]) ==> w[0] != w[|w| - 1]
  }

  lemma WalkOn(g: Graph, w: seq<Fn>, c: Fn)
    requires |w| > 0 && Walk(g, w) && Edge(g, w[|w| - 1], c)
    ensures Walk(g, w + [c])
  {
    var v := w + [c];
    forall i | 0 <= i < |v| - 1 ensures Step(g, v, i) {
      if i < |w| - 1 {
        assert Step(g, w, i);
      }
    }
  }

  lemma WalkPart(g: Graph, w: seq<Fn>, i: nat)
    requires i <= |w| && Walk(g, w)
    ensures Walk(g, w[i..]) && Walk(g, w[..i])
  {
    forall k | 0 <= k < |w[i..]| - 1 ensures Step(g, w[i..], k) {
      assert Step(g, w, i + k);
    }
    forall k | 0 <= k < |w[..i]| - 1 ensures Step(g, w[..i], k) {
      assert Step(g, w, k);
    }
  }

  lemma ReachedOn(g: Graph, roots: seq<Fn>, f: Fn, c: Fn)
    requires Reached(g, roots, f) && Edge(g, f, c)
    ensures Reached(g, roots, c)
  {
    var w: seq<Fn> :| |w| > 0 && w[0] in roots && w[|w| - 1] == f && Walk(g, w);
    WalkOn(g, w, c);
    var v := w + [c];
    assert |v| > 0 && v[0] in roots && v[|v| - 1] == c;
  }

  lemma RootReached(g: Graph, roots: seq<Fn>, f: Fn)
    requires f in roots
    ensures Reached(g, roots, f)
  {
    var w := [f];
    assert Walk(g, w) && w[0] in roots && w[|w| - 1] == f;
  }

  /** A set that holds the roots and all it calls holds everything reached. */
  lemma {:induction false} ClosedHoldsAll(g: Graph, s: set<Fn>, w: seq<Fn>)
    requires |w| > 0 && w[0] in s && Walk(g, w)
    requires forall f, c :: f in s && Edge(g, f, c) ==> c in s
    ensures w[|w| - 1] in s
    decreases |w|
  {
    if |w| > 1 {
      var n := |w| - 1;
      WalkPart(g, w, n);
      ClosedHoldsAll(g, s, w[..n]);
      assert Step(g, w, n - 1);
    }
  }

  // ----- reachability

  /** Every name the walk can meet. */
  function Names(g: Graph, roots: seq<Fn>): set<Fn> {
    (set f | f in roots) + (set f, i | f in g && 0 <= i < |g[f]| :: g[f][i].callee)
  }

  function Callees(cs: seq<Call>): (s: seq<Fn>)
    ensures |s| == |cs| && forall i :: 0 <= i < |cs| ==> s[i] == cs[i].callee
  {
    seq(|cs|, i requires 0 <= i < |cs| => cs[i].callee)
  }

  lemma CalleesAreEdges(g: Graph, roots: seq<Fn>, f: Fn, c: Fn)
    ensures c in Callees(Calls(g, f)) <==> Edge(g, f, c)
    ensures Edge(g, f, c) ==> c in Names(g, roots)
  {}

  /** What the walk keeps: all it holds is reached, and whatever a seen function
      calls is seen or waiting. */
  ghost predicate Explored(g: Graph, roots: seq<Fn>, seen: set<Fn>, stack: seq<Fn>) {
    && (forall f :: f in seen || f in stack ==> Reached(g, roots, f) && f in Names(g, roots))
    && (forall f :: f in roots ==> f in seen || f in stack)
    && (forall f, c :: f in seen && Edge(g, f, c) ==> c in seen || c in stack)
  }

  lemma ExploreFirst(g: Graph, roots: seq<Fn>)
    ensures Explored(g, roots, {}, roots)
  {
    forall f | f in roots ensures Reached(g, roots, f) {
      RootReached(g, roots, f);
    }
  }

  lemma ExploreSkip(g: Graph, roots: seq<Fn>, seen: set<Fn>, stack: seq<Fn>)
    requires Explored(g, roots, seen, stack) && |stack| > 0 && stack[|stack| - 1] in seen
    ensures Explored(g, roots, seen, stack[..|stack| - 1])
  {}

  lemma ExploreNew(g: Graph, roots: seq<Fn>, seen: set<Fn>, stack: seq<Fn>)
    requires Explored(g, roots, seen, stack) && |stack| > 0
    ensures var n := |stack| - 1; var f := stack[n];
      f in Names(g, roots) && Explored(g, roots, seen + {f}, stack[..n] + Callees(Calls(g, f)))
  {
    var n := |stack| - 1;
    var f, more := stack[n], Callees(Calls(g, stack[n]));
    assert forall x :: x in stack <==> x in stack[..n] || x == f;
    forall c ensures c in more <==> Edge(g, f, c) {
      CalleesAreEdges(g, roots, f, c);
    }
    forall c | c in more ensures Reached(g, roots, c) && c in Names(g, roots) {
      ReachedOn(g, roots, f, c);
      CalleesAreEdges(g, roots, f, c);
    }
    hide Reached, Edge, Names, Callees;
  }

  lemma ExploredAll(g: Graph, roots: seq<Fn>, seen: set<Fn>)
    requires Explored(g, roots, seen, [])
    ensures forall f :: f in seen <==> Reached(g, roots, f)
  {
    forall f | Reached(g, roots, f) ensures f in seen {
      var w: seq<Fn> :| |w| > 0 && w[0] in roots && w[|w| - 1] == f && Walk(g, w);
      ClosedHoldsAll(g, seen, w);
    }
  }

  /** Exactly the functions some walk from a root reaches. */
  method Reachable(g: Graph, roots: seq<Fn>) returns (seen: set<Fn>)
    ensures forall f :: f in seen <==> Reached(g, roots, f)
  {
    hide Explored, Reached;
    seen := {};
    var stack := roots;
    ExploreFirst(g, roots);
    ghost var names := Names(g, roots);
    hide Names;
    while |stack| > 0
      invariant Explored(g, roots, seen, stack) && seen <= names
      decreases |names - seen|, |stack|
    {
      var f := stack[|stack| - 1];
      if f in seen {
        ExploreSkip(g, roots, seen, stack);
        stack := stack[..|stack| - 1];
      } else {
        ExploreNew(g, roots, seen, stack);
        Smaller(names, seen, f);
        seen := seen + {f};
        stack := stack[..|stack| - 1] + Callees(Calls(g, f));
      }
    }
    assert stack == [];
    ExploredAll(g, roots, seen);
  }

  lemma Smaller(names: set<Fn>, seen: set<Fn>, f: Fn)
    requires f in names && f !in seen
    ensures |names - (seen + {f})| < |names - seen|
  {
    assert names - seen == (names - (seen + {f})) + {f};
  }
}
