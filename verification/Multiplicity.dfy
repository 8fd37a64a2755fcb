/** How often each function can be entered, counting static call sites. */
module Multiplicity {
  import opened CallGraph
  import opened CallPaths

  // ----- the depth-first order

  ghost predicate Once(s: seq<Fn>) {
    forall i, j :: 0 <= i < j < |s| ==> s[i] != s[j]
  }

  /** Everything a listed function calls is listed before it. */
  ghost predicate CalleesFirst(g: Graph, order: seq<Fn>) {
    forall i, c :: 0 <= i < |order| && Edge(g, order[i], c) ==> c in order[..i]
  }

  /** A function is a root or is called by one that was seen. */
  ghost predicate Sourced(g: Graph, roots: seq<Fn>, seen: set<Fn>, x: Fn) {
    x in roots || exists c :: c in seen && Edge(g, c, x)
  }

  ghost predicate Grounded(g: Graph, roots: seq<Fn>, seen: set<Fn>) {
    forall x :: x in seen ==> Reached(g, roots, x) && x in Names(g, roots) && Sourced(g, roots, seen, x)
  }

  /** The state of the walk: the functions seen are those finished and those
      still open, and the open ones form a walk. */
  ghost predicate Walking(g: Graph, roots: seq<Fn>, seen: set<Fn>, order: seq<Fn>, open: seq<Fn>) {
    && (forall x :: x in seen <==> x in order || x in open)
    && Once(order) && (forall x :: x in open ==> x !in order)
    && Walk(g, open)
    && Grounded(g, roots, seen)
    && (forall x, c :: x in order && Edge(g, x, c) ==> c in seen)
    && (Acyclic(g, roots) ==> CalleesFirst(g, order))
  }

  /** `f` may be visited next: it is a root, or the innermost open function calls it. */
  ghost predicate Wanted(g: Graph, roots: seq<Fn>, open: seq<Fn>, f: Fn) {
    if |open| == 0 then f in roots else Edge(g, open[|open| - 1], f)
  }

  lemma OpenAgainIsCycle(g: Graph, roots: seq<Fn>, open: seq<Fn>, f: Fn)
    requires Walk(g, open) && |open| > 0 && Edge(g, open[|open| - 1], f) && f in open && Reached(g, roots, f)
    ensures !Acyclic(g, roots)
  {
    var i :| 0 <= i < |open| && open[i] == f;
    WalkPart(g, open, i);
    var w := open[i..];
    WalkOn(g, w, f);
    assert |w + [f]| > 1 && (w + [f])[0] == f == (w + [f])[|w|];
  }

  lemma WantedReached(g: Graph, roots: seq<Fn>, seen: set<Fn>, order: seq<Fn>, open: seq<Fn>, f: Fn)
    requires Walking(g, roots, seen, order, open) && Wanted(g, roots, open, f)
    ensures Reached(g, roots, f) && f in Names(g, roots) && Sourced(g, roots, seen, f)
  {
    if |open| == 0 {
      RootReached(g, roots, f);
    } else {
      var l := open[|open| - 1];
      assert l in seen;
      ReachedOn(g, roots, l, f);
      CalleesAreEdges(g, roots, l, f);
    }
  }

  lemma SourcedMore(g: Graph, roots: seq<Fn>, seen: set<Fn>, more: set<Fn>, x: Fn)
    requires seen <= more && Sourced(g, roots, seen, x)
    ensures Sourced(g, roots, more, x)
  {}

  lemma GroundedMore(g: Graph, roots: seq<Fn>, seen: set<Fn>, f: Fn)
    requires Grounded(g, roots, seen) && Reached(g, roots, f) && f in Names(g, roots) && Sourced(g, roots, seen, f)
    ensures Grounded(g, roots, seen + {f})
  {
    hide Reached, Names, Sourced;
    forall x | x in seen + {f} ensures Sourced(g, roots, seen + {f}, x) {
      SourcedMore(g, roots, seen, seen + {f}, x);
    }
  }

  /** Opening a new function. */
  lemma Opens(g: Graph, roots: seq<Fn>, seen: set<Fn>, order: seq<Fn>, open: seq<Fn>, f: Fn)
    requires Walking(g, roots, seen, order, open) && Wanted(g, roots, open, f) && f !in seen
    ensures Walking(g, roots, seen + {f}, order, open + [f]) && f in Names(g, roots)
  {
    WantedReached(g, roots, seen, order, open, f);
    WantedWalk(g, roots, open, f);
    GroundedMore(g, roots, seen, f);
    hide Grounded, Reached, Names, Sourced, Edge, Acyclic, CalleesFirst, Walk, Wanted, Once;
    assert forall x :: x in open + [f] <==> x in open || x == f;
  }

  lemma WantedWalk(g: Graph, roots: seq<Fn>, open: seq<Fn>, f: Fn)
    requires Walk(g, open) && Wanted(g, roots, open, f)
    ensures Walk(g, open + [f])
  {
    if |open| > 0 {
      WalkOn(g, open, f);
    } else {
      assert open + [f] == [f];
    }
  }

  /** Closing a function once all it calls have been visited. */
  lemma Closes(g: Graph, roots: seq<Fn>, seen: set<Fn>, order: seq<Fn>, open: seq<Fn>, f: Fn)
    requires Walking(g, roots, seen, order, open + [f]) && f !in open
    requires forall c :: Edge(g, f, c) ==> c in seen && (Acyclic(g, roots) ==> c in order)
    ensures Walking(g, roots, seen, order + [f], open)
  {
    var o := order + [f];
    assert (open + [f])[..|open|] == open;
    WalkPart(g, open + [f], |open|);
    assert f in open + [f] && forall x :: x in open + [f] <==> x in open || x == f;
    assert forall x :: x in o <==> x in order || x == f;
    hide Reached, Names, Sourced, Edge, Acyclic, Walk, CalleesFirst;
    if Acyclic(g, roots) {
      CalleesFirstOn(g, order, f);
    }
  }

  lemma CalleesFirstOn(g: Graph, order: seq<Fn>, f: Fn)
    requires CalleesFirst(g, order) && forall c :: Edge(g, f, c) ==> c in order
    ensures CalleesFirst(g, order + [f])
  {
    hide Edge;
    var o := order + [f];
    forall i, c | 0 <= i < |o| && Edge(g, o[i], c) ensures c in o[..i] {
      assert o[..i] == if i < |order| then order[..i] else order;
    }
  }

  /** What the two early exits of a visit mean. */
  lemma VisitFacts(g: Graph, roots: seq<Fn>, seen: set<Fn>, order: seq<Fn>, open: seq<Fn>, f: Fn)
    requires Walking(g, roots, seen, order, open) && Wanted(g, roots, open, f)
    ensures f in open ==> f in seen && !Acyclic(g, roots)
    ensures f in seen && f !in open ==> f in order
  {
    if f in open {
      OpenAgainIsCycle(g, roots, open, f);
    }
  }

  lemma Shrunk(names: set<Fn>, before: set<Fn>, f: Fn, seen: set<Fn>)
    requires f in names && f !in before && before + {f} <= seen
    ensures |names - seen| < |names - before|
  {
    Smaller(names, before, f);
    Subset(names - seen, names - (before + {f}));
  }

  lemma {:induction false} Subset(a: set<Fn>, b: set<Fn>)
    requires a <= b
    ensures |a| <= |b|
  {
    if a != {} {
      var x :| x in a;
      Subset(a - {x}, b - {x});
    }
  }

  lemma CalleeWanted(g: Graph, roots: seq<Fn>, open: seq<Fn>, f: Fn, i: nat)
    requires i < |Calls(g, f)|
    ensures Wanted(g, roots, open + [f], Calls(g, f)[i].callee)
  {}

  /** All that `f` calls is done, where done means seen, and listed if possible. */
  ghost predicate Done(seen: set<Fn>, order: seq<Fn>, acyclic: bool, c: Fn) {
    c in seen && (acyclic ==> c in order)
  }

  lemma AllDone(g: Graph, roots: seq<Fn>, f: Fn, seen: set<Fn>, order: seq<Fn>)
    requires forall j :: 0 <= j < |Calls(g, f)| ==> Done(seen, order, Acyclic(g, roots), Calls(g, f)[j].callee)
    ensures forall c :: Edge(g, f, c) ==> c in seen && (Acyclic(g, roots) ==> c in order)
  {}

  class Walker {
    const g: Graph
    ghost const roots: seq<Fn>
    var seen: set<Fn>
    var order: seq<Fn>

    constructor (g: Graph, ghost roots: seq<Fn>)
      ensures this.g == g && this.roots == roots && seen == {} && order == []
    {
      this.g, this.roots, seen, order := g, roots, {}, [];
    }

    ghost predicate Inv(open: seq<Fn>)
      reads this
    {
      Walking(g, roots, seen, order, open)
    }

    /** Visits `f`, reached through the open functions `path`, and everything it
        calls that has not been seen; lists each after what it calls. */
    method Visit(f: Fn, path: set<Fn>, ghost open: seq<Fn>)
      requires Inv(open) && Wanted(g, roots, open, f) && (forall x :: x in path <==> x in open)
      modifies this
      ensures Inv(open) && f in seen && old(seen) <= seen && (Acyclic(g, roots) ==> f in order)
      ensures forall x :: x in old(order) ==> x in order
      decreases |Names(g, roots) - seen|
    {
      hide Walking, Names, Edge, Acyclic, Wanted;
      VisitFacts(g, roots, seen, order, open, f);
      if f in path {
        return;
      }
      if f in seen {
        return;
      }
      Opens(g, roots, seen, order, open, f);
      Smaller(Names(g, roots), seen, f);
      seen := seen + {f};
      var calls := Calls(g, f);
      ghost var inner := open + [f];
      for i := 0 to |calls|
        invariant Inv(inner) && old(seen) + {f} <= seen && forall x :: x in old(order) ==> x in order
        invariant forall j :: 0 <= j < i ==> Done(seen, order, Acyclic(g, roots), calls[j].callee)
      {
        Shrunk(Names(g, roots), old(seen), f, seen);
        CalleeWanted(g, roots, open, f, i);
        Visit(calls[i].callee, path + {f}, inner);
      }
      AllDone(g, roots, f, seen, order);
      Closes(g, roots, seen, order, open, f);
      order := order + [f];
    }
  }

  // ----- counting

  /** The counts are the sizes of the path sets. */
  ghost predicate Tallied(mult: map<Fn, nat>, s: PathSets) {
    mult.Keys == s.Keys && forall x :: x in mult ==> mult[x] == |s[x]|
  }

  /** There is an entry for the roots and for whatever was called. */
  ghost predicate Present(g: Graph, roots: seq<Fn>, keys: set<Fn>, done: set<Fn>, f: Fn, j: nat) {
    && (forall r :: r in roots ==> r in keys)
    && (forall c, x :: c in done && Edge(g, c, x) ==> x in keys)
    && (forall i :: 0 <= i < j && i < |Calls(g, f)| ==> Calls(g, f)[i].callee in keys)
    && (forall x :: x in keys ==> Reached(g, roots, x))
  }

  /** All callers in `done` are counted, and of `f` the first `j` calls. */
  ghost predicate Counted(g: Graph, roots: seq<Fn>, mult: map<Fn, nat>, s: PathSets, done: set<Fn>, f: Fn, j: nat) {
    && j <= |Calls(g, f)| && Tallied(mult, s)
    && Exact(g, roots, s, done, f, Calls(g, f)[..j]) && Present(g, roots, s.Keys, done, f, j)
  }

  function Lookup(mult: map<Fn, nat>, f: Fn, default: nat): nat {
    if f in mult then mult[f] else default
  }

  /** The counts after one call of `f`. */
  function Bumped(mult: map<Fn, nat>, f: Fn, call: Call): map<Fn, nat> {
    mult[call.callee := Lookup(mult, call.callee, 0) + call.sites * Lookup(mult, f, 1)]
  }

  lemma PresentNext(g: Graph, roots: seq<Fn>, keys: set<Fn>, done: set<Fn>, f: Fn, j: nat)
    requires j < |Calls(g, f)| && Present(g, roots, keys, done, f, j) && Reached(g, roots, f)
    ensures Present(g, roots, keys + {Calls(g, f)[j].callee}, done, f, j + 1)
  {
    hide Reached, Edge, Calls;
    CalleeLive(g, roots, f, j);
  }

  lemma TallyCall(mult: map<Fn, nat>, s: PathSets, f: Fn, call: Call)
    requires Tallied(mult, s) && f in mult
    requires |Get(AddCall(s, f, call), call.callee)| == |Get(s, call.callee)| + call.sites * |Get(s, f)|
    ensures Tallied(Bumped(mult, f, call), AddCall(s, f, call))
  {}

  /** One call taken: the counts follow the path sets. */
  lemma CountCall(g: Graph, roots: seq<Fn>, mult: map<Fn, nat>, s: PathSets, done: set<Fn>, f: Fn, j: nat)
    requires Ready(g, roots, s, done, f, j) && Reached(g, roots, f) && f in mult
    requires Counted(g, roots, mult, s, done, f, j)
    ensures var call := Calls(g, f)[j];
      && Counted(g, roots, Bumped(mult, f, call), AddCall(s, f, call), done, f, j + 1)
      && Complete(g, roots, AddCall(s, f, call), f) && f in Bumped(mult, f, call)
  {
    hide Ready, Exact, Complete, Tallied, Present, Reached, AddCall, Bumped, Get;
    ReadyCall(g, roots, s, done, f, j);
    var call := Calls(g, f)[j];
    CallTaken(g, roots, s, done, f, j);
    TallyCall(mult, s, f, call);
    PresentNext(g, roots, s.Keys, done, f, j);
    CallKeys(mult, s, f, call);
  }

  lemma ReadyCall(g: Graph, roots: seq<Fn>, s: PathSets, done: set<Fn>, f: Fn, j: nat)
    requires Ready(g, roots, s, done, f, j)
    ensures j < |Calls(g, f)|
  {}

  lemma CallKeys(mult: map<Fn, nat>, s: PathSets, f: Fn, call: Call)
    ensures AddCall(s, f, call).Keys == s.Keys + {call.callee}
    ensures f in mult ==> f in Bumped(mult, f, call)
  {}

  lemma CountRootCall(g: Graph, roots: seq<Fn>, mult: map<Fn, nat>, s: PathSets, done: set<Fn>, f: Fn, j: nat)
    requires j < |Calls(g, f)| && Calls(g, f)[j].callee in roots && Reached(g, roots, f)
    requires Counted(g, roots, mult, s, done, f, j)
    ensures Counted(g, roots, mult, s, done, f, j + 1)
  {
    RootCallTaken(g, roots, s, done, f, j);
    assert s.Keys == s.Keys + {Calls(g, f)[j].callee};
    hide Exact, Tallied, Reached, Calls;
    PresentNext(g, roots, s.Keys, done, f, j);
  }

  /** Roots are entered once. */
  function RootCounts(roots: seq<Fn>): (m: map<Fn, nat>)
    ensures forall r :: r in roots ==> r in m && m[r] == 1
  {
    map r | r in roots :: 1
  }

  ghost function RootPaths(roots: seq<Fn>): PathSets {
    map r | r in roots :: {[Hop(r, 0)]}
  }

  lemma FirstPaths(g: Graph, roots: seq<Fn>, f: Fn)
    ensures Exact(g, roots, RootPaths(roots), {}, f, [])
  {
    var s := RootPaths(roots);
    forall x, p ensures p in Get(s, x) <==> CallPath(g, roots, p, x) && Taken(p, {}, f, []) {
      assert Get(s, x) == if x in roots then {[Hop(x, 0)]} else {};
      hide RootPaths;
      if CallPath(g, roots, p, x) && |p| == 1 {
        assert p == [Hop(x, 0)];
      }
    }
  }

  lemma FirstTally(g: Graph, roots: seq<Fn>, f: Fn)
    ensures Tallied(RootCounts(roots), RootPaths(roots)) && Present(g, roots, RootPaths(roots).Keys, {}, f, 0)
  {
    forall x | x in roots ensures Reached(g, roots, x) {
      RootReached(g, roots, x);
    }
    hide Reached;
  }

  lemma CountFirst(g: Graph, roots: seq<Fn>, f: Fn)
    ensures Counted(g, roots, RootCounts(roots), RootPaths(roots), {}, f, 0)
  {
    hide Exact, Tallied, Present, RootCounts, RootPaths;
    FirstPaths(g, roots, f);
    FirstTally(g, roots, f);
    assert Calls(g, f)[..0] == [];
  }

  lemma CountDone(g: Graph, roots: seq<Fn>, mult: map<Fn, nat>, s: PathSets, done: set<Fn>, f: Fn, h: Fn)
    requires Counted(g, roots, mult, s, done, f, |Calls(g, f)|)
    ensures Counted(g, roots, mult, s, done + {f}, h, 0)
  {
    assert Calls(g, f)[..|Calls(g, f)|] == Calls(g, f) && Calls(g, h)[..0] == [];
    CallerDone(g, roots, s, done, f);
    NextCaller(g, roots, s, done + {f}, f, h);
    hide Exact, Tallied, Reached;
    forall c, x | c in done + {f} && Edge(g, c, x) ensures x in s.Keys {
      if c == f {
        var i :| 0 <= i < |Calls(g, f)| && Calls(g, f)[i].callee == x;
      }
    }
  }

  // ----- why the order works

  ghost predicate Finished(g: Graph, roots: seq<Fn>, order: seq<Fn>) {
    && Once(order) && CalleesFirst(g, order)
    && (forall x :: x in order <==> Reached(g, roots, x))
    && (forall x :: x in order ==> x in roots || exists c :: c in order && Edge(g, c, x))
  }

  function SetOf(s: seq<Fn>): set<Fn> {
    set x | x in s
  }

  /** When a function's turn comes, taking the finishing order backwards, every
      caller of it has been taken, it is itself new, and it calls only what comes
      later. */
  lemma CallersTaken(g: Graph, roots: seq<Fn>, order: seq<Fn>, k: nat)
    requires Finished(g, roots, order) && k < |order|
    ensures var done := SetOf(order[k + 1..]);
      && order[k] !in done && Reached(g, roots, order[k])
      && (forall c :: Reached(g, roots, c) && Edge(g, c, order[k]) ==> c in done)
      && (order[k] in roots || exists c :: c in done && Edge(g, c, order[k]))
      && !Edge(g, order[k], order[k])
  {}

  lemma WalkFinished(g: Graph, roots: seq<Fn>, seen: set<Fn>, order: seq<Fn>)
    requires Walking(g, roots, seen, order, []) && Acyclic(g, roots) && forall r :: r in roots ==> r in seen
    ensures Finished(g, roots, order)
  {
    hide Reached, Names, Edge, Walk, Acyclic, CalleesFirst;
    assert forall x :: x in seen <==> x in order;
    forall x | Reached(g, roots, x) ensures x in order {
      SeenAll(g, roots, seen, x);
    }
    forall x | x in order ensures x in roots || exists c :: c in order && Edge(g, c, x) {
      assert Sourced(g, roots, seen, x);
      if x !in roots {
        var c :| c in seen && Edge(g, c, x);
        assert c in order;
      }
    }
  }

  lemma SeenAll(g: Graph, roots: seq<Fn>, seen: set<Fn>, x: Fn)
    requires (forall f, c :: f in seen && Edge(g, f, c) ==> c in seen) && (forall r :: r in roots ==> r in seen)
    requires Reached(g, roots, x)
    ensures x in seen
  {
    var w: seq<Fn> :| |w| > 0 && w[0] in roots && w[|w| - 1] == x && Walk(g, w);
    hide Edge, Walk;
    ClosedHoldsAll(g, seen, w);
  }

  // ----- the count

  /** `n` is exactly the number of call-site paths into `f`. */
  ghost predicate PathCount(g: Graph, roots: seq<Fn>, f: Fn, n: nat) {
    exists s: set<Path> :: |s| == n && forall p :: p in s <==> CallPath(g, roots, p, f)
  }

  /** The live functions are those reached. */
  ghost predicate IsLive(g: Graph, roots: seq<Fn>, live: set<Fn>) {
    forall x :: x in live <==> Reached(g, roots, x)
  }

  /** Every call of one function, added to the counts of what it calls. */
  method CountCalls(g: Graph, roots: seq<Fn>, live: set<Fn>, f: Fn, start: map<Fn, nat>,
                    ghost done: set<Fn>, ghost s0: PathSets)
    returns (mult: map<Fn, nat>, ghost s: PathSets)
    requires WellFormed(g) && IsLive(g, roots, live)
    ensures forall r :: r in roots && r in start ==> r in mult && mult[r] == start[r]
    ensures Startable(g, roots, start, s0, done, f) ==> Counted(g, roots, mult, s, done, f, |Calls(g, f)|)
  {
    hide Reached, Edge, Counted, Complete, Ready;
    mult, s := start, s0;
    var calls := Calls(g, f);
    ghost var good := Startable(g, roots, start, s0, done, f);
    for j := 0 to |calls|
      invariant forall r :: r in roots && r in start ==> r in mult && mult[r] == start[r]
      invariant good ==> Counted(g, roots, mult, s, done, f, j) && Complete(g, roots, s, f) && f in mult
    {
      var call := calls[j];
      if good {
        CalleeLive(g, roots, f, j);
        if call.callee in roots {
          CountRootCall(g, roots, mult, s, done, f, j);
        } else {
          MakeReady(g, roots, mult, s, done, f, j);
          CountCall(g, roots, mult, s, done, f, j);
        }
      }
      if call.callee in live && call.callee !in roots {
        s := AddCall(s, f, call);
        mult := Bumped(mult, f, call);
      }
    }
  }

  /** The turn of `f` has come: all its callers are counted. */
  ghost predicate Startable(g: Graph, roots: seq<Fn>, mult: map<Fn, nat>, s: PathSets, done: set<Fn>, f: Fn) {
    && Counted(g, roots, mult, s, done, f, 0) && Complete(g, roots, s, f)
    && f in mult && f !in done && Reached(g, roots, f) && !Edge(g, f, f)
  }

  lemma CalleeLive(g: Graph, roots: seq<Fn>, f: Fn, j: nat)
    requires Reached(g, roots, f) && j < |Calls(g, f)|
    ensures Reached(g, roots, Calls(g, f)[j].callee) && Edge(g, f, Calls(g, f)[j].callee)
  {
    ReachedOn(g, roots, f, Calls(g, f)[j].callee);
  }

  lemma MakeReady(g: Graph, roots: seq<Fn>, mult: map<Fn, nat>, s: PathSets, done: set<Fn>, f: Fn, j: nat)
    requires WellFormed(g) && Counted(g, roots, mult, s, done, f, j) && Complete(g, roots, s, f) && f !in done
    requires j < |Calls(g, f)| && Calls(g, f)[j].callee !in roots && !Edge(g, f, f)
    ensures Ready(g, roots, s, done, f, j)
  {
    hide Exact, Complete, Present, Tallied;
    assert Edge(g, f, Calls(g, f)[j].callee);
  }

  /** The walk from every root in turn. */
  method FinishingOrder(g: Graph, roots: seq<Fn>) returns (order: seq<Fn>)
    ensures Acyclic(g, roots) ==> Finished(g, roots, order)
  {
    var w := new Walker(g, roots);
    assert w.Inv([]) by {
      assert CalleesFirst(g, []);
    }
    hide Walking, Acyclic;
    for i := 0 to |roots|
      invariant w.g == g && w.roots == roots && w.Inv([]) && forall j :: 0 <= j < i ==> roots[j] in w.seen
    {
      w.Visit(roots[i], {}, []);
    }
    order := w.order;
    if Acyclic(g, roots) {
      WalkFinished(g, roots, w.seen, order);
    }
  }

  lemma TurnComes(g: Graph, roots: seq<Fn>, order: seq<Fn>, k: nat, mult: map<Fn, nat>, s: PathSets)
    requires Finished(g, roots, order) && k < |order|
    requires Counted(g, roots, mult, s, SetOf(order[k + 1..]), order[k], 0)
    ensures Startable(g, roots, mult, s, SetOf(order[k + 1..]), order[k])
  {
    var f, done := order[k], SetOf(order[k + 1..]);
    CallersTaken(g, roots, order, k);
    hide Finished, SetOf, Reached, Edge, Exact;
    assert Calls(g, f)[..0] == [];
    CompleteWhenCallersDone(g, roots, s, done, f);
  }

  lemma SetOfNext(order: seq<Fn>, k: nat)
    requires k < |order|
    ensures SetOf(order[k..]) == SetOf(order[k + 1..]) + {order[k]}
  {}

  /** The functions from `k` on in the finishing order have been counted. */
  ghost predicate CountedFrom(g: Graph, roots: seq<Fn>, order: seq<Fn>, k: nat, mult: map<Fn, nat>, s: PathSets) {
    && k <= |order| && Finished(g, roots, order)
    && forall f :: Counted(g, roots, mult, s, SetOf(order[k..]), f, 0)
  }

  lemma CountsBegin(g: Graph, roots: seq<Fn>, order: seq<Fn>)
    requires Finished(g, roots, order)
    ensures CountedFrom(g, roots, order, |order|, RootCounts(roots), RootPaths(roots))
  {
    assert SetOf(order[|order|..]) == {};
    hide Counted, Finished, RootCounts, RootPaths, SetOf;
    forall f ensures Counted(g, roots, RootCounts(roots), RootPaths(roots), SetOf(order[|order|..]), f, 0) {
      CountFirst(g, roots, f);
    }
  }

  lemma CountsTurn(g: Graph, roots: seq<Fn>, order: seq<Fn>, k: nat, mult: map<Fn, nat>, s: PathSets)
    requires k < |order| && CountedFrom(g, roots, order, k + 1, mult, s)
    ensures Startable(g, roots, mult, s, SetOf(order[k + 1..]), order[k])
  {
    hide Counted, Finished, SetOf, Startable;
    TurnComes(g, roots, order, k, mult, s);
  }

  lemma CountsMove(g: Graph, roots: seq<Fn>, order: seq<Fn>, k: nat, mult: map<Fn, nat>, s: PathSets)
    requires k < |order| && Finished(g, roots, order)
    requires Counted(g, roots, mult, s, SetOf(order[k + 1..]), order[k], |Calls(g, order[k])|)
    ensures CountedFrom(g, roots, order, k, mult, s)
  {
    hide Counted, Finished;
    SetOfNext(order, k);
    hide SetOf;
    forall f ensures Counted(g, roots, mult, s, SetOf(order[k..]), f, 0) {
      CountDone(g, roots, mult, s, SetOf(order[k + 1..]), order[k], f);
    }
  }

  lemma AllCounted(g: Graph, roots: seq<Fn>, order: seq<Fn>, mult: map<Fn, nat>, s: PathSets, x: Fn)
    requires CountedFrom(g, roots, order, 0, mult, s)
    ensures Finished(g, roots, order) && Tallied(mult, s)
    ensures Exact(g, roots, s, SetOf(order), x, []) && Present(g, roots, s.Keys, SetOf(order), x, 0)
  {
    assert order[0..] == order && Calls(g, x)[..0] == [];
    assert Counted(g, roots, mult, s, SetOf(order[0..]), x, 0);
    hide Finished, Exact, Present, Tallied, SetOf;
  }

  lemma TotalAt(g: Graph, roots: seq<Fn>, order: seq<Fn>, mult: map<Fn, nat>, s: PathSets, x: Fn)
    requires CountedFrom(g, roots, order, 0, mult, s) && Reached(g, roots, x)
    ensures x in mult && PathCount(g, roots, x, mult[x])
  {
    hide CountedFrom, Reached, Edge, Present, CallPath, Exact, CalleesFirst, Once;
    AllCounted(g, roots, order, mult, s, x);
    var done := SetOf(order);
    HasEntry(g, roots, order, s.Keys, x);
    assert forall c :: Reached(g, roots, c) ==> c in done;
    CompleteWhenCallersDone(g, roots, s, done, x);
    assert |s[x]| == mult[x] && s[x] == Get(s, x);
  }

  lemma HasEntry(g: Graph, roots: seq<Fn>, order: seq<Fn>, keys: set<Fn>, x: Fn)
    requires Finished(g, roots, order) && Present(g, roots, keys, SetOf(order), x, 0) && Reached(g, roots, x)
    ensures x in keys
  {}

  lemma OnlyReached(g: Graph, roots: seq<Fn>, order: seq<Fn>, mult: map<Fn, nat>, s: PathSets, x: Fn)
    requires CountedFrom(g, roots, order, 0, mult, s) && x in mult
    ensures Reached(g, roots, x)
  {
    hide CountedFrom, Reached, Edge, Exact, Finished;
    AllCounted(g, roots, order, mult, s, x);
    assert x in s.Keys;
  }

  /** With every function taken, all counts are path counts. */
  lemma Totals(g: Graph, roots: seq<Fn>, live: set<Fn>, order: seq<Fn>, mult: map<Fn, nat>, s: PathSets)
    requires CountedFrom(g, roots, order, 0, mult, s) && IsLive(g, roots, live)
    ensures mult.Keys == live && forall x :: x in live ==> PathCount(g, roots, x, mult[x])
  {
    hide CountedFrom, Reached, PathCount;
    forall x | x in live ensures x in mult && PathCount(g, roots, x, mult[x]) {
      TotalAt(g, roots, order, mult, s, x);
    }
    forall x | x in mult ensures x in live {
      OnlyReached(g, roots, order, mult, s, x);
    }
  }

  /** In an acyclic graph every reachable function gets exactly the number of
      call-site paths that lead to it from a root without passing another; a
      root gets one. */
  method CountAll(g: Graph, roots: seq<Fn>, live: set<Fn>) returns (mult: map<Fn, nat>)
    requires WellFormed(g) && IsLive(g, roots, live)
    ensures forall r :: r in roots ==> r in mult && mult[r] == 1
    ensures Acyclic(g, roots) ==> mult.Keys == live && forall f :: f in live ==> PathCount(g, roots, f, mult[f])
  {
    hide Finished, Acyclic, CountedFrom, Counted, SetOf, Startable, WellFormed, PathCount, RootCounts, RootPaths,
      IsLive;
    var order := FinishingOrder(g, roots);
    mult := RootCounts(roots);
    ghost var s := RootPaths(roots);
    ghost var acyclic := Acyclic(g, roots);
    if acyclic {
      CountsBegin(g, roots, order);
    }
    var k := |order|;
    while k > 0
      invariant 0 <= k <= |order| && forall r :: r in roots ==> r in mult && mult[r] == 1
      invariant acyclic ==> CountedFrom(g, roots, order, k, mult, s)
    {
      k := k - 1;
      ghost var done := SetOf(order[k + 1..]);
      if acyclic {
        CountsTurn(g, roots, order, k, mult, s);
      }
      mult, s := CountCalls(g, roots, live, order[k], mult, done, s);
      if acyclic {
        CountsMove(g, roots, order, k, mult, s);
      }
    }
    if acyclic {
      Totals(g, roots, live, order, mult, s);
    }
  }
}
