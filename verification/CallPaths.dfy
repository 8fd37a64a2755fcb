/** Call-site paths, and counting them one call at a time. */
module CallPaths {
  import opened CallGraph

  /** Entering `fn` through its caller's call site number `site`. */
  datatype Hop = Hop(fn: Fn, site: nat)

  type Path = seq<Hop>

  /** The call sites by which a table reaches `c`. */
  function SitesIn(cs: seq<Call>, c: Fn): nat {
    if |cs| == 0 then 0
    else SitesIn(cs[..|cs| - 1], c) + (if cs[|cs| - 1].callee == c then cs[|cs| - 1].sites else 0)
  }

  function Sites(g: Graph, f: Fn, c: Fn): nat {
    SitesIn(Calls(g, f), c)
  }

  ghost predicate Hops(g: Graph, roots: seq<Fn>, p: Path, i: nat)
    requires i + 1 < |p|
  {
    p[i + 1].fn !in roots && p[i + 1].site < Sites(g, p[i].fn, p[i + 1].fn)
  }

  /** A way into `f`: starts at a root, follows call sites, and passes through no
      other root. */
  ghost predicate CallPath(g: Graph, roots: seq<Fn>, p: Path, f: Fn) {
    && |p| > 0 && p[0].fn in roots && p[0].site == 0 && p[|p| - 1].fn == f
    && forall i :: 0 <= i < |p| - 1 ==> Hops(g, roots, p, i)
  }

  /** The last caller on a path. */
  function Caller(p: Path): Fn
    requires |p| > 1
  {
    p[|p| - 2].fn
  }

  lemma PathOn(g: Graph, roots: seq<Fn>, q: Path, f: Fn, x: Fn, s: nat)
    requires CallPath(g, roots, q, f) && x !in roots && s < Sites(g, f, x)
    ensures CallPath(g, roots, q + [Hop(x, s)], x)
  {
    var p := q + [Hop(x, s)];
    forall i | 0 <= i < |p| - 1 ensures Hops(g, roots, p, i) {
      if i < |q| - 1 {
        assert Hops(g, roots, q, i);
      }
    }
  }

  lemma PathBack(g: Graph, roots: seq<Fn>, p: Path, x: Fn)
    requires CallPath(g, roots, p, x) && |p| > 1
    ensures var q, h := p[..|p| - 1], p[|p| - 1];
      CallPath(g, roots, q, Caller(p)) && h.fn == x && x !in roots && h.site < Sites(g, Caller(p), x) && p == q + [h]
  {
    var n := |p| - 1;
    assert Hops(g, roots, p, n - 1);
    forall i | 0 <= i < |p[..n]| - 1 ensures Hops(g, roots, p[..n], i) {
      assert Hops(g, roots, p, i);
    }
  }

  lemma {:induction false} SitesNeedEntry(cs: seq<Call>, c: Fn)
    requires SitesIn(cs, c) > 0
    ensures exists i :: 0 <= i < |cs| && cs[i].callee == c
  {
    var n := |cs| - 1;
    if cs[n].callee != c {
      SitesNeedEntry(cs[..n], c);
      var i :| 0 <= i < n && cs[..n][i].callee == c;
      assert cs[i].callee == c;
    }
  }

  /** The functions along a call path are reached. */
  lemma {:induction false} PathReached(g: Graph, roots: seq<Fn>, p: Path, f: Fn)
    requires CallPath(g, roots, p, f)
    ensures Reached(g, roots, f)
    ensures |p| > 1 ==> Reached(g, roots, Caller(p)) && Edge(g, Caller(p), f)
    decreases |p|
  {
    if |p| == 1 {
      RootReached(g, roots, f);
    } else {
      PathBack(g, roots, p, f);
      PathReached(g, roots, p[..|p| - 1], Caller(p));
      SitesNeedEntry(Calls(g, Caller(p)), f);
      ReachedOn(g, roots, Caller(p), f);
    }
  }

  lemma {:induction false} SitesOnce(cs: seq<Call>, i: nat)
    requires i < |cs| && forall a, b :: 0 <= a < b < |cs| ==> cs[a].callee != cs[b].callee
    ensures SitesIn(cs, cs[i].callee) == cs[i].sites
    decreases |cs|
  {
    var n := |cs| - 1;
    if i < n {
      SitesOnce(cs[..n], i);
    } else {
      SitesNone(cs[..n], cs[i].callee);
    }
  }

  lemma {:induction false} SitesNone(cs: seq<Call>, c: Fn)
    requires forall a :: 0 <= a < |cs| ==> cs[a].callee != c
    ensures SitesIn(cs, c) == 0
  {
    if |cs| > 0 {
      SitesNone(cs[..|cs| - 1], c);
    }
  }

  // ----- extending a set of paths

  /** A path continued into `x` through one call site. */
  function Onto(p: Path, x: Fn, s: nat): Path {
    p + [Hop(x, s)]
  }

  lemma OntoInjective(p: Path, s: nat, q: Path, t: nat, x: Fn)
    requires Onto(p, x, s) == Onto(q, x, t)
    ensures p == q && s == t
  {
    var u, v := Onto(p, x, s), Onto(q, x, t);
    assert p == u[..|u| - 1] && q == v[..|v| - 1];
    assert u[|u| - 1] == Hop(x, s) && v[|v| - 1] == Hop(x, t);
  }

  /** Every path of `a` continued into `x` through each of `n` call sites. */
  ghost function Continued(a: set<Path>, x: Fn, n: nat): set<Path> {
    set p, s | p in a && 0 <= s < n :: Onto(p, x, s)
  }

  ghost function Through(a: set<Path>, x: Fn, s: nat): set<Path> {
    set p | p in a :: Onto(p, x, s)
  }

  lemma {:induction false} ThroughSize(a: set<Path>, x: Fn, s: nat)
    ensures |Through(a, x, s)| == |a|
    decreases a
  {
    if a == {} {
      assert Through(a, x, s) == {};
    } else {
      var q :| q in a;
      var b := a - {q};
      ThroughSize(b, x, s);
      var e := Onto(q, x, s);
      forall p | p in b ensures Onto(p, x, s) != e {
        if Onto(p, x, s) == e {
          OntoInjective(p, s, q, s, x);
        }
      }
      hide Onto;
      assert Through(a, x, s) == Through(b, x, s) + {e};
      assert |a| == |b| + 1;
    }
  }

  lemma OneMore(n: nat, k: nat)
    requires n > 0
    ensures n * k == (n - 1) * k + k
  {}

  lemma ContinuedNext(a: set<Path>, x: Fn, n: nat)
    ensures Continued(a, x, n + 1) == Continued(a, x, n) + Through(a, x, n)
    ensures Continued(a, x, n) !! Through(a, x, n)
  {
    hide Onto;
    forall p | p in Continued(a, x, n) ensures p !in Through(a, x, n) {
      var q, s :| q in a && 0 <= s < n && p == Onto(q, x, s);
      forall r | r in a ensures Onto(r, x, n) != p {
        if Onto(r, x, n) == p {
          OntoInjective(r, n, q, s, x);
        }
      }
    }
    forall p ensures p in Continued(a, x, n + 1) <==> p in Continued(a, x, n) || p in Through(a, x, n) {
      if p in Continued(a, x, n + 1) {
        var q, s :| q in a && 0 <= s < n + 1 && p == Onto(q, x, s);
        assert s == n || p in Continued(a, x, n);
      }
      if p in Through(a, x, n) {
        var q :| q in a && p == Onto(q, x, n);
      }
    }
  }

  lemma ContinuedNone(a: set<Path>, x: Fn)
    ensures Continued(a, x, 0) == {}
  {}

  lemma DisjointSize(u: set<Path>, v: set<Path>)
    requires u !! v
    ensures |u + v| == |u| + |v|
  {}

  /** Call sites multiply. */
  lemma {:induction false} ContinuedSize(a: set<Path>, x: Fn, n: nat)
    ensures |Continued(a, x, n)| == n * |a|
    decreases n
  {
    hide Continued, Through;
    if n == 0 {
      ContinuedNone(a, x);
    } else {
      ContinuedSize(a, x, n - 1);
      ThroughSize(a, x, n - 1);
      ContinuedNext(a, x, n - 1);
      DisjointSize(Continued(a, x, n - 1), Through(a, x, n - 1));
      OneMore(n, |a|);
    }
  }

  // ----- what has been counted so far

  type PathSets = map<Fn, set<Path>>

  ghost function Get(s: PathSets, x: Fn): set<Path> {
    if x in s then s[x] else {}
  }

  /** The path ends with a call already taken into account: all those of the
      callers in `done`, and of `f` those into the functions of `cs`. */
  ghost predicate Taken(p: Path, done: set<Fn>, f: Fn, cs: seq<Call>)
    requires |p| > 0
  {
    |p| == 1 || Caller(p) in done || (Caller(p) == f && Listed(cs, p[|p| - 1].fn))
  }

  ghost predicate Listed(cs: seq<Call>, x: Fn) {
    exists i :: 0 <= i < |cs| && cs[i].callee == x
  }

  /** The sets hold exactly the paths taken into account. */
  ghost predicate Exact(g: Graph, roots: seq<Fn>, s: PathSets, done: set<Fn>, f: Fn, cs: seq<Call>) {
    forall x, p :: p in Get(s, x) <==> CallPath(g, roots, p, x) && Taken(p, done, f, cs)
  }

  /** Every path into `f` is there. */
  ghost predicate Complete(g: Graph, roots: seq<Fn>, s: PathSets, f: Fn) {
    forall p :: p in Get(s, f) <==> CallPath(g, roots, p, f)
  }

  /** The paths that come with the next call are the paths into the caller,
      continued. */
  lemma NewPaths(g: Graph, roots: seq<Fn>, s: PathSets, f: Fn, x: Fn, n: nat, p: Path)
    requires Complete(g, roots, s, f) && x !in roots && Sites(g, f, x) == n
    ensures p in Continued(Get(s, f), x, n) <==> CallPath(g, roots, p, x) && |p| > 1 && Caller(p) == f
  {
    if CallPath(g, roots, p, x) && |p| > 1 && Caller(p) == f {
      PathBack(g, roots, p, x);
      var q, h := p[..|p| - 1], p[|p| - 1];
      assert q in Get(s, f) && p == Onto(q, x, h.site);
    }
    if p in Continued(Get(s, f), x, n) {
      var q, t :| q in Get(s, f) && 0 <= t < n && p == Onto(q, x, t);
      PathOn(g, roots, q, f, x, t);
    }
  }

  ghost predicate OncePerCallee(cs: seq<Call>) {
    forall a, b :: 0 <= a < b < |cs| ==> cs[a].callee != cs[b].callee
  }

  ghost function AddCall(s: PathSets, f: Fn, call: Call): PathSets {
    s[call.callee := Get(s, call.callee) + Continued(Get(s, f), call.callee, call.sites)]
  }

  lemma TakenNext(p: Path, done: set<Fn>, f: Fn, cs: seq<Call>, j: nat)
    requires |p| > 0 && j < |cs|
    ensures Taken(p, done, f, cs[..j + 1]) <==>
      Taken(p, done, f, cs[..j]) || (|p| > 1 && Caller(p) == f && p[|p| - 1].fn == cs[j].callee)
  {}

  /** A call of `f` that can be taken next. */
  ghost predicate Ready(g: Graph, roots: seq<Fn>, s: PathSets, done: set<Fn>, f: Fn, j: nat) {
    && j < |Calls(g, f)| && OncePerCallee(Calls(g, f)) && f !in done
    && Exact(g, roots, s, done, f, Calls(g, f)[..j]) && Complete(g, roots, s, f)
    && Calls(g, f)[j].callee !in roots && Calls(g, f)[j].callee != f
  }

  /** What the call brings. */
  lemma Brings(g: Graph, roots: seq<Fn>, s: PathSets, done: set<Fn>, f: Fn, j: nat, p: Path)
    requires Ready(g, roots, s, done, f, j)
    ensures var call := Calls(g, f)[j]; var more := Continued(Get(s, f), call.callee, call.sites);
      && (p in more <==> CallPath(g, roots, p, call.callee) && |p| > 1 && Caller(p) == f)
      && (p in more ==> p !in Get(s, call.callee))
  {
    var cs := Calls(g, f);
    var call := cs[j];
    SitesOnce(cs, j);
    NotYetListed(cs, j);
    hide Continued, Taken, Listed, SitesIn;
    NewPaths(g, roots, s, f, call.callee, call.sites, p);
    if CallPath(g, roots, p, call.callee) && |p| > 1 && Caller(p) == f {
      NotYetTaken(p, done, f, cs[..j]);
    }
  }

  lemma CallTakenExact(g: Graph, roots: seq<Fn>, s: PathSets, done: set<Fn>, f: Fn, j: nat)
    requires Ready(g, roots, s, done, f, j)
    ensures Exact(g, roots, AddCall(s, f, Calls(g, f)[j]), done, f, Calls(g, f)[..j + 1])
  {
    var cs := Calls(g, f);
    var x, t := cs[j].callee, AddCall(s, f, cs[j]);
    hide Continued, CallPath, Taken, Listed, SitesIn, Complete, OncePerCallee;
    forall y, p ensures p in Get(t, y) <==> CallPath(g, roots, p, y) && Taken(p, done, f, cs[..j + 1]) {
      assert p in Get(s, y) <==> CallPath(g, roots, p, y) && Taken(p, done, f, cs[..j]);
      Brings(g, roots, s, done, f, j, p);
      if CallPath(g, roots, p, y) {
        PathEnds(g, roots, p, y);
        TakenNext(p, done, f, cs, j);
      }
    }
  }

  /** Taking one more call of `f` into account. */
  lemma CallTaken(g: Graph, roots: seq<Fn>, s: PathSets, done: set<Fn>, f: Fn, j: nat)
    requires Ready(g, roots, s, done, f, j)
    ensures var call := Calls(g, f)[j]; var t := AddCall(s, f, call);
      && Exact(g, roots, t, done, f, Calls(g, f)[..j + 1]) && Complete(g, roots, t, f)
      && |Get(t, call.callee)| == |Get(s, call.callee)| + call.sites * |Get(s, f)|
  {
    CallTakenExact(g, roots, s, done, f, j);
    var call := Calls(g, f)[j];
    var more := Continued(Get(s, f), call.callee, call.sites);
    ContinuedSize(Get(s, f), call.callee, call.sites);
    forall p | p in more ensures p !in Get(s, call.callee) {
      Brings(g, roots, s, done, f, j, p);
    }
    hide Exact, Continued, CallPath;
    assert Get(s, call.callee) !! more;
  }

  lemma PathEnds(g: Graph, roots: seq<Fn>, p: Path, f: Fn)
    requires CallPath(g, roots, p, f)
    ensures |p| > 0 && p[|p| - 1].fn == f
  {}

  lemma NotYetListed(cs: seq<Call>, j: nat)
    requires j < |cs| && OncePerCallee(cs)
    ensures !Listed(cs[..j], cs[j].callee)
  {}

  lemma NotYetTaken(p: Path, done: set<Fn>, f: Fn, cs: seq<Call>)
    requires |p| > 1 && Caller(p) == f && f !in done && !Listed(cs, p[|p| - 1].fn)
    ensures !Taken(p, done, f, cs)
  {}

  /** A call into a root adds no path: roots are entered once, as themselves. */
  lemma RootCallTaken(g: Graph, roots: seq<Fn>, s: PathSets, done: set<Fn>, f: Fn, j: nat)
    requires j < |Calls(g, f)| && Calls(g, f)[j].callee in roots
    requires Exact(g, roots, s, done, f, Calls(g, f)[..j])
    ensures Exact(g, roots, s, done, f, Calls(g, f)[..j + 1])
  {
    var cs := Calls(g, f);
    hide Taken, Listed;
    forall y, p ensures p in Get(s, y) <==> CallPath(g, roots, p, y) && Taken(p, done, f, cs[..j + 1]) {
      if CallPath(g, roots, p, y) {
        TakenNext(p, done, f, cs, j);
        if |p| > 1 {
          PathBack(g, roots, p, y);
        }
      }
    }
  }

  /** With all calls of `f` taken, `f` is done. */
  lemma CallerDone(g: Graph, roots: seq<Fn>, s: PathSets, done: set<Fn>, f: Fn)
    requires Exact(g, roots, s, done, f, Calls(g, f))
    ensures Exact(g, roots, s, done + {f}, f, [])
  {
    forall y, p ensures p in Get(s, y) <==> CallPath(g, roots, p, y) && Taken(p, done + {f}, f, []) {
      if CallPath(g, roots, p, y) && |p| > 1 {
        PathReached(g, roots, p, y);
      }
    }
  }

  /** Starting the next caller changes nothing. */
  lemma NextCaller(g: Graph, roots: seq<Fn>, s: PathSets, done: set<Fn>, f: Fn, h: Fn)
    requires Exact(g, roots, s, done, f, [])
    ensures Exact(g, roots, s, done, h, [])
  {
    forall y, p ensures p in Get(s, y) <==> CallPath(g, roots, p, y) && Taken(p, done, h, []) {
      assert p in Get(s, y) <==> CallPath(g, roots, p, y) && Taken(p, done, f, []);
    }
  }

  /** If every caller that matters is done, the paths into `f` are complete. */
  lemma CompleteWhenCallersDone(g: Graph, roots: seq<Fn>, s: PathSets, done: set<Fn>, f: Fn)
    requires Exact(g, roots, s, done, f, [])
    requires forall c :: Reached(g, roots, c) && Edge(g, c, f) ==> c in done
    ensures Complete(g, roots, s, f)
  {
    forall p ensures p in Get(s, f) <==> CallPath(g, roots, p, f) {
      if CallPath(g, roots, p, f) {
        PathReached(g, roots, p, f);
      }
    }
  }
}
