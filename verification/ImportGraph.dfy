/** The dependency graph of salt-front/src/codegen/module_loader.rs and its depth-first sort. */
module ImportGraph {
  import opened Wrappers

  type Graph = map<string, seq<string>>

  function Deps(g: Graph, n: string): seq<string> {
    if n in g then g[n] else []
  }

  /** The modules that have an entry or are named in one. */
  function Nodes(g: Graph): set<string> {
    g.Keys + set k, d | k in g && d in g[k] :: d
  }

  predicate Step(g: Graph, w: seq<string>, i: nat)
    requires i + 1 < |w|
  {
    w[i + 1] in Deps(g, w[i])
  }

  predicate Walk(g: Graph, w: seq<string>) {
    |w| >= 1 && forall i :: 0 <= i < |w| - 1 ==> Step(g, w, i)
  }

  predicate Cycle(g: Graph, w: seq<string>) {
    |w| >= 2 && Walk(g, w) && w[0] == w[|w| - 1]
  }

  ghost predicate HasCycle(g: Graph) {
    exists w :: Cycle(g, w)
  }

  predicate WalkBetween(g: Graph, w: seq<string>, a: string, b: string) {
    Walk(g, w) && w[0] == a && w[|w| - 1] == b
  }

  ghost predicate Reaches(g: Graph, a: string, b: string) {
    exists w :: WalkBetween(g, w, a, b)
  }

  predicate Distinct(s: seq<string>) {
    forall i, j :: 0 <= i < j < |s| ==> s[i] != s[j]
  }

  /** Every module comes after all it depends on. */
  predicate Topological(g: Graph, order: seq<string>) {
    forall i :: 0 <= i < |order| ==> DepsBefore(g, order, i)
  }

  predicate DepsBefore(g: Graph, order: seq<string>, i: nat)
    requires i < |order|
  {
    forall d :: d in Deps(g, order[i]) ==> d in order[..i]
  }

  predicate Before(order: seq<string>, b: string, a: string) {
    exists i :: 0 <= i < |order| && order[i] == a && b in order[..i]
  }

  /** The keys of a map, in whatever order its iterator yields them. */
  predicate Listing(keys: seq<string>, s: set<string>) {
    Distinct(keys) && (forall k | k in keys :: k in s) && (forall k | k in s :: k in keys)
  }

  datatype Marks = Marks(visited: set<string>, temp: set<string>, order: seq<string>)

  datatype Outcome = Outcome(marks: Marks, error: Option<string>)

  lemma FewerLeft(all: set<string>, temp: set<string>, node: string)
    requires node in all && node !in temp
    ensures |all - (temp + {node})| < |all - temp|
  {
    assert all - temp == (all - (temp + {node})) + {node};
  }

  lemma DepsAreNodes(g: Graph, n: string)
    ensures forall d :: d in Deps(g, n) ==> d in Nodes(g)
  {
  }

  /** The depth-first visit of one module: the marks it leaves, and the module at which it saw a cycle. */
  function Visit(g: Graph, node: string, m: Marks): (r: Outcome)
    requires node in Nodes(g)
    ensures r.error.None? ==> r.marks.temp == m.temp
    decreases |Nodes(g) - m.temp|, 0
  {
    if node in m.temp then Outcome(m, Some(node))
    else if node in m.visited then Outcome(m, None)
    else
      FewerLeft(Nodes(g), m.temp, node);
      DepsAreNodes(g, node);
      var inner := VisitAll(g, Deps(g, node), m.(temp := m.temp + {node}));
      if inner.error.Some? then inner
      else
        Outcome(Marks(inner.marks.visited + {node}, inner.marks.temp - {node}, inner.marks.order + [node]), None)
  }

  function VisitAll(g: Graph, deps: seq<string>, m: Marks): (r: Outcome)
    requires forall d :: d in deps ==> d in Nodes(g)
    ensures r.error.None? ==> r.marks.temp == m.temp
    decreases |Nodes(g) - m.temp|, |deps| + 1
  {
    if deps == [] then Outcome(m, None)
    else
      var first := Visit(g, deps[0], m);
      if first.error.Some? then first else VisitAll(g, deps[1..], first.marks)
  }

  const NO_MARKS := Marks({}, {}, [])

  function Order(g: Graph, keys: seq<string>): Outcome
    requires Listing(keys, g.Keys)
  {
    VisitAll(g, keys, NO_MARKS)
  }

  /** What every visit keeps. */
  ghost predicate Sorted(g: Graph, m: Marks) {
    && Distinct(m.order)
    && (forall x :: x in m.order <==> x in m.visited)
    && Topological(g, m.order)
    && m.visited !! m.temp
  }

  lemma MarkingKeeps(g: Graph, m: Marks, node: string)
    requires Sorted(g, m) && node !in m.visited
    ensures Sorted(g, m.(temp := m.temp + {node}))
  {
    hide Deps;
  }

  lemma MarkedIsUnvisited(g: Graph, m: Marks, node: string)
    requires Sorted(g, m) && node in m.temp
    ensures node !in m.visited
  {
    hide Deps;
  }

  lemma AppendKeeps(g: Graph, m: Marks, node: string, temp: set<string>)
    requires Sorted(g, m) && node !in m.visited && node !in temp && temp <= m.temp
    requires forall d :: d in Deps(g, node) ==> d in m.visited
    ensures Sorted(g, Marks(m.visited + {node}, temp, m.order + [node]))
  {
    hide Deps;
    var after := m.order + [node];
    forall i | 0 <= i < |after|
      ensures DepsBefore(g, after, i)
    {
      if i < |m.order| {
        assert DepsBefore(g, m.order, i);
        assert after[..i] == m.order[..i];
      } else {
        assert after[..i] == m.order;
      }
    }
  }

  lemma {:induction false} VisitKeeps(g: Graph, node: string, m: Marks)
    requires node in Nodes(g) && Sorted(g, m) && Visit(g, node, m).error.None?
    ensures var after := Visit(g, node, m).marks;
            Sorted(g, after) && m.order <= after.order && node in after.visited
    decreases |Nodes(g) - m.temp|, 0
  {
    hide Sorted, Nodes;
    if node !in m.visited {
      FewerLeft(Nodes(g), m.temp, node);
      DepsAreNodes(g, node);
      var marked := m.(temp := m.temp + {node});
      MarkingKeeps(g, m, node);
      VisitAllKeeps(g, Deps(g, node), marked);
      var inner := VisitAll(g, Deps(g, node), marked).marks;
      MarkedIsUnvisited(g, inner, node);
      AppendKeeps(g, inner, node, inner.temp - {node});
    }
  }

  lemma {:induction false} VisitAllKeeps(g: Graph, deps: seq<string>, m: Marks)
    requires forall d :: d in deps ==> d in Nodes(g)
    requires Sorted(g, m) && VisitAll(g, deps, m).error.None?
    ensures var after := VisitAll(g, deps, m).marks;
            Sorted(g, after) && m.order <= after.order && forall d :: d in deps ==> d in after.visited
    decreases |Nodes(g) - m.temp|, |deps| + 1
  {
    hide Visit, Nodes;
    if deps != [] {
      VisitKeeps(g, deps[0], m);
      var first := Visit(g, deps[0], m).marks;
      VisitAllKeeps(g, deps[1..], first);
      var after := VisitAll(g, deps[1..], first).marks;
      assert deps[0] in first.order;
      assert deps[0] in after.order;
    }
  }

  predicate LeadsTo(g: Graph, path: seq<string>, d: string) {
    path != [] ==> d in Deps(g, path[|path| - 1])
  }

  lemma LongerWalk(g: Graph, path: seq<string>, d: string)
    requires (path != [] ==> Walk(g, path)) && LeadsTo(g, path, d)
    ensures Walk(g, path + [d])
  {
    hide Deps;
    var longer := path + [d];
    forall i | 0 <= i < |longer| - 1
      ensures Step(g, longer, i)
    {
      if i < |path| - 1 {
        assert Step(g, path, i);
      }
    }
  }

  /** A visit stops at a module only when that module lies on a cycle. */
  lemma {:induction false} VisitFindsCycle(g: Graph, node: string, m: Marks, path: seq<string>)
    requires node in Nodes(g) && Visit(g, node, m).error.Some?
    requires Walk(g, path + [node]) && forall x :: x in path <==> x in m.temp
    ensures exists w :: Cycle(g, w) && w[0] == Visit(g, node, m).error.value
    decreases |Nodes(g) - m.temp|, 0
  {
    hide Nodes;
    if node in m.temp {
      var i :| 0 <= i < |path| && path[i] == node;
      var w := path[i..] + [node];
      forall k | 0 <= k < |w| - 1
        ensures Step(g, w, k)
      {
        assert Step(g, path + [node], i + k);
      }
      assert Cycle(g, w) && w[0] == node;
    } else {
      FewerLeft(Nodes(g), m.temp, node);
      DepsAreNodes(g, node);
      VisitAllFindsCycle(g, Deps(g, node), m.(temp := m.temp + {node}), path + [node]);
    }
  }

  lemma {:induction false} VisitAllFindsCycle(g: Graph, deps: seq<string>, m: Marks, path: seq<string>)
    requires forall d :: d in deps ==> d in Nodes(g)
    requires VisitAll(g, deps, m).error.Some?
    requires path != [] ==> Walk(g, path)
    requires forall d :: d in deps ==> LeadsTo(g, path, d)
    requires forall x :: x in path <==> x in m.temp
    ensures exists w :: Cycle(g, w) && w[0] == VisitAll(g, deps, m).error.value
    decreases |Nodes(g) - m.temp|, |deps| + 1
  {
    hide Visit, Nodes, Deps, LeadsTo;
    assert deps[0] in deps;
    var first := Visit(g, deps[0], m);
    if first.error.Some? {
      LongerWalk(g, path, deps[0]);
      VisitFindsCycle(g, deps[0], m, path);
    } else {
      VisitAllFindsCycle(g, deps[1..], first.marks, path);
    }
  }

  /** Along a walk the place in a topological order only goes down. */
  lemma {:induction false} WalkDescends(g: Graph, order: seq<string>, w: seq<string>, i: nat)
    requires Topological(g, order) && Walk(g, w) && |w| >= 2
    requires i < |order| && order[i] == w[0]
    ensures w[|w| - 1] in order[..i]
    decreases |w|
  {
    hide Deps;
    assert DepsBefore(g, order, i);
    assert Step(g, w, 0);
    assert w[1] in order[..i];
    var j :| 0 <= j < i && order[j] == w[1];
    if |w| > 2 {
      forall k | 0 <= k < |w| - 2
        ensures Step(g, w[1..], k)
      {
        assert Step(g, w, k + 1);
      }
      WalkDescends(g, order, w[1..], j);
    }
  }

  lemma SortedHasNoCycle(g: Graph, order: seq<string>, w: seq<string>)
    requires Topological(g, order) && Distinct(order) && |w| >= 1 && w[0] in order
    ensures !Cycle(g, w)
  {
    var i :| 0 <= i < |order| && order[i] == w[0];
    if Cycle(g, w) {
      WalkDescends(g, order, w, i);
      assert false;
    }
  }

  lemma NodesAreListed(g: Graph, order: seq<string>)
    requires Topological(g, order) && forall k :: k in g ==> k in order
    ensures forall x :: x in Nodes(g) ==> x in order
  {
    forall x | x in Nodes(g)
      ensures x in order
    {
      if x !in g {
        var k, d :| k in g && d in g[k] && d == x;
        var i :| 0 <= i < |order| && order[i] == k;
        assert DepsBefore(g, order, i);
        assert x in Deps(g, order[i]);
      }
    }
  }

  /** Sorting succeeds exactly on acyclic graphs; then every module is listed once, after its dependencies. */
  lemma OrderIsExact(g: Graph, keys: seq<string>)
    requires Listing(keys, g.Keys)
    ensures Order(g, keys).error.None? <==> !HasCycle(g)
    ensures Order(g, keys).error.None?
            ==> Listing(Order(g, keys).marks.order, Nodes(g)) && Topological(g, Order(g, keys).marks.order)
    ensures Order(g, keys).error.Some? ==> exists w :: Cycle(g, w) && w[0] == Order(g, keys).error.value
  {
    hide Visit, VisitAll;
    var r := Order(g, keys);
    if r.error.Some? {
      VisitAllFindsCycle(g, keys, NO_MARKS, []);
    } else {
      VisitAllKeeps(g, keys, NO_MARKS);
      var order := r.marks.order;
      VisitedAreNodes(g, keys, NO_MARKS);
      NodesAreListed(g, order);
      forall w
        ensures !Cycle(g, w)
      {
        if |w| >= 2 && Step(g, w, 0) {
          SortedHasNoCycle(g, order, w);
        }
      }
    }
  }

  lemma WalkStaysInside(g: Graph, a: string, b: string)
    requires a in Nodes(g) && Reaches(g, a, b)
    ensures b in Nodes(g)
  {
    var w :| WalkBetween(g, w, a, b);
    if |w| >= 2 {
      DepsAreNodes(g, w[|w| - 2]);
      assert Step(g, w, |w| - 2);
    }
  }

  lemma Onward(g: Graph, a: string, d: string, x: string)
    requires d in Deps(g, a) && Reaches(g, d, x)
    ensures Reaches(g, a, x)
  {
    var w :| WalkBetween(g, w, d, x);
    var longer := [a] + w;
    forall i | 0 <= i < |longer| - 1
      ensures Step(g, longer, i)
    {
      if i > 0 {
        assert Step(g, w, i - 1);
      }
    }
    assert WalkBetween(g, longer, a, x);
  }

  lemma ReachesItself(g: Graph, n: string)
    ensures Reaches(g, n, n)
  {
    assert WalkBetween(g, [n], n, n);
  }

  /** A visit marks only what can be reached from where it starts. */
  lemma {:induction false} VisitReaches(g: Graph, node: string, m: Marks, x: string)
    requires node in Nodes(g) && Visit(g, node, m).error.None?
    requires x in Visit(g, node, m).marks.visited && x !in m.visited
    ensures Reaches(g, node, x)
    decreases |Nodes(g) - m.temp|, 0
  {
    hide Nodes, Deps, Reaches;
    FewerLeft(Nodes(g), m.temp, node);
    DepsAreNodes(g, node);
    if x == node {
      ReachesItself(g, node);
    } else {
      var d := VisitAllReaches(g, Deps(g, node), m.(temp := m.temp + {node}), x);
      Onward(g, node, d, x);
    }
  }

  lemma {:induction false} VisitAllReaches(g: Graph, deps: seq<string>, m: Marks, x: string) returns (d: string)
    requires forall d :: d in deps ==> d in Nodes(g)
    requires VisitAll(g, deps, m).error.None?
    requires x in VisitAll(g, deps, m).marks.visited && x !in m.visited
    ensures d in deps && Reaches(g, d, x)
    decreases |Nodes(g) - m.temp|, |deps| + 1
  {
    hide Visit, Nodes, Reaches;
    var first := Visit(g, deps[0], m);
    if x in first.marks.visited {
      VisitReaches(g, deps[0], m, x);
      d := deps[0];
    } else {
      d := VisitAllReaches(g, deps[1..], first.marks, x);
    }
  }

  lemma VisitedAreNodes(g: Graph, deps: seq<string>, m: Marks)
    requires forall d :: d in deps ==> d in Nodes(g)
    requires VisitAll(g, deps, m).error.None?
    ensures forall x :: x in VisitAll(g, deps, m).marks.visited && x !in m.visited ==> x in Nodes(g)
  {
    hide Visit, VisitAll, Nodes, Reaches;
    forall x | x in VisitAll(g, deps, m).marks.visited && x !in m.visited
      ensures x in Nodes(g)
    {
      var d := VisitAllReaches(g, deps, m, x);
      WalkStaysInside(g, d, x);
    }
  }

  lemma {:induction false} ListingExists(s: set<string>) returns (keys: seq<string>)
    ensures Listing(keys, s)
    decreases s
  {
    if s == {} {
      keys := [];
    } else {
      var x :| x in s;
      keys := ListingExists(s - {x});
      keys := keys + [x];
    }
  }

  /** One module is sure to precede another, whatever order the keys come in, exactly when the other reaches it. */
  lemma PrecedesIffReached(g: Graph, a: string, b: string)
    requires !HasCycle(g) && a in g && b in Nodes(g) && a != b
    ensures Reaches(g, a, b)
            <==> forall keys | Listing(keys, g.Keys) :: Before(Order(g, keys).marks.order, b, a)
  {
    hide Visit, VisitAll, Nodes, HasCycle, Order, Reaches, Before;
    if Reaches(g, a, b) {
      forall keys | Listing(keys, g.Keys)
        ensures Before(Order(g, keys).marks.order, b, a)
      {
        ReachedPrecedes(g, a, b, keys);
      }
    } else {
      var keys := StartingWith(g, a);
      UnreachedFollows(g, a, b, keys);
    }
  }

  lemma ReachedPrecedes(g: Graph, a: string, b: string, keys: seq<string>)
    requires !HasCycle(g) && a in g && a != b && Reaches(g, a, b) && Listing(keys, g.Keys)
    ensures Before(Order(g, keys).marks.order, b, a)
  {
    assert forall w :: Walk(g, w) ==> |w| >= 1;
    hide Order, HasCycle, Topological, Walk;
    OrderIsExact(g, keys);
    var order := Order(g, keys).marks.order;
    var w :| WalkBetween(g, w, a, b);
    assert a in Nodes(g);
    var i :| 0 <= i < |order| && order[i] == a;
    WalkDescends(g, order, w, i);
  }

  lemma StartingWith(g: Graph, a: string) returns (keys: seq<string>)
    requires a in g
    ensures Listing(keys, g.Keys) && keys != [] && keys[0] == a
  {
    var rest := ListingExists(g.Keys - {a});
    keys := [a] + rest;
  }

  lemma UnreachedFollows(g: Graph, a: string, b: string, keys: seq<string>)
    requires !HasCycle(g) && a in g && a != b && !Reaches(g, a, b)
    requires Listing(keys, g.Keys) && keys != [] && keys[0] == a
    ensures !Before(Order(g, keys).marks.order, b, a)
  {
    assert a in Nodes(g);
    hide Visit, Nodes, HasCycle, Reaches;
    OrderIsExact(g, keys);
    var first := Visit(g, a, NO_MARKS);
    VisitKeeps(g, a, NO_MARKS);
    VisitAllKeeps(g, keys[1..], first.marks);
    var order := Order(g, keys).marks.order;
    assert order == VisitAll(g, keys[1..], first.marks).marks.order;
    if b in first.marks.visited {
      VisitReaches(g, a, NO_MARKS, b);
      assert false;
    }
    assert first.marks.order <= order;
    assert a in first.marks.order && b !in first.marks.order;
    var i :| 0 <= i < |first.marks.order| && first.marks.order[i] == a;
    assert order[i] == a && order[..i] == first.marks.order[..i];
    assert forall k :: 0 <= k < |order| && order[k] == a ==> k == i;
  }

  // The order of the visits: from the left.

  lemma {:induction false} VisitAllSplits(g: Graph, a: seq<string>, b: seq<string>, m: Marks)
    requires forall d :: d in a + b ==> d in Nodes(g)
    requires VisitAll(g, a + b, m).error.None?
    ensures (forall d :: d in a ==> d in Nodes(g)) && (forall d :: d in b ==> d in Nodes(g))
    ensures VisitAll(g, a, m).error.None? && VisitAll(g, b, VisitAll(g, a, m).marks) == VisitAll(g, a + b, m)
    decreases |a|
  {
    hide Visit, Nodes;
    assert forall d :: d in a || d in b ==> d in a + b;
    if a == [] {
      assert a + b == b;
    } else {
      assert (a + b)[0] == a[0] && (a + b)[1..] == a[1..] + b;
      VisitAllSplits(g, a[1..], b, Visit(g, a[0], m).marks);
    }
  }

  ghost predicate ReachedFrom(g: Graph, sources: seq<string>, x: string) {
    exists s :: s in sources && Reaches(g, s, x)
  }

  /** The first `i` modules are those that the sources reach. */
  ghost predicate Front(g: Graph, order: seq<string>, i: nat, sources: seq<string>) {
    i <= |order| && forall x :: x in order[..i] <==> ReachedFrom(g, sources, x)
  }

  lemma ReachedInOrder(g: Graph, order: seq<string>, s: string, x: string)
    requires Topological(g, order) && s in order && Reaches(g, s, x)
    ensures x in order
  {
    var w :| WalkBetween(g, w, s, x);
    var i :| 0 <= i < |order| && order[i] == s;
    if |w| >= 2 {
      WalkDescends(g, order, w, i);
    }
  }

  lemma FrontGrows(g: Graph, deps: seq<string>, m: Marks, sources: seq<string>)
    requires forall d :: d in deps ==> d in Nodes(g)
    requires Sorted(g, m) && Front(g, m.order, |m.order|, sources) && VisitAll(g, deps, m).error.None?
    ensures var after := VisitAll(g, deps, m).marks;
            Sorted(g, after) && m.order <= after.order && Front(g, after.order, |after.order|, sources + deps)
  {
    hide Visit, VisitAll, Nodes, Reaches, Topological;
    VisitAllKeeps(g, deps, m);
    var after := VisitAll(g, deps, m).marks;
    assert m.order[..|m.order|] == m.order && after.order[..|after.order|] == after.order;
    forall x
      ensures x in after.order <==> ReachedFrom(g, sources + deps, x)
    {
      if x in after.order && x !in m.visited {
        var d := VisitAllReaches(g, deps, m, x);
        assert d in sources + deps;
      } else if x in after.order {
        var s :| s in sources && Reaches(g, s, x);
        assert s in sources + deps;
      }
      if ReachedFrom(g, sources + deps, x) {
        var s :| s in sources + deps && Reaches(g, s, x);
        if s in sources {
          assert ReachedFrom(g, sources, x);
          assert x in m.order;
        } else {
          ReachedInOrder(g, after.order, s, x);
        }
      }
    }
  }

  lemma NothingInFront(g: Graph)
    ensures Front(g, [], 0, []) && Sorted(g, NO_MARKS)
  {
  }

  lemma StillFront(g: Graph, order: seq<string>, longer: seq<string>, i: nat, sources: seq<string>)
    requires Front(g, order, i, sources) && order <= longer
    ensures Front(g, longer, i, sources)
  {
    assert longer[..i] == order[..i];
  }

  lemma VisitUnmarked(g: Graph, n: string, m: Marks)
    requires n in Nodes(g) && n !in m.visited && Visit(g, n, m).error.None?
    ensures forall d :: d in Deps(g, n) ==> d in Nodes(g)
    ensures var inner := VisitAll(g, Deps(g, n), m.(temp := m.temp + {n}));
            inner.error.None? && Visit(g, n, m).marks.order == inner.marks.order + [n]
  {
    hide Nodes, Deps;
    DepsAreNodes(g, n);
    FewerLeft(Nodes(g), m.temp, n);
  }

  lemma VisitFromLeft(g: Graph, n: string, a: seq<string>, b: seq<string>, m: Marks, sources: seq<string>)
    returns (j: nat)
    requires n in Nodes(g) && Deps(g, n) == a + b && n !in m.visited && Visit(g, n, m).error.None?
    requires Sorted(g, m) && Front(g, m.order, |m.order|, sources)
    ensures var order := Visit(g, n, m).marks.order;
            && |m.order| <= j <= |order| - 1 && order[|order| - 1] == n && m.order <= order
            && Front(g, order, j, sources + a) && Front(g, order, |order| - 1, sources + a + b)
    ensures Sorted(g, Visit(g, n, m).marks)
  {
    hide Visit, VisitAll, Nodes, Sorted, Front, Deps;
    var marked := m.(temp := m.temp + {n});
    var order := Visit(g, n, m).marks.order;
    VisitKeeps(g, n, m);
    MarkingKeeps(g, m, n);
    VisitUnmarked(g, n, m);
    VisitAllSplits(g, a, b, marked);
    FrontGrows(g, a, marked, sources);
    var mid := VisitAll(g, a, marked).marks;
    FrontGrows(g, b, mid, sources + a);
    var inner := VisitAll(g, a + b, marked).marks;
    j := |mid.order|;
    StillFront(g, mid.order, order, j, sources + a);
    StillFront(g, inner.order, order, |inner.order|, sources + a + b);
  }

  lemma FrontMisses(g: Graph, m: Marks, sources: seq<string>, n: string)
    requires Sorted(g, m) && Front(g, m.order, |m.order|, sources) && !ReachedFrom(g, sources, n)
    ensures n !in m.visited
  {
    assert m.order[..|m.order|] == m.order;
  }

  lemma VisitFirst(g: Graph, n: string, rest: seq<string>, m: Marks)
    requires forall d :: d in [n] + rest ==> d in Nodes(g)
    requires VisitAll(g, [n] + rest, m).error.None?
    ensures n in Nodes(g) && (forall d :: d in rest ==> d in Nodes(g)) && Visit(g, n, m).error.None?
    ensures VisitAll(g, [n] + rest, m) == VisitAll(g, rest, Visit(g, n, m).marks)
  {
    hide Visit, Nodes;
    assert forall d :: d == n || d in rest ==> d in [n] + rest;
    assert ([n] + rest)[1..] == rest;
  }

  lemma OrderSucceeds(g: Graph, keys: seq<string>)
    requires Listing(keys, g.Keys) && !HasCycle(g)
    ensures forall d :: d in keys ==> d in Nodes(g)
    ensures VisitAll(g, keys, NO_MARKS).error.None? && Order(g, keys) == VisitAll(g, keys, NO_MARKS)
  {
    hide Visit, VisitAll, HasCycle;
    OrderIsExact(g, keys);
  }

  /** Keys and dependencies are visited from the left: what the keys before a module reach stands before all
      else, then what the first of its dependencies reach, then what the others reach, then the module. */
  lemma LeftToRight(g: Graph, before: seq<string>, n: string, a: seq<string>, b: seq<string>, rest: seq<string>)
    returns (i: nat, j: nat, k: nat)
    requires Listing(before + ([n] + rest), g.Keys) && Deps(g, n) == a + b
    requires !HasCycle(g) && !ReachedFrom(g, before, n)
    ensures var order := Order(g, before + ([n] + rest)).marks.order;
            && i <= j <= k < |order| && order[k] == n
            && Front(g, order, i, before) && Front(g, order, j, before + a) && Front(g, order, k, before + a + b)
  {
    hide Visit, VisitAll, Nodes, Listing, HasCycle, ReachedFrom, Sorted, Front, Order, Deps;
    var keys := before + ([n] + rest);
    var order := Order(g, keys).marks.order;
    OrderSucceeds(g, keys);
    VisitAllSplits(g, before, [n] + rest, NO_MARKS);
    var m := VisitAll(g, before, NO_MARKS).marks;
    NothingInFront(g);
    FrontGrows(g, before, NO_MARKS, []);
    assert [] + before == before;
    FrontMisses(g, m, before, n);
    VisitFirst(g, n, rest, m);
    var visited := Visit(g, n, m).marks;
    j := VisitFromLeft(g, n, a, b, m, before);
    VisitAllKeeps(g, rest, visited);
    i, k := |m.order|, |visited.order| - 1;
    StillFront(g, m.order, order, i, before);
    StillFront(g, visited.order, order, j, before + a);
    StillFront(g, visited.order, order, k, before + a + b);
  }
}
