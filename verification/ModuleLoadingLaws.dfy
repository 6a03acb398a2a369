/** What the module loader keeps over whole runs. */
module ModuleLoadingLaws {
  import opened Wrappers
  import opened ImportGraph
  import opened ModuleLoading

  // The import relation the files themselves define.

  /** `b` is used by the file of `a`, or holds the item that `a` names. */
  predicate Imports(fs: FileSystem, a: string, b: string) {
    match fs(a)
    case Some(Source(uses)) => b in uses
    case Some(_) => false
    case None => Host(fs, a) == Some(b)
  }

  predicate Hop(fs: FileSystem, w: seq<string>, i: nat)
    requires i + 1 < |w|
  {
    Imports(fs, w[i], w[i + 1])
  }

  predicate ImportWalk(fs: FileSystem, w: seq<string>) {
    |w| >= 1 && forall i :: 0 <= i < |w| - 1 ==> Hop(fs, w, i)
  }

  /** The module cannot be found, read or parsed. */
  predicate Broken(fs: FileSystem, ns: string) {
    match fs(ns)
    case None => Host(fs, ns).None?
    case Some(f) => !f.Source?
  }

  /** The module cannot be found or read. */
  predicate Unavailable(fs: FileSystem, ns: string) {
    match fs(ns)
    case None => Host(fs, ns).None?
    case Some(f) => f.Unreadable?
  }

  /** The walk ends in a broken module or in one it has passed already. */
  predicate Troubled(fs: FileSystem, w: seq<string>) {
    ImportWalk(fs, w) && (Broken(fs, w[|w| - 1]) || w[|w| - 1] in w[..|w| - 1])
  }

  // The loading stack.

  /** The two early returns that do not pop. */
  predicate Leaks(e: LoadError) {
    e.Unresolved? || e.ReadFailed?
  }

  /** A failed load leaves its own name on the stack exactly when the culprit was unresolved or unreadable. */
  lemma {:induction false} StackAfterFailure(fs: FileSystem, st: State, ns: string)
    requires Load(fs, st, ns).error.Some?
    ensures Load(fs, st, ns).state.stack
            == if Leaks(Load(fs, st, ns).error.value) then st.stack + [ns] else st.stack
    decreases Fuel(|st.stack|), 0
  {
    if |st.stack| <= MAX_RECURSION_DEPTH && ns !in st.stack {
      var entered := st.(stack := st.stack + [ns]);
      match fs(ns)
      case None =>
        if Host(fs, ns).Some? {
          StackAfterFailure(fs, entered, Host(fs, ns).value);
        }
      case Some(Source(uses)) =>
        var d := StackAfterFailures(fs, entered.(graph := entered.graph[ns := uses]), uses);
      case Some(_) =>
    }
  }

  lemma {:induction false} StackAfterFailures(fs: FileSystem, st: State, deps: seq<string>) returns (d: string)
    requires LoadAll(fs, st, deps).error.Some?
    ensures LoadAll(fs, st, deps).state.stack
            == if Leaks(LoadAll(fs, st, deps).error.value) then st.stack + [d] else st.stack
    decreases Fuel(|st.stack|), |deps| + 1
  {
    hide Load;
    var first := Load(fs, st, deps[0]);
    if first.error.Some? {
      StackAfterFailure(fs, st, deps[0]);
      d := deps[0];
    } else {
      d := StackAfterFailures(fs, first.state, deps[1..]);
    }
  }

  /** A second attempt at a leaked name is reported as a circular dependency, though there need not be one. */
  lemma LeakLooksCircular(fs: FileSystem, st: State, ns: string)
    requires Load(fs, st, ns).error.Some? && Leaks(Load(fs, st, ns).error.value)
    requires |st.stack| < MAX_RECURSION_DEPTH && ns !in Load(fs, st, ns).state.loaded
    ensures var again := Load(fs, st, ns).state; Load(fs, again, ns).error == Some(Circular(st.stack + [ns], ns))
  {
    hide Load;
    StackAfterFailure(fs, st, ns);
    var again := Load(fs, st, ns).state;
    assert again.stack[|st.stack|] == ns;
    LoadCircular(fs, again, ns);
  }

  lemma LoadCircular(fs: FileSystem, st: State, ns: string)
    requires ns !in st.loaded && |st.stack| <= MAX_RECURSION_DEPTH && ns in st.stack
    ensures Load(fs, st, ns) == Loading(st, Some(Circular(st.stack, ns)))
  {
  }

  // Item imports, and the depth limit.

  /** The parent of a name is what stands before its last dot, if it has one. */
  lemma {:induction false} ParentIsBeforeLastDot(p: string, s: string)
    requires '.' !in s
    ensures Parent(p + "." + s) == Some(p) && Parent(s) == None
  {
    var name := p + "." + s;
    if s == [] {
      assert name[..|name| - 1] == p;
    } else {
      var front := s[..|s| - 1];
      assert name[|name| - 1] == s[|s| - 1] && name[..|name| - 1] == p + "." + front;
      ParentIsBeforeLastDot(p, front);
    }
  }

  lemma LoadedBySuccess(fs: FileSystem, st: State, ns: string)
    ensures Load(fs, st, ns).error.None? ==> ns in Load(fs, st, ns).state.loaded
  {
  }

  /** A name p.s that is not found, with a module p that is, is loaded by loading p, whatever that comes to:
      with success both names are loaded and the stack is as before. */
  lemma ItemImport(fs: FileSystem, st: State, p: string, s: string)
    requires '.' !in s && fs(p + "." + s).None? && fs(p).Some?
    requires p + "." + s !in st.loaded && |st.stack| <= 33 && p + "." + s !in st.stack
    ensures var inner := Load(fs, st.(stack := st.stack + [p + "." + s]), p);
            var r := Load(fs, st, p + "." + s);
            && r.error == inner.error && r.state.graph == inner.state.graph && r.state.combined == inner.state.combined
            && (inner.error.None? ==>
                  r.state.loaded == inner.state.loaded + {p + "." + s} && p in r.state.loaded
                  && r.state.stack == st.stack)
  {
    ParentIsBeforeLastDot(p, s);
    LoadedBySuccess(fs, st.(stack := st.stack + [p + "." + s]), p);
    hide Parent;
  }

  /** A name that is not found, and whose part before the last dot is not found either or that has no dot,
      is unresolved. */
  lemma NoSuchModule(fs: FileSystem, st: State, p: string, s: string, ns: string)
    requires '.' !in s && (ns == s || (ns == p + "." + s && fs(p).None?)) && fs(ns).None?
    requires ns !in st.loaded && |st.stack| <= 33 && ns !in st.stack
    ensures Load(fs, st, ns) == Loading(st.(stack := st.stack + [ns]), Some(Unresolved(ns)))
  {
    ParentIsBeforeLastDot(p, s);
    hide Parent;
  }

  /** A module without imports loads exactly when at most 33 names are on the stack and it is none of them;
      the depth is looked at first. */
  lemma DepthLimit(fs: FileSystem, st: State, ns: string)
    requires ns !in st.loaded && fs(ns) == Some(Source([]))
    ensures Load(fs, st, ns).error
            == if |st.stack| > 33 then Some(TooDeep(ns))
               else if ns in st.stack then Some(Circular(st.stack, ns))
               else None
  {
  }

  // The order of the loads: from the left.

  lemma {:induction false} LoadAllSplits(fs: FileSystem, st: State, a: seq<string>, b: seq<string>)
    requires LoadAll(fs, st, a + b).error.None?
    ensures LoadAll(fs, st, a).error.None?
    ensures LoadAll(fs, LoadAll(fs, st, a).state, b) == LoadAll(fs, st, a + b)
    decreases |a|
  {
    hide Load;
    if a == [] {
      assert a + b == b;
    } else {
      assert (a + b)[0] == a[0] && (a + b)[1..] == a[1..] + b;
      LoadAllSplits(fs, Load(fs, st, a[0]).state, a[1..], b);
    }
  }

  /** The imports of a file are merged in the order in which they are written, and the file behind them. */
  lemma ImportsFromLeft(fs: FileSystem, st: State, ns: string, a: seq<string>, b: seq<string>)
    requires Consistent(fs, st) && ns !in st.loaded && fs(ns) == Some(Source(a + b)) && Load(fs, st, ns).error.None?
    ensures var recorded := State(st.loaded, st.stack + [ns], st.graph[ns := a + b], st.combined);
            var first := LoadAll(fs, recorded, a);
            var merged := Load(fs, st, ns).state.combined;
            && first.error.None? && (forall d :: d in a ==> d in first.state.loaded)
            && st.combined <= first.state.combined <= merged && merged[|merged| - 1] == ns
            && merged == LoadAll(fs, first.state, b).state.combined + [ns]
            && Load(fs, st, ns).state.graph.Keys >= {ns} && Load(fs, st, ns).state.graph[ns] == a + b
  {
    var recorded := State(st.loaded, st.stack + [ns], st.graph[ns := a + b], st.combined);
    assert |st.stack| <= MAX_RECURSION_DEPTH && ns !in st.stack;
    LoadKeeps(fs, st, ns);
    LoadFile(fs, st, ns, a + b);
    hide Load, LoadAll, UsesBefore, Provider;
    EnterKeeps(fs, st, ns, a + b);
    LoadAllSplits(fs, recorded, a, b);
    LoadAllKeeps(fs, recorded, a);
    var first := LoadAll(fs, recorded, a).state;
    LoadAllKeeps(fs, first, b);
  }

  // What is loaded.

  /** The module whose file answers to a name. */
  function Provider(fs: FileSystem, ns: string): string {
    if fs(ns).None? && Host(fs, ns).Some? then Host(fs, ns).value else ns
  }

  predicate UsesBefore(fs: FileSystem, combined: seq<string>, i: nat)
    requires i < |combined|
  {
    && fs(combined[i]).Some? && fs(combined[i]).value.Source?
    && forall d :: d in fs(combined[i]).value.uses ==> Provider(fs, d) in combined[..i]
  }

  /** Merged files are in order, each once, after all they use; loaded names are answered by merged files. */
  ghost predicate Consistent(fs: FileSystem, st: State) {
    && Distinct(st.combined)
    && (forall i :: 0 <= i < |st.combined| ==> UsesBefore(fs, st.combined, i))
    && (forall n :: n in st.combined ==> n in st.loaded && n in st.graph)
    && (forall n :: n in st.loaded ==> Provider(fs, n) in st.combined)
    && (forall n :: n in st.graph ==> fs(n) == Some(Source(st.graph[n])))
  }

  /** What one load may change. */
  ghost predicate Grows(before: State, after: State) {
    && before.loaded <= after.loaded
    && before.graph.Keys <= after.graph.Keys
    && before.combined <= after.combined
    && (forall n :: n in before.stack && n in after.loaded ==> n in before.loaded)
  }

  /** Nothing is recorded that was not also loaded in between. */
  ghost predicate Finishes(before: State, after: State) {
    forall n :: n in after.graph ==> n in before.graph || n in after.loaded
  }

  ghost predicate Kept(fs: FileSystem, st: State, ns: string, r: Loading) {
    && Consistent(fs, r.state)
    && Grows(st, r.state)
    && (r.error.None? ==> ns in r.state.loaded && Finishes(st, r.state))
  }

  lemma GrowsOn(a: State, b: State, c: State)
    requires Grows(a, b) && Grows(b, c) && a.stack == b.stack
    ensures Grows(a, c)
  {
  }

  lemma EnterKeeps(fs: FileSystem, st: State, ns: string, uses: seq<string>)
    requires Consistent(fs, st) && fs(ns) == Some(Source(uses))
    ensures Consistent(fs, State(st.loaded, st.stack + [ns], st.graph[ns := uses], st.combined))
  {
    hide UsesBefore, Provider;
    var after := st.graph[ns := uses];
    forall n | n in after
      ensures fs(n) == Some(Source(after[n]))
    {
    }
  }

  lemma FinishKeeps(fs: FileSystem, st: State, ns: string, stack: seq<string>)
    requires Consistent(fs, st) && ns !in st.loaded && ns in st.graph
    requires forall d :: d in st.graph[ns] ==> d in st.loaded
    ensures Consistent(fs, State(st.loaded + {ns}, stack, st.graph, st.combined + [ns]))
  {
    var after := st.combined + [ns];
    FinishOnce(fs, st, ns);
    hide Distinct, UsesBefore, Provider;
    MergedInOrder(fs, st, ns);
    forall n | n in st.loaded + {ns}
      ensures Provider(fs, n) in after
    {
      if n == ns {
        assert after[|st.combined|] == ns;
      } else {
        assert Provider(fs, n) in st.combined;
      }
    }
  }

  lemma FinishOnce(fs: FileSystem, st: State, ns: string)
    requires Consistent(fs, st) && ns !in st.loaded && ns in st.graph
    ensures Distinct(st.combined + [ns]) && Provider(fs, ns) == ns
  {
    hide UsesBefore;
    assert fs(ns) == Some(Source(st.graph[ns]));
  }

  lemma MergedInOrder(fs: FileSystem, st: State, ns: string)
    requires Consistent(fs, st) && ns in st.graph
    requires forall d :: d in st.graph[ns] ==> d in st.loaded
    ensures forall i :: 0 <= i < |st.combined| + 1 ==> UsesBefore(fs, st.combined + [ns], i)
  {
    hide Distinct, Provider;
    var after := st.combined + [ns];
    forall i | 0 <= i < |after|
      ensures UsesBefore(fs, after, i)
    {
      if i < |st.combined| {
        assert UsesBefore(fs, st.combined, i);
        assert after[..i] == st.combined[..i];
      } else {
        assert after[..i] == st.combined;
        assert fs(ns) == Some(Source(st.graph[ns]));
      }
    }
  }

  /** Every load, also a failing one, keeps the invariant; one that succeeds leaves nothing half done. */
  lemma {:induction false} LoadKeeps(fs: FileSystem, st: State, ns: string)
    requires Consistent(fs, st)
    ensures Kept(fs, st, ns, Load(fs, st, ns))
    decreases Fuel(|st.stack|), 0
  {
    hide Consistent, Provider, UsesBefore, LoadAll;
    if ns in st.loaded || |st.stack| > MAX_RECURSION_DEPTH || ns in st.stack {
      return;
    }
    var entered := st.(stack := st.stack + [ns]);
    StackOnly(fs, st, entered.stack);
    match fs(ns)
    case None =>
      if Host(fs, ns).Some? {
        LoadItemKeeps(fs, st, ns, Host(fs, ns).value);
      }
    case Some(Source(uses)) => LoadFileKeeps(fs, st, ns, uses);
    case Some(_) =>
  }

  lemma StackOnly(fs: FileSystem, st: State, stack: seq<string>)
    requires Consistent(fs, st)
    ensures Consistent(fs, st.(stack := stack))
  {
  }

  lemma {:induction false} LoadItemKeeps(fs: FileSystem, st: State, ns: string, p: string)
    requires Consistent(fs, st) && fs(ns).None? && Host(fs, ns) == Some(p)
    requires ns !in st.loaded && |st.stack| <= MAX_RECURSION_DEPTH && ns !in st.stack
    ensures Kept(fs, st, ns, Load(fs, st, ns))
    decreases Fuel(|st.stack| + 1), 1
  {
    hide Consistent, Load, Pop, Grows, Finishes, Kept;
    var entered := st.(stack := st.stack + [ns]);
    StackOnly(fs, st, entered.stack);
    LoadKeeps(fs, entered, p);
    LoadItem(fs, st, ns, p);
    var inner := Load(fs, entered, p);
    ItemKeeps(fs, st, inner, ns, p);
  }

  lemma LoadItem(fs: FileSystem, st: State, ns: string, p: string)
    requires fs(ns).None? && Host(fs, ns) == Some(p)
    requires ns !in st.loaded && |st.stack| <= MAX_RECURSION_DEPTH && ns !in st.stack
    ensures Load(fs, st, ns) == AfterItem(Load(fs, st.(stack := st.stack + [ns]), p), ns)
  {
    hide Host;
  }

  function AfterItem(inner: Loading, ns: string): Loading {
    var loaded := if inner.error.None? then inner.state.loaded + {ns} else inner.state.loaded;
    Loading(inner.state.(loaded := loaded, stack := Pop(inner.state.stack)), inner.error)
  }

  lemma ItemKeeps(fs: FileSystem, st: State, inner: Loading, ns: string, p: string)
    requires fs(ns).None? && Host(fs, ns) == Some(p) && fs(p).Some? && ns !in st.stack
    requires Kept(fs, st.(stack := st.stack + [ns]), p, inner)
    ensures Kept(fs, st, ns, AfterItem(inner, ns))
  {
    hide Consistent, Host, Pop, Grows;
    var after := AfterItem(inner, ns).state;
    StackOnly(fs, inner.state, after.stack);
    if inner.error.None? {
      AlsoLoaded(fs, inner.state.(stack := after.stack), ns, p);
    }
    BackOut(st, st.(stack := st.stack + [ns]), inner.state, after, ns);
  }

  lemma AlsoLoaded(fs: FileSystem, st: State, ns: string, p: string)
    requires Consistent(fs, st) && p in st.loaded && Provider(fs, ns) == Provider(fs, p)
    ensures Consistent(fs, st.(loaded := st.loaded + {ns}))
  {
    hide UsesBefore, Provider;
  }

  /** Leaving a module again: what was done below it counts as done by it. */
  lemma BackOut(st: State, entered: State, inner: State, after: State, ns: string)
    requires Grows(entered, inner) && ns !in st.stack
    requires entered.stack == st.stack + [ns] && entered.loaded == st.loaded && entered.combined == st.combined
    requires st.graph.Keys <= entered.graph.Keys && after.graph == inner.graph
    requires inner.loaded <= after.loaded <= inner.loaded + {ns}
    requires inner.combined <= after.combined
    ensures Grows(st, after)
  {
    assert forall n | n in st.stack :: n in entered.stack && n != ns;
  }

  lemma {:induction false} LoadFileKeeps(fs: FileSystem, st: State, ns: string, uses: seq<string>)
    requires Consistent(fs, st) && fs(ns) == Some(Source(uses))
    requires ns !in st.loaded && |st.stack| <= MAX_RECURSION_DEPTH && ns !in st.stack
    ensures Kept(fs, st, ns, Load(fs, st, ns))
    decreases Fuel(|st.stack| + 1), |uses| + 2
  {
    hide Consistent, Load, LoadAll, Pop, Grows, Finishes, Kept;
    var recorded := State(st.loaded, st.stack + [ns], st.graph[ns := uses], st.combined);
    EnterKeeps(fs, st, ns, uses);
    LoadAllKeeps(fs, recorded, uses);
    LoadFile(fs, st, ns, uses);
    FileKeeps(fs, st, LoadAll(fs, recorded, uses), ns, uses);
  }

  lemma LoadFile(fs: FileSystem, st: State, ns: string, uses: seq<string>)
    requires fs(ns) == Some(Source(uses))
    requires ns !in st.loaded && |st.stack| <= MAX_RECURSION_DEPTH && ns !in st.stack
    ensures Load(fs, st, ns)
            == AfterFile(LoadAll(fs, State(st.loaded, st.stack + [ns], st.graph[ns := uses], st.combined), uses), ns)
  {
    hide LoadAll;
  }

  function AfterFile(inner: Loading, ns: string): Loading {
    var st := inner.state;
    if inner.error.Some? then Loading(st.(stack := Pop(st.stack)), inner.error)
    else Loading(State(st.loaded + {ns}, Pop(st.stack), st.graph, st.combined + [ns]), None)
  }

  lemma FileKeeps(fs: FileSystem, st: State, inner: Loading, ns: string, uses: seq<string>)
    requires fs(ns) == Some(Source(uses)) && ns !in st.loaded && ns !in st.stack
    requires var recorded := State(st.loaded, st.stack + [ns], st.graph[ns := uses], st.combined);
             Consistent(fs, inner.state) && Grows(recorded, inner.state)
             && (inner.error.None?
                 ==> (forall d :: d in uses ==> d in inner.state.loaded) && Finishes(recorded, inner.state))
    ensures Kept(fs, st, ns, AfterFile(inner, ns))
  {
    hide Consistent, Pop, Grows;
    var recorded := State(st.loaded, st.stack + [ns], st.graph[ns := uses], st.combined);
    var after := AfterFile(inner, ns).state;
    BackOut(st, recorded, inner.state, after, ns);
    if inner.error.Some? {
      StackOnly(fs, inner.state, after.stack);
    } else {
      StillUnfinished(fs, recorded, inner.state, ns, uses);
      FinishKeeps(fs, inner.state, ns, after.stack);
    }
  }

  lemma StillUnfinished(fs: FileSystem, recorded: State, inner: State, ns: string, uses: seq<string>)
    requires Consistent(fs, inner) && Grows(recorded, inner) && ns !in recorded.loaded
    requires fs(ns) == Some(Source(uses)) && ns in recorded.graph && ns in recorded.stack
    ensures ns !in inner.loaded && ns in inner.graph && inner.graph[ns] == uses
  {
    hide UsesBefore, Provider;
  }

  lemma {:induction false} LoadAllKeeps(fs: FileSystem, st: State, deps: seq<string>)
    requires Consistent(fs, st)
    ensures var r := LoadAll(fs, st, deps);
            Consistent(fs, r.state) && Grows(st, r.state)
            && (r.error.None? ==> (forall d :: d in deps ==> d in r.state.loaded) && Finishes(st, r.state))
    decreases Fuel(|st.stack|), |deps| + 1
  {
    hide Consistent, Load;
    if deps != [] {
      LoadKeeps(fs, st, deps[0]);
      var first := Load(fs, st, deps[0]);
      if first.error.None? {
        LoadAllKeeps(fs, first.state, deps[1..]);
        GrowsOn(st, first.state, LoadAll(fs, first.state, deps[1..]).state);
      }
    }
  }

  /** Over every session, failures included, the loader stays consistent. */
  lemma {:induction false} SessionKeeps(fs: FileSystem, st: State, imports: seq<string>)
    requires Consistent(fs, st)
    ensures Consistent(fs, Session(fs, st, imports))
    decreases |imports|
  {
    hide Consistent, Load;
    if imports != [] {
      LoadKeeps(fs, st, imports[0]);
      SessionKeeps(fs, Load(fs, st, imports[0]).state, imports[1..]);
    }
  }

  lemma StartIsConsistent(fs: FileSystem)
    ensures Consistent(fs, NOTHING_LOADED)
  {
  }

  lemma {:induction false} SessionWithoutFailure(fs: FileSystem, st: State, imports: seq<string>)
    requires LoadAll(fs, st, imports).error.None?
    ensures Session(fs, st, imports) == LoadAll(fs, st, imports).state
    decreases |imports|
  {
    hide Load;
    if imports != [] {
      SessionWithoutFailure(fs, Load(fs, st, imports[0]).state, imports[1..]);
    }
  }

  // Acyclicity.

  predicate Available(fs: FileSystem, st: State, n: string) {
    Provider(fs, n) in st.combined
  }

  /** The place of the file that answers to a name; an item stands just after its module. */
  lemma StepDown(fs: FileSystem, st: State, a: string, b: string, i: nat) returns (j: nat)
    requires Consistent(fs, st) && Imports(fs, a, b)
    requires i < |st.combined| && st.combined[i] == Provider(fs, a)
    ensures j < |st.combined| && st.combined[j] == Provider(fs, b)
    ensures j <= i && (j == i ==> fs(a).None? && fs(b).Some?)
  {
    if fs(a).None? {
      j := i;
    } else {
      assert UsesBefore(fs, st.combined, i);
      assert Provider(fs, b) in st.combined[..i];
      j :| 0 <= j < i && st.combined[j] == Provider(fs, b);
    }
  }

  lemma {:induction false} WalkDown(fs: FileSystem, st: State, w: seq<string>, i: nat) returns (j: nat)
    requires Consistent(fs, st) && ImportWalk(fs, w)
    requires i < |st.combined| && st.combined[i] == Provider(fs, w[0])
    ensures j < |st.combined| && st.combined[j] == Provider(fs, w[|w| - 1])
    ensures j <= i
    ensures |w| >= 2 && j == i ==> fs(w[0]).None? && fs(w[|w| - 1]).Some?
    decreases |w|
  {
    hide Consistent, Provider, Imports;
    if |w| == 1 {
      j := i;
    } else {
      assert Hop(fs, w, 0);
      var k := StepDown(fs, st, w[0], w[1], i);
      forall n | 0 <= n < |w| - 2
        ensures Hop(fs, w[1..], n)
      {
        assert Hop(fs, w, n + 1);
      }
      j := WalkDown(fs, st, w[1..], k);
    }
  }

  lemma MergedIsWhole(fs: FileSystem, st: State, n: string, j: nat)
    requires Consistent(fs, st) && j < |st.combined| && st.combined[j] == Provider(fs, n)
    ensures !Broken(fs, n)
  {
    assert UsesBefore(fs, st.combined, j);
  }

  /** From what is loaded no walk along imports gets into trouble. */
  lemma NoTroubleFromLoaded(fs: FileSystem, st: State, w: seq<string>)
    requires Consistent(fs, st) && |w| >= 1 && Available(fs, st, w[0])
    ensures !Troubled(fs, w)
  {
    hide Consistent;
    var i :| 0 <= i < |st.combined| && st.combined[i] == Provider(fs, w[0]);
    if ImportWalk(fs, w) {
      var j := WalkDown(fs, st, w, i);
      var last := w[|w| - 1];
      MergedIsWhole(fs, st, last, j);
      if last in w[..|w| - 1] {
        var k :| 0 <= k < |w| - 1 && w[k] == last;
        NoCircle(fs, st, w, k, i);
        assert false;
      }
    }
  }

  lemma NoCircle(fs: FileSystem, st: State, w: seq<string>, k: nat, i: nat)
    requires Consistent(fs, st) && ImportWalk(fs, w) && k < |w| - 1
    requires i < |st.combined| && st.combined[i] == Provider(fs, w[0])
    ensures w[k] != w[|w| - 1]
  {
    hide Consistent, ImportWalk, Provider, Imports;
    var last := |w| - 1;
    SubWalk(fs, w, 0, k);
    SubWalk(fs, w, k, last);
    var m := WalkDown(fs, st, w[0..k + 1], i);
    var n := WalkDown(fs, st, w[k..last + 1], m);
    MergedOnce(fs, st, m, n);
  }

  lemma MergedOnce(fs: FileSystem, st: State, m: nat, n: nat)
    requires Consistent(fs, st) && n <= m < |st.combined|
    ensures st.combined[n] == st.combined[m] ==> n == m
  {
  }

  lemma SubWalk(fs: FileSystem, w: seq<string>, a: nat, b: nat)
    requires ImportWalk(fs, w) && a <= b < |w|
    ensures ImportWalk(fs, w[a..b + 1])
    ensures w[a..b + 1][0] == w[a] && w[a..b + 1][b - a] == w[b]
  {
    hide Imports;
    var part := w[a..b + 1];
    forall i | 0 <= i < |part| - 1
      ensures Hop(fs, part, i)
    {
      assert Hop(fs, w, a + i);
    }
  }

  // Errors.

  /** The walk from the bottom of the stack to the culprit that an error reports on. */
  predicate Explains(fs: FileSystem, e: LoadError, w: seq<string>) {
    && ImportWalk(fs, w)
    && Distinct(w[..|w| - 1])
    && w[|w| - 1] == e.ns
    && match e
       case TooDeep(_) => |w| > MAX_RECURSION_DEPTH + 1
       case Circular(path, _) => w == path + [e.ns] && e.ns in path
       case ParseFailed(_) => fs(e.ns) == Some(Unparsable)
       case ReadFailed(_) => fs(e.ns) == Some(Unreadable)
       case Unresolved(_) => fs(e.ns).None? && Host(fs, e.ns).None?
  }

  /** Every error names a real culprit at the end of a real walk along imports. */
  lemma {:induction false} ErrorsAreReal(fs: FileSystem, st: State, ns: string) returns (w: seq<string>)
    requires Load(fs, st, ns).error.Some?
    requires ImportWalk(fs, st.stack + [ns]) && Distinct(st.stack)
    ensures Explains(fs, Load(fs, st, ns).error.value, w) && st.stack + [ns] <= w
    decreases Fuel(|st.stack|), 0
  {
    w := st.stack + [ns];
    assert w[..|w| - 1] == st.stack;
    if |st.stack| > MAX_RECURSION_DEPTH || ns in st.stack || Broken(fs, ns) {
      return;
    }
    assert Host(fs, ns).Some? || fs(ns).Some?;
    hide LoadAll, Explains, ImportWalk, Host;
    assert Distinct(w);
    match fs(ns)
    case None =>
      var p := Host(fs, ns).value;
      assert w[|w| - 1] == ns;
      LongerImportWalk(fs, w, p);
      w := ErrorsAreReal(fs, st.(stack := st.stack + [ns]), p);
    case Some(Source(uses)) =>
      var recorded := State(st.loaded, st.stack + [ns], st.graph[ns := uses], st.combined);
      w := ErrorsAreRealForAll(fs, recorded, uses);
  }

  lemma LongerImportWalk(fs: FileSystem, w: seq<string>, d: string)
    requires ImportWalk(fs, w) && Imports(fs, w[|w| - 1], d)
    ensures ImportWalk(fs, w + [d])
  {
    hide Imports;
    forall i | 0 <= i < |w|
      ensures Hop(fs, w + [d], i)
    {
      if i < |w| - 1 {
        assert Hop(fs, w, i);
      }
    }
  }

  lemma {:induction false} ErrorsAreRealForAll(fs: FileSystem, st: State, deps: seq<string>)
    returns (w: seq<string>)
    requires LoadAll(fs, st, deps).error.Some?
    requires ImportWalk(fs, st.stack) && Distinct(st.stack)
    requires forall d :: d in deps ==> Imports(fs, st.stack[|st.stack| - 1], d)
    ensures Explains(fs, LoadAll(fs, st, deps).error.value, w) && st.stack <= w
    decreases Fuel(|st.stack|), |deps| + 1
  {
    assert |st.stack| >= 1;
    hide Load, ImportWalk, Imports;
    assert deps[0] in deps;
    var first := Load(fs, st, deps[0]);
    if first.error.Some? {
      LongerImportWalk(fs, st.stack, deps[0]);
      w := ErrorsAreReal(fs, st, deps[0]);
    } else {
      assert forall d | d in deps[1..] :: d in deps;
      w := ErrorsAreRealForAll(fs, first.state, deps[1..]);
    }
  }

  /** No simple import walk from the module is longer than the limit. */
  ghost predicate Shallow(fs: FileSystem, ns: string) {
    forall w :: ImportWalk(fs, w) && Distinct(w) && w[0] == ns ==> |w| <= MAX_RECURSION_DEPTH + 1
  }

  /** No walk from the module meets a broken module or closes a circle. */
  ghost predicate Untroubled(fs: FileSystem, ns: string) {
    forall w :: |w| >= 1 && w[0] == ns ==> !Troubled(fs, w)
  }

  /** On an empty stack a load that succeeds has met no trouble, and where no simple import walk is
      longer than the limit it succeeds exactly then. */
  lemma LoadSucceedsExactly(fs: FileSystem, st: State, ns: string)
    requires Consistent(fs, st) && st.stack == []
    ensures Load(fs, st, ns).error.None? ==> Untroubled(fs, ns)
    ensures Shallow(fs, ns) && Untroubled(fs, ns) ==> Load(fs, st, ns).error.None?
  {
    hide Consistent, Load, Explains, Troubled, ImportWalk, Provider;
    LoadKeeps(fs, st, ns);
    var r := Load(fs, st, ns);
    if r.error.None? {
      LoadedIsAvailable(fs, r.state, ns);
      forall w | |w| >= 1 && w[0] == ns
        ensures !Troubled(fs, w)
      {
        NoTroubleFromLoaded(fs, r.state, w);
      }
    } else {
      ShortWalk(fs, ns);
      assert st.stack + [ns] == [ns];
      var w := ErrorsAreReal(fs, st, ns);
      assert w[0] == (st.stack + [ns])[0];
      ExplainsByWalk(fs, r.error.value, w);
      if Distinct(w) ==> |w| <= MAX_RECURSION_DEPTH + 1 {
        ExplainedTrouble(fs, r.error.value, w);
      }
    }
  }

  /** An import walk from the module to one that cannot be found or read. */
  predicate LeakyWalk(fs: FileSystem, ns: string, w: seq<string>) {
    ImportWalk(fs, w) && w[0] == ns && Unavailable(fs, w[|w| - 1])
  }

  lemma LeakyWalkFrom(fs: FileSystem, ns: string, d: string, w: seq<string>)
    requires Imports(fs, ns, d) && LeakyWalk(fs, d, w)
    ensures LeakyWalk(fs, ns, [ns] + w)
  {
    hide Imports, Unavailable;
    var longer := [ns] + w;
    forall i | 0 <= i < |longer| - 1
      ensures Hop(fs, longer, i)
    {
      assert i > 0 ==> Hop(fs, w, i - 1);
    }
  }

  /** Whatever is on the stack, a name is left there only by a walk to such a module. */
  lemma {:induction false} LeakIsReached(fs: FileSystem, st: State, ns: string) returns (w: seq<string>)
    requires Load(fs, st, ns).error.Some? && Leaks(Load(fs, st, ns).error.value)
    ensures LeakyWalk(fs, ns, w)
    decreases Fuel(|st.stack|), 0
  {
    var entered := st.(stack := st.stack + [ns]);
    w := [ns];
    match fs(ns)
    case None =>
      if Host(fs, ns).Some? {
        var p := Host(fs, ns).value;
        w := LeakIsReached(fs, entered, p);
        LeakyWalkFrom(fs, ns, p, w);
        w := [ns] + w;
      }
    case Some(Source(uses)) =>
      var d, v := LeakIsReachedByOne(fs, entered.(graph := entered.graph[ns := uses]), uses);
      LeakyWalkFrom(fs, ns, d, v);
      w := [ns] + v;
    case Some(_) =>
  }

  lemma {:induction false} LeakIsReachedByOne(fs: FileSystem, st: State, deps: seq<string>)
    returns (d: string, w: seq<string>)
    requires LoadAll(fs, st, deps).error.Some? && Leaks(LoadAll(fs, st, deps).error.value)
    ensures d in deps && LeakyWalk(fs, d, w)
    decreases Fuel(|st.stack|), |deps| + 1
  {
    hide Load, LeakyWalk;
    var first := Load(fs, st, deps[0]);
    if first.error.Some? {
      d := deps[0];
      w := LeakIsReached(fs, st, d);
    } else {
      d, w := LeakIsReachedByOne(fs, first.state, deps[1..]);
    }
  }

  /** Where no import walk from the module ends in one that cannot be found or read, the loading
      stack is as before, whatever is on it and whether the load succeeds or not. */
  lemma StackRestored(fs: FileSystem, st: State, ns: string)
    requires forall w :: !LeakyWalk(fs, ns, w)
    ensures Load(fs, st, ns).state.stack == st.stack
  {
    hide Load, LeakyWalk;
    if Load(fs, st, ns).error.Some? {
      StackAfterFailure(fs, st, ns);
      if Leaks(Load(fs, st, ns).error.value) {
        var w := LeakIsReached(fs, st, ns);
      }
    }
  }

  lemma ErrorOnEmptyStack(fs: FileSystem, st: State, ns: string) returns (w: seq<string>)
    requires st.stack == [] && Load(fs, st, ns).error.Some?
    ensures |w| >= 1 && w[0] == ns && Explains(fs, Load(fs, st, ns).error.value, w)
  {
    hide Load, ImportWalk, Explains;
    ShortWalk(fs, ns);
    assert st.stack + [ns] == [ns];
    w := ErrorsAreReal(fs, st, ns);
    assert w[0] == (st.stack + [ns])[0];
  }

  /** Where that is the only trouble there can be, the name is left on the stack exactly when some
      import walk ends in such a module. */
  lemma StackLeaksExactly(fs: FileSystem, st: State, ns: string)
    requires Consistent(fs, st) && st.stack == [] && Shallow(fs, ns)
    requires forall w :: |w| >= 1 && w[0] == ns && Troubled(fs, w) ==> LeakyWalk(fs, ns, w)
    ensures Load(fs, st, ns).state.stack == [ns] <==> exists w :: LeakyWalk(fs, ns, w)
  {
    hide Load, ImportWalk, Explains, LeakyWalk, Consistent, Troubled;
    if leaky :| LeakyWalk(fs, ns, leaky) {
      LeakIsTrouble(fs, ns, leaky);
      LoadSucceedsExactly(fs, st, ns);
      var w := ErrorOnEmptyStack(fs, st, ns);
      ExplainsByWalk(fs, Load(fs, st, ns).error.value, w);
      OnlyLeaksLeft(fs, Load(fs, st, ns).error.value, w);
      StackAfterFailure(fs, st, ns);
    } else {
      StackRestored(fs, st, ns);
    }
  }

  lemma LeakIsTrouble(fs: FileSystem, ns: string, w: seq<string>)
    requires LeakyWalk(fs, ns, w)
    ensures |w| >= 1 && w[0] == ns && Troubled(fs, w)
  {
  }

  /** A module that a walk has passed is available. */
  lemma PassedIsAvailable(fs: FileSystem, w: seq<string>)
    requires ImportWalk(fs, w) && w[|w| - 1] in w[..|w| - 1]
    ensures !Unavailable(fs, w[|w| - 1])
  {
    var k :| 0 <= k < |w| - 1 && w[k] == w[|w| - 1];
    assert Hop(fs, w, k);
  }

  lemma OnlyLeaksLeft(fs: FileSystem, e: LoadError, w: seq<string>)
    requires |w| >= 1 && Explains(fs, e, w) && (Distinct(w) ==> |w| <= MAX_RECURSION_DEPTH + 1)
    requires Troubled(fs, w) ==> LeakyWalk(fs, w[0], w)
    ensures Leaks(e)
  {
    ExplainedTrouble(fs, e, w);
    assert Unavailable(fs, w[|w| - 1]);
    hide ImportWalk, Unavailable;
    ExplainsByWalk(fs, e, w);
    assert e.Circular? ==> w[..|w| - 1] == e.path;
    NotParsedIsAvailable(fs, w[|w| - 1]);
    if w[|w| - 1] in w[..|w| - 1] {
      PassedIsAvailable(fs, w);
      assert false;
    }
  }

  lemma NotParsedIsAvailable(fs: FileSystem, ns: string)
    ensures fs(ns) == Some(Unparsable) ==> !Unavailable(fs, ns)
  {
  }

  /** One file: m imports a module that is not there. */
  function OneFile(): FileSystem {
    ns => if ns == "m" then Some(Source(["gone"])) else None
  }

  /** Loading m leaves m on the stack, and loading it again is called circular, though no file
      imports itself by any way. */
  lemma RetryLooksCircular()
    ensures var first := Load(OneFile(), NOTHING_LOADED, "m");
            && first == Loading(State({}, ["m"], map["m" := ["gone"]], []), Some(Unresolved("gone")))
            && Load(OneFile(), first.state, "m").error == Some(Circular(["m"], "m"))
    ensures forall w :: ImportWalk(OneFile(), w) && w[0] == "m" ==> Distinct(w)
  {
    hide Load, LoadAll;
    var fs := OneFile();
    var one := State({}, ["m"], map["m" := ["gone"]], []);
    assert State({}, [] + ["m"], NOTHING_LOADED.graph["m" := ["gone"]], []) == one;
    LoadFile(fs, NOTHING_LOADED, "m", ["gone"]);
    GoneIsUnresolved(one);
    LoadCircular(fs, one, "m");
    forall w | ImportWalk(fs, w) && w[0] == "m"
      ensures Distinct(w)
    {
      assert |w| >= 2 ==> Hop(fs, w, 0);
      if |w| >= 3 {
        NothingBehindGone(w, 1);
      }
    }
  }

  lemma NothingBehindGone(w: seq<string>, i: nat)
    requires i + 1 < |w| && w[i] == "gone"
    ensures !Hop(OneFile(), w, i)
  {
    GoneIsUnresolved(State({}, ["m"], map["m" := ["gone"]], []));
  }

  lemma GoneIsUnresolved(one: State)
    requires one == State({}, ["m"], map["m" := ["gone"]], [])
    ensures LoadAll(OneFile(), one, ["gone"]) == Loading(one.(stack := ["m", "gone"]), Some(Unresolved("gone")))
    ensures Host(OneFile(), "gone") == None
  {
    assert "gone"[..3] == "gon" && "gon"[..2] == "go" && "go"[..1] == "g" && "g"[..0] == "";
    assert Parent("") == None;
    assert Parent("g") == None;
    assert Parent("go") == None;
    assert Parent("gon") == None;
    assert Parent("gone") == None;
    assert one.stack + ["gone"] == ["m", "gone"];
    assert Load(OneFile(), one, "gone") == Loading(one.(stack := ["m", "gone"]), Some(Unresolved("gone")));
  }

  lemma LoadedIsAvailable(fs: FileSystem, st: State, n: string)
    requires Consistent(fs, st) && n in st.loaded
    ensures Available(fs, st, n)
  {
    hide UsesBefore, Provider;
  }

  lemma ShortWalk(fs: FileSystem, n: string)
    ensures ImportWalk(fs, [n])
  {
  }

  lemma ExplainsByWalk(fs: FileSystem, e: LoadError, w: seq<string>)
    requires |w| >= 1 && Explains(fs, e, w)
    ensures ImportWalk(fs, w)
  {
  }

  lemma ExplainedTrouble(fs: FileSystem, e: LoadError, w: seq<string>)
    requires |w| >= 1 && Explains(fs, e, w) && (Distinct(w) ==> |w| <= MAX_RECURSION_DEPTH + 1)
    ensures Troubled(fs, w)
  {
    hide ImportWalk;
    assert w[|w| - 1] in w[..|w| - 1] || Distinct(w);
    if e.Circular? {
      assert w[..|w| - 1] == e.path;
    }
  }

  // The compilation order after a session.

  /** When every load succeeds the stack is empty again, the recorded graph is acyclic, the sort
      succeeds, and every import is merged. */
  lemma CleanSession(fs: FileSystem, imports: seq<string>, keys: seq<string>)
    requires LoadAll(fs, NOTHING_LOADED, imports).error.None?
    requires Listing(keys, Session(fs, NOTHING_LOADED, imports).graph.Keys)
    ensures var st := Session(fs, NOTHING_LOADED, imports);
            && st.stack == []
            && !HasCycle(st.graph)
            && Order(st.graph, keys).error.None?
            && Listing(st.combined, st.graph.Keys)
            && forall n :: n in imports ==> Provider(fs, n) in st.combined
  {
    hide Consistent, Load, LoadAll, Order;
    SessionWithoutFailure(fs, NOTHING_LOADED, imports);
    StartIsConsistent(fs);
    LoadAllKeeps(fs, NOTHING_LOADED, imports);
    var st := Session(fs, NOTHING_LOADED, imports);
    MergedAreRecorded(fs, st);
    forall n | n in imports
      ensures Provider(fs, n) in st.combined
    {
      LoadedIsAvailable(fs, st, n);
    }
    forall w
      ensures !Cycle(st.graph, w)
    {
      RecordedIsAcyclic(fs, st, w);
    }
    OrderIsExact(st.graph, keys);
  }

  lemma MergedAreRecorded(fs: FileSystem, st: State)
    requires Consistent(fs, st) && Finishes(NOTHING_LOADED, st)
    ensures Listing(st.combined, st.graph.Keys)
  {
    hide UsesBefore;
    forall k | k in st.graph.Keys
      ensures k in st.combined
    {
      assert fs(k) == Some(Source(st.graph[k]));
      assert Provider(fs, k) == k;
    }
    forall k | k in st.combined
      ensures k in st.graph.Keys
    {
      assert k in st.graph;
    }
  }

  lemma RecordedIsAvailable(fs: FileSystem, st: State, n: string)
    requires Consistent(fs, st) && Listing(st.combined, st.graph.Keys) && n in st.graph
    ensures Available(fs, st, n)
  {
    hide UsesBefore;
    assert fs(n) == Some(Source(st.graph[n]));
  }

  lemma RecordedIsAcyclic(fs: FileSystem, st: State, w: seq<string>)
    requires Consistent(fs, st) && Listing(st.combined, st.graph.Keys)
    ensures !Cycle(st.graph, w)
  {
    hide Consistent, ImportWalk, Listing;
    if Cycle(st.graph, w) {
      assert Step(st.graph, w, 0);
      assert w[0] in st.graph;
      RecordedWalk(fs, st, w);
      RecordedIsAvailable(fs, st, w[0]);
      assert w[..|w| - 1][0] == w[|w| - 1];
      NoTroubleFromLoaded(fs, st, w);
      assert false;
    }
  }

  lemma RecordedWalk(fs: FileSystem, st: State, w: seq<string>)
    requires Consistent(fs, st) && Walk(st.graph, w)
    ensures ImportWalk(fs, w)
  {
    hide UsesBefore, Provider;
    forall i | 0 <= i < |w| - 1
      ensures Hop(fs, w, i)
    {
      assert Step(st.graph, w, i);
    }
  }

  // Item imports.

  /** In the order made after a clean session the file behind an import is sure to come first
      exactly when the recorded edges lead to it. */
  lemma ProviderPrecedesIff(fs: FileSystem, imports: seq<string>, m: string, d: string)
    requires LoadAll(fs, NOTHING_LOADED, imports).error.None?
    requires var g := Session(fs, NOTHING_LOADED, imports).graph; m in g && d in g[m]
    ensures var g := Session(fs, NOTHING_LOADED, imports).graph;
            Reaches(g, m, Provider(fs, d))
            <==> forall keys | Listing(keys, g.Keys) :: Before(Order(g, keys).marks.order, Provider(fs, d), m)
  {
    hide Consistent, LoadAll, Order, HasCycle, Session, Reaches, Provider, Before;
    var st := Session(fs, NOTHING_LOADED, imports);
    var keys := ListingExists(st.graph.Keys);
    CleanSession(fs, imports, keys);
    StartIsConsistent(fs);
    SessionKeeps(fs, NOTHING_LOADED, imports);
    ProviderIsOther(fs, st, m, d);
    PrecedesIffReached(st.graph, m, Provider(fs, d));
  }

  lemma ProviderIsOther(fs: FileSystem, st: State, m: string, d: string)
    requires Consistent(fs, st) && Listing(st.combined, st.graph.Keys) && m in st.graph && d in st.graph[m]
    ensures Provider(fs, d) in st.graph && Provider(fs, d) != m
  {
    hide Provider;
    var i :| 0 <= i < |st.combined| && st.combined[i] == m;
    assert UsesBefore(fs, st.combined, i);
    assert Provider(fs, d) in st.combined[..i];
  }

  /** Two files: m imports the item x of a. */
  function TwoFiles(): FileSystem {
    ns => if ns == "m" then Some(Source(["a.x"])) else if ns == "a" then Some(Source([])) else None
  }

  /** The recorded edge goes to the item and not to its module, so the sort may put a after m. */
  lemma ItemImportMayComeLate()
    ensures LoadAll(TwoFiles(), NOTHING_LOADED, ["m"]).error.None?
    ensures var st := Session(TwoFiles(), NOTHING_LOADED, ["m"]);
            && st.combined == ["a", "m"]
            && st.graph == map["m" := ["a.x"], "a" := []]
            && exists keys | Listing(keys, st.graph.Keys) :: !Before(Order(st.graph, keys).marks.order, "a", "m")
  {
    hide LoadAll, Order, Session, Reaches, Before;
    LoadTwoFiles();
    var st := Session(TwoFiles(), NOTHING_LOADED, ["m"]);
    NoWayToModule(st.graph);
    assert Provider(TwoFiles(), "a.x") == "a" by {
      ItemOfA();
    }
    ProviderPrecedesIff(TwoFiles(), ["m"], "m", "a.x");
  }

  lemma ItemOfA()
    ensures Host(TwoFiles(), "a.x") == Some("a")
  {
    assert "a.x"[..2] == "a.";
    assert "a."[..1] == "a";
    assert Parent("a.") == Some("a");
    assert Parent("a.x") == Parent("a.");
  }

  lemma NoWayToModule(g: Graph)
    requires g == map["m" := ["a.x"], "a" := []]
    ensures !Reaches(g, "m", "a")
  {
    forall w
      ensures !WalkBetween(g, w, "m", "a")
    {
      if |w| >= 2 && Walk(g, w) && w[0] == "m" {
        assert Step(g, w, 0);
        assert w[1] == "a.x";
        assert |w| >= 3 ==> !Step(g, w, 1);
      }
    }
  }

  lemma LoadTwoFiles()
    ensures LoadAll(TwoFiles(), NOTHING_LOADED, ["m"])
            == Loading(State({"a", "a.x", "m"}, [], map["m" := ["a.x"], "a" := []], ["a", "m"]), None)
    ensures Session(TwoFiles(), NOTHING_LOADED, ["m"]) == LoadAll(TwoFiles(), NOTHING_LOADED, ["m"]).state
  {
    hide Host, Load;
    var fs := TwoFiles();
    var one := State({}, ["m"], map["m" := ["a.x"]], []);
    var first := State({"a", "a.x"}, ["m"], map["m" := ["a.x"], "a" := []], ["a"]);
    var whole := State({"a", "a.x", "m"}, [], map["m" := ["a.x"], "a" := []], ["a", "m"]);
    LoadItemOfA(one, first);
    assert LoadAll(fs, one, ["a.x"]) == Loading(first, None);
    LoadFile(fs, NOTHING_LOADED, "m", ["a.x"]);
    assert NOTHING_LOADED.graph["m" := ["a.x"]] == one.graph;
    assert State({}, [] + ["m"], one.graph, []) == one;
    assert first.loaded + {"m"} == whole.loaded;
    assert Load(fs, NOTHING_LOADED, "m") == Loading(whole, None);
    assert LoadAll(fs, NOTHING_LOADED, ["m"]) == Loading(whole, None);
    SessionWithoutFailure(fs, NOTHING_LOADED, ["m"]);
  }

  lemma LoadItemOfA(one: State, first: State)
    requires one == State({}, ["m"], map["m" := ["a.x"]], [])
    requires first == State({"a", "a.x"}, ["m"], map["m" := ["a.x"], "a" := []], ["a"])
    ensures Load(TwoFiles(), one, "a.x") == Loading(first, None)
  {
    hide Host, Load;
    var fs := TwoFiles();
    ItemOfA();
    var two := State({}, ["m", "a.x"], map["m" := ["a.x"]], []);
    var done := State({"a"}, ["m", "a.x"], map["m" := ["a.x"], "a" := []], ["a"]);
    assert Load(fs, two, "a") == Loading(done, None) by {
      LoadFile(fs, two, "a", []);
    }
    LoadItem(fs, one, "a.x", "a");
    assert one.(stack := one.stack + ["a.x"]) == two;
  }
}
