/** The recursive module loader of salt-front/src/codegen/module_loader.rs. */
module ModuleLoading {
  import opened Wrappers
  import opened ImportGraph

  /** What is found at the path a namespace resolves to. */
  datatype File = Unreadable | Unparsable | Source(uses: seq<string>)

  /** Path resolution and file contents: None where a namespace does not resolve. */
  type FileSystem = string -> Option<File>

  datatype LoadError =
    | TooDeep(ns: string)
    | Circular(path: seq<string>, ns: string)
    | Unresolved(ns: string)
    | ReadFailed(ns: string)
    | ParseFailed(ns: string)

  datatype State = State(loaded: set<string>, stack: seq<string>, graph: Graph, combined: seq<string>)

  datatype Loading = Loading(state: State, error: Option<LoadError>)

  datatype Sorting = InOrder(order: seq<string>) | CycleAt(ns: string)

  const MAX_RECURSION_DEPTH := 33

  const NOTHING_LOADED := State({}, [], map[], [])

  function Fuel(depth: nat): nat {
    if depth > MAX_RECURSION_DEPTH then 0 else MAX_RECURSION_DEPTH + 1 - depth
  }

  /** What precedes the last dot. */
  function Parent(ns: string): Option<string> {
    if ns == [] then None
    else if ns[|ns| - 1] == '.' then Some(ns[..|ns| - 1])
    else Parent(ns[..|ns| - 1])
  }

  /** The parent of an item import, when there is one that resolves. */
  function Host(fs: FileSystem, ns: string): Option<string> {
    var p := Parent(ns);
    if p.Some? && fs(p.value).Some? then p else None
  }

  function Pop(stack: seq<string>): seq<string> {
    if stack == [] then [] else stack[..|stack| - 1]
  }

  function Load(fs: FileSystem, st: State, ns: string): (r: Loading)
    ensures r.error.None? ==> r.state.stack == st.stack
    decreases Fuel(|st.stack|), 0
  {
    if ns in st.loaded then Loading(st, None)
    else if |st.stack| > MAX_RECURSION_DEPTH then Loading(st, Some(TooDeep(ns)))
    else if ns in st.stack then Loading(st, Some(Circular(st.stack, ns)))
    else
      var entered := st.(stack := st.stack + [ns]);
      match fs(ns)
      case None =>
        (match Host(fs, ns)
         case Some(p) =>
           var r := Load(fs, entered, p);
           var loaded := if r.error.None? then r.state.loaded + {ns} else r.state.loaded;
           Loading(r.state.(loaded := loaded, stack := Pop(r.state.stack)), r.error)
         case None => Loading(entered, Some(Unresolved(ns))))
      case Some(Unreadable) => Loading(entered, Some(ReadFailed(ns)))
      case Some(Unparsable) => Loading(st, Some(ParseFailed(ns)))
      case Some(Source(uses)) =>
        var r := LoadAll(fs, entered.(graph := entered.graph[ns := uses]), uses);
        if r.error.Some? then Loading(r.state.(stack := Pop(r.state.stack)), r.error)
        else
          Loading(State(r.state.loaded + {ns}, Pop(r.state.stack), r.state.graph, r.state.combined + [ns]), None)
  }

  /** Loading a list of imports, up to the first that fails. */
  function LoadAll(fs: FileSystem, st: State, deps: seq<string>): (r: Loading)
    ensures r.error.None? ==> r.state.stack == st.stack
    decreases Fuel(|st.stack|), |deps| + 1
  {
    if deps == [] then Loading(st, None)
    else
      var first := Load(fs, st, deps[0]);
      if first.error.Some? then first else LoadAll(fs, first.state, deps[1..])
  }

  /** The driver loads each import in turn and goes on after a failure. */
  function Session(fs: FileSystem, st: State, imports: seq<string>): State
    decreases |imports|
  {
    if imports == [] then st else Session(fs, Load(fs, st, imports[0]).state, imports[1..])
  }

  class Marking {
    var visited: set<string>
    var tempMark: set<string>
    var order: seq<string>

    constructor ()
      ensures Value() == NO_MARKS
    {
      visited, tempMark, order := {}, {}, [];
    }

    function Value(): Marks
      reads this
    {
      Marks(visited, tempMark, order)
    }
  }

  class ModuleLoader {
    var loadedModules: set<string>
    var loadingStack: seq<string>
    var dependencyGraph: Graph
    var combinedAst: seq<string>

    constructor ()
      ensures Value() == NOTHING_LOADED
    {
      loadedModules, loadingStack, dependencyGraph, combinedAst := {}, [], map[], [];
    }

    function Value(): State
      reads this
    {
      State(loadedModules, loadingStack, dependencyGraph, combinedAst)
    }

    method LoadModule(fs: FileSystem, ns: string) returns (error: Option<LoadError>)
      modifies this
      ensures Loading(Value(), error) == Load(fs, old(Value()), ns)
      decreases Fuel(|loadingStack|), 0
    {
      if ns in loadedModules { return None; }
      if |loadingStack| > MAX_RECURSION_DEPTH { return Some(TooDeep(ns)); }
      if ns in loadingStack { return Some(Circular(loadingStack, ns)); }
      ghost var before := Value();
      loadingStack := loadingStack + [ns];
      match fs(ns)
      case None =>
        var p := Host(fs, ns);
        if p.None? { return Some(Unresolved(ns)); }
        error := LoadModule(fs, p.value);
        if error.None? {
          loadedModules := loadedModules + {ns};
        }
        loadingStack := Pop(loadingStack);
      case Some(Unreadable) => return Some(ReadFailed(ns));
      case Some(Unparsable) =>
        loadingStack := Pop(loadingStack);
        return Some(ParseFailed(ns));
      case Some(Source(uses)) =>
        dependencyGraph := dependencyGraph[ns := uses];
        ghost var whole := LoadAll(fs, Value(), uses);
        for i := 0 to |uses|
          invariant loadingStack == before.stack + [ns]
          invariant LoadAll(fs, Value(), uses[i..]) == whole
        {
          error := LoadModule(fs, uses[i]);
          if error.Some? {
            loadingStack := Pop(loadingStack);
            return;
          }
          assert uses[i..][1..] == uses[i + 1..];
        }
        combinedAst := combinedAst + [ns];
        loadedModules := loadedModules + {ns};
        loadingStack := Pop(loadingStack);
        error := None;
    }

    /** `keys` is the order in which the map yields its keys, which is left open. */
    method GetCompilationOrder(keys: seq<string>) returns (sorting: Sorting)
      requires Listing(keys, dependencyGraph.Keys)
      ensures var sorted := Order(dependencyGraph, keys);
              sorting == if sorted.error.None? then InOrder(sorted.marks.order) else CycleAt(sorted.error.value)
    {
      var marking := new Marking();
      ghost var whole := Order(dependencyGraph, keys);
      for i := 0 to |keys|
        invariant VisitAll(dependencyGraph, keys[i..], marking.Value()) == whole
      {
        assert keys[i] in dependencyGraph;
        var error := TopologicalVisit(keys[i], marking);
        if error.Some? { return CycleAt(error.value); }
        assert keys[i..][1..] == keys[i + 1..];
      }
      return InOrder(marking.order);
    }

    method TopologicalVisit(node: string, marking: Marking) returns (error: Option<string>)
      requires node in Nodes(dependencyGraph)
      modifies marking
      ensures Outcome(marking.Value(), error) == Visit(dependencyGraph, node, old(marking.Value()))
      decreases |Nodes(dependencyGraph) - marking.tempMark|
    {
      if node in marking.tempMark { return Some(node); }
      if node !in marking.visited {
        FewerLeft(Nodes(dependencyGraph), marking.tempMark, node);
        marking.tempMark := marking.tempMark + {node};
        if node in dependencyGraph {
          var deps := dependencyGraph[node];
          ghost var marked := marking.tempMark;
          ghost var whole := VisitAll(dependencyGraph, deps, marking.Value());
          for i := 0 to |deps|
            invariant marking.tempMark == marked
            invariant VisitAll(dependencyGraph, deps[i..], marking.Value()) == whole
          {
            error := TopologicalVisit(deps[i], marking);
            if error.Some? { return; }
            assert deps[i..][1..] == deps[i + 1..];
          }
        }
        marking.tempMark := marking.tempMark - {node};
        marking.visited := marking.visited + {node};
        marking.order := marking.order + [node];
      }
      error := None;
    }
  }
}
