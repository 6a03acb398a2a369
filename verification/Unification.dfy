/** Normalisation and one-sided unification (salt-front/src/codegen/generic_resolver.rs). */
module Unification {
  import opened SaltTypes
  import opened Wrappers

  /** Turns the placeholders that the parser leaves for declared generics into generics. */
  function Normalize(t: Type, declared: set<string>): Type
    decreases t
  {
    match t
    case Struct(name) => if name in declared then Generic(name) else t
    case Concrete(name, args) =>
      if name in declared then Generic(name) else Concrete(name, NormalizeAll(args, declared))
    case Reference(inner, isMutable) => Reference(Normalize(inner, declared), isMutable)
    case Pointer(inner, provenance, isMutable) => Pointer(Normalize(inner, declared), provenance, isMutable)
    case Fn(params, ret) => Fn(NormalizeAll(params, declared), Normalize(ret, declared))
    case Array(inner, len, packed) => Array(Normalize(inner, declared), len, packed)
    case Owned(inner) => Owned(Normalize(inner, declared))
    case Atomic(inner) => Atomic(Normalize(inner, declared))
    case _ => t
  }

  function NormalizeAll(ts: seq<Type>, declared: set<string>): (r: seq<Type>)
    ensures |r| == |ts|
    decreases ts
  {
    if ts == [] then [] else [Normalize(ts[0], declared)] + NormalizeAll(ts[1..], declared)
  }

  /** Names match when equal, or when one is the other qualified by a package. */
  predicate NamesMatch(a: string, b: string) {
    a == b || EndsWith(a, "__" + b) || EndsWith(b, "__" + a)
  }

  /** A named pointer wrapper, which matches a pointer. */
  predicate PtrBridge(t: Type) {
    t.Concrete? && Contains(t.name, "Ptr") && |t.args| == 1
  }

  /** The bindings after walking a template and a type together; the first binding of a name stays. */
  function Unify(template: Type, concrete: Type, m: Mapping): Mapping
    decreases template, concrete, 0
  {
    var (t, c) := (template, concrete);
    if t.Generic? then (if t.name in m then m else m[t.name := c])
    else if t.Pointer? && c.Pointer? then Unify(t.inner, c.inner, m)
    else if t.Pointer? && PtrBridge(c) then Unify(t.inner, c.args[0], m)
    else if PtrBridge(t) && c.Pointer? then Unify(t.args[0], c.inner, m)
    else if t.Concrete? && c.Concrete? then
      if |t.args| == |c.args| && NamesMatch(t.name, c.name) then UnifyAll(t.args, c.args, m) else m
    else if t.Reference? && c.Reference? then Unify(t.inner, c.inner, m)
    else if t.Reference? then Unify(t.inner, c, m)
    else if c.Reference? then Unify(t, c.inner, m)
    else if t.Array? && c.Array? then Unify(t.inner, c.inner, m)
    else if t.Fn? && c.Fn? then UnifyAll(t.params, c.params, Unify(t.ret, c.ret, m))
    else if (t.Owned? && c.Owned?) || (t.Atomic? && c.Atomic?) then Unify(t.inner, c.inner, m)
    else m
  }

  /** Pairs are taken up to the end of the shorter list. */
  function UnifyAll(ts: seq<Type>, cs: seq<Type>, m: Mapping): Mapping
    decreases ts, cs, 1
  {
    if ts == [] || cs == [] then m else UnifyAll(ts[1..], cs[1..], Unify(ts[0], cs[0], m))
  }

  /** The map that the resolver fills in while it walks. */
  class Bindings {
    var bound: Mapping

    constructor ()
      ensures bound == map[]
    {
      bound := map[];
    }

    method UnifyTypes(template: Type, concrete: Type)
      modifies this
      ensures bound == Unify(template, concrete, old(bound))
      decreases template, concrete, 0
    {
      hide Contains, NamesMatch, EndsWith;
      var t, c := template, concrete;
      if t.Generic? {
        if t.name !in bound {
          bound := bound[t.name := c];
        }
      } else if t.Pointer? && c.Pointer? {
        UnifyTypes(t.inner, c.inner);
      } else if t.Pointer? && PtrBridge(c) {
        UnifyTypes(t.inner, c.args[0]);
      } else if PtrBridge(t) && c.Pointer? {
        UnifyTypes(t.args[0], c.inner);
      } else if t.Concrete? && c.Concrete? {
        if |t.args| == |c.args| && NamesMatch(t.name, c.name) {
          UnifyLists(t.args, c.args);
        }
      } else if t.Reference? && c.Reference? {
        UnifyTypes(t.inner, c.inner);
      } else if t.Reference? {
        UnifyTypes(t.inner, c);
      } else if c.Reference? {
        UnifyTypes(t, c.inner);
      } else if t.Array? && c.Array? {
        UnifyTypes(t.inner, c.inner);
      } else if t.Fn? && c.Fn? {
        UnifyTypes(t.ret, c.ret);
        UnifyLists(t.params, c.params);
      } else if (t.Owned? && c.Owned?) || (t.Atomic? && c.Atomic?) {
        UnifyTypes(t.inner, c.inner);
      }
    }

    method InferPhantomGenerics(declared: seq<string>)
      modifies this
      ensures bound == Phantom(declared, old(bound))
    {
      var unresolved := Unresolved(declared, bound);
      if unresolved == [] { return; }
      var results := FnReturns(declared, bound);
      if |unresolved| == 1 && |results| == 1 {
        bound := bound[unresolved[0] := results[0]];
      }
    }

    method UnifyLists(ts: seq<Type>, cs: seq<Type>)
      modifies this
      ensures bound == UnifyAll(ts, cs, old(bound))
      decreases ts, cs, 1
    {
      var i := 0;
      while i < |ts| && i < |cs|
        invariant 0 <= i <= |ts| && i <= |cs|
        invariant UnifyAll(ts, cs, old(bound)) == UnifyAll(ts[i..], cs[i..], bound)
      {
        assert ts[i..][0] == ts[i] && ts[i..][1..] == ts[i + 1..];
        assert cs[i..][0] == cs[i] && cs[i..][1..] == cs[i + 1..];
        UnifyTypes(ts[i], cs[i]);
        i := i + 1;
      }
    }
  }

  // Phantom generics.

  function Unresolved(declared: seq<string>, m: Mapping): seq<string> {
    if declared == [] then []
    else (if declared[0] in m then [] else [declared[0]]) + Unresolved(declared[1..], m)
  }

  /** The return types of the functions that declared generics are bound to. */
  function FnReturns(declared: seq<string>, m: Mapping): seq<Type> {
    if declared == [] then []
    else
      (if declared[0] in m && m[declared[0]].Fn? then [m[declared[0]].ret] else []) + FnReturns(declared[1..], m)
  }

  function Phantom(declared: seq<string>, m: Mapping): Mapping {
    var unresolved, results := Unresolved(declared, m), FnReturns(declared, m);
    if |unresolved| == 1 && |results| == 1 then m[unresolved[0] := results[0]] else m
  }

  lemma {:induction false} UnresolvedAre(declared: seq<string>, m: Mapping)
    ensures forall g :: g in Unresolved(declared, m) <==> g in declared && g !in m
  {
    if declared != [] {
      UnresolvedAre(declared[1..], m);
      assert forall g :: g in declared <==> g == declared[0] || g in declared[1..];
    }
  }

  lemma {:induction false} NothingUnresolved(declared: seq<string>, m: Mapping)
    requires forall g :: g in declared ==> g in m
    ensures Unresolved(declared, m) == []
  {
    if declared != [] {
      NothingUnresolved(declared[1..], m);
    }
  }

  lemma {:induction false} FnReturnsAre(declared: seq<string>, m: Mapping)
    ensures forall r :: r in FnReturns(declared, m) ==> exists f :: f in declared && f in m && m[f].Fn? && m[f].ret == r
  {
    if declared != [] {
      FnReturnsAre(declared[1..], m);
      forall r | r in FnReturns(declared, m)
        ensures exists f :: f in declared && f in m && m[f].Fn? && m[f].ret == r
      {
        if r in FnReturns(declared[1..], m) {
          var f :| f in declared[1..] && f in m && m[f].Fn? && m[f].ret == r;
          assert f in declared;
        } else {
          assert declared[0] in declared;
        }
      }
    }
  }

  /** Inferring phantoms overwrites nothing, resolves everything exactly when at most one generic is open and,
      if one is, a single declared generic is bound to a function, whose return type it then gets; doing it
      again changes nothing. */
  lemma PhantomResolves(declared: seq<string>, m: Mapping)
    ensures var (after, open) := (Phantom(declared, m), Unresolved(declared, m));
            && (forall g :: g in m ==> g in after && after[g] == m[g])
            && ((forall g :: g in declared ==> g in after)
                <==> open == [] || (|open| == 1 && |FnReturns(declared, m)| == 1))
            && (forall g :: g in after && g !in m ==>
                  open == [g] && exists f :: f in declared && f in m && m[f].Fn? && m[f].ret == after[g])
            && Phantom(declared, after) == after
  {
    hide Unresolved, FnReturns;
    var after, open, results := Phantom(declared, m), Unresolved(declared, m), FnReturns(declared, m);
    UnresolvedAre(declared, m);
    UnresolvedAre(declared, after);
    FnReturnsAre(declared, m);
    if |open| == 1 && |results| == 1 {
      assert open[0] in open && results[0] in results;
      forall g | g in declared
        ensures g in after
      {
        assert g !in m ==> g in open;
      }
      NothingUnresolved(declared, after);
    } else if open != [] {
      assert open[0] in open;
    }
  }

  // What unification does with an instance of the template.

  /** The generics that occur in a type, as far as substitution and unification look. */
  function Generics(t: Type): set<string>
    decreases t
  {
    match t
    case Generic(name) => {name}
    case Pointer(inner, _, _) => Generics(inner)
    case Reference(inner, _) => Generics(inner)
    case Concrete(_, args) => GenericsAll(args)
    case Array(inner, _, _) => Generics(inner)
    case Fn(params, ret) => GenericsAll(params) + Generics(ret)
    case _ => {}
  }

  function GenericsAll(ts: seq<Type>): set<string>
    decreases ts
  {
    if ts == [] then {} else Generics(ts[0]) + GenericsAll(ts[1..])
  }

  /** Templates built from primitives, generics, named types, pointers, references, arrays and
      functions, whose type names are none of the generic `names`. */
  predicate Template(t: Type, names: set<string>)
    decreases t
  {
    match t
    case Struct(name) =>
      name != "Self" && name !in names && (Contains(name, "__") ==> LastSegment(name) !in names)
    case Concrete(name, args) => (args == [] ==> name !in names) && TemplateAll(args, names)
    case Pointer(inner, _, _) => Template(inner, names)
    case Reference(inner, _) => Template(inner, names)
    case Array(inner, _, _) => Template(inner, names)
    case Fn(params, ret) => TemplateAll(params, names) && Template(ret, names)
    case Owned(_) => false
    case Atomic(_) => false
    case Tensor(_, _) => false
    case Tuple(_) => false
    case Window(_, _) => false
    case SelfType => false
    case _ => true
  }

  predicate TemplateAll(ts: seq<Type>, names: set<string>)
    decreases ts
  {
    ts == [] || (Template(ts[0], names) && TemplateAll(ts[1..], names))
  }

  /** What a substitution puts for a generic: its image, or the generic itself. */
  function Image(m: Mapping, g: string): Type {
    Lookup(m, g, Generic(g))
  }

  /** `after` is `before` with exactly the generics of `gs` added, each bound to its image under `m`;
      bindings that were there stay. */
  ghost predicate Binds(before: Mapping, after: Mapping, gs: set<string>, m: Mapping) {
    && after.Keys == before.Keys + gs
    && (forall g :: g in before ==> after[g] == before[g])
    && forall g :: g in gs && g !in before ==> after[g] == Image(m, g)
  }

  lemma BindsThen(a: Mapping, b: Mapping, c: Mapping, gs: set<string>, hs: set<string>, m: Mapping)
    requires Binds(a, b, gs, m) && Binds(b, c, hs, m)
    ensures Binds(a, c, gs + hs, m)
  {
    forall g | g in gs + hs && g !in a
      ensures c[g] == Image(m, g)
    {
    }
  }

  /** Unifying a template with its own instance binds exactly the template's generics. */
  lemma {:induction false} UnifyInstance(t: Type, names: set<string>, m: Mapping, before: Mapping)
    requires Template(t, names) && m.Keys <= names
    ensures Binds(before, Unify(t, Substitute(t, m), before), Generics(t), m)
    decreases t
  {
    hide Unify, Binds;
    match t
    case Pointer(inner, _, _) =>
      UnifyInner(t, Substitute(t, m), before);
      UnifyInstance(inner, names, m, before);
    case Reference(inner, _) =>
      UnifyInner(t, Substitute(t, m), before);
      UnifyInstance(inner, names, m, before);
    case Array(inner, _, _) =>
      UnifyInner(t, Substitute(t, m), before);
      UnifyInstance(inner, names, m, before);
    case Concrete(name, args) =>
      UnifyNamed(t, Substitute(t, m), before);
      UnifyInstances(args, names, m, before);
    case Fn(params, ret) =>
      UnifyFn(t, Substitute(t, m), before);
      var mid := Unify(ret, Substitute(ret, m), before);
      UnifyInstance(ret, names, m, before);
      UnifyInstances(params, names, m, mid);
      BindsThen(before, mid, UnifyAll(params, SubstituteAll(params, m), mid), Generics(ret), GenericsAll(params), m);
      assert Generics(ret) + GenericsAll(params) == Generics(t);
    case _ =>
      UnifyLeaf(t, names, m, before);
  }

  // One level of Unify at a time.

  lemma UnifyInner(t: Type, c: Type, m: Mapping)
    requires (t.Pointer? && c.Pointer?) || (t.Reference? && c.Reference?) || (t.Array? && c.Array?)
    ensures Unify(t, c, m) == Unify(t.inner, c.inner, m)
  {
  }

  lemma UnifyNamed(t: Type, c: Type, m: Mapping)
    requires t.Concrete? && c.Concrete? && t.name == c.name && |t.args| == |c.args|
    ensures Unify(t, c, m) == UnifyAll(t.args, c.args, m)
  {
  }

  lemma UnifyFn(t: Type, c: Type, m: Mapping)
    requires t.Fn? && c.Fn?
    ensures Unify(t, c, m) == UnifyAll(t.params, c.params, Unify(t.ret, c.ret, m))
  {
  }

  lemma UnifyLeaf(t: Type, names: set<string>, m: Mapping, before: Mapping)
    requires Template(t, names) && m.Keys <= names
    requires !t.Pointer? && !t.Reference? && !t.Array? && !t.Concrete? && !t.Fn?
    ensures Binds(before, Unify(t, Substitute(t, m), before), Generics(t), m)
  {
  }

  lemma {:induction false} UnifyInstances(ts: seq<Type>, names: set<string>, m: Mapping, before: Mapping)
    requires TemplateAll(ts, names) && m.Keys <= names
    ensures Binds(before, UnifyAll(ts, SubstituteAll(ts, m), before), GenericsAll(ts), m)
    decreases ts
  {
    if ts != [] {
      var cs := SubstituteAll(ts, m);
      assert cs[0] == Substitute(ts[0], m) && cs[1..] == SubstituteAll(ts[1..], m);
      UnifyInstance(ts[0], names, m, before);
      var mid := Unify(ts[0], cs[0], before);
      UnifyInstances(ts[1..], names, m, mid);
      BindsThen(before, mid, UnifyAll(ts[1..], cs[1..], mid), Generics(ts[0]), GenericsAll(ts[1..]), m);
    }
  }

  /** Two substitutions give the same instance exactly when they agree on the template's generics. */
  lemma {:induction false} SameInstance(t: Type, names: set<string>, m: Mapping, r: Mapping)
    requires Template(t, names) && m.Keys <= names && r.Keys <= names
    ensures Substitute(t, m) == Substitute(t, r) <==> forall g :: g in Generics(t) ==> Image(m, g) == Image(r, g)
    decreases t
  {
    match t
    case Pointer(inner, _, _) =>
      SameInstance(inner, names, m, r);
    case Reference(inner, _) =>
      SameInstance(inner, names, m, r);
    case Array(inner, _, _) =>
      SameInstance(inner, names, m, r);
    case Concrete(name, args) =>
      SameInstances(args, names, m, r);
    case Fn(params, ret) =>
      SameInstances(params, names, m, r);
      SameInstance(ret, names, m, r);
    case Generic(name) =>
      assert name in Generics(t) && Substitute(t, m) == Image(m, name) && Substitute(t, r) == Image(r, name);
    case _ =>
  }

  lemma {:induction false} SameInstances(ts: seq<Type>, names: set<string>, m: Mapping, r: Mapping)
    requires TemplateAll(ts, names) && m.Keys <= names && r.Keys <= names
    ensures SubstituteAll(ts, m) == SubstituteAll(ts, r)
            <==> forall g :: g in GenericsAll(ts) ==> Image(m, g) == Image(r, g)
    decreases ts
  {
    if ts != [] {
      SameInstance(ts[0], names, m, r);
      SameInstances(ts[1..], names, m, r);
      ConsEqual(Substitute(ts[0], m), SubstituteAll(ts[1..], m), Substitute(ts[0], r), SubstituteAll(ts[1..], r));
    }
  }

  lemma ConsEqual(a: Type, s: seq<Type>, b: Type, t: seq<Type>)
    ensures [a] + s == [b] + t <==> a == b && s == t
  {
    if [a] + s == [b] + t {
      assert ([a] + s)[0] == a && ([b] + t)[0] == b;
      assert ([a] + s)[1..] == s && ([b] + t)[1..] == t;
    }
  }

  /** Unification inverts substitution: starting from any bindings, the bindings found give back the
      instance exactly when the bindings there before did not contradict it. */
  lemma UnificationInvertsSubstitution(t: Type, names: set<string>, m: Mapping, before: Mapping)
    requires Template(t, names) && m.Keys <= names && before.Keys <= names && Generics(t) <= names
    ensures var found := Unify(t, Substitute(t, m), before);
            && Binds(before, found, Generics(t), m)
            && (Substitute(t, found) == Substitute(t, m)
                <==> forall g :: g in Generics(t) && g in before ==> before[g] == Image(m, g))
  {
    UnifyInstance(t, names, m, before);
    var found := Unify(t, Substitute(t, m), before);
    SameInstance(t, names, found, m);
    forall g | g in Generics(t)
      ensures Image(found, g) == Image(m, g) <==> (g in before ==> before[g] == Image(m, g))
    {
    }
  }

  // Normalisation.

  /** A declared name occurs where normalisation looks for one. */
  predicate Mentions(t: Type, declared: set<string>)
    decreases t
  {
    match t
    case Struct(name) => name in declared
    case Concrete(name, args) => name in declared || MentionsAny(args, declared)
    case Pointer(inner, _, _) => Mentions(inner, declared)
    case Reference(inner, _) => Mentions(inner, declared)
    case Array(inner, _, _) => Mentions(inner, declared)
    case Fn(params, ret) => MentionsAny(params, declared) || Mentions(ret, declared)
    case Owned(inner) => Mentions(inner, declared)
    case Atomic(inner) => Mentions(inner, declared)
    case _ => false
  }

  predicate MentionsAny(ts: seq<Type>, declared: set<string>)
    decreases ts
  {
    ts != [] && (Mentions(ts[0], declared) || MentionsAny(ts[1..], declared))
  }

  /** No declared name is applied to arguments, and none lies below an owned or atomic type. */
  predicate Exact(t: Type, declared: set<string>)
    decreases t
  {
    match t
    case Concrete(name, args) => if name in declared then args == [] else ExactAll(args, declared)
    case Pointer(inner, _, _) => Exact(inner, declared)
    case Reference(inner, _) => Exact(inner, declared)
    case Array(inner, _, _) => Exact(inner, declared)
    case Fn(params, ret) => ExactAll(params, declared) && Exact(ret, declared)
    case Owned(inner) => !Mentions(inner, declared)
    case Atomic(inner) => !Mentions(inner, declared)
    case _ => true
  }

  predicate ExactAll(ts: seq<Type>, declared: set<string>)
    decreases ts
  {
    ts == [] || (Exact(ts[0], declared) && ExactAll(ts[1..], declared))
  }

  /** Normalisation changes exactly the types that mention a declared name. */
  lemma {:induction false} NormalizeChanges(t: Type, declared: set<string>)
    ensures Normalize(t, declared) == t <==> !Mentions(t, declared)
    decreases t
  {
    match t
    case Pointer(inner, _, _) => NormalizeChanges(inner, declared);
    case Reference(inner, _) => NormalizeChanges(inner, declared);
    case Array(inner, _, _) => NormalizeChanges(inner, declared);
    case Owned(inner) => NormalizeChanges(inner, declared);
    case Atomic(inner) => NormalizeChanges(inner, declared);
    case Concrete(_, args) => NormalizeChangesAll(args, declared);
    case Fn(params, ret) =>
      NormalizeChangesAll(params, declared);
      NormalizeChanges(ret, declared);
    case _ =>
  }

  lemma {:induction false} NormalizeChangesAll(ts: seq<Type>, declared: set<string>)
    ensures NormalizeAll(ts, declared) == ts <==> !MentionsAny(ts, declared)
    decreases ts
  {
    if ts != [] {
      NormalizeChanges(ts[0], declared);
      NormalizeChangesAll(ts[1..], declared);
      ConsEqual(Normalize(ts[0], declared), NormalizeAll(ts[1..], declared), ts[0], ts[1..]);
      assert [ts[0]] + ts[1..] == ts;
    }
  }

  // One level of both at a time.

  lemma NamedKept(t: Type, declared: set<string>, m: Mapping)
    requires t.Struct? || (t.Concrete? && (t.name in declared ==> t.args == []))
    requires declared <= m.Keys
    requires t.Concrete? && t.name !in declared ==>
               SubstituteAll(NormalizeAll(t.args, declared), m) == SubstituteAll(t.args, m)
    ensures Substitute(Normalize(t, declared), m) == Substitute(t, m)
  {
    hide Contains, LastSegment, SubstituteAll, NormalizeAll;
  }

  lemma InnerKept(t: Type, declared: set<string>, m: Mapping)
    requires t.Pointer? || t.Reference? || t.Array?
    requires Substitute(Normalize(t.inner, declared), m) == Substitute(t.inner, m)
    ensures Substitute(Normalize(t, declared), m) == Substitute(t, m)
  {
  }

  lemma FnKept(t: Type, declared: set<string>, m: Mapping)
    requires t.Fn? && Substitute(Normalize(t.ret, declared), m) == Substitute(t.ret, m)
    requires SubstituteAll(NormalizeAll(t.params, declared), m) == SubstituteAll(t.params, m)
    ensures Substitute(Normalize(t, declared), m) == Substitute(t, m)
  {
  }

  lemma LeafKept(t: Type, declared: set<string>, m: Mapping)
    requires t.Owned? || t.Atomic? ==> Normalize(t.inner, declared) == t.inner
    requires !t.Struct? && !t.Concrete? && !t.Pointer? && !t.Reference? && !t.Array? && !t.Fn?
    ensures Substitute(Normalize(t, declared), m) == Substitute(t, m)
  {
    assert Normalize(t, declared) == t;
  }

  /** Where no declared name is applied or below an owned or atomic type, every substitution of the
      declared names gives the same type before and after normalisation. */
  lemma {:induction false} NormalizeKeepsInstances(t: Type, declared: set<string>, m: Mapping)
    requires Exact(t, declared) && declared <= m.Keys
    ensures Substitute(Normalize(t, declared), m) == Substitute(t, m)
    decreases t
  {
    hide Mentions, Normalize, Substitute;
    match t
    case Pointer(inner, _, _) =>
      NormalizeKeepsInstances(inner, declared, m);
      InnerKept(t, declared, m);
    case Reference(inner, _) =>
      NormalizeKeepsInstances(inner, declared, m);
      InnerKept(t, declared, m);
    case Array(inner, _, _) =>
      NormalizeKeepsInstances(inner, declared, m);
      InnerKept(t, declared, m);
    case Concrete(name, args) =>
      if name !in declared {
        NormalizeKeepsAll(args, declared, m);
      }
      NamedKept(t, declared, m);
    case Struct(_) =>
      NamedKept(t, declared, m);
    case Fn(params, ret) =>
      NormalizeKeepsAll(params, declared, m);
      NormalizeKeepsInstances(ret, declared, m);
      FnKept(t, declared, m);
    case Owned(inner) =>
      NormalizeChanges(inner, declared);
      LeafKept(t, declared, m);
    case Atomic(inner) =>
      NormalizeChanges(inner, declared);
      LeafKept(t, declared, m);
    case _ =>
      LeafKept(t, declared, m);
  }

  lemma {:induction false} NormalizeKeepsAll(ts: seq<Type>, declared: set<string>, m: Mapping)
    requires ExactAll(ts, declared) && declared <= m.Keys
    ensures SubstituteAll(NormalizeAll(ts, declared), m) == SubstituteAll(ts, m)
    decreases ts
  {
    if ts != [] {
      var ns := NormalizeAll(ts, declared);
      assert ns[0] == Normalize(ts[0], declared) && ns[1..] == NormalizeAll(ts[1..], declared);
      NormalizeKeepsInstances(ts[0], declared, m);
      NormalizeKeepsAll(ts[1..], declared, m);
    }
  }

  /** The substitution that puts the unit type for every declared name. */
  function Units(declared: set<string>): (m: Mapping)
    ensures m.Keys == declared
  {
    map g | g in declared :: Unit
  }

  /** In any other type that substitution already tells the two apart. */
  lemma {:induction false} UnitsTellApart(t: Type, declared: set<string>)
    requires !Exact(t, declared)
    ensures Substitute(Normalize(t, declared), Units(declared)) != Substitute(t, Units(declared))
    decreases t
  {
    hide Mentions, Contains, LastSegment;
    match t
    case Pointer(inner, _, _) =>
      UnitsTellApart(inner, declared);
    case Reference(inner, _) =>
      UnitsTellApart(inner, declared);
    case Array(inner, _, _) =>
      UnitsTellApart(inner, declared);
    case Owned(inner) =>
      NormalizeChanges(inner, declared);
    case Atomic(inner) =>
      NormalizeChanges(inner, declared);
    case Concrete(name, args) =>
      if name !in declared {
        UnitsTellListsApart(args, declared);
      }
    case Fn(params, ret) =>
      if !Exact(ret, declared) {
        UnitsTellApart(ret, declared);
      } else {
        UnitsTellListsApart(params, declared);
      }
  }

  lemma {:induction false} UnitsTellListsApart(ts: seq<Type>, declared: set<string>)
    requires !ExactAll(ts, declared)
    ensures SubstituteAll(NormalizeAll(ts, declared), Units(declared)) != SubstituteAll(ts, Units(declared))
    decreases ts
  {
    var ns, m := NormalizeAll(ts, declared), Units(declared);
    assert ns[0] == Normalize(ts[0], declared) && ns[1..] == NormalizeAll(ts[1..], declared);
    if !Exact(ts[0], declared) {
      UnitsTellApart(ts[0], declared);
    } else {
      UnitsTellListsApart(ts[1..], declared);
    }
    ConsEqual(Substitute(ns[0], m), SubstituteAll(ns[1..], m), Substitute(ts[0], m), SubstituteAll(ts[1..], m));
  }

  /** Normalisation changes no instance exactly when no declared name is applied to arguments and
      none lies below an owned or atomic type. */
  lemma NormalizeIsExact(t: Type, declared: set<string>)
    ensures Exact(t, declared)
            <==> forall m: Mapping | declared <= m.Keys :: Substitute(Normalize(t, declared), m) == Substitute(t, m)
  {
    hide Exact, Normalize, Substitute;
    if Exact(t, declared) {
      forall m: Mapping | declared <= m.Keys
        ensures Substitute(Normalize(t, declared), m) == Substitute(t, m)
      {
        NormalizeKeepsInstances(t, declared, m);
      }
    } else {
      UnitsTellApart(t, declared);
    }
  }

  /** From the parser's form of a template to the bindings: for any types put for the declared
      names, the walk finds those types for the names that occur, and they give the instance back. */
  lemma ResolverFindsArguments(t: Type, declared: set<string>, m: Mapping)
    requires Exact(t, declared) && m.Keys == declared
    requires Template(Normalize(t, declared), declared) && Generics(Normalize(t, declared)) <= declared
    ensures var template := Normalize(t, declared);
            var found := Unify(template, Substitute(t, m), map[]);
            && found.Keys == Generics(template)
            && (forall g :: g in found ==> found[g] == m[g])
            && Substitute(template, found) == Substitute(t, m)
  {
    NormalizeKeepsInstances(t, declared, m);
    UnificationInvertsSubstitution(Normalize(t, declared), declared, m, map[]);
  }

  // References on one side.

  function Core(t: Type): Type {
    if t.Reference? then Core(t.inner) else t
  }

  /** Below its references the template is a generic that is not bound yet. */
  predicate Open(t: Type, m: Mapping) {
    Core(t).Generic? && Core(t).name !in m
  }

  lemma PlainUnderReference(t: Type, c: Type, isMutable: bool, m: Mapping)
    requires !t.Generic? && !t.Reference?
    ensures Unify(t, Reference(c, isMutable), m) == Unify(t, c, m)
  {
  }

  lemma ReferenceOnTemplate(t: Type, c: Type, isMutable: bool, m: Mapping)
    ensures Unify(Reference(t, isMutable), c, m) == Unify(t, if c.Reference? then c.inner else c, m)
  {
  }

  lemma {:induction false} ReferencesShow(c: Type, isMutable: bool)
    ensures Reference(c, isMutable) != c
  {
    if c.Reference? {
      ReferencesShow(c.inner, isMutable);
    }
  }

  /** A reference to a template, unified with an instance of the template, binds as the template does, except
      where a generic that is still open was to be bound to a reference: it loses one. */
  lemma {:induction false} ReferenceToTemplate(t: Type, s: Mapping, isMutable: bool, m: Mapping)
    ensures Unify(Reference(t, isMutable), Substitute(t, s), m) == Unify(t, Substitute(t, s), m)
            <==> !(Open(t, m) && Substitute(Core(t), s).Reference?)
    decreases t
  {
    var c := Substitute(t, s);
    ReferenceOnTemplate(t, c, isMutable, m);
    if t.Reference? {
      ReferenceToTemplate(t.inner, s, t.isMutable, m);
    } else if t.Generic? {
      if c.Reference? {
        ReferencesShow(c.inner, c.isMutable);
        if t.name !in m {
          assert m[t.name := c.inner][t.name] != m[t.name := c][t.name];
        }
      }
    } else if c.Reference? {
      PlainUnderReference(t, c.inner, c.isMutable, m);
    }
  }

  /** A template, unified with a reference to an instance of it, binds as with the instance, except for a
      generic that is still open: it takes up the reference. */
  lemma {:induction false} ReferenceToInstance(t: Type, s: Mapping, isMutable: bool, m: Mapping)
    ensures Unify(t, Reference(Substitute(t, s), isMutable), m) == Unify(t, Substitute(t, s), m) <==> !Open(t, m)
    decreases t
  {
    var c := Substitute(t, s);
    if t.Reference? {
      ReferenceToInstance(t.inner, s, t.isMutable, m);
    } else if t.Generic? {
      ReferencesShow(c, isMutable);
      if t.name !in m {
        assert m[t.name := c][t.name] != m[t.name := Reference(c, isMutable)][t.name];
      }
    } else {
      PlainUnderReference(t, c, isMutable, m);
    }
  }

  // What binds, for types that need not be instances.

  ghost predicate Stays(m: Mapping, n: Mapping) {
    forall g :: g in m ==> g in n && n[g] == m[g]
  }

  lemma StaysItself(m: Mapping)
    ensures Stays(m, m)
  {
  }

  lemma OneMoreStays(m: Mapping, g: string, t: Type)
    requires g !in m
    ensures Stays(m, m[g := t])
  {
  }

  lemma StaysOn(a: Mapping, b: Mapping, c: Mapping)
    requires Stays(a, b) && Stays(b, c)
    ensures Stays(a, c)
  {
  }

  /** Whatever the types, bindings that were there stay. */
  lemma {:induction false} BindingsStay(t: Type, c: Type, m: Mapping)
    ensures Stays(m, Unify(t, c, m))
    decreases t, c, 0
  {
    hide PtrBridge, NamesMatch, UnifyAll, Stays;
    StaysItself(m);
    if t.Generic? {
      if t.name !in m {
        OneMoreStays(m, t.name, c);
      }
    } else if t.Pointer? && c.Pointer? {
      BindingsStay(t.inner, c.inner, m);
    } else if t.Pointer? && PtrBridge(c) {
      BridgeIsNamed(c);
      BindingsStay(t.inner, c.args[0], m);
    } else if PtrBridge(t) && c.Pointer? {
      BridgeIsNamed(t);
      BindingsStay(t.args[0], c.inner, m);
    } else if t.Concrete? && c.Concrete? {
      AllBindingsStay(t.args, c.args, m);
    } else if t.Reference? && c.Reference? {
      BindingsStay(t.inner, c.inner, m);
    } else if t.Reference? {
      BindingsStay(t.inner, c, m);
    } else if c.Reference? {
      BindingsStay(t, c.inner, m);
    } else if t.Array? && c.Array? {
      BindingsStay(t.inner, c.inner, m);
    } else if t.Fn? && c.Fn? {
      BindingsStay(t.ret, c.ret, m);
      AllBindingsStay(t.params, c.params, Unify(t.ret, c.ret, m));
      StaysOn(m, Unify(t.ret, c.ret, m), UnifyAll(t.params, c.params, Unify(t.ret, c.ret, m)));
    } else if (t.Owned? && c.Owned?) || (t.Atomic? && c.Atomic?) {
      BindingsStay(t.inner, c.inner, m);
    }
  }

  lemma BridgeIsNamed(t: Type)
    ensures PtrBridge(t) ==> t.Concrete? && |t.args| == 1
  {
  }

  lemma {:induction false} AllBindingsStay(ts: seq<Type>, cs: seq<Type>, m: Mapping)
    ensures Stays(m, UnifyAll(ts, cs, m))
    decreases ts, cs, 1
  {
    hide Unify;
    if ts != [] && cs != [] {
      BindingsStay(ts[0], cs[0], m);
      AllBindingsStay(ts[1..], cs[1..], Unify(ts[0], cs[0], m));
    }
  }

  /** Of several places of a generic the first decides: in a function the return type, and in a list the one
      furthest to the left. */
  lemma FirstPlaceDecides(g: string, a: Type, b: Type, ts: seq<Type>, cs: seq<Type>, m: Mapping)
    requires g !in m
    ensures UnifyAll([Generic(g)] + ts, [a] + cs, m) == UnifyAll(ts, cs, m[g := a])
    ensures var found := UnifyAll([Generic(g)] + ts, [a] + cs, m); g in found && found[g] == a
    ensures var found := Unify(Fn(ts, Generic(g)), Fn(cs, b), m); g in found && found[g] == b
  {
    assert ([Generic(g)] + ts)[1..] == ts && ([a] + cs)[1..] == cs;
    AllBindingsStay(ts, cs, m[g := a]);
    AllBindingsStay(ts, cs, m[g := b]);
  }

  /** A generic in a pointer, a reference, an array, or behind `owned` or `atomic`, is bound to what stands
      there on the other side. */
  lemma GenericInside(g: string, c: Type, p: Provenance, q: Provenance, i: bool, j: bool, k: nat, n: nat, m: Mapping)
    requires g !in m
    ensures Unify(Pointer(Generic(g), p, i), Pointer(c, q, j), m) == m[g := c]
    ensures Unify(Reference(Generic(g), i), Reference(c, j), m) == m[g := c]
    ensures Unify(Array(Generic(g), k, i), Array(c, n, j), m) == m[g := c]
    ensures Unify(Owned(Generic(g)), Owned(c), m) == m[g := c] && Unify(Atomic(Generic(g)), Atomic(c), m) == m[g := c]
  {
  }

  /** Types of different kinds, and kinds that are not looked into, bind nothing. */
  lemma NothingInside(t: Type, c: Type, m: Mapping)
    requires !t.Generic? && !t.Reference? && !c.Reference? && !t.Concrete? && !c.Concrete?
    requires (t.Pointer? != c.Pointer?) || (t.Array? != c.Array?) || (t.Fn? != c.Fn?) || (t.Owned? != c.Owned?)
             || (t.Atomic? != c.Atomic?) || t.Tuple? || t.Tensor? || t.Window? || t.Struct? || t.Enum?
    ensures Unify(t, c, m) == m
  {
  }

  /** However a placeholder is spelled, it is replaced by its image; Self has two spellings. */
  lemma PlaceholdersAreReplaced(g: string, m: Mapping)
    ensures var self := if "Self" in m then Some(m["Self"]) else None;
            && Substitute(SelfType, m) == (if self.Some? then self.value else SelfType)
            && Substitute(Struct("Self"), m) == (if self.Some? then self.value else Struct("Self"))
    ensures g in m && g != "Self"
            ==> Substitute(Generic(g), m) == Substitute(Struct(g), m) == Substitute(Concrete(g, []), m) == m[g]
  {
  }

  /** Substituting nothing changes nothing. */
  lemma {:induction false} SubstituteNothing(t: Type)
    ensures Substitute(t, map[]) == t
    decreases t
  {
    match t
    case Pointer(inner, _, _) => SubstituteNothing(inner);
    case Reference(inner, _) => SubstituteNothing(inner);
    case Concrete(_, args) => SubstituteNothingInAll(args);
    case Array(inner, _, _) => SubstituteNothing(inner);
    case Fn(params, ret) =>
      SubstituteNothingInAll(params);
      SubstituteNothing(ret);
    case _ =>
  }

  lemma {:induction false} SubstituteNothingInAll(ts: seq<Type>)
    ensures SubstituteAll(ts, map[]) == ts
    decreases ts
  {
    if ts != [] {
      SubstituteNothing(ts[0]);
      SubstituteNothingInAll(ts[1..]);
    }
  }

  // Pointer wrappers and packages.

  lemma ContainsIsBetween(s: string, pat: string)
    ensures Contains(s, pat) <==> exists a, b :: s == a + pat + b
  {
    if Contains(s, pat) {
      var i :| 0 <= i <= |s| && OccursAt(s, pat, i);
      assert s == s[..i] + pat + s[i + |pat|..];
    }
    if a, b :| s == a + pat + b {
      assert OccursAt(s, pat, |a|);
    }
  }

  /** A type with one argument whose name has Ptr in it stands for a pointer on either side, and no other
      named type does. */
  lemma PointerWrappers(name: string, t: Type, c: Type, p: Provenance, isMutable: bool, m: Mapping)
    ensures var (wrapped, pointed) := (Unify(Concrete(name, [t]), Pointer(c, p, isMutable), m),
                                       Unify(Pointer(t, p, isMutable), Concrete(name, [c]), m));
            if exists a, b :: name == a + "Ptr" + b then wrapped == pointed == Unify(t, c, m)
            else wrapped == pointed == m
  {
    ContainsIsBetween(name, "Ptr");
    hide Contains;
  }

  lemma EndsBehind(s: string, suffix: string)
    ensures EndsWith(s, suffix) <==> exists a :: s == a + suffix
  {
    if EndsWith(s, suffix) {
      assert s == s[..|s| - |suffix|] + suffix;
    }
  }

  /** Named types bind when their names are equal or one is the other with a package before it, and when they
      have equally many arguments. */
  lemma PackagesAreIgnored(a: string, b: string, ts: seq<Type>, cs: seq<Type>, m: Mapping)
    ensures Unify(Concrete(a, ts), Concrete(b, cs), m)
            == if |ts| == |cs| && (a == b || (exists p :: a == p + ("__" + b)) || (exists p :: b == p + ("__" + a)))
               then UnifyAll(ts, cs, m) else m
  {
    EndsBehind(a, "__" + b);
    EndsBehind(b, "__" + a);
    hide EndsWith, UnifyAll;
  }

  /** No two underscores stand together in it, and none at its start. */
  predicate Single(s: string) {
    (s != [] ==> s[0] != '_') && forall i :: 0 <= i < |s| - 1 ==> s[i] != '_' || s[i + 1] != '_'
  }

  lemma {:induction false} LastSegmentFound(p: string, s: string, i: nat)
    requires Single(s) && |p| + 2 <= i <= |p| + 2 + |s|
    ensures LastSegmentFrom(p + "__" + s, i) == s
    decreases i
  {
    var name := p + "__" + s;
    if i == |p| + 2 {
      assert name[i - 2..i] == "__" && name[i..] == s;
    } else {
      var two, k := name[i - 2..i], i - |p| - 3;
      assert two[1] == s[k] && (k > 0 ==> two[0] == s[k - 1]);
      assert two[0] != '_' || two[1] != '_';
      LastSegmentFound(p, s, i - 1);
    }
  }

  /** A type name with a package before a generic's name is substituted like the generic. */
  lemma PackagedGeneric(p: string, s: string, m: Mapping)
    requires Single(s) && p + "__" + s !in m && p + "__" + s != "Self"
    ensures Substitute(Struct(p + "__" + s), m) == if s in m then m[s] else Struct(p + "__" + s)
  {
    var name := p + "__" + s;
    LastSegmentFound(p, s, |name|);
    ContainsIsBetween(name, "__");
    hide LastSegmentFrom, Contains;
  }
}
