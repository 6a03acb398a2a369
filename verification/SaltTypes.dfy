/** The type language of salt-front/src/types.rs, with substitution. */
module SaltTypes {
  datatype Provenance = Static | Stack | Heap(region: string) | Naked

  datatype Type =
    | I8 | I16 | I32 | I64
    | U8 | U16 | U32 | U64 | Usize
    | F32 | F64
    | Bool | Unit
    | Struct(name: string)
    | Generic(name: string)
    | Concrete(name: string, args: seq<Type>)
    | Owned(inner: Type)
    | Tensor(inner: Type, dims: seq<nat>)
    | Array(inner: Type, len: nat, packed: bool)
    | Tuple(elems: seq<Type>)
    | Fn(params: seq<Type>, ret: Type)
    | Enum(name: string)
    | Atomic(inner: Type)
    | Window(inner: Type, region: string)
    | Pointer(inner: Type, provenance: Provenance, isMutable: bool)
    | Reference(inner: Type, isMutable: bool)
    | Never
    | SelfType

  /** Whether `pat` occurs in `s`. */
  predicate Contains(s: string, pat: string) {
    exists i :: 0 <= i <= |s| && OccursAt(s, pat, i)
  }

  predicate OccursAt(s: string, pat: string, i: nat) {
    i + |pat| <= |s| && s[i..i + |pat|] == pat
  }

  predicate EndsWith(s: string, suffix: string) {
    |suffix| <= |s| && s[|s| - |suffix|..] == suffix
  }

  /** What follows the last `__` of a mangled name. */
  function LastSegment(s: string): string {
    LastSegmentFrom(s, |s|)
  }

  function LastSegmentFrom(s: string, i: nat): string
    requires i <= |s|
  {
    if i < 2 then s else if s[i - 2..i] == "__" then s[i..] else LastSegmentFrom(s, i - 1)
  }

  type Mapping = map<string, Type>

  function Lookup(m: Mapping, name: string, otherwise: Type): Type {
    if name in m then m[name] else otherwise
  }

  function Substitute(t: Type, m: Mapping): Type
    decreases t
  {
    match t
    case Generic(name) => Lookup(m, name, t)
    case SelfType => Lookup(m, "Self", t)
    case Struct(name) =>
      if name == "Self" then Lookup(m, "Self", t)
      else if name in m then m[name]
      else if Contains(name, "__") then Lookup(m, LastSegment(name), t)
      else t
    case Pointer(inner, provenance, isMutable) => Pointer(Substitute(inner, m), provenance, isMutable)
    case Reference(inner, isMutable) => Reference(Substitute(inner, m), isMutable)
    case Concrete(name, args) =>
      if args == [] && name in m then m[name] else Concrete(name, SubstituteAll(args, m))
    case Array(inner, len, packed) => Array(Substitute(inner, m), len, packed)
    case Fn(params, ret) => Fn(SubstituteAll(params, m), Substitute(ret, m))
    case _ => t
  }

  function SubstituteAll(ts: seq<Type>, m: Mapping): (r: seq<Type>)
    ensures |r| == |ts|
    decreases ts
  {
    if ts == [] then [] else [Substitute(ts[0], m)] + SubstituteAll(ts[1..], m)
  }
}
