/** The size and alignment calculator of salt-front/src/types.rs. */
module Layout {
  import opened Wrappers
  import opened SaltTypes
  import opened PowersOfTwo

  /** The fields of a registered struct, with the alignments written on them. */
  datatype StructInfo = StructInfo(fieldOrder: seq<Type>, fieldAlignments: seq<Option<nat>>)

  /** The entry found for a struct, an enum or a concrete type under its (mangled) name. */
  type Registry = Type -> Option<StructInfo>

  datatype Shape = Shape(size: nat, align: nat)

  const MAX_DEPTH := 32

  /** What is left of the depth budget. */
  function Fuel(depth: nat): nat {
    if depth > MAX_DEPTH then 0 else MAX_DEPTH + 1 - depth
  }

  function Max(a: nat, b: nat): nat {
    if a >= b then a else b
  }

  /** The alignment written on field `i`, or 0. */
  function Explicit(info: StructInfo, i: nat): nat {
    if i < |info.fieldAlignments| && info.fieldAlignments[i].Some? then info.fieldAlignments[i].value else 0
  }

  predicate Named(t: Type) {
    t.Struct? || t.Enum? || t.Concrete?
  }

  predicate IsOption(t: Type) {
    Named(t) && t.name == "Option"
  }

  /** The largest alignment, or 1 when there is none. */
  function Largest(aligns: seq<nat>): (r: nat)
    requires forall i :: 0 <= i < |aligns| ==> aligns[i] >= 1
    ensures r >= 1
    ensures forall i :: 0 <= i < |aligns| ==> aligns[i] <= r
    ensures r in aligns || (aligns == [] && r == 1)
  {
    if aligns == [] then 1
    else if |aligns| == 1 then aligns[0]
    else Max(Largest(aligns[..|aligns| - 1]), aligns[|aligns| - 1])
  }

  function AlignOf(t: Type, reg: Registry, depth: nat): (r: nat)
    ensures r >= 1
    decreases Fuel(depth), 2
  {
    if depth > MAX_DEPTH then 8
    else
      match t
      case I8 => 1
      case U8 => 1
      case Bool => 1
      case Never => 1
      case Unit => 1
      case I16 => 2
      case U16 => 2
      case I32 => 4
      case U32 => 4
      case F32 => 4
      case Atomic(inner) => AlignOf(inner, reg, depth + 1)
      case Array(inner, _, _) => AlignOf(inner, reg, depth + 1)
      case Tensor(inner, _) => AlignOf(inner, reg, depth + 1)
      case Tuple(elems) => Largest(ElemAligns(elems, reg, depth))
      case Struct(_) => NamedAlign(t, reg, depth)
      case Enum(_) => NamedAlign(t, reg, depth)
      case Concrete(_, _) => NamedAlign(t, reg, depth)
      case _ => 8
  }

  function ElemAligns(elems: seq<Type>, reg: Registry, depth: nat): (r: seq<nat>)
    requires depth <= MAX_DEPTH
    ensures |r| == |elems| && forall i :: 0 <= i < |r| ==> r[i] >= 1
    decreases Fuel(depth), 1
  {
    seq(|elems|, i requires 0 <= i < |elems| => AlignOf(elems[i], reg, depth + 1))
  }

  function FieldAligns(info: StructInfo, reg: Registry, depth: nat): (r: seq<nat>)
    requires depth <= MAX_DEPTH
    ensures |r| == |info.fieldOrder| && forall i :: 0 <= i < |r| ==> r[i] >= 1
    decreases Fuel(depth), 0
  {
    seq(|info.fieldOrder|,
        i requires 0 <= i < |info.fieldOrder| =>
          Max(AlignOf(info.fieldOrder[i], reg, depth + 1), Explicit(info, i)))
  }

  function NamedAlign(t: Type, reg: Registry, depth: nat): (r: nat)
    requires depth <= MAX_DEPTH
    ensures r >= 1
    decreases Fuel(depth), 1
  {
    match reg(t)
    case None => 8
    case Some(info) => Largest(FieldAligns(info, reg, depth))
  }

  // Packing a list of fields, one after the other.

  predicate Packable(fs: seq<Shape>) {
    forall i :: 0 <= i < |fs| ==> fs[i].align >= 1
  }

  /** Where field `i` starts. */
  function Offset(fs: seq<Shape>, i: nat): nat
    requires Packable(fs) && i < |fs|
    decreases i, 1
  {
    RoundUp(End(fs, i), fs[i].align)
  }

  /** Where the first `i` fields end. */
  function End(fs: seq<Shape>, i: nat): nat
    requires Packable(fs) && i <= |fs|
    decreases i, 0
  {
    if i == 0 then 0 else Offset(fs, i - 1) + fs[i - 1].size
  }

  function MaxAlign(fs: seq<Shape>, i: nat): (r: nat)
    requires Packable(fs) && i <= |fs|
    ensures r >= 1
  {
    if i == 0 then 1 else Max(MaxAlign(fs, i - 1), fs[i - 1].align)
  }

  function Packed(fs: seq<Shape>): nat
    requires Packable(fs)
  {
    RoundUp(End(fs, |fs|), MaxAlign(fs, |fs|))
  }

  function Product(dims: seq<nat>): nat {
    if dims == [] then 1 else Product(dims[..|dims| - 1]) * dims[|dims| - 1]
  }

  function SizeOf(t: Type, reg: Registry, depth: nat): nat
    decreases Fuel(depth), 1
  {
    if depth > MAX_DEPTH then 8
    else
      match t
      case I8 => 1
      case U8 => 1
      case Bool => 1
      case Never => 0
      case I16 => 2
      case U16 => 2
      case I32 => 4
      case U32 => 4
      case F32 => 4
      case Atomic(inner) => SizeOf(inner, reg, depth + 1)
      case Array(inner, len, _) => SizeOf(inner, reg, depth + 1) * len
      case Tensor(inner, dims) => SizeOf(inner, reg, depth + 1) * Product(dims)
      case Tuple(elems) => Packed(ElemShapes(elems, reg, depth))
      case Struct(_) => NamedSize(t, reg, depth)
      case Enum(_) => NamedSize(t, reg, depth)
      case Concrete(_, _) => NamedSize(t, reg, depth)
      case Window(_, _) => 16
      case _ => 8
  }

  function NamedSize(t: Type, reg: Registry, depth: nat): nat
    requires Named(t) && depth <= MAX_DEPTH
    decreases Fuel(depth), 0
  {
    if t.name == "Option" then 16
    else
      match reg(t)
      case None => 8
      case Some(info) => Packed(FieldShapes(info, reg, depth))
  }

  function ElemShapes(elems: seq<Type>, reg: Registry, depth: nat): (r: seq<Shape>)
    requires depth <= MAX_DEPTH
    ensures |r| == |elems| && Packable(r)
    decreases Fuel(depth), 0
  {
    seq(|elems|, i requires 0 <= i < |elems| =>
          Shape(SizeOf(elems[i], reg, depth + 1), AlignOf(elems[i], reg, depth + 1)))
  }

  function FieldShapes(info: StructInfo, reg: Registry, depth: nat): (r: seq<Shape>)
    requires depth <= MAX_DEPTH
    ensures |r| == |info.fieldOrder| && Packable(r)
    decreases Fuel(depth + 1), 2
  {
    seq(|info.fieldOrder|, i requires 0 <= i < |info.fieldOrder| =>
          Shape(SizeOf(info.fieldOrder[i], reg, depth + 1), FieldAligns(info, reg, depth)[i]))
  }

  // The calculator, with its loops.

  method InternalSizeOf(t: Type, reg: Registry, depth: nat) returns (r: nat)
    ensures r == SizeOf(t, reg, depth)
    decreases Fuel(depth)
  {
    hide AlignOf, Packed, RoundUp, NamedSize, ElemShapes;
    if depth > MAX_DEPTH { return 8; }
    match t
    case I8 => r := 1;
    case U8 => r := 1;
    case Bool => r := 1;
    case Never => r := 0;
    case I16 => r := 2;
    case U16 => r := 2;
    case I32 => r := 4;
    case U32 => r := 4;
    case F32 => r := 4;
    case Atomic(inner) => r := InternalSizeOf(inner, reg, depth + 1);
    case Array(inner, len, _) =>
      r := InternalSizeOf(inner, reg, depth + 1);
      r := r * len;
    case Tensor(inner, dims) =>
      r := InternalSizeOf(inner, reg, depth + 1);
      r := r * Product(dims);
    case Tuple(elems) =>
      r := PackTuple(elems, reg, depth);
    case Struct(name) => r := SizeOfNamed(t, reg, depth);
    case Enum(name) => r := SizeOfNamed(t, reg, depth);
    case Concrete(name, _) => r := SizeOfNamed(t, reg, depth);
    case Window(_, _) => r := 16;
    case _ => r := 8;
  }

  method PackTuple(elems: seq<Type>, reg: Registry, depth: nat) returns (r: nat)
    requires depth <= MAX_DEPTH
    ensures r == Packed(ElemShapes(elems, reg, depth))
    decreases Fuel(depth), 0
  {
    hide SizeOf, AlignOf, RoundUp;
    ghost var fs := ElemShapes(elems, reg, depth);
    if elems == [] {
      EmptyPacks(fs);
      return 0;
    }
    var offset, maxAlign := 0, 1;
    for i := 0 to |elems|
      invariant offset == End(fs, i) && maxAlign == MaxAlign(fs, i) >= 1
    {
      var align := AlignOf(elems[i], reg, depth + 1);
      maxAlign := Max(maxAlign, align);
      offset := RoundUp(offset, align);
      var size := InternalSizeOf(elems[i], reg, depth + 1);
      offset := offset + size;
    }
    r := RoundUp(offset, maxAlign);
  }

  lemma EmptyPacks(fs: seq<Shape>)
    requires fs == []
    ensures Packed(fs) == 0
  {
  }

  lemma FieldAlignment(info: StructInfo, reg: Registry, depth: nat, i: nat)
    requires depth <= MAX_DEPTH && i < |info.fieldOrder|
    ensures FieldShapes(info, reg, depth)[i].align
            == Max(AlignOf(info.fieldOrder[i], reg, depth + 1), Explicit(info, i))
  {
    hide AlignOf, SizeOf;
  }

  method SizeOfNamed(t: Type, reg: Registry, depth: nat) returns (r: nat)
    requires Named(t) && depth <= MAX_DEPTH
    ensures r == NamedSize(t, reg, depth)
    decreases Fuel(depth), 0
  {
    hide SizeOf, AlignOf, RoundUp;
    if t.name == "Option" { return 16; }
    match reg(t)
    case None => r := 8;
    case Some(info) =>
      ghost var fs := FieldShapes(info, reg, depth);
      var offset, maxAlign := 0, 1;
      for i := 0 to |info.fieldOrder|
        invariant offset == End(fs, i) && maxAlign == MaxAlign(fs, i) >= 1
      {
        var align := AlignOf(info.fieldOrder[i], reg, depth + 1);
        if i < |info.fieldAlignments| && info.fieldAlignments[i].Some? {
          align := Max(align, info.fieldAlignments[i].value);
        }
        FieldAlignment(info, reg, depth, i);
        maxAlign := Max(maxAlign, align);
        offset := RoundUp(offset, align);
        var size := InternalSizeOf(info.fieldOrder[i], reg, depth + 1);
        offset := offset + size;
      }
      r := RoundUp(offset, maxAlign);
  }

  // What the sizes are.

  /** The least and the largest value of an integer type of 64 bits or fewer. */
  function Range(t: Type): Option<(int, int)> {
    match t
    case I8 => Some((-0x80, 0x7f))
    case I16 => Some((-0x8000, 0x7fff))
    case I32 => Some((-0x8000_0000, 0x7fff_ffff))
    case I64 => Some((-0x8000_0000_0000_0000, 0x7fff_ffff_ffff_ffff))
    case U8 => Some((0, 0xff))
    case U16 => Some((0, 0xffff))
    case U32 => Some((0, 0xffff_ffff))
    case U64 => Some((0, 0xffff_ffff_ffff_ffff))
    case Usize => Some((0, 0xffff_ffff_ffff_ffff))
    case _ => None
  }

  /** How many values there are of `n` bytes. */
  function ByteValues(n: nat): nat {
    if n == 0 then 1 else 256 * ByteValues(n - 1)
  }

  /** An integer type has as many bytes as its values need. */
  lemma IntegersFit(t: Type, reg: Registry, depth: nat)
    requires Range(t).Some? && depth <= 32
    ensures var (lo, hi) := Range(t).value; ByteValues(SizeOf(t, reg, depth)) == hi - lo + 1
  {
    FewBytes();
  }

  lemma FewBytes()
    ensures ByteValues(1) == 0x100 && ByteValues(2) == 0x1_0000 && ByteValues(4) == 0x1_0000_0000
    ensures ByteValues(8) == 0x1_0000_0000_0000_0000
  {
    assert ByteValues(0) == 1;
    assert ByteValues(3) == 0x100_0000;
    assert ByteValues(4) == 0x1_0000_0000;
    assert ByteValues(5) == 0x100_0000_0000;
    assert ByteValues(6) == 0x1_0000_0000_0000;
    assert ByteValues(7) == 0x100_0000_0000_0000;
  }

  predicate Scalar(t: Type) {
    Range(t).Some? || t.F32? || t.F64? || t.Bool? || t.Pointer? || t.Reference?
  }

  /** Numbers, truth values and pointers are aligned to their size; a pointer is as large as Usize. */
  lemma ScalarsAreAligned(t: Type, reg: Registry, depth: nat)
    requires Scalar(t) && depth <= 32
    ensures AlignOf(t, reg, depth) == SizeOf(t, reg, depth)
    ensures t.F32? ==> SizeOf(t, reg, depth) == 4
    ensures t.F64? ==> SizeOf(t, reg, depth) == 8
    ensures t.Bool? ==> SizeOf(t, reg, depth) == 1
    ensures t.Pointer? || t.Reference? ==> SizeOf(t, reg, depth) == 8
  {
  }

  /** The types without a value of their own, what is not known, and what lies too deep. */
  lemma FixedShapes(t: Type, reg: Registry, depth: nat)
    requires depth <= 32
    ensures t.Unit? ==> SizeOf(t, reg, depth) == 8 && AlignOf(t, reg, depth) == 1
    ensures t.Never? ==> SizeOf(t, reg, depth) == 0 && AlignOf(t, reg, depth) == 1
    ensures t.Window? ==> SizeOf(t, reg, depth) == 16 && AlignOf(t, reg, depth) == 8
    ensures t.Owned? || t.Fn? || t.Generic? || t.SelfType? ==> SizeOf(t, reg, depth) == 8 && AlignOf(t, reg, depth) == 8
    ensures Named(t) && t.name == "Option" ==> SizeOf(t, reg, depth) == 16
    ensures Named(t) && t.name != "Option" && reg(t).None? ==> SizeOf(t, reg, depth) == 8 && AlignOf(t, reg, depth) == 8
    ensures forall d: nat, u: Type | d > 32 :: SizeOf(u, reg, d) == 8 && AlignOf(u, reg, d) == 8
  {
  }

  /** One more element costs the element's size; an atomic is laid out as what it holds. */
  lemma ArraysAddUp(t: Type, n: nat, packed: bool, reg: Registry, depth: nat)
    requires depth <= 32
    ensures SizeOf(Array(t, 0, packed), reg, depth) == 0
    ensures SizeOf(Array(t, n + 1, packed), reg, depth)
            == SizeOf(Array(t, n, packed), reg, depth) + SizeOf(t, reg, depth + 1)
    ensures AlignOf(Array(t, n, packed), reg, depth) == AlignOf(t, reg, depth + 1)
    ensures SizeOf(Atomic(t), reg, depth) == SizeOf(t, reg, depth + 1)
    ensures AlignOf(Atomic(t), reg, depth) == AlignOf(t, reg, depth + 1)
  {
    Distributes(SizeOf(t, reg, depth + 1), n);
  }

  lemma Distributes(size: nat, n: nat)
    ensures size * (n + 1) == size * n + size && size * 0 == 0
  {
  }

  /** A tensor without dimensions is one element; in its last dimension one more costs the tensor of the others. */
  lemma TensorsAddUp(t: Type, dims: seq<nat>, n: nat, reg: Registry, depth: nat)
    requires depth <= 32
    ensures SizeOf(Tensor(t, []), reg, depth) == SizeOf(t, reg, depth + 1)
    ensures SizeOf(Tensor(t, dims + [0]), reg, depth) == 0
    ensures SizeOf(Tensor(t, dims + [n + 1]), reg, depth)
            == SizeOf(Tensor(t, dims + [n]), reg, depth) + SizeOf(Tensor(t, dims), reg, depth)
    ensures AlignOf(Tensor(t, dims), reg, depth) == AlignOf(t, reg, depth + 1)
  {
    hide AlignOf, SizeOf, Product;
    NoDimensions(t, dims, reg, depth);
    OneMoreDimension(t, dims, 0, reg, depth);
    OneMoreDimension(t, dims, n, reg, depth);
    OneMoreDimension(t, dims, n + 1, reg, depth);
    Distributes(SizeOf(Tensor(t, dims), reg, depth), n);
  }

  lemma NoDimensions(t: Type, dims: seq<nat>, reg: Registry, depth: nat)
    requires depth <= 32
    ensures SizeOf(Tensor(t, []), reg, depth) == SizeOf(t, reg, depth + 1)
    ensures AlignOf(Tensor(t, dims), reg, depth) == AlignOf(t, reg, depth + 1)
  {
    var none: seq<nat> := [];
    assert Product(none) == 1;
    hide AlignOf, SizeOf, Product;
    TensorShape(t, none, reg, depth);
    TimesOne(SizeOf(t, reg, depth + 1), Product(none));
    TensorAlign(t, dims, reg, depth);
  }

  lemma TimesOne(a: nat, b: nat)
    requires b == 1
    ensures a * b == a
  {
  }

  lemma TensorAlign(t: Type, dims: seq<nat>, reg: Registry, depth: nat)
    requires depth <= 32
    ensures AlignOf(Tensor(t, dims), reg, depth) == AlignOf(t, reg, depth + 1)
  {
  }

  lemma OneMoreDimension(t: Type, dims: seq<nat>, n: nat, reg: Registry, depth: nat)
    requires depth <= 32
    ensures SizeOf(Tensor(t, dims + [n]), reg, depth) == SizeOf(Tensor(t, dims), reg, depth) * n
  {
    hide AlignOf, SizeOf;
    TensorShape(t, dims, reg, depth);
    TensorShape(t, dims + [n], reg, depth);
    assert (dims + [n])[..|dims|] == dims;
    Associates(SizeOf(t, reg, depth + 1), Product(dims), n);
  }

  lemma Associates(a: nat, b: nat, c: nat)
    ensures a * (b * c) == a * b * c
  {
  }

  lemma TensorShape(t: Type, dims: seq<nat>, reg: Registry, depth: nat)
    requires depth <= 32
    ensures SizeOf(Tensor(t, dims), reg, depth) == SizeOf(t, reg, depth + 1) * Product(dims)
  {
  }

  // Soundness of the layout.

  /** Every alignment written in a registered struct is a power of two (0 stands for none). */
  ghost predicate PowersWritten(reg: Registry) {
    forall t: Type, i: nat | reg(t).Some? :: PowerWritten(reg(t).value, i)
  }

  predicate PowerWritten(info: StructInfo, i: nat) {
    Explicit(info, i) == 0 || IsPow2(Explicit(info, i))
  }

  lemma SmallPowers()
    ensures IsPow2(1) && IsPow2(2) && IsPow2(4) && IsPow2(8) && IsPow2(16)
  {
    assert IsPow2(2) && IsPow2(4);
    assert IsPow2(8);
  }

  /** Every alignment is a power of two, whatever the registry refers back to. */
  lemma {:induction false} AlignIsPow2(t: Type, reg: Registry, depth: nat)
    requires PowersWritten(reg)
    ensures IsPow2(AlignOf(t, reg, depth))
    decreases Fuel(depth), 2
  {
    SmallPowers();
    if depth <= MAX_DEPTH {
      match t
      case Atomic(inner) => AlignIsPow2(inner, reg, depth + 1);
      case Array(inner, _, _) => AlignIsPow2(inner, reg, depth + 1);
      case Tensor(inner, _) => AlignIsPow2(inner, reg, depth + 1);
      case Tuple(elems) => ElemAlignsArePow2(elems, reg, depth);
      case Struct(_) => NamedAlignIsPow2(t, reg, depth);
      case Enum(_) => NamedAlignIsPow2(t, reg, depth);
      case Concrete(_, _) => NamedAlignIsPow2(t, reg, depth);
      case _ =>
    }
  }

  lemma {:induction false} ElemAlignsArePow2(elems: seq<Type>, reg: Registry, depth: nat)
    requires PowersWritten(reg) && depth <= MAX_DEPTH
    ensures forall i :: 0 <= i < |elems| ==> IsPow2(ElemAligns(elems, reg, depth)[i])
    decreases Fuel(depth), 0
  {
    hide AlignOf, IsPow2;
    forall i | 0 <= i < |elems|
      ensures IsPow2(ElemAligns(elems, reg, depth)[i])
    {
      AlignIsPow2(elems[i], reg, depth + 1);
    }
  }

  lemma {:induction false} FieldAlignsArePow2(info: StructInfo, reg: Registry, depth: nat)
    requires PowersWritten(reg) && depth <= MAX_DEPTH
    requires forall i: nat :: PowerWritten(info, i)
    ensures forall i :: 0 <= i < |info.fieldOrder| ==> IsPow2(FieldAligns(info, reg, depth)[i])
    decreases Fuel(depth), 0
  {
    hide AlignOf, IsPow2;
    forall i | 0 <= i < |info.fieldOrder|
      ensures IsPow2(FieldAligns(info, reg, depth)[i])
    {
      AlignIsPow2(info.fieldOrder[i], reg, depth + 1);
      assert PowerWritten(info, i);
    }
  }

  lemma {:induction false} NamedAlignIsPow2(t: Type, reg: Registry, depth: nat)
    requires PowersWritten(reg) && depth <= MAX_DEPTH
    ensures IsPow2(NamedAlign(t, reg, depth))
    decreases Fuel(depth), 1
  {
    hide AlignOf, IsPow2;
    SmallPowers();
    if reg(t).Some? {
      forall i: nat
        ensures PowerWritten(reg(t).value, i)
      {
      }
      FieldAlignsArePow2(reg(t).value, reg, depth);
    }
  }

  predicate Aligned(fs: seq<Shape>) {
    forall i :: 0 <= i < |fs| ==> IsPow2(fs[i].align)
  }

  lemma AlignedPacks(fs: seq<Shape>)
    requires Aligned(fs)
    ensures Packable(fs)
  {
    forall i | 0 <= i < |fs|
      ensures fs[i].align >= 1
    {
      assert IsPow2(fs[i].align);
    }
  }

  /** The alignment of the whole is a power of two that every field's alignment divides. */
  lemma {:induction false} MaxAlignDivides(fs: seq<Shape>, n: nat)
    requires Aligned(fs) && Packable(fs) && n <= |fs|
    ensures IsPow2(MaxAlign(fs, n))
    ensures forall i :: 0 <= i < n ==> fs[i].align <= MaxAlign(fs, n)
  {
    if n > 0 {
      MaxAlignDivides(fs, n - 1);
    }
  }

  /** Each field starts at the first aligned place at or after the end of the fields before it. */
  lemma {:induction false} FieldsInOrder(fs: seq<Shape>, i: nat, n: nat)
    requires Aligned(fs) && Packable(fs) && i < n <= |fs|
    ensures Offset(fs, i) % fs[i].align == 0
    ensures End(fs, i) <= Offset(fs, i) < End(fs, i) + fs[i].align
    ensures Offset(fs, i) + fs[i].size <= End(fs, n)
    decreases n
  {
    hide RoundUp, IsPow2;
    RoundUpAligned(End(fs, i), fs[i].align);
    if i < n - 1 {
      FieldsInOrder(fs, i, n - 1);
      RoundUpAligned(End(fs, n - 1), fs[n - 1].align);
    }
  }

  /** Where field `i` lies in a packed list of fields: aligned, disjoint from the others, inside the total. */
  ghost predicate Sound(fs: seq<Shape>)
    requires Packable(fs)
  {
    && (forall i :: 0 <= i < |fs| ==>
          && Offset(fs, i) % fs[i].align == 0
          && Offset(fs, i) + fs[i].size <= Packed(fs)
          && MaxAlign(fs, |fs|) % fs[i].align == 0)
    && (forall i, j :: 0 <= i < j < |fs| ==> Offset(fs, i) + fs[i].size <= Offset(fs, j))
    && Packed(fs) % MaxAlign(fs, |fs|) == 0
    && Packed(fs) < End(fs, |fs|) + MaxAlign(fs, |fs|)
  }

  lemma PackingIsSound(fs: seq<Shape>)
    requires Aligned(fs) && Packable(fs)
    ensures Sound(fs)
  {
    hide RoundUp, IsPow2;
    MaxAlignDivides(fs, |fs|);
    RoundUpAligned(End(fs, |fs|), MaxAlign(fs, |fs|));
    forall i | 0 <= i < |fs|
      ensures Offset(fs, i) % fs[i].align == 0
      ensures Offset(fs, i) + fs[i].size <= Packed(fs)
      ensures MaxAlign(fs, |fs|) % fs[i].align == 0
    {
      FieldsInOrder(fs, i, |fs|);
      Pow2Divides(fs[i].align, MaxAlign(fs, |fs|));
    }
    forall i, j | 0 <= i < j < |fs|
      ensures Offset(fs, i) + fs[i].size <= Offset(fs, j)
    {
      FieldsInOrder(fs, i, j);
      FieldsInOrder(fs, j, |fs|);
    }
  }

  lemma {:induction false} LargestIsMax(aligns: seq<nat>, fs: seq<Shape>, n: nat)
    requires Packable(fs) && n <= |fs| == |aligns|
    requires forall i :: 0 <= i < |fs| ==> aligns[i] == fs[i].align
    ensures Largest(aligns[..n]) == MaxAlign(fs, n)
  {
    if n > 0 {
      LargestIsMax(aligns, fs, n - 1);
      assert aligns[..n][..n - 1] == aligns[..n - 1];
      assert n == 1 ==> aligns[..n] == [aligns[0]];
    }
  }

  /** A field takes its type's size, and its type's alignment or the one written on it, if that is larger. */
  predicate FieldShape(shape: Shape, info: StructInfo, i: nat, reg: Registry, depth: nat)
    requires i < |info.fieldOrder|
  {
    var align := AlignOf(info.fieldOrder[i], reg, depth);
    && shape.size == SizeOf(info.fieldOrder[i], reg, depth)
    && shape.align == match (if i < |info.fieldAlignments| then info.fieldAlignments[i] else None)
                      case None => align
                      case Some(written) => if written > align then written else align
  }

  /** A registered struct is laid out soundly, and its alignment is that of its layout. */
  lemma StructIsSound(t: Type, reg: Registry, depth: nat)
    requires PowersWritten(reg) && Named(t) && depth <= MAX_DEPTH && reg(t).Some?
    ensures AlignOf(t, reg, depth) == MaxAlign(FieldShapes(reg(t).value, reg, depth), |reg(t).value.fieldOrder|)
    ensures !IsOption(t) ==> SizeOf(t, reg, depth) == Packed(FieldShapes(reg(t).value, reg, depth))
    ensures Sound(FieldShapes(reg(t).value, reg, depth))
    ensures forall i :: 0 <= i < |reg(t).value.fieldOrder| ==>
              FieldShape(FieldShapes(reg(t).value, reg, depth)[i], reg(t).value, i, reg, depth + 1)
  {
    hide IsPow2, RoundUp, Sound, Largest, FieldShape;
    var info := reg(t).value;
    var fs := FieldShapes(info, reg, depth);
    var aligns := FieldAligns(info, reg, depth);
    forall i: nat
      ensures PowerWritten(info, i)
    {
    }
    FieldAlignsArePow2(info, reg, depth);
    LargestIsMax(aligns, fs, |fs|);
    assert aligns[..|fs|] == aligns;
    PackingIsSound(fs);
    FieldsAreShaped(info, reg, depth);
  }

  lemma FieldsAreShaped(info: StructInfo, reg: Registry, depth: nat)
    requires depth <= MAX_DEPTH
    ensures forall i :: 0 <= i < |info.fieldOrder| ==>
              FieldShape(FieldShapes(info, reg, depth)[i], info, i, reg, depth + 1)
  {
    hide AlignOf, SizeOf;
    forall i | 0 <= i < |info.fieldOrder|
      ensures FieldShape(FieldShapes(info, reg, depth)[i], info, i, reg, depth + 1)
    {
      FieldAlignment(info, reg, depth, i);
    }
  }

  lemma TupleIsSound(elems: seq<Type>, reg: Registry, depth: nat)
    requires PowersWritten(reg) && depth <= MAX_DEPTH
    ensures AlignOf(Tuple(elems), reg, depth) == MaxAlign(ElemShapes(elems, reg, depth), |elems|)
    ensures SizeOf(Tuple(elems), reg, depth) == Packed(ElemShapes(elems, reg, depth))
    ensures Sound(ElemShapes(elems, reg, depth))
    ensures forall i :: 0 <= i < |elems| ==>
              ElemShapes(elems, reg, depth)[i]
              == Shape(SizeOf(elems[i], reg, depth + 1), AlignOf(elems[i], reg, depth + 1))
  {
    hide IsPow2, RoundUp, Sound, Largest;
    var fs := ElemShapes(elems, reg, depth);
    var aligns := ElemAligns(elems, reg, depth);
    ElemAlignsArePow2(elems, reg, depth);
    LargestIsMax(aligns, fs, |fs|);
    assert aligns[..|fs|] == aligns;
    PackingIsSound(fs);
  }

  /** No type called Option is aligned to more than the 16 bytes it is given. */
  ghost predicate OptionsFit(reg: Registry) {
    forall t: Type, depth: nat | IsOption(t) && depth <= MAX_DEPTH :: AlignOf(t, reg, depth) <= 16
  }

  lemma {:induction false} SizeIsMultiple(t: Type, reg: Registry, depth: nat)
    requires PowersWritten(reg) && OptionsFit(reg)
    ensures SizeOf(t, reg, depth) % AlignOf(t, reg, depth) == 0
    decreases Fuel(depth)
  {
    hide Packed, MaxAlign, NamedSize, NamedAlign, ElemShapes, ElemAligns, Largest, OptionsFit, PowersWritten, IsPow2;
    if depth <= MAX_DEPTH {
      match t
      case Atomic(inner) => SizeIsMultiple(inner, reg, depth + 1);
      case Array(inner, len, _) =>
        SizeIsMultiple(inner, reg, depth + 1);
        TimesMod(SizeOf(inner, reg, depth + 1), len, AlignOf(inner, reg, depth + 1));
      case Tensor(inner, dims) =>
        SizeIsMultiple(inner, reg, depth + 1);
        TimesMod(SizeOf(inner, reg, depth + 1), Product(dims), AlignOf(inner, reg, depth + 1));
      case Tuple(elems) => TupleIsSound(elems, reg, depth);
      case Struct(_) => NamedSizeIsMultiple(t, reg, depth);
      case Enum(_) => NamedSizeIsMultiple(t, reg, depth);
      case Concrete(_, _) => NamedSizeIsMultiple(t, reg, depth);
      case _ =>
    }
  }

  lemma NamedSizeIsMultiple(t: Type, reg: Registry, depth: nat)
    requires PowersWritten(reg) && OptionsFit(reg) && Named(t) && depth <= MAX_DEPTH
    ensures SizeOf(t, reg, depth) % AlignOf(t, reg, depth) == 0
  {
    if IsOption(t) {
      SmallPowers();
      AlignIsPow2(t, reg, depth);
      Pow2Divides(AlignOf(t, reg, depth), 16);
    } else if reg(t).Some? {
      StructIsSound(t, reg, depth);
    }
  }

  /** Every size is a multiple of its alignment exactly when no Option outgrows its fixed 16 bytes. */
  lemma SizesAreMultiples(reg: Registry)
    requires PowersWritten(reg)
    ensures OptionsFit(reg)
            <==> forall t: Type, depth: nat :: SizeOf(t, reg, depth) % AlignOf(t, reg, depth) == 0
  {
    hide AlignOf, SizeOf;
    if OptionsFit(reg) {
      forall t: Type, depth: nat
        ensures SizeOf(t, reg, depth) % AlignOf(t, reg, depth) == 0
      {
        SizeIsMultiple(t, reg, depth);
      }
    } else {
      var t: Type, depth: nat :| IsOption(t) && depth <= MAX_DEPTH && !(AlignOf(t, reg, depth) <= 16);
      OptionSize(t, reg, depth);
      SmallMod(16, AlignOf(t, reg, depth));
      assert SizeOf(t, reg, depth) % AlignOf(t, reg, depth) != 0;
    }
  }

  lemma OptionSize(t: Type, reg: Registry, depth: nat)
    requires IsOption(t) && depth <= MAX_DEPTH
    ensures SizeOf(t, reg, depth) == 16
  {
  }

  /** A registry whose one entry is an Option holding an I64 aligned to 32. */
  function OutgrownRegistry(): Registry {
    t => if t == Struct("Option") then Some(StructInfo([I64], [Some(32)])) else None
  }

  /** Such an Option is outgrown, though every alignment written is a power of two. */
  lemma OptionOutgrown()
    ensures PowersWritten(OutgrownRegistry())
    ensures SizeOf(Struct("Option"), OutgrownRegistry(), 0) % AlignOf(Struct("Option"), OutgrownRegistry(), 0) != 0
  {
    hide AlignOf, SizeOf, IsPow2;
    ThirtyTwo();
    OutgrownAlign(Struct("Option"), StructInfo([I64], [Some(32)]), OutgrownRegistry());
    OptionSize(Struct("Option"), OutgrownRegistry(), 0);
  }

  lemma ThirtyTwo()
    ensures IsPow2(32)
  {
    SmallPowers();
    assert 32 / 2 == 16;
  }

  lemma OutgrownAlign(t: Type, info: StructInfo, reg: Registry)
    requires t.Struct? && reg(t) == Some(info) && info == StructInfo([I64], [Some(32)])
    ensures AlignOf(t, reg, 0) == 32
  {
    hide IsPow2;
    assert AlignOf(I64, reg, 1) == 8;
    assert FieldAligns(info, reg, 0) == [32];
    assert NamedAlign(t, reg, 0) == Largest([32]) == 32;
  }

  /** Written alignments have to be powers of two: any other misplaces the second of two bytes. */
  lemma WrittenAlignmentsMatter(a: nat, reg: Registry, t: Type)
    requires a >= 1 && reg(t) == Some(StructInfo([I8, I8], [None, Some(a)]))
    ensures IsPow2(a) <==> Sound(FieldShapes(reg(t).value, reg, 0))
  {
    hide RoundUp, IsPow2;
    var info := reg(t).value;
    var fs := FieldShapes(info, reg, 0);
    SmallPowers();
    FieldAlignment(info, reg, 0, 0);
    FieldAlignment(info, reg, 0, 1);
    RoundUpOne(a);
    RoundUpAligned(0, 1);
    assert fs == [Shape(1, 1), Shape(1, a)];
    assert End(fs, 1) == Offset(fs, 0) + 1 == 1;
    assert Offset(fs, 1) == RoundUp(1, a);
    if IsPow2(a) {
      PackingIsSound(fs);
    }
  }
}
