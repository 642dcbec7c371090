/** Sizes and alignments of HIR types, as the code generator computes them for itself before the module
    has a data layout; the LLVM shapes it builds; and what those shapes occupy on a 64-bit target.
    `n` bounds the depth of the recursion: a computation that needs more is `TooDeep`. */
module Layout {
  import opened Wrappers
  import opened Hir

  const U64_MAX: nat := 0xFFFF_FFFF_FFFF_FFFF
  const TWO_32: nat := 0x1_0000_0000

  datatype LayoutError = ModuleNotSet | SymbolNotFound | NoSize | Overflow | UnsupportedWidth

  datatype Outcome<+T> = Done(v: T) | Failed(e: LayoutError) | TooDeep
  {
    predicate IsFailure() { !Done? }
    function PropagateFailure<U>(): Outcome<U>
      requires IsFailure()
    {
      if Failed? then Failed(e) else TooDeep
    }
    function Extract(): T
      requires !IsFailure()
    {
      v
    }
  }

  /** The field types of each struct and the payload of each variant of each union. */
  datatype Defs = Defs(structs: seq<seq<HirType>>, unions: seq<seq<Option<HirType>>>)

  function StructFields(m: Option<Defs>, id: nat): Outcome<seq<HirType>>
  {
    if m.None? then Failed(ModuleNotSet)
    else if id < |m.value.structs| then Done(m.value.structs[id]) else Failed(SymbolNotFound)
  }

  function UnionVariants(m: Option<Defs>, id: nat): Outcome<seq<Option<HirType>>>
  {
    if m.None? then Failed(ModuleNotSet)
    else if id < |m.value.unions| then Done(m.value.unions[id]) else Failed(SymbolNotFound)
  }

  // ----- Arithmetic on 64 bits -----

  function U64(n: nat): Outcome<nat> { if n <= U64_MAX then Done(n) else Failed(Overflow) }

  function Times(a: nat, b: nat): (r: Outcome<nat>)
    ensures !r.TooDeep?
  {
    U64(a * b)
  }

  function RoundUp(offset: nat, align: nat): nat
    requires align > 0
  {
    (offset + align - 1) / align * align
  }

  function AlignTo(offset: nat, align: nat): (r: Outcome<nat>)
    ensures !r.TooDeep?
  {
    if align <= 1 then Done(offset) else
    var _ :- U64(offset + align - 1);
    Done(RoundUp(offset, align))
  }

  function Max(a: nat, b: nat): nat { if a >= b then a else b }

  // ----- What the code generator computes -----

  function Size(m: Option<Defs>, n: nat, ty: HirType): Outcome<nat>
    decreases n, 0
  {
    if n == 0 then TooDeep else
    match ty
    case Bool => Done(1)
    case Never => Done(1)
    case Int(width, _) => Done(width / 8)
    case Float(width) => Done(width / 8)
    case Ptr(_, _) => Done(8)
    case FnPtr(_, _) => Done(8)
    case Str => Done(16)
    case Slice(_) => Done(16)
    case Array(elem, len) =>
      var size :- Size(m, n - 1, elem);
      var align :- Align(m, n - 1, elem);
      var stride :- AlignTo(size, align);
      Times(stride, len)
    case Struct(id) =>
      var fields :- StructFields(m, id);
      var end :- FieldsEnd(m, n - 1, fields);
      AlignTo(end.0, end.1)
    case Union(id) =>
      var variants :- UnionVariants(m, id);
      var payload :- LargestPayload(m, n - 1, variants);
      UnionSize(payload.0, payload.1)
    case ErrUnion(ok, err) =>
      var okSize :- Size(m, n - 1, ok);
      var errSize :- Size(m, n - 1, err);
      ErrUnionSize(okSize, errSize)
    case Void => Failed(NoSize)
  }

  function ErrUnionSize(okSize: nat, errSize: nat): (r: Outcome<nat>)
    ensures !r.TooDeep?
  {
    var end :- U64(8 + Max(okSize, errSize));
    AlignTo(end, 8)
  }

  function UnionSize(payloadSize: nat, payloadAlign: nat): (r: Outcome<nat>)
    ensures !r.TooDeep?
  {
    var start :- AlignTo(4, payloadAlign);
    var end :- U64(start + payloadSize);
    AlignTo(end, Max(payloadAlign, 4))
  }

  /** The end of the last field, and the largest alignment of a field. */
  function FieldsEnd(m: Option<Defs>, n: nat, fields: seq<HirType>): Outcome<(nat, nat)>
    decreases n, 1, |fields|
  {
    if fields == [] then Done((0, 1)) else
    var before :- FieldsEnd(m, n, fields[..|fields|-1]);
    FieldAfter(m, n, before, fields[|fields|-1])
  }

  function FieldAfter(m: Option<Defs>, n: nat, before: (nat, nat), field: HirType): Outcome<(nat, nat)>
    decreases n, 1, 0
  {
    var align :- Align(m, n, field);
    var start :- AlignTo(before.0, align);
    var size :- Size(m, n, field);
    var end :- U64(start + size);
    Done((end, Max(before.1, align)))
  }

  /** Size and alignment of the largest payload, the first of equals; one octet if none is larger. */
  function LargestPayload(m: Option<Defs>, n: nat, variants: seq<Option<HirType>>): Outcome<(nat, nat)>
    decreases n, 1, |variants|
  {
    if variants == [] then Done((1, 1)) else
    var best :- LargestPayload(m, n, variants[..|variants|-1]);
    LargerPayload(m, n, best, variants[|variants|-1])
  }

  function LargerPayload(m: Option<Defs>, n: nat, best: (nat, nat), variant: Option<HirType>): Outcome<(nat, nat)>
    decreases n, 1, 0
  {
    if variant.None? then Done(best) else
    var size :- Size(m, n, variant.value);
    if size <= best.0 then Done(best) else
    var align :- Align(m, n, variant.value);
    Done((size, align))
  }

  function Align(m: Option<Defs>, n: nat, ty: HirType): Outcome<nat>
    decreases n, 0
  {
    if n == 0 then TooDeep else
    match ty
    case Bool => Done(1)
    case Never => Done(1)
    case Int(width, _) => Done(width / 8)
    case Float(width) => Done(width / 8)
    case Ptr(_, _) => Done(8)
    case FnPtr(_, _) => Done(8)
    case Str => Done(8)
    case Slice(_) => Done(8)
    case Array(elem, _) => Align(m, n - 1, elem)
    case ErrUnion(_, _) => Done(8)
    case Struct(id) =>
      var fields :- StructFields(m, id);
      FieldsAlign(m, n - 1, fields)
    case Union(id) =>
      var variants :- UnionVariants(m, id);
      PayloadsAlign(m, n - 1, variants)
    case Void => Failed(NoSize)
  }

  function FieldsAlign(m: Option<Defs>, n: nat, fields: seq<HirType>): Outcome<nat>
    decreases n, 1, |fields|
  {
    if fields == [] then Done(1) else
    var before :- FieldsAlign(m, n, fields[..|fields|-1]);
    var align :- Align(m, n, fields[|fields|-1]);
    Done(Max(before, align))
  }

  function PayloadsAlign(m: Option<Defs>, n: nat, variants: seq<Option<HirType>>): Outcome<nat>
    decreases n, 1, |variants|
  {
    if variants == [] then Done(4) else
    var before :- PayloadsAlign(m, n, variants[..|variants|-1]);
    var last := variants[|variants|-1];
    if last.None? then Done(before) else
    var align :- Align(m, n, last.value);
    Done(Max(before, align))
  }

  // ----- LLVM shapes -----

  datatype Shape =
    | BitShape
    | IntShape(width: nat)
    | FloatShape(width: nat)
    | PtrShape
    | ArrayShape(elem: Shape, len: nat)
    | StructShape(fields: seq<Shape>)

  const FAT_POINTER: Shape := StructShape([PtrShape, IntShape(64)])

  function Convert(m: Option<Defs>, n: nat, ty: HirType): Outcome<Shape>
    decreases n, 0
  {
    if n == 0 then TooDeep else
    match ty
    case Bool => Done(BitShape)
    case Int(width, _) => if width in {8, 16, 32, 64} then Done(IntShape(width)) else Failed(UnsupportedWidth)
    case Float(width) => if width in {32, 64} then Done(FloatShape(width)) else Failed(UnsupportedWidth)
    case Str => Done(FAT_POINTER)
    case Slice(_) => Done(FAT_POINTER)
    case Never => Done(IntShape(8))
    case Void => Failed(NoSize)
    case Ptr(pointee, _) =>
      var _ :- Convert(m, n - 1, pointee);
      Done(PtrShape)
    case Array(elem, len) =>
      var shape :- Convert(m, n - 1, elem);
      Done(ArrayShape(shape, len % TWO_32))
    case Struct(id) =>
      var fields :- StructFields(m, id);
      var shapes :- ConvertAll(m, n - 1, fields);
      Done(StructShape(shapes))
    case Union(id) =>
      var variants :- UnionVariants(m, id);
      var payload :- ConvertLargest(m, n - 1, variants);
      Done(StructShape([IntShape(32), payload.1]))
    case FnPtr(params, ret) =>
      var _ :- ConvertAll(m, n - 1, params);
      if ret.Void? then Done(PtrShape) else
      var _ :- Convert(m, n - 1, ret);
      Done(PtrShape)
    case ErrUnion(ok, err) =>
      var okSize :- Size(m, n - 1, ok);
      var errSize :- Size(m, n - 1, err);
      Done(StructShape([IntShape(64), ArrayShape(IntShape(8), Max(okSize, errSize) % TWO_32)]))
  }

  function ConvertAll(m: Option<Defs>, n: nat, tys: seq<HirType>): Outcome<seq<Shape>>
    decreases n, 1, |tys|
  {
    if tys == [] then Done([]) else
    var before :- ConvertAll(m, n, tys[..|tys|-1]);
    var last :- Convert(m, n, tys[|tys|-1]);
    Done(before + [last])
  }

  /** The largest payload by computed size, and its shape; only payloads that are the largest so far
      are converted. */
  function ConvertLargest(m: Option<Defs>, n: nat, variants: seq<Option<HirType>>): Outcome<(nat, Shape)>
    decreases n, 1, |variants|
  {
    if variants == [] then Done((1, IntShape(8))) else
    var best :- ConvertLargest(m, n, variants[..|variants|-1]);
    ConvertLarger(m, n, best, variants[|variants|-1])
  }

  function ConvertLarger(m: Option<Defs>, n: nat, best: (nat, Shape), variant: Option<HirType>): Outcome<(nat, Shape)>
    decreases n, 1, 0
  {
    if variant.None? then Done(best) else
    var size :- Size(m, n, variant.value);
    if size <= best.0 then Done(best) else
    var shape :- Convert(m, n, variant.value);
    Done((size, shape))
  }

  // ----- What LLVM allocates: section "Data Layout" of the LLVM Language Reference, 64-bit target -----

  function AbiAlign(s: Shape): (a: nat)
    ensures a > 0
  {
    match s
    case BitShape => 1
    case IntShape(width) => if width >= 64 then 8 else if width >= 32 then 4 else if width >= 16 then 2 else 1
    case FloatShape(width) => if width >= 64 then 8 else 4
    case PtrShape => 8
    case ArrayShape(elem, _) => AbiAlign(elem)
    case StructShape(fields) => LargestAlign(s, fields)
  }

  function LargestAlign(ghost parent: Shape, fields: seq<Shape>): (a: nat)
    requires forall i | 0 <= i < |fields| :: fields[i] < parent
    ensures a > 0
    decreases parent, |fields|
  {
    if fields == [] then 1 else
    var front := fields[..|fields|-1];
    Max(LargestAlign(parent, front), AbiAlign(fields[|fields|-1]))
  }

  function AllocSize(s: Shape): nat
  {
    match s
    case BitShape => 1
    case IntShape(width) => width / 8
    case FloatShape(width) => width / 8
    case PtrShape => 8
    case ArrayShape(elem, len) => AllocSize(elem) * len
    case StructShape(fields) => RoundUp(StructEnd(s, fields), LargestAlign(s, fields))
  }

  function StructEnd(ghost parent: Shape, fields: seq<Shape>): nat
    requires forall i | 0 <= i < |fields| :: fields[i] < parent
    decreases parent, |fields|
  {
    if fields == [] then 0 else
    var last := fields[|fields|-1];
    RoundUp(StructEnd(parent, fields[..|fields|-1]), AbiAlign(last)) + AllocSize(last)
  }

  // ----- Documented inputs -----

  /** The widths the type documents: 8 to 64 bits for integers, 32 and 64 for floats. */
  predicate KnownWidths(ty: HirType)
  {
    match ty
    case Int(width, _) => width in {8, 16, 32, 64}
    case Float(width) => width in {32, 64}
    case Array(elem, _) => KnownWidths(elem)
    case _ => true
  }

  ghost predicate AllKnown(tys: seq<HirType>)
  {
    forall i | 0 <= i < |tys| :: KnownWidths(tys[i])
  }

  ghost predicate PayloadsKnown(variants: seq<Option<HirType>>)
  {
    forall i | 0 <= i < |variants| :: variants[i].Some? ==> KnownWidths(variants[i].value)
  }

  ghost predicate Documented(m: Option<Defs>)
  {
    m.Some? ==>
      && (forall i | 0 <= i < |m.value.structs| :: AllKnown(m.value.structs[i]))
      && (forall i | 0 <= i < |m.value.unions| :: PayloadsKnown(m.value.unions[i]))
  }

  // ----- Rounding up -----

  predicate Standard(align: nat) { align == 1 || align == 2 || align == 4 || align == 8 }

  predicate Multiple(x: nat, a: nat)
    requires a > 0
  {
    x % a == 0
  }

  lemma {:induction false} RoundUpBy1(x: nat, y: nat)
    ensures x <= RoundUp(x, 1) < x + 1 && Multiple(RoundUp(x, 1), 1)
    ensures Multiple(x, 1) ==> RoundUp(x, 1) == x
    ensures Multiple(y, 1) && x <= y ==> RoundUp(x, 1) <= y
  {
    var q := (x + 0) / 1;
    assert RoundUp(x, 1) == 1 * q;
    assert y % 1 == 0 ==> y == 1 * (y / 1);
  }

  lemma {:induction false} RoundUpBy2(x: nat, y: nat)
    ensures x <= RoundUp(x, 2) < x + 2 && Multiple(RoundUp(x, 2), 2)
    ensures Multiple(x, 2) ==> RoundUp(x, 2) == x
    ensures Multiple(y, 2) && x <= y ==> RoundUp(x, 2) <= y
  {
    var q := (x + 1) / 2;
    assert RoundUp(x, 2) == 2 * q;
    assert y % 2 == 0 ==> y == 2 * (y / 2);
  }

  lemma {:induction false} RoundUpBy4(x: nat, y: nat)
    ensures x <= RoundUp(x, 4) < x + 4 && Multiple(RoundUp(x, 4), 4)
    ensures Multiple(x, 4) ==> RoundUp(x, 4) == x
    ensures Multiple(y, 4) && x <= y ==> RoundUp(x, 4) <= y
  {
    var q := (x + 3) / 4;
    assert RoundUp(x, 4) == 4 * q;
    assert y % 4 == 0 ==> y == 4 * (y / 4);
  }

  lemma {:induction false} RoundUpBy8(x: nat, y: nat)
    ensures x <= RoundUp(x, 8) < x + 8 && Multiple(RoundUp(x, 8), 8)
    ensures Multiple(x, 8) ==> RoundUp(x, 8) == x
    ensures Multiple(y, 8) && x <= y ==> RoundUp(x, 8) <= y
  {
    var q := (x + 7) / 8;
    assert RoundUp(x, 8) == 8 * q;
    assert y % 8 == 0 ==> y == 8 * (y / 8);
  }

  lemma {:induction false} RoundUpMeans(x: nat, y: nat, a: nat)
    requires Standard(a)
    ensures x <= RoundUp(x, a) < x + a && Multiple(RoundUp(x, a), a)
    ensures Multiple(x, a) ==> RoundUp(x, a) == x
    ensures Multiple(y, a) && x <= y ==> RoundUp(x, a) <= y
  {
    hide RoundUp, Multiple;
    if a == 1 {
      RoundUpBy1(x, y);
    } else if a == 2 {
      RoundUpBy2(x, y);
    } else if a == 4 {
      RoundUpBy4(x, y);
    } else {
      RoundUpBy8(x, y);
    }
  }

  lemma {:induction false} QuarterOfEight(z: nat)
    requires Multiple(z, 8)
    ensures Multiple(z, 4)
  {
    assert z == 4 * (2 * (z / 8));
  }

  lemma {:induction false} HalfOfFour(z: nat)
    requires Multiple(z, 4)
    ensures Multiple(z, 2)
  {
    assert z == 2 * (2 * (z / 4));
  }

  lemma {:induction false} AnyOfOne(z: nat)
    ensures Multiple(z, 1)
  {
  }

  lemma {:induction false} Divides(z: nat, a: nat, b: nat)
    requires Standard(a) && Standard(b) && a <= b && Multiple(z, b)
    ensures Multiple(z, a)
  {
    hide Multiple;
    AnyOfOne(z);
    if b == 8 {
      QuarterOfEight(z);
    }
    if b >= 4 {
      HalfOfFour(z);
    }
  }

  lemma {:induction false} RoundUpGrows(x: nat, y: nat, a: nat, b: nat)
    requires Standard(a) && Standard(b) && x <= y && a <= b
    ensures RoundUp(x, a) <= RoundUp(y, b)
  {
    hide RoundUp, Multiple;
    RoundUpMeans(y, y, b);
    Divides(RoundUp(y, b), a, b);
    RoundUpMeans(x, RoundUp(y, b), a);
  }

  lemma {:induction false} AlignToRounds(x: nat, a: nat)
    requires Standard(a) && AlignTo(x, a).Done?
    ensures AlignTo(x, a).v == RoundUp(x, a)
  {
    RoundUpBy1(x, x);
    hide RoundUp;
  }

  lemma {:induction false} MultipleOfMultiple(x: nat, k: nat, a: nat)
    requires Standard(a) && Multiple(x, a)
    ensures Multiple(x * k, a)
    decreases k
  {
    hide Multiple;
    if k == 0 {
      NoneIsMultiple(a);
    } else {
      MultipleOfMultiple(x, k - 1, a);
      assert x * k == x * (k - 1) + x;
      MultipleSum(x * (k - 1), x, a);
    }
  }

  lemma {:induction false} MultipleSum(x: nat, y: nat, a: nat)
    requires Standard(a) && Multiple(x, a) && Multiple(y, a)
    ensures Multiple(x + y, a)
  {
    var p, q := x / a, y / a;
    assert x + y == a * (p + q);
    ProductMultiple(p + q, a);
  }

  lemma {:induction false} ProductMultiple(q: nat, a: nat)
    requires Standard(a)
    ensures Multiple(a * q, a)
  {
    if a == 1 {
      AnyOfOne(q);
    } else if a == 2 {
      assert Multiple(2 * q, 2);
    } else if a == 4 {
      assert Multiple(4 * q, 4);
    } else {
      assert Multiple(8 * q, 8);
    }
  }

  lemma {:induction false} NoneIsMultiple(a: nat)
    requires Standard(a)
    ensures Multiple(0, a)
  {
  }

  lemma {:induction false} ProductGrows(x: nat, y: nat, k: nat, l: nat)
    requires x <= y && k <= l
    ensures x * k <= y * l
  {
    assert x * k <= y * k;
    assert y * k <= y * l;
  }

  // ----- A computed size covers what is allocated -----

  /** Size and alignment cover the shape; when `exact`, they are those of the shape. */
  ghost predicate Fits(size: nat, align: nat, shape: Shape, exact: bool)
  {
    && Standard(align) && Standard(AbiAlign(shape)) && AbiAlign(shape) <= align
    && AllocSize(shape) <= size && Multiple(AllocSize(shape), AbiAlign(shape))
    && (exact ==> AbiAlign(shape) == align && AllocSize(shape) == size)
  }

  /** By value, no array and no error payload has 2^32 elements, and the largest payload of every union
      is aligned at least as strictly as the others. */
  ghost predicate Tight(m: Option<Defs>, n: nat, ty: HirType)
    decreases n
  {
    n > 0 &&
    match ty
    case Array(elem, len) => len < TWO_32 && Tight(m, n - 1, elem)
    case Struct(id) =>
      var fields := StructFields(m, id);
      fields.Done? && forall i | 0 <= i < |fields.v| :: Tight(m, n - 1, fields.v[i])
    case Union(id) =>
      var variants := UnionVariants(m, id);
      && variants.Done? && LargestAlignsMost(m, n - 1, variants.v)
      && forall i | 0 <= i < |variants.v| :: variants.v[i].Some? ==> Tight(m, n - 1, variants.v[i].value)
    case ErrUnion(ok, err) =>
      var okSize, errSize := Size(m, n - 1, ok), Size(m, n - 1, err);
      okSize.Done? && errSize.Done? && okSize.v < TWO_32 && errSize.v < TWO_32
    case _ => true
  }

  ghost predicate LargestAlignsMost(m: Option<Defs>, n: nat, variants: seq<Option<HirType>>)
  {
    var largest, all := LargestPayload(m, n, variants), PayloadsAlign(m, n, variants);
    largest.Done? && all.Done? && all.v <= Max(4, largest.v.1)
  }

  /** The computed size of a convertible type is never below what LLVM allocates for the shape it is
      converted to, the computed alignment never below the shape's; on tight types both are equal. */
  lemma {:induction false} SizeCoversShape(m: Option<Defs>, n: nat, ty: HirType, exact: bool)
    requires Documented(m) && KnownWidths(ty) && (exact ==> Tight(m, n, ty))
    requires Size(m, n, ty).Done? && Convert(m, n, ty).Done?
    ensures Align(m, n, ty).Done? && Fits(Size(m, n, ty).v, Align(m, n, ty).v, Convert(m, n, ty).v, exact)
    decreases n, 0
  {
    hide FieldsEnd, LargestPayload, ConvertAll, ConvertLargest, FieldsAlign, PayloadsAlign, AlignTo, UnionSize;
    hide ErrUnionSize, Fits;
    match ty {
      case Array(elem, len) =>
        hide Times;
        SizeCoversShape(m, n - 1, elem, exact);
        CutOff(len);
        ArrayFits(Size(m, n - 1, elem).v, Align(m, n - 1, elem).v, Convert(m, n - 1, elem).v, len, len % TWO_32, exact);
      case Struct(id) => StructCovers(m, n, id, exact);
      case Union(id) => UnionCovers(m, n, id, exact);
      case ErrUnion(ok, err) =>
        var okSize, errSize := Size(m, n - 1, ok).v, Size(m, n - 1, err).v;
        CutOff(Max(okSize, errSize));
        ErrUnionFits(okSize, errSize, Max(okSize, errSize) % TWO_32, exact);
      case Str => FatPointerFits(exact);
      case Slice(_) => FatPointerFits(exact);
      case _ => ScalarFits(m, n, ty, exact);
    }
  }

  lemma {:induction false} ScalarFits(m: Option<Defs>, n: nat, ty: HirType, exact: bool)
    requires ty.Bool? || ty.Never? || ty.Int? || ty.Float? || ty.Ptr? || ty.FnPtr? || ty.Void?
    requires Size(m, n, ty).Done? && Convert(m, n, ty).Done?
    ensures Align(m, n, ty).Done? && Fits(Size(m, n, ty).v, Align(m, n, ty).v, Convert(m, n, ty).v, exact)
  {
    hide ConvertAll;
  }

  lemma {:induction false} CutOff(n: nat)
    ensures n % TWO_32 <= n && (n % TWO_32 == n <==> n < TWO_32)
  {
  }

  lemma {:induction false} ArrayFits(size: nat, align: nat, shape: Shape, len: nat, cut: nat, exact: bool)
    requires Fits(size, align, shape, exact) && cut <= len && (exact ==> cut == len)
    requires AlignTo(size, align).Done? && Times(AlignTo(size, align).v, len).Done?
    ensures Fits(Times(AlignTo(size, align).v, len).v, align, ArrayShape(shape, cut), exact)
  {
    hide RoundUp, AlignTo, Multiple;
    AlignToRounds(size, align);
    RoundUpMeans(size, 0, align);
    ProductGrows(AllocSize(shape), RoundUp(size, align), cut, len);
    MultipleOfMultiple(AllocSize(shape), cut, AbiAlign(shape));
  }

  lemma {:induction false} PairAlloc(x: Shape, y: Shape)
    ensures var s := StructShape([x, y]);
            && AbiAlign(s) == Max(Max(1, AbiAlign(x)), AbiAlign(y))
            && AllocSize(s) ==
               RoundUp(RoundUp(RoundUp(0, AbiAlign(x)) + AllocSize(x), AbiAlign(y)) + AllocSize(y), AbiAlign(s))
  {
    hide RoundUp;
    var s := StructShape([x, y]);
    assert [x, y][..1] == [x] && [x][..0] == [];
    assert StructEnd(s, []) == 0 && LargestAlign(s, []) == 1;
    assert StructEnd(s, [x]) == RoundUp(0, AbiAlign(x)) + AllocSize(x);
    assert LargestAlign(s, [x]) == Max(1, AbiAlign(x));
  }

  lemma {:induction false} FatPointerFits(exact: bool)
    ensures Fits(16, 8, FAT_POINTER, exact)
  {
    PairAlloc(PtrShape, IntShape(64));
  }

  lemma {:induction false} ErrUnionFits(okSize: nat, errSize: nat, slot: nat, exact: bool)
    requires slot <= Max(okSize, errSize) && (exact ==> slot == Max(okSize, errSize))
    requires ErrUnionSize(okSize, errSize).Done?
    ensures Fits(ErrUnionSize(okSize, errSize).v, 8, StructShape([IntShape(64), ArrayShape(IntShape(8), slot)]), exact)
  {
    hide AllocSize, AbiAlign, RoundUp, AlignTo, Multiple;
    var payload := Max(okSize, errSize);
    PairAlloc(IntShape(64), ArrayShape(IntShape(8), slot));
    OctetsAlloc(slot);
    RoundUpBy8(0, 0);
    AnyOfOne(8);
    RoundUpBy1(8, 8);
    AlignToRounds(8 + payload, 8);
    RoundUpMeans(8 + slot, 0, 8);
    RoundUpGrows(8 + slot, 8 + payload, 8, 8);
  }

  lemma {:induction false} OctetsAlloc(len: nat)
    ensures AllocSize(ArrayShape(IntShape(8), len)) == len && AbiAlign(ArrayShape(IntShape(8), len)) == 1
    ensures AllocSize(IntShape(64)) == 8 && AbiAlign(IntShape(64)) == 8
  {
  }

  /** Without a module nothing is known of a struct or a union; with one, nothing of an id it does not have. */
  lemma {:induction false} UndefinedFails(m: Option<Defs>, n: nat, id: nat)
    requires n > 0
    ensures m.None? ==>
              && Size(m, n, Struct(id)) == Align(m, n, Struct(id)) == Failed(ModuleNotSet)
              && Size(m, n, Union(id)) == Align(m, n, Union(id)) == Failed(ModuleNotSet)
              && Convert(m, n, Struct(id)) == Convert(m, n, Union(id)) == Failed(ModuleNotSet)
    ensures m.Some? && id >= |m.value.structs| ==>
              && Size(m, n, Struct(id)) == Align(m, n, Struct(id)) == Failed(SymbolNotFound)
              && Convert(m, n, Struct(id)) == Failed(SymbolNotFound)
    ensures m.Some? && id >= |m.value.unions| ==>
              && Size(m, n, Union(id)) == Align(m, n, Union(id)) == Failed(SymbolNotFound)
              && Convert(m, n, Union(id)) == Failed(SymbolNotFound)
  {
  }

  // ----- Structs -----

  lemma {:induction false} StructCovers(m: Option<Defs>, n: nat, id: nat, exact: bool)
    requires Documented(m) && (exact ==> Tight(m, n, Struct(id)))
    requires Size(m, n, Struct(id)).Done? && Convert(m, n, Struct(id)).Done?
    ensures Align(m, n, Struct(id)).Done?
    ensures Fits(Size(m, n, Struct(id)).v, Align(m, n, Struct(id)).v, Convert(m, n, Struct(id)).v, exact)
    decreases n, 0, 0
  {
    var fields := StructFields(m, id).v;
    var shapes := ConvertAll(m, n - 1, fields).v;
    var shape := StructShape(shapes);
    FieldsCover(m, n - 1, shape, fields, shapes, exact);
    var end := FieldsEnd(m, n - 1, fields).v;
    hide Size, Align, Convert, FieldsEnd, ConvertAll, RoundUp, AlignTo, Tight;
    StructFits(shape, end, exact);
    SizeOfStruct(m, n, id);
  }

  lemma {:induction false} SizeOfStruct(m: Option<Defs>, n: nat, id: nat)
    requires n > 0 && StructFields(m, id).Done?
    ensures var fields := StructFields(m, id).v;
            && Align(m, n, Struct(id)) == FieldsAlign(m, n - 1, fields)
            && (FieldsEnd(m, n - 1, fields).Done? ==>
                  Size(m, n, Struct(id)) == AlignTo(FieldsEnd(m, n - 1, fields).v.0, FieldsEnd(m, n - 1, fields).v.1))
            && (ConvertAll(m, n - 1, fields).Done? ==>
                  Convert(m, n, Struct(id)) == Done(StructShape(ConvertAll(m, n - 1, fields).v)))
  {
    hide FieldsEnd, FieldsAlign, ConvertAll, AlignTo;
  }

  /** The fields laid out so far end no earlier than those of the shape. */
  ghost predicate EndFits(parent: Shape, shapes: seq<Shape>, end: (nat, nat), exact: bool)
    requires forall i | 0 <= i < |shapes| :: shapes[i] < parent
  {
    var e, a := StructEnd(parent, shapes), LargestAlign(parent, shapes);
    && Standard(end.1) && Standard(a) && a <= end.1 && e <= end.0
    && (exact ==> a == end.1 && e == end.0)
  }

  lemma {:induction false} StructFits(shape: Shape, end: (nat, nat), exact: bool)
    requires shape.StructShape? && EndFits(shape, shape.fields, end, exact) && AlignTo(end.0, end.1).Done?
    ensures Fits(AlignTo(end.0, end.1).v, end.1, shape, exact)
  {
    hide StructEnd, LargestAlign, Multiple;
    var e, a := StructEnd(shape, shape.fields), LargestAlign(shape, shape.fields);
    AlignToRounds(end.0, end.1);
    RoundUpGrows(e, end.0, a, end.1);
    RoundUpMeans(e, 0, a);
    hide RoundUp, AlignTo;
  }

  lemma {:induction false} FieldsCover(
      m: Option<Defs>, n: nat, parent: Shape, fields: seq<HirType>, shapes: seq<Shape>, exact: bool)
    requires Documented(m) && AllKnown(fields)
    requires exact ==> forall i | 0 <= i < |fields| :: Tight(m, n, fields[i])
    requires FieldsEnd(m, n, fields).Done? && ConvertAll(m, n, fields) == Done(shapes)
    requires forall i | 0 <= i < |shapes| :: shapes[i] < parent
    ensures FieldsAlign(m, n, fields) == Done(FieldsEnd(m, n, fields).v.1)
    ensures EndFits(parent, shapes, FieldsEnd(m, n, fields).v, exact)
    decreases n, 1, |fields|
  {
    hide Size, Align, Convert, RoundUp, AlignTo, Tight, Fits, Standard;
    if fields == [] {
      NoFields(parent, exact);
    } else {
      var front, last := fields[..|fields|-1], fields[|fields|-1];
      var before := ConvertAll(m, n, front).v;
      var shape := Convert(m, n, last).v;
      assert shapes[..|shapes|-1] == before;
      FieldsCover(m, n, parent, front, before, exact);
      SizeCoversShape(m, n, last, exact);
      OneMoreField(m, n, parent, before, FieldsEnd(m, n, front).v, last, shapes, exact);
    }
  }

  lemma {:induction false} NoFields(parent: Shape, exact: bool)
    ensures EndFits(parent, [], (0, 1), exact)
  {
  }

  lemma {:induction false} OneMoreField(
      m: Option<Defs>, n: nat, parent: Shape, before: seq<Shape>, end: (nat, nat), field: HirType, shapes: seq<Shape>,
      exact: bool)
    requires forall i | 0 <= i < |shapes| :: shapes[i] < parent
    requires shapes != [] && shapes[..|shapes|-1] == before && EndFits(parent, before, end, exact)
    requires FieldAfter(m, n, end, field).Done?
    requires Fits(Size(m, n, field).v, Align(m, n, field).v, shapes[|shapes|-1], exact)
    ensures EndFits(parent, shapes, FieldAfter(m, n, end, field).v, exact)
  {
    hide Size, Align, RoundUp, AlignTo, AllocSize, AbiAlign;
    var shape := shapes[|shapes|-1];
    var align := Align(m, n, field).v;
    var e := StructEnd(parent, before);
    AlignToRounds(end.0, align);
    RoundUpGrows(e, end.0, AbiAlign(shape), align);
  }

  // ----- Unions -----

  lemma {:induction false} UnionCovers(m: Option<Defs>, n: nat, id: nat, exact: bool)
    requires Documented(m) && (exact ==> Tight(m, n, Union(id)))
    requires Size(m, n, Union(id)).Done? && Convert(m, n, Union(id)).Done?
    ensures Align(m, n, Union(id)).Done?
    ensures Fits(Size(m, n, Union(id)).v, Align(m, n, Union(id)).v, Convert(m, n, Union(id)).v, exact)
    decreases n, 0, 0
  {
    var variants := UnionVariants(m, id).v;
    PayloadsCover(m, n - 1, variants, exact);
    PayloadsAligned(m, n - 1, variants);
    var largest := LargestPayload(m, n - 1, variants).v;
    var shape := ConvertLargest(m, n - 1, variants).v.1;
    var align := PayloadsAlign(m, n - 1, variants).v;
    assert exact ==> align <= Max(4, largest.1);
    hide *;
    SizeOfUnion(m, n, id);
    UnionFits(largest, shape, align, exact);
  }

  lemma {:induction false} SizeOfUnion(m: Option<Defs>, n: nat, id: nat)
    requires n > 0 && UnionVariants(m, id).Done?
    ensures var variants := UnionVariants(m, id).v;
            && Align(m, n, Union(id)) == PayloadsAlign(m, n - 1, variants)
            && (LargestPayload(m, n - 1, variants).Done? ==>
                  Size(m, n, Union(id)) ==
                  UnionSize(LargestPayload(m, n - 1, variants).v.0, LargestPayload(m, n - 1, variants).v.1))
            && (ConvertLargest(m, n - 1, variants).Done? ==>
                  Convert(m, n, Union(id)) ==
                  Done(StructShape([IntShape(32), ConvertLargest(m, n - 1, variants).v.1])))
  {
    hide LargestPayload, PayloadsAlign, ConvertLargest, UnionSize;
  }

  lemma {:induction false} UnionFits(largest: (nat, nat), shape: Shape, align: nat, exact: bool)
    requires Fits(largest.0, largest.1, shape, exact) && UnionSize(largest.0, largest.1).Done?
    requires Standard(align) && largest.1 <= align && 4 <= align && (exact ==> align <= Max(4, largest.1))
    ensures Fits(UnionSize(largest.0, largest.1).v, align, StructShape([IntShape(32), shape]), exact)
  {
    hide AllocSize, AbiAlign, RoundUp, AlignTo, Multiple;
    var a := AbiAlign(shape);
    UnionAlloc(shape);
    AlignToRounds(4, largest.1);
    RoundUpGrows(4, 4, a, largest.1);
    var start := RoundUp(4, largest.1);
    var end := RoundUp(4, a) + AllocSize(shape);
    AlignToRounds(start + largest.0, Max(largest.1, 4));
    RoundUpGrows(end, start + largest.0, Max(4, a), Max(largest.1, 4));
    RoundUpMeans(end, 0, Max(4, a));
  }

  lemma {:induction false} UnionAlloc(shape: Shape)
    ensures var s, a := StructShape([IntShape(32), shape]), AbiAlign(shape);
            AbiAlign(s) == Max(4, a) && AllocSize(s) == RoundUp(RoundUp(4, a) + AllocSize(shape), Max(4, a))
  {
    PairAlloc(IntShape(32), shape);
    RoundUpBy4(0, 0);
    IntAlloc();
    hide AllocSize, AbiAlign, RoundUp;
  }

  lemma {:induction false} IntAlloc()
    ensures AllocSize(IntShape(32)) == 4 && AbiAlign(IntShape(32)) == 4
  {
  }

  /** The union takes the alignment of all payloads, so at least that of the largest. */
  lemma {:induction false} PayloadsAligned(m: Option<Defs>, n: nat, variants: seq<Option<HirType>>)
    requires Documented(m) && PayloadsKnown(variants) && LargestPayload(m, n, variants).Done?
    ensures PayloadsAlign(m, n, variants).Done?
    ensures var align := PayloadsAlign(m, n, variants).v;
            Standard(align) && 4 <= align && LargestPayload(m, n, variants).v.1 <= align
    decreases n, 1, |variants|
  {
    hide Size, Align, Convert;
    if variants != [] {
      PayloadsAligned(m, n, variants[..|variants|-1]);
      var last := variants[|variants|-1];
      if last.Some? {
        AlignIsStandard(m, n, last.value);
      }
    }
  }

  lemma {:induction false} AlignIsStandard(m: Option<Defs>, n: nat, ty: HirType)
    requires Documented(m) && KnownWidths(ty) && Size(m, n, ty).Done?
    ensures Align(m, n, ty).Done? && Standard(Align(m, n, ty).v)
    decreases n, 0
  {
    hide FieldsEnd, FieldsAlign, LargestPayload, PayloadsAlign, UnionSize, AlignTo;
    match ty {
      case Array(elem, _) => AlignIsStandard(m, n - 1, elem);
      case Struct(id) => FieldsAligned(m, n - 1, StructFields(m, id).v);
      case Union(id) => PayloadsAligned(m, n - 1, UnionVariants(m, id).v);
      case _ =>
    }
  }

  lemma {:induction false} FieldsAligned(m: Option<Defs>, n: nat, fields: seq<HirType>)
    requires Documented(m) && AllKnown(fields) && FieldsEnd(m, n, fields).Done?
    ensures FieldsAlign(m, n, fields) == Done(FieldsEnd(m, n, fields).v.1)
    ensures Standard(FieldsEnd(m, n, fields).v.1)
    decreases n, 1, |fields|
  {
    hide Size, Align, AlignTo;
    if fields != [] {
      FieldsAligned(m, n, fields[..|fields|-1]);
      AlignIsStandard(m, n, fields[|fields|-1]);
    }
  }

  lemma {:induction false} PayloadsCover(m: Option<Defs>, n: nat, variants: seq<Option<HirType>>, exact: bool)
    requires Documented(m) && PayloadsKnown(variants)
    requires exact ==> forall i | 0 <= i < |variants| :: variants[i].Some? ==> Tight(m, n, variants[i].value)
    requires LargestPayload(m, n, variants).Done? && ConvertLargest(m, n, variants).Done?
    ensures var largest, converted := LargestPayload(m, n, variants).v, ConvertLargest(m, n, variants).v;
            largest.0 == converted.0 && Fits(largest.0, largest.1, converted.1, exact)
    decreases n, 1, |variants|
  {
    hide Size, Align, Convert, Tight, Fits;
    if variants == [] {
      OctetFits(exact);
    } else {
      PayloadsCover(m, n, variants[..|variants|-1], exact);
      var last := variants[|variants|-1];
      if last.Some? && Size(m, n, last.value).v > LargestPayload(m, n, variants[..|variants|-1]).v.0 {
        SizeCoversShape(m, n, last.value, exact);
      }
    }
  }

  lemma {:induction false} OctetFits(exact: bool)
    ensures Fits(1, 1, IntShape(8), exact)
  {
  }
}
