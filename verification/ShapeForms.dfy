/** What a converted type is a representation of: which scalar stands at which octet. Said once of the HIR
    types, once of the LLVM shapes; and every conversion that succeeds keeps it. */
module ShapeForms {
  import opened Wrappers
  import opened Hir
  import opened Layout
  import opened LayoutSlots

  datatype Scalar = Truth | Whole(width: nat) | Real(width: nat) | Address

  datatype Part = Part(at: nat, what: Scalar)

  /** The scalars of a value with their offsets, the octets it takes, and its alignment. */
  datatype Form = Form(parts: seq<Part>, size: nat, align: nat)

  const NOTHING: Form := Form([], 0, 1)

  function One(what: Scalar, octets: nat): Form { Form([Part(0, what)], octets, octets) }

  function Shifted(parts: seq<Part>, start: nat): seq<Part>
  {
    seq(|parts|, i requires 0 <= i < |parts| => Part(start + parts[i].at, parts[i].what))
  }

  /** `next` at the first offset behind `row` that suits its alignment. */
  function Beside(row: Form, next: Form): Form
    requires next.align > 0
  {
    var start := RoundUp(row.size, next.align);
    Form(row.parts + Shifted(next.parts, start), start + next.size, Max(row.align, next.align))
  }

  /** Padded to a multiple of its alignment. */
  function Closed(row: Form): Form
    requires row.align > 0
  {
    row.(size := RoundUp(row.size, row.align))
  }

  function Repeated(f: Form, len: nat): Form
  {
    if len == 0 then Form([], 0, f.align) else
    var before := Repeated(f, len - 1);
    Form(before.parts + Shifted(f.parts, f.size * (len - 1)), f.size * len, f.align)
  }

  // ----- Of a type -----

  /** The first of the payloads that take the most octets, when that is more than one. */
  ghost predicate IsLargest(m: Option<Defs>, n: nat, variants: seq<Option<HirType>>, k: nat)
  {
    && k < |variants| && variants[k].Some? && Size(m, n, variants[k].value).Done?
    && Size(m, n, variants[k].value).v > 1
    && forall j | 0 <= j < |variants| && variants[j].Some? ::
         Size(m, n, variants[j].value).Done? &&
         if j < k then Size(m, n, variants[j].value).v < Size(m, n, variants[k].value).v
         else Size(m, n, variants[j].value).v <= Size(m, n, variants[k].value).v
  }

  /** Text and slices are an address and a length; unions a tag of 32 bits and the largest payload; error
      unions a tag of 64 bits and octets for either payload; other aggregates their parts in order. */
  ghost function TypeForm(m: Option<Defs>, n: nat, ty: HirType): (r: Outcome<Form>)
    ensures r.Done? ==> r.v.align > 0
    decreases n, 0
  {
    if n == 0 then TooDeep else
    match ty
    case Void => Failed(NoSize)
    case Never => Done(One(Whole(8), 1))
    case Bool => Done(One(Truth, 1))
    case Int(width, _) =>
      if width in {8, 16, 32, 64} then Done(One(Whole(width), width / 8)) else Failed(UnsupportedWidth)
    case Float(width) => if width in {32, 64} then Done(One(Real(width), width / 8)) else Failed(UnsupportedWidth)
    case Ptr(_, _) => Done(One(Address, 8))
    case FnPtr(_, _) => Done(One(Address, 8))
    case Str => Done(Form([Part(0, Address), Part(8, Whole(64))], 16, 8))
    case Slice(_) => Done(Form([Part(0, Address), Part(8, Whole(64))], 16, 8))
    case Array(elem, len) =>
      var each :- TypeForm(m, n - 1, elem);
      RepeatedAlign(each, len % TWO_32);
      Done(Repeated(each, len % TWO_32))
    case Struct(id) =>
      var fields :- StructFields(m, id);
      var row :- FieldsForm(m, n - 1, fields);
      Done(Closed(row))
    case Union(id) =>
      var variants :- UnionVariants(m, id);
      var slot :- SlotForm(m, n - 1, variants);
      Done(Closed(Beside(Beside(NOTHING, One(Whole(32), 4)), slot)))
    case ErrUnion(ok, err) =>
      var okSize :- Size(m, n - 1, ok);
      var errSize :- Size(m, n - 1, err);
      var slot := Repeated(One(Whole(8), 1), Max(okSize, errSize) % TWO_32);
      RepeatedAlign(One(Whole(8), 1), Max(okSize, errSize) % TWO_32);
      Done(Closed(Beside(Beside(NOTHING, One(Whole(64), 8)), slot)))
  }

  ghost function FieldsForm(m: Option<Defs>, n: nat, fields: seq<HirType>): (r: Outcome<Form>)
    ensures r.Done? ==> r.v.align > 0
    decreases n, 1, |fields|
  {
    if fields == [] then Done(NOTHING) else
    var before :- FieldsForm(m, n, fields[..|fields|-1]);
    var last :- TypeForm(m, n, fields[|fields|-1]);
    Done(Beside(before, last))
  }

  ghost function SlotForm(m: Option<Defs>, n: nat, variants: seq<Option<HirType>>): (r: Outcome<Form>)
    ensures r.Done? ==> r.v.align > 0
    decreases n, 1
  {
    if k: nat :| IsLargest(m, n, variants, k) then TypeForm(m, n, variants[k].value) else Done(One(Whole(8), 1))
  }

  lemma {:induction false} RepeatedAlign(f: Form, len: nat)
    ensures Repeated(f, len).align == f.align
  {
  }

  // ----- Of a shape -----

  ghost function ShapeForm(s: Shape): (f: Form)
    ensures f.align == AbiAlign(s)
  {
    match s
    case BitShape => Form([Part(0, Truth)], 1, 1)
    case IntShape(width) => Form([Part(0, Whole(width))], AllocSize(s), AbiAlign(s))
    case FloatShape(width) => Form([Part(0, Real(width))], AllocSize(s), AbiAlign(s))
    case PtrShape => Form([Part(0, Address)], 8, 8)
    case ArrayShape(elem, len) =>
      RepeatedAlign(ShapeForm(elem), len);
      Repeated(ShapeForm(elem), len)
    case StructShape(fields) => Closed(RowForm(s, fields))
  }

  ghost function RowForm(parent: Shape, fields: seq<Shape>): (f: Form)
    requires forall i | 0 <= i < |fields| :: fields[i] < parent
    ensures f.align == LargestAlign(parent, fields)
    decreases parent, |fields|
  {
    if fields == [] then NOTHING else Beside(RowForm(parent, fields[..|fields|-1]), ShapeForm(fields[|fields|-1]))
  }

  /** The octets are those that LLVM allocates. */
  lemma {:induction false} FormIsAllocated(s: Shape)
    ensures ShapeForm(s).size == AllocSize(s) && ShapeForm(s).align == AbiAlign(s)
    decreases s
  {
    hide RoundUp;
    match s {
      case ArrayShape(elem, len) =>
        FormIsAllocated(elem);
        RepeatedSize(ShapeForm(elem), len);
      case StructShape(fields) => RowIsAllocated(s, fields);
      case _ =>
    }
  }

  lemma {:induction false} RepeatedSize(f: Form, len: nat)
    ensures Repeated(f, len).size == f.size * len
  {
  }

  lemma {:induction false} RowIsAllocated(parent: Shape, fields: seq<Shape>)
    requires forall i | 0 <= i < |fields| :: fields[i] < parent
    ensures RowForm(parent, fields).size == StructEnd(parent, fields)
    decreases parent, |fields|
  {
    hide RoundUp;
    if fields != [] {
      RowIsAllocated(parent, fields[..|fields|-1]);
      FormIsAllocated(fields[|fields|-1]);
    }
  }

  // ----- Conversion keeps the form -----

  lemma {:induction false} FatPointerForm()
    ensures ShapeForm(FAT_POINTER) == Form([Part(0, Address), Part(8, Whole(64))], 16, 8)
  {
    hide RoundUp;
    RoundUpBy8(0, 0);
    RoundUpBy8(8, 8);
    RoundUpBy8(16, 16);
    PairForm(PtrShape, IntShape(64));
    assert Shifted([Part(0, Address)], 0) == [Part(0, Address)];
    assert Shifted([Part(0, Whole(64))], 8) == [Part(8, Whole(64))];
  }

  lemma {:induction false} PairForm(x: Shape, y: Shape)
    ensures ShapeForm(StructShape([x, y])) == Closed(Beside(Beside(NOTHING, ShapeForm(x)), ShapeForm(y)))
  {
    hide Beside, Closed;
    var s := StructShape([x, y]);
    assert [x, y][..1] == [x] && [x][..0] == [];
    assert RowForm(s, []) == NOTHING;
    assert RowForm(s, [x]) == Beside(NOTHING, ShapeForm(x));
  }

  /** Every shape that a type is converted to has the form of the type. */
  lemma {:induction false} ConversionKeepsForm(m: Option<Defs>, n: nat, ty: HirType)
    requires Convert(m, n, ty).Done?
    ensures TypeForm(m, n, ty) == Done(ShapeForm(Convert(m, n, ty).v))
    decreases n, 0
  {
    hide Beside, Closed, Repeated, Size, ConvertAll, ConvertLargest, FieldsForm, SlotForm;
    match ty {
      case Str => FatPointerForm();
      case Slice(_) => FatPointerForm();
      case Array(elem, len) => ConversionKeepsForm(m, n - 1, elem);
      case Struct(id) => FieldsKeepForm(m, n - 1, Convert(m, n, ty).v, StructFields(m, id).v);
      case Union(id) =>
        SlotKeepsForm(m, n - 1, UnionVariants(m, id).v);
        PairForm(IntShape(32), ConvertLargest(m, n - 1, UnionVariants(m, id).v).v.1);
      case ErrUnion(ok, err) =>
        var slot := ErrUnionSlot(Size(m, n - 1, ok).v, Size(m, n - 1, err).v);
        PairForm(IntShape(64), ArrayShape(IntShape(8), slot));
      case _ =>
    }
  }

  lemma {:induction false} FieldsKeepForm(m: Option<Defs>, n: nat, parent: Shape, fields: seq<HirType>)
    requires ConvertAll(m, n, fields).Done?
    requires forall i | 0 <= i < |ConvertAll(m, n, fields).v| :: ConvertAll(m, n, fields).v[i] < parent
    ensures FieldsForm(m, n, fields) == Done(RowForm(parent, ConvertAll(m, n, fields).v))
    decreases n, 1, |fields|
  {
    hide Beside, TypeForm, ShapeForm, Convert;
    if fields != [] {
      var front, last := fields[..|fields|-1], fields[|fields|-1];
      var shapes := ConvertAll(m, n, fields).v;
      assert shapes[..|shapes|-1] == ConvertAll(m, n, front).v;
      FieldsKeepForm(m, n, parent, front);
      ConversionKeepsForm(m, n, last);
    }
  }

  lemma {:induction false} SlotKeepsForm(m: Option<Defs>, n: nat, variants: seq<Option<HirType>>)
    requires ConvertLargest(m, n, variants).Done?
    ensures SlotForm(m, n, variants) == Done(ShapeForm(ConvertLargest(m, n, variants).v.1))
    decreases n, 1
  {
    var k := LargestConverted(m, n, variants);
    hide Size, Convert, ConvertLargest, TypeForm;
    if k.Some? {
      ConversionKeepsForm(m, n, variants[k.value].value);
      forall l: nat | IsLargest(m, n, variants, l) ensures l == k.value {
        OneLargest(m, n, variants, l, k.value);
      }
    }
  }

  lemma {:induction false} OneLargest(m: Option<Defs>, n: nat, variants: seq<Option<HirType>>, k: nat, l: nat)
    requires IsLargest(m, n, variants, k) && IsLargest(m, n, variants, l)
    ensures k == l
  {
    hide Size;
  }

  /** The payload that is kept while the variants are gone through is the largest. */
  lemma {:induction false} LargestConverted(m: Option<Defs>, n: nat, variants: seq<Option<HirType>>)
    returns (k: Option<nat>)
    requires ConvertLargest(m, n, variants).Done?
    ensures var (size, slot) := ConvertLargest(m, n, variants).v;
            if k.Some? then
              && IsLargest(m, n, variants, k.value) && Size(m, n, variants[k.value].value) == Done(size)
              && Convert(m, n, variants[k.value].value) == Done(slot)
            else
              && size == 1 && slot == IntShape(8)
              && forall j | 0 <= j < |variants| && variants[j].Some? ::
                   Size(m, n, variants[j].value).Done? && Size(m, n, variants[j].value).v <= 1
    ensures k.None? ==> forall j: nat :: !IsLargest(m, n, variants, j)
    decreases |variants|
  {
    hide Size, Convert;
    if variants == [] {
      k := None;
    } else {
      var front := variants[..|variants|-1];
      k := LargestConverted(m, n, front);
      var best, last := ConvertLargest(m, n, front).v.0, variants[|variants|-1];
      if last.Some? && Size(m, n, last.value).v > best {
        k := Some(|front|);
      }
    }
  }

  // ----- Parts by index -----

  lemma {:induction false} ConvertedAt(m: Option<Defs>, n: nat, tys: seq<HirType>, i: nat)
    requires ConvertAll(m, n, tys).Done? && i < |tys|
    ensures |ConvertAll(m, n, tys).v| == |tys| && Convert(m, n, tys[i]) == Done(ConvertAll(m, n, tys).v[i])
    decreases |tys|
  {
    hide Convert;
    var front := tys[..|tys|-1];
    if i < |front| {
      ConvertedAt(m, n, front, i);
    } else if front != [] {
      ConvertedAt(m, n, front, 0);
    }
  }

  /** The generated code takes the address of text or of a slice from part 0 and its length from part 1, a
      tag from part 0 and a payload from part 1, and field `i` from part `i`: there they are. */
  lemma {:induction false} PartsByIndex(m: Option<Defs>, n: nat, ty: HirType, i: nat)
    requires Convert(m, n, ty).Done?
    ensures var shape := Convert(m, n, ty).v;
            && (ty.Str? || ty.Slice? ==>
                  |shape.fields| == 2 && ShapeForm(shape.fields[0]).parts == [Part(0, Address)] &&
                      ShapeForm(shape.fields[1]).parts == [Part(0, Whole(64))])
            && (ty.Union? ==> |shape.fields| == 2 && ShapeForm(shape.fields[0]).parts == [Part(0, Whole(32))])
            && (ty.ErrUnion? ==> |shape.fields| == 2 && ShapeForm(shape.fields[0]).parts == [Part(0, Whole(64))])
            && (ty.Struct? && i < |StructFields(m, ty.structId).v| ==>
                  && i < |shape.fields|
                  && Convert(m, n - 1, StructFields(m, ty.structId).v[i]) == Done(shape.fields[i]))
  {
    hide ConvertLargest, Size;
    if ty.Struct? && i < |StructFields(m, ty.structId).v| {
      ConvertedAt(m, n - 1, StructFields(m, ty.structId).v, i);
    }
  }
}
