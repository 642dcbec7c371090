/** The code generator's type methods: sizes by loops over fields and variants, and conversion through
    a cache. */
module CodegenTypes {
  import opened Wrappers
  import opened Hir
  import opened Layout
  import opened TypeConversion

  /** `r` is what conversion comes to at some depth, and it only gives up where depth `n` gives up too. */
  ghost predicate Answers(m: Option<Defs>, n: nat, ty: HirType, r: Outcome<Shape>)
  {
    if r.TooDeep? then Convert(m, n, ty).TooDeep? else exists k: nat :: Convert(m, k, ty) == r
  }

  ghost predicate AnswersAll(m: Option<Defs>, n: nat, tys: seq<HirType>, r: Outcome<seq<Shape>>)
  {
    if r.TooDeep? then ConvertAll(m, n, tys).TooDeep? else exists k: nat :: ConvertAll(m, k, tys) == r
  }

  ghost predicate AnswersLargest(m: Option<Defs>, n: nat, variants: seq<Option<HirType>>, r: Outcome<(nat, Shape)>)
  {
    if r.TooDeep? then ConvertLargest(m, n, variants).TooDeep? else exists k: nat :: ConvertLargest(m, k, variants) == r
  }

  class CodegenContext {
    const hirModule: Option<Defs>
    var typeCache: map<HirType, Shape>

    /** Everything in the cache is what conversion without it comes to. */
    ghost predicate Valid()
      reads this
    {
      forall t | t in typeCache :: Answers(hirModule, 0, t, Done(typeCache[t]))
    }

    constructor (hirModule: Option<Defs>)
      ensures Valid() && this.hirModule == hirModule && typeCache == map[]
    {
      this.hirModule := hirModule;
      typeCache := map[];
    }

    // ----- Sizes and alignments -----

    method HirTypeSize(ty: HirType, depth: nat) returns (r: Outcome<nat>)
      ensures r == Size(hirModule, depth, ty)
      decreases depth, 0
    {
      hide FieldsEnd, LargestPayload, AlignTo, Times, UnionSize, ErrUnionSize, Align;
      if depth == 0 {
        return TooDeep;
      }
      match ty {
        case Array(elem, len) =>
          var size :- HirTypeSize(elem, depth - 1);
          var align :- HirTypeAlign(elem, depth - 1);
          var stride :- AlignTo(size, align);
          return Times(stride, len);
        case Struct(id) =>
          var fields :- StructFields(hirModule, id);
          var end :- FieldsLoop(fields, depth - 1);
          return AlignTo(end.0, end.1);
        case Union(id) =>
          var variants :- UnionVariants(hirModule, id);
          var payload :- PayloadLoop(variants, depth - 1);
          return UnionSize(payload.0, payload.1);
        case ErrUnion(ok, err) =>
          var okSize :- HirTypeSize(ok, depth - 1);
          var errSize :- HirTypeSize(err, depth - 1);
          return ErrUnionSize(okSize, errSize);
        case Int(width, _) => return Done(width / 8);
        case Float(width) => return Done(width / 8);
        case Str => return Done(16);
        case Slice(_) => return Done(16);
        case Ptr(_, _) => return Done(8);
        case FnPtr(_, _) => return Done(8);
        case Bool => return Done(1);
        case Never => return Done(1);
        case Void => return Failed(NoSize);
      }
    }

    method FieldsLoop(fields: seq<HirType>, depth: nat) returns (r: Outcome<(nat, nat)>)
      ensures r == FieldsEnd(hirModule, depth, fields)
      decreases depth, 1
    {
      hide Size, Align, AlignTo;
      var offset, maxAlign := 0, 1;
      for i := 0 to |fields|
        invariant FieldsEnd(hirModule, depth, fields[..i]) == Done((offset, maxAlign))
      {
        assert fields[..i+1][..i] == fields[..i];
        FieldsEndFails(hirModule, depth, fields, i + 1);
        assert FieldsEnd(hirModule, depth, fields[..i+1]) ==
               FieldAfter(hirModule, depth, (offset, maxAlign), fields[i]);
        var align :- HirTypeAlign(fields[i], depth);
        maxAlign := Max(maxAlign, align);
        var start :- AlignTo(offset, align);
        var size :- HirTypeSize(fields[i], depth);
        offset :- U64(start + size);
      }
      assert fields[..|fields|] == fields;
      r := Done((offset, maxAlign));
    }

    method PayloadLoop(variants: seq<Option<HirType>>, depth: nat) returns (r: Outcome<(nat, nat)>)
      ensures r == LargestPayload(hirModule, depth, variants)
      decreases depth, 1
    {
      hide Size, Align;
      var payloadSize, payloadAlign := 1, 1;
      for i := 0 to |variants|
        invariant LargestPayload(hirModule, depth, variants[..i]) == Done((payloadSize, payloadAlign))
      {
        assert variants[..i+1][..i] == variants[..i];
        LargestPayloadFails(hirModule, depth, variants, i + 1);
        assert LargestPayload(hirModule, depth, variants[..i+1]) ==
               LargerPayload(hirModule, depth, (payloadSize, payloadAlign), variants[i]);
        if variants[i].Some? {
          var size :- HirTypeSize(variants[i].value, depth);
          if size > payloadSize {
            payloadSize := size;
            payloadAlign :- HirTypeAlign(variants[i].value, depth);
          }
        }
      }
      assert variants[..|variants|] == variants;
      r := Done((payloadSize, payloadAlign));
    }

    method HirTypeAlign(ty: HirType, depth: nat) returns (r: Outcome<nat>)
      ensures r == Align(hirModule, depth, ty)
      decreases depth, 0
    {
      hide FieldsAlign, PayloadsAlign;
      if depth == 0 {
        return TooDeep;
      }
      match ty {
        case Array(elem, _) => r := HirTypeAlign(elem, depth - 1);
        case Struct(id) =>
          var fields :- StructFields(hirModule, id);
          r := FieldsAlignLoop(fields, depth - 1);
        case Union(id) =>
          var variants :- UnionVariants(hirModule, id);
          r := PayloadsAlignLoop(variants, depth - 1);
        case Int(width, _) => return Done(width / 8);
        case Float(width) => return Done(width / 8);
        case Str => return Done(8);
        case Slice(_) => return Done(8);
        case Ptr(_, _) => return Done(8);
        case FnPtr(_, _) => return Done(8);
        case ErrUnion(_, _) => return Done(8);
        case Bool => return Done(1);
        case Never => return Done(1);
        case Void => return Failed(NoSize);
      }
    }

    method FieldsAlignLoop(fields: seq<HirType>, depth: nat) returns (r: Outcome<nat>)
      ensures r == FieldsAlign(hirModule, depth, fields)
      decreases depth, 1
    {
      hide Align;
      var maxAlign := 1;
      for i := 0 to |fields|
        invariant FieldsAlign(hirModule, depth, fields[..i]) == Done(maxAlign)
      {
        assert fields[..i+1][..i] == fields[..i];
        FieldsAlignFails(hirModule, depth, fields, i + 1);
        var align :- HirTypeAlign(fields[i], depth);
        maxAlign := Max(maxAlign, align);
      }
      assert fields[..|fields|] == fields;
      r := Done(maxAlign);
    }

    method PayloadsAlignLoop(variants: seq<Option<HirType>>, depth: nat) returns (r: Outcome<nat>)
      ensures r == PayloadsAlign(hirModule, depth, variants)
      decreases depth, 1
    {
      hide Align;
      var maxAlign := 4;
      for i := 0 to |variants|
        invariant PayloadsAlign(hirModule, depth, variants[..i]) == Done(maxAlign)
      {
        assert variants[..i+1][..i] == variants[..i];
        PayloadsAlignFails(hirModule, depth, variants, i + 1);
        if variants[i].Some? {
          var align :- HirTypeAlign(variants[i].value, depth);
          maxAlign := Max(maxAlign, align);
        }
      }
      assert variants[..|variants|] == variants;
      r := Done(maxAlign);
    }

    // ----- Conversion -----

    /** The cache never changes an answer: a conversion comes to what it comes to without the cache. */
    method ConvertType(ty: HirType, depth: nat) returns (r: Outcome<Shape>)
      requires Valid()
      modifies this`typeCache
      ensures Valid() && Answers(hirModule, depth, ty, r)
      ensures forall t | t in old(typeCache) :: t in typeCache && typeCache[t] == old(typeCache[t])
      ensures r.Done? ==> ty in typeCache && typeCache[ty] == r.v
      decreases depth, 1
    {
      hide Convert;
      if ty in typeCache {
        return Done(typeCache[ty]);
      }
      if depth == 0 {
        NoDepth(hirModule, ty);
        return TooDeep;
      }
      var shape :- ConvertTypeUncached(ty, depth);
      typeCache := typeCache[ty := shape];
      r := Done(shape);
    }

    method ConvertTypeUncached(ty: HirType, depth: nat) returns (r: Outcome<Shape>)
      requires Valid() && depth > 0
      modifies this`typeCache
      ensures Valid() && Answers(hirModule, depth, ty, r)
      ensures forall t | t in old(typeCache) :: t in typeCache && typeCache[t] == old(typeCache[t])
      decreases depth, 0
    {
      hide Convert, Answers, AnswersAll, AnswersLargest;
      match ty {
        case Ptr(pointee, owned) =>
          var inner := ConvertType(pointee, depth - 1);
          r := if inner.Done? then Done(PtrShape) else inner;
          PtrAnswers(hirModule, depth, pointee, owned, inner);
        case Array(elem, len) =>
          var inner := ConvertType(elem, depth - 1);
          r := if inner.Done? then Done(ArrayShape(inner.v, len % TWO_32)) else inner;
          ArrayAnswers(hirModule, depth, elem, len, inner);
        case Struct(id) =>
          r := ConvertStruct(id, depth);
        case Union(id) =>
          r := ConvertUnion(id, depth);
        case FnPtr(params, ret) =>
          r := ConvertFnPtr(params, ret, depth);
        case ErrUnion(ok, err) =>
          r := ConvertErrUnion(ok, err, depth);
        case _ =>
          r := ConvertSimple(ty, depth);
      }
    }

    method ConvertSimple(ty: HirType, depth: nat) returns (r: Outcome<Shape>)
      requires depth > 0
      requires ty.Bool? || ty.Int? || ty.Float? || ty.Str? || ty.Slice? || ty.Never? || ty.Void?
      ensures Answers(hirModule, depth, ty, r)
    {
      match ty {
        case Bool => r := Done(BitShape);
        case Int(width, _) =>
          r := if width in {8, 16, 32, 64} then Done(IntShape(width)) else Failed(UnsupportedWidth);
        case Float(width) =>
          r := if width in {32, 64} then Done(FloatShape(width)) else Failed(UnsupportedWidth);
        case Str => r := Done(FAT_POINTER);
        case Slice(_) => r := Done(FAT_POINTER);
        case Never => r := Done(IntShape(8));
        case _ => r := Failed(NoSize);
      }
      assert Convert(hirModule, depth, ty) == r;
    }

    method ConvertStruct(id: nat, depth: nat) returns (r: Outcome<Shape>)
      requires Valid() && depth > 0
      modifies this`typeCache
      ensures Valid() && Answers(hirModule, depth, Struct(id), r)
      ensures forall t | t in old(typeCache) :: t in typeCache && typeCache[t] == old(typeCache[t])
      decreases depth, 0, 0
    {
      hide Convert, ConvertAll, Answers, AnswersAll;
      var fields := StructFields(hirModule, id);
      if fields.Done? {
        var shapes := ConvertTypes(fields.v, depth - 1);
        r := if shapes.Done? then Done(StructShape(shapes.v)) else shapes.PropagateFailure();
        StructAnswers(hirModule, depth, id, shapes);
      } else {
        r := fields.PropagateFailure();
        UnknownStructAnswers(hirModule, depth, id);
      }
    }

    method ConvertUnion(id: nat, depth: nat) returns (r: Outcome<Shape>)
      requires Valid() && depth > 0
      modifies this`typeCache
      ensures Valid() && Answers(hirModule, depth, Union(id), r)
      ensures forall t | t in old(typeCache) :: t in typeCache && typeCache[t] == old(typeCache[t])
      decreases depth, 0, 0
    {
      hide Convert, ConvertLargest, Answers, AnswersLargest;
      var variants := UnionVariants(hirModule, id);
      if variants.Done? {
        var payload := ConvertPayloads(variants.v, depth - 1);
        r := if payload.Done? then Done(StructShape([IntShape(32), payload.v.1])) else payload.PropagateFailure();
        UnionAnswers(hirModule, depth, id, payload);
      } else {
        r := variants.PropagateFailure();
        UnknownUnionAnswers(hirModule, depth, id);
      }
    }

    method ConvertFnPtr(params: seq<HirType>, ret: HirType, depth: nat) returns (r: Outcome<Shape>)
      requires Valid() && depth > 0
      modifies this`typeCache
      ensures Valid() && Answers(hirModule, depth, FnPtr(params, ret), r)
      ensures forall t | t in old(typeCache) :: t in typeCache && typeCache[t] == old(typeCache[t])
      decreases depth, 0, 0
    {
      hide Convert, ConvertAll, Answers, AnswersAll;
      var shapes := ConvertTypes(params, depth - 1);
      if !shapes.Done? {
        r := shapes.PropagateFailure();
        ParamsAnswer(hirModule, depth, params, ret, shapes);
        return;
      }
      var result := Done(PtrShape);
      if !ret.Void? {
        result := ConvertType(ret, depth - 1);
      }
      r := if result.Done? then Done(PtrShape) else result;
      FnPtrAnswers(hirModule, depth, params, ret, shapes, result);
    }

    method ConvertErrUnion(ok: HirType, err: HirType, depth: nat) returns (r: Outcome<Shape>)
      requires depth > 0
      ensures Answers(hirModule, depth, ErrUnion(ok, err), r)
      decreases depth, 0, 0
    {
      hide Size;
      var okSize := HirTypeSize(ok, depth - 1);
      if !okSize.Done? {
        r := okSize.PropagateFailure();
      } else {
        var errSize := HirTypeSize(err, depth - 1);
        if !errSize.Done? {
          r := errSize.PropagateFailure();
        } else {
          r := Done(StructShape([IntShape(64), ArrayShape(IntShape(8), Max(okSize.v, errSize.v) % TWO_32)]));
        }
      }
      assert Convert(hirModule, depth, ErrUnion(ok, err)) == r;
    }

    method ConvertTypes(tys: seq<HirType>, depth: nat) returns (r: Outcome<seq<Shape>>)
      requires Valid()
      modifies this`typeCache
      ensures Valid() && AnswersAll(hirModule, depth, tys, r)
      ensures forall t | t in old(typeCache) :: t in typeCache && typeCache[t] == old(typeCache[t])
      decreases depth, 2
    {
      hide Convert, ConvertAll, Answers, AnswersAll;
      var shapes: seq<Shape> := [];
      NothingAnswers(hirModule, depth);
      assert tys[..0] == [];
      for i := 0 to |tys|
        invariant Valid() && AnswersAll(hirModule, depth, tys[..i], Done(shapes))
        invariant forall t | t in old(typeCache) :: t in typeCache && typeCache[t] == old(typeCache[t])
      {
        var shape := ConvertType(tys[i], depth);
        NextAnswers(hirModule, depth, tys, i, shapes, shape);
        if !shape.Done? {
          return shape.PropagateFailure();
        }
        shapes := shapes + [shape.v];
      }
      assert tys[..|tys|] == tys;
      r := Done(shapes);
    }

    method ConvertPayloads(variants: seq<Option<HirType>>, depth: nat) returns (r: Outcome<(nat, Shape)>)
      requires Valid()
      modifies this`typeCache
      ensures Valid() && AnswersLargest(hirModule, depth, variants, r)
      ensures forall t | t in old(typeCache) :: t in typeCache && typeCache[t] == old(typeCache[t])
      decreases depth, 2
    {
      hide Convert, ConvertLargest, Answers, AnswersLargest, Size;
      var largestSize, largest := 1, IntShape(8);
      NoVariantAnswers(hirModule, depth);
      assert variants[..0] == [];
      for i := 0 to |variants|
        invariant Valid() && AnswersLargest(hirModule, depth, variants[..i], Done((largestSize, largest)))
        invariant forall t | t in old(typeCache) :: t in typeCache && typeCache[t] == old(typeCache[t])
      {
        if variants[i].None? {
          NoPayloadAnswers(hirModule, depth, variants, i, largestSize, largest);
        } else {
          var size := HirTypeSize(variants[i].value, depth);
          SizeAnswers(hirModule, depth, variants, i, largestSize, largest, size);
          if !size.Done? {
            return size.PropagateFailure();
          }
          if size.v > largestSize {
            var shape := ConvertType(variants[i].value, depth);
            PayloadAnswers(hirModule, depth, variants, i, largestSize, largest, size.v, shape);
            if !shape.Done? {
              return shape.PropagateFailure();
            }
            largestSize, largest := size.v, shape.v;
          }
        }
      }
      assert variants[..|variants|] == variants;
      r := Done((largestSize, largest));
    }
  }

  // ----- A loop that stops early has the answer -----

  lemma {:induction false} FieldsEndFails(m: Option<Defs>, n: nat, fields: seq<HirType>, i: nat)
    requires i <= |fields|
    ensures !FieldsEnd(m, n, fields[..i]).Done? ==> FieldsEnd(m, n, fields) == FieldsEnd(m, n, fields[..i])
    decreases |fields|
  {
    hide FieldAfter;
    if i < |fields| {
      var front := fields[..|fields|-1];
      assert front[..i] == fields[..i];
      FieldsEndFails(m, n, front, i);
    } else {
      assert fields[..i] == fields;
    }
  }

  lemma {:induction false} LargestPayloadFails(m: Option<Defs>, n: nat, variants: seq<Option<HirType>>, i: nat)
    requires i <= |variants|
    ensures !LargestPayload(m, n, variants[..i]).Done? ==>
            LargestPayload(m, n, variants) == LargestPayload(m, n, variants[..i])
    decreases |variants|
  {
    hide LargerPayload;
    if i < |variants| {
      var front := variants[..|variants|-1];
      assert front[..i] == variants[..i];
      LargestPayloadFails(m, n, front, i);
    } else {
      assert variants[..i] == variants;
    }
  }

  lemma {:induction false} FieldsAlignFails(m: Option<Defs>, n: nat, fields: seq<HirType>, i: nat)
    requires i <= |fields|
    ensures !FieldsAlign(m, n, fields[..i]).Done? ==> FieldsAlign(m, n, fields) == FieldsAlign(m, n, fields[..i])
    decreases |fields|
  {
    hide Align;
    if i < |fields| {
      var front := fields[..|fields|-1];
      assert front[..i] == fields[..i];
      FieldsAlignFails(m, n, front, i);
    } else {
      assert fields[..i] == fields;
    }
  }

  lemma {:induction false} PayloadsAlignFails(m: Option<Defs>, n: nat, variants: seq<Option<HirType>>, i: nat)
    requires i <= |variants|
    ensures !PayloadsAlign(m, n, variants[..i]).Done? ==>
            PayloadsAlign(m, n, variants) == PayloadsAlign(m, n, variants[..i])
    decreases |variants|
  {
    hide Align;
    if i < |variants| {
      var front := variants[..|variants|-1];
      assert front[..i] == variants[..i];
      PayloadsAlignFails(m, n, front, i);
    } else {
      assert variants[..i] == variants;
    }
  }

  lemma {:induction false} ConvertAllFails(m: Option<Defs>, n: nat, tys: seq<HirType>, i: nat)
    requires i <= |tys| && !ConvertAll(m, n, tys[..i]).Done?
    ensures ConvertAll(m, n, tys) == ConvertAll(m, n, tys[..i])
    decreases |tys|
  {
    hide Convert;
    if i < |tys| {
      var front := tys[..|tys|-1];
      assert front[..i] == tys[..i];
      ConvertAllFails(m, n, front, i);
    } else {
      assert tys[..i] == tys;
    }
  }

  lemma {:induction false} ConvertLargestFails(m: Option<Defs>, n: nat, variants: seq<Option<HirType>>, i: nat)
    requires i <= |variants| && !ConvertLargest(m, n, variants[..i]).Done?
    ensures ConvertLargest(m, n, variants) == ConvertLargest(m, n, variants[..i])
    decreases |variants|
  {
    hide ConvertLarger;
    if i < |variants| {
      var front := variants[..|variants|-1];
      assert front[..i] == variants[..i];
      ConvertLargestFails(m, n, front, i);
    } else {
      assert variants[..i] == variants;
    }
  }

  // ----- Answers of the parts make the answer of the whole -----

  lemma {:induction false} PtrAnswers(m: Option<Defs>, n: nat, pointee: HirType, owned: bool, inner: Outcome<Shape>)
    requires n > 0 && Answers(m, n - 1, pointee, inner)
    ensures Answers(m, n, Ptr(pointee, owned), if inner.Done? then Done(PtrShape) else inner)
  {
    if !inner.TooDeep? {
      var k: nat :| Convert(m, k, pointee) == inner;
      assert Convert(m, k + 1, Ptr(pointee, owned)) == if inner.Done? then Done(PtrShape) else inner;
    }
  }

  lemma {:induction false} ArrayAnswers(m: Option<Defs>, n: nat, elem: HirType, len: nat, inner: Outcome<Shape>)
    requires n > 0 && Answers(m, n - 1, elem, inner)
    ensures Answers(m, n, Array(elem, len), if inner.Done? then Done(ArrayShape(inner.v, len % TWO_32)) else inner)
  {
    if !inner.TooDeep? {
      var k: nat :| Convert(m, k, elem) == inner;
      assert Convert(m, k + 1, Array(elem, len)) ==
             if inner.Done? then Done(ArrayShape(inner.v, len % TWO_32)) else inner;
    }
  }

  lemma {:induction false} StructAnswers(m: Option<Defs>, n: nat, id: nat, shapes: Outcome<seq<Shape>>)
    requires n > 0 && StructFields(m, id).Done? && AnswersAll(m, n - 1, StructFields(m, id).v, shapes)
    ensures Answers(m, n, Struct(id), if shapes.Done? then Done(StructShape(shapes.v)) else shapes.PropagateFailure())
  {
    hide ConvertAll;
    if !shapes.TooDeep? {
      var k: nat :| ConvertAll(m, k, StructFields(m, id).v) == shapes;
      assert Convert(m, k + 1, Struct(id)) ==
             if shapes.Done? then Done(StructShape(shapes.v)) else shapes.PropagateFailure();
    }
  }

  lemma {:induction false} UnknownStructAnswers(m: Option<Defs>, n: nat, id: nat)
    requires n > 0 && !StructFields(m, id).Done?
    ensures Answers(m, n, Struct(id), StructFields(m, id).PropagateFailure())
  {
    assert Convert(m, n, Struct(id)) == StructFields(m, id).PropagateFailure();
  }

  lemma {:induction false} UnionAnswers(m: Option<Defs>, n: nat, id: nat, payload: Outcome<(nat, Shape)>)
    requires n > 0 && UnionVariants(m, id).Done? && AnswersLargest(m, n - 1, UnionVariants(m, id).v, payload)
    ensures Answers(m, n, Union(id),
                    if payload.Done?
                        then Done(StructShape([IntShape(32), payload.v.1])) else payload.PropagateFailure())
  {
    hide ConvertLargest;
    if !payload.TooDeep? {
      var k: nat :| ConvertLargest(m, k, UnionVariants(m, id).v) == payload;
      assert Convert(m, k + 1, Union(id)) ==
             if payload.Done? then Done(StructShape([IntShape(32), payload.v.1])) else payload.PropagateFailure();
    }
  }

  lemma {:induction false} UnknownUnionAnswers(m: Option<Defs>, n: nat, id: nat)
    requires n > 0 && !UnionVariants(m, id).Done?
    ensures Answers(m, n, Union(id), UnionVariants(m, id).PropagateFailure())
  {
    assert Convert(m, n, Union(id)) == UnionVariants(m, id).PropagateFailure();
  }

  lemma {:induction false} ParamsAnswer(
      m: Option<Defs>, n: nat, params: seq<HirType>, ret: HirType, shapes: Outcome<seq<Shape>>)
    requires n > 0 && AnswersAll(m, n - 1, params, shapes) && !shapes.Done?
    ensures Answers(m, n, FnPtr(params, ret), shapes.PropagateFailure())
  {
    hide ConvertAll;
    if !shapes.TooDeep? {
      var k: nat :| ConvertAll(m, k, params) == shapes;
      assert Convert(m, k + 1, FnPtr(params, ret)) == shapes.PropagateFailure();
    }
  }

  lemma {:induction false} FnPtrAnswers(
      m: Option<Defs>, n: nat, params: seq<HirType>, ret: HirType, shapes: Outcome<seq<Shape>>, result: Outcome<Shape>)
    requires n > 0 && AnswersAll(m, n - 1, params, shapes) && shapes.Done?
    requires if ret.Void? then result == Done(PtrShape) else Answers(m, n - 1, ret, result)
    ensures Answers(m, n, FnPtr(params, ret), if result.Done? then Done(PtrShape) else result)
  {
    var k: nat :| ConvertAll(m, k, params) == shapes;
    if ret.Void? {
      hide ConvertAll;
      assert Convert(m, k + 1, FnPtr(params, ret)) == Done(PtrShape);
    } else if result.TooDeep? {
      LessDeepAll(m, n - 1, k, params);
      hide ConvertAll;
      assert Convert(m, n, FnPtr(params, ret)).TooDeep?;
    } else {
      var l: nat :| Convert(m, l, ret) == result;
      var most := Max(k, l);
      ConvertAllStable(m, k, most, params);
      ConvertStable(m, l, most, ret);
      hide ConvertAll;
      assert Convert(m, most + 1, FnPtr(params, ret)) == if result.Done? then Done(PtrShape) else result;
    }
  }

  /** What succeeds at some depth does not fail at another: it succeeds or is too deep. */
  lemma {:induction false} LessDeepAll(m: Option<Defs>, n: nat, k: nat, tys: seq<HirType>)
    requires ConvertAll(m, k, tys).Done?
    ensures ConvertAll(m, n, tys).TooDeep? || ConvertAll(m, n, tys) == ConvertAll(m, k, tys)
  {
    hide ConvertAll;
    var most := Max(n, k);
    ConvertAllStable(m, k, most, tys);
    if !ConvertAll(m, n, tys).TooDeep? {
      ConvertAllStable(m, n, most, tys);
    }
  }

  lemma {:induction false} LessDeepLargest(m: Option<Defs>, n: nat, k: nat, variants: seq<Option<HirType>>)
    requires ConvertLargest(m, k, variants).Done?
    ensures ConvertLargest(m, n, variants).TooDeep? || ConvertLargest(m, n, variants) == ConvertLargest(m, k, variants)
  {
    hide ConvertLargest;
    var most := Max(n, k);
    ConvertLargestStable(m, k, most, variants);
    if !ConvertLargest(m, n, variants).TooDeep? {
      ConvertLargestStable(m, n, most, variants);
    }
  }

  lemma {:induction false} NothingAnswers(m: Option<Defs>, n: nat)
    ensures AnswersAll(m, n, [], Done([]))
  {
    assert ConvertAll(m, n, []) == Done([]);
  }

  lemma {:induction false} NoVariantAnswers(m: Option<Defs>, n: nat)
    ensures AnswersLargest(m, n, [], Done((1, IntShape(8))))
  {
    assert ConvertLargest(m, n, []) == Done((1, IntShape(8)));
  }

  lemma {:induction false} ConvertAllNext(m: Option<Defs>, n: nat, tys: seq<HirType>, i: nat)
    requires i < |tys|
    ensures ConvertAll(m, n, tys[..i+1]) ==
            match ConvertAll(m, n, tys[..i]) {
              case Done(before) => (match Convert(m, n, tys[i]) {
                case Done(last) => Done(before + [last]) case Failed(e) => Failed(e) case TooDeep => TooDeep })
              case r => r }
  {
    hide Convert;
    assert tys[..i+1][..i] == tys[..i];
  }

  lemma {:induction false} NextAnswers(
      m: Option<Defs>, n: nat, tys: seq<HirType>, i: nat, shapes: seq<Shape>, shape: Outcome<Shape>)
    requires i < |tys| && AnswersAll(m, n, tys[..i], Done(shapes)) && Answers(m, n, tys[i], shape)
    ensures if shape.Done? then AnswersAll(m, n, tys[..i+1], Done(shapes + [shape.v]))
            else AnswersAll(m, n, tys, shape.PropagateFailure<seq<Shape>>())
  {
    hide Convert, ConvertAll;
    var k: nat :| ConvertAll(m, k, tys[..i]) == Done(shapes);
    if shape.TooDeep? {
      LessDeepAll(m, n, k, tys[..i]);
      ConvertAllNext(m, n, tys, i);
      ConvertAllFails(m, n, tys, i + 1);
    } else {
      var l: nat :| Convert(m, l, tys[i]) == shape;
      var most := Max(k, l);
      ConvertAllStable(m, k, most, tys[..i]);
      ConvertStable(m, l, most, tys[i]);
      ConvertAllNext(m, most, tys, i);
      if !shape.Done? {
        ConvertAllFails(m, most, tys, i + 1);
      }
    }
  }

  lemma {:induction false} ConvertLargestNext(m: Option<Defs>, n: nat, variants: seq<Option<HirType>>, i: nat)
    requires i < |variants| && ConvertLargest(m, n, variants[..i]).Done?
    ensures ConvertLargest(m, n, variants[..i+1]) ==
            ConvertLarger(m, n, ConvertLargest(m, n, variants[..i]).v, variants[i])
  {
    hide ConvertLarger;
    assert variants[..i+1][..i] == variants[..i];
  }

  lemma {:induction false} NoPayloadAnswers(
      m: Option<Defs>, n: nat, variants: seq<Option<HirType>>, i: nat, largestSize: nat, largest: Shape)
    requires i < |variants| && variants[i].None?
    requires AnswersLargest(m, n, variants[..i], Done((largestSize, largest)))
    ensures AnswersLargest(m, n, variants[..i+1], Done((largestSize, largest)))
  {
    hide ConvertLargest;
    var k: nat :| ConvertLargest(m, k, variants[..i]) == Done((largestSize, largest));
    ConvertLargestNext(m, k, variants, i);
  }

  lemma {:induction false} SizeAnswers(
      m: Option<Defs>, n: nat, variants: seq<Option<HirType>>, i: nat, largestSize: nat, largest: Shape,
      size: Outcome<nat>)
    requires i < |variants| && variants[i].Some? && size == Size(m, n, variants[i].value)
    requires AnswersLargest(m, n, variants[..i], Done((largestSize, largest)))
    ensures !size.Done? ==> AnswersLargest(m, n, variants, size.PropagateFailure<(nat, Shape)>())
    ensures size.Done? && size.v <= largestSize ==> AnswersLargest(m, n, variants[..i+1], Done((largestSize, largest)))
  {
    hide ConvertLargest, Size, Convert;
    var k: nat :| ConvertLargest(m, k, variants[..i]) == Done((largestSize, largest));
    if size.TooDeep? {
      LessDeepLargest(m, n, k, variants[..i]);
      if ConvertLargest(m, n, variants[..i]).Done? {
        ConvertLargestNext(m, n, variants, i);
        ConvertLargestFails(m, n, variants, i + 1);
      } else {
        ConvertLargestFails(m, n, variants, i);
      }
    } else {
      var most := Max(k, n);
      ConvertLargestStable(m, k, most, variants[..i]);
      SizeStable(m, n, most, variants[i].value);
      ConvertLargestNext(m, most, variants, i);
      if !size.Done? {
        ConvertLargestFails(m, most, variants, i + 1);
      }
    }
  }

  lemma {:induction false} PayloadAnswers(
      m: Option<Defs>, n: nat, variants: seq<Option<HirType>>, i: nat, largestSize: nat, largest: Shape,
      size: nat, shape: Outcome<Shape>)
    requires i < |variants| && variants[i].Some? && Size(m, n, variants[i].value) == Done(size) && size > largestSize
    requires AnswersLargest(m, n, variants[..i], Done((largestSize, largest))) &&
             Answers(m, n, variants[i].value, shape)
    ensures if shape.Done? then AnswersLargest(m, n, variants[..i+1], Done((size, shape.v)))
            else AnswersLargest(m, n, variants, shape.PropagateFailure<(nat, Shape)>())
  {
    hide ConvertLargest, Size, Convert;
    var k: nat :| ConvertLargest(m, k, variants[..i]) == Done((largestSize, largest));
    if shape.TooDeep? {
      LessDeepLargest(m, n, k, variants[..i]);
      if ConvertLargest(m, n, variants[..i]).Done? {
        ConvertLargestNext(m, n, variants, i);
        ConvertLargestFails(m, n, variants, i + 1);
      } else {
        ConvertLargestFails(m, n, variants, i);
      }
    } else {
      var l: nat :| Convert(m, l, variants[i].value) == shape;
      var most := Max(Max(k, l), n);
      ConvertLargestStable(m, k, most, variants[..i]);
      SizeStable(m, n, most, variants[i].value);
      ConvertStable(m, l, most, variants[i].value);
      ConvertLargestNext(m, most, variants, i);
      if !shape.Done? {
        ConvertLargestFails(m, most, variants, i + 1);
      }
    }
  }

  /** What an answer is worth: where conversion without the cache ends, it is that. */
  lemma {:induction false} AnswerIsConversion(m: Option<Defs>, n: nat, ty: HirType, r: Outcome<Shape>)
    requires Answers(m, n, ty, r) && !Convert(m, n, ty).TooDeep?
    ensures r == Convert(m, n, ty)
  {
    hide Convert;
    var k: nat :| Convert(m, k, ty) == r;
    ConvertStable(m, k, Max(k, n), ty);
    ConvertStable(m, n, Max(k, n), ty);
  }
}
