/** Size, alignment and conversion of types: allowing the recursion more depth never changes an answer. */
module TypeConversion {
  import opened Wrappers
  import opened Hir
  import opened Layout

  // ----- More depth never changes an answer -----

  lemma {:induction false} NoDepth(m: Option<Defs>, ty: HirType)
    ensures Convert(m, 0, ty).TooDeep?
  {
  }

  lemma {:induction false} SizeDeeper(m: Option<Defs>, n: nat, ty: HirType)
    ensures !Size(m, n, ty).TooDeep? ==> Size(m, n + 1, ty) == Size(m, n, ty)
    ensures !Align(m, n, ty).TooDeep? ==> Align(m, n + 1, ty) == Align(m, n, ty)
    decreases n, 0
  {
    hide FieldsEnd, FieldsAlign, LargestPayload, PayloadsAlign, AlignTo, UnionSize, Times;
    if n > 0 {
      match ty {
        case Array(elem, len) =>
          hide Size, Align;
          ArrayDeeper(m, n, elem, len);
        case Struct(id) =>
          hide Size, Align;
          StructDeeper(m, n, id);
        case Union(id) =>
          hide Size, Align;
          UnionDeeper(m, n, id);
        case ErrUnion(ok, err) =>
          hide Size, Align;
          ErrUnionDeeper(m, n, ok, err);
        case _ =>
      }
    }
  }

  lemma {:induction false} ArrayDeeper(m: Option<Defs>, n: nat, elem: HirType, len: nat)
    requires n > 0
    ensures !Size(m, n, Array(elem, len)).TooDeep? ==> Size(m, n + 1, Array(elem, len)) == Size(m, n, Array(elem, len))
    ensures !Align(m, n, Array(elem, len)).TooDeep? ==>
            Align(m, n + 1, Array(elem, len)) == Align(m, n, Array(elem, len))
    decreases n, 0, 0
  {
    hide AlignTo, Times;
    SizeDeeper(m, n - 1, elem);
  }

  lemma {:induction false} ErrUnionDeeper(m: Option<Defs>, n: nat, ok: HirType, err: HirType)
    requires n > 0
    ensures !Size(m, n, ErrUnion(ok, err)).TooDeep? ==>
            Size(m, n + 1, ErrUnion(ok, err)) == Size(m, n, ErrUnion(ok, err))
    ensures Align(m, n + 1, ErrUnion(ok, err)) == Align(m, n, ErrUnion(ok, err))
    decreases n, 0, 0
  {
    hide ErrUnionSize;
    SizeDeeper(m, n - 1, ok);
    SizeDeeper(m, n - 1, err);
  }

  lemma {:induction false} StructDeeper(m: Option<Defs>, n: nat, id: nat)
    requires n > 0
    ensures !Size(m, n, Struct(id)).TooDeep? ==> Size(m, n + 1, Struct(id)) == Size(m, n, Struct(id))
    ensures !Align(m, n, Struct(id)).TooDeep? ==> Align(m, n + 1, Struct(id)) == Align(m, n, Struct(id))
    decreases n, 0, 0
  {
    hide FieldsEnd, FieldsAlign, AlignTo;
    if StructFields(m, id).Done? {
      FieldsDeeper(m, n - 1, StructFields(m, id).v);
    }
  }

  lemma {:induction false} UnionDeeper(m: Option<Defs>, n: nat, id: nat)
    requires n > 0
    ensures !Size(m, n, Union(id)).TooDeep? ==> Size(m, n + 1, Union(id)) == Size(m, n, Union(id))
    ensures !Align(m, n, Union(id)).TooDeep? ==> Align(m, n + 1, Union(id)) == Align(m, n, Union(id))
    decreases n, 0, 0
  {
    hide LargestPayload, PayloadsAlign, UnionSize;
    if UnionVariants(m, id).Done? {
      PayloadsDeeper(m, n - 1, UnionVariants(m, id).v);
    }
  }

  lemma {:induction false} FieldsDeeper(m: Option<Defs>, n: nat, fields: seq<HirType>)
    ensures !FieldsEnd(m, n, fields).TooDeep? ==> FieldsEnd(m, n + 1, fields) == FieldsEnd(m, n, fields)
    ensures !FieldsAlign(m, n, fields).TooDeep? ==> FieldsAlign(m, n + 1, fields) == FieldsAlign(m, n, fields)
    decreases n, 1, |fields|
  {
    hide Size, Align, AlignTo;
    if fields != [] {
      FieldsDeeper(m, n, fields[..|fields|-1]);
      SizeDeeper(m, n, fields[|fields|-1]);
    }
  }

  lemma {:induction false} PayloadsDeeper(m: Option<Defs>, n: nat, variants: seq<Option<HirType>>)
    ensures !LargestPayload(m, n, variants).TooDeep? ==>
            LargestPayload(m, n + 1, variants) == LargestPayload(m, n, variants)
    ensures !PayloadsAlign(m, n, variants).TooDeep? ==>
            PayloadsAlign(m, n + 1, variants) == PayloadsAlign(m, n, variants)
    decreases n, 1, |variants|
  {
    hide Size, Align;
    if variants != [] {
      PayloadsDeeper(m, n, variants[..|variants|-1]);
      if variants[|variants|-1].Some? {
        SizeDeeper(m, n, variants[|variants|-1].value);
      }
    }
  }

  lemma {:induction false} ConvertDeeper(m: Option<Defs>, n: nat, ty: HirType)
    ensures !Convert(m, n, ty).TooDeep? ==> Convert(m, n + 1, ty) == Convert(m, n, ty)
    decreases n, 0
  {
    hide ConvertAll, ConvertLargest, Size;
    if n > 0 {
      match ty {
        case Array(elem, _) => ConvertDeeper(m, n - 1, elem);
        case Ptr(pointee, _) => ConvertDeeper(m, n - 1, pointee);
        case Struct(id) =>
          if StructFields(m, id).Done? {
            ConvertAllDeeper(m, n - 1, StructFields(m, id).v);
          }
        case Union(id) =>
          if UnionVariants(m, id).Done? {
            ConvertLargestDeeper(m, n - 1, UnionVariants(m, id).v);
          }
        case FnPtr(params, ret) =>
          ConvertAllDeeper(m, n - 1, params);
          ConvertDeeper(m, n - 1, ret);
        case ErrUnion(ok, err) =>
          SizeDeeper(m, n - 1, ok);
          SizeDeeper(m, n - 1, err);
        case _ =>
      }
    }
  }

  lemma {:induction false} ConvertAllDeeper(m: Option<Defs>, n: nat, tys: seq<HirType>)
    ensures !ConvertAll(m, n, tys).TooDeep? ==> ConvertAll(m, n + 1, tys) == ConvertAll(m, n, tys)
    decreases n, 1, |tys|
  {
    hide Convert;
    if tys != [] {
      ConvertAllDeeper(m, n, tys[..|tys|-1]);
      ConvertDeeper(m, n, tys[|tys|-1]);
    }
  }

  lemma {:induction false} ConvertLargestDeeper(m: Option<Defs>, n: nat, variants: seq<Option<HirType>>)
    ensures !ConvertLargest(m, n, variants).TooDeep? ==>
            ConvertLargest(m, n + 1, variants) == ConvertLargest(m, n, variants)
    decreases n, 1, |variants|
  {
    hide Convert, Size;
    if variants != [] {
      ConvertLargestDeeper(m, n, variants[..|variants|-1]);
      if variants[|variants|-1].Some? {
        SizeDeeper(m, n, variants[|variants|-1].value);
        ConvertDeeper(m, n, variants[|variants|-1].value);
      }
    }
  }

  lemma {:induction false} ConvertStable(m: Option<Defs>, n: nat, k: nat, ty: HirType)
    requires n <= k && !Convert(m, n, ty).TooDeep?
    ensures Convert(m, k, ty) == Convert(m, n, ty)
    decreases k - n
  {
    hide Convert;
    if n < k {
      ConvertDeeper(m, n, ty);
      ConvertStable(m, n + 1, k, ty);
    }
  }

  lemma {:induction false} ConvertAllStable(m: Option<Defs>, n: nat, k: nat, tys: seq<HirType>)
    requires n <= k && !ConvertAll(m, n, tys).TooDeep?
    ensures ConvertAll(m, k, tys) == ConvertAll(m, n, tys)
    decreases k - n
  {
    hide ConvertAll;
    if n < k {
      ConvertAllDeeper(m, n, tys);
      ConvertAllStable(m, n + 1, k, tys);
    }
  }

  lemma {:induction false} ConvertLargestStable(m: Option<Defs>, n: nat, k: nat, variants: seq<Option<HirType>>)
    requires n <= k && !ConvertLargest(m, n, variants).TooDeep?
    ensures ConvertLargest(m, k, variants) == ConvertLargest(m, n, variants)
    decreases k - n
  {
    hide ConvertLargest;
    if n < k {
      ConvertLargestDeeper(m, n, variants);
      ConvertLargestStable(m, n + 1, k, variants);
    }
  }

  lemma {:induction false} SizeStable(m: Option<Defs>, n: nat, k: nat, ty: HirType)
    requires n <= k && !Size(m, n, ty).TooDeep?
    ensures Size(m, k, ty) == Size(m, n, ty)
    decreases k - n
  {
    hide Size;
    if n < k {
      SizeDeeper(m, n, ty);
      SizeStable(m, n + 1, k, ty);
    }
  }

  lemma {:induction false} AlignStable(m: Option<Defs>, n: nat, k: nat, ty: HirType)
    requires n <= k && !Align(m, n, ty).TooDeep?
    ensures Align(m, k, ty) == Align(m, n, ty)
    decreases k - n
  {
    hide Align;
    if n < k {
      SizeDeeper(m, n, ty);
      AlignStable(m, n + 1, k, ty);
    }
  }

  lemma {:induction false} FieldsEndStable(m: Option<Defs>, n: nat, k: nat, fields: seq<HirType>)
    requires n <= k && !FieldsEnd(m, n, fields).TooDeep?
    ensures FieldsEnd(m, k, fields) == FieldsEnd(m, n, fields)
    decreases k - n
  {
    hide FieldsEnd;
    if n < k {
      FieldsDeeper(m, n, fields);
      FieldsEndStable(m, n + 1, k, fields);
    }
  }

  lemma {:induction false} FieldsAlignStable(m: Option<Defs>, n: nat, k: nat, fields: seq<HirType>)
    requires n <= k && !FieldsAlign(m, n, fields).TooDeep?
    ensures FieldsAlign(m, k, fields) == FieldsAlign(m, n, fields)
    decreases k - n
  {
    hide FieldsAlign;
    if n < k {
      FieldsDeeper(m, n, fields);
      FieldsAlignStable(m, n + 1, k, fields);
    }
  }

  lemma {:induction false} LargestPayloadStable(m: Option<Defs>, n: nat, k: nat, variants: seq<Option<HirType>>)
    requires n <= k && !LargestPayload(m, n, variants).TooDeep?
    ensures LargestPayload(m, k, variants) == LargestPayload(m, n, variants)
    decreases k - n
  {
    hide LargestPayload;
    if n < k {
      PayloadsDeeper(m, n, variants);
      LargestPayloadStable(m, n + 1, k, variants);
    }
  }

  lemma {:induction false} PayloadsAlignStable(m: Option<Defs>, n: nat, k: nat, variants: seq<Option<HirType>>)
    requires n <= k && !PayloadsAlign(m, n, variants).TooDeep?
    ensures PayloadsAlign(m, k, variants) == PayloadsAlign(m, n, variants)
    decreases k - n
  {
    hide PayloadsAlign;
    if n < k {
      PayloadsDeeper(m, n, variants);
      PayloadsAlignStable(m, n + 1, k, variants);
    }
  }

  /** Whatever depths the size and the shape were computed with. */
  lemma {:induction false} AnySizeCoversAnyShape(m: Option<Defs>, n: nat, k: nat, ty: HirType)
    requires Documented(m) && KnownWidths(ty) && Size(m, n, ty).Done? && Convert(m, k, ty).Done?
    ensures AllocSize(Convert(m, k, ty).v) <= Size(m, n, ty).v
  {
    hide Size, Convert, Align, Documented, KnownWidths, AllocSize;
    var most := Max(n, k);
    SizeStable(m, n, most, ty);
    ConvertStable(m, k, most, ty);
    SizeCoversShape(m, most, ty, false);
  }
}
