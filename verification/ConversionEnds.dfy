/** When the recursion over types comes to an end. Computing a size, an alignment or a shape calls for
    others; it ends exactly when no computation it leads to calls for itself again. */
module ConversionEnds {
  import opened Wrappers
  import opened Hir
  import opened Layout
  import opened TypeConversion
  import opened Counting

  /** One computation about a type. */
  datatype Task = Sizing(ty: HirType) | Aligning(ty: HirType) | Converting(ty: HirType)

  ghost predicate Ended(m: Option<Defs>, n: nat, t: Task)
  {
    match t
    case Sizing(ty) => !Size(m, n, ty).TooDeep?
    case Aligning(ty) => !Align(m, n, ty).TooDeep?
    case Converting(ty) => !Convert(m, n, ty).TooDeep?
  }

  ghost predicate Ends(m: Option<Defs>, t: Task) { exists n: nat :: Ended(m, n, t) }

  // ----- What a computation calls for -----

  /** With depth `n` for what it calls, `t` gets as far as calling for `u`: everything before that has
      come to an end, and successfully. */
  ghost predicate CallsAt(m: Option<Defs>, n: nat, t: Task, u: Task)
  {
    match t
    case Sizing(ty) => SizeCalls(m, n, ty, u)
    case Aligning(ty) => AlignCalls(m, n, ty, u)
    case Converting(ty) => ConvertCalls(m, n, ty, u)
  }

  ghost predicate Calls(m: Option<Defs>, t: Task, u: Task) { exists n: nat :: CallsAt(m, n, t, u) }

  ghost predicate SizeCalls(m: Option<Defs>, n: nat, ty: HirType, u: Task)
  {
    match ty
    case Array(elem, _) => u == Sizing(elem) || (Size(m, n, elem).Done? && u == Aligning(elem))
    case ErrUnion(ok, err) => u == Sizing(ok) || (Size(m, n, ok).Done? && u == Sizing(err))
    case Struct(id) => StructFields(m, id).Done? && exists k :: FieldCalled(m, n, StructFields(m, id).v, k, u)
    case Union(id) => UnionVariants(m, id).Done? && exists k :: PayloadCalled(m, n, UnionVariants(m, id).v, k, u)
    case _ => false
  }

  /** The fields before it have been laid out; then its alignment is asked for, and where it can start
      also its size. */
  ghost predicate FieldCalled(m: Option<Defs>, n: nat, fields: seq<HirType>, k: nat, u: Task)
  {
    k < |fields| && FieldsEnd(m, n, fields[..k]).Done? &&
    (u == Aligning(fields[k]) ||
     (Align(m, n, fields[k]).Done? && AlignTo(FieldsEnd(m, n, fields[..k]).v.0, Align(m, n, fields[k]).v).Done? &&
      u == Sizing(fields[k])))
  }

  /** Among the payloads before it the largest is known; then its size is asked for, and its alignment if
      it is larger. */
  ghost predicate PayloadCalled(m: Option<Defs>, n: nat, variants: seq<Option<HirType>>, k: nat, u: Task)
  {
    k < |variants| && variants[k].Some? && LargestPayload(m, n, variants[..k]).Done? &&
    (u == Sizing(variants[k].value) ||
     (Size(m, n, variants[k].value).Done? &&
         Size(m, n, variants[k].value).v > LargestPayload(m, n, variants[..k]).v.0 &&
      u == Aligning(variants[k].value)))
  }

  ghost predicate AlignCalls(m: Option<Defs>, n: nat, ty: HirType, u: Task)
  {
    match ty
    case Array(elem, _) => u == Aligning(elem)
    case Struct(id) => StructFields(m, id).Done? && exists k :: FieldAligned(m, n, StructFields(m, id).v, k, u)
    case Union(id) => UnionVariants(m, id).Done? && exists k :: PayloadAligned(m, n, UnionVariants(m, id).v, k, u)
    case _ => false
  }

  ghost predicate FieldAligned(m: Option<Defs>, n: nat, fields: seq<HirType>, k: nat, u: Task)
  {
    k < |fields| && FieldsAlign(m, n, fields[..k]).Done? && u == Aligning(fields[k])
  }

  ghost predicate PayloadAligned(m: Option<Defs>, n: nat, variants: seq<Option<HirType>>, k: nat, u: Task)
  {
    k < |variants| && variants[k].Some? && PayloadsAlign(m, n, variants[..k]).Done? && u == Aligning(variants[k].value)
  }

  ghost predicate ConvertCalls(m: Option<Defs>, n: nat, ty: HirType, u: Task)
  {
    match ty
    case Array(elem, _) => u == Converting(elem)
    case Ptr(pointee, _) => u == Converting(pointee)
    case ErrUnion(ok, err) => u == Sizing(ok) || (Size(m, n, ok).Done? && u == Sizing(err))
    case Struct(id) => StructFields(m, id).Done? && exists k :: PartConverted(m, n, StructFields(m, id).v, k, u)
    case Union(id) => UnionVariants(m, id).Done? && exists k :: PayloadConverted(m, n, UnionVariants(m, id).v, k, u)
    case FnPtr(params, ret) =>
      || (exists k :: PartConverted(m, n, params, k, u))
      || (ConvertAll(m, n, params).Done? && !ret.Void? && u == Converting(ret))
    case _ => false
  }

  ghost predicate PartConverted(m: Option<Defs>, n: nat, tys: seq<HirType>, k: nat, u: Task)
  {
    k < |tys| && ConvertAll(m, n, tys[..k]).Done? && u == Converting(tys[k])
  }

  /** Every payload is sized; only one that is larger than all before it is converted. */
  ghost predicate PayloadConverted(m: Option<Defs>, n: nat, variants: seq<Option<HirType>>, k: nat, u: Task)
  {
    k < |variants| && variants[k].Some? && ConvertLargest(m, n, variants[..k]).Done? &&
    (u == Sizing(variants[k].value) ||
     (Size(m, n, variants[k].value).Done? &&
         Size(m, n, variants[k].value).v > ConvertLargest(m, n, variants[..k]).v.0 &&
      u == Converting(variants[k].value)))
  }

  // ----- What is called for ends earlier -----

  lemma {:induction false} FieldsEndPrefix(m: Option<Defs>, n: nat, fields: seq<HirType>, k: nat)
    requires k <= |fields| && !FieldsEnd(m, n, fields).TooDeep?
    ensures !FieldsEnd(m, n, fields[..k]).TooDeep?
    decreases |fields|
  {
    hide FieldAfter;
    if k < |fields| {
      assert fields[..|fields|-1][..k] == fields[..k];
      FieldsEndPrefix(m, n, fields[..|fields|-1], k);
    } else {
      assert fields[..k] == fields;
    }
  }

  lemma {:induction false} FieldsAlignPrefix(m: Option<Defs>, n: nat, fields: seq<HirType>, k: nat)
    requires k <= |fields| && !FieldsAlign(m, n, fields).TooDeep?
    ensures !FieldsAlign(m, n, fields[..k]).TooDeep?
    decreases |fields|
  {
    hide Align;
    if k < |fields| {
      assert fields[..|fields|-1][..k] == fields[..k];
      FieldsAlignPrefix(m, n, fields[..|fields|-1], k);
    } else {
      assert fields[..k] == fields;
    }
  }

  lemma {:induction false} LargestPayloadPrefix(m: Option<Defs>, n: nat, variants: seq<Option<HirType>>, k: nat)
    requires k <= |variants| && !LargestPayload(m, n, variants).TooDeep?
    ensures !LargestPayload(m, n, variants[..k]).TooDeep?
    decreases |variants|
  {
    hide LargerPayload;
    if k < |variants| {
      assert variants[..|variants|-1][..k] == variants[..k];
      LargestPayloadPrefix(m, n, variants[..|variants|-1], k);
    } else {
      assert variants[..k] == variants;
    }
  }

  lemma {:induction false} PayloadsAlignPrefix(m: Option<Defs>, n: nat, variants: seq<Option<HirType>>, k: nat)
    requires k <= |variants| && !PayloadsAlign(m, n, variants).TooDeep?
    ensures !PayloadsAlign(m, n, variants[..k]).TooDeep?
    decreases |variants|
  {
    hide Align;
    if k < |variants| {
      assert variants[..|variants|-1][..k] == variants[..k];
      PayloadsAlignPrefix(m, n, variants[..|variants|-1], k);
    } else {
      assert variants[..k] == variants;
    }
  }

  lemma {:induction false} ConvertAllPrefix(m: Option<Defs>, n: nat, tys: seq<HirType>, k: nat)
    requires k <= |tys| && !ConvertAll(m, n, tys).TooDeep?
    ensures !ConvertAll(m, n, tys[..k]).TooDeep?
    decreases |tys|
  {
    hide Convert;
    if k < |tys| {
      assert tys[..|tys|-1][..k] == tys[..k];
      ConvertAllPrefix(m, n, tys[..|tys|-1], k);
    } else {
      assert tys[..k] == tys;
    }
  }

  lemma {:induction false} ConvertLargestPrefix(m: Option<Defs>, n: nat, variants: seq<Option<HirType>>, k: nat)
    requires k <= |variants| && !ConvertLargest(m, n, variants).TooDeep?
    ensures !ConvertLargest(m, n, variants[..k]).TooDeep?
    decreases |variants|
  {
    hide ConvertLarger;
    if k < |variants| {
      assert variants[..|variants|-1][..k] == variants[..k];
      ConvertLargestPrefix(m, n, variants[..|variants|-1], k);
    } else {
      assert variants[..k] == variants;
    }
  }

  lemma {:induction false} FieldCalledEnds(m: Option<Defs>, n: nat, d: nat, fields: seq<HirType>, k: nat, u: Task)
    requires FieldCalled(m, d, fields, k, u) && !FieldsEnd(m, n, fields).TooDeep?
    ensures Ended(m, n, u)
  {
    hide Size, Align, AlignTo;
    FieldsEndPrefix(m, n, fields, k + 1);
    FieldsEndPrefix(m, n, fields, k);
    var most := Max(n, d);
    FieldsEndStable(m, n, most, fields[..k]);
    FieldsEndStable(m, d, most, fields[..k]);
    assert fields[..k+1][..k] == fields[..k] && fields[..k+1][k] == fields[k];
    if u.Sizing? && !Align(m, n, fields[k]).TooDeep? {
      AlignStable(m, n, most, fields[k]);
      AlignStable(m, d, most, fields[k]);
    }
  }

  lemma {:induction false} PayloadCalledEnds(
      m: Option<Defs>, n: nat, d: nat, variants: seq<Option<HirType>>, k: nat, u: Task)
    requires PayloadCalled(m, d, variants, k, u) && !LargestPayload(m, n, variants).TooDeep?
    ensures Ended(m, n, u)
  {
    hide Size, Align;
    LargestPayloadPrefix(m, n, variants, k + 1);
    LargestPayloadPrefix(m, n, variants, k);
    var most := Max(n, d);
    LargestPayloadStable(m, n, most, variants[..k]);
    LargestPayloadStable(m, d, most, variants[..k]);
    assert variants[..k+1][..k] == variants[..k] && variants[..k+1][k] == variants[k];
    if !Size(m, n, variants[k].value).TooDeep? && u.Aligning? {
      SizeStable(m, n, most, variants[k].value);
      SizeStable(m, d, most, variants[k].value);
    }
  }

  lemma {:induction false} FieldAlignedEnds(m: Option<Defs>, n: nat, d: nat, fields: seq<HirType>, k: nat, u: Task)
    requires FieldAligned(m, d, fields, k, u) && !FieldsAlign(m, n, fields).TooDeep?
    ensures Ended(m, n, u)
  {
    hide Align;
    FieldsAlignPrefix(m, n, fields, k + 1);
    FieldsAlignPrefix(m, n, fields, k);
    var most := Max(n, d);
    FieldsAlignStable(m, n, most, fields[..k]);
    FieldsAlignStable(m, d, most, fields[..k]);
    assert fields[..k+1][..k] == fields[..k] && fields[..k+1][k] == fields[k];
  }

  lemma {:induction false} PayloadAlignedEnds(
      m: Option<Defs>, n: nat, d: nat, variants: seq<Option<HirType>>, k: nat, u: Task)
    requires PayloadAligned(m, d, variants, k, u) && !PayloadsAlign(m, n, variants).TooDeep?
    ensures Ended(m, n, u)
  {
    hide Align;
    PayloadsAlignPrefix(m, n, variants, k + 1);
    PayloadsAlignPrefix(m, n, variants, k);
    var most := Max(n, d);
    PayloadsAlignStable(m, n, most, variants[..k]);
    PayloadsAlignStable(m, d, most, variants[..k]);
    assert variants[..k+1][..k] == variants[..k] && variants[..k+1][k] == variants[k];
  }

  lemma {:induction false} PartConvertedEnds(m: Option<Defs>, n: nat, d: nat, tys: seq<HirType>, k: nat, u: Task)
    requires PartConverted(m, d, tys, k, u) && !ConvertAll(m, n, tys).TooDeep?
    ensures Ended(m, n, u)
  {
    hide Convert;
    ConvertAllPrefix(m, n, tys, k + 1);
    ConvertAllPrefix(m, n, tys, k);
    var most := Max(n, d);
    ConvertAllStable(m, n, most, tys[..k]);
    ConvertAllStable(m, d, most, tys[..k]);
    assert tys[..k+1][..k] == tys[..k] && tys[..k+1][k] == tys[k];
  }

  lemma {:induction false} PayloadConvertedEnds(
      m: Option<Defs>, n: nat, d: nat, variants: seq<Option<HirType>>, k: nat, u: Task)
    requires PayloadConverted(m, d, variants, k, u) && !ConvertLargest(m, n, variants).TooDeep?
    ensures Ended(m, n, u)
  {
    hide Size, Convert;
    ConvertLargestPrefix(m, n, variants, k + 1);
    ConvertLargestPrefix(m, n, variants, k);
    var most := Max(n, d);
    ConvertLargestStable(m, n, most, variants[..k]);
    ConvertLargestStable(m, d, most, variants[..k]);
    assert variants[..k+1][..k] == variants[..k] && variants[..k+1][k] == variants[k];
    if !Size(m, n, variants[k].value).TooDeep? && u.Converting? {
      SizeStable(m, n, most, variants[k].value);
      SizeStable(m, d, most, variants[k].value);
    }
  }

  lemma {:induction false} BothSizes(m: Option<Defs>, n: nat, d: nat, ty: HirType)
    requires !Size(m, n, ty).TooDeep? && !Size(m, d, ty).TooDeep?
    ensures Size(m, n, ty) == Size(m, d, ty)
  {
    SizeStable(m, n, Max(n, d), ty);
    SizeStable(m, d, Max(n, d), ty);
    hide Size;
  }

  lemma {:induction false} SizeCalleeEnds(m: Option<Defs>, n: nat, d: nat, ty: HirType, u: Task)
    requires SizeCalls(m, d, ty, u) && !Size(m, n, ty).TooDeep?
    ensures n > 0 && Ended(m, n - 1, u)
  {
    hide FieldsEnd, LargestPayload, FieldCalled, PayloadCalled, AlignTo, Times, UnionSize, ErrUnionSize;
    match ty {
      case Array(elem, _) =>
        if !Size(m, n - 1, elem).TooDeep? && Size(m, d, elem).Done? {
          BothSizes(m, n - 1, d, elem);
        }
      case ErrUnion(ok, err) =>
        if !Size(m, n - 1, ok).TooDeep? && Size(m, d, ok).Done? {
          BothSizes(m, n - 1, d, ok);
        }
      case Struct(id) =>
        var k :| FieldCalled(m, d, StructFields(m, id).v, k, u);
        FieldCalledEnds(m, n - 1, d, StructFields(m, id).v, k, u);
      case Union(id) =>
        var k :| PayloadCalled(m, d, UnionVariants(m, id).v, k, u);
        PayloadCalledEnds(m, n - 1, d, UnionVariants(m, id).v, k, u);
    }
  }

  lemma {:induction false} AlignCalleeEnds(m: Option<Defs>, n: nat, d: nat, ty: HirType, u: Task)
    requires AlignCalls(m, d, ty, u) && !Align(m, n, ty).TooDeep?
    ensures n > 0 && Ended(m, n - 1, u)
  {
    hide FieldsAlign, PayloadsAlign, FieldAligned, PayloadAligned;
    match ty {
      case Array(_, _) =>
      case Struct(id) =>
        var k :| FieldAligned(m, d, StructFields(m, id).v, k, u);
        FieldAlignedEnds(m, n - 1, d, StructFields(m, id).v, k, u);
      case Union(id) =>
        var k :| PayloadAligned(m, d, UnionVariants(m, id).v, k, u);
        PayloadAlignedEnds(m, n - 1, d, UnionVariants(m, id).v, k, u);
    }
  }

  lemma {:induction false} ConvertCalleeEnds(m: Option<Defs>, n: nat, d: nat, ty: HirType, u: Task)
    requires ConvertCalls(m, d, ty, u) && !Convert(m, n, ty).TooDeep?
    ensures n > 0 && Ended(m, n - 1, u)
  {
    hide ConvertAll, ConvertLargest, PartConverted, PayloadConverted, Size;
    match ty {
      case ErrUnion(ok, err) =>
        if !Size(m, n - 1, ok).TooDeep? && Size(m, d, ok).Done? {
          BothSizes(m, n - 1, d, ok);
        }
      case Struct(id) =>
        var k :| PartConverted(m, d, StructFields(m, id).v, k, u);
        PartConvertedEnds(m, n - 1, d, StructFields(m, id).v, k, u);
      case Union(id) =>
        var k :| PayloadConverted(m, d, UnionVariants(m, id).v, k, u);
        PayloadConvertedEnds(m, n - 1, d, UnionVariants(m, id).v, k, u);
      case FnPtr(params, ret) =>
        if k :| PartConverted(m, d, params, k, u) {
          PartConvertedEnds(m, n - 1, d, params, k, u);
        } else {
          ConvertAllStable(m, n - 1, Max(n - 1, d), params);
          ConvertAllStable(m, d, Max(n - 1, d), params);
        }
      case _ =>
    }
  }

  lemma {:induction false} CalleeEnds(m: Option<Defs>, n: nat, t: Task, u: Task)
    requires Calls(m, t, u) && Ended(m, n, t)
    ensures n > 0 && Ended(m, n - 1, u)
  {
    hide SizeCalls, AlignCalls, ConvertCalls, Size, Align, Convert;
    var d: nat :| CallsAt(m, d, t, u);
    match t
    case Sizing(ty) => SizeCalleeEnds(m, n, d, ty, u);
    case Aligning(ty) => AlignCalleeEnds(m, n, d, ty, u);
    case Converting(ty) => ConvertCalleeEnds(m, n, d, ty, u);
  }

  // ----- What calls only for what ends, ends -----

  lemma {:induction false} EndedDeeper(m: Option<Defs>, n: nat, k: nat, t: Task)
    requires Ended(m, n, t) && n <= k
    ensures Ended(m, k, t)
  {
    match t
    case Sizing(ty) => SizeStable(m, n, k, ty);
    case Aligning(ty) => AlignStable(m, n, k, ty);
    case Converting(ty) => ConvertStable(m, n, k, ty);
  }

  /** A depth at which all that `t` calls for at that depth has ended, beginning with `n`. */
  lemma {:induction false} EndOf(m: Option<Defs>, n: nat, t: Task, u: Task) returns (k: nat)
    requires CallsAt(m, n, t, u) && forall v | Calls(m, t, v) :: Ends(m, v)
    ensures n <= k && Ended(m, k, u)
  {
    hide CallsAt, Ended;
    assert Calls(m, t, u);
    var d: nat :| Ended(m, d, u);
    k := Max(n, d);
    EndedDeeper(m, d, k, u);
  }

  lemma {:induction false} FieldsEndEnds(m: Option<Defs>, id: nat, j: nat) returns (n: nat)
    requires StructFields(m, id).Done? && j <= |StructFields(m, id).v|
    requires forall v | Calls(m, Sizing(Struct(id)), v) :: Ends(m, v)
    ensures !FieldsEnd(m, n, StructFields(m, id).v[..j]).TooDeep?
  {
    hide Size, Align, AlignTo, Calls, Ends, Ended, CallsAt;
    var fields, t := StructFields(m, id).v, Sizing(Struct(id));
    n := 0;
    if j > 0 {
      n := FieldsEndEnds(m, id, j - 1);
      var front, field := fields[..j-1], fields[j-1];
      assert fields[..j][..j-1] == front;
      if FieldsEnd(m, n, front).Done? {
        FieldIsCalled(m, n, id, j - 1, Aligning(field));
        var k := EndOf(m, n, t, Aligning(field));
        EndedMeans(m, k, field);
        FieldsEndStable(m, n, k, front);
        n := k;
        if Align(m, n, field).Done? && AlignTo(FieldsEnd(m, n, front).v.0, Align(m, n, field).v).Done? {
          FieldIsCalled(m, n, id, j - 1, Sizing(field));
          k := EndOf(m, n, t, Sizing(field));
          EndedMeans(m, k, field);
          FieldsEndStable(m, n, k, front);
          AlignStable(m, n, k, field);
          n := k;
        }
      }
    }
  }

  lemma {:induction false} EndedMeans(m: Option<Defs>, n: nat, ty: HirType)
    ensures Ended(m, n, Sizing(ty)) <==> !Size(m, n, ty).TooDeep?
    ensures Ended(m, n, Aligning(ty)) <==> !Align(m, n, ty).TooDeep?
    ensures Ended(m, n, Converting(ty)) <==> !Convert(m, n, ty).TooDeep?
  {
  }

  lemma {:induction false} FieldIsCalled(m: Option<Defs>, n: nat, id: nat, k: nat, u: Task)
    requires StructFields(m, id).Done? && FieldCalled(m, n, StructFields(m, id).v, k, u)
    ensures CallsAt(m, n, Sizing(Struct(id)), u)
  {
    hide FieldCalled;
  }

  lemma {:induction false} LargestPayloadEnds(m: Option<Defs>, id: nat, j: nat) returns (n: nat)
    requires UnionVariants(m, id).Done? && j <= |UnionVariants(m, id).v|
    requires forall v | Calls(m, Sizing(Union(id)), v) :: Ends(m, v)
    ensures !LargestPayload(m, n, UnionVariants(m, id).v[..j]).TooDeep?
  {
    hide Size, Align, Calls, Ends, Ended, CallsAt;
    var variants, t := UnionVariants(m, id).v, Sizing(Union(id));
    n := 0;
    if j > 0 {
      n := LargestPayloadEnds(m, id, j - 1);
      var front, variant := variants[..j-1], variants[j-1];
      assert variants[..j][..j-1] == front;
      if LargestPayload(m, n, front).Done? && variant.Some? {
        var ty := variant.value;
        PayloadIsCalled(m, n, id, j - 1, Sizing(ty));
        var k := EndOf(m, n, t, Sizing(ty));
        EndedMeans(m, k, ty);
        LargestPayloadStable(m, n, k, front);
        n := k;
        if Size(m, n, ty).Done? && Size(m, n, ty).v > LargestPayload(m, n, front).v.0 {
          PayloadIsCalled(m, n, id, j - 1, Aligning(ty));
          k := EndOf(m, n, t, Aligning(ty));
          EndedMeans(m, k, ty);
          LargestPayloadStable(m, n, k, front);
          SizeStable(m, n, k, ty);
          n := k;
        }
      }
    }
  }

  lemma {:induction false} PayloadIsCalled(m: Option<Defs>, n: nat, id: nat, k: nat, u: Task)
    requires UnionVariants(m, id).Done? && PayloadCalled(m, n, UnionVariants(m, id).v, k, u)
    ensures CallsAt(m, n, Sizing(Union(id)), u)
  {
    hide PayloadCalled;
  }

  lemma {:induction false} FieldsAlignEnds(m: Option<Defs>, id: nat, j: nat) returns (n: nat)
    requires StructFields(m, id).Done? && j <= |StructFields(m, id).v|
    requires forall v | Calls(m, Aligning(Struct(id)), v) :: Ends(m, v)
    ensures !FieldsAlign(m, n, StructFields(m, id).v[..j]).TooDeep?
  {
    hide Align, Calls, Ends, Ended, CallsAt;
    var fields := StructFields(m, id).v;
    n := 0;
    if j > 0 {
      n := FieldsAlignEnds(m, id, j - 1);
      var front, field := fields[..j-1], fields[j-1];
      assert fields[..j][..j-1] == front;
      if FieldsAlign(m, n, front).Done? {
        FieldIsAligned(m, n, id, j - 1, Aligning(field));
        var k := EndOf(m, n, Aligning(Struct(id)), Aligning(field));
        EndedMeans(m, k, field);
        FieldsAlignStable(m, n, k, front);
        n := k;
      }
    }
  }

  lemma {:induction false} FieldIsAligned(m: Option<Defs>, n: nat, id: nat, k: nat, u: Task)
    requires StructFields(m, id).Done? && FieldAligned(m, n, StructFields(m, id).v, k, u)
    ensures CallsAt(m, n, Aligning(Struct(id)), u)
  {
    hide FieldAligned;
  }

  lemma {:induction false} PayloadsAlignEnds(m: Option<Defs>, id: nat, j: nat) returns (n: nat)
    requires UnionVariants(m, id).Done? && j <= |UnionVariants(m, id).v|
    requires forall v | Calls(m, Aligning(Union(id)), v) :: Ends(m, v)
    ensures !PayloadsAlign(m, n, UnionVariants(m, id).v[..j]).TooDeep?
  {
    hide Align, Calls, Ends, Ended, CallsAt;
    var variants := UnionVariants(m, id).v;
    n := 0;
    if j > 0 {
      n := PayloadsAlignEnds(m, id, j - 1);
      var front, variant := variants[..j-1], variants[j-1];
      assert variants[..j][..j-1] == front;
      if PayloadsAlign(m, n, front).Done? && variant.Some? {
        PayloadIsAligned(m, n, id, j - 1, Aligning(variant.value));
        var k := EndOf(m, n, Aligning(Union(id)), Aligning(variant.value));
        EndedMeans(m, k, variant.value);
        PayloadsAlignStable(m, n, k, front);
        n := k;
      }
    }
  }

  lemma {:induction false} PayloadIsAligned(m: Option<Defs>, n: nat, id: nat, k: nat, u: Task)
    requires UnionVariants(m, id).Done? && PayloadAligned(m, n, UnionVariants(m, id).v, k, u)
    ensures CallsAt(m, n, Aligning(Union(id)), u)
  {
    hide PayloadAligned;
  }

  /** The parts that `t` converts one after the other. */
  ghost predicate ConvertsParts(t: Task, m: Option<Defs>, tys: seq<HirType>)
  {
    t.Converting? &&
    ((t.ty.Struct? && StructFields(m, t.ty.structId) == Outcome.Done(tys)) || (t.ty.FnPtr? && t.ty.params == tys))
  }

  lemma {:induction false} ConvertAllEnds(m: Option<Defs>, t: Task, tys: seq<HirType>, j: nat) returns (n: nat)
    requires ConvertsParts(t, m, tys) && j <= |tys|
    requires forall v | Calls(m, t, v) :: Ends(m, v)
    ensures !ConvertAll(m, n, tys[..j]).TooDeep?
    decreases j
  {
    hide Convert, Calls, Ends, Ended, CallsAt, ConvertsParts;
    n := 0;
    if j > 0 {
      n := ConvertAllEnds(m, t, tys, j - 1);
      var front, ty := tys[..j-1], tys[j-1];
      assert tys[..j][..j-1] == front;
      if ConvertAll(m, n, front).Done? {
        PartIsConverted(m, n, t, tys, j - 1, Converting(ty));
        var k := EndOf(m, n, t, Converting(ty));
        EndedMeans(m, k, ty);
        ConvertAllStable(m, n, k, front);
        n := k;
      }
    }
  }

  lemma {:induction false} PartIsConverted(m: Option<Defs>, n: nat, t: Task, tys: seq<HirType>, k: nat, u: Task)
    requires ConvertsParts(t, m, tys) && PartConverted(m, n, tys, k, u)
    ensures CallsAt(m, n, t, u)
  {
    hide PartConverted;
  }

  lemma {:induction false} ConvertLargestEnds(m: Option<Defs>, id: nat, j: nat) returns (n: nat)
    requires UnionVariants(m, id).Done? && j <= |UnionVariants(m, id).v|
    requires forall v | Calls(m, Converting(Union(id)), v) :: Ends(m, v)
    ensures !ConvertLargest(m, n, UnionVariants(m, id).v[..j]).TooDeep?
  {
    hide Size, Convert, Calls, Ends, Ended, CallsAt;
    var variants, t := UnionVariants(m, id).v, Converting(Union(id));
    n := 0;
    if j > 0 {
      n := ConvertLargestEnds(m, id, j - 1);
      var front, variant := variants[..j-1], variants[j-1];
      assert variants[..j][..j-1] == front;
      if ConvertLargest(m, n, front).Done? && variant.Some? {
        var ty := variant.value;
        PayloadIsConverted(m, n, id, j - 1, Sizing(ty));
        var k := EndOf(m, n, t, Sizing(ty));
        EndedMeans(m, k, ty);
        ConvertLargestStable(m, n, k, front);
        n := k;
        if Size(m, n, ty).Done? && Size(m, n, ty).v > ConvertLargest(m, n, front).v.0 {
          PayloadIsConverted(m, n, id, j - 1, Converting(ty));
          k := EndOf(m, n, t, Converting(ty));
          EndedMeans(m, k, ty);
          ConvertLargestStable(m, n, k, front);
          SizeStable(m, n, k, ty);
          n := k;
        }
      }
    }
  }

  lemma {:induction false} PayloadIsConverted(m: Option<Defs>, n: nat, id: nat, k: nat, u: Task)
    requires UnionVariants(m, id).Done? && PayloadConverted(m, n, UnionVariants(m, id).v, k, u)
    ensures CallsAt(m, n, Converting(Union(id)), u)
  {
    hide PayloadConverted;
  }

  lemma {:induction false} EndsBy(m: Option<Defs>, n: nat, t: Task)
    requires Ended(m, n, t)
    ensures Ends(m, t)
  {
  }

  /** Two computations in a row, the second only after the first has succeeded. */
  lemma {:induction false} TwoEnd(m: Option<Defs>, t: Task, x: Task, y: Task, ty: HirType) returns (n: nat)
    requires (x == Sizing(ty)) && CallsAt(m, 0, t, x) && forall v | Calls(m, t, v) :: Ends(m, v)
    requires forall d: nat | Size(m, d, ty).Done? :: CallsAt(m, d, t, y)
    ensures Ended(m, n, x) && (Size(m, n, ty).Done? ==> Ended(m, n, y))
  {
    hide CallsAt, Calls, Ends, Size;
    n := EndOf(m, 0, t, x);
    if Size(m, n, ty).Done? {
      var k := EndOf(m, n, t, y);
      SizeStable(m, n, k, ty);
      n := k;
    }
  }

  lemma {:induction false} SizeEndsIf(m: Option<Defs>, ty: HirType)
    requires forall v | Calls(m, Sizing(ty), v) :: Ends(m, v)
    ensures Ends(m, Sizing(ty))
  {
    hide FieldsEnd, LargestPayload, Ends, Calls, AlignTo, Times, UnionSize, ErrUnionSize;
    var n: nat := 0;
    match ty {
      case Array(elem, _) => n := TwoEnd(m, Sizing(ty), Sizing(elem), Aligning(elem), elem);
      case ErrUnion(ok, err) => n := TwoEnd(m, Sizing(ty), Sizing(ok), Sizing(err), ok);
      case Struct(id) =>
        if StructFields(m, id).Done? {
          var fields := StructFields(m, id).v;
          n := FieldsEndEnds(m, id, |fields|);
          assert fields[..|fields|] == fields;
        }
      case Union(id) =>
        if UnionVariants(m, id).Done? {
          var variants := UnionVariants(m, id).v;
          n := LargestPayloadEnds(m, id, |variants|);
          assert variants[..|variants|] == variants;
        }
      case _ =>
    }
    EndsBy(m, n + 1, Sizing(ty));
  }

  lemma {:induction false} AlignEndsIf(m: Option<Defs>, ty: HirType)
    requires forall v | Calls(m, Aligning(ty), v) :: Ends(m, v)
    ensures Ends(m, Aligning(ty))
  {
    hide FieldsAlign, PayloadsAlign, Ends, Calls;
    var n: nat := 0;
    match ty {
      case Array(elem, _) => n := EndOf(m, 0, Aligning(ty), Aligning(elem));
      case Struct(id) =>
        if StructFields(m, id).Done? {
          var fields := StructFields(m, id).v;
          n := FieldsAlignEnds(m, id, |fields|);
          assert fields[..|fields|] == fields;
        }
      case Union(id) =>
        if UnionVariants(m, id).Done? {
          var variants := UnionVariants(m, id).v;
          n := PayloadsAlignEnds(m, id, |variants|);
          assert variants[..|variants|] == variants;
        }
      case _ =>
    }
    EndsBy(m, n + 1, Aligning(ty));
  }

  lemma {:induction false} FunctionEndsIf(m: Option<Defs>, params: seq<HirType>, ret: HirType) returns (n: nat)
    requires forall v | Calls(m, Converting(FnPtr(params, ret)), v) :: Ends(m, v)
    ensures Ended(m, n + 1, Converting(FnPtr(params, ret)))
  {
    hide ConvertAll, Ends, Calls;
    var t := Converting(FnPtr(params, ret));
    n := ConvertAllEnds(m, t, params, |params|);
    assert params[..|params|] == params;
    if ConvertAll(m, n, params).Done? && !ret.Void? {
      var k := EndOf(m, n, t, Converting(ret));
      ConvertAllStable(m, n, k, params);
      n := k;
    }
  }

  lemma {:induction false} ConvertEndsIf(m: Option<Defs>, ty: HirType)
    requires forall v | Calls(m, Converting(ty), v) :: Ends(m, v)
    ensures Ends(m, Converting(ty))
  {
    hide ConvertAll, ConvertLargest, Ends, Calls, Size;
    var n: nat := 0;
    match ty {
      case Array(elem, _) => n := EndOf(m, 0, Converting(ty), Converting(elem));
      case Ptr(pointee, _) => n := EndOf(m, 0, Converting(ty), Converting(pointee));
      case ErrUnion(ok, err) => n := TwoEnd(m, Converting(ty), Sizing(ok), Sizing(err), ok);
      case Struct(id) =>
        if StructFields(m, id).Done? {
          var fields := StructFields(m, id).v;
          n := ConvertAllEnds(m, Converting(ty), fields, |fields|);
          assert fields[..|fields|] == fields;
        }
      case Union(id) =>
        if UnionVariants(m, id).Done? {
          var variants := UnionVariants(m, id).v;
          n := ConvertLargestEnds(m, id, |variants|);
          assert variants[..|variants|] == variants;
        }
      case FnPtr(params, ret) => n := FunctionEndsIf(m, params, ret);
      case _ =>
    }
    EndsBy(m, n + 1, Converting(ty));
  }

  /** A computation that never ends has called for another that never ends. */
  lemma {:induction false} StuckCallee(m: Option<Defs>, t: Task) returns (u: Task)
    requires !Ends(m, t)
    ensures Calls(m, t, u) && !Ends(m, u)
  {
    hide Ends, Calls;
    if forall v | Calls(m, t, v) :: Ends(m, v) {
      match t
      case Sizing(ty) => SizeEndsIf(m, ty);
      case Aligning(ty) => AlignEndsIf(m, ty);
      case Converting(ty) => ConvertEndsIf(m, ty);
    }
    u :| Calls(m, t, u) && !Ends(m, u);
  }

  // ----- Chains of calls -----

  ghost predicate IsChain(m: Option<Defs>, p: seq<Task>)
  {
    p != [] && forall i | 0 <= i < |p| - 1 :: Calls(m, p[i], p[i+1])
  }

  /** Computing `t` gets to computing `u`. */
  ghost predicate LeadsTo(m: Option<Defs>, t: Task, u: Task)
  {
    exists p :: IsChain(m, p) && p[0] == t && p[|p|-1] == u
  }

  /** Computing `u` gets to computing `u` again. */
  ghost predicate CallsItself(m: Option<Defs>, u: Task)
  {
    exists p :: |p| > 1 && IsChain(m, p) && p[0] == u && p[|p|-1] == u
  }

  lemma {:induction false} ChainTail(m: Option<Defs>, p: seq<Task>, i: nat, j: nat)
    requires IsChain(m, p) && i < j <= |p|
    ensures IsChain(m, p[i..j]) && p[i..j][0] == p[i] && p[i..j][j-i-1] == p[j-1]
  {
    hide Calls;
    var q := p[i..j];
    forall k | 0 <= k < |q| - 1 ensures Calls(m, q[k], q[k+1]) {
      assert Calls(m, p[i+k], p[i+k+1]);
    }
  }

  lemma {:induction false} ChainEnds(m: Option<Defs>, n: nat, p: seq<Task>)
    requires IsChain(m, p) && Ended(m, n, p[0])
    ensures |p| - 1 <= n && Ended(m, n - (|p| - 1), p[|p|-1])
    decreases |p|
  {
    hide Calls, Ended;
    if |p| > 1 {
      assert Calls(m, p[0], p[1]);
      CalleeEnds(m, n, p[0], p[1]);
      ChainTail(m, p, 1, |p|);
      ChainEnds(m, n - 1, p[1..]);
    }
  }

  /** What calls for itself never ends, whatever the depth. */
  lemma {:induction false} SelfCallNeverEnds(m: Option<Defs>, n: nat, u: Task)
    requires CallsItself(m, u)
    ensures !Ended(m, n, u)
    decreases n
  {
    hide Calls, Ended;
    if Ended(m, n, u) {
      var p :| |p| > 1 && IsChain(m, p) && p[0] == u && p[|p|-1] == u;
      ChainEnds(m, n, p);
      SelfCallNeverEnds(m, n - (|p| - 1), u);
    }
  }

  // ----- The types that can come up -----

  function TypesIn(ty: HirType): set<HirType>
    decreases ty, 1
  {
    {ty} +
    match ty
    case Ptr(pointee, _) => TypesIn(pointee)
    case Array(elem, _) => TypesIn(elem)
    case ErrUnion(ok, err) => TypesIn(ok) + TypesIn(err)
    case FnPtr(params, ret) => TypesInAll(ty, params) + TypesIn(ret)
    case _ => {}
  }

  function TypesInAll(ghost parent: HirType, tys: seq<HirType>): set<HirType>
    requires forall i | 0 <= i < |tys| :: tys[i] < parent
    decreases parent, 0, |tys|
  {
    if tys == [] then {} else TypesInAll(parent, tys[..|tys|-1]) + TypesIn(tys[|tys|-1])
  }

  /** A part of a type, not looking into definitions. */
  predicate IsPart(x: HirType, y: HirType)
  {
    match x
    case Ptr(pointee, _) => y == pointee
    case Array(elem, _) => y == elem
    case ErrUnion(ok, err) => y == ok || y == err
    case FnPtr(params, ret) => y in params || y == ret
    case _ => false
  }

  lemma {:induction false} OwnTypes(parent: HirType, tys: seq<HirType>, k: nat)
    requires (forall i | 0 <= i < |tys| :: tys[i] < parent) && k < |tys|
    ensures TypesIn(tys[k]) <= TypesInAll(parent, tys)
    decreases |tys|
  {
    hide TypesIn;
    if k < |tys| - 1 {
      OwnTypes(parent, tys[..|tys|-1], k);
    }
  }

  lemma {:induction false} PartTypes(x: HirType, y: HirType)
    requires IsPart(x, y)
    ensures TypesIn(y) <= TypesIn(x) && y in TypesIn(y)
  {
    if x.FnPtr? && y in x.params {
      var k :| 0 <= k < |x.params| && x.params[k] == y;
      hide TypesInAll;
      OwnTypes(x, x.params, k);
    }
  }

  /** The set is closed under taking parts. */
  ghost predicate PartClosed(s: set<HirType>)
  {
    forall x, y | x in s && IsPart(x, y) :: y in s
  }

  lemma {:induction false} TypesInClosed(ty: HirType)
    ensures PartClosed(TypesIn(ty))
    decreases ty, 1
  {
    hide IsPart;
    forall x, y | x in TypesIn(ty) && IsPart(x, y) ensures y in TypesIn(ty) {
      if x == ty {
        PartTypes(x, y);
      } else {
        var z := HolderOf(ty, x);
        TypesInClosed(z);
        PartTypes(ty, z);
      }
    }
  }

  lemma {:induction false} HolderOf(ty: HirType, x: HirType) returns (z: HirType)
    requires x in TypesIn(ty) && x != ty
    ensures IsPart(ty, z) && x in TypesIn(z) && z < ty
  {
    hide TypesInAll;
    match ty {
      case Ptr(pointee, _) => z := pointee;
      case Array(elem, _) => z := elem;
      case ErrUnion(ok, err) => z := if x in TypesIn(ok) then ok else err;
      case FnPtr(params, ret) =>
        z := ret;
        if x !in TypesIn(ret) {
          var k := HolderIn(ty, params, x);
          z := params[k];
        }
    }
  }

  lemma {:induction false} HolderIn(parent: HirType, tys: seq<HirType>, x: HirType) returns (k: nat)
    requires (forall i | 0 <= i < |tys| :: tys[i] < parent) && x in TypesInAll(parent, tys)
    ensures k < |tys| && x in TypesIn(tys[k])
    decreases |tys|
  {
    hide TypesIn;
    if x in TypesIn(tys[|tys|-1]) {
      k := |tys| - 1;
    } else {
      k := HolderIn(parent, tys[..|tys|-1], x);
    }
  }

  function TypesOfFields(fields: seq<HirType>): set<HirType>
  {
    if fields == [] then {} else TypesIn(fields[0]) + TypesOfFields(fields[1..])
  }

  function TypesOfPayloads(variants: seq<Option<HirType>>): set<HirType>
  {
    if variants == [] then {}
    else (if variants[0].Some? then TypesIn(variants[0].value) else {}) + TypesOfPayloads(variants[1..])
  }

  function TypesOfStructs(structs: seq<seq<HirType>>): set<HirType>
  {
    if structs == [] then {} else TypesOfFields(structs[0]) + TypesOfStructs(structs[1..])
  }

  function TypesOfUnions(unions: seq<seq<Option<HirType>>>): set<HirType>
  {
    if unions == [] then {} else TypesOfPayloads(unions[0]) + TypesOfUnions(unions[1..])
  }

  function AllTypes(m: Option<Defs>, ty: HirType): set<HirType>
  {
    TypesIn(ty) + if m.Some? then TypesOfStructs(m.value.structs) + TypesOfUnions(m.value.unions) else {}
  }

  lemma {:induction false} FieldTypes(fields: seq<HirType>)
    ensures PartClosed(TypesOfFields(fields)) && forall k | 0 <= k < |fields| :: fields[k] in TypesOfFields(fields)
  {
    hide TypesIn, IsPart;
    if fields != [] {
      TypesInClosed(fields[0]);
      SelfIn(fields[0]);
      FieldTypes(fields[1..]);
      forall k | 0 <= k < |fields| ensures fields[k] in TypesOfFields(fields) {
        assert k > 0 ==> fields[k] == fields[1..][k-1];
      }
    }
  }

  lemma {:induction false} SelfIn(ty: HirType)
    ensures ty in TypesIn(ty)
  {
  }

  lemma {:induction false} PayloadTypes(variants: seq<Option<HirType>>)
    ensures PartClosed(TypesOfPayloads(variants))
    ensures forall k | 0 <= k < |variants| && variants[k].Some? :: variants[k].value in TypesOfPayloads(variants)
  {
    hide TypesIn, IsPart;
    if variants != [] {
      if variants[0].Some? {
        TypesInClosed(variants[0].value);
        SelfIn(variants[0].value);
      }
      PayloadTypes(variants[1..]);
      forall k | 0 <= k < |variants| && variants[k].Some? ensures variants[k].value in TypesOfPayloads(variants) {
        assert k > 0 ==> variants[k] == variants[1..][k-1];
      }
    }
  }

  lemma {:induction false} StructTypes(structs: seq<seq<HirType>>)
    ensures PartClosed(TypesOfStructs(structs))
    ensures forall i, k | 0 <= i < |structs| && 0 <= k < |structs[i]| :: structs[i][k] in TypesOfStructs(structs)
  {
    hide TypesOfFields, IsPart;
    if structs != [] {
      FieldTypes(structs[0]);
      StructTypes(structs[1..]);
      forall i, k | 0 <= i < |structs| && 0 <= k < |structs[i]| ensures structs[i][k] in TypesOfStructs(structs) {
        assert i > 0 ==> structs[i] == structs[1..][i-1];
      }
    }
  }

  lemma {:induction false} UnionTypes(unions: seq<seq<Option<HirType>>>)
    ensures PartClosed(TypesOfUnions(unions))
    ensures forall i, k | 0 <= i < |unions| && 0 <= k < |unions[i]| && unions[i][k].Some? ::
              unions[i][k].value in TypesOfUnions(unions)
  {
    hide TypesOfPayloads, IsPart;
    if unions != [] {
      PayloadTypes(unions[0]);
      UnionTypes(unions[1..]);
      forall i, k | 0 <= i < |unions| && 0 <= k < |unions[i]| && unions[i][k].Some?
        ensures unions[i][k].value in TypesOfUnions(unions)
      {
        assert i > 0 ==> unions[i] == unions[1..][i-1];
      }
    }
  }

  /** What a type holds: its parts, and behind a name the fields or payloads of the definition. */
  ghost predicate Holds(m: Option<Defs>, x: HirType, y: HirType)
  {
    || IsPart(x, y)
    || (x.Struct? && StructFields(m, x.structId).Done? && y in StructFields(m, x.structId).v)
    || (x.Union? && UnionVariants(m, x.unionId).Done? && Some(y) in UnionVariants(m, x.unionId).v)
  }

  lemma {:induction false} AllTypesClosed(m: Option<Defs>, ty: HirType, x: HirType, y: HirType)
    requires x in AllTypes(m, ty) && Holds(m, x, y)
    ensures y in AllTypes(m, ty)
  {
    hide TypesIn, TypesOfStructs, TypesOfUnions, IsPart;
    TypesInClosed(ty);
    if m.Some? {
      StructTypes(m.value.structs);
      UnionTypes(m.value.unions);
      if x.Struct? && StructFields(m, x.structId).Done? && y in StructFields(m, x.structId).v {
        var k :| 0 <= k < |m.value.structs[x.structId]| && m.value.structs[x.structId][k] == y;
      }
      if x.Union? && UnionVariants(m, x.unionId).Done? && Some(y) in UnionVariants(m, x.unionId).v {
        var k :| 0 <= k < |m.value.unions[x.unionId]| && m.value.unions[x.unionId][k] == Some(y);
      }
    }
  }

  lemma {:induction false} CalleeHeld(m: Option<Defs>, t: Task, u: Task)
    requires Calls(m, t, u)
    ensures Holds(m, t.ty, u.ty)
  {
    hide Size, Align, Convert, FieldsEnd, FieldsAlign, LargestPayload, PayloadsAlign, ConvertAll, ConvertLargest;
    hide AlignTo;
    var n: nat :| CallsAt(m, n, t, u);
    match t
    case Sizing(_) => SizeCalleeHeld(m, n, t.ty, u);
    case Aligning(_) => AlignCalleeHeld(m, n, t.ty, u);
    case Converting(_) => ConvertCalleeHeld(m, n, t.ty, u);
  }

  lemma {:induction false} SizeCalleeHeld(m: Option<Defs>, n: nat, ty: HirType, u: Task)
    requires SizeCalls(m, n, ty, u)
    ensures Holds(m, ty, u.ty) && ByValue(ty) && !u.Converting?
  {
    hide Size, Align, FieldsEnd, LargestPayload, AlignTo;
    if ty.Struct? {
      var k: nat :| FieldCalled(m, n, StructFields(m, ty.structId).v, k, u);
      assert StructFields(m, ty.structId).v[k] == u.ty;
    } else if ty.Union? {
      var k: nat :| PayloadCalled(m, n, UnionVariants(m, ty.unionId).v, k, u);
      assert UnionVariants(m, ty.unionId).v[k] == Some(u.ty);
    }
  }

  lemma {:induction false} AlignCalleeHeld(m: Option<Defs>, n: nat, ty: HirType, u: Task)
    requires AlignCalls(m, n, ty, u)
    ensures Holds(m, ty, u.ty) && ByValue(ty) && !u.Converting?
  {
    hide Align, FieldsAlign, PayloadsAlign;
    if ty.Struct? {
      var k: nat :| FieldAligned(m, n, StructFields(m, ty.structId).v, k, u);
      assert StructFields(m, ty.structId).v[k] == u.ty;
    } else if ty.Union? {
      var k: nat :| PayloadAligned(m, n, UnionVariants(m, ty.unionId).v, k, u);
      assert UnionVariants(m, ty.unionId).v[k] == Some(u.ty);
    }
  }

  lemma {:induction false} ConvertCalleeHeld(m: Option<Defs>, n: nat, ty: HirType, u: Task)
    requires ConvertCalls(m, n, ty, u)
    ensures Holds(m, ty, u.ty)
  {
    hide Size, Convert, ConvertAll, ConvertLargest;
    match ty {
      case Struct(id) =>
        var k: nat :| PartConverted(m, n, StructFields(m, id).v, k, u);
        assert StructFields(m, id).v[k] == u.ty;
      case Union(id) =>
        var k: nat :| PayloadConverted(m, n, UnionVariants(m, id).v, k, u);
        assert UnionVariants(m, id).v[k] == Some(u.ty);
      case FnPtr(params, ret) =>
        if k: nat :| PartConverted(m, n, params, k, u) {
          assert params[k] == u.ty;
        }
      case _ =>
    }
  }

  /** The forms that hold others by value. */
  predicate ByValue(ty: HirType) { ty.Array? || ty.ErrUnion? || ty.Struct? || ty.Union? }

  // ----- The recursion ends exactly when nothing it leads to calls for itself -----

  function TasksOn(tys: set<HirType>): set<Task>
  {
    (set x | x in tys :: Sizing(x)) + (set x | x in tys :: Aligning(x)) + (set x | x in tys :: Converting(x))
  }

  lemma {:induction false} TaskIn(tys: set<HirType>, t: Task)
    ensures t in TasksOn(tys) <==> t.ty in tys
  {
  }

  /** A chain of computations none of which ends, as long as one likes. */
  lemma {:induction false} EndlessChain(m: Option<Defs>, ty: HirType, t: Task, n: nat) returns (p: seq<Task>)
    requires !Ends(m, t) && t.ty in AllTypes(m, ty)
    ensures |p| == n + 1 && IsChain(m, p) && p[0] == t
    ensures forall i | 0 <= i < |p| :: p[i].ty in AllTypes(m, ty)
    decreases n
  {
    hide Ends, Calls, AllTypes, Holds;
    p := [t];
    if n > 0 {
      var u := StuckCallee(m, t);
      CalleeHeld(m, t, u);
      AllTypesClosed(m, ty, t.ty, u.ty);
      var q := EndlessChain(m, ty, u, n - 1);
      p := [t] + q;
      forall i | 0 <= i < |p| - 1 ensures Calls(m, p[i], p[i+1]) {
        assert i > 0 ==> Calls(m, q[i-1], q[i]);
      }
    }
  }

  /** Sizes, alignments and shapes are computed to an end, at some depth, exactly when no computation
      that is led to calls for itself. */
  lemma {:induction false} EndsIff(m: Option<Defs>, t: Task)
    ensures Ends(m, t) <==> !exists u :: LeadsTo(m, t, u) && CallsItself(m, u)
  {
    hide Ended, AllTypes, Calls, TasksOn;
    if Ends(m, t) {
      if u :| LeadsTo(m, t, u) && CallsItself(m, u) {
        var n: nat :| Ended(m, n, t);
        var p :| IsChain(m, p) && p[0] == t && p[|p|-1] == u;
        ChainEnds(m, n, p);
        SelfCallNeverEnds(m, n - (|p| - 1), u);
      }
    } else {
      var u := EndlessRepeats(m, t);
    }
  }

  lemma {:induction false} EndlessRepeats(m: Option<Defs>, t: Task) returns (u: Task)
    requires !Ends(m, t)
    ensures LeadsTo(m, t, u) && CallsItself(m, u)
  {
    hide Ends, AllTypes, Calls, TasksOn;
    var all := TasksOn(AllTypes(m, t.ty));
    StartListed(m, t.ty);
    var p := EndlessChain(m, t.ty, t, |all|);
    forall x | x in p ensures x in all {
      TaskIn(AllTypes(m, t.ty), x);
    }
    Pigeonhole(p, all);
    var i, j :| 0 <= i < j < |p| && p[i] == p[j];
    u := p[i];
    ChainTail(m, p, 0, i + 1);
    ChainTail(m, p, i, j + 1);
    hide IsChain;
    var way, round := p[0..i+1], p[i..j+1];
    assert way[0] == t && way[|way|-1] == u;
    assert |round| > 1 && round[0] == u && round[|round|-1] == u;
  }

  lemma {:induction false} StartListed(m: Option<Defs>, ty: HirType)
    ensures ty in AllTypes(m, ty)
  {
    SelfIn(ty);
  }

  /** Conversion of a type comes to an end, at some depth, iff no computation it leads to calls for
      itself. Both sides follow every field, pointee, parameter and result that is got to, and of the
      payloads of a union only those that are larger than all before them. */
  lemma {:induction false} ConversionEndsIff(m: Option<Defs>, ty: HirType)
    ensures (exists n: nat :: !Convert(m, n, ty).TooDeep?) <==>
              !exists u :: LeadsTo(m, Converting(ty), u) && CallsItself(m, u)
  {
    hide Convert, LeadsTo, CallsItself;
    EndsIff(m, Converting(ty));
    forall n: nat ensures Ended(m, n, Converting(ty)) <==> !Convert(m, n, ty).TooDeep? {
      EndedMeans(m, n, ty);
    }
    hide Ended;
    if Ends(m, Converting(ty)) {
      var n: nat :| Ended(m, n, Converting(ty));
      assert !Convert(m, n, ty).TooDeep?;
    }
    if n: nat :| !Convert(m, n, ty).TooDeep? {
      assert Ended(m, n, Converting(ty));
    }
  }

  // ----- Containment -----

  /** One type holds the next by value. */
  ghost predicate IsNest(m: Option<Defs>, p: seq<HirType>)
  {
    p != [] && forall i | 0 <= i < |p| - 1 :: ByValue(p[i]) && Holds(m, p[i], p[i+1])
  }

  /** The type contains itself by value. */
  ghost predicate ContainsItself(m: Option<Defs>, ty: HirType)
  {
    exists p :: |p| > 1 && IsNest(m, p) && p[0] == ty && p[|p|-1] == ty
  }

  function TypesAlong(p: seq<Task>): (r: seq<HirType>)
    ensures |r| == |p| && forall i | 0 <= i < |p| :: r[i] == p[i].ty
  {
    seq(|p|, i requires 0 <= i < |p| => p[i].ty)
  }

  lemma {:induction false} SizingNests(m: Option<Defs>, p: seq<Task>)
    requires IsChain(m, p) && !p[0].Converting?
    ensures IsNest(m, TypesAlong(p)) && !p[|p|-1].Converting?
    decreases |p|
  {
    hide Calls, Holds;
    if |p| > 1 {
      assert Calls(m, p[0], p[1]);
      SizingCallsByValue(m, p[0], p[1]);
      ChainTail(m, p, 1, |p|);
      SizingNests(m, p[1..]);
      var r := TypesAlong(p);
      forall i | 0 <= i < |r| - 1 ensures ByValue(r[i]) && Holds(m, r[i], r[i+1]) {
        assert i > 0 ==> r[i] == TypesAlong(p[1..])[i-1] && r[i+1] == TypesAlong(p[1..])[i];
      }
    }
  }

  lemma {:induction false} SizingCallsByValue(m: Option<Defs>, t: Task, u: Task)
    requires Calls(m, t, u) && !t.Converting?
    ensures ByValue(t.ty) && Holds(m, t.ty, u.ty) && !u.Converting?
  {
    hide SizeCalls, AlignCalls, Holds;
    var n: nat :| CallsAt(m, n, t, u);
    if t.Sizing? {
      SizeCalleeHeld(m, n, t.ty, u);
    } else {
      AlignCalleeHeld(m, n, t.ty, u);
    }
  }

  lemma {:induction false} SizingLeadsToNests(m: Option<Defs>, t: Task, u: Task)
    requires !t.Converting? && LeadsTo(m, t, u)
    ensures CallsItself(m, u) ==> ContainsItself(m, u.ty)
  {
    hide Calls, Holds;
    var p :| IsChain(m, p) && p[0] == t && p[|p|-1] == u;
    SizingNests(m, p);
    if CallsItself(m, u) {
      var q :| |q| > 1 && IsChain(m, q) && q[0] == u && q[|q|-1] == u;
      SizingNests(m, q);
      var r := TypesAlong(q);
      assert r[0] == u.ty && r[|r|-1] == u.ty;
    }
  }

  /** Sizes and alignments are computed to the end when no type contains itself by value. */
  lemma {:induction false} SizeEnds(m: Option<Defs>, ty: HirType)
    requires forall x :: !ContainsItself(m, x)
    ensures exists n: nat :: !Size(m, n, ty).TooDeep?
    ensures exists n: nat :: !Align(m, n, ty).TooDeep?
  {
    hide Size, Align, LeadsTo, CallsItself, ContainsItself;
    forall t: Task | !t.Converting? ensures Ends(m, t) {
      EndsIff(m, t);
      forall u | LeadsTo(m, t, u) ensures !CallsItself(m, u) {
        SizingLeadsToNests(m, t, u);
      }
    }
    assert Ends(m, Sizing(ty)) && Ends(m, Aligning(ty));
    var n: nat :| Ended(m, n, Sizing(ty));
    EndedMeans(m, n, ty);
    var k: nat :| Ended(m, k, Aligning(ty));
    EndedMeans(m, k, ty);
  }

  // ----- Pointers that close a circle -----

  lemma {:induction false} PointeeCalled(m: Option<Defs>, pointee: HirType, owned: bool)
    ensures Calls(m, Converting(Ptr(pointee, owned)), Converting(pointee))
  {
    assert CallsAt(m, 0, Converting(Ptr(pointee, owned)), Converting(pointee));
  }

  lemma {:induction false} FirstFieldCalled(m: Option<Defs>, id: nat)
    requires StructFields(m, id).Done? && StructFields(m, id).v != []
    ensures Calls(m, Converting(Struct(id)), Converting(StructFields(m, id).v[0]))
  {
    var fields := StructFields(m, id).v;
    assert ConvertAll(m, 0, fields[..0]) == Outcome.Done([]);
    assert PartConverted(m, 0, fields, 0, Converting(fields[0]));
    assert CallsAt(m, 0, Converting(Struct(id)), Converting(fields[0]));
  }

  /** The first struct begins with a pointer to the second. */
  ghost predicate PointsTo(m: Option<Defs>, a: nat, b: nat)
  {
    StructFields(m, a).Done? && StructFields(m, a).v != [] &&
    var f := StructFields(m, a).v[0]; f.Ptr? && f.pointee == Struct(b)
  }

  /** Structs that begin with pointers to each other, all around a circle of any length, are never
      converted: the cache is filled only after the pointee has been converted. */
  lemma {:induction false} PointerCircleNeverConverts(m: Option<Defs>, circle: seq<nat>, n: nat)
    requires |circle| > 1 && circle[0] == circle[|circle|-1]
    requires forall i | 0 <= i < |circle| - 1 :: PointsTo(m, circle[i], circle[i+1])
    ensures Convert(m, n, Struct(circle[0])).TooDeep?
  {
    var p := Around(m, circle);
    assert CallsItself(m, Converting(Struct(circle[0])));
    hide Ended, CallsItself;
    SelfCallNeverEnds(m, n, Converting(Struct(circle[0])));
    EndedMeans(m, n, Struct(circle[0]));
  }

  lemma {:induction false} Around(m: Option<Defs>, circle: seq<nat>) returns (p: seq<Task>)
    requires circle != []
    requires forall i | 0 <= i < |circle| - 1 :: PointsTo(m, circle[i], circle[i+1])
    ensures |p| == 2 * |circle| - 1 && IsChain(m, p)
    ensures p[0] == Converting(Struct(circle[0])) && p[|p|-1] == Converting(Struct(circle[|circle|-1]))
    decreases |circle|
  {
    hide Calls;
    p := [Converting(Struct(circle[0]))];
    if |circle| > 1 {
      forall i | 0 <= i < |circle[1..]| - 1 ensures PointsTo(m, circle[1..][i], circle[1..][i+1]) {
        assert PointsTo(m, circle[i+1], circle[i+2]);
      }
      var q := Around(m, circle[1..]);
      assert PointsTo(m, circle[0], circle[1]);
      var f := StructFields(m, circle[0]).v[0];
      FirstFieldCalled(m, circle[0]);
      PointeeCalled(m, f.pointee, f.owned);
      p := [Converting(Struct(circle[0])), Converting(f)] + q;
      forall i | 0 <= i < |p| - 1 ensures Calls(m, p[i], p[i+1]) {
        assert i > 1 ==> Calls(m, q[i-2], q[i-1]);
      }
    }
  }

  /** A list node: a struct of one pointer to itself has a size, and no shape. */
  lemma {:induction false} LinkedNode(n: nat)
    requires n >= 2
    ensures var m := Some(Defs([[Ptr(Struct(0), false)]], []));
            Size(m, n, Struct(0)) == Outcome.Done(8) && Convert(m, n, Struct(0)).TooDeep?
  {
    var fields := [Ptr(Struct(0), false)];
    var m := Some(Defs([fields], []));
    PointerCircleNeverConverts(m, [0, 0], n);
    hide Convert;
    assert fields[..0] == [];
    RoundUpBy8(0, 0);
    assert FieldAfter(m, n - 1, (0, 1), fields[0]) == Outcome.Done((8, 8));
    assert FieldsEnd(m, n - 1, []) == Outcome.Done((0, 1));
    assert FieldsEnd(m, n - 1, fields) == Outcome.Done((8, 8));
    RoundUpBy8(8, 8);
  }

  /** A union may point to itself, if an earlier payload is as large as the pointer: the pointer is then
      not the largest so far, and never converted. */
  lemma {:induction false} UnselectedPointerConverts()
    ensures var m := Some(Defs([], [[Some(Int(64, true)), Some(Ptr(Union(0), false))]]));
            Convert(m, 3, Union(0)) == Outcome.Done(StructShape([IntShape(32), IntShape(64)]))
  {
    var word, pointer := Int(64, true), Ptr(Union(0), false);
    var variants := [Some(word), Some(pointer)];
    var m := Some(Defs([], [variants]));
    assert variants[..1] == [Some(word)] && [Some(word)][..0] == [];
    assert ConvertLargest(m, 2, []) == Outcome.Done((1, IntShape(8)));
    assert Size(m, 2, word) == Outcome.Done(8) && Size(m, 2, pointer) == Outcome.Done(8);
    assert Convert(m, 2, word) == Outcome.Done(IntShape(64));
    assert ConvertLargest(m, 2, [Some(word)]) == Outcome.Done((8, IntShape(64)));
    assert ConvertLargest(m, 2, variants) == Outcome.Done((8, IntShape(64)));
  }
}
