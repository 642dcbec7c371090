/** Whether the slots of unions and error unions are large enough for what is stored in them. */
module LayoutSlots {
  import opened Wrappers
  import opened Hir
  import opened Layout

  // ----- Error unions -----

  /** The octets reserved for either payload of an error union. */
  function ErrUnionSlot(okSize: nat, errSize: nat): nat { Max(okSize, errSize) % TWO_32 }

  lemma {:induction false} ErrUnionShape(m: Option<Defs>, n: nat, ok: HirType, err: HirType)
    requires n > 0 && Convert(m, n, ErrUnion(ok, err)).Done?
    ensures Size(m, n - 1, ok).Done? && Size(m, n - 1, err).Done?
    ensures Convert(m, n, ErrUnion(ok, err)).v ==
            StructShape([IntShape(64),
                ArrayShape(IntShape(8), ErrUnionSlot(Size(m, n - 1, ok).v, Size(m, n - 1, err).v))])
  {
  }

  /** The length of the slot is cut to 32 bits, so it has room for both computed sizes exactly when
      both are below 2^32. */
  lemma {:induction false} ErrUnionSlotHoldsBothIff(okSize: nat, errSize: nat)
    ensures okSize <= ErrUnionSlot(okSize, errSize) && errSize <= ErrUnionSlot(okSize, errSize) <==>
            okSize < TWO_32 && errSize < TWO_32
  {
    var largest := Max(okSize, errSize);
    if largest < TWO_32 {
      assert ErrUnionSlot(okSize, errSize) == largest;
    } else {
      assert ErrUnionSlot(okSize, errSize) < TWO_32;
    }
  }

  /** Then the slot has room for what LLVM allocates for either payload. */
  lemma {:induction false} ErrUnionSlotHoldsPayloads(m: Option<Defs>, n: nat, ok: HirType, err: HirType)
    requires Documented(m) && KnownWidths(ok) && KnownWidths(err)
    requires n > 0 && Convert(m, n, ErrUnion(ok, err)).Done?
    requires Convert(m, n - 1, ok).Done? && Convert(m, n - 1, err).Done?
    requires Size(m, n - 1, ok).v < TWO_32 && Size(m, n - 1, err).v < TWO_32
    ensures var slot := Convert(m, n, ErrUnion(ok, err)).v.fields[1];
            AllocSize(Convert(m, n - 1, ok).v) <= AllocSize(slot) &&
                AllocSize(Convert(m, n - 1, err).v) <= AllocSize(slot)
  {
    hide Size, Align, KnownWidths, Documented;
    ErrUnionShape(m, n, ok, err);
    hide Convert;
    var okSize, errSize := Size(m, n - 1, ok).v, Size(m, n - 1, err).v;
    ErrUnionSlotHoldsBothIff(okSize, errSize);
    SizeCoversShape(m, n - 1, ok, false);
    SizeCoversShape(m, n - 1, err, false);
    OctetsAlloc(ErrUnionSlot(okSize, errSize));
  }

  // ----- Unions -----

  lemma {:induction false} NoPayloadIsLarger(m: Option<Defs>, n: nat, variants: seq<Option<HirType>>, k: nat)
    requires LargestPayload(m, n, variants).Done? && k < |variants| && variants[k].Some?
    ensures Size(m, n, variants[k].value).Done? && Size(m, n, variants[k].value).v <= LargestPayload(m, n, variants).v.0
  {
    hide Size, Align;
    var front := variants[..|variants|-1];
    if k < |front| {
      NoPayloadIsLarger(m, n, front, k);
    }
  }

  lemma {:induction false} UnionParts(m: Option<Defs>, n: nat, id: nat)
    requires Size(m, n, Union(id)).Done? && Convert(m, n, Union(id)).Done?
    ensures n > 0 && UnionVariants(m, id).Done?
    ensures var variants := UnionVariants(m, id).v;
            && LargestPayload(m, n - 1, variants).Done? && ConvertLargest(m, n - 1, variants).Done?
            && Convert(m, n, Union(id)).v == StructShape([IntShape(32), ConvertLargest(m, n - 1, variants).v.1])
  {
    hide LargestPayload, ConvertLargest, UnionSize;
  }

  /** The payload whose shape becomes the slot: the first of the largest by computed size; none when no
      payload is computed to take more than one octet. */
  ghost function Selected(m: Option<Defs>, n: nat, variants: seq<Option<HirType>>): Option<nat>
  {
    if variants == [] then None else
    var front, last := variants[..|variants|-1], variants[|variants|-1];
    var best := LargestPayload(m, n, front);
    if last.Some? && best.Done? && Size(m, n, last.value).Done? && Size(m, n, last.value).v > best.v.0
        then Some(|front|)
    else Selected(m, n, front)
  }

  lemma {:induction false} SelectedIsSlot(m: Option<Defs>, n: nat, variants: seq<Option<HirType>>)
    requires LargestPayload(m, n, variants).Done? && ConvertLargest(m, n, variants).Done?
    ensures LargestPayload(m, n, variants).v.0 == ConvertLargest(m, n, variants).v.0
    ensures var s, slot := Selected(m, n, variants), ConvertLargest(m, n, variants).v.1;
            if s.None? then LargestPayload(m, n, variants).v.0 == 1 && slot == IntShape(8)
            else
              && s.value < |variants| && variants[s.value].Some?
              && Size(m, n, variants[s.value].value) == Done(LargestPayload(m, n, variants).v.0)
              && Convert(m, n, variants[s.value].value) == Done(slot)
  {
    hide Size, Align, Convert;
    if variants != [] {
      SelectedIsSlot(m, n, variants[..|variants|-1]);
    }
  }

  /** How much more a type is computed to take than LLVM allocates for its shape. */
  function Slack(m: Option<Defs>, n: nat, ty: HirType): nat
    requires Documented(m) && KnownWidths(ty) && Size(m, n, ty).Done? && Convert(m, n, ty).Done?
  {
    SizeCoversShape(m, n, ty, false);
    Size(m, n, ty).v - AllocSize(Convert(m, n, ty).v)
  }

  /** Only loose types have slack: those with a union, by value, whose largest payload is not the one
      that is aligned most strictly, or with a length that does not fit 32 bits. */
  lemma {:induction false} TightHasNoSlack(m: Option<Defs>, n: nat, ty: HirType)
    requires Documented(m) && KnownWidths(ty) && Size(m, n, ty).Done? && Convert(m, n, ty).Done? && Tight(m, n, ty)
    ensures Slack(m, n, ty) == 0
  {
    hide Size, Convert, Align, Tight, AllocSize, AbiAlign;
    SizeCoversShape(m, n, ty, true);
  }

  /** A payload of the union that can be converted. */
  ghost predicate IsPayload(m: Option<Defs>, n: nat, id: nat, k: nat)
  {
    && n > 0 && UnionVariants(m, id).Done? && k < |UnionVariants(m, id).v| && UnionVariants(m, id).v[k].Some?
    && Convert(m, n - 1, UnionVariants(m, id).v[k].value).Done?
  }

  ghost function Payload(m: Option<Defs>, n: nat, id: nat, k: nat): HirType
    requires IsPayload(m, n, id, k)
  {
    UnionVariants(m, id).v[k].value
  }

  ghost predicate SlotHolds(m: Option<Defs>, n: nat, id: nat, k: nat)
    requires IsPayload(m, n, id, k) && Convert(m, n, Union(id)).Done? && |Convert(m, n, Union(id)).v.fields| == 2
  {
    AllocSize(Convert(m, n - 1, Payload(m, n, id, k)).v) <= AllocSize(Convert(m, n, Union(id)).v.fields[1])
  }

  lemma {:induction false} PayloadIsSized(m: Option<Defs>, n: nat, id: nat, k: nat)
    requires Documented(m) && Size(m, n, Union(id)).Done? && Convert(m, n, Union(id)).Done? && IsPayload(m, n, id, k)
    ensures |Convert(m, n, Union(id)).v.fields| == 2
    ensures Size(m, n - 1, Payload(m, n, id, k)).Done? && KnownWidths(Payload(m, n, id, k))
    ensures Size(m, n - 1, Payload(m, n, id, k)).v <= LargestPayload(m, n - 1, UnionVariants(m, id).v).v.0
  {
    hide LargestPayload, ConvertLargest, Size, Align, Convert;
    UnionParts(m, n, id);
    NoPayloadIsLarger(m, n - 1, UnionVariants(m, id).v, k);
  }

  /** The slot is the shape of the selected payload, which is computed to be no smaller than any other: so a
      payload fits exactly when LLVM allocates no more for it than for the selected one. */
  lemma {:induction false} SlotHoldsIff(m: Option<Defs>, n: nat, id: nat, k: nat, s: nat)
    requires Documented(m) && Size(m, n, Union(id)).Done? && Convert(m, n, Union(id)).Done?
    requires IsPayload(m, n, id, k) && Selected(m, n - 1, UnionVariants(m, id).v) == Some(s)
    ensures IsPayload(m, n, id, s) && |Convert(m, n, Union(id)).v.fields| == 2
    ensures var p, q := Payload(m, n, id, k), Payload(m, n, id, s);
            && Size(m, n - 1, p).Done? && KnownWidths(p) && Size(m, n - 1, q).Done? && KnownWidths(q)
            && Size(m, n - 1, p).v <= Size(m, n - 1, q).v
            && (SlotHolds(m, n, id, k) <==> AllocSize(Convert(m, n - 1, p).v) <= AllocSize(Convert(m, n - 1, q).v))
  {
    hide LargestPayload, ConvertLargest, Size, Align, Convert, Selected, AllocSize, AbiAlign;
    UnionParts(m, n, id);
    SelectedIsSlot(m, n - 1, UnionVariants(m, id).v);
    PayloadIsSized(m, n, id, k);
    PayloadIsSized(m, n, id, s);
  }

  /** When no payload is larger than one octet, the slot is one octet and holds them all. */
  lemma {:induction false} SmallPayloadsFit(m: Option<Defs>, n: nat, id: nat, k: nat)
    requires Documented(m) && Size(m, n, Union(id)).Done? && Convert(m, n, Union(id)).Done?
    requires IsPayload(m, n, id, k) && Selected(m, n - 1, UnionVariants(m, id).v).None?
    ensures |Convert(m, n, Union(id)).v.fields| == 2 && SlotHolds(m, n, id, k)
  {
    hide LargestPayload, ConvertLargest, Size, Align, Convert, Selected, AbiAlign;
    UnionParts(m, n, id);
    SelectedIsSlot(m, n - 1, UnionVariants(m, id).v);
    PayloadIsSized(m, n, id, k);
    SizeCoversShape(m, n - 1, Payload(m, n, id, k), false);
  }

  /** Every type that the code generator computes to be no larger than `q` takes no more room than the
      shape of `q`, however deep it is. */
  ghost predicate RoomForAll(m: Option<Defs>, n: nat, q: HirType)
    requires Size(m, n, q).Done? && Convert(m, n, q).Done?
  {
    forall j: nat, ty | Fitting(m, j, ty, Size(m, n, q).v) ::
        AllocSize(Convert(m, j, ty).v) <= AllocSize(Convert(m, n, q).v)
  }

  ghost predicate Fitting(m: Option<Defs>, j: nat, ty: HirType, size: nat)
  {
    KnownWidths(ty) && Convert(m, j, ty).Done? && Size(m, j, ty).Done? && Size(m, j, ty).v <= size
  }

  /** As many octets as `size`, which fill it. */
  lemma {:induction false} OctetsFit(m: Option<Defs>, size: nat)
    requires size < TWO_32
    ensures var octets := Array(Int(8, false), size);
            && Fitting(m, 2, octets, size) && AllocSize(Convert(m, 2, octets).v) == size
  {
    var octet, octets := Int(8, false), Array(Int(8, false), size);
    assert Size(m, 1, octet) == Done(1) && Align(m, 1, octet) == Done(1) && Convert(m, 1, octet) == Done(IntShape(8));
    assert Size(m, 2, octets) == Times(1, size);
    assert Convert(m, 2, octets) == Done(ArrayShape(IntShape(8), size % TWO_32));
    OctetsAlloc(size);
  }

  /** The shape of `q` has room for all of them exactly when it takes as much room as is computed for `q`;
      when it takes less, an array of as many octets as are computed is too large for it. */
  lemma {:induction false} RoomForAllIff(m: Option<Defs>, n: nat, q: HirType)
    requires Documented(m) && KnownWidths(q) && Size(m, n, q).Done? && Convert(m, n, q).Done? &&
             Size(m, n, q).v < TWO_32
    ensures RoomForAll(m, n, q) <==> Slack(m, n, q) == 0
  {
    hide Size, Convert, Align, AllocSize, AbiAlign, Documented, KnownWidths;
    var size := Size(m, n, q).v;
    OctetsFit(m, size);
    SizeCoversShape(m, n, q, false);
    forall j: nat, ty | Fitting(m, j, ty, size) ensures AllocSize(Convert(m, j, ty).v) <= size {
      SizeCoversShape(m, j, ty, false);
    }
  }

  /** So the slot of a union, which is the shape of its selected payload, is right for whatever variants are
      no larger than this one exactly when that payload has no slack. */
  lemma {:induction false} SlotIsRightIff(m: Option<Defs>, n: nat, id: nat, s: nat)
    requires Documented(m) && Size(m, n, Union(id)).Done? && Convert(m, n, Union(id)).Done?
    requires Selected(m, n - 1, UnionVariants(m, id).v) == Some(s)
    requires LargestPayload(m, n - 1, UnionVariants(m, id).v).v.0 < TWO_32
    ensures IsPayload(m, n, id, s) && |Convert(m, n, Union(id)).v.fields| == 2
    ensures var q := Payload(m, n, id, s);
            && Size(m, n - 1, q) == Done(LargestPayload(m, n - 1, UnionVariants(m, id).v).v.0)
            && Convert(m, n - 1, q) == Done(Convert(m, n, Union(id)).v.fields[1])
            && KnownWidths(q) && (RoomForAll(m, n - 1, q) <==> Slack(m, n - 1, q) == 0)
  {
    hide LargestPayload, ConvertLargest, Size, Align, Convert, Selected, AllocSize, AbiAlign, Slack, RoomForAll;
    UnionParts(m, n, id);
    SelectedIsSlot(m, n - 1, UnionVariants(m, id).v);
    PayloadIsSized(m, n, id, s);
    RoomForAllIff(m, n - 1, Payload(m, n, id, s));
  }

  /** So it is enough that the selected payload is tight. */
  lemma {:induction false} TightSelectionHoldsEveryPayload(m: Option<Defs>, n: nat, id: nat, k: nat)
    requires Documented(m) && Size(m, n, Union(id)).Done? && Convert(m, n, Union(id)).Done? && IsPayload(m, n, id, k)
    requires var variants := UnionVariants(m, id).v;
             var s := Selected(m, n - 1, variants);
             s.Some? ==> s.value < |variants| && variants[s.value].Some? && Tight(m, n - 1, variants[s.value].value)
    ensures |Convert(m, n, Union(id)).v.fields| == 2 && SlotHolds(m, n, id, k)
  {
    hide LargestPayload, ConvertLargest, Size, Align, Convert, Selected, SlotHolds, Tight, Documented, KnownWidths;
    hide AllocSize;
    var s := Selected(m, n - 1, UnionVariants(m, id).v);
    if s.None? {
      SmallPayloadsFit(m, n, id, k);
    } else {
      SlotHoldsIff(m, n, id, k, s.value);
      TightHasNoSlack(m, n - 1, Payload(m, n, id, s.value));
      SizeCoversShape(m, n - 1, Payload(m, n, id, k), false);
    }
  }

  // ----- A union whose slot is too small -----

  const I8: HirType := Int(8, true)
  const I32: HirType := Int(32, true)
  const I64: HirType := Int(64, true)

  /** The first union is sized by its array but takes its alignment from its 64-bit variant; the struct
      around it is therefore computed as 32 octets, although its shape takes only 24. The second union
      reserves the shape of that struct, for an array of 28 octets as well. */
  const LOOSE: Defs := Defs(
    [[I8, Union(0)]],
    [[Some(Array(I32, 4)), Some(I64)], [Some(Struct(0)), Some(Array(I32, 7))]])

  lemma {:induction false} TwoFields(m: Option<Defs>, n: nat, x: HirType, y: HirType)
    ensures FieldsEnd(m, n, [x, y]) ==
            match FieldAfter(m, n, (0, 1), x) { case Done(e) => FieldAfter(m, n, e, y) case r => r }
    ensures FieldsAlign(m, n, [x, y]) ==
            match Align(m, n, x) {
              case Done(a) => (match Align(m, n, y) { case Done(b) => Done(Max(Max(1, a), b)) case r => r })
              case r => r }
    ensures ConvertAll(m, n, [x, y]) ==
            match Convert(m, n, x) {
              case Done(s) =>
                (match Convert(m, n, y) {
                  case Done(t) => Done([s, t]) case Failed(e) => Failed(e) case TooDeep => TooDeep })
              case Failed(e) => Failed(e) case TooDeep => TooDeep }
  {
    hide Size, Align, Convert, FieldAfter;
    assert [x, y][..1] == [x] && [x][..0] == [];
    assert FieldsEnd(m, n, []) == Done((0, 1)) && FieldsAlign(m, n, []) == Done(1) && ConvertAll(m, n, []) == Done([]);
    assert FieldsEnd(m, n, [x]) == FieldAfter(m, n, (0, 1), x);
    assert forall s: Shape, t: Shape :: [] + [s] + [t] == [s, t];
  }

  lemma {:induction false} TwoPayloads(m: Option<Defs>, n: nat, x: HirType, y: HirType, s: nat, t: nat, a: nat, b: nat)
    requires Size(m, n, x) == Done(s) && Size(m, n, y) == Done(t) && s > 1 && t <= s
    requires Align(m, n, x) == Done(a) && Align(m, n, y) == Done(b)
    ensures LargestPayload(m, n, [Some(x), Some(y)]) == Done((s, a))
    ensures PayloadsAlign(m, n, [Some(x), Some(y)]) == Done(Max(Max(4, a), b))
    ensures Convert(m, n, x).Done? ==> ConvertLargest(m, n, [Some(x), Some(y)]) == Done((s, Convert(m, n, x).v))
  {
    hide Size, Align, Convert;
    var v := [Some(x), Some(y)];
    assert v[..1] == [Some(x)] && [Some(x)][..0] == [];
    assert LargestPayload(m, n, []) == Done((1, 1)) && PayloadsAlign(m, n, []) == Done(4);
    assert ConvertLargest(m, n, []) == Done((1, IntShape(8)));
    assert LargestPayload(m, n, [Some(x)]) == Done((s, a));
    assert PayloadsAlign(m, n, [Some(x)]) == Done(Max(4, a));
    assert Convert(m, n, x).Done? ==> ConvertLargest(m, n, [Some(x)]) == Done((s, Convert(m, n, x).v));
  }

  lemma {:induction false} LooseInner()
    ensures Size(Some(LOOSE), 3, Union(0)) == Done(20) && Align(Some(LOOSE), 3, Union(0)) == Done(8)
    ensures Convert(Some(LOOSE), 3, Union(0)) == Done(LOOSE_INNER)
  {
    var m := Some(LOOSE);
    assert Size(m, 2, Array(I32, 4)) == Done(16) && Align(m, 2, Array(I32, 4)) == Done(4);
    assert Size(m, 2, I64) == Done(8) && Align(m, 2, I64) == Done(8);
    assert Convert(m, 2, Array(I32, 4)) == Done(ArrayShape(IntShape(32), 4));
    TwoPayloads(m, 2, Array(I32, 4), I64, 16, 8, 4, 8);
  }

  lemma {:induction false} LooseStruct()
    ensures Size(Some(LOOSE), 4, Struct(0)) == Done(32) && Align(Some(LOOSE), 4, Struct(0)) == Done(8)
    ensures Convert(Some(LOOSE), 4, Struct(0)) == Done(LOOSE_SLOT)
  {
    var m := Some(LOOSE);
    assert Size(m, 3, I8) == Done(1) && Align(m, 3, I8) == Done(1) && Convert(m, 3, I8) == Done(IntShape(8));
    hide Size, Align, Convert;
    LooseInner();
    TwoFields(m, 3, I8, Union(0));
    assert FieldAfter(m, 3, (0, 1), I8) == Done((1, 1));
    assert FieldAfter(m, 3, (1, 1), Union(0)) == Done((28, 8));
    SizeOfStruct(m, 4, 0);
  }

  const LOOSE_INNER: Shape := StructShape([IntShape(32), ArrayShape(IntShape(32), 4)])

  const LOOSE_SLOT: Shape := StructShape([IntShape(8), LOOSE_INNER])

  lemma {:induction false} PairAllocIs(x: Shape, y: Shape, sx: nat, ax: nat, sy: nat, ay: nat)
    requires AllocSize(x) == sx && AbiAlign(x) == ax && AllocSize(y) == sy && AbiAlign(y) == ay && ax > 0 && ay > 0
    ensures var s, a := StructShape([x, y]), Max(Max(1, ax), ay);
            AbiAlign(s) == a && AllocSize(s) == RoundUp(RoundUp(RoundUp(0, ax) + sx, ay) + sy, a)
  {
    hide AllocSize, AbiAlign, RoundUp;
    PairAlloc(x, y);
  }

  lemma {:induction false} RoundsToFour(x: nat, q: nat)
    requires x <= 4 * q < x + 4
    ensures RoundUp(x, 4) == 4 * q
  {
  }

  lemma {:induction false} RoundsToOne(x: nat)
    ensures RoundUp(x, 1) == x
  {
  }

  lemma {:induction false} LooseInnerAlloc()
    ensures AllocSize(LOOSE_INNER) == 20 && AbiAlign(LOOSE_INNER) == 4
  {
    hide AllocSize, AbiAlign, RoundUp;
    SmallAllocs();
    RoundsToFour(0, 0);
    RoundsToFour(4, 1);
    RoundsToFour(20, 5);
    PairAllocIs(IntShape(32), ArrayShape(IntShape(32), 4), 4, 4, 16, 4);
  }

  lemma {:induction false} LooseSlotAlloc()
    ensures AllocSize(LOOSE_SLOT) == 24
  {
    hide AllocSize, AbiAlign, RoundUp;
    SmallAllocs();
    LooseInnerAlloc();
    RoundsToOne(0);
    RoundsToFour(1, 1);
    RoundsToFour(24, 6);
    PairAllocIs(IntShape(8), LOOSE_INNER, 1, 1, 20, 4);
  }

  lemma {:induction false} LooseOuter()
    ensures var m := Some(LOOSE);
            && Size(m, 5, Union(1)).Done? && Convert(m, 5, Union(1)) == Done(StructShape([IntShape(32), LOOSE_SLOT]))
            && Convert(m, 4, Array(I32, 7)) == Done(ArrayShape(IntShape(32), 7))
  {
    var m := Some(LOOSE);
    hide Size, Align, Convert;
    LooseStruct();
    LooseArray();
    TwoPayloads(m, 4, Struct(0), Array(I32, 7), 32, 28, 8, 4);
    SizeOfUnion(m, 5, 1);
  }

  lemma {:induction false} LooseArray()
    ensures var m := Some(LOOSE);
            && Size(m, 4, Array(I32, 7)) == Done(28) && Align(m, 4, Array(I32, 7)) == Done(4)
            && Convert(m, 4, Array(I32, 7)) == Done(ArrayShape(IntShape(32), 7))
  {
  }

  lemma {:induction false} LooseIsDocumented()
    ensures Documented(Some(LOOSE))
  {
  }

  /** A union of the module above reserves 24 octets for a payload that takes 28. */
  lemma {:induction false} SlotTooSmall()
    ensures var m := Some(LOOSE);
            && Documented(m) && Size(m, 5, Union(1)).Done? && Convert(m, 5, Union(1)).Done?
            && Convert(m, 4, Array(I32, 7)).Done?
            && AllocSize(Convert(m, 5, Union(1)).v.fields[1]) == 24
            && AllocSize(Convert(m, 4, Array(I32, 7)).v) == 28
  {
    hide *;
    LooseIsDocumented();
    LooseOuter();
    LooseSlotAlloc();
    SmallAllocs();
  }

  lemma {:induction false} SmallAllocs()
    ensures AllocSize(IntShape(32)) == 4 && AbiAlign(IntShape(32)) == 4
    ensures AllocSize(IntShape(8)) == 1 && AbiAlign(IntShape(8)) == 1
    ensures AllocSize(ArrayShape(IntShape(32), 4)) == 16 && AbiAlign(ArrayShape(IntShape(32), 4)) == 4
    ensures AllocSize(ArrayShape(IntShape(32), 7)) == 28
  {
  }
}
