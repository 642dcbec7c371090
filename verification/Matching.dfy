/** What arms mean, on the values they are matched against, and that the compiled branch does that. A pattern
    is read here as the language has it: a literal stands for a value, a name for the variant declared
    there. How the compiler labels it plays no part. */
module Matching {
  import opened Wrappers
  import opened Diag
  import opened Hir
  import opened HirSemantics
  import opened Decimal
  import opened Pattern
  import opened Lowering

  // ----- Numerals -----

  function DigitOf(c: char): Option<nat>
  {
    if '0' <= c <= '9' then Some((c - '0') as nat)
    else if 'a' <= c <= 'f' then Some(10 + (c - 'a') as nat)
    else if 'A' <= c <= 'F' then Some(10 + (c - 'A') as nat)
    else None
  }

  /** Digits from the left, continuing a number; underscores only separate them. */
  function Positional(radix: nat, text: string, sofar: nat): Option<nat>
  {
    if text == [] then Some(sofar)
    else if text[0] == '_' then Positional(radix, text[1..], sofar)
    else
      match DigitOf(text[0])
      case Some(d) => if d < radix then Positional(radix, text[1..], sofar * radix + d) else None
      case None => None
  }

  /** The number a numeral stands for. It begins with a digit, and `0x`, `0o` and `0b` with more behind them
      change the radix. */
  function Denoted(text: string): Option<nat>
  {
    if text == [] || !IsDigit(text[0]) then None
    else if |text| > 2 && text[..2] == "0x" then Positional(16, text[2..], 0)
    else if |text| > 2 && text[..2] == "0o" then Positional(8, text[2..], 0)
    else if |text| > 2 && text[..2] == "0b" then Positional(2, text[2..], 0)
    else Positional(10, text, 0)
  }

  lemma {:induction false} PositionalAppend(text: string, c: char, sofar: nat)
    requires AllDigits(text) && IsDigit(c)
    ensures Positional(10, text, sofar).Some?
    ensures Positional(10, text + [c], sofar) == Some(Positional(10, text, sofar).value * 10 + DigitValue(c))
  {
    if text == [] {
      assert text + [c] == [c] && [c][1..] == [];
    } else {
      assert (text + [c])[1..] == text[1..] + [c];
      assert IsDigit(text[0]);
      PositionalAppend(text[1..], c, sofar * 10 + DigitValue(text[0]));
    }
  }

  lemma {:induction false} PlainValue(text: string)
    requires AllDigits(text)
    ensures Positional(10, text, 0) == Some(ValueOf(text))
  {
    if text != [] {
      var front, last := text[..|text|-1], text[|text|-1];
      PlainValue(front);
      PositionalAppend(front, last, 0);
      assert front + [last] == text;
    }
  }

  /** Digits alone stand for what they do in decimal. */
  lemma {:induction false} PlainDenotes(text: string)
    requires text != [] && AllDigits(text)
    ensures Denoted(text) == Some(ValueOf(text))
  {
    PlainValue(text);
    if |text| > 2 {
      assert IsDigit(text[1]);
      assert text[..2][1] == text[1];
    }
  }

  // ----- What an arm matches -----

  predicate Distinct(names: seq<string>) { forall i, j | 0 <= i < j < |names| :: names[i] != names[j] }

  /** A literal or variant arm matches this value, of a type with the variants `mine`. The bits of a float
      numeral are not given here. */
  predicate Means(mine: seq<string>, p: Pattern, w: Value)
  {
    match p
    case Lit(BoolLit(b)) => w == BoolV(b)
    case Lit(IntLit(text)) => w.IntV? && Denoted(text).Some? && Denoted(text).value == w.n
    case Lit(StrLit(text)) => w == StrV(text)
    case Lit(NilLit) => w == NilV
    case Lit(FloatLit(_)) => false
    case Variant(name, _) => w.AggV? && w.tag < |mine| && mine[w.tag] == name
    case _ => false
  }

  /** The literals a branch can test for: booleans, and plain decimal numerals below 2^64. */
  predicate CanTest(p: Pattern)
  {
    match p
    case Lit(BoolLit(_)) => true
    case Lit(IntLit(text)) => AllDigits(text) && Denoted(text).Some? && Denoted(text).value < 0x1_0000_0000_0000_0000
    case Variant(_, _) => true
    case _ => false
  }

  predicate Taken(mine: seq<string>, p: Pattern, w: Value, holds: HirOperand -> bool)
  {
    match p
    case Wildcard => true
    case Bind(_) => true
    case Cond(Some(guard)) => holds(guard)
    case Cond(None) => false
    case _ => CanTest(p) && Means(mine, p, w)
  }

  /** The first arm that is taken, |arms| if none is. */
  function FirstTaken(mine: seq<string>, arms: seq<Pattern>, w: Value, holds: HirOperand -> bool): (i: nat)
    ensures i <= |arms| && (i < |arms| ==> Taken(mine, arms[i], w, holds))
    ensures forall j | 0 <= j < i :: !Taken(mine, arms[j], w, holds)
  {
    if arms == [] || Taken(mine, arms[0], w, holds) then 0 else 1 + FirstTaken(mine, arms[1..], w, holds)
  }

  /** Where the branch should go. When no arm is taken: on past it if there is none, or if the last one is
      a condition; otherwise to the block that should never be entered. */
  function Destination(
    mine: seq<string>, arms: seq<Pattern>, blocks: seq<BlockId>, fallback: BlockId, unreachable: BlockId,
    w: Value, holds: HirOperand -> bool): BlockId
    requires |blocks| == |arms|
  {
    var i := FirstTaken(mine, arms, w, holds);
    if i < |arms| then blocks[i]
    else if arms == [] || (arms[|arms|-1].Cond? && arms[|arms|-1].guard.Some?) then fallback
    else unreachable
  }

  // ----- When the compiler can know what is meant -----

  ghost predicate SamePlaces(names: seq<string>, mine: seq<string>, name: string)
  {
    forall i | 0 <= i < |names| && names[i] == name :: i < |mine| && mine[i] == name
  }

  /** Every union with that variant has it in the same position, as does the type matched on; `Ok` and `Err`
      come first and second. */
  ghost predicate Agreed(unions: seq<UnionDef>, mine: seq<string>, name: string)
  {
    name in mine &&
    if name == "Ok" then mine[0] == name
    else if name == "Err" then |mine| > 1 && mine[1] == name
    else
      (exists u :: u in unions && name in u.variants) && forall u | u in unions :: SamePlaces(u.variants, mine, name)
  }

  /** The arm is of the type of the value; numerals begin with a digit, as the lexer sees to. */
  ghost predicate Suits(unions: seq<UnionDef>, mine: seq<string>, p: Pattern, w: Value)
  {
    match p
    case Lit(BoolLit(_)) => w.BoolV?
    case Lit(IntLit(text)) => w.IntV? && text != [] && IsDigit(text[0])
    case Variant(name, _) => w.AggV? && w.tag < |mine| && Agreed(unions, mine, name)
    case _ => true
  }

  ghost predicate AllSuit(unions: seq<UnionDef>, mine: seq<string>, arms: seq<Pattern>, w: Value)
  {
    forall p | p in arms :: Suits(unions, mine, p, w)
  }

  /** An arm that is tested for stands before a condition, with no catch-all arm up to there. */
  ghost predicate Drops(arms: seq<Pattern>)
  {
    exists i, j ::
      && 0 <= i < j < |arms| && CanTest(arms[i]) && arms[j].Cond? && arms[j].guard.Some?
      && forall k | 0 <= k < j :: !arms[k].Wildcard? && !arms[k].Bind?
  }

  /** What the branch compares: the tag of a union, else the value. */
  function Key(w: Value): int
  {
    match w
    case BoolV(b) => if b then 1 else 0
    case IntV(n) => n
    case AggV(tag, _) => tag
    case _ => 0
  }

  function Truth(holds: HirOperand -> bool): Valuation { o => if holds(o) then 1 else 0 }

  lemma {:induction false} NumeralLabel(text: string)
    requires text != [] && IsDigit(text[0])
    ensures ParseU64(text) == if CanTest(Lit(IntLit(text))) then Denoted(text) else None
  {
    if AllDigits(text) {
      PlainDenotes(text);
    }
  }

  lemma {:induction false} VariantLabel(unions: seq<UnionDef>, mine: seq<string>, name: string)
    requires Distinct(mine) && Agreed(unions, mine, name)
    ensures FindVariantIndex(unions, name).Some?
    ensures FindVariantIndex(unions, name).value < |mine| && mine[FindVariantIndex(unions, name).value] == name
  {
    if name != "Ok" && name != "Err" {
      FindInUnionsExact(unions, name);
      var u :| u in unions && name in u.variants && FindInUnions(unions, name).value == IndexOf(u.variants, name);
      var i := IndexOf(u.variants, name);
      assert SamePlaces(u.variants, mine, name) && u.variants[i] == name;
    }
  }

  lemma {:induction false} LabelIsMeant(unions: seq<UnionDef>, mine: seq<string>, p: Pattern, w: Value)
    requires Distinct(mine) && Suits(unions, mine, p, w)
    ensures Label(unions, p).Some? <==> CanTest(p)
    ensures CanTest(p) ==> (Label(unions, p).value == Key(w) <==> Means(mine, p, w))
  {
    hide ParseU64, Denoted, FindVariantIndex, AllDigits;
    match p {
      case Lit(IntLit(text)) => NumeralLabel(text);
      case Variant(name, _) => VariantLabel(unions, mine, name);
      case _ =>
    }
  }

  lemma {:induction false} TakenIsMatch(
      unions: seq<UnionDef>, mine: seq<string>, p: Pattern, w: Value, holds: HirOperand -> bool)
    requires Distinct(mine) && Suits(unions, mine, p, w)
    ensures Taken(mine, p, w, holds) <==> Matches(unions, p, Key(w), Truth(holds))
  {
    hide Label, Means, CanTest, Suits, Key;
    LabelIsMeant(unions, mine, p, w);
    if p.Cond? {
      assert !CanTest(p) by { NoGuardTested(p); }
    }
  }

  lemma {:induction false} NoGuardTested(p: Pattern)
    requires p.Cond?
    ensures !CanTest(p)
  {
  }

  lemma {:induction false} FirstTakenIsFirstMatch(
      unions: seq<UnionDef>, mine: seq<string>, arms: seq<Pattern>, w: Value, holds: HirOperand -> bool)
    requires Distinct(mine) && AllSuit(unions, mine, arms, w)
    ensures FirstTaken(mine, arms, w, holds) == FirstMatch(unions, arms, Key(w), Truth(holds))
  {
    hide Taken, Matches, Suits, Distinct;
    if arms != [] {
      assert arms[0] in arms;
      TakenIsMatch(unions, mine, arms[0], w, holds);
      FirstTakenIsFirstMatch(unions, mine, arms[1..], w, holds);
    }
  }

  lemma {:induction false} DropsAsLabelled(unions: seq<UnionDef>, mine: seq<string>, arms: seq<Pattern>, w: Value)
    requires Distinct(mine) && AllSuit(unions, mine, arms, w)
    ensures DropsTargets(unions, arms) ==> Drops(arms)
  {
    hide Label, CanTest, Suits, Distinct;
    if DropsTargets(unions, arms) {
      var i, j :| DropsAt(unions, arms, i, j);
      assert arms[i] in arms;
      LabelIsMeant(unions, mine, arms[i], w);
      assert CanTest(arms[i]) && forall k | 0 <= k < j :: !arms[k].Wildcard? && !arms[k].Bind?;
    }
  }

  // ----- The compiled branch -----

  /** The tree selects the first arm that the value matches, whatever the guards come to, unless an arm
      that is tested for stands before a condition. */
  lemma {:induction false} CompiledTreeSelectsFirstMatch(
      unions: seq<UnionDef>, mine: seq<string>, arms: seq<Pattern>, blocks: seq<BlockId>,
      fallback: BlockId, unreachable: BlockId, w: Value, holds: HirOperand -> bool)
    requires |blocks| == |arms| && !Drops(arms)
    requires Distinct(mine) && AllSuit(unions, mine, arms, w)
    ensures Select(Compile(unions, arms, blocks, fallback, unreachable), Key(w), Truth(holds)) ==
            Destination(mine, arms, blocks, fallback, unreachable, w, holds)
  {
    hide Compile, Select, Drops, AllSuit, Distinct, FirstTaken, FirstMatch;
    DropsAsLabelled(unions, mine, arms, w);
    CompiledTreeFollowsLabels(unions, arms, blocks, fallback, unreachable, Key(w), Truth(holds));
    FirstTakenIsFirstMatch(unions, mine, arms, w, holds);
  }

  /** The operand the branch switches on: a union's tag, else the value itself. */
  predicate Scrutinee(discr: HirOperand, w: Value, store: Store)
  {
    if w.AggV? then w.tag <= I128_MAX && EvalOperand(discr, store) == Val(IntV(w.tag))
    else EvalOperand(discr, store) == Val(w)
  }

  /** Compile the arms, lay the tree out on top of any blocks with unique ids, and enter it: control reaches
      the block of the first arm that the value matches in source order. */
  lemma {:induction false} BranchReachesFirstMatch(
      unions: seq<UnionDef>, mine: seq<string>, arms: seq<Pattern>, armBlocks: seq<BlockId>, fallback: BlockId,
      unreachable: BlockId, discr: HirOperand, span: Span, before: seq<HirBlock>, next: nat, locals: seq<HirLocal>,
      start: BlockId, env: Env, st: State, w: Value, holds: HirOperand -> bool) returns (k: nat)
    requires |armBlocks| == |arms| && !Drops(arms)
    requires UniqueIds(before) && Below(before, next)
    requires Distinct(mine) && AllSuit(unions, mine, arms, w)
    requires Scrutinee(discr, w, st.store)
    requires forall p | p in arms && p.Cond? && p.guard.Some? ::
               EvalOperand(p.guard.value, st.store) == Val(BoolV(holds(p.guard.value)))
    ensures var laid := LayOut(Compile(unions, arms, armBlocks, fallback, unreachable), next, discr, span);
            var c := Cfg(before + laid.blocks, locals, start);
            var there := Destination(mine, arms, armBlocks, fallback, unreachable, w, holds);
            k <= |laid.blocks| && UniqueIds(c.blocks) && LeadsTo(env, c, laid.entry, there, st, k)
  {
    hide Label, Drops, DropsTargets, Compile, LayOut, LeadsTo, UniqueIds, Below, Select, FirstTaken, FirstMatch;
    DropsAsLabelled(unions, mine, arms, w);
    FirstTakenIsFirstMatch(unions, mine, arms, w, holds);
    hide Distinct, EvalOperand;
    if p :| p in arms && Label(unions, p).Some? {
      LabelledIsSwitched(unions, mine, arms, p, discr, w, st.store);
    }
    hide AllSuit, Scrutinee;
    k := BranchFollowsLabels(unions, arms, armBlocks, fallback, unreachable, discr, span, before, next, locals, start,
                             env, st, Key(w), Truth(holds));
  }

  lemma {:induction false} LabelledIsSwitched(
      unions: seq<UnionDef>, mine: seq<string>, arms: seq<Pattern>, p: Pattern, discr: HirOperand, w: Value,
      store: Store)
    requires AllSuit(unions, mine, arms, w) && p in arms && Label(unions, p).Some?
    requires Scrutinee(discr, w, store)
    ensures KeyOf(discr, store) == Val(Key(w))
  {
    hide EvalOperand, Agreed;
    assert Suits(unions, mine, p, w);
  }

  /** What is put in front of a branch: the value in a local of its own, and of a union its tag in another. */
  function ScrutineeStmts(ofUnion: bool, value: HirOperand, kept: LocalId, tag: LocalId, span: Span): seq<HirStmt>
  {
    [HirStmt.Assign(Local(kept), Use(value), span)] +
    if ofUnion then [HirStmt.Assign(Local(tag), Discriminant(Local(kept)), span)] else []
  }

  lemma {:induction false} LocalReads(x: LocalId, store: Store)
    requires x in store
    ensures EvalPlace(Local(x), store) == Val(store[x]) && EvalOperand(PlaceOp(Local(x)), store) == Val(store[x])
  {
    assert Resolve(Local(x), store) == Val(Addr(x, []));
  }

  /** They leave the operand that is switched on as it should be. */
  lemma {:induction false} ScrutineeIsStored(
      env: Env, value: HirOperand, kept: LocalId, tag: LocalId, span: Span, st: State, w: Value)
    requires EvalOperand(value, st.store) == Val(w) && (w.AggV? ==> w.tag <= I128_MAX) && kept != tag
    ensures var r := ExecStmts(env, ScrutineeStmts(w.AggV?, value, kept, tag, span), st);
            && r.Val? && r.v.trace == st.trace
            && Scrutinee(PlaceOp(Local(if w.AggV? then tag else kept)), w, r.v.store)
  {
    var first := ScrutineeStmts(false, value, kept, tag, span);
    var stored := State(st.store[kept := w], st.trace, st.taken);
    assert ExecStmt(env, first[0], st) == Val(stored) by {
      assert st.taken + {} == st.taken;
    }
    if w.AggV? {
      var all := ScrutineeStmts(true, value, kept, tag, span);
      assert all[0] == first[0] && all[1..] == [HirStmt.Assign(Local(tag), Discriminant(Local(kept)), span)];
      TagIsStored(env, kept, tag, span, stored, w);
    } else {
      assert first[1..] == [];
      LocalReads(kept, stored.store);
    }
  }

  lemma {:induction false} TagIsStored(env: Env, kept: LocalId, tag: LocalId, span: Span, st: State, w: Value)
    requires w.AggV? && w.tag <= I128_MAX && kept in st.store && st.store[kept] == w
    ensures var r := ExecStmts(env, [HirStmt.Assign(Local(tag), Discriminant(Local(kept)), span)], st);
            r.Val? && r.v.trace == st.trace && Scrutinee(PlaceOp(Local(tag)), w, r.v.store)
  {
    var s := HirStmt.Assign(Local(tag), Discriminant(Local(kept)), span);
    LocalReads(kept, st.store);
    LocalReads(tag, st.store[tag := IntV(w.tag)]);
    assert EvalRvalue(env, Discriminant(Local(kept)), st.store) == Val(IntV(w.tag));
    assert ExecStmt(env, s, st) == Val(State(st.store[tag := IntV(w.tag)], st.trace, st.taken)) by {
      assert st.taken + {} == st.taken;
    }
    assert [s][1..] == [];
  }

  // ----- Arms that are not taken, and arms that are taken for another -----

  /** A literal that cannot be tested for is passed over, also by the values it stands for. */
  lemma {:induction false} UntestableArmIsPassedOver(
      unions: seq<UnionDef>, mine: seq<string>, p: Pattern, here: BlockId, other: BlockId,
      fallback: BlockId, unreachable: BlockId, w: Value, holds: HirOperand -> bool)
    requires p.Lit? && !CanTest(p) && Distinct(mine) && Suits(unions, mine, p, w)
    ensures Select(Compile(unions, [p, Wildcard], [here, other], fallback, unreachable), Key(w), Truth(holds)) == other
  {
    hide Label, CanTest, Distinct, Suits;
    LabelIsMeant(unions, mine, p, w);
    assert [p, Wildcard][1..] == [Wildcard] && [here, other][1..] == [other];
    assert CompileRest(unions, [Wildcard], [other], [], fallback, unreachable) == Leaf(other);
    assert CompileRest(unions, [p, Wildcard], [here, other], [], fallback, unreachable) == Leaf(other);
  }

  /** Such are the numerals that are not plain decimals, and all strings: 42 is not matched by `0x2A`, nor
      1000 by `1_000`, nor any string by itself. */
  lemma {:induction false} NumeralsAndStringsPassedOver(mine: seq<string>, s: string)
    ensures Means(mine, Lit(IntLit("0x2A")), IntV(42)) && !CanTest(Lit(IntLit("0x2A")))
    ensures Means(mine, Lit(IntLit("1_000")), IntV(1000)) && !CanTest(Lit(IntLit("1_000")))
    ensures Means(mine, Lit(StrLit(s)), StrV(s)) && !CanTest(Lit(StrLit(s)))
  {
    HexNumeral();
    SeparatedNumeral();
    hide Denoted, AllDigits;
  }

  lemma {:induction false} HexNumeral()
    ensures Denoted("0x2A") == Some(42) && !AllDigits("0x2A")
  {
    assert "0x2A"[2..] == "2A" && "2A"[1..] == "A" && "A"[1..] == "";
    assert Positional(16, "2A", 0) == Positional(16, "A", 2) == Positional(16, "", 42);
    assert !IsDigit("0x2A"[1]);
  }

  lemma {:induction false} SeparatedNumeral()
    ensures Denoted("1_000") == Some(1000) && !AllDigits("1_000")
  {
    assert "1_000"[1..] == "_000" && "_000"[1..] == "000" && "000"[1..] == "00" && "00"[1..] == "0" && "0"[1..] == "";
    assert Positional(10, "_000", 1) == Positional(10, "000", 1) == Positional(10, "00", 10);
    assert Positional(10, "00", 10) == Positional(10, "0", 100);
    assert !IsDigit("1_000"[1]);
  }

  /** A union that declares `Ok` second has it taken for its first variant. */
  lemma {:induction false} OkMustComeFirst(
      fields: seq<Value>, here: BlockId, other: BlockId, fallback: BlockId, unreachable: BlockId,
      holds: HirOperand -> bool)
    ensures var mine, arms, w := ["Err", "Ok"], [Pattern.Variant("Ok", []), Wildcard], AggV(0, fields);
            var tree := Compile([UnionDef(mine)], arms, [here, other], fallback, unreachable);
            && !Means(mine, arms[0], w)
            && Destination(mine, arms, [here, other], fallback, unreachable, w, holds) == other
            && Select(tree, Key(w), Truth(holds)) == here
  {
    var mine, arms, w := ["Err", "Ok"], [Pattern.Variant("Ok", []), Wildcard], AggV(0, fields);
    assert arms[1..] == [Wildcard] && [here, other][1..] == [other];
    assert !Taken(mine, arms[0], w, holds) && Taken(mine, arms[1], w, holds);
    assert FirstTaken(mine, arms, w, holds) == 1;
    assert FindCase([CaseFor(0, here)], 0) == 0;
  }
}
