/** The lowering context as far as branches need it: it compiles arms to a tree and materializes the
    tree as basic blocks. */
module Lowering {
  import opened Wrappers
  import opened Diag
  import opened Hir
  import opened HirSemantics
  import opened Pattern

  // ----- The blocks of a tree, as a value: one block per inner node, in pre-order -----

  datatype Laid = Laid(entry: BlockId, blocks: seq<HirBlock>)

  datatype LaidCases = LaidCases(targets: seq<(nat, BlockId)>, blocks: seq<HirBlock>)

  function SwitchBlock(
      id: BlockId, discr: HirOperand, targets: seq<(nat, BlockId)>, otherwise: BlockId, span: Span): HirBlock
  {
    HirBlock(id, [], Switch(discr, targets, otherwise), span)
  }

  function LayOut(t: DecisionNode, next: nat, discr: HirOperand, span: Span): (r: Laid)
    decreases t
  {
    match t
    case Leaf(b) => Laid(b, [])
    case SwitchNode(targets, otherwise) =>
      var cases := LayOutCases(t, targets, next + 1, discr, span);
      var last := LayOut(otherwise, next + 1 + |cases.blocks|, discr, span);
      Laid(next, [SwitchBlock(next, discr, cases.targets, last.entry, span)] + cases.blocks + last.blocks)
    case Guard(condition, yes, no) =>
      var y := LayOut(yes, next + 1, discr, span);
      var n := LayOut(no, next + 1 + |y.blocks|, discr, span);
      Laid(next, [SwitchBlock(next, condition, [(1, y.entry)], n.entry, span)] + y.blocks + n.blocks)
  }

  function LayOutCases(
      ghost parent: DecisionNode, targets: seq<Case>, next: nat, discr: HirOperand, span: Span): (r: LaidCases)
    requires forall c | c in targets :: c.node < parent
    decreases parent, |targets|
  {
    if targets == [] then LaidCases([], [])
    else
      var c := targets[|targets|-1];
      var before := LayOutCases(parent, targets[..|targets|-1], next, discr, span);
      var laid := LayOut(c.node, next + |before.blocks|, discr, span);
      LaidCases(before.targets + [(c.key, laid.entry)], before.blocks + laid.blocks)
  }

  /** Consecutive ids. */
  ghost predicate Numbered(blocks: seq<HirBlock>, next: nat)
  {
    forall k | 0 <= k < |blocks| :: blocks[k].id == next + k
  }

  // ----- The context -----

  class LoweringContext {
    var unions: seq<UnionDef>
    var blocks: seq<HirBlock>
    var nextBlock: nat
    var currentBlock: Option<BlockId>

    /** Block ids come from one counter. */
    ghost predicate Valid()
      reads this
    {
      Below(blocks, nextBlock)
    }

    constructor (unions: seq<UnionDef>)
      ensures Valid() && this.unions == unions && blocks == [] && nextBlock == 0 && currentBlock == None
    {
      this.unions := unions;
      blocks, nextBlock, currentBlock := [], 0, None;
    }

    method FreshBlock() returns (id: BlockId)
      requires Valid()
      modifies this`nextBlock
      ensures Valid() && id == old(nextBlock) && nextBlock == old(nextBlock) + 1
    {
      id := nextBlock;
      nextBlock := nextBlock + 1;
    }

    method StartBlock(span: Span) returns (id: BlockId)
      requires Valid()
      modifies this`nextBlock, this`blocks, this`currentBlock
      ensures Valid() && id == old(nextBlock) && nextBlock == old(nextBlock) + 1 && currentBlock == Some(id)
      ensures blocks == old(blocks) + [HirBlock(id, [], Unreachable, span)]
    {
      id := FreshBlock();
      blocks := blocks + [HirBlock(id, [], Unreachable, span)];
      currentBlock := Some(id);
    }

    /** The union table is searched in its own order. */
    method FindVariant(name: string) returns (r: Option<nat>)
      ensures r == FindVariantIndex(unions, name)
    {
      if name == "Ok" {
        return Some(0);
      }
      if name == "Err" {
        return Some(1);
      }
      for u := 0 to |unions|
        invariant FindInUnions(unions[u..], name) == FindInUnions(unions, name)
      {
        var variants := unions[u].variants;
        assert unions[u..][0] == unions[u] && unions[u..][1..] == unions[u+1..];
        for index := 0 to |variants|
          invariant name !in variants[..index]
        {
          if variants[index] == name {
            FirstIndex(variants, name, index);
            return Some(index);
          }
        }
        assert variants[..|variants|] == variants;
      }
      r := None;
    }

    method CompilePatterns(arms: seq<Pattern>, armBlocks: seq<BlockId>, fallback: BlockId, unreachable: BlockId)
      returns (tree: DecisionNode)
      requires |armBlocks| == |arms|
      ensures tree == Compile(unions, arms, armBlocks, fallback, unreachable)
      decreases |arms|
    {
      hide Label;
      if arms == [] {
        return Leaf(fallback);
      }
      var targets: seq<Case> := [];
      var catchAll: Option<BlockId> := None;
      var i := 0;
      while i < |arms| && catchAll.None?
        invariant 0 <= i <= |arms|
        invariant catchAll.None? ==>
                    CompileRest(unions, arms[i..], armBlocks[i..], targets, fallback, unreachable) ==
                    Compile(unions, arms, armBlocks, fallback, unreachable)
        invariant catchAll.Some? ==>
                    Finish(targets, catchAll.value) == Compile(unions, arms, armBlocks, fallback, unreachable)
        decreases |arms| - i, catchAll.None?
      {
        var block := armBlocks[i];
        assert arms[i..][0] == arms[i] && arms[i..][1..] == arms[i+1..];
        assert armBlocks[i..][0] == block && armBlocks[i..][1..] == armBlocks[i+1..];
        match arms[i] {
          case Lit(e) =>
            LabelOfLit(unions, e);
            var key := ExtractConstU64(e);
            if key.Some? {
              targets := targets + [CaseFor(key.value, block)];
            }
          case Variant(name, bindings) =>
            LabelOfVariant(unions, name, bindings);
            var key := FindVariant(name);
            if key.Some? {
              targets := targets + [CaseFor(key.value, block)];
            }
          case Wildcard => catchAll := Some(block);
          case Bind(_) => catchAll := Some(block);
          case Cond(guard) =>
            LabelOfCond(unions, guard);
            if guard.Some? {
              var elseBranch := Leaf(fallback);
              if i + 1 < |arms| {
                elseBranch := CompilePatterns(arms[i+1..], armBlocks[i+1..], fallback, unreachable);
              }
              return Guard(guard.value, Leaf(block), elseBranch);
            }
        }
        if catchAll.None? {
          i := i + 1;
        }
      }
      var otherwise := if catchAll.Some? then catchAll.value else unreachable;
      tree := if targets == [] then Leaf(otherwise) else SwitchNode(targets, Leaf(otherwise));
    }

    /** Sets the terminator of the block with the given id, found by search: that completes `laid`. */
    method SetTerminator(id: BlockId, t: HirTerminator, ghost laid: Laid, ghost before: seq<HirBlock>)
      requires Valid() && Pending(laid, t, before, id, blocks, nextBlock)
      modifies this`blocks
      ensures Valid() && Laying(laid, before, id, id, blocks, nextBlock)
    {
      PlaceholderFilled(laid, t, before, id, blocks, nextBlock);
      hide Numbered;
      var list := blocks;
      ghost var at := |before|;
      var i := 0;
      while i < |list| && list[i].id != id
        invariant 0 <= i <= at
      {
        i := i + 1;
      }
      assert i == at;
      FillKeepsBound(list, i, t, nextBlock);
      blocks := list[i := list[i].(terminator := t)];
    }

    /** Appends the blocks of the tree; everything that was there stays as it was. */
    method Materialize(t: DecisionNode, discr: HirOperand, span: Span) returns (entry: BlockId)
      requires Valid()
      modifies this`nextBlock, this`blocks, this`currentBlock
      ensures Valid() &&
              Laying(LayOut(t, old(nextBlock), discr, span), old(blocks), old(nextBlock), entry, blocks, nextBlock)
      ensures Newest(old(nextBlock), old(currentBlock), nextBlock, currentBlock)
      decreases t, 1
    {
      match t {
        case Leaf(block) => entry := block;
        case SwitchNode(_, _) =>
          hide *;
          entry := MaterializeSwitch(t, discr, span);
        case Guard(_, _, _) =>
          hide *;
          entry := MaterializeGuard(t, discr, span);
      }
    }

    method MaterializeSwitch(t: DecisionNode, discr: HirOperand, span: Span) returns (entry: BlockId)
      requires Valid() && t.SwitchNode?
      modifies this`nextBlock, this`blocks, this`currentBlock
      ensures Valid() &&
              Laying(LayOut(t, old(nextBlock), discr, span), old(blocks), old(nextBlock), entry, blocks, nextBlock)
      ensures Newest(old(nextBlock), old(currentBlock), nextBlock, currentBlock)
      decreases t, 0
    {
      ghost var before, next := blocks, nextBlock;
      assert Below(before, next);
      hide *;
      assert t.otherwise < t && forall c | c in t.targets :: c.node < t;
      entry := StartBlock(span);
      ghost var started := blocks;
      NewestStart(next, old(currentBlock));
      var hirTargets := MaterializeCases(t, t.targets, discr, span);
      ghost var middle, nextMiddle, current := blocks, nextBlock, currentBlock;
      NewestTrans(next, old(currentBlock), next + 1, Some(next), nextMiddle, current);
      var otherwise := Materialize(t.otherwise, discr, span);
      NewestTrans(next, old(currentBlock), nextMiddle, current, nextBlock, currentBlock);
      SwitchPending(t, before, next, discr, span, started, hirTargets, middle, nextMiddle, otherwise, blocks,
          nextBlock);
      SetTerminator(entry, Switch(discr, hirTargets, otherwise), LayOut(t, next, discr, span), before);
    }

    method MaterializeGuard(t: DecisionNode, discr: HirOperand, span: Span) returns (entry: BlockId)
      requires Valid() && t.Guard?
      modifies this`nextBlock, this`blocks, this`currentBlock
      ensures Valid() &&
              Laying(LayOut(t, old(nextBlock), discr, span), old(blocks), old(nextBlock), entry, blocks, nextBlock)
      ensures Newest(old(nextBlock), old(currentBlock), nextBlock, currentBlock)
      decreases t, 0
    {
      ghost var before, next := blocks, nextBlock;
      assert Below(before, next);
      hide *;
      assert t.thenBranch < t && t.elseBranch < t;
      entry := StartBlock(span);
      ghost var started := blocks;
      NewestStart(next, old(currentBlock));
      var yes := Materialize(t.thenBranch, discr, span);
      ghost var middle, nextMiddle, current := blocks, nextBlock, currentBlock;
      NewestTrans(next, old(currentBlock), next + 1, Some(next), nextMiddle, current);
      var no := Materialize(t.elseBranch, discr, span);
      NewestTrans(next, old(currentBlock), nextMiddle, current, nextBlock, currentBlock);
      GuardPending(t, before, next, discr, span, started, yes, middle, nextMiddle, no, blocks, nextBlock);
      SetTerminator(entry, Switch(t.condition, [(1, yes)], no), LayOut(t, next, discr, span), before);
    }

    method MaterializeCases(ghost parent: DecisionNode, targets: seq<Case>, discr: HirOperand, span: Span)
      returns (hirTargets: seq<(nat, BlockId)>)
      requires Valid() && forall c | c in targets :: c.node < parent
      modifies this`nextBlock, this`blocks, this`currentBlock
      ensures var laid := LayOutCases(parent, targets, old(nextBlock), discr, span);
              Valid() && hirTargets == laid.targets
              && GrownBy(old(blocks), laid.blocks, blocks) && nextBlock == old(nextBlock) + |laid.blocks|
      ensures Newest(old(nextBlock), old(currentBlock), nextBlock, currentBlock)
      decreases parent, 0, |targets|
    {
      hide *;
      ghost var before, next := blocks, nextBlock;
      hirTargets := [];
      NoCases(parent, next, discr, span, before);
      NewestStart(next, currentBlock);
      assert targets[..0] == [];
      for i := 0 to |targets|
        invariant Valid()
        invariant var laid := LayOutCases(parent, targets[..i], next, discr, span);
                  hirTargets == laid.targets
                  && GrownBy(before, laid.blocks, blocks) && nextBlock == next + |laid.blocks|
        invariant Newest(next, old(currentBlock), nextBlock, currentBlock)
      {
        ghost var middle, nextMiddle, current := blocks, nextBlock, currentBlock;
        assert targets[i] in targets;
        var block := Materialize(targets[i].node, discr, span);
        NewestTrans(next, old(currentBlock), nextMiddle, current, nextBlock, currentBlock);
        OneMoreCase(parent, targets, i, next, discr, span, before, middle, block, blocks, nextBlock);
        hirTargets := hirTargets + [(targets[i].key, block)];
      }
      assert targets[..|targets|] == targets;
    }
  }

  // ----- How the block list grows -----

  ghost predicate GrownBy(before: seq<HirBlock>, added: seq<HirBlock>, after: seq<HirBlock>)
  {
    after == before + added
  }

  /** The current block is the one that was started last, or what it was if none has been. */
  ghost predicate Newest(next: nat, current: Option<BlockId>, nextAfter: nat, currentAfter: Option<BlockId>)
  {
    next <= nextAfter && currentAfter == if nextAfter == next then current else Some(nextAfter - 1)
  }

  lemma {:induction false} NewestTrans(
      a: nat, x: Option<BlockId>, b: nat, y: Option<BlockId>, c: nat, z: Option<BlockId>)
    requires Newest(a, x, b, y) && Newest(b, y, c, z)
    ensures Newest(a, x, c, z)
  {
  }

  lemma {:induction false} NewestStart(next: nat, current: Option<BlockId>)
    ensures Newest(next, current, next, current) && Newest(next, current, next + 1, Some(next))
  {
  }

  ghost predicate Below(blocks: seq<HirBlock>, id: BlockId)
  {
    forall b | b in blocks :: b.id < id
  }

  /** The blocks of `laid` have been appended, under ids taken from the counter. */
  ghost predicate Laying(
    laid: Laid, before: seq<HirBlock>, next: nat, entry: BlockId, after: seq<HirBlock>, nextAfter: nat)
  {
    entry == laid.entry && GrownBy(before, laid.blocks, after) && nextAfter == next + |laid.blocks|
  }

  /** The same but for the first of these blocks, which still lacks its terminator `t`. */
  ghost predicate Pending(
    laid: Laid, t: HirTerminator, before: seq<HirBlock>, next: nat, after: seq<HirBlock>, nextAfter: nat)
  {
    && laid.entry == next && Below(before, next) && Numbered(laid.blocks, next)
    && laid.blocks != [] && laid.blocks[0].terminator == t
    && after == before + laid.blocks[0 := laid.blocks[0].(terminator := Unreachable)]
    && nextAfter == next + |laid.blocks|
  }

  lemma {:induction false} SwitchFills(
      id: BlockId, discr: HirOperand, targets: seq<(nat, BlockId)>, otherwise: BlockId, span: Span)
    ensures SwitchBlock(id, discr, targets, otherwise, span) ==
            HirBlock(id, [], Unreachable, span).(terminator := Switch(discr, targets, otherwise))
  {
  }

  lemma {:induction false} SwitchPending(
      t: DecisionNode, before: seq<HirBlock>, next: nat, discr: HirOperand, span: Span, started: seq<HirBlock>,
      hirTargets: seq<(nat, BlockId)>, middle: seq<HirBlock>, nextMiddle: nat,
      otherwise: BlockId, after: seq<HirBlock>, nextAfter: nat)
    requires t.SwitchNode? && Below(before, next) && started == before + [HirBlock(next, [], Unreachable, span)]
    requires var cases := LayOutCases(t, t.targets, next + 1, discr, span);
             hirTargets == cases.targets && GrownBy(started, cases.blocks, middle) &&
                 nextMiddle == next + 1 + |cases.blocks|
    requires Laying(LayOut(t.otherwise, nextMiddle, discr, span), middle, nextMiddle, otherwise, after, nextAfter)
    ensures Pending(LayOut(t, next, discr, span), Switch(discr, hirTargets, otherwise), before, next, after, nextAfter)
  {
    LayOutSwitch(t, next, discr, span);
    LayOutNumbered(t, next, discr, span);
    var xs := LayOutCases(t, t.targets, next + 1, discr, span).blocks;
    var ys := LayOut(t.otherwise, nextMiddle, discr, span).blocks;
    var filled := SwitchBlock(next, discr, hirTargets, otherwise, span);
    hide LayOut, LayOutCases, Numbered, Below;
    Refill(before, filled, xs, ys);
  }

  lemma {:induction false} GuardPending(
      t: DecisionNode, before: seq<HirBlock>, next: nat, discr: HirOperand, span: Span, started: seq<HirBlock>,
      yes: BlockId, middle: seq<HirBlock>, nextMiddle: nat, no: BlockId, after: seq<HirBlock>, nextAfter: nat)
    requires t.Guard? && Below(before, next) && started == before + [HirBlock(next, [], Unreachable, span)]
    requires Laying(LayOut(t.thenBranch, next + 1, discr, span), started, next + 1, yes, middle, nextMiddle)
    requires Laying(LayOut(t.elseBranch, nextMiddle, discr, span), middle, nextMiddle, no, after, nextAfter)
    ensures Pending(LayOut(t, next, discr, span), Switch(t.condition, [(1, yes)], no), before, next, after, nextAfter)
  {
    LayOutGuard(t, next, discr, span);
    LayOutNumbered(t, next, discr, span);
    var xs := LayOut(t.thenBranch, next + 1, discr, span).blocks;
    var ys := LayOut(t.elseBranch, nextMiddle, discr, span).blocks;
    var filled := SwitchBlock(next, t.condition, [(1, yes)], no, span);
    hide LayOut, Numbered, Below;
    Refill(before, filled, xs, ys);
  }

  lemma {:induction false} Refill(before: seq<HirBlock>, filled: HirBlock, xs: seq<HirBlock>, ys: seq<HirBlock>)
    ensures var open := filled.(terminator := Unreachable);
            before + [open] + xs + ys == before + ([filled] + xs + ys)[0 := open]
  {
    var open := filled.(terminator := Unreachable);
    assert ([filled] + xs + ys)[0 := open] == [open] + xs + ys;
  }

  lemma {:induction false} NoCases(
      parent: DecisionNode, next: nat, discr: HirOperand, span: Span, before: seq<HirBlock>)
    ensures LayOutCases(parent, [], next, discr, span) == LaidCases([], [])
    ensures GrownBy(before, [], before)
  {
  }

  lemma {:induction false} OneMoreCase(
      parent: DecisionNode, targets: seq<Case>, i: nat, next: nat, discr: HirOperand, span: Span,
      before: seq<HirBlock>, middle: seq<HirBlock>, entry: BlockId, after: seq<HirBlock>, nextAfter: nat)
    requires i < |targets| && forall c | c in targets :: c.node < parent
    requires var done := LayOutCases(parent, targets[..i], next, discr, span);
             && GrownBy(before, done.blocks, middle)
             && Laying(LayOut(targets[i].node, next + |done.blocks|, discr, span), middle, next + |done.blocks|,
                       entry, after, nextAfter)
    ensures var done := LayOutCases(parent, targets[..i], next, discr, span);
            var more := LayOutCases(parent, targets[..i+1], next, discr, span);
            && more.targets == done.targets + [(targets[i].key, entry)]
            && GrownBy(before, more.blocks, after) && nextAfter == next + |more.blocks|
  {
    hide LayOut, Numbered;
    assert targets[..i+1][..i] == targets[..i];
  }

  lemma {:induction false} LayOutSwitch(t: DecisionNode, next: nat, discr: HirOperand, span: Span)
    requires t.SwitchNode?
    ensures var cases := LayOutCases(t, t.targets, next + 1, discr, span);
            var last := LayOut(t.otherwise, next + 1 + |cases.blocks|, discr, span);
            LayOut(t, next, discr, span) ==
            Laid(next, [SwitchBlock(next, discr, cases.targets, last.entry, span)] + cases.blocks + last.blocks)
  {
    hide LayOutCases;
  }

  lemma {:induction false} LayOutGuard(t: DecisionNode, next: nat, discr: HirOperand, span: Span)
    requires t.Guard?
    ensures var y := LayOut(t.thenBranch, next + 1, discr, span);
            var n := LayOut(t.elseBranch, next + 1 + |y.blocks|, discr, span);
            LayOut(t, next, discr, span) ==
            Laid(next, [SwitchBlock(next, t.condition, [(1, y.entry)], n.entry, span)] + y.blocks + n.blocks)
  {
  }

  /** The blocks of a tree carry consecutive ids. */
  lemma {:induction false} LayOutNumbered(t: DecisionNode, next: nat, discr: HirOperand, span: Span)
    ensures Numbered(LayOut(t, next, discr, span).blocks, next)
    decreases t
  {
    hide *;
    match t {
      case Leaf(_) => LeafLaid(t, next, discr, span);
      case SwitchNode(targets, otherwise) =>
        var cases := LayOutCases(t, targets, next + 1, discr, span);
        var last := LayOut(otherwise, next + 1 + |cases.blocks|, discr, span);
        var first := SwitchBlock(next, discr, cases.targets, last.entry, span);
        LayOutSwitch(t, next, discr, span);
        CasesNumbered(t, targets, next + 1, discr, span);
        LayOutNumbered(otherwise, next + 1 + |cases.blocks|, discr, span);
        SwitchFills(next, discr, cases.targets, last.entry, span);
        NumberedJoin(first, cases.blocks, last.blocks, next);
      case Guard(condition, yes, no) =>
        var y := LayOut(yes, next + 1, discr, span);
        var n := LayOut(no, next + 1 + |y.blocks|, discr, span);
        var first := SwitchBlock(next, condition, [(1, y.entry)], n.entry, span);
        LayOutGuard(t, next, discr, span);
        LayOutNumbered(yes, next + 1, discr, span);
        LayOutNumbered(no, next + 1 + |y.blocks|, discr, span);
        SwitchFills(next, condition, [(1, y.entry)], n.entry, span);
        NumberedJoin(first, y.blocks, n.blocks, next);
    }
  }

  lemma {:induction false} CasesNumbered(
      parent: DecisionNode, targets: seq<Case>, next: nat, discr: HirOperand, span: Span)
    requires forall c | c in targets :: c.node < parent
    ensures Numbered(LayOutCases(parent, targets, next, discr, span).blocks, next)
    decreases parent, |targets|
  {
    hide LayOut;
    if targets != [] {
      var c := targets[|targets|-1];
      var before := LayOutCases(parent, targets[..|targets|-1], next, discr, span);
      CasesNumbered(parent, targets[..|targets|-1], next, discr, span);
      LayOutNumbered(c.node, next + |before.blocks|, discr, span);
    }
  }

  lemma {:induction false} LeafLaid(t: DecisionNode, next: nat, discr: HirOperand, span: Span)
    requires t.Leaf?
    ensures LayOut(t, next, discr, span) == Laid(t.block, []) && Numbered([], next)
  {
  }

  lemma {:induction false} NumberedJoin(first: HirBlock, xs: seq<HirBlock>, ys: seq<HirBlock>, next: nat)
    requires first.id == next && Numbered(xs, next + 1) && Numbered(ys, next + 1 + |xs|)
    ensures Numbered([first] + xs + ys, next)
  {
    var all := [first] + xs + ys;
    forall k | 0 <= k < |all| ensures all[k].id == next + k {
      assert all[k] == if k == 0 then first else if k < 1 + |xs| then xs[k-1] else ys[k-1-|xs|];
    }
  }

  lemma {:induction false} FillKeepsBound(list: seq<HirBlock>, i: nat, t: HirTerminator, next: nat)
    requires i < |list| && Below(list, next)
    ensures Below(list[i := list[i].(terminator := t)], next)
  {
  }

  /** Ids from the counter are fresh, so the placeholder is the only block with its id, and setting its
      terminator touches nothing else. */
  lemma {:induction false} PlaceholderFilled(
      laid: Laid, t: HirTerminator, before: seq<HirBlock>, next: nat, after: seq<HirBlock>, nextAfter: nat)
    requires Pending(laid, t, before, next, after, nextAfter)
    ensures |before| < |after| && after[|before|].id == next
    ensures forall k | 0 <= k < |before| :: after[k].id != next
    ensures after[|before| := after[|before|].(terminator := t)] == before + laid.blocks
  {
    forall k | 0 <= k < |before| ensures after[k].id != next {
      assert after[k] == before[k];
      assert before[k] in before;
    }
  }

  lemma {:induction false} FirstIndex(names: seq<string>, name: string, i: nat)
    requires i < |names| && names[i] == name && name !in names[..i]
    ensures name in names && IndexOf(names, name) == i
  {
    if i > 0 {
      assert names[0] in names[..i];
      assert names[..i][1..] == names[1..][..i-1];
      FirstIndex(names[1..], name, i - 1);
    }
  }

  lemma {:induction false} LabelOfLit(unions: seq<UnionDef>, e: Literal)
    ensures Label(unions, Lit(e)) == ExtractConstU64(e)
  {
  }

  lemma {:induction false} LabelOfVariant(unions: seq<UnionDef>, name: string, bindings: seq<string>)
    ensures Label(unions, Variant(name, bindings)) == FindVariantIndex(unions, name)
  {
  }

  lemma {:induction false} LabelOfCond(unions: seq<UnionDef>, guard: Option<HirOperand>)
    ensures Label(unions, Cond(guard)) == None
  {
  }

  // ----- Running the laid-out tree -----

  /** What a switch compares when it branches on `o`. */
  function KeyOf(o: HirOperand, store: Store): Eval<int>
  {
    var v :- EvalOperand(o, store);
    SwitchKey(v)
  }

  /** Every guard of the tree evaluates, to what `val` says. */
  ghost predicate GuardsEvaluate(t: DecisionNode, store: Store, val: Valuation)
  {
    match t
    case Leaf(_) => true
    case SwitchNode(targets, otherwise) =>
      (forall c | c in targets :: GuardsEvaluate(c.node, store, val)) && GuardsEvaluate(otherwise, store, val)
    case Guard(condition, yes, no) =>
      KeyOf(condition, store) == Val(val(condition)) && GuardsEvaluate(yes, store, val) &&
          GuardsEvaluate(no, store, val)
  }

  /** Some branch depends on the scrutinee. */
  predicate Switches(t: DecisionNode)
  {
    match t
    case Leaf(_) => false
    case SwitchNode(_, _) => true
    case Guard(_, yes, no) => Switches(yes) || Switches(no)
  }

  ghost predicate Present(c: Cfg, blocks: seq<HirBlock>)
  {
    forall b | b in blocks :: FindBlock(c.blocks, b.id) == Some(b)
  }

  /** Running from `from` is running from `to`, `k` blocks later, for however long. */
  ghost predicate LeadsTo(env: Env, c: Cfg, from: BlockId, to: BlockId, st: State, k: nat)
  {
    forall n: nat :: Run(env, c, from, st, n + k) == Run(env, c, to, st, n)
  }

  lemma {:induction false} SwitchJumps(
      env: Env, c: Cfg, id: BlockId, discr: HirOperand, targets: seq<(nat, BlockId)>, otherwise: BlockId,
      span: Span, st: State, key: int)
    requires FindBlock(c.blocks, id) == Some(SwitchBlock(id, discr, targets, otherwise, span))
    requires KeyOf(discr, st.store) == Val(key)
    ensures LeadsTo(env, c, id, SelectTarget(targets, otherwise, key), st, 1)
  {
    hide FindBlock, SelectTarget, EvalOperand, Run;
    var to := SelectTarget(targets, otherwise, key);
    var b := SwitchBlock(id, discr, targets, otherwise, span);
    assert ExecBlock(env, b, st) == Val(After(st, Jump(to)));
    forall n: nat ensures Run(env, c, id, st, n + 1) == Run(env, c, to, st, n) {
      RunStep(env, c, id, st, n + 1);
    }
  }

  lemma {:induction false} Onward(env: Env, c: Cfg, a: BlockId, b: BlockId, d: BlockId, st: State, k: nat)
    requires LeadsTo(env, c, a, b, st, 1) && LeadsTo(env, c, b, d, st, k)
    ensures LeadsTo(env, c, a, d, st, k + 1)
  {
    hide Run;
    forall n: nat ensures Run(env, c, a, st, n + (k + 1)) == Run(env, c, d, st, n) {
      assert Run(env, c, a, st, (n + k) + 1) == Run(env, c, b, st, n + k);
    }
  }

  /** Where the blocks of one case are, within those of all cases. */
  lemma {:induction false} CaseAt(
      parent: DecisionNode, targets: seq<Case>, i: nat, next: nat, discr: HirOperand, span: Span) returns (at: nat)
    requires i < |targets| && forall c | c in targets :: c.node < parent
    ensures var all := LayOutCases(parent, targets, next, discr, span);
            var one := LayOut(targets[i].node, at, discr, span);
            && |all.targets| == |targets| && all.targets[i] == (targets[i].key, one.entry)
            && |one.blocks| <= |all.blocks| && forall b | b in one.blocks :: b in all.blocks
    decreases |targets|
  {
    hide LayOut;
    CasesLength(parent, targets, next, discr, span);
    var front := targets[..|targets|-1];
    if i < |front| {
      at := CaseAt(parent, front, i, next, discr, span);
    } else {
      CasesLength(parent, front, next, discr, span);
      at := next + |LayOutCases(parent, front, next, discr, span).blocks|;
    }
  }

  lemma {:induction false} CasesLength(
      parent: DecisionNode, targets: seq<Case>, next: nat, discr: HirOperand, span: Span)
    requires forall c | c in targets :: c.node < parent
    ensures |LayOutCases(parent, targets, next, discr, span).targets| == |targets|
    decreases |targets|
  {
    hide LayOut;
    if targets != [] {
      CasesLength(parent, targets[..|targets|-1], next, discr, span);
    }
  }

  /** The switch and the tree pick the same case. */
  lemma {:induction false} PicksCase(targets: seq<Case>, hirTargets: seq<(nat, BlockId)>, otherwise: BlockId, v: int)
    requires |hirTargets| == |targets| && forall i | 0 <= i < |targets| :: hirTargets[i].0 == targets[i].key
    ensures var i := FindCase(targets, v);
            SelectTarget(hirTargets, otherwise, v) == if i < |targets| then hirTargets[i].1 else otherwise
  {
    if targets != [] && targets[0].key != v {
      PicksCase(targets[1..], hirTargets[1..], otherwise, v);
    }
  }

  lemma {:induction false} KeysKept(parent: DecisionNode, targets: seq<Case>, next: nat, discr: HirOperand, span: Span)
    requires forall c | c in targets :: c.node < parent
    ensures var all := LayOutCases(parent, targets, next, discr, span).targets;
            |all| == |targets| && forall i | 0 <= i < |targets| :: all[i].0 == targets[i].key
  {
    CasesLength(parent, targets, next, discr, span);
    forall i | 0 <= i < |targets|
      ensures LayOutCases(parent, targets, next, discr, span).targets[i].0 == targets[i].key
    {
      var at := CaseAt(parent, targets, i, next, discr, span);
    }
  }

  /** Entering the blocks of a tree leads to the block the tree selects: the laid-out form means what
      the tree means. It takes at most one step for each block, and changes no local and no trace. */
  lemma {:induction false} BlocksFollowTree(
      env: Env, c: Cfg, t: DecisionNode, next: nat, discr: HirOperand, span: Span, st: State, v: int, val: Valuation)
    returns (k: nat)
    requires Present(c, LayOut(t, next, discr, span).blocks)
    requires (Switches(t) ==> KeyOf(discr, st.store) == Val(v)) && GuardsEvaluate(t, st.store, val)
    ensures k <= |LayOut(t, next, discr, span).blocks|
    ensures LeadsTo(env, c, LayOut(t, next, discr, span).entry, Select(t, v, val), st, k)
    decreases t
  {
    match t {
      case Leaf(_) =>
        hide FindBlock, KeyOf, Run;
        k := 0;
      case SwitchNode(_, _) => k := SwitchFollowsTree(env, c, t, next, discr, span, st, v, val);
      case Guard(_, _, _) => k := GuardFollowsTree(env, c, t, next, discr, span, st, v, val);
    }
  }

  lemma {:induction false} SwitchFollowsTree(
      env: Env, c: Cfg, t: DecisionNode, next: nat, discr: HirOperand, span: Span, st: State, v: int, val: Valuation)
    returns (k: nat)
    requires t.SwitchNode? && Present(c, LayOut(t, next, discr, span).blocks)
    requires (Switches(t) ==> KeyOf(discr, st.store) == Val(v)) && GuardsEvaluate(t, st.store, val)
    ensures k <= |LayOut(t, next, discr, span).blocks|
    ensures LeadsTo(env, c, LayOut(t, next, discr, span).entry, Select(t, v, val), st, k)
    decreases t, 0
  {
    hide FindBlock, KeyOf, Run, LeadsTo, LayOut, LayOutCases, SelectTarget, FindCase;
    LayOutSwitch(t, next, discr, span);
    var all := LayOut(t, next, discr, span).blocks;
    var cases := LayOutCases(t, t.targets, next + 1, discr, span);
    var at := next + 1 + |cases.blocks|;
    var last := LayOut(t.otherwise, at, discr, span);
    KeysKept(t, t.targets, next + 1, discr, span);
    PicksCase(t.targets, cases.targets, last.entry, v);
    assert all[0] in all;
    SwitchJumps(env, c, next, discr, cases.targets, last.entry, span, st, v);
    var i := FindCase(t.targets, v);
    var node := t.otherwise;
    if i < |t.targets| {
      node := t.targets[i].node;
      at := CaseAt(t, t.targets, i, next + 1, discr, span);
    }
    var inner := BlocksFollowTree(env, c, node, at, discr, span, st, v, val);
    Onward(env, c, next, LayOut(node, at, discr, span).entry, Select(t, v, val), st, inner);
    k := inner + 1;
  }

  lemma {:induction false} GuardFollowsTree(
      env: Env, c: Cfg, t: DecisionNode, next: nat, discr: HirOperand, span: Span, st: State, v: int, val: Valuation)
    returns (k: nat)
    requires t.Guard? && Present(c, LayOut(t, next, discr, span).blocks)
    requires (Switches(t) ==> KeyOf(discr, st.store) == Val(v)) && GuardsEvaluate(t, st.store, val)
    ensures k <= |LayOut(t, next, discr, span).blocks|
    ensures LeadsTo(env, c, LayOut(t, next, discr, span).entry, Select(t, v, val), st, k)
    decreases t, 0
  {
    hide FindBlock, KeyOf, Run, LeadsTo, LayOut;
    LayOutGuard(t, next, discr, span);
    var all := LayOut(t, next, discr, span).blocks;
    var y := LayOut(t.thenBranch, next + 1, discr, span);
    var at := next + 1 + |y.blocks|;
    var n := LayOut(t.elseBranch, at, discr, span);
    assert all[0] in all;
    var holds := val(t.condition) == 1;
    SwitchJumps(env, c, next, t.condition, [(1, y.entry)], n.entry, span, st, val(t.condition));
    var node := if holds then t.thenBranch else t.elseBranch;
    var start := if holds then next + 1 else at;
    var inner := BlocksFollowTree(env, c, node, start, discr, span, st, v, val);
    Onward(env, c, next, LayOut(node, start, discr, span).entry, Select(t, v, val), st, inner);
    k := inner + 1;
  }

  // ----- Arms to blocks -----

  lemma {:induction false} CompiledGuardsEvaluate(
      unions: seq<UnionDef>, arms: seq<Pattern>, blocks: seq<BlockId>, targets: seq<Case>,
      fallback: BlockId, unreachable: BlockId, store: Store, val: Valuation)
    requires |blocks| == |arms| && forall c | c in targets :: c.node.Leaf?
    requires forall p | p in arms && Guarded(p) :: KeyOf(p.guard.value, store) == Val(val(p.guard.value))
    ensures GuardsEvaluate(CompileRest(unions, arms, blocks, targets, fallback, unreachable), store, val)
    decreases |arms|
  {
    hide Label, KeyOf;
    if arms == [] || CatchAll(arms[0]) {
    } else if Guarded(arms[0]) {
      if |arms| > 1 {
        CompiledGuardsEvaluate(unions, arms[1..], blocks[1..], [], fallback, unreachable, store, val);
      }
    } else {
      var key := Label(unions, arms[0]);
      var more := if key.Some? then targets + [CaseFor(key.value, blocks[0])] else targets;
      CompiledGuardsEvaluate(unions, arms[1..], blocks[1..], more, fallback, unreachable, store, val);
    }
  }

  lemma {:induction false} SwitchesOnLabels(
      unions: seq<UnionDef>, arms: seq<Pattern>, blocks: seq<BlockId>, targets: seq<Case>,
      fallback: BlockId, unreachable: BlockId)
    requires |blocks| == |arms|
    requires Switches(CompileRest(unions, arms, blocks, targets, fallback, unreachable))
    ensures targets != [] || exists p :: p in arms && Label(unions, p).Some?
    decreases |arms|
  {
    hide Label;
    if targets == [] && arms != [] && !CatchAll(arms[0]) {
      if Guarded(arms[0]) {
        SwitchesOnLabels(unions, arms[1..], blocks[1..], [], fallback, unreachable);
      } else {
        var key := Label(unions, arms[0]);
        var more := if key.Some? then [CaseFor(key.value, blocks[0])] else [];
        assert key.Some? ==> arms[0] in arms;
        assert [] + more == more;
        SwitchesOnLabels(unions, arms[1..], blocks[1..], more, fallback, unreachable);
      }
    }
  }

  /** Fresh ids keep ids unique, so the blocks of a tree can be found whatever was there before. */
  lemma {:induction false} FreshBlocksArePresent(
      t: DecisionNode, next: nat, discr: HirOperand, span: Span, before: seq<HirBlock>, locals: seq<HirLocal>,
      entry: BlockId)
    requires UniqueIds(before) && Below(before, next)
    ensures var added := LayOut(t, next, discr, span).blocks;
            && UniqueIds(before + added) && Below(before + added, next + |added|)
            && Present(Cfg(before + added, locals, entry), before + added)
  {
    LayOutNumbered(t, next, discr, span);
    var added := LayOut(t, next, discr, span).blocks;
    hide LayOut;
    var all := before + added;
    forall i, j | 0 <= i < j < |all| ensures all[i].id != all[j].id {
      if i < |before| <= j {
        assert before[i] in before;
      }
    }
    forall b | b in all ensures FindBlock(all, b.id) == Some(b) {
      var i :| 0 <= i < |all| && all[i] == b;
      FindUnique(all, i);
    }
  }

  /** Both steps together. Compile the arms, lay the tree out on top of any blocks with unique ids, and
      enter it: unless a labelled arm is dropped, control reaches the block of the first arm whose label
      is the key. */
  lemma {:induction false} BranchFollowsLabels(
      unions: seq<UnionDef>, arms: seq<Pattern>, armBlocks: seq<BlockId>, fallback: BlockId, unreachable: BlockId,
      discr: HirOperand, span: Span, before: seq<HirBlock>, next: nat, locals: seq<HirLocal>, start: BlockId,
      env: Env, st: State, v: int, val: Valuation) returns (k: nat)
    requires |armBlocks| == |arms| && !DropsTargets(unions, arms)
    requires UniqueIds(before) && Below(before, next)
    requires (exists p :: p in arms && Label(unions, p).Some?) ==> KeyOf(discr, st.store) == Val(v)
    requires forall p | p in arms && Guarded(p) :: KeyOf(p.guard.value, st.store) == Val(val(p.guard.value))
    ensures var tree := Compile(unions, arms, armBlocks, fallback, unreachable);
            var laid := LayOut(tree, next, discr, span);
            var c := Cfg(before + laid.blocks, locals, start);
            && k <= |laid.blocks| && UniqueIds(c.blocks)
            && LeadsTo(env, c, laid.entry, Expected(unions, arms, armBlocks, fallback, unreachable, v, val), st, k)
  {
    hide Label, KeyOf, DropsTargets, CompileRest, Expected, LayOut, LeadsTo, UniqueIds, Below, Select;
    var tree := Compile(unions, arms, armBlocks, fallback, unreachable);
    var laid := LayOut(tree, next, discr, span);
    var c := Cfg(before + laid.blocks, locals, start);
    CompiledTreeFollowsLabels(unions, arms, armBlocks, fallback, unreachable, v, val);
    if arms != [] {
      CompiledGuardsEvaluate(unions, arms, armBlocks, [], fallback, unreachable, st.store, val);
      if Switches(tree) {
        SwitchesOnLabels(unions, arms, armBlocks, [], fallback, unreachable);
      }
    }
    FreshBlocksArePresent(tree, next, discr, span, before, locals, start);
    k := BlocksFollowTree(env, c, tree, next, discr, span, st, v, val);
  }
}
