/** Compilation of pattern arms: from ordered arms to a decision tree, from the tree to blocks. */
module Pattern {
  import opened Wrappers
  import opened Hir
  import opened Decimal

  // ----- Arms -----

  datatype Literal =
    | IntLit(text: string)
    | BoolLit(b: bool)
    | FloatLit(text: string)
    | StrLit(text: string)
    | NilLit

  /** A pattern; the guard of a condition arm is the operand its expression was lowered to, if it
      could be lowered. */
  datatype Pattern =
    | Lit(literal: Literal)
    | Variant(name: string, bindings: seq<string>)
    | Bind(name: string)
    | Wildcard
    | Cond(guard: Option<HirOperand>)

  datatype UnionDef = UnionDef(variants: seq<string>)

  function ExtractConstU64(e: Literal): Option<nat>
  {
    match e
    case IntLit(s) => ParseU64(s)
    case BoolLit(b) => Some(if b then 1 else 0)
    case _ => None
  }

  /** The first position of a name, |names| if absent. */
  function IndexOf(names: seq<string>, name: string): (i: nat)
    ensures i <= |names| && (i < |names| ==> names[i] == name) && name !in names[..i]
    ensures i < |names| <==> name in names
  {
    if names == [] then 0 else if names[0] == name then 0 else
    var rest := IndexOf(names[1..], name);
    assert names[..1+rest] == [names[0]] + names[1..][..rest];
    1 + rest
  }

  /** The union table as a hash map yields it: in some order that stays the same while it is not
      changed. */
  function FindInUnions(unions: seq<UnionDef>, name: string): Option<nat>
  {
    if unions == [] then None
    else if name in unions[0].variants then Some(IndexOf(unions[0].variants, name))
    else FindInUnions(unions[1..], name)
  }

  function FindVariantIndex(unions: seq<UnionDef>, name: string): Option<nat>
  {
    if name == "Ok" then Some(0) else if name == "Err" then Some(1) else FindInUnions(unions, name)
  }

  /** The search finds a variant iff some union declares the name; when all unions that declare it
      agree on the position, the order of the table does not matter. */
  lemma {:induction false} FindInUnionsExact(unions: seq<UnionDef>, name: string)
    ensures FindInUnions(unions, name).Some? <==> exists u :: u in unions && name in u.variants
    ensures FindInUnions(unions, name).Some? ==>
              exists u :: u in unions && name in u.variants &&
                  FindInUnions(unions, name).value == IndexOf(u.variants, name)
  {
    if unions != [] && name !in unions[0].variants {
      FindInUnionsExact(unions[1..], name);
      assert forall u :: u in unions <==> u == unions[0] || u in unions[1..];
    }
  }

  lemma {:induction false} VariantIndexIgnoresOrder(xs: seq<UnionDef>, ys: seq<UnionDef>, name: string)
    requires forall u :: u in xs <==> u in ys
    requires forall u, w | u in xs && w in xs && name in u.variants && name in w.variants ::
               IndexOf(u.variants, name) == IndexOf(w.variants, name)
    ensures FindVariantIndex(xs, name) == FindVariantIndex(ys, name)
  {
    FindInUnionsExact(xs, name);
    FindInUnionsExact(ys, name);
  }

  /** The switch label of a literal or variant arm. */
  function Label(unions: seq<UnionDef>, p: Pattern): Option<nat>
  {
    match p
    case Lit(e) => ExtractConstU64(e)
    case Variant(name, _) => FindVariantIndex(unions, name)
    case _ => None
  }

  predicate CatchAll(p: Pattern) { p.Wildcard? || p.Bind? }

  predicate Guarded(p: Pattern) { p.Cond? && p.guard.Some? }

  // ----- Decision trees -----

  datatype Case = Case(key: nat, node: DecisionNode)

  datatype DecisionNode =
    | Leaf(block: BlockId)
    | SwitchNode(targets: seq<Case>, otherwise: DecisionNode)
    | Guard(condition: HirOperand, thenBranch: DecisionNode, elseBranch: DecisionNode)

  type Valuation = HirOperand -> int

  /** The first case for `v`, |targets| if there is none. */
  function FindCase(targets: seq<Case>, v: int): (i: nat)
    ensures i <= |targets| && (i < |targets| ==> targets[i].key == v)
    ensures forall j | 0 <= j < i :: targets[j].key != v
  {
    if targets == [] then 0 else if targets[0].key == v then 0 else 1 + FindCase(targets[1..], v)
  }

  /** The block a tree selects for scrutinee value `v`; a guard holds when its operand is 1. */
  function Select(t: DecisionNode, v: int, val: Valuation): BlockId
  {
    match t
    case Leaf(b) => b
    case SwitchNode(targets, otherwise) =>
      var i := FindCase(targets, v);
      if i < |targets| then Select(targets[i].node, v, val) else Select(otherwise, v, val)
    case Guard(c, yes, no) => if val(c) == 1 then Select(yes, v, val) else Select(no, v, val)
  }

  // ----- Arms to tree -----

  function CaseFor(key: nat, block: BlockId): Case { Case(key, Leaf(block)) }

  function Finish(targets: seq<Case>, last: BlockId): DecisionNode
  {
    if targets == [] then Leaf(last) else SwitchNode(targets, Leaf(last))
  }

  /** The tree for a non-empty list of arms of which `arms` are left and `targets` have been
      collected. An arm with a guard ends the loop at once, whatever has been collected. */
  function CompileRest(
    unions: seq<UnionDef>, arms: seq<Pattern>, blocks: seq<BlockId>, targets: seq<Case>,
    fallback: BlockId, unreachable: BlockId): DecisionNode
    requires |blocks| == |arms|
    decreases |arms|
  {
    if arms == [] then Finish(targets, unreachable)
    else if CatchAll(arms[0]) then Finish(targets, blocks[0])
    else if Guarded(arms[0]) then
      Guard(arms[0].guard.value, Leaf(blocks[0]),
            if |arms| == 1 then Leaf(fallback)
            else CompileRest(unions, arms[1..], blocks[1..], [], fallback, unreachable))
    else
      var key := Label(unions, arms[0]);
      CompileRest(unions, arms[1..], blocks[1..],
                  if key.Some? then targets + [CaseFor(key.value, blocks[0])] else targets,
                  fallback, unreachable)
  }

  function Compile(
    unions: seq<UnionDef>, arms: seq<Pattern>, blocks: seq<BlockId>,
    fallback: BlockId, unreachable: BlockId): DecisionNode
    requires |blocks| == |arms|
  {
    if arms == [] then Leaf(fallback) else CompileRest(unions, arms, blocks, [], fallback, unreachable)
  }

  // ----- First match -----

  predicate Matches(unions: seq<UnionDef>, p: Pattern, v: int, val: Valuation)
  {
    if CatchAll(p) then true
    else if Guarded(p) then val(p.guard.value) == 1
    else Label(unions, p).Some? && Label(unions, p).value == v
  }

  /** The first arm that matches, |arms| if none does. */
  function FirstMatch(unions: seq<UnionDef>, arms: seq<Pattern>, v: int, val: Valuation): (i: nat)
    ensures i <= |arms| && (i < |arms| ==> Matches(unions, arms[i], v, val))
    ensures forall j | 0 <= j < i :: !Matches(unions, arms[j], v, val)
  {
    if arms == [] then 0
    else if Matches(unions, arms[0], v, val) then 0
    else 1 + FirstMatch(unions, arms[1..], v, val)
  }

  /** Where control goes when no arm matches: on past the branch when there is no arm, or when the
      last arm is a condition; otherwise to the block that should never be entered. */
  function NoMatch(arms: seq<Pattern>, fallback: BlockId, unreachable: BlockId): BlockId
  {
    if arms == [] || Guarded(arms[|arms|-1]) then fallback else unreachable
  }

  function Expected(
    unions: seq<UnionDef>, arms: seq<Pattern>, blocks: seq<BlockId>,
    fallback: BlockId, unreachable: BlockId, v: int, val: Valuation): BlockId
    requires |blocks| == |arms|
  {
    var i := FirstMatch(unions, arms, v, val);
    if i < |arms| then blocks[i] else NoMatch(arms, fallback, unreachable)
  }

  /** A labelled arm stands before a condition, with no catch-all arm up to there. */
  ghost predicate DropsTargets(unions: seq<UnionDef>, arms: seq<Pattern>)
  {
    exists i, j :: DropsAt(unions, arms, i, j)
  }

  ghost predicate DropsAt(unions: seq<UnionDef>, arms: seq<Pattern>, i: int, j: int)
  {
    0 <= i < j < |arms| && Label(unions, arms[i]).Some? && Guarded(arms[j])
    && forall k | 0 <= k < j :: !CatchAll(arms[k])
  }

  /** The same, scanning once: `pending` says that a labelled arm has been collected. */
  predicate Loses(unions: seq<UnionDef>, arms: seq<Pattern>, pending: bool)
  {
    if arms == [] || CatchAll(arms[0]) then false
    else if Guarded(arms[0]) then pending || Loses(unions, arms[1..], false)
    else Loses(unions, arms[1..], pending || Label(unions, arms[0]).Some?)
  }

  /** A guarded arm is reached before any catch-all arm. */
  predicate ReachesGuard(arms: seq<Pattern>)
  {
    arms != [] && !CatchAll(arms[0]) && (Guarded(arms[0]) || ReachesGuard(arms[1..]))
  }

  // ----- First match survives, and exactly when -----

  lemma {:induction false} FindCaseAppend(targets: seq<Case>, c: Case, v: int)
    ensures var i := FindCase(targets, v);
            FindCase(targets + [c], v) == if i < |targets| then i else if c.key == v then |targets| else |targets| + 1
  {
    if targets == [] {
      assert targets + [c] == [c];
      assert [c][1..] == [];
    } else {
      assert (targets + [c])[1..] == targets[1..] + [c];
      FindCaseAppend(targets[1..], c, v);
    }
  }

  /** What is expected of the arms that are left when `targets` have been collected before them. */
  function ExpectedRest(
    unions: seq<UnionDef>, targets: seq<Case>, arms: seq<Pattern>, blocks: seq<BlockId>,
    fallback: BlockId, unreachable: BlockId, v: int, val: Valuation): BlockId
    requires |blocks| == |arms|
  {
    var i := FindCase(targets, v);
    if i < |targets| then Select(targets[i].node, v, val)
    else if arms == [] then unreachable
    else Expected(unions, arms, blocks, fallback, unreachable, v, val)
  }

  /** Collecting one more labelled arm expects the same block as having it in front of the rest. */
  lemma {:induction false} ExpectedCollect(
      unions: seq<UnionDef>, targets: seq<Case>, arms: seq<Pattern>, blocks: seq<BlockId>,
      fallback: BlockId, unreachable: BlockId, v: int, val: Valuation)
    requires |blocks| == |arms| && arms != [] && !CatchAll(arms[0]) && !Guarded(arms[0])
    ensures var key := Label(unions, arms[0]);
            ExpectedRest(unions, if key.Some? then targets + [CaseFor(key.value, blocks[0])] else targets,
                         arms[1..], blocks[1..], fallback, unreachable, v, val) ==
            ExpectedRest(unions, targets, arms, blocks, fallback, unreachable, v, val)
  {
    var key := Label(unions, arms[0]);
    if key.Some? {
      FindCaseAppend(targets, CaseFor(key.value, blocks[0]), v);
    }
  }

  lemma {:induction false} RestSelectsFirstMatch(
      unions: seq<UnionDef>, arms: seq<Pattern>, blocks: seq<BlockId>, targets: seq<Case>,
      fallback: BlockId, unreachable: BlockId, v: int, val: Valuation)
    requires |blocks| == |arms| && !Loses(unions, arms, targets != [])
    ensures Select(CompileRest(unions, arms, blocks, targets, fallback, unreachable), v, val) ==
            ExpectedRest(unions, targets, arms, blocks, fallback, unreachable, v, val)
    decreases |arms|
  {
    hide Label;
    if arms == [] || CatchAll(arms[0]) {
    } else if Guarded(arms[0]) {
      assert targets == [];
      if |arms| > 1 {
        RestSelectsFirstMatch(unions, arms[1..], blocks[1..], [], fallback, unreachable, v, val);
      }
    } else {
      var key := Label(unions, arms[0]);
      var more := if key.Some? then targets + [CaseFor(key.value, blocks[0])] else targets;
      RestSelectsFirstMatch(unions, arms[1..], blocks[1..], more, fallback, unreachable, v, val);
      ExpectedCollect(unions, targets, arms, blocks, fallback, unreachable, v, val);
    }
  }

  ghost predicate LeavesAvoid(targets: seq<Case>, blocks: seq<BlockId>, fallback: BlockId, unreachable: BlockId)
  {
    forall c | c in targets :: c.node.Leaf? && c.node.block !in blocks && c.node.block != fallback &&
        c.node.block != unreachable
  }

  ghost predicate DistinctBlocks(blocks: seq<BlockId>)
  {
    forall i, j | 0 <= i < j < |blocks| :: blocks[i] != blocks[j]
  }

  /** A compiled tree only leads to blocks it was given. */
  lemma {:induction false} SelectsGivenBlock(
      unions: seq<UnionDef>, arms: seq<Pattern>, blocks: seq<BlockId>, targets: seq<Case>,
      fallback: BlockId, unreachable: BlockId, v: int, val: Valuation)
    requires |blocks| == |arms| && forall c | c in targets :: c.node.Leaf?
    ensures var b := Select(CompileRest(unions, arms, blocks, targets, fallback, unreachable), v, val);
            b in blocks || b == fallback || b == unreachable || exists c :: c in targets && c.node.block == b
    decreases |arms|
  {
    hide Label;
    if arms == [] || CatchAll(arms[0]) {
      var i := FindCase(targets, v);
      assert i < |targets| ==> targets[i] in targets;
    } else if Guarded(arms[0]) {
      if |arms| > 1 {
        SelectsGivenBlock(unions, arms[1..], blocks[1..], [], fallback, unreachable, v, val);
      }
    } else {
      var key := Label(unions, arms[0]);
      var more := if key.Some? then targets + [CaseFor(key.value, blocks[0])] else targets;
      SelectsGivenBlock(unions, arms[1..], blocks[1..], more, fallback, unreachable, v, val);
    }
  }

  /** When targets are dropped, some scrutinee value is sent to the wrong block as soon as no guard
      holds. */
  lemma {:induction false} LostTargetShows(
      unions: seq<UnionDef>, arms: seq<Pattern>, blocks: seq<BlockId>, targets: seq<Case>,
      fallback: BlockId, unreachable: BlockId, val: Valuation) returns (v: int)
    requires |blocks| == |arms| && Loses(unions, arms, targets != [])
    requires LeavesAvoid(targets, blocks, fallback, unreachable) && DistinctBlocks(blocks)
    requires fallback !in blocks && unreachable !in blocks
    requires forall o :: val(o) != 1
    ensures Select(CompileRest(unions, arms, blocks, targets, fallback, unreachable), v, val) !=
            ExpectedRest(unions, targets, arms, blocks, fallback, unreachable, v, val)
    decreases |arms|
  {
    hide Label;
    if Guarded(arms[0]) {
      if targets != [] {
        v := targets[0].key;
        assert targets[0] in targets && FindCase(targets, v) == 0;
        if |arms| > 1 {
          SelectsGivenBlock(unions, arms[1..], blocks[1..], [], fallback, unreachable, v, val);
        }
      } else {
        v := LostTargetShows(unions, arms[1..], blocks[1..], [], fallback, unreachable, val);
      }
    } else {
      var key := Label(unions, arms[0]);
      var more := if key.Some? then targets + [CaseFor(key.value, blocks[0])] else targets;
      v := LostTargetShows(unions, arms[1..], blocks[1..], more, fallback, unreachable, val);
      ExpectedCollect(unions, targets, arms, blocks, fallback, unreachable, v, val);
    }
  }

  lemma {:induction false} ReachesGuardMeans(arms: seq<Pattern>)
    ensures ReachesGuard(arms) <==>
              exists j :: 0 <= j < |arms| && Guarded(arms[j]) && forall k | 0 <= k < j :: !CatchAll(arms[k])
  {
    if arms != [] && !CatchAll(arms[0]) && !Guarded(arms[0]) {
      var rest := arms[1..];
      ReachesGuardMeans(rest);
      if ReachesGuard(rest) {
        var j :| 0 <= j < |rest| && Guarded(rest[j]) && forall k | 0 <= k < j :: !CatchAll(rest[k]);
        assert Guarded(arms[j+1]) && forall k | 0 <= k < j + 1 :: !CatchAll(arms[k]);
      }
      if j :| 0 <= j < |arms| && Guarded(arms[j]) && forall k | 0 <= k < j :: !CatchAll(arms[k]) {
        assert Guarded(rest[j-1]);
        forall k | 0 <= k < j - 1 ensures !CatchAll(rest[k]) {
          assert !CatchAll(arms[k+1]);
        }
      }
    }
  }

  lemma {:induction false} DropsTail(unions: seq<UnionDef>, arms: seq<Pattern>)
    requires arms != [] && !CatchAll(arms[0])
    ensures DropsTargets(unions, arms) <==>
              DropsTargets(unions, arms[1..]) || (Label(unions, arms[0]).Some? && ReachesGuard(arms[1..]))
  {
    hide Label;
    var rest := arms[1..];
    ReachesGuardMeans(rest);
    if i, j :| DropsAt(unions, arms, i, j) {
      assert Guarded(rest[j-1]);
      forall k | 0 <= k < j - 1 ensures !CatchAll(rest[k]) {
        assert !CatchAll(arms[k+1]);
      }
      if i > 0 {
        assert DropsAt(unions, rest, i - 1, j - 1);
      }
    }
    if i, j :| DropsAt(unions, rest, i, j) {
      assert forall k | 0 <= k < j + 1 :: !CatchAll(arms[k]);
      assert DropsAt(unions, arms, i + 1, j + 1);
    }
    if Label(unions, arms[0]).Some? && ReachesGuard(rest) {
      var j :| 0 <= j < |rest| && Guarded(rest[j]) && forall k | 0 <= k < j :: !CatchAll(rest[k]);
      assert forall k | 0 <= k < j + 1 :: !CatchAll(arms[k]);
      assert DropsAt(unions, arms, 0, j + 1);
    }
  }

  lemma {:induction false} LosesIffDrops(unions: seq<UnionDef>, arms: seq<Pattern>, pending: bool)
    ensures Loses(unions, arms, pending) <==> DropsTargets(unions, arms) || (pending && ReachesGuard(arms))
  {
    hide Label, DropsTargets;
    if arms == [] {
      NoDropsInNothing(unions);
    } else if CatchAll(arms[0]) {
      CatchAllDropsNothing(unions, arms);
    } else {
      DropsTail(unions, arms);
      GuardHasNoLabel(unions, arms[0]);
      LosesIffDrops(unions, arms[1..], if Guarded(arms[0]) then false else pending || Label(unions, arms[0]).Some?);
    }
  }

  lemma {:induction false} NoDropsInNothing(unions: seq<UnionDef>)
    ensures !DropsTargets(unions, [])
  {
  }

  lemma {:induction false} CatchAllDropsNothing(unions: seq<UnionDef>, arms: seq<Pattern>)
    requires arms != [] && CatchAll(arms[0])
    ensures !DropsTargets(unions, arms)
  {
    hide Label;
  }

  lemma {:induction false} GuardHasNoLabel(unions: seq<UnionDef>, p: Pattern)
    ensures Guarded(p) ==> Label(unions, p).None?
  {
  }

  /** The first arm whose label is the key is selected whenever no labelled arm is dropped. */
  lemma {:induction false} CompiledTreeFollowsLabels(
      unions: seq<UnionDef>, arms: seq<Pattern>, blocks: seq<BlockId>,
      fallback: BlockId, unreachable: BlockId, v: int, val: Valuation)
    requires |blocks| == |arms| && !DropsTargets(unions, arms)
    ensures Select(Compile(unions, arms, blocks, fallback, unreachable), v, val) ==
            Expected(unions, arms, blocks, fallback, unreachable, v, val)
  {
    hide CompileRest, DropsTargets, Label;
    LosesIffDrops(unions, arms, false);
    if arms != [] {
      RestSelectsFirstMatch(unions, arms, blocks, [], fallback, unreachable, v, val);
    }
  }

  /** And only then: for distinct arm blocks, the compiled tree picks the first matching arm for every
      scrutinee value and every outcome of the guards iff no labelled arm stands before a condition
      that can be reached. */
  lemma {:induction false} FirstMatchPreservedIff(
      unions: seq<UnionDef>, arms: seq<Pattern>, blocks: seq<BlockId>, fallback: BlockId, unreachable: BlockId)
    requires |blocks| == |arms| && DistinctBlocks(blocks) && fallback !in blocks && unreachable !in blocks
    ensures !DropsTargets(unions, arms) <==>
              forall v: int, val: Valuation ::
                Select(Compile(unions, arms, blocks, fallback, unreachable), v, val) ==
                Expected(unions, arms, blocks, fallback, unreachable, v, val)
  {
    hide CompileRest, DropsTargets, Label, Select, Expected, Compile, DistinctBlocks;
    if DropsTargets(unions, arms) {
      var v, val := DroppedTargetShows(unions, arms, blocks, fallback, unreachable);
      assert Select(Compile(unions, arms, blocks, fallback, unreachable), v, val) !=
             Expected(unions, arms, blocks, fallback, unreachable, v, val);
    } else {
      forall v: int, val: Valuation
        ensures Select(Compile(unions, arms, blocks, fallback, unreachable), v, val) ==
                Expected(unions, arms, blocks, fallback, unreachable, v, val)
      {
        CompiledTreeFollowsLabels(unions, arms, blocks, fallback, unreachable, v, val);
      }
    }
  }

  lemma {:induction false} DroppedTargetShows(
      unions: seq<UnionDef>, arms: seq<Pattern>, blocks: seq<BlockId>, fallback: BlockId, unreachable: BlockId)
    returns (v: int, val: Valuation)
    requires |blocks| == |arms| && DistinctBlocks(blocks) && fallback !in blocks && unreachable !in blocks
    requires DropsTargets(unions, arms)
    ensures Select(Compile(unions, arms, blocks, fallback, unreachable), v, val) !=
            Expected(unions, arms, blocks, fallback, unreachable, v, val)
  {
    hide CompileRest, DropsTargets, Label, DistinctBlocks;
    LosesIffDrops(unions, arms, false);
    if arms == [] {
      NoDropsInNothing(unions);
    }
    val := _ => 0;
    v := LostTargetShows(unions, arms, blocks, [], fallback, unreachable, val);
  }
}
