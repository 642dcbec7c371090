/** The pass manager: rounds of the three passes until nothing changes or a cap is reached. */
module PassManager {
  import opened Hir
  import opened HirSemantics
  import opened CfgGraph
  import opened Liveness
  import DeadCode
  import ConstFold
  import DeadStore

  datatype Pass = DeadCodeElimination | ConstantFolding | DeadStoreElimination

  const DEFAULT_PASSES: seq<Pass> := [DeadCodeElimination, ConstantFolding, DeadStoreElimination]

  ghost function Apply(p: Pass, c: Cfg): Cfg
  {
    match p
    case DeadCodeElimination => DeadCode.RemoveDead(c)
    case ConstantFolding => ConstFold.FoldCfg(c)
    case DeadStoreElimination => DeadStore.EliminateCfg(c)
  }

  ghost function Round(passes: seq<Pass>, c: Cfg): Cfg
  {
    if passes == [] then c else Round(passes[1..], Apply(passes[0], c))
  }

  /** Some pass of the round rewrites what it is given. */
  ghost predicate RoundChanges(passes: seq<Pass>, c: Cfg)
  {
    passes != [] && (Apply(passes[0], c) != c || RoundChanges(passes[1..], Apply(passes[0], c)))
  }

  /** At most `k` rounds, stopping after the first one that changes nothing. */
  ghost function Pipeline(passes: seq<Pass>, k: nat, c: Cfg): Cfg
    decreases k
  {
    if k == 0 then c
    else if RoundChanges(passes, c) then Pipeline(passes, k - 1, Round(passes, c))
    else Round(passes, c)
  }

  method RunPass(p: Pass, body: HirBody) returns (changed: bool)
    requires UniqueIds(body.blocks)
    modifies body`blocks
    ensures body.View() == Apply(p, old(body.View()))
    ensures changed <==> body.View() != old(body.View())
  {
    match p {
      case DeadCodeElimination => changed := DeadCode.RunOnBody(body);
      case ConstantFolding => changed := ConstFold.RunOnBody(body);
      case DeadStoreElimination => changed := DeadStore.RunOnBody(body);
    }
  }

  class PassManager {
    var passes: seq<Pass>
    var maxIterations: nat

    constructor ()
      ensures passes == [] && maxIterations == 3
    {
      passes, maxIterations := [], 3;
    }

    method AddPass(p: Pass)
      modifies this`passes
      ensures passes == old(passes) + [p]
    {
      passes := passes + [p];
    }

    method RunRound(body: HirBody) returns (changed: bool)
      requires UniqueIds(body.blocks)
      modifies body`blocks
      ensures UniqueIds(body.blocks)
      ensures body.View() == Round(passes, old(body.View()))
      ensures changed <==> RoundChanges(passes, old(body.View()))
    {
      hide Apply, UniqueIds;
      changed := false;
      ghost var c := body.View();
      for i := 0 to |passes|
        invariant UniqueIds(body.blocks)
        invariant Round(passes[i..], body.View()) == Round(passes, c)
        invariant RoundChanges(passes, c) <==> changed || RoundChanges(passes[i..], body.View())
      {
        assert passes[i..][0] == passes[i] && passes[i..][1..] == passes[i+1..];
        ApplyKeepsUnique(passes[i], body.View());
        var any := RunPass(passes[i], body);
        if any {
          changed := true;
        }
      }
    }

    method RunOnBody(body: HirBody)
      requires UniqueIds(body.blocks)
      modifies body`blocks
      ensures UniqueIds(body.blocks)
      ensures body.View() == Pipeline(passes, maxIterations, old(body.View()))
    {
      hide Round, RoundChanges, UniqueIds;
      ghost var c := body.View();
      for i := 0 to maxIterations
        invariant UniqueIds(body.blocks)
        invariant Pipeline(passes, maxIterations - i, body.View()) == Pipeline(passes, maxIterations, c)
      {
        var changed := RunRound(body);
        if !changed {
          return;
        }
      }
    }
  }

  method DefaultPipeline() returns (pm: PassManager)
    ensures fresh(pm) && pm.maxIterations == 3
    ensures pm.passes == DEFAULT_PASSES == [DeadCodeElimination, ConstantFolding, DeadStoreElimination]
  {
    pm := new PassManager();
    pm.AddPass(DeadCodeElimination);
    pm.AddPass(ConstantFolding);
    pm.AddPass(DeadStoreElimination);
  }

  // ----- Every pass keeps block ids unique and the body inside the safe fragment -----

  lemma {:induction false} RetainKeepsUnique(blocks: seq<HirBlock>, keep: set<BlockId>)
    requires UniqueIds(blocks)
    ensures UniqueIds(DeadCode.Retain(blocks, keep))
  {
    if blocks != [] {
      RetainKeepsUnique(blocks[1..], keep);
      DeadCode.RetainMembers(blocks[1..], keep);
      var rest := DeadCode.Retain(blocks[1..], keep);
      forall b | b in rest ensures b.id != blocks[0].id {
        var i :| 0 <= i < |blocks[1..]| && blocks[1..][i] == b;
        assert blocks[i+1] == b;
      }
    }
  }

  lemma {:induction false} SameIdsUnique(xs: seq<HirBlock>, ys: seq<HirBlock>)
    requires |xs| == |ys| && forall i | 0 <= i < |xs| :: xs[i].id == ys[i].id
    requires UniqueIds(xs)
    ensures UniqueIds(ys)
  {
  }

  lemma {:induction false} ApplyKeepsUnique(p: Pass, c: Cfg)
    requires UniqueIds(c.blocks)
    ensures UniqueIds(Apply(p, c).blocks)
  {
    match p
    case DeadCodeElimination => RetainKeepsUnique(c.blocks, ReachableSet(c));
    case ConstantFolding => SameIdsUnique(c.blocks, Apply(p, c).blocks);
    case DeadStoreElimination => SameIdsUnique(c.blocks, Apply(p, c).blocks);
  }

  /** `d` is `c` with statements weakened: each of its statements comes from one of `c` with the same
      target that exposes at least as much, and its terminators are those of `c`. */
  ghost predicate Thinner(c: Cfg, d: Cfg)
  {
    forall b' | b' in d.blocks :: exists b :: b in c.blocks && ThinnerBlock(b, b')
  }

  ghost predicate ThinnerBlock(b: HirBlock, b': HirBlock)
  {
    b'.terminator == b.terminator && forall s' | s' in b'.stmts :: exists s :: s in b.stmts && ThinnerStmt(s, s')
  }

  ghost predicate ThinnerStmt(s: HirStmt, s': HirStmt)
  {
    && (DeadStore.PlainStmt(s) ==> DeadStore.PlainStmt(s'))
    && DeadStore.ExposedStmt(s') <= DeadStore.ExposedStmt(s)
    && (s'.Assign? ==> s.Assign? && s'.lhs == s.lhs)
  }

  lemma {:induction false} ThinnerBlockFacts(b: HirBlock, b': HirBlock, x: LocalId)
    requires ThinnerBlock(b, b')
    ensures DeadStore.PlainBlock(b) ==> DeadStore.PlainBlock(b')
    ensures DeadStore.ExposedInBlock(b', x) ==> DeadStore.ExposedInBlock(b, x)
    ensures (exists s' :: s' in b'.stmts && s'.Assign? && s'.lhs == Local(x)) ==>
            (exists s :: s in b.stmts && s.Assign? && s.lhs == Local(x))
  {
    hide DeadStore.PlainStmt, DeadStore.ExposedStmt, DeadStore.PlainTerminator, DeadStore.ReadsTerminator;
    forall s' | s' in b'.stmts
      ensures exists s :: s in b.stmts && ThinnerStmt(s, s')
    {
    }
  }

  lemma {:induction false} ThinnerStaysCheckable(c: Cfg, d: Cfg)
    requires Thinner(c, d) && DeadStore.Checkable(c)
    ensures DeadStore.Checkable(d)
  {
    hide DeadStore.PlainBlock, DeadStore.ExposedInBlock, ThinnerBlock;
    forall b' | b' in d.blocks ensures DeadStore.PlainBlock(b') {
      var b :| b in c.blocks && ThinnerBlock(b, b');
      ThinnerBlockFacts(b, b', 0);
    }
    forall x | DeadStore.Exposed(d, x) ensures !DeadStore.PlainlyAssigned(d, x) {
      var e' :| e' in d.blocks && DeadStore.ExposedInBlock(e', x);
      var e :| e in c.blocks && ThinnerBlock(e, e');
      ThinnerBlockFacts(e, e', x);
      assert DeadStore.Exposed(c, x);
      if DeadStore.PlainlyAssigned(d, x) {
        var b', s' :| b' in d.blocks && s' in b'.stmts && s'.Assign? && s'.lhs == Local(x);
        var b :| b in c.blocks && ThinnerBlock(b, b');
        ThinnerBlockFacts(b, b', x);
      }
    }
  }

  lemma {:induction false} ThinnerRefl(s: HirStmt)
    ensures ThinnerStmt(s, s)
  {
  }

  lemma {:induction false} FoldThins(s: HirStmt)
    ensures ThinnerStmt(s, ConstFold.FoldStmt(s))
  {
    if s.Assign? {
      ConstFold.FoldIsUse(s.rhs);
    }
  }

  lemma {:induction false} EliminateMembers(ss: seq<HirStmt>, after: set<LocalId>)
    ensures forall s | s in DeadStore.Eliminate(ss, after) :: s in ss
  {
    if ss != [] {
      EliminateMembers(ss[1..], after);
    }
  }

  lemma {:induction false} ApplyThins(p: Pass, c: Cfg)
    ensures Thinner(c, Apply(p, c))
  {
    hide ThinnerStmt, ReachableSet, LiveOut, ConstFold.FoldStmt, DeadStore.Eliminate, DeadStore.LiveAtEnd;
    var d := Apply(p, c);
    forall b' | b' in d.blocks ensures exists b :: b in c.blocks && ThinnerBlock(b, b') {
      match p
      case DeadCodeElimination =>
        DeadCode.RetainMembers(c.blocks, ReachableSet(c));
        forall s | s in b'.stmts ensures ThinnerStmt(s, s) { ThinnerRefl(s); }
        assert ThinnerBlock(b', b');
      case ConstantFolding =>
        var i :| 0 <= i < |d.blocks| && d.blocks[i] == b';
        var b := c.blocks[i];
        forall s' | s' in b'.stmts ensures exists s :: s in b.stmts && ThinnerStmt(s, s') {
          var j :| 0 <= j < |b'.stmts| && b'.stmts[j] == s';
          FoldThins(b.stmts[j]);
        }
        assert ThinnerBlock(b, b');
      case DeadStoreElimination =>
        var i :| 0 <= i < |d.blocks| && d.blocks[i] == b';
        var b := c.blocks[i];
        EliminateMembers(b.stmts, DeadStore.LiveAtEnd(c, b));
        forall s | s in b'.stmts ensures ThinnerStmt(s, s) { ThinnerRefl(s); }
        assert ThinnerBlock(b, b');
    }
  }

  // ----- The pipeline preserves meaning -----

  lemma {:induction false} RefinesTransitive(c: Cfg, d: Cfg, e: Cfg)
    requires Refines(c, d) && Refines(d, e)
    ensures Refines(c, e)
  {
    hide Run;
  }

  lemma {:induction false} ApplyRefines(p: Pass, c: Cfg)
    requires UniqueIds(c.blocks) && DeadStore.Checkable(c)
    ensures Refines(c, Apply(p, c))
    ensures UniqueIds(Apply(p, c).blocks) && DeadStore.Checkable(Apply(p, c))
  {
    ApplyKeepsUnique(p, c);
    ApplyThins(p, c);
    hide Refines, UniqueIds, DeadStore.Checkable, Thinner;
    ThinnerStaysCheckable(c, Apply(p, c));
    match p
    case DeadCodeElimination => DeadCode.RemoveDeadRefines(c);
    case ConstantFolding => ConstFold.FoldRefines(c);
    case DeadStoreElimination =>
      DeadStore.CheckableIsSafe(c);
      DeadStore.EliminateRefines(c);
  }

  lemma {:induction false} RefinesRefl(c: Cfg)
    ensures Refines(c, c)
  {
    hide Run;
  }

  lemma {:induction false} RoundRefines(passes: seq<Pass>, c: Cfg)
    requires UniqueIds(c.blocks) && DeadStore.Checkable(c)
    ensures Refines(c, Round(passes, c))
    ensures UniqueIds(Round(passes, c).blocks) && DeadStore.Checkable(Round(passes, c))
  {
    hide Refines, UniqueIds, DeadStore.Checkable, Apply;
    RefinesRefl(c);
    if passes != [] {
      ApplyRefines(passes[0], c);
      RoundRefines(passes[1..], Apply(passes[0], c));
      RefinesTransitive(c, Apply(passes[0], c), Round(passes, c));
    }
  }

  /** Any number of rounds of any list of these passes preserves every returning run, and leaves a
      body on which the passes may be run again. */
  lemma {:induction false} PipelineRefines(passes: seq<Pass>, k: nat, c: Cfg)
    requires UniqueIds(c.blocks) && DeadStore.Checkable(c)
    ensures Refines(c, Pipeline(passes, k, c))
    ensures UniqueIds(Pipeline(passes, k, c).blocks) && DeadStore.Checkable(Pipeline(passes, k, c))
    decreases k
  {
    hide Refines, UniqueIds, DeadStore.Checkable, Round, RoundChanges;
    RefinesRefl(c);
    if k > 0 {
      RoundRefines(passes, c);
      if RoundChanges(passes, c) {
        PipelineRefines(passes, k - 1, Round(passes, c));
        RefinesTransitive(c, Round(passes, c), Pipeline(passes, k, c));
      }
    }
  }

  // ----- The cap is not what makes it stop -----

  function Operators(ss: seq<HirStmt>): nat
  {
    if ss == [] then 0
    else (if ss[0].Assign? && (ss[0].rhs.BinaryOp? || ss[0].rhs.UnaryOp?) then 1 else 0) + Operators(ss[1..])
  }

  /** Blocks, statements and operators. */
  function Size(bs: seq<HirBlock>): nat
  {
    if bs == [] then 0 else 1 + |bs[0].stmts| + Operators(bs[0].stmts) + Size(bs[1..])
  }

  lemma {:induction false} RetainSize(bs: seq<HirBlock>, keep: set<BlockId>)
    ensures var r := DeadCode.Retain(bs, keep); Size(r) <= Size(bs) && (r != bs ==> Size(r) < Size(bs))
  {
    if bs != [] {
      RetainSize(bs[1..], keep);
      var rest := DeadCode.Retain(bs[1..], keep);
      assert DeadCode.Retain(bs, keep) == if bs[0].id in keep then [bs[0]] + rest else rest;
      assert ([bs[0]] + rest)[1..] == rest;
      assert [bs[0]] + bs[1..] == bs;
    }
  }

  lemma {:induction false} FoldOperators(ss: seq<HirStmt>)
    ensures var r := ConstFold.FoldStmts(ss);
            |r| == |ss| && Operators(r) <= Operators(ss) && (r != ss ==> Operators(r) < Operators(ss))
  {
    if ss != [] {
      FoldOperators(ss[1..]);
      if ss[0].Assign? {
        ConstFold.FoldIsUse(ss[0].rhs);
      }
      assert ConstFold.FoldStmts(ss)[1..] == ConstFold.FoldStmts(ss[1..]);
      assert [ss[0]] + ss[1..] == ss;
    }
  }

  lemma {:induction false} FoldSize(bs: seq<HirBlock>)
    ensures var r := ConstFold.FoldBlocks(bs); Size(r) <= Size(bs) && (r != bs ==> Size(r) < Size(bs))
  {
    if bs != [] {
      FoldSize(bs[1..]);
      FoldOperators(bs[0].stmts);
      assert ConstFold.FoldBlocks(bs)[1..] == ConstFold.FoldBlocks(bs[1..]);
      assert [bs[0]] + bs[1..] == bs;
    }
  }

  lemma {:induction false} EliminateOperators(ss: seq<HirStmt>, after: set<LocalId>)
    ensures Operators(DeadStore.Eliminate(ss, after)) <= Operators(ss)
  {
    if ss != [] {
      EliminateOperators(ss[1..], after);
      var rest := DeadStore.Eliminate(ss[1..], after);
      assert DeadStore.Eliminate(ss, after) == [ss[0]] + rest || DeadStore.Eliminate(ss, after) == rest;
      assert ([ss[0]] + rest)[1..] == rest;
    }
  }

  lemma {:induction false} EliminateSize(c: Cfg, bs: seq<HirBlock>)
    ensures var r := DeadStore.EliminateBlocks(c, bs); Size(r) <= Size(bs) && (r != bs ==> Size(r) < Size(bs))
  {
    hide LiveOut;
    if bs != [] {
      EliminateSize(c, bs[1..]);
      EliminateOperators(bs[0].stmts, DeadStore.LiveAtEnd(c, bs[0]));
      DeadStore.EliminateShrinks(bs[0].stmts, DeadStore.LiveAtEnd(c, bs[0]));
      assert DeadStore.EliminateBlocks(c, bs)[1..] == DeadStore.EliminateBlocks(c, bs[1..]);
      assert [bs[0]] + bs[1..] == bs;
    }
  }

  /** A pass that changes anything makes the body strictly smaller. */
  lemma {:induction false} ApplyShrinks(p: Pass, c: Cfg)
    ensures Size(Apply(p, c).blocks) <= Size(c.blocks)
    ensures Apply(p, c) != c ==> Size(Apply(p, c).blocks) < Size(c.blocks)
  {
    match p
    case DeadCodeElimination => RetainSize(c.blocks, ReachableSet(c));
    case ConstantFolding => FoldSize(c.blocks);
    case DeadStoreElimination => EliminateSize(c, c.blocks);
  }

  lemma {:induction false} RoundShrinks(passes: seq<Pass>, c: Cfg)
    ensures Size(Round(passes, c).blocks) <= Size(c.blocks)
    ensures RoundChanges(passes, c) ==> Size(Round(passes, c).blocks) < Size(c.blocks)
    ensures !RoundChanges(passes, c) ==> Round(passes, c) == c && forall p | p in passes :: Apply(p, c) == c
  {
    hide Apply, Size;
    if passes != [] {
      ApplyShrinks(passes[0], c);
      RoundShrinks(passes[1..], Apply(passes[0], c));
    }
  }

  /** Without the cap the rounds would still end: as many as the body has blocks, statements and
      operators suffice, and then every pass leaves the body alone. */
  lemma {:induction false} RoundsReachFixpoint(passes: seq<Pass>, k: nat, c: Cfg)
    requires Size(c.blocks) <= k
    ensures var d := Pipeline(passes, k, c); !RoundChanges(passes, d) && forall p | p in passes :: Apply(p, d) == d
    decreases k
  {
    hide Apply, Size, Round, RoundChanges;
    RoundShrinks(passes, c);
    if RoundChanges(passes, c) {
      RoundsReachFixpoint(passes, k - 1, Round(passes, c));
    } else if k > 0 {
      assert Pipeline(passes, k, c) == c;
    }
  }

  /** One more round changes nothing exactly when every pass already leaves the body alone; so a
      round that the manager saw change nothing has left a fixpoint of all passes. */
  lemma {:induction false} EarlyExitIsFixpoint(passes: seq<Pass>, k: nat, c: Cfg)
    ensures var d := Pipeline(passes, k, c);
            Pipeline(passes, k + 1, c) == d <==> forall p | p in passes :: Apply(p, d) == d
    decreases k
  {
    hide Apply, Size, Round, RoundChanges;
    RoundShrinks(passes, c);
    AllFixedNoChange(passes, c);
    if k == 0 {
      assert Pipeline(passes, 1, c) == Round(passes, c) by {
        assert Pipeline(passes, 0, Round(passes, c)) == Round(passes, c);
      }
    } else if RoundChanges(passes, c) {
      EarlyExitIsFixpoint(passes, k - 1, Round(passes, c));
    }
  }

  lemma {:induction false} AllFixedNoChange(passes: seq<Pass>, c: Cfg)
    ensures (forall p | p in passes :: Apply(p, c) == c) <==> !RoundChanges(passes, c)
  {
    hide Apply;
    if passes != [] {
      AllFixedNoChange(passes[1..], c);
      RoundShrinks(passes, c);
    }
  }
}
