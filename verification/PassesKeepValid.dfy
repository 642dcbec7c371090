/** The optimisation passes keep a validated body valid. */
module PassesKeepValid {
  import opened Hir
  import opened CfgGraph
  import opened PassManager
  import opened Liveness
  import ValidateCfg
  import ValidateLocals
  import DeadCode
  import ConstFold
  import DeadStore

  /** Passes that rewrite blocks one by one keep ids and terminators. */
  lemma {:induction false} BlockwiseKeepsCfg(c: Cfg, d: Cfg)
    requires |d.blocks| == |c.blocks| && d.entry == c.entry
    requires forall i | 0 <= i < |c.blocks| ::
               d.blocks[i].id == c.blocks[i].id && d.blocks[i].terminator == c.blocks[i].terminator
    requires ValidateCfg.Accepted(c)
    ensures ValidateCfg.Accepted(d)
  {
    assert BlockIds(d.blocks) == BlockIds(c.blocks) by {
      forall id | id in BlockIds(c.blocks) ensures id in BlockIds(d.blocks) {
        var i :| 0 <= i < |c.blocks| && c.blocks[i].id == id;
        assert d.blocks[i] in d.blocks;
      }
      forall id | id in BlockIds(d.blocks) ensures id in BlockIds(c.blocks) {
        var i :| 0 <= i < |d.blocks| && d.blocks[i].id == id;
        assert c.blocks[i] in c.blocks;
      }
    }
    forall b, t | b in d.blocks && t in Successors(b.terminator) ensures t in BlockIds(d.blocks) {
      var i :| 0 <= i < |d.blocks| && d.blocks[i] == b;
      assert c.blocks[i] in c.blocks;
    }
  }

  lemma {:induction false} DeadCodeKeepsCfg(c: Cfg)
    requires ValidateCfg.Accepted(c)
    ensures ValidateCfg.Accepted(DeadCode.RemoveDead(c))
  {
    var d := DeadCode.RemoveDead(c);
    RetainKeepsUnique(c.blocks, ReachableSet(c));
    hide UniqueIds;
    DeadCode.KeepsExactlyTheReachable(c);
    ReachesRefl(c, c.entry);
    var e :| e in c.blocks && e.id == c.entry;
    assert e in d.blocks;
    forall b, t | b in d.blocks && t in Successors(b.terminator) ensures t in BlockIds(d.blocks) {
      ReachableTargetKept(c, b, t);
    }
  }

  lemma {:induction false} TargetReached(c: Cfg, b: HirBlock, t: BlockId)
    requires UniqueIds(c.blocks) && b in c.blocks && Reaches(c, c.entry, b.id) && t in Successors(b.terminator)
    ensures Reaches(c, c.entry, t)
  {
    FoundItself(c, b);
    hide UniqueIds, Reaches;
    assert Edge(c, b.id, t);
    ReachesStep(c, c.entry, b.id, t);
  }

  lemma {:induction false} ReachableTargetKept(c: Cfg, b: HirBlock, t: BlockId)
    requires ValidateCfg.Accepted(c) && b in c.blocks && Reaches(c, c.entry, b.id) && t in Successors(b.terminator)
    ensures t in BlockIds(DeadCode.RemoveDead(c).blocks)
  {
    hide UniqueIds, Reaches, DeadCode.RemoveDead;
    TargetReached(c, b, t);
    DeadCode.KeepsExactlyTheReachable(c);
    assert t in BlockIds(c.blocks);
    var target :| target in c.blocks && target.id == t;
    assert target in DeadCode.RemoveDead(c).blocks;
  }

  /** Whatever pass runs on a body that the graph validator accepts, the result is accepted too. */
  lemma {:induction false} PassKeepsCfgAccepted(p: Pass, c: Cfg)
    requires ValidateCfg.Accepted(c)
    ensures ValidateCfg.Accepted(Apply(p, c))
  {
    hide ValidateCfg.Accepted, LiveOut, DeadStore.Eliminate;
    match p
    case DeadCodeElimination => DeadCodeKeepsCfg(c);
    case ConstantFolding => BlockwiseKeepsCfg(c, ConstFold.FoldCfg(c));
    case DeadStoreElimination => BlockwiseKeepsCfg(c, DeadStore.EliminateCfg(c));
  }

  lemma {:induction false} AllReachableNoWarning(c: Cfg, bs: seq<HirBlock>)
    requires forall b | b in bs :: Reaches(c, c.entry, b.id)
    ensures ValidateCfg.UnreachableDiags(c, bs) == []
  {
    if bs != [] {
      AllReachableNoWarning(c, bs[..|bs|-1]);
    }
  }

  /** After dead-block removal the validator has no unreachable block to warn about. */
  lemma {:induction false} NoUnreachableAfterDeadCode(c: Cfg)
    ensures ValidateCfg.UnreachableDiags(DeadCode.RemoveDead(c), DeadCode.RemoveDead(c).blocks) == []
  {
    var d := DeadCode.RemoveDead(c);
    DeadCode.KeepsExactlyTheReachable(c);
    DeadCode.SameReachable(c);
    forall b | b in d.blocks ensures Reaches(d, d.entry, b.id) {
      assert b.id in ReachableSet(c);
    }
    AllReachableNoWarning(d, d.blocks);
  }

  lemma {:induction false} FoldMentionsLess(s: HirStmt)
    ensures ValidateLocals.InStmt(ConstFold.FoldStmt(s)) <= ValidateLocals.InStmt(s)
  {
    if s.Assign? {
      ConstFold.FoldIsUse(s.rhs);
    }
  }

  lemma {:induction false} FoldBlockWithin(b: HirBlock, declared: set<LocalId>)
    requires ValidateLocals.BlockWithin(b, declared)
    ensures ValidateLocals.BlockWithin(ConstFold.FoldBlock(b), declared)
  {
    hide ValidateLocals.InStmt, ConstFold.FoldStmt;
    var d := ConstFold.FoldBlock(b);
    forall s | s in d.stmts ensures ValidateLocals.InStmt(s) <= declared {
      var i :| 0 <= i < |d.stmts| && d.stmts[i] == s;
      FoldMentionsLess(b.stmts[i]);
      assert b.stmts[i] in b.stmts;
    }
  }

  /** No pass introduces a reference to an undeclared local. */
  lemma {:induction false} PassKeepsLocalsAccepted(p: Pass, c: Cfg)
    requires ValidateLocals.Accepted(c)
    ensures ValidateLocals.Accepted(Apply(p, c))
  {
    hide ValidateLocals.InStmt, ConstFold.FoldStmt, LiveOut, ReachableSet, DeadStore.Eliminate;
    hide ValidateLocals.InTerminator;
    var d := Apply(p, c);
    var declared := ValidateLocals.Declared(|c.locals|);
    forall b' | b' in d.blocks ensures ValidateLocals.BlockWithin(b', declared) {
      match p
      case DeadCodeElimination => DeadCode.RetainMembers(c.blocks, ReachableSet(c));
      case ConstantFolding =>
        var i :| 0 <= i < |d.blocks| && d.blocks[i] == b';
        assert c.blocks[i] in c.blocks;
        FoldBlockWithin(c.blocks[i], declared);
      case DeadStoreElimination =>
        var i :| 0 <= i < |d.blocks| && d.blocks[i] == b';
        var b := c.blocks[i];
        assert b in c.blocks;
        EliminateMembers(b.stmts, DeadStore.LiveAtEnd(c, b));
    }
  }

  /** So the whole pipeline, run on a validated body, leaves a validated body. */
  lemma {:induction false} RoundKeepsAccepted(passes: seq<Pass>, c: Cfg)
    requires ValidateCfg.Accepted(c) && ValidateLocals.Accepted(c)
    ensures ValidateCfg.Accepted(Round(passes, c)) && ValidateLocals.Accepted(Round(passes, c))
  {
    hide ValidateCfg.Accepted, ValidateLocals.Accepted, Apply;
    if passes != [] {
      PassKeepsCfgAccepted(passes[0], c);
      PassKeepsLocalsAccepted(passes[0], c);
      RoundKeepsAccepted(passes[1..], Apply(passes[0], c));
    }
  }

  lemma {:induction false} PipelineKeepsAccepted(passes: seq<Pass>, k: nat, c: Cfg)
    requires ValidateCfg.Accepted(c) && ValidateLocals.Accepted(c)
    ensures ValidateCfg.Accepted(Pipeline(passes, k, c)) && ValidateLocals.Accepted(Pipeline(passes, k, c))
    decreases k
  {
    hide ValidateCfg.Accepted, ValidateLocals.Accepted, Round, RoundChanges;
    RoundKeepsAccepted(passes, c);
    if k > 0 && RoundChanges(passes, c) {
      PipelineKeepsAccepted(passes, k - 1, Round(passes, c));
    }
  }
}
