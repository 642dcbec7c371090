/** Rounds of the default pipeline. After the first round only dead-store elimination still finds work;
    on a body of one block the number of rounds it needs is computed. */
module PassRounds {
  import opened Wrappers
  import opened Hir
  import opened CfgGraph
  import opened Liveness
  import opened DeadStore
  import opened DeadStoreLimits
  import opened PassManager
  import DeadCode
  import ConstFold

  // ----- Rounds are eliminations -----

  ghost function EliminateTimes(c: Cfg, k: nat): Cfg { if k == 0 then c else EliminateCfg(EliminateTimes(c, k - 1)) }

  ghost function Prepared(c: Cfg): Cfg { ConstFold.FoldCfg(DeadCode.RemoveDead(c)) }

  /** Nothing unreachable, and nothing to fold. */
  ghost predicate Settled(c: Cfg) { DeadCode.RemoveDead(c) == c && ConstFold.FoldCfg(c) == c }

  lemma {:induction false} SameEdgesReach(c: Cfg, d: Cfg)
    requires c.entry == d.entry && forall a, b :: Edge(c, a, b) <==> Edge(d, a, b)
    ensures ReachableSet(c) == ReachableSet(d)
  {
    hide Edge;
    forall id ensures Reaches(c, c.entry, id) <==> Reaches(d, d.entry, id) {
      if p :| IsPathFromTo(c, p, c.entry, id) {
        assert IsPathFromTo(d, p, d.entry, id);
      }
      if p :| IsPathFromTo(d, p, d.entry, id) {
        assert IsPathFromTo(c, p, c.entry, id);
      }
    }
  }

  lemma {:induction false} EliminateKeepsEdges(c: Cfg)
    ensures forall a, b :: Edge(c, a, b) <==> Edge(EliminateCfg(c), a, b)
  {
    hide LiveOut, Eliminate;
    forall a, b ensures Edge(c, a, b) <==> Edge(EliminateCfg(c), a, b) {
      EliminateCfgFind(c, a);
    }
  }

  lemma {:induction false} FoldKeepsEdges(c: Cfg)
    ensures forall a, b :: Edge(c, a, b) <==> Edge(ConstFold.FoldCfg(c), a, b)
  {
    forall a, b ensures Edge(c, a, b) <==> Edge(ConstFold.FoldCfg(c), a, b) {
      ConstFold.FoldCfgFind(c, a);
    }
  }

  lemma {:induction false} AllReachableStays(c: Cfg)
    ensures DeadCode.RemoveDead(c) == c <==> forall b | b in c.blocks :: b.id in ReachableSet(c)
  {
    DeadCode.RetainShrinks(c.blocks, ReachableSet(c));
  }

  lemma {:induction false} FoldTwice(s: HirStmt)
    ensures ConstFold.FoldStmt(ConstFold.FoldStmt(s)) == ConstFold.FoldStmt(s)
  {
    if s.Assign? {
      ConstFold.FoldIsUse(s.rhs);
    }
  }

  ghost predicate Folded(c: Cfg) { forall b, s | b in c.blocks && s in b.stmts :: ConstFold.FoldStmt(s) == s }

  lemma {:induction false} FoldedStays(c: Cfg)
    requires Folded(c)
    ensures ConstFold.FoldCfg(c) == c
  {
    hide ConstFold.FoldStmt;
    forall i | 0 <= i < |c.blocks| ensures ConstFold.FoldBlock(c.blocks[i]) == c.blocks[i] {
      var b := c.blocks[i];
      assert forall j | 0 <= j < |b.stmts| :: ConstFold.FoldStmts(b.stmts)[j] == b.stmts[j];
      assert ConstFold.FoldStmts(b.stmts) == b.stmts;
    }
    assert ConstFold.FoldBlocks(c.blocks) == c.blocks;
  }

  lemma {:induction false} FoldFolds(c: Cfg)
    ensures Folded(ConstFold.FoldCfg(c))
  {
    hide ConstFold.FoldStmt;
    var d := ConstFold.FoldCfg(c);
    forall b, s | b in d.blocks && s in b.stmts ensures ConstFold.FoldStmt(s) == s {
      var i :| 0 <= i < |d.blocks| && d.blocks[i] == b;
      var j :| 0 <= j < |b.stmts| && b.stmts[j] == s;
      FoldTwice(c.blocks[i].stmts[j]);
    }
  }

  lemma {:induction false} StaysFolded(c: Cfg)
    requires ConstFold.FoldCfg(c) == c
    ensures Folded(c)
  {
    FoldFolds(c);
  }

  lemma {:induction false} PreparedIsSettled(c: Cfg)
    ensures Settled(Prepared(c))
  {
    hide ConstFold.FoldCfg, DeadCode.RemoveDead, Folded, Edge;
    var d := DeadCode.RemoveDead(c);
    DeadCode.RemoveDeadIdempotent(c);
    AllReachableStays(d);
    FoldKeepsEdges(d);
    FoldEntry(d);
    SameEdgesReach(d, Prepared(c));
    FoldIds(d);
    AllReachableStays(Prepared(c));
    FoldFolds(d);
    FoldedStays(Prepared(c));
  }

  lemma {:induction false} FoldEntry(c: Cfg)
    ensures ConstFold.FoldCfg(c).entry == c.entry && EliminateCfg(c).entry == c.entry
  {
  }

  lemma {:induction false} FoldIds(c: Cfg)
    ensures forall b | b in ConstFold.FoldCfg(c).blocks :: exists d :: d in c.blocks && d.id == b.id
  {
    forall b | b in ConstFold.FoldCfg(c).blocks ensures exists d :: d in c.blocks && d.id == b.id {
      var i :| 0 <= i < |c.blocks| && ConstFold.FoldBlocks(c.blocks)[i] == b;
      assert c.blocks[i] in c.blocks;
    }
  }

  lemma {:induction false} EliminatedBlocks(c: Cfg, b': HirBlock) returns (b: HirBlock)
    requires b' in EliminateCfg(c).blocks
    ensures b in c.blocks && b' == EliminateBlock(c, b)
  {
    hide LiveOut, Eliminate;
    var i :| 0 <= i < |c.blocks| && EliminateBlocks(c, c.blocks)[i] == b';
    b := c.blocks[i];
  }

  lemma {:induction false} EliminateSettled(c: Cfg)
    requires Settled(c)
    ensures Settled(EliminateCfg(c))
  {
    hide ConstFold.FoldCfg, DeadCode.RemoveDead, Edge, EliminateCfg, ConstFold.FoldStmt, Eliminate, LiveOut;
    var d := EliminateCfg(c);
    AllReachableStays(c);
    EliminateKeepsEdges(c);
    FoldEntry(c);
    SameEdgesReach(c, d);
    forall b' | b' in d.blocks ensures b'.id in ReachableSet(d) {
      var b := EliminatedBlocks(c, b');
    }
    AllReachableStays(d);
    StaysFolded(c);
    forall b', s | b' in d.blocks && s in b'.stmts ensures ConstFold.FoldStmt(s) == s {
      var b := EliminatedBlocks(c, b');
      EliminateMembers(b.stmts, LiveAtEnd(c, b));
    }
    FoldedStays(d);
  }

  lemma {:induction false} DefaultRound(c: Cfg)
    ensures Round(DEFAULT_PASSES, c) == EliminateCfg(Prepared(c))
  {
    hide ConstFold.FoldCfg, DeadCode.RemoveDead, EliminateCfg;
    assert DEFAULT_PASSES[1..] == [ConstantFolding, DeadStoreElimination];
    assert [ConstantFolding, DeadStoreElimination][1..] == [DeadStoreElimination];
    assert [DeadStoreElimination][1..] == [];
    var d, e := DeadCode.RemoveDead(c), Prepared(c);
    assert Round([DeadStoreElimination], e) == Round([], EliminateCfg(e)) == EliminateCfg(e);
    assert Round([ConstantFolding, DeadStoreElimination], d) == EliminateCfg(e);
  }

  lemma {:induction false} SettledRound(c: Cfg)
    requires Settled(c)
    ensures Round(DEFAULT_PASSES, c) == EliminateCfg(c)
    ensures !RoundChanges(DEFAULT_PASSES, c) <==> EliminateCfg(c) == c
  {
    hide ConstFold.FoldCfg, DeadCode.RemoveDead, EliminateCfg, Round, RoundChanges, Apply;
    DefaultRound(c);
    AllFixedNoChange(DEFAULT_PASSES, c);
    ThreeApplied(c);
    assert DeadCodeElimination in DEFAULT_PASSES && ConstantFolding in DEFAULT_PASSES &&
           DeadStoreElimination in DEFAULT_PASSES;
    assert forall p | p in DEFAULT_PASSES ::
             p == DeadCodeElimination || p == ConstantFolding || p == DeadStoreElimination;
  }

  lemma {:induction false} ThreeApplied(c: Cfg)
    ensures Apply(DeadCodeElimination, c) == DeadCode.RemoveDead(c)
    ensures Apply(ConstantFolding, c) == ConstFold.FoldCfg(c)
    ensures Apply(DeadStoreElimination, c) == EliminateCfg(c)
  {
  }

  lemma {:induction false} TimesSettled(c: Cfg, k: nat)
    requires Settled(c)
    ensures Settled(EliminateTimes(c, k))
  {
    hide Settled, EliminateCfg;
    if k > 0 {
      TimesSettled(c, k - 1);
      EliminateSettled(EliminateTimes(c, k - 1));
    }
  }

  lemma {:induction false} TimesShift(c: Cfg, k: nat)
    ensures EliminateTimes(EliminateCfg(c), k) == EliminateTimes(c, k + 1)
  {
    hide EliminateCfg;
    if k > 0 {
      TimesShift(c, k - 1);
    }
  }

  lemma {:induction false} FixedTimes(c: Cfg, k: nat)
    requires EliminateCfg(c) == c
    ensures EliminateTimes(c, k) == c
  {
    hide EliminateCfg;
    if k > 0 {
      FixedTimes(c, k - 1);
    }
  }

  lemma {:induction false} SettledPipeline(c: Cfg, k: nat)
    requires Settled(c)
    ensures Pipeline(DEFAULT_PASSES, k, c) == EliminateTimes(c, k)
    decreases k
  {
    hide Settled, EliminateCfg, Round, RoundChanges;
    if k > 0 {
      SettledRound(c);
      if RoundChanges(DEFAULT_PASSES, c) {
        EliminateSettled(c);
        SettledPipeline(EliminateCfg(c), k - 1);
        TimesShift(c, k - 1);
      } else {
        FixedTimes(c, k);
      }
    }
  }

  /** What `k` rounds of the default pipeline make of a body: one removal of dead blocks, one folding, and
      `k` eliminations of dead stores. */
  lemma {:induction false} PipelineIsElimination(c: Cfg, k: nat)
    requires k > 0
    ensures Pipeline(DEFAULT_PASSES, k, c) == EliminateTimes(Prepared(c), k)
    ensures Settled(EliminateTimes(Prepared(c), k))
  {
    hide Settled, EliminateCfg, Round, RoundChanges, Prepared;
    var d := Prepared(c);
    DefaultRound(c);
    PreparedIsSettled(c);
    TimesSettled(d, k);
    EliminateSettled(d);
    SettledPipeline(EliminateCfg(d), k - 1);
    TimesShift(d, k - 1);
    if !RoundChanges(DEFAULT_PASSES, c) {
      UnchangedIsFixed(c);
      FixedTimes(d, k);
    }
  }

  lemma {:induction false} UnchangedIsFixed(c: Cfg)
    requires !RoundChanges(DEFAULT_PASSES, c)
    ensures Prepared(c) == c && EliminateCfg(c) == c && Round(DEFAULT_PASSES, c) == c
  {
    hide ConstFold.FoldCfg, DeadCode.RemoveDead, EliminateCfg, Round, RoundChanges, Apply;
    RoundShrinks(DEFAULT_PASSES, c);
    ThreeApplied(c);
    assert DeadCodeElimination in DEFAULT_PASSES && ConstantFolding in DEFAULT_PASSES &&
           DeadStoreElimination in DEFAULT_PASSES;
  }

  /** The result of `k` rounds is a fixpoint of every pass. */
  ghost predicate ReachesFixpoint(c: Cfg, k: nat)
  {
    forall p | p in DEFAULT_PASSES :: Apply(p, Pipeline(DEFAULT_PASSES, k, c)) == Pipeline(DEFAULT_PASSES, k, c)
  }

  lemma {:induction false} FixpointIffNoDeadStores(c: Cfg, k: nat)
    requires k > 0
    ensures ReachesFixpoint(c, k) <==> EliminateTimes(Prepared(c), k + 1) == EliminateTimes(Prepared(c), k)
  {
    hide Settled, EliminateCfg, Round, RoundChanges, Prepared, Apply, Pipeline;
    PipelineIsElimination(c, k);
    var d := EliminateTimes(Prepared(c), k);
    SettledRound(d);
    AllFixedNoChange(DEFAULT_PASSES, d);
  }

  // ----- One block: exactly how many rounds -----

  /** For how many rounds something is still read: `Until(0)` means not at all. */
  datatype Level = Until(n: nat) | Always

  predicate Beyond(l: Level, k: nat) { l.Always? || l.n > k }

  function Later(l: Level): Level { if l.Until? then Until(l.n + 1) else Always }

  function Longer(a: Level, b: Level): Level { if a.Always? || (b.Until? && b.n <= a.n) then a else b }

  /** For how many rounds `x` is read behind this point, before it is assigned again. */
  function Needed(ss: seq<HirStmt>, after: set<LocalId>, x: LocalId): Level
    decreases |ss|, 1
  {
    if ss == [] then (if x in after then Always else Until(0))
    else if ss[0].Assign? && ss[0].lhs.Local? then
      var behind := if ss[0].lhs.id == x then Until(0) else Needed(ss[1..], after, x);
      if x in UsesRvalue(ss[0].rhs) then Longer(behind, GoneIn(ss, after)) else behind
    else Needed(ss[1..], after, x)
  }

  /** The round in which the first statement goes: the one after all that read it have gone. */
  function GoneIn(ss: seq<HirStmt>, after: set<LocalId>): Level
    requires ss != []
    decreases |ss|, 0
  {
    if ss[0].Assign? && ss[0].lhs.Local? then Later(Needed(ss[1..], after, ss[0].lhs.id)) else Always
  }

  /** The statements that are still there after `k` rounds. */
  function KeptFor(ss: seq<HirStmt>, after: set<LocalId>, k: nat): seq<HirStmt>
  {
    if ss == [] then []
    else (if Beyond(GoneIn(ss, after), k) then [ss[0]] else []) + KeptFor(ss[1..], after, k)
  }

  /** The last round that removes anything: the length of the longest chain of stores, each read only by
      stores that go. */
  function LastRound(ss: seq<HirStmt>, after: set<LocalId>): nat
  {
    if ss == [] then 0
    else
      var rest := LastRound(ss[1..], after);
      if GoneIn(ss, after).Until? then Max(GoneIn(ss, after).n, rest) else rest
  }

  function Max(a: nat, b: nat): nat { if a >= b then a else b }

  lemma {:induction false} LiveBeforeCons(s: HirStmt, ss: seq<HirStmt>, after: set<LocalId>)
    ensures LiveBefore([s] + ss, after) == LiveStmt(s, LiveBefore(ss, after))
    ensures Eliminate([s] + ss, after) == (if Keep(s, LiveBefore(ss, after)) then [s] else []) + Eliminate(ss, after)
  {
    assert ([s] + ss)[1..] == ss;
  }

  /** After `k` rounds exactly that is live which is needed beyond them. */
  lemma {:induction false} LiveIsNeeded(ss: seq<HirStmt>, after: set<LocalId>, k: nat)
    ensures forall x: LocalId :: x in LiveBefore(KeptFor(ss, after, k), after) <==> Beyond(Needed(ss, after, x), k)
  {
    if ss != [] {
      var s, rest := ss[0], KeptFor(ss[1..], after, k);
      LiveIsNeeded(ss[1..], after, k);
      if Beyond(GoneIn(ss, after), k) {
        LiveBeforeCons(s, rest, after);
        assert KeptFor(ss, after, k) == [s] + rest;
      } else {
        assert KeptFor(ss, after, k) == rest;
      }
    }
  }

  lemma {:induction false} EliminateKeptFor(ss: seq<HirStmt>, after: set<LocalId>, k: nat)
    ensures Eliminate(KeptFor(ss, after, k), after) == KeptFor(ss, after, k + 1)
  {
    hide LiveBefore, Needed;
    if ss != [] {
      var s, rest := ss[0], KeptFor(ss[1..], after, k);
      EliminateKeptFor(ss[1..], after, k);
      if Beyond(GoneIn(ss, after), k) {
        LiveIsNeeded(ss[1..], after, k);
        LiveBeforeCons(s, rest, after);
        assert KeptFor(ss, after, k) == [s] + rest;
      } else {
        assert KeptFor(ss, after, k) == rest;
      }
    }
  }

  lemma {:induction false} KeptAtFirst(ss: seq<HirStmt>, after: set<LocalId>)
    ensures KeptFor(ss, after, 0) == ss
  {
    hide Needed;
    if ss != [] {
      KeptAtFirst(ss[1..], after);
    }
  }

  lemma {:induction false} OneBlockTimes(stmts: seq<HirStmt>, result: Option<HirOperand>, k: nat)
    ensures EliminateTimes(OneBlock(stmts, result), k) ==
            OneBlock(KeptFor(stmts, UsesTerminator(Return(result)), k), result)
  {
    hide EliminateCfg, OneBlock, KeptFor, Eliminate;
    var after := UsesTerminator(Return(result));
    if k == 0 {
      KeptAtFirst(stmts, after);
    } else {
      OneBlockTimes(stmts, result, k - 1);
      OneBlockEliminated(KeptFor(stmts, after, k - 1), result);
      EliminateKeptFor(stmts, after, k - 1);
    }
  }

  lemma {:induction false} KeptLonger(ss: seq<HirStmt>, after: set<LocalId>, j: nat, k: nat)
    requires j <= k
    ensures |KeptFor(ss, after, k)| <= |KeptFor(ss, after, j)|
    ensures KeptFor(ss, after, k) == KeptFor(ss, after, j) <==> |KeptFor(ss, after, k)| == |KeptFor(ss, after, j)|
    ensures LastRound(ss, after) <= j ==> KeptFor(ss, after, k) == KeptFor(ss, after, j)
    ensures j < LastRound(ss, after) <= k ==> |KeptFor(ss, after, k)| < |KeptFor(ss, after, j)|
  {
    hide Needed, GoneIn;
    if ss != [] {
      KeptLonger(ss[1..], after, j, k);
    }
  }

  lemma {:induction false} NoChangeMeansDone(ss: seq<HirStmt>, after: set<LocalId>, k: nat, m: nat)
    requires KeptFor(ss, after, k + 1) == KeptFor(ss, after, k) && k <= m
    ensures KeptFor(ss, after, m) == KeptFor(ss, after, k)
    decreases m
  {
    hide KeptFor, Eliminate;
    if m > k {
      NoChangeMeansDone(ss, after, k, m - 1);
      EliminateKeptFor(ss, after, k);
      EliminateKeptFor(ss, after, m - 1);
    }
  }

  lemma {:induction false} KeptSettles(ss: seq<HirStmt>, after: set<LocalId>, k: nat)
    ensures KeptFor(ss, after, k + 1) == KeptFor(ss, after, k) <==> LastRound(ss, after) <= k
  {
    hide KeptFor, LastRound;
    KeptLonger(ss, after, k, k + 1);
    if KeptFor(ss, after, k + 1) == KeptFor(ss, after, k) && LastRound(ss, after) > k {
      NoChangeMeansDone(ss, after, k, LastRound(ss, after));
      KeptLonger(ss, after, k, LastRound(ss, after));
    }
  }

  lemma {:induction false} OneBlockPrepared(stmts: seq<HirStmt>, result: Option<HirOperand>)
    ensures Prepared(OneBlock(stmts, result)) == OneBlock(ConstFold.FoldStmts(stmts), result)
  {
    var c := OneBlock(stmts, result);
    ReachesRefl(c, 0);
    AllReachableStays(c);
    assert ConstFold.FoldBlocks(c.blocks) == [ConstFold.FoldBlock(c.blocks[0])];
  }

  lemma {:induction false} OneBlockInjective(s: seq<HirStmt>, t: seq<HirStmt>, result: Option<HirOperand>)
    ensures OneBlock(s, result) == OneBlock(t, result) <==> s == t
  {
    assert OneBlock(s, result).blocks[0].stmts == s && OneBlock(t, result).blocks[0].stmts == t;
  }

  /** On a body of one block, `k` rounds end in a fixpoint if and only if no chain of stores that go is
      longer than `k`. */
  lemma {:induction false} OneBlockRoundsIff(stmts: seq<HirStmt>, result: Option<HirOperand>, k: nat)
    requires k > 0
    ensures ReachesFixpoint(OneBlock(stmts, result), k) <==>
            LastRound(ConstFold.FoldStmts(stmts), UsesTerminator(Return(result))) <= k
  {
    hide ReachesFixpoint, OneBlock, Prepared, EliminateTimes, KeptFor, LastRound, ConstFold.FoldStmts;
    var folded, after := ConstFold.FoldStmts(stmts), UsesTerminator(Return(result));
    FixpointIffNoDeadStores(OneBlock(stmts, result), k);
    OneBlockPrepared(stmts, result);
    OneBlockTimes(folded, result, k);
    OneBlockTimes(folded, result, k + 1);
    OneBlockInjective(KeptFor(folded, after, k + 1), KeptFor(folded, after, k), result);
    KeptSettles(folded, after, k);
  }
}
