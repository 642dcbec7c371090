/** What the cap of the pass manager costs: a chain of dead copies loses one link a round. */
module PassLimits {
  import opened Wrappers
  import opened Hir
  import opened CfgGraph
  import opened DeadStore
  import opened DeadStoreLimits
  import opened PassManager
  import DeadCode
  import ConstFold

  /** `n` copies, each of the local before it: _1 = _0; _2 = _1; ... */
  function Chain(n: nat): (r: seq<HirStmt>)
    ensures |r| == n
  {
    if n == 0 then [] else Chain(n - 1) + [Set(n, Use(Bare(n - 1)))]
  }

  lemma {:induction false} EliminateAppend(a: seq<HirStmt>, b: seq<HirStmt>, after: set<LocalId>)
    ensures LiveBefore(a + b, after) == LiveBefore(a, LiveBefore(b, after))
    ensures Eliminate(a + b, after) == Eliminate(a, LiveBefore(b, after)) + Eliminate(b, after)
  {
    hide LiveStmt, Keep;
    if a == [] {
      assert a + b == b;
    } else {
      assert (a + b)[1..] == a[1..] + b;
      EliminateAppend(a[1..], b, after);
    }
  }

  lemma {:induction false} LiveChainStays(n: nat)
    ensures Eliminate(Chain(n), {n}) == Chain(n)
  {
    if n > 0 {
      var s := Set(n, Use(Bare(n - 1)));
      assert [s][1..] == [];
      assert LiveBefore([s], {n}) == {n - 1} && Eliminate([s], {n}) == [s];
      EliminateAppend(Chain(n - 1), [s], {n});
      LiveChainStays(n - 1);
    }
  }

  lemma {:induction false} DeadChainLosesLast(n: nat)
    requires n > 0
    ensures Eliminate(Chain(n), {}) == Chain(n - 1)
  {
    var s := Set(n, Use(Bare(n - 1)));
    assert [s][1..] == [];
    assert LiveBefore([s], {}) == {n - 1} && Eliminate([s], {}) == [];
    EliminateAppend(Chain(n - 1), [s], {});
    LiveChainStays(n - 1);
  }

  lemma {:induction false} ChainNotFolded(n: nat)
    ensures ConstFold.FoldStmts(Chain(n)) == Chain(n)
  {
    forall i | 0 <= i < n ensures ConstFold.FoldStmt(Chain(n)[i]) == Chain(n)[i] {
      ChainAt(n, i);
    }
  }

  lemma {:induction false} ChainAt(n: nat, i: nat)
    requires i < n
    ensures Chain(n)[i] == Set(i + 1, Use(Bare(i)))
  {
    if i < n - 1 {
      ChainAt(n - 1, i);
    }
  }

  lemma {:induction false} RoundOnChain(n: nat)
    requires n > 0
    ensures Round(DEFAULT_PASSES, OneBlock(Chain(n), None)) == OneBlock(Chain(n - 1), None)
  {
    var c := OneBlock(Chain(n), None);
    ReachesRefl(c, 0);
    DeadCode.RetainShrinks(c.blocks, ReachableSet(c));
    assert Apply(DeadCodeElimination, c) == c;
    ChainNotFolded(n);
    assert ConstFold.FoldBlocks(c.blocks) == c.blocks;
    assert Apply(ConstantFolding, c) == c;
    OneBlockEliminated(Chain(n), None);
    DeadChainLosesLast(n);
    var d := OneBlock(Chain(n - 1), None);
    assert Apply(DeadStoreElimination, c) == d;
    hide Apply;
    assert DEFAULT_PASSES[1..] == [ConstantFolding, DeadStoreElimination];
    assert [ConstantFolding, DeadStoreElimination][1..] == [DeadStoreElimination];
    assert [DeadStoreElimination][1..] == [];
    assert Round([DeadStoreElimination], c) == Round([], d) == d;
    assert Round([ConstantFolding, DeadStoreElimination], c) == d;
  }

  /** The default pipeline removes exactly `k` links of a dead chain in `k` rounds, so with its cap of
      three it leaves dead stores behind in any longer chain. */
  lemma {:induction false} CapLeavesDeadStores(n: nat, k: nat)
    ensures Pipeline(DEFAULT_PASSES, k, OneBlock(Chain(n + k), None)) == OneBlock(Chain(n), None)
    decreases k
  {
    hide Round, RoundChanges, OneBlock, Chain, Apply;
    if k > 0 {
      RoundOnChain(n + k);
      ChainShrinks(n + k);
      RoundShrinks(DEFAULT_PASSES, OneBlock(Chain(n + k), None));
      CapLeavesDeadStores(n, k - 1);
    }
  }

  lemma {:induction false} ChainShrinks(n: nat)
    requires n > 0
    ensures OneBlock(Chain(n), None) != OneBlock(Chain(n - 1), None)
  {
    assert OneBlock(Chain(n), None).blocks[0].stmts != OneBlock(Chain(n - 1), None).blocks[0].stmts;
  }
}
