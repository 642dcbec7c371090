/** Removal of the blocks that the entry cannot reach. */
module DeadCode {
  import opened Wrappers
  import opened Hir
  import opened HirSemantics
  import opened CfgGraph

  /** The blocks whose id is in `keep`, in order. */
  function Retain(blocks: seq<HirBlock>, keep: set<BlockId>): seq<HirBlock>
  {
    if blocks == [] then []
    else (if blocks[0].id in keep then [blocks[0]] else []) + Retain(blocks[1..], keep)
  }

  ghost function RemoveDead(c: Cfg): Cfg
  {
    c.(blocks := Retain(c.blocks, ReachableSet(c)))
  }

  lemma {:induction false} RetainAppend(xs: seq<HirBlock>, b: HirBlock, keep: set<BlockId>)
    ensures Retain(xs + [b], keep) == Retain(xs, keep) + (if b.id in keep then [b] else [])
  {
    if xs != [] {
      assert (xs + [b])[1..] == xs[1..] + [b];
      RetainAppend(xs[1..], b, keep);
    } else {
      assert xs + [b] == [b];
    }
  }

  lemma {:induction false} RetainShrinks(blocks: seq<HirBlock>, keep: set<BlockId>)
    ensures |Retain(blocks, keep)| <= |blocks|
    ensures |Retain(blocks, keep)| == |blocks| <==> Retain(blocks, keep) == blocks
    ensures Retain(blocks, keep) == blocks <==> forall b | b in blocks :: b.id in keep
  {
    if blocks != [] {
      RetainShrinks(blocks[1..], keep);
      assert blocks == [blocks[0]] + blocks[1..];
    }
  }

  lemma {:induction false} RetainMembers(blocks: seq<HirBlock>, keep: set<BlockId>)
    ensures forall b :: b in Retain(blocks, keep) <==> b in blocks && b.id in keep
  {
    if blocks != [] {
      RetainMembers(blocks[1..], keep);
    }
  }

  lemma {:induction false} RetainFind(blocks: seq<HirBlock>, keep: set<BlockId>, id: BlockId)
    ensures FindBlock(Retain(blocks, keep), id) == if id in keep then FindBlock(blocks, id) else None
  {
    if blocks != [] {
      var first, rest := blocks[0], Retain(blocks[1..], keep);
      RetainFind(blocks[1..], keep, id);
      if first.id in keep {
        assert Retain(blocks, keep) == [first] + rest;
        assert ([first] + rest)[1..] == rest;
      } else {
        assert Retain(blocks, keep) == rest;
      }
    }
  }

  /** The pass: mark, then retain; it reports a change exactly when it removed something. */
  method RunOnBody(body: HirBody) returns (changed: bool)
    modifies body`blocks
    ensures body.View() == RemoveDead(old(body.View()))
    ensures changed <==> body.View() != old(body.View())
  {
    var reachable := ComputeReachable(body);
    var blocks, kept := body.blocks, [];
    for i := 0 to |blocks|
      invariant kept == Retain(blocks[..i], reachable)
    {
      assert blocks[..i+1] == blocks[..i] + [blocks[i]];
      RetainAppend(blocks[..i], blocks[i], reachable);
      if blocks[i].id in reachable {
        kept := kept + [blocks[i]];
      }
    }
    assert blocks[..|blocks|] == blocks;
    RetainShrinks(blocks, reachable);
    changed := |kept| < |blocks|;
    body.blocks := kept;
  }

  // ----- What is kept -----

  /** Exactly the blocks reachable from the entry survive. */
  lemma {:induction false} KeepsExactlyTheReachable(c: Cfg)
    ensures forall b :: b in RemoveDead(c).blocks <==> b in c.blocks && Reaches(c, c.entry, b.id)
  {
    RetainMembers(c.blocks, ReachableSet(c));
  }

  lemma {:induction false} EdgesOfReachable(c: Cfg, a: BlockId, b: BlockId)
    ensures Edge(RemoveDead(c), a, b) <==> Edge(c, a, b) && Reaches(c, c.entry, a)
  {
    RetainFind(c.blocks, ReachableSet(c), a);
  }

  lemma {:induction false} PathSurvives(c: Cfg, p: seq<BlockId>)
    requires IsPath(c, p) && p[0] == c.entry
    ensures IsPath(RemoveDead(c), p)
  {
    forall i | 0 <= i < |p| - 1 ensures Edge(RemoveDead(c), p[i], p[i+1]) {
      var q := p[..i+1];
      forall j | 0 <= j < |q| - 1 ensures Edge(c, q[j], q[j+1]) {
        assert Edge(c, p[j], p[j+1]);
      }
      assert IsPathFromTo(c, q, c.entry, p[i]);
      EdgesOfReachable(c, p[i], p[i+1]);
    }
  }

  lemma {:induction false} SameReachable(c: Cfg)
    ensures ReachableSet(RemoveDead(c)) == ReachableSet(c)
  {
    var d := RemoveDead(c);
    forall id ensures Reaches(d, d.entry, id) <==> Reaches(c, c.entry, id) {
      if Reaches(c, c.entry, id) {
        var p :| IsPathFromTo(c, p, c.entry, id);
        PathSurvives(c, p);
        assert IsPathFromTo(d, p, d.entry, id);
      }
      if Reaches(d, d.entry, id) {
        var p :| IsPathFromTo(d, p, d.entry, id);
        forall i | 0 <= i < |p| - 1 ensures Edge(c, p[i], p[i+1]) {
          assert Edge(d, p[i], p[i+1]);
          EdgesOfReachable(c, p[i], p[i+1]);
        }
        assert IsPathFromTo(c, p, c.entry, id);
      }
    }
  }

  lemma {:induction false} RemoveDeadIdempotent(c: Cfg)
    ensures RemoveDead(RemoveDead(c)) == RemoveDead(c)
  {
    SameReachable(c);
    RetainMembers(c.blocks, ReachableSet(c));
    RetainShrinks(RemoveDead(c).blocks, ReachableSet(c));
  }

  // ----- Every run is unchanged -----

  lemma {:induction false} ReachableIsFound(c: Cfg, id: BlockId)
    requires Reaches(c, c.entry, id)
    ensures FindBlock(RemoveDead(c).blocks, id) == FindBlock(c.blocks, id)
  {
    RetainFind(c.blocks, ReachableSet(c), id);
  }

  lemma {:induction false} JumpStaysReachable(env: Env, c: Cfg, id: BlockId, b: HirBlock, st: State)
    requires Reaches(c, c.entry, id) && FindBlock(c.blocks, id) == Some(b)
    ensures var r := ExecBlock(env, b, st);
            r.Val? && r.v.exit.Jump? ==> Reaches(c, c.entry, r.v.exit.target)
  {
    hide ExecBlock;
    var r := ExecBlock(env, b, st);
    BlockJumpsToSuccessor(env, b, st);
    if r.Val? && r.v.exit.Jump? {
      assert Edge(c, id, r.v.exit.target);
      ReachesStep(c, c.entry, id, r.v.exit.target);
    }
  }

  lemma {:induction false} RunUnchanged(env: Env, c: Cfg, id: BlockId, st: State, n: nat)
    requires Reaches(c, c.entry, id)
    ensures Run(env, RemoveDead(c), id, st, n) == Run(env, c, id, st, n)
    decreases n
  {
    hide *;
    if n == 0 {
      RunOut(env, c, id, st);
      RunOut(env, RemoveDead(c), id, st);
    } else {
      RunStep(env, c, id, st, n);
      RunStep(env, RemoveDead(c), id, st, n);
      ReachableIsFound(c, id);
      var b := FindBlock(c.blocks, id);
      if b.Some? {
        JumpStaysReachable(env, c, id, b.value, st);
        var r := ExecBlock(env, b.value, st);
        if r.Val? && r.v.exit.Jump? {
          RunUnchanged(env, c, r.v.exit.target, r.v.state, n - 1);
        }
      }
    }
  }

  /** The pass is invisible: returning, trapping, getting stuck and running on all stay as they were,
      from every store, for every environment and any number of blocks. */
  lemma {:induction false} RemoveDeadPreservesRuns(env: Env, c: Cfg, store: Store, n: nat)
    ensures Run(env, RemoveDead(c), c.entry, Start(store), n) == Run(env, c, c.entry, Start(store), n)
  {
    ReachesRefl(c, c.entry);
    RunUnchanged(env, c, c.entry, Start(store), n);
  }

  lemma {:induction false} RemoveDeadRefines(c: Cfg)
    ensures Refines(c, RemoveDead(c))
  {
    forall env: Env, store: Store, n: nat
      ensures Run(env, RemoveDead(c), c.entry, Start(store), n) == Run(env, c, c.entry, Start(store), n)
    {
      RemoveDeadPreservesRuns(env, c, store, n);
    }
  }
}
