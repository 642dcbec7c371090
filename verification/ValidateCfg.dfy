/** Validation of a control-flow graph, with the diagnostics it emits. */
module ValidateCfg {
  import opened Diag
  import opened Hir
  import opened HirSemantics
  import opened CfgGraph

  // ----- What is accepted -----

  ghost predicate TargetsExist(c: Cfg)
  {
    forall b, t | b in c.blocks && t in Successors(b.terminator) :: t in BlockIds(c.blocks)
  }

  ghost predicate Accepted(c: Cfg)
  {
    c.entry in BlockIds(c.blocks) && UniqueIds(c.blocks) && TargetsExist(c)
  }

  // ----- Reaching a return, over all blocks that carry an id -----

  ghost predicate Link(c: Cfg, a: BlockId, b: BlockId)
  {
    exists block :: block in c.blocks && block.id == a && b in Successors(block.terminator)
  }

  ghost predicate IsReturnId(c: Cfg, id: BlockId)
  {
    exists b :: b in c.blocks && b.id == id && b.terminator.Return?
  }

  ghost predicate LinkPath(c: Cfg, p: seq<BlockId>)
  {
    p != [] && forall i | 0 <= i < |p| - 1 :: Link(c, p[i], p[i+1])
  }

  ghost predicate CanReturn(c: Cfg, id: BlockId)
  {
    exists p :: LinkPath(c, p) && p[0] == id && IsReturnId(c, p[|p|-1])
  }

  lemma {:induction false} CanReturnBack(c: Cfg, a: BlockId, b: BlockId)
    requires Link(c, a, b) && CanReturn(c, b)
    ensures CanReturn(c, a)
  {
    var p :| LinkPath(c, p) && p[0] == b && IsReturnId(c, p[|p|-1]);
    var q := [a] + p;
    forall i | 0 <= i < |q| - 1 ensures Link(c, q[i], q[i+1]) {
      assert i > 0 ==> Link(c, p[i-1], p[i]);
    }
    assert LinkPath(c, q);
  }

  lemma {:induction false} BackwardClosed(c: Cfg, s: set<BlockId>, p: seq<BlockId>)
    requires forall id | IsReturnId(c, id) :: id in s
    requires forall a, b | b in s && Link(c, a, b) :: a in s
    requires LinkPath(c, p) && IsReturnId(c, p[|p|-1])
    ensures p[0] in s
  {
    if |p| > 1 {
      assert Link(c, p[0], p[1]);
      forall i | 0 <= i < |p[1..]| - 1 ensures Link(c, p[1..][i], p[1..][i+1]) {
        assert Link(c, p[i+1], p[i+2]);
      }
      BackwardClosed(c, s, p[1..]);
    }
  }

  // ----- The diagnostics, in order -----

  function EntryMissing(): Diagnostic { MakeError(9001, NoLoc) }
  function DuplicateIds(): Diagnostic { MakeError(9002, NoLoc) }
  function DanglingTarget(b: HirBlock): Diagnostic { MakeError(9003, At(b.span)) }
  function UnreachableBlock(b: HirBlock): Diagnostic { MakeWarning(9004, At(b.span)) }
  function MayNotReturn(b: HirBlock): Diagnostic { MakeWarning(9005, At(b.span)) }

  function DanglingOf(b: HirBlock, targets: seq<BlockId>, ids: set<BlockId>): seq<Diagnostic>
  {
    if targets == [] then []
    else
      DanglingOf(b, targets[..|targets|-1], ids) +
      (if targets[|targets|-1] in ids then [] else [DanglingTarget(b)])
  }

  function DanglingDiags(blocks: seq<HirBlock>, ids: set<BlockId>): seq<Diagnostic>
  {
    if blocks == [] then []
    else
      var b := blocks[|blocks|-1];
      DanglingDiags(blocks[..|blocks|-1], ids) + DanglingOf(b, Successors(b.terminator), ids)
  }

  ghost predicate IsUnreachable(c: Cfg, b: HirBlock) { !Reaches(c, c.entry, b.id) }

  ghost predicate IsStranded(c: Cfg, b: HirBlock)
  {
    Reaches(c, c.entry, b.id) && !CanReturn(c, b.id) && !b.terminator.Unreachable?
  }

  ghost function UnreachableDiags(c: Cfg, blocks: seq<HirBlock>): seq<Diagnostic>
  {
    if blocks == [] then []
    else
      var b := blocks[|blocks|-1];
      UnreachableDiags(c, blocks[..|blocks|-1]) + (if IsUnreachable(c, b) then [UnreachableBlock(b)] else [])
  }

  ghost function StrandedDiags(c: Cfg, blocks: seq<HirBlock>): seq<Diagnostic>
  {
    if blocks == [] then []
    else
      var b := blocks[|blocks|-1];
      StrandedDiags(c, blocks[..|blocks|-1]) + (if IsStranded(c, b) then [MayNotReturn(b)] else [])
  }

  ghost function ReturnDiags(c: Cfg): seq<Diagnostic>
  {
    if exists id :: IsReturnId(c, id) then StrandedDiags(c, c.blocks) else []
  }

  ghost function CfgDiags(c: Cfg): seq<Diagnostic>
  {
    if c.entry !in BlockIds(c.blocks) then [EntryMissing()]
    else
      (if UniqueIds(c.blocks) then [] else [DuplicateIds()]) +
      DanglingDiags(c.blocks, BlockIds(c.blocks)) +
      UnreachableDiags(c, c.blocks) +
      ReturnDiags(c)
  }

  // ----- The validator -----

  type Preds = map<BlockId, seq<BlockId>>

  ghost predicate Recorded(preds: Preds, a: BlockId, b: BlockId) { b in preds && a in preds[b] }

  method AddPredecessors(preds: Preds, id: BlockId, succs: seq<BlockId>) returns (out: Preds)
    ensures forall a, b :: Recorded(out, a, b) <==> Recorded(preds, a, b) || (a == id && b in succs)
  {
    out := preds;
    for i := 0 to |succs|
      invariant forall a, b :: Recorded(out, a, b) <==> Recorded(preds, a, b) || (a == id && b in succs[..i])
    {
      var s := succs[i];
      assert succs[..i+1] == succs[..i] + [s];
      out := out[s := (if s in out then out[s] else []) + [id]];
    }
    assert succs[..|succs|] == succs;
  }

  method ComputePredecessors(blocks: seq<HirBlock>) returns (preds: Preds)
    ensures forall a, b :: Recorded(preds, a, b) <==>
              exists block :: block in blocks && block.id == a && b in Successors(block.terminator)
  {
    preds := map[];
    for i := 0 to |blocks|
      invariant forall a, b :: Recorded(preds, a, b) <==>
                  exists block :: block in blocks[..i] && block.id == a && b in Successors(block.terminator)
    {
      assert blocks[..i+1] == blocks[..i] + [blocks[i]];
      preds := AddPredecessors(preds, blocks[i].id, Successors(blocks[i].terminator));
    }
    assert blocks[..|blocks|] == blocks;
  }

  /** The elements of a set in some order, as a hash set yields them. */
  method Listed(s: set<BlockId>) returns (list: seq<BlockId>)
    ensures forall x :: x in list <==> x in s
  {
    list := [];
    var rest := s;
    while rest != {}
      invariant rest <= s
      invariant forall x :: x in s <==> x in list || x in rest
      decreases rest
    {
      var x :| x in rest;
      list := list + [x];
      rest := rest - {x};
    }
  }

  /** Marks the predecessors of a popped id; the ones that are new go on the worklist. */
  method PushPredecessors(ps: seq<BlockId>, marked: set<BlockId>, list: seq<BlockId>)
    returns (canReach: set<BlockId>, worklist: seq<BlockId>)
    ensures canReach == marked + (set p | p in ps)
    ensures forall x :: x in worklist <==> x in list || (x in ps && x !in marked)
    ensures canReach == marked ==> worklist == list
  {
    canReach, worklist := marked, list;
    for i := 0 to |ps|
      invariant canReach == marked + (set p | p in ps[..i])
      invariant forall x :: x in worklist <==> x in list || (x in ps[..i] && x !in marked)
      invariant canReach == marked ==> worklist == list
    {
      var p := ps[i];
      assert ps[..i+1] == ps[..i] + [p];
      if p !in canReach {
        canReach := canReach + {p};
        worklist := worklist + [p];
      }
    }
    assert ps[..|ps|] == ps;
  }

  method ComputeCanReach(ghost c: Cfg, preds: Preds, targets: set<BlockId>) returns (canReach: set<BlockId>)
    requires forall a, b :: Recorded(preds, a, b) <==> Link(c, a, b)
    requires forall id :: id in targets <==> IsReturnId(c, id)
    ensures forall id :: id in canReach <==> CanReturn(c, id)
  {
    hide Link, IsReturnId, CanReturn, LinkPath;
    canReach := targets;
    var worklist := Listed(targets);
    forall id | id in targets ensures CanReturn(c, id) {
      ReturnCanReturn(c, id);
    }
    ghost var all := targets + BlockIds(c.blocks);
    while worklist != []
      invariant targets <= canReach <= all
      invariant forall id | id in canReach :: CanReturn(c, id)
      invariant forall x | x in worklist :: x in canReach
      invariant forall a, b | b in canReach && Link(c, a, b) :: a in canReach || b in worklist
      decreases all - canReach, |worklist|
    {
      var id := worklist[|worklist|-1];
      ghost var before, had := worklist, canReach;
      var rest := worklist[..|worklist|-1];
      assert before == rest + [id];
      var ps := if id in preds then preds[id] else [];
      forall p | p in ps ensures CanReturn(c, p) && p in all {
        assert Recorded(preds, p, id);
        CanReturnBack(c, p, id);
        LinkedIsBlock(c, p, id);
      }
      canReach, worklist := PushPredecessors(ps, canReach, rest);
      forall a, b | b in canReach && Link(c, a, b) ensures a in canReach || b in worklist {
        assert Recorded(preds, a, b);
        assert b in had || b in ps;
      }
    }
    forall id | CanReturn(c, id) ensures id in canReach {
      CanReturnIsInside(c, canReach, id);
    }
  }

  lemma {:induction false} LinkedIsBlock(c: Cfg, a: BlockId, b: BlockId)
    requires Link(c, a, b)
    ensures a in BlockIds(c.blocks)
  {
  }

  lemma {:induction false} ReturnCanReturn(c: Cfg, id: BlockId)
    requires IsReturnId(c, id)
    ensures CanReturn(c, id)
  {
    assert LinkPath(c, [id]) && [id][0] == id;
  }

  lemma {:induction false} CanReturnIsInside(c: Cfg, s: set<BlockId>, id: BlockId)
    requires forall r | IsReturnId(c, r) :: r in s
    requires forall a, b | b in s && Link(c, a, b) :: a in s
    requires CanReturn(c, id)
    ensures id in s
  {
    var p :| LinkPath(c, p) && p[0] == id && IsReturnId(c, p[|p|-1]);
    BackwardClosed(c, s, p);
  }

  method WarnStranded(body: HirBody, reachable: set<BlockId>, canReach: set<BlockId>, sink: DiagSink)
    requires sink.Valid() && reachable == ReachableSet(body.View())
    requires forall id :: id in canReach <==> CanReturn(body.View(), id)
    modifies sink
    ensures sink.Valid() && sink.errorLimit == old(sink.errorLimit)
    ensures sink.log == old(sink.log) + StrandedDiags(body.View(), body.blocks)
  {
    hide IsStranded, DiagSink.Valid, ReachableSet, CanReturn;
    ghost var c := body.View();
    var blocks := body.blocks;
    for i := 0 to |blocks|
      invariant sink.Valid() && sink.errorLimit == old(sink.errorLimit)
      invariant sink.log == old(sink.log) + StrandedDiags(c, blocks[..i])
    {
      var b := blocks[i];
      assert blocks[..i+1][..i] == blocks[..i];
      StrandedIff(c, b, reachable, canReach);
      if b.id in reachable && b.id !in canReach && !b.terminator.Unreachable? {
        sink.Emit(MayNotReturn(b));
      }
    }
    assert blocks[..|blocks|] == blocks;
  }

  function ReturnIds(blocks: seq<HirBlock>): set<BlockId>
  {
    set b | b in blocks && b.terminator.Return? :: b.id
  }

  lemma {:induction false} ReturnIdsExact(c: Cfg)
    ensures forall id :: id in ReturnIds(c.blocks) <==> IsReturnId(c, id)
  {
  }

  method ValidateReturns(body: HirBody, reachable: set<BlockId>, sink: DiagSink)
    requires sink.Valid() && reachable == ReachableSet(body.View())
    modifies sink
    ensures sink.Valid() && sink.errorLimit == old(sink.errorLimit)
    ensures sink.log == old(sink.log) + ReturnDiags(body.View())
  {
    hide DiagSink.Valid, ReachableSet, CanReturn, StrandedDiags;
    ghost var c := body.View();
    var blocks := body.blocks;
    var predecessors := ComputePredecessors(blocks);
    var returnBlocks := ReturnIds(blocks);
    ReturnIdsExact(c);
    if returnBlocks == {} {
      return;
    }
    ghost var id :| id in returnBlocks;
    var canReach := ComputeCanReach(c, predecessors, returnBlocks);
    WarnStranded(body, reachable, canReach, sink);
  }

  lemma {:induction false} StrandedIff(c: Cfg, b: HirBlock, reachable: set<BlockId>, canReach: set<BlockId>)
    requires reachable == ReachableSet(c)
    requires forall id :: id in canReach <==> CanReturn(c, id)
    ensures IsStranded(c, b) <==> b.id in reachable && b.id !in canReach && !b.terminator.Unreachable?
  {
  }

  method CheckTargets(b: HirBlock, ids: set<BlockId>, sink: DiagSink) returns (valid: bool)
    requires sink.Valid()
    modifies sink
    ensures sink.Valid() && sink.errorLimit == old(sink.errorLimit)
    ensures sink.log == old(sink.log) + DanglingOf(b, Successors(b.terminator), ids)
    ensures valid <==> forall t | t in Successors(b.terminator) :: t in ids
  {
    hide DiagSink.Valid;
    var targets := Successors(b.terminator);
    valid := true;
    for i := 0 to |targets|
      invariant sink.Valid() && sink.errorLimit == old(sink.errorLimit)
      invariant sink.log == old(sink.log) + DanglingOf(b, targets[..i], ids)
      invariant valid <==> forall t | t in targets[..i] :: t in ids
    {
      assert targets[..i+1][..i] == targets[..i];
      assert targets[..i+1] == targets[..i] + [targets[i]];
      if targets[i] !in ids {
        sink.Emit(DanglingTarget(b));
        valid := false;
      }
    }
    assert targets[..|targets|] == targets;
  }

  method CheckAllTargets(blocks: seq<HirBlock>, ids: set<BlockId>, sink: DiagSink) returns (valid: bool)
    requires sink.Valid()
    modifies sink
    ensures sink.Valid() && sink.errorLimit == old(sink.errorLimit)
    ensures sink.log == old(sink.log) + DanglingDiags(blocks, ids)
    ensures valid <==> forall b, t | b in blocks && t in Successors(b.terminator) :: t in ids
  {
    hide DiagSink.Valid, DanglingOf, Successors;
    valid := true;
    for i := 0 to |blocks|
      invariant sink.Valid() && sink.errorLimit == old(sink.errorLimit)
      invariant sink.log == old(sink.log) + DanglingDiags(blocks[..i], ids)
      invariant valid <==> forall b, t | b in blocks[..i] && t in Successors(b.terminator) :: t in ids
    {
      assert blocks[..i+1][..i] == blocks[..i];
      assert blocks[..i+1] == blocks[..i] + [blocks[i]];
      var ok := CheckTargets(blocks[i], ids, sink);
      if !ok {
        valid := false;
      }
    }
    assert blocks[..|blocks|] == blocks;
  }

  method WarnUnreachable(body: HirBody, reachable: set<BlockId>, sink: DiagSink)
    requires sink.Valid() && reachable == ReachableSet(body.View())
    modifies sink
    ensures sink.Valid() && sink.errorLimit == old(sink.errorLimit)
    ensures sink.log == old(sink.log) + UnreachableDiags(body.View(), body.blocks)
  {
    hide DiagSink.Valid;
    ghost var c := body.View();
    var blocks := body.blocks;
    for i := 0 to |blocks|
      invariant sink.Valid() && sink.errorLimit == old(sink.errorLimit)
      invariant sink.log == old(sink.log) + UnreachableDiags(c, blocks[..i])
    {
      assert blocks[..i+1][..i] == blocks[..i];
      if blocks[i].id !in reachable {
        sink.Emit(UnreachableBlock(blocks[i]));
      }
    }
    assert blocks[..|blocks|] == blocks;
  }

  lemma {:induction false} UniqueCons(blocks: seq<HirBlock>)
    requires blocks != []
    ensures UniqueIds(blocks) <==> UniqueIds(blocks[1..]) && blocks[0].id !in BlockIds(blocks[1..])
  {
    var rest := blocks[1..];
    if blocks[0].id in BlockIds(rest) {
      var b :| b in rest && b.id == blocks[0].id;
      var i :| 0 <= i < |rest| && rest[i] == b;
      assert blocks[i+1].id == blocks[0].id;
    } else if UniqueIds(rest) {
      forall i, j | 0 <= i < j < |blocks| ensures blocks[i].id != blocks[j].id {
        assert blocks[j] == rest[j-1];
        assert i > 0 ==> blocks[i] == rest[i-1];
      }
    } else {
      var i, j :| 0 <= i < j < |rest| && rest[i].id == rest[j].id;
      assert blocks[i+1].id == blocks[j+1].id;
    }
  }

  lemma {:induction false} DistinctIdsCount(blocks: seq<HirBlock>)
    ensures |BlockIds(blocks)| <= |blocks|
    ensures |BlockIds(blocks)| == |blocks| <==> UniqueIds(blocks)
  {
    if blocks != [] {
      var rest := blocks[1..];
      DistinctIdsCount(rest);
      UniqueCons(blocks);
      assert BlockIds(blocks) == BlockIds(rest) + {blocks[0].id} by {
        assert forall b :: b in blocks <==> b == blocks[0] || b in rest;
      }
      hide UniqueIds;
      if blocks[0].id in BlockIds(rest) {
        assert BlockIds(blocks) == BlockIds(rest);
      }
    }
  }

  /** True exactly for the accepted bodies; the diagnostics are those of `CfgDiags`, in that order. */
  method Validate(body: HirBody, sink: DiagSink) returns (valid: bool)
    requires sink.Valid()
    modifies sink
    ensures sink.Valid() && sink.errorLimit == old(sink.errorLimit)
    ensures valid <==> Accepted(body.View())
    ensures sink.log == old(sink.log) + CfgDiags(body.View())
  {
    hide *;
    var blocks := body.blocks;
    ghost var c, log := body.View(), sink.log;
    ViewParts(body);
    EntryPresent(c);
    AcceptedParts(c);
    if forall b | b in blocks :: b.id != body.entryBlock {
      sink.Emit(EntryMissing());
      return false;
    }
    var ids := BlockIds(blocks);
    valid := true;
    DistinctIdsCount(blocks);
    if |ids| != |blocks| {
      sink.Emit(DuplicateIds());
      valid := false;
    } else {
      assert sink.log == log + [];
    }
    var targetsOk := CheckAllTargets(blocks, ids, sink);
    if !targetsOk {
      valid := false;
    }
    var reachable := ComputeReachable(body);
    WarnUnreachable(body, reachable, sink);
    ValidateReturns(body, reachable, sink);
    Regroup(log, if UniqueIds(blocks) then [] else [DuplicateIds()], DanglingDiags(blocks, ids),
            UnreachableDiags(c, blocks), ReturnDiags(c));
  }

  lemma {:induction false} ViewParts(body: HirBody)
    ensures body.View().blocks == body.blocks && body.View().entry == body.entryBlock
  {
  }

  lemma {:induction false} EntryPresent(c: Cfg)
    ensures c.entry in BlockIds(c.blocks) <==> !(forall b | b in c.blocks :: b.id != c.entry)
    ensures CfgDiags(c) ==
            if c.entry !in BlockIds(c.blocks) then [EntryMissing()]
            else
              (if UniqueIds(c.blocks) then [] else [DuplicateIds()]) +
              DanglingDiags(c.blocks, BlockIds(c.blocks)) +
              UnreachableDiags(c, c.blocks) +
              ReturnDiags(c)
  {
    hide UniqueIds, DanglingDiags, UnreachableDiags, ReturnDiags;
  }

  lemma {:induction false} AcceptedParts(c: Cfg)
    ensures Accepted(c) <==>
              && c.entry in BlockIds(c.blocks) && UniqueIds(c.blocks)
              && forall b, t | b in c.blocks && t in Successors(b.terminator) :: t in BlockIds(c.blocks)
  {
  }

  lemma {:induction false} Regroup<T>(o: seq<T>, a: seq<T>, b: seq<T>, d: seq<T>, e: seq<T>)
    ensures o + a + b + d + e == o + (a + b + d + e)
  {
  }

  // ----- What is reported -----

  /** Without its entry block a body draws that error alone. Otherwise these are all the reports: an error when
      ids repeat, one where a jump has no target, a warning at a block that the entry does not reach, and, when
      there is a return at all, one at a reached block from which none can be. */
  lemma {:induction false} ReportsAre(c: Cfg, d: Diagnostic)
    ensures c.entry !in BlockIds(c.blocks) ==> CfgDiags(c) == [Diagnostic(Error, 9001, NoLoc, 1)]
    ensures c.entry in BlockIds(c.blocks) ==>
              (d in CfgDiags(c) <==>
                || (!UniqueIds(c.blocks) && d == Diagnostic(Error, 9002, NoLoc, 1))
                || (exists b, t | b in c.blocks && t in Successors(b.terminator) ::
                      t !in BlockIds(c.blocks) && d == Diagnostic(Error, 9003, At(b.span), 1))
                || (exists b | b in c.blocks ::
                      !Reaches(c, c.entry, b.id) && d == Diagnostic(Warning, 9004, At(b.span), 1))
                || ((exists id :: IsReturnId(c, id)) &&
                    exists b | b in c.blocks ::
                      && Reaches(c, c.entry, b.id) && !CanReturn(c, b.id) && !b.terminator.Unreachable?
                      && d == Diagnostic(Warning, 9005, At(b.span), 1)))
  {
    hide UniqueIds, Reaches, CanReturn, IsReturnId, DanglingDiags, UnreachableDiags, StrandedDiags, Successors;
    DanglingAre(c.blocks, BlockIds(c.blocks), d);
    UnreachableAre(c, c.blocks, d);
    StrandedAre(c, c.blocks, d);
  }

  lemma {:induction false} DanglingAre(blocks: seq<HirBlock>, ids: set<BlockId>, d: Diagnostic)
    ensures d in DanglingDiags(blocks, ids) <==>
              exists b, t | b in blocks && t in Successors(b.terminator) ::
                t !in ids && d == Diagnostic(Error, 9003, At(b.span), 1)
  {
    hide DanglingOf, Successors;
    if blocks != [] {
      var front, last := blocks[..|blocks|-1], blocks[|blocks|-1];
      assert forall b :: b in blocks <==> b in front || b == last;
      DanglingAre(front, ids, d);
      DanglingOfAre(last, Successors(last.terminator), ids, d);
    }
  }

  lemma {:induction false} DanglingOfAre(b: HirBlock, targets: seq<BlockId>, ids: set<BlockId>, d: Diagnostic)
    ensures d in DanglingOf(b, targets, ids) <==>
              (exists t | t in targets :: t !in ids) && d == Diagnostic(Error, 9003, At(b.span), 1)
  {
    if targets != [] {
      var front, last := targets[..|targets|-1], targets[|targets|-1];
      assert forall t :: t in targets <==> t in front || t == last;
      DanglingOfAre(b, front, ids, d);
    }
  }

  lemma {:induction false} UnreachableAre(c: Cfg, blocks: seq<HirBlock>, d: Diagnostic)
    ensures d in UnreachableDiags(c, blocks) <==>
              exists b | b in blocks :: !Reaches(c, c.entry, b.id) && d == Diagnostic(Warning, 9004, At(b.span), 1)
  {
    hide Reaches;
    if blocks != [] {
      var front, last := blocks[..|blocks|-1], blocks[|blocks|-1];
      assert forall b :: b in blocks <==> b in front || b == last;
      UnreachableAre(c, front, d);
    }
  }

  lemma {:induction false} StrandedAre(c: Cfg, blocks: seq<HirBlock>, d: Diagnostic)
    ensures d in StrandedDiags(c, blocks) <==>
              exists b | b in blocks ::
                && Reaches(c, c.entry, b.id) && !CanReturn(c, b.id) && !b.terminator.Unreachable?
                && d == Diagnostic(Warning, 9005, At(b.span), 1)
  {
    hide Reaches, CanReturn;
    if blocks != [] {
      var front, last := blocks[..|blocks|-1], blocks[|blocks|-1];
      assert forall b :: b in blocks <==> b in front || b == last;
      StrandedAre(c, front, d);
    }
  }

  // ----- What acceptance is good for -----

  lemma {:induction false} FoundIfPresent(blocks: seq<HirBlock>, id: BlockId)
    ensures FindBlock(blocks, id).Some? <==> id in BlockIds(blocks)
  {
  }

  lemma {:induction false} BlockJumpsInside(env: Env, c: Cfg, b: HirBlock, st: State)
    requires TargetsExist(c) && b in c.blocks
    ensures var r := ExecBlock(env, b, st);
            r.Val? && r.v.exit.Jump? ==> r.v.exit.target in BlockIds(c.blocks)
  {
    hide ExecBlock;
    BlockJumpsToSuccessor(env, b, st);
  }

  /** No run of an accepted body ever looks for a block that is not there. */
  lemma {:induction false} AcceptedNeverMissesBlock(env: Env, c: Cfg, id: BlockId, st: State, n: nat)
    requires TargetsExist(c) && id in BlockIds(c.blocks)
    ensures !Run(env, c, id, st, n).MissingBlock?
    decreases n
  {
    hide Run, ExecBlock, TargetsExist, BlockIds;
    if n == 0 {
      RunOut(env, c, id, st);
    } else {
      RunStep(env, c, id, st, n);
      FoundIfPresent(c.blocks, id);
      var b := FindBlock(c.blocks, id).value;
      BlockJumpsInside(env, c, b, st);
      var r := ExecBlock(env, b, st);
      if r.Val? && r.v.exit.Jump? {
        AcceptedNeverMissesBlock(env, c, r.v.exit.target, r.v.state, n - 1);
      }
    }
  }

  /** On a body with unique ids the two notions of an edge coincide, so the warning about blocks that
      cannot return speaks of the same paths that runs follow. */
  lemma {:induction false} LinkIsEdge(c: Cfg, a: BlockId, b: BlockId)
    requires UniqueIds(c.blocks)
    ensures Link(c, a, b) <==> Edge(c, a, b)
  {
    if Link(c, a, b) {
      var block :| block in c.blocks && block.id == a && b in Successors(block.terminator);
      var i :| 0 <= i < |c.blocks| && c.blocks[i] == block;
      FindUnique(c.blocks, i);
    }
  }

  lemma {:induction false} CanReturnMeansReachesReturn(c: Cfg, id: BlockId)
    requires UniqueIds(c.blocks)
    ensures CanReturn(c, id) <==> exists r :: IsReturnId(c, r) && Reaches(c, id, r)
  {
    if CanReturn(c, id) {
      var p :| LinkPath(c, p) && p[0] == id && IsReturnId(c, p[|p|-1]);
      forall i | 0 <= i < |p| - 1 ensures Edge(c, p[i], p[i+1]) {
        LinkIsEdge(c, p[i], p[i+1]);
      }
      assert IsPathFromTo(c, p, id, p[|p|-1]);
    }
    if r :| IsReturnId(c, r) && Reaches(c, id, r) {
      var p :| IsPathFromTo(c, p, id, r);
      forall i | 0 <= i < |p| - 1 ensures Link(c, p[i], p[i+1]) {
        LinkIsEdge(c, p[i], p[i+1]);
      }
      assert LinkPath(c, p);
    }
  }

  /** A block that draws the warning never takes part in a run that returns. */
  lemma {:induction false} StrandedNeverReturns(env: Env, c: Cfg, id: BlockId, st: State, n: nat)
    requires UniqueIds(c.blocks) && !CanReturn(c, id)
    ensures !Run(env, c, id, st, n).Returned?
    decreases n
  {
    hide Run, ExecBlock, CanReturn, UniqueIds;
    if n == 0 {
      RunOut(env, c, id, st);
    } else {
      RunStep(env, c, id, st, n);
      var found := FindBlock(c.blocks, id);
      if found.Some? {
        var b := found.value;
        var r := ExecBlock(env, b, st);
        ReturnsOnlyAtReturn(env, b, st);
        BlockJumpsToSuccessor(env, b, st);
        if r.Val? && r.v.exit.Done? {
          assert IsReturnId(c, id);
          ReturnCanReturn(c, id);
          assert false;
        } else if r.Val? {
          if CanReturn(c, r.v.exit.target) {
            assert Link(c, id, r.v.exit.target);
            CanReturnBack(c, id, r.v.exit.target);
            assert false;
          }
          StrandedNeverReturns(env, c, r.v.exit.target, r.v.state, n - 1);
        }
      }
    }
  }

  lemma {:induction false} ReturnsOnlyAtReturn(env: Env, b: HirBlock, st: State)
    ensures var r := ExecBlock(env, b, st); r.Val? && r.v.exit.Done? ==> b.terminator.Return?
  {
    hide ExecStmts, EvalOperand;
  }
}
