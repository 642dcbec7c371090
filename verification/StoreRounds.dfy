/** Which stores the elimination removes in how many rounds, read off the body itself: a store goes one
    round after the last of the stores that read it. */
module StoreRounds {
  import opened Wrappers
  import opened Hir
  import opened CfgGraph
  import opened Liveness
  import opened DeadStore
  import opened PassManager
  import opened PassRounds
  import DeadCode
  import ConstFold

  // ----- Statements by position -----

  /** A statement of the body: the block it is in, and its position there. */
  datatype Site = Site(block: BlockId, index: nat)

  predicate IsStore(s: HirStmt) { s.Assign? && s.lhs.Local? }

  predicate StoresTo(s: HirStmt, x: LocalId) { s.Assign? && s.lhs == Local(x) }

  /** Inside a block the walk collects what plain stores read; along edges, what any assignment reads. */
  predicate ReadsAs(s: HirStmt, x: LocalId, plainly: bool)
  {
    s.Assign? && x in UsesRvalue(s.rhs) && (plainly ==> s.lhs.Local?)
  }

  ghost predicate IsSite(c: Cfg, s: Site)
  {
    HasBlock(c, s.block) && s.index < |BlockAt(c, s.block).stmts| && IsStore(BlockAt(c, s.block).stmts[s.index])
  }

  ghost function Target(c: Cfg, s: Site): LocalId
    requires IsSite(c, s)
  {
    BlockAt(c, s.block).stmts[s.index].lhs.id
  }

  // ----- Reads of a local, `gone` left out -----

  /** No store to `x` from position `m` up to position `n`. */
  ghost predicate Clear(ss: seq<HirStmt>, id: BlockId, gone: iset<Site>, m: nat, n: nat, x: LocalId)
    requires n <= |ss|
  {
    forall l | m <= l < n :: Site(id, l) in gone || !StoresTo(ss[l], x)
  }

  ghost predicate ReadAt(ss: seq<HirStmt>, id: BlockId, gone: iset<Site>, m: nat, n: nat, x: LocalId, plainly: bool)
  {
    m <= n < |ss| && Site(id, n) !in gone && ReadsAs(ss[n], x, plainly) && Clear(ss, id, gone, m, n, x)
  }

  ghost predicate ReadFrom(ss: seq<HirStmt>, id: BlockId, gone: iset<Site>, m: nat, x: LocalId, plainly: bool)
  {
    exists n: nat :: ReadAt(ss, id, gone, m, n, x, plainly)
  }

  /** The block reads what `x` holds when it is entered; what the terminator reads counts in any case. */
  ghost predicate ReadIn(b: HirBlock, gone: iset<Site>, x: LocalId)
  {
    x in UsesTerminator(b.terminator) || ReadFrom(b.stmts, b.id, gone, 0, x, false)
  }

  ghost predicate Onward(c: Cfg, gone: iset<Site>, id: BlockId, next: BlockId, x: LocalId)
  {
    && HasBlock(c, id) && Edge(c, id, next)
    && Clear(BlockAt(c, id).stmts, id, gone, 0, |BlockAt(c, id).stmts|, x)
  }

  /** A path of blocks without a store to `x`, to one that reads it. */
  ghost predicate ReadPath(c: Cfg, gone: iset<Site>, p: seq<BlockId>, x: LocalId)
  {
    && p != []
    && (forall i | 0 <= i < |p| - 1 :: Onward(c, gone, p[i], p[i+1], x))
    && HasBlock(c, p[|p|-1]) && ReadIn(BlockAt(c, p[|p|-1]), gone, x)
  }

  ghost predicate ReadAfter(c: Cfg, gone: iset<Site>, id: BlockId, x: LocalId)
  {
    exists p :: ReadPath(c, gone, p, x) && p[0] == id
  }

  /** What the store at `s` puts is read: further on in its block, at its end, or along a path from it. */
  ghost predicate StillRead(c: Cfg, gone: iset<Site>, s: Site)
    requires IsSite(c, s)
  {
    var b, x := BlockAt(c, s.block), Target(c, s);
    || ReadFrom(b.stmts, b.id, gone, s.index + 1, x, true)
    || (Clear(b.stmts, b.id, gone, s.index + 1, |b.stmts|, x) && ReadBehind(c, gone, b, x))
  }

  ghost predicate ReadBehind(c: Cfg, gone: iset<Site>, b: HirBlock, x: LocalId)
  {
    x in UsesTerminator(b.terminator) || exists t :: t in Successors(b.terminator) && ReadAfter(c, gone, t, x)
  }

  /** The store goes within `k` rounds: within fewer; or whatever reads it, along paths without another
      store to its target, is a store that goes within `k - 1`. Both the stores that read and the stores
      that stand in between count only if they do not go within `k - 1`. */
  ghost predicate GoesWithin(c: Cfg, s: Site, k: nat)
    decreases k, 0
  {
    IsSite(c, s) && k > 0 && (GoesWithin(c, s, k - 1) || !StillRead(c, Gone(c, k - 1), s))
  }

  ghost function Gone(c: Cfg, k: nat): iset<Site>
    decreases k, 1
  {
    iset s | GoesWithin(c, s, k)
  }

  // ----- The body without some of its statements -----

  ghost function Left(ss: seq<HirStmt>, id: BlockId, gone: iset<Site>, m: nat): seq<HirStmt>
    decreases |ss| - m
  {
    if m >= |ss| then [] else (if Site(id, m) in gone then [] else [ss[m]]) + Left(ss, id, gone, m + 1)
  }

  ghost function WithoutIn(b: HirBlock, gone: iset<Site>): HirBlock { b.(stmts := Left(b.stmts, b.id, gone, 0)) }

  ghost function WithoutAll(bs: seq<HirBlock>, gone: iset<Site>): (r: seq<HirBlock>)
    ensures |r| == |bs| && forall i | 0 <= i < |bs| :: r[i] == WithoutIn(bs[i], gone)
  {
    if bs == [] then [] else [WithoutIn(bs[0], gone)] + WithoutAll(bs[1..], gone)
  }

  ghost function Without(c: Cfg, gone: iset<Site>): Cfg { c.(blocks := WithoutAll(c.blocks, gone)) }

  lemma {:induction false} LeftCons(s: HirStmt, rest: seq<HirStmt>, after: set<LocalId>)
    ensures LiveBefore([s] + rest, after) == LiveStmt(s, LiveBefore(rest, after))
    ensures Eliminate([s] + rest, after) ==
            (if Keep(s, LiveBefore(rest, after)) then [s] else []) + Eliminate(rest, after)
  {
    assert ([s] + rest)[1..] == rest;
  }

  lemma {:induction false} GenKillCons(s: HirStmt, rest: seq<HirStmt>)
    ensures GenStmts([s] + rest) == UsesStmt(s) + (GenStmts(rest) - DefsStmt(s))
    ensures KillStmts([s] + rest) == DefsStmt(s) + KillStmts(rest)
  {
    assert ([s] + rest)[1..] == rest;
  }

  lemma {:induction false} LeftStep(ss: seq<HirStmt>, id: BlockId, gone: iset<Site>, m: nat)
    requires m < |ss|
    ensures var rest := Left(ss, id, gone, m + 1);
            Left(ss, id, gone, m) == if Site(id, m) in gone then rest else [ss[m]] + rest
  {
  }

  lemma {:induction false} ClearStep(ss: seq<HirStmt>, id: BlockId, gone: iset<Site>, m: nat, n: nat, x: LocalId)
    requires m < n <= |ss|
    ensures Clear(ss, id, gone, m, n, x) <==>
            (Site(id, m) in gone || !StoresTo(ss[m], x)) && Clear(ss, id, gone, m + 1, n, x)
  {
  }

  lemma {:induction false} ReadStep(ss: seq<HirStmt>, id: BlockId, gone: iset<Site>, m: nat, x: LocalId, plainly: bool)
    requires m < |ss|
    ensures ReadFrom(ss, id, gone, m, x, plainly) <==>
            || (Site(id, m) !in gone && ReadsAs(ss[m], x, plainly))
            || ((Site(id, m) in gone || !StoresTo(ss[m], x)) && ReadFrom(ss, id, gone, m + 1, x, plainly))
  {
    hide ReadsAs, StoresTo;
    if n: nat :| ReadAt(ss, id, gone, m, n, x, plainly) {
      if n > m {
        ClearStep(ss, id, gone, m, n, x);
        assert ReadAt(ss, id, gone, m + 1, n, x, plainly);
      }
    }
    if Site(id, m) !in gone && ReadsAs(ss[m], x, plainly) {
      assert ReadAt(ss, id, gone, m, m, x, plainly);
    }
    if Site(id, m) in gone || !StoresTo(ss[m], x) {
      var l := m + 1;
      if n: nat :| ReadAt(ss, id, gone, l, n, x, plainly) {
        ClearStep(ss, id, gone, m, n, x);
        assert ReadAt(ss, id, gone, m, n, x, plainly);
      }
    }
  }

  lemma {:induction false} NothingLeft(ss: seq<HirStmt>, id: BlockId, gone: iset<Site>, x: LocalId, plainly: bool)
    ensures Left(ss, id, gone, |ss|) == [] && !ReadFrom(ss, id, gone, |ss|, x, plainly) &&
            Clear(ss, id, gone, |ss|, |ss|, x)
  {
  }

  /** The backward walk over what is left of a block has `x` live exactly when a plain store left reads it
      first, or nothing left stores to it and it is live at the end. */
  lemma {:induction false} LiveLeft(
      ss: seq<HirStmt>, id: BlockId, gone: iset<Site>, m: nat, after: set<LocalId>, x: LocalId)
    requires m <= |ss|
    ensures x in LiveBefore(Left(ss, id, gone, m), after) <==>
            ReadFrom(ss, id, gone, m, x, true) || (Clear(ss, id, gone, m, |ss|, x) && x in after)
    decreases |ss| - m
  {
    hide Left, ReadFrom, Clear, LiveBefore, Eliminate;
    if m == |ss| {
      NothingLeft(ss, id, gone, x, true);
      assert LiveBefore([], after) == after by { NoneBefore(after); }
    } else {
      LiveLeft(ss, id, gone, m + 1, after, x);
      LeftStep(ss, id, gone, m);
      ReadStep(ss, id, gone, m, x, true);
      ClearStep(ss, id, gone, m, |ss|, x);
      LeftCons(ss[m], Left(ss, id, gone, m + 1), after);
    }
  }

  lemma {:induction false} NoneBefore(after: set<LocalId>)
    ensures LiveBefore([], after) == after && GenStmts([]) == {} && KillStmts([]) == {}
  {
  }

  lemma {:induction false} GenLeft(ss: seq<HirStmt>, id: BlockId, gone: iset<Site>, m: nat, x: LocalId)
    requires m <= |ss|
    ensures x in GenStmts(Left(ss, id, gone, m)) <==> ReadFrom(ss, id, gone, m, x, false)
    ensures x in KillStmts(Left(ss, id, gone, m)) <==> !Clear(ss, id, gone, m, |ss|, x)
    decreases |ss| - m
  {
    hide Left, ReadFrom, Clear, GenStmts, KillStmts;
    if m == |ss| {
      NothingLeft(ss, id, gone, x, false);
      NoneBefore({});
    } else {
      GenLeft(ss, id, gone, m + 1, x);
      LeftStep(ss, id, gone, m);
      ReadStep(ss, id, gone, m, x, false);
      ClearStep(ss, id, gone, m, |ss|, x);
      GenKillCons(ss[m], Left(ss, id, gone, m + 1));
    }
  }

  // ----- Liveness of what is left -----

  lemma {:induction false} WithoutFind(bs: seq<HirBlock>, gone: iset<Site>, id: BlockId)
    ensures var f := FindBlock(bs, id);
            FindBlock(WithoutAll(bs, gone), id) == if f.Some? then Some(WithoutIn(f.value, gone)) else None
  {
    hide Left;
    if bs != [] {
      WithoutFind(bs[1..], gone, id);
      assert WithoutAll(bs, gone)[1..] == WithoutAll(bs[1..], gone);
    }
  }

  lemma {:induction false} WithoutAt(c: Cfg, gone: iset<Site>, id: BlockId)
    ensures HasBlock(Without(c, gone), id) <==> HasBlock(c, id)
    ensures HasBlock(c, id) ==> BlockAt(Without(c, gone), id) == WithoutIn(BlockAt(c, id), gone)
    ensures forall next :: Edge(Without(c, gone), id, next) <==> Edge(c, id, next)
  {
    hide Left;
    WithoutFind(c.blocks, gone, id);
  }

  lemma {:induction false} BlockLeft(c: Cfg, gone: iset<Site>, id: BlockId, x: LocalId)
    requires HasBlock(c, id)
    ensures HasBlock(Without(c, gone), id)
    ensures x in Gen(BlockAt(Without(c, gone), id)) <==> ReadIn(BlockAt(c, id), gone, x)
    ensures x in Kill(BlockAt(Without(c, gone), id)) <==>
            !Clear(BlockAt(c, id).stmts, id, gone, 0, |BlockAt(c, id).stmts|, x)
  {
    hide Left, ReadFrom, Clear, Without;
    WithoutAt(c, gone, id);
    GenLeft(BlockAt(c, id).stmts, id, gone, 0, x);
  }

  lemma {:induction false} LiveIffRead(c: Cfg, gone: iset<Site>, id: BlockId, x: LocalId)
    ensures LiveAt(Without(c, gone), id, x) <==> ReadAfter(c, gone, id, x)
  {
    hide Gen, Kill, ReadIn, Clear, Without, HasBlock, BlockAt, Edge;
    var d := Without(c, gone);
    if p :| LivePath(d, p, x) && p[0] == id {
      forall i | 0 <= i < |p| - 1 ensures Onward(c, gone, p[i], p[i+1], x) {
        assert Passes(d, p[i], p[i+1], x);
        WithoutAt(c, gone, p[i]);
        BlockLeft(c, gone, p[i], x);
      }
      WithoutAt(c, gone, p[|p|-1]);
      BlockLeft(c, gone, p[|p|-1], x);
      assert ReadPath(c, gone, p, x);
    }
    if p :| ReadPath(c, gone, p, x) && p[0] == id {
      forall i | 0 <= i < |p| - 1 ensures Passes(d, p[i], p[i+1], x) {
        assert Onward(c, gone, p[i], p[i+1], x);
        WithoutAt(c, gone, p[i]);
        BlockLeft(c, gone, p[i], x);
      }
      WithoutAt(c, gone, p[|p|-1]);
      BlockLeft(c, gone, p[|p|-1], x);
      assert LivePath(d, p, x);
    }
  }

  lemma {:induction false} EndIffRead(c: Cfg, gone: iset<Site>, b: HirBlock, x: LocalId)
    requires UniqueIds(c.blocks) && b in c.blocks
    ensures x in LiveAtEnd(Without(c, gone), WithoutIn(b, gone)) <==> ReadBehind(c, gone, b, x)
  {
    hide Without, HasBlock, BlockAt, Left, LiveAt, ReadAfter, UniqueIds;
    var d := Without(c, gone);
    FoundItself(c, b);
    WithoutAt(c, gone, b.id);
    EdgeOf(c, b);
    forall t ensures LiveAt(d, t, x) <==> ReadAfter(c, gone, t, x) {
      LiveIffRead(c, gone, t, x);
    }
    if t :| Edge(d, b.id, t) && LiveAt(d, t, x) {
      LiveIsCollected(d, t, x);
    }
  }

  lemma {:induction false} EdgeOf(c: Cfg, b: HirBlock)
    requires HasBlock(c, b.id) && BlockAt(c, b.id) == b
    ensures forall t :: Edge(c, b.id, t) <==> t in Successors(b.terminator)
  {
  }

  // ----- One round -----

  lemma {:induction false} EliminateLeft(
      ss: seq<HirStmt>, id: BlockId, gone: iset<Site>, more: iset<Site>, m: nat, after: set<LocalId>)
    requires m <= |ss|
    requires forall n | m <= n < |ss| ::
               Site(id, n) in more <==>
               Site(id, n) in gone || (IsStore(ss[n]) && ss[n].lhs.id !in LiveBefore(Left(ss, id, gone, n + 1), after))
    ensures Eliminate(Left(ss, id, gone, m), after) == Left(ss, id, more, m)
    decreases |ss| - m
  {
    hide Left, LiveBefore, Eliminate;
    if m == |ss| {
      NothingLeft(ss, id, gone, 0, true);
      NothingLeft(ss, id, more, 0, true);
      NothingEliminated(after);
    } else {
      EliminateLeft(ss, id, gone, more, m + 1, after);
      LeftStep(ss, id, gone, m);
      LeftStep(ss, id, more, m);
      LeftCons(ss[m], Left(ss, id, gone, m + 1), after);
      assert [] + Left(ss, id, more, m + 1) == Left(ss, id, more, m + 1);
    }
  }

  lemma {:induction false} NothingEliminated(after: set<LocalId>)
    ensures Eliminate([], after) == []
  {
  }

  lemma {:induction false} NextGone(c: Cfg, k: nat, b: HirBlock, n: nat)
    requires UniqueIds(c.blocks) && b in c.blocks && n < |b.stmts|
    ensures var gone := Gone(c, k);
            Site(b.id, n) in Gone(c, k + 1) <==>
            Site(b.id, n) in gone ||
            (IsStore(b.stmts[n]) &&
             b.stmts[n].lhs.id !in LiveBefore(Left(b.stmts, b.id, gone, n + 1),
                                              LiveAtEnd(Without(c, gone), WithoutIn(b, gone))))
  {
    hide Left, LiveBefore, Without, LiveAtEnd, ReadFrom, Clear, ReadBehind, UniqueIds;
    FoundItself(c, b);
    var gone, s := Gone(c, k), Site(b.id, n);
    GoesNext(c, s, k);
    if IsStore(b.stmts[n]) {
      var x := b.stmts[n].lhs.id;
      EndIffRead(c, gone, b, x);
      LiveLeft(b.stmts, b.id, gone, n + 1, LiveAtEnd(Without(c, gone), WithoutIn(b, gone)), x);
    } else {
      GoesOnlySites(c, s, k);
    }
  }

  lemma {:induction false} GoesNext(c: Cfg, s: Site, k: nat)
    ensures s in Gone(c, k + 1) <==> IsSite(c, s) && (s in Gone(c, k) || !StillRead(c, Gone(c, k), s))
  {
    hide StillRead;
  }

  lemma {:induction false} GoesOnlySites(c: Cfg, s: Site, k: nat)
    ensures s in Gone(c, k) ==> IsSite(c, s)
  {
    hide StillRead;
    if s in Gone(c, k) {
      assert GoesWithin(c, s, k);
    }
  }

  lemma {:induction false} EliminateWithout(c: Cfg, k: nat)
    requires UniqueIds(c.blocks)
    ensures EliminateCfg(Without(c, Gone(c, k))) == Without(c, Gone(c, k + 1))
  {
    hide Left, LiveAtEnd, LiveBefore, Eliminate, Gone, UniqueIds;
    var gone, more := Gone(c, k), Gone(c, k + 1);
    var d := Without(c, gone);
    forall i | 0 <= i < |c.blocks| ensures EliminateBlock(d, d.blocks[i]) == WithoutIn(c.blocks[i], more) {
      var b := c.blocks[i];
      var after := LiveAtEnd(d, WithoutIn(b, gone));
      forall n | 0 <= n < |b.stmts|
        ensures Site(b.id, n) in more <==>
                Site(b.id, n) in gone ||
                (IsStore(b.stmts[n]) && b.stmts[n].lhs.id !in LiveBefore(Left(b.stmts, b.id, gone, n + 1), after))
      {
        NextGone(c, k, b, n);
      }
      EliminateLeft(b.stmts, b.id, gone, more, 0, after);
    }
    assert EliminateBlocks(d, d.blocks) == WithoutAll(c.blocks, more);
  }

  lemma {:induction false} AllLeft(ss: seq<HirStmt>, id: BlockId, m: nat)
    requires m <= |ss|
    ensures Left(ss, id, iset{}, m) == ss[m..]
    decreases |ss| - m
  {
    if m < |ss| {
      AllLeft(ss, id, m + 1);
    }
  }

  lemma {:induction false} WithoutNone(c: Cfg)
    ensures Without(c, iset{}) == c
  {
    hide Left;
    forall i | 0 <= i < |c.blocks| ensures WithoutIn(c.blocks[i], iset{}) == c.blocks[i] {
      AllLeft(c.blocks[i].stmts, c.blocks[i].id, 0);
    }
    assert WithoutAll(c.blocks, iset{}) == c.blocks;
  }

  /** After `k` eliminations exactly the stores that go within `k` rounds are missing. */
  lemma {:induction false} GoneAfter(c: Cfg, k: nat)
    requires UniqueIds(c.blocks)
    ensures EliminateTimes(c, k) == Without(c, Gone(c, k))
  {
    hide EliminateCfg, Without, UniqueIds, StillRead;
    if k == 0 {
      assert Gone(c, 0) == iset{};
      WithoutNone(c);
    } else {
      GoneAfter(c, k - 1);
      EliminateWithout(c, k - 1);
    }
  }

  // ----- When nothing goes any more -----

  lemma {:induction false} LeftLength(ss: seq<HirStmt>, id: BlockId, gone: iset<Site>, more: iset<Site>, m: nat)
    requires gone <= more && m <= |ss|
    ensures |Left(ss, id, more, m)| <= |Left(ss, id, gone, m)|
    ensures (exists n :: m <= n < |ss| && Site(id, n) in more - gone) ==>
            |Left(ss, id, more, m)| < |Left(ss, id, gone, m)|
    decreases |ss| - m
  {
    if m < |ss| {
      LeftLength(ss, id, gone, more, m + 1);
    }
  }

  lemma {:induction false} GoneGrows(c: Cfg, k: nat)
    ensures Gone(c, k) <= Gone(c, k + 1)
  {
    hide StillRead;
  }

  /** Every store that goes within `k + 1` rounds goes within `k`. */
  ghost predicate DoneWithin(c: Cfg, k: nat)
  {
    forall s | GoesWithin(c, s, k + 1) :: GoesWithin(c, s, k)
  }

  lemma {:induction false} SameGone(c: Cfg, k: nat)
    requires DoneWithin(c, k)
    ensures Gone(c, k + 1) == Gone(c, k)
  {
    hide StillRead;
    GoneGrows(c, k);
    forall s | s in Gone(c, k + 1) ensures s in Gone(c, k) {
      assert GoesWithin(c, s, k + 1);
    }
  }

  lemma {:induction false} SameLeft(c: Cfg, k: nat, s: Site)
    requires UniqueIds(c.blocks) && Without(c, Gone(c, k + 1)) == Without(c, Gone(c, k)) && GoesWithin(c, s, k + 1)
    ensures GoesWithin(c, s, k)
  {
    hide Left, StillRead, UniqueIds;
    GoneGrows(c, k);
    var gone, more := Gone(c, k), Gone(c, k + 1);
    var b := BlockAt(c, s.block);
    var i :| 0 <= i < |c.blocks| && c.blocks[i] == b;
    assert WithoutIn(b, more) == WithoutAll(c.blocks, more)[i] == WithoutAll(c.blocks, gone)[i] == WithoutIn(b, gone);
    LeftLength(b.stmts, b.id, gone, more, 0);
  }

  /** One more round removes nothing exactly when no store goes in it. */
  lemma {:induction false} SameIffDone(c: Cfg, k: nat)
    requires UniqueIds(c.blocks)
    ensures Without(c, Gone(c, k + 1)) == Without(c, Gone(c, k)) <==> DoneWithin(c, k)
  {
    hide Without, Gone, UniqueIds, StillRead;
    if DoneWithin(c, k) {
      SameGone(c, k);
    } else {
      var s :| GoesWithin(c, s, k + 1) && !GoesWithin(c, s, k);
      hide GoesWithin;
      if Without(c, Gone(c, k + 1)) == Without(c, Gone(c, k)) {
        SameLeft(c, k, s);
      }
    }
  }

  lemma {:induction false} PreparedUnique(c: Cfg)
    requires UniqueIds(c.blocks)
    ensures UniqueIds(Prepared(c).blocks)
  {
    hide UniqueIds, DeadCode.RemoveDead, ConstFold.FoldCfg;
    ThreeApplied(c);
    ApplyKeepsUnique(DeadCodeElimination, c);
    ThreeApplied(DeadCode.RemoveDead(c));
    ApplyKeepsUnique(ConstantFolding, DeadCode.RemoveDead(c));
  }

  /** `k` rounds of the default pipeline end in a fixpoint of all its passes if and only if every store
      that goes within `k + 1` rounds goes within `k`. */
  lemma {:induction false} RoundsIff(c: Cfg, k: nat)
    requires k > 0 && UniqueIds(c.blocks)
    ensures ReachesFixpoint(c, k) <==> DoneWithin(Prepared(c), k)
    ensures Pipeline(DEFAULT_PASSES, k, c) == Without(Prepared(c), Gone(Prepared(c), k))
  {
    hide ReachesFixpoint, Prepared, Settled, EliminateTimes, Gone, DoneWithin, Without, Pipeline, UniqueIds;
    PreparedUnique(c);
    PipelineIsElimination(c, k);
    FixpointIffNoDeadStores(c, k);
    GoneAfter(Prepared(c), k);
    GoneAfter(Prepared(c), k + 1);
    SameIffDone(Prepared(c), k);
  }

  /** The default pipeline on one body: the stores that go within three rounds are missing, and this is a
      fixpoint of all passes exactly when no store would go in a fourth. */
  method RunDefaultPipeline(body: HirBody)
    requires UniqueIds(body.blocks)
    modifies body`blocks
    ensures var c := Prepared(old(body.View()));
            && body.View() == Without(c, Gone(c, 3))
            && ((forall p | p in DEFAULT_PASSES :: Apply(p, body.View()) == body.View()) <==> DoneWithin(c, 3))
  {
    hide Prepared, Gone, DoneWithin, Without, Pipeline, UniqueIds, Apply;
    var pm := DefaultPipeline();
    RoundsIff(body.View(), 3);
    pm.RunOnBody(body);
  }

  // ----- A store goes only after a store that reads it -----

  ghost predicate GoesIn(c: Cfg, s: Site, k: nat) { k > 0 && GoesWithin(c, s, k) && !GoesWithin(c, s, k - 1) }

  /** The store at `t` reads what the store at `s` puts. */
  ghost predicate ReadBy(c: Cfg, s: Site, t: Site)
  {
    IsSite(c, s) && IsSite(c, t) && Target(c, s) in UsesRvalue(BlockAt(c, t.block).stmts[t.index].rhs)
  }

  /** No statement that is in `more` but not in `gone` reads `x`. */
  ghost predicate NoneReads(c: Cfg, gone: iset<Site>, more: iset<Site>, x: LocalId)
  {
    forall s | s in more && s !in gone && IsSite(c, s) :: !ReadsAs(BlockAt(c, s.block).stmts[s.index], x, false)
  }

  ghost predicate OnlySites(c: Cfg, more: iset<Site>) { forall s | s in more :: IsSite(c, s) }

  lemma {:induction false} ReaderStays(c: Cfg, gone: iset<Site>, more: iset<Site>, s: Site, x: LocalId, plainly: bool)
    requires OnlySites(c, more) && NoneReads(c, gone, more, x) && HasBlock(c, s.block) && s !in gone
    requires s.index < |BlockAt(c, s.block).stmts| && ReadsAs(BlockAt(c, s.block).stmts[s.index], x, plainly)
    ensures s !in more
  {
    hide HasBlock, BlockAt;
  }

  lemma {:induction false} ReadStays(
      c: Cfg, gone: iset<Site>, more: iset<Site>, id: BlockId, m: nat, x: LocalId, plainly: bool)
    requires gone <= more && OnlySites(c, more) && NoneReads(c, gone, more, x) && HasBlock(c, id)
    ensures var ss := BlockAt(c, id).stmts;
            && (ReadFrom(ss, id, gone, m, x, plainly) ==> ReadFrom(ss, id, more, m, x, plainly))
            && (m <= |ss| && Clear(ss, id, gone, m, |ss|, x) ==> Clear(ss, id, more, m, |ss|, x))
  {
    hide HasBlock, BlockAt;
    var ss := BlockAt(c, id).stmts;
    if n: nat :| ReadAt(ss, id, gone, m, n, x, plainly) {
      ReaderStays(c, gone, more, Site(id, n), x, plainly);
      assert ReadAt(ss, id, more, m, n, x, plainly);
    }
  }

  lemma {:induction false} ReadAfterStays(c: Cfg, gone: iset<Site>, more: iset<Site>, id: BlockId, x: LocalId)
    requires gone <= more && OnlySites(c, more) && NoneReads(c, gone, more, x)
    requires ReadAfter(c, gone, id, x)
    ensures ReadAfter(c, more, id, x)
  {
    hide HasBlock, BlockAt, Clear, ReadFrom, Edge, OnlySites, NoneReads;
    var p :| ReadPath(c, gone, p, x) && p[0] == id;
    forall i | 0 <= i < |p| - 1 ensures Onward(c, more, p[i], p[i+1], x) {
      assert Onward(c, gone, p[i], p[i+1], x);
      ReadStays(c, gone, more, p[i], 0, x, false);
    }
    ReadStays(c, gone, more, p[|p|-1], 0, x, false);
    IdAt(c, p[|p|-1]);
    assert ReadPath(c, more, p, x);
  }

  lemma {:induction false} IdAt(c: Cfg, id: BlockId)
    requires HasBlock(c, id)
    ensures BlockAt(c, id).id == id
  {
  }

  lemma {:induction false} StillReadStays(c: Cfg, gone: iset<Site>, more: iset<Site>, s: Site)
    requires IsSite(c, s) && gone <= more && OnlySites(c, more) && NoneReads(c, gone, more, Target(c, s))
    requires StillRead(c, gone, s)
    ensures StillRead(c, more, s)
  {
    hide Clear, ReadFrom, ReadAfter, OnlySites, NoneReads;
    var b, x := BlockAt(c, s.block), Target(c, s);
    IdAt(c, s.block);
    ReadStays(c, gone, more, s.block, s.index + 1, x, true);
    if t :| t in Successors(b.terminator) && ReadAfter(c, gone, t, x) {
      ReadAfterStays(c, gone, more, t, x);
    }
  }

  /** A store that goes in a later round than the first is read by one that goes in the round before. */
  lemma {:induction false} ReaderGoesBefore(c: Cfg, s: Site, k: nat) returns (t: Site)
    requires GoesIn(c, s, k + 2)
    ensures GoesIn(c, t, k + 1) && ReadBy(c, s, t)
  {
    hide StillRead;
    var gone, more := Gone(c, k), Gone(c, k + 1);
    GoesNext(c, s, k);
    GoesNext(c, s, k + 1);
    GoneGrows(c, k);
    forall u | u in more ensures IsSite(c, u) {
      GoesOnlySites(c, u, k + 1);
    }
    if NoneReads(c, gone, more, Target(c, s)) {
      StillReadStays(c, gone, more, s);
    }
    t :| t in more && t !in gone && IsSite(c, t) && ReadsAs(BlockAt(c, t.block).stmts[t.index], Target(c, s), false);
  }

  // ----- Chains of stores that go -----

  ghost predicate Goes(c: Cfg, s: Site) { exists k: nat :: GoesWithin(c, s, k) }

  /** Different stores, all of which go, and each of which is read by the one before it. */
  ghost predicate GoingChain(c: Cfg, p: seq<Site>)
  {
    && (forall i | 0 <= i < |p| :: Goes(c, p[i]))
    && (forall i, j | 0 <= i < j < |p| :: p[i] != p[j])
    && forall i | 0 < i < |p| :: ReadBy(c, p[i], p[i-1])
  }

  lemma {:induction false} GoesLater(c: Cfg, s: Site, k: nat, n: nat)
    requires GoesWithin(c, s, k) && k <= n
    ensures GoesWithin(c, s, n)
    decreases n
  {
    hide StillRead;
    if k < n {
      GoesLater(c, s, k, n - 1);
    }
  }

  lemma {:induction false} ChainBehind(c: Cfg, s: Site, k: nat) returns (p: seq<Site>)
    requires GoesIn(c, s, k + 1)
    ensures |p| == k + 1 && p[k] == s && GoingChain(c, p)
    ensures forall i | 0 <= i < |p| :: GoesIn(c, p[i], i + 1)
    decreases k
  {
    hide GoesWithin, ReadBy;
    if k == 0 {
      p := [s];
    } else {
      var t := ReaderGoesBefore(c, s, k - 1);
      var q := ChainBehind(c, t, k - 1);
      p := q + [s];
      forall i | 0 <= i < k ensures q[i] != s {
        if q[i] == s {
          GoesLater(c, s, i + 1, k);
        }
      }
    }
  }

  /** `k` rounds are enough wherever no chain of stores that go has `k + 1` links; stores that stay do not
      count, nor does the same store twice. */
  lemma {:induction false} RoundsSuffice(c: Cfg, k: nat)
    requires k > 0 && UniqueIds(c.blocks) && forall p | GoingChain(Prepared(c), p) :: |p| <= k
    ensures ReachesFixpoint(c, k)
  {
    hide ReachesFixpoint, Prepared, UniqueIds, GoingChain, GoesWithin, Pipeline;
    RoundsIff(c, k);
    var d := Prepared(c);
    if s :| GoesWithin(d, s, k + 1) && !GoesWithin(d, s, k) {
      var p := ChainBehind(d, s, k);
    }
  }
}
