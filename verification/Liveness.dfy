/** Live-variable analysis: the uses and definitions of a block, and the iteration that spreads
    liveness backwards along the edges until nothing changes. */
module Liveness {
  import opened Wrappers
  import opened Diag
  import opened Hir
  import opened CfgGraph

  // ----- What the analysis collects. Only bare locals count as uses. -----

  function UsesPlace(p: HirPlace): set<LocalId>
  {
    if p.Local? then {p.id} else {}
  }

  function UsesOperand(o: HirOperand): set<LocalId>
  {
    if o.PlaceOp? then UsesPlace(o.place) else {}
  }

  function UsesOperands(os: seq<HirOperand>): set<LocalId>
  {
    if os == [] then {} else UsesOperand(os[0]) + UsesOperands(os[1..])
  }

  function UsesRvalue(rv: HirRvalue): set<LocalId>
  {
    match rv
    case Use(o) => UsesOperand(o)
    case BinaryOp(_, l, r) => UsesOperand(l) + UsesOperand(r)
    case UnaryOp(_, o) => UsesOperand(o)
    case Ref(p, _) => UsesPlace(p)
    case Load(o) => UsesOperand(o)
    case Aggregate(_, fields) => UsesOperands(fields)
    case Discriminant(p) => UsesPlace(p)
    case ExtractPayload(p, _) => UsesPlace(p)
    case ArrayToSlice(o, _, _) => UsesOperand(o)
  }

  predicate IsBare(o: HirOperand, x: LocalId) { o == PlaceOp(Local(x)) }

  /** `x` itself stands in the expression: as an operand, or where a place is looked at, has its address
      taken or is made a slice. */
  predicate Mentions(rv: HirRvalue, x: LocalId)
  {
    match rv
    case Use(o) => IsBare(o, x)
    case BinaryOp(_, l, r) => IsBare(l, x) || IsBare(r, x)
    case UnaryOp(_, o) => IsBare(o, x)
    case Ref(p, _) => p == Local(x)
    case Load(o) => IsBare(o, x)
    case Aggregate(_, fields) => PlaceOp(Local(x)) in fields
    case Discriminant(p) => p == Local(x)
    case ExtractPayload(p, _) => p == Local(x)
    case ArrayToSlice(o, _, _) => IsBare(o, x)
  }

  lemma {:induction false} UsesAreMentions(rv: HirRvalue, x: LocalId)
    ensures x in UsesRvalue(rv) <==> Mentions(rv, x)
  {
    if rv.Aggregate? {
      FieldsAreMentioned(rv.fields, x);
    }
  }

  lemma {:induction false} FieldsAreMentioned(os: seq<HirOperand>, x: LocalId)
    ensures x in UsesOperands(os) <==> PlaceOp(Local(x)) in os
  {
    if os != [] {
      FieldsAreMentioned(os[1..], x);
    }
  }

  function UsesTerminator(t: HirTerminator): set<LocalId>
  {
    match t
    case Return(Some(o)) => UsesOperand(o)
    case Switch(discr, _, _) => UsesOperand(discr)
    case _ => {}
  }

  function UsesStmt(s: HirStmt): set<LocalId>
  {
    if s.Assign? then UsesRvalue(s.rhs) else {}
  }

  function DefsStmt(s: HirStmt): set<LocalId>
  {
    if s.Assign? then UsesPlace(s.lhs) else {}
  }

  /** Upward exposed uses of a statement list. */
  function GenStmts(ss: seq<HirStmt>): set<LocalId>
  {
    if ss == [] then {} else UsesStmt(ss[0]) + (GenStmts(ss[1..]) - DefsStmt(ss[0]))
  }

  function KillStmts(ss: seq<HirStmt>): set<LocalId>
  {
    if ss == [] then {} else DefsStmt(ss[0]) + KillStmts(ss[1..])
  }

  predicate StoresTo(s: HirStmt, x: LocalId) { s.Assign? && s.lhs == Local(x) }

  /** Some assignment mentions `x`, and no store to it comes before. */
  ghost predicate MentionedFirst(ss: seq<HirStmt>, x: LocalId)
  {
    exists j :: 0 <= j < |ss| && ss[j].Assign? && Mentions(ss[j].rhs, x) && forall k | 0 <= k < j :: !StoresTo(ss[k], x)
  }

  lemma {:induction false} MentionedFirstStep(ss: seq<HirStmt>, x: LocalId)
    requires ss != []
    ensures MentionedFirst(ss, x) <==>
              (ss[0].Assign? && Mentions(ss[0].rhs, x)) || (!StoresTo(ss[0], x) && MentionedFirst(ss[1..], x))
  {
    hide Mentions;
    var rest := ss[1..];
    if MentionedFirst(ss, x) {
      var j :| 0 <= j < |ss| && ss[j].Assign? && Mentions(ss[j].rhs, x) && forall k | 0 <= k < j :: !StoresTo(ss[k], x);
      if j > 0 {
        assert rest[j-1].Assign? && Mentions(rest[j-1].rhs, x);
        forall k | 0 <= k < j - 1 ensures !StoresTo(rest[k], x) {
          assert !StoresTo(ss[k+1], x);
        }
      }
    }
    if !StoresTo(ss[0], x) && MentionedFirst(rest, x) {
      var j :| 0 <= j < |rest| && rest[j].Assign? && Mentions(rest[j].rhs, x) &&
        forall k | 0 <= k < j :: !StoresTo(rest[k], x);
      assert Mentions(ss[j+1].rhs, x) && forall k | 0 <= k < j + 1 :: !StoresTo(ss[k], x);
    }
  }

  /** What is collected of a block, by its text: the locals mentioned before they are stored to, those that
      are stored to, and those the terminator mentions. */
  lemma {:induction false} CollectedIsText(ss: seq<HirStmt>, x: LocalId)
    ensures x in GenStmts(ss) <==> MentionedFirst(ss, x)
    ensures x in KillStmts(ss) <==> exists k :: 0 <= k < |ss| && StoresTo(ss[k], x)
  {
    hide UsesRvalue, Mentions, MentionedFirst;
    if ss == [] {
      assert !MentionedFirst(ss, x) by { NothingMentioned(x); }
    } else {
      var rest := ss[1..];
      CollectedIsText(rest, x);
      if ss[0].Assign? {
        UsesAreMentions(ss[0].rhs, x);
      }
      MentionedFirstStep(ss, x);
      if k :| 0 <= k < |ss| && StoresTo(ss[k], x) {
        assert k > 0 ==> StoresTo(rest[k-1], x);
      }
      if k :| 0 <= k < |rest| && StoresTo(rest[k], x) {
        assert StoresTo(ss[k+1], x);
      }
    }
  }

  lemma {:induction false} NothingMentioned(x: LocalId)
    ensures !MentionedFirst([], x)
  {
  }

  lemma {:induction false} TerminatorMentions(t: HirTerminator, x: LocalId)
    ensures x in UsesTerminator(t) <==>
              t == Return(Some(PlaceOp(Local(x)))) || (t.Switch? && t.discr == PlaceOp(Local(x)))
  {
  }

  /** The terminator's uses are added whether or not the block defines them. */
  function Gen(b: HirBlock): set<LocalId> { GenStmts(b.stmts) + UsesTerminator(b.terminator) }

  function Kill(b: HirBlock): set<LocalId> { KillStmts(b.stmts) }

  lemma {:induction false} GenKillAppend(ss: seq<HirStmt>, s: HirStmt)
    ensures GenStmts(ss + [s]) == GenStmts(ss) + (UsesStmt(s) - KillStmts(ss))
    ensures KillStmts(ss + [s]) == KillStmts(ss) + DefsStmt(s)
  {
    if ss == [] {
      assert ss + [s] == [s];
      assert GenStmts([s][1..]) == {} && KillStmts([s][1..]) == {};
    } else {
      assert (ss + [s])[1..] == ss[1..] + [s];
      GenKillAppend(ss[1..], s);
    }
  }

  method ComputeGenKill(b: HirBlock) returns (uses: set<LocalId>, defs: set<LocalId>)
    ensures uses == Gen(b) && defs == Kill(b)
  {
    uses, defs := {}, {};
    for i := 0 to |b.stmts|
      invariant uses == GenStmts(b.stmts[..i]) && defs == KillStmts(b.stmts[..i])
    {
      GenKillAppend(b.stmts[..i], b.stmts[i]);
      assert b.stmts[..i+1] == b.stmts[..i] + [b.stmts[i]];
      match b.stmts[i] {
        case Assign(lhs, rhs, _) =>
          uses := uses + (UsesRvalue(rhs) - defs);
          if lhs.Local? {
            defs := defs + {lhs.id};
          }
        case _ =>
      }
    }
    assert b.stmts[..|b.stmts|] == b.stmts;
    uses := uses + UsesTerminator(b.terminator);
  }

  // ----- The meaning of liveness -----

  ghost predicate HasBlock(c: Cfg, id: BlockId) { FindBlock(c.blocks, id).Some? }

  ghost function BlockAt(c: Cfg, id: BlockId): HirBlock
    requires HasBlock(c, id)
  {
    FindBlock(c.blocks, id).value
  }

  ghost predicate Passes(c: Cfg, id: BlockId, next: BlockId, x: LocalId)
  {
    HasBlock(c, id) && Edge(c, id, next) && x !in Kill(BlockAt(c, id))
  }

  /** A path along which `x` is killed by no block but possibly the last, and used by the last. */
  ghost predicate LivePath(c: Cfg, p: seq<BlockId>, x: LocalId)
  {
    && p != []
    && (forall i | 0 <= i < |p| - 1 :: Passes(c, p[i], p[i+1], x))
    && HasBlock(c, p[|p|-1]) && x in Gen(BlockAt(c, p[|p|-1]))
  }

  ghost predicate LiveAt(c: Cfg, id: BlockId, x: LocalId)
  {
    exists p :: LivePath(c, p, x) && p[0] == id
  }

  function AllGen(blocks: seq<HirBlock>): set<LocalId>
  {
    if blocks == [] then {} else Gen(blocks[0]) + AllGen(blocks[1..])
  }

  ghost function LiveIn(c: Cfg, id: BlockId): set<LocalId>
  {
    set x | x in AllGen(c.blocks) && LiveAt(c, id, x)
  }

  ghost function LiveOut(c: Cfg, id: BlockId): set<LocalId>
  {
    set x | x in AllGen(c.blocks) && exists s :: Edge(c, id, s) && LiveAt(c, s, x)
  }

  lemma {:induction false} GenInAll(blocks: seq<HirBlock>, b: HirBlock)
    requires b in blocks
    ensures Gen(b) <= AllGen(blocks)
  {
    if blocks[0] != b {
      GenInAll(blocks[1..], b);
    }
  }

  /** Nothing outside the collected uses is ever live. */
  lemma {:induction false} LiveIsCollected(c: Cfg, id: BlockId, x: LocalId)
    requires LiveAt(c, id, x)
    ensures x in LiveIn(c, id)
  {
    var p :| LivePath(c, p, x) && p[0] == id;
    GenInAll(c.blocks, BlockAt(c, p[|p|-1]));
  }

  lemma {:induction false} LiveHere(c: Cfg, id: BlockId, x: LocalId)
    requires HasBlock(c, id) && x in Gen(BlockAt(c, id))
    ensures LiveAt(c, id, x)
  {
    assert LivePath(c, [id], x);
  }

  lemma {:induction false} LiveThrough(c: Cfg, id: BlockId, next: BlockId, x: LocalId)
    requires Passes(c, id, next, x) && LiveAt(c, next, x)
    ensures LiveAt(c, id, x)
  {
    var p :| LivePath(c, p, x) && p[0] == next;
    var q := [id] + p;
    forall i | 0 <= i < |q| - 1 ensures Passes(c, q[i], q[i+1], x) {
      assert i > 0 ==> Passes(c, p[i-1], p[i], x);
    }
    assert LivePath(c, q, x);
  }

  // ----- The equations -----

  datatype LivenessInfo = LivenessInfo(liveIn: set<LocalId>, liveOut: set<LocalId>)

  type LiveSets = map<BlockId, LivenessInfo>

  function OutFrom(sets: LiveSets, succs: seq<BlockId>): set<LocalId>
  {
    if succs == [] then {}
    else (if succs[0] in sets then sets[succs[0]].liveIn else {}) + OutFrom(sets, succs[1..])
  }

  lemma {:induction false} OutFromMember(sets: LiveSets, succs: seq<BlockId>, x: LocalId)
    ensures x in OutFrom(sets, succs) <==> exists s :: s in succs && s in sets && x in sets[s].liveIn
  {
    if succs != [] {
      OutFromMember(sets, succs[1..], x);
      assert forall s :: s in succs <==> s == succs[0] || s in succs[1..];
    }
  }

  function BlockOut(sets: LiveSets, b: HirBlock): set<LocalId> { OutFrom(sets, Successors(b.terminator)) }

  function InFrom(b: HirBlock, out: set<LocalId>): set<LocalId> { (out - Kill(b)) + Gen(b) }

  function BlockInfo(sets: LiveSets, b: HirBlock): LivenessInfo
  {
    LivenessInfo(InFrom(b, BlockOut(sets, b)), BlockOut(sets, b))
  }

  ghost predicate Leq(a: LivenessInfo, b: LivenessInfo) { a.liveIn <= b.liveIn && a.liveOut <= b.liveOut }

  ghost predicate Grows(s: LiveSets, t: LiveSets)
  {
    s.Keys == t.Keys && forall id | id in s :: Leq(s[id], t[id])
  }

  lemma {:induction false} OutGrows(s: LiveSets, t: LiveSets, b: HirBlock)
    requires Grows(s, t)
    ensures Leq(BlockInfo(s, b), BlockInfo(t, b))
  {
    forall x | x in BlockOut(s, b) ensures x in BlockOut(t, b) {
      OutFromMember(s, Successors(b.terminator), x);
      OutFromMember(t, Successors(b.terminator), x);
      var succ :| succ in Successors(b.terminator) && succ in s && x in s[succ].liveIn;
      assert Leq(s[succ], t[succ]);
    }
  }

  /** Nothing recorded is more than what really is live. */
  ghost predicate Sound(c: Cfg, sets: LiveSets)
  {
    forall id | id in sets :: Leq(sets[id], LivenessInfo(LiveIn(c, id), LiveOut(c, id)))
  }

  /** What is recorded for a block is below what its equation now yields. */
  ghost predicate Ascending(c: Cfg, sets: LiveSets)
  {
    forall b | b in c.blocks :: b.id in sets && Leq(sets[b.id], BlockInfo(sets, b))
  }

  ghost predicate Invariant(c: Cfg, sets: LiveSets)
  {
    UniqueIds(c.blocks) && sets.Keys == BlockIds(c.blocks) && Sound(c, sets) && Ascending(c, sets)
  }

  ghost predicate StableAt(sets: LiveSets, b: HirBlock) { b.id in sets && sets[b.id] == BlockInfo(sets, b) }

  lemma {:induction false} FoundItself(c: Cfg, b: HirBlock)
    requires UniqueIds(c.blocks) && b in c.blocks
    ensures HasBlock(c, b.id) && BlockAt(c, b.id) == b
  {
    var i :| 0 <= i < |c.blocks| && c.blocks[i] == b;
    FindUnique(c.blocks, i);
  }

  lemma {:induction false} EquationIsSound(c: Cfg, sets: LiveSets, b: HirBlock)
    requires UniqueIds(c.blocks) && b in c.blocks && Sound(c, sets)
    ensures Leq(BlockInfo(sets, b), LivenessInfo(LiveIn(c, b.id), LiveOut(c, b.id)))
  {
    FoundItself(c, b);
    GenInAll(c.blocks, b);
    forall x | x in BlockOut(sets, b)
      ensures x in LiveOut(c, b.id)
      ensures x !in Kill(b) ==> x in LiveIn(c, b.id)
    {
      OutFromMember(sets, Successors(b.terminator), x);
      var s :| s in Successors(b.terminator) && s in sets && x in sets[s].liveIn;
      assert Leq(sets[s], LivenessInfo(LiveIn(c, s), LiveOut(c, s)));
      assert Edge(c, b.id, s);
      if x !in Kill(b) {
        LiveThrough(c, b.id, s, x);
      }
    }
    forall x | x in Gen(b) ensures x in LiveIn(c, b.id) {
      LiveHere(c, b.id, x);
    }
  }

  /** One assignment of a block's equation keeps everything the iteration relies on. */
  lemma {:induction false} StepKeepsInvariant(c: Cfg, sets: LiveSets, b: HirBlock)
    requires Invariant(c, sets) && b in c.blocks
    ensures var t := sets[b.id := BlockInfo(sets, b)]; Invariant(c, t) && Grows(sets, t)
  {
    var t := sets[b.id := BlockInfo(sets, b)];
    assert Grows(sets, t);
    EquationIsSound(c, sets, b);
    forall d | d in c.blocks ensures d.id in t && Leq(t[d.id], BlockInfo(t, d)) {
      OutGrows(sets, t, d);
      FoundItself(c, d);
      FoundItself(c, b);
    }
  }

  // ----- Termination: every change uses up slack -----

  function Slack(sets: LiveSets, blocks: seq<HirBlock>, all: set<LocalId>): nat
    requires forall b | b in blocks :: b.id in sets
  {
    if blocks == [] then 0
    else |all - sets[blocks[0].id].liveIn| + |all - sets[blocks[0].id].liveOut| + Slack(sets, blocks[1..], all)
  }

  lemma {:induction false} SmallerRest(all: set<LocalId>, s: set<LocalId>, t: set<LocalId>)
    requires s <= t <= all
    ensures |all - t| <= |all - s|
    ensures s != t ==> |all - t| < |all - s|
  {
    assert all - t <= all - s;
    assert all - s == (all - t) + (t - s);
    if s != t {
      assert t - s != {};
    }
  }

  lemma {:induction false} SlackShrinks(s: LiveSets, t: LiveSets, blocks: seq<HirBlock>, all: set<LocalId>)
    requires forall b | b in blocks :: b.id in s
    requires Grows(s, t)
    requires forall id | id in t :: t[id].liveIn <= all && t[id].liveOut <= all
    ensures Slack(t, blocks, all) <= Slack(s, blocks, all)
    ensures (exists b :: b in blocks && s[b.id] != t[b.id]) ==> Slack(t, blocks, all) < Slack(s, blocks, all)
  {
    if blocks != [] {
      var id := blocks[0].id;
      assert Leq(s[id], t[id]);
      SmallerRest(all, s[id].liveIn, t[id].liveIn);
      SmallerRest(all, s[id].liveOut, t[id].liveOut);
      SlackShrinks(s, t, blocks[1..], all);
      assert forall b | b in blocks :: b == blocks[0] || b in blocks[1..];
    }
  }

  lemma {:induction false} SoundIsBounded(c: Cfg, sets: LiveSets)
    requires Sound(c, sets)
    ensures forall id | id in sets :: sets[id].liveIn <= AllGen(c.blocks) && sets[id].liveOut <= AllGen(c.blocks)
  {
    forall id | id in sets
      ensures sets[id].liveIn <= AllGen(c.blocks) && sets[id].liveOut <= AllGen(c.blocks)
    {
      assert Leq(sets[id], LivenessInfo(LiveIn(c, id), LiveOut(c, id)));
    }
  }

  lemma {:induction false} ChangeUsesSlack(c: Cfg, sets: LiveSets, b: HirBlock)
    requires Invariant(c, sets) && b in c.blocks && sets[b.id] != BlockInfo(sets, b)
    ensures var t := sets[b.id := BlockInfo(sets, b)];
            Invariant(c, t) && Slack(t, c.blocks, AllGen(c.blocks)) < Slack(sets, c.blocks, AllGen(c.blocks))
  {
    var t := sets[b.id := BlockInfo(sets, b)];
    StepKeepsInvariant(c, sets, b);
    SoundIsBounded(c, t);
    SlackShrinks(sets, t, c.blocks, AllGen(c.blocks));
  }

  // ----- At a fixpoint the recorded sets are exactly the live ones -----

  lemma {:induction false} FixpointContainsPath(c: Cfg, sets: LiveSets, p: seq<BlockId>, x: LocalId)
    requires Invariant(c, sets) && (forall b | b in c.blocks :: StableAt(sets, b))
    requires LivePath(c, p, x)
    ensures p[0] in sets && x in sets[p[0]].liveIn
    decreases |p|
  {
    if |p| == 1 {
      assert StableAt(sets, BlockAt(c, p[0]));
    } else {
      assert Passes(c, p[0], p[1], x);
      var b := BlockAt(c, p[0]);
      forall i | 0 <= i < |p[1..]| - 1 ensures Passes(c, p[1..][i], p[1..][i+1], x) {
        assert Passes(c, p[i+1], p[i+2], x);
      }
      FixpointContainsPath(c, sets, p[1..], x);
      OutFromMember(sets, Successors(b.terminator), x);
      assert p[1] in Successors(b.terminator) && p[1] in sets && x in sets[p[1]].liveIn;
      assert StableAt(sets, b);
    }
  }

  lemma {:induction false} FixpointIsLiveness(c: Cfg, sets: LiveSets, id: BlockId)
    requires Invariant(c, sets) && (forall b | b in c.blocks :: StableAt(sets, b))
    requires id in sets
    ensures sets[id] == LivenessInfo(LiveIn(c, id), LiveOut(c, id))
  {
    assert Leq(sets[id], LivenessInfo(LiveIn(c, id), LiveOut(c, id)));
    forall x | x in LiveIn(c, id) ensures x in sets[id].liveIn {
      var p :| LivePath(c, p, x) && p[0] == id;
      FixpointContainsPath(c, sets, p, x);
    }
    var b :| b in c.blocks && b.id == id;
    FoundItself(c, b);
    forall x | x in LiveOut(c, id) ensures x in sets[id].liveOut {
      var s :| Edge(c, id, s) && LiveAt(c, s, x);
      var p :| LivePath(c, p, x) && p[0] == s;
      FixpointContainsPath(c, sets, p, x);
      OutFromMember(sets, Successors(b.terminator), x);
      assert s in Successors(b.terminator) && s in sets && x in sets[s].liveIn;
      assert StableAt(sets, b);
    }
  }

  // ----- The iteration -----

  /** The sets a sweep over `blocks` leaves, each block reading what those before it have left. */
  function Swept(sets: LiveSets, blocks: seq<HirBlock>): LiveSets
    decreases |blocks|
  {
    if blocks == [] then sets
    else Swept(sets[blocks[0].id := BlockInfo(sets, blocks[0])], blocks[1..])
  }

  /** Whether such a sweep rewrites anything. */
  ghost predicate SweepChanges(sets: LiveSets, blocks: seq<HirBlock>)
    decreases |blocks|
  {
    blocks != [] &&
    (!StableAt(sets, blocks[0]) ||
     SweepChanges(sets[blocks[0].id := BlockInfo(sets, blocks[0])], blocks[1..]))
  }

  /** One sweep over the blocks, updating the sets in place; whatever the ids are, it leaves the swept
      sets and reports a change exactly when something was rewritten. */
  method Sweep(ghost c: Cfg, blocks: seq<HirBlock>, before: LiveSets) returns (sets: LiveSets, changed: bool)
    requires blocks == c.blocks && forall b | b in blocks :: b.id in before
    ensures sets == Swept(before, blocks) && sets.Keys == before.Keys
    ensures changed <==> SweepChanges(before, blocks)
    ensures Invariant(c, before) ==> Invariant(c, sets)
    ensures Invariant(c, before) && !changed ==> sets == before && forall b | b in blocks :: StableAt(sets, b)
    ensures Invariant(c, before) && changed ==>
            Slack(sets, blocks, AllGen(blocks)) < Slack(before, blocks, AllGen(blocks))
  {
    hide Invariant, Slack, AllGen, Gen, Kill, OutFrom, UniqueIds;
    sets, changed := before, false;
    for i := 0 to |blocks|
      invariant sets.Keys == before.Keys
      invariant Swept(sets, blocks[i..]) == Swept(before, blocks)
      invariant SweepChanges(before, blocks) <==> changed || SweepChanges(sets, blocks[i..])
      invariant Invariant(c, before) ==> Invariant(c, sets)
      invariant !changed ==> sets == before && forall j | 0 <= j < i :: StableAt(sets, blocks[j])
      invariant Invariant(c, before) && changed ==>
                  Slack(sets, blocks, AllGen(blocks)) < Slack(before, blocks, AllGen(blocks))
    {
      var b := blocks[i];
      assert blocks[i..][0] == b && blocks[i..][1..] == blocks[i+1..];
      var newOut := OutFrom(sets, Successors(b.terminator));
      var uses, defs := ComputeGenKill(b);
      var newIn := (newOut - defs) + uses;
      if sets[b.id] == LivenessInfo(newIn, newOut) {
        assert sets[b.id := BlockInfo(sets, b)] == sets;
      } else {
        if Invariant(c, sets) {
          ChangeUsesSlack(c, sets, b);
        }
        sets := sets[b.id := LivenessInfo(newIn, newOut)];
        changed := true;
      }
    }
  }

  /** The analysis. With unique block ids it terminates, and what it returns is exact: `x` is in the
      live-in set of a block iff some path from the block leads to a use of `x` that no earlier block
      on the path kills; and likewise for live-out, one edge later. */
  method ComputeLiveness(body: HirBody) returns (sets: LiveSets)
    requires UniqueIds(body.blocks)
    ensures sets.Keys == BlockIds(body.blocks)
    ensures forall id | id in sets ::
              sets[id] == LivenessInfo(LiveIn(body.View(), id), LiveOut(body.View(), id))
    ensures forall id, x | id in sets :: x in sets[id].liveIn <==> LiveAt(body.View(), id, x)
  {
    ghost var c := body.View();
    var blocks := body.blocks;
    sets := map b | b in BlockIds(blocks) :: LivenessInfo({}, {});
    var changed := true;
    while changed
      invariant Invariant(c, sets)
      invariant !changed ==> forall b | b in blocks :: StableAt(sets, b)
      decreases Slack(sets, blocks, AllGen(blocks)), changed
    {
      sets, changed := Sweep(c, blocks, sets);
    }
    forall id | id in sets
      ensures sets[id] == LivenessInfo(LiveIn(c, id), LiveOut(c, id))
      ensures forall x :: x in sets[id].liveIn <==> LiveAt(c, id, x)
    {
      FixpointIsLiveness(c, sets, id);
      forall x | LiveAt(c, id, x) ensures x in sets[id].liveIn {
        LiveIsCollected(c, id, x);
      }
    }
  }

  // ----- Why ids must be unique -----

  lemma {:induction false} NoChangeIffAllStable(sets: LiveSets, blocks: seq<HirBlock>)
    requires forall b | b in blocks :: b.id in sets
    ensures SweepChanges(sets, blocks) <==> exists b :: b in blocks && !StableAt(sets, b)
    decreases |blocks|
  {
    hide BlockInfo;
    if blocks != [] {
      if StableAt(sets, blocks[0]) {
        assert sets[blocks[0].id := BlockInfo(sets, blocks[0])] == sets;
        NoChangeIffAllStable(sets, blocks[1..]);
        assert forall b :: b in blocks <==> b == blocks[0] || b in blocks[1..];
      } else {
        assert blocks[0] in blocks;
      }
    }
  }

  /** A path that may leave each id through any of the blocks that carry it. */
  ghost predicate JointPath(c: Cfg, p: seq<BlockId>, x: LocalId)
  {
    && p != []
    && (forall i | 0 <= i < |p| - 1 :: JointStep(c, p[i], p[i+1], x))
    && exists b :: b in c.blocks && b.id == p[|p|-1] && x in Gen(b)
  }

  ghost predicate JointStep(c: Cfg, id: BlockId, next: BlockId, x: LocalId)
  {
    exists b :: b in c.blocks && b.id == id && next in Successors(b.terminator) && x !in Kill(b)
  }

  /** Live under some id: the least sets that satisfy the equations of all blocks together contain it. */
  ghost predicate JointlyLive(c: Cfg, id: BlockId, x: LocalId)
  {
    exists p :: JointPath(c, p, x) && p[0] == id
  }

  lemma {:induction false} JointlyHere(c: Cfg, b: HirBlock, x: LocalId)
    requires b in c.blocks && x in Gen(b)
    ensures JointlyLive(c, b.id, x)
  {
    assert JointPath(c, [b.id], x);
  }

  lemma {:induction false} JointlyThrough(c: Cfg, id: BlockId, next: BlockId, x: LocalId)
    requires JointStep(c, id, next, x) && JointlyLive(c, next, x)
    ensures JointlyLive(c, id, x)
  {
    hide JointStep;
    var p :| JointPath(c, p, x) && p[0] == next;
    var q := [id] + p;
    forall i | 0 <= i < |q| - 1 ensures JointStep(c, q[i], q[i+1], x) {
      assert i > 0 ==> JointStep(c, p[i-1], p[i], x);
    }
    assert JointPath(c, q, x);
  }

  /** Recorded sets that hold nothing but jointly live locals. */
  ghost predicate JointlySound(c: Cfg, sets: LiveSets)
  {
    forall id, x | id in sets && x in sets[id].liveIn :: JointlyLive(c, id, x)
  }

  lemma {:induction false} StepKeepsJointlySound(c: Cfg, sets: LiveSets, b: HirBlock)
    requires JointlySound(c, sets) && b in c.blocks
    ensures JointlySound(c, sets[b.id := BlockInfo(sets, b)])
  {
    hide JointlyLive, Gen, Kill;
    forall x | x in BlockInfo(sets, b).liveIn ensures JointlyLive(c, b.id, x) {
      if x in Gen(b) {
        JointlyHere(c, b, x);
      } else {
        OutFromMember(sets, Successors(b.terminator), x);
        var s :| s in Successors(b.terminator) && s in sets && x in sets[s].liveIn;
        assert JointStep(c, b.id, s, x);
        JointlyThrough(c, b.id, s, x);
      }
    }
  }

  lemma {:induction false} SweepKeepsJointlySound(c: Cfg, sets: LiveSets, blocks: seq<HirBlock>)
    requires JointlySound(c, sets) && forall b | b in blocks :: b in c.blocks
    ensures JointlySound(c, Swept(sets, blocks))
    decreases |blocks|
  {
    hide JointlySound, BlockInfo;
    if blocks != [] {
      StepKeepsJointlySound(c, sets, blocks[0]);
      SweepKeepsJointlySound(c, sets[blocks[0].id := BlockInfo(sets, blocks[0])], blocks[1..]);
    }
  }

  /** Where every equation holds, everything jointly live is recorded. */
  lemma {:induction false} SettledContainsPath(c: Cfg, sets: LiveSets, p: seq<BlockId>, x: LocalId)
    requires (forall b | b in c.blocks :: StableAt(sets, b)) && JointPath(c, p, x)
    ensures p[0] in sets && x in sets[p[0]].liveIn
    decreases |p|
  {
    hide Gen, Kill;
    if |p| == 1 {
      var b :| b in c.blocks && b.id == p[0] && x in Gen(b);
      assert StableAt(sets, b);
    } else {
      assert JointStep(c, p[0], p[1], x);
      var b :| b in c.blocks && b.id == p[0] && p[1] in Successors(b.terminator) && x !in Kill(b);
      forall i | 0 <= i < |p[1..]| - 1 ensures JointStep(c, p[1..][i], p[1..][i+1], x) {
        assert JointStep(c, p[i+1], p[i+2], x);
      }
      SettledContainsPath(c, sets, p[1..], x);
      OutFromMember(sets, Successors(b.terminator), x);
      assert StableAt(sets, b);
    }
  }

  /** The equation of `b`, read at the least joint solution, gives what that solution has for its id. */
  ghost predicate Agrees(c: Cfg, b: HirBlock)
  {
    forall x | JointlyLive(c, b.id, x) ::
      x in Gen(b) || (x !in Kill(b) && exists s :: s in Successors(b.terminator) && JointlyLive(c, s, x))
  }

  /** What that solution has live behind `b`. */
  ghost predicate LiveBehind(c: Cfg, b: HirBlock, x: LocalId)
  {
    exists s :: s in Successors(b.terminator) && JointlyLive(c, s, x)
  }

  /** The blocks with the id of `b` have the same live behind them. */
  ghost predicate SameBehind(c: Cfg, b: HirBlock)
  {
    forall d, x | d in c.blocks && d.id == b.id :: LiveBehind(c, d, x) <==> LiveBehind(c, b, x)
  }

  /** Sets that were built up from nothing and that no sweep changes are the least joint solution, so
      every block agrees with it, and blocks that share an id have the same live behind them. */
  lemma {:induction false} SettledMeansAgreed(c: Cfg, sets: LiveSets, b: HirBlock)
    requires JointlySound(c, sets) && b in c.blocks && forall d | d in c.blocks :: StableAt(sets, d)
    ensures Agrees(c, b) && SameBehind(c, b)
  {
    hide JointlySound, JointlyLive, StableAt, Gen, Kill;
    forall d, x | d in c.blocks && d.id == b.id
      ensures d.id in sets && (x in sets[d.id].liveOut <==> LiveBehind(c, d, x))
      ensures JointlyLive(c, d.id, x) ==> x in Gen(d) || (x !in Kill(d) && LiveBehind(c, d, x))
    {
      SettledAt(c, sets, d, x);
    }
  }

  lemma {:induction false} SettledAt(c: Cfg, sets: LiveSets, b: HirBlock, x: LocalId)
    requires JointlySound(c, sets) && b in c.blocks && forall d | d in c.blocks :: StableAt(sets, d)
    ensures b.id in sets && (x in sets[b.id].liveOut <==> LiveBehind(c, b, x))
    ensures JointlyLive(c, b.id, x) ==> x in Gen(b) || (x !in Kill(b) && LiveBehind(c, b, x))
  {
    hide Gen, Kill;
    assert StableAt(sets, b);
    OutFromMember(sets, Successors(b.terminator), x);
    if s :| s in Successors(b.terminator) && JointlyLive(c, s, x) {
      var p :| JointPath(c, p, x) && p[0] == s;
      SettledContainsPath(c, sets, p, x);
    }
    if JointlyLive(c, b.id, x) {
      var p :| JointPath(c, p, x) && p[0] == b.id;
      SettledContainsPath(c, sets, p, x);
    }
  }

  ghost function SweptTimes(sets: LiveSets, blocks: seq<HirBlock>, n: nat): LiveSets
  {
    if n == 0 then sets else Swept(SweptTimes(sets, blocks, n - 1), blocks)
  }

  lemma {:induction false} SweptKeeps(sets: LiveSets, blocks: seq<HirBlock>)
    requires forall b | b in blocks :: b.id in sets
    ensures Swept(sets, blocks).Keys == sets.Keys
    decreases |blocks|
  {
    hide BlockInfo;
    if blocks != [] {
      SweptKeeps(sets[blocks[0].id := BlockInfo(sets, blocks[0])], blocks[1..]);
    }
  }

  /** Blocks that share an id overwrite each other. When some block disagrees with the least joint
      solution, or has something else live behind it than another block of its id, the iteration never
      settles: however many sweeps have been made, the next one reports a change. */
  lemma {:induction false} DuplicateIdsNeverSettle(c: Cfg, b: HirBlock, sets: LiveSets, n: nat)
    requires b in c.blocks && !(Agrees(c, b) && SameBehind(c, b))
    requires JointlySound(c, sets) && forall d | d in c.blocks :: d.id in sets
    ensures SweepChanges(SweptTimes(sets, c.blocks, n), c.blocks)
    ensures JointlySound(c, SweptTimes(sets, c.blocks, n)) && SweptTimes(sets, c.blocks, n).Keys == sets.Keys
    decreases n
  {
    hide JointlySound, Agrees, SameBehind, Swept, SweepChanges, StableAt;
    var now := SweptTimes(sets, c.blocks, n);
    if n > 0 {
      var before := SweptTimes(sets, c.blocks, n - 1);
      DuplicateIdsNeverSettle(c, b, sets, n - 1);
      SweepKeepsJointlySound(c, before, c.blocks);
      SweptKeeps(before, c.blocks);
    }
    NoChangeIffAllStable(now, c.blocks);
    if forall d | d in c.blocks :: StableAt(now, d) {
      SettledMeansAgreed(c, now, b);
      assert false;
    }
  }

  /** For instance when a block that ends the function shares its id with one that collects more uses. */
  lemma {:induction false} ReturningBlockDisagrees(c: Cfg, a: HirBlock, b: HirBlock, x: LocalId)
    requires a in c.blocks && b in c.blocks && a.id == b.id && b.terminator.Return?
    requires x in Gen(a) && x !in Gen(b)
    ensures !Agrees(c, b)
  {
    hide Gen;
    JointlyHere(c, a, x);
  }

  lemma {:induction false} UniqueBehind(c: Cfg, b: HirBlock)
    requires UniqueIds(c.blocks) && b in c.blocks
    ensures SameBehind(c, b)
  {
    hide UniqueIds, LiveBehind, HasBlock, BlockAt;
    forall d | d in c.blocks && d.id == b.id ensures d == b {
      FoundItself(c, b);
      FoundItself(c, d);
    }
  }

  /** With unique ids every block agrees, so only shared ids can keep the iteration going. */
  lemma {:induction false} UniqueIdsAgree(c: Cfg, b: HirBlock)
    requires UniqueIds(c.blocks) && b in c.blocks
    ensures Agrees(c, b) && SameBehind(c, b)
  {
    UniqueBehind(c, b);
    hide Gen, Kill, Successors, FindBlock, SameBehind;
    forall x | JointlyLive(c, b.id, x) && x !in Gen(b)
      ensures x !in Kill(b) && exists s :: s in Successors(b.terminator) && JointlyLive(c, s, x)
    {
      var p :| JointPath(c, p, x) && p[0] == b.id;
      if |p| == 1 {
        var d :| d in c.blocks && d.id == p[0] && x in Gen(d);
        FoundItself(c, b);
        FoundItself(c, d);
        assert false;
      } else {
        assert JointStep(c, p[0], p[1], x);
        var d :| d in c.blocks && d.id == p[0] && p[1] in Successors(d.terminator) && x !in Kill(d);
        FoundItself(c, b);
        FoundItself(c, d);
        forall i | 0 <= i < |p[1..]| - 1 ensures JointStep(c, p[1..][i], p[1..][i+1], x) {
          assert JointStep(c, p[i+1], p[i+2], x);
        }
        assert JointPath(c, p[1..], x);
      }
    }
  }

  // ----- Agreement is not enough -----

  /** `0: { y = x; goto 1 }`, `0: { goto 1 }`, `1: { goto 0 }`. */
  function Overwriting(x: LocalId, y: LocalId, at: Span): seq<HirBlock>
  {
    [HirBlock(0, [Assign(Local(y), Use(PlaceOp(Local(x))), at)], Goto(1), at),
     HirBlock(0, [], Goto(1), at),
     HirBlock(1, [], Goto(0), at)]
  }

  lemma {:induction false} OverwritingCollects(x: LocalId, y: LocalId, at: Span)
    ensures var bs := Overwriting(x, y, at);
            && Gen(bs[0]) == {x} && Gen(bs[1]) == {} && Gen(bs[2]) == {}
            && Kill(bs[0]) == {y} && Kill(bs[1]) == {} && Kill(bs[2]) == {}
            && Successors(bs[0].terminator) == [1] && Successors(bs[1].terminator) == [1]
            && Successors(bs[2].terminator) == [0]
  {
    var s := Overwriting(x, y, at)[0].stmts;
    assert s[1..] == [];
    assert GenStmts([]) == {} && KillStmts([]) == {};
  }

  /** Here `x` is live under both ids, all blocks agree on that, and the same is live behind those that
      share an id. */
  lemma {:induction false} OverwritingAgrees(x: LocalId, y: LocalId, at: Span, b: HirBlock)
    requires x != y && b in Overwriting(x, y, at)
    ensures var c := Cfg(Overwriting(x, y, at), [], 0); Agrees(c, b) && SameBehind(c, b)
  {
    var bs := Overwriting(x, y, at);
    var c := Cfg(bs, [], 0);
    OverwritingCollects(x, y, at);
    hide Gen, Kill, Successors;
    forall id, z | JointlyLive(c, id, z) ensures z == x {
      var p :| JointPath(c, p, z) && p[0] == id;
    }
    JointlyHere(c, bs[0], x);
    assert JointStep(c, 1, 0, x);
    JointlyThrough(c, 1, 0, x);
    hide JointlyLive;
    assert 0 in Successors(bs[2].terminator) && 1 in Successors(bs[0].terminator) && 1 in Successors(bs[1].terminator);
  }

  /** Yet the second block forgets what the first has put in its place, in every sweep: from the empty
      sets with which the analysis starts each sweep reports a change and comes back to them. */
  lemma {:induction false} AgreementIsNotEnough(x: LocalId, y: LocalId, at: Span, n: nat)
    ensures var bs, none := Overwriting(x, y, at), map[0 := LivenessInfo({}, {}), 1 := LivenessInfo({}, {})];
            SweptTimes(none, bs, n) == none && SweepChanges(SweptTimes(none, bs, n), bs)
  {
    var bs := Overwriting(x, y, at);
    var none: LiveSets := map[0 := LivenessInfo({}, {}), 1 := LivenessInfo({}, {})];
    OverwritingSwept(x, y, at);
    if n > 0 {
      AgreementIsNotEnough(x, y, at, n - 1);
    }
  }

  lemma {:induction false} OverwritingSwept(x: LocalId, y: LocalId, at: Span)
    ensures var bs, none := Overwriting(x, y, at), map[0 := LivenessInfo({}, {}), 1 := LivenessInfo({}, {})];
            Swept(none, bs) == none && SweepChanges(none, bs)
  {
    var bs := Overwriting(x, y, at);
    var none: LiveSets := map[0 := LivenessInfo({}, {}), 1 := LivenessInfo({}, {})];
    OverwritingCollects(x, y, at);
    hide Gen, Kill, Successors;
    var one := none[0 := LivenessInfo({x}, {})];
    assert [1][1..] == [] && [0][1..] == [];
    assert [1][0] == 1 && [0][0] == 0 && OutFrom(none, []) == {} && OutFrom(one, []) == {};
    assert OutFrom(none, [1]) == {} && OutFrom(one, [1]) == {};
    assert OutFrom(none, [0]) == {};
    assert BlockInfo(none, bs[0]) == LivenessInfo({x}, {});
    assert BlockInfo(one, bs[1]) == LivenessInfo({}, {});
    assert BlockInfo(none, bs[2]) == LivenessInfo({}, {});
    assert bs[1..][0] == bs[1] && bs[1..][1..] == [bs[2]] && [bs[2]][1..] == [];
    assert one[0 := LivenessInfo({}, {})] == none && none[1 := LivenessInfo({}, {})] == none;
    assert Swept(none, [bs[2]]) == Swept(none, []) == none;
    assert Swept(one, bs[1..]) == Swept(none, [bs[2]]);
    assert !StableAt(none, bs[0]);
  }
}
