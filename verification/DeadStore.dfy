/** Dead-store elimination: plain assignments to locals that are not live afterwards are removed. */
module DeadStore {
  import opened Wrappers
  import opened Hir
  import opened HirSemantics
  import opened CfgGraph
  import opened Liveness

  // ----- The transformation -----

  /** The live set before a statement. Only a plain assignment changes it, kept or not. */
  function LiveStmt(s: HirStmt, after: set<LocalId>): set<LocalId>
  {
    if s.Assign? && s.lhs.Local? then (after - {s.lhs.id}) + UsesRvalue(s.rhs) else after
  }

  function LiveBefore(ss: seq<HirStmt>, after: set<LocalId>): set<LocalId>
  {
    if ss == [] then after else LiveStmt(ss[0], LiveBefore(ss[1..], after))
  }

  predicate Keep(s: HirStmt, after: set<LocalId>)
  {
    s.Assign? && s.lhs.Local? ==> s.lhs.id in after
  }

  function Eliminate(ss: seq<HirStmt>, after: set<LocalId>): seq<HirStmt>
  {
    if ss == [] then []
    else (if Keep(ss[0], LiveBefore(ss[1..], after)) then [ss[0]] else []) + Eliminate(ss[1..], after)
  }

  ghost function LiveAtEnd(c: Cfg, b: HirBlock): set<LocalId>
  {
    LiveOut(c, b.id) + UsesTerminator(b.terminator)
  }

  ghost function EliminateBlock(c: Cfg, b: HirBlock): HirBlock
  {
    b.(stmts := Eliminate(b.stmts, LiveAtEnd(c, b)))
  }

  ghost function EliminateBlocks(c: Cfg, bs: seq<HirBlock>): (r: seq<HirBlock>)
    ensures |r| == |bs| && forall i | 0 <= i < |bs| :: r[i] == EliminateBlock(c, bs[i])
  {
    if bs == [] then [] else [EliminateBlock(c, bs[0])] + EliminateBlocks(c, bs[1..])
  }

  ghost function EliminateCfg(c: Cfg): Cfg { c.(blocks := EliminateBlocks(c, c.blocks)) }

  // ----- The pass -----

  function Reversed(ss: seq<HirStmt>): (r: seq<HirStmt>)
    ensures |r| == |ss|
  {
    if ss == [] then [] else [ss[|ss|-1]] + Reversed(ss[..|ss|-1])
  }

  lemma {:induction false} ReversedAppend(ss: seq<HirStmt>, s: HirStmt)
    ensures Reversed(ss + [s]) == [s] + Reversed(ss)
  {
    assert (ss + [s])[..|ss|] == ss;
  }

  lemma {:induction false} EliminateShrinks(ss: seq<HirStmt>, after: set<LocalId>)
    ensures |Eliminate(ss, after)| <= |ss|
    ensures |Eliminate(ss, after)| == |ss| <==> Eliminate(ss, after) == ss
  {
    if ss != [] {
      EliminateShrinks(ss[1..], after);
      assert ss == [ss[0]] + ss[1..];
    }
  }

  /** The backward walk over one block; what it keeps is collected in reverse. */
  method EliminateInBlock(stmts: seq<HirStmt>, atEnd: set<LocalId>) returns (out: seq<HirStmt>)
    ensures out == Eliminate(stmts, atEnd)
  {
    var newStmts: seq<HirStmt> := [];
    var live := atEnd;
    for i := |stmts| downto 0
      invariant live == LiveBefore(stmts[i..], atEnd)
      invariant Reversed(newStmts) == Eliminate(stmts[i..], atEnd)
    {
      var s := stmts[i];
      assert stmts[i..][0] == s && stmts[i..][1..] == stmts[i+1..];
      var keep := true;
      match s {
        case Assign(lhs, rhs, _) =>
          if lhs.Local? {
            if lhs.id !in live {
              keep := false;
            }
            live := live - {lhs.id};
            live := live + UsesRvalue(rhs);
          }
        case _ =>
      }
      if keep {
        ReversedAppend(newStmts, s);
        newStmts := newStmts + [s];
      }
    }
    assert stmts[0..] == stmts;
    out := Reversed(newStmts);
  }

  method EliminateInBlocks(ghost c: Cfg, blocks: seq<HirBlock>, sets: LiveSets)
    returns (out: seq<HirBlock>, changed: bool)
    requires forall b | b in blocks :: b.id in sets && sets[b.id].liveOut == LiveOut(c, b.id)
    ensures out == EliminateBlocks(c, blocks)
    ensures changed <==> out != blocks
  {
    hide LiveOut, Eliminate;
    out, changed := blocks, false;
    ghost var first: nat := 0;
    for i := 0 to |blocks|
      invariant |out| == |blocks|
      invariant forall k | 0 <= k < i :: out[k] == EliminateBlock(c, blocks[k])
      invariant forall k | i <= k < |blocks| :: out[k] == blocks[k]
      invariant if changed then first < i && out[first] != blocks[first] else out == blocks
    {
      var b := blocks[i];
      assert b in blocks;
      var stmts := EliminateInBlock(b.stmts, sets[b.id].liveOut + UsesTerminator(b.terminator));
      EliminateShrinks(b.stmts, LiveAtEnd(c, b));
      out := out[i := b.(stmts := stmts)];
      if |stmts| < |b.stmts| {
        changed, first := true, i;
      }
    }
    assert out == EliminateBlocks(c, blocks);
  }

  method RunOnBody(body: HirBody) returns (changed: bool)
    requires UniqueIds(body.blocks)
    modifies body`blocks
    ensures body.View() == EliminateCfg(old(body.View()))
    ensures changed <==> body.View() != old(body.View())
  {
    hide LiveIn, LiveOut, UniqueIds, EliminateBlocks;
    ghost var c := body.View();
    var sets := ComputeLiveness(body);
    var blocks;
    blocks, changed := EliminateInBlocks(c, body.blocks, sets);
    body.blocks := blocks;
  }

  // ----- Which stores are kept, by the text of the block -----

  predicate UsedBy(s: HirStmt, x: LocalId) { s.Assign? && s.lhs.Local? && Mentions(s.rhs, x) }

  /** An assignment to a local mentions `x` before anything is stored there. */
  ghost predicate UsedFirst(ss: seq<HirStmt>, x: LocalId)
  {
    exists j :: 0 <= j < |ss| && UsedBy(ss[j], x) && forall k | 0 <= k < j :: !StoresTo(ss[k], x)
  }

  ghost predicate NeverStored(ss: seq<HirStmt>, x: LocalId) { forall k | 0 <= k < |ss| :: !StoresTo(ss[k], x) }

  lemma {:induction false} LiveBeforeMeans(ss: seq<HirStmt>, after: set<LocalId>, x: LocalId)
    ensures x in LiveBefore(ss, after) <==> UsedFirst(ss, x) || (NeverStored(ss, x) && x in after)
  {
    hide UsesRvalue, Mentions;
    if ss != [] {
      var rest := ss[1..];
      LiveBeforeMeans(rest, after, x);
      if ss[0].Assign? {
        UsesAreMentions(ss[0].rhs, x);
      }
      UsedFirstStep(ss, x);
      assert NeverStored(ss, x) <==> !StoresTo(ss[0], x) && NeverStored(rest, x) by {
        if NeverStored(ss, x) {
          forall k | 0 <= k < |rest| ensures !StoresTo(rest[k], x) {
            assert !StoresTo(ss[k+1], x);
          }
        }
      }
    }
  }

  lemma {:induction false} UsedFirstStep(ss: seq<HirStmt>, x: LocalId)
    requires ss != []
    ensures UsedFirst(ss, x) <==> UsedBy(ss[0], x) || (!StoresTo(ss[0], x) && UsedFirst(ss[1..], x))
  {
    hide Mentions;
    var rest := ss[1..];
    if UsedFirst(ss, x) {
      var j :| 0 <= j < |ss| && UsedBy(ss[j], x) && forall k | 0 <= k < j :: !StoresTo(ss[k], x);
      if j > 0 {
        assert UsedBy(rest[j-1], x);
        forall k | 0 <= k < j - 1 ensures !StoresTo(rest[k], x) {
          assert !StoresTo(ss[k+1], x);
        }
      }
    }
    if !StoresTo(ss[0], x) && UsedFirst(rest, x) {
      var j :| 0 <= j < |rest| && UsedBy(rest[j], x) && forall k | 0 <= k < j :: !StoresTo(rest[k], x);
      assert UsedBy(ss[j+1], x) && forall k | 0 <= k < j + 1 :: !StoresTo(ss[k], x);
    }
  }

  /** A plain store stays in its block exactly when the local is mentioned further on before it is stored to
      again, or is never stored to again and needed at the end; everything else stays anyway. */
  lemma {:induction false} KeptExactlyWhenNeeded(ss: seq<HirStmt>, after: set<LocalId>, i: nat)
    returns (before: seq<HirStmt>)
    requires i < |ss|
    ensures var s, rest := ss[i], ss[i+1..];
            var needed := s.Assign? && s.lhs.Local? ==>
                UsedFirst(rest, s.lhs.id) || (NeverStored(rest, s.lhs.id) && s.lhs.id in after);
            && |before| <= i
            && Eliminate(ss, after) == before + (if needed then [s] else []) + Eliminate(rest, after)
  {
    hide LiveBefore, UsedFirst, NeverStored;
    if i == 0 {
      if ss[0].Assign? && ss[0].lhs.Local? {
        LiveBeforeMeans(ss[1..], after, ss[0].lhs.id);
      }
      before := [];
    } else {
      before := KeptExactlyWhenNeeded(ss[1..], after, i - 1);
      assert ss[1..][i-1] == ss[i] && ss[1..][i..] == ss[i+1..];
      before := (if Keep(ss[0], LiveBefore(ss[1..], after)) then [ss[0]] else []) + before;
    }
  }

  // ----- What the analysis does not see -----

  /** A local, or a field of a field of a local: no index and no pointer involved. */
  predicate PlainPlace(p: HirPlace)
  {
    match p
    case Local(_) => true
    case Field(base, _) => PlainPlace(base)
    case _ => false
  }

  predicate PlainOperand(o: HirOperand) { o.PlaceOp? ==> PlainPlace(o.place) }

  /** No pointer is followed, and no address of a local is taken. */
  predicate PlainRvalue(rv: HirRvalue)
  {
    match rv
    case Use(o) => PlainOperand(o)
    case BinaryOp(_, l, r) => PlainOperand(l) && PlainOperand(r)
    case UnaryOp(_, o) => PlainOperand(o)
    case Ref(_, _) => false
    case Load(_) => false
    case Aggregate(_, fields) => forall o | o in fields :: PlainOperand(o)
    case Discriminant(p) => PlainPlace(p)
    case ExtractPayload(p, _) => PlainPlace(p)
    case ArrayToSlice(o, _, _) => !o.PlaceOp?
  }

  predicate PlainStmt(s: HirStmt)
  {
    match s
    case Assign(lhs, rhs, _) => PlainPlace(lhs) && PlainRvalue(rhs)
    case Call(dest, func, args, _) =>
      (dest.Some? ==> PlainPlace(dest.value)) && PlainOperand(func) && forall o | o in args :: PlainOperand(o)
    case Drop(p, _) => PlainPlace(p)
  }

  predicate PlainTerminator(t: HirTerminator)
  {
    match t
    case Return(Some(o)) => PlainOperand(o)
    case Switch(discr, _, _) => PlainOperand(discr)
    case _ => true
  }

  predicate PlainBlock(b: HirBlock)
  {
    PlainTerminator(b.terminator) && forall s | s in b.stmts :: PlainStmt(s)
  }

  predicate PlainBody(c: Cfg) { forall b | b in c.blocks :: PlainBlock(b) }

  /** The locals an operand reads. */
  function ReadsOperand(o: HirOperand): set<LocalId>
  {
    if o.PlaceOp? then {Root(o.place)} else {}
  }

  function ReadsOperands(os: seq<HirOperand>): set<LocalId>
  {
    if os == [] then {} else ReadsOperand(os[0]) + ReadsOperands(os[1..])
  }

  /** The locals whose value an expression reads. */
  function ReadsRvalue(rv: HirRvalue): set<LocalId>
  {
    match rv
    case Use(o) => ReadsOperand(o)
    case BinaryOp(_, l, r) => ReadsOperand(l) + ReadsOperand(r)
    case UnaryOp(_, o) => ReadsOperand(o)
    case Ref(_, _) => {}
    case Load(o) => ReadsOperand(o)
    case Aggregate(_, fields) => ReadsOperands(fields)
    case Discriminant(p) => {Root(p)}
    case ExtractPayload(p, _) => {Root(p)}
    case ArrayToSlice(_, _, _) => {}
  }

  /** The locals a statement needs without the analysis knowing: operands that are not bare locals,
      everything calls and drops look at, and everything around an assignment to part of a local. */
  function ExposedStmt(s: HirStmt): set<LocalId>
  {
    match s
    case Assign(lhs, rhs, _) =>
      if lhs.Local? then ReadsRvalue(rhs) - UsesRvalue(rhs) else ReadsRvalue(rhs) + {Root(lhs)}
    case Call(dest, func, args, _) =>
      ReadsOperand(func) + ReadsOperands(args) +
      (if dest.Some? && !dest.value.Local? then {Root(dest.value)} else {})
    case Drop(p, _) => {Root(p)}
  }

  function ReadsTerminator(t: HirTerminator): set<LocalId>
  {
    match t
    case Return(Some(o)) => ReadsOperand(o)
    case Switch(discr, _, _) => ReadsOperand(discr)
    case _ => {}
  }

  /** `x` is read somewhere in the block without being collected. */
  ghost predicate ExposedInBlock(b: HirBlock, x: LocalId)
  {
    || x in ReadsTerminator(b.terminator) - UsesTerminator(b.terminator)
    || exists s :: s in b.stmts && x in ExposedStmt(s)
  }

  ghost predicate Exposed(c: Cfg, x: LocalId) { exists b :: b in c.blocks && ExposedInBlock(b, x) }

  /** Some store to `x` is removed from the statement list. */
  ghost predicate RemovedFrom(ss: seq<HirStmt>, after: set<LocalId>, x: LocalId)
  {
    ss != [] &&
    ((ss[0].Assign? && ss[0].lhs == Local(x) && !Keep(ss[0], LiveBefore(ss[1..], after)))
     || RemovedFrom(ss[1..], after, x))
  }

  ghost predicate Removed(c: Cfg, x: LocalId)
  {
    exists b :: b in c.blocks && RemovedFrom(b.stmts, LiveAtEnd(c, b), x)
  }

  /** The pass may be trusted with this body: no pointer is followed, and no local that loses a store
      is read behind the analysis' back. */
  ghost predicate Safe(c: Cfg)
  {
    PlainBody(c) && forall x | Exposed(c, x) :: !Removed(c, x)
  }

  // ----- Two stores that agree where it matters -----

  /** Equal on the live locals and on every local that loses no store. */
  ghost predicate Agree(s: Store, t: Store, live: set<LocalId>, removed: iset<LocalId>)
  {
    forall x | x in live || x !in removed :: (x in s <==> x in t) && (x in s ==> s[x] == t[x])
  }

  ghost predicate Covered(needed: set<LocalId>, live: set<LocalId>, removed: iset<LocalId>)
  {
    forall x | x in needed :: x in live || x !in removed
  }

  lemma {:induction false} PlainResolve(p: HirPlace, s: Store, t: Store)
    requires PlainPlace(p)
    ensures Resolve(p, s) == Resolve(p, t) && Resolve(p, s).Val? && Resolve(p, s).v.base == Root(p)
    ensures Resolve(p, s).v.path == [] <==> p.Local?
  {
    if p.Field? {
      PlainResolve(p.base, s, t);
    }
  }

  lemma {:induction false} SamePlace(p: HirPlace, s: Store, t: Store, live: set<LocalId>, removed: iset<LocalId>)
    requires PlainPlace(p) && Agree(s, t, live, removed) && Covered({Root(p)}, live, removed)
    ensures EvalPlace(p, s) == EvalPlace(p, t)
  {
    PlainResolve(p, s, t);
  }

  lemma {:induction false} SameOperand(o: HirOperand, s: Store, t: Store, live: set<LocalId>, removed: iset<LocalId>)
    requires PlainOperand(o) && Agree(s, t, live, removed) && Covered(ReadsOperand(o), live, removed)
    ensures EvalOperand(o, s) == EvalOperand(o, t)
  {
    if o.PlaceOp? {
      SamePlace(o.place, s, t, live, removed);
    }
  }

  lemma {:induction false} SameOperands(
      os: seq<HirOperand>, s: Store, t: Store, live: set<LocalId>, removed: iset<LocalId>)
    requires (forall o | o in os :: PlainOperand(o)) && Agree(s, t, live, removed)
    requires Covered(ReadsOperands(os), live, removed)
    ensures EvalOperands(os, s) == EvalOperands(os, t)
  {
    if os != [] {
      SameOperand(os[0], s, t, live, removed);
      SameOperands(os[1..], s, t, live, removed);
    }
  }

  lemma {:induction false} SameRvalue(
      env: Env, rv: HirRvalue, s: Store, t: Store, live: set<LocalId>, removed: iset<LocalId>)
    requires PlainRvalue(rv) && Agree(s, t, live, removed) && Covered(ReadsRvalue(rv), live, removed)
    ensures EvalRvalue(env, rv, s) == EvalRvalue(env, rv, t)
  {
    match rv
    case Use(o) => SameOperand(o, s, t, live, removed);
    case BinaryOp(_, l, r) =>
      SameOperand(l, s, t, live, removed);
      SameOperand(r, s, t, live, removed);
    case UnaryOp(_, o) => SameOperand(o, s, t, live, removed);
    case Aggregate(_, fields) => SameOperands(fields, s, t, live, removed);
    case Discriminant(p) => SamePlace(p, s, t, live, removed);
    case ExtractPayload(p, _) => SamePlace(p, s, t, live, removed);
    case _ =>
  }

  /** Storing the same value at the same plain place keeps the stores in agreement; afterwards a plain
      local that was assigned agrees too. */
  lemma {:induction false} SameStore(
      p: HirPlace, v: Value, s: Store, t: Store, live: set<LocalId>, removed: iset<LocalId>)
    requires PlainPlace(p) && Agree(s, t, live, removed)
    requires !p.Local? ==> Covered({Root(p)}, live, removed)
    ensures Resolve(p, s).Val?
    ensures var a := Resolve(p, s).v;
            && StoreAddr(s, a, v).Val? == StoreAddr(t, a, v).Val?
            && (StoreAddr(s, a, v).Val? ==>
                  Agree(StoreAddr(s, a, v).v, StoreAddr(t, a, v).v,
                        if p.Local? then live + {p.id} else live, removed))
  {
    PlainResolve(p, s, t);
  }

  // ----- Simulation -----

  /** The same has been done in both, and nobody holds the address of a local. */
  ghost predicate Alike(r: State, q: State)
  {
    r.trace == q.trace && r.taken == {} && q.taken == {}
  }

  lemma {:induction false} NothingTaken(st: State, memory: Store)
    requires st.taken == {}
    ensures VisibleMemory(st) == map[] && WrittenBy(st, memory) == st.store
  {
  }

  lemma {:induction false} PlainTakesNothing(rv: HirRvalue, v: Value, env: Env, st: Store)
    requires PlainRvalue(rv) && EvalRvalue(env, rv, st) == Val(v)
    ensures AddressTaken(rv, v) == {}
  {
  }

  ghost predicate Simulates(r: Eval<State>, q: Eval<State>, live: set<LocalId>, removed: iset<LocalId>)
  {
    r.Val? ==> q.Val? && Alike(r.v, q.v) && Agree(r.v.store, q.v.store, live, removed)
  }

  /** A kept statement does the same in both stores. */
  lemma {:induction false} KeptStmt(
      env: Env, s: HirStmt, st: State, q: State, after: set<LocalId>, removed: iset<LocalId>)
    requires PlainStmt(s) && Alike(st, q) && Covered(ExposedStmt(s), {}, removed)
    requires Agree(st.store, q.store, LiveStmt(s, after), removed)
    ensures Simulates(ExecStmt(env, s, st), ExecStmt(env, s, q), after, removed)
  {
    var live := LiveStmt(s, after);
    match s
    case Assign(lhs, rhs, _) =>
      assert Covered(ReadsRvalue(rhs), live, removed);
      SameRvalue(env, rhs, st.store, q.store, live, removed);
      PlainResolve(lhs, st.store, q.store);
      var v := EvalRvalue(env, rhs, st.store);
      if v.Val? {
        PlainTakesNothing(rhs, v.v, env, st.store);
        SameStore(lhs, v.v, st.store, q.store, live, removed);
      }
    case Call(dest, func, args, _) =>
      SameOperand(func, st.store, q.store, live, removed);
      SameOperands(args, st.store, q.store, live, removed);
      var f, vs := EvalOperand(func, st.store), EvalOperands(args, st.store);
      if f.Val? && vs.Val? {
        var trace := st.trace + [CallEvent(f.v, vs.v, map[])];
        NothingTaken(st, env.write(trace));
        NothingTaken(q, env.write(trace));
        if dest.Some? {
          PlainResolve(dest.value, st.store, q.store);
          SameStore(dest.value, env.call(trace), st.store, q.store, live, removed);
        }
      }
    case Drop(p, _) =>
      SamePlace(p, st.store, q.store, live, removed);
  }

  /** A removed store only touches a local that nothing looks at any more. */
  lemma {:induction false} RemovedStmt(
      env: Env, s: HirStmt, st: State, q: State, after: set<LocalId>, removed: iset<LocalId>)
    requires PlainStmt(s) && s.Assign? && !Keep(s, after) && s.lhs.id in removed && Alike(st, q)
    requires Agree(st.store, q.store, LiveStmt(s, after), removed)
    ensures Simulates(ExecStmt(env, s, st), Val(q), after, removed)
  {
    var v := EvalRvalue(env, s.rhs, st.store);
    if v.Val? {
      PlainTakesNothing(s.rhs, v.v, env, st.store);
    }
  }

  ghost predicate Contains(removed: iset<LocalId>, ss: seq<HirStmt>, after: set<LocalId>)
  {
    forall x | RemovedFrom(ss, after, x) :: x in removed
  }

  lemma {:induction false} StmtsSimulate(
      env: Env, ss: seq<HirStmt>, st: State, q: State, after: set<LocalId>, removed: iset<LocalId>)
    requires forall s | s in ss :: PlainStmt(s) && Covered(ExposedStmt(s), {}, removed)
    requires Contains(removed, ss, after) && Alike(st, q)
    requires Agree(st.store, q.store, LiveBefore(ss, after), removed)
    ensures Simulates(ExecStmts(env, ss, st), ExecStmts(env, Eliminate(ss, after), q), after, removed)
  {
    hide ExecStmt, PlainStmt, ExposedStmt, LiveStmt;
    if ss != [] {
      var s, rest := ss[0], ss[1..];
      var mid := LiveBefore(rest, after);
      var next := ExecStmt(env, s, st);
      if next.Val? {
        if Keep(s, mid) {
          KeptStmt(env, s, st, q, mid, removed);
          var tail := Eliminate(rest, after);
          assert ([s] + tail)[1..] == tail;
          StmtsSimulate(env, rest, next.v, ExecStmt(env, s, q).v, after, removed);
        } else {
          assert RemovedFrom(ss, after, s.lhs.id);
          RemovedStmt(env, s, st, q, mid, removed);
          assert Eliminate(ss, after) == Eliminate(rest, after);
          StmtsSimulate(env, rest, next.v, q, after, removed);
        }
      }
    }
  }

  /** The backward walk asks for no more than the analysis promises at the start of the block. */
  lemma {:induction false} WalkWithinEquation(ss: seq<HirStmt>, after: set<LocalId>)
    ensures LiveBefore(ss, after) <= GenStmts(ss) + (after - KillStmts(ss))
  {
    if ss != [] {
      WalkWithinEquation(ss[1..], after);
    }
  }

  lemma {:induction false} WalkStartsLive(c: Cfg, b: HirBlock)
    requires UniqueIds(c.blocks) && b in c.blocks
    ensures LiveBefore(b.stmts, LiveAtEnd(c, b)) <= LiveIn(c, b.id)
  {
    FoundItself(c, b);
    GenInAll(c.blocks, b);
    WalkWithinEquation(b.stmts, LiveAtEnd(c, b));
    forall x | x in LiveBefore(b.stmts, LiveAtEnd(c, b)) ensures LiveAt(c, b.id, x) {
      if x in Gen(b) {
        LiveHere(c, b.id, x);
      } else {
        var s :| Edge(c, b.id, s) && LiveAt(c, s, x);
        LiveThrough(c, b.id, s, x);
      }
    }
  }

  ghost function RemovedSet(c: Cfg): iset<LocalId> { iset x: LocalId | Removed(c, x) }

  ghost predicate SimulatesBlock(c: Cfg, b: HirBlock, r: Eval<After>, q: Eval<After>)
  {
    r.Val? ==>
      && q.Val? && q.v.exit == r.v.exit && Alike(r.v.state, q.v.state)
      && Agree(r.v.state.store, q.v.state.store, LiveOut(c, b.id), RemovedSet(c))
  }

  lemma {:induction false} TerminatorCovered(c: Cfg, b: HirBlock)
    requires Safe(c) && b in c.blocks
    ensures Covered(ReadsTerminator(b.terminator), LiveAtEnd(c, b), RemovedSet(c))
  {
    hide LiveOut, ReadsTerminator, UsesTerminator, Removed;
    forall x | x in ReadsTerminator(b.terminator) && x !in UsesTerminator(b.terminator) ensures x !in RemovedSet(c) {
      assert ExposedInBlock(b, x);
      assert Exposed(c, x);
    }
  }

  lemma {:induction false} TerminatorSame(c: Cfg, b: HirBlock, s: Store, t: Store)
    requires Safe(c) && b in c.blocks && Agree(s, t, LiveAtEnd(c, b), RemovedSet(c))
    ensures ExecTerminator(b.terminator, s) == ExecTerminator(b.terminator, t)
  {
    hide LiveAtEnd, RemovedSet, Agree, Covered, EvalOperand;
    TerminatorCovered(c, b);
    assert PlainBlock(b);
    match b.terminator
    case Return(Some(o)) => SameOperand(o, s, t, LiveAtEnd(c, b), RemovedSet(c));
    case Switch(discr, _, _) => SameOperand(discr, s, t, LiveAtEnd(c, b), RemovedSet(c));
    case _ =>
  }

  lemma {:induction false} BlockSimulates(env: Env, c: Cfg, b: HirBlock, st: State, q: State)
    requires Safe(c) && UniqueIds(c.blocks) && b in c.blocks && Alike(st, q)
    requires Agree(st.store, q.store, LiveIn(c, b.id), RemovedSet(c))
    ensures SimulatesBlock(c, b, ExecBlock(env, b, st), ExecBlock(env, EliminateBlock(c, b), q))
  {
    hide ExecStmts, ExecTerminator, Eliminate, LiveIn, LiveOut, LiveBefore;
    var atEnd, removed := LiveAtEnd(c, b), RemovedSet(c);
    WalkStartsLive(c, b);
    assert PlainBlock(b);
    forall s | s in b.stmts ensures PlainStmt(s) && Covered(ExposedStmt(s), {}, removed) {
      forall x | x in ExposedStmt(s) ensures x !in removed {
        assert ExposedInBlock(b, x);
        assert Exposed(c, x);
      }
    }
    assert Contains(removed, b.stmts, atEnd);
    StmtsSimulate(env, b.stmts, st, q, atEnd, removed);
    var r := ExecStmts(env, b.stmts, st);
    if r.Val? {
      TerminatorSame(c, b, r.v.store, ExecStmts(env, Eliminate(b.stmts, atEnd), q).v.store);
    }
  }

  lemma {:induction false} JumpGrowsIntoLive(c: Cfg, id: BlockId, next: BlockId, s: Store, t: Store)
    requires Edge(c, id, next) && Agree(s, t, LiveOut(c, id), RemovedSet(c))
    ensures Agree(s, t, LiveIn(c, next), RemovedSet(c))
  {
    assert LiveIn(c, next) <= LiveOut(c, id);
  }

  lemma {:induction false} EliminateFind(c: Cfg, bs: seq<HirBlock>, id: BlockId)
    ensures var b := FindBlock(bs, id);
            FindBlock(EliminateBlocks(c, bs), id) == if b.Some? then Some(EliminateBlock(c, b.value)) else None
  {
    if bs != [] {
      EliminateFind(c, bs[1..], id);
      assert EliminateBlocks(c, bs)[1..] == EliminateBlocks(c, bs[1..]);
    }
  }

  lemma {:induction false} EliminateCfgFind(c: Cfg, id: BlockId)
    ensures var b := FindBlock(c.blocks, id);
            FindBlock(EliminateCfg(c).blocks, id) == if b.Some? then Some(EliminateBlock(c, b.value)) else None
    ensures EliminateCfg(c).entry == c.entry
  {
    EliminateFind(c, c.blocks, id);
  }

  lemma {:induction false} StepSimulates(env: Env, c: Cfg, id: BlockId, b: HirBlock, st: State, q: State)
    requires Safe(c) && UniqueIds(c.blocks) && FindBlock(c.blocks, id) == Some(b) && Alike(st, q)
    requires Agree(st.store, q.store, LiveIn(c, id), RemovedSet(c))
    ensures var r, u := ExecBlock(env, b, st), ExecBlock(env, EliminateBlock(c, b), q);
            r.Val? ==>
              && u.Val? && u.v.exit == r.v.exit && Alike(r.v.state, u.v.state)
              && u.v.state.trace == r.v.state.trace
              && (r.v.exit.Jump? ==>
                    Agree(r.v.state.store, u.v.state.store, LiveIn(c, r.v.exit.target), RemovedSet(c)))
  {
    hide ExecBlock, EliminateBlock, LiveIn, LiveOut, Agree, Safe, UniqueIds;
    BlockSimulates(env, c, b, st, q);
    BlockJumpsToSuccessor(env, b, st);
    var r, u := ExecBlock(env, b, st), ExecBlock(env, EliminateBlock(c, b), q);
    if r.Val? && r.v.exit.Jump? {
      assert Edge(c, id, r.v.exit.target);
      JumpGrowsIntoLive(c, id, r.v.exit.target, r.v.state.store, u.v.state.store);
    }
  }

  lemma {:induction false} RunSimulates(env: Env, c: Cfg, id: BlockId, st: State, q: State, n: nat)
    requires Safe(c) && UniqueIds(c.blocks) && Alike(st, q)
    requires Agree(st.store, q.store, LiveIn(c, id), RemovedSet(c))
    requires Run(env, c, id, st, n).Returned?
    ensures Run(env, EliminateCfg(c), id, q, n) == Run(env, c, id, st, n)
    decreases n
  {
    hide *;
    if n == 0 {
      RunOut(env, c, id, st);
    } else {
      RunStep(env, c, id, st, n);
      RunStep(env, EliminateCfg(c), id, q, n);
      EliminateCfgFind(c, id);
      var b := FindBlock(c.blocks, id);
      if b.Some? {
        StepSimulates(env, c, id, b.value, st, q);
        var r := ExecBlock(env, b.value, st);
        if r.Val? && r.v.exit.Jump? {
          var u := ExecBlock(env, EliminateBlock(c, b.value), q);
          RunSimulates(env, c, r.v.exit.target, r.v.state, u.v.state, n - 1);
        }
      }
    }
  }

  /** Dead-store elimination preserves meaning: with unique block ids, and when no local that loses a
      store is read behind the analysis' back, every run that returns still returns the same value
      with the same trace, from every store. A store whose right-hand side would trap may disappear,
      so trapping runs need not stay. */
  lemma {:induction false} EliminateRefines(c: Cfg)
    requires UniqueIds(c.blocks) && Safe(c)
    ensures Refines(c, EliminateCfg(c))
  {
    hide Run, EliminateCfg, Safe, UniqueIds, LiveIn;
    EliminateCfgFind(c, c.entry);
    forall env: Env, store: Store, n: nat | Run(env, c, c.entry, Start(store), n).Returned?
      ensures Run(env, EliminateCfg(c), c.entry, Start(store), n) == Run(env, c, c.entry, Start(store), n)
    {
      RunSimulates(env, c, c.entry, Start(store), Start(store), n);
    }
  }

  // ----- Conditions that can be checked by looking at the body -----

  ghost predicate PlainlyAssigned(c: Cfg, x: LocalId)
  {
    exists b, s :: b in c.blocks && s in b.stmts && s.Assign? && s.lhs == Local(x)
  }

  lemma {:induction false} RemovedIsAssigned(ss: seq<HirStmt>, after: set<LocalId>, x: LocalId)
    requires RemovedFrom(ss, after, x)
    ensures exists s :: s in ss && s.Assign? && s.lhs == Local(x)
  {
    if !(ss[0].Assign? && ss[0].lhs == Local(x)) {
      RemovedIsAssigned(ss[1..], after, x);
      var s :| s in ss[1..] && s.Assign? && s.lhs == Local(x);
      assert s in ss;
    }
  }

  /** The syntactic condition: what is read unseen is never the target of a plain assignment. */
  ghost predicate Checkable(c: Cfg)
  {
    PlainBody(c) && forall x | Exposed(c, x) :: !PlainlyAssigned(c, x)
  }

  lemma {:induction false} RemovedIsPlainlyAssigned(c: Cfg, x: LocalId)
    requires Removed(c, x)
    ensures PlainlyAssigned(c, x)
  {
    var b :| b in c.blocks && RemovedFrom(b.stmts, LiveAtEnd(c, b), x);
    RemovedIsAssigned(b.stmts, LiveAtEnd(c, b), x);
  }

  lemma {:induction false} CheckableIsSafe(c: Cfg)
    requires Checkable(c)
    ensures Safe(c)
  {
    hide Removed, Exposed, PlainlyAssigned;
    forall x | Removed(c, x) ensures PlainlyAssigned(c, x) {
      RemovedIsPlainlyAssigned(c, x);
    }
  }

  /** Only bare locals, constant call operands, no drops and no loads through pointers. */
  predicate BareOperand(o: HirOperand) { o.PlaceOp? ==> o.place.Local? }

  predicate BareStmt(s: HirStmt)
  {
    match s
    case Assign(lhs, rhs, _) =>
      lhs.Local? &&
      (match rhs
       case Use(o) => BareOperand(o)
       case BinaryOp(_, l, r) => BareOperand(l) && BareOperand(r)
       case UnaryOp(_, o) => BareOperand(o)
       case Ref(_, _) => false
       case Load(_) => false
       case Aggregate(_, fields) => forall o | o in fields :: BareOperand(o)
       case Discriminant(p) => p.Local?
       case ExtractPayload(p, _) => p.Local?
       case ArrayToSlice(o, _, _) => !o.PlaceOp?)
    case Call(dest, func, args, _) =>
      (dest.Some? ==> dest.value.Local?) && !func.PlaceOp? && forall o | o in args :: !o.PlaceOp?
    case Drop(_, _) => false
  }

  predicate BareBlock(b: HirBlock)
  {
    && (forall s | s in b.stmts :: BareStmt(s))
    && (b.terminator.Return? && b.terminator.value.Some? ==> BareOperand(b.terminator.value.value))
    && (b.terminator.Switch? ==> BareOperand(b.terminator.discr))
  }

  lemma {:induction false} BareOperandsCollected(os: seq<HirOperand>)
    requires forall o | o in os :: BareOperand(o)
    ensures ReadsOperands(os) == UsesOperands(os)
  {
    if os != [] {
      assert BareOperand(os[0]);
      assert ReadsOperand(os[0]) == UsesOperand(os[0]);
      BareOperandsCollected(os[1..]);
    }
  }

  lemma {:induction false} ConstOperandsReadNothing(os: seq<HirOperand>)
    requires forall o | o in os :: !o.PlaceOp?
    ensures ReadsOperands(os) == {}
  {
    if os != [] {
      ConstOperandsReadNothing(os[1..]);
    }
  }

  lemma {:induction false} BareStmtExposesNothing(s: HirStmt)
    requires BareStmt(s)
    ensures PlainStmt(s) && ExposedStmt(s) == {}
  {
    match s
    case Assign(_, rhs, _) =>
      if rhs.Aggregate? {
        BareOperandsCollected(rhs.fields);
      }
    case Call(_, _, args, _) =>
      ConstOperandsReadNothing(args);
  }

  lemma {:induction false} BareBodyIsCheckable(c: Cfg)
    requires forall b | b in c.blocks :: BareBlock(b)
    ensures Checkable(c)
  {
    forall b | b in c.blocks ensures PlainBlock(b) && forall x :: !ExposedInBlock(b, x) {
      assert BareBlock(b);
      forall s | s in b.stmts ensures PlainStmt(s) && ExposedStmt(s) == {} {
        BareStmtExposesNothing(s);
      }
    }
  }
}
