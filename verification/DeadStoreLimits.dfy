/** Bodies outside the safe fragment on which dead-store elimination changes the result: one family
    for each kind of read that the analysis does not collect. */
module DeadStoreLimits {
  import opened Wrappers
  import opened Diag
  import opened Hir
  import opened HirSemantics
  import opened CfgGraph
  import opened Liveness
  import opened DeadStore

  const HERE: Span := Span(0, 0, 0)

  function Bare(x: LocalId): HirOperand { PlaceOp(Local(x)) }

  function Num(k: i128): HirOperand { ConstOp(IntConst(k)) }

  function Set(x: LocalId, rv: HirRvalue): HirStmt { Assign(Local(x), rv, HERE) }

  function OneBlock(stmts: seq<HirStmt>, result: Option<HirOperand>): Cfg
  {
    Cfg([HirBlock(0, stmts, Return(result), HERE)], [], 0)
  }

  lemma {:induction false} OneBlockEliminated(stmts: seq<HirStmt>, result: Option<HirOperand>)
    ensures EliminateCfg(OneBlock(stmts, result)) ==
            OneBlock(Eliminate(stmts, UsesTerminator(Return(result))), result)
  {
    var c := OneBlock(stmts, result);
    assert LiveOut(c, 0) == {} by {
      forall s ensures !Edge(c, 0, s) {
        assert FindBlock(c.blocks, 0) == Some(c.blocks[0]);
      }
    }
    assert LiveAtEnd(c, c.blocks[0]) == UsesTerminator(Return(result));
    assert EliminateBlocks(c, c.blocks) == [EliminateBlock(c, c.blocks[0])];
  }

  /** The pass changes what the body does when started in the given store. */
  ghost predicate Differ(c: Cfg, env: Env, store: Store)
  {
    Run(env, c, c.entry, Start(store), 1).Returned? &&
    Run(env, EliminateCfg(c), c.entry, Start(store), 1) != Run(env, c, c.entry, Start(store), 1)
  }

  lemma {:induction false} OneBlockRuns(
      env: Env, stmts: seq<HirStmt>, result: Option<HirOperand>, store: Store, q: State, v: Option<Value>)
    requires ExecStmts(env, stmts, Start(store)) == Val(q)
    requires ExecTerminator(Return(result), q.store) == Val(Done(v))
    ensures Run(env, OneBlock(stmts, result), 0, Start(store), 1) == Returned(v, q.trace)
  {
    hide ExecStmts, ExecTerminator;
    RunStep(env, OneBlock(stmts, result), 0, Start(store), 1);
  }

  lemma {:induction false} ShowDifference(
      env: Env, stmts: seq<HirStmt>, kept: seq<HirStmt>, result: Option<HirOperand>, store: Store,
      q: State, v: Option<Value>, q': State, v': Option<Value>)
    requires Eliminate(stmts, UsesTerminator(Return(result))) == kept
    requires ExecStmts(env, stmts, Start(store)) == Val(q)
    requires ExecTerminator(Return(result), q.store) == Val(Done(v))
    requires ExecStmts(env, kept, Start(store)) == Val(q')
    requires ExecTerminator(Return(result), q'.store) == Val(Done(v'))
    requires v != v' || q.trace != q'.trace
    ensures Differ(OneBlock(stmts, result), env, store)
  {
    hide Run, ExecStmts, ExecTerminator, Eliminate;
    OneBlockEliminated(stmts, result);
    OneBlockRuns(env, stmts, result, store, q, v);
    OneBlockRuns(env, kept, result, store, q', v');
  }

  lemma {:induction false} First(env: Env, s: HirStmt, rest: seq<HirStmt>, st: State)
    ensures var next := ExecStmt(env, s, st);
            ExecStmts(env, [s] + rest, st) == if next.Val? then ExecStmts(env, rest, next.v) else next
  {
    hide ExecStmt;
    assert ([s] + rest)[1..] == rest;
  }

  lemma {:induction false} Last(env: Env, s: HirStmt, st: State)
    ensures ExecStmts(env, [s], st) == ExecStmt(env, s, st)
  {
    hide ExecStmt;
    assert [s] == [s] + [];
    First(env, s, [], st);
  }

  lemma {:induction false} FirstRemoved(x: LocalId, rv: HirRvalue, s: HirStmt, after: set<LocalId>)
    requires x !in after && !s.Assign?
    ensures Eliminate([Set(x, rv), s], after) == [s]
  {
    assert [Set(x, rv), s][1..] == [s];
    assert [s][1..] == [];
    assert LiveBefore([s], after) == after;
    assert Eliminate([s], after) == [s];
  }

  lemma {:induction false} SetNum(env: Env, x: LocalId, k: i128, st: State)
    ensures ExecStmt(env, Set(x, Use(Num(k))), st) == Val(State(st.store[x := IntV(k)], st.trace, st.taken))
  {
    assert st.taken + {} == st.taken;
  }

  lemma {:induction false} ReadBare(x: LocalId, st: Store)
    requires x in st
    ensures EvalPlace(Local(x), st) == Val(st[x]) && EvalOperand(Bare(x), st) == Val(st[x])
  {
    assert Resolve(Local(x), st) == Val(Addr(x, []));
    assert LoadAddr(st, Addr(x, [])) == Val(st[x]);
  }

  lemma {:induction false} CallBare(env: Env, x: LocalId, f: FuncId, st: State)
    requires x in st.store
    ensures ExecStmt(env, Call(None, FuncRef(f), [Bare(x)], HERE), st) ==
            var event := CallEvent(FuncV(f), [st.store[x]], VisibleMemory(st));
            Val(State(WrittenBy(st, env.write(st.trace + [event])), st.trace + [event], st.taken))
  {
    ReadBare(x, st.store);
    assert [Bare(x)][1..] == [];
    assert EvalOperands([], st.store) == Val([]);
    assert [st.store[x]] + [] == [st.store[x]];
  }

  /** A call argument is not a use: the store that feeds `f(x)` goes, and the call sees what `x` held
      before. */
  lemma {:induction false} CallArgumentLost(env: Env, x: LocalId, f: FuncId, k: i128, before: i128)
    requires k != before
    ensures Differ(OneBlock([Set(x, Use(Num(k))), Call(None, FuncRef(f), [Bare(x)], HERE)], None),
                   env, map[x := IntV(before)])
  {
    hide Run, ExecStmt, ExecStmts, Eliminate, EliminateCfg;
    var a, s := Set(x, Use(Num(k))), Call(None, FuncRef(f), [Bare(x)], HERE);
    var store: Store := map[x := IntV(before)];
    var mid := Start(store[x := IntV(k)]);
    FirstRemoved(x, Use(Num(k)), s, {});
    SetNum(env, x, k, Start(store));
    First(env, a, [s], Start(store));
    Last(env, s, mid);
    Last(env, s, Start(store));
    CallBare(env, x, f, mid);
    CallBare(env, x, f, Start(store));
    assert [a] + [s] == [a, s];
    var e, e' := CallEvent(FuncV(f), [IntV(k)], map[]), CallEvent(FuncV(f), [IntV(before)], map[]);
    NothingTaken(mid, env.write([] + [e]));
    NothingTaken(Start(store), env.write([] + [e']));
    assert e.args[0] != e'.args[0] && ([] + [e])[0] != ([] + [e'])[0];
    ShowDifference(env, [a, s], [s], None, store,
                   State(mid.store, [] + [e], {}), None, State(store, [] + [e'], {}), None);
  }

  /** A drop is not a use: the value that is dropped is the one from before the removed store. */
  lemma {:induction false} DroppedValueLost(env: Env, x: LocalId, k: i128, before: i128)
    requires k != before
    ensures Differ(OneBlock([Set(x, Use(Num(k))), Drop(Local(x), HERE)], None), env, map[x := IntV(before)])
  {
    hide Run, ExecStmts, Eliminate, EliminateCfg;
    var a, s := Set(x, Use(Num(k))), Drop(Local(x), HERE);
    var store: Store := map[x := IntV(before)];
    var mid := Start(store[x := IntV(k)]);
    FirstRemoved(x, Use(Num(k)), s, {});
    SetNum(env, x, k, Start(store));
    First(env, a, [s], Start(store));
    Last(env, s, mid);
    Last(env, s, Start(store));
    assert [a] + [s] == [a, s];
    ReadBare(x, store);
    ReadBare(x, mid.store);
    assert ([] + [DropEvent(IntV(k))])[0] != ([] + [DropEvent(IntV(before))])[0];
    ShowDifference(env, [a, s], [s], None, store,
                   State(mid.store, [] + [DropEvent(IntV(k))], {}), None,
                   State(store, [] + [DropEvent(IntV(before))], {}), None);
  }

  lemma {:induction false} SetRecord(env: Env, x: LocalId, kind: AggregateKind, k: i128, st: State)
    ensures ExecStmt(env, Set(x, Aggregate(kind, [Num(k)])), st) ==
            Val(State(st.store[x := AggV(VariantTag(kind), [IntV(k)])], st.trace, st.taken))
  {
    assert st.taken + {} == st.taken;
    assert [Num(k)][1..] == [];
    assert EvalOperands([], st.store) == Val([]);
    assert EvalOperand(Num(k), st.store) == Val(IntV(k));
    assert [IntV(k)] + [] == [IntV(k)];
    assert EvalOperands([Num(k)], st.store) == Val([IntV(k)]);
    assert EvalRvalue(env, Aggregate(kind, [Num(k)]), st.store) == Val(AggV(VariantTag(kind), [IntV(k)]));
  }

  lemma {:induction false} ReadField(x: LocalId, tag: nat, k: i128, st: Store)
    requires x in st && st[x] == AggV(tag, [IntV(k)])
    ensures ExecTerminator(Return(Some(PlaceOp(Field(Local(x), 0)))), st) == Val(Done(Some(IntV(k))))
  {
    assert [] + [0] == [0] && [0][1..] == [];
    assert Project(IntV(k), []) == Val(IntV(k));
    assert Project(st[x], [0]) == Val(IntV(k));
    assert Resolve(Local(x), st) == Val(Addr(x, []));
    assert Resolve(Field(Local(x), 0), st) == Val(Addr(x, [0]));
    assert EvalPlace(Field(Local(x), 0), st) == Val(IntV(k));
  }

  /** A field of a local is not a use of the local: returning `x.0` loses the store to `x`. */
  lemma {:induction false} FieldReadLost(env: Env, x: LocalId, kind: AggregateKind, k: i128, before: i128)
    requires k != before
    ensures Differ(OneBlock([Set(x, Aggregate(kind, [Num(k)]))], Some(PlaceOp(Field(Local(x), 0)))),
                   env, map[x := AggV(0, [IntV(before)])])
  {
    hide Run, ExecStmt, EliminateCfg, ExecTerminator;
    var a, out := Set(x, Aggregate(kind, [Num(k)])), Some(PlaceOp(Field(Local(x), 0)));
    var store: Store := map[x := AggV(0, [IntV(before)])];
    var mid := Start(store[x := AggV(VariantTag(kind), [IntV(k)])]);
    assert [a][1..] == [];
    assert Eliminate([a], {}) == [];
    SetRecord(env, x, kind, k, Start(store));
    Last(env, a, Start(store));
    ReadField(x, VariantTag(kind), k, mid.store);
    ReadField(x, 0, before, store);
    ShowDifference(env, [a], [], out, store, mid, Some(IntV(k)), Start(store), Some(IntV(before)));
  }

  /** Three statements, and the first and the last without the one between. */
  lemma {:induction false} WithAndWithout(
      env: Env, a: HirStmt, b: HirStmt, d: HirStmt, st: State, m1: State, m2: State, q: State, q': State)
    requires ExecStmt(env, a, st) == Val(m1) && ExecStmt(env, b, m1) == Val(m2)
    requires ExecStmt(env, d, m2) == Val(q) && ExecStmt(env, d, m1) == Val(q')
    ensures ExecStmts(env, [a, b, d], st) == Val(q) && ExecStmts(env, [a, d], st) == Val(q')
  {
    hide ExecStmt, ExecStmts;
    First(env, a, [b, d], st);
    First(env, b, [d], m1);
    Last(env, d, m2);
    First(env, a, [d], st);
    Last(env, d, m1);
    assert [a] + [b, d] == [a, b, d] && [b] + [d] == [b, d] && [a] + [d] == [a, d];
  }

  lemma {:induction false} AliasedEliminated(a: HirStmt, b: HirStmt, d: HirStmt, x: LocalId, p: LocalId, y: LocalId)
    requires x != p && p != y && x != y
    requires a == Set(p, Ref(Local(x), false)) && d == Set(y, Load(Bare(p)))
    requires b.Assign? && b.lhs == Local(x) && UsesRvalue(b.rhs) == {}
    ensures Eliminate([a, b, d], {y}) == [a, d]
  {
    assert [a, b, d][1..] == [b, d] && [b, d][1..] == [d] && [d][1..] == [];
    assert LiveBefore([d], {y}) == {p};
    assert LiveBefore([b, d], {y}) == {p};
    assert Eliminate([d], {y}) == [d];
    assert Eliminate([b, d], {y}) == [d];
  }

  lemma {:induction false} LoadThrough(env: Env, p: LocalId, x: LocalId, y: LocalId, st: State)
    requires p in st.store && st.store[p] == PtrV(Addr(x, [])) && x in st.store
    ensures ExecStmt(env, Set(y, Load(Bare(p))), st) == Val(State(st.store[y := st.store[x]], st.trace, st.taken))
  {
    assert st.taken + {} == st.taken;
    ReadBare(p, st.store);
  }

  /** A store that is read back through a pointer is removed: `x` has its address taken, is assigned,
      and is loaded through the pointer. */
  lemma {:induction false} AliasedStoreLost(env: Env, x: LocalId, p: LocalId, y: LocalId, k: i128, before: i128)
    requires k != before && x != p && p != y && x != y
    ensures Differ(OneBlock([Set(p, Ref(Local(x), false)), Set(x, Use(Num(k))), Set(y, Load(Bare(p)))], Some(Bare(y))),
                   env, map[x := IntV(before)])
  {
    hide Run, ExecStmts, Eliminate, EliminateCfg;
    var a, b, d := Set(p, Ref(Local(x), false)), Set(x, Use(Num(k))), Set(y, Load(Bare(p)));
    var store: Store := map[x := IntV(before)];
    var m1 := State(store[p := PtrV(Addr(x, []))], [], {x});
    var m2 := State(m1.store[x := IntV(k)], [], {x});
    AliasedEliminated(a, b, d, x, p, y);
    assert {} + {x} == {x};
    assert ExecStmt(env, a, Start(store)) == Val(m1);
    SetNum(env, x, k, m1);
    ReadBare(y, m2.store[y := IntV(k)]);
    ReadBare(y, m1.store[y := IntV(before)]);
    LoadThrough(env, p, x, y, m1);
    LoadThrough(env, p, x, y, m2);
    hide ExecStmt;
    WithAndWithout(env, a, b, d, Start(store), m1, m2,
                   State(m2.store[y := IntV(k)], [], {x}), State(m1.store[y := IntV(before)], [], {x}));
    ShowDifference(env, [a, b, d], [a, d], Some(Bare(y)), store,
                   State(m2.store[y := IntV(k)], [], {x}), Some(IntV(k)),
                   State(m1.store[y := IntV(before)], [], {x}), Some(IntV(before)));
  }

  /** A call that is handed the address of `x` sees `x`, but the analysis does not know: a store to `x`
      between taking the address and the call is removed, and the callee sees what `x` held before. */
  lemma {:induction false} SharedStoreLost(
      env: Env, x: LocalId, s: LocalId, f: FuncId, len: nat, elem: HirType, k: i128, before: i128)
    requires k != before && x != s
    ensures Differ(OneBlock([Share(s, x, elem, len), Set(x, Use(Num(k))), Call(None, FuncRef(f), [Bare(s)], HERE)],
                            Some(Bare(s))),
                   env, map[x := IntV(before)])
  {
    hide Run, ExecStmts, Eliminate, EliminateCfg;
    var a, b, d := Share(s, x, elem, len), Set(x, Use(Num(k))), Call(None, FuncRef(f), [Bare(s)], HERE);
    var store: Store := map[x := IntV(before)];
    var view := SliceV(Addr(x, []), len);
    var m1 := State(store[s := view], [], {x});
    var m2 := State(m1.store[x := IntV(k)], [], {x});
    SharedEliminated(a, b, d, x, s, elem, len);
    assert {} + {x} == {x};
    assert ExecStmt(env, a, Start(store)) == Val(m1);
    SetNum(env, x, k, m1);
    hide ExecStmt;
    var q := CallSees(env, s, x, f, m2);
    var q' := CallSees(env, s, x, f, m1);
    assert q.trace[0].memory[x] == IntV(k) && q'.trace[0].memory[x] == IntV(before);
    ReadBare(s, q.store);
    ReadBare(s, q'.store);
    hide EvalOperand;
    WithAndWithout(env, a, b, d, Start(store), m1, m2, q, q');
    ShowDifference(env, [a, b, d], [a, d], Some(Bare(s)), store, q, Some(view), q', Some(view));
  }

  /** A call with `h`, when the address of `x` is known: the callee sees `x`. */
  lemma {:induction false} CallSees(env: Env, h: LocalId, x: LocalId, f: FuncId, st: State) returns (q: State)
    requires h in st.store && x in st.store && st.taken == {x} && st.trace == []
    ensures ExecStmt(env, Call(None, FuncRef(f), [Bare(h)], HERE), st) == Val(q)
    ensures q.trace == [CallEvent(FuncV(f), [st.store[h]], map[x := st.store[x]])]
    ensures x != h ==> h in q.store && q.store[h] == st.store[h]
  {
    CallBare(env, h, f, st);
    assert VisibleMemory(st) == map[x := st.store[x]];
    var e := CallEvent(FuncV(f), [st.store[h]], map[x := st.store[x]]);
    assert [] + [e] == [e];
    q := State(WrittenBy(st, env.write([] + [e])), [e], st.taken);
  }

  /** A slice over the array in local `x`. */
  function Share(s: LocalId, x: LocalId, elem: HirType, len: nat): HirStmt { Set(s, ArrayToSlice(Bare(x), elem, len)) }

  lemma {:induction false} SharedEliminated(
      a: HirStmt, b: HirStmt, d: HirStmt, x: LocalId, s: LocalId, elem: HirType, len: nat)
    requires x != s && a == Share(s, x, elem, len) && d.Call?
    requires b.Assign? && b.lhs == Local(x) && UsesRvalue(b.rhs) == {}
    ensures Eliminate([a, b, d], {s}) == [a, d]
  {
    assert [a, b, d][1..] == [b, d] && [b, d][1..] == [d] && [d][1..] == [];
    assert LiveBefore([d], {s}) == {s};
    assert LiveBefore([b, d], {s}) == {s};
    assert Eliminate([d], {s}) == [d];
    assert Eliminate([b, d], {s}) == [d];
  }

  /** The address may also be kept in a part of a local: `p.0 = ^x`. */
  function Keep0(p: LocalId, x: LocalId): HirStmt { Assign(Field(Local(p), 0), Ref(Local(x), false), HERE) }

  lemma {:induction false} KeepsAddress(env: Env, p: LocalId, x: LocalId, store: Store)
    requires p in store && store[p] == AggV(0, [NilV])
    ensures ExecStmt(env, Keep0(p, x), Start(store)) == Val(State(store[p := AggV(0, [PtrV(Addr(x, []))])], [], {x}))
  {
    var v := PtrV(Addr(x, []));
    assert [] + [0] == [0] && [0][1..] == [] && {} + {x} == {x};
    assert Resolve(Local(p), store) == Val(Addr(p, []));
    assert Resolve(Field(Local(p), 0), store) == Val(Addr(p, [0]));
    assert Resolve(Local(x), store) == Val(Addr(x, []));
    assert Update(NilV, [], v) == Val(v);
    assert [NilV][0 := v] == [v];
    assert Update(store[p], [0], v) == Val(AggV(0, [v]));
    assert StoreAddr(store, Addr(p, [0]), v) == Val(store[p := AggV(0, [v])]);
  }

  /** Then too the callee sees what `x` held before the removed store. */
  lemma {:induction false} PointedStoreLost(env: Env, x: LocalId, p: LocalId, f: FuncId, k: i128, before: i128)
    requires k != before && x != p
    ensures Differ(OneBlock([Keep0(p, x), Set(x, Use(Num(k))), Call(None, FuncRef(f), [Bare(p)], HERE)], None),
                   env, map[x := IntV(before), p := AggV(0, [NilV])])
  {
    hide Run, ExecStmts, Eliminate, EliminateCfg;
    var a, b, d := Keep0(p, x), Set(x, Use(Num(k))), Call(None, FuncRef(f), [Bare(p)], HERE);
    var store: Store := map[x := IntV(before), p := AggV(0, [NilV])];
    var holder := AggV(0, [PtrV(Addr(x, []))]);
    var m1 := State(store[p := holder], [], {x});
    var m2 := State(m1.store[x := IntV(k)], [], {x});
    PointedEliminated(a, b, d, x);
    KeepsAddress(env, p, x, store);
    SetNum(env, x, k, m1);
    hide ExecStmt;
    var q := CallSees(env, p, x, f, m2);
    var q' := CallSees(env, p, x, f, m1);
    assert q.trace[0].memory[x] == IntV(k) && q'.trace[0].memory[x] == IntV(before);
    WithAndWithout(env, a, b, d, Start(store), m1, m2, q, q');
    ShowDifference(env, [a, b, d], [a, d], None, store, q, None, q', None);
  }

  lemma {:induction false} PointedEliminated(a: HirStmt, b: HirStmt, d: HirStmt, x: LocalId)
    requires a.Assign? && !a.lhs.Local? && d.Call?
    requires b.Assign? && b.lhs == Local(x) && UsesRvalue(b.rhs) == {}
    ensures Eliminate([a, b, d], {}) == [a, d]
  {
    assert [a, b, d][1..] == [b, d] && [b, d][1..] == [d] && [d][1..] == [];
    assert LiveBefore([d], {}) == {};
    assert LiveBefore([b, d], {}) == {};
    assert Eliminate([d], {}) == [d];
    assert Eliminate([b, d], {}) == [d];
  }
}
