/** The move check is exact on bodies with deferred expressions once these are written where they run. */
module UndeferredRuns {
  import opened Wrappers
  import opened Diag
  import opened Ast
  import opened Escape
  import opened MoveCheck
  import opened MovePaths
  import opened MoveGrowth
  import opened Deferral
  import opened MoveSoundness
  import opened MoveExactness

  /** Where the body with its deferred expressions moved can end, the body as it is written can end as
      well; when control has left it runs on through what is still deferred, which forgets nothing. */
  ghost predicate Matches(d: World, d': World)
  {
    && (d.bad ==> d'.bad) && (d.stopped ==> d'.stopped) && (!d.stopped ==> d' == d)
  }

  lemma {:induction false} MatchesSelf(d: World)
    ensures Matches(d, d) && Matches(d.(stopped := true), d.(stopped := true))
  {
  }

  lemma {:induction false} StopMatches(d: World, d': World)
    requires Matches(d, d')
    ensures Matches(d.(stopped := true), d'.(stopped := true))
  {
  }

  lemma {:induction false} RunOf(e: Expr, scope: set<string>, c: World, d: World) returns (d': World)
    requires Walked(Placed(true, e)) && Straight(Placed(true, e), scope) && Runs(Placed(true, e), c, d)
    ensures Runs(e, c, d') && Matches(d, d')
    decreases e, 3
  {
    if c.stopped {
      OnlyStays(Placed(true, e), c, d);
      StopsStay(e, c);
      MatchesSelf(c);
      d' := c;
    } else {
      d' := FormRunOf(e, scope, c, d);
    }
  }

  /** What runs after control has left does nothing. */
  lemma {:induction false} RunOnwards(e: Expr, scope: set<string>, m: World, d: World, m': World) returns (d': World)
    requires Walked(Placed(true, e)) && Straight(Placed(true, e), scope) && Runs(Placed(true, e), m, d) &&
             Matches(m, m')
    ensures Runs(e, m', d') && Matches(d, d')
    decreases e, 4
  {
    hide Runs, Walked, Straight, Placed;
    if m.stopped {
      OnlyStays(Placed(true, e), m, d);
      StopsStay(e, m');
      d' := m';
    } else {
      d' := RunOf(e, scope, m, d);
    }
  }

  lemma {:induction false} FormRunOf(e: Expr, scope: set<string>, c: World, d: World) returns (d': World)
    requires Walked(Placed(true, e)) && Straight(Placed(true, e), scope) && Runs(Placed(true, e), c, d) && !c.stopped
    ensures Runs(e, c, d') && Matches(d, d')
    decreases e, 2
  {
    hide *;
    if e.Block? || e.CallExpr? || e.Branch? {
      d' := PartsRunOf(e, scope, c, d);
    } else if e.Binary? || e.IndexExpr? {
      d' := PairRunOf(e, scope, c, d);
    } else if e.Unary? || e.FieldExpr? || e.DerefExpr? || e.Propagate? {
      d' := SingleRunOf(e, scope, c, d);
    } else {
      NothingMoved(e, scope);
      MatchesSelf(d);
      d' := d;
    }
  }

  lemma {:induction false} NothingMoved(e: Expr, scope: set<string>)
    requires Straight(Placed(true, e), scope) && !e.Block? && !e.CallExpr? && !e.Branch? && !e.Binary? && !e.IndexExpr?
    requires !e.Unary? && !e.FieldExpr? && !e.DerefExpr? && !e.Propagate?
    ensures Placed(true, e) == e
  {
  }

  lemma {:induction false} PartsRunOf(e: Expr, scope: set<string>, c: World, d: World) returns (d': World)
    requires e.Block? || e.CallExpr? || e.Branch?
    requires Walked(Placed(true, e)) && Straight(Placed(true, e), scope) && Runs(Placed(true, e), c, d) && !c.stopped
    ensures Runs(e, c, d') && Matches(d, d')
    decreases e, 1
  {
    hide RunsStmts, RunsArgs, RunsSome, RunsArm, RunsInits, RunsAll, UseName, Back, Matches;
    hide WalkedStmts, WalkedAll, WalkedSome, WalkedArms, StraightStmts, StraightAll, StraightSome, StraightArms;
    hide PlacedStmts, PlacedAll, PlacedSome, PlacedArms;
    match e {
      case Block(stmts) =>
        var m :| RunsStmts(PlacedStmts(true, stmts), c, m) && d == Back(m, c);
        var m' := StmtsRunOf(stmts, scope, c, m);
        BackMatches(m, m', c);
        d' := Back(m', c);
      case CallExpr(callee, args) =>
        var m :| Runs(Placed(true, callee), c, m) && RunsArgs(PlacedAll(true, args), m, d);
        var m' := RunOf(callee, scope, c, m);
        d' := ArgsRunOf(args, scope, m, d, m');
      case Branch(x, arms, site) => d' := BranchRunOf(e, x, arms, scope, c, d);
    }
  }

  lemma {:induction false} PairRunOf(e: Expr, scope: set<string>, c: World, d: World) returns (d': World)
    requires e.Binary? || e.IndexExpr?
    requires Walked(Placed(true, e)) && Straight(Placed(true, e), scope) && Runs(Placed(true, e), c, d) && !c.stopped
    ensures Runs(e, c, d') && Matches(d, d')
    decreases e, 1
  {
    hide RunsStmts, RunsArgs, RunsSome, RunsArm, RunsInits, RunsAll, UseName, Back, Matches;
    hide WalkedStmts, WalkedAll, WalkedSome, WalkedArms, StraightStmts, StraightAll, StraightSome, StraightArms;
    hide PlacedStmts, PlacedAll, PlacedSome, PlacedArms;
    match e {
      case Binary(_, x, y) =>
        var m :| Runs(Placed(true, x), c, m) && Runs(Placed(true, y), m, d);
        var m' := RunOf(x, scope, c, m);
        d' := RunOnwards(y, scope, m, d, m');
      case IndexExpr(x, y) =>
        var m :| Runs(Placed(true, x), c, m) && Runs(Placed(true, y), m, d);
        var m' := RunOf(x, scope, c, m);
        d' := RunOnwards(y, scope, m, d, m');
    }
  }

  lemma {:induction false} SingleRunOf(e: Expr, scope: set<string>, c: World, d: World) returns (d': World)
    requires e.Unary? || e.FieldExpr? || e.DerefExpr? || e.Propagate?
    requires Walked(Placed(true, e)) && Straight(Placed(true, e), scope) && Runs(Placed(true, e), c, d) && !c.stopped
    ensures Runs(e, c, d') && Matches(d, d')
    decreases e, 1
  {
    hide RunsStmts, RunsArgs, RunsSome, RunsArm, RunsInits, RunsAll, UseName, Back, Matches;
    hide WalkedStmts, WalkedAll, WalkedSome, WalkedArms, StraightStmts, StraightAll, StraightSome, StraightArms;
    hide PlacedStmts, PlacedAll, PlacedSome, PlacedArms;
    match e {
      case Unary(_, x) => d' := RunOf(x, scope, c, d);
      case FieldExpr(x, _) => d' := RunOf(x, scope, c, d);
      case DerefExpr(x) => d' := RunOf(x, scope, c, d);
      case Propagate(x) =>
        var m :| Runs(Placed(true, x), c, m) && (d == m || d == m.(stopped := true));
        var m' := RunOf(x, scope, c, m);
        StopMatches(m, m');
        d' := if d == m then m' else m'.(stopped := true);
    }
  }

  lemma {:induction false} BackMatches(m: World, m': World, c: World)
    requires Matches(m, m')
    ensures Matches(Back(m, c), Back(m', c))
  {
  }

  lemma {:induction false} SomeRunOf(x: Option<Expr>, scope: set<string>, c: World, d: World) returns (d': World)
    requires WalkedSome(PlacedSome(true, x)) && StraightSome(PlacedSome(true, x), scope) &&
             RunsSome(PlacedSome(true, x), c, d)
    ensures RunsSome(x, c, d') && Matches(d, d')
    decreases x
  {
    hide Runs, Walked, Straight, Placed, Matches;
    MatchesSelf(d);
    d' := d;
    if x.Some? {
      d' := RunOf(x.value, scope, c, d);
    }
  }

  lemma {:induction false} ArgsRunOf(
      args: seq<Expr>, scope: set<string>, c: World, d: World, c': World) returns (d': World)
    requires WalkedAll(PlacedAll(true, args)) && StraightAll(PlacedAll(true, args), scope)
    requires RunsArgs(PlacedAll(true, args), c, d) && Matches(c, c')
    ensures RunsArgs(args, c', d') && Matches(d, d')
    decreases args
  {
    hide Runs, Walked, Straight, Placed, Matches, GiveAway;
    d' := c';
    if args != [] {
      var x := Placed(true, args[0]);
      assert PlacedAll(true, args)[1..] == PlacedAll(true, args[1..]);
      var m :| RunsArg(x, c, m) && RunsArgs(PlacedAll(true, args[1..]), m, d);
      var p :| Runs(x, c, p) && m == GiveAway(x, p);
      var p' := RunOnwards(args[0], scope, c, p, c');
      SameGift(true, args[0], p);
      GiftMatches(args[0], p, p');
      assert RunsArg(args[0], c', GiveAway(args[0], p'));
      d' := ArgsRunOf(args[1..], scope, m, d, GiveAway(args[0], p'));
    }
  }

  lemma {:induction false} GiftMatches(e: Expr, c: World, c': World)
    requires Matches(c, c')
    ensures Matches(GiveAway(e, c), GiveAway(e, c'))
  {
    hide MarkMoved;
  }

  lemma {:induction false} BranchRunOf(
      e: Expr, x: Option<Expr>, arms: seq<Arm>, scope: set<string>, c: World, d: World) returns (d': World)
    requires e.Branch? && e.scrutinee == x && e.arms == arms && !c.stopped
    requires WalkedSome(PlacedSome(true, x)) && StraightSome(PlacedSome(true, x), scope)
    requires WalkedArms(PlacedArms(true, arms)) && StraightArms(PlacedArms(true, arms), scope)
    requires exists m :: RunsSome(PlacedSome(true, x), c, m) &&
               (d == m || exists i | 0 <= i < |arms| :: RunsArm(PlacedArms(true, arms)[i], m, d))
    ensures Runs(e, c, d') && Matches(d, d')
    decreases e, 0
  {
    hide RunsSome, RunsArm, WalkedSome, StraightSome, WalkedArms, StraightArms, PlacedSome, PlacedArms, PlacedArm;
    hide Matches;
    hide WalkedArm, StraightArm;
    var placed := PlacedArms(true, arms);
    var m :| RunsSome(PlacedSome(true, x), c, m) && (d == m || exists i | 0 <= i < |arms| :: RunsArm(placed[i], m, d));
    var m' := SomeRunOf(x, scope, c, m);
    d' := m';
    if d != m {
      var i :| 0 <= i < |arms| && RunsArm(placed[i], m, d);
      WalkedArmAt(placed, i);
      StraightArmAt(placed, scope, i);
      PlacedArmAt(true, arms, i);
      d' := ArmRunOf(arms[i], scope, m, d, m');
    }
  }

  lemma {:induction false} StoppedArm(arm: Arm, c: World)
    requires c.stopped
    ensures RunsArm(arm, c, c)
  {
    StoppedBinds(c, ArmNames(arm.pattern));
    StopsStay(arm.body, c);
    assert c.env[..|c.env|] == c.env;
    assert Back(c, c) == c;
    hide Runs;
  }

  lemma {:induction false} ArmRunOf(arm: Arm, scope: set<string>, c: World, d: World, c': World) returns (d': World)
    requires WalkedArm(PlacedArm(true, arm)) && StraightArm(PlacedArm(true, arm), scope)
    requires RunsArm(PlacedArm(true, arm), c, d) && Matches(c, c')
    ensures RunsArm(arm, c', d') && Matches(d, d')
    decreases arm
  {
    hide Runs, Walked, Straight, Placed, BindAll, Back;
    if c.stopped {
      ArmStays(PlacedArm(true, arm), c, d);
      StoppedArm(arm, c');
      d' := c';
    } else {
      var names := ArmNames(arm.pattern);
      var m :| Runs(Placed(true, arm.body), BindAll(c, names), m) && d == Back(m, c);
      var m' := RunOf(arm.body, scope + Listed(names), BindAll(c, names), m);
      BackMatches(m, m', c);
      d' := Back(m', c);
    }
  }

  // ----- Statements -----

  lemma {:induction false} StmtsRunOf(stmts: seq<Stmt>, scope: set<string>, c: World, d: World) returns (d': World)
    requires WalkedStmts(PlacedStmts(true, stmts)) && StraightStmts(PlacedStmts(true, stmts), scope)
    requires RunsStmts(PlacedStmts(true, stmts), c, d)
    ensures RunsStmts(stmts, c, d') && Matches(d, d')
    decreases stmts, 1
  {
    if c.stopped || stmts == [] {
      MatchesSelf(d);
      d' := c;
    } else if stmts[0].Defer? {
      d' := DeferredRunOf(stmts, scope, c, d);
    } else {
      hide RunsStmt, WalkedStmt, StraightStmt, Matches, PlacedStmt, ScopeAfter, PlacedDeferred, Placed;
      var s := PlacedStmt(true, stmts[0]);
      assert PlacedStmts(true, stmts)[1..] == PlacedStmts(true, stmts[1..]);
      PlacedKind(stmts[0], scope);
      var m :| RunsStmt(s, c, m) && RunsStmts(PlacedStmts(true, stmts[1..]), m, d);
      var m' := StmtRunOf(stmts[0], scope, c, m);
      d' := StmtsRunOnwards(stmts, scope, m, d, m');
    }
  }

  lemma {:induction false} PlacedKind(s: Stmt, scope: set<string>)
    requires !s.Defer?
    ensures !PlacedStmt(true, s).Defer? && ScopeAfter(PlacedStmt(true, s), scope) == ScopeAfter(s, scope)
  {
    hide Placed;
  }

  lemma {:induction false} StmtsRunOnwards(stmts: seq<Stmt>, scope: set<string>, m: World, d: World, m': World)
    returns (d': World)
    requires stmts != [] && Matches(m, m')
    requires WalkedStmts(PlacedStmts(true, stmts[1..]))
    requires StraightStmts(PlacedStmts(true, stmts[1..]), ScopeAfter(stmts[0], scope))
    requires RunsStmts(PlacedStmts(true, stmts[1..]), m, d)
    ensures RunsStmts(stmts[1..], m', d') && Matches(d, d')
    decreases stmts, 0
  {
    hide WalkedStmts, StraightStmts, PlacedStmts, RunsStmt, RunsDeferred, ScopeAfter;
    if m.stopped {
      d' := m';
    } else {
      hide RunsStmts, Matches;
      d' := StmtsRunOf(stmts[1..], ScopeAfter(stmts[0], scope), m, d);
    }
  }

  /** The rest of the block first, then what is deferred; when control has left during the rest, what is
      deferred runs all the same. */
  lemma {:induction false} DeferredRunOf(stmts: seq<Stmt>, scope: set<string>, c: World, d: World) returns (d': World)
    requires stmts != [] && stmts[0].Defer? && !c.stopped
    requires WalkedStmts(PlacedStmts(true, stmts)) && StraightStmts(PlacedStmts(true, stmts), scope)
    requires RunsStmts(PlacedStmts(true, stmts), c, d)
    ensures RunsStmts(stmts, c, d') && Matches(d, d')
    decreases stmts, 0
  {
    var rest, e := PlacedStmts(true, stmts[1..]), Placed(true, stmts[0].deferred);
    var m := TwoParts(rest, e, scope, c, d);
    assert PlacedStmts(true, stmts) == [ExprStmt(Block(rest)), ExprStmt(e)];
    hide Runs, Walked, Straight, Placed, RunsStmts, WalkedStmts, StraightStmts, PlacedStmts, Back, Matches;
    var m' := StmtsRunOf(stmts[1..], scope, c, m);
    BackMatches(m, m', c);
    d' := DeferredEnds(stmts[0], scope, Back(m, c), d, Back(m', c));
    DeferredLast(stmts, c, m', d');
  }

  lemma {:induction false} DeferredLast(stmts: seq<Stmt>, c: World, m: World, d: World)
    requires stmts != [] && stmts[0].Defer? && !c.stopped
    requires RunsStmts(stmts[1..], c, m) && RunsDeferred(stmts[0], Back(m, c), d)
    ensures RunsStmts(stmts, c, d)
  {
    hide RunsDeferred, RunsStmt, Back;
  }

  lemma {:induction false} TwoParts(rest: seq<Stmt>, e: Expr, scope: set<string>, c: World, d: World) returns (m: World)
    requires var both := [ExprStmt(Block(rest)), ExprStmt(e)];
             WalkedStmts(both) && StraightStmts(both, scope) && RunsStmts(both, c, d) && !c.stopped
    ensures WalkedStmts(rest) && StraightStmts(rest, scope) && Walked(e) && Straight(e, scope)
    ensures RunsStmts(rest, c, m) && Runs(e, Back(m, c), d)
  {
    var both := [ExprStmt(Block(rest)), ExprStmt(e)];
    assert both[1..] == [ExprStmt(e)] && both[1..][1..] == [];
    assert WalkedStmt(both[0]) && StraightStmt(both[0], scope);
    assert Walked(Block(rest)) && Straight(Block(rest), scope);
    OnlyStmt(e, scope);
    var q :| RunsStmt(both[0], c, q) && RunsStmts(both[1..], q, d);
    assert Runs(Block(rest), c, q);
    m :| RunsStmts(rest, c, m) && q == Back(m, c);
    hide Back;
    LastStmt(e, q, d);
  }

  lemma {:induction false} OnlyStmt(e: Expr, scope: set<string>)
    requires WalkedStmts([ExprStmt(e)]) && StraightStmts([ExprStmt(e)], scope)
    ensures Walked(e) && Straight(e, scope)
  {
    hide Walked, Straight;
  }

  lemma {:induction false} LastStmt(e: Expr, c: World, d: World)
    requires RunsStmts([ExprStmt(e)], c, d)
    ensures Runs(e, c, d)
  {
    if c.stopped {
      StopsStay(e, c);
    } else {
      assert [ExprStmt(e)][1..] == [];
      var m :| RunsStmt(ExprStmt(e), c, m) && RunsStmts([], m, d);
      hide Runs;
    }
  }

  lemma {:induction false} DeferredEnds(s: Stmt, scope: set<string>, c: World, d: World, c': World) returns (d': World)
    requires s.Defer? && Walked(Placed(true, s.deferred)) && Straight(Placed(true, s.deferred), scope)
    requires Runs(Placed(true, s.deferred), c, d) && Matches(c, c')
    ensures RunsDeferred(s, c', d') && Matches(d, d')
    decreases s
  {
    hide Runs, Walked, Straight, Placed, Onward, Kept, Above;
    var e, start := s.deferred, c'.(stopped := false);
    if c.stopped {
      OnlyStays(Placed(true, e), c, d);
      var p := Finish(Placed(true, e), scope, start);
      RunsKeep(Placed(true, e), start, p);
      BadStays(start, p);
      var p' := RunOf(e, scope, start, p);
      d' := p'.(stopped := true);
    } else {
      assert start == c;
      var p' := RunOf(e, scope, c, d);
      d' := p';
    }
  }

  lemma {:induction false} BadStays(c: World, d: World)
    requires Across(c, d)
    ensures c.bad ==> d.bad
  {
  }

  lemma {:induction false} StmtRunOf(s: Stmt, scope: set<string>, c: World, d: World) returns (d': World)
    requires !s.Defer? && !PlacedStmt(true, s).Defer?
    requires WalkedStmt(PlacedStmt(true, s)) && StraightStmt(PlacedStmt(true, s), scope) &&
             RunsStmt(PlacedStmt(true, s), c, d)
    ensures RunsStmt(s, c, d') && Matches(d, d')
    decreases s
  {
    hide Runs, Walked, Straight, Placed, Matches, GiveAway, Bind;
    match s {
      case Let(name, _, ty, init) =>
        var x := Placed(true, init);
        var m :| Runs(x, c, m) && d == Bind(GiveAway(x, m), name, Held(ty));
        var m' := RunOf(init, scope, c, m);
        SameGift(true, init, m);
        GiftMatches(init, m, m');
        BindMatches(GiveAway(init, m), GiveAway(init, m'), name, Held(ty));
        d' := Bind(GiveAway(init, m'), name, Held(ty));
      case Assign(target, value, _) =>
        var m :| Runs(Placed(true, value), c, m) && Runs(Placed(true, target), m, d);
        var m' := RunOf(value, scope, c, m);
        d' := RunOnwards(target, scope, m, d, m');
      case ExprStmt(e) => d' := RunOf(e, scope, c, d);
    }
  }

  lemma {:induction false} BindMatches(c: World, c': World, name: string, kind: BindingKind)
    requires Matches(c, c')
    ensures Matches(Bind(c, name, kind), Bind(c', name, kind))
  {
  }

  // ----- Whole functions -----

  /** With deferred expressions: a use after a move is reported for the body with these written where they
      run exactly when some run of the body makes one. */
  lemma {:induction false} UndeferredCheckIsExact(f: Func, log: seq<Diagnostic>)
    requires Walked(f.body) && StraightFunc(Undeferred(f)) && !Reported(log)
    ensures Reported(CheckFunc(Undeferred(f), log).log) <==> MovesWrongly(f)
  {
    hide CheckFunc, Runs, Walked, Straight, Reported, Placed, DistinctParams;
    MoveCheckIsExact(Undeferred(f), log);
    if d :| RunsFunc(Undeferred(f), d) && d.bad {
      var d' := RunOf(f.body, ParamNames(f.params), BindParams(f.params), d);
      assert RunsFunc(f, d');
    }
    if d :| RunsFunc(f, d) && d.bad {
      if !Reported(CheckFunc(Undeferred(f), log).log) {
        UndeferredCheckIsSound(f, log, d);
      }
    }
  }
}
