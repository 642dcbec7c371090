/** The checker forgets nothing: snapshot, restore and join one binding at a time, and what every check keeps. */
module MoveGrowth {
  import opened Wrappers
  import opened Diag
  import opened Ast
  import opened Escape
  import opened MoveCheck
  import opened MovePaths

  /** A use after a move has been reported. */
  ghost predicate Reported(log: seq<Diagnostic>)
  {
    exists i :: 0 <= i < |log| && log[i].code == 5001 && log[i].severity == Error
  }

  // ----- Snapshot, restore and join, one binding at a time -----

  /** The state the snapshot ends with for a name. */
  function LastState(snap: seq<OwnState>, name: string): Option<Option<Span>>
  {
    if snap == [] then None
    else if snap[|snap|-1].name == name then Some(snap[|snap|-1].moved)
    else LastState(snap[..|snap|-1], name)
  }

  ghost predicate MovedIn(snap: seq<OwnState>, name: string)
  {
    exists i :: 0 <= i < |snap| && snap[i].name == name && snap[i].moved.Some?
  }

  lemma {:induction false} RestoreAt(env: Bindings, snap: seq<OwnState>, k: nat)
    requires k < |env|
    ensures var r := Restore(env, snap);
            && SameNames(env, r)
            && r[k].moved == if Visible(env, k) && LastState(snap, env[k].name).Some?
                             then LastState(snap, env[k].name).value else env[k].moved
  {
    hide SetState, Visible;
    if snap != [] {
      var before := Restore(env, snap[..|snap|-1]);
      RestoreAt(env, snap[..|snap|-1], k);
      SetStateAt(before, snap[|snap|-1].name, snap[|snap|-1].moved, k);
      VisibleSame(env, before, k);
    }
  }

  lemma {:induction false} RestoreNames(env: Bindings, snap: seq<OwnState>)
    ensures SameNames(env, Restore(env, snap))
  {
    hide SetState;
    if snap != [] {
      var before := Restore(env, snap[..|snap|-1]);
      RestoreNames(env, snap[..|snap|-1]);
      SetStateNames(before, snap[|snap|-1].name, snap[|snap|-1].moved);
    }
  }

  lemma {:induction false} SetStateNames(env: Bindings, name: string, moved: Option<Span>)
    ensures SameNames(env, SetState(env, name, moved))
  {
    hide Find;
  }

  lemma {:induction false} LastOfAppend(snap: seq<OwnState>, s: OwnState, name: string)
    ensures LastState(snap + [s], name) == if s.name == name then Some(s.moved) else LastState(snap, name)
  {
    assert (snap + [s])[..|snap|] == snap;
  }

  lemma {:induction false} SnapshotState(env: Bindings, k: nat)
    requires k < |env| && env[k].kind == Own && Visible(env, k)
    ensures LastState(Snapshot(env), env[k].name) == Some(env[k].moved)
  {
    var front, last := env[..|env|-1], env[|env|-1];
    if last.kind == Own {
      LastOfAppend(Snapshot(front), OwnState(last.name, last.moved), env[k].name);
    } else {
      assert Snapshot(front) + [] == Snapshot(front);
    }
    if k < |front| {
      forall l | k < l < |front| ensures front[l].name != front[k].name {
        assert env[l].name != env[k].name;
      }
      assert last.name != env[k].name;
      SnapshotState(front, k);
    }
  }

  /** After the restore a visible own binding is as it was, and any other as it is. */
  lemma {:induction false} RestoredAt(base: Bindings, env: Bindings, k: nat)
    requires SameNames(base, env) && k < |base| && base[k].kind == Own
    ensures var r := Restore(env, Snapshot(base));
            && SameNames(base, r)
            && r[k].moved == if Visible(base, k) then base[k].moved else env[k].moved
  {
    hide Restore, Snapshot;
    RestoreAt(env, Snapshot(base), k);
    VisibleSame(base, env, k);
    if Visible(base, k) {
      SnapshotState(base, k);
    }
  }

  lemma {:induction false} RestoredAbove(base: Bindings, env: Bindings)
    requires Above(base, env) && |base| == |env|
    ensures Above(base, Restore(env, Snapshot(base))) && |Restore(env, Snapshot(base))| == |base|
  {
    hide Restore, Snapshot, Visible;
    RestoreNames(env, Snapshot(base));
    forall k | 0 <= k < |base| && base[k].kind == Own
      ensures base[k].moved.Some? ==> Restore(env, Snapshot(base))[k].moved.Some?
    {
      RestoredAt(base, env, k);
    }
  }

  lemma {:induction false} MarkAllAt(env: Bindings, snap: seq<OwnState>, site: Span, k: nat)
    requires k < |env|
    ensures var r := MarkAll(env, snap, site);
            && SameNames(env, r)
            && (r[k].moved.Some? <==>
                  env[k].moved.Some? || (env[k].kind == Own && Visible(env, k) && MovedIn(snap, env[k].name)))
  {
    hide MarkMoved, Visible, MovedIn;
    if snap == [] {
      NothingMovedIn(env[k].name);
    } else {
      var front, last := snap[..|snap|-1], snap[|snap|-1];
      var before := MarkAll(env, front, site);
      MarkAllAt(env, front, site, k);
      MarkMovedAt(before, last.name, site, k);
      NamesOfMarked(before, last.name, site);
      VisibleSame(env, before, k);
      MovedInSplit(snap, env[k].name);
    }
  }

  lemma {:induction false} NothingMovedIn(name: string)
    ensures !MovedIn([], name)
  {
  }

  lemma {:induction false} MovedInSplit(snap: seq<OwnState>, name: string)
    requires snap != []
    ensures var last := snap[|snap|-1];
            MovedIn(snap, name) <==> MovedIn(snap[..|snap|-1], name) || (last.name == name && last.moved.Some?)
  {
    var front := snap[..|snap|-1];
    if MovedIn(front, name) {
      var i :| 0 <= i < |front| && front[i].name == name && front[i].moved.Some?;
      assert snap[i].name == name;
    }
    if MovedIn(snap, name) {
      var i :| 0 <= i < |snap| && snap[i].name == name && snap[i].moved.Some?;
      assert i < |front| ==> front[i].name == name;
    }
  }

  lemma {:induction false} MovedInSnapshot(env: Bindings, name: string)
    ensures MovedIn(Snapshot(env), name) <==>
              exists k :: 0 <= k < |env| && env[k].kind == Own && env[k].name == name && env[k].moved.Some?
  {
    hide MovedIn;
    if env == [] {
      NothingMovedIn(name);
    } else {
      var front, last := env[..|env|-1], env[|env|-1];
      MovedInSnapshot(front, name);
      if last.kind == Own {
        var snap := Snapshot(env);
        MovedInSplit(snap, name);
        assert snap[..|snap|-1] == Snapshot(front);
      } else {
        assert Snapshot(front) + [] == Snapshot(front);
      }
      if k :| 0 <= k < |front| && front[k].kind == Own && front[k].name == name && front[k].moved.Some? {
        assert env[k].name == name;
      }
      if k :| 0 <= k < |env| && env[k].kind == Own && env[k].name == name && env[k].moved.Some? {
        assert k < |front| ==> front[k].name == name;
      }
    }
  }

  ghost predicate MovedInSome(snaps: seq<seq<OwnState>>, name: string)
  {
    exists i :: 0 <= i < |snaps| && MovedIn(snaps[i], name)
  }

  lemma {:induction false} JoinAt(env: Bindings, snaps: seq<seq<OwnState>>, site: Span, k: nat)
    requires k < |env|
    ensures var r := Join(env, snaps, site);
            && SameNames(env, r)
            && (r[k].moved.Some? <==>
                  env[k].moved.Some? || (env[k].kind == Own && Visible(env, k) && MovedInSome(snaps, env[k].name)))
  {
    hide MarkAll, Visible, MovedIn;
    if snaps != [] {
      var front := snaps[..|snaps|-1];
      var before := Join(env, front, site);
      JoinAt(env, front, site, k);
      MarkAllAt(before, snaps[|snaps|-1], site, k);
      VisibleSame(env, before, k);
      MovedInSomeSplit(snaps, env[k].name);
    }
  }

  lemma {:induction false} MovedInSomeSplit(snaps: seq<seq<OwnState>>, name: string)
    requires snaps != []
    ensures MovedInSome(snaps, name) <==> MovedInSome(snaps[..|snaps|-1], name) || MovedIn(snaps[|snaps|-1], name)
  {
    hide MovedIn;
    var front := snaps[..|snaps|-1];
    if MovedInSome(front, name) {
      var i :| 0 <= i < |front| && MovedIn(front[i], name);
      assert MovedIn(snaps[i], name);
    }
    if MovedInSome(snaps, name) {
      var i :| 0 <= i < |snaps| && MovedIn(snaps[i], name);
      assert i < |front| ==> MovedIn(front[i], name);
    }
  }

  lemma {:induction false} JoinNames(env: Bindings, snaps: seq<seq<OwnState>>, site: Span)
    ensures SameNames(env, Join(env, snaps, site)) && Above(env, Join(env, snaps, site))
  {
    hide Join, Visible, MovedInSome;
    JoinLength(env, snaps, site);
    forall k | 0 <= k < |env|
      ensures var r := Join(env, snaps, site);
              r[k].name == env[k].name && r[k].kind == env[k].kind && (env[k].moved.Some? ==> r[k].moved.Some?)
    {
      JoinAt(env, snaps, site, k);
    }
  }

  lemma {:induction false} JoinLength(env: Bindings, snaps: seq<seq<OwnState>>, site: Span)
    ensures |Join(env, snaps, site)| == |env|
  {
    hide MarkAll;
    if snaps != [] {
      JoinLength(env, snaps[..|snaps|-1], site);
      MarkAllLength(Join(env, snaps[..|snaps|-1], site), snaps[|snaps|-1], site);
    }
  }

  lemma {:induction false} MarkAllLength(env: Bindings, snap: seq<OwnState>, site: Span)
    ensures |MarkAll(env, snap, site)| == |env|
  {
    hide MarkMoved;
    if snap != [] {
      MarkAllLength(env, snap[..|snap|-1], site);
      NamesOfMarked(MarkAll(env, snap[..|snap|-1], site), snap[|snap|-1].name, site);
    }
  }

  // ----- Checking forgets nothing -----

  ghost predicate Grown(a: Checking, b: Checking)
  {
    Above(a.env, b.env) && a.log <= b.log && a.depth == b.depth
  }

  ghost predicate Level(a: Checking, b: Checking)
  {
    Grown(a, b) && |a.env| == |b.env|
  }

  lemma {:induction false} LevelSelf(a: Checking)
    ensures Level(a, a)
  {
  }

  lemma {:induction false} LevelTrans(a: Checking, b: Checking, c: Checking)
    requires Level(a, b) && Level(b, c)
    ensures Level(a, c)
  {
  }

  lemma {:induction false} GrownTrans(a: Checking, b: Checking, c: Checking)
    requires Grown(a, b) && Grown(b, c)
    ensures Grown(a, c)
  {
  }

  lemma {:induction false} LevelIsGrown(a: Checking, b: Checking)
    requires Level(a, b)
    ensures Grown(a, b)
  {
  }

  lemma {:induction false} ReportLevel(a: Checking, code: nat, site: Span)
    ensures Level(a, Report(a, code, site))
  {
  }

  lemma {:induction false} UseLevel(a: Checking, name: string, site: Span)
    ensures Level(a, CheckUse(a, name, site))
  {
    hide Find, Level, Report;
    LevelSelf(a);
    ReportLevel(a, USE_AFTER_MOVE, site);
  }

  lemma {:induction false} MarkLevel(a: Checking, name: string, site: Span)
    ensures Level(a, a.(env := MarkMoved(a.env, name, site)))
  {
    hide MarkMoved;
    MarkMovedKeeps(a.env, name, site);
  }

  lemma {:induction false} HandOverLevel(arg: Expr, a: Checking)
    ensures Level(a, HandOver(arg, a))
  {
    hide Level, CheckUse, MarkMoved;
    LevelSelf(a);
    if Root(arg).Some? {
      var b := CheckUse(a, Root(arg).value, arg.span);
      UseLevel(a, Root(arg).value, arg.span);
      MarkLevel(b, Root(arg).value, arg.span);
      LevelTrans(a, b, HandOver(arg, a));
    }
  }

  lemma {:induction false} LeaveLevel(a: Checking, b: Checking)
    requires Grown(Enter(a), b)
    ensures Level(a, Leave(b, a))
  {
  }

  lemma {:induction false} DefineAllGrown(a: Checking, names: seq<string>)
    ensures Grown(a, DefineAll(a, names))
  {
    hide Grown;
    LevelSelf(a);
    LevelIsGrown(a, a);
    if names != [] {
      var before := DefineAll(a, names[..|names|-1]);
      DefineAllGrown(a, names[..|names|-1]);
      DefineGrown(before, names[|names|-1], Plain);
      GrownTrans(a, before, DefineAll(a, names));
    }
  }

  lemma {:induction false} DefineGrown(a: Checking, name: string, kind: BindingKind)
    ensures Grown(a, Define(a, name, kind))
  {
  }

  lemma {:induction false} CheckLevel(e: Expr, a: Checking)
    ensures Level(a, CheckExpr(e, a))
    decreases e, 1
  {
    OneStep(e, a);
    LevelSelf(a);
    hide *;
    match e {
      case Block(stmts) =>
        CheckStmtsGrow(stmts, Enter(a));
        LeaveLevel(a, CheckStmts(stmts, Enter(a)));
      case Ret(value, site) => CheckRetLevel(e, value, a, site);
      case CallExpr(callee, args) =>
        CheckLevel(callee, a);
        CheckArgsLevel(args, CheckExpr(callee, a));
        LevelTrans(a, CheckExpr(callee, a), CheckExpr(e, a));
      case Path(segments, site) =>
        if segments != [] {
          UseLevel(a, segments[0], site);
        }
      case Binary(_, x, y) =>
        CheckLevel(x, a);
        CheckLevel(y, CheckExpr(x, a));
        LevelTrans(a, CheckExpr(x, a), CheckExpr(e, a));
      case IndexExpr(x, y) =>
        CheckLevel(x, a);
        CheckLevel(y, CheckExpr(x, a));
        LevelTrans(a, CheckExpr(x, a), CheckExpr(e, a));
      case Unary(_, x) => CheckLevel(x, a);
      case FieldExpr(x, _) => CheckLevel(x, a);
      case DerefExpr(x) => CheckLevel(x, a);
      case Propagate(x) => CheckLevel(x, a);
      case Jmp(x, _) => CheckSomeLevel(x, a);
      case Loop(_, subject, body) =>
        CheckSomeLevel(subject, a);
        CheckLevel(body, CheckSome(subject, a));
        LevelTrans(a, CheckSome(subject, a), CheckExpr(e, a));
      case Branch(x, arms, site) =>
        CheckSomeLevel(x, a);
        CheckBranchLevel(arms, site, CheckSome(x, a));
        LevelTrans(a, CheckSome(x, a), CheckExpr(e, a));
      case _ =>
    }
  }

  lemma {:induction false} CheckSomeLevel(x: Option<Expr>, a: Checking)
    ensures Level(a, CheckSome(x, a))
    decreases x
  {
    LevelSelf(a);
    hide CheckExpr, Level;
    if x.Some? {
      CheckLevel(x.value, a);
    }
  }

  lemma {:induction false} CheckRetLevel(e: Expr, x: Option<Expr>, a: Checking, site: Span)
    requires e.Ret? && e.value == x
    ensures Level(a, CheckRet(x, a, site))
    decreases e, 0
  {
    LevelSelf(a);
    hide CheckExpr, Level;
    if x.Some? {
      CheckLevel(x.value, a);
      EscapeLevel(x.value, CheckExpr(x.value, a), site);
      LevelTrans(a, CheckExpr(x.value, a), CheckRet(x, a, site));
    }
  }

  lemma {:induction false} EscapeLevel(x: Expr, a: Checking, site: Span)
    ensures Level(a, CheckEscape(x, a, site))
  {
    hide Level;
    LevelSelf(a);
    ReportLevel(a, BORROW_ESCAPES_TO_RETURN, site);
  }

  lemma {:induction false} StoreLevel(target: Expr, value: Expr, a: Checking, site: Span)
    ensures Level(a, CheckStore(target, value, a, site))
  {
    hide Level;
    LevelSelf(a);
    ReportLevel(a, BORROW_ESCAPES_TO_HEAP, site);
  }

  lemma {:induction false} CheckArgsLevel(args: seq<Expr>, a: Checking)
    ensures Level(a, CheckArgs(args, a))
    decreases args
  {
    LevelSelf(a);
    hide CheckExpr, Level, HandOver;
    if args != [] {
      var b := CheckExpr(args[0], a);
      CheckLevel(args[0], a);
      HandOverLevel(args[0], b);
      LevelTrans(a, b, HandOver(args[0], b));
      CheckArgsLevel(args[1..], HandOver(args[0], b));
      LevelTrans(a, HandOver(args[0], b), CheckArgs(args, a));
    }
  }

  lemma {:induction false} CheckStmtsGrow(stmts: seq<Stmt>, a: Checking)
    ensures Grown(a, CheckStmts(stmts, a))
    decreases stmts
  {
    LevelSelf(a);
    LevelIsGrown(a, a);
    hide CheckStmt, Grown;
    if stmts != [] {
      CheckStmtGrows(stmts[0], a);
      CheckStmtsGrow(stmts[1..], CheckStmt(stmts[0], a));
      GrownTrans(a, CheckStmt(stmts[0], a), CheckStmts(stmts, a));
    }
  }

  lemma {:induction false} CheckStmtGrows(s: Stmt, a: Checking)
    ensures Grown(a, CheckStmt(s, a))
    decreases s
  {
    hide CheckExpr, Grown, Level, MoveOut, CheckStore, Define;
    match s {
      case Let(name, _, ty, init) =>
        var b := CheckExpr(init, a);
        CheckLevel(init, a);
        MoveOutLevel(init, b);
        LevelTrans(a, b, MoveOut(init, b));
        LevelIsGrown(a, MoveOut(init, b));
        DefineGrown(MoveOut(init, b), name, KindOfLet(ty));
        GrownTrans(a, MoveOut(init, b), CheckStmt(s, a));
      case Assign(target, value, site) =>
        var b := CheckExpr(value, a);
        var c := CheckStore(target, value, b, site);
        CheckLevel(value, a);
        StoreLevel(target, value, b, site);
        CheckLevel(target, c);
        LevelTrans(a, b, c);
        LevelTrans(a, c, CheckStmt(s, a));
        LevelIsGrown(a, CheckStmt(s, a));
      case Defer(x) =>
        CheckLevel(x, a);
        LevelIsGrown(a, CheckStmt(s, a));
      case ExprStmt(x) =>
        CheckLevel(x, a);
        LevelIsGrown(a, CheckStmt(s, a));
    }
  }

  lemma {:induction false} MoveOutLevel(init: Expr, a: Checking)
    ensures Level(a, MoveOut(init, a))
  {
    hide Level, MarkMoved;
    LevelSelf(a);
    if Root(init).Some? {
      MarkLevel(a, Root(init).value, init.span);
    }
  }

  lemma {:induction false} CheckArmLevel(arm: Arm, a: Checking)
    ensures Level(a, CheckArm(arm, a))
    decreases arm
  {
    var start := DefineAll(Enter(a), ArmNames(arm.pattern));
    hide CheckExpr, Grown, Level, DefineAll, Leave;
    DefineAllGrown(Enter(a), ArmNames(arm.pattern));
    CheckLevel(arm.body, start);
    LevelIsGrown(start, CheckExpr(arm.body, start));
    GrownTrans(Enter(a), start, CheckExpr(arm.body, start));
    LeaveLevel(a, CheckExpr(arm.body, start));
  }

  /** The states an arm starts from are at least those before the branch. */
  lemma {:induction false} RestoredLevel(a: Checking, b: Checking)
    requires Level(a, b)
    ensures Level(a, b.(env := Restore(b.env, Snapshot(a.env))))
  {
    hide Restore, Snapshot;
    RestoredAbove(a.env, b.env);
  }

  lemma {:induction false} CheckArmsLevel(arms: seq<Arm>, a: Checking)
    ensures Level(a, CheckArms(arms, Snapshot(a.env), a).0)
    decreases arms, 0
  {
    LevelSelf(a);
    hide CheckArm, Level, Restore, Snapshot;
    if arms != [] {
      var (b, snaps) := CheckArms(arms[..|arms|-1], Snapshot(a.env), a);
      var start := b.(env := Restore(b.env, Snapshot(a.env)));
      CheckArmsLevel(arms[..|arms|-1], a);
      RestoredLevel(a, b);
      CheckArmLevel(arms[|arms|-1], start);
      LevelTrans(a, start, CheckArm(arms[|arms|-1], start));
    }
  }

  lemma {:induction false} CheckBranchLevel(arms: seq<Arm>, site: Span, a: Checking)
    ensures Level(a, CheckBranch(arms, site, a))
    decreases arms, 1
  {
    hide CheckArms, Restore, Snapshot, Join, Level;
    var (b, snaps) := CheckArms(arms, Snapshot(a.env), a);
    var c := b.(env := Restore(b.env, Snapshot(a.env)));
    CheckArmsLevel(arms, a);
    RestoredLevel(a, b);
    JoinLevel(c, snaps, site);
    LevelTrans(a, c, CheckBranch(arms, site, a));
  }

  lemma {:induction false} JoinLevel(a: Checking, snaps: seq<seq<OwnState>>, site: Span)
    ensures Level(a, a.(env := Join(a.env, snaps, site)))
  {
    hide Join;
    JoinNames(a.env, snaps, site);
  }
}
