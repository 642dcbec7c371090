/** Move checking is sound: if no use after a move is reported, no choice of arms makes one. Deferred
    expressions are checked where they are written, which is sound when nothing they mention is given
    away afterwards; or `late`, where they run, which always is. */
module MoveSoundness {
  import opened Wrappers
  import opened Diag
  import opened Ast
  import opened Escape
  import opened MoveCheck
  import opened MovePaths
  import opened MoveGrowth
  import opened Deferral
  import opened MoveFraming

  /** The checker knows the bindings there are, and counts as moved at least what is moved. */
  ghost predicate Covers(s: Bindings, t: Bindings)
  {
    |t| <= |s| && forall k | 0 <= k < |t| ::
      s[k].name == t[k].name && s[k].kind == t[k].kind && (s[k].kind == Own && t[k].moved.Some? ==> s[k].moved.Some?)
  }

  /** While control has not left, the checker also knows no bindings beyond. */
  ghost predicate Safe(a: Checking, c: World)
  {
    SafeEnd(a, c) && (!c.stopped ==> |a.env| == |c.env|)
  }

  ghost predicate SafeEnd(a: Checking, c: World)
  {
    (c.bad ==> Reported(a.log)) && Covers(a.env, c.env)
  }

  lemma {:induction false} ReportsStay(log: seq<Diagnostic>, more: seq<Diagnostic>)
    requires log <= more && Reported(log)
    ensures Reported(more)
  {
    var i :| 0 <= i < |log| && log[i].code == 5001 && log[i].severity == Error;
    assert more[i].code == 5001;
  }

  lemma {:induction false} SafeUp(a: Checking, b: Checking, c: World)
    requires Level(a, b) && Safe(a, c)
    ensures Safe(b, c)
  {
    hide Reported;
    if c.bad {
      ReportsStay(a.log, b.log);
    }
  }

  lemma {:induction false} StopSafe(a: Checking, c: World)
    requires Safe(a, c)
    ensures Safe(a, c.(stopped := true))
  {
    hide Reported, Covers;
  }

  lemma {:induction false} UseSafe(a: Checking, c: World, name: string, site: Span)
    requires Safe(a, c) && !c.stopped
    ensures Safe(CheckUse(a, name, site), UseName(c, name))
  {
    hide Find, Report;
    FindSame(a.env, c.env, name);
    UseLevel(a, name, site);
    SafeUp(a, CheckUse(a, name, site), c);
    JustReported(a, site);
  }

  lemma {:induction false} JustReported(a: Checking, site: Span)
    ensures Reported(Report(a, USE_AFTER_MOVE, site).log) && Report(a, USE_AFTER_MOVE, site).env == a.env
  {
    var log := Report(a, USE_AFTER_MOVE, site).log;
    assert log[|log|-1].code == 5001;
  }

  lemma {:induction false} MarkCovers(s: Bindings, t: Bindings, name: string, site: Span)
    requires Covers(s, t) && |s| == |t|
    ensures |MarkMoved(s, name, site)| == |MarkMoved(t, name, site)| &&
            Covers(MarkMoved(s, name, site), MarkMoved(t, name, site))
  {
    hide MarkMoved, Visible;
    NamesOfMarked(s, name, site);
    NamesOfMarked(t, name, site);
    assert SameNames(s, t);
    forall k | 0 <= k < |s| && s[k].kind == Own
      ensures MarkMoved(t, name, site)[k].moved.Some? ==> MarkMoved(s, name, site)[k].moved.Some?
    {
      MarkMovedAt(s, name, site, k);
      MarkMovedAt(t, name, site, k);
      VisibleSame(s, t, k);
    }
  }

  lemma {:induction false} HandOverSafe(arg: Expr, a: Checking, c: World)
    requires Safe(a, c)
    ensures Safe(HandOver(arg, a), GiveAway(arg, c))
  {
    hide Covers, Reported, CheckUse, MarkMoved, Level;
    HandOverLevel(arg, a);
    SafeUp(a, HandOver(arg, a), c);
    if !c.stopped && Root(arg).Some? {
      var b := CheckUse(a, Root(arg).value, arg.span);
      UseLevel(a, Root(arg).value, arg.span);
      SafeUp(a, b, c);
      MarkCovers(b.env, c.env, Root(arg).value, arg.span);
    }
  }

  lemma {:induction false} MoveOutSafe(init: Expr, a: Checking, c: World)
    requires Safe(a, c)
    ensures Safe(MoveOut(init, a), GiveAway(init, c))
  {
    hide Covers, Reported, MarkMoved, Level;
    MoveOutLevel(init, a);
    SafeUp(a, MoveOut(init, a), c);
    if !c.stopped && Root(init).Some? {
      MarkCovers(a.env, c.env, Root(init).value, init.span);
    }
  }

  lemma {:induction false} DefineSafe(a: Checking, c: World, name: string, kind: BindingKind)
    requires Safe(a, c)
    ensures Safe(Define(a, name, kind), Bind(c, name, kind))
  {
    hide Reported;
  }

  lemma {:induction false} DefineAllSafe(a: Checking, c: World, names: seq<string>)
    requires Safe(a, c)
    ensures Safe(DefineAll(a, names), BindAll(c, names))
  {
    hide Safe, Define, Bind;
    if names != [] {
      DefineAllSafe(a, c, names[..|names|-1]);
      DefineSafe(DefineAll(a, names[..|names|-1]), BindAll(c, names[..|names|-1]), names[|names|-1], Plain);
    }
  }

  lemma {:induction false} LeaveSafe(a: Checking, c: World, b: Checking, d: World)
    requires Safe(a, c) && SafeEnd(b, d) && Grown(Enter(a), b) && Onward(c, d)
    ensures Safe(Leave(b, a), Back(d, c))
  {
    hide Reported;
  }

  // ----- Every form -----

  lemma {:induction false} SoundExpr(late: bool, e: Expr, a: Checking, c: World, d: World)
    requires Walked(e) && (late || Orderly(e)) && Safe(a, c) && Runs(e, c, d)
    ensures Safe(CheckExpr(Placed(late, e), a), d)
    decreases e, 3
  {
    hide *;
    if c.stopped {
      OnlyStays(e, c, d);
      CheckLevel(Placed(late, e), a);
      SafeUp(a, CheckExpr(Placed(late, e), a), d);
    } else {
      SoundForm(late, e, a, c, d);
    }
  }

  lemma {:induction false} SoundForm(late: bool, e: Expr, a: Checking, c: World, d: World)
    requires Walked(e) && (late || Orderly(e)) && Safe(a, c) && Runs(e, c, d) && !c.stopped
    ensures Safe(CheckExpr(Placed(late, e), a), d)
    decreases e, 2
  {
    hide *;
    if e.Block? {
      SoundBlockForm(late, e, a, c, d);
    } else if e.Binary? || e.IndexExpr? || e.CallExpr? {
      SoundSequence(late, e, a, c, d);
    } else if e.Unary? || e.FieldExpr? || e.DerefExpr? || e.Propagate? {
      SoundSingle(late, e, a, c, d);
    } else if e.Ret? || e.Jmp? || e.Branch? {
      SoundLeap(late, e, a, c, d);
    } else {
      SoundAtom(late, e, a, c, d);
    }
  }

  lemma {:induction false} SoundBlockForm(late: bool, e: Expr, a: Checking, c: World, d: World)
    requires e.Block?
    requires Walked(e) && (late || Orderly(e)) && Safe(a, c) && Runs(e, c, d) && !c.stopped
    ensures Safe(CheckExpr(Placed(late, e), a), d)
    decreases e, 1
  {
    OneStep(Placed(late, e), a);
    hide CheckExpr, CheckStmts, CheckRet, CheckArgs, CheckUse, CheckSome, CheckBranch, Leave, Enter, Safe;
    hide RunsStmts, RunsArgs, RunsSome, RunsArm, RunsInits, RunsAll, UseName, Back;
    hide WalkedStmts, WalkedAll, WalkedSome, WalkedArms, OrderlyStmts, OrderlyAll, OrderlySome, OrderlyArms;
    hide PlacedStmts, PlacedAll, PlacedSome, PlacedArms;
    match e {
      case Block(stmts) =>
        var m :| RunsStmts(stmts, c, m) && d == Back(m, c);
        SoundBlock(late, stmts, a, c, m);
    }
  }

  lemma {:induction false} SoundSequence(late: bool, e: Expr, a: Checking, c: World, d: World)
    requires e.Binary? || e.IndexExpr? || e.CallExpr?
    requires Walked(e) && (late || Orderly(e)) && Safe(a, c) && Runs(e, c, d) && !c.stopped
    ensures Safe(CheckExpr(Placed(late, e), a), d)
    decreases e, 1
  {
    OneStep(Placed(late, e), a);
    hide CheckExpr, CheckStmts, CheckRet, CheckArgs, CheckUse, CheckSome, CheckBranch, Leave, Enter, Safe;
    hide RunsStmts, RunsArgs, RunsSome, RunsArm, RunsInits, RunsAll, UseName, Back;
    hide WalkedStmts, WalkedAll, WalkedSome, WalkedArms, OrderlyStmts, OrderlyAll, OrderlySome, OrderlyArms;
    hide PlacedStmts, PlacedAll, PlacedSome, PlacedArms;
    match e {
      case Binary(_, x, y) =>
        var m :| Runs(x, c, m) && Runs(y, m, d);
        SoundExpr(late, x, a, c, m);
        SoundExpr(late, y, CheckExpr(Placed(late, x), a), m, d);
      case IndexExpr(x, y) =>
        var m :| Runs(x, c, m) && Runs(y, m, d);
        SoundExpr(late, x, a, c, m);
        SoundExpr(late, y, CheckExpr(Placed(late, x), a), m, d);
      case CallExpr(callee, args) =>
        var m :| Runs(callee, c, m) && RunsArgs(args, m, d);
        SoundExpr(late, callee, a, c, m);
        SoundArgs(late, args, CheckExpr(Placed(late, callee), a), m, d);
    }
  }

  lemma {:induction false} SoundSingle(late: bool, e: Expr, a: Checking, c: World, d: World)
    requires e.Unary? || e.FieldExpr? || e.DerefExpr? || e.Propagate?
    requires Walked(e) && (late || Orderly(e)) && Safe(a, c) && Runs(e, c, d) && !c.stopped
    ensures Safe(CheckExpr(Placed(late, e), a), d)
    decreases e, 1
  {
    OneStep(Placed(late, e), a);
    hide CheckExpr, CheckStmts, CheckRet, CheckArgs, CheckUse, CheckSome, CheckBranch, Leave, Enter, Safe;
    hide RunsStmts, RunsArgs, RunsSome, RunsArm, RunsInits, RunsAll, UseName, Back;
    hide WalkedStmts, WalkedAll, WalkedSome, WalkedArms, OrderlyStmts, OrderlyAll, OrderlySome, OrderlyArms;
    hide PlacedStmts, PlacedAll, PlacedSome, PlacedArms;
    match e {
      case Unary(_, x) => SoundExpr(late, x, a, c, d);
      case FieldExpr(x, _) => SoundExpr(late, x, a, c, d);
      case DerefExpr(x) => SoundExpr(late, x, a, c, d);
      case Propagate(x) =>
        var m :| Runs(x, c, m) && (d == m || d == m.(stopped := true));
        SoundExpr(late, x, a, c, m);
        StopSafe(CheckExpr(Placed(late, x), a), m);
    }
  }

  lemma {:induction false} SoundLeap(late: bool, e: Expr, a: Checking, c: World, d: World)
    requires e.Ret? || e.Jmp? || e.Branch?
    requires Walked(e) && (late || Orderly(e)) && Safe(a, c) && Runs(e, c, d) && !c.stopped
    ensures Safe(CheckExpr(Placed(late, e), a), d)
    decreases e, 1
  {
    OneStep(Placed(late, e), a);
    hide CheckExpr, CheckStmts, CheckRet, CheckArgs, CheckUse, CheckSome, CheckBranch, Leave, Enter, Safe;
    hide RunsStmts, RunsArgs, RunsSome, RunsArm, RunsInits, RunsAll, UseName, Back;
    hide WalkedStmts, WalkedAll, WalkedSome, WalkedArms, OrderlyStmts, OrderlyAll, OrderlySome, OrderlyArms;
    hide PlacedStmts, PlacedAll, PlacedSome, PlacedArms;
    match e {
      case Ret(x, site) =>
        var m :| RunsSome(x, c, m) && d == m.(stopped := true);
        SoundRet(late, e, x, a, c, m, site);
        StopSafe(CheckRet(PlacedSome(late, x), a, site), m);
      case Jmp(x, _) =>
        var m :| RunsSome(x, c, m) && d == m.(stopped := true);
        SoundSome(late, x, a, c, m);
        StopSafe(CheckSome(PlacedSome(late, x), a), m);
      case Branch(x, arms, site) =>
        var m :| RunsSome(x, c, m) && (d == m || exists i | 0 <= i < |arms| :: RunsArm(arms[i], m, d));
        SoundSome(late, x, a, c, m);
        SoundBranch(late, arms, site, CheckSome(PlacedSome(late, x), a), m, d);
    }
  }

  lemma {:induction false} SoundAtom(late: bool, e: Expr, a: Checking, c: World, d: World)
    requires !e.Block? && !e.Unary? && !e.FieldExpr? && !e.DerefExpr? && !e.Propagate? && !e.Binary? && !e.IndexExpr?
    requires !e.CallExpr? && !e.Ret? && !e.Jmp? && !e.Branch?
    requires Walked(e) && Safe(a, c) && Runs(e, c, d) && !c.stopped
    ensures Safe(CheckExpr(Placed(late, e), a), d)
  {
    OneStep(e, a);
    hide CheckExpr, CheckUse, Safe, UseName;
    match e {
      case Path(segments, site) =>
        if segments != [] {
          UseSafe(a, c, segments[0], site);
        }
      case Stop(_) => StopSafe(a, c);
      case Skip(_) => StopSafe(a, c);
      case _ =>
    }
  }

  lemma {:induction false} SoundSome(late: bool, x: Option<Expr>, a: Checking, c: World, d: World)
    requires WalkedSome(x) && (late || OrderlySome(x)) && Safe(a, c) && RunsSome(x, c, d)
    ensures Safe(CheckSome(PlacedSome(late, x), a), d)
    decreases x
  {
    hide Safe, CheckExpr, Runs, Walked, Orderly, Placed;
    if x.Some? {
      SoundExpr(late, x.value, a, c, d);
    }
  }

  lemma {:induction false} SoundRet(late: bool, e: Expr, x: Option<Expr>, a: Checking, c: World, d: World, site: Span)
    requires e.Ret? && e.value == x && WalkedSome(x) && (late || OrderlySome(x)) && Safe(a, c) && RunsSome(x, c, d)
    ensures Safe(CheckRet(PlacedSome(late, x), a, site), d)
    decreases e, 0
  {
    hide Safe, CheckExpr, Runs, Walked, CheckEscape, Orderly, Placed;
    if x.Some? {
      var v := Placed(late, x.value);
      SoundExpr(late, x.value, a, c, d);
      EscapeLevel(v, CheckExpr(v, a), site);
      SafeUp(CheckExpr(v, a), CheckRet(PlacedSome(late, x), a, site), d);
    }
  }

  lemma {:induction false} SoundArgs(late: bool, args: seq<Expr>, a: Checking, c: World, d: World)
    requires WalkedAll(args) && (late || OrderlyAll(args)) && Safe(a, c) && RunsArgs(args, c, d)
    ensures Safe(CheckArgs(PlacedAll(late, args), a), d)
    decreases args
  {
    hide Safe, CheckExpr, HandOver, GiveAway, Runs, RunsArg, Walked, Orderly, Placed;
    if args != [] {
      var m :| RunsArg(args[0], c, m) && RunsArgs(args[1..], m, d);
      var first := Placed(late, args[0]);
      SoundArg(late, args[0], a, c, m);
      SoundArgs(late, args[1..], HandOver(first, CheckExpr(first, a)), m, d);
      assert PlacedAll(late, args)[1..] == PlacedAll(late, args[1..]);
    }
  }

  lemma {:induction false} SoundArg(late: bool, arg: Expr, a: Checking, c: World, d: World)
    requires Walked(arg) && (late || Orderly(arg)) && Safe(a, c) && RunsArg(arg, c, d)
    ensures Safe(HandOver(Placed(late, arg), CheckExpr(Placed(late, arg), a)), d)
    decreases arg, 4
  {
    hide Safe, CheckExpr, HandOver, GiveAway, Runs, Walked, Orderly;
    var m :| Runs(arg, c, m) && d == GiveAway(arg, m);
    SoundExpr(late, arg, a, c, m);
    SameGift(late, arg, m);
    HandOverSafe(Placed(late, arg), CheckExpr(Placed(late, arg), a), m);
  }

  lemma {:induction false} SameGift(late: bool, e: Expr, c: World)
    ensures GiveAway(Placed(late, e), c) == GiveAway(e, c)
  {
    hide Placed;
  }

  lemma {:induction false} SoundBlock(late: bool, stmts: seq<Stmt>, a: Checking, c: World, m: World)
    requires WalkedStmts(stmts) && (late || OrderlyStmts(stmts)) && Safe(a, c) && RunsStmts(stmts, c, m)
    ensures Safe(Leave(CheckStmts(PlacedStmts(late, stmts), Enter(a)), a), Back(m, c))
    decreases stmts, 2
  {
    EnterSafe(a, c);
    hide Safe, SafeEnd, CheckStmts, RunsStmts, WalkedStmts, Leave, Back, Enter, Onward, Grown, OrderlyStmts;
    hide PlacedStmts;
    SoundStmts(late, stmts, Enter(a), c, m);
    CheckStmtsGrow(PlacedStmts(late, stmts), Enter(a));
    RunsStmtsKeep(stmts, c, m);
    LeaveSafe(a, c, CheckStmts(PlacedStmts(late, stmts), Enter(a)), m);
  }

  lemma {:induction false} EnterSafe(a: Checking, c: World)
    requires Safe(a, c)
    ensures Safe(Enter(a), c)
  {
  }

  lemma {:induction false} SoundStmts(late: bool, stmts: seq<Stmt>, a: Checking, c: World, d: World)
    requires WalkedStmts(stmts) && (late || OrderlyStmts(stmts)) && Safe(a, c) && RunsStmts(stmts, c, d)
    ensures SafeEnd(CheckStmts(PlacedStmts(late, stmts), a), d)
    decreases stmts, 1
  {
    hide CheckStmt, RunsStmt, WalkedStmt, OrderlyStmt, RunsDeferred, Reported, Covers, PlacedStmt, MentionedStmt;
    hide GivenAwayStmts, Placed;
    var placed := PlacedStmts(late, stmts);
    if c.stopped || stmts == [] {
      CheckStmtsGrow(placed, a);
      StoppedSafe(a, CheckStmts(placed, a), c);
    } else if stmts[0].Defer? {
      var m :| RunsStmts(stmts[1..], c, m) && RunsDeferred(stmts[0], Back(m, c), d);
      if late {
        SoundLater(stmts, a, c, m, d);
      } else {
        SoundHere(stmts, a, c, m, d);
      }
    } else {
      var m :| RunsStmt(stmts[0], c, m) && RunsStmts(stmts[1..], m, d);
      var s := PlacedStmt(late, stmts[0]);
      SoundStmt(late, stmts[0], a, c, m);
      SoundStmts(late, stmts[1..], CheckStmt(s, a), m, d);
      assert placed[1..] == PlacedStmts(late, stmts[1..]);
    }
  }

  lemma {:induction false} StoppedSafe(a: Checking, b: Checking, c: World)
    requires SafeEnd(a, c) && Grown(a, b)
    ensures SafeEnd(b, c)
  {
    hide Reported;
    if c.bad {
      ReportsStay(a.log, b.log);
    }
  }

  /** A deferred expression checked behind the rest of its block: that is where it runs. */
  lemma {:induction false} SoundLater(stmts: seq<Stmt>, a: Checking, c: World, m: World, d: World)
    requires stmts != [] && stmts[0].Defer? && WalkedStmts(stmts) && Safe(a, c) && !c.stopped
    requires RunsStmts(stmts[1..], c, m) && RunsDeferred(stmts[0], Back(m, c), d)
    ensures SafeEnd(CheckStmts(PlacedStmts(true, stmts), a), d)
    decreases stmts, 0
  {
    hide CheckExpr, Runs, Walked, Reported, Covers, Placed, CheckStmts, RunsStmts, Leave, Enter, Safe, SafeEnd, Back;
    var rest := PlacedStmts(true, stmts[1..]);
    var b := Leave(CheckStmts(rest, Enter(a)), a);
    SoundBlock(true, stmts[1..], a, c, m);
    RunsStmtsKeep(stmts[1..], c, m);
    LeftWithin(stmts[1..], a, c, m);
    SoundDeferred(true, stmts[0], b, Back(m, c), d, c, a);
    TwoPlaced(rest, stmts[0], a);
    assert PlacedStmts(true, stmts) == [ExprStmt(Block(rest)), PlacedDeferred(true, stmts[0])];
  }

  lemma {:induction false} LeftWithin(rest: seq<Stmt>, a: Checking, c: World, m: World)
    requires Onward(c, m)
    ensures |Leave(CheckStmts(PlacedStmts(true, rest), Enter(a)), a).env| == |a.env| && |Back(m, c).env| == |c.env|
  {
    hide CheckStmts, PlacedStmts, Kept;
    CheckStmtsGrow(PlacedStmts(true, rest), Enter(a));
  }

  lemma {:induction false} TwoPlaced(rest: seq<Stmt>, s: Stmt, a: Checking)
    requires s.Defer?
    ensures CheckStmts([ExprStmt(Block(rest)), PlacedDeferred(true, s)], a) ==
            CheckExpr(Placed(true, s.deferred), Leave(CheckStmts(rest, Enter(a)), a))
  {
    CheckTwo(ExprStmt(Block(rest)), PlacedDeferred(true, s), a);
    OneStep(Block(rest), a);
    hide CheckExpr, CheckStmts, Leave, Enter, Placed;
  }

  lemma {:induction false} SoundDeferred(
      late: bool, s: Stmt, a: Checking, c: World, d: World, start: World, first: Checking)
    requires s.Defer? && WalkedStmt(s) && (late || OrderlyStmt(s)) && Safe(a, c) && RunsDeferred(s, c, d)
    requires Safe(first, start) && !start.stopped && |c.env| == |start.env| && |a.env| == |first.env|
    ensures SafeEnd(CheckExpr(Placed(late, s.deferred), a), d)
    decreases s
  {
    hide CheckExpr, Runs, Walked, Reported, Placed, Orderly;
    var m :| Runs(s.deferred, c.(stopped := false), m) && d == m.(stopped := c.stopped || m.stopped);
    SoundExpr(late, s.deferred, a, c.(stopped := false), m);
  }

  /** A deferred expression checked where it is written: nothing it mentions changes until it runs, so it
      uses after a move what it would use after a move here. */
  lemma {:induction false} SoundHere(stmts: seq<Stmt>, a: Checking, c: World, m: World, d: World)
    requires stmts != [] && stmts[0].Defer? && WalkedStmts(stmts) && OrderlyStmts(stmts) && Safe(a, c) && !c.stopped
    requires RunsStmts(stmts[1..], c, m) && RunsDeferred(stmts[0], Back(m, c), d)
    ensures SafeEnd(CheckStmts(PlacedStmts(false, stmts), a), d)
    decreases stmts, 0
  {
    hide CheckExpr, Runs, Walked, Orderly, Reported, Covers, CheckStmts, RunsStmts, RunsDeferred, Safe, SafeEnd;
    hide Onward, Placed;
    hide WalkedStmts, OrderlyStmts, MentionedStmt, GivenAwayStmts, PlacedStmts, WalkedStmt;
    OrderlyHead(stmts);
    var b := CheckStmt(PlacedStmt(false, stmts[0]), a);
    DeferredChecked(stmts[0], a);
    var e := stmts[0].deferred;
    CheckLevel(Placed(false, e), a);
    SafeUp(a, b, c);
    SoundStmts(false, stmts[1..], b, c, m);
    RunsStmtsKeep(stmts[1..], c, m);
    NamesBelow(c, m);
    var here := RunHere(stmts[0], stmts[1..], c, m, d);
    SoundWritten(stmts[0], a, c, here);
    CheckStmtsGrow(PlacedStmts(false, stmts[1..]), b);
    EndOfDeferred(stmts[0], stmts[1..], b, CheckStmts(PlacedStmts(false, stmts[1..]), b), c, m, d, here);
  }

  lemma {:induction false} SoundWritten(s: Stmt, a: Checking, c: World, d: World)
    requires s.Defer? && WalkedStmt(s) && OrderlyStmt(s) && Safe(a, c) && Runs(s.deferred, c, d)
    ensures Safe(CheckExpr(Placed(false, s.deferred), a), d)
    decreases s
  {
    hide CheckExpr, Runs, Safe, Placed;
    SoundExpr(false, s.deferred, a, c, d);
  }

  lemma {:induction false} OrderlyHead(stmts: seq<Stmt>)
    requires stmts != [] && stmts[0].Defer? && OrderlyStmts(stmts) && WalkedStmts(stmts)
    ensures OrderlyStmts(stmts[1..]) && OrderlyStmt(stmts[0]) && WalkedStmts(stmts[1..]) && WalkedStmt(stmts[0])
    ensures MentionedStmt(stmts[0]) !! GivenAwayStmts(stmts[1..])
    ensures forall a :: CheckStmts(PlacedStmts(false, stmts), a) ==
                        CheckStmts(PlacedStmts(false, stmts[1..]), CheckStmt(PlacedStmt(false, stmts[0]), a))
  {
    hide CheckStmt, PlacedStmt, OrderlyStmt, WalkedStmt, MentionedStmt;
    assert PlacedStmts(false, stmts)[1..] == PlacedStmts(false, stmts[1..]);
  }

  lemma {:induction false} DeferredChecked(s: Stmt, a: Checking)
    requires s.Defer?
    ensures CheckStmt(PlacedStmt(false, s), a) == CheckExpr(Placed(false, s.deferred), a)
  {
    hide CheckExpr, Placed;
  }

  /** The run of the deferred expression, made where it is written. */
  lemma {:induction false} RunHere(s: Stmt, rest: seq<Stmt>, c: World, m: World, d: World) returns (here: World)
    requires s.Defer? && WalkedStmt(s) && WalkedStmts(rest) && MentionedStmt(s) !! GivenAwayStmts(rest) && !c.stopped
    requires RunsStmts(rest, c, m) && RunsDeferred(s, Back(m, c), d) && Onward(c, m)
    ensures Runs(s.deferred, c, here) && (d.bad ==> m.bad || here.bad) && |here.env| == |c.env| == |d.env| <= |m.env|
    ensures forall k | 0 <= k < |d.env| ::
              && d.env[k].name == c.env[k].name == here.env[k].name && d.env[k].kind == c.env[k].kind
              && if d.env[k].name in MentionedStmt(s) then d.env[k].kind == Own && d.env[k].moved.Some? ==>
                 here.env[k].moved.Some?
                 else d.env[k].moved == m.env[k].moved
  {
    hide Runs, Walked, RunsStmts, WalkedStmts, GivenAwayStmts, Mentioned, Kept, Above, GivenAway, RootName;
    var e, names := s.deferred, Mentioned(s.deferred);
    var start := Back(m, c).(stopped := false);
    var p :| Runs(e, start, p) && d == p.(stopped := m.stopped || p.stopped);
    BackEnv(m, c);
    forall k | 0 <= k < |c.env| && c.env[k].name in names ensures start.env[k].moved == c.env[k].moved {
      RunsStmtsFrame(rest, c, m, k);
    }
    assert Within(names, start, c);
    here := CarryRun(e, names, start, p, c);
    RunsKeep(e, start, p);
    RunsKeep(e, c, here);
    AcrossNames(start, p);
    AcrossNames(c, here);
    GivenIsMentioned(e);
    forall k | 0 <= k < |d.env| && d.env[k].name !in names ensures d.env[k].moved == m.env[k].moved {
      RunsFrame(e, start, p, k);
    }
  }

  lemma {:induction false} NamesBelow(c: World, m: World)
    requires Onward(c, m)
    ensures SameBelowEnd(c, m)
  {
  }

  lemma {:induction false} BackEnv(m: World, c: World)
    requires Onward(c, m)
    ensures Back(m, c).env == m.env[..|c.env|] && SameNames(c.env, Back(m, c).env) && |c.env| <= |m.env|
  {
  }

  lemma {:induction false} AcrossNames(c: World, d: World)
    requires Across(c, d)
    ensures SameNames(c.env, d.env)
  {
  }

  lemma {:induction false} EndOfDeferred(
      s: Stmt, rest: seq<Stmt>, b: Checking, end: Checking, c: World, m: World, d: World, here: World)
    requires s.Defer? && Safe(b, here) && SafeEnd(end, m) && Grown(b, end) &&
             |here.env| == |c.env| == |d.env| <= |m.env|
    requires d.bad ==> m.bad || here.bad
    requires forall k | 0 <= k < |d.env| ::
               && d.env[k].name == c.env[k].name == here.env[k].name && d.env[k].kind == c.env[k].kind
               && if d.env[k].name in MentionedStmt(s) then d.env[k].kind == Own && d.env[k].moved.Some? ==>
                  here.env[k].moved.Some?
                  else d.env[k].moved == m.env[k].moved
    requires SameBelowEnd(c, m)
    ensures SafeEnd(end, d)
  {
    hide Reported, MentionedStmt;
    if here.bad {
      ReportsStay(b.log, end.log);
    }
  }

  ghost predicate SameBelowEnd(c: World, m: World)
  {
    |c.env| <= |m.env| &&
    forall k | 0 <= k < |c.env| :: c.env[k].name == m.env[k].name && c.env[k].kind == m.env[k].kind
  }

  lemma {:induction false} SoundStmt(late: bool, s: Stmt, a: Checking, c: World, d: World)
    requires WalkedStmt(s) && (late || OrderlyStmt(s)) && !s.Defer? && Safe(a, c) && RunsStmt(s, c, d)
    ensures Safe(CheckStmt(PlacedStmt(late, s), a), d)
    decreases s
  {
    hide Safe, CheckExpr, MoveOut, CheckStore, Define, Runs, GiveAway, Bind, Walked, Orderly, Placed;
    match s {
      case Let(name, _, ty, init) =>
        var m :| Runs(init, c, m) && d == Bind(GiveAway(init, m), name, Held(ty));
        var x := Placed(late, init);
        SoundExpr(late, init, a, c, m);
        SameGift(late, init, m);
        MoveOutSafe(x, CheckExpr(x, a), m);
        DefineSafe(MoveOut(x, CheckExpr(x, a)), GiveAway(x, m), name, KindOfLet(ty));
      case Assign(target, value, site) =>
        var m :| Runs(value, c, m) && Runs(target, m, d);
        var t, v := Placed(late, target), Placed(late, value);
        SoundExpr(late, value, a, c, m);
        StoreLevel(t, v, CheckExpr(v, a), site);
        SafeUp(CheckExpr(v, a), CheckStore(t, v, CheckExpr(v, a), site), m);
        SoundExpr(late, target, CheckStore(t, v, CheckExpr(v, a), site), m, d);
      case ExprStmt(e) => SoundExpr(late, e, a, c, d);
    }
  }

  // ----- Branches -----

  lemma {:induction false} SoundArm(late: bool, arm: Arm, a: Checking, c: World, d: World)
    requires WalkedArm(arm) && (late || OrderlyArm(arm)) && Safe(a, c) && RunsArm(arm, c, d)
    ensures Safe(CheckArm(PlacedArm(late, arm), a), d)
    decreases arm
  {
    hide CheckExpr, DefineAll, Enter, Leave, Runs, BindAll, Back, Walked, Onward, Across, Grown, Level, Orderly;
    hide Placed, Covers, Reported;
    var body := Placed(late, arm.body);
    var start := BindAll(c, ArmNames(arm.pattern));
    var from := DefineAll(Enter(a), ArmNames(arm.pattern));
    var m :| Runs(arm.body, start, m) && d == Back(m, c);
    EnterSafe(a, c);
    DefineAllSafe(Enter(a), c, ArmNames(arm.pattern));
    SoundExpr(late, arm.body, from, start, m);
    DefineAllGrown(Enter(a), ArmNames(arm.pattern));
    CheckLevel(body, from);
    LevelIsGrown(from, CheckExpr(body, from));
    GrownTrans(Enter(a), from, CheckExpr(body, from));
    BindAllKeeps(c, ArmNames(arm.pattern));
    RunsKeep(arm.body, start, m);
    AcrossIsOnward(start, m);
    OnwardChain(c, start, m);
    LeaveSafe(a, c, CheckExpr(body, from), m);
  }

  /** What the checker makes of one arm of a branch: it starts from at least the states before the
      branch, its end is recorded, and what it reports stays reported. */
  lemma {:induction false} ArmIsChecked(arms: seq<Arm>, a: Checking, i: nat) returns (start: Checking)
    requires i < |arms|
    ensures var (b, snaps) := CheckArms(arms, Snapshot(a.env), a);
            && |snaps| == |arms| && Level(a, start)
            && snaps[i] == Snapshot(CheckArm(arms[i], start).env)
            && CheckArm(arms[i], start).log <= b.log
    ensures SameStates(a.env, start.env)
    decreases |arms|
  {
    hide CheckArm, Level, Restore, Snapshot, SameStates;
    var front := arms[..|arms|-1];
    var (b, snaps) := CheckArms(front, Snapshot(a.env), a);
    var last := b.(env := Restore(b.env, Snapshot(a.env)));
    var end := CheckArm(arms[|arms|-1], last);
    CheckArmsLevel(front, a);
    RestoredLevel(a, b);
    SnapsLength(front, Snapshot(a.env), a);
    if i < |front| {
      start := ArmIsChecked(front, a, i);
      CheckArmLevel(arms[|arms|-1], last);
      LevelLog(last, end);
    } else {
      start := last;
      LevelNames(a, b);
      RestoredStates(a.env, b);
    }
  }

  /** The states of the own bindings that are visible. */
  ghost predicate SameStates(s: Bindings, t: Bindings)
  {
    SameNames(s, t) && forall k | 0 <= k < |s| :: s[k].kind == Own && Visible(s, k) ==> s[k].moved == t[k].moved
  }

  lemma {:induction false} RestoredStates(base: Bindings, b: Checking)
    requires SameNames(base, b.env)
    ensures SameStates(base, Restore(b.env, Snapshot(base)))
  {
    hide Restore, Snapshot, Visible;
    RestoreNames(b.env, Snapshot(base));
    forall k | 0 <= k < |base| && base[k].kind == Own && Visible(base, k)
      ensures base[k].moved == Restore(b.env, Snapshot(base))[k].moved
    {
      RestoredAt(base, b.env, k);
    }
  }

  lemma {:induction false} SnapsLength(arms: seq<Arm>, base: seq<OwnState>, a: Checking)
    ensures |CheckArms(arms, base, a).1| == |arms|
  {
    hide CheckArm, Restore, Snapshot;
    if arms != [] {
      SnapsLength(arms[..|arms|-1], base, a);
    }
  }

  lemma {:induction false} LevelLog(a: Checking, b: Checking)
    requires Level(a, b)
    ensures a.log <= b.log
  {
  }

  lemma {:induction false} LevelNames(a: Checking, b: Checking)
    requires Level(a, b)
    ensures SameNames(a.env, b.env) && Above(a.env, b.env)
  {
  }

  /** The join covers where an arm ends: a visible binding through the snapshot of that arm, a hidden
      one because no arm can touch it. */
  lemma {:induction false} ArmJoined(
      arms: seq<Arm>, site: Span, a: Checking, i: nat, mine: Checking, c: World, d: World)
    requires Safe(a, c) && !c.stopped && Safe(mine, d) && Across(c, d) && Level(a, mine)
    requires var (b, snaps) := CheckArms(arms, Snapshot(a.env), a);
             i < |snaps| && snaps[i] == Snapshot(mine.env) && mine.log <= b.log
    ensures Safe(CheckBranch(arms, site, a), d)
  {
    hide CheckArms, Restore, Snapshot, Join, Visible, MovedIn, Reported;
    var (b, snaps) := CheckArms(arms, Snapshot(a.env), a);
    var restored := Restore(b.env, Snapshot(a.env));
    var final := CheckBranch(arms, site, a);
    if mine.log <= final.log && Reported(mine.log) {
      ReportsStay(mine.log, final.log);
    }
    CheckBranchLevel(arms, site, a);
    CheckArmsLevel(arms, a);
    RestoredLevel(a, b);
    LevelNames(a, final);
    assert SameNames(a.env, c.env);
    forall k | 0 <= k < |a.env| && a.env[k].kind == Own
      ensures d.env[k].moved.Some? ==> final.env[k].moved.Some?
    {
      VisibleSame(a.env, c.env, k);
      VisibleSame(a.env, restored, k);
      if Visible(a.env, k) && d.env[k].moved.Some? {
        MovedInSnapshot(mine.env, a.env[k].name);
        assert MovedIn(snaps[i], a.env[k].name);
        JoinAt(restored, snaps, site, k);
      }
    }
  }

  lemma {:induction false} SoundBranch(late: bool, arms: seq<Arm>, site: Span, a: Checking, c: World, d: World)
    requires WalkedArms(arms) && (late || OrderlyArms(arms)) && Safe(a, c)
    requires d == c || exists i | 0 <= i < |arms| :: RunsArm(arms[i], c, d)
    ensures Safe(CheckBranch(PlacedArms(late, arms), site, a), d)
    decreases arms
  {
    hide *;
    var placed := PlacedArms(late, arms);
    if d == c || c.stopped {
      if d != c {
        var i :| 0 <= i < |arms| && RunsArm(arms[i], c, d);
        ArmStays(arms[i], c, d);
      }
      CheckBranchLevel(placed, site, a);
      SafeUp(a, CheckBranch(placed, site, a), c);
    } else {
      var i :| 0 <= i < |arms| && RunsArm(arms[i], c, d);
      WalkedArmAt(arms, i);
      if !late {
        OrderlyArmAt(arms, i);
      }
      PlacedArmAt(late, arms, i);
      var start := ArmIsChecked(placed, a, i);
      SafeUp(a, start, c);
      SoundArm(late, arms[i], start, c, d);
      RunsArmKeeps(arms[i], c, d);
      CheckArmLevel(placed[i], start);
      LevelTrans(a, start, CheckArm(placed[i], start));
      ArmJoined(placed, site, a, i, CheckArm(placed[i], start), c, d);
    }
  }

  // ----- Whole functions -----

  lemma {:induction false} ParamsSafe(params: seq<Param>, log: seq<Diagnostic>)
    ensures Safe(DefineParams(Checking([], 0, log), params), BindParams(params))
  {
    hide Define, Bind;
    if params != [] {
      var front, last := params[..|params|-1], params[|params|-1];
      ParamsSafe(front, log);
      hide Safe;
      DefineSafe(DefineParams(Checking([], 0, log), front), BindParams(front), last.name, KindOf(last.ty));
    }
  }

  /** The function with its deferred expressions written where they run. */
  function Undeferred(f: Func): Func { f.(body := Placed(true, f.body)) }

  /** When no use after a move is reported for a function, no run of it uses an own binding after it
      has been moved, whatever arms are taken; provided that nothing a deferred expression mentions is
      given away behind it in its block. */
  lemma {:induction false} MoveCheckIsSound(f: Func, log: seq<Diagnostic>, d: World)
    requires Walked(f.body) && Orderly(f.body) && RunsFunc(f, d)
    requires !Reported(CheckFunc(f, log).log)
    ensures !d.bad
  {
    hide CheckExpr, Runs, Walked, Reported, Covers, Orderly, Placed;
    ParamsSafe(f.params, log);
    PlacedHere(f.body);
    SoundExpr(false, f.body, DefineParams(Checking([], 0, log), f.params), BindParams(f.params), d);
  }

  /** Without that proviso it is the function with its deferred expressions written where they run that
      must draw no report. */
  lemma {:induction false} UndeferredCheckIsSound(f: Func, log: seq<Diagnostic>, d: World)
    requires Walked(f.body) && RunsFunc(f, d)
    requires !Reported(CheckFunc(Undeferred(f), log).log)
    ensures !d.bad
  {
    hide CheckExpr, Runs, Walked, Reported, Covers, Orderly, Placed;
    ParamsSafe(f.params, log);
    SoundExpr(true, f.body, DefineParams(Checking([], 0, log), f.params), BindParams(f.params), d);
  }

  // ----- What the walk misses -----

  /** `{ defer x; y := x }`, with an own parameter `x`. */
  function DeferThenMove(site: Span): Func
  {
    Func("f", [Param("x", OwnType(NamedType("T")))],
        Block([Defer(Path(["x"], site)), Let("y", false, None, Path(["x"], site))]))
  }

  /** What is deferred is checked where it is written, before the move, but runs after it: nothing is
      reported, and every run that gets to the end uses `x` after moving it. */
  lemma {:induction false} DeferredUseMissed(site: Span)
    ensures !Reported(CheckFunc(DeferThenMove(site), []).log)
    ensures exists d :: RunsFunc(DeferThenMove(site), d) && d.bad
  {
    var f := DeferThenMove(site);
    var c := World([Binding("x", Own, None, 0)], false, false);
    assert f.params[..0] == [];
    assert BindParams(f.params) == c;
    DeferredRuns(site, c);
    hide RunsStmts;
    var bad := World([Binding("x", Own, Some(site), 0)], true, false);
    assert RunsFunc(f, Back(bad, c));
    DeferredUseQuiet(site);
  }

  lemma {:induction false} DeferredRuns(site: Span, c: World)
    requires c == World([Binding("x", Own, None, 0)], false, false)
    ensures RunsStmts(DeferThenMove(site).body.stmts, c,
                      World([Binding("x", Own, Some(site), 0)], true, false))
  {
    var x := Path(["x"], site);
    var stmts := DeferThenMove(site).body.stmts;
    var m := World([Binding("x", Own, Some(site), 0), Binding("y", Plain, None, 0)], false, false);
    var behind := World([Binding("x", Own, Some(site), 0)], false, false);
    LetMoves(site, c);
    UseOfMoved(site, behind);
    assert m.env[..1] == [m.env[0]];
    assert Back(m, c) == behind;
    hide RunsStmt, RunsDeferred;
    assert stmts[1..] == [stmts[1]] && stmts[1..][1..] == [];
    assert RunsStmts([], m, m);
    assert RunsStmts(stmts[1..], c, m);
  }

  lemma {:induction false} LetMoves(site: Span, c: World)
    requires c == World([Binding("x", Own, None, 0)], false, false)
    ensures RunsStmt(Let("y", false, None, Path(["x"], site)), c,
                     World([Binding("x", Own, Some(site), 0), Binding("y", Plain, None, 0)], false, false))
  {
    var x := Path(["x"], site);
    assert Find(c.env, "x") == Some(0);
    assert Runs(x, c, c);
    assert GiveAway(x, c) == World([Binding("x", Own, Some(site), 0)], false, false);
  }

  lemma {:induction false} UseOfMoved(site: Span, m: World)
    requires m == World([Binding("x", Own, Some(site), 0)], false, false)
    ensures RunsDeferred(Defer(Path(["x"], site)), m, m.(bad := true))
  {
    assert Find(m.env, "x") == Some(0);
    assert Runs(Path(["x"], site), m, m.(bad := true));
    assert m.(stopped := false) == m;
  }

  lemma {:induction false} CheckTwo(s: Stmt, t: Stmt, a: Checking)
    ensures CheckStmts([s, t], a) == CheckStmt(t, CheckStmt(s, a))
  {
    hide CheckStmt;
    assert [s, t][1..] == [t] && [t][1..] == [];
    assert CheckStmts([t], CheckStmt(s, a)) == CheckStmts([], CheckStmt(t, CheckStmt(s, a)));
  }

  lemma {:induction false} DeferredUseQuiet(site: Span)
    ensures CheckFunc(DeferThenMove(site), []).log == []
  {
    var f := DeferThenMove(site);
    var stmts := f.body.stmts;
    var a := Checking([Binding("x", Own, None, 0)], 0, []);
    assert f.params[..0] == [];
    assert DefineParams(Checking([], 0, []), f.params) == a;
    CheckTwo(stmts[0], stmts[1], Enter(a));
    assert stmts == [stmts[0], stmts[1]];
    hide CheckStmts;
    assert Find(a.env, "x") == Some(0);
    assert CheckStmt(stmts[0], Enter(a)) == Enter(a);
  }

  // ----- What one pass does not see -----

  /** A loop is checked as one round of it. */
  lemma {:induction false} LoopIsOneRound(tag: Option<string>, x: Expr, body: Expr, op: string, a: Checking)
    ensures CheckExpr(Loop(tag, None, body), a) == CheckExpr(body, a)
    ensures CheckExpr(Loop(tag, Some(x), body), a) == CheckExpr(Binary(op, x, body), a)
  {
    OneStep(Loop(tag, None, body), a);
    OneStep(Loop(tag, Some(x), body), a);
    OneStep(Binary(op, x, body), a);
    assert CheckSome(Some(x), a) == CheckExpr(x, a);
  }

  /** `g(x)`, with an own `x`. */
  function Giving(site: Span): Expr { CallExpr(Path(["g"], site), [Path(["x"], site)]) }

  function WithOwn(body: Expr): Func { Func("f", [Param("x", OwnType(NamedType("T")))], body) }

  const LIVE: Bindings := [Binding("x", Own, None, 0)]

  function Gone(site: Span): Bindings { [Binding("x", Own, Some(site), 0)] }

  lemma {:induction false} GivingMoves(site: Span, depth: nat, log: seq<Diagnostic>)
    ensures CheckExpr(Giving(site), Checking(LIVE, depth, log)) == Checking(Gone(site), depth, log)
    ensures Runs(Giving(site), World(LIVE, false, false), World(Gone(site), false, false))
  {
    var a, c := Checking(LIVE, depth, log), World(LIVE, false, false);
    var g, x := Path(["g"], site), Path(["x"], site);
    assert Find(LIVE, "g") == None && Find(LIVE, "x") == Some(0) && Find(Gone(site), "x") == Some(0);
    assert CheckExpr(g, a) == a && CheckExpr(x, a) == a;
    assert HandOver(x, a) == Checking(Gone(site), depth, log);
    assert [x][1..] == [];
    assert CheckArgs([x], a) == Checking(Gone(site), depth, log);
    assert Runs(g, c, c) && Runs(x, c, c) && GiveAway(x, c) == World(Gone(site), false, false);
    assert RunsArg(x, c, World(Gone(site), false, false));
    assert RunsArgs([x], c, World(Gone(site), false, false));
  }

  lemma {:induction false} StartsOwn(body: Expr, log: seq<Diagnostic>)
    ensures DefineParams(Checking([], 0, log), WithOwn(body).params) == Checking(LIVE, 0, log)
    ensures BindParams(WithOwn(body).params) == World(LIVE, false, false)
  {
    assert WithOwn(body).params[..0] == [];
  }

  /** A second round gives away what the first one gave: a loop draws no report for that, its body written
      twice does. */
  lemma {:induction false} SecondRoundMissed(site: Span)
    ensures !Reported(CheckFunc(WithOwn(Loop(None, None, Giving(site))), []).log)
    ensures Reported(CheckFunc(WithOwn(Binary("+", Giving(site), Giving(site))), []).log)
  {
    var once, twice := Loop(None, None, Giving(site)), Binary("+", Giving(site), Giving(site));
    StartsOwn(once, []);
    StartsOwn(twice, []);
    GivingMoves(site, 0, []);
    LoopIsOneRound(None, once, Giving(site), "+", Checking(LIVE, 0, []));
    OneStep(twice, Checking(LIVE, 0, []));
    GivingGoneReported(site);
  }

  lemma {:induction false} GivingGoneReported(site: Span)
    ensures var report := Diagnostic(Error, 5001, At(site), 1);
            CheckExpr(Giving(site), Checking(Gone(site), 0, [])).log == [report, report]
    ensures Reported(CheckExpr(Giving(site), Checking(Gone(site), 0, [])).log)
  {
    var b := Checking(Gone(site), 0, []);
    var g, x := Path(["g"], site), Path(["x"], site);
    assert Find(Gone(site), "g") == None && Find(Gone(site), "x") == Some(0);
    OneStep(Giving(site), b);
    assert CheckExpr(g, b) == b;
    assert CheckExpr(x, b) == Report(b, USE_AFTER_MOVE, site);
    JustReported(b, site);
    hide Reported;
    HandOverLevel(x, CheckExpr(x, b));
    ReportsStay(CheckExpr(x, b).log, HandOver(x, CheckExpr(x, b)).log);
    assert [x][1..] == [];
    assert CheckArgs([x], b) == HandOver(x, CheckExpr(x, b));
  }

  /** Nor does the checker look into literals with parts: `g(x)` and then `[x]` draws no report, and every run
      of it uses `x` after it was moved. */
  lemma {:induction false} LiteralUseMissed(site: Span)
    ensures var f := WithOwn(Binary("+", Giving(site), ArrayLit([Path(["x"], site)])));
            !Reported(CheckFunc(f, []).log) && exists d :: RunsFunc(f, d) && d.bad
  {
    var x := Path(["x"], site);
    var body := Binary("+", Giving(site), ArrayLit([x]));
    var c, m := World(LIVE, false, false), World(Gone(site), false, false);
    StartsOwn(body, []);
    GivingMoves(site, 0, []);
    OneStep(body, Checking(LIVE, 0, []));
    OneStep(ArrayLit([x]), Checking(Gone(site), 0, []));
    assert Find(Gone(site), "x") == Some(0);
    assert Runs(x, m, m.(bad := true));
    assert [x][1..] == [];
    assert RunsAll([x], m, m.(bad := true));
    assert Runs(ArrayLit([x]), m, m.(bad := true));
    hide Runs;
    TwoRun(Giving(site), ArrayLit([x]), c, m, m.(bad := true));
    assert RunsFunc(WithOwn(body), m.(bad := true));
  }

  lemma {:induction false} TwoRun(x: Expr, y: Expr, c: World, m: World, d: World)
    requires !c.stopped && Runs(x, c, m) && Runs(y, m, d)
    ensures Runs(Binary("+", x, y), c, d)
  {
  }
}
