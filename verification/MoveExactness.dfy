/** Move checking is exact on straight bodies: a use after a move is reported if and only if some choice
    of arms makes one. */
module MoveExactness {
  import opened Wrappers
  import opened Diag
  import opened Ast
  import opened Escape
  import opened MoveCheck
  import opened MovePaths
  import opened MoveGrowth
  import opened MoveSoundness
  import opened Deferral

  // ----- Straight bodies -----

  function Listed(names: seq<string>): set<string> { set n | n in names }

  /** New names, each only once. */
  predicate Fresh(names: seq<string>, scope: set<string>)
  {
    names == [] || (Fresh(names[..|names|-1], scope) && names[|names|-1] !in scope &&
        names[|names|-1] !in names[..|names|-1])
  }

  /** No jump, nothing deferred, and no binding takes a name that is in scope. */
  predicate Straight(e: Expr, scope: set<string>)
  {
    match e
    case Block(stmts) => StraightStmts(stmts, scope)
    case Binary(_, x, y) => Straight(x, scope) && Straight(y, scope)
    case IndexExpr(x, y) => Straight(x, scope) && Straight(y, scope)
    case CallExpr(callee, args) => Straight(callee, scope) && StraightAll(args, scope)
    case Unary(_, x) => Straight(x, scope)
    case FieldExpr(x, _) => Straight(x, scope)
    case DerefExpr(x) => Straight(x, scope)
    case Propagate(x) => Straight(x, scope)
    case Branch(x, arms, _) => StraightSome(x, scope) && StraightArms(arms, scope)
    case Ret(_, _) => false
    case Jmp(_, _) => false
    case Stop(_) => false
    case Skip(_) => false
    case _ => true
  }

  predicate StraightSome(e: Option<Expr>, scope: set<string>) { e.Some? ==> Straight(e.value, scope) }

  predicate StraightAll(es: seq<Expr>, scope: set<string>)
  {
    es == [] || (Straight(es[0], scope) && StraightAll(es[1..], scope))
  }

  predicate StraightArms(arms: seq<Arm>, scope: set<string>)
  {
    arms == [] || (StraightArms(arms[..|arms|-1], scope) && StraightArm(arms[|arms|-1], scope))
  }

  predicate StraightArm(arm: Arm, scope: set<string>)
  {
    Fresh(ArmNames(arm.pattern), scope) && Straight(arm.body, scope + Listed(ArmNames(arm.pattern)))
  }

  predicate StraightStmts(stmts: seq<Stmt>, scope: set<string>)
  {
    stmts == [] || (StraightStmt(stmts[0], scope) && StraightStmts(stmts[1..], ScopeAfter(stmts[0], scope)))
  }

  function ScopeAfter(s: Stmt, scope: set<string>): set<string> { if s.Let? then scope + {s.name} else scope }

  predicate StraightStmt(s: Stmt, scope: set<string>)
  {
    match s
    case Let(name, _, _, init) => Straight(init, scope) && name !in scope
    case Assign(target, value, _) => Straight(target, scope) && Straight(value, scope)
    case Defer(_) => false
    case ExprStmt(e) => Straight(e, scope)
  }

  lemma {:induction false} NotDeferred(s: Stmt, scope: set<string>)
    requires StraightStmt(s, scope)
    ensures !s.Defer?
  {
    hide Straight;
  }

  /** With nothing deferred there is nothing to be given away behind it. */
  lemma {:induction false} StraightIsOrderly(e: Expr, scope: set<string>)
    requires Straight(e, scope)
    ensures Orderly(e)
    decreases e
  {
    hide StraightStmts, StraightAll, StraightSome, StraightArms, OrderlyStmts, OrderlyAll, OrderlySome, OrderlyArms;
    match e {
      case Block(stmts) => StraightStmtsOrderly(stmts, scope);
      case Binary(_, x, y) =>
        StraightIsOrderly(x, scope);
        StraightIsOrderly(y, scope);
      case IndexExpr(x, y) =>
        StraightIsOrderly(x, scope);
        StraightIsOrderly(y, scope);
      case CallExpr(callee, args) =>
        StraightIsOrderly(callee, scope);
        StraightAllOrderly(args, scope);
      case Unary(_, x) => StraightIsOrderly(x, scope);
      case FieldExpr(x, _) => StraightIsOrderly(x, scope);
      case DerefExpr(x) => StraightIsOrderly(x, scope);
      case Propagate(x) => StraightIsOrderly(x, scope);
      case Branch(x, arms, _) =>
        StraightSomeOrderly(x, scope);
        StraightArmsOrderly(arms, scope);
      case _ =>
    }
  }

  lemma {:induction false} StraightSomeOrderly(x: Option<Expr>, scope: set<string>)
    requires StraightSome(x, scope)
    ensures OrderlySome(x)
    decreases x
  {
    hide Straight, Orderly;
    if x.Some? {
      StraightIsOrderly(x.value, scope);
    }
  }

  lemma {:induction false} StraightAllOrderly(es: seq<Expr>, scope: set<string>)
    requires StraightAll(es, scope)
    ensures OrderlyAll(es)
    decreases es
  {
    hide Straight, Orderly;
    if es != [] {
      StraightIsOrderly(es[0], scope);
      StraightAllOrderly(es[1..], scope);
    }
  }

  lemma {:induction false} StraightArmsOrderly(arms: seq<Arm>, scope: set<string>)
    requires StraightArms(arms, scope)
    ensures OrderlyArms(arms)
    decreases arms
  {
    hide StraightArm, OrderlyArm;
    if arms != [] {
      StraightArmsOrderly(arms[..|arms|-1], scope);
      StraightArmOrderly(arms[|arms|-1], scope);
    }
  }

  lemma {:induction false} StraightArmOrderly(arm: Arm, scope: set<string>)
    requires StraightArm(arm, scope)
    ensures OrderlyArm(arm)
    decreases arm
  {
    StraightIsOrderly(arm.body, scope + Listed(ArmNames(arm.pattern)));
  }

  lemma {:induction false} StraightStmtsOrderly(stmts: seq<Stmt>, scope: set<string>)
    requires StraightStmts(stmts, scope)
    ensures OrderlyStmts(stmts)
    decreases stmts
  {
    hide StraightStmt, OrderlyStmt, ScopeAfter, MentionedStmt, GivenAwayStmts;
    if stmts != [] {
      NotDeferred(stmts[0], scope);
      StraightStmtOrderly(stmts[0], scope);
      StraightStmtsOrderly(stmts[1..], ScopeAfter(stmts[0], scope));
    }
  }

  lemma {:induction false} StraightStmtOrderly(s: Stmt, scope: set<string>)
    requires StraightStmt(s, scope)
    ensures OrderlyStmt(s)
    decreases s
  {
    hide Straight, Orderly;
    match s {
      case Let(_, _, _, init) => StraightIsOrderly(init, scope);
      case Assign(target, value, _) =>
        StraightIsOrderly(target, scope);
        StraightIsOrderly(value, scope);
      case ExprStmt(e) => StraightIsOrderly(e, scope);
    }
  }

  // ----- Bindings with distinct names -----

  /** All names differ, and are in the scope. */
  ghost predicate Distinct(env: Bindings, scope: set<string>)
  {
    (forall i, j | 0 <= i < j < |env| :: env[i].name != env[j].name) &&
        forall i | 0 <= i < |env| :: env[i].name in scope
  }

  lemma {:induction false} AllVisible(env: Bindings, scope: set<string>, k: nat)
    requires Distinct(env, scope) && k < |env|
    ensures Visible(env, k)
  {
  }

  lemma {:induction false} DistinctSame(s: Bindings, t: Bindings, scope: set<string>)
    requires Distinct(s, scope) && SameNames(s, t)
    ensures Distinct(t, scope)
  {
  }

  lemma {:induction false} DistinctLevel(a: Checking, b: Checking, scope: set<string>)
    requires Distinct(a.env, scope) && Level(a, b)
    ensures Distinct(b.env, scope)
  {
    LevelNames(a, b);
    DistinctSame(a.env, b.env, scope);
  }

  lemma {:induction false} DistinctDefine(a: Checking, name: string, kind: BindingKind, scope: set<string>)
    requires Distinct(a.env, scope) && name !in scope
    ensures Distinct(Define(a, name, kind).env, scope + {name})
  {
  }

  lemma {:induction false} DistinctDefineAll(a: Checking, names: seq<string>, scope: set<string>)
    requires Distinct(a.env, scope) && Fresh(names, scope)
    ensures Distinct(DefineAll(a, names).env, scope + Listed(names))
  {
    if names == [] {
      assert scope + Listed([]) == scope;
    } else {
      var front, last := names[..|names|-1], names[|names|-1];
      hide Distinct, Define;
      DistinctDefineAll(a, front, scope);
      assert last !in scope + Listed(front);
      DistinctDefine(DefineAll(a, front), last, Plain, scope + Listed(front));
      assert names == front + [last];
      assert scope + Listed(front) + {last} == scope + Listed(names);
    }
  }

  // ----- Worlds that are reached -----

  ghost predicate AllSafe(a: Checking, cs: iset<World>)
  {
    forall c | c in cs :: Safe(a, c)
  }

  /** Every own binding that counts as moved is moved in some world that is still running, and there is
      such a world. */
  ghost predicate Attained(env: Bindings, cs: iset<World>)
  {
    && (exists c :: c in cs && !c.stopped)
    && forall k | 0 <= k < |env| :: env[k].kind == Own && env[k].moved.Some? ==> MovedSomewhere(cs, k)
  }

  ghost predicate MovedSomewhere(cs: iset<World>, k: nat)
  {
    exists c :: c in cs && !c.stopped && k < |c.env| && c.env[k].moved.Some?
  }

  ghost predicate AnyBad(cs: iset<World>)
  {
    exists c :: c in cs && c.bad
  }

  /** From `a` to `b`, ending in the worlds `ds`: what counts as moved is attained, and a new report is
      borne out. */
  ghost predicate Exact(a: Checking, b: Checking, ds: iset<World>)
  {
    Attained(b.env, ds) && (Reported(b.log) ==> Reported(a.log) || AnyBad(ds))
  }

  lemma {:induction false} ExactTrans(a: Checking, b: Checking, c: Checking, ds: iset<World>, es: iset<World>)
    requires Exact(a, b, ds) && Exact(b, c, es) && (AnyBad(ds) ==> AnyBad(es))
    ensures Exact(a, c, es)
  {
    hide Attained, Reported, AnyBad;
  }

  lemma {:induction false} ExactMore(a: Checking, b: Checking, ds: iset<World>, es: iset<World>)
    requires Exact(a, b, ds) && ds <= es
    ensures Exact(a, b, es)
  {
    hide Reported;
    forall k | 0 <= k < |b.env| && b.env[k].kind == Own && b.env[k].moved.Some? ensures MovedSomewhere(es, k) {
      assert MovedSomewhere(ds, k);
    }
  }

  // ----- Every form can run to its end -----

  lemma {:induction false} Finish(e: Expr, scope: set<string>, c: World) returns (d: World)
    requires Walked(e) && Straight(e, scope)
    ensures Runs(e, c, d) && (!c.stopped ==> !d.stopped)
    decreases e
  {
    hide RunsStmts, RunsArgs, RunsSome, RunsArm, RunsInits, RunsAll, UseName, Back;
    hide WalkedStmts, WalkedAll, WalkedSome, WalkedArms, StraightStmts, StraightAll, StraightSome, StraightArms;
    d := c;
    if !c.stopped {
      match e {
        case Path(segments, _) =>
          d := if segments != [] then UseName(c, segments[0]) else c;
          UseRuns(c, segments);
        case Block(stmts) =>
          var m := FinishStmts(stmts, scope, c);
          d := Back(m, c);
          BackRuns(m, c);
        case Binary(_, x, y) =>
          var m := Finish(x, scope, c);
          d := Finish(y, scope, m);
        case IndexExpr(x, y) =>
          var m := Finish(x, scope, c);
          d := Finish(y, scope, m);
        case CallExpr(callee, args) =>
          var m := Finish(callee, scope, c);
          d := FinishArgs(args, scope, m);
        case Unary(_, x) => d := Finish(x, scope, c);
        case FieldExpr(x, _) => d := Finish(x, scope, c);
        case DerefExpr(x) => d := Finish(x, scope, c);
        case Propagate(x) => d := Finish(x, scope, c);
        case Branch(x, _, _) => d := FinishSome(x, scope, c);
        case _ =>
      }
    }
  }

  lemma {:induction false} UseRuns(c: World, segments: seq<string>)
    ensures segments != [] ==> UseName(c, segments[0]).stopped == c.stopped
  {
  }

  lemma {:induction false} BackRuns(m: World, c: World)
    ensures Back(m, c).stopped == m.stopped && Back(m, c).bad == m.bad
  {
  }

  lemma {:induction false} FinishSome(x: Option<Expr>, scope: set<string>, c: World) returns (d: World)
    requires WalkedSome(x) && StraightSome(x, scope)
    ensures RunsSome(x, c, d) && (!c.stopped ==> !d.stopped)
    decreases x
  {
    hide Runs, Walked, Straight;
    d := c;
    if x.Some? {
      d := Finish(x.value, scope, c);
    }
  }

  lemma {:induction false} FinishArgs(args: seq<Expr>, scope: set<string>, c: World) returns (d: World)
    requires WalkedAll(args) && StraightAll(args, scope)
    ensures RunsArgs(args, c, d) && (!c.stopped ==> !d.stopped)
    decreases args
  {
    hide Runs, Walked, Straight, GiveAway;
    d := c;
    if args != [] {
      var m := Finish(args[0], scope, c);
      GivingRuns(args[0], m);
      assert RunsArg(args[0], c, GiveAway(args[0], m));
      d := FinishArgs(args[1..], scope, GiveAway(args[0], m));
    }
  }

  lemma {:induction false} GivingRuns(e: Expr, c: World)
    ensures GiveAway(e, c).stopped == c.stopped && GiveAway(e, c).bad == c.bad
  {
  }

  lemma {:induction false} FinishStmts(stmts: seq<Stmt>, scope: set<string>, c: World) returns (d: World)
    requires WalkedStmts(stmts) && StraightStmts(stmts, scope)
    ensures RunsStmts(stmts, c, d) && (!c.stopped ==> !d.stopped)
    decreases stmts
  {
    hide RunsStmt, RunsDeferred, WalkedStmt, StraightStmt, ScopeAfter;
    d := c;
    if !c.stopped && stmts != [] {
      NotDeferred(stmts[0], scope);
      var m := FinishStmt(stmts[0], scope, c);
      d := FinishStmts(stmts[1..], ScopeAfter(stmts[0], scope), m);
    }
  }

  lemma {:induction false} FinishStmt(s: Stmt, scope: set<string>, c: World) returns (d: World)
    requires !s.Defer? && WalkedStmt(s) && StraightStmt(s, scope)
    ensures RunsStmt(s, c, d) && (!c.stopped ==> !d.stopped)
    decreases s
  {
    hide Runs, Walked, Straight, GiveAway, Bind;
    match s {
      case Let(name, _, ty, init) =>
        var m := Finish(init, scope, c);
        d := Bind(GiveAway(init, m), name, Held(ty));
        GivingRuns(init, m);
        BindRuns(GiveAway(init, m), name, Held(ty));
      case Assign(target, value, _) =>
        var m := Finish(value, scope, c);
        d := Finish(target, scope, m);
      case ExprStmt(e) => d := Finish(e, scope, c);
    }
  }

  lemma {:induction false} BindRuns(c: World, name: string, kind: BindingKind)
    ensures Bind(c, name, kind).stopped == c.stopped && Bind(c, name, kind).bad == c.bad
  {
  }

  // ----- Reached worlds, form by form -----

  ghost function After(e: Expr, cs: iset<World>): iset<World> { iset c, d | c in cs && Runs(e, c, d) :: d }

  ghost function AfterSome(
      e: Option<Expr>, cs: iset<World>): iset<World> { iset c, d | c in cs && RunsSome(e, c, d) :: d }

  ghost function AfterArgs(
      args: seq<Expr>, cs: iset<World>): iset<World> { iset c, d | c in cs && RunsArgs(args, c, d) :: d }

  ghost function AfterArm(arm: Arm, cs: iset<World>): iset<World> { iset c, d | c in cs && RunsArm(arm, c, d) :: d }

  ghost function AfterStmts(
      stmts: seq<Stmt>, cs: iset<World>): iset<World> { iset c, d | c in cs && RunsStmts(stmts, c, d) :: d }

  ghost function AfterStmt(s: Stmt, cs: iset<World>): iset<World>
    requires !s.Defer?
  {
    iset c, d | c in cs && RunsStmt(s, c, d) :: d
  }

  lemma {:induction false} SafeAfter(e: Expr, scope: set<string>, a: Checking, cs: iset<World>)
    requires Walked(e) && Straight(e, scope) && AllSafe(a, cs)
    ensures AllSafe(CheckExpr(e, a), After(e, cs))
  {
    hide Safe, Runs, CheckExpr, Walked, Straight, Orderly, Placed;
    StraightIsOrderly(e, scope);
    PlacedHere(e);
    forall d | d in After(e, cs) ensures Safe(CheckExpr(e, a), d) {
      var c :| c in cs && Runs(e, c, d);
      SoundExpr(false, e, a, c, d);
    }
  }

  lemma {:induction false} BadAfter(e: Expr, scope: set<string>, cs: iset<World>)
    requires Walked(e) && Straight(e, scope) && AnyBad(cs)
    ensures AnyBad(After(e, cs))
  {
    hide Runs, Walked, Straight, Kept, Above;
    var c :| c in cs && c.bad;
    var d := Finish(e, scope, c);
    RunsKeep(e, c, d);
    assert d in After(e, cs);
  }

  lemma {:induction false} BadAfterArgs(args: seq<Expr>, scope: set<string>, cs: iset<World>)
    requires WalkedAll(args) && StraightAll(args, scope) && AnyBad(cs)
    ensures AnyBad(AfterArgs(args, cs))
  {
    hide RunsArgs, WalkedAll, StraightAll, Kept, Above;
    var c :| c in cs && c.bad;
    var d := FinishArgs(args, scope, c);
    RunsArgsKeep(args, c, d);
    assert d in AfterArgs(args, cs);
  }

  lemma {:induction false} BadAfterStmts(stmts: seq<Stmt>, scope: set<string>, cs: iset<World>)
    requires WalkedStmts(stmts) && StraightStmts(stmts, scope) && AnyBad(cs)
    ensures AnyBad(AfterStmts(stmts, cs))
  {
    hide RunsStmts, WalkedStmts, StraightStmts, Kept, Above;
    var c :| c in cs && c.bad;
    var d := FinishStmts(stmts, scope, c);
    RunsStmtsKeep(stmts, c, d);
    assert d in AfterStmts(stmts, cs);
  }

  // ----- Steps -----

  lemma {:induction false} UseExact(a: Checking, cs: iset<World>, segments: seq<string>, site: Span)
    requires segments != [] && AllSafe(a, cs) && Attained(a.env, cs)
    ensures Exact(a, CheckUse(a, segments[0], site), After(Path(segments, site), cs))
  {
    hide Find, Report, Reported, AnyBad, Attained, Runs;
    var e, name := Path(segments, site), segments[0];
    var b, ds := CheckUse(a, name, site), After(e, cs);
    UseAttained(a.env, cs, segments, site);
    JustReported(a, site);
    var k := Find(a.env, name);
    if k.Some? && a.env[k.value].kind == Own && a.env[k.value].moved.Some? {
      MovedUseIsBad(a, cs, segments, site, k.value);
    }
  }

  lemma {:induction false} UseAttained(env: Bindings, cs: iset<World>, segments: seq<string>, site: Span)
    requires segments != [] && Attained(env, cs)
    ensures Attained(env, After(Path(segments, site), cs))
  {
    hide Find;
    var e := Path(segments, site);
    var ds := After(e, cs);
    forall c | c in cs && !c.stopped ensures UseName(c, segments[0]) in ds {
      assert Runs(e, c, UseName(c, segments[0]));
    }
    var c :| c in cs && !c.stopped;
    assert UseName(c, segments[0]) in ds;
    forall k | 0 <= k < |env| && env[k].kind == Own && env[k].moved.Some? ensures MovedSomewhere(ds, k) {
      assert MovedSomewhere(cs, k);
      var c :| c in cs && !c.stopped && k < |c.env| && c.env[k].moved.Some?;
      assert UseName(c, segments[0]) in ds;
    }
  }

  lemma {:induction false} MovedUseIsBad(a: Checking, cs: iset<World>, segments: seq<string>, site: Span, k: nat)
    requires segments != [] && AllSafe(a, cs) && Attained(a.env, cs)
    requires Find(a.env, segments[0]) == Some(k) && a.env[k].kind == Own && a.env[k].moved.Some?
    ensures AnyBad(After(Path(segments, site), cs))
  {
    hide Find, Reported;
    var e := Path(segments, site);
    assert MovedSomewhere(cs, k);
    var c :| c in cs && !c.stopped && k < |c.env| && c.env[k].moved.Some?;
    assert Safe(a, c);
    FindSame(a.env, c.env, segments[0]);
    assert Runs(e, c, UseName(c, segments[0]));
    assert UseName(c, segments[0]) in After(e, cs);
  }

  ghost function Given(e: Expr, cs: iset<World>): iset<World> { iset c | c in cs :: GiveAway(e, c) }

  lemma {:induction false} GivenSafe(init: Expr, a: Checking, cs: iset<World>)
    requires AllSafe(a, cs)
    ensures AllSafe(MoveOut(init, a), Given(init, cs)) && AllSafe(HandOver(init, a), Given(init, cs))
  {
    hide Safe, MoveOut, HandOver, GiveAway;
    forall d | d in Given(init, cs) ensures Safe(MoveOut(init, a), d) && Safe(HandOver(init, a), d) {
      var c :| c in cs && d == GiveAway(init, c);
      MoveOutSafe(init, a, c);
      HandOverSafe(init, a, c);
    }
  }

  lemma {:induction false} GivenAttained(e: Expr, a: Checking, cs: iset<World>)
    requires AllSafe(a, cs) && Attained(a.env, cs) && Root(e).Some?
    ensures Attained(MarkMoved(a.env, Root(e).value, e.span), Given(e, cs))
  {
    hide MarkMoved, Reported, Visible;
    var name := Root(e).value;
    var env, ds := MarkMoved(a.env, name, e.span), Given(e, cs);
    NamesOfMarked(a.env, name, e.span);
    var c :| c in cs && !c.stopped;
    assert GiveAway(e, c) in ds;
    forall k | 0 <= k < |env| && env[k].kind == Own && env[k].moved.Some? ensures MovedSomewhere(ds, k) {
      MarkMovedAt(a.env, name, e.span, k);
      var w := c;
      if a.env[k].moved.Some? {
        assert MovedSomewhere(cs, k);
        w :| w in cs && !w.stopped && k < |w.env| && w.env[k].moved.Some?;
      }
      assert Safe(a, w);
      MarkMovedAt(w.env, name, e.span, k);
      VisibleSame(a.env, w.env, k);
      NamesOfMarked(w.env, name, e.span);
      assert GiveAway(e, w) in ds;
    }
  }

  lemma {:induction false} MoveOutExact(init: Expr, a: Checking, cs: iset<World>)
    requires AllSafe(a, cs) && Attained(a.env, cs)
    ensures Exact(a, MoveOut(init, a), Given(init, cs))
  {
    hide MarkMoved, Reported, AnyBad;
    if Root(init).Some? {
      GivenAttained(init, a, cs);
    } else {
      SameGiven(init, cs);
    }
  }

  lemma {:induction false} SameGiven(e: Expr, cs: iset<World>)
    requires Root(e).None?
    ensures Given(e, cs) == cs
  {
    forall c | c in cs ensures c in Given(e, cs) {
      assert GiveAway(e, c) == c;
    }
  }

  /** Passing a name: the check made here repeats one that has just been made. */
  lemma {:induction false} HandOverExact(arg: Expr, scope: set<string>, a: Checking, cs: iset<World>)
    requires Walked(arg) && Straight(arg, scope) && AllSafe(a, cs) && Attained(a.env, cs)
    requires AllSafe(CheckExpr(arg, a), After(arg, cs)) && Exact(a, CheckExpr(arg, a), After(arg, cs))
    ensures Exact(a, HandOver(arg, CheckExpr(arg, a)), Given(arg, After(arg, cs)))
  {
    hide MarkMoved, Reported, AnyBad, CheckExpr, Runs, Attained, Straight, Walked, After, AllSafe;
    var b, ds := CheckExpr(arg, a), After(arg, cs);
    if AnyBad(ds) {
      GivenKeepsBad(arg, ds);
    }
    if Root(arg).Some? {
      var name := Root(arg).value;
      GivenAttained(arg, b, ds);
      RepeatedUse(arg, a);
      var again := CheckUse(b, name, arg.span);
      UseSameEnv(b, name, arg.span);
    } else {
      SameGiven(arg, ds);
    }
  }

  lemma {:induction false} UseSameEnv(a: Checking, name: string, site: Span)
    ensures CheckUse(a, name, site).env == a.env
  {
  }

  lemma {:induction false} RepeatedUse(arg: Expr, a: Checking)
    requires Root(arg).Some?
    ensures Reported(CheckUse(CheckExpr(arg, a), Root(arg).value, arg.span).log) ==> Reported(CheckExpr(arg, a).log)
  {
    hide Find, Reported;
    JustReported(a, arg.span);
  }

  lemma {:induction false} GivenKeepsBad(e: Expr, cs: iset<World>)
    requires AnyBad(cs)
    ensures AnyBad(Given(e, cs))
  {
    var c :| c in cs && c.bad;
    GivingRuns(e, c);
    assert GiveAway(e, c) in Given(e, cs);
  }

  // ----- Every form -----

  ghost predicate Ready(a: Checking, scope: set<string>, cs: iset<World>)
  {
    Distinct(a.env, scope) && AllSafe(a, cs) && Attained(a.env, cs)
  }

  lemma {:induction false} ReadyAfter(e: Expr, scope: set<string>, a: Checking, cs: iset<World>)
    requires Walked(e) && Straight(e, scope) && Ready(a, scope, cs) && Exact(a, CheckExpr(e, a), After(e, cs))
    ensures Ready(CheckExpr(e, a), scope, After(e, cs))
  {
    hide Walked, Straight, CheckExpr, After, Distinct, AllSafe, Attained, Reported, AnyBad;
    CheckLevel(e, a);
    DistinctLevel(a, CheckExpr(e, a), scope);
    SafeAfter(e, scope, a, cs);
  }

  lemma {:induction false} ExactExpr(e: Expr, scope: set<string>, a: Checking, cs: iset<World>)
    requires Walked(e) && Straight(e, scope) && Ready(a, scope, cs)
    ensures Exact(a, CheckExpr(e, a), After(e, cs))
    decreases e, 2
  {
    OneStep(e, a);
    hide Runs, CheckExpr, Ready, Exact, After, AfterSome, AfterArgs, AfterStmts;
    hide CheckStmts, CheckRet, CheckArgs, CheckUse, CheckSome, CheckBranch, Leave, Enter;
    hide WalkedStmts, WalkedAll, WalkedSome, WalkedArms, StraightStmts, StraightAll, StraightSome, StraightArms;
    match e {
      case Path(segments, site) => ExactPath(e, scope, a, cs);
      case Block(stmts) => ExactBlock(stmts, scope, a, cs);
      case Binary(_, x, y) =>
        ExactTwo(e, x, y, scope, a, cs);
        ExactMore(a, CheckExpr(e, a), After(y, After(x, cs)), After(e, cs));
      case IndexExpr(x, y) =>
        ExactTwo(e, x, y, scope, a, cs);
        ExactMore(a, CheckExpr(e, a), After(y, After(x, cs)), After(e, cs));
      case CallExpr(callee, args) => ExactCall(e, callee, args, scope, a, cs);
      case Unary(_, x) =>
        ExactExpr(x, scope, a, cs);
        SameAfter(e, x, cs);
      case FieldExpr(x, _) =>
        ExactExpr(x, scope, a, cs);
        SameAfter(e, x, cs);
      case DerefExpr(x) =>
        ExactExpr(x, scope, a, cs);
        SameAfter(e, x, cs);
      case Propagate(x) =>
        ExactExpr(x, scope, a, cs);
        SameAfter(e, x, cs);
        ExactMore(a, CheckExpr(e, a), After(x, cs), After(e, cs));
      case Branch(x, arms, site) => ExactBranchExpr(e, x, arms, site, scope, a, cs);
      case _ => ExactNothing(e, scope, a, cs);
    }
  }

  lemma {:induction false} ExactNothing(e: Expr, scope: set<string>, a: Checking, cs: iset<World>)
    requires e.IntLit? || e.FloatLit? || e.StrLit? || e.BoolLit? || e.NilLit?
    requires Ready(a, scope, cs)
    ensures Exact(a, a, After(e, cs))
  {
    hide Distinct, AllSafe, Attained, Reported, AnyBad;
    QuietAfter(e, cs);
  }

  lemma {:induction false} QuietAfter(e: Expr, cs: iset<World>)
    requires forall c, d :: Runs(e, c, d) <==> d == c
    ensures After(e, cs) == cs
  {
    hide Runs;
    forall c | c in cs ensures c in After(e, cs) {
      assert Runs(e, c, c);
    }
  }

  lemma {:induction false} ExactPath(e: Expr, scope: set<string>, a: Checking, cs: iset<World>)
    requires e.Path? && Ready(a, scope, cs)
    ensures Exact(a, if e.segments != [] then CheckUse(a, e.segments[0], e.span) else a, After(e, cs))
  {
    hide Distinct, AllSafe, Attained, Reported, AnyBad, CheckUse, UseName;
    if e.segments == [] {
      QuietAfter(e, cs);
    } else {
      UseExact(a, cs, e.segments, e.span);
    }
  }

  /** A form with one part runs as that part does; a propagation may also leave. */
  lemma {:induction false} SameAfter(e: Expr, x: Expr, cs: iset<World>)
    requires match e { case Unary(_, y) => x == y case FieldExpr(y, _) => x == y case DerefExpr(y) => x == y
               case Propagate(y) => x == y case _ => false }
    ensures After(x, cs) <= After(e, cs) && (!e.Propagate? ==> After(x, cs) == After(e, cs))
  {
    forall c, d | c in cs && Runs(x, c, d) ensures Runs(e, c, d) {
      OnlyStays(x, c, d);
    }
    forall c, d | c in cs && Runs(e, c, d) && !e.Propagate? ensures Runs(x, c, d) {
      OnlyStays(e, c, d);
      if c.stopped {
        StopsStay(x, c);
      }
    }
  }

  lemma {:induction false} ExactTwo(e: Expr, x: Expr, y: Expr, scope: set<string>, a: Checking, cs: iset<World>)
    requires (e.Binary? && e.lhs == x && e.rhs == y) || (e.IndexExpr? && e.base == x && e.index == y)
    requires Walked(x) && Walked(y) && Straight(x, scope) && Straight(y, scope) && Ready(a, scope, cs)
    ensures Exact(a, CheckExpr(y, CheckExpr(x, a)), After(y, After(x, cs)))
    ensures After(y, After(x, cs)) <= After(e, cs)
    decreases e, 1
  {
    TwoAfter(e, x, y, cs);
    hide *;
    var b, ds := CheckExpr(x, a), After(x, cs);
    ExactExpr(x, scope, a, cs);
    ReadyAfter(x, scope, a, cs);
    ExactExpr(y, scope, b, ds);
    if AnyBad(ds) {
      BadAfter(y, scope, ds);
    }
    ExactTrans(a, b, CheckExpr(y, b), ds, After(y, ds));
  }

  lemma {:induction false} TwoAfter(e: Expr, x: Expr, y: Expr, cs: iset<World>)
    requires (e.Binary? && e.lhs == x && e.rhs == y) || (e.IndexExpr? && e.base == x && e.index == y)
    ensures After(y, After(x, cs)) <= After(e, cs)
  {
    hide Runs;
    forall d | d in After(y, After(x, cs)) ensures d in After(e, cs) {
      var m :| m in After(x, cs) && Runs(y, m, d);
      var c :| c in cs && Runs(x, c, m);
      TwoRuns(e, x, y, c, m, d);
    }
  }

  lemma {:induction false} TwoRuns(e: Expr, x: Expr, y: Expr, c: World, m: World, d: World)
    requires (e.Binary? && e.lhs == x && e.rhs == y) || (e.IndexExpr? && e.base == x && e.index == y)
    requires Runs(x, c, m) && Runs(y, m, d)
    ensures Runs(e, c, d)
  {
    OnlyStays(x, c, m);
    OnlyStays(y, m, d);
  }

  // ----- Calls -----

  lemma {:induction false} ExactCall(
      e: Expr, callee: Expr, args: seq<Expr>, scope: set<string>, a: Checking, cs: iset<World>)
    requires e == CallExpr(callee, args)
    requires Walked(callee) && WalkedAll(args) && Straight(callee, scope) && StraightAll(args, scope) &&
             Ready(a, scope, cs)
    ensures Exact(a, CheckArgs(args, CheckExpr(callee, a)), After(e, cs))
    decreases e, 1
  {
    CallAfter(e, callee, args, cs);
    hide *;
    var b, ds := CheckExpr(callee, a), After(callee, cs);
    ExactExpr(callee, scope, a, cs);
    ReadyAfter(callee, scope, a, cs);
    ExactArgs(args, scope, b, ds);
    if AnyBad(ds) {
      BadAfterArgs(args, scope, ds);
    }
    ExactTrans(a, b, CheckArgs(args, b), ds, AfterArgs(args, ds));
    ExactMore(a, CheckArgs(args, b), AfterArgs(args, ds), After(e, cs));
  }

  lemma {:induction false} CallAfter(e: Expr, callee: Expr, args: seq<Expr>, cs: iset<World>)
    requires e == CallExpr(callee, args)
    ensures AfterArgs(args, After(callee, cs)) <= After(e, cs)
  {
    forall d | d in AfterArgs(args, After(callee, cs)) ensures d in After(e, cs) {
      var m :| m in After(callee, cs) && RunsArgs(args, m, d);
      var c :| c in cs && Runs(callee, c, m);
      OnlyStays(callee, c, m);
      ArgsStay(args, m, d);
      assert Runs(e, c, d);
    }
  }

  lemma {:induction false} ArgsStay(args: seq<Expr>, c: World, d: World)
    requires RunsArgs(args, c, d)
    ensures c.stopped ==> d == c
  {
    hide Runs;
    if args != [] {
      var m :| RunsArg(args[0], c, m) && RunsArgs(args[1..], m, d);
      var p :| Runs(args[0], c, p) && m == GiveAway(args[0], p);
      OnlyStays(args[0], c, p);
      ArgsStay(args[1..], m, d);
    }
  }

  lemma {:induction false} ExactArgs(args: seq<Expr>, scope: set<string>, a: Checking, cs: iset<World>)
    requires WalkedAll(args) && StraightAll(args, scope) && Ready(a, scope, cs)
    ensures Exact(a, CheckArgs(args, a), AfterArgs(args, cs))
    decreases args
  {
    hide CheckExpr, HandOver, Runs, RunsArg, Walked, Straight, Ready, Exact, AnyBad, After, Given;
    if args == [] {
      NoArgs(cs);
      ExactStays(a, scope, cs);
    } else {
      var b := HandOver(args[0], CheckExpr(args[0], a));
      var ds := Given(args[0], After(args[0], cs));
      ExactArg(args[0], scope, a, cs);
      ExactArgs(args[1..], scope, b, ds);
      if AnyBad(ds) {
        BadAfterArgs(args[1..], scope, ds);
      }
      ExactTrans(a, b, CheckArgs(args, a), ds, AfterArgs(args[1..], ds));
      ArgsAfter(args, cs);
      ExactMore(a, CheckArgs(args, a), AfterArgs(args[1..], ds), AfterArgs(args, cs));
    }
  }

  lemma {:induction false} NoArgs(cs: iset<World>)
    ensures AfterArgs([], cs) == cs
  {
    forall c | c in cs ensures c in AfterArgs([], cs) {
      assert RunsArgs([], c, c);
    }
  }

  lemma {:induction false} ExactStays(a: Checking, scope: set<string>, cs: iset<World>)
    requires Ready(a, scope, cs)
    ensures Exact(a, a, cs)
  {
    hide Distinct, AllSafe, Attained, Reported, AnyBad;
  }

  lemma {:induction false} ArgsAfter(args: seq<Expr>, cs: iset<World>)
    requires args != []
    ensures AfterArgs(args[1..], Given(args[0], After(args[0], cs))) <= AfterArgs(args, cs)
  {
    hide Runs, GiveAway;
    var ds := Given(args[0], After(args[0], cs));
    forall d | d in AfterArgs(args[1..], ds) ensures d in AfterArgs(args, cs) {
      var m :| m in ds && RunsArgs(args[1..], m, d);
      var p :| p in After(args[0], cs) && m == GiveAway(args[0], p);
      var c :| c in cs && Runs(args[0], c, p);
      assert RunsArg(args[0], c, m);
      assert RunsArgs(args, c, d);
    }
  }

  lemma {:induction false} ExactArg(arg: Expr, scope: set<string>, a: Checking, cs: iset<World>)
    requires Walked(arg) && Straight(arg, scope) && Ready(a, scope, cs)
    ensures var b, ds := HandOver(arg, CheckExpr(arg, a)), Given(arg, After(arg, cs));
            Exact(a, b, ds) && Ready(b, scope, ds)
    decreases arg, 3
  {
    hide CheckExpr, HandOver, Walked, Straight, Distinct, AllSafe, Attained, After, Given, Reported, AnyBad, Level;
    ExactExpr(arg, scope, a, cs);
    ReadyAfter(arg, scope, a, cs);
    HandOverExact(arg, scope, a, cs);
    GivenSafe(arg, CheckExpr(arg, a), After(arg, cs));
    HandOverLevel(arg, CheckExpr(arg, a));
    DistinctLevel(CheckExpr(arg, a), HandOver(arg, CheckExpr(arg, a)), scope);
  }

  // ----- Blocks -----

  lemma {:induction false} ExactBlock(stmts: seq<Stmt>, scope: set<string>, a: Checking, cs: iset<World>)
    requires WalkedStmts(stmts) && StraightStmts(stmts, scope) && Ready(a, scope, cs)
    ensures Exact(a, Leave(CheckStmts(stmts, Enter(a)), a), After(Block(stmts), cs))
    decreases stmts, 1
  {
    hide CheckStmts, Leave, Enter, WalkedStmts, StraightStmts, Ready, Exact, AfterStmts, After;
    EnterReady(a, scope, cs);
    ExactStmts(stmts, scope, Enter(a), cs);
    CheckStmtsGrow(stmts, Enter(a));
    LeaveExact(stmts, scope, a, CheckStmts(stmts, Enter(a)), cs);
  }

  lemma {:induction false} EnterReady(a: Checking, scope: set<string>, cs: iset<World>)
    requires Ready(a, scope, cs)
    ensures Ready(Enter(a), scope, cs)
  {
    hide Distinct, Attained, Safe;
    forall c | c in cs ensures Safe(Enter(a), c) {
      EnterSafe(a, c);
    }
  }

  lemma {:induction false} LeaveExact(stmts: seq<Stmt>, scope: set<string>, a: Checking, b: Checking, cs: iset<World>)
    requires Ready(a, scope, cs) && Grown(Enter(a), b) && Exact(Enter(a), b, AfterStmts(stmts, cs))
    ensures Exact(a, Leave(b, a), After(Block(stmts), cs))
  {
    hide Distinct, Reported, RunsStmts, Safe, AfterStmts, After, MovedSomewhere;
    var ds, es := AfterStmts(stmts, cs), After(Block(stmts), cs);
    var d :| d in ds && !d.stopped;
    var c := BackReached(stmts, cs, d);
    forall k | 0 <= k < |a.env| && b.env[k].kind == Own && b.env[k].moved.Some? ensures MovedSomewhere(es, k) {
      MovedBack(stmts, a, cs, k);
    }
    if AnyBad(ds) {
      var w :| w in ds && w.bad;
      var o := BackReached(stmts, cs, w);
    }
  }

  lemma {:induction false} BackReached(stmts: seq<Stmt>, cs: iset<World>, d: World) returns (c: World)
    requires d in AfterStmts(stmts, cs)
    ensures c in cs && RunsStmts(stmts, c, d) && Back(d, c) in After(Block(stmts), cs)
    ensures Back(d, c).stopped == d.stopped && Back(d, c).bad == d.bad
  {
    hide RunsStmts, Runs, Back;
    c :| c in cs && RunsStmts(stmts, c, d);
    BlockRuns(stmts, c, d);
    BackRuns(d, c);
  }

  lemma {:induction false} MovedBack(stmts: seq<Stmt>, a: Checking, cs: iset<World>, k: nat)
    requires AllSafe(a, cs) && k < |a.env| && MovedSomewhere(AfterStmts(stmts, cs), k)
    ensures MovedSomewhere(After(Block(stmts), cs), k)
  {
    hide RunsStmts, AfterStmts, After, Reported, Kept, Visible;
    var w :| w in AfterStmts(stmts, cs) && !w.stopped && k < |w.env| && w.env[k].moved.Some?;
    var c := BackReached(stmts, cs, w);
    RunsStmtsKeep(stmts, c, w);
    assert Safe(a, c);
    assert k < |Back(w, c).env| && Back(w, c).env[k] == w.env[k];
  }

  lemma {:induction false} BlockRuns(stmts: seq<Stmt>, c: World, d: World)
    requires RunsStmts(stmts, c, d)
    ensures Runs(Block(stmts), c, Back(d, c))
  {
    if c.stopped {
      assert d == c;
      assert c.env[..|c.env|] == c.env;
    }
  }

  lemma {:induction false} ExactStmts(stmts: seq<Stmt>, scope: set<string>, a: Checking, cs: iset<World>)
    requires WalkedStmts(stmts) && StraightStmts(stmts, scope) && Ready(a, scope, cs)
    ensures Exact(a, CheckStmts(stmts, a), AfterStmts(stmts, cs))
    decreases stmts, 0
  {
    hide CheckStmt, RunsStmt, RunsDeferred, WalkedStmt, StraightStmt, Ready, Exact, AnyBad, AfterStmt, ScopeAfter;
    if stmts == [] {
      NoStmts(cs);
      ExactStays(a, scope, cs);
    } else {
      NotDeferred(stmts[0], scope);
      var b, ds := CheckStmt(stmts[0], a), AfterStmt(stmts[0], cs);
      ExactStmt(stmts[0], scope, a, cs);
      ExactStmts(stmts[1..], ScopeAfter(stmts[0], scope), b, ds);
      if AnyBad(ds) {
        BadAfterStmts(stmts[1..], ScopeAfter(stmts[0], scope), ds);
      }
      ExactTrans(a, b, CheckStmts(stmts, a), ds, AfterStmts(stmts[1..], ds));
      StmtsAfter(stmts, cs);
      ExactMore(a, CheckStmts(stmts, a), AfterStmts(stmts[1..], ds), AfterStmts(stmts, cs));
    }
  }

  lemma {:induction false} NoStmts(cs: iset<World>)
    ensures AfterStmts([], cs) == cs
  {
    forall c | c in cs ensures c in AfterStmts([], cs) {
      assert RunsStmts([], c, c);
    }
  }

  lemma {:induction false} StmtsAfter(stmts: seq<Stmt>, cs: iset<World>)
    requires stmts != [] && !stmts[0].Defer?
    ensures AfterStmts(stmts[1..], AfterStmt(stmts[0], cs)) <= AfterStmts(stmts, cs)
  {
    hide Runs, GiveAway;
    var ds := AfterStmt(stmts[0], cs);
    forall d | d in AfterStmts(stmts[1..], ds) ensures d in AfterStmts(stmts, cs) {
      var m :| m in ds && RunsStmts(stmts[1..], m, d);
      var c :| c in cs && RunsStmt(stmts[0], c, m);
      StmtStays(stmts[0], c, m);
      assert RunsStmts(stmts, c, d);
    }
  }

  lemma {:induction false} StmtStays(s: Stmt, c: World, d: World)
    requires !s.Defer? && RunsStmt(s, c, d)
    ensures c.stopped ==> d == c
  {
    hide Runs;
    match s {
      case Let(name, _, ty, init) =>
        var m :| Runs(init, c, m) && d == Bind(GiveAway(init, m), name, Held(ty));
        OnlyStays(init, c, m);
      case Assign(target, value, _) =>
        var m :| Runs(value, c, m) && Runs(target, m, d);
        OnlyStays(value, c, m);
        OnlyStays(target, m, d);
      case ExprStmt(e) => OnlyStays(e, c, d);
    }
  }

  lemma {:induction false} ExactStmt(s: Stmt, scope: set<string>, a: Checking, cs: iset<World>)
    requires !s.Defer? && WalkedStmt(s) && StraightStmt(s, scope) && Ready(a, scope, cs)
    ensures Exact(a, CheckStmt(s, a), AfterStmt(s, cs)) &&
            Ready(CheckStmt(s, a), ScopeAfter(s, scope), AfterStmt(s, cs))
    decreases s
  {
    hide Runs, CheckExpr, Walked, Straight, Ready, Exact, After, AfterStmt, CheckStore, MoveOut, Define;
    match s {
      case Let(name, _, ty, init) =>
        ExactExpr(init, scope, a, cs);
        ReadyAfter(init, scope, a, cs);
        LetExact(s, scope, a, cs);
      case Assign(target, value, site) =>
        ExactExpr(value, scope, a, cs);
        ReadyAfter(value, scope, a, cs);
        StoreExact(s, scope, CheckExpr(value, a), After(value, cs));
        ExactExpr(target, scope, CheckStore(target, value, CheckExpr(value, a), site), After(value, cs));
        ReadyAfter(target, scope, CheckStore(target, value, CheckExpr(value, a), site), After(value, cs));
        AssignExact(s, scope, a, cs);
      case ExprStmt(e) =>
        ExactExpr(e, scope, a, cs);
        ReadyAfter(e, scope, a, cs);
        SameStmt(s, cs);
    }
  }

  lemma {:induction false} SameStmt(s: Stmt, cs: iset<World>)
    requires s.ExprStmt?
    ensures AfterStmt(s, cs) == After(s.expr, cs)
  {
    hide Runs;
    forall c, d | c in cs ensures RunsStmt(s, c, d) <==> Runs(s.expr, c, d) {
    }
  }

  lemma {:induction false} StoreExact(s: Stmt, scope: set<string>, a: Checking, cs: iset<World>)
    requires s.Assign? && Ready(a, scope, cs)
    ensures var b := CheckStore(s.target, s.value, a, s.span); Ready(b, scope, cs) && Exact(a, b, cs)
  {
    hide Safe, Distinct, Attained, AnyBad, Level;
    var b := CheckStore(s.target, s.value, a, s.span);
    StoreLevel(s.target, s.value, a, s.span);
    forall c | c in cs ensures Safe(b, c) {
      SafeUp(a, b, c);
    }
    if Reported(b.log) {
      var i :| 0 <= i < |b.log| && b.log[i].code == 5001 && b.log[i].severity == Error;
      assert a.log[i].code == 5001;
    }
  }

  lemma {:induction false} AssignExact(s: Stmt, scope: set<string>, a: Checking, cs: iset<World>)
    requires s.Assign? && Walked(s.target) && Straight(s.target, scope)
    requires var b, ds := CheckExpr(s.value, a), After(s.value, cs);
             var c := CheckStore(s.target, s.value, b, s.span);
             && Exact(a, b, ds) && Exact(b, c, ds)
             && Exact(c, CheckExpr(s.target, c), After(s.target, ds)) &&
                Ready(CheckExpr(s.target, c), scope, After(s.target, ds))
    ensures Exact(a, CheckStmt(s, a), AfterStmt(s, cs)) && Ready(CheckStmt(s, a), scope, AfterStmt(s, cs))
  {
    AssignAfter(s, cs);
    hide CheckExpr, CheckStore, After, AfterStmt, Exact, Ready, AnyBad, Walked, Straight;
    var b, ds := CheckExpr(s.value, a), After(s.value, cs);
    var c := CheckStore(s.target, s.value, b, s.span);
    ExactTrans(a, b, c, ds, ds);
    if AnyBad(ds) {
      BadAfter(s.target, scope, ds);
    }
    ExactTrans(a, c, CheckExpr(s.target, c), ds, After(s.target, ds));
  }

  lemma {:induction false} AssignAfter(s: Stmt, cs: iset<World>)
    requires s.Assign?
    ensures AfterStmt(s, cs) == After(s.target, After(s.value, cs))
  {
    hide Runs;
    forall d | d in After(s.target, After(s.value, cs)) ensures d in AfterStmt(s, cs) {
      var m :| m in After(s.value, cs) && Runs(s.target, m, d);
      var c :| c in cs && Runs(s.value, c, m);
      assert RunsStmt(s, c, d);
    }
    forall d | d in AfterStmt(s, cs) ensures d in After(s.target, After(s.value, cs)) {
      var c :| c in cs && RunsStmt(s, c, d);
      var m := AssignRuns(s, c, d);
      assert m in After(s.value, cs);
    }
  }

  lemma {:induction false} AssignRuns(s: Stmt, c: World, d: World) returns (m: World)
    requires s.Assign? && RunsStmt(s, c, d)
    ensures Runs(s.value, c, m) && Runs(s.target, m, d)
  {
    hide Runs;
    match s {
      case Assign(target, value, _) => m :| Runs(value, c, m) && Runs(target, m, d);
    }
  }

  ghost function Bound(
      name: string, kind: BindingKind, cs: iset<World>): iset<World> { iset c | c in cs :: Bind(c, name, kind) }

  lemma {:induction false} BoundReady(a: Checking, scope: set<string>, cs: iset<World>, name: string, kind: BindingKind)
    requires Ready(a, scope, cs) && name !in scope
    ensures Ready(Define(a, name, kind), scope + {name}, Bound(name, kind, cs))
    ensures AnyBad(cs) ==> AnyBad(Bound(name, kind, cs))
  {
    hide Distinct, Safe;
    var b, ds := Define(a, name, kind), Bound(name, kind, cs);
    DistinctDefine(a, name, kind, scope);
    forall c | c in cs ensures Safe(b, Bind(c, name, kind)) && Bind(c, name, kind) in ds {
      DefineSafe(a, c, name, kind);
    }
    var c :| c in cs && !c.stopped;
    assert Bind(c, name, kind) in ds;
    forall k | 0 <= k < |b.env| && b.env[k].kind == Own && b.env[k].moved.Some? ensures MovedSomewhere(ds, k) {
      assert MovedSomewhere(cs, k);
      var w :| w in cs && !w.stopped && k < |w.env| && w.env[k].moved.Some?;
      assert Bind(w, name, kind) in ds;
    }
    if AnyBad(cs) {
      var w :| w in cs && w.bad;
      BindRuns(w, name, kind);
      assert Bind(w, name, kind) in ds;
    }
  }

  lemma {:induction false} LetExact(s: Stmt, scope: set<string>, a: Checking, cs: iset<World>)
    requires s.Let? && s.name !in scope
    requires Exact(a, CheckExpr(s.init, a), After(s.init, cs)) && Ready(CheckExpr(s.init, a), scope, After(s.init, cs))
    ensures Exact(a, CheckStmt(s, a), AfterStmt(s, cs))
    ensures Ready(CheckStmt(s, a), scope + {s.name}, AfterStmt(s, cs))
  {
    LetAfter(s, cs);
    hide CheckExpr, MoveOut, After, AfterStmt, Given, Bound, AnyBad, Reported, Distinct, AllSafe, Attained, Level;
    var b, ds := CheckExpr(s.init, a), After(s.init, cs);
    var c, es := MoveOut(s.init, b), Given(s.init, ds);
    MoveOutExact(s.init, b, ds);
    GivenSafe(s.init, b, ds);
    MoveOutLevel(s.init, b);
    DistinctLevel(b, c, scope);
    if AnyBad(ds) {
      GivenKeepsBad(s.init, ds);
    }
    BoundReady(c, scope, es, s.name, Held(s.ty));
  }

  lemma {:induction false} LetAfter(s: Stmt, cs: iset<World>)
    requires s.Let?
    ensures AfterStmt(s, cs) == Bound(s.name, Held(s.ty), Given(s.init, After(s.init, cs)))
  {
    hide Runs, GiveAway, Bind;
    var es := Bound(s.name, Held(s.ty), Given(s.init, After(s.init, cs)));
    forall d | d in AfterStmt(s, cs) ensures d in es {
      var c :| c in cs && RunsStmt(s, c, d);
      var m :| Runs(s.init, c, m) && d == Bind(GiveAway(s.init, m), s.name, Held(s.ty));
      assert m in After(s.init, cs);
      assert GiveAway(s.init, m) in Given(s.init, After(s.init, cs));
    }
    forall d | d in es ensures d in AfterStmt(s, cs) {
      var g :| g in Given(s.init, After(s.init, cs)) && d == Bind(g, s.name, Held(s.ty));
      var m :| m in After(s.init, cs) && g == GiveAway(s.init, m);
      var c :| c in cs && Runs(s.init, c, m);
      assert RunsStmt(s, c, d);
    }
  }

  // ----- Branches -----

  lemma {:induction false} StraightArmAt(arms: seq<Arm>, scope: set<string>, i: nat)
    requires StraightArms(arms, scope) && i < |arms|
    ensures StraightArm(arms[i], scope)
  {
    hide StraightArm;
    if i < |arms| - 1 {
      StraightArmAt(arms[..|arms|-1], scope, i);
    }
  }

  ghost function BoundAll(names: seq<string>, cs: iset<World>): iset<World> { iset c | c in cs :: BindAll(c, names) }

  lemma {:induction false} BoundAllReady(a: Checking, scope: set<string>, cs: iset<World>, names: seq<string>)
    requires Ready(a, scope, cs) && Fresh(names, scope)
    ensures Ready(DefineAll(a, names), scope + Listed(names), BoundAll(names, cs))
  {
    hide Distinct, Safe, Fresh, MovedSomewhere;
    var b, ds := DefineAll(a, names), BoundAll(names, cs);
    DistinctDefineAll(a, names, scope);
    forall c | c in cs ensures Safe(b, BindAll(c, names)) && BindAll(c, names) in ds {
      DefineAllSafe(a, c, names);
    }
    var c :| c in cs && !c.stopped;
    BindAllKeeps(c, names);
    assert BindAll(c, names) in ds;
    DefineAllEnv(a, names);
    forall k | 0 <= k < |b.env| && b.env[k].kind == Own && b.env[k].moved.Some? ensures MovedSomewhere(ds, k) {
      BoundMoved(cs, names, k);
    }
  }

  lemma {:induction false} BoundMoved(cs: iset<World>, names: seq<string>, k: nat)
    requires MovedSomewhere(cs, k)
    ensures MovedSomewhere(BoundAll(names, cs), k)
  {
    var w :| w in cs && !w.stopped && k < |w.env| && w.env[k].moved.Some?;
    BindAllEnv(w, names);
    assert BindAll(w, names) in BoundAll(names, cs);
  }

  lemma {:induction false} BindAllEnv(c: World, names: seq<string>)
    ensures BindAll(c, names).stopped == c.stopped && c.env <= BindAll(c, names).env
  {
    if names != [] {
      BindAllEnv(c, names[..|names|-1]);
    }
  }

  lemma {:induction false} DefineAllEnv(a: Checking, names: seq<string>)
    ensures var b := DefineAll(a, names);
            && a.env <= b.env && b.log == a.log
            && forall k | |a.env| <= k < |b.env| :: b.env[k].kind == Plain
  {
    if names != [] {
      DefineAllEnv(a, names[..|names|-1]);
    }
  }

  lemma {:induction false} ExactWholeArm(arm: Arm, scope: set<string>, a: Checking, cs: iset<World>)
    requires WalkedArm(arm) && StraightArm(arm, scope) && Ready(a, scope, cs)
    ensures Exact(a, CheckArm(arm, a), AfterArm(arm, cs))
    decreases arm
  {
    var names := ArmNames(arm.pattern);
    var start, from := DefineAll(Enter(a), names), BoundAll(names, cs);
    EnterReady(a, scope, cs);
    hide Ready, Exact, CheckExpr, Walked, Straight, Distinct, AllSafe, Attained, After, AfterArm, DefineAll;
    hide BoundAll, Leave, Grown, Level;
    BoundAllReady(Enter(a), scope, cs, names);
    ExactExpr(arm.body, scope + Listed(names), start, from);
    CheckLevel(arm.body, start);
    DefineAllGrown(Enter(a), names);
    LevelIsGrown(start, CheckExpr(arm.body, start));
    GrownTrans(Enter(a), start, CheckExpr(arm.body, start));
    DefineAllEnv(Enter(a), names);
    LeaveArmExact(arm, scope, a, start, CheckExpr(arm.body, start), cs);
  }

  lemma {:induction false} LeaveArmExact(
      arm: Arm, scope: set<string>, a: Checking, start: Checking, b: Checking, cs: iset<World>)
    requires Ready(a, scope, cs) && Grown(Enter(a), b) && start.log == a.log
    requires Exact(start, b, After(arm.body, BoundAll(ArmNames(arm.pattern), cs)))
    ensures Exact(a, Leave(b, a), AfterArm(arm, cs))
  {
    hide Distinct, Reported, Safe, After, AfterArm, BoundAll, MovedSomewhere;
    var ds, es := After(arm.body, BoundAll(ArmNames(arm.pattern), cs)), AfterArm(arm, cs);
    var d :| d in ds && !d.stopped;
    var c := ArmBack(arm, cs, d);
    forall k | 0 <= k < |a.env| && b.env[k].kind == Own && b.env[k].moved.Some? ensures MovedSomewhere(es, k) {
      MovedArmBack(arm, a, cs, k);
    }
    if AnyBad(ds) {
      var w :| w in ds && w.bad;
      var o := ArmBack(arm, cs, w);
    }
  }

  lemma {:induction false} ArmBack(arm: Arm, cs: iset<World>, d: World) returns (c: World)
    requires d in After(arm.body, BoundAll(ArmNames(arm.pattern), cs))
    ensures c in cs && Runs(arm.body, BindAll(c, ArmNames(arm.pattern)), d) && Back(d, c) in AfterArm(arm, cs)
    ensures Back(d, c).stopped == d.stopped && Back(d, c).bad == d.bad
  {
    hide Runs, Back, BindAll;
    var names := ArmNames(arm.pattern);
    var m :| m in BoundAll(names, cs) && Runs(arm.body, m, d);
    c :| c in cs && m == BindAll(c, names);
    assert RunsArm(arm, c, Back(d, c));
    BackRuns(d, c);
  }

  lemma {:induction false} MovedArmBack(arm: Arm, a: Checking, cs: iset<World>, k: nat)
    requires AllSafe(a, cs) && k < |a.env| && MovedSomewhere(After(arm.body, BoundAll(ArmNames(arm.pattern), cs)), k)
    ensures MovedSomewhere(AfterArm(arm, cs), k)
  {
    hide Runs, After, AfterArm, BoundAll, Reported, Kept, Visible, BindAll;
    var names := ArmNames(arm.pattern);
    var w :| w in After(arm.body, BoundAll(names, cs)) && !w.stopped && k < |w.env| && w.env[k].moved.Some?;
    var c := ArmBack(arm, cs, w);
    RunsKeep(arm.body, BindAll(c, names), w);
    BindAllKeeps(c, names);
    assert Safe(a, c);
    assert k < |Back(w, c).env| && Back(w, c).env[k] == w.env[k];
  }

  /** Where an arm starts, all own bindings are as before the branch. */
  lemma {:induction false} StartReady(a: Checking, start: Checking, scope: set<string>, cs: iset<World>)
    requires Ready(a, scope, cs) && Level(a, start) && SameStates(a.env, start.env)
    ensures Ready(start, scope, cs)
  {
    hide Distinct, Safe, Visible, Level, MovedSomewhere;
    DistinctLevel(a, start, scope);
    forall c | c in cs ensures Safe(start, c) {
      SafeUp(a, start, c);
    }
    forall k | 0 <= k < |start.env| && start.env[k].kind == Own && start.env[k].moved.Some?
      ensures MovedSomewhere(cs, k)
    {
      AllVisible(a.env, scope, k);
    }
  }

  /** The worlds in which a branch can end: no arm, or any of the arms. */
  ghost function AfterAny(arms: seq<Arm>, cs: iset<World>): iset<World>
  {
    iset d | d in cs || exists i :: 0 <= i < |arms| && d in AfterArm(arms[i], cs)
  }

  lemma {:induction false} ArmsReport(arms: seq<Arm>, scope: set<string>, a: Checking, cs: iset<World>)
    requires WalkedArms(arms) && StraightArms(arms, scope) && Ready(a, scope, cs)
    ensures Reported(CheckArms(arms, Snapshot(a.env), a).0.log) ==> Reported(a.log) || AnyBad(AfterAny(arms, cs))
    decreases arms, 0
  {
    hide CheckArm, Restore, Snapshot, WalkedArm, StraightArm, Ready, Exact, AnyBad, AfterAny, Reported, Level;
    hide SameStates;
    if arms != [] {
      var front, last := arms[..|arms|-1], arms[|arms|-1];
      var (b, snaps) := CheckArms(front, Snapshot(a.env), a);
      var start := b.(env := Restore(b.env, Snapshot(a.env)));
      ArmsReport(front, scope, a, cs);
      CheckArmsLevel(front, a);
      RestoredLevel(a, b);
      LevelNames(a, b);
      RestoredStates(a.env, b);
      StartReady(a, start, scope, cs);
      ExactWholeArm(last, scope, start, cs);
      ExactReports(start, CheckArm(last, start), AfterArm(last, cs));
      AnyOfMore(arms, cs);
    }
  }

  lemma {:induction false} ExactReports(a: Checking, b: Checking, ds: iset<World>)
    requires Exact(a, b, ds)
    ensures Reported(b.log) ==> Reported(a.log) || AnyBad(ds)
  {
    hide Reported, AnyBad, Attained;
  }

  lemma {:induction false} AnyOfMore(arms: seq<Arm>, cs: iset<World>)
    requires arms != []
    ensures AnyBad(AfterAny(arms[..|arms|-1], cs)) ==> AnyBad(AfterAny(arms, cs))
    ensures AnyBad(AfterArm(arms[|arms|-1], cs)) ==> AnyBad(AfterAny(arms, cs))
  {
    hide AfterArm;
    var front, last := arms[..|arms|-1], |arms| - 1;
    forall d | d in AfterAny(front, cs) ensures d in AfterAny(arms, cs) {
      if d !in cs {
        var i :| 0 <= i < |front| && d in AfterArm(front[i], cs);
        assert d in AfterArm(arms[i], cs);
      }
    }
    forall d | d in AfterArm(arms[last], cs) ensures d in AfterAny(arms, cs) {
    }
  }

  lemma {:induction false} ArmMovesExact(
      arms: seq<Arm>, scope: set<string>, a: Checking, cs: iset<World>, i: nat, k: nat)
    requires WalkedArms(arms) && StraightArms(arms, scope) && Ready(a, scope, cs)
    requires i < |arms| && k < |a.env| && a.env[k].kind == Own
    requires i < |CheckArms(arms, Snapshot(a.env), a).1|
    requires MovedIn(CheckArms(arms, Snapshot(a.env), a).1[i], a.env[k].name)
    ensures MovedSomewhere(AfterArm(arms[i], cs), k)
    decreases arms, 1
  {
    hide CheckArm, CheckArms, Snapshot, WalkedArm, StraightArm, Ready, MovedIn, Level, SameStates, Reported;
    hide AfterArm, MovedSomewhere, AnyBad;
    var start := ArmIsChecked(arms, a, i);
    var end := CheckArm(arms[i], start);
    WalkedArmAt(arms, i);
    StraightArmAt(arms, scope, i);
    StartReady(a, start, scope, cs);
    ExactWholeArm(arms[i], scope, start, cs);
    CheckArmLevel(arms[i], start);
    LevelTrans(a, start, end);
    MovedInSnapshot(end.env, a.env[k].name);
    var j :| 0 <= j < |end.env| && end.env[j].kind == Own && end.env[j].name == a.env[k].name && end.env[j].moved.Some?;
    SameBinding(a, end, scope, cs, j, k);
  }

  lemma {:induction false} SameBinding(a: Checking, b: Checking, scope: set<string>, cs: iset<World>, j: nat, k: nat)
    requires Ready(a, scope, cs) && Level(a, b) && j < |b.env| && k < |a.env| && b.env[j].name == a.env[k].name
    ensures j == k
  {
    hide AllSafe, Attained;
    LevelNames(a, b);
  }

  lemma {:induction false} ExactBranch(
      arms: seq<Arm>, site: Span, scope: set<string>, a: Checking, cs: iset<World>)
    requires WalkedArms(arms) && StraightArms(arms, scope) && Ready(a, scope, cs)
    ensures Exact(a, CheckBranch(arms, site, a), AfterAny(arms, cs))
    decreases arms, 3
  {
    hide CheckArms, Restore, Snapshot, Join, WalkedArms, StraightArms, AnyBad, AfterAny, AfterArm, Reported;
    hide Visible, MovedSomewhere;
    hide Level, SameStates, AllSafe, Distinct, MovedInSome;
    var (b, snaps) := CheckArms(arms, Snapshot(a.env), a);
    var restored := Restore(b.env, Snapshot(a.env));
    var final := CheckBranch(arms, site, a);
    ArmsReport(arms, scope, a, cs);
    CheckArmsLevel(arms, a);
    LevelNames(a, b);
    RestoredStates(a.env, b);
    CheckBranchLevel(arms, site, a);
    LevelNames(a, final);
    NoneTaken(arms, cs);
    forall k | 0 <= k < |final.env| && final.env[k].kind == Own && final.env[k].moved.Some?
      ensures MovedSomewhere(AfterAny(arms, cs), k)
    {
      JoinedExact(arms, site, scope, a, cs, k);
    }
  }

  lemma {:induction false} NoneTaken(arms: seq<Arm>, cs: iset<World>)
    ensures cs <= AfterAny(arms, cs)
  {
  }

  lemma {:induction false} JoinedExact(
      arms: seq<Arm>, site: Span, scope: set<string>, a: Checking, cs: iset<World>, k: nat)
    requires WalkedArms(arms) && StraightArms(arms, scope) && Ready(a, scope, cs)
    requires k < |a.env| && k < |CheckBranch(arms, site, a).env|
    requires CheckBranch(arms, site, a).env[k].kind == Own && CheckBranch(arms, site, a).env[k].moved.Some?
    ensures MovedSomewhere(AfterAny(arms, cs), k)
    decreases arms, 2
  {
    hide CheckArms, Restore, Snapshot, Join, WalkedArms, StraightArms, AnyBad, AfterAny, AfterArm, Reported;
    hide Visible, MovedIn;
    hide Level, AllSafe, Distinct, MovedSomewhere;
    var (b, snaps) := CheckArms(arms, Snapshot(a.env), a);
    var restored := Restore(b.env, Snapshot(a.env));
    CheckArmsLevel(arms, a);
    LevelNames(a, b);
    RestoredStates(a.env, b);
    JoinAt(restored, snaps, site, k);
    AllVisible(a.env, scope, k);
    if a.env[k].moved.Some? {
      NoneTaken(arms, cs);
      MovedInMore(cs, AfterAny(arms, cs), k);
    } else {
      var i :| 0 <= i < |snaps| && MovedIn(snaps[i], a.env[k].name);
      SnapsLength(arms, Snapshot(a.env), a);
      ArmMovesExact(arms, scope, a, cs, i, k);
      OneTaken(arms, cs, i);
      MovedInMore(AfterArm(arms[i], cs), AfterAny(arms, cs), k);
    }
  }

  lemma {:induction false} OneTaken(arms: seq<Arm>, cs: iset<World>, i: nat)
    requires i < |arms|
    ensures AfterArm(arms[i], cs) <= AfterAny(arms, cs)
  {
    hide AfterArm;
  }

  lemma {:induction false} MovedInMore(cs: iset<World>, ds: iset<World>, k: nat)
    requires cs <= ds && MovedSomewhere(cs, k)
    ensures MovedSomewhere(ds, k)
  {
  }

  lemma {:induction false} ExactBranchExpr(
      e: Expr, x: Option<Expr>, arms: seq<Arm>, site: Span, scope: set<string>, a: Checking, cs: iset<World>)
    requires e == Branch(x, arms, site)
    requires WalkedSome(x) && WalkedArms(arms) && StraightSome(x, scope) && StraightArms(arms, scope) &&
             Ready(a, scope, cs)
    ensures Exact(a, CheckBranch(arms, site, CheckSome(x, a)), After(e, cs))
    decreases e, 1
  {
    BranchAfter(e, x, arms, cs);
    hide Ready, Exact, AfterSome, AfterAny, After, CheckSome, CheckBranch, WalkedSome, WalkedArms, StraightSome;
    hide StraightArms, AnyBad;
    var b, ds := CheckSome(x, a), AfterSome(x, cs);
    ExactSome(e, x, scope, a, cs);
    ExactBranch(arms, site, scope, b, ds);
    NoneTaken(arms, ds);
    if AnyBad(ds) {
      BadMore(ds, AfterAny(arms, ds));
    }
    ExactTrans(a, b, CheckBranch(arms, site, b), ds, AfterAny(arms, ds));
    ExactMore(a, CheckBranch(arms, site, b), AfterAny(arms, ds), After(e, cs));
  }

  lemma {:induction false} BadMore(cs: iset<World>, ds: iset<World>)
    requires cs <= ds && AnyBad(cs)
    ensures AnyBad(ds)
  {
  }

  lemma {:induction false} ExactSome(e: Expr, x: Option<Expr>, scope: set<string>, a: Checking, cs: iset<World>)
    requires e.Branch? && e.scrutinee == x && WalkedSome(x) && StraightSome(x, scope) && Ready(a, scope, cs)
    ensures Exact(a, CheckSome(x, a), AfterSome(x, cs)) && Ready(CheckSome(x, a), scope, AfterSome(x, cs))
    decreases e, 0
  {
    SomeAfter(x, cs);
    hide Ready, Exact, AfterSome, After, CheckExpr, Walked, Straight;
    if x.Some? {
      ExactExpr(x.value, scope, a, cs);
      ReadyAfter(x.value, scope, a, cs);
    } else {
      ExactStays(a, scope, cs);
    }
  }

  lemma {:induction false} SomeAfter(x: Option<Expr>, cs: iset<World>)
    ensures AfterSome(x, cs) == if x.Some? then After(x.value, cs) else cs
  {
    hide Runs;
    forall c, d | c in cs ensures RunsSome(x, c, d) <==> if x.Some? then Runs(x.value, c, d) else d == c {
    }
    if x.None? {
      forall c | c in cs ensures c in AfterSome(x, cs) {
        assert RunsSome(x, c, c);
      }
    }
  }

  lemma {:induction false} BranchAfter(e: Expr, x: Option<Expr>, arms: seq<Arm>, cs: iset<World>)
    requires e.Branch? && e.scrutinee == x && e.arms == arms
    ensures AfterAny(arms, AfterSome(x, cs)) <= After(e, cs)
  {
    hide RunsArm;
    var ds := AfterSome(x, cs);
    forall d | d in AfterAny(arms, ds) ensures d in After(e, cs) {
      var m := d;
      if d !in ds {
        var i :| 0 <= i < |arms| && d in AfterArm(arms[i], ds);
        m :| m in ds && RunsArm(arms[i], m, d);
      }
      var c :| c in cs && RunsSome(x, c, m);
      BranchRuns(e, c, m, d);
    }
  }

  lemma {:induction false} BranchRuns(e: Expr, c: World, m: World, d: World)
    requires e.Branch? && RunsSome(e.scrutinee, c, m)
    requires d == m || exists i | 0 <= i < |e.arms| :: RunsArm(e.arms[i], m, d)
    ensures Runs(e, c, d)
  {
    if c.stopped {
      if e.scrutinee.Some? {
        OnlyStays(e.scrutinee.value, c, m);
      }
      if d != m {
        var i :| 0 <= i < |e.arms| && RunsArm(e.arms[i], m, d);
        ArmStays(e.arms[i], m, d);
      }
    }
  }

  // ----- Whole functions -----

  function ParamNames(params: seq<Param>): set<string> { set p | p in params :: p.name }

  ghost predicate DistinctParams(params: seq<Param>)
  {
    forall i, j | 0 <= i < j < |params| :: params[i].name != params[j].name
  }

  lemma {:induction false} ParamsReady(params: seq<Param>, log: seq<Diagnostic>)
    requires DistinctParams(params)
    ensures Ready(DefineParams(Checking([], 0, log), params), ParamNames(params), iset{BindParams(params)})
  {
    ParamsSafe(params, log);
    ParamsFresh(params, log);
    hide Safe, DefineParams, BindParams;
    var env := DefineParams(Checking([], 0, log), params).env;
    forall i | 0 <= i < |env| ensures env[i].name in ParamNames(params) {
      assert params[i] in params;
    }
    assert BindParams(params) in iset{BindParams(params)};
  }

  lemma {:induction false} ParamsFresh(params: seq<Param>, log: seq<Diagnostic>)
    ensures var a, c := DefineParams(Checking([], 0, log), params), BindParams(params);
            && !c.bad && !c.stopped && |a.env| == |params| && a.log == log
            && forall i | 0 <= i < |params| :: a.env[i].name == params[i].name && a.env[i].moved.None?
  {
    if params != [] {
      ParamsFresh(params[..|params|-1], log);
    }
  }

  ghost predicate StraightFunc(f: Func)
  {
    Walked(f.body) && Straight(f.body, ParamNames(f.params)) && DistinctParams(f.params)
  }

  /** Some run of the function uses an own binding after it has been moved. */
  ghost predicate MovesWrongly(f: Func)
  {
    exists d :: RunsFunc(f, d) && d.bad
  }

  /** On a body without jumps, deferred expressions and shadowing, a use after a move is reported exactly when some
      choice of arms makes one. */
  lemma {:induction false} MoveCheckIsExact(f: Func, log: seq<Diagnostic>)
    requires StraightFunc(f) && !Reported(log)
    ensures Reported(CheckFunc(f, log).log) <==> MovesWrongly(f)
  {
    hide CheckExpr, Runs, Walked, Straight, Ready, Reported, Attained;
    var a, c := DefineParams(Checking([], 0, log), f.params), BindParams(f.params);
    ParamsReady(f.params, log);
    ParamsFresh(f.params, log);
    ExactExpr(f.body, ParamNames(f.params), a, iset{c});
    if Reported(CheckFunc(f, log).log) {
      var d :| d in After(f.body, iset{c}) && d.bad;
      assert RunsFunc(f, d);
    }
    if d :| RunsFunc(f, d) && d.bad {
      if !Reported(CheckFunc(f, log).log) {
        StraightIsOrderly(f.body, ParamNames(f.params));
        MoveCheckIsSound(f, log, d);
      }
    }
  }

  /** And so on a whole module, with one sink for all functions. */
  lemma {:induction false} ModuleCheckIsExact(fs: seq<Func>, log: seq<Diagnostic>)
    requires !Reported(log) && forall f | f in fs :: StraightFunc(f)
    ensures Reported(CheckFuncs(fs, log)) <==> exists f :: f in fs && MovesWrongly(f)
  {
    hide StraightFunc, CheckFunc, Reported, MovesWrongly;
    if fs != [] {
      var front, last := fs[..|fs|-1], fs[|fs|-1];
      assert fs == front + [last] && last in fs;
      ModuleCheckIsExact(front, log);
      if Reported(CheckFuncs(front, log)) {
        FuncKeepsReports(last, CheckFuncs(front, log));
      } else {
        MoveCheckIsExact(last, CheckFuncs(front, log));
      }
    }
  }

  lemma {:induction false} FuncKeepsReports(f: Func, log: seq<Diagnostic>)
    requires Reported(log)
    ensures Reported(CheckFunc(f, log).log)
  {
    hide CheckExpr, Reported;
    var a := DefineParams(Checking([], 0, log), f.params);
    ParamsFresh(f.params, log);
    CheckLevel(f.body, a);
    ReportsStay(log, CheckFunc(f, log).log);
  }
}
