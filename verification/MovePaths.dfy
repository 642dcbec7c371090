/** What a body does with its bindings when it runs, for every choice of arms. */
module MovePaths {
  import opened Wrappers
  import opened Diag
  import opened Ast
  import opened Escape
  import opened MoveCheck

  /** What a binding holds by the type written for it: an own type makes it the owner, a borrow type a
      borrower. Without a type, or with any other, it is neither. */
  function Held(ty: Option<TypeExpr>): BindingKind
  {
    if ty.Some? && ty.value.OwnType? then Own
    else if ty.Some? && ty.value.BorrowType? then Borrow
    else Plain
  }

  /** The bindings in scope, whether an own binding has been used after it was moved, and whether
      control has left for good. */
  datatype World = World(env: Bindings, bad: bool, stopped: bool)

  function UseName(c: World, name: string): World
  {
    var k := Find(c.env, name);
    if k.Some? && c.env[k.value].kind == Own && c.env[k.value].moved.Some? then c.(bad := true) else c
  }

  /** A name that is passed on, or that initialises a binding, is moved. */
  function GiveAway(e: Expr, c: World): World
  {
    if c.stopped then c else
    match e
    case Path(segments, site) => if segments == [] then c else c.(env := MarkMoved(c.env, segments[0], site))
    case _ => c
  }

  function Bind(c: World, name: string, kind: BindingKind): World
  {
    if c.stopped then c else c.(env := c.env + [Binding(name, kind, None, 0)])
  }

  function BindAll(c: World, names: seq<string>): World
  {
    if names == [] then c else Bind(BindAll(c, names[..|names|-1]), names[|names|-1], Plain)
  }

  /** The scope entered at `outer` ends. */
  function Back(c: World, outer: World): World
  {
    if |outer.env| <= |c.env| then c.(env := c.env[..|outer.env|]) else c
  }

  /** Running `e` from `c` can end in `d`. At a branch any arm may be taken, or none; a propagation
      continues or leaves. Loops are not given a meaning here. */
  ghost predicate Runs(e: Expr, c: World, d: World)
    decreases e, 0
  {
    if c.stopped then d == c else
    match e
    case Path(segments, _) => d == if segments != [] then UseName(c, segments[0]) else c
    case Block(stmts) => exists m :: RunsStmts(stmts, c, m) && d == Back(m, c)
    case Binary(_, x, y) => exists m :: Runs(x, c, m) && Runs(y, m, d)
    case IndexExpr(x, y) => exists m :: Runs(x, c, m) && Runs(y, m, d)
    case CallExpr(callee, args) => exists m :: Runs(callee, c, m) && RunsArgs(args, m, d)
    case Unary(_, x) => Runs(x, c, d)
    case FieldExpr(x, _) => Runs(x, c, d)
    case DerefExpr(x) => Runs(x, c, d)
    case Propagate(x) => exists m :: Runs(x, c, m) && (d == m || d == m.(stopped := true))
    case Ret(x, _) => exists m :: RunsSome(x, c, m) && d == m.(stopped := true)
    case Jmp(x, _) => exists m :: RunsSome(x, c, m) && d == m.(stopped := true)
    case Stop(_) => d == c.(stopped := true)
    case Skip(_) => d == c.(stopped := true)
    case Branch(x, arms, _) =>
      exists m :: RunsSome(x, c, m) && (d == m || exists i | 0 <= i < |arms| :: RunsArm(arms[i], m, d))
    case StructLit(_, inits) => RunsInits(inits, c, d)
    case ArrayLit(elements) => RunsAll(elements, c, d)
    case VariantConstructor(_, x) => RunsSome(x, c, d)
    case _ => d == c
  }

  ghost predicate RunsSome(e: Option<Expr>, c: World, d: World)
    decreases e
  {
    if e.Some? then Runs(e.value, c, d) else d == c
  }

  ghost predicate RunsAll(es: seq<Expr>, c: World, d: World)
    decreases es
  {
    if es == [] then d == c else exists m :: Runs(es[0], c, m) && RunsAll(es[1..], m, d)
  }

  ghost predicate RunsInits(inits: seq<FieldInit>, c: World, d: World)
    decreases inits
  {
    if inits == [] then d == c else exists m :: RunsInit(inits[0], c, m) && RunsInits(inits[1..], m, d)
  }

  ghost predicate RunsInit(init: FieldInit, c: World, d: World)
    decreases init
  {
    Runs(init.value, c, d)
  }

  ghost predicate RunsArgs(args: seq<Expr>, c: World, d: World)
    decreases args
  {
    if args == [] then d == c else exists m :: RunsArg(args[0], c, m) && RunsArgs(args[1..], m, d)
  }

  ghost predicate RunsArg(arg: Expr, c: World, d: World)
    decreases arg, 1
  {
    exists m :: Runs(arg, c, m) && d == GiveAway(arg, m)
  }

  ghost predicate RunsArm(arm: Arm, c: World, d: World)
    decreases arm
  {
    exists m :: Runs(arm.body, BindAll(c, ArmNames(arm.pattern)), m) && d == Back(m, c)
  }

  /** What is deferred runs when the statements after it are done, on every way out; their bindings have
      gone out of scope by then. */
  ghost predicate RunsStmts(stmts: seq<Stmt>, c: World, d: World)
    decreases stmts
  {
    if c.stopped || stmts == [] then d == c
    else if stmts[0].Defer? then exists m :: RunsStmts(stmts[1..], c, m) && RunsDeferred(stmts[0], Back(m, c), d)
    else exists m :: RunsStmt(stmts[0], c, m) && RunsStmts(stmts[1..], m, d)
  }

  ghost predicate RunsDeferred(s: Stmt, c: World, d: World)
    requires s.Defer?
    decreases s
  {
    exists m :: Runs(s.deferred, c.(stopped := false), m) && d == m.(stopped := c.stopped || m.stopped)
  }

  ghost predicate RunsStmt(s: Stmt, c: World, d: World)
    requires !s.Defer?
    decreases s
  {
    match s
    case Let(name, _, ty, init) => exists m :: Runs(init, c, m) && d == Bind(GiveAway(init, m), name, Held(ty))
    case Assign(target, value, _) => exists m :: Runs(value, c, m) && Runs(target, m, d)
    case ExprStmt(e) => Runs(e, c, d)
  }

  function BindParams(params: seq<Param>): World
  {
    if params == [] then World([], false, false) else
    Bind(BindParams(params[..|params|-1]), params[|params|-1].name, Held(Some(params[|params|-1].ty)))
  }

  ghost predicate RunsFunc(f: Func, d: World)
  {
    Runs(f.body, BindParams(f.params), d)
  }

  // ----- The forms the checker walks -----

  /** No loop, no literal with parts, no condition arm. */
  predicate Walked(e: Expr)
  {
    match e
    case Block(stmts) => WalkedStmts(stmts)
    case Binary(_, x, y) => Walked(x) && Walked(y)
    case IndexExpr(x, y) => Walked(x) && Walked(y)
    case CallExpr(callee, args) => Walked(callee) && WalkedAll(args)
    case Unary(_, x) => Walked(x)
    case FieldExpr(x, _) => Walked(x)
    case DerefExpr(x) => Walked(x)
    case Propagate(x) => Walked(x)
    case Ret(x, _) => WalkedSome(x)
    case Jmp(x, _) => WalkedSome(x)
    case Branch(x, arms, _) => WalkedSome(x) && WalkedArms(arms)
    case Loop(_, _, _) => false
    case StructLit(_, _) => false
    case ArrayLit(_) => false
    case VariantConstructor(_, _) => false
    case _ => true
  }

  predicate WalkedSome(e: Option<Expr>) { e.Some? ==> Walked(e.value) }

  predicate WalkedAll(es: seq<Expr>)
  {
    es == [] || (Walked(es[0]) && WalkedAll(es[1..]))
  }

  predicate WalkedArms(arms: seq<Arm>)
  {
    arms == [] || (WalkedArms(arms[..|arms|-1]) && WalkedArm(arms[|arms|-1]))
  }

  predicate WalkedArm(arm: Arm) { !arm.pattern.CondArm? && Walked(arm.body) }

  predicate WalkedStmts(stmts: seq<Stmt>)
  {
    stmts == [] || (WalkedStmt(stmts[0]) && WalkedStmts(stmts[1..]))
  }

  predicate WalkedStmt(s: Stmt)
  {
    match s
    case Let(_, _, _, init) => Walked(init)
    case Assign(target, value, _) => Walked(target) && Walked(value)
    case Defer(e) => Walked(e)
    case ExprStmt(e) => Walked(e)
  }

  lemma {:induction false} WalkedArmAt(arms: seq<Arm>, i: nat)
    requires WalkedArms(arms) && i < |arms|
    ensures WalkedArm(arms[i])
  {
    if i < |arms| - 1 {
      WalkedArmAt(arms[..|arms|-1], i);
    }
  }

  // ----- Rows of bindings -----

  ghost predicate SameNames(s: Bindings, t: Bindings)
  {
    |s| == |t| && forall k | 0 <= k < |s| :: s[k].name == t[k].name && s[k].kind == t[k].kind
  }

  /** No later binding hides it. */
  ghost predicate Visible(env: Bindings, k: nat)
    requires k < |env|
  {
    forall l | k < l < |env| :: env[l].name != env[k].name
  }

  /** `t` has the bindings of `s`, possibly more; what was moved stays moved. */
  ghost predicate Above(s: Bindings, t: Bindings)
  {
    |s| <= |t| && forall k | 0 <= k < |s| ::
      s[k].name == t[k].name && s[k].kind == t[k].kind && (s[k].kind == Own && s[k].moved.Some? ==> t[k].moved.Some?)
  }

  /** `t` has the bindings of `s`, possibly more; only a visible one may have changed. */
  ghost predicate Kept(s: Bindings, t: Bindings)
  {
    |s| <= |t| && forall k | 0 <= k < |s| ::
      s[k].name == t[k].name && s[k].kind == t[k].kind && (t[k].moved != s[k].moved ==> Visible(s, k))
  }

  lemma {:induction false} FindSame(s: Bindings, t: Bindings, name: string)
    requires SameNames(s, t)
    ensures Find(s, name) == Find(t, name)
  {
    var i, j := Find(s, name), Find(t, name);
    if i.Some? {
      assert t[i.value].name == name;
    }
    if j.Some? {
      assert s[j.value].name == name;
    }
  }

  lemma {:induction false} FindIsVisible(env: Bindings, name: string, k: nat)
    requires k < |env|
    ensures Find(env, name) == Some(k) <==> env[k].name == name && Visible(env, k)
  {
  }

  lemma {:induction false} SetStateAt(env: Bindings, name: string, moved: Option<Span>, k: nat)
    requires k < |env|
    ensures var r := SetState(env, name, moved);
            && SameNames(env, r)
            && r[k].moved == if env[k].name == name && Visible(env, k) then moved else env[k].moved
  {
    hide Find;
    FindIsVisible(env, name, k);
  }

  lemma {:induction false} MarkMovedAt(env: Bindings, name: string, site: Span, k: nat)
    requires k < |env|
    ensures var r := MarkMoved(env, name, site);
            && SameNames(env, r)
            && r[k].moved ==
               if env[k].name == name && Visible(env, k) && env[k].kind == Own then Some(site) else env[k].moved
  {
    hide Find;
    FindIsVisible(env, name, k);
  }

  lemma {:induction false} MarkMovedKeeps(env: Bindings, name: string, site: Span)
    ensures var r := MarkMoved(env, name, site); SameNames(env, r) && Kept(env, r) && Above(env, r)
  {
    hide MarkMoved, Visible;
    NamesOfMarked(env, name, site);
    forall k | 0 <= k < |env|
      ensures var r := MarkMoved(env, name, site);
              && (r[k].moved != env[k].moved ==> Visible(env, k)) && (env[k].moved.Some? ==> r[k].moved.Some?)
    {
      MarkMovedAt(env, name, site, k);
    }
  }

  lemma {:induction false} NamesOfMarked(env: Bindings, name: string, site: Span)
    ensures SameNames(env, MarkMoved(env, name, site))
  {
    hide Find;
  }

  lemma {:induction false} VisibleSame(s: Bindings, t: Bindings, k: nat)
    requires SameNames(s, t) && k < |s|
    ensures Visible(s, k) <==> Visible(t, k)
  {
    if Visible(s, k) {
      forall l | k < l < |t| ensures t[l].name != t[k].name {
        assert s[l].name != s[k].name;
      }
    }
  }

  lemma {:induction false} KeptTrans(s: Bindings, t: Bindings, u: Bindings)
    requires Kept(s, t) && Kept(t, u)
    ensures Kept(s, u)
  {
    forall k | 0 <= k < |s| && u[k].moved != s[k].moved ensures Visible(s, k) {
      if t[k].moved == s[k].moved {
        assert Visible(t, k);
        forall l | k < l < |s| ensures s[l].name != s[k].name {
          assert t[l].name != t[k].name;
        }
      }
    }
  }

  lemma {:induction false} AboveTrans(s: Bindings, t: Bindings, u: Bindings)
    requires Above(s, t) && Above(t, u)
    ensures Above(s, u)
  {
  }

  lemma {:induction false} CutKeeps(s: Bindings, t: Bindings)
    requires Kept(s, t) && Above(s, t)
    ensures Kept(s, t[..|s|]) && Above(s, t[..|s|])
  {
  }

  // ----- What every run keeps -----

  /** From `c` to `d`: nothing is forgotten. */
  ghost predicate Onward(c: World, d: World)
  {
    && (c.bad ==> d.bad) && (c.stopped ==> d.stopped)
    && Kept(c.env, d.env) && Above(c.env, d.env)
  }

  /** The same without a change of the bindings in scope. */
  ghost predicate Across(c: World, d: World)
  {
    Onward(c, d) && |c.env| == |d.env|
  }

  lemma {:induction false} OnwardSelf(c: World)
    ensures Across(c, c) && Across(c, c.(stopped := true))
  {
  }

  lemma {:induction false} OnwardTrans(c: World, m: World, d: World)
    requires Onward(c, m) && Onward(m, d)
    ensures Onward(c, d) && (Across(c, m) && Across(m, d) ==> Across(c, d))
  {
    hide Kept, Above;
    KeptTrans(c.env, m.env, d.env);
    AboveTrans(c.env, m.env, d.env);
  }

  lemma {:induction false} GiveAwayKeeps(e: Expr, c: World)
    ensures Across(c, GiveAway(e, c))
  {
    hide Kept, Above, MarkMoved;
    OnwardSelf(c);
    if Root(e).Some? {
      MarkMovedKeeps(c.env, Root(e).value, e.span);
    }
  }

  lemma {:induction false} BindKeeps(c: World, name: string, kind: BindingKind)
    ensures Onward(c, Bind(c, name, kind))
  {
  }

  lemma {:induction false} BindAllKeeps(c: World, names: seq<string>)
    ensures Onward(c, BindAll(c, names)) && BindAll(c, names).stopped == c.stopped
  {
    hide Kept, Above;
    if names == [] {
      OnwardSelf(c);
    } else {
      var before := BindAll(c, names[..|names|-1]);
      BindAllKeeps(c, names[..|names|-1]);
      BindKeeps(before, names[|names|-1], Plain);
      OnwardTrans(c, before, BindAll(c, names));
    }
  }

  lemma {:induction false} BackKeeps(c: World, m: World)
    requires Onward(c, m)
    ensures Across(c, Back(m, c))
  {
    CutKeeps(c.env, m.env);
  }

  lemma {:induction false} RunsKeep(e: Expr, c: World, d: World)
    requires Runs(e, c, d)
    ensures Across(c, d)
    decreases e, 1
  {
    OnwardSelf(c);
    hide Onward, Across, RunsStmts, RunsArgs, RunsSome, RunsArm, RunsInits, RunsAll, UseName, Back;
    if !c.stopped {
      match e {
        case Path(segments, _) => UseKeeps(c, segments);
        case Block(stmts) =>
          var m :| RunsStmts(stmts, c, m) && d == Back(m, c);
          RunsStmtsKeep(stmts, c, m);
          BackKeeps(c, m);
        case Binary(_, x, y) =>
          var m :| Runs(x, c, m) && Runs(y, m, d);
          RunsKeep(x, c, m);
          RunsKeep(y, m, d);
          AcrossTrans(c, m, d);
        case IndexExpr(x, y) =>
          var m :| Runs(x, c, m) && Runs(y, m, d);
          RunsKeep(x, c, m);
          RunsKeep(y, m, d);
          AcrossTrans(c, m, d);
        case CallExpr(callee, args) =>
          var m :| Runs(callee, c, m) && RunsArgs(args, m, d);
          RunsKeep(callee, c, m);
          RunsArgsKeep(args, m, d);
          AcrossTrans(c, m, d);
        case Unary(_, x) => RunsKeep(x, c, d);
        case FieldExpr(x, _) => RunsKeep(x, c, d);
        case DerefExpr(x) => RunsKeep(x, c, d);
        case Propagate(x) =>
          var m :| Runs(x, c, m) && (d == m || d == m.(stopped := true));
          RunsKeep(x, c, m);
          StopKeeps(c, m);
        case Ret(x, _) => LeaveKeeps(e, x, c, d);
        case Jmp(x, _) => LeaveKeeps(e, x, c, d);
        case Branch(x, arms, _) => BranchKeeps(e, x, arms, c, d);
        case StructLit(_, _) => LiteralKeeps(e, c, d);
        case ArrayLit(_) => LiteralKeeps(e, c, d);
        case VariantConstructor(_, _) => LiteralKeeps(e, c, d);
        case _ =>
      }
    }
  }

  lemma {:induction false} LiteralKeeps(e: Expr, c: World, d: World)
    requires e.StructLit? || e.ArrayLit? || e.VariantConstructor?
    requires Runs(e, c, d) && !c.stopped
    ensures Across(c, d)
    decreases e, 0
  {
    hide Onward, Across, RunsSome, RunsInits, RunsAll;
    match e {
      case StructLit(_, inits) => RunsInitsKeep(inits, c, d);
      case ArrayLit(elements) => RunsAllKeep(elements, c, d);
      case VariantConstructor(_, x) => RunsSomeKeep(x, c, d);
    }
  }

  lemma {:induction false} AcrossTrans(c: World, m: World, d: World)
    requires Across(c, m) && Across(m, d)
    ensures Across(c, d)
  {
    hide Kept, Above;
    OnwardTrans(c, m, d);
  }

  lemma {:induction false} UseKeeps(c: World, segments: seq<string>)
    ensures Across(c, if segments != [] then UseName(c, segments[0]) else c)
  {
    hide Find;
  }

  lemma {:induction false} StopKeeps(c: World, m: World)
    requires Across(c, m)
    ensures Across(c, m.(stopped := true))
  {
  }

  lemma {:induction false} LeaveKeeps(e: Expr, x: Option<Expr>, c: World, d: World)
    requires (e.Ret? && x == e.value) || (e.Jmp? && x == e.target)
    requires exists m :: RunsSome(x, c, m) && d == m.(stopped := true)
    ensures Across(c, d)
    decreases e, 0
  {
    hide Onward, Across, RunsSome;
    var m :| RunsSome(x, c, m) && d == m.(stopped := true);
    RunsSomeKeep(x, c, m);
    StopKeeps(c, m);
  }

  lemma {:induction false} RunsSomeKeep(x: Option<Expr>, c: World, d: World)
    requires RunsSome(x, c, d)
    ensures Across(c, d)
    decreases x
  {
    OnwardSelf(c);
    hide Onward, Across, Runs;
    if x.Some? {
      RunsKeep(x.value, c, d);
    }
  }

  lemma {:induction false} BranchKeeps(e: Expr, x: Option<Expr>, arms: seq<Arm>, c: World, d: World)
    requires e.Branch? && e.scrutinee == x && e.arms == arms
    requires exists m :: RunsSome(x, c, m) && (d == m || exists i | 0 <= i < |arms| :: RunsArm(arms[i], m, d))
    ensures Across(c, d)
    decreases e, 0
  {
    hide Onward, Across, RunsSome, RunsArm;
    var m :| RunsSome(x, c, m) && (d == m || exists i | 0 <= i < |arms| :: RunsArm(arms[i], m, d));
    RunsSomeKeep(x, c, m);
    if d != m {
      var i :| 0 <= i < |arms| && RunsArm(arms[i], m, d);
      RunsArmKeeps(arms[i], m, d);
      AcrossTrans(c, m, d);
    }
  }

  lemma {:induction false} RunsArmKeeps(arm: Arm, c: World, d: World)
    requires RunsArm(arm, c, d)
    ensures Across(c, d)
    decreases arm
  {
    hide Onward, Across, Runs, BindAll, Back;
    var start := BindAll(c, ArmNames(arm.pattern));
    var m :| Runs(arm.body, start, m) && d == Back(m, c);
    BindAllKeeps(c, ArmNames(arm.pattern));
    RunsKeep(arm.body, start, m);
    AcrossIsOnward(start, m);
    OnwardChain(c, start, m);
    BackKeeps(c, m);
  }

  lemma {:induction false} AcrossIsOnward(c: World, d: World)
    requires Across(c, d)
    ensures Onward(c, d)
  {
  }

  lemma {:induction false} OnwardChain(c: World, m: World, d: World)
    requires Onward(c, m) && Onward(m, d)
    ensures Onward(c, d)
  {
    OnwardTrans(c, m, d);
  }

  lemma {:induction false} RunsAllKeep(es: seq<Expr>, c: World, d: World)
    requires RunsAll(es, c, d)
    ensures Across(c, d)
    decreases es
  {
    OnwardSelf(c);
    hide Onward, Across, Runs;
    if es != [] {
      var m :| Runs(es[0], c, m) && RunsAll(es[1..], m, d);
      RunsKeep(es[0], c, m);
      RunsAllKeep(es[1..], m, d);
      AcrossTrans(c, m, d);
    }
  }

  lemma {:induction false} RunsInitsKeep(inits: seq<FieldInit>, c: World, d: World)
    requires RunsInits(inits, c, d)
    ensures Across(c, d)
    decreases inits
  {
    OnwardSelf(c);
    hide Onward, Across, RunsInit;
    if inits != [] {
      var m :| RunsInit(inits[0], c, m) && RunsInits(inits[1..], m, d);
      RunsInitKeeps(inits[0], c, m);
      RunsInitsKeep(inits[1..], m, d);
      AcrossTrans(c, m, d);
    }
  }

  lemma {:induction false} RunsInitKeeps(init: FieldInit, c: World, d: World)
    requires RunsInit(init, c, d)
    ensures Across(c, d)
    decreases init
  {
    hide Onward, Across, Runs;
    RunsKeep(init.value, c, d);
  }

  lemma {:induction false} RunsArgsKeep(args: seq<Expr>, c: World, d: World)
    requires RunsArgs(args, c, d)
    ensures Across(c, d)
    decreases args
  {
    OnwardSelf(c);
    hide Onward, Across, RunsArg;
    if args != [] {
      var m :| RunsArg(args[0], c, m) && RunsArgs(args[1..], m, d);
      RunsArgKeeps(args[0], c, m);
      RunsArgsKeep(args[1..], m, d);
      AcrossTrans(c, m, d);
    }
  }

  lemma {:induction false} RunsArgKeeps(arg: Expr, c: World, d: World)
    requires RunsArg(arg, c, d)
    ensures Across(c, d)
    decreases arg, 2
  {
    hide Onward, Across, Runs, GiveAway;
    var m :| Runs(arg, c, m) && d == GiveAway(arg, m);
    RunsKeep(arg, c, m);
    GiveAwayKeeps(arg, m);
    AcrossTrans(c, m, d);
  }

  lemma {:induction false} RunsStmtsKeep(stmts: seq<Stmt>, c: World, d: World)
    requires RunsStmts(stmts, c, d)
    ensures Onward(c, d)
    decreases stmts
  {
    OnwardSelf(c);
    AcrossIsOnward(c, c);
    hide Onward, Across, RunsStmt, RunsDeferred;
    if !c.stopped && stmts != [] {
      if stmts[0].Defer? {
        var m :| RunsStmts(stmts[1..], c, m) && RunsDeferred(stmts[0], Back(m, c), d);
        RunsStmtsKeep(stmts[1..], c, m);
        BackKeeps(c, m);
        AcrossIsOnward(c, Back(m, c));
        RunsDeferredKeeps(stmts[0], Back(m, c), d);
        OnwardChain(c, Back(m, c), d);
      } else {
        var m :| RunsStmt(stmts[0], c, m) && RunsStmts(stmts[1..], m, d);
        RunsStmtKeeps(stmts[0], c, m);
        RunsStmtsKeep(stmts[1..], m, d);
        OnwardChain(c, m, d);
      }
    }
  }

  lemma {:induction false} RunsDeferredKeeps(s: Stmt, c: World, d: World)
    requires s.Defer? && RunsDeferred(s, c, d)
    ensures Onward(c, d)
    decreases s
  {
    hide Runs, Kept, Above;
    var m :| Runs(s.deferred, c.(stopped := false), m) && d == m.(stopped := c.stopped || m.stopped);
    RunsKeep(s.deferred, c.(stopped := false), m);
  }

  lemma {:induction false} RunsStmtKeeps(s: Stmt, c: World, d: World)
    requires !s.Defer? && RunsStmt(s, c, d)
    ensures Onward(c, d)
    decreases s
  {
    hide Onward, Across, Runs, GiveAway, Bind;
    match s {
      case Let(name, _, ty, init) =>
        var m :| Runs(init, c, m) && d == Bind(GiveAway(init, m), name, Held(ty));
        RunsKeep(init, c, m);
        GiveAwayKeeps(init, m);
        AcrossTrans(c, m, GiveAway(init, m));
        AcrossIsOnward(c, GiveAway(init, m));
        BindKeeps(GiveAway(init, m), name, Held(ty));
        OnwardChain(c, GiveAway(init, m), d);
      case Assign(target, value, _) =>
        var m :| Runs(value, c, m) && Runs(target, m, d);
        RunsKeep(value, c, m);
        RunsKeep(target, m, d);
        AcrossTrans(c, m, d);
        AcrossIsOnward(c, d);
      case ExprStmt(e) =>
        RunsKeep(e, c, d);
        AcrossIsOnward(c, d);
    }
  }

  // ----- Once control has left, nothing happens -----

  lemma {:induction false} OnlyStays(e: Expr, c: World, d: World)
    requires Runs(e, c, d)
    ensures c.stopped ==> d == c
  {
  }

  lemma {:induction false} StopsStay(e: Expr, c: World)
    requires c.stopped
    ensures Runs(e, c, c)
  {
  }

  lemma {:induction false} ArmStays(arm: Arm, c: World, d: World)
    requires RunsArm(arm, c, d) && c.stopped
    ensures d == c
  {
    hide Runs;
    var start := BindAll(c, ArmNames(arm.pattern));
    var m :| Runs(arm.body, start, m) && d == Back(m, c);
    StoppedBinds(c, ArmNames(arm.pattern));
    OnlyStays(arm.body, start, m);
    assert c.env[..|c.env|] == c.env;
  }

  lemma {:induction false} StoppedBinds(c: World, names: seq<string>)
    requires c.stopped
    ensures BindAll(c, names) == c
  {
    if names != [] {
      StoppedBinds(c, names[..|names|-1]);
    }
  }
}
