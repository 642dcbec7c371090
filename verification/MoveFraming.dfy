/** What a run leaves alone, and what carries over to a run that starts elsewhere: only names that are
    given away change, and only names that are mentioned matter. */
module MoveFraming {
  import opened Wrappers
  import opened Ast
  import opened Escape
  import opened MoveCheck
  import opened MovePaths
  import opened Deferral

  // ----- Only what is given away changes -----

  ghost predicate Untouched(c: World, d: World, k: nat)
  {
    k < |c.env| && k < |d.env| && d.env[k].name == c.env[k].name && d.env[k].moved == c.env[k].moved
  }

  lemma {:induction false} GiveAwayFrames(e: Expr, c: World, k: nat)
    requires k < |c.env| && c.env[k].name !in RootName(e)
    ensures Untouched(c, GiveAway(e, c), k)
  {
    hide MarkMoved, Visible;
    if !c.stopped && Root(e).Some? {
      MarkMovedAt(c.env, Root(e).value, e.span, k);
    }
  }

  lemma {:induction false} BindFrames(c: World, name: string, kind: BindingKind, k: nat)
    requires k < |c.env|
    ensures Untouched(c, Bind(c, name, kind), k)
  {
  }

  lemma {:induction false} BindAllFrames(c: World, names: seq<string>, k: nat)
    requires k < |c.env|
    ensures Untouched(c, BindAll(c, names), k)
  {
    hide Bind;
    if names != [] {
      var before := BindAll(c, names[..|names|-1]);
      BindAllFrames(c, names[..|names|-1], k);
      BindFrames(before, names[|names|-1], Plain, k);
    }
  }

  lemma {:induction false} RunsFrame(e: Expr, c: World, d: World, k: nat)
    requires Walked(e) && Runs(e, c, d) && k < |c.env| && c.env[k].name !in GivenAway(e)
    ensures Untouched(c, d, k)
    decreases e, 2
  {
    hide RunsStmts, RunsArgs, RunsSome, RunsArm, RunsInits, RunsAll, Find;
    hide WalkedStmts, WalkedAll, WalkedSome, WalkedArms, GivenAwayStmts, GivenAwayArgs, GivenAwayArms, GivenAwaySome;
    if !c.stopped {
      match e {
        case Block(_) => PartsFrame(e, c, d, k);
        case Binary(_, _, _) => PartsFrame(e, c, d, k);
        case IndexExpr(_, _) => PartsFrame(e, c, d, k);
        case CallExpr(_, _) => PartsFrame(e, c, d, k);
        case Unary(_, x) => RunsFrame(x, c, d, k);
        case FieldExpr(x, _) => RunsFrame(x, c, d, k);
        case DerefExpr(x) => RunsFrame(x, c, d, k);
        case Propagate(x) =>
          var m :| Runs(x, c, m) && (d == m || d == m.(stopped := true));
          RunsFrame(x, c, m, k);
        case Ret(x, _) =>
          var m :| RunsSome(x, c, m) && d == m.(stopped := true);
          RunsSomeFrame(x, c, m, k);
        case Jmp(x, _) =>
          var m :| RunsSome(x, c, m) && d == m.(stopped := true);
          RunsSomeFrame(x, c, m, k);
        case Branch(x, arms, _) => BranchFrame(e, x, arms, c, d, k);
        case _ =>
      }
    }
  }

  lemma {:induction false} PartsFrame(e: Expr, c: World, d: World, k: nat)
    requires e.Block? || e.Binary? || e.IndexExpr? || e.CallExpr?
    requires Walked(e) && Runs(e, c, d) && !c.stopped && k < |c.env| && c.env[k].name !in GivenAway(e)
    ensures Untouched(c, d, k)
    decreases e, 1
  {
    hide RunsStmts, RunsArgs, Find, WalkedStmts, WalkedAll, GivenAwayStmts, GivenAwayArgs;
    match e {
      case Block(stmts) =>
        var m :| RunsStmts(stmts, c, m) && d == Back(m, c);
        RunsStmtsFrame(stmts, c, m, k);
      case Binary(_, x, y) =>
        var m :| Runs(x, c, m) && Runs(y, m, d);
        RunsFrame(x, c, m, k);
        RunsFrame(y, m, d, k);
      case IndexExpr(x, y) =>
        var m :| Runs(x, c, m) && Runs(y, m, d);
        RunsFrame(x, c, m, k);
        RunsFrame(y, m, d, k);
      case CallExpr(callee, args) =>
        var m :| Runs(callee, c, m) && RunsArgs(args, m, d);
        RunsFrame(callee, c, m, k);
        RunsArgsFrame(args, m, d, k);
    }
  }

  lemma {:induction false} RunsSomeFrame(x: Option<Expr>, c: World, d: World, k: nat)
    requires WalkedSome(x) && RunsSome(x, c, d) && k < |c.env| && c.env[k].name !in GivenAwaySome(x)
    ensures Untouched(c, d, k)
    decreases x
  {
    hide Runs, Walked, GivenAway;
    if x.Some? {
      RunsFrame(x.value, c, d, k);
    }
  }

  lemma {:induction false} RunsArgsFrame(args: seq<Expr>, c: World, d: World, k: nat)
    requires WalkedAll(args) && RunsArgs(args, c, d) && k < |c.env| && c.env[k].name !in GivenAwayArgs(args)
    ensures Untouched(c, d, k)
    decreases args
  {
    hide Runs, Walked, GivenAway, RootName, GiveAway;
    if args != [] {
      var m :| RunsArg(args[0], c, m) && RunsArgs(args[1..], m, d);
      var p :| Runs(args[0], c, p) && m == GiveAway(args[0], p);
      RunsFrame(args[0], c, p, k);
      GiveAwayFrames(args[0], p, k);
      RunsArgsFrame(args[1..], m, d, k);
    }
  }

  lemma {:induction false} GivenInArms(arms: seq<Arm>, i: nat)
    requires i < |arms|
    ensures GivenAwayArm(arms[i]) <= GivenAwayArms(arms) && MentionedArm(arms[i]) <= MentionedArms(arms)
  {
    hide GivenAwayArm, MentionedArm;
    if i < |arms| - 1 {
      GivenInArms(arms[..|arms|-1], i);
    }
  }

  lemma {:induction false} BranchFrame(e: Expr, x: Option<Expr>, arms: seq<Arm>, c: World, d: World, k: nat)
    requires e.Branch? && e.scrutinee == x && e.arms == arms && WalkedSome(x) && WalkedArms(arms)
    requires exists m :: RunsSome(x, c, m) && (d == m || exists i | 0 <= i < |arms| :: RunsArm(arms[i], m, d))
    requires k < |c.env| && c.env[k].name !in GivenAwaySome(x) + GivenAwayArms(arms)
    ensures Untouched(c, d, k)
    decreases e, 0
  {
    hide RunsSome, RunsArm, WalkedSome, WalkedArms, GivenAwaySome, GivenAwayArms, WalkedArm;
    var m :| RunsSome(x, c, m) && (d == m || exists i | 0 <= i < |arms| :: RunsArm(arms[i], m, d));
    RunsSomeFrame(x, c, m, k);
    if d != m {
      var i :| 0 <= i < |arms| && RunsArm(arms[i], m, d);
      WalkedArmAt(arms, i);
      GivenInArms(arms, i);
      RunsArmFrame(arms[i], m, d, k);
    }
  }

  lemma {:induction false} RunsArmFrame(arm: Arm, c: World, d: World, k: nat)
    requires WalkedArm(arm) && RunsArm(arm, c, d) && k < |c.env| && c.env[k].name !in GivenAwayArm(arm)
    ensures Untouched(c, d, k)
    decreases arm
  {
    hide Runs, Walked, GivenAway, BindAll;
    var start := BindAll(c, ArmNames(arm.pattern));
    var m :| Runs(arm.body, start, m) && d == Back(m, c);
    BindAllFrames(c, ArmNames(arm.pattern), k);
    RunsFrame(arm.body, start, m, k);
  }

  lemma {:induction false} RunsStmtsFrame(stmts: seq<Stmt>, c: World, d: World, k: nat)
    requires WalkedStmts(stmts) && RunsStmts(stmts, c, d) && k < |c.env| && c.env[k].name !in GivenAwayStmts(stmts)
    ensures Untouched(c, d, k)
    decreases stmts
  {
    hide RunsStmt, RunsDeferred, WalkedStmt, GivenAwayStmt;
    if !c.stopped && stmts != [] {
      if stmts[0].Defer? {
        var m :| RunsStmts(stmts[1..], c, m) && RunsDeferred(stmts[0], Back(m, c), d);
        RunsStmtsFrame(stmts[1..], c, m, k);
        RunsDeferredFrame(stmts[0], Back(m, c), d, k);
      } else {
        var m :| RunsStmt(stmts[0], c, m) && RunsStmts(stmts[1..], m, d);
        RunsStmtFrame(stmts[0], c, m, k);
        RunsStmtsFrame(stmts[1..], m, d, k);
      }
    }
  }

  lemma {:induction false} RunsDeferredFrame(s: Stmt, c: World, d: World, k: nat)
    requires s.Defer? && WalkedStmt(s) && RunsDeferred(s, c, d) && k < |c.env| && c.env[k].name !in GivenAwayStmt(s)
    ensures Untouched(c, d, k)
    decreases s
  {
    hide Runs, Walked, GivenAway;
    var m :| Runs(s.deferred, c.(stopped := false), m) && d == m.(stopped := c.stopped || m.stopped);
    RunsFrame(s.deferred, c.(stopped := false), m, k);
  }

  lemma {:induction false} RunsStmtFrame(s: Stmt, c: World, d: World, k: nat)
    requires !s.Defer? && WalkedStmt(s) && RunsStmt(s, c, d) && k < |c.env| && c.env[k].name !in GivenAwayStmt(s)
    ensures Untouched(c, d, k)
    decreases s
  {
    hide Runs, Walked, GivenAway, GiveAway, Bind, RootName;
    match s {
      case Let(name, _, ty, init) =>
        var m :| Runs(init, c, m) && d == Bind(GiveAway(init, m), name, Held(ty));
        RunsFrame(init, c, m, k);
        GiveAwayFrames(init, m, k);
        BindFrames(GiveAway(init, m), name, Held(ty), k);
      case Assign(target, value, _) =>
        var m :| Runs(value, c, m) && Runs(target, m, d);
        RunsFrame(value, c, m, k);
        RunsFrame(target, m, d, k);
      case ExprStmt(e) => RunsFrame(e, c, d, k);
    }
  }

  // ----- Only what is mentioned matters -----

  /** The same bindings; of those with a name in `names`, whatever has been moved in `c` has been in `d`. */
  ghost predicate Within(names: set<string>, c: World, d: World)
  {
    && c.stopped == d.stopped && SameNames(c.env, d.env)
    && forall k | 0 <= k < |c.env| && c.env[k].name in names && c.env[k].kind == Own && c.env[k].moved.Some? ::
         d.env[k].moved.Some?
  }

  /** From `c` to `d` as from `c'` to `d'`: a use after a move that is made here is made there. */
  ghost predicate Carried(names: set<string>, c: World, d: World, d': World)
  {
    Within(names, d, d') && (d.bad ==> c.bad || d'.bad)
  }

  lemma {:induction false} UseCarries(names: set<string>, c: World, c': World, name: string)
    requires Within(names, c, c') && name in names
    ensures Carried(names, c, UseName(c, name), UseName(c', name))
  {
    hide Find;
    FindSame(c.env, c'.env, name);
    var k := Find(c.env, name);
    if k.Some? {
      assert c.env[k.value].name == name;
    }
  }

  lemma {:induction false} GiveAwayCarries(names: set<string>, e: Expr, c: World, c': World)
    requires Within(names, c, c')
    ensures Carried(names, c, GiveAway(e, c), GiveAway(e, c'))
  {
    hide MarkMoved, Visible;
    if !c.stopped && Root(e).Some? {
      var name := Root(e).value;
      NamesOfMarked(c.env, name, e.span);
      NamesOfMarked(c'.env, name, e.span);
      forall k | 0 <= k < |c.env| && c.env[k].name in names && c.env[k].kind == Own && GiveAway(e, c).env[k].moved.Some?
        ensures GiveAway(e, c').env[k].moved.Some?
      {
        MarkMovedAt(c.env, name, e.span, k);
        MarkMovedAt(c'.env, name, e.span, k);
        VisibleSame(c.env, c'.env, k);
      }
    }
  }

  lemma {:induction false} BindCarries(names: set<string>, c: World, c': World, name: string, kind: BindingKind)
    requires Within(names, c, c')
    ensures Carried(names, c, Bind(c, name, kind), Bind(c', name, kind))
  {
  }

  lemma {:induction false} BindAllCarries(names: set<string>, c: World, c': World, bound: seq<string>)
    requires Within(names, c, c')
    ensures Carried(names, c, BindAll(c, bound), BindAll(c', bound))
  {
    hide Bind, Within;
    if bound != [] {
      BindAllCarries(names, c, c', bound[..|bound|-1]);
      BindCarries(names, BindAll(c, bound[..|bound|-1]), BindAll(c', bound[..|bound|-1]), bound[|bound|-1], Plain);
      BindAllBad(c', bound[..|bound|-1]);
      BindAllBad(c', bound);
    }
  }

  lemma {:induction false} BindAllBad(c: World, bound: seq<string>)
    ensures BindAll(c, bound).bad == c.bad
  {
    if bound != [] {
      BindAllBad(c, bound[..|bound|-1]);
    }
  }

  lemma {:induction false} BackCarries(names: set<string>, c: World, c': World, m: World, m': World)
    requires Within(names, c, c') && Carried(names, c, m, m')
    ensures Carried(names, c, Back(m, c), Back(m', c'))
  {
  }

  /** Two steps in a row, the second of which forgets no use after a move. */
  lemma {:induction false} CarriedOn(names: set<string>, c: World, m: World, m': World, d: World, d': World)
    requires Carried(names, c, m, m') && Carried(names, m, d, d') && (m'.bad ==> d'.bad)
    ensures Carried(names, c, d, d')
  {
    hide Within;
  }

  lemma {:induction false} RunsBad(e: Expr, c: World, d: World)
    requires Runs(e, c, d)
    ensures c.bad ==> d.bad
  {
    hide Runs, Kept, Above;
    RunsKeep(e, c, d);
  }

  lemma {:induction false} CarryRun(e: Expr, names: set<string>, c: World, d: World, c': World) returns (d': World)
    requires Walked(e) && Mentioned(e) <= names && Runs(e, c, d) && Within(names, c, c')
    ensures Runs(e, c', d') && Carried(names, c, d, d')
    decreases e, 2
  {
    SameStop(names, c, c');
    if c.stopped {
      CarryStopped(e, names, c, d, c');
      d' := c';
    } else {
      hide *;
      if e.Block? || e.CallExpr? {
        d' := CarryParts(e, names, c, d, c');
      } else if e.Binary? || e.IndexExpr? {
        d' := CarryPair(e, names, c, d, c');
      } else if e.Unary? || e.FieldExpr? || e.DerefExpr? || e.Propagate? {
        d' := CarrySingle(e, names, c, d, c');
      } else if e.Ret? || e.Jmp? || e.Branch? {
        d' := CarryLeap(e, names, c, d, c');
      } else {
        d' := CarryAtom(e, names, c, d, c');
      }
    }
  }

  lemma {:induction false} CarryStopped(e: Expr, names: set<string>, c: World, d: World, c': World)
    requires c.stopped && c'.stopped && Runs(e, c, d) && Within(names, c, c')
    ensures Runs(e, c', c') && Carried(names, c, d, c')
  {
  }

  lemma {:induction false} CarryParts(e: Expr, names: set<string>, c: World, d: World, c': World)
    returns (d': World)
    requires e.Block? || e.CallExpr?
    requires Walked(e) && Mentioned(e) <= names && Runs(e, c, d) && Within(names, c, c') && !c.stopped && !c'.stopped
    ensures Runs(e, c', d') && Carried(names, c, d, d')
    decreases e, 1
  {
    hide RunsStmts, RunsArgs, RunsSome, RunsArm, RunsInits, RunsAll, Find, Within, Carried, UseName, Back;
    hide WalkedStmts, WalkedAll, WalkedSome, WalkedArms, MentionedStmts, MentionedAll, MentionedArms, MentionedSome;
    match e {
      case Block(stmts) =>
        var m :| RunsStmts(stmts, c, m) && d == Back(m, c);
        var m' := CarryStmts(stmts, names, c, m, c');
        BackCarries(names, c, c', m, m');
        d' := Back(m', c');
      case CallExpr(callee, args) =>
        var m :| Runs(callee, c, m) && RunsArgs(args, m, d);
        var m' := CarryRun(callee, names, c, m, c');
        CarriedWithin(names, c, m, m');
        d' := CarryArgs(args, names, m, d, m');
        ArgsBad(args, m', d');
        CarriedOn(names, c, m, m', d, d');
    }
  }

  lemma {:induction false} CarryPair(e: Expr, names: set<string>, c: World, d: World, c': World)
    returns (d': World)
    requires e.Binary? || e.IndexExpr?
    requires Walked(e) && Mentioned(e) <= names && Runs(e, c, d) && Within(names, c, c') && !c.stopped && !c'.stopped
    ensures Runs(e, c', d') && Carried(names, c, d, d')
    decreases e, 1
  {
    hide RunsStmts, RunsArgs, RunsSome, RunsArm, RunsInits, RunsAll, Find, Within, Carried, UseName, Back;
    hide WalkedStmts, WalkedAll, WalkedSome, WalkedArms, MentionedStmts, MentionedAll, MentionedArms, MentionedSome;
    match e {
      case Binary(_, x, y) => d' := CarryTwo(e, x, y, names, c, d, c');
      case IndexExpr(x, y) => d' := CarryTwo(e, x, y, names, c, d, c');
    }
  }

  lemma {:induction false} CarrySingle(e: Expr, names: set<string>, c: World, d: World, c': World)
    returns (d': World)
    requires e.Unary? || e.FieldExpr? || e.DerefExpr? || e.Propagate?
    requires Walked(e) && Mentioned(e) <= names && Runs(e, c, d) && Within(names, c, c') && !c.stopped && !c'.stopped
    ensures Runs(e, c', d') && Carried(names, c, d, d')
    decreases e, 1
  {
    hide RunsStmts, RunsArgs, RunsSome, RunsArm, RunsInits, RunsAll, Find, Within, Carried, UseName, Back;
    hide WalkedStmts, WalkedAll, WalkedSome, WalkedArms, MentionedStmts, MentionedAll, MentionedArms, MentionedSome;
    match e {
      case Unary(_, x) => d' := CarryRun(x, names, c, d, c');
      case FieldExpr(x, _) => d' := CarryRun(x, names, c, d, c');
      case DerefExpr(x) => d' := CarryRun(x, names, c, d, c');
      case Propagate(x) =>
        var m :| Runs(x, c, m) && (d == m || d == m.(stopped := true));
        var m' := CarryRun(x, names, c, m, c');
        CarriedStop(names, c, m, m');
        d' := if d == m then m' else m'.(stopped := true);
    }
  }

  lemma {:induction false} CarryLeap(e: Expr, names: set<string>, c: World, d: World, c': World)
    returns (d': World)
    requires e.Ret? || e.Jmp? || e.Branch?
    requires Walked(e) && Mentioned(e) <= names && Runs(e, c, d) && Within(names, c, c') && !c.stopped && !c'.stopped
    ensures Runs(e, c', d') && Carried(names, c, d, d')
    decreases e, 1
  {
    hide RunsStmts, RunsArgs, RunsSome, RunsArm, RunsInits, RunsAll, Find, Within, Carried, UseName, Back;
    hide WalkedStmts, WalkedAll, WalkedSome, WalkedArms, MentionedStmts, MentionedAll, MentionedArms, MentionedSome;
    match e {
      case Ret(x, _) => d' := CarryLeave(e, x, names, c, d, c');
      case Jmp(x, _) => d' := CarryLeave(e, x, names, c, d, c');
      case Branch(x, arms, _) => d' := CarryBranch(e, x, arms, names, c, d, c');
    }
  }

  lemma {:induction false} CarryAtom(e: Expr, names: set<string>, c: World, d: World, c': World) returns (d': World)
    requires !e.Block? && !e.Unary? && !e.FieldExpr? && !e.DerefExpr? && !e.Propagate? && !e.Binary? && !e.IndexExpr?
    requires !e.CallExpr? && !e.Ret? && !e.Jmp? && !e.Branch?
    requires Walked(e) && Mentioned(e) <= names && Runs(e, c, d) && Within(names, c, c') && !c.stopped && !c'.stopped
    ensures Runs(e, c', d') && Carried(names, c, d, d')
  {
    hide Find, Within, Carried, UseName;
    match e {
      case Path(segments, _) =>
        if segments != [] {
          UseCarries(names, c, c', segments[0]);
          d' := UseName(c', segments[0]);
        } else {
          d' := c';
          CarriedSelf(names, c, c');
        }
      case Stop(_) =>
        d' := c'.(stopped := true);
        CarriedSelf(names, c, c');
        CarriedStop(names, c, c, c');
      case Skip(_) =>
        d' := c'.(stopped := true);
        CarriedSelf(names, c, c');
        CarriedStop(names, c, c, c');
      case _ =>
        d' := c';
        CarriedSelf(names, c, c');
    }
  }

  lemma {:induction false} SameStop(names: set<string>, c: World, c': World)
    requires Within(names, c, c')
    ensures c.stopped == c'.stopped
  {
  }

  lemma {:induction false} CarriedSelf(names: set<string>, c: World, c': World)
    requires Within(names, c, c')
    ensures Carried(names, c, c, c')
  {
  }

  lemma {:induction false} CarriedWithin(names: set<string>, c: World, d: World, d': World)
    requires Carried(names, c, d, d')
    ensures Within(names, d, d')
  {
  }

  lemma {:induction false} CarriedStop(names: set<string>, c: World, d: World, d': World)
    requires Carried(names, c, d, d')
    ensures Carried(names, c, d.(stopped := true), d'.(stopped := true))
  {
  }

  lemma {:induction false} ArgsBad(args: seq<Expr>, c: World, d: World)
    requires RunsArgs(args, c, d)
    ensures c.bad ==> d.bad
  {
    hide RunsArgs, Kept, Above;
    RunsArgsKeep(args, c, d);
  }

  lemma {:induction false} CarryTwo(
      e: Expr, x: Expr, y: Expr, names: set<string>, c: World, d: World, c': World) returns (d': World)
    requires (e.Binary? && e.lhs == x && e.rhs == y) || (e.IndexExpr? && e.base == x && e.index == y)
    requires Walked(x) && Walked(y) && Mentioned(x) + Mentioned(y) <= names && Within(names, c, c')
    requires exists m :: Runs(x, c, m) && Runs(y, m, d)
    ensures Carried(names, c, d, d') && exists m :: Runs(x, c', m) && Runs(y, m, d')
    decreases e, 0
  {
    hide *;
    var m :| Runs(x, c, m) && Runs(y, m, d);
    var m' := CarryRun(x, names, c, m, c');
    CarriedWithin(names, c, m, m');
    d' := CarryRun(y, names, m, d, m');
    RunsBad(y, m', d');
    CarriedOn(names, c, m, m', d, d');
  }

  lemma {:induction false} CarryLeave(e: Expr, x: Option<Expr>, names: set<string>, c: World, d: World, c': World)
    returns (d': World)
    requires (e.Ret? && x == e.value) || (e.Jmp? && x == e.target)
    requires WalkedSome(x) && MentionedSome(x) <= names && Within(names, c, c')
    requires exists m :: RunsSome(x, c, m) && d == m.(stopped := true)
    ensures Carried(names, c, d, d') && exists m :: RunsSome(x, c', m) && d' == m.(stopped := true)
    decreases e, 0
  {
    hide WalkedSome, MentionedSome, Within, RunsSome, Carried;
    var m :| RunsSome(x, c, m) && d == m.(stopped := true);
    var m' := CarrySome(x, names, c, m, c');
    CarriedStop(names, c, m, m');
    d' := m'.(stopped := true);
  }

  lemma {:induction false} CarrySome(
      x: Option<Expr>, names: set<string>, c: World, d: World, c': World) returns (d': World)
    requires WalkedSome(x) && MentionedSome(x) <= names && RunsSome(x, c, d) && Within(names, c, c')
    ensures RunsSome(x, c', d') && Carried(names, c, d, d')
    decreases x
  {
    hide Runs, Walked, Mentioned, Within, Carried;
    if x.Some? {
      d' := CarryRun(x.value, names, c, d, c');
    } else {
      d' := c';
      CarriedSelf(names, c, c');
    }
  }

  lemma {:induction false} CarryArgs(
      args: seq<Expr>, names: set<string>, c: World, d: World, c': World) returns (d': World)
    requires WalkedAll(args) && MentionedAll(args) <= names && RunsArgs(args, c, d) && Within(names, c, c')
    ensures RunsArgs(args, c', d') && Carried(names, c, d, d')
    decreases args
  {
    hide Runs, Walked, Mentioned, Within, Carried, GiveAway;
    if args == [] {
      d' := c';
      CarriedSelf(names, c, c');
    } else {
      var m :| RunsArg(args[0], c, m) && RunsArgs(args[1..], m, d);
      var p :| Runs(args[0], c, p) && m == GiveAway(args[0], p);
      var p' := CarryRun(args[0], names, c, p, c');
      CarriedWithin(names, c, p, p');
      GiveAwayCarries(names, args[0], p, p');
      var m' := GiveAway(args[0], p');
      GiveAwayBad(args[0], p');
      CarriedOn(names, c, p, p', m, m');
      CarriedWithin(names, c, m, m');
      assert RunsArg(args[0], c', m');
      d' := CarryArgs(args[1..], names, m, d, m');
      ArgsBad(args[1..], m', d');
      CarriedOn(names, c, m, m', d, d');
    }
  }

  lemma {:induction false} GiveAwayBad(e: Expr, c: World)
    ensures GiveAway(e, c).bad == c.bad && GiveAway(e, c).stopped == c.stopped
  {
  }

  lemma {:induction false} CarryBranch(
      e: Expr, x: Option<Expr>, arms: seq<Arm>, names: set<string>, c: World, d: World, c': World) returns (d': World)
    requires e.Branch? && e.scrutinee == x && e.arms == arms && WalkedSome(x) && WalkedArms(arms)
    requires MentionedSome(x) + MentionedArms(arms) <= names && Within(names, c, c')
    requires exists m :: RunsSome(x, c, m) && (d == m || exists i | 0 <= i < |arms| :: RunsArm(arms[i], m, d))
    ensures Carried(names, c, d, d')
    ensures exists m :: RunsSome(x, c', m) && (d' == m || exists i | 0 <= i < |arms| :: RunsArm(arms[i], m, d'))
    decreases e, 0
  {
    hide RunsSome, RunsArm, WalkedSome, WalkedArms, MentionedSome, MentionedArms, WalkedArm, Within, Carried;
    var m :| RunsSome(x, c, m) && (d == m || exists i | 0 <= i < |arms| :: RunsArm(arms[i], m, d));
    var m' := CarrySome(x, names, c, m, c');
    d' := m';
    if d != m {
      var i :| 0 <= i < |arms| && RunsArm(arms[i], m, d);
      WalkedArmAt(arms, i);
      GivenInArms(arms, i);
      CarriedWithin(names, c, m, m');
      d' := CarryArm(arms[i], names, m, d, m');
      CarriedOn(names, c, m, m', d, d');
    }
  }

  lemma {:induction false} CarryArm(arm: Arm, names: set<string>, c: World, d: World, c': World) returns (d': World)
    requires WalkedArm(arm) && MentionedArm(arm) <= names && RunsArm(arm, c, d) && Within(names, c, c')
    ensures RunsArm(arm, c', d') && Carried(names, c, d, d') && (c'.bad ==> d'.bad)
    decreases arm
  {
    hide Runs, Walked, Mentioned, Within, Carried, BindAll, Back;
    var bound := ArmNames(arm.pattern);
    var start, start' := BindAll(c, bound), BindAll(c', bound);
    var m :| Runs(arm.body, start, m) && d == Back(m, c);
    BindAllCarries(names, c, c', bound);
    CarriedWithin(names, c, start, start');
    var m' := CarryRun(arm.body, names, start, m, start');
    RunsBad(arm.body, start', m');
    BindAllBad(c', bound);
    CarriedOn(names, c, start, start', m, m');
    BackCarries(names, c, c', m, m');
    d' := Back(m', c');
    BackBad(m', c');
  }

  lemma {:induction false} BackBad(m: World, c: World)
    ensures Back(m, c).bad == m.bad && Back(m, c).stopped == m.stopped
  {
  }

  lemma {:induction false} CarryStmts(
      stmts: seq<Stmt>, names: set<string>, c: World, d: World, c': World) returns (d': World)
    requires WalkedStmts(stmts) && MentionedStmts(stmts) <= names && RunsStmts(stmts, c, d) && Within(names, c, c')
    ensures RunsStmts(stmts, c', d') && Carried(names, c, d, d') && (c'.bad ==> d'.bad)
    decreases stmts
  {
    SameStop(names, c, c');
    hide RunsStmt, RunsDeferred, WalkedStmt, MentionedStmt, Within, Carried, Back;
    if c.stopped || stmts == [] {
      d' := c';
      CarriedSelf(names, c, c');
    } else if stmts[0].Defer? {
      var m :| RunsStmts(stmts[1..], c, m) && RunsDeferred(stmts[0], Back(m, c), d);
      var m' := CarryStmts(stmts[1..], names, c, m, c');
      BackCarries(names, c, c', m, m');
      CarriedWithin(names, c, Back(m, c), Back(m', c'));
      d' := CarryDeferred(stmts[0], names, Back(m, c), d, Back(m', c'));
      BackBad(m', c');
      CarriedOn(names, c, Back(m, c), Back(m', c'), d, d');
    } else {
      var m :| RunsStmt(stmts[0], c, m) && RunsStmts(stmts[1..], m, d);
      var m' := CarryStmt(stmts[0], names, c, m, c');
      CarriedWithin(names, c, m, m');
      d' := CarryStmts(stmts[1..], names, m, d, m');
      CarriedOn(names, c, m, m', d, d');
    }
  }

  lemma {:induction false} CarryDeferred(s: Stmt, names: set<string>, c: World, d: World, c': World) returns (d': World)
    requires s.Defer? && WalkedStmt(s) && MentionedStmt(s) <= names && RunsDeferred(s, c, d) && Within(names, c, c')
    ensures RunsDeferred(s, c', d') && Carried(names, c, d, d') && (c'.bad ==> d'.bad)
    decreases s
  {
    hide Runs, Walked, Mentioned;
    var m :| Runs(s.deferred, c.(stopped := false), m) && d == m.(stopped := c.stopped || m.stopped);
    assert Within(names, c.(stopped := false), c'.(stopped := false));
    var m' := CarryRun(s.deferred, names, c.(stopped := false), m, c'.(stopped := false));
    RunsBad(s.deferred, c'.(stopped := false), m');
    d' := m'.(stopped := c'.stopped || m'.stopped);
  }

  lemma {:induction false} CarryStmt(s: Stmt, names: set<string>, c: World, d: World, c': World) returns (d': World)
    requires !s.Defer? && WalkedStmt(s) && MentionedStmt(s) <= names && RunsStmt(s, c, d) && Within(names, c, c')
    ensures RunsStmt(s, c', d') && Carried(names, c, d, d') && (c'.bad ==> d'.bad)
    decreases s
  {
    hide Runs, Walked, Mentioned, Within, Carried, GiveAway, Bind;
    match s {
      case Let(name, _, ty, init) =>
        var m :| Runs(init, c, m) && d == Bind(GiveAway(init, m), name, Held(ty));
        var m' := CarryRun(init, names, c, m, c');
        RunsBad(init, c', m');
        CarriedWithin(names, c, m, m');
        GiveAwayCarries(names, init, m, m');
        GiveAwayBad(init, m');
        var g, g' := GiveAway(init, m), GiveAway(init, m');
        CarriedOn(names, c, m, m', g, g');
        CarriedWithin(names, c, g, g');
        BindCarries(names, g, g', name, Held(ty));
        d' := Bind(g', name, Held(ty));
        BindBad(g', name, Held(ty));
        CarriedOn(names, c, g, g', d, d');
      case Assign(target, value, _) =>
        var m :| Runs(value, c, m) && Runs(target, m, d);
        var m' := CarryRun(value, names, c, m, c');
        CarriedWithin(names, c, m, m');
        d' := CarryRun(target, names, m, d, m');
        RunsBad(value, c', m');
        RunsBad(target, m', d');
        CarriedOn(names, c, m, m', d, d');
      case ExprStmt(e) =>
        d' := CarryRun(e, names, c, d, c');
        RunsBad(e, c', d');
    }
  }

  lemma {:induction false} BindBad(c: World, name: string, kind: BindingKind)
    ensures Bind(c, name, kind).bad == c.bad && Bind(c, name, kind).stopped == c.stopped
  {
  }
}
