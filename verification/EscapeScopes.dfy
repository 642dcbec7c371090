/** Which borrows escape is a matter of scoping alone: what the checker reports of them, read off the
    program text, whatever has been moved on the way. And nothing is ever reported moved where no type
    says `own`. */
module EscapeScopes {
  import opened Wrappers
  import opened Diag
  import opened Ast
  import opened Escape
  import opened MoveCheck

  /** The names in scope, outermost first; `lent` for those a `let` gives a borrow type. A parameter is
      as old as the caller's own bindings, so it is never one of them. */
  datatype Entry = Entry(name: string, lent: bool)

  type Scope = seq<Entry>

  /** The innermost entry of the name counts. */
  predicate Lent(scope: Scope, name: string)
  {
    scope != [] &&
    if scope[|scope|-1].name == name then scope[|scope|-1].lent else Lent(scope[..|scope|-1], name)
  }

  predicate NamesLent(e: Expr, scope: Scope)
  {
    e.Path? && e.segments != [] && Lent(scope, e.segments[0])
  }

  function Names(names: seq<string>): Scope
  {
    seq(|names|, i requires 0 <= i < |names| => Entry(names[i], false))
  }

  function Brought(p: ArmPattern): Scope
  {
    match p
    case VariantArm(_, bindings) => Names(bindings)
    case BindArm(name) => [Entry(name, false)]
    case LitArm(_) => []
    case WildcardArm => []
    case CondArm(_) => []
  }

  function LetEntry(s: Stmt): Scope
  {
    if s.Let? then [Entry(s.name, s.ty.Some? && s.ty.value.BorrowType?)] else []
  }

  // ----- The escapes of a program text -----

  function Returned(site: Span): Diagnostic { Diagnostic(Error, 5003, At(site), 1) }

  function Stored(site: Span): Diagnostic { Diagnostic(Error, 5002, At(site), 1) }

  function Escapes(e: Expr, scope: Scope): seq<Diagnostic>
    decreases e, 1
  {
    match e
    case Block(stmts) => EscapesIn(stmts, scope)
    case Ret(value, site) =>
      EscapesSome(value, scope) +
      if value.Some? && NamesLent(value.value, scope) then [Returned(site)] else []
    case CallExpr(callee, args) => Escapes(callee, scope) + EscapesAll(args, scope)
    case Binary(_, x, y) => Escapes(x, scope) + Escapes(y, scope)
    case IndexExpr(x, y) => Escapes(x, scope) + Escapes(y, scope)
    case Unary(_, x) => Escapes(x, scope)
    case FieldExpr(x, _) => Escapes(x, scope)
    case DerefExpr(x) => Escapes(x, scope)
    case Propagate(x) => Escapes(x, scope)
    case Jmp(x, _) => EscapesSome(x, scope)
    case Loop(_, x, body) => EscapesSome(x, scope) + Escapes(body, scope)
    case Branch(x, arms, _) => EscapesSome(x, scope) + EscapesArms(arms, scope)
    case _ => []
  }

  function EscapesSome(e: Option<Expr>, scope: Scope): seq<Diagnostic>
    decreases e
  {
    if e.Some? then Escapes(e.value, scope) else []
  }

  function EscapesAll(es: seq<Expr>, scope: Scope): seq<Diagnostic>
    decreases es
  {
    if es == [] then [] else Escapes(es[0], scope) + EscapesAll(es[1..], scope)
  }

  function EscapesArms(arms: seq<Arm>, scope: Scope): seq<Diagnostic>
    decreases arms
  {
    if arms == [] then [] else EscapesArms(arms[..|arms|-1], scope) + EscapesArm(arms[|arms|-1], scope)
  }

  function EscapesArm(arm: Arm, scope: Scope): seq<Diagnostic>
    decreases arm
  {
    Escapes(arm.body, scope + Brought(arm.pattern))
  }

  function EscapesIn(stmts: seq<Stmt>, scope: Scope): seq<Diagnostic>
    decreases stmts
  {
    if stmts == [] then [] else EscapesOf(stmts[0], scope) + EscapesIn(stmts[1..], scope + LetEntry(stmts[0]))
  }

  /** Storing into a field counts as storing where it may outlive the borrow. */
  function EscapesOf(s: Stmt, scope: Scope): seq<Diagnostic>
    decreases s
  {
    match s
    case Let(_, _, _, init) => Escapes(init, scope)
    case Assign(target, value, site) =>
      Escapes(value, scope) +
      (if target.FieldExpr? && NamesLent(value, scope) then [Stored(site)] else []) +
      Escapes(target, scope)
    case Defer(x) => Escapes(x, scope)
    case ExprStmt(x) => Escapes(x, scope)
  }

  // ----- The checker's row of bindings and the scope -----

  predicate Fits(b: Binding, s: Entry)
  {
    b.name == s.name && (b.kind == Borrow && b.depth > 0 <==> s.lent)
  }

  ghost predicate Agree(env: Bindings, scope: Scope)
  {
    |env| == |scope| && forall k | 0 <= k < |env| :: Fits(env[k], scope[k])
  }

  /** Only what was moved differs. */
  ghost predicate Still(a: Bindings, b: Bindings)
  {
    |a| == |b| && forall k | 0 <= k < |a| :: b[k] == a[k].(moved := b[k].moved)
  }

  lemma {:induction false} AgreeStill(a: Bindings, b: Bindings, scope: Scope)
    requires Agree(a, scope) && Still(a, b)
    ensures Agree(b, scope)
  {
  }

  lemma {:induction false} LentMeans(env: Bindings, scope: Scope, name: string)
    requires Agree(env, scope)
    ensures IsLocalBorrow(env, name) <==> Lent(scope, name)
  {
    if env != [] {
      var n := |env| - 1;
      assert Fits(env[n], scope[n]);
      if env[n].name != name {
        LentMeans(env[..n], scope[..n], name);
      }
    }
  }

  lemma {:induction false} NamesMeans(env: Bindings, scope: Scope, e: Expr)
    requires Agree(env, scope)
    ensures Root(e).Some? && IsLocalBorrow(env, Root(e).value) <==> NamesLent(e, scope)
  {
    hide Agree, IsLocalBorrow, Lent;
    if e.Path? && e.segments != [] {
      LentMeans(env, scope, e.segments[0]);
    }
  }

  lemma {:induction false} SetStateStill(env: Bindings, name: string, moved: Option<Span>)
    ensures Still(env, SetState(env, name, moved))
  {
    hide Find;
  }

  lemma {:induction false} MarkMovedStill(env: Bindings, name: string, site: Span)
    ensures Still(env, MarkMoved(env, name, site))
  {
    hide Find, SetState;
    SetStateStill(env, name, Some(site));
  }

  lemma {:induction false} StillTrans(a: Bindings, b: Bindings, c: Bindings)
    requires Still(a, b) && Still(b, c)
    ensures Still(a, c)
  {
  }

  lemma {:induction false} RestoreStill(env: Bindings, snap: seq<OwnState>)
    ensures Still(env, Restore(env, snap))
  {
    hide SetState;
    if snap != [] {
      var front, last := snap[..|snap|-1], snap[|snap|-1];
      RestoreStill(env, front);
      SetStateStill(Restore(env, front), last.name, last.moved);
    }
  }

  lemma {:induction false} MarkAllStill(env: Bindings, snap: seq<OwnState>, site: Span)
    ensures Still(env, MarkAll(env, snap, site))
  {
    hide MarkMoved;
    if snap != [] {
      var front := snap[..|snap|-1];
      MarkAllStill(env, front, site);
      MarkMovedStill(MarkAll(env, front, site), snap[|snap|-1].name, site);
    }
  }

  lemma {:induction false} JoinStill(env: Bindings, snaps: seq<seq<OwnState>>, site: Span)
    ensures Still(env, Join(env, snaps, site))
  {
    hide MarkAll;
    if snaps != [] {
      var front := snaps[..|snaps|-1];
      JoinStill(env, front, site);
      MarkAllStill(Join(env, front, site), snaps[|snaps|-1], site);
    }
  }

  // ----- What a check adds -----

  /** The reports with one of the codes, in order. */
  function Coded(log: seq<Diagnostic>, codes: set<nat>): seq<Diagnostic>
  {
    if log == [] then [] else
    Coded(log[..|log|-1], codes) + if log[|log|-1].code in codes then [log[|log|-1]] else []
  }

  const ESCAPES := {5002, 5003}

  /** From `a` to `b`: the bindings are those of the scope, and exactly these escapes are new. */
  ghost predicate Adds(a: Checking, b: Checking, scope: Scope, es: seq<Diagnostic>)
  {
    Agree(b.env, scope) && b.depth == a.depth && Coded(b.log, ESCAPES) == Coded(a.log, ESCAPES) + es
  }

  lemma {:induction false} AddsNothing(a: Checking, env: Bindings, scope: Scope)
    requires Agree(a.env, scope) && Still(a.env, env)
    ensures Adds(a, a.(env := env), scope, [])
  {
    AgreeStill(a.env, env, scope);
  }

  lemma {:induction false} AddsSelf(a: Checking, scope: Scope)
    requires Agree(a.env, scope)
    ensures Adds(a, a, scope, [])
  {
  }

  lemma {:induction false} AddsTrans(a: Checking, b: Checking, c: Checking, s: Scope, t: Scope,
                                     es: seq<Diagnostic>, fs: seq<Diagnostic>)
    requires Adds(a, b, s, es) && Adds(b, c, t, fs)
    ensures Adds(a, c, t, es + fs)
  {
    assert Coded(a.log, ESCAPES) + es + fs == Coded(a.log, ESCAPES) + (es + fs);
  }

  lemma {:induction false} ReportAdds(a: Checking, scope: Scope, code: nat, site: Span)
    requires Agree(a.env, scope)
    ensures Adds(a, Report(a, code, site), scope,
                 if code in ESCAPES then [Diagnostic(Error, code, At(site), 1)] else [])
  {
    hide Agree;
    var log := Report(a, code, site).log;
    assert log[..|log|-1] == a.log;
  }

  lemma {:induction false} UseAdds(a: Checking, scope: Scope, name: string, site: Span)
    requires Agree(a.env, scope)
    ensures Adds(a, CheckUse(a, name, site), scope, [])
  {
    hide Adds, Agree, Find, Report;
    AddsSelf(a, scope);
    ReportAdds(a, scope, USE_AFTER_MOVE, site);
  }

  lemma {:induction false} DefineAgrees(a: Checking, scope: Scope, name: string, kind: BindingKind, s: Entry)
    requires Agree(a.env, scope) && Fits(Binding(name, kind, None, a.depth), s)
    ensures Adds(a, Define(a, name, kind), scope + [s], [])
  {
    hide Coded;
  }

  lemma {:induction false} DefineAllAgrees(a: Checking, scope: Scope, names: seq<string>)
    requires Agree(a.env, scope)
    ensures Adds(a, DefineAll(a, names), scope + Names(names), [])
  {
    hide Adds, Agree;
    if names == [] {
      AddsSelf(a, scope);
      assert scope + Names(names) == scope;
    } else {
      var front, last := names[..|names|-1], names[|names|-1];
      var b := DefineAll(a, front);
      DefineAllAgrees(a, scope, front);
      AgreesThere(a, b, scope + Names(front), []);
      DefineAgrees(b, scope + Names(front), last, Plain, Entry(last, false));
      assert scope + Names(front) + [Entry(last, false)] == scope + Names(names);
      AddsTrans(a, b, DefineAll(a, names), scope + Names(front), scope + Names(names), [], []);
    }
  }

  lemma {:induction false} AgreesThere(a: Checking, b: Checking, scope: Scope, es: seq<Diagnostic>)
    requires Adds(a, b, scope, es)
    ensures Agree(b.env, scope) && b.depth == a.depth
  {
  }

  /** What came into scope since `a` goes out of scope. */
  lemma {:induction false} LeaveAdds(a: Checking, b: Checking, scope: Scope, more: Scope, es: seq<Diagnostic>)
    requires Agree(a.env, scope) && Adds(Enter(a), b, scope + more, es)
    ensures Adds(a, Leave(b, a), scope, es)
  {
    hide Coded;
    forall k | 0 <= k < |scope| ensures Fits(b.env[k], scope[k]) {
      assert (scope + more)[k] == scope[k];
    }
  }

  lemma {:induction false} CheckAdds(e: Expr, a: Checking, scope: Scope)
    requires Agree(a.env, scope)
    ensures Adds(a, CheckExpr(e, a), scope, Escapes(e, scope))
    decreases e, 2
  {
    OneStep(e, a);
    OneStepEscapes(e, scope);
    AddsSelf(a, scope);
    hide *;
    match e {
      case Block(stmts) => BlockAdds(e, stmts, a, scope);
      case Ret(value, site) => RetAdds(e, value, a, site, scope);
      case CallExpr(callee, args) =>
        var b := CheckExpr(callee, a);
        CheckAdds(callee, a, scope);
        AgreesThere(a, b, scope, Escapes(callee, scope));
        ArgsAdd(args, b, scope);
        AddsTrans(a, b, CheckArgs(args, b), scope, scope, Escapes(callee, scope), EscapesAll(args, scope));
      case Path(segments, site) =>
        if segments != [] {
          UseAdds(a, scope, segments[0], site);
        }
      case Binary(_, x, y) => TwoAdd(e, x, y, a, scope);
      case IndexExpr(x, y) => TwoAdd(e, x, y, a, scope);
      case Unary(_, x) => CheckAdds(x, a, scope);
      case FieldExpr(x, _) => CheckAdds(x, a, scope);
      case DerefExpr(x) => CheckAdds(x, a, scope);
      case Propagate(x) => CheckAdds(x, a, scope);
      case Jmp(x, _) => SomeAdds(e, x, a, scope);
      case Loop(_, x, body) =>
        var b := CheckSome(x, a);
        SomeAdds(e, x, a, scope);
        AgreesThere(a, b, scope, EscapesSome(x, scope));
        CheckAdds(body, b, scope);
        AddsTrans(a, b, CheckExpr(body, b), scope, scope, EscapesSome(x, scope), Escapes(body, scope));
      case Branch(x, arms, site) =>
        var b := CheckSome(x, a);
        SomeAdds(e, x, a, scope);
        AgreesThere(a, b, scope, EscapesSome(x, scope));
        BranchAdds(arms, site, b, scope);
        AddsTrans(a, b, CheckBranch(arms, site, b), scope, scope, EscapesSome(x, scope), EscapesArms(arms, scope));
      case _ =>
    }
  }

  lemma {:induction false} OneStepEscapes(e: Expr, scope: Scope)
    ensures Escapes(e, scope) ==
            match e {
              case Block(stmts) => EscapesIn(stmts, scope)
              case Ret(value, site) =>
                EscapesSome(value, scope) +
                if value.Some? && NamesLent(value.value, scope)
                  then [Returned(site)] else []
              case CallExpr(callee, args) => Escapes(callee, scope) + EscapesAll(args, scope)
              case Binary(_, x, y) => Escapes(x, scope) + Escapes(y, scope)
              case IndexExpr(x, y) => Escapes(x, scope) + Escapes(y, scope)
              case Unary(_, x) => Escapes(x, scope)
              case FieldExpr(x, _) => Escapes(x, scope)
              case DerefExpr(x) => Escapes(x, scope)
              case Propagate(x) => Escapes(x, scope)
              case Jmp(x, _) => EscapesSome(x, scope)
              case Loop(_, x, body) => EscapesSome(x, scope) + Escapes(body, scope)
              case Branch(x, arms, _) => EscapesSome(x, scope) + EscapesArms(arms, scope)
              case _ => []
            }
  {
    hide EscapesIn, EscapesSome, EscapesAll, EscapesArms, NamesLent;
  }

  lemma {:induction false} TwoAdd(e: Expr, x: Expr, y: Expr, a: Checking, scope: Scope)
    requires Agree(a.env, scope) && x < e && y < e
    ensures Adds(a, CheckExpr(y, CheckExpr(x, a)), scope, Escapes(x, scope) + Escapes(y, scope))
    decreases e, 1
  {
    hide *;
    var b := CheckExpr(x, a);
    CheckAdds(x, a, scope);
    AgreesThere(a, b, scope, Escapes(x, scope));
    CheckAdds(y, b, scope);
    AddsTrans(a, b, CheckExpr(y, b), scope, scope, Escapes(x, scope), Escapes(y, scope));
  }

  lemma {:induction false} SomeAdds(e: Expr, x: Option<Expr>, a: Checking, scope: Scope)
    requires Agree(a.env, scope) && (x.Some? ==> x.value < e)
    ensures Adds(a, CheckSome(x, a), scope, EscapesSome(x, scope))
    decreases e, 0
  {
    AddsSelf(a, scope);
    hide CheckExpr, Escapes, Adds, Agree;
    if x.Some? {
      CheckAdds(x.value, a, scope);
    }
  }

  lemma {:induction false} BlockAdds(e: Expr, stmts: seq<Stmt>, a: Checking, scope: Scope)
    requires Agree(a.env, scope) && e.Block? && e.stmts == stmts
    ensures Adds(a, Leave(CheckStmts(stmts, Enter(a)), a), scope, EscapesIn(stmts, scope))
    decreases e, 0
  {
    hide CheckStmts, EscapesIn, Adds, Agree, Leave;
    StmtsAdd(stmts, Enter(a), scope);
    var more :| Adds(Enter(a), CheckStmts(stmts, Enter(a)), scope + more, EscapesIn(stmts, scope));
    LeaveAdds(a, CheckStmts(stmts, Enter(a)), scope, more, EscapesIn(stmts, scope));
  }

  lemma {:induction false} RetAdds(e: Expr, x: Option<Expr>, a: Checking, site: Span, scope: Scope)
    requires Agree(a.env, scope) && (x.Some? ==> x.value < e)
    ensures Adds(a, CheckRet(x, a, site), scope,
                 EscapesSome(x, scope) +
                 if x.Some? && NamesLent(x.value, scope) then [Returned(site)] else [])
    decreases e, 0
  {
    AddsSelf(a, scope);
    hide CheckExpr, Escapes, Adds, Agree, NamesLent, IsLocalBorrow, Report;
    if x.Some? {
      var b := CheckExpr(x.value, a);
      CheckAdds(x.value, a, scope);
      AgreesThere(a, b, scope, Escapes(x.value, scope));
      NamesMeans(b.env, scope, x.value);
      AddsSelf(b, scope);
      ReportAdds(b, scope, BORROW_ESCAPES_TO_RETURN, site);
      AddsTrans(a, b, CheckRet(x, a, site), scope, scope, Escapes(x.value, scope),
                if NamesLent(x.value, scope) then [Returned(site)] else []);
    }
  }

  lemma {:induction false} ArgsAdd(args: seq<Expr>, a: Checking, scope: Scope)
    requires Agree(a.env, scope)
    ensures Adds(a, CheckArgs(args, a), scope, EscapesAll(args, scope))
    decreases args
  {
    AddsSelf(a, scope);
    hide CheckExpr, Escapes, Adds, Agree, HandOver;
    if args != [] {
      var b := CheckExpr(args[0], a);
      var c := HandOver(args[0], b);
      CheckAdds(args[0], a, scope);
      AgreesThere(a, b, scope, Escapes(args[0], scope));
      HandOverAdds(args[0], b, scope);
      AgreesThere(b, c, scope, []);
      AddsTrans(a, b, c, scope, scope, Escapes(args[0], scope), []);
      assert Escapes(args[0], scope) + [] == Escapes(args[0], scope);
      ArgsAdd(args[1..], c, scope);
      AddsTrans(a, c, CheckArgs(args, a), scope, scope, Escapes(args[0], scope), EscapesAll(args[1..], scope));
    }
  }

  lemma {:induction false} HandOverAdds(arg: Expr, a: Checking, scope: Scope)
    requires Agree(a.env, scope)
    ensures Adds(a, HandOver(arg, a), scope, [])
  {
    AddsSelf(a, scope);
    hide Adds, Agree, CheckUse, MarkMoved, Still;
    if Root(arg).Some? {
      var name := Root(arg).value;
      var b := CheckUse(a, name, arg.span);
      UseAdds(a, scope, name, arg.span);
      AgreesThere(a, b, scope, []);
      MarkMovedStill(b.env, name, arg.span);
      AddsNothing(b, MarkMoved(b.env, name, arg.span), scope);
      AddsTrans(a, b, HandOver(arg, a), scope, scope, [], []);
    }
  }

  lemma {:induction false} MoveOutAdds(init: Expr, a: Checking, scope: Scope)
    requires Agree(a.env, scope)
    ensures Adds(a, MoveOut(init, a), scope, [])
  {
    AddsSelf(a, scope);
    hide Adds, Agree, MarkMoved, Still;
    if Root(init).Some? {
      MarkMovedStill(a.env, Root(init).value, init.span);
      AddsNothing(a, MarkMoved(a.env, Root(init).value, init.span), scope);
    }
  }

  lemma {:induction false} StoreAdds(target: Expr, value: Expr, a: Checking, site: Span, scope: Scope)
    requires Agree(a.env, scope)
    ensures Adds(a, CheckStore(target, value, a, site), scope,
                 if target.FieldExpr? && NamesLent(value, scope)
                   then [Stored(site)] else [])
  {
    AddsSelf(a, scope);
    hide Adds, Agree, IsLocalBorrow, NamesLent, Report;
    NamesMeans(a.env, scope, value);
    ReportAdds(a, scope, BORROW_ESCAPES_TO_HEAP, site);
  }

  lemma {:induction false} StmtsAdd(stmts: seq<Stmt>, a: Checking, scope: Scope)
    requires Agree(a.env, scope) && a.depth > 0
    ensures exists more :: Adds(a, CheckStmts(stmts, a), scope + more, EscapesIn(stmts, scope))
    decreases stmts
  {
    AddsSelf(a, scope);
    hide CheckStmt, EscapesOf, Adds, Agree, LetEntry;
    if stmts == [] {
      assert scope + [] == scope;
    } else {
      var b, inner := CheckStmt(stmts[0], a), scope + LetEntry(stmts[0]);
      StmtAdds(stmts[0], a, scope);
      AgreesThere(a, b, inner, EscapesOf(stmts[0], scope));
      StmtsAdd(stmts[1..], b, inner);
      var rest := EscapesIn(stmts[1..], inner);
      var more :| Adds(b, CheckStmts(stmts[1..], b), inner + more, rest);
      AddsTrans(a, b, CheckStmts(stmts[1..], b), inner, inner + more, EscapesOf(stmts[0], scope), rest);
      assert inner + more == scope + (LetEntry(stmts[0]) + more);
    }
  }

  lemma {:induction false} StmtAdds(s: Stmt, a: Checking, scope: Scope)
    requires Agree(a.env, scope) && a.depth > 0
    ensures Adds(a, CheckStmt(s, a), scope + LetEntry(s), EscapesOf(s, scope))
    decreases s, 1
  {
    hide CheckExpr, Escapes, Adds, Agree, MoveOut, CheckStore, Define, NamesLent;
    match s {
      case Let(name, _, ty, init) =>
        var b := CheckExpr(init, a);
        var c := MoveOut(init, b);
        CheckAdds(init, a, scope);
        AgreesThere(a, b, scope, Escapes(init, scope));
        MoveOutAdds(init, b, scope);
        AgreesThere(b, c, scope, []);
        DefineAgrees(c, scope, name, KindOfLet(ty), LetEntry(s)[0]);
        AddsTrans(b, c, CheckStmt(s, a), scope, scope + LetEntry(s), [], []);
        AddsTrans(a, b, CheckStmt(s, a), scope, scope + LetEntry(s), Escapes(init, scope), []);
        assert Escapes(init, scope) + [] == Escapes(init, scope);
      case Assign(target, value, site) =>
        AssignAdds(s, target, value, site, a, scope);
        assert scope + LetEntry(s) == scope;
      case Defer(x) =>
        CheckAdds(x, a, scope);
        assert scope + LetEntry(s) == scope;
      case ExprStmt(x) =>
        CheckAdds(x, a, scope);
        assert scope + LetEntry(s) == scope;
    }
  }

  lemma {:induction false} AssignAdds(s: Stmt, target: Expr, value: Expr, site: Span, a: Checking, scope: Scope)
    requires Agree(a.env, scope) && s.Assign? && s.target == target && s.value == value && s.span == site
    ensures Adds(a, CheckStmt(s, a), scope, EscapesOf(s, scope))
    decreases s, 0
  {
    hide CheckExpr, Escapes, Adds, Agree, CheckStore, NamesLent;
    var b := CheckExpr(value, a);
    var c := CheckStore(target, value, b, site);
    var stored :=
      if target.FieldExpr? && NamesLent(value, scope) then [Stored(site)] else [];
    CheckAdds(value, a, scope);
    AgreesThere(a, b, scope, Escapes(value, scope));
    StoreAdds(target, value, b, site, scope);
    AgreesThere(b, c, scope, stored);
    CheckAdds(target, c, scope);
    AddsTrans(a, b, c, scope, scope, Escapes(value, scope), stored);
    AddsTrans(a, c, CheckStmt(s, a), scope, scope, Escapes(value, scope) + stored, Escapes(target, scope));
  }

  lemma {:induction false} BranchAdds(arms: seq<Arm>, site: Span, a: Checking, scope: Scope)
    requires Agree(a.env, scope)
    ensures Adds(a, CheckBranch(arms, site, a), scope, EscapesArms(arms, scope))
    decreases arms, 1
  {
    hide CheckArms, EscapesArms, Adds, Agree, Restore, Snapshot, Join, Still;
    var base := Snapshot(a.env);
    var (b, snaps) := CheckArms(arms, base, a);
    var es := EscapesArms(arms, scope);
    ArmsAdd(arms, base, a, scope);
    AgreesThere(a, b, scope, es);
    var env := Restore(b.env, base);
    RestoreStill(b.env, base);
    JoinStill(env, snaps, site);
    StillTrans(b.env, env, Join(env, snaps, site));
    AddsNothing(b, Join(env, snaps, site), scope);
    AddsTrans(a, b, CheckBranch(arms, site, a), scope, scope, es, []);
    assert es + [] == es;
  }

  lemma {:induction false} ArmsAdd(arms: seq<Arm>, base: seq<OwnState>, a: Checking, scope: Scope)
    requires Agree(a.env, scope)
    ensures Adds(a, CheckArms(arms, base, a).0, scope, EscapesArms(arms, scope))
    decreases arms, 0
  {
    AddsSelf(a, scope);
    hide CheckArm, EscapesArm, Adds, Agree, Restore, Snapshot, Still;
    if arms != [] {
      var front, last := arms[..|arms|-1], arms[|arms|-1];
      var (b, snaps) := CheckArms(front, base, a);
      var c := b.(env := Restore(b.env, base));
      var es := EscapesArms(front, scope);
      ArmsAdd(front, base, a, scope);
      AgreesThere(a, b, scope, es);
      RestoreStill(b.env, base);
      AddsNothing(b, c.env, scope);
      AgreesThere(b, c, scope, []);
      AddsTrans(a, b, c, scope, scope, es, []);
      assert es + [] == es;
      ArmAdds(last, c, scope);
      AddsTrans(a, c, CheckArm(last, c), scope, scope, es, EscapesArm(last, scope));
    }
  }

  lemma {:induction false} ArmAdds(arm: Arm, a: Checking, scope: Scope)
    requires Agree(a.env, scope)
    ensures Adds(a, CheckArm(arm, a), scope, EscapesArm(arm, scope))
    decreases arm
  {
    var start, inner := DefineAll(Enter(a), ArmNames(arm.pattern)), scope + Brought(arm.pattern);
    var es := Escapes(arm.body, inner);
    ArmNamesAre(arm.pattern);
    hide CheckExpr, Escapes, Adds, Agree, DefineAll, Leave, ArmNames, Brought;
    DefineAllAgrees(Enter(a), scope, ArmNames(arm.pattern));
    AgreesThere(Enter(a), start, inner, []);
    CheckAdds(arm.body, start, inner);
    AddsTrans(Enter(a), start, CheckExpr(arm.body, start), inner, inner, [], es);
    assert [] + es == es;
    LeaveAdds(a, CheckExpr(arm.body, start), scope, Brought(arm.pattern), es);
  }

  lemma {:induction false} ArmNamesAre(p: ArmPattern)
    ensures Names(ArmNames(p)) == Brought(p)
  {
  }

  // ----- Functions and modules -----

  function ParamNames(params: seq<Param>): seq<string>
  {
    seq(|params|, i requires 0 <= i < |params| => params[i].name)
  }

  function EscapesOfFuncs(fs: seq<Func>): seq<Diagnostic>
  {
    if fs == [] then [] else
    var last := fs[|fs|-1];
    EscapesOfFuncs(fs[..|fs|-1]) + Escapes(last.body, Names(ParamNames(last.params)))
  }

  lemma {:induction false} ParamsAgree(params: seq<Param>, log: seq<Diagnostic>)
    ensures var a := DefineParams(Checking([], 0, log), params);
            Agree(a.env, Names(ParamNames(params))) && a.depth == 0 && a.log == log
  {
    if params != [] {
      ParamsAgree(params[..|params|-1], log);
    }
  }

  /** The escapes reported of a module are those of its text, in order. */
  lemma {:induction false} EscapesAreLexical(fs: seq<Func>, log: seq<Diagnostic>)
    ensures Coded(CheckFuncs(fs, log), ESCAPES) == Coded(log, ESCAPES) + EscapesOfFuncs(fs)
  {
    hide CheckExpr, Escapes, Coded, Agree, DefineParams;
    if fs != [] {
      var front, last := fs[..|fs|-1], fs[|fs|-1];
      EscapesAreLexical(front, log);
      var before := CheckFuncs(front, log);
      var start := DefineParams(Checking([], 0, before), last.params);
      ParamsAgree(last.params, before);
      CheckAdds(last.body, start, Names(ParamNames(last.params)));
    }
  }

  // ----- Without an own type nothing is ever moved -----

  /** No `let` that is walked has an own type. */
  predicate Ownless(e: Expr)
    decreases e
  {
    match e
    case Block(stmts) => OwnlessStmts(stmts)
    case Ret(x, _) => OwnlessSome(x)
    case CallExpr(callee, args) => Ownless(callee) && OwnlessAll(args)
    case Binary(_, x, y) => Ownless(x) && Ownless(y)
    case IndexExpr(x, y) => Ownless(x) && Ownless(y)
    case Unary(_, x) => Ownless(x)
    case FieldExpr(x, _) => Ownless(x)
    case DerefExpr(x) => Ownless(x)
    case Propagate(x) => Ownless(x)
    case Jmp(x, _) => OwnlessSome(x)
    case Loop(_, x, body) => OwnlessSome(x) && Ownless(body)
    case Branch(x, arms, _) => OwnlessSome(x) && OwnlessArms(arms)
    case _ => true
  }

  predicate OwnlessSome(e: Option<Expr>)
    decreases e
  {
    e.Some? ==> Ownless(e.value)
  }

  predicate OwnlessAll(es: seq<Expr>)
    decreases es
  {
    es == [] || (Ownless(es[0]) && OwnlessAll(es[1..]))
  }

  predicate OwnlessArms(arms: seq<Arm>)
    decreases arms
  {
    arms == [] || (OwnlessArms(arms[..|arms|-1]) && OwnlessArm(arms[|arms|-1]))
  }

  predicate OwnlessArm(arm: Arm)
    decreases arm
  {
    Ownless(arm.body)
  }

  predicate OwnlessStmts(stmts: seq<Stmt>)
    decreases stmts
  {
    stmts == [] || (OwnlessStmt(stmts[0]) && OwnlessStmts(stmts[1..]))
  }

  predicate OwnlessStmt(s: Stmt)
    decreases s
  {
    match s
    case Let(_, _, ty, init) => !(ty.Some? && ty.value.OwnType?) && Ownless(init)
    case Assign(target, value, _) => Ownless(value) && Ownless(target)
    case Defer(x) => Ownless(x)
    case ExprStmt(x) => Ownless(x)
  }

  ghost predicate NoneOwn(env: Bindings) { forall b | b in env :: b.kind != Own }

  /** Still nothing is own, and no move has been reported since. */
  ghost predicate Unmoved(a: Checking, b: Checking)
  {
    NoneOwn(b.env) && Coded(b.log, {5001}) == Coded(a.log, {5001})
  }

  lemma {:induction false} UnmovedTrans(a: Checking, b: Checking, c: Checking)
    requires Unmoved(a, b) && Unmoved(b, c)
    ensures Unmoved(a, c)
  {
  }

  lemma {:induction false} UnmovedThere(a: Checking, b: Checking)
    requires Unmoved(a, b)
    ensures NoneOwn(b.env)
  {
  }

  lemma {:induction false} UnmovedSelf(a: Checking)
    requires NoneOwn(a.env)
    ensures Unmoved(a, a)
  {
  }

  lemma {:induction false} UnmovedStill(a: Checking, env: Bindings)
    requires NoneOwn(a.env) && Still(a.env, env)
    ensures Unmoved(a, a.(env := env))
  {
    hide Coded;
  }

  lemma {:induction false} UnmovedReport(a: Checking, code: nat, site: Span)
    requires NoneOwn(a.env) && code != 5001
    ensures Unmoved(a, Report(a, code, site))
  {
    hide NoneOwn;
    var log := Report(a, code, site).log;
    assert log[..|log|-1] == a.log;
  }

  lemma {:induction false} UnmovedUse(a: Checking, name: string, site: Span)
    requires NoneOwn(a.env)
    ensures CheckUse(a, name, site) == a
  {
    hide Report;
  }

  lemma {:induction false} UnmovedDefine(a: Checking, name: string, kind: BindingKind)
    requires NoneOwn(a.env) && kind != Own
    ensures Unmoved(a, Define(a, name, kind))
  {
    hide Coded;
  }

  lemma {:induction false} UnmovedDefineAll(a: Checking, names: seq<string>)
    requires NoneOwn(a.env)
    ensures Unmoved(a, DefineAll(a, names))
  {
    UnmovedSelf(a);
    hide Unmoved, NoneOwn, Define;
    if names != [] {
      var b := DefineAll(a, names[..|names|-1]);
      UnmovedDefineAll(a, names[..|names|-1]);
      UnmovedThere(a, b);
      UnmovedDefine(b, names[|names|-1], Plain);
      UnmovedTrans(a, b, DefineAll(a, names));
    }
  }

  lemma {:induction false} UnmovedLeave(a: Checking, b: Checking)
    requires Unmoved(Enter(a), b) && NoneOwn(a.env)
    ensures Unmoved(a, Leave(b, a))
  {
    hide Coded;
  }

  lemma {:induction false} OneStepOwnless(e: Expr)
    ensures Ownless(e) ==
            match e {
              case Block(stmts) => OwnlessStmts(stmts)
              case Ret(x, _) => OwnlessSome(x)
              case CallExpr(callee, args) => Ownless(callee) && OwnlessAll(args)
              case Binary(_, x, y) => Ownless(x) && Ownless(y)
              case IndexExpr(x, y) => Ownless(x) && Ownless(y)
              case Unary(_, x) => Ownless(x)
              case FieldExpr(x, _) => Ownless(x)
              case DerefExpr(x) => Ownless(x)
              case Propagate(x) => Ownless(x)
              case Jmp(x, _) => OwnlessSome(x)
              case Loop(_, x, body) => OwnlessSome(x) && Ownless(body)
              case Branch(x, arms, _) => OwnlessSome(x) && OwnlessArms(arms)
              case _ => true
            }
  {
    hide OwnlessStmts, OwnlessSome, OwnlessAll, OwnlessArms;
  }

  lemma {:induction false} CheckUnmoved(e: Expr, a: Checking)
    requires NoneOwn(a.env) && Ownless(e)
    ensures Unmoved(a, CheckExpr(e, a))
    decreases e, 2
  {
    OneStep(e, a);
    OneStepOwnless(e);
    UnmovedSelf(a);
    assert Enter(a).env == a.env;
    hide *;
    match e {
      case Block(stmts) =>
        StmtsUnmoved(stmts, Enter(a));
        UnmovedLeave(a, CheckStmts(stmts, Enter(a)));
      case Ret(x, site) => RetUnmoved(e, x, a, site);
      case CallExpr(callee, args) =>
        CheckUnmoved(callee, a);
        UnmovedThere(a, CheckExpr(callee, a));
        ArgsUnmoved(args, CheckExpr(callee, a));
        UnmovedTrans(a, CheckExpr(callee, a), CheckExpr(e, a));
      case Path(segments, site) =>
        if segments != [] {
          UnmovedUse(a, segments[0], site);
        }
      case Binary(_, x, y) => TwoUnmoved(e, x, y, a);
      case IndexExpr(x, y) => TwoUnmoved(e, x, y, a);
      case Unary(_, x) => CheckUnmoved(x, a);
      case FieldExpr(x, _) => CheckUnmoved(x, a);
      case DerefExpr(x) => CheckUnmoved(x, a);
      case Propagate(x) => CheckUnmoved(x, a);
      case Jmp(x, _) => SomeUnmoved(e, x, a);
      case Loop(_, x, body) =>
        SomeUnmoved(e, x, a);
        UnmovedThere(a, CheckSome(x, a));
        CheckUnmoved(body, CheckSome(x, a));
        UnmovedTrans(a, CheckSome(x, a), CheckExpr(e, a));
      case Branch(x, arms, site) =>
        SomeUnmoved(e, x, a);
        UnmovedThere(a, CheckSome(x, a));
        BranchUnmoved(arms, site, CheckSome(x, a));
        UnmovedTrans(a, CheckSome(x, a), CheckExpr(e, a));
      case _ =>
    }
  }

  lemma {:induction false} TwoUnmoved(e: Expr, x: Expr, y: Expr, a: Checking)
    requires NoneOwn(a.env) && Ownless(x) && Ownless(y) && x < e && y < e
    ensures Unmoved(a, CheckExpr(y, CheckExpr(x, a)))
    decreases e, 1
  {
    hide *;
    CheckUnmoved(x, a);
    UnmovedThere(a, CheckExpr(x, a));
    CheckUnmoved(y, CheckExpr(x, a));
    UnmovedTrans(a, CheckExpr(x, a), CheckExpr(y, CheckExpr(x, a)));
  }

  lemma {:induction false} SomeUnmoved(e: Expr, x: Option<Expr>, a: Checking)
    requires NoneOwn(a.env) && OwnlessSome(x) && (x.Some? ==> x.value < e)
    ensures Unmoved(a, CheckSome(x, a))
    decreases e, 0
  {
    UnmovedSelf(a);
    hide CheckExpr, Ownless, Unmoved, NoneOwn;
    if x.Some? {
      CheckUnmoved(x.value, a);
    }
  }

  lemma {:induction false} RetUnmoved(e: Expr, x: Option<Expr>, a: Checking, site: Span)
    requires NoneOwn(a.env) && OwnlessSome(x) && (x.Some? ==> x.value < e)
    ensures Unmoved(a, CheckRet(x, a, site))
    decreases e, 0
  {
    UnmovedSelf(a);
    hide CheckExpr, Ownless, Unmoved, NoneOwn, Report, IsLocalBorrow;
    if x.Some? {
      var b := CheckExpr(x.value, a);
      CheckUnmoved(x.value, a);
      UnmovedThere(a, b);
      UnmovedReport(b, BORROW_ESCAPES_TO_RETURN, site);
      UnmovedTrans(a, b, Report(b, BORROW_ESCAPES_TO_RETURN, site));
    }
  }

  lemma {:induction false} ArgsUnmoved(args: seq<Expr>, a: Checking)
    requires NoneOwn(a.env) && OwnlessAll(args)
    ensures Unmoved(a, CheckArgs(args, a))
    decreases args
  {
    UnmovedSelf(a);
    hide CheckExpr, Ownless, Unmoved, NoneOwn, HandOver;
    if args != [] {
      var b := CheckExpr(args[0], a);
      var c := HandOver(args[0], b);
      CheckUnmoved(args[0], a);
      UnmovedThere(a, b);
      HandOverUnmoved(args[0], b);
      UnmovedThere(b, c);
      UnmovedTrans(a, b, c);
      ArgsUnmoved(args[1..], c);
      UnmovedTrans(a, c, CheckArgs(args, a));
    }
  }

  lemma {:induction false} HandOverUnmoved(arg: Expr, a: Checking)
    requires NoneOwn(a.env)
    ensures Unmoved(a, HandOver(arg, a))
  {
    UnmovedSelf(a);
    hide Unmoved, NoneOwn, CheckUse, MarkMoved, Still;
    if Root(arg).Some? {
      UnmovedUse(a, Root(arg).value, arg.span);
      MarkMovedStill(a.env, Root(arg).value, arg.span);
      UnmovedStill(a, MarkMoved(a.env, Root(arg).value, arg.span));
    }
  }

  lemma {:induction false} MoveOutUnmoved(init: Expr, a: Checking)
    requires NoneOwn(a.env)
    ensures Unmoved(a, MoveOut(init, a))
  {
    UnmovedSelf(a);
    hide Unmoved, NoneOwn, MarkMoved, Still;
    if Root(init).Some? {
      MarkMovedStill(a.env, Root(init).value, init.span);
      UnmovedStill(a, MarkMoved(a.env, Root(init).value, init.span));
    }
  }

  lemma {:induction false} StoreUnmoved(target: Expr, value: Expr, a: Checking, site: Span)
    requires NoneOwn(a.env)
    ensures Unmoved(a, CheckStore(target, value, a, site))
  {
    UnmovedSelf(a);
    hide Unmoved, NoneOwn, IsLocalBorrow, Report;
    UnmovedReport(a, BORROW_ESCAPES_TO_HEAP, site);
  }

  lemma {:induction false} StmtsUnmoved(stmts: seq<Stmt>, a: Checking)
    requires NoneOwn(a.env) && OwnlessStmts(stmts)
    ensures Unmoved(a, CheckStmts(stmts, a))
    decreases stmts
  {
    UnmovedSelf(a);
    hide CheckStmt, OwnlessStmt, Unmoved, NoneOwn;
    if stmts != [] {
      var b := CheckStmt(stmts[0], a);
      StmtUnmoved(stmts[0], a);
      UnmovedThere(a, b);
      StmtsUnmoved(stmts[1..], b);
      UnmovedTrans(a, b, CheckStmts(stmts, a));
    }
  }

  lemma {:induction false} StmtUnmoved(s: Stmt, a: Checking)
    requires NoneOwn(a.env) && OwnlessStmt(s)
    ensures Unmoved(a, CheckStmt(s, a))
    decreases s
  {
    hide CheckExpr, Ownless, Unmoved, NoneOwn, MoveOut, CheckStore, Define;
    match s {
      case Let(name, _, ty, init) =>
        var b := CheckExpr(init, a);
        var c := MoveOut(init, b);
        CheckUnmoved(init, a);
        UnmovedThere(a, b);
        MoveOutUnmoved(init, b);
        UnmovedThere(b, c);
        UnmovedTrans(a, b, c);
        UnmovedDefine(c, name, KindOfLet(ty));
        UnmovedTrans(a, c, CheckStmt(s, a));
      case Assign(target, value, site) =>
        var b := CheckExpr(value, a);
        var c := CheckStore(target, value, b, site);
        CheckUnmoved(value, a);
        UnmovedThere(a, b);
        StoreUnmoved(target, value, b, site);
        UnmovedThere(b, c);
        UnmovedTrans(a, b, c);
        CheckUnmoved(target, c);
        UnmovedTrans(a, c, CheckStmt(s, a));
      case Defer(x) => CheckUnmoved(x, a);
      case ExprStmt(x) => CheckUnmoved(x, a);
    }
  }

  lemma {:induction false} BranchUnmoved(arms: seq<Arm>, site: Span, a: Checking)
    requires NoneOwn(a.env) && OwnlessArms(arms)
    ensures Unmoved(a, CheckBranch(arms, site, a))
    decreases arms, 1
  {
    hide CheckArms, OwnlessArms, Unmoved, NoneOwn, Restore, Snapshot, Join, Still;
    var base := Snapshot(a.env);
    var (b, snaps) := CheckArms(arms, base, a);
    var env := Restore(b.env, base);
    ArmsUnmoved(arms, base, a);
    UnmovedThere(a, b);
    RestoreStill(b.env, base);
    JoinStill(env, snaps, site);
    StillTrans(b.env, env, Join(env, snaps, site));
    UnmovedStill(b, Join(env, snaps, site));
    UnmovedTrans(a, b, CheckBranch(arms, site, a));
  }

  lemma {:induction false} ArmsUnmoved(arms: seq<Arm>, base: seq<OwnState>, a: Checking)
    requires NoneOwn(a.env) && OwnlessArms(arms)
    ensures Unmoved(a, CheckArms(arms, base, a).0)
    decreases arms, 0
  {
    UnmovedSelf(a);
    hide CheckArm, OwnlessArm, Unmoved, NoneOwn, Restore, Snapshot, Still;
    if arms != [] {
      var front, last := arms[..|arms|-1], arms[|arms|-1];
      var (b, snaps) := CheckArms(front, base, a);
      var c := b.(env := Restore(b.env, base));
      ArmsUnmoved(front, base, a);
      UnmovedThere(a, b);
      RestoreStill(b.env, base);
      UnmovedStill(b, c.env);
      UnmovedThere(b, c);
      UnmovedTrans(a, b, c);
      ArmUnmoved(last, c);
      UnmovedTrans(a, c, CheckArm(last, c));
    }
  }

  lemma {:induction false} ArmUnmoved(arm: Arm, a: Checking)
    requires NoneOwn(a.env) && OwnlessArm(arm)
    ensures Unmoved(a, CheckArm(arm, a))
    decreases arm
  {
    var start := DefineAll(Enter(a), ArmNames(arm.pattern));
    hide CheckExpr, Ownless, Unmoved, NoneOwn, DefineAll, Leave, ArmNames;
    UnmovedDefineAll(Enter(a), ArmNames(arm.pattern));
    UnmovedThere(Enter(a), start);
    CheckUnmoved(arm.body, start);
    UnmovedTrans(Enter(a), start, CheckExpr(arm.body, start));
    UnmovedLeave(a, CheckExpr(arm.body, start));
  }

  lemma {:induction false} ParamsNotOwn(params: seq<Param>, log: seq<Diagnostic>)
    requires forall p | p in params :: !p.ty.OwnType?
    ensures NoneOwn(DefineParams(Checking([], 0, log), params).env)
  {
    if params != [] {
      ParamsNotOwn(params[..|params|-1], log);
    }
  }

  /** A function that writes no own type is never told that it uses what was moved, whatever it does. */
  lemma {:induction false} NothingOwnNothingMoved(f: Func, log: seq<Diagnostic>)
    requires (forall p | p in f.params :: !p.ty.OwnType?) && Ownless(f.body)
    ensures Coded(CheckFunc(f, log).log, {5001}) == Coded(log, {5001})
  {
    ParamsAgree(f.params, log);
    ParamsNotOwn(f.params, log);
    CheckUnmoved(f.body, DefineParams(Checking([], 0, log), f.params));
  }
}
