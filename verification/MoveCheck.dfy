/** The escape checker: what it does to its context and its sink, as functions of both; and the checker
    itself, which works on them in place. */
module MoveCheck {
  import opened Wrappers
  import opened Diag
  import opened Ast
  import opened Escape

  const USE_AFTER_MOVE := 5001
  const BORROW_ESCAPES_TO_HEAP := 5002
  const BORROW_ESCAPES_TO_RETURN := 5003

  /** The bindings in scope, the depth of the innermost scope, and everything emitted. */
  datatype Checking = Checking(env: Bindings, depth: nat, log: seq<Diagnostic>)

  function Report(a: Checking, code: nat, site: Span): Checking
  {
    a.(log := a.log + [MakeError(code, At(site))])
  }

  /** A use of a name; only an own binding that has been moved is reported. */
  function CheckUse(a: Checking, name: string, site: Span): Checking
  {
    var k := Find(a.env, name);
    if k.Some? && a.env[k.value].kind == Own && a.env[k.value].moved.Some? then Report(a, USE_AFTER_MOVE, site) else a
  }

  predicate IsLocalBorrow(env: Bindings, name: string)
  {
    var k := Find(env, name);
    k.Some? && env[k.value].kind == Borrow && env[k.value].depth > 0
  }

  function KindOf(ty: TypeExpr): BindingKind
  {
    match ty
    case OwnType(_) => Own
    case BorrowType(_) => Borrow
    case _ => Plain
  }

  function KindOfLet(ty: Option<TypeExpr>): BindingKind
  {
    if ty.Some? then KindOf(ty.value) else Plain
  }

  function Define(a: Checking, name: string, kind: BindingKind): Checking
  {
    a.(env := a.env + [Binding(name, kind, None, a.depth)])
  }

  function DefineAll(a: Checking, names: seq<string>): Checking
  {
    if names == [] then a else Define(DefineAll(a, names[..|names|-1]), names[|names|-1], Plain)
  }

  /** The names a pattern brings into the scope of its arm, as plain bindings. */
  function ArmNames(p: ArmPattern): seq<string>
  {
    match p
    case BindArm(name) => [name]
    case VariantArm(_, bindings) => bindings
    case _ => []
  }

  function Enter(a: Checking): Checking { a.(depth := a.depth + 1) }

  /** Back to the bindings and the depth of `outer`. */
  function Leave(a: Checking, outer: Checking): Checking
  {
    a.(env := if |outer.env| <= |a.env| then a.env[..|outer.env|] else a.env, depth := outer.depth)
  }

  // ----- The walk -----

  function CheckExpr(e: Expr, a: Checking): Checking
    decreases e
  {
    match e
    case Block(stmts) => Leave(CheckStmts(stmts, Enter(a)), a)
    case Ret(value, site) => CheckRet(value, a, site)
    case CallExpr(callee, args) => CheckArgs(args, CheckExpr(callee, a))
    case Path(segments, site) => if segments != [] then CheckUse(a, segments[0], site) else a
    case Binary(_, lhs, rhs) => CheckExpr(rhs, CheckExpr(lhs, a))
    case Unary(_, operand) => CheckExpr(operand, a)
    case FieldExpr(base, _) => CheckExpr(base, a)
    case IndexExpr(base, index) => CheckExpr(index, CheckExpr(base, a))
    case DerefExpr(operand) => CheckExpr(operand, a)
    case Propagate(operand) => CheckExpr(operand, a)
    case Jmp(target, _) => CheckSome(target, a)
    case Loop(_, subject, body) => CheckExpr(body, CheckSome(subject, a))
    case Branch(scrutinee, arms, site) => CheckBranch(arms, site, CheckSome(scrutinee, a))
    case _ => a
  }

  function CheckSome(e: Option<Expr>, a: Checking): Checking
    decreases e
  {
    if e.Some? then CheckExpr(e.value, a) else a
  }

  function CheckRet(value: Option<Expr>, a: Checking, site: Span): Checking
    decreases value
  {
    if value.Some? then CheckEscape(value.value, CheckExpr(value.value, a), site) else a
  }

  function CheckEscape(value: Expr, a: Checking, site: Span): Checking
  {
    if Root(value).Some? && IsLocalBorrow(a.env, Root(value).value)
        then Report(a, BORROW_ESCAPES_TO_RETURN, site) else a
  }

  function CheckArgs(args: seq<Expr>, a: Checking): Checking
    decreases args
  {
    if args == [] then a else CheckArgs(args[1..], HandOver(args[0], CheckExpr(args[0], a)))
  }

  /** Passing a name is one more use of it, and moves it. */
  function HandOver(arg: Expr, a: Checking): Checking
  {
    if Root(arg).None? then a else
    var b := CheckUse(a, Root(arg).value, arg.span);
    b.(env := MarkMoved(b.env, Root(arg).value, arg.span))
  }

  /** Every arm starts from the states before the branch; afterwards a binding counts as moved if it did
      before or after any arm. */
  function CheckBranch(arms: seq<Arm>, site: Span, a: Checking): Checking
    decreases arms, 1
  {
    var base := Snapshot(a.env);
    var (b, snaps) := CheckArms(arms, base, a);
    b.(env := Join(Restore(b.env, base), snaps, site))
  }

  function CheckArms(arms: seq<Arm>, base: seq<OwnState>, a: Checking): (Checking, seq<seq<OwnState>>)
    decreases arms, 0
  {
    if arms == [] then (a, []) else
    var (b, snaps) := CheckArms(arms[..|arms|-1], base, a);
    var c := CheckArm(arms[|arms|-1], b.(env := Restore(b.env, base)));
    (c, snaps + [Snapshot(c.env)])
  }

  function CheckArm(arm: Arm, a: Checking): Checking
    decreases arm
  {
    Leave(CheckExpr(arm.body, DefineAll(Enter(a), ArmNames(arm.pattern))), a)
  }

  function Join(env: Bindings, snaps: seq<seq<OwnState>>, site: Span): Bindings
  {
    if snaps == [] then env else MarkAll(Join(env, snaps[..|snaps|-1], site), snaps[|snaps|-1], site)
  }

  function CheckStmts(stmts: seq<Stmt>, a: Checking): Checking
    decreases stmts
  {
    if stmts == [] then a else CheckStmts(stmts[1..], CheckStmt(stmts[0], a))
  }

  function CheckStmt(s: Stmt, a: Checking): Checking
    decreases s
  {
    match s
    case Let(name, _, ty, init) => Define(MoveOut(init, CheckExpr(init, a)), name, KindOfLet(ty))
    case Assign(target, value, site) => CheckExpr(target, CheckStore(target, value, CheckExpr(value, a), site))
    case Defer(e) => CheckExpr(e, a)
    case ExprStmt(e) => CheckExpr(e, a)
  }

  function CheckStore(target: Expr, value: Expr, a: Checking, site: Span): Checking
  {
    if target.FieldExpr? && Root(value).Some? && IsLocalBorrow(a.env, Root(value).value) then
      Report(a, BORROW_ESCAPES_TO_HEAP, site)
    else a
  }

  /** Initialising from a name moves it. */
  function MoveOut(init: Expr, a: Checking): Checking
  {
    if Root(init).Some? then a.(env := MarkMoved(a.env, Root(init).value, init.span)) else a
  }

  function DefineParams(a: Checking, params: seq<Param>): Checking
  {
    if params == [] then a else
    var last := params[|params|-1];
    Define(DefineParams(a, params[..|params|-1]), last.name, KindOf(last.ty))
  }

  function CheckFunc(f: Func, log: seq<Diagnostic>): Checking
  {
    CheckExpr(f.body, DefineParams(Checking([], 0, log), f.params))
  }

  function CheckFuncs(fs: seq<Func>, log: seq<Diagnostic>): seq<Diagnostic>
  {
    if fs == [] then log else CheckFunc(fs[|fs|-1], CheckFuncs(fs[..|fs|-1], log)).log
  }

  // ----- The checker -----

  class EscapeChecker {
    var ctx: EscapeContext
    const sink: DiagSink

    ghost predicate Valid()
      reads this, ctx, sink
    {
      sink.Valid() && ctx.scopes != []
    }

    ghost function View(): Checking
      reads this, ctx, sink
    {
      Checking(Flat(ctx.scopes), ctx.Depth(), sink.log)
    }

    constructor (sink: DiagSink)
      requires sink.Valid()
      ensures Valid() && this.sink == sink && fresh(ctx)
    {
      this.sink := sink;
      ctx := new EscapeContext();
    }

    /** Every function of a module; each starts from a context of its own. */
    method CheckModule(fs: seq<Func>)
      requires Valid()
      modifies this, ctx, sink
      ensures Valid() && sink.log == CheckFuncs(fs, old(sink.log))
    {
      for i := 0 to |fs|
        invariant Valid() && (ctx == old(ctx) || fresh(ctx)) && sink.log == CheckFuncs(fs[..i], old(sink.log))
      {
        assert fs[..i+1][..i] == fs[..i];
        CheckFunction(fs[i]);
      }
      assert fs[..|fs|] == fs;
    }

    method CheckFunction(f: Func)
      requires Valid()
      modifies this, sink
      ensures Valid() && fresh(ctx)
      ensures View() == CheckFunc(f, old(sink.log))
    {
      hide CheckExpr;
      ctx := new EscapeContext();
      assert Flat(ctx.scopes) == Flat(ctx.scopes[..0]) + [];
      assert f.params[..0] == [];
      for i := 0 to |f.params|
        invariant Valid() && fresh(ctx) && |ctx.scopes| == 1
        invariant View() == DefineParams(Checking([], 0, old(sink.log)), f.params[..i])
      {
        assert f.params[..i+1][..i] == f.params[..i];
        ctx.Define(Binding(f.params[i].name, KindOf(f.params[i].ty), None, 0));
      }
      assert f.params[..|f.params|] == f.params;
      Walk(f.body);
    }

    method Emit(code: nat, site: Span)
      requires Valid()
      modifies sink
      ensures Valid() && View() == Report(old(View()), code, site)
    {
      sink.Emit(MakeError(code, At(site)));
    }

    method Use(name: string, site: Span)
      requires Valid()
      modifies sink
      ensures Valid() && View() == CheckUse(old(View()), name, site)
    {
      var b := ctx.Lookup(name);
      if b.Some? && b.value.kind == Own && b.value.moved.Some? {
        Emit(USE_AFTER_MOVE, site);
      }
    }

    method LocalBorrow(name: string) returns (r: bool)
      ensures r == IsLocalBorrow(Flat(ctx.scopes), name)
    {
      var b := ctx.Lookup(name);
      r := b.Some? && b.value.kind == Borrow && b.value.depth > 0;
    }

    method Walk(e: Expr)
      requires Valid()
      modifies ctx, sink
      ensures Valid() && View() == CheckExpr(e, old(View())) && Widths(ctx.scopes) == Widths(old(ctx.scopes))
      decreases e, 1
    {
      hide *;
      match e {
        case Block(stmts) => WalkBlock(stmts);
        case Ret(value, site) => WalkRet(e, value, site);
        case CallExpr(callee, args) =>
          Walk(callee);
          WalkArgs(args);
        case Path(segments, site) =>
          if segments != [] {
            Use(segments[0], site);
          }
        case Binary(_, lhs, rhs) => WalkTwo(e, lhs, rhs);
        case IndexExpr(base, index) => WalkTwo(e, base, index);
        case Unary(_, operand) => Walk(operand);
        case FieldExpr(base, _) => Walk(base);
        case DerefExpr(operand) => Walk(operand);
        case Propagate(operand) => Walk(operand);
        case Jmp(target, _) => WalkSome(e, target);
        case Loop(_, subject, body) =>
          WalkSome(e, subject);
          Walk(body);
        case Branch(scrutinee, arms, site) =>
          WalkSome(e, scrutinee);
          WalkBranch(arms, site);
        case _ =>
      }
      OneStep(e, old(View()));
    }

    method WalkTwo(ghost e: Expr, x: Expr, y: Expr)
      requires Valid() && x < e && y < e
      modifies ctx, sink
      ensures Valid() && View() == CheckExpr(y, CheckExpr(x, old(View()))) &&
              Widths(ctx.scopes) == Widths(old(ctx.scopes))
      decreases e, 0
    {
      hide *;
      Walk(x);
      Walk(y);
    }

    method WalkSome(ghost e: Expr, x: Option<Expr>)
      requires Valid() && (x.Some? ==> x.value < e)
      modifies ctx, sink
      ensures Valid() && View() == CheckSome(x, old(View())) && Widths(ctx.scopes) == Widths(old(ctx.scopes))
      decreases e, 0
    {
      hide CheckExpr, Flat, Widths;
      if x.Some? {
        Walk(x.value);
      }
    }

    method WalkRet(ghost e: Expr, value: Option<Expr>, site: Span)
      requires Valid() && (value.Some? ==> value.value < e)
      modifies ctx, sink
      ensures Valid() && View() == CheckRet(value, old(View()), site) && Widths(ctx.scopes) == Widths(old(ctx.scopes))
      decreases e, 0
    {
      hide CheckExpr, Flat, Widths, CheckEscape;
      if value.Some? {
        Walk(value.value);
        Escape(value.value, site);
      }
    }

    method Escape(value: Expr, site: Span)
      requires Valid()
      modifies sink
      ensures Valid() && View() == CheckEscape(value, old(View()), site)
    {
      var name := Root(value);
      if name.Some? {
        var borrowed := LocalBorrow(name.value);
        if borrowed {
          Emit(BORROW_ESCAPES_TO_RETURN, site);
        }
      }
    }

    method WalkArgs(args: seq<Expr>)
      requires Valid()
      modifies ctx, sink
      ensures Valid() && View() == CheckArgs(args, old(View())) && Widths(ctx.scopes) == Widths(old(ctx.scopes))
      decreases args
    {
      hide Flat, Widths, CheckExpr, CheckUse, MarkMoved, HandOver;
      ghost var start := View();
      assert args[0..] == args;
      for i := 0 to |args|
        invariant Valid() && Widths(ctx.scopes) == Widths(old(ctx.scopes))
        invariant CheckArgs(args[i..], View()) == CheckArgs(args, start)
      {
        assert args[i..][0] == args[i] && args[i..][1..] == args[i+1..];
        Walk(args[i]);
        Pass(args[i]);
      }
    }

    method Pass(arg: Expr)
      requires Valid()
      modifies ctx, sink
      ensures Valid() && View() == HandOver(arg, old(View())) && Widths(ctx.scopes) == Widths(old(ctx.scopes))
    {
      hide Flat, Widths, CheckUse, MarkMoved;
      var name := Root(arg);
      if name.Some? {
        Use(name.value, arg.span);
        ctx.MarkAsMoved(name.value, arg.span);
        SameDepth(old(ctx.scopes), ctx.scopes);
      }
    }

    method WalkBlock(stmts: seq<Stmt>)
      requires Valid()
      modifies ctx, sink
      ensures Valid() && View() == Leave(CheckStmts(stmts, Enter(old(View()))), old(View()))
      ensures Widths(ctx.scopes) == Widths(old(ctx.scopes))
      decreases stmts
    {
      hide CheckStmt, Flat;
      ghost var outer := ctx.scopes;
      ctx.PushScope();
      ghost var start := View();
      assert stmts[0..] == stmts;
      for i := 0 to |stmts|
        invariant Valid() && Inside(outer, ctx.scopes)
        invariant CheckStmts(stmts[i..], View()) == CheckStmts(stmts, start)
      {
        assert stmts[i..][0] == stmts[i] && stmts[i..][1..] == stmts[i+1..];
        WalkStmt(stmts[i]);
      }
      Left(outer, ctx.scopes);
      ctx.PopScope();
    }

    /** A statement may add to the innermost scope only. */
    method WalkStmt(s: Stmt)
      requires Valid()
      modifies ctx, sink
      ensures Valid() && View() == CheckStmt(s, old(View())) && SameBelow(old(ctx.scopes), ctx.scopes)
      decreases s
    {
      hide Flat, CheckExpr, MarkMoved, Widths;
      match s {
        case Let(name, _, ty, init) =>
          Walk(init);
          Move(init);
          ghost var before := ctx.scopes;
          ctx.Define(Binding(name, KindOfLet(ty), None, ctx.Depth()));
          Extended(old(ctx.scopes), before, ctx.scopes);
        case Assign(target, value, site) =>
          Walk(value);
          Store(target, value, site);
          Walk(target);
          Unextended(old(ctx.scopes), ctx.scopes);
        case Defer(e) =>
          Walk(e);
          Unextended(old(ctx.scopes), ctx.scopes);
        case ExprStmt(e) =>
          Walk(e);
          Unextended(old(ctx.scopes), ctx.scopes);
      }
    }

    method Store(target: Expr, value: Expr, site: Span)
      requires Valid()
      modifies sink
      ensures Valid() && View() == CheckStore(target, value, old(View()), site)
    {
      var name := Root(value);
      if target.FieldExpr? && name.Some? {
        var borrowed := LocalBorrow(name.value);
        if borrowed {
          Emit(BORROW_ESCAPES_TO_HEAP, site);
        }
      }
    }

    method Move(init: Expr)
      requires Valid()
      modifies ctx
      ensures Valid() && View() == MoveOut(init, old(View())) && Widths(ctx.scopes) == Widths(old(ctx.scopes))
    {
      hide Flat, Widths, MarkMoved;
      var name := Root(init);
      if name.Some? {
        ctx.MarkAsMoved(name.value, init.span);
        SameDepth(old(ctx.scopes), ctx.scopes);
      }
    }

    method WalkBranch(arms: seq<Arm>, site: Span)
      requires Valid()
      modifies ctx, sink
      ensures Valid() && View() == CheckBranch(arms, site, old(View())) && Widths(ctx.scopes) == Widths(old(ctx.scopes))
      decreases arms
    {
      hide Flat, Widths, CheckArm, Snapshot, Restore, MarkAll;
      var base := ctx.SnapshotMoves();
      var snaps: seq<seq<OwnState>> := [];
      ghost var start := View();
      for i := 0 to |arms|
        invariant Valid() && Widths(ctx.scopes) == Widths(old(ctx.scopes))
        invariant (View(), snaps) == CheckArms(arms[..i], base, start)
      {
        assert arms[..i+1][..i] == arms[..i];
        RestoreTo(base);
        WalkArm(arms[i]);
        var snap := ctx.SnapshotMoves();
        snaps := snaps + [snap];
      }
      assert arms[..|arms|] == arms;
      RestoreTo(base);
      MarkJoined(snaps, site);
    }

    method RestoreTo(base: seq<OwnState>)
      requires Valid()
      modifies ctx
      ensures Valid() && View() == old(View()).(env := Restore(old(View()).env, base))
      ensures Widths(ctx.scopes) == Widths(old(ctx.scopes))
    {
      hide Flat, Widths, Restore;
      ctx.RestoreSnapshot(base);
      SameDepth(old(ctx.scopes), ctx.scopes);
    }

    method MarkJoined(snaps: seq<seq<OwnState>>, site: Span)
      requires Valid()
      modifies ctx
      ensures Valid() && View() == old(View()).(env := Join(old(View()).env, snaps, site))
      ensures Widths(ctx.scopes) == Widths(old(ctx.scopes))
    {
      hide Flat, Widths, MarkAll;
      ghost var start := View();
      for i := 0 to |snaps|
        invariant Valid() && View() == start.(env := Join(start.env, snaps[..i], site))
        invariant Widths(ctx.scopes) == Widths(old(ctx.scopes))
      {
        assert snaps[..i+1][..i] == snaps[..i];
        MarkSnap(snaps[i], site);
      }
      assert snaps[..|snaps|] == snaps;
    }

    method MarkSnap(snap: seq<OwnState>, site: Span)
      requires Valid()
      modifies ctx
      ensures Valid() && View() == old(View()).(env := MarkAll(old(View()).env, snap, site))
      ensures Widths(ctx.scopes) == Widths(old(ctx.scopes))
    {
      hide Flat, Widths, MarkMoved;
      ghost var start := View();
      for j := 0 to |snap|
        invariant Valid() && View() == start.(env := MarkAll(start.env, snap[..j], site))
        invariant Widths(ctx.scopes) == Widths(old(ctx.scopes))
      {
        assert snap[..j+1][..j] == snap[..j];
        ghost var before := ctx.scopes;
        if snap[j].moved.Some? {
          ctx.MarkAsMoved(snap[j].name, site);
          SameDepth(before, ctx.scopes);
        }
      }
      assert snap[..|snap|] == snap;
    }

    method WalkArm(arm: Arm)
      requires Valid()
      modifies ctx, sink
      ensures Valid() && View() == CheckArm(arm, old(View())) && Widths(ctx.scopes) == Widths(old(ctx.scopes))
      decreases arm
    {
      hide CheckExpr, Flat, DefineAll;
      ghost var outer := ctx.scopes;
      ctx.PushScope();
      Inject(ArmNames(arm.pattern), outer);
      ghost var inner := ctx.scopes;
      Walk(arm.body);
      StillInside(outer, inner, ctx.scopes);
      Left(outer, ctx.scopes);
      ctx.PopScope();
    }

    method Inject(names: seq<string>, ghost outer: Scopes)
      requires Valid() && Inside(outer, ctx.scopes)
      modifies ctx
      ensures Valid() && Inside(outer, ctx.scopes) && View() == DefineAll(old(View()), names)
    {
      hide Flat;
      ghost var start := View();
      var depth := ctx.Depth();
      for i := 0 to |names|
        invariant Valid() && Inside(outer, ctx.scopes) && ctx.Depth() == depth
        invariant View() == DefineAll(start, names[..i])
      {
        assert names[..i+1][..i] == names[..i];
        ctx.Define(Binding(names[i], Plain, None, depth));
      }
      assert names[..|names|] == names;
    }
  }

  /** What checking an expression comes to, in terms of its parts. */
  lemma {:induction false} OneStep(e: Expr, a: Checking)
    ensures CheckExpr(e, a) ==
            match e {
              case Block(stmts) => Leave(CheckStmts(stmts, Enter(a)), a)
              case Ret(value, site) => CheckRet(value, a, site)
              case CallExpr(callee, args) => CheckArgs(args, CheckExpr(callee, a))
              case Path(segments, site) => if segments != [] then CheckUse(a, segments[0], site) else a
              case Binary(_, lhs, rhs) => CheckExpr(rhs, CheckExpr(lhs, a))
              case IndexExpr(base, index) => CheckExpr(index, CheckExpr(base, a))
              case Unary(_, operand) => CheckExpr(operand, a)
              case FieldExpr(base, _) => CheckExpr(base, a)
              case DerefExpr(operand) => CheckExpr(operand, a)
              case Propagate(operand) => CheckExpr(operand, a)
              case Jmp(target, _) => CheckSome(target, a)
              case Loop(_, subject, body) => CheckExpr(body, CheckSome(subject, a))
              case Branch(scrutinee, arms, site) => CheckBranch(arms, site, CheckSome(scrutinee, a))
              case _ => a
            }
  {
    hide CheckStmts, CheckRet, CheckArgs, CheckUse, CheckSome, CheckBranch, Leave, Enter;
  }

  // ----- The shape of the stack -----

  ghost predicate SameBelow(s: Scopes, t: Scopes)
  {
    s != [] && |t| == |s| && Widths(t[..|t|-1]) == Widths(s[..|s|-1])
  }

  /** One scope has been entered from `outer`. */
  ghost predicate Inside(outer: Scopes, s: Scopes)
  {
    |s| == |outer| + 1 && Widths(s[..|outer|]) == Widths(outer)
  }

  lemma {:induction false} SameDepth(s: Scopes, t: Scopes)
    requires Widths(s) == Widths(t)
    ensures |s| == |t|
  {
    assert |Widths(s)| == |s| && |Widths(t)| == |t|;
  }

  lemma {:induction false} WidthsBelow(s: Scopes, t: Scopes)
    requires s != [] && Widths(s) == Widths(t)
    ensures |s| == |t| && Widths(s[..|s|-1]) == Widths(t[..|s|-1])
  {
    SameDepth(s, t);
    forall i | 0 <= i < |s| - 1 ensures |s[i]| == |t[i]| {
      assert Widths(s)[i] == Widths(t)[i];
    }
  }

  lemma {:induction false} Unextended(s: Scopes, t: Scopes)
    requires s != [] && Widths(t) == Widths(s)
    ensures SameBelow(s, t)
  {
    WidthsBelow(s, t);
  }

  lemma {:induction false} Extended(s: Scopes, m: Scopes, t: Scopes)
    requires s != [] && Widths(m) == Widths(s) && |t| == |m| && t[..|t|-1] == m[..|m|-1]
    ensures SameBelow(s, t)
  {
    WidthsBelow(s, m);
  }

  lemma {:induction false} StillInside(outer: Scopes, s: Scopes, t: Scopes)
    requires Inside(outer, s) && Widths(t) == Widths(s)
    ensures Inside(outer, t)
  {
    WidthsBelow(s, t);
  }

  /** Popping the scope leaves exactly the bindings there were outside. */
  lemma {:induction false} Left(outer: Scopes, s: Scopes)
    requires outer != [] && Inside(outer, s)
    ensures |Flat(outer)| <= |Flat(s)| && Flat(s[..|s|-1]) == Flat(s)[..|Flat(outer)|]
  {
    FlatLength(s[..|outer|], outer);
  }
}
