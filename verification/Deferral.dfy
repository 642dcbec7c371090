/** Deferred expressions: where they are written, where they run, and when that makes no difference to
    the move check. */
module Deferral {
  import opened Wrappers
  import opened Ast

  // ----- Writing deferred expressions where they run -----

  /** The expression as it is written; or, `late`, with every deferred expression moved behind what is
      left of its block: `{ s; defer e; rest }` becomes `{ s; { rest }; e }`, so that several run in
      reverse order, each in the scope in which it was written. */
  function Placed(late: bool, e: Expr): (r: Expr)
    ensures Root(r) == Root(e) && (Root(e).Some? ==> r == e) && (r.FieldExpr? <==> e.FieldExpr?)
  {
    match e
    case Block(stmts) => Block(PlacedStmts(late, stmts))
    case Binary(op, x, y) => Binary(op, Placed(late, x), Placed(late, y))
    case IndexExpr(x, y) => IndexExpr(Placed(late, x), Placed(late, y))
    case CallExpr(callee, args) => CallExpr(Placed(late, callee), PlacedAll(late, args))
    case Unary(op, x) => Unary(op, Placed(late, x))
    case FieldExpr(x, name) => FieldExpr(Placed(late, x), name)
    case DerefExpr(x) => DerefExpr(Placed(late, x))
    case Propagate(x) => Propagate(Placed(late, x))
    case Ret(x, site) => Ret(PlacedSome(late, x), site)
    case Jmp(x, tag) => Jmp(PlacedSome(late, x), tag)
    case Branch(x, arms, site) => Branch(PlacedSome(late, x), PlacedArms(late, arms), site)
    case _ => e
  }

  function PlacedSome(late: bool, x: Option<Expr>): Option<Expr>
  {
    if x.Some? then Some(Placed(late, x.value)) else None
  }

  function PlacedAll(late: bool, es: seq<Expr>): (r: seq<Expr>)
    ensures |r| == |es|
  {
    if es == [] then [] else [Placed(late, es[0])] + PlacedAll(late, es[1..])
  }

  function PlacedArms(late: bool, arms: seq<Arm>): (r: seq<Arm>)
    ensures |r| == |arms|
  {
    if arms == [] then [] else PlacedArms(late, arms[..|arms|-1]) + [PlacedArm(late, arms[|arms|-1])]
  }

  function PlacedArm(late: bool, arm: Arm): Arm { Arm(arm.pattern, Placed(late, arm.body)) }

  function PlacedStmts(late: bool, stmts: seq<Stmt>): seq<Stmt>
  {
    if stmts == [] then []
    else if late && stmts[0].Defer? then
      [ExprStmt(Block(PlacedStmts(late, stmts[1..]))), PlacedDeferred(late, stmts[0])]
    else [PlacedStmt(late, stmts[0])] + PlacedStmts(late, stmts[1..])
  }

  function PlacedDeferred(late: bool, s: Stmt): Stmt
    requires s.Defer?
  {
    ExprStmt(Placed(late, s.deferred))
  }

  function PlacedStmt(late: bool, s: Stmt): Stmt
  {
    match s
    case Let(name, isMut, ty, init) => Let(name, isMut, ty, Placed(late, init))
    case Assign(target, value, site) => Assign(Placed(late, target), Placed(late, value), site)
    case Defer(e) => Defer(Placed(late, e))
    case ExprStmt(e) => ExprStmt(Placed(late, e))
  }

  lemma {:induction false} PlacedArmAt(late: bool, arms: seq<Arm>, i: nat)
    requires i < |arms|
    ensures PlacedArms(late, arms)[i] == PlacedArm(late, arms[i])
  {
    hide PlacedArm;
    if i < |arms| - 1 {
      PlacedArmAt(late, arms[..|arms|-1], i);
    }
  }

  // ----- Left as it is written -----

  lemma {:induction false} PlacedHere(e: Expr)
    ensures Placed(false, e) == e
    decreases e
  {
    hide PlacedStmts, PlacedAll, PlacedArms, PlacedSome;
    match e {
      case Block(stmts) => PlacedStmtsHere(stmts);
      case Binary(_, x, y) =>
        PlacedHere(x);
        PlacedHere(y);
      case IndexExpr(x, y) =>
        PlacedHere(x);
        PlacedHere(y);
      case CallExpr(callee, args) =>
        PlacedHere(callee);
        PlacedAllHere(args);
      case Unary(_, x) => PlacedHere(x);
      case FieldExpr(x, _) => PlacedHere(x);
      case DerefExpr(x) => PlacedHere(x);
      case Propagate(x) => PlacedHere(x);
      case Ret(x, _) => PlacedSomeHere(x);
      case Jmp(x, _) => PlacedSomeHere(x);
      case Branch(x, arms, _) =>
        PlacedSomeHere(x);
        PlacedArmsHere(arms);
      case _ =>
    }
  }

  lemma {:induction false} PlacedSomeHere(x: Option<Expr>)
    ensures PlacedSome(false, x) == x
    decreases x
  {
    hide Placed;
    if x.Some? {
      PlacedHere(x.value);
    }
  }

  lemma {:induction false} PlacedAllHere(es: seq<Expr>)
    ensures PlacedAll(false, es) == es
    decreases es
  {
    hide Placed;
    if es != [] {
      PlacedHere(es[0]);
      PlacedAllHere(es[1..]);
    }
  }

  lemma {:induction false} PlacedArmsHere(arms: seq<Arm>)
    ensures PlacedArms(false, arms) == arms
    decreases arms
  {
    hide PlacedArm;
    if arms != [] {
      PlacedArmsHere(arms[..|arms|-1]);
      PlacedArmHere(arms[|arms|-1]);
    }
  }

  lemma {:induction false} PlacedArmHere(arm: Arm)
    ensures PlacedArm(false, arm) == arm
    decreases arm
  {
    PlacedHere(arm.body);
  }

  lemma {:induction false} PlacedStmtsHere(stmts: seq<Stmt>)
    ensures PlacedStmts(false, stmts) == stmts
    decreases stmts
  {
    hide PlacedStmt;
    if stmts != [] {
      PlacedStmtHere(stmts[0]);
      PlacedStmtsHere(stmts[1..]);
    }
  }

  lemma {:induction false} PlacedStmtHere(s: Stmt)
    ensures PlacedStmt(false, s) == s
    decreases s
  {
    hide Placed;
    match s {
      case Let(_, _, _, init) => PlacedHere(init);
      case Assign(target, value, _) =>
        PlacedHere(target);
        PlacedHere(value);
      case Defer(e) => PlacedHere(e);
      case ExprStmt(e) => PlacedHere(e);
    }
  }

  // ----- Names that are mentioned, and names that are given away -----

  function RootName(e: Expr): set<string> { if Root(e).Some? then {Root(e).value} else {} }

  function Mentioned(e: Expr): set<string>
  {
    match e
    case Path(segments, _) => if segments != [] then {segments[0]} else {}
    case Block(stmts) => MentionedStmts(stmts)
    case Binary(_, x, y) => Mentioned(x) + Mentioned(y)
    case IndexExpr(x, y) => Mentioned(x) + Mentioned(y)
    case CallExpr(callee, args) => Mentioned(callee) + MentionedAll(args)
    case Unary(_, x) => Mentioned(x)
    case FieldExpr(x, _) => Mentioned(x)
    case DerefExpr(x) => Mentioned(x)
    case Propagate(x) => Mentioned(x)
    case Ret(x, _) => MentionedSome(x)
    case Jmp(x, _) => MentionedSome(x)
    case Branch(x, arms, _) => MentionedSome(x) + MentionedArms(arms)
    case _ => {}
  }

  function MentionedSome(x: Option<Expr>): set<string> { if x.Some? then Mentioned(x.value) else {} }

  function MentionedAll(es: seq<Expr>): set<string>
  {
    if es == [] then {} else Mentioned(es[0]) + MentionedAll(es[1..])
  }

  function MentionedArms(arms: seq<Arm>): set<string>
  {
    if arms == [] then {} else MentionedArms(arms[..|arms|-1]) + MentionedArm(arms[|arms|-1])
  }

  function MentionedArm(arm: Arm): set<string> { Mentioned(arm.body) }

  function MentionedStmts(stmts: seq<Stmt>): set<string>
  {
    if stmts == [] then {} else MentionedStmt(stmts[0]) + MentionedStmts(stmts[1..])
  }

  function MentionedStmt(s: Stmt): set<string>
  {
    match s
    case Let(_, _, _, init) => Mentioned(init)
    case Assign(target, value, _) => Mentioned(target) + Mentioned(value)
    case Defer(e) => Mentioned(e)
    case ExprStmt(e) => Mentioned(e)
  }

  /** Names that initialise a binding or are passed to a call. */
  function GivenAway(e: Expr): set<string>
  {
    match e
    case Block(stmts) => GivenAwayStmts(stmts)
    case Binary(_, x, y) => GivenAway(x) + GivenAway(y)
    case IndexExpr(x, y) => GivenAway(x) + GivenAway(y)
    case CallExpr(callee, args) => GivenAway(callee) + GivenAwayArgs(args)
    case Unary(_, x) => GivenAway(x)
    case FieldExpr(x, _) => GivenAway(x)
    case DerefExpr(x) => GivenAway(x)
    case Propagate(x) => GivenAway(x)
    case Ret(x, _) => GivenAwaySome(x)
    case Jmp(x, _) => GivenAwaySome(x)
    case Branch(x, arms, _) => GivenAwaySome(x) + GivenAwayArms(arms)
    case _ => {}
  }

  function GivenAwaySome(x: Option<Expr>): set<string> { if x.Some? then GivenAway(x.value) else {} }

  function GivenAwayArgs(args: seq<Expr>): set<string>
  {
    if args == [] then {} else GivenAway(args[0]) + RootName(args[0]) + GivenAwayArgs(args[1..])
  }

  function GivenAwayArms(arms: seq<Arm>): set<string>
  {
    if arms == [] then {} else GivenAwayArms(arms[..|arms|-1]) + GivenAwayArm(arms[|arms|-1])
  }

  function GivenAwayArm(arm: Arm): set<string> { GivenAway(arm.body) }

  function GivenAwayStmts(stmts: seq<Stmt>): set<string>
  {
    if stmts == [] then {} else GivenAwayStmt(stmts[0]) + GivenAwayStmts(stmts[1..])
  }

  function GivenAwayStmt(s: Stmt): set<string>
  {
    match s
    case Let(_, _, _, init) => GivenAway(init) + RootName(init)
    case Assign(target, value, _) => GivenAway(target) + GivenAway(value)
    case Defer(e) => GivenAway(e)
    case ExprStmt(e) => GivenAway(e)
  }

  // ----- Deferred expressions that may be checked where they are written -----

  /** No name mentioned in a deferred expression is given away by what follows it in its block. */
  predicate Orderly(e: Expr)
  {
    match e
    case Block(stmts) => OrderlyStmts(stmts)
    case Binary(_, x, y) => Orderly(x) && Orderly(y)
    case IndexExpr(x, y) => Orderly(x) && Orderly(y)
    case CallExpr(callee, args) => Orderly(callee) && OrderlyAll(args)
    case Unary(_, x) => Orderly(x)
    case FieldExpr(x, _) => Orderly(x)
    case DerefExpr(x) => Orderly(x)
    case Propagate(x) => Orderly(x)
    case Ret(x, _) => OrderlySome(x)
    case Jmp(x, _) => OrderlySome(x)
    case Branch(x, arms, _) => OrderlySome(x) && OrderlyArms(arms)
    case _ => true
  }

  predicate OrderlySome(x: Option<Expr>) { x.Some? ==> Orderly(x.value) }

  predicate OrderlyAll(es: seq<Expr>)
  {
    es == [] || (Orderly(es[0]) && OrderlyAll(es[1..]))
  }

  predicate OrderlyArms(arms: seq<Arm>)
  {
    arms == [] || (OrderlyArms(arms[..|arms|-1]) && OrderlyArm(arms[|arms|-1]))
  }

  predicate OrderlyArm(arm: Arm) { Orderly(arm.body) }

  predicate OrderlyStmts(stmts: seq<Stmt>)
  {
    stmts == [] ||
    (OrderlyStmt(stmts[0]) && OrderlyStmts(stmts[1..]) &&
     (stmts[0].Defer? ==> MentionedStmt(stmts[0]) !! GivenAwayStmts(stmts[1..])))
  }

  predicate OrderlyStmt(s: Stmt)
  {
    match s
    case Let(_, _, _, init) => Orderly(init)
    case Assign(target, value, _) => Orderly(target) && Orderly(value)
    case Defer(e) => Orderly(e)
    case ExprStmt(e) => Orderly(e)
  }

  lemma {:induction false} OrderlyArmAt(arms: seq<Arm>, i: nat)
    requires OrderlyArms(arms) && i < |arms|
    ensures OrderlyArm(arms[i])
  {
    if i < |arms| - 1 {
      OrderlyArmAt(arms[..|arms|-1], i);
    }
  }

  lemma {:induction false} GivenIsMentioned(e: Expr)
    ensures GivenAway(e) + RootName(e) <= Mentioned(e)
    decreases e
  {
    hide MentionedStmts, MentionedAll, MentionedArms, MentionedSome, GivenAwayStmts, GivenAwayArgs, GivenAwayArms;
    hide GivenAwaySome;
    match e {
      case Block(stmts) => GivenIsMentionedStmts(stmts);
      case Binary(_, x, y) =>
        GivenIsMentioned(x);
        GivenIsMentioned(y);
      case IndexExpr(x, y) =>
        GivenIsMentioned(x);
        GivenIsMentioned(y);
      case CallExpr(callee, args) =>
        GivenIsMentioned(callee);
        GivenIsMentionedArgs(args);
      case Unary(_, x) => GivenIsMentioned(x);
      case FieldExpr(x, _) => GivenIsMentioned(x);
      case DerefExpr(x) => GivenIsMentioned(x);
      case Propagate(x) => GivenIsMentioned(x);
      case Ret(x, _) => GivenIsMentionedSome(x);
      case Jmp(x, _) => GivenIsMentionedSome(x);
      case Branch(x, arms, _) =>
        GivenIsMentionedSome(x);
        GivenIsMentionedArms(arms);
      case _ =>
    }
  }

  lemma {:induction false} GivenIsMentionedSome(x: Option<Expr>)
    ensures GivenAwaySome(x) <= MentionedSome(x)
    decreases x
  {
    hide GivenAway, Mentioned;
    if x.Some? {
      GivenIsMentioned(x.value);
    }
  }

  lemma {:induction false} GivenIsMentionedArgs(args: seq<Expr>)
    ensures GivenAwayArgs(args) <= MentionedAll(args)
    decreases args
  {
    hide GivenAway, Mentioned, RootName;
    if args != [] {
      GivenIsMentioned(args[0]);
      GivenIsMentionedArgs(args[1..]);
    }
  }

  lemma {:induction false} GivenIsMentionedArms(arms: seq<Arm>)
    ensures GivenAwayArms(arms) <= MentionedArms(arms)
    decreases arms
  {
    hide GivenAwayArm, MentionedArm;
    if arms != [] {
      GivenIsMentionedArms(arms[..|arms|-1]);
      GivenIsMentionedArm(arms[|arms|-1]);
    }
  }

  lemma {:induction false} GivenIsMentionedArm(arm: Arm)
    ensures GivenAwayArm(arm) <= MentionedArm(arm)
    decreases arm
  {
    GivenIsMentioned(arm.body);
  }

  lemma {:induction false} GivenIsMentionedStmts(stmts: seq<Stmt>)
    ensures GivenAwayStmts(stmts) <= MentionedStmts(stmts)
    decreases stmts
  {
    hide GivenAwayStmt, MentionedStmt;
    if stmts != [] {
      GivenIsMentionedStmt(stmts[0]);
      GivenIsMentionedStmts(stmts[1..]);
    }
  }

  lemma {:induction false} GivenIsMentionedStmt(s: Stmt)
    ensures GivenAwayStmt(s) <= MentionedStmt(s)
    decreases s
  {
    hide GivenAway, Mentioned, RootName;
    match s {
      case Let(_, _, _, init) => GivenIsMentioned(init);
      case Assign(target, value, _) =>
        GivenIsMentioned(target);
        GivenIsMentioned(value);
      case Defer(e) => GivenIsMentioned(e);
      case ExprStmt(e) => GivenIsMentioned(e);
    }
  }
}
