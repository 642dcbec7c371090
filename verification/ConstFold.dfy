/** Constant folding: operators on integer constants are replaced by their result, unless evaluating
    them would trap. */
module ConstFold {
  import opened Wrappers
  import opened Hir
  import opened HirSemantics

  // ----- The fold -----

  function ExtractConstInt(o: HirOperand): Option<i128>
  {
    match o
    case ConstOp(IntConst(n)) => Some(n)
    case _ => None
  }

  function UseConst(c: Constant): HirRvalue { Use(ConstOp(c)) }

  /** The result as a constant, unless it leaves the 128-bit range. */
  function InRange(n: int): Option<HirRvalue>
  {
    if I128_MIN <= n <= I128_MAX then Some(UseConst(IntConst(n))) else None
  }

  function FoldInts(op: BinOp, a: i128, b: i128): Option<HirRvalue>
  {
    match op
    case Add => InRange(a + b)
    case Sub => InRange(a - b)
    case Mul => InRange(a * b)
    case Div => if b == 0 then None else InRange(TruncDiv(a, b))
    case Rem => if b == 0 || (a == I128_MIN && b == -1) then None else InRange(TruncRem(a, b))
    case Eq => Some(UseConst(BoolConst(a == b)))
    case Ne => Some(UseConst(BoolConst(a != b)))
    case Lt => Some(UseConst(BoolConst(a < b)))
    case Le => Some(UseConst(BoolConst(a <= b)))
    case Gt => Some(UseConst(BoolConst(a > b)))
    case Ge => Some(UseConst(BoolConst(a >= b)))
    case LogicAnd => Some(UseConst(BoolConst(a != 0 && b != 0)))
    case LogicOr => Some(UseConst(BoolConst(a != 0 || b != 0)))
    case _ => None
  }

  function TryFoldBinary(op: BinOp, l: HirOperand, r: HirOperand): Option<HirRvalue>
  {
    var a, b := ExtractConstInt(l), ExtractConstInt(r);
    if a.Some? && b.Some? then FoldInts(op, a.value, b.value) else None
  }

  function TryFoldUnary(op: UnOp, o: HirOperand): Option<HirRvalue>
  {
    var a := ExtractConstInt(o);
    if a.None? then None else
    match op
    case Neg => InRange(-(a.value as int))
    case Not => Some(UseConst(IntConst(if a.value == 0 then 1 else 0)))
    case BitNot => InRange(-(a.value as int) - 1)
  }

  function TryFold(rv: HirRvalue): Option<HirRvalue>
  {
    match rv
    case BinaryOp(op, l, r) => TryFoldBinary(op, l, r)
    case UnaryOp(op, o) => TryFoldUnary(op, o)
    case _ => None
  }

  function FoldStmt(s: HirStmt): HirStmt
  {
    if s.Assign? && TryFold(s.rhs).Some? then s.(rhs := TryFold(s.rhs).value) else s
  }

  function FoldStmts(ss: seq<HirStmt>): (r: seq<HirStmt>)
    ensures |r| == |ss| && forall i | 0 <= i < |ss| :: r[i] == FoldStmt(ss[i])
  {
    if ss == [] then [] else [FoldStmt(ss[0])] + FoldStmts(ss[1..])
  }

  function FoldBlock(b: HirBlock): HirBlock { b.(stmts := FoldStmts(b.stmts)) }

  function FoldBlocks(bs: seq<HirBlock>): (r: seq<HirBlock>)
    ensures |r| == |bs| && forall i | 0 <= i < |bs| :: r[i] == FoldBlock(bs[i])
  {
    if bs == [] then [] else [FoldBlock(bs[0])] + FoldBlocks(bs[1..])
  }

  function FoldCfg(c: Cfg): Cfg { c.(blocks := FoldBlocks(c.blocks)) }

  // ----- The pass, rewriting right-hand sides in place -----

  method FoldInPlace(stmts: seq<HirStmt>) returns (out: seq<HirStmt>, changed: bool)
    ensures out == FoldStmts(stmts)
    ensures changed <==> out != stmts
  {
    out, changed := stmts, false;
    ghost var first: nat := 0;
    for j := 0 to |stmts|
      invariant |out| == |stmts|
      invariant forall k | 0 <= k < j :: out[k] == FoldStmt(stmts[k])
      invariant forall k | j <= k < |stmts| :: out[k] == stmts[k]
      invariant if changed then first < j && out[first] != stmts[first] else out == stmts
    {
      if out[j].Assign? {
        var folded := TryFold(out[j].rhs);
        if folded.Some? {
          FoldIsUse(out[j].rhs);
          out := out[j := out[j].(rhs := folded.value)];
          changed, first := true, j;
        }
      }
    }
    assert out == FoldStmts(stmts);
  }

  method RunOnBody(body: HirBody) returns (changed: bool)
    modifies body`blocks
    ensures body.View() == FoldCfg(old(body.View()))
    ensures changed <==> body.View() != old(body.View())
  {
    var blocks := body.blocks;
    var out := blocks;
    changed := false;
    ghost var first: nat := 0;
    for i := 0 to |blocks|
      invariant |out| == |blocks|
      invariant forall k | 0 <= k < i :: out[k] == FoldBlock(blocks[k])
      invariant forall k | i <= k < |blocks| :: out[k] == blocks[k]
      invariant if changed then first < i && out[first] != blocks[first] else out == blocks
    {
      var stmts, any := FoldInPlace(out[i].stmts);
      out := out[i := out[i].(stmts := stmts)];
      if any {
        changed, first := true, i;
      }
    }
    assert out == FoldBlocks(blocks);
    body.blocks := out;
  }

  // ----- Folding keeps every value and never folds a trap -----

  lemma {:induction false} FoldIsUse(rv: HirRvalue)
    ensures TryFold(rv).Some? ==>
              && TryFold(rv).value.Use? && TryFold(rv).value.operand.ConstOp?
              && (rv.BinaryOp? || rv.UnaryOp?)
  {
  }

  /** The operators the pass knows how to fold. */
  predicate Foldable(op: BinOp)
  {
    !(op.BitAnd? || op.BitOr? || op.BitXor? || op.Shl? || op.Shr?)
  }

  lemma {:induction false} RemainderBelow(m: int, n: int)
    requires m >= 0 && n > 0
    ensures 0 <= m - n * (m / n) <= m
  {
    var q := m / n;
    assert q >= 0;
    assert n * q >= 0;
  }

  /** A truncated remainder is never larger than the dividend, so it stays in range. */
  lemma {:induction false} TruncRemBounded(a: int, b: int)
    requires b != 0
    ensures a >= 0 ==> 0 <= TruncRem(a, b) <= a
    ensures a < 0 ==> a <= TruncRem(a, b) <= 0
  {
    var m, n := if a >= 0 then a else -a, if b > 0 then b else -b;
    var q := m / n;
    RemainderBelow(m, n);
    if (a >= 0) == (b > 0) {
      assert TruncDiv(a, b) == q;
    } else {
      assert TruncDiv(a, b) == -q;
    }
    assert b * TruncDiv(a, b) == (if a >= 0 then n * q else -(n * q)) by {
      assert (-n) * (-q) == n * q;
      assert n * (-q) == -(n * q);
      assert (-n) * q == -(n * q);
    }
  }

  /** A foldable operator on constants is folded exactly when evaluating it does not trap, and then
      the constant is the value it evaluates to. */
  lemma {:induction false} BinaryFoldedIffNoTrap(env: Env, op: BinOp, a: i128, b: i128, st: Store)
    requires Foldable(op)
    ensures var rv := BinaryOp(op, ConstOp(IntConst(a)), ConstOp(IntConst(b)));
            && (TryFold(rv).Some? <==> EvalRvalue(env, rv, st) != Trap)
            && (TryFold(rv).Some? ==> EvalRvalue(env, TryFold(rv).value, st) == EvalRvalue(env, rv, st))
  {
    if op.Rem? && b != 0 {
      TruncRemBounded(a, b);
    }
  }

  lemma {:induction false} UnaryFoldedIffNoTrap(env: Env, op: UnOp, a: i128, st: Store)
    ensures var rv := UnaryOp(op, ConstOp(IntConst(a)));
            && (TryFold(rv).Some? <==> EvalRvalue(env, rv, st) != Trap)
            && (TryFold(rv).Some? ==> EvalRvalue(env, TryFold(rv).value, st) == EvalRvalue(env, rv, st))
  {
  }

  lemma {:induction false} FoldKeepsValue(env: Env, rv: HirRvalue, st: Store)
    requires TryFold(rv).Some?
    ensures EvalRvalue(env, TryFold(rv).value, st) == EvalRvalue(env, rv, st)
  {
    match rv
    case BinaryOp(op, l, r) =>
      BinaryFoldedIffNoTrap(env, op, l.c.n, r.c.n, st);
    case UnaryOp(op, o) =>
      UnaryFoldedIffNoTrap(env, op, o.c.n, st);
  }

  /** An operator of the pass on integer constants. */
  predicate OnConstants(rv: HirRvalue)
  {
    match rv
    case BinaryOp(op, ConstOp(IntConst(_)), ConstOp(IntConst(_))) => Foldable(op)
    case UnaryOp(_, ConstOp(IntConst(_))) => true
    case _ => false
  }

  /** Every statement: an operator on constants that does not trap becomes its result, and nothing else is
      touched. */
  lemma {:induction false} FoldsExactlyWhatItCan(env: Env, c: Cfg, i: nat, j: nat, st: Store)
    requires i < |c.blocks| && j < |c.blocks[i].stmts|
    ensures var d := FoldCfg(c);
            && |d.blocks| == |c.blocks| && |d.blocks[i].stmts| == |c.blocks[i].stmts|
            && var s, t := c.blocks[i].stmts[j], d.blocks[i].stmts[j];
               if s.Assign? && OnConstants(s.rhs) && EvalRvalue(env, s.rhs, st) != Trap then
                 && t.Assign? && t.rhs.Use? && t.rhs.operand.ConstOp? && t == s.(rhs := t.rhs)
                 && Val(ConstValue(t.rhs.operand.c)) == EvalRvalue(env, s.rhs, st)
               else t == s
  {
    var s := c.blocks[i].stmts[j];
    assert FoldCfg(c).blocks[i].stmts[j] == FoldStmt(s);
    if s.Assign? {
      FoldIsUse(s.rhs);
      match s.rhs {
        case BinaryOp(op, ConstOp(IntConst(a)), ConstOp(IntConst(b))) =>
          if Foldable(op) {
            BinaryFoldedIffNoTrap(env, op, a, b, st);
          }
        case UnaryOp(op, ConstOp(IntConst(a))) => UnaryFoldedIffNoTrap(env, op, a, st);
        case _ =>
      }
    }
  }

  lemma {:induction false} FoldStmtSame(env: Env, s: HirStmt, st: State)
    ensures ExecStmt(env, FoldStmt(s), st) == ExecStmt(env, s, st)
  {
    if s.Assign? && TryFold(s.rhs).Some? {
      FoldKeepsValue(env, s.rhs, st.store);
    }
  }

  lemma {:induction false} FoldStmtsSame(env: Env, ss: seq<HirStmt>, st: State)
    ensures ExecStmts(env, FoldStmts(ss), st) == ExecStmts(env, ss, st)
  {
    if ss != [] {
      FoldStmtSame(env, ss[0], st);
      assert FoldStmts(ss)[1..] == FoldStmts(ss[1..]);
      var next := ExecStmt(env, ss[0], st);
      if next.Val? {
        FoldStmtsSame(env, ss[1..], next.v);
      }
    }
  }

  lemma {:induction false} FoldFind(bs: seq<HirBlock>, id: BlockId)
    ensures var b := FindBlock(bs, id);
            FindBlock(FoldBlocks(bs), id) == if b.Some? then Some(FoldBlock(b.value)) else None
  {
    if bs != [] {
      FoldFind(bs[1..], id);
      assert FoldBlocks(bs)[1..] == FoldBlocks(bs[1..]);
    }
  }

  lemma {:induction false} FoldCfgFind(c: Cfg, id: BlockId)
    ensures var b := FindBlock(c.blocks, id);
            FindBlock(FoldCfg(c).blocks, id) == if b.Some? then Some(FoldBlock(b.value)) else None
  {
    FoldFind(c.blocks, id);
  }

  lemma {:induction false} FoldBlockSame(env: Env, b: HirBlock, st: State)
    ensures ExecBlock(env, FoldBlock(b), st) == ExecBlock(env, b, st)
  {
    FoldStmtsSame(env, b.stmts, st);
  }

  /** Folding changes no run at all: returns, traps and calls stay as they were. */
  lemma {:induction false} FoldPreservesRuns(env: Env, c: Cfg, id: BlockId, st: State, n: nat)
    ensures Run(env, FoldCfg(c), id, st, n) == Run(env, c, id, st, n)
    decreases n
  {
    hide *;
    if n == 0 {
      RunOut(env, c, id, st);
      RunOut(env, FoldCfg(c), id, st);
    } else {
      RunStep(env, c, id, st, n);
      RunStep(env, FoldCfg(c), id, st, n);
      FoldCfgFind(c, id);
      var b := FindBlock(c.blocks, id);
      if b.Some? {
        FoldBlockSame(env, b.value, st);
        var r := ExecBlock(env, b.value, st);
        if r.Val? && r.v.exit.Jump? {
          FoldPreservesRuns(env, c, r.v.exit.target, r.v.state, n - 1);
        }
      }
    }
  }

  lemma {:induction false} FoldRefines(c: Cfg)
    ensures Refines(c, FoldCfg(c))
  {
    forall env: Env, store: Store, n: nat
      ensures Run(env, FoldCfg(c), c.entry, Start(store), n) == Run(env, c, c.entry, Start(store), n)
    {
      FoldPreservesRuns(env, c, c.entry, Start(store), n);
    }
  }
}
