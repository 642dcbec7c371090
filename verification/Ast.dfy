/** The syntax tree of the front end: types, statements, expressions, arms and patterns. Spans are kept
    where a later phase reports them. */
module Ast {
  import opened Wrappers
  import opened Diag

  datatype TypeExpr =
    | NamedType(name: string)
    | BorrowType(inner: TypeExpr)
    | OwnType(inner: TypeExpr)
    | ArrayType(elem: TypeExpr, len: nat)
    | SliceType(elem: TypeExpr)
    | ErrUnionType(ok: TypeExpr, err: TypeExpr)

  datatype Param = Param(name: string, ty: TypeExpr)

  datatype Func = Func(name: string, params: seq<Param>, body: Expr)

  datatype Stmt =
    | Let(name: string, isMut: bool, ty: Option<TypeExpr>, init: Expr)
    | Assign(target: Expr, value: Expr, span: Span)
    | Defer(deferred: Expr)
    | ExprStmt(expr: Expr)

  datatype Expr =
    | IntLit(text: string)
    | FloatLit(text: string)
    | StrLit(text: string)
    | BoolLit(b: bool)
    | NilLit
    | Path(segments: seq<string>, span: Span)
    | Branch(scrutinee: Option<Expr>, arms: seq<Arm>, span: Span)
    | Loop(tag: Option<string>, subject: Option<Expr>, body: Expr)
    | CallExpr(callee: Expr, args: seq<Expr>)
    | FieldExpr(base: Expr, field: string)
    | IndexExpr(base: Expr, index: Expr)
    | DerefExpr(operand: Expr)
    | Propagate(operand: Expr)
    | Unary(unop: string, operand: Expr)
    | Binary(op: string, lhs: Expr, rhs: Expr)
    | Block(stmts: seq<Stmt>)
    | Ret(value: Option<Expr>, span: Span)
    | Stop(tag: Option<string>)
    | Skip(tag: Option<string>)
    | Jmp(target: Option<Expr>, tag: Option<string>)
    | StructLit(name: string, inits: seq<FieldInit>)
    | ArrayLit(elements: seq<Expr>)
    | VariantConstructor(name: string, payload: Option<Expr>)

  datatype FieldInit = FieldInit(name: string, value: Expr)

  datatype Arm = Arm(pattern: ArmPattern, body: Expr)

  datatype ArmPattern =
    | VariantArm(name: string, bindings: seq<string>)
    | BindArm(name: string)
    | LitArm(literal: Expr)
    | WildcardArm
    | CondArm(condition: Expr)

  /** The name a path starts with. */
  function Root(e: Expr): Option<string>
  {
    if e.Path? && e.segments != [] then Some(e.segments[0]) else None
  }
}
