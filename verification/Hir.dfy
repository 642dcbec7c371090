/** The high-level intermediate representation: function bodies as control-flow graphs. */
module Hir {
  import opened Wrappers
  import opened Diag

  type BlockId = nat
  type LocalId = nat
  type FuncId = nat

  const I128_MIN: int := -0x8000_0000_0000_0000_0000_0000_0000_0000
  const I128_MAX: int := 0x7FFF_FFFF_FFFF_FFFF_FFFF_FFFF_FFFF_FFFF

  type i128 = n: int | I128_MIN <= n <= I128_MAX

  datatype HirType =
    | Void
    | Never
    | Bool
    | Str
    | Int(width: nat, signed: bool)
    | Float(width: nat)
    | Ptr(pointee: HirType, owned: bool)
    | Array(elem: HirType, len: nat)
    | Slice(elem: HirType)
    | Struct(structId: nat)
    | Union(unionId: nat)
    | ErrUnion(ok: HirType, err: HirType)
    | FnPtr(params: seq<HirType>, ret: HirType)

  datatype BinOp =
    | Add | Sub | Mul | Div | Rem
    | BitAnd | BitOr | BitXor | Shl | Shr
    | Eq | Ne | Lt | Le | Gt | Ge
    | LogicAnd | LogicOr

  datatype UnOp = Neg | Not | BitNot

  /** Constants; the payload of a float is an opaque label. */
  datatype Constant =
    | VoidConst | BoolConst(b: bool) | IntConst(n: i128) | FloatConst(bits: nat) | StrConst(s: string) | NilConst

  datatype AggregateKind =
    | StructAgg(structId: nat)
    | UnionAgg(unionId: nat, variant: nat)
    | ArrayAgg(elem: HirType, len: nat)
    | ErrorUnionAgg(variant: nat, ty: HirType)

  datatype HirPlace =
    | Local(id: LocalId)
    | Field(base: HirPlace, field: nat)
    | Index(base: HirPlace, index: HirOperand)
    | Deref(base: HirPlace)

  datatype HirOperand = ConstOp(c: Constant) | PlaceOp(place: HirPlace) | FuncRef(func: FuncId)

  datatype HirRvalue =
    | Use(operand: HirOperand)
    | BinaryOp(op: BinOp, lhs: HirOperand, rhs: HirOperand)
    | UnaryOp(unop: UnOp, operand: HirOperand)
    | Ref(place: HirPlace, owned: bool)
    | Load(operand: HirOperand)
    | Aggregate(kind: AggregateKind, fields: seq<HirOperand>)
    | Discriminant(place: HirPlace)
    | ExtractPayload(place: HirPlace, variant: nat)
    | ArrayToSlice(array: HirOperand, elem: HirType, len: nat)

  datatype HirStmt =
    | Assign(lhs: HirPlace, rhs: HirRvalue, span: Span)
    | Call(dest: Option<HirPlace>, func: HirOperand, args: seq<HirOperand>, span: Span)
    | Drop(place: HirPlace, span: Span)

  datatype HirTerminator =
    | Goto(target: BlockId)
    | Return(value: Option<HirOperand>)
    | Switch(discr: HirOperand, targets: seq<(nat, BlockId)>, otherwise: BlockId)
    | Unreachable

  datatype HirBlock = HirBlock(id: BlockId, stmts: seq<HirStmt>, terminator: HirTerminator, span: Span)

  datatype HirLocal = HirLocal(name: Option<string>, ty: HirType, span: Span)

  /** A function body as a value. */
  datatype Cfg = Cfg(blocks: seq<HirBlock>, locals: seq<HirLocal>, entry: BlockId)

  /** The body object that the optimisation passes rewrite in place. */
  class HirBody {
    var blocks: seq<HirBlock>
    var locals: seq<HirLocal>
    var entryBlock: BlockId

    constructor (c: Cfg)
      ensures View() == c
    {
      blocks, locals, entryBlock := c.blocks, c.locals, c.entry;
    }

    ghost function View(): Cfg
      reads this
    {
      Cfg(blocks, locals, entryBlock)
    }
  }

  /** The local a place starts from. */
  function Root(p: HirPlace): LocalId
  {
    match p
    case Local(x) => x
    case Field(base, _) => Root(base)
    case Index(base, _) => Root(base)
    case Deref(base) => Root(base)
  }

  // ----- Looking blocks up by id -----

  /** The first block with the given id. */
  function FindBlock(blocks: seq<HirBlock>, id: BlockId): (r: Option<HirBlock>)
    ensures r.Some? ==> r.value in blocks && r.value.id == id
    ensures r.None? <==> forall b | b in blocks :: b.id != id
  {
    if blocks == [] then None
    else if blocks[0].id == id then Some(blocks[0])
    else FindBlock(blocks[1..], id)
  }

  ghost predicate UniqueIds(blocks: seq<HirBlock>)
  {
    forall i, j | 0 <= i < j < |blocks| :: blocks[i].id != blocks[j].id
  }

  function BlockIds(blocks: seq<HirBlock>): set<BlockId>
  {
    set b | b in blocks :: b.id
  }

  lemma FindUnique(blocks: seq<HirBlock>, i: nat)
    requires i < |blocks| && UniqueIds(blocks)
    ensures FindBlock(blocks, blocks[i].id) == Some(blocks[i])
  {
    var r := FindBlock(blocks, blocks[i].id);
    assert blocks[i] in blocks;
    var j :| 0 <= j < |blocks| && blocks[j] == r.value;
  }

  function SwitchTargets(targets: seq<(nat, BlockId)>): (r: seq<BlockId>)
    ensures |r| == |targets|
    ensures forall i | 0 <= i < |targets| :: r[i] == targets[i].1
  {
    seq(|targets|, i requires 0 <= i < |targets| => targets[i].1)
  }

  /** The blocks a terminator may jump to, the default branch of a switch first. */
  function Successors(t: HirTerminator): seq<BlockId>
  {
    match t
    case Goto(target) => [target]
    case Return(_) => []
    case Switch(_, targets, otherwise) => [otherwise] + SwitchTargets(targets)
    case Unreachable => []
  }
}
