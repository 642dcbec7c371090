/** What a function body means: a store of locals, pointers into locals, arithmetic that traps as
    the compiler's own 128-bit constants do, and a trace of calls and drops. Calls are answered by
    an environment that may look at everything the body has done so far, and at every local whose
    address has been taken: a call sees those locals, and may leave other values in them. */
module HirSemantics {
  import opened Wrappers
  import opened Hir

  datatype Addr = Addr(base: LocalId, path: seq<nat>)

  datatype Value =
    | VoidV
    | BoolV(b: bool)
    | IntV(n: i128)
    | FloatV(bits: nat)
    | StrV(s: string)
    | NilV
    | FuncV(func: FuncId)
    | AggV(tag: nat, fields: seq<Value>)
    | PtrV(addr: Addr)
    | SliceV(addr: Addr, len: nat)

  type Store = map<LocalId, Value>

  /** A call is seen with its arguments and with the memory it can get at. */
  datatype Event = CallEvent(func: Value, args: seq<Value>, memory: Store) | DropEvent(v: Value)

  type Trace = seq<Event>

  /** Answers of the outside world: the result of a call and what it leaves in memory, given the trace
      that ends with it, and the operations whose meaning is not fixed here (floats, bit patterns,
      shifts). */
  datatype Env = Env(
    call: Trace -> Value,
    write: Trace -> Store,
    bin: (BinOp, Value, Value) -> Option<Value>,
    un: (UnOp, Value) -> Option<Value>)

  /** The outcome of evaluating something: a value, a trap, or no meaning at all. */
  datatype Eval<+T> = Val(v: T) | Trap | Stuck
  {
    predicate IsFailure() { !Val? }
    function PropagateFailure<U>(): Eval<U>
      requires IsFailure()
    {
      if Trap? then Trap else Stuck
    }
    function Extract(): T
      requires !IsFailure()
    {
      v
    }
  }

  function OrStuck<T>(o: Option<T>): Eval<T>
  {
    match o case Some(x) => Val(x) case None => Stuck
  }

  // ----- Integer arithmetic -----

  /** Truncating division, as the hardware and Rust do it. */
  function TruncDiv(a: int, b: int): int
    requires b != 0
  {
    if a >= 0 then (if b > 0 then a / b else -(a / -b))
    else (if b > 0 then -(-a / b) else -a / -b)
  }

  /** The remainder of truncating division: it has the sign of the dividend. */
  function TruncRem(a: int, b: int): int
    requires b != 0
  {
    a - b * TruncDiv(a, b)
  }

  function Checked(n: int): Eval<Value>
  {
    if I128_MIN <= n <= I128_MAX then Val(IntV(n)) else Trap
  }

  function EvalIntBin(env: Env, op: BinOp, a: i128, b: i128): Eval<Value>
  {
    match op
    case Add => Checked(a + b)
    case Sub => Checked(a - b)
    case Mul => Checked(a * b)
    case Div => if b == 0 then Trap else Checked(TruncDiv(a, b))
    case Rem => if b == 0 || (a == I128_MIN && b == -1) then Trap else Checked(TruncRem(a, b))
    case Eq => Val(BoolV(a == b))
    case Ne => Val(BoolV(a != b))
    case Lt => Val(BoolV(a < b))
    case Le => Val(BoolV(a <= b))
    case Gt => Val(BoolV(a > b))
    case Ge => Val(BoolV(a >= b))
    case LogicAnd => Val(BoolV(a != 0 && b != 0))
    case LogicOr => Val(BoolV(a != 0 || b != 0))
    case _ => OrStuck(env.bin(op, IntV(a), IntV(b)))
  }

  function EvalBin(env: Env, op: BinOp, a: Value, b: Value): Eval<Value>
  {
    if a.IntV? && b.IntV? then EvalIntBin(env, op, a.n, b.n) else OrStuck(env.bin(op, a, b))
  }

  function EvalUn(env: Env, op: UnOp, a: Value): Eval<Value>
  {
    if a.IntV? then
      match op
      case Neg => Checked(-(a.n as int))
      case Not => Val(IntV(if a.n == 0 then 1 else 0))
      case BitNot => Checked(-(a.n as int) - 1)
    else
      OrStuck(env.un(op, a))
  }

  // ----- Places -----

  function Project(v: Value, path: seq<nat>): Eval<Value>
    decreases |path|
  {
    if path == [] then Val(v)
    else if v.AggV? && path[0] < |v.fields| then Project(v.fields[path[0]], path[1..])
    else Stuck
  }

  function Update(v: Value, path: seq<nat>, w: Value): Eval<Value>
    decreases |path|
  {
    if path == [] then Val(w)
    else if v.AggV? && path[0] < |v.fields| then
      var part :- Update(v.fields[path[0]], path[1..], w);
      Val(v.(fields := v.fields[path[0] := part]))
    else Stuck
  }

  function LoadAddr(st: Store, a: Addr): Eval<Value>
  {
    if a.base in st then Project(st[a.base], a.path) else Stuck
  }

  function StoreAddr(st: Store, a: Addr, v: Value): Eval<Store>
  {
    if a.path == [] then Val(st[a.base := v])
    else if a.base in st then
      var whole :- Update(st[a.base], a.path, v);
      Val(st[a.base := whole])
    else Stuck
  }

  function ConstValue(c: Constant): Value
  {
    match c
    case VoidConst => VoidV
    case BoolConst(b) => BoolV(b)
    case IntConst(n) => IntV(n)
    case FloatConst(bits) => FloatV(bits)
    case StrConst(s) => StrV(s)
    case NilConst => NilV
  }

  /** The address of a place. Indexing a slice, and dereferencing, follow a stored pointer. */
  function Resolve(p: HirPlace, st: Store): Eval<Addr>
    decreases p, 0
  {
    match p
    case Local(x) => Val(Addr(x, []))
    case Field(base, i) =>
      var a :- Resolve(base, st);
      Val(Addr(a.base, a.path + [i]))
    case Index(base, index) =>
      var a :- Resolve(base, st);
      var k :- EvalOperand(index, st);
      if !(k.IntV? && k.n >= 0) then Stuck else
      var whole :- LoadAddr(st, a);
      if whole.SliceV? then Val(Addr(whole.addr.base, whole.addr.path + [k.n]))
      else Val(Addr(a.base, a.path + [k.n]))
    case Deref(base) =>
      var a :- Resolve(base, st);
      var p :- LoadAddr(st, a);
      if p.PtrV? then Val(p.addr) else Stuck
  }

  function EvalPlace(p: HirPlace, st: Store): Eval<Value>
    decreases p, 1
  {
    var a :- Resolve(p, st);
    LoadAddr(st, a)
  }

  function EvalOperand(o: HirOperand, st: Store): Eval<Value>
    decreases o, 2
  {
    match o
    case ConstOp(c) => Val(ConstValue(c))
    case PlaceOp(p) => EvalPlace(p, st)
    case FuncRef(f) => Val(FuncV(f))
  }

  function EvalOperands(os: seq<HirOperand>, st: Store): Eval<seq<Value>>
  {
    if os == [] then Val([]) else
    var v :- EvalOperand(os[0], st);
    var vs :- EvalOperands(os[1..], st);
    Val([v] + vs)
  }

  function VariantTag(kind: AggregateKind): nat
  {
    match kind
    case UnionAgg(_, variant) => variant
    case ErrorUnionAgg(variant, _) => variant
    case _ => 0
  }

  function EvalRvalue(env: Env, rv: HirRvalue, st: Store): Eval<Value>
  {
    match rv
    case Use(o) => EvalOperand(o, st)
    case BinaryOp(op, l, r) =>
      var a :- EvalOperand(l, st);
      var b :- EvalOperand(r, st);
      EvalBin(env, op, a, b)
    case UnaryOp(op, o) =>
      var a :- EvalOperand(o, st);
      EvalUn(env, op, a)
    case Ref(p, _) =>
      var a :- Resolve(p, st);
      Val(PtrV(a))
    case Load(o) =>
      var p :- EvalOperand(o, st);
      if p.PtrV? then LoadAddr(st, p.addr) else Stuck
    case Aggregate(kind, fields) =>
      var vs :- EvalOperands(fields, st);
      Val(AggV(VariantTag(kind), vs))
    case Discriminant(p) =>
      var v :- EvalPlace(p, st);
      if v.AggV? then Checked(v.tag) else Stuck
    case ExtractPayload(p, _) =>
      var v :- EvalPlace(p, st);
      if v.AggV? then Val(if v.fields == [] then IntV(0) else v.fields[0]) else Stuck
    case ArrayToSlice(o, _, len) =>
      if o.PlaceOp? then
        var a :- Resolve(o.place, st);
        Val(SliceV(a, len))
      else Stuck
  }

  // ----- Statements, blocks, runs -----

  /** The store, what has been done, and the locals whose address has been taken. */
  datatype State = State(store: Store, trace: Trace, taken: set<LocalId>)

  /** A body starts with nobody holding the address of one of its locals. */
  function Start(store: Store): State { State(store, [], {}) }

  /** The local whose address an assignment takes. */
  function AddressTaken(rv: HirRvalue, v: Value): set<LocalId>
  {
    if rv.Ref? && v.PtrV? then {v.addr.base}
    else if rv.ArrayToSlice? && v.SliceV? then {v.addr.base}
    else {}
  }

  function VisibleMemory(st: State): Store { map x | x in st.store && x in st.taken :: st.store[x] }

  /** The store after a call that wrote `memory`. */
  function WrittenBy(st: State, memory: Store): Store
  {
    map x | x in st.store :: if x in st.taken && x in memory then memory[x] else st.store[x]
  }

  function ExecStmt(env: Env, s: HirStmt, st: State): Eval<State>
  {
    match s
    case Assign(lhs, rhs, _) =>
      var a :- Resolve(lhs, st.store);
      var v :- EvalRvalue(env, rhs, st.store);
      var store :- StoreAddr(st.store, a, v);
      Val(State(store, st.trace, st.taken + AddressTaken(rhs, v)))
    case Call(dest, func, args, _) =>
      var f :- EvalOperand(func, st.store);
      var vs :- EvalOperands(args, st.store);
      var trace := st.trace + [CallEvent(f, vs, VisibleMemory(st))];
      var after := WrittenBy(st, env.write(trace));
      if dest.None? then Val(State(after, trace, st.taken)) else
      var a :- Resolve(dest.value, st.store);
      var store :- StoreAddr(after, a, env.call(trace));
      Val(State(store, trace, st.taken))
    case Drop(p, _) =>
      var v :- EvalPlace(p, st.store);
      Val(State(st.store, st.trace + [DropEvent(v)], st.taken))
  }

  function ExecStmts(env: Env, ss: seq<HirStmt>, st: State): Eval<State>
  {
    if ss == [] then Val(st) else
    var next :- ExecStmt(env, ss[0], st);
    ExecStmts(env, ss[1..], next)
  }

  /** Where control goes after a block. */
  datatype Exit = Jump(target: BlockId) | Done(value: Option<Value>)

  function SelectTarget(targets: seq<(nat, BlockId)>, otherwise: BlockId, key: int): BlockId
  {
    if targets == [] then otherwise
    else if targets[0].0 == key then targets[0].1
    else SelectTarget(targets[1..], otherwise, key)
  }

  /** A switch compares integers, and booleans as 0 and 1. */
  function SwitchKey(v: Value): Eval<int>
  {
    match v
    case IntV(n) => Val(n)
    case BoolV(b) => Val(if b then 1 else 0)
    case _ => Stuck
  }

  function ExecTerminator(t: HirTerminator, st: Store): Eval<Exit>
  {
    match t
    case Goto(target) => Val(Jump(target))
    case Return(None) => Val(Done(None))
    case Return(Some(o)) =>
      var v :- EvalOperand(o, st);
      Val(Done(Some(v)))
    case Switch(discr, targets, otherwise) =>
      var v :- EvalOperand(discr, st);
      var key :- SwitchKey(v);
      Val(Jump(SelectTarget(targets, otherwise, key)))
    case Unreachable => Stuck
  }

  datatype After = After(state: State, exit: Exit)

  function ExecBlock(env: Env, b: HirBlock, st: State): Eval<After>
  {
    var st' :- ExecStmts(env, b.stmts, st);
    var exit :- ExecTerminator(b.terminator, st'.store);
    Val(After(st', exit))
  }

  datatype Outcome =
    | Returned(value: Option<Value>, trace: Trace)
    | Trapped
    | Meaningless
    | MissingBlock(id: BlockId)
    | StillRunning

  /** Run from block `id` for at most `n` blocks. */
  function Run(env: Env, c: Cfg, id: BlockId, st: State, n: nat): Outcome
    decreases n
  {
    if n == 0 then StillRunning else
    var b := FindBlock(c.blocks, id);
    if b.None? then MissingBlock(id) else
    match ExecBlock(env, b.value, st)
    case Trap => Trapped
    case Stuck => Meaningless
    case Val(After(st', Jump(target))) => Run(env, c, target, st', n - 1)
    case Val(After(st', Done(v))) => Returned(v, st'.trace)
  }

  lemma {:induction false} RunOut(env: Env, c: Cfg, id: BlockId, st: State)
    ensures Run(env, c, id, st, 0) == StillRunning
  {
  }

  /** One block of a run. */
  lemma {:induction false} RunStep(env: Env, c: Cfg, id: BlockId, st: State, n: nat)
    requires n > 0
    ensures var b := FindBlock(c.blocks, id);
            var run := Run(env, c, id, st, n);
            if b.None? then run == MissingBlock(id) else
            var r := ExecBlock(env, b.value, st);
            && (r.Trap? ==> run == Trapped)
            && (r.Stuck? ==> run == Meaningless)
            && (r.Val? && r.v.exit.Done? ==> run == Returned(r.v.exit.value, r.v.state.trace))
            && (r.Val? && r.v.exit.Jump? ==> run == Run(env, c, r.v.exit.target, r.v.state, n - 1))
  {
    hide ExecBlock;
  }

  /** Once a run has come to an end, allowing it more blocks changes nothing: an outcome other than
      `StillRunning` is the outcome of the body. */
  lemma {:induction false} EndedRunsStay(env: Env, c: Cfg, id: BlockId, st: State, n: nat, k: nat)
    requires n <= k && !Run(env, c, id, st, n).StillRunning?
    ensures Run(env, c, id, st, k) == Run(env, c, id, st, n)
    decreases n
  {
    hide Run, ExecBlock;
    if n == 0 {
      RunOut(env, c, id, st);
    } else {
      RunStep(env, c, id, st, n);
      RunStep(env, c, id, st, k);
      var b := FindBlock(c.blocks, id);
      if b.Some? {
        var r := ExecBlock(env, b.value, st);
        if r.Val? && r.v.exit.Jump? {
          EndedRunsStay(env, c, r.v.exit.target, r.v.state, n - 1, k - 1);
        }
      }
    }
  }

  /** `d` does everything `c` is seen to do: a run of `c` that returns also returns in `d`, with the
      same value and the same trace, after the same number of blocks. */
  ghost predicate Refines(c: Cfg, d: Cfg)
  {
    forall env: Env, store: Store, n: nat |
      Run(env, c, c.entry, Start(store), n).Returned? ::
      Run(env, d, d.entry, Start(store), n) == Run(env, c, c.entry, Start(store), n)
  }

  lemma {:induction false} SelectTargetIsSuccessor(
      discr: HirOperand, targets: seq<(nat, BlockId)>, otherwise: BlockId, key: int)
    ensures SelectTarget(targets, otherwise, key) in Successors(Switch(discr, targets, otherwise))
  {
    if targets != [] && targets[0].0 != key {
      SelectTargetIsSuccessor(discr, targets[1..], otherwise, key);
      var t := SelectTarget(targets[1..], otherwise, key);
      var tail := Successors(Switch(discr, targets[1..], otherwise));
      var whole := Successors(Switch(discr, targets, otherwise));
      var i :| 0 <= i < |tail| && tail[i] == t;
      assert whole[if i == 0 then 0 else i + 1] == t;
    } else if targets != [] {
      assert Successors(Switch(discr, targets, otherwise))[1] == targets[0].1;
    }
  }

  lemma {:induction false} JumpIsSuccessor(t: HirTerminator, st: Store)
    ensures var e := ExecTerminator(t, st);
            e.Val? && e.v.Jump? ==> e.v.target in Successors(t)
  {
    if t.Switch? {
      var v := EvalOperand(t.discr, st);
      if v.Val? && SwitchKey(v.v).Val? {
        SelectTargetIsSuccessor(t.discr, t.targets, t.otherwise, SwitchKey(v.v).v);
      }
    }
  }

  lemma {:induction false} BlockJumpsToSuccessor(env: Env, b: HirBlock, st: State)
    ensures var r := ExecBlock(env, b, st);
            r.Val? && r.v.exit.Jump? ==> r.v.exit.target in Successors(b.terminator)
  {
    var r := ExecStmts(env, b.stmts, st);
    if r.Val? {
      JumpIsSuccessor(b.terminator, r.v.store);
    }
  }
}
