/** Validation of local references: every local that a body mentions must be declared. A second walk
    along the edges warns of locals that are used before they are defined, taking all declared ones for
    defined. */
module ValidateLocals {
  import opened Diag
  import opened Hir

  // ----- The locals that occur in a body -----

  function InPlace(p: HirPlace): set<LocalId>
  {
    match p
    case Local(id) => {id}
    case Field(base, _) => InPlace(base)
    case Index(base, index) => InPlace(base) + InOperand(index)
    case Deref(base) => InPlace(base)
  }

  function InOperand(o: HirOperand): set<LocalId>
  {
    match o
    case PlaceOp(p) => InPlace(p)
    case _ => {}
  }

  function InOperands(os: seq<HirOperand>): set<LocalId>
  {
    set o, x | o in os && x in InOperand(o) :: x
  }

  function InRvalue(rv: HirRvalue): set<LocalId>
  {
    match rv
    case Use(o) => InOperand(o)
    case BinaryOp(_, l, r) => InOperand(l) + InOperand(r)
    case UnaryOp(_, o) => InOperand(o)
    case Ref(p, _) => InPlace(p)
    case Load(o) => InOperand(o)
    case Aggregate(_, fields) => InOperands(fields)
    case Discriminant(p) => InPlace(p)
    case ExtractPayload(p, _) => InPlace(p)
    case ArrayToSlice(o, _, _) => InOperand(o)
  }

  function InStmt(s: HirStmt): set<LocalId>
  {
    match s
    case Assign(lhs, rhs, _) => InPlace(lhs) + InRvalue(rhs)
    case Call(dest, func, args, _) =>
      (if dest.Some? then InPlace(dest.value) else {}) + InOperand(func) + InOperands(args)
    case Drop(p, _) => InPlace(p)
  }

  function InTerminator(t: HirTerminator): set<LocalId>
  {
    match t
    case Return(Some(o)) => InOperand(o)
    case Switch(discr, _, _) => InOperand(discr)
    case _ => {}
  }

  ghost predicate BlockWithin(b: HirBlock, declared: set<LocalId>)
  {
    InTerminator(b.terminator) <= declared && forall s | s in b.stmts :: InStmt(s) <= declared
  }

  /** The ids of a table with `n` entries. */
  function Declared(n: nat): (r: set<LocalId>)
    ensures forall x: nat :: x in r <==> x < n
  {
    if n == 0 then {} else Declared(n - 1) + {n - 1}
  }

  /** Every mentioned local has an entry in the table. */
  ghost predicate Accepted(c: Cfg)
  {
    forall b | b in c.blocks :: BlockWithin(b, Declared(|c.locals|))
  }

  // ----- One diagnostic for every bad reference, in walk order -----

  const NOWHERE: Span := Span(0, 0, 0)

  function BadLocal(span: Span): Diagnostic { MakeError(9010, At(span)) }

  /** Errors about locals, all at that place. */
  ghost predicate OnlyBad(ds: seq<Diagnostic>, span: Span)
  {
    forall i | 0 <= i < |ds| :: ds[i] == Diagnostic(Error, 9010, At(span), 1)
  }

  function PlaceDiags(p: HirPlace, ok: set<LocalId>, span: Span): (r: seq<Diagnostic>)
    ensures r == [] <==> InPlace(p) <= ok
    ensures OnlyBad(r, span)
  {
    match p
    case Local(id) => if id in ok then [] else [BadLocal(span)]
    case Field(base, _) => PlaceDiags(base, ok, span)
    case Index(base, index) => PlaceDiags(base, ok, span) + OperandDiags(index, ok, span)
    case Deref(base) => PlaceDiags(base, ok, span)
  }

  function OperandDiags(o: HirOperand, ok: set<LocalId>, span: Span): (r: seq<Diagnostic>)
    ensures r == [] <==> InOperand(o) <= ok
    ensures OnlyBad(r, span)
  {
    match o
    case PlaceOp(p) => PlaceDiags(p, ok, span)
    case _ => []
  }

  function OperandsDiags(os: seq<HirOperand>, ok: set<LocalId>, span: Span): (r: seq<Diagnostic>)
    ensures r == [] <==> InOperands(os) <= ok
    ensures OnlyBad(r, span)
  {
    if os == [] then []
    else
      assert InOperands(os) == InOperands(os[..|os|-1]) + InOperand(os[|os|-1]) by {
        assert os == os[..|os|-1] + [os[|os|-1]];
      }
      OperandsDiags(os[..|os|-1], ok, span) + OperandDiags(os[|os|-1], ok, span)
  }

  function RvalueDiags(rv: HirRvalue, ok: set<LocalId>, span: Span): (r: seq<Diagnostic>)
    ensures r == [] <==> InRvalue(rv) <= ok
    ensures OnlyBad(r, span)
  {
    match rv
    case Use(o) => OperandDiags(o, ok, span)
    case BinaryOp(_, l, r) => OperandDiags(l, ok, span) + OperandDiags(r, ok, span)
    case UnaryOp(_, o) => OperandDiags(o, ok, span)
    case Ref(p, _) => PlaceDiags(p, ok, span)
    case Load(o) => OperandDiags(o, ok, span)
    case Aggregate(_, fields) => OperandsDiags(fields, ok, span)
    case Discriminant(p) => PlaceDiags(p, ok, span)
    case ExtractPayload(p, _) => PlaceDiags(p, ok, span)
    case ArrayToSlice(o, _, _) => OperandDiags(o, ok, span)
  }

  function StmtDiags(s: HirStmt, ok: set<LocalId>): (r: seq<Diagnostic>)
    ensures r == [] <==> InStmt(s) <= ok
    ensures OnlyBad(r, s.span)
  {
    match s
    case Assign(lhs, rhs, span) => PlaceDiags(lhs, ok, span) + RvalueDiags(rhs, ok, span)
    case Call(dest, func, args, span) =>
      (if dest.Some? then PlaceDiags(dest.value, ok, span) else []) +
      OperandDiags(func, ok, span) + OperandsDiags(args, ok, span)
    case Drop(p, span) => PlaceDiags(p, ok, span)
  }

  function TerminatorDiags(t: HirTerminator, ok: set<LocalId>): (r: seq<Diagnostic>)
    ensures r == [] <==> InTerminator(t) <= ok
    ensures OnlyBad(r, Span(0, 0, 0))
  {
    match t
    case Return(Some(o)) => OperandDiags(o, ok, NOWHERE)
    case Switch(discr, _, _) => OperandDiags(discr, ok, NOWHERE)
    case _ => []
  }

  function StmtsDiags(ss: seq<HirStmt>, ok: set<LocalId>): seq<Diagnostic>
  {
    if ss == [] then [] else StmtsDiags(ss[..|ss|-1], ok) + StmtDiags(ss[|ss|-1], ok)
  }

  lemma {:induction false} NoStmtDiagsIffWithin(ss: seq<HirStmt>, ok: set<LocalId>)
    ensures StmtsDiags(ss, ok) == [] <==> forall s | s in ss :: InStmt(s) <= ok
  {
    hide InStmt, StmtDiags;
    if ss != [] {
      var front, last := ss[..|ss|-1], ss[|ss|-1];
      NoStmtDiagsIffWithin(front, ok);
      assert ss == front + [last];
      assert StmtsDiags(ss, ok) == [] <==> StmtsDiags(front, ok) == [] && StmtDiags(last, ok) == [];
    }
  }

  function BlockDiags(b: HirBlock, ok: set<LocalId>): (r: seq<Diagnostic>)
    ensures r == [] <==> BlockWithin(b, ok)
  {
    NoStmtDiagsIffWithin(b.stmts, ok);
    StmtsDiags(b.stmts, ok) + TerminatorDiags(b.terminator, ok)
  }

  function BlocksDiags(bs: seq<HirBlock>, ok: set<LocalId>): seq<Diagnostic>
  {
    if bs == [] then [] else BlocksDiags(bs[..|bs|-1], ok) + BlockDiags(bs[|bs|-1], ok)
  }

  /** Silence means that every block mentions declared locals only. */
  lemma {:induction false} NoDiagsIffWithin(bs: seq<HirBlock>, ok: set<LocalId>)
    ensures BlocksDiags(bs, ok) == [] <==> forall b | b in bs :: BlockWithin(b, ok)
  {
    hide BlockWithin, BlockDiags;
    if bs != [] {
      var front, last := bs[..|bs|-1], bs[|bs|-1];
      NoDiagsIffWithin(front, ok);
      assert bs == front + [last];
      assert BlocksDiags(bs, ok) == [] <==> BlocksDiags(front, ok) == [] && BlockDiags(last, ok) == [];
    }
  }

  // ----- The second walk: uses of locals not known to be defined -----

  function EarlyUse(span: Span): Diagnostic { MakeWarning(9011, At(span)) }

  // Of a place only the local it starts from is looked at.

  function RootsOperand(o: HirOperand): set<LocalId> { if o.PlaceOp? then {Root(o.place)} else {} }

  function RootsOperands(os: seq<HirOperand>): set<LocalId> { set o, x | o in os && x in RootsOperand(o) :: x }

  function RootsRvalue(rv: HirRvalue): set<LocalId>
  {
    match rv
    case Use(o) => RootsOperand(o)
    case BinaryOp(_, l, r) => RootsOperand(l) + RootsOperand(r)
    case UnaryOp(_, o) => RootsOperand(o)
    case Ref(p, _) => {Root(p)}
    case Load(o) => RootsOperand(o)
    case Aggregate(_, fields) => RootsOperands(fields)
    case Discriminant(p) => {Root(p)}
    case ExtractPayload(p, _) => {Root(p)}
    case ArrayToSlice(o, _, _) => RootsOperand(o)
  }

  function RootsStmt(s: HirStmt): set<LocalId>
  {
    match s
    case Assign(_, rhs, _) => RootsRvalue(rhs)
    case Call(_, func, args, _) => RootsOperand(func) + RootsOperands(args)
    case Drop(p, _) => {Root(p)}
  }

  function RootsTerminator(t: HirTerminator): set<LocalId>
  {
    match t
    case Return(Some(o)) => RootsOperand(o)
    case Switch(discr, _, _) => RootsOperand(discr)
    case _ => {}
  }

  /** Warnings about early uses, all at that place. */
  ghost predicate OnlyEarly(ds: seq<Diagnostic>, span: Span)
  {
    forall i | 0 <= i < |ds| :: ds[i] == Diagnostic(Warning, 9011, At(span), 1)
  }

  /** Only the local a place starts from is looked at, not the index of an element. */
  function PlaceUses(p: HirPlace, defined: set<LocalId>, span: Span): (r: seq<Diagnostic>)
    ensures InPlace(p) <= defined ==> r == []
    ensures r == [] <==> {Root(p)} <= defined
    ensures OnlyEarly(r, span)
  {
    RootInPlace(p);
    if Root(p) in defined then [] else [EarlyUse(span)]
  }

  lemma {:induction false} RootInPlace(p: HirPlace)
    ensures Root(p) in InPlace(p)
  {
    match p {
      case Local(_) =>
      case Field(base, _) => RootInPlace(base);
      case Index(base, _) => RootInPlace(base);
      case Deref(base) => RootInPlace(base);
    }
  }

  function OperandUses(o: HirOperand, defined: set<LocalId>, span: Span): (r: seq<Diagnostic>)
    ensures InOperand(o) <= defined ==> r == []
    ensures r == [] <==> RootsOperand(o) <= defined
    ensures OnlyEarly(r, span)
  {
    match o
    case PlaceOp(p) => PlaceUses(p, defined, span)
    case _ => []
  }

  function OperandsUses(os: seq<HirOperand>, defined: set<LocalId>, span: Span): (r: seq<Diagnostic>)
    ensures InOperands(os) <= defined ==> r == []
    ensures r == [] <==> RootsOperands(os) <= defined
    ensures OnlyEarly(r, span)
  {
    if os == [] then []
    else
      assert InOperands(os) == InOperands(os[..|os|-1]) + InOperand(os[|os|-1]) &&
             RootsOperands(os) == RootsOperands(os[..|os|-1]) + RootsOperand(os[|os|-1]) by {
        assert os == os[..|os|-1] + [os[|os|-1]];
      }
      OperandsUses(os[..|os|-1], defined, span) + OperandUses(os[|os|-1], defined, span)
  }

  function RvalueUses(rv: HirRvalue, defined: set<LocalId>, span: Span): (r: seq<Diagnostic>)
    ensures InRvalue(rv) <= defined ==> r == []
    ensures r == [] <==> RootsRvalue(rv) <= defined
    ensures OnlyEarly(r, span)
  {
    match rv
    case Use(o) => OperandUses(o, defined, span)
    case BinaryOp(_, l, r) => OperandUses(l, defined, span) + OperandUses(r, defined, span)
    case UnaryOp(_, o) => OperandUses(o, defined, span)
    case Ref(p, _) => PlaceUses(p, defined, span)
    case Load(o) => OperandUses(o, defined, span)
    case Aggregate(_, fields) => OperandsUses(fields, defined, span)
    case Discriminant(p) => PlaceUses(p, defined, span)
    case ExtractPayload(p, _) => PlaceUses(p, defined, span)
    case ArrayToSlice(o, _, _) => OperandUses(o, defined, span)
  }

  function StmtUses(s: HirStmt, defined: set<LocalId>): (r: seq<Diagnostic>)
    ensures InStmt(s) <= defined ==> r == []
    ensures r == [] <==> RootsStmt(s) <= defined
    ensures OnlyEarly(r, s.span)
  {
    match s
    case Assign(_, rhs, span) => RvalueUses(rhs, defined, span)
    case Call(_, func, args, span) => OperandUses(func, defined, span) + OperandsUses(args, defined, span)
    case Drop(p, span) => PlaceUses(p, defined, span)
  }

  /** Assigning to any part of a local defines it. */
  function DefinedBy(s: HirStmt, defined: set<LocalId>): (r: set<LocalId>)
    ensures defined <= r
  {
    match s
    case Assign(lhs, _, _) => defined + {Root(lhs)}
    case Call(Some(place), _, _, _) => defined + {Root(place)}
    case _ => defined
  }

  function DefinedByAll(ss: seq<HirStmt>, defined: set<LocalId>): (r: set<LocalId>)
    ensures defined <= r
  {
    if ss == [] then defined else DefinedBy(ss[|ss|-1], DefinedByAll(ss[..|ss|-1], defined))
  }

  function StmtsUses(ss: seq<HirStmt>, defined: set<LocalId>): seq<Diagnostic>
  {
    if ss == [] then []
    else StmtsUses(ss[..|ss|-1], defined) + StmtUses(ss[|ss|-1], DefinedByAll(ss[..|ss|-1], defined))
  }

  function TerminatorUses(t: HirTerminator, defined: set<LocalId>, span: Span): (r: seq<Diagnostic>)
    ensures InTerminator(t) <= defined ==> r == []
    ensures r == [] <==> RootsTerminator(t) <= defined
    ensures OnlyEarly(r, span)
  {
    match t
    case Return(Some(o)) => OperandUses(o, defined, span)
    case Switch(discr, _, _) => OperandUses(discr, defined, span)
    case _ => []
  }

  function BlockUses(b: HirBlock, defined: set<LocalId>): seq<Diagnostic>
  {
    StmtsUses(b.stmts, defined) + TerminatorUses(b.terminator, DefinedByAll(b.stmts, defined), b.span)
  }

  predicate StoresInto(s: HirStmt, x: LocalId)
  {
    (s.Assign? && Root(s.lhs) == x) || (s.Call? && s.dest.Some? && Root(s.dest.value) == x)
  }

  ghost predicate Ready(ss: seq<HirStmt>, defined: set<LocalId>, x: LocalId)
  {
    x in defined || exists k :: 0 <= k < |ss| && StoresInto(ss[k], x)
  }

  /** What the statement uses is defined before the block, or stored into further up in it. */
  ghost predicate QuietAt(ss: seq<HirStmt>, defined: set<LocalId>, j: nat)
    requires j < |ss|
  {
    forall x | x in RootsStmt(ss[j]) :: Ready(ss[..j], defined, x)
  }

  /** A block is quiet exactly when every local it uses is defined before it, or stored into further up in it. */
  lemma {:induction false} QuietBlock(b: HirBlock, defined: set<LocalId>)
    ensures BlockUses(b, defined) == [] <==>
              && (forall j: nat | j < |b.stmts| :: QuietAt(b.stmts, defined, j))
              && forall x | x in RootsTerminator(b.terminator) :: Ready(b.stmts, defined, x)
  {
    hide RootsTerminator, QuietAt, DefinedByAll, Ready;
    QuietStmts(b.stmts, defined);
    forall x ensures x in DefinedByAll(b.stmts, defined) <==> Ready(b.stmts, defined, x) {
      DefinedMeans(b.stmts, defined, x);
    }
  }

  lemma {:induction false} DefinedMeans(ss: seq<HirStmt>, defined: set<LocalId>, x: LocalId)
    ensures x in DefinedByAll(ss, defined) <==> Ready(ss, defined, x)
  {
    if ss != [] {
      var front, last := ss[..|ss|-1], ss[|ss|-1];
      DefinedMeans(front, defined, x);
      if k :| 0 <= k < |ss| && StoresInto(ss[k], x) {
        assert k < |front| ==> StoresInto(front[k], x);
      }
      if k :| 0 <= k < |front| && StoresInto(front[k], x) {
        assert StoresInto(ss[k], x);
      }
    }
  }

  lemma {:induction false} QuietStmts(ss: seq<HirStmt>, defined: set<LocalId>)
    ensures StmtsUses(ss, defined) == [] <==> forall j: nat | j < |ss| :: QuietAt(ss, defined, j)
  {
    hide StmtUses, DefinedByAll, QuietAt;
    if ss != [] {
      var n := |ss| - 1;
      var front := ss[..n];
      QuietStmts(front, defined);
      QuietLast(ss, defined);
      forall j: nat | j < n ensures QuietAt(front, defined, j) <==> QuietAt(ss, defined, j) {
        QuietFront(ss, n, defined, j);
      }
    }
  }

  lemma {:induction false} QuietFront(ss: seq<HirStmt>, n: nat, defined: set<LocalId>, j: nat)
    requires j < n <= |ss|
    ensures QuietAt(ss[..n], defined, j) <==> QuietAt(ss, defined, j)
  {
    hide RootsStmt, Ready;
    assert ss[..n][..j] == ss[..j];
  }

  lemma {:induction false} QuietLast(ss: seq<HirStmt>, defined: set<LocalId>)
    requires ss != []
    ensures StmtUses(ss[|ss|-1], DefinedByAll(ss[..|ss|-1], defined)) == [] <==> QuietAt(ss, defined, |ss| - 1)
  {
    hide RootsStmt, Ready, DefinedByAll;
    var front := ss[..|ss|-1];
    forall x ensures x in DefinedByAll(front, defined) <==> Ready(front, defined, x) {
      DefinedMeans(front, defined, x);
    }
  }

  /** The order in which the walk goes on: the cases of a switch before its default. */
  function Onward(t: HirTerminator): seq<BlockId>
  {
    match t
    case Goto(target) => [target]
    case Switch(_, targets, otherwise) => SwitchTargets(targets) + [otherwise]
    case _ => []
  }

  /** The ids that have been visited, and what has been reported. */
  datatype UseWalk = UseWalk(visited: set<BlockId>, log: seq<Diagnostic>)

  /** Blocks that are still to be visited. */
  function Unseen(c: Cfg, visited: set<BlockId>): nat { |BlockIds(c.blocks) - visited| }

  lemma {:induction false} SeenMore(c: Cfg, visited: set<BlockId>, more: set<BlockId>)
    requires visited <= more
    ensures Unseen(c, more) <= Unseen(c, visited)
    ensures (exists id :: id in more && id !in visited && id in BlockIds(c.blocks)) ==>
            Unseen(c, more) < Unseen(c, visited)
  {
    var ids := BlockIds(c.blocks);
    assert ids - visited == (ids - more) + (ids * more - visited);
    if id :| id in more && id !in visited && id in ids {
      assert id in ids * more - visited;
    }
  }

  lemma {:induction false} EnterBlock(c: Cfg, visited: set<BlockId>, id: BlockId)
    requires id !in visited && FindBlock(c.blocks, id).Some?
    ensures Unseen(c, visited + {id}) < Unseen(c, visited)
  {
    assert id in BlockIds(c.blocks);
    SeenMore(c, visited, visited + {id});
  }

  /** Each block is examined the first time it is come to, with what is defined on that way. */
  function WalkUses(c: Cfg, id: BlockId, defined: set<LocalId>, w: UseWalk): (r: UseWalk)
    ensures w.visited <= r.visited && w.log <= r.log
    decreases Unseen(c, w.visited), 0, 0
  {
    if id in w.visited then w else
    var visited := w.visited + {id};
    var b := FindBlock(c.blocks, id);
    if b.None? then UseWalk(visited, w.log) else
    SeenMore(c, w.visited, visited);
    WalkOnward(c, Onward(b.value.terminator), DefinedByAll(b.value.stmts, defined),
               UseWalk(visited, w.log + BlockUses(b.value, defined)))
  }

  function WalkOnward(c: Cfg, ids: seq<BlockId>, defined: set<LocalId>, w: UseWalk): (r: UseWalk)
    ensures w.visited <= r.visited && w.log <= r.log
    decreases Unseen(c, w.visited), 1, |ids|
  {
    if ids == [] then w else
    var first := WalkUses(c, ids[0], defined, w);
    SeenMore(c, w.visited, first.visited);
    WalkOnward(c, ids[1..], defined, first)
  }

  /** What has been reported before plays no part in the walk. */
  lemma {:induction false} WalkLogs(
      c: Cfg, id: BlockId, defined: set<LocalId>, visited: set<BlockId>, log: seq<Diagnostic>)
    ensures var r := WalkUses(c, id, defined, UseWalk(visited, []));
            WalkUses(c, id, defined, UseWalk(visited, log)) == UseWalk(r.visited, log + r.log)
    decreases Unseen(c, visited), 0, 0
  {
    hide BlockUses, DefinedByAll, Onward;
    var b := FindBlock(c.blocks, id);
    if id !in visited && b.Some? {
      SeenMore(c, visited, visited + {id});
      var next, after := Onward(b.value.terminator), DefinedByAll(b.value.stmts, defined);
      OnwardLogs(c, next, after, visited + {id}, log + BlockUses(b.value, defined));
      OnwardLogs(c, next, after, visited + {id}, [] + BlockUses(b.value, defined));
      var rest := WalkOnward(c, next, after, UseWalk(visited + {id}, [])).log;
      assert log + BlockUses(b.value, defined) + rest == log + (BlockUses(b.value, defined) + rest);
      assert [] + BlockUses(b.value, defined) == BlockUses(b.value, defined);
    }
  }

  lemma {:induction false} OnwardLogs(
      c: Cfg, ids: seq<BlockId>, defined: set<LocalId>, visited: set<BlockId>, log: seq<Diagnostic>)
    ensures var r := WalkOnward(c, ids, defined, UseWalk(visited, []));
            WalkOnward(c, ids, defined, UseWalk(visited, log)) == UseWalk(r.visited, log + r.log)
    decreases Unseen(c, visited), 1, |ids|
  {
    hide WalkUses;
    if ids != [] {
      var first := WalkUses(c, ids[0], defined, UseWalk(visited, []));
      SeenMore(c, visited, first.visited);
      WalkLogs(c, ids[0], defined, visited, log);
      OnwardLogs(c, ids[1..], defined, first.visited, log + first.log);
      OnwardLogs(c, ids[1..], defined, first.visited, first.log);
      var rest := WalkOnward(c, ids[1..], defined, UseWalk(first.visited, [])).log;
      assert log + first.log + rest == log + (first.log + rest);
    }
  }

  lemma {:induction false} WalkOneBlock(c: Cfg, id: BlockId, defined: set<LocalId>, visited: set<BlockId>)
    ensures var b, r := FindBlock(c.blocks, id), WalkUses(c, id, defined, UseWalk(visited, []));
            if id in visited then r == UseWalk(visited, [])
            else if b.None? then r == UseWalk(visited + {id}, [])
            else
              var rest := WalkOnward(c, Onward(b.value.terminator), DefinedByAll(b.value.stmts, defined),
                  UseWalk(visited + {id}, []));
              r == UseWalk(rest.visited, BlockUses(b.value, defined) + rest.log)
  {
    hide BlockUses, DefinedByAll, WalkOnward, Onward;
    var b := FindBlock(c.blocks, id);
    if id !in visited && b.Some? {
      OnwardLogs(c, Onward(b.value.terminator), DefinedByAll(b.value.stmts, defined), visited + {id},
                 [] + BlockUses(b.value, defined));
      assert [] + BlockUses(b.value, defined) == BlockUses(b.value, defined);
    }
  }

  /** What the second walk reports for a body: it starts at the entry, with every declared local taken
      for defined. */
  function EarlyUses(c: Cfg): seq<Diagnostic>
  {
    WalkUses(c, c.entry, Declared(|c.locals|), UseWalk({}, [])).log
  }

  lemma {:induction false} StmtsUsesQuiet(ss: seq<HirStmt>, defined: set<LocalId>)
    requires forall s | s in ss :: InStmt(s) <= defined
    ensures StmtsUses(ss, defined) == []
  {
    hide InStmt, StmtUses;
    if ss != [] {
      var front, last := ss[..|ss|-1], ss[|ss|-1];
      assert ss == front + [last];
      StmtsUsesQuiet(front, defined);
      assert InStmt(last) <= DefinedByAll(front, defined);
    }
  }

  lemma {:induction false} WalkQuiet(c: Cfg, id: BlockId, ok: set<LocalId>, defined: set<LocalId>, w: UseWalk)
    requires ok <= defined && forall b | b in c.blocks :: BlockWithin(b, ok)
    ensures WalkUses(c, id, defined, w).log == w.log
    decreases Unseen(c, w.visited), 0, 0
  {
    hide BlockWithin, DefinedByAll, Onward, BlockUses;
    var b := FindBlock(c.blocks, id);
    if id !in w.visited && b.Some? {
      SeenMore(c, w.visited, w.visited + {id});
      BlockUsesQuiet(b.value, ok, defined);
      assert w.log + [] == w.log;
      OnwardQuiet(c, Onward(b.value.terminator), ok, DefinedByAll(b.value.stmts, defined),
          UseWalk(w.visited + {id}, w.log));
    }
  }

  lemma {:induction false} BlockUsesQuiet(b: HirBlock, ok: set<LocalId>, defined: set<LocalId>)
    requires BlockWithin(b, ok) && ok <= defined
    ensures BlockUses(b, defined) == [] && ok <= DefinedByAll(b.stmts, defined)
  {
    hide InStmt, InTerminator;
    StmtsUsesQuiet(b.stmts, defined);
  }

  lemma {:induction false} OnwardQuiet(c: Cfg, ids: seq<BlockId>, ok: set<LocalId>, defined: set<LocalId>, w: UseWalk)
    requires ok <= defined && forall b | b in c.blocks :: BlockWithin(b, ok)
    ensures WalkOnward(c, ids, defined, w).log == w.log
    decreases Unseen(c, w.visited), 1, |ids|
  {
    hide BlockWithin, WalkUses;
    if ids != [] {
      var first := WalkUses(c, ids[0], defined, w);
      WalkQuiet(c, ids[0], ok, defined, w);
      SeenMore(c, w.visited, first.visited);
      OnwardQuiet(c, ids[1..], ok, defined, first);
    }
  }

  /** Since all declared locals count as defined, the second walk has something to say only about bodies
      that already drew an error: a local that is declared is never reported as used too early. */
  lemma {:induction false} EarlyUsesOnlyAfterErrors(c: Cfg)
    requires EarlyUses(c) != []
    ensures !Accepted(c) && BlocksDiags(c.blocks, Declared(|c.locals|)) != []
  {
    hide WalkUses, BlockWithin;
    NoDiagsIffWithin(c.blocks, Declared(|c.locals|));
    if Accepted(c) {
      WalkQuiet(c, c.entry, Declared(|c.locals|), Declared(|c.locals|), UseWalk({}, []));
    }
  }

  // ----- The validator object -----

  class LocalValidator {
    const sink: DiagSink
    var valid: bool

    constructor (sink: DiagSink)
      ensures valid && this.sink == sink
    {
      this.sink := sink;
      valid := true;
    }

    /** What a check that emits `diags` does to the sink and to the verdict. */
    twostate predicate Emitted(diags: seq<Diagnostic>)
      reads this, sink
    {
      && sink.Valid() && sink.errorLimit == old(sink.errorLimit)
      && sink.log == old(sink.log) + diags
      && valid == (old(valid) && diags == [])
    }

    method CheckPlace(p: HirPlace, ok: set<LocalId>, span: Span)
      requires sink.Valid()
      modifies this`valid, sink
      ensures Emitted(PlaceDiags(p, ok, span))
      decreases p
    {
      hide DiagSink.Valid;
      match p {
        case Local(id) =>
          if id !in ok {
            sink.Emit(BadLocal(span));
            valid := false;
          }
        case Field(base, _) => CheckPlace(base, ok, span);
        case Index(base, index) =>
          CheckPlace(base, ok, span);
          CheckOperand(index, ok, span);
        case Deref(base) => CheckPlace(base, ok, span);
      }
    }

    method CheckOperand(o: HirOperand, ok: set<LocalId>, span: Span)
      requires sink.Valid()
      modifies this`valid, sink
      ensures Emitted(OperandDiags(o, ok, span))
      decreases o
    {
      hide DiagSink.Valid;
      if o.PlaceOp? {
        CheckPlace(o.place, ok, span);
      }
    }

    method CheckOperands(os: seq<HirOperand>, ok: set<LocalId>, span: Span)
      requires sink.Valid()
      modifies this`valid, sink
      ensures Emitted(OperandsDiags(os, ok, span))
    {
      hide DiagSink.Valid, OperandDiags;
      for i := 0 to |os|
        invariant Emitted(OperandsDiags(os[..i], ok, span))
      {
        assert os[..i+1][..i] == os[..i];
        CheckOperand(os[i], ok, span);
      }
      assert os[..|os|] == os;
    }

    method CheckRvalue(rv: HirRvalue, ok: set<LocalId>, span: Span)
      requires sink.Valid()
      modifies this`valid, sink
      ensures Emitted(RvalueDiags(rv, ok, span))
    {
      hide DiagSink.Valid, OperandDiags, OperandsDiags, PlaceDiags;
      match rv {
        case Use(o) => CheckOperand(o, ok, span);
        case BinaryOp(_, l, r) =>
          CheckOperand(l, ok, span);
          CheckOperand(r, ok, span);
        case UnaryOp(_, o) => CheckOperand(o, ok, span);
        case Ref(p, _) => CheckPlace(p, ok, span);
        case Load(o) => CheckOperand(o, ok, span);
        case Aggregate(_, fields) => CheckOperands(fields, ok, span);
        case Discriminant(p) => CheckPlace(p, ok, span);
        case ExtractPayload(p, _) => CheckPlace(p, ok, span);
        case ArrayToSlice(o, _, _) => CheckOperand(o, ok, span);
      }
    }

    method CheckStmt(s: HirStmt, ok: set<LocalId>)
      requires sink.Valid()
      modifies this`valid, sink
      ensures Emitted(StmtDiags(s, ok))
    {
      hide DiagSink.Valid, OperandDiags, OperandsDiags, PlaceDiags, RvalueDiags, InPlace, InOperand, InOperands;
      hide InRvalue;
      match s {
        case Assign(lhs, rhs, span) =>
          CheckPlace(lhs, ok, span);
          CheckRvalue(rhs, ok, span);
        case Call(dest, func, args, span) =>
          if dest.Some? {
            CheckPlace(dest.value, ok, span);
          }
          CheckOperand(func, ok, span);
          CheckOperands(args, ok, span);
        case Drop(p, span) => CheckPlace(p, ok, span);
      }
    }

    method CheckTerminator(t: HirTerminator, ok: set<LocalId>)
      requires sink.Valid()
      modifies this`valid, sink
      ensures Emitted(TerminatorDiags(t, ok))
    {
      hide DiagSink.Valid, OperandDiags;
      match t {
        case Return(Some(o)) => CheckOperand(o, ok, NOWHERE);
        case Switch(discr, _, _) => CheckOperand(discr, ok, NOWHERE);
        case _ =>
      }
    }

    method CheckStmts(ss: seq<HirStmt>, ok: set<LocalId>)
      requires sink.Valid()
      modifies this`valid, sink
      ensures Emitted(StmtsDiags(ss, ok))
    {
      hide DiagSink.Valid, StmtDiags, InStmt;
      for i := 0 to |ss|
        invariant Emitted(StmtsDiags(ss[..i], ok))
      {
        assert ss[..i+1][..i] == ss[..i];
        CheckStmt(ss[i], ok);
      }
      assert ss[..|ss|] == ss;
    }

    method CheckBlock(b: HirBlock, ok: set<LocalId>)
      requires sink.Valid()
      modifies this`valid, sink
      ensures Emitted(BlockDiags(b, ok))
    {
      hide DiagSink.Valid, StmtsDiags, TerminatorDiags, BlockWithin;
      CheckStmts(b.stmts, ok);
      CheckTerminator(b.terminator, ok);
    }

    /** What a walk that warns of `diags` does: the verdict stays. */
    twostate predicate Warned(diags: seq<Diagnostic>)
      reads this, sink
    {
      && sink.Valid() && sink.errorLimit == old(sink.errorLimit)
      && sink.log == old(sink.log) + diags
      && valid == old(valid)
    }

    method CheckPlaceUse(p: HirPlace, defined: set<LocalId>, span: Span)
      requires sink.Valid()
      modifies sink
      ensures Warned(PlaceUses(p, defined, span))
    {
      hide DiagSink.Valid;
      if Root(p) !in defined {
        sink.Emit(EarlyUse(span));
      }
    }

    method CheckOperandUse(o: HirOperand, defined: set<LocalId>, span: Span)
      requires sink.Valid()
      modifies sink
      ensures Warned(OperandUses(o, defined, span))
    {
      hide DiagSink.Valid, PlaceUses;
      if o.PlaceOp? {
        CheckPlaceUse(o.place, defined, span);
      }
    }

    method CheckOperandUses(os: seq<HirOperand>, defined: set<LocalId>, span: Span)
      requires sink.Valid()
      modifies sink
      ensures Warned(OperandsUses(os, defined, span))
    {
      hide DiagSink.Valid, OperandUses;
      for i := 0 to |os|
        invariant Warned(OperandsUses(os[..i], defined, span))
      {
        assert os[..i+1][..i] == os[..i];
        CheckOperandUse(os[i], defined, span);
      }
      assert os[..|os|] == os;
    }

    method CheckRvalueUse(rv: HirRvalue, defined: set<LocalId>, span: Span)
      requires sink.Valid()
      modifies sink
      ensures Warned(RvalueUses(rv, defined, span))
    {
      hide DiagSink.Valid, OperandUses, OperandsUses, PlaceUses;
      match rv {
        case Use(o) => CheckOperandUse(o, defined, span);
        case BinaryOp(_, l, r) =>
          CheckOperandUse(l, defined, span);
          CheckOperandUse(r, defined, span);
        case UnaryOp(_, o) => CheckOperandUse(o, defined, span);
        case Ref(p, _) => CheckPlaceUse(p, defined, span);
        case Load(o) => CheckOperandUse(o, defined, span);
        case Aggregate(_, fields) => CheckOperandUses(fields, defined, span);
        case Discriminant(p) => CheckPlaceUse(p, defined, span);
        case ExtractPayload(p, _) => CheckPlaceUse(p, defined, span);
        case ArrayToSlice(o, _, _) => CheckOperandUse(o, defined, span);
      }
    }

    method CheckStmtUse(s: HirStmt, defined: set<LocalId>) returns (after: set<LocalId>)
      requires sink.Valid()
      modifies sink
      ensures Warned(StmtUses(s, defined)) && after == DefinedBy(s, defined)
    {
      hide DiagSink.Valid, OperandUses, OperandsUses, PlaceUses, RvalueUses;
      after := defined;
      match s {
        case Assign(lhs, rhs, span) =>
          CheckRvalueUse(rhs, defined, span);
          after := after + {Root(lhs)};
        case Call(dest, func, args, span) =>
          CheckOperandUse(func, defined, span);
          CheckOperandUses(args, defined, span);
          if dest.Some? {
            after := after + {Root(dest.value)};
          }
        case Drop(p, span) => CheckPlaceUse(p, defined, span);
      }
    }

    method CheckStmtUses(ss: seq<HirStmt>, defined: set<LocalId>) returns (after: set<LocalId>)
      requires sink.Valid()
      modifies sink
      ensures Warned(StmtsUses(ss, defined)) && after == DefinedByAll(ss, defined)
    {
      hide DiagSink.Valid, StmtUses, DefinedBy, InStmt;
      after := defined;
      for i := 0 to |ss|
        invariant Warned(StmtsUses(ss[..i], defined)) && after == DefinedByAll(ss[..i], defined)
      {
        assert ss[..i+1][..i] == ss[..i];
        after := CheckStmtUse(ss[i], after);
      }
      assert ss[..|ss|] == ss;
    }

    /** One block of the second walk, and what it leads to. */
    method CheckBlockUse(c: Cfg, id: BlockId, defined: set<LocalId>, visited: set<BlockId>) returns (seen: set<BlockId>)
      requires sink.Valid()
      modifies sink
      ensures var r := WalkUses(c, id, defined, UseWalk(visited, [])); seen == r.visited && Warned(r.log)
      decreases Unseen(c, visited), 0, 0
    {
      hide DiagSink.Valid, BlockUses, DefinedByAll, WalkUses, WalkOnward, Unseen, Onward;
      WalkOneBlock(c, id, defined, visited);
      seen := visited;
      if id !in visited {
        seen := visited + {id};
        var b := FindBlock(c.blocks, id);
        if b.Some? {
          EnterBlock(c, visited, id);
          var after := CheckUsesIn(b.value, defined);
          seen := CheckOnward(c, Onward(b.value.terminator), after, seen);
        }
      }
    }

    method CheckUsesIn(b: HirBlock, defined: set<LocalId>) returns (after: set<LocalId>)
      requires sink.Valid()
      modifies sink
      ensures Warned(BlockUses(b, defined)) && after == DefinedByAll(b.stmts, defined)
    {
      hide DiagSink.Valid, StmtsUses, DefinedByAll, TerminatorUses;
      after := CheckStmtUses(b.stmts, defined);
      CheckTerminatorUse(b.terminator, after, b.span);
    }

    method CheckTerminatorUse(t: HirTerminator, defined: set<LocalId>, span: Span)
      requires sink.Valid()
      modifies sink
      ensures Warned(TerminatorUses(t, defined, span))
    {
      hide DiagSink.Valid, OperandUses;
      match t {
        case Return(Some(o)) => CheckOperandUse(o, defined, span);
        case Switch(discr, _, _) => CheckOperandUse(discr, defined, span);
        case _ =>
      }
    }

    method CheckOnward(
        c: Cfg, ids: seq<BlockId>, defined: set<LocalId>, visited: set<BlockId>) returns (seen: set<BlockId>)
      requires sink.Valid()
      modifies sink
      ensures var r := WalkOnward(c, ids, defined, UseWalk(visited, [])); seen == r.visited && Warned(r.log)
      decreases Unseen(c, visited), 1, |ids|
    {
      hide DiagSink.Valid, WalkUses, Unseen;
      seen := visited;
      if ids != [] {
        var first := WalkUses(c, ids[0], defined, UseWalk(visited, []));
        seen := CheckBlockUse(c, ids[0], defined, visited);
        SeenMore(c, visited, seen);
        OnwardLogs(c, ids[1..], defined, first.visited, first.log);
        seen := CheckOnward(c, ids[1..], defined, seen);
      }
    }

    /** The verdict is the conjunction with everything checked before: exactly when every mentioned
        local is declared does it stay true, and then nothing is emitted at all. */
    method Validate(body: HirBody) returns (r: bool)
      requires sink.Valid()
      modifies this`valid, sink
      ensures r == valid && sink.Valid()
      ensures sink.log == old(sink.log) + (BlocksDiags(body.blocks, Declared(|body.locals|)) + EarlyUses(body.View()))
      ensures old(valid) ==> (r <==> Accepted(body.View()))
      ensures Accepted(body.View()) ==> sink.log == old(sink.log)
    {
      hide DiagSink.Valid, BlocksDiags, WalkUses, BlockWithin, Declared;
      CheckLocals(body);
      var c := Cfg(body.blocks, body.locals, body.entryBlock);
      NoDiagsIffWithin(c.blocks, Declared(|c.locals|));
      if EarlyUses(c) != [] {
        EarlyUsesOnlyAfterErrors(c);
      }
      var _ := CheckBlockUse(c, c.entry, Declared(|c.locals|), {});
      r := valid;
    }

    /** The first walk: one error for every mention of a local that is not declared. */
    method CheckLocals(body: HirBody)
      requires sink.Valid()
      modifies this`valid, sink
      ensures Emitted(BlocksDiags(body.blocks, Declared(|body.locals|)))
      ensures old(valid) ==> (valid <==> Accepted(body.View()))
    {
      hide DiagSink.Valid, BlockDiags, BlockWithin;
      var blocks, ok := body.blocks, Declared(|body.locals|);
      for i := 0 to |blocks|
        invariant Emitted(BlocksDiags(blocks[..i], ok))
      {
        assert blocks[..i+1][..i] == blocks[..i];
        CheckBlock(blocks[i], ok);
      }
      assert blocks[..|blocks|] == blocks;
      NoDiagsIffWithin(blocks, ok);
    }
  }
}
