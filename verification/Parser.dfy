/** The parser: a cursor over the tokens that skips comments, and mutually recursive methods for
    expressions, statements, blocks, arms, patterns and types. Every method terminates on every stream
    that ends with the end of file, never moves the cursor back and never takes it past that end. */
module Parser {
  import opened Wrappers
  import opened Diag
  import opened Ast
  import opened Tokens
  import opened Printing
  import opened PrintingArms
  import opened Decimal

  const UNEXPECTED := 2001

  /** What a caller may know about the tokens ahead: up to `end` they print a tree. */
  datatype Goal = NoGoal | Printed(tree: Expr, end: nat)

  ghost predicate GoalAhead(goal: Goal, toks: seq<Token>, i: nat, min: nat)
  {
    goal.Printed? ==>
      && IsTree(goal.tree) && min <= SUFFIX && Spells(toks, i, Print(goal.tree, min), goal.end)
      && goal.end < |toks| && Stops(toks[goal.end].kind, min)
  }

  ghost predicate HeadAhead(goal: Goal, toks: seq<Token>, i: nat)
  {
    goal.Printed? ==>
      && IsTree(goal.tree) && Spells(toks, i, Print(goal.tree, PREFIX), goal.end) && goal.end < |toks|
  }

  /** `e` is what `goal` is after `k` suffixes, and the remaining ones are ahead. */
  ghost predicate SuffixesAhead(goal: Goal, toks: seq<Token>, i: nat, k: nat, e: Expr)
  {
    goal.Printed? ==>
      && IsTree(goal.tree) && k <= |Suffixes(goal.tree)| && Same(e, ReadTo(goal.tree, k))
      && Spells(toks, i, SuffixesTokens(Suffixes(goal.tree)[k..]), goal.end)
      && goal.end < |toks| && !StartsPostfix(toks[goal.end].kind)
  }

  /** The last suffix of `goal` is ahead, and `e` is what it stands behind. */
  ghost predicate SuffixAhead(goal: Goal, toks: seq<Token>, i: nat, e: Expr)
  {
    goal.Printed? ==>
      && IsTree(goal.tree) && IsSuffixed(goal.tree) && Same(e, Base(goal.tree))
      && Spells(toks, i, SuffixTokens(goal.tree), goal.end) && goal.end < |toks|
  }

  /** The tree has been read, up to its end. */
  ghost predicate GoalMet(goal: Goal, e: Expr, i: nat)
  {
    goal.Printed? ==> Same(e, goal.tree) && i == goal.end
  }

  datatype ListGoal = NoList | PrintedList(items: seq<Expr>, end: nat)

  ghost predicate ListAhead(goal: ListGoal, toks: seq<Token>, i: nat, close: string)
  {
    goal.PrintedList? ==>
      AreTrees(goal.items) && Spells(toks, i, PrintList(goal.items, close), goal.end) && goal.end < |toks|
  }

  ghost predicate ListMet(goal: ListGoal, es: seq<Expr>, i: nat)
  {
    goal.PrintedList? ==> SameAll(es, goal.items) && i == goal.end
  }

  datatype TypeGoal = NoType | PrintedType(ty: TypeExpr, end: nat)

  ghost predicate TypeAhead(goal: TypeGoal, toks: seq<Token>, i: nat)
  {
    goal.PrintedType? ==>
      && Writable(goal.ty) && Spells(toks, i, PrintType(goal.ty), goal.end)
      && goal.end < |toks| && toks[goal.end].kind != Punct("!")
  }

  ghost predicate TypeMet(goal: TypeGoal, t: TypeExpr, i: nat)
  {
    goal.PrintedType? ==> t == goal.ty && i == goal.end
  }

  datatype StmtGoal = NoStmt | PrintedStmt(stmt: Stmt, end: nat)

  ghost predicate StmtAhead(goal: StmtGoal, toks: seq<Token>, i: nat)
  {
    goal.PrintedStmt? ==>
      && IsPlainStmt(goal.stmt) && Spells(toks, i, PrintStmt(goal.stmt), goal.end)
      && goal.end < |toks| && StopsStmt(toks[goal.end].kind)
  }

  ghost predicate StmtMet(goal: StmtGoal, s: Stmt, i: nat)
  {
    goal.PrintedStmt? ==> SameStmt(s, goal.stmt) && i == goal.end
  }

  datatype BlockGoal = NoBlock | PrintedBlock(stmts: seq<Stmt>, end: nat)

  ghost predicate BlockAhead(goal: BlockGoal, toks: seq<Token>, i: nat)
  {
    goal.PrintedBlock? ==>
      && AreBlockStmts(goal.stmts) && AreSeparated(goal.stmts)
      && Spells(toks, i, PrintBlock(goal.stmts), goal.end) && goal.end < |toks|
  }

  /** From the `k`-th statement on the block is ahead. */
  ghost predicate StmtsAhead(goal: BlockGoal, toks: seq<Token>, i: nat, k: nat)
  {
    goal.PrintedBlock? ==>
      && k <= |goal.stmts| && AreBlockStmts(goal.stmts[k..]) && AreSeparated(goal.stmts[k..])
      && Spells(toks, i, PrintStmts(goal.stmts[k..]), goal.end) && goal.end < |toks|
  }

  /** The first statements have been read, and the remaining ones are ahead. */
  ghost predicate StmtsRead(goal: BlockGoal, toks: seq<Token>, i: nat, ss: seq<Stmt>)
  {
    StmtsAhead(goal, toks, i, |ss|) && (goal.PrintedBlock? ==> SameStmts(ss, goal.stmts[..|ss|]))
  }

  datatype PatternGoal = NoPattern | PrintedPattern(pattern: ArmPattern, end: nat)

  ghost predicate PatternAhead(goal: PatternGoal, toks: seq<Token>, i: nat)
  {
    goal.PrintedPattern? ==>
      && IsPattern(goal.pattern) && Spells(toks, i, PrintPattern(goal.pattern), goal.end)
      && PunctAt(toks, goal.end, "=>")
  }

  /** The pattern has been read, or it is one that is taken for another. */
  ghost predicate PatternMet(goal: PatternGoal, p: ArmPattern, i: nat, quiet: bool)
  {
    goal.PrintedPattern? ==>
      && IsPattern(goal.pattern)
      && if IsReadable(goal.pattern) then SamePattern(p, goal.pattern) && i == goal.end && quiet
         else !SamePattern(p, goal.pattern)
  }

  datatype NamesGoal = NoNames | PrintedNames(names: seq<string>, end: nat)

  ghost predicate NamesAhead(goal: NamesGoal, toks: seq<Token>, i: nat)
  {
    goal.PrintedNames? ==>
      goal.names != [] && Spells(toks, i, PrintNames(goal.names), goal.end) && goal.end < |toks|
  }

  datatype ArmGoal = NoArm | PrintedArm(arm: Arm, end: nat)

  ghost predicate ArmAhead(goal: ArmGoal, toks: seq<Token>, i: nat)
  {
    goal.PrintedArm? ==>
      && IsArm(goal.arm) && Spells(toks, i, PrintArm(goal.arm), goal.end)
      && goal.end < |toks| && Stops(toks[goal.end].kind, LIST)
  }

  ghost predicate ArmMet(goal: ArmGoal, a: Arm, i: nat, quiet: bool)
  {
    goal.PrintedArm? ==>
      && IsArm(goal.arm)
      && if IsReadable(goal.arm.pattern) then SameArm(a, goal.arm) && i == goal.end && quiet
         else !SameArm(a, goal.arm)
  }

  datatype ArmsGoal = NoArms | PrintedArms(arms: seq<Arm>, end: nat)

  ghost predicate ArmsAhead(goal: ArmsGoal, toks: seq<Token>, i: nat)
  {
    goal.PrintedArms? ==>
      AreArms(goal.arms) && Spells(toks, i, PrintArms(goal.arms), goal.end) && goal.end < |toks|
  }

  ghost predicate ArmsMet(goal: ArmsGoal, arms: seq<Arm>, met: bool)
  {
    goal.PrintedArms? ==>
      AreArms(goal.arms) &&
      if AllReadable(goal.arms) then SameArms(arms, goal.arms) && met else !SameArms(arms, goal.arms)
  }

  datatype BranchGoal =
    | NoBranch
    | PrintedGuard(condition: Expr, body: Expr, end: nat)
    | PrintedBranch(scrutinee: Option<Expr>, arms: seq<Arm>, end: nat)

  ghost predicate BranchAhead(goal: BranchGoal, toks: seq<Token>, i: nat)
  {
    match goal
    case NoBranch => true
    case PrintedGuard(condition, body, end) =>
      && IsTree(condition) && IsTree(body) && Spells(toks, i, PrintGuard(condition, body), end)
      && end < |toks| && Stops(toks[end].kind, 0)
    case PrintedBranch(scrutinee, arms, end) =>
      && (scrutinee.Some? ==> IsTree(scrutinee.value)) && AreArms(arms)
      && Spells(toks, i, PrintBranch(scrutinee, arms), end) && end < |toks|
  }

  /** A guard is read back, and a branch exactly when all its patterns can be. */
  ghost predicate BranchMet(goal: BranchGoal, e: Expr, i: nat, quiet: bool)
  {
    match goal
    case NoBranch => true
    case PrintedGuard(condition, body, end) =>
      IsBranch(e, None, [Arm(CondArm(condition), body)]) && i == end && quiet
    case PrintedBranch(scrutinee, arms, end) =>
      AreArms(arms) && if AllReadable(arms) then IsBranch(e, scrutinee, arms) && i == end && quiet
                       else !IsBranch(e, scrutinee, arms)
  }

  ghost predicate IsBranch(e: Expr, scrutinee: Option<Expr>, arms: seq<Arm>)
  {
    e.Branch? && SameSubject(e.scrutinee, scrutinee) && SameArms(e.arms, arms)
  }

  datatype LoopGoal = NoLoop | PrintedLoop(tag: Option<string>, subject: Option<Expr>, stmts: seq<Stmt>, end: nat)

  ghost predicate LoopAhead(goal: LoopGoal, toks: seq<Token>, i: nat)
  {
    goal.PrintedLoop? ==>
      && (goal.subject.Some? ==> IsTree(goal.subject.value)) && AreBlockStmts(goal.stmts) && AreSeparated(goal.stmts)
      && Spells(toks, i, PrintLoop(goal.tag, goal.subject, goal.stmts), goal.end) && goal.end < |toks|
  }

  ghost predicate LoopMet(goal: LoopGoal, e: Expr, i: nat, quiet: bool)
  {
    goal.PrintedLoop? ==>
      && (goal.subject.Some? ==> IsTree(goal.subject.value))
      && if SubjectIsTag(goal.tag, goal.subject) then e.Loop? && e.tag.Some?
         else if EndsInMatch(goal.stmts) then !IsLoop(e, goal.tag, goal.subject, goal.stmts)
         else IsLoop(e, goal.tag, goal.subject, goal.stmts) && i == goal.end && quiet
  }

  ghost predicate IsLoop(e: Expr, tag: Option<string>, subject: Option<Expr>, stmts: seq<Stmt>)
  {
    e.Loop? && e.tag == tag && SameSubject(e.subject, subject) && e.body.Block? && SameStmts(e.body.stmts, stmts)
  }

  ghost predicate SameSubject(x: Option<Expr>, y: Option<Expr>)
  {
    if x.Some? && y.Some? then Same(x.value, y.value) else x.None? && y.None?
  }

  ghost predicate MatchAt(goal: BlockGoal, k: int)
    requires goal.PrintedBlock?
  {
    0 <= k < |goal.stmts| && IsMatch(goal.stmts[k])
  }

  class Parser {
    const toks: seq<Token>
    var pos: nat
    const sink: DiagSink

    ghost predicate Valid()
      reads this, sink
    {
      Ended(toks) && pos < |toks| && toks[pos].kind != Comment && sink.Valid()
    }

    /** Tokens that are left; every loop and every recursion works on this. */
    ghost function Left(): nat
      reads this
      requires pos <= |toks|
    {
      |toks| - pos
    }

    constructor (toks: seq<Token>, sink: DiagSink)
      requires Ended(toks) && sink.Valid()
      ensures Valid() && this.toks == toks && this.sink == sink && pos == PastComments(toks, 0)
    {
      this.toks := toks;
      this.sink := sink;
      pos := 0;
      new;
      SkipComments();
    }

    method SkipComments()
      requires Ended(toks) && pos < |toks|
      modifies this`pos
      ensures pos == PastComments(toks, old(pos)) && Moved(toks, old(pos), pos)
    {
      SkipStays(toks, pos);
      while pos < |toks| && toks[pos].kind == Comment
        invariant PastComments(toks, pos) == PastComments(toks, old(pos)) && pos <= |toks|
        decreases |toks| - pos
      {
        pos := pos + 1;
      }
    }

    function Peek(): TokenKind
      requires pos < |toks|
      reads this`pos
    {
      toks[pos].kind
    }

    function PeekSpan(): Span
      requires pos < |toks|
      reads this`pos
    {
      toks[pos].span
    }

    /** The kind `n` tokens ahead, comments apart; the last one when there are fewer. */
    method PeekAhead(n: nat) returns (k: TokenKind)
      requires Valid()
      ensures k == AheadKind(toks, pos, n)
    {
      var index: nat, count: nat := pos, 0;
      while index < |toks| && count < n
        invariant index <= |toks| && count <= n && AheadKind(toks, index, n - count) == AheadKind(toks, pos, n)
        decreases n - count
      {
        index := index + 1;
        ghost var from := index;
        while index < |toks| && toks[index].kind == Comment
          invariant index <= |toks| && PastComments(toks, index) == PastComments(toks, from)
          decreases |toks| - index
        {
          index := index + 1;
        }
        count := count + 1;
      }
      k := toks[if index < |toks| then index else |toks| - 1].kind;
    }

    function AtPunct(mark: string): bool
      requires pos < |toks|
      reads this`pos
    {
      Peek() == Punct(mark)
    }

    function AtEof(): bool
      requires pos < |toks|
      reads this`pos
    {
      Peek() == Eof
    }

    method Bump() returns (s: Span)
      requires Valid()
      modifies this`pos
      ensures Valid() && s == old(PeekSpan()) && Moved(toks, old(pos), pos)
      ensures pos == if old(AtEof()) then old(pos) else Next(toks, old(pos))
      ensures !old(AtEof()) ==> old(pos) < pos
    {
      s := PeekSpan();
      if !AtEof() {
        NextMoves(toks, pos);
        pos := pos + 1;
        SkipComments();
      }
    }

    method EatPunct(mark: string) returns (eaten: bool)
      requires Valid()
      modifies this`pos
      ensures Valid() && Moved(toks, old(pos), pos) && eaten == old(AtPunct(mark))
      ensures pos == if eaten then Next(toks, old(pos)) else old(pos)
      ensures eaten ==> old(pos) < pos
    {
      eaten := AtPunct(mark);
      if eaten {
        var _ := Bump();
      }
    }

    method EatKeyword(word: string) returns (eaten: bool)
      requires Valid()
      modifies this`pos
      ensures Valid() && Moved(toks, old(pos), pos) && eaten == (old(Peek()) == Keyword(word))
      ensures pos == if eaten then Next(toks, old(pos)) else old(pos)
      ensures eaten ==> old(pos) < pos
    {
      eaten := Peek() == Keyword(word);
      if eaten {
        var _ := Bump();
      }
    }

    method ExpectPunct(mark: string) returns (met: bool)
      requires Valid()
      modifies this`pos, sink
      ensures Valid() && Moved(toks, old(pos), pos) && met == old(AtPunct(mark))
      ensures pos == if met then Next(toks, old(pos)) else old(pos)
      ensures met ==> old(pos) < pos && sink.log == old(sink.log)
      ensures !met ==> sink.log == old(sink.log) + [Diagnostic(Error, 2001, DiagLoc.At(PeekSpan()), 1)]
    {
      met := EatPunct(mark);
      if !met {
        Unexpected();
      }
    }

    method EatIdent() returns (name: Option<string>)
      requires Valid()
      modifies this`pos
      ensures Valid() && Moved(toks, old(pos), pos)
      ensures name == if old(Peek()).Ident? then Some(old(Peek()).name) else None
      ensures pos == if name.Some? then Next(toks, old(pos)) else old(pos)
      ensures name.Some? ==> old(pos) < pos
    {
      name := None;
      if Peek().Ident? {
        name := Some(Peek().name);
        var _ := Bump();
      }
    }

    method Unexpected()
      requires Valid()
      modifies sink
      ensures Valid() && sink.log == old(sink.log) + [Diagnostic(Error, 2001, DiagLoc.At(PeekSpan()), 1)]
    {
      sink.Emit(MakeError(UNEXPECTED, DiagLoc.At(PeekSpan())));
    }

    /** Skips to the next `::`, or to the end. */
    method RecoverToItem()
      requires Valid()
      modifies this`pos
      ensures Valid() && Moved(toks, old(pos), pos) && (AtPunct("::") || AtEof())
      ensures forall k | old(pos) <= k < pos :: toks[k].kind != Punct("::")
    {
      while !AtEof()
        invariant Valid() && Moved(toks, old(pos), pos)
        invariant forall k | old(pos) <= k < pos :: toks[k].kind != Punct("::")
        decreases |toks| - pos
      {
        if AtPunct("::") {
          return;
        }
        var _ := Bump();
      }
    }

    // ----- Expressions -----

    method ParseExpr(ghost goal: Goal) returns (e: Expr)
      requires Valid() && GoalAhead(goal, toks, pos, 0)
      modifies this`pos, sink
      ensures Valid() && Moved(toks, old(pos), pos) && GoalMet(goal, e, pos)
      ensures goal.Printed? ==> sink.log == old(sink.log)
      decreases |toks| - pos, 6
    {
      e := ParseExprBp(0, goal);
    }

    /** Precedence climbing. Where the tokens ahead print a tree from the tier on that this power admits, that
        tree is read, to its end and not beyond, and nothing is reported. */
    method ParseExprBp(min: nat, ghost goal: Goal) returns (e: Expr)
      requires Valid() && GoalAhead(goal, toks, pos, TierFrom(min))
      modifies this`pos, sink
      ensures Valid() && Moved(toks, old(pos), pos) && GoalMet(goal, e, pos)
      ensures goal.Printed? ==> sink.log == old(sink.log)
      decreases |toks| - pos, 5
    {
      HeadUnknown(toks, pos);
      hide GoalAhead, HeadAhead, GoalMet, Reading, RestOf, HeadOf, SuffixesAhead;
      ghost var start, root, chain, done, tier := pos, NoGoal, NoGoal, 0, TierFrom(min);
      if goal.Printed? {
        root, chain := HeadGoal(toks, pos, tier, goal);
      }
      e := ParsePrefix(root);
      if goal.Printed? {
        RootRead(toks, pos, tier, goal, root, chain, e);
      }
      var more := true;
      NothingToMeet(e, pos);
      while more
        invariant Valid() && Moved(toks, start, pos)
        invariant goal.Printed? ==>
                    sink.log == old(sink.log) &&
                    if more then Reading(toks, pos, tier, goal, chain, done, e) else GoalMet(goal, e, pos)
        decreases |toks| - pos, more
      {
        ghost var before := pos;
        e, more := ParseLink(min, e, goal, chain, done);
        MovedTrans(toks, start, before, pos);
        done := done + 1;
      }
      NothingToMeet(e, pos);
    }

    /** One round: postfix forms, then an operator that binds tightly enough with its right operand. */
    method ParseLink(min: nat, lhs: Expr, ghost goal: Goal, ghost chain: Goal, ghost done: nat)
      returns (e: Expr, more: bool)
      requires Valid() && (goal.Printed? ==> Reading(toks, pos, TierFrom(min), goal, chain, done, lhs))
      modifies this`pos, sink
      ensures Valid() && Moved(toks, old(pos), pos) && (more ==> old(pos) < pos)
      ensures goal.Printed? ==>
                sink.log == old(sink.log) &&
                if more then Reading(toks, pos, TierFrom(min), goal, chain, done + 1, e) else GoalMet(goal, e, pos)
      decreases |toks| - pos, 4
    {
      ghost var start, suffixed, tier := pos, NoGoal, TierFrom(min);
      hide TierFrom, TokenTier, GoalAhead, HeadAhead, GoalMet, Reading, ReadSoFar, RestOf, HeadOf, OperatorOf;
      hide PastComments, Next;
      hide StartsPostfix, SuffixesAhead;
      SuffixesUnknown(toks, pos, lhs);
      if goal.Printed? {
        suffixed := LinkStarts(toks, pos, tier, goal, chain, done, lhs);
      }
      var left := ParsePostfix(lhs, suffixed);
      if goal.Printed? {
        LeftRead(toks, start, pos, tier, goal, chain, done, lhs, left);
      }
      e := left;
      more := false;
      var oper := OperatorOf(Peek());
      PowersFollowTiers(Peek(), min);
      if oper.None? || oper.value.1 < min {
        if goal.Printed? {
          AllRead(toks, pos, tier, goal, done, left);
        }
        return;
      }
      ghost var at := pos;
      OperatorNotEof(Peek());
      var _ := Bump();
      MovedTrans(toks, start, at, pos);
      ghost var rest := NoGoal;
      GoalUnknown(toks, pos, TierFrom(oper.value.1 + 1));
      if goal.Printed? {
        rest := LinkGoal(toks, at, tier, goal, done, left, oper.value.0);
      }
      ghost var middle := pos;
      var rhs := ParseExprBp(oper.value.1 + 1, rest);
      MovedTrans(toks, start, middle, pos);
      e, more := Binary(oper.value.0, left, rhs), true;
      if goal.Printed? {
        LinkRead(toks, at, pos, tier, goal, chain, done, left, oper.value.0, rest, rhs);
      }
    }

    /** A prefix form. An operand, or a tree in parentheses, is read to its end. */
    method ParsePrefix(ghost goal: Goal) returns (e: Expr)
      requires Valid() && HeadAhead(goal, toks, pos)
      modifies this`pos, sink
      ensures Valid() && Moved(toks, old(pos), pos) && GoalMet(goal, e, pos)
      ensures goal.Printed? ==> sink.log == old(sink.log)
      ensures old(Peek()) == Keyword("skip") ==> e.Skip?
      ensures old(Peek()) in {Keyword("jmp"), Keyword("break")} ==> e == NilLit
      decreases |toks| - pos, 4
    {
      if goal.Printed? {
        HeadShape(toks, pos, goal);
      }
      assert goal.Printed? ==> Peek() != Eof;
      hide HeadAhead, GoalMet, Same, IsTree, Next, PastComments, DiagSink.Valid, Ended, Moved;
      ghost var at := pos;
      var k := Peek();
      if k.Int? {
        e := IntLit(k.text);
        var _ := Bump();
        AtomIsMet(toks, at, goal, e);
      } else if k.Float? {
        e := FloatLit(k.text);
        var _ := Bump();
        AtomIsMet(toks, at, goal, e);
      } else if k.Str? {
        e := StrLit(k.text);
        var _ := Bump();
        AtomIsMet(toks, at, goal, e);
      } else if k == Keyword("true") || k == Keyword("false") {
        e := BoolLit(k == Keyword("true"));
        var _ := Bump();
        AtomIsMet(toks, at, goal, e);
      } else if k == Keyword("nil") {
        e := NilLit;
        var _ := Bump();
        AtomIsMet(toks, at, goal, e);
      } else if k.Keyword? {
        e := ParseWord(k.word, goal);
      } else if k == Punct("(") {
        e := ParseParens(goal);
      } else if k.Punct? {
        e := ParseMark(k.mark, goal);
      } else if k.Ident? {
        e := Path([k.name], PeekSpan());
        var _ := Bump();
        AtomIsMet(toks, at, goal, e);
      } else {
        SameStays(toks, pos);
        Unexpected();
        e := NilLit;
        NothingToMeet(e, pos);
      }
    }

    method ParseParens(ghost goal: Goal) returns (e: Expr)
      requires Valid() && AtPunct("(") && HeadAhead(goal, toks, pos)
      modifies this`pos, sink
      ensures Valid() && Moved(toks, old(pos), pos) && GoalMet(goal, e, pos)
      ensures goal.Printed? ==> sink.log == old(sink.log)
      decreases |toks| - pos, 3
    {
      ghost var inner := NoGoal;
      if goal.Printed? {
        inner := ParenGoal(toks, pos, goal);
      }
      ghost var start := pos;
      var _ := Bump();
      ghost var middle := pos;
      e := ParseExpr(inner);
      MovedTrans(toks, start, middle, pos);
      middle := pos;
      var _ := ExpectPunct(")");
      MovedTrans(toks, start, middle, pos);
    }

    /** Forms that a keyword introduces. */
    method ParseWord(word: string, ghost goal: Goal) returns (e: Expr)
      requires Valid() && Peek() == Keyword(word) && word !in {"true", "false", "nil"} && HeadAhead(goal, toks, pos)
      modifies this`pos, sink
      ensures Valid() && Moved(toks, old(pos), pos) && GoalMet(goal, e, pos)
      ensures goal.Printed? ==> sink.log == old(sink.log)
      ensures word == "ret" ==> e.Ret?
      ensures word == "stop" ==> e == Stop(TagAt(toks, Next(toks, old(pos))))
      ensures word == "skip" ==> e == Expr.Skip(TagAt(toks, Next(toks, old(pos))))
      ensures word == "not" ==> e.Unary? && e.unop == "not"
      ensures word !in {"ret", "stop", "skip", "not"} ==> e == NilLit && pos == old(pos)
      decreases |toks| - pos, 3
    {
      if goal.Printed? {
        HeadShape(toks, pos, goal);
      }
      if word == "ret" {
        GoalUnknown(toks, Next(toks, pos), LIST);
        e := ParseRet(NoGoal);
      } else if word == "stop" {
        e := ParseStop();
      } else if word == "skip" {
        var _ := Bump();
        var tag := ParseTag();
        e := Expr.Skip(tag);
      } else if word == "not" {
        e := ParseUnary("not", goal);
      } else {
        Unexpected();
        e := NilLit;
      }
    }

    /** An optional `@tag`. */
    method ParseTag() returns (tag: Option<string>)
      requires Valid()
      modifies this`pos, sink
      ensures Valid() && Moved(toks, old(pos), pos) && tag == TagAt(toks, old(pos))
    {
      tag := None;
      ghost var start := pos;
      var marked := EatPunct("@");
      if marked {
        ghost var middle := pos;
        tag := EatIdent();
        MovedTrans(toks, start, middle, pos);
        if tag.None? {
          Unexpected();
        }
      }
    }

    /** Without a value exactly before what ends a statement, a block or the file. */
    method ParseRet(ghost goal: Goal) returns (e: Expr)
      requires Valid() && !AtEof() && GoalAhead(goal, toks, Next(toks, pos), LIST)
      modifies this`pos, sink
      ensures Valid() && Moved(toks, old(pos), pos) && old(pos) < pos
      ensures e.Ret? && (e.value.None? <==> EndsReturn(AheadKind(toks, old(pos), 1)))
      ensures e.value.None? ==> pos == Next(toks, old(pos)) && sink.log == old(sink.log)
      ensures goal.Printed? ==> e.value.Some? && GoalMet(goal, e.value.value, pos) && sink.log == old(sink.log)
      decreases |toks| - pos, 2
    {
      ghost var start := pos;
      OneAhead(toks, pos);
      if goal.Printed? {
        NoReturnEnds(toks, Next(toks, pos), goal);
      }
      hide AheadKind, GoalAhead, GoalMet, Next, PastComments;
      var span := Bump();
      if AtPunct("}") || AtPunct(";") || AtEof() {
        return Ret(None, span);
      }
      ghost var middle := pos;
      var value := ParseExprBp(10, goal);
      MovedTrans(toks, start, middle, pos);
      e := Ret(Some(value), span);
    }

    method ParseStop() returns (e: Expr)
      requires Valid() && !AtEof()
      modifies this`pos, sink
      ensures Valid() && Moved(toks, old(pos), pos) && old(pos) < pos
      ensures e == Stop(TagAt(toks, Next(toks, old(pos))))
    {
      ghost var start := pos;
      var _ := Bump();
      ghost var middle := pos;
      var tag := ParseTag();
      MovedTrans(toks, start, middle, pos);
      e := Stop(tag);
    }

    method ParseUnary(op: string, ghost goal: Goal) returns (e: Expr)
      requires Valid() && !AtEof() && HeadAhead(goal, toks, pos)
      requires goal.Printed? ==> goal.tree.Unary? && goal.tree.unop == op && op != "*"
      modifies this`pos, sink
      ensures Valid() && Moved(toks, old(pos), pos) && old(pos) < pos && GoalMet(goal, e, pos)
      ensures goal.Printed? ==> sink.log == old(sink.log)
      ensures if op == "*" then e.DerefExpr? else e.Unary? && e.unop == op
      decreases |toks| - pos, 2
    {
      ghost var start, inner := pos, NoGoal;
      if goal.Printed? {
        HeadShape(toks, pos, goal);
        inner := Printed(goal.tree.operand, goal.end);
      }
      HeadUnknown(toks, Next(toks, pos));
      hide HeadAhead;
      var _ := Bump();
      ghost var middle := pos;
      var operand := ParsePrefix(inner);
      MovedTrans(toks, start, middle, pos);
      e := if op == "*" then DerefExpr(operand) else Unary(op, operand);
    }

    /** Forms that a mark introduces. */
    method ParseMark(mark: string, ghost goal: Goal) returns (e: Expr)
      requires Valid() && AtPunct(mark) && mark != "(" && HeadAhead(goal, toks, pos)
      modifies this`pos, sink
      ensures Valid() && Moved(toks, old(pos), pos) && GoalMet(goal, e, pos)
      ensures goal.Printed? ==> sink.log == old(sink.log)
      ensures mark == "?" ==> e.Branch? || e == NilLit
      ensures mark == "@" ==> e.Loop?
      ensures mark == "{" ==> e.Block?
      ensures mark == "-" || mark == "~" ==> e.Unary? && e.unop == mark
      ensures mark == "*" ==> e.DerefExpr?
      ensures mark == "[" ==> e.ArrayLit?
      ensures mark == "." ==> e.VariantConstructor? || e == NilLit
      ensures mark !in {"?", "@", "{", "-", "~", "*", "[", "."} ==> e == NilLit && pos == old(pos)
      decreases |toks| - pos, 3
    {
      if goal.Printed? {
        HeadShape(toks, pos, goal);
      }
      if mark == "?" {
        e := ParseBranch(NoBranch);
      } else if mark == "@" {
        e := ParseLoop(NoLoop);
      } else if mark == "{" {
        e := ParseBlock(NoBlock);
      } else if mark == "-" || mark == "~" || mark == "*" {
        e := ParseUnary(mark, goal);
      } else if mark == "[" {
        e := ParseArrayLit(goal);
      } else if mark == "." {
        e := ParseVariant();
      } else {
        Unexpected();
        e := NilLit;
      }
    }

    /** `.Variant` or `.Variant(payload)`. */
    method ParseVariant() returns (e: Expr)
      requires Valid() && !AtEof()
      modifies this`pos, sink
      ensures Valid() && Moved(toks, old(pos), pos) && old(pos) < pos
      ensures var n := Next(toks, old(pos));
              n < |toks| &&
              if toks[n].kind.Ident? then
                && e.VariantConstructor? && e.name == toks[n].kind.name
                && (e.payload.None? <==> !PunctAt(toks, Next(toks, n), "("))
              else e == NilLit
      decreases |toks| - pos, 2
    {
      ghost var start := pos;
      OneAhead(toks, pos);
      hide Next, AheadKind, PastComments;
      GoalUnknownAnywhere(toks);
      var _ := Bump();
      ghost var middle := pos;
      var name := EatIdent();
      MovedTrans(toks, start, middle, pos);
      if name.None? {
        Unexpected();
        return NilLit;
      }
      middle := pos;
      var entered := EatPunct("(");
      MovedTrans(toks, start, middle, pos);
      if !entered {
        return VariantConstructor(name.value, None);
      }
      middle := pos;
      var payload := ParseExpr(NoGoal);
      MovedTrans(toks, start, middle, pos);
      middle := pos;
      var _ := ExpectPunct(")");
      MovedTrans(toks, start, middle, pos);
      e := VariantConstructor(name.value, Some(payload));
    }

    /** Elements up to the closing mark, separated by commas; stops at the first thing out of place.
        Where the tokens ahead print a list, those elements are read, and nothing is reported. */
    method ParseList(close: string, ghost goal: ListGoal) returns (es: seq<Expr>)
      requires Valid() && close in {")", "]"} && ListAhead(goal, toks, pos, close)
      modifies this`pos, sink
      ensures Valid() && Moved(toks, old(pos), pos) && ListMet(goal, es, pos)
      ensures goal.PrintedList? ==> sink.log == old(sink.log)
      decreases |toks| - pos, 6
    {
      es := [];
      ghost var start := pos;
      if goal.PrintedList? {
        ListStart(toks, pos, goal, close);
      }
      hide ItemsRead, GoalAhead, GoalMet, Next, SameAll;
      while true
        invariant Valid() && Moved(toks, start, pos)
        invariant goal.PrintedList? ==> sink.log == old(sink.log) && ItemsRead(toks, pos, goal, close, es)
        decreases |toks| - pos
      {
        ghost var item := NoGoal;
        if goal.PrintedList? {
          item := NextItem(toks, pos, goal, close, es);
        }
        ghost var at := pos;
        var closed := EatPunct(close);
        MovedTrans(toks, start, at, pos);
        if closed {
          break;
        }
        if AtEof() {
          Unexpected();
          break;
        }
        GoalUnknown(toks, pos, LIST);
        ghost var middle := pos;
        var e := ParseExprBp(10, item);
        MovedTrans(toks, start, middle, pos);
        if goal.PrintedList? {
          ItemRead(toks, at, pos, goal, close, es, item, e);
        }
        es := es + [e];
        middle := pos;
        var comma := EatPunct(",");
        MovedTrans(toks, start, middle, pos);
        if !comma && !AtPunct(close) {
          Unexpected();
          break;
        }
      }
    }

    method ParseArrayLit(ghost goal: Goal) returns (e: Expr)
      requires Valid() && AtPunct("[") && HeadAhead(goal, toks, pos)
      modifies this`pos, sink
      ensures Valid() && Moved(toks, old(pos), pos) && old(pos) < pos && GoalMet(goal, e, pos)
      ensures goal.Printed? ==> sink.log == old(sink.log)
      ensures e.ArrayLit?
      decreases |toks| - pos, 2
    {
      ghost var start, items := pos, NoList;
      if goal.Printed? {
        HeadShape(toks, pos, goal);
        items := PrintedList(goal.tree.elements, goal.end);
      }
      hide HeadAhead, ListAhead, ListMet, GoalMet;
      ListUnknown(toks, Next(toks, pos), "]");
      var _ := Bump();
      ghost var middle := pos;
      var elements := ParseList("]", items);
      MovedTrans(toks, start, middle, pos);
      e := ArrayLit(elements);
      ArrayMet(goal, elements, pos);
    }

    /** Postfix forms, as many as follow. Any other token leaves everything as it is. */
    method ParsePostfix(operand: Expr, ghost goal: Goal) returns (e: Expr)
      requires Valid() && SuffixesAhead(goal, toks, pos, 0, operand)
      modifies this`pos, sink
      ensures Valid() && Moved(toks, old(pos), pos) && GoalMet(goal, e, pos)
      ensures goal.Printed? ==> sink.log == old(sink.log)
      ensures !StartsPostfix(old(Peek())) ==> e == operand && pos == old(pos) && sink.log == old(sink.log)
      ensures old(Peek()) !in {Punct("^"), Punct("!"), Punct("("), Punct("["), Punct(".")} ==>
                e == operand && pos == old(pos)
      decreases |toks| - pos, 3
    {
      e := operand;
      ghost var start, done := pos, 0;
      assert StartsPostfix(Peek()) ==> Peek() in {Punct("^"), Punct("!"), Punct("("), Punct("["), Punct(".")};
      hide SuffixesAhead, SuffixAhead, GoalMet, StartsPostfix;
      NothingToMeet(e, pos);
      while true
        invariant Valid() && Moved(toks, start, pos) && SuffixesAhead(goal, toks, pos, done, e)
        invariant goal.Printed? ==> sink.log == old(sink.log)
        invariant !StartsPostfix(toks[start].kind) ==> e == operand && pos == start && sink.log == old(sink.log)
        decreases |toks| - pos
      {
        ghost var suffix := NoGoal;
        SuffixUnknown(toks, pos, e);
        if goal.Printed? {
          suffix := NextSuffix(toks, pos, goal, done, e);
        }
        if !StartsPostfix(Peek()) {
          NothingToMeet(e, pos);
          break;
        }
        ghost var middle := pos;
        var more;
        e, more := ParseOnePostfix(e, suffix);
        MovedTrans(toks, start, middle, pos);
        NothingToMeet(e, pos);
        if !more {
          break;
        }
        SuffixesUnknown(toks, pos, e);
        if goal.Printed? {
          SuffixRead(toks, pos, goal, done, suffix, e);
        }
        done := done + 1;
      }
    }

    method ParseOnePostfix(operand: Expr, ghost goal: Goal) returns (e: Expr, more: bool)
      requires Valid() && StartsPostfix(Peek()) && SuffixAhead(goal, toks, pos, operand)
      modifies this`pos, sink
      ensures Valid() && Moved(toks, old(pos), pos) && (more ==> old(pos) < pos) && GoalMet(goal, e, pos)
      ensures SuffixMeans(toks, old(pos), operand, e, pos, more)
      ensures goal.Printed? ==> more && sink.log == old(sink.log)
      decreases |toks| - pos, 2
    {
      ghost var at := pos;
      hide SuffixMeans, SuffixAhead, GoalMet, Next, PastComments, DiagSink.Valid, Ended, Moved;
      more := true;
      if AtPunct("^") {
        var _ := Bump();
        e := DerefExpr(operand);
        MarkSuffix(toks, at, goal, operand, e, pos);
      } else if AtPunct("!") {
        var _ := Bump();
        e := Propagate(operand);
        MarkSuffix(toks, at, goal, operand, e, pos);
      } else if AtPunct("(") {
        e := ParseCall(operand, goal);
        PlainSuffix(toks, at, operand, e, pos);
      } else if AtPunct("[") {
        e := ParseIndex(operand, goal);
        PlainSuffix(toks, at, operand, e, pos);
      } else {
        e, more := ParseDot(operand, goal);
      }
    }

    /** A name behind the dot is a field; one that starts with a capital is left where it is. */
    method ParseDot(operand: Expr, ghost goal: Goal) returns (e: Expr, more: bool)
      requires Valid() && AtPunct(".") && SuffixAhead(goal, toks, pos, operand)
      modifies this`pos, sink
      ensures Valid() && Moved(toks, old(pos), pos) && (more ==> old(pos) < pos) && GoalMet(goal, e, pos)
      ensures SuffixMeans(toks, old(pos), operand, e, pos, more)
      ensures goal.Printed? ==> more && sink.log == old(sink.log)
    {
      more := false;
      e := operand;
      if goal.Printed? {
        SuffixShape(toks, pos, goal, operand);
      }
      var next := PeekAhead(1);
      OneAhead(toks, pos);
      if next.Ident? {
        VariantsAreCapital(next.name);
      }
      if next.Ident? && IsVariantName(next.name) {
        return;
      }
      e, more := ParseField(operand);
    }

    method ParseCall(operand: Expr, ghost goal: Goal) returns (e: Expr)
      requires Valid() && AtPunct("(") && SuffixAhead(goal, toks, pos, operand)
      modifies this`pos, sink
      ensures Valid() && Moved(toks, old(pos), pos) && old(pos) < pos && GoalMet(goal, e, pos)
      ensures goal.Printed? ==> sink.log == old(sink.log)
      ensures e.CallExpr? && e.callee == operand
      decreases |toks| - pos, 1
    {
      ghost var start, items := pos, NoList;
      if goal.Printed? {
        SuffixShape(toks, pos, goal, operand);
        SuffixBase(toks, pos, goal, operand);
        items := PrintedList(goal.tree.args, goal.end);
      }
      hide ListAhead, SuffixAhead, ListMet, GoalMet;
      ListUnknown(toks, Next(toks, pos), ")");
      var _ := Bump();
      ghost var middle := pos;
      var args := ParseList(")", items);
      MovedTrans(toks, start, middle, pos);
      e := CallExpr(operand, args);
      CallMet(goal, operand, args, pos);
    }

    method ParseIndex(operand: Expr, ghost goal: Goal) returns (e: Expr)
      requires Valid() && AtPunct("[") && SuffixAhead(goal, toks, pos, operand)
      modifies this`pos, sink
      ensures Valid() && Moved(toks, old(pos), pos) && old(pos) < pos && GoalMet(goal, e, pos)
      ensures goal.Printed? ==> sink.log == old(sink.log)
      ensures e.IndexExpr? && e.base == operand
      decreases |toks| - pos, 1
    {
      ghost var start, inner := pos, NoGoal;
      if goal.Printed? {
        inner := IndexGoal(toks, pos, goal, operand);
        SuffixBase(toks, pos, goal, operand);
      }
      hide GoalAhead, SuffixAhead, GoalMet;
      GoalUnknown(toks, Next(toks, pos), 0);
      var _ := Bump();
      ghost var middle := pos;
      var index := ParseExpr(inner);
      MovedTrans(toks, start, middle, pos);
      IndexMet(goal, inner, operand, index, pos);
      middle := pos;
      var _ := ExpectPunct("]");
      MovedTrans(toks, start, middle, pos);
      e := IndexExpr(operand, index);
      NothingToMeet(e, pos);
    }

    method ParseField(operand: Expr) returns (e: Expr, more: bool)
      requires Valid() && !AtEof()
      modifies this`pos, sink
      ensures Valid() && Moved(toks, old(pos), pos) && old(pos) < pos
      ensures var i := Next(toks, old(pos));
              && i < |toks| && (more <==> toks[i].kind.Ident?)
              && e == (if more then FieldExpr(operand, toks[i].kind.name) else operand)
              && (more ==> pos == Next(toks, i) && sink.log == old(sink.log))
    {
      ghost var start := pos;
      var _ := Bump();
      ghost var middle := pos;
      var name := EatIdent();
      MovedTrans(toks, start, middle, pos);
      more := name.Some?;
      e := operand;
      if more {
        e := FieldExpr(operand, name.value);
      } else {
        Unexpected();
      }
    }

    // ----- Blocks and statements -----

    /** A block. At its brace it consumes that first; called elsewhere it reports the missing brace and
        goes on with the statements. Where the tokens ahead print a block, its statements are read, to its
        end, without a report; unless the last one is a match: then the block is not closed by its brace,
        and there is one statement too many. */
    method ParseBlock(ghost goal: BlockGoal) returns (e: Expr)
      requires Valid() && BlockAhead(goal, toks, pos)
      modifies this`pos, sink
      ensures Valid() && Moved(toks, old(pos), pos)
      ensures e.Block?
      ensures goal.PrintedBlock? && !EndsInMatch(goal.stmts) ==>
                SameStmts(e.stmts, goal.stmts) && pos == goal.end && sink.log == old(sink.log)
      ensures goal.PrintedBlock? && EndsInMatch(goal.stmts) ==> |e.stmts| > |goal.stmts|
      decreases |toks| - pos, if AtPunct("{") then 0 else 11
    {
      ghost var start, left := pos, goal;
      if goal.PrintedBlock? {
        BlockEntered(toks, pos, goal);
      }
      BlockUnknown(toks);
      hide BlockAhead, StmtsRead, MatchAt, SameStmts, EndsInMatch, Next;
      var entered := ExpectPunct("{");
      var stmts: seq<Stmt> := [];
      while true
        invariant Valid() && Moved(toks, start, pos) && (entered ==> start < pos)
        invariant StmtsRead(left, toks, pos, stmts)
        invariant left.PrintedBlock? ==> left == goal && sink.log == old(sink.log) && !MatchAt(goal, |stmts| - 1)
        invariant goal.PrintedBlock? && left.NoBlock? ==> EndsInMatch(goal.stmts) && |stmts| > |goal.stmts|
        decreases |toks| - pos
      {
        if left.PrintedBlock? {
          BlockNext(toks, pos, goal, stmts);
        }
        ghost var middle := pos;
        var closed := EatPunct("}");
        MovedTrans(toks, start, middle, pos);
        if closed {
          break;
        }
        if AtEof() {
          Unexpected();
          break;
        }
        middle := pos;
        stmts := ParseBlockStmts(stmts, left);
        MovedTrans(toks, start, middle, pos);
        if left.PrintedBlock? && |stmts| > |goal.stmts| {
          left := NoBlock;
        }
      }
      e := Block(stmts);
    }

    /** Guards; or, when there are none, a statement; behind the statements read before. */
    method ParseBlockStmts(before: seq<Stmt>, ghost goal: BlockGoal) returns (stmts: seq<Stmt>)
      requires Valid() && !AtPunct("}") && !AtEof() && StmtsRead(goal, toks, pos, before)
      modifies this`pos, sink
      ensures Valid() && Moved(toks, old(pos), pos) && old(pos) < pos && |before| <= |stmts|
      ensures goal.PrintedBlock? ==>
                if |stmts| > |goal.stmts| then EndsInMatch(goal.stmts)
                else StmtsRead(goal, toks, pos, stmts) && sink.log == old(sink.log) && !MatchAt(goal, |stmts| - 1)
      decreases |toks| - pos, 10
    {
      ghost var start := pos;
      if goal.PrintedBlock? {
        BlockNext(toks, pos, goal, before);
      }
      hide StmtsRead, Next, EndsInMatch, MatchAt, AheadKind, SameStmts, Ended, DiagSink.Valid, Moved;
      var guarded;
      stmts, guarded := ParseGuards(before, goal);
      if guarded {
        return;
      }
      ghost var middle := pos;
      MovedForward(toks, start, pos);
      NoneUnknown(toks, pos, stmts);
      if goal.PrintedBlock? {
        BlockNext(toks, pos, goal, stmts);
      }
      var s := ParseOrSkip(goal, stmts);
      MovedTrans(toks, start, middle, pos);
      stmts := stmts + [s];
    }

    /** A statement; one that reads nothing is skipped by force. */
    method ParseOrSkip(ghost goal: BlockGoal, ghost before: seq<Stmt>) returns (s: Stmt)
      requires Valid() && StmtsRead(goal, toks, pos, before)
      requires goal.PrintedBlock? ==> !MatchAt(goal, |before|)
      modifies this`pos, sink
      ensures Valid() && Moved(toks, old(pos), pos) && (!old(AtEof()) ==> old(pos) < pos)
      ensures goal.PrintedBlock? && |before| < |goal.stmts| ==>
                StmtsRead(goal, toks, pos, before + [s]) && sink.log == old(sink.log)
      decreases |toks| - pos, 9
    {
      ghost var start, stmtGoal := pos, NoStmt;
      StmtUnknown(toks, pos);
      if goal.PrintedBlock? && |before| < |goal.stmts| {
        stmtGoal := PlainAhead(toks, pos, goal, before);
      }
      hide StmtsRead, Next, StmtAhead, StmtMet, StmtsAhead, MatchAt;
      var at := pos;
      s := ParseStmt(stmtGoal);
      if stmtGoal.PrintedStmt? {
        PlainRead(toks, start, pos, goal, before, stmtGoal, s);
      }
      if pos == at {
        var _ := Bump();
      }
    }

    /** Guards in a row, `? condition => body`, become one branch. A match in between is a statement of
        its own, ahead of it. `guarded` says that guards were collected, so something was read. Where a
        block is ahead, the matches that come next in it are read. */
    method ParseGuards(before: seq<Stmt>, ghost goal: BlockGoal) returns (stmts: seq<Stmt>, guarded: bool)
      requires Valid() && StmtsRead(goal, toks, pos, before)
      modifies this`pos, sink
      ensures Valid() && Moved(toks, old(pos), pos) && (guarded ==> old(pos) < pos) && |before| <= |stmts|
      ensures goal.PrintedBlock? ==>
                && !guarded && sink.log == old(sink.log) && StmtsRead(goal, toks, pos, stmts)
                && !MatchAt(goal, |stmts|) && (|before| < |stmts| ==> MatchAt(goal, |stmts| - 1))
      decreases |toks| - pos, 8
    {
      ghost var start := pos;
      var span := PeekSpan();
      var arms: seq<Arm> := [];
      var more := true;
      stmts := before;
      assert Moved(toks, pos, pos);
      hide StmtsRead, MatchAt, SameStmts, Ended, DiagSink.Valid, Moved;
      while more && AtPunct("?")
        invariant Valid() && Moved(toks, start, pos) && (arms != [] ==> start < pos)
        invariant StmtsRead(goal, toks, pos, stmts) && |before| <= |stmts|
        invariant goal.PrintedBlock? ==> more && arms == [] && sink.log == old(sink.log)
        invariant goal.PrintedBlock? && |before| < |stmts| ==> MatchAt(goal, |stmts| - 1)
        decreases |toks| - pos, more
      {
        ghost var middle := pos;
        stmts, arms, more := ParseNextGuard(stmts, arms, span, goal);
        MovedTrans(toks, start, middle, pos);
      }
      if goal.PrintedBlock? {
        NoMatchIsNext(toks, pos, goal, stmts);
      }
      guarded := arms != [];
      if guarded {
        stmts := stmts + [ExprStmt(Branch(None, arms, span))];
      }
    }

    /** One more guard or match, unless a chain of conditions is ahead or something is amiss. */
    method ParseNextGuard(before: seq<Stmt>, guards: seq<Arm>, span: Span, ghost goal: BlockGoal)
      returns (stmts: seq<Stmt>, arms: seq<Arm>, more: bool)
      requires Valid() && AtPunct("?") && StmtsRead(goal, toks, pos, before)
      modifies this`pos, sink
      ensures Valid() && Moved(toks, old(pos), pos) && (more || arms != guards ==> old(pos) < pos)
      ensures StmtsRead(goal, toks, pos, stmts) && |before| <= |stmts|
      ensures goal.PrintedBlock? ==>
                more && arms == guards && sink.log == old(sink.log) && MatchAt(goal, |stmts| - 1)
      decreases |toks| - pos, 7, 1
    {
      stmts, arms, more := before, guards, false;
      if goal.PrintedBlock? {
        MatchIsNext(toks, pos, goal, before);
      }
      var next := PeekAhead(1);
      if next == Punct("{") {
        return;
      }
      hide StmtsRead, MatchAt, SameStmts, Ended, DiagSink.Valid, AheadKind, Next;
      var s, arm := ParseGuard(span, goal, before);
      more := s.Some? || arm.Some?;
      if s.Some? {
        stmts := stmts + [s.value];
      } else if arm.Some? {
        arms := arms + [arm.value];
      }
      NoneUnknown(toks, pos, stmts);
    }

    /** From its mark on: a match, or a guard; or neither, when that is reported. */
    method ParseGuard(span: Span, ghost goal: BlockGoal, ghost before: seq<Stmt>)
      returns (s: Option<Stmt>, arm: Option<Arm>)
      requires Valid() && AtPunct("?") && StmtsRead(goal, toks, pos, before)
      requires goal.PrintedBlock? ==> MatchAt(goal, |before|)
      modifies this`pos, sink
      ensures Valid() && Moved(toks, old(pos), pos) && old(pos) < pos && (s.Some? ==> arm.None?)
      ensures goal.PrintedBlock? ==>
                s.Some? && sink.log == old(sink.log) && StmtsRead(goal, toks, pos, before + [s.value])
      decreases |toks| - pos, 7, 0
    {
      ghost var start, at, cond := pos, pos, NoGoal;
      if goal.PrintedBlock? {
        cond := MatchAhead(toks, pos, goal, before);
      }
      GoalUnknown(toks, Next(toks, pos), LIST);
      ArmsUnknown(toks);
      hide StmtsRead, MatchAt, GoalAhead, GoalMet, Next, Ended, DiagSink.Valid, Moved, ArmsAhead, ArmsMet, SameStmts;
      hide AheadKind, PastComments;
      s, arm := None, None;
      var _ := Bump();
      ghost var middle := pos;
      var condition := ParseExprBp(10, cond);
      MovedTrans(toks, start, middle, pos);
      ghost var end := pos;
      if goal.PrintedBlock? {
        CondRead(toks, at, pos, goal, before, cond, condition);
      }
      middle := pos;
      var matching := EatKeyword("is");
      MovedTrans(toks, start, middle, pos);
      if matching {
        middle := pos;
        var inner := ParseBracedArms(NoArms);
        MovedTrans(toks, start, middle, pos);
        s := Some(ExprStmt(Branch(Some(condition), inner, span)));
        if goal.PrintedBlock? {
          MatchRead(toks, at, end, goal, before, cond, condition, span);
        }
        return;
      }
      middle := pos;
      var arrow := EatPunct("=>");
      MovedTrans(toks, start, middle, pos);
      if !arrow {
        Unexpected();
        return;
      }
      middle := pos;
      var body := ParseExpr(NoGoal);
      MovedTrans(toks, start, middle, pos);
      arm := Some(Arm(CondArm(condition), body));
      BlockUnknown(toks);
    }

    /** `{ arms }`, either brace being reported when it is missing. */
    method ParseBracedArms(ghost goal: ArmsGoal) returns (arms: seq<Arm>)
      requires Valid() && (goal.PrintedArms? ==> AtPunct("{") && ArmsAhead(goal, toks, Next(toks, pos)))
      modifies this`pos, sink
      ensures Valid() && Moved(toks, old(pos), pos)
      ensures old(AtPunct("{")) && PunctAt(toks, Next(toks, old(pos)), "}") ==>
                arms == [] && pos == Next(toks, Next(toks, old(pos))) && sink.log == old(sink.log)
      ensures ArmsMet(goal, arms, goal.PrintedArms? && pos == goal.end && sink.log == old(sink.log))
      decreases |toks| - pos, 10
    {
      ghost var start := pos;
      ArmsUnknown(toks);
      hide ArmsAhead, ArmsMet, Next;
      var _ := ExpectPunct("{");
      ghost var middle := pos;
      arms := ParseArms(goal);
      MovedTrans(toks, start, middle, pos);
      middle := pos;
      ghost var met := goal.PrintedArms? && AtPunct("}") && Next(toks, pos) == goal.end && sink.log == old(sink.log);
      var _ := ExpectPunct("}");
      MovedTrans(toks, start, middle, pos);
      MetStill(goal, arms, met, goal.PrintedArms? && pos == goal.end && sink.log == old(sink.log));
    }

    /** A statement. Where the tokens ahead print a binding, an assignment, a deferred expression or an
        expression, with trees in them, that statement is read, to its end, without a report. */
    method ParseStmt(ghost goal: StmtGoal) returns (s: Stmt)
      requires Valid() && StmtAhead(goal, toks, pos)
      modifies this`pos, sink
      ensures Valid() && Moved(toks, old(pos), pos) && StmtMet(goal, s, pos)
      ensures goal.PrintedStmt? ==> sink.log == old(sink.log)
      decreases |toks| - pos, 8
    {
      if Peek() == Keyword("defer") {
        s := ParseDefer(goal);
        return;
      }
      if Peek().Ident? {
        var next := PeekAhead(1);
        if next == Punct(":") || next == Punct(":=") {
          s := ParseLet(next == Punct(":"), goal);
          return;
        }
      }
      s := ParseAssignOrExpr(goal);
    }

    method ParseDefer(ghost goal: StmtGoal) returns (s: Stmt)
      requires Valid() && Peek() == Keyword("defer") && StmtAhead(goal, toks, pos)
      modifies this`pos, sink
      ensures Valid() && Moved(toks, old(pos), pos) && StmtMet(goal, s, pos)
      ensures goal.PrintedStmt? ==> sink.log == old(sink.log)
      decreases |toks| - pos, 7
    {
      ghost var start, inner := pos, NoGoal;
      GoalUnknown(toks, Next(toks, pos), 0);
      if goal.PrintedStmt? {
        inner := DeferAhead(toks, pos, goal);
      }
      hide GoalAhead, StmtAhead, Print, PrintStmt, Spells, IsTree, IsPlainStmt;
      var _ := EatKeyword("defer");
      ghost var middle := pos;
      var e := ParseExpr(inner);
      MovedTrans(toks, start, middle, pos);
      s := Defer(e);
    }

    /** An expression, and what follows it when that is `=` or `:=`. */
    method ParseAssignOrExpr(ghost goal: StmtGoal) returns (s: Stmt)
      requires Valid() && StmtAhead(goal, toks, pos)
      requires goal.PrintedStmt? ==> Peek() != Keyword("defer")
      requires goal.PrintedStmt? && Peek().Ident? ==>
               AheadKind(toks, pos, 1) != Punct(":") && AheadKind(toks, pos, 1) != Punct(":=")
      modifies this`pos, sink
      ensures Valid() && Moved(toks, old(pos), pos) && StmtMet(goal, s, pos)
      ensures goal.PrintedStmt? ==> sink.log == old(sink.log)
      decreases |toks| - pos, 7
    {
      ghost var start, left, right := pos, NoGoal, NoGoal;
      GoalUnknown(toks, pos, 0);
      if goal.PrintedStmt? {
        left, right := AssignAhead(toks, pos, goal);
      }
      hide GoalAhead, StmtAhead, Print, PrintStmt, Spells, IsTree, IsPlainStmt, BindOrAssign;
      var span := PeekSpan();
      var target := ParseExpr(left);
      ghost var middle := pos;
      var stored := EatPunct("=");
      MovedTrans(toks, start, middle, pos);
      if stored {
        middle := pos;
        GoalUnknown(toks, pos, 0);
        var value := ParseExpr(right);
        MovedTrans(toks, start, middle, pos);
        return Assign(target, value, span);
      }
      middle := pos;
      var inferred := EatPunct(":=");
      MovedTrans(toks, start, middle, pos);
      if inferred {
        middle := pos;
        GoalUnknown(toks, pos, 0);
        var value := ParseExpr(right);
        MovedTrans(toks, start, middle, pos);
        if goal.PrintedStmt? {
          MarkedBinds(target, left.tree, goal.stmt.name, value, span);
        }
        return BindOrAssign(target, value, span);
      }
      s := ExprStmt(target);
    }

    /** `name : T = init` or `name := init`; two tokens are there to be read. */
    method ParseLet(typed: bool, ghost goal: StmtGoal) returns (s: Stmt)
      requires Valid() && Peek().Ident? && AheadKind(toks, pos, 1) == if typed then Punct(":") else Punct(":=")
      requires StmtAhead(goal, toks, pos)
      modifies this`pos, sink
      ensures Valid() && Moved(toks, old(pos), pos) && old(pos) < pos && StmtMet(goal, s, pos)
      ensures goal.PrintedStmt? ==> sink.log == old(sink.log)
      decreases |toks| - pos, 7
    {
      ghost var start, tyGoal, initGoal := pos, NoType, NoGoal;
      OneAhead(toks, pos);
      TypeUnknown(toks, Next(toks, Next(toks, pos)));
      if goal.PrintedStmt? {
        tyGoal, initGoal := LetAhead(toks, pos, typed, goal);
      }
      hide GoalAhead, StmtAhead, TypeAhead, Print, PrintStmt, PrintType, Spells, IsTree, IsPlainStmt, Writable;
      hide AheadKind;
      var name := EatIdent();
      ghost var middle := pos;
      var _ := Bump();
      MovedTrans(toks, start, middle, pos);
      var ty: Option<TypeExpr> := None;
      if typed {
        middle := pos;
        var t := ParseType(tyGoal);
        MovedTrans(toks, start, middle, pos);
        ty := Some(t);
        middle := pos;
        var _ := ExpectPunct("=");
        MovedTrans(toks, start, middle, pos);
      }
      middle := pos;
      GoalUnknown(toks, pos, 0);
      var init := ParseExpr(initGoal);
      MovedTrans(toks, start, middle, pos);
      s := Let(name.value, false, ty, init);
    }

    // ----- Branches and loops -----

    /** Conditions in braces, a guard, or a match. */
    method ParseBranch(ghost goal: BranchGoal) returns (e: Expr)
      requires Valid() && !AtEof() && BranchAhead(goal, toks, pos)
      modifies this`pos, sink
      ensures Valid() && Moved(toks, old(pos), pos) && old(pos) < pos
      ensures e.Branch? || e == NilLit
      ensures BranchMet(goal, e, pos, sink.log == old(sink.log))
      decreases |toks| - pos, 2
    {
      ghost var start, parts := pos, Parts(NoGoal, NoGoal, NoArms);
      if goal != NoBranch {
        parts := BranchShape(toks, pos, goal);
      }
      GoalUnknown(toks, Next(toks, pos), LIST);
      ArmsUnknown(toks);
      hide BranchAhead, ArmsAhead, ArmsMet, GoalAhead, Next, PastComments, Same, SameArms, AllReadable, AreArms, IsTree;
      hide DiagSink.Valid, Ended, Moved, Spells;
      var span := Bump();
      if AtPunct("{") {
        ghost var middle := pos;
        var arms := ParseBracedArms(parts.braced);
        MovedTrans(toks, start, middle, pos);
        e := Branch(None, arms, span);
        ArmsAreMet(parts.braced, arms, pos, sink.log == old(sink.log));
        return;
      }
      ghost var middle := pos;
      e := ParseCondition(span, goal, parts);
      MovedTrans(toks, start, middle, pos);
    }

    /** Behind the mark: a condition, and then an arrow and a body, or arms in braces. */
    method ParseCondition(span: Span, ghost goal: BranchGoal, ghost parts: Parts) returns (e: Expr)
      requires Valid() && ConditionNext(goal, parts, toks, pos)
      modifies this`pos, sink
      ensures Valid() && Moved(toks, old(pos), pos) && (e.Branch? || e == NilLit)
      ensures BranchMet(goal, e, pos, sink.log == old(sink.log))
      decreases |toks| - pos, 6
    {
      ghost var start := pos;
      ArmsUnknown(toks);
      hide ArmsAhead, ArmsMet, GoalAhead, Next, PastComments, Same, SameArms, AllReadable, AreArms, IsTree;
      hide DiagSink.Valid, Ended, Moved, Spells;
      var condition := ParseExprBp(10, parts.condition);
      ghost var middle := pos;
      var arrow := EatPunct("=>");
      MovedTrans(toks, start, middle, pos);
      if arrow {
        middle := pos;
        GoalUnknown(toks, pos, 0);
        var body := ParseExpr(parts.body);
        MovedTrans(toks, start, middle, pos);
        e := Branch(None, [Arm(CondArm(condition), body)], span);
        GuardIsMet(goal, condition, body);
        return;
      }
      middle := pos;
      var matching := EatKeyword("is");
      MovedTrans(toks, start, middle, pos);
      if !matching {
        Unexpected();
        e := NilLit;
        return;
      }
      middle := pos;
      var arms := ParseBracedArms(parts.braced);
      MovedTrans(toks, start, middle, pos);
      e := Branch(Some(condition), arms, span);
      ArmsAreMet(parts.braced, arms, pos, sink.log == old(sink.log));
    }

    /** A name, for which its own mark is asked. */
    method ParseLoopTag() returns (tag: Option<string>)
      requires Valid()
      modifies this`pos, sink
      ensures Valid() && Moved(toks, old(pos), pos) && tag == NameOf(old(Peek()))
      ensures tag.None? ==> pos == old(pos) && sink.log == old(sink.log)
      ensures tag.Some? && PunctAt(toks, Next(toks, old(pos)), "@") ==>
                pos == Next(toks, Next(toks, old(pos))) && sink.log == old(sink.log)
    {
      ghost var start := pos;
      tag := EatIdent();
      if tag.Some? {
        ghost var middle := pos;
        var _ := ExpectPunct("@");
        MovedTrans(toks, start, middle, pos);
      }
    }

    /** What a loop is about, unless its block is next. */
    method ParseSubject(ghost goal: LoopGoal, ghost parts: LoopParts) returns (subject: Option<Expr>)
      requires Valid()
      requires if parts.block.PrintedBlock? then goal.PrintedLoop? && SubjectAhead(toks, pos, goal, parts)
               else parts.subject == NoGoal
      modifies this`pos, sink
      ensures Valid() && Moved(toks, old(pos), pos)
      ensures parts.block.PrintedBlock? ==>
                BlockAhead(parts.block, toks, pos) && SameSubject(subject, goal.subject) && sink.log == old(sink.log)
      decreases |toks| - pos, 6
    {
      GoalUnknown(toks, pos, LIST);
      SameStays(toks, pos);
      hide BlockAhead, GoalAhead, Next, PastComments, Same, IsTree, DiagSink.Valid, Ended, Moved;
      subject := None;
      if !AtPunct("{") {
        var s := ParseExprBp(10, parts.subject);
        subject := Some(s);
      }
    }

    /** A name behind the mark is taken for a tag, and its own mark is asked for. */
    method ParseLoop(ghost goal: LoopGoal) returns (e: Expr)
      requires Valid() && !AtEof() && LoopAhead(goal, toks, pos)
      modifies this`pos, sink
      ensures Valid() && Moved(toks, old(pos), pos) && old(pos) < pos
      ensures e.Loop?
      ensures e.tag == NameOf(AheadKind(toks, old(pos), 1))
      ensures LoopMet(goal, e, pos, sink.log == old(sink.log))
      decreases |toks| - pos, 2
    {
      ghost var start, parts := pos, LoopParts(NoGoal, NoBlock);
      OneAhead(toks, pos);
      if goal.PrintedLoop? {
        parts := LoopShape(toks, pos, goal);
      }
      hide LoopAhead, BlockAhead, GoalAhead, Next, PastComments, AheadKind, SubjectIsTag, SameSubject, SameStmts;
      hide IsTree, SubjectAhead, EndsInMatch, LoopMet, DiagSink.Valid, Ended, Moved, Spells;
      var _ := Bump();
      ghost var middle := pos;
      var tag := ParseLoopTag();
      MovedTrans(toks, start, middle, pos);
      middle := pos;
      var subject := ParseSubject(goal, parts);
      MovedTrans(toks, start, middle, pos);
      middle := pos;
      NoBlockAhead(toks, pos);
      var body := ParseBlock(parts.block);
      MovedTrans(toks, start, middle, pos);
      e := Loop(tag, subject, body);
      LoopIsMet(goal, e, pos, sink.log == old(sink.log));
    }

    /** Arms up to a closing brace or the end. An arm that reads nothing ends the list. Where the tokens ahead
        print arms, they are read, to the brace, without a report, exactly when all patterns can be. */
    method ParseArms(ghost goal: ArmsGoal) returns (arms: seq<Arm>)
      requires Valid() && ArmsAhead(goal, toks, pos)
      modifies this`pos, sink
      ensures Valid() && Moved(toks, old(pos), pos)
      ensures old(AtPunct("}")) ==> arms == [] && pos == old(pos) && sink.log == old(sink.log)
      ensures ArmsMet(goal, arms, goal.PrintedArms? && AtPunct("}") && Next(toks, pos) == goal.end &&
                                  sink.log == old(sink.log))
      decreases |toks| - pos, 9
    {
      arms := [];
      ghost var start, left := pos, goal;
      if goal.PrintedArms? {
        NoneRead(toks, pos, goal);
      }
      hide ArmsAhead, ArmsMet, ArmsRead, ReadsOn, GoneWrong, Next;
      var more := true;
      while more && !AtPunct("}") && !AtEof()
        invariant Valid() && Moved(toks, start, pos)
        invariant toks[start].kind == Punct("}") ==> arms == [] && pos == start && sink.log == old(sink.log)
        invariant left.PrintedArms? ==>
                    left == goal && more && sink.log == old(sink.log) && ArmsRead(goal, toks, pos, arms)
        invariant goal.PrintedArms? && left.NoArms? ==> GoneWrong(goal, arms)
        decreases |toks| - pos, more
      {
        ghost var middle, before := pos, arms;
        arms, more := ParseNextArm(arms, left);
        MovedTrans(toks, start, middle, pos);
        if left.NoArms? && goal.PrintedArms? {
          StaysWrong(goal, before, arms);
        } else if left.PrintedArms? && !ReadsOn(goal, before) {
          left := NoArms;
        }
      }
      if left.PrintedArms? {
        AllArmsRead(toks, pos, goal, arms);
      }
      ArmsEnd(toks, pos, goal, left, arms, sink.log == old(sink.log));
    }

    /** One more arm, and the comma behind it. */
    method ParseNextArm(before: seq<Arm>, ghost goal: ArmsGoal) returns (arms: seq<Arm>, more: bool)
      requires Valid() && !AtPunct("}") && !AtEof() && (goal.PrintedArms? ==> ArmsRead(goal, toks, pos, before))
      modifies this`pos, sink
      ensures Valid() && Moved(toks, old(pos), pos) && (more ==> old(pos) < pos)
      ensures |arms| == |before| + 1 && arms[..|before|] == before
      ensures goal.PrintedArms? ==>
                if ReadsOn(goal, before) then more && ArmsRead(goal, toks, pos, arms) && sink.log == old(sink.log)
                else GoneWrong(goal, arms)
      decreases |toks| - pos, 8, 1
    {
      var start := pos;
      ghost var armGoal := NoArm;
      ArmUnknown(toks, pos);
      if goal.PrintedArms? {
        armGoal := NextArm(toks, pos, goal, before);
      }
      hide ArmsRead, ReadsOn, GoneWrong, ArmAhead, ArmMet, Next, PatternMeans, BodyMeans;
      ghost var behind;
      var arm: Arm;
      arm, behind := ParseArm(armGoal);
      MovedTrans(toks, start, behind, pos);
      arms := before + [arm];
      more := pos != start;
      if goal.PrintedArms? {
        ArmRead(toks, start, pos, goal, before, armGoal, arm, sink.log == old(sink.log));
      }
      if more {
        ghost var middle := pos;
        var _ := EatPunct(",");
        MovedTrans(toks, start, middle, pos);
      }
    }

    /** A pattern, an arrow and a body. Where no arrow stands behind the pattern, that is reported and the body
        is empty. */
    method ParseArm(ghost goal: ArmGoal) returns (arm: Arm, ghost behind: nat)
      requires Valid() && ArmAhead(goal, toks, pos)
      modifies this`pos, sink
      ensures Valid() && Moved(toks, old(pos), behind) && Moved(toks, behind, pos)
      ensures PatternMeans(toks, old(pos), arm.pattern)
      ensures if toks[behind].kind == Punct("=>") then BodyMeans(toks, Next(toks, behind), arm.body)
              else arm.body == NilLit && pos == behind && LastReport(sink.log, DiagLoc.At(PeekSpan()))
      ensures ArmMet(goal, arm, pos, sink.log == old(sink.log))
      decreases |toks| - pos, 8, 0
    {
      ghost var patternGoal, bodyGoal := NoPattern, NoGoal;
      PatternUnknown(toks, pos);
      if goal.PrintedArm? {
        patternGoal, bodyGoal := ArmShape(toks, pos, goal);
      }
      hide ArmAhead, PatternAhead, PatternMeans, BodyMeans, GoalAhead, Next, PastComments, Moved;
      hide IsReadable, SamePattern, Same, IsArm, IsPattern;
      ghost var start := pos;
      var pattern := ParsePattern(patternGoal);
      behind := pos;
      MovedForward(toks, start, pos);
      ghost var read := goal.PrintedArm? && IsReadable(goal.arm.pattern);
      var arrow := ExpectPunct("=>");
      if !arrow {
        SameStays(toks, pos);
        arm := Arm(pattern, NilLit);
        return;
      }
      GoalUnknown(toks, pos, LIST);
      ghost var middle := pos;
      var body := ParseArmBody(if read then bodyGoal else NoGoal);
      MovedTrans(toks, behind, middle, pos);
      arm := Arm(pattern, body);
    }

    /** What leaves is read as a prefix form, any other body as an expression above the comma. */
    method ParseArmBody(ghost goal: Goal) returns (e: Expr)
      requires Valid() && GoalAhead(goal, toks, pos, LIST)
      modifies this`pos, sink
      ensures Valid() && Moved(toks, old(pos), pos) && BodyMeans(toks, old(pos), e)
      ensures goal.Printed? ==> GoalMet(goal, e, pos) && sink.log == old(sink.log)
      decreases |toks| - pos, 7
    {
      if goal.Printed? {
        NoReturnEnds(toks, pos, goal);
      }
      GoalUnknown(toks, Next(toks, pos), LIST);
      HeadUnknown(toks, pos);
      hide GoalAhead, GoalMet, HeadAhead, Next, PastComments, EndsReturn, AheadKind;
      if Peek() == Keyword("ret") {
        e := ParseRet(NoGoal);
      } else if Peek() == Keyword("stop") {
        e := ParseStop();
      } else if Peek() == Keyword("skip") || Peek() == Keyword("jmp") || Peek() == Keyword("break") {
        e := ParsePrefix(NoGoal);
      } else {
        e := ParseExprBp(10, goal);
      }
    }

    /** A pattern by its first tokens. Where those ahead print one, it is read, to its end, without a report;
        unless it is a condition that starts like another pattern: then that one is read. */
    method ParsePattern(ghost goal: PatternGoal) returns (p: ArmPattern)
      requires Valid() && PatternAhead(goal, toks, pos)
      modifies this`pos, sink
      ensures Valid() && Moved(toks, old(pos), pos) && PatternMeans(toks, old(pos), p)
      ensures PatternMet(goal, p, pos, sink.log == old(sink.log))
      decreases |toks| - pos, 7
    {
      ghost var cond := NoGoal;
      GoalUnknown(toks, pos, 0);
      if IsLiteralToken(Peek()) {
        LiteralAhead(toks, pos);
      }
      if goal.PrintedPattern? {
        cond := PatternShape(toks, pos, goal);
      }
      hide PatternAhead, PatternIs, PatternMeans, PatternMet, GoalAhead, Next, PastComments, AheadKind;
      hide NameMeans, DotMeans, LiteralGoal, Same;
      ghost var at := pos;
      var k := Peek();
      if k == Punct(".") {
        p := ParseVariantPattern(goal);
        VariantIsMet(toks, at, goal, p, pos, sink.log == old(sink.log));
      } else if IsLiteralToken(k) {
        var e := ParsePrefix(LiteralGoal(toks, pos));
        p := LitArm(e);
        LiteralIsMet(toks, at, goal, cond, e, pos, sink.log == old(sink.log));
      } else if k.Ident? {
        p := ParseNamePattern(k.name, cond);
        NameIsMet(toks, at, goal, cond, p, pos, sink.log == old(sink.log));
      } else {
        var e := ParseExpr(cond);
        p := CondArm(e);
        ConditionIsMet(toks, at, goal, cond, e, pos, sink.log == old(sink.log));
      }
    }

    /** A name: one of three literals, the start of a condition, or a binding. */
    method ParseNamePattern(name: string, ghost cond: Goal) returns (p: ArmPattern)
      requires Valid() && Peek() == Ident(name) && GoalAhead(cond, toks, pos, 0)
      modifies this`pos, sink
      ensures Valid() && Moved(toks, old(pos), pos)
      ensures NameMeans(name, AheadKind(toks, old(pos), 1), p)
      ensures if p.CondArm? then
                GoalMet(cond, p.condition, pos) && (cond.Printed? ==> sink.log == old(sink.log))
              else pos == Next(toks, old(pos)) && sink.log == old(sink.log)
      decreases |toks| - pos, 6, 0
    {
      if name == "true" || name == "false" {
        var _ := Bump();
        return LitArm(BoolLit(name == "true"));
      }
      if name == "nil" {
        var _ := Bump();
        return LitArm(NilLit);
      }
      var next := PeekAhead(1);
      PowersFollowTiers(next, 0);
      if next.Punct? && BindingPower(next.mark).Some? {
        var e := ParseExprBp(0, cond);
        return CondArm(e);
      }
      var _ := Bump();
      p := BindArm(name);
    }

    method ParseVariantPattern(ghost goal: PatternGoal) returns (p: ArmPattern)
      requires Valid() && AtPunct(".") && PatternAhead(goal, toks, pos)
      modifies this`pos, sink
      ensures Valid() && Moved(toks, old(pos), pos) && old(pos) < pos
      ensures DotMeans(AheadKind(toks, old(pos), 1), p)
      ensures goal.PrintedPattern? ==> p == goal.pattern && pos == goal.end && sink.log == old(sink.log)
    {
      ghost var start, names := pos, NoNames;
      OneAhead(toks, pos);
      NamesUnknown(toks);
      if goal.PrintedPattern? {
        names := VariantShape(toks, pos, goal);
      }
      hide PatternAhead, NamesAhead, Next, AheadKind, PastComments;
      var _ := Bump();
      ghost var middle := pos;
      var name := EatIdent();
      MovedTrans(toks, start, middle, pos);
      if name.None? {
        Unexpected();
        return WildcardArm;
      }
      middle := pos;
      var entered := EatPunct("(");
      MovedTrans(toks, start, middle, pos);
      var bindings: seq<string> := [];
      if entered {
        middle := pos;
        bindings := ParseBindings(names);
        MovedTrans(toks, start, middle, pos);
      }
      p := VariantArm(name.value, bindings);
    }

    method ParseBindings(ghost goal: NamesGoal) returns (names: seq<string>)
      requires Valid() && NamesAhead(goal, toks, pos)
      modifies this`pos, sink
      ensures Valid() && Moved(toks, old(pos), pos)
      ensures goal.PrintedNames? ==> names == goal.names && pos == goal.end && sink.log == old(sink.log)
    {
      names := [];
      ghost var start := pos;
      if goal.PrintedNames? {
        assert goal.names[0..] == goal.names && goal.names[..0] == [];
      }
      hide Spells, PrintNames, Next;
      while true
        invariant Valid() && Moved(toks, start, pos)
        invariant goal.PrintedNames? ==> sink.log == old(sink.log) && NamesRead(goal, toks, pos, names)
        decreases |toks| - pos
      {
        if goal.PrintedNames? && |names| < |goal.names| {
          NextName(toks, pos, goal, names);
        }
        ghost var middle := pos;
        var closed := EatPunct(")");
        MovedTrans(toks, start, middle, pos);
        if closed {
          break;
        }
        if AtEof() {
          Unexpected();
          break;
        }
        middle := pos;
        var name := EatIdent();
        MovedTrans(toks, start, middle, pos);
        if name.None? {
          Unexpected();
          break;
        }
        names := names + [name.value];
        middle := pos;
        var comma := EatPunct(",");
        MovedTrans(toks, start, middle, pos);
        if !comma && !AtPunct(")") {
          Unexpected();
          break;
        }
      }
    }

    // ----- Types -----

    /** A type. Where the tokens ahead print one, that one is read, to its end, without a report. */
    method ParseType(ghost goal: TypeGoal) returns (t: TypeExpr)
      requires Valid() && TypeAhead(goal, toks, pos)
      modifies this`pos, sink
      ensures Valid() && Moved(toks, old(pos), pos) && TypeMet(goal, t, pos)
      ensures goal.PrintedType? ==> sink.log == old(sink.log)
      decreases |toks| - pos, 1
    {
      ghost var start := pos;
      if goal.PrintedType? {
        TypeShape(toks, pos, goal);
      }
      hide TypeAhead, PrintType, Writable, Spells;
      if Peek() == Keyword("own") {
        var _ := EatKeyword("own");
        ghost var middle := pos;
        var _ := ExpectPunct("^");
        MovedTrans(toks, start, middle, pos);
        middle := pos;
        TypeUnknown(toks, pos);
        var inner := ParseType(if goal.PrintedType? then PrintedType(goal.ty.inner, goal.end) else NoType);
        MovedTrans(toks, start, middle, pos);
        return OwnType(inner);
      }
      if AtPunct("^") {
        var _ := EatPunct("^");
        ghost var middle := pos;
        TypeUnknown(toks, pos);
        var inner := ParseType(if goal.PrintedType? then PrintedType(goal.ty.inner, goal.end) else NoType);
        MovedTrans(toks, start, middle, pos);
        return BorrowType(inner);
      }
      if AtPunct("[") {
        t := ParseBracketType(goal);
        return;
      }
      t := ParseNameType(goal);
    }

    method ParseBracketType(ghost goal: TypeGoal) returns (t: TypeExpr)
      requires Valid() && AtPunct("[") && TypeAhead(goal, toks, pos)
      modifies this`pos, sink
      ensures Valid() && Moved(toks, old(pos), pos) && TypeMet(goal, t, pos)
      ensures goal.PrintedType? ==> sink.log == old(sink.log)
      decreases |toks| - pos, 0
    {
      ghost var start := pos;
      if goal.PrintedType? {
        TypeShape(toks, pos, goal);
      }
      hide TypeAhead, PrintType, Writable, Spells, ParseU64;
      var _ := EatPunct("[");
      ghost var middle := pos;
      var size: Option<nat> := None;
      if Peek().Int? {
        var n := ParseU64(Peek().text);
        size := Some(if n.Some? then n.value else 0);
        var _ := Bump();
        MovedTrans(toks, start, middle, pos);
      }
      middle := pos;
      var _ := ExpectPunct("]");
      MovedTrans(toks, start, middle, pos);
      middle := pos;
      TypeUnknown(toks, pos);
      var elem := ParseType(if goal.PrintedType? then PrintedType(goal.ty.elem, goal.end) else NoType);
      MovedTrans(toks, start, middle, pos);
      t := if size.Some? then ArrayType(elem, size.value) else SliceType(elem);
    }

    method ParseNameType(ghost goal: TypeGoal) returns (t: TypeExpr)
      requires Valid() && TypeAhead(goal, toks, pos)
      requires goal.PrintedType? ==> goal.ty.NamedType? || goal.ty.ErrUnionType?
      modifies this`pos, sink
      ensures Valid() && Moved(toks, old(pos), pos) && TypeMet(goal, t, pos)
      ensures goal.PrintedType? ==> sink.log == old(sink.log)
      decreases |toks| - pos, 0
    {
      ghost var start := pos;
      if goal.PrintedType? {
        TypeShape(toks, pos, goal);
        TypeEnd(toks, pos, goal);
      }
      hide TypeAhead, PrintType, Writable, Spells;
      var name := EatIdent();
      if name.None? {
        return NamedType("");
      }
      ghost var middle := pos;
      var fails := EatPunct("!");
      MovedTrans(toks, start, middle, pos);
      if !fails {
        return NamedType(name.value);
      }
      middle := pos;
      TypeUnknown(toks, pos);
      var err := ParseType(if goal.PrintedType? then PrintedType(goal.ty.err, goal.end) else NoType);
      MovedTrans(toks, start, middle, pos);
      t := ErrUnionType(NamedType(name.value), err);
    }
  }

  predicate IsLiteralToken(k: TokenKind)
  {
    k.Int? || k.Float? || k.Str? || k == Keyword("true") || k == Keyword("false") || k == Keyword("nil")
  }

  /** What a suffix makes of its operand. A capital behind the dot leaves the dot for a variant. */
  ghost predicate SuffixMeans(toks: seq<Token>, i: nat, operand: Expr, e: Expr, j: nat, more: bool)
    requires i < |toks|
  {
    var k, next := toks[i].kind, AheadKind(toks, i, 1);
    if k == Punct("^") then more && e == DerefExpr(operand) && j == Next(toks, i)
    else if k == Punct("!") then more && e == Propagate(operand) && j == Next(toks, i)
    else if k == Punct("(") then more && e.CallExpr? && e.callee == operand
    else if k == Punct("[") then more && e.IndexExpr? && e.base == operand
    else if next.Ident? && StartsCapital(next.name) then !more && e == operand && j == i
    else if next.Ident? then more && e == FieldExpr(operand, next.name) && j == Next(toks, Next(toks, i))
    else !more && e == operand
  }

  lemma {:induction false} PlainSuffix(toks: seq<Token>, i: nat, operand: Expr, e: Expr, j: nat)
    requires i < |toks|
    requires || (toks[i].kind == Punct("^") && e == DerefExpr(operand) && j == Next(toks, i))
             || (toks[i].kind == Punct("!") && e == Propagate(operand) && j == Next(toks, i))
             || (toks[i].kind == Punct("(") && e.CallExpr? && e.callee == operand)
             || (toks[i].kind == Punct("[") && e.IndexExpr? && e.base == operand)
    ensures SuffixMeans(toks, i, operand, e, j, true)
  {
    hide Next, AheadKind;
  }

  lemma {:induction false} MarkSuffix(toks: seq<Token>, i: nat, goal: Goal, operand: Expr, e: Expr, j: nat)
    requires i < |toks| && SuffixAhead(goal, toks, i, operand) && j == Next(toks, i)
    requires || (toks[i].kind == Punct("^") && e == DerefExpr(operand))
             || (toks[i].kind == Punct("!") && e == Propagate(operand))
    ensures SuffixMeans(toks, i, operand, e, j, true) && GoalMet(goal, e, j)
  {
    if goal.Printed? {
      SuffixShape(toks, i, goal, operand);
    }
    hide Next, AheadKind, Spells, Print;
  }

  predicate StartsCapital(name: string) { name != "" && name[0] in "ABCDEFGHIJKLMNOPQRSTUVWXYZ" }

  lemma {:induction false} VariantsAreCapital(name: string)
    ensures IsVariantName(name) <==> StartsCapital(name)
  {
    var letters := "ABCDEFGHIJKLMNOPQRSTUVWXYZ";
    assert |letters| == 26 && forall i | 0 <= i < 26 :: letters[i] == 'A' + i as char;
    if name != "" && 'A' <= name[0] <= 'Z' {
      assert letters[(name[0] - 'A') as int] == name[0];
    }
  }

  /** The form of a pattern by the tokens it starts with. */
  ghost predicate PatternMeans(toks: seq<Token>, i: nat, p: ArmPattern)
    requires i < |toks|
  {
    match toks[i].kind
    case Int(text) => p == LitArm(IntLit(text))
    case Float(text) => p == LitArm(FloatLit(text))
    case Str(text) => p == LitArm(StrLit(text))
    case Keyword(word) =>
      if word == "true" || word == "false" then p == LitArm(BoolLit(word == "true"))
      else if word == "nil" then p == LitArm(NilLit)
      else p.CondArm?
    case Ident(name) => NameMeans(name, AheadKind(toks, i, 1), p)
    case Punct(mark) => if mark == "." then DotMeans(AheadKind(toks, i, 1), p) else p.CondArm?
    case _ => p.CondArm?
  }

  ghost predicate LastReport(log: seq<Diagnostic>, loc: DiagLoc)
  {
    log != [] && log[|log|-1] == Diagnostic(Error, 2001, loc, 1)
  }

  /** The form of a body that leaves; `jmp` and `break` are not read at all. */
  ghost predicate BodyMeans(toks: seq<Token>, i: nat, e: Expr)
  {
    i < |toks| &&
    (toks[i].kind == Keyword("ret") ==> e.Ret? && (e.value.None? <==> EndsReturn(AheadKind(toks, i, 1)))) &&
    (toks[i].kind == Keyword("stop") ==> e.Stop?) && (toks[i].kind == Keyword("skip") ==> e.Skip?) &&
    (toks[i].kind in {Keyword("jmp"), Keyword("break")} ==> e == NilLit)
  }

  /** Three names are literals; before an operator mark a name starts a condition; otherwise it binds. */
  predicate NameMeans(name: string, next: TokenKind, p: ArmPattern)
  {
    if name == "true" || name == "false" then p == LitArm(BoolLit(name == "true"))
    else if name == "nil" then p == LitArm(NilLit)
    else if next.Punct? && TokenTier(next).Some? then p.CondArm?
    else p == BindArm(name)
  }

  /** After a dot a name makes a variant of that name; anything else is reported and matches all. */
  predicate DotMeans(next: TokenKind, p: ArmPattern)
  {
    if next.Ident? then p.VariantArm? && p.name == next.name else p == WildcardArm
  }

  function LiteralOf(k: TokenKind): Expr
    requires IsLiteralToken(k)
  {
    match k
    case Int(text) => IntLit(text)
    case Float(text) => FloatLit(text)
    case Str(text) => StrLit(text)
    case Keyword(word) => if word == "nil" then NilLit else BoolLit(word == "true")
  }

  ghost function LiteralGoal(toks: seq<Token>, i: nat): Goal
    requires i < |toks| && IsLiteralToken(toks[i].kind)
  {
    Printed(LiteralOf(toks[i].kind), Next(toks, i))
  }

  lemma {:induction false} LiteralAhead(toks: seq<Token>, i: nat)
    requires Ended(toks) && i < |toks| && IsLiteralToken(toks[i].kind)
    ensures HeadAhead(LiteralGoal(toks, i), toks, i)
    ensures forall e, j :: GoalMet(LiteralGoal(toks, i), e, j) ==> IsAtom(e) && AtomToken(e) == toks[i].kind
  {
    NextMoves(toks, i);
    assert [toks[i].kind][1..] == [];
  }

  /** `target := value`: a binding when the target is a name, or a name marked `~`. */
  function BindOrAssign(target: Expr, value: Expr, span: Span): Stmt
  {
    if target.Path? && |target.segments| == 1 then Let(target.segments[0], false, None, value)
    else if target.Unary? && target.unop == "~" && target.operand.Path? && |target.operand.segments| == 1 then
      Let(target.operand.segments[0], true, None, value)
    else Assign(target, value, span)
  }

  // ----- Looking ahead -----

  function AheadKind(toks: seq<Token>, i: nat, n: nat): TokenKind
    requires toks != []
    decreases n
  {
    if n == 0 || i >= |toks| then toks[if i < |toks| then i else |toks| - 1].kind
    else AheadKind(toks, PastComments(toks, i + 1), n - 1)
  }

  lemma {:induction false} OneAhead(toks: seq<Token>, i: nat)
    requires Ended(toks) && i < |toks| && toks[i].kind != Eof
    ensures Next(toks, i) < |toks| && AheadKind(toks, i, 1) == toks[Next(toks, i)].kind
  {
    NextMoves(toks, i);
    assert AheadKind(toks, i, 1) == AheadKind(toks, Next(toks, i), 0);
  }

  // ----- Reading a printed tree, link by link -----

  /** `done` links of the spine have been read, and the rest is ahead. */
  ghost predicate ReadSoFar(toks: seq<Token>, i: nat, min: nat, goal: Goal, done: nat, e: Expr)
    requires goal.Printed?
  {
    && IsTree(goal.tree) && goal.end < |toks| && Stops(toks[goal.end].kind, min)
    && var s := SpineOf(goal.tree, min);
    && Loosening(s.links, min) && done <= |s.links|
    && Same(e, Fold(s.head, s.links[..done])) && Spells(toks, i, LinksTokens(s.links[done..]), goal.end)
  }

  /** `head` is where the spine starts, and its links follow. */
  ghost predicate HeadOf(toks: seq<Token>, min: nat, goal: Goal, head: Goal)
    requires goal.Printed?
  {
    && IsTree(goal.tree) && goal.end < |toks| && Stops(toks[goal.end].kind, min)
    && var s := SpineOf(goal.tree, min);
    && head.Printed? && head.tree == s.head && IsTree(s.head) && AllLinks(s.links)
    && Spells(toks, head.end, LinksTokens(s.links), goal.end)
  }

  /** `rest` is the right operand of the next link, whose operator is `op`, and further links follow. */
  ghost predicate RestOf(toks: seq<Token>, min: nat, goal: Goal, done: nat, op: string, rest: Goal)
    requires goal.Printed?
  {
    && IsTree(goal.tree)
    && var links := SpineOf(goal.tree, min).links;
    && done < |links| && links[done].op == op && rest.Printed? && rest.tree == links[done].rhs && IsTree(rest.tree)
    && AllLinks(links) && Spells(toks, rest.end, LinksTokens(links[done+1..]), goal.end)
  }

  /** Where the loop stands: before its first round the suffixes of the head may still be ahead. */
  ghost predicate Reading(toks: seq<Token>, i: nat, min: nat, goal: Goal, chain: Goal, done: nat, e: Expr)
    requires goal.Printed?
  {
    if done == 0 then chain.Printed? && HeadOf(toks, min, goal, chain) && SuffixesAhead(chain, toks, i, 0, e)
    else ReadSoFar(toks, i, min, goal, done, e)
  }

  lemma {:induction false} HeadGoal(toks: seq<Token>, i: nat, min: nat, goal: Goal) returns (root: Goal, chain: Goal)
    requires goal.Printed? && GoalAhead(goal, toks, i, min)
    ensures root.Printed? && HeadAhead(root, toks, i) && HeadOf(toks, min, goal, chain) &&
            RootOfChain(toks, root, chain)
  {
    hide Print, SpineOf, Stops, IsTree, LinksTokens, SuffixesTokens;
    var s := SpineOf(goal.tree, min);
    SpineFolds(goal.tree, min);
    SpinePrints(goal.tree, min);
    ChainPrints(s.head);
    var m := SpellsSplit(toks, i, Print(s.head, SUFFIX), LinksTokens(s.links), goal.end);
    SpellsBackwards(toks, m, LinksTokens(s.links), goal.end);
    chain := Printed(s.head, m);
    HeadEnds(toks, m, s.links, min, goal.end);
    var n := SpellsSplit(toks, i, Print(RootOf(s.head), PREFIX), SuffixesTokens(Suffixes(s.head)), m);
    SpellsBackwards(toks, n, SuffixesTokens(Suffixes(s.head)), m);
    root := Printed(RootOf(s.head), n);
  }

  /** `root` is what the suffixes of `chain` stand behind, and they follow. */
  ghost predicate RootOfChain(toks: seq<Token>, root: Goal, chain: Goal)
  {
    && root.Printed? && chain.Printed? && IsTree(chain.tree) && root.tree == RootOf(chain.tree)
    && Spells(toks, root.end, SuffixesTokens(Suffixes(chain.tree)), chain.end)
    && chain.end < |toks| && !StartsPostfix(toks[chain.end].kind)
  }

  lemma {:induction false} HeadEnds(toks: seq<Token>, i: nat, links: seq<Link>, min: nat, end: nat)
    requires Loosening(links, min) && Spells(toks, i, LinksTokens(links), end)
    requires end < |toks| && Stops(toks[end].kind, min)
    ensures i < |toks| && !StartsPostfix(toks[i].kind)
  {
    hide Print, IsTree, TokenTier, Tier, IsOperator, StartsPostfix;
    if links != [] {
      assert links[0..] == links;
      LinkAhead(toks, i, links, min, 0, end);
      OperatorEndsPostfix(links[0].op);
    }
  }

  lemma {:induction false} RootRead(toks: seq<Token>, i: nat, min: nat, goal: Goal, root: Goal, chain: Goal, e: Expr)
    requires goal.Printed? && HeadOf(toks, min, goal, chain) && RootOfChain(toks, root, chain) && GoalMet(root, e, i)
    ensures Reading(toks, i, min, goal, chain, 0, e)
  {
    hide Same, Spells, SuffixesTokens, IsTree, RootOf, SpineOf, LinksTokens, StartsPostfix, Stops;
    assert Suffixes(chain.tree)[0..] == Suffixes(chain.tree);
  }

  // ----- Reading suffixes -----

  lemma {:induction false} SuffixesUnknown(toks: seq<Token>, i: nat, e: Expr)
    ensures forall k: nat :: SuffixesAhead(NoGoal, toks, i, k, e)
  {
  }

  lemma {:induction false} SuffixUnknown(toks: seq<Token>, i: nat, e: Expr)
    ensures SuffixAhead(NoGoal, toks, i, e)
  {
  }

  /** A suffix is ahead exactly while one is left to be read. */
  lemma {:induction false} NextSuffix(toks: seq<Token>, i: nat, goal: Goal, k: nat, e: Expr) returns (suffix: Goal)
    requires goal.Printed? && SuffixesAhead(goal, toks, i, k, e)
    ensures i < |toks|
    ensures if StartsPostfix(toks[i].kind) then SuffixOf(toks, goal, k, suffix) && SuffixAhead(suffix, toks, i, e)
            else GoalMet(goal, e, i)
  {
    hide Print, PrintList, IsTree, Same, StartsPostfix, Next;
    var all := Suffixes(goal.tree);
    suffix := NoGoal;
    if k < |all| {
      var rest := all[k..];
      assert rest[0] == all[k] && rest[1..] == all[k+1..];
      SuffixStands(goal.tree, k);
      var m := SpellsSplit(toks, i, SuffixTokens(all[k]), SuffixesTokens(all[k+1..]), goal.end);
      SpellsBackwards(toks, m, SuffixesTokens(all[k+1..]), goal.end);
      suffix := Printed(all[k], m);
      SuffixStarts(toks, i, suffix, e);
    } else {
      assert all[k..] == [];
      AllSuffixesRead(goal.tree);
    }
  }

  /** `suffix` is the form with one more suffix, and the remaining ones follow. */
  ghost predicate SuffixOf(toks: seq<Token>, goal: Goal, k: nat, suffix: Goal)
  {
    && goal.Printed? && IsTree(goal.tree) && k < |Suffixes(goal.tree)| && suffix.Printed?
    && suffix.tree == Suffixes(goal.tree)[k] &&
       Spells(toks, suffix.end, SuffixesTokens(Suffixes(goal.tree)[k+1..]), goal.end)
    && goal.end < |toks| && !StartsPostfix(toks[goal.end].kind)
  }

  lemma {:induction false} SuffixRead(toks: seq<Token>, i: nat, goal: Goal, k: nat, suffix: Goal, e: Expr)
    requires SuffixOf(toks, goal, k, suffix) && GoalMet(suffix, e, i)
    ensures SuffixesAhead(goal, toks, i, k + 1, e)
  {
    hide Same, Spells, SuffixesTokens, IsTree, Suffixes, StartsPostfix;
  }

  lemma {:induction false} SuffixStarts(toks: seq<Token>, i: nat, goal: Goal, e: Expr)
    requires goal.Printed? && SuffixAhead(goal, toks, i, e)
    ensures i < |toks| && StartsPostfix(toks[i].kind)
  {
    hide Print, PrintList, IsTree, Same;
  }

  lemma {:induction false} SuffixShape(toks: seq<Token>, i: nat, goal: Goal, e: Expr)
    requires goal.Printed? && SuffixAhead(goal, toks, i, e)
    ensures i < |toks|
    ensures match goal.tree
            case DerefExpr(_) => toks[i].kind == Punct("^") && Next(toks, i) == goal.end
            case Propagate(_) => toks[i].kind == Punct("!") && Next(toks, i) == goal.end
            case FieldExpr(_, name) =>
              var m := Next(toks, i);
              && toks[i].kind == Punct(".") && m < |toks| && toks[m].kind == Ident(name)
              && Next(toks, m) == goal.end && !IsVariantName(name)
            case IndexExpr(_, index) => toks[i].kind == Punct("[")
            case CallExpr(_, args) =>
              toks[i].kind == Punct("(") && ListAhead(PrintedList(args, goal.end), toks, Next(toks, i), ")")
            case _ => true
  {
    hide Print, PrintList, Same, IsVariantName, Next;
    match goal.tree {
      case DerefExpr(_) => LastToken(toks, i, Punct("^"), goal.end);
      case Propagate(_) => LastToken(toks, i, Punct("!"), goal.end);
      case FieldExpr(_, name) =>
        SpellsOne(toks, i, Punct("."), [Ident(name)], goal.end);
        LastToken(toks, Next(toks, i), Ident(name), goal.end);
      case CallExpr(_, args) => SpellsOne(toks, i, Punct("("), PrintList(args, ")"), goal.end);
      case _ =>
    }
  }

  lemma {:induction false} IndexGoal(toks: seq<Token>, i: nat, goal: Goal, e: Expr) returns (inner: Goal)
    requires goal.Printed? && goal.tree.IndexExpr? && SuffixAhead(goal, toks, i, e)
    ensures inner.Printed? && inner.tree == goal.tree.index && GoalAhead(inner, toks, Next(toks, i), 0)
    ensures inner.end < |toks| && toks[inner.end].kind == Punct("]") && Next(toks, inner.end) == goal.end
  {
    hide Print, Same, Spells;
    var body, close := Print(goal.tree.index, 0), [Punct("]")];
    SpellsOne(toks, i, Punct("["), body + close, goal.end);
    var m := SpellsSplit(toks, Next(toks, i), body, close, goal.end);
    LastToken(toks, m, Punct("]"), goal.end);
    inner := Printed(goal.tree.index, m);
  }

  lemma {:induction false} SuffixBase(toks: seq<Token>, i: nat, goal: Goal, e: Expr)
    requires goal.Printed? && SuffixAhead(goal, toks, i, e)
    ensures IsSuffixed(goal.tree) && Same(e, Base(goal.tree))
  {
  }

  lemma {:induction false} CallMet(goal: Goal, operand: Expr, args: seq<Expr>, i: nat)
    requires goal.Printed? ==>
               && goal.tree.CallExpr? && Same(operand, goal.tree.callee)
               && ListMet(PrintedList(goal.tree.args, goal.end), args, i)
    ensures GoalMet(goal, CallExpr(operand, args), i)
  {
    hide SameAll;
  }

  lemma {:induction false} IndexMet(goal: Goal, inner: Goal, operand: Expr, index: Expr, i: nat)
    requires goal.Printed? ==>
               && goal.tree.IndexExpr? && Same(operand, goal.tree.base)
               && inner.Printed? && inner.tree == goal.tree.index && GoalMet(inner, index, i)
    ensures goal.Printed? ==>
              i == inner.end && forall j :: j == goal.end ==> GoalMet(goal, IndexExpr(operand, index), j)
  {
  }

  lemma {:induction false} ArrayMet(goal: Goal, elements: seq<Expr>, i: nat)
    requires goal.Printed? ==> goal.tree.ArrayLit? && ListMet(PrintedList(goal.tree.elements, goal.end), elements, i)
    ensures GoalMet(goal, ArrayLit(elements), i)
  {
    hide SameAll;
  }

  // ----- Reading a printed list -----

  lemma {:induction false} ListUnknown(toks: seq<Token>, i: nat, close: string)
    ensures ListAhead(NoList, toks, i, close)
  {
  }

  /** The first items have been read, and the remaining ones are ahead. */
  ghost predicate ItemsRead(toks: seq<Token>, i: nat, goal: ListGoal, close: string, es: seq<Expr>)
    requires goal.PrintedList?
  {
    && goal.end < |toks| && |es| <= |goal.items| && SameAll(es, goal.items[..|es|])
    && AreTrees(goal.items[|es|..]) && Spells(toks, i, PrintList(goal.items[|es|..], close), goal.end)
  }

  lemma {:induction false} ListStart(toks: seq<Token>, i: nat, goal: ListGoal, close: string)
    requires goal.PrintedList? && ListAhead(goal, toks, i, close)
    ensures ItemsRead(toks, i, goal, close, [])
  {
    hide Spells, PrintList, AreTrees;
    assert goal.items[0..] == goal.items;
  }

  /** `item` is the next one, and behind it comes a comma with more items, or the closing mark. */
  ghost predicate ItemOf(toks: seq<Token>, goal: ListGoal, close: string, k: nat, item: Goal)
  {
    && goal.PrintedList? && k < |goal.items| && goal.end < |toks| && item.Printed? && item.tree == goal.items[k]
    && AreTrees(goal.items[k+1..]) && item.end < |toks|
    && if k + 1 == |goal.items| then toks[item.end].kind == Punct(close) && Next(toks, item.end) == goal.end
       else
         && toks[item.end].kind == Punct(",")
         && Spells(toks, Next(toks, item.end), PrintList(goal.items[k+1..], close), goal.end)
  }

  /** The closing mark is next exactly when every item has been read. */
  lemma {:induction false} NextItem(
      toks: seq<Token>, i: nat, goal: ListGoal, close: string, es: seq<Expr>) returns (item: Goal)
    requires goal.PrintedList? && close in {")", "]"} && ItemsRead(toks, i, goal, close, es)
    ensures i < |toks| && toks[i].kind != Eof
    ensures if toks[i].kind == Punct(close) then SameAll(es, goal.items) && Next(toks, i) == goal.end
            else ItemOf(toks, goal, close, |es|, item) && GoalAhead(item, toks, i, LIST)
  {
    hide Print, Same, Next, IsTree;
    var rest := goal.items[|es|..];
    item := NoGoal;
    if rest == [] {
      LastToken(toks, i, Punct(close), goal.end);
      assert goal.items[..|es|] == goal.items;
    } else {
      assert rest[1..] == goal.items[|es|+1..];
      var tail := if |rest| == 1 then [Punct(close)] else [Punct(",")] + PrintList(rest[1..], close);
      var m := SpellsSplit(toks, i, Print(rest[0], LIST), tail, goal.end);
      item := Printed(rest[0], m);
      TreeStarts(toks, i, rest[0], LIST, m);
      if |rest| == 1 {
        LastToken(toks, m, Punct(close), goal.end);
      } else {
        SpellsOne(toks, m, Punct(","), PrintList(rest[1..], close), goal.end);
      }
    }
  }

  lemma {:induction false} TreeStarts(toks: seq<Token>, i: nat, e: Expr, min: nat, end: nat)
    requires IsTree(e) && Spells(toks, i, Print(e, min), end)
    ensures i < |toks| && toks[i].kind !in {Keyword("defer"), Punct(")"), Punct("]"), Eof}
  {
    hide Print, IsTree;
    FirstTokens(e, min);
  }

  predicate EndsReturn(k: TokenKind) { k == Punct("}") || k == Punct(";") || k == Eof }

  predicate Leaves(k: TokenKind)
  {
    k.Keyword? && k.word in {"ret", "stop", "skip", "jmp", "break"}
  }

  lemma {:induction false} NoReturnEnds(toks: seq<Token>, i: nat, goal: Goal)
    requires goal.Printed? && GoalAhead(goal, toks, i, LIST)
    ensures i < |toks| && !EndsReturn(toks[i].kind) && !Leaves(toks[i].kind)
  {
    hide Print, IsTree;
    FirstTokens(goal.tree, LIST);
  }

  lemma {:induction false} ItemRead(
      toks: seq<Token>, at: nat, i: nat, goal: ListGoal, close: string, es: seq<Expr>, item: Goal, e: Expr)
    requires goal.PrintedList? && close != "," && ItemsRead(toks, at, goal, close, es)
    requires ItemOf(toks, goal, close, |es|, item) && GoalMet(item, e, i)
    ensures i < |toks| && toks[i].kind == Punct(if |es| + 1 == |goal.items| then close else ",")
    ensures ItemsRead(toks, if toks[i].kind == Punct(close) then i else Next(toks, i), goal, close, es + [e])
  {
    hide Same, Next, IsTree, AreTrees;
    var now := es + [e];
    assert SameAll(now, goal.items[..|now|]);
    if |now| == |goal.items| {
      assert goal.items[|now|..] == [];
      SpelledLast(toks, i, Punct(close));
    }
  }

  lemma {:induction false} HeadUnknown(toks: seq<Token>, i: nat)
    ensures HeadAhead(NoGoal, toks, i)
  {
  }

  lemma {:induction false} GoalUnknown(toks: seq<Token>, i: nat, min: nat)
    ensures GoalAhead(NoGoal, toks, i, min)
  {
  }

  lemma {:induction false} GoalUnknownAnywhere(toks: seq<Token>)
    ensures forall i: nat, min: nat :: GoalAhead(NoGoal, toks, i, min)
  {
  }

  /** The name behind an `@`, if that is what stands there. */
  ghost function TagAt(toks: seq<Token>, i: nat): Option<string>
  {
    if PunctAt(toks, i, "@") && Next(toks, i) < |toks| then NameOf(toks[Next(toks, i)].kind) else None
  }

  lemma {:induction false} NothingToMeet(e: Expr, i: nat)
    ensures GoalMet(NoGoal, e, i)
  {
  }

  lemma {:induction false} OperatorNotEof(k: TokenKind)
    ensures OperatorOf(k).Some? ==> k != Eof
  {
  }

  lemma {:induction false} SpellsBackwards(toks: seq<Token>, i: nat, ks: seq<TokenKind>, j: nat)
    requires Spells(toks, i, ks, j) && j < |toks|
    ensures i < |toks|
  {
  }

  lemma {:induction false} HeadRead(toks: seq<Token>, i: nat, min: nat, goal: Goal, head: Goal, e: Expr)
    requires goal.Printed? && HeadOf(toks, min, goal, head) && GoalMet(head, e, i)
    ensures ReadSoFar(toks, i, min, goal, 0, e)
  {
    hide Print, SpineOf, Stops, IsTree, LinksTokens, Spells, Same;
    var s := SpineOf(goal.tree, min);
    SpineFolds(goal.tree, min);
    assert s.links[0..] == s.links && s.links[..0] == [];
  }

  /** What comes next is an operator or the end: nothing that continues an operand. */
  lemma {:induction false} NextEndsPostfix(toks: seq<Token>, i: nat, min: nat, goal: Goal, done: nat, e: Expr)
    requires goal.Printed? && ReadSoFar(toks, i, min, goal, done, e)
    ensures i < |toks| && !StartsPostfix(toks[i].kind)
    ensures var s := SpineOf(goal.tree, min);
            if done == |s.links| then i == goal.end
            else toks[i].kind == OperatorToken(s.links[done].op)
  {
    hide Print, SpineOf, IsTree, Same, Fold, StartsPostfix, TokenTier, Tier, IsOperator;
    var s := SpineOf(goal.tree, min);
    if done < |s.links| {
      LinkAhead(toks, i, s.links, min, done, goal.end);
      OperatorEndsPostfix(s.links[done].op);
    } else {
      assert s.links[done..] == [];
    }
  }

  /** The suffixes a round of the loop begins with: those of the head, and none later. */
  lemma {:induction false} LinkStarts(
      toks: seq<Token>, i: nat, min: nat, goal: Goal, chain: Goal, done: nat, e: Expr) returns (suffixed: Goal)
    requires goal.Printed? && Reading(toks, i, min, goal, chain, done, e)
    ensures SuffixesAhead(suffixed, toks, i, 0, e) && (suffixed.Printed? <==> done == 0) &&
            (done == 0 ==> suffixed == chain)
    ensures done > 0 ==> i < |toks| && !StartsPostfix(toks[i].kind)
  {
    hide HeadOf, ReadSoFar;
    suffixed := if done == 0 then chain else NoGoal;
    if done > 0 {
      NextEndsPostfix(toks, i, min, goal, done, e);
    }
  }

  lemma {:induction false} LeftRead(
      toks: seq<Token>, at: nat, i: nat, min: nat, goal: Goal, chain: Goal, done: nat, e: Expr, left: Expr)
    requires goal.Printed? && Reading(toks, at, min, goal, chain, done, e)
    requires if done == 0 then GoalMet(chain, left, i) else left == e && i == at
    ensures ReadSoFar(toks, i, min, goal, done, left)
  {
    hide HeadOf, ReadSoFar;
    if done == 0 {
      HeadRead(toks, i, min, goal, chain, left);
    }
  }

  lemma {:induction false} LinkAhead(toks: seq<Token>, i: nat, links: seq<Link>, min: nat, done: nat, end: nat)
    requires Loosening(links, min) && done < |links| && Spells(toks, i, LinksTokens(links[done..]), end)
    ensures i < |toks| && toks[i].kind == OperatorToken(links[done].op)
    ensures Spells(toks, Next(toks, i),
            Print(links[done].rhs, Tier(links[done].op) + 1) + LinksTokens(links[done+1..]), end)
  {
    hide Print, Tier, IsOperator, IsTree;
    var l := links[done];
    var rest := links[done..];
    assert rest[0] == l && rest[1..] == links[done+1..];
    var body := Print(l.rhs, Tier(l.op) + 1);
    assert LinksTokens(rest) == [OperatorToken(l.op)] + (body + LinksTokens(links[done+1..])) by {
      assert [OperatorToken(l.op)] + body + LinksTokens(links[done+1..]) ==
             [OperatorToken(l.op)] + (body + LinksTokens(links[done+1..]));
    }
    SpellsOne(toks, i, OperatorToken(l.op), body + LinksTokens(links[done+1..]), end);
  }

  lemma {:induction false} AllRead(toks: seq<Token>, i: nat, min: nat, goal: Goal, done: nat, e: Expr)
    requires goal.Printed? && ReadSoFar(toks, i, min, goal, done, e)
    requires i < |toks| && (TokenTier(toks[i].kind).None? || TokenTier(toks[i].kind).value < min)
    ensures GoalMet(goal, e, i)
  {
    hide Print, SpineOf, IsTree, Same, Fold, TokenTier, Tier, IsOperator, Spells, LinksTokens;
    var s := SpineOf(goal.tree, min);
    NextEndsPostfix(toks, i, min, goal, done, e);
    SpineFolds(goal.tree, min);
    if done < |s.links| {
      OperatorReadsBack(s.links[done].op);
    } else {
      assert s.links[..done] == s.links;
    }
  }

  lemma {:induction false} LinkGoal(
      toks: seq<Token>, i: nat, min: nat, goal: Goal, done: nat, e: Expr, op: string) returns (rest: Goal)
    requires goal.Printed? && ReadSoFar(toks, i, min, goal, done, e)
    requires i < |toks| && IsOperator(op) && toks[i].kind == OperatorToken(op) && Tier(op) >= min
    ensures rest.Printed? && RestOf(toks, min, goal, done, op, rest) &&
            GoalAhead(rest, toks, Next(toks, i), Tier(op) + 1)
  {
    hide Print, SpineOf, IsTree, Same, Fold, TokenTier, Tier, IsOperator, Spells, LinksTokens, StartsPostfix;
    var s := SpineOf(goal.tree, min);
    OperatorReadsBack(op);
    MoreLinks(toks, i, min, goal, done, e);
    var l := s.links[done];
    OperatorReadsBack(l.op);
    TierBelowSuffix(l.op);
    LinkAhead(toks, i, s.links, min, done, goal.end);
    var m := SpellsSplit(toks, Next(toks, i), Print(l.rhs, Tier(l.op) + 1), LinksTokens(s.links[done+1..]), goal.end);
    rest := Printed(l.rhs, m);
    AfterLink(toks, m, s.links, min, done, goal.end);
  }

  lemma {:induction false} MoreLinks(toks: seq<Token>, i: nat, min: nat, goal: Goal, done: nat, e: Expr)
    requires goal.Printed? && ReadSoFar(toks, i, min, goal, done, e)
    requires i < |toks| && TokenTier(toks[i].kind).Some? && TokenTier(toks[i].kind).value >= min
    ensures done < |SpineOf(goal.tree, min).links|
  {
    hide Print, SpineOf, IsTree, Same, Fold, TokenTier, Tier, IsOperator, Spells, LinksTokens, StartsPostfix;
    NextEndsPostfix(toks, i, min, goal, done, e);
  }

  /** Behind the right operand of a link comes an operator no tighter, or the end. */
  lemma {:induction false} AfterLink(toks: seq<Token>, m: nat, links: seq<Link>, min: nat, done: nat, end: nat)
    requires Loosening(links, min) && done < |links| && Spells(toks, m, LinksTokens(links[done+1..]), end)
    requires end < |toks| && Stops(toks[end].kind, min)
    ensures m < |toks| && Stops(toks[m].kind, Tier(links[done].op) + 1)
  {
    hide Print, IsTree, TokenTier, Tier, IsOperator, StartsPostfix;
    if done + 1 < |links| {
      LinkAhead(toks, m, links, min, done + 1, end);
      NextLinkStops(links, min, done + 1);
    } else {
      assert links[done+1..] == [];
      StopsTighter(toks[end].kind, min, Tier(links[done].op) + 1);
    }
  }

  lemma {:induction false} LinkRead(
      toks: seq<Token>, at: nat, i: nat, min: nat, goal: Goal, chain: Goal, done: nat, e: Expr, op: string,
      rest: Goal, rhs: Expr)
    requires goal.Printed? && ReadSoFar(toks, at, min, goal, done, e)
    requires RestOf(toks, min, goal, done, op, rest) && GoalMet(rest, rhs, i)
    ensures Reading(toks, i, min, goal, chain, done + 1, Binary(op, e, rhs))
  {
    hide Print, SpineOf, IsTree, Fold, Tier, IsOperator, Spells, LinksTokens, Stops;
    var s := SpineOf(goal.tree, min);
    FoldNext(s.head, s.links, done);
  }

  lemma {:induction false} HeadShape(toks: seq<Token>, i: nat, goal: Goal)
    requires goal.Printed? && HeadAhead(goal, toks, i)
    ensures i < |toks|
    ensures if IsAtom(goal.tree) then toks[i].kind == AtomToken(goal.tree) && Next(toks, i) == goal.end
            else if goal.tree.Unary? then
              && goal.tree.unop in {"-", "not", "~"} && toks[i].kind == PrefixToken(goal.tree.unop)
              && HeadAhead(Printed(goal.tree.operand, goal.end), toks, Next(toks, i))
            else if goal.tree.ArrayLit? then
              && toks[i].kind == Punct("[")
              && ListAhead(PrintedList(goal.tree.elements, goal.end), toks, Next(toks, i), "]")
            else toks[i].kind == Punct("(")
  {
    hide PrintList, Next, AtomToken, IsOperator;
    var e := goal.tree;
    if IsAtom(e) {
      LastToken(toks, i, AtomToken(e), goal.end);
    } else if e.Unary? {
      SpellsOne(toks, i, PrefixToken(e.unop), Print(e.operand, PREFIX), goal.end);
    } else if e.ArrayLit? {
      SpellsOne(toks, i, Punct("["), PrintList(e.elements, "]"), goal.end);
    } else {
      LooserThanPrefix(e);
      SpellsOne(toks, i, Punct("("), Print(e, 0) + [Punct(")")], goal.end);
    }
  }

  lemma {:induction false} AtomIsMet(toks: seq<Token>, i: nat, goal: Goal, e: Expr)
    requires i < |toks| && HeadAhead(goal, toks, i) && IsAtom(e) && AtomToken(e) == toks[i].kind
    ensures GoalMet(goal, e, Next(toks, i))
  {
    if goal.Printed? {
      HeadShape(toks, i, goal);
    }
    hide Next, Spells, Print, PrintList;
  }

  lemma {:induction false} LooserThanPrefix(e: Expr)
    requires IsTree(e) && !IsAtom(e) && !e.Unary? && !e.ArrayLit?
    ensures Print(e, PREFIX) == [Punct("(")] + (Print(e, 0) + [Punct(")")])
  {
    if e.Binary? {
      TierBelowSuffix(e.op);
    }
  }

  lemma {:induction false} ParenGoal(toks: seq<Token>, i: nat, goal: Goal) returns (inner: Goal)
    requires goal.Printed? && HeadAhead(goal, toks, i) && i < |toks| && toks[i].kind == Punct("(")
    ensures inner.Printed? && inner.tree == goal.tree && GoalAhead(inner, toks, Next(toks, i), 0)
    ensures inner.end < |toks| && toks[inner.end].kind == Punct(")") && Next(toks, inner.end) == goal.end
  {
    hide Print, IsTree, Spells;
    HeadShape(toks, i, goal);
    LooserThanPrefix(goal.tree);
    var body, close := Print(goal.tree, 0), [Punct(")")];
    SpellsOne(toks, i, Punct("("), body + close, goal.end);
    var m := SpellsSplit(toks, Next(toks, i), body, close, goal.end);
    ClosesAt(toks, m, goal.end);
    inner := Printed(goal.tree, m);
  }

  lemma {:induction false} ClosesAt(toks: seq<Token>, i: nat, j: nat)
    requires Spells(toks, i, [Punct(")")], j)
    ensures i < |toks| && toks[i].kind == Punct(")") && Next(toks, i) == j && Stops(toks[i].kind, 0)
  {
    assert [Punct(")")] == [Punct(")")] + [];
    SpellsOne(toks, i, Punct(")"), [], j);
  }

  // ----- Reading a printed type or statement -----

  lemma {:induction false} TypeUnknown(toks: seq<Token>, i: nat)
    ensures TypeAhead(NoType, toks, i)
  {
  }

  lemma {:induction false} TypeEnd(toks: seq<Token>, i: nat, goal: TypeGoal)
    requires goal.PrintedType? && TypeAhead(goal, toks, i)
    ensures goal.end < |toks| && toks[goal.end].kind != Punct("!")
  {
  }

  /** The first tokens of a printed type show its form, and the part behind them is printed next. */
  lemma {:induction false} TypeShape(toks: seq<Token>, i: nat, goal: TypeGoal)
    requires goal.PrintedType? && TypeAhead(goal, toks, i)
    ensures i < |toks|
    ensures match goal.ty
            case NamedType(name) => toks[i].kind == Ident(name) && Next(toks, i) == goal.end
            case BorrowType(inner) =>
              toks[i].kind == Punct("^") && TypeAhead(PrintedType(inner, goal.end), toks, Next(toks, i))
            case OwnType(inner) =>
              var m := Next(toks, i);
              && toks[i].kind == Keyword("own") && m < |toks| && toks[m].kind == Punct("^")
              && TypeAhead(PrintedType(inner, goal.end), toks, Next(toks, m))
            case ArrayType(elem, len) =>
              var m := Next(toks, i);
              var n := Next(toks, m);
              && toks[i].kind == Punct("[") && m < |toks| && toks[m].kind == Int(Digits(len))
              && ParseU64(Digits(len)) == Some(len) && n < |toks| && toks[n].kind == Punct("]")
              && TypeAhead(PrintedType(elem, goal.end), toks, Next(toks, n))
            case SliceType(elem) =>
              var m := Next(toks, i);
              && toks[i].kind == Punct("[") && m < |toks| && toks[m].kind == Punct("]")
              && TypeAhead(PrintedType(elem, goal.end), toks, Next(toks, m))
            case ErrUnionType(ok, err) =>
              var m := Next(toks, i);
              && ok.NamedType? && toks[i].kind == Ident(ok.name) && m < |toks| && toks[m].kind == Punct("!")
              && TypeAhead(PrintedType(err, goal.end), toks, Next(toks, m))
  {
    hide Spells, ParseU64, Digits;
    match goal.ty {
      case NamedType(name) => LastToken(toks, i, Ident(name), goal.end);
      case BorrowType(inner) => SpellsOne(toks, i, Punct("^"), PrintType(inner), goal.end);
      case OwnType(inner) =>
        SpellsOne(toks, i, Keyword("own"), [Punct("^")] + PrintType(inner), goal.end);
        SpellsOne(toks, Next(toks, i), Punct("^"), PrintType(inner), goal.end);
      case ArrayType(elem, len) =>
        ParseCanonical(len);
        SpellsOne(toks, i, Punct("["), [Int(Digits(len))] + ([Punct("]")] + PrintType(elem)), goal.end);
        SpellsOne(toks, Next(toks, i), Int(Digits(len)), [Punct("]")] + PrintType(elem), goal.end);
        SpellsOne(toks, Next(toks, Next(toks, i)), Punct("]"), PrintType(elem), goal.end);
      case SliceType(elem) =>
        SpellsOne(toks, i, Punct("["), [Punct("]")] + PrintType(elem), goal.end);
        SpellsOne(toks, Next(toks, i), Punct("]"), PrintType(elem), goal.end);
      case ErrUnionType(ok, err) =>
        SpellsOne(toks, i, Ident(ok.name), [Punct("!")] + PrintType(err), goal.end);
        SpellsOne(toks, Next(toks, i), Punct("!"), PrintType(err), goal.end);
    }
  }

  lemma {:induction false} LastToken(toks: seq<Token>, i: nat, k: TokenKind, j: nat)
    requires Spells(toks, i, [k], j)
    ensures i < |toks| && toks[i].kind == k && Next(toks, i) == j
  {
    assert [k] == [k] + [];
    SpellsOne(toks, i, k, [], j);
  }

  /** The token that begins a printed statement tells which kind of statement it is. */
  lemma {:induction false} DeferAhead(toks: seq<Token>, i: nat, goal: StmtGoal) returns (inner: Goal)
    requires goal.PrintedStmt? && StmtAhead(goal, toks, i) && i < |toks| && toks[i].kind == Keyword("defer")
    ensures goal.stmt.Defer? && inner == Printed(goal.stmt.deferred, goal.end) &&
            GoalAhead(inner, toks, Next(toks, i), 0)
  {
    hide Spells, Print, IsTree;
    StmtStart(toks, i, goal);
    var e := goal.stmt.deferred;
    SpellsOne(toks, i, Keyword("defer"), Print(e, 0), goal.end);
    inner := Printed(e, goal.end);
  }

  /** Only a deferred expression starts with `defer`, and only a binding with a name and a colon. */
  lemma {:induction false} StmtStart(toks: seq<Token>, i: nat, goal: StmtGoal)
    requires goal.PrintedStmt? && StmtAhead(goal, toks, i) && i < |toks|
    ensures toks[i].kind == Keyword("defer") <==> goal.stmt.Defer?
    ensures goal.stmt.Let? && goal.stmt.isMut ==> toks[i].kind == Punct("~")
    ensures goal.stmt.Let? && !goal.stmt.isMut ==>
              && toks[i].kind.Ident? && Next(toks, i) < |toks|
              && toks[Next(toks, i)].kind == if goal.stmt.ty.Some? then Punct(":") else Punct(":=")
    ensures (goal.stmt.Assign? || goal.stmt.ExprStmt?) && toks[i].kind.Ident? ==> NoColonAt(toks, Next(toks, i))
  {
    hide Print, IsTree, Spells, PrintType, Writable;
    match goal.stmt {
      case Let(name, true, None, init) =>
        SpellsOne(toks, i, Punct("~"), [Ident(name)] + ([Punct(":=")] + Print(init, 0)), goal.end);
      case Let(name, false, Some(ty), init) =>
        var rest := PrintType(ty) + ([Punct("=")] + Print(init, 0));
        SpellsOne(toks, i, Ident(name), [Punct(":")] + rest, goal.end);
        SpellsOne(toks, Next(toks, i), Punct(":"), rest, goal.end);
      case Let(name, false, None, init) =>
        SpellsOne(toks, i, Ident(name), [Punct(":=")] + Print(init, 0), goal.end);
        SpellsOne(toks, Next(toks, i), Punct(":="), Print(init, 0), goal.end);
      case Defer(e) => SpellsOne(toks, i, Keyword("defer"), Print(e, 0), goal.end);
      case Assign(target, value, _) => TreeStart(toks, i, target, [Punct("=")] + Print(value, 0), goal.end);
      case ExprStmt(e) =>
        assert Print(e, 0) + [] == Print(e, 0);
        TreeStart(toks, i, e, [], goal.end);
    }
  }

  ghost predicate NoColonAt(toks: seq<Token>, i: nat)
  {
    i < |toks| && toks[i].kind != Punct(":") && toks[i].kind != Punct(":=")
  }

  /** Behind the name a tree starts with comes an operator, or what follows the tree. */
  lemma {:induction false} TreeStart(toks: seq<Token>, i: nat, e: Expr, rest: seq<TokenKind>, end: nat)
    requires IsTree(e) && Spells(toks, i, Print(e, 0) + rest, end) && i < |toks|
    requires rest != [] ==> rest[0] == Punct("=")
    requires end < |toks| && StopsStmt(toks[end].kind)
    ensures toks[i].kind != Keyword("defer") && (toks[i].kind.Ident? ==> NoColonAt(toks, Next(toks, i)))
  {
    hide Print, IsTree, Spells, StopsStmt, IsColon, Next, NoColonAt;
    var ks := Print(e, 0);
    FirstTokens(e, 0);
    Rejoin(ks, rest);
    SpellsOne(toks, i, ks[0], ks[1..] + rest, end);
    if toks[i].kind.Ident? {
      SecondToken(toks, Next(toks, i), ks[1..], rest, end);
    }
  }

  lemma {:induction false} Rejoin(ks: seq<TokenKind>, rest: seq<TokenKind>)
    requires ks != []
    ensures ks + rest == [ks[0]] + (ks[1..] + rest)
  {
  }

  lemma {:induction false} SecondToken(toks: seq<Token>, i: nat, ks: seq<TokenKind>, rest: seq<TokenKind>, end: nat)
    requires Spells(toks, i, ks + rest, end) && end < |toks| && StopsStmt(toks[end].kind)
    requires (ks != [] ==> !IsColon(ks[0])) && (rest != [] ==> rest[0] == Punct("="))
    ensures NoColonAt(toks, i)
  {
    hide Spells, Stops;
    var all := ks + rest;
    if all == [] {
      EndOf(toks, i, end);
    } else {
      assert all == [all[0]] + all[1..];
      SpellsOne(toks, i, all[0], all[1..], end);
      assert all[0] == if ks != [] then ks[0] else rest[0];
    }
  }

  lemma {:induction false} EndOf(toks: seq<Token>, i: nat, j: nat)
    requires Spells(toks, i, [], j)
    ensures i == j
  {
  }

  lemma {:induction false} LetAhead(toks: seq<Token>, i: nat, typed: bool, goal: StmtGoal)
    returns (tyGoal: TypeGoal, initGoal: Goal)
    requires goal.PrintedStmt? && StmtAhead(goal, toks, i) && Ended(toks) && i < |toks| && toks[i].kind.Ident?
    requires AheadKind(toks, i, 1) == if typed then Punct(":") else Punct(":=")
    ensures goal.stmt.Let? && !goal.stmt.isMut
    ensures toks[i].kind == Ident(goal.stmt.name) && typed == goal.stmt.ty.Some?
    ensures initGoal == Printed(goal.stmt.init, goal.end)
    ensures var m := Next(toks, Next(toks, i));
            if typed then
              && tyGoal.PrintedType? && tyGoal.ty == goal.stmt.ty.value && TypeAhead(tyGoal, toks, m)
              && tyGoal.end < |toks| && toks[tyGoal.end].kind == Punct("=")
              && GoalAhead(initGoal, toks, Next(toks, tyGoal.end), 0)
            else GoalAhead(initGoal, toks, m, 0)
  {
    hide Spells, Print, IsTree, PrintType, Writable, AheadKind;
    OneAhead(toks, i);
    StmtStart(toks, i, goal);
    initGoal := Printed(goal.stmt.init, goal.end);
    tyGoal := NoType;
    var tail := Print(goal.stmt.init, 0);
    if typed {
      var ty := goal.stmt.ty.value;
      var rest := PrintType(ty) + ([Punct("=")] + tail);
      SpellsOne(toks, i, Ident(goal.stmt.name), [Punct(":")] + rest, goal.end);
      SpellsOne(toks, Next(toks, i), Punct(":"), rest, goal.end);
      var m := SpellsSplit(toks, Next(toks, Next(toks, i)), PrintType(ty), [Punct("=")] + tail, goal.end);
      SpellsOne(toks, m, Punct("="), tail, goal.end);
      tyGoal := PrintedType(ty, m);
    } else {
      SpellsOne(toks, i, Ident(goal.stmt.name), [Punct(":=")] + tail, goal.end);
      SpellsOne(toks, Next(toks, i), Punct(":="), tail, goal.end);
    }
  }

  lemma {:induction false} AssignAhead(toks: seq<Token>, i: nat, goal: StmtGoal) returns (left: Goal, right: Goal)
    requires goal.PrintedStmt? && StmtAhead(goal, toks, i) && Ended(toks) && i < |toks|
    requires toks[i].kind != Keyword("defer")
    requires toks[i].kind.Ident? ==> AheadKind(toks, i, 1) != Punct(":") && AheadKind(toks, i, 1) != Punct(":=")
    ensures goal.stmt.Assign? || goal.stmt.ExprStmt? || (goal.stmt.Let? && goal.stmt.isMut)
    ensures left.Printed? && left.end < |toks| && GoalAhead(left, toks, i, 0)
    ensures goal.stmt.Assign? ==>
              && left.tree == goal.stmt.target && toks[left.end].kind == Punct("=")
              && right == Printed(goal.stmt.value, goal.end) && GoalAhead(right, toks, Next(toks, left.end), 0)
    ensures goal.stmt.ExprStmt? ==>
              && left == Printed(goal.stmt.expr, goal.end)
              && toks[left.end].kind != Punct("=") && toks[left.end].kind != Punct(":=")
    ensures goal.stmt.Let? ==>
              && IsMarkedName(left.tree, goal.stmt.name) && goal.stmt.ty.None? && toks[left.end].kind == Punct(":=")
              && right == Printed(goal.stmt.init, goal.end) && GoalAhead(right, toks, Next(toks, left.end), 0)
  {
    hide Spells, Print, IsTree, PrintType, Writable, AheadKind;
    StmtStart(toks, i, goal);
    if toks[i].kind.Ident? {
      OneAhead(toks, i);
    }
    right := NoGoal;
    if goal.stmt.Assign? {
      var tail := Print(goal.stmt.value, 0);
      var m := SpellsSplit(toks, i, Print(goal.stmt.target, 0), [Punct("=")] + tail, goal.end);
      SpellsOne(toks, m, Punct("="), tail, goal.end);
      left, right := Printed(goal.stmt.target, m), Printed(goal.stmt.value, goal.end);
    } else if goal.stmt.Let? {
      left, right := MarkedAhead(toks, i, goal);
    } else {
      left := Printed(goal.stmt.expr, goal.end);
    }
  }

  ghost predicate IsMarkedName(e: Expr, name: string)
  {
    e.Unary? && e.unop == "~" && e.operand.Path? && e.operand.segments == [name]
  }

  lemma {:induction false} MarkedAhead(toks: seq<Token>, i: nat, goal: StmtGoal) returns (left: Goal, right: Goal)
    requires goal.PrintedStmt? && StmtAhead(goal, toks, i) && goal.stmt.Let? && goal.stmt.isMut && i < |toks|
    ensures left.Printed? && IsMarkedName(left.tree, goal.stmt.name) && GoalAhead(left, toks, i, 0)
    ensures left.end < |toks| && toks[left.end].kind == Punct(":=")
    ensures right == Printed(goal.stmt.init, goal.end) && GoalAhead(right, toks, Next(toks, left.end), 0)
  {
    hide Next, Print, Writable, PrintType;
    var name, tail := goal.stmt.name, Print(goal.stmt.init, 0);
    SpellsOne(toks, i, Punct("~"), [Ident(name)] + ([Punct(":=")] + tail), goal.end);
    SpellsOne(toks, Next(toks, i), Ident(name), [Punct(":=")] + tail, goal.end);
    var m := Next(toks, Next(toks, i));
    SpellsOne(toks, m, Punct(":="), tail, goal.end);
    left := MarkedGoal(toks, i, name);
    right := Printed(goal.stmt.init, goal.end);
  }

  lemma {:induction false} MarkedGoal(toks: seq<Token>, i: nat, name: string) returns (marked: Goal)
    requires i < |toks| && toks[i].kind == Punct("~") && Next(toks, i) < |toks| &&
             toks[Next(toks, i)].kind == Ident(name)
    requires Next(toks, Next(toks, i)) < |toks| && toks[Next(toks, Next(toks, i))].kind == Punct(":=")
    ensures marked.Printed? && IsMarkedName(marked.tree, name) && GoalAhead(marked, toks, i, 0)
    ensures marked.end == Next(toks, Next(toks, i))
  {
    hide Next, Spells;
    var tree := Unary("~", Path([name], toks[i].span));
    TwoSpelled(toks, i, Punct("~"), Ident(name));
    PrintAtom(tree.operand, PREFIX);
    assert IsTree(tree) && Print(tree, 0) == [Punct("~"), Ident(name)];
    marked := Printed(tree, Next(toks, Next(toks, i)));
  }

  lemma {:induction false} SpelledLast(toks: seq<Token>, i: nat, k: TokenKind)
    requires i < |toks| && toks[i].kind == k
    ensures Spells(toks, i, [k], Next(toks, i))
  {
    assert [k][1..] == [];
  }

  lemma {:induction false} TwoSpelled(toks: seq<Token>, i: nat, k: TokenKind, l: TokenKind)
    requires i < |toks| && toks[i].kind == k && Next(toks, i) < |toks| && toks[Next(toks, i)].kind == l
    ensures Spells(toks, i, [k, l], Next(toks, Next(toks, i)))
  {
    assert [k, l][1..] == [l] && [l][1..] == [];
  }

  lemma {:induction false} MarkedBinds(target: Expr, marked: Expr, name: string, value: Expr, span: Span)
    requires IsMarkedName(marked, name) && Same(target, marked)
    ensures BindOrAssign(target, value, span) == Let(name, true, None, value)
  {
  }

  // ----- Reading a printed block -----

  ghost predicate PunctAt(toks: seq<Token>, i: nat, mark: string) { i < |toks| && toks[i].kind == Punct(mark) }

  lemma {:induction false} StmtUnknown(toks: seq<Token>, i: nat)
    ensures StmtAhead(NoStmt, toks, i)
  {
  }

  lemma {:induction false} BlockUnknown(toks: seq<Token>)
    ensures forall i, ss :: StmtsRead(NoBlock, toks, i, ss)
  {
  }

  lemma {:induction false} SpellsForward(toks: seq<Token>, i: nat, ks: seq<TokenKind>, j: nat)
    requires Spells(toks, i, ks, j)
    ensures i <= j && (ks != [] ==> i < j)
    decreases |ks|
  {
    if ks != [] {
      SpellsForward(toks, Next(toks, i), ks[1..], j);
    }
  }

  lemma {:induction false} NoneUnknown(toks: seq<Token>, i: nat, ss: seq<Stmt>)
    ensures StmtsRead(NoBlock, toks, i, ss)
  {
  }

  lemma {:induction false} BlockEntered(toks: seq<Token>, i: nat, goal: BlockGoal)
    requires goal.PrintedBlock? && BlockAhead(goal, toks, i)
    ensures PunctAt(toks, i, "{") && StmtsRead(goal, toks, Next(toks, i), [])
    ensures !MatchAt(goal, -1)
  {
    hide PrintStmts, AreSeparated, Spells, IsMatch, IsPlainStmt;
    SpellsOne(toks, i, Punct("{"), PrintStmts(goal.stmts), goal.end);
    assert goal.stmts[0..] == goal.stmts;
  }

  /** How the next statement of a block begins, and what follows it. */
  lemma {:induction false} NextPrinted(toks: seq<Token>, i: nat, goal: BlockGoal, k: nat) returns (m: nat)
    requires goal.PrintedBlock? && StmtsAhead(goal, toks, i, k) && k < |goal.stmts|
    ensures IsBlockStmt(goal.stmts[k]) && Spells(toks, i, PrintBlockStmt(goal.stmts[k]), m)
    ensures StmtsAhead(goal, toks, m, k + 1) && m < |toks|
    ensures IsMatch(goal.stmts[k]) || StopsStmt(toks[m].kind)
  {
    hide Spells, PrintBlockStmt, IsMatch, IsPlainStmt, StopsStmt;
    var rest := goal.stmts[k..];
    assert rest[0] == goal.stmts[k] && rest[1..] == goal.stmts[k+1..];
    m := SpellsSplit(toks, i, PrintBlockStmt(rest[0]), PrintStmts(rest[1..]), goal.end);
    SpellsBackwards(toks, m, PrintStmts(rest[1..]), goal.end);
    FirstSpelled(toks, m, PrintStmts(rest[1..]), goal.end);
  }

  lemma {:induction false} FirstSpelled(toks: seq<Token>, i: nat, ks: seq<TokenKind>, j: nat)
    requires Spells(toks, i, ks, j) && ks != []
    ensures i < |toks| && toks[i].kind == ks[0] && Spells(toks, Next(toks, i), ks[1..], j)
  {
  }

  lemma {:induction false} StmtBegins(s: Stmt)
    requires IsPlainStmt(s)
    ensures PrintStmt(s) != [] && PrintStmt(s)[0] !in {Punct("}"), Punct("?"), Eof}
  {
    hide Print, IsTree, PrintType, Writable;
    match s {
      case Assign(target, _, _) => FirstTokens(target, 0);
      case ExprStmt(e) => FirstTokens(e, 0);
      case _ =>
    }
  }

  /** The token ahead tells whether the block ends, a match comes or another statement. */
  lemma {:induction false} BlockNext(toks: seq<Token>, i: nat, goal: BlockGoal, ss: seq<Stmt>)
    requires goal.PrintedBlock? && StmtsRead(goal, toks, i, ss)
    ensures i < |toks| && toks[i].kind != Eof && |ss| <= |goal.stmts|
    ensures toks[i].kind == Punct("}") <==> |ss| == |goal.stmts|
    ensures toks[i].kind == Punct("?") <==> MatchAt(goal, |ss|)
    ensures |ss| == |goal.stmts| ==>
              Next(toks, i) == goal.end && SameStmts(ss, goal.stmts) &&
                  (EndsInMatch(goal.stmts) <==> MatchAt(goal, |ss| - 1))
  {
    hide Spells, IsPlainStmt, PrintStmt, Print, IsTree, SameBlockStmt, AreSeparated;
    var k := |ss|;
    if k == |goal.stmts| {
      assert goal.stmts[k..] == [] && goal.stmts[..k] == goal.stmts;
      LastToken(toks, i, Punct("}"), goal.end);
    } else {
      var m := NextPrinted(toks, i, goal, k);
      if IsMatch(goal.stmts[k]) {
        FirstSpelled(toks, i, PrintMatch(goal.stmts[k]), m);
      } else {
        StmtBegins(goal.stmts[k]);
        FirstSpelled(toks, i, PrintStmt(goal.stmts[k]), m);
      }
    }
  }

  lemma {:induction false} MatchIsNext(toks: seq<Token>, i: nat, goal: BlockGoal, ss: seq<Stmt>)
    requires Ended(toks) && goal.PrintedBlock? && StmtsRead(goal, toks, i, ss) && i < |toks| &&
             toks[i].kind == Punct("?")
    ensures MatchAt(goal, |ss|) && AheadKind(toks, i, 1) != Punct("{")
  {
    hide StmtsRead, Next;
    BlockNext(toks, i, goal, ss);
    var cond := MatchAhead(toks, i, goal, ss);
    OneAhead(toks, i);
  }

  lemma {:induction false} NoMatchIsNext(toks: seq<Token>, i: nat, goal: BlockGoal, ss: seq<Stmt>)
    requires goal.PrintedBlock? && StmtsRead(goal, toks, i, ss) && i < |toks| && toks[i].kind != Punct("?")
    ensures !MatchAt(goal, |ss|)
  {
    hide StmtsRead, Next, MatchAt;
    BlockNext(toks, i, goal, ss);
  }

  lemma {:induction false} MatchAhead(toks: seq<Token>, i: nat, goal: BlockGoal, ss: seq<Stmt>) returns (cond: Goal)
    requires goal.PrintedBlock? && StmtsRead(goal, toks, i, ss) && MatchAt(goal, |ss|)
    ensures CondOf(toks, goal, |ss|, cond) && GoalAhead(cond, toks, Next(toks, i), LIST)
    ensures Next(toks, i) < |toks| && toks[Next(toks, i)].kind != Punct("{")
  {
    hide Spells, Print, IsTree, Next, AreSeparated, SameStmts;
    var s := goal.stmts[|ss|];
    var e, tail := s.expr.scrutinee.value, [Keyword("is"), Punct("{"), Punct("}")];
    var m := NextPrinted(toks, i, goal, |ss|);
    SpellsOne(toks, i, Punct("?"), Print(e, LIST) + tail, m);
    var n := SpellsSplit(toks, Next(toks, i), Print(e, LIST), tail, m);
    cond := Printed(e, n);
    FirstTokens(e, LIST);
    FirstSpelled(toks, Next(toks, i), Print(e, LIST), n);
    FirstSpelled(toks, n, tail, m);
    FirstSpelled(toks, Next(toks, n), tail[1..], m);
    FirstSpelled(toks, Next(toks, Next(toks, n)), tail[1..][1..], m);
    EndOf(toks, Next(toks, Next(toks, Next(toks, n))), m);
  }

  /** `cond` is what the match is about, and behind it come `is { }` and the rest of the block. */
  ghost predicate CondOf(toks: seq<Token>, goal: BlockGoal, k: nat, cond: Goal)
  {
    && goal.PrintedBlock? && MatchAt(goal, k) && cond.Printed? && cond.tree == goal.stmts[k].expr.scrutinee.value
    && cond.end < |toks| && toks[cond.end].kind == Keyword("is")
    && PunctAt(toks, Next(toks, cond.end), "{") && PunctAt(toks, Next(toks, Next(toks, cond.end)), "}")
    && StmtsAhead(goal, toks, Next(toks, Next(toks, Next(toks, cond.end))), k + 1)
  }

  lemma {:induction false} CondRead(
      toks: seq<Token>, i: nat, j: nat, goal: BlockGoal, ss: seq<Stmt>, cond: Goal, e: Expr)
    requires StmtsRead(goal, toks, i, ss) && CondOf(toks, goal, |ss|, cond) && GoalMet(cond, e, j)
    ensures j < |toks| && toks[j].kind == Keyword("is") && PunctAt(toks, Next(toks, j), "{")
    ensures PunctAt(toks, Next(toks, Next(toks, j)), "}")
  {
    hide StmtsRead, StmtsAhead, MatchAt, Same, Next;
  }

  lemma {:induction false} MatchRead(
      toks: seq<Token>, i: nat, j: nat, goal: BlockGoal, ss: seq<Stmt>, cond: Goal, e: Expr, span: Span)
    requires StmtsRead(goal, toks, i, ss) && CondOf(toks, goal, |ss|, cond) && GoalMet(cond, e, j)
    ensures StmtsRead(goal, toks, Next(toks, Next(toks, Next(toks, j))), ss + [ExprStmt(Branch(Some(e), [], span))])
  {
    hide StmtsAhead, Same, Next, IsTree;
    OneMoreRead(goal, ss, ExprStmt(Branch(Some(e), [], span)));
  }

  lemma {:induction false} OneMoreRead(goal: BlockGoal, ss: seq<Stmt>, s: Stmt)
    requires goal.PrintedBlock? && |ss| < |goal.stmts| && SameStmts(ss, goal.stmts[..|ss|])
    requires SameBlockStmt(s, goal.stmts[|ss|])
    ensures SameStmts(ss + [s], goal.stmts[..|ss| + 1])
  {
    hide SameBlockStmt;
  }

  lemma {:induction false} PlainAhead(toks: seq<Token>, i: nat, goal: BlockGoal, ss: seq<Stmt>) returns (g: StmtGoal)
    requires goal.PrintedBlock? && StmtsRead(goal, toks, i, ss) && |ss| < |goal.stmts| && !MatchAt(goal, |ss|)
    ensures g.PrintedStmt? && g.stmt == goal.stmts[|ss|] && StmtAhead(g, toks, i) && i < g.end
    ensures StmtsAhead(goal, toks, g.end, |ss| + 1)
  {
    hide Spells, PrintStmt, IsPlainStmt, IsMatch, AreSeparated, SameStmts;
    var m := NextPrinted(toks, i, goal, |ss|);
    g := PrintedStmt(goal.stmts[|ss|], m);
    StmtBegins(g.stmt);
    SpellsForward(toks, i, PrintStmt(g.stmt), m);
  }

  lemma {:induction false} PlainRead(
      toks: seq<Token>, i: nat, j: nat, goal: BlockGoal, ss: seq<Stmt>, g: StmtGoal, s: Stmt)
    requires goal.PrintedBlock? && StmtsRead(goal, toks, i, ss) && |ss| < |goal.stmts| && !MatchAt(goal, |ss|)
    requires g.PrintedStmt? && g.stmt == goal.stmts[|ss|] && StmtsAhead(goal, toks, g.end, |ss| + 1) && StmtMet(g, s, j)
    ensures StmtsRead(goal, toks, j, ss + [s])
  {
    hide StmtsAhead, SameStmt, IsMatch;
    OneMoreRead(goal, ss, s);
  }

  // ----- Reading printed patterns, arms, branches and loops -----

  lemma {:induction false} PatternUnknown(toks: seq<Token>, i: nat)
    ensures PatternAhead(NoPattern, toks, i)
  {
  }

  lemma {:induction false} ArmUnknown(toks: seq<Token>, i: nat)
    ensures ArmAhead(NoArm, toks, i)
  {
  }

  lemma {:induction false} ArmsUnknown(toks: seq<Token>)
    ensures forall i: nat :: ArmsAhead(NoArms, toks, i)
    ensures forall arms, met :: ArmsMet(NoArms, arms, met)
  {
  }

  lemma {:induction false} NamesUnknown(toks: seq<Token>)
    ensures forall i: nat :: NamesAhead(NoNames, toks, i)
  {
  }

  lemma {:induction false} NoBlockAhead(toks: seq<Token>, i: nat)
    ensures BlockAhead(NoBlock, toks, i)
  {
  }

  function NameOf(k: TokenKind): Option<string> { if k.Ident? then Some(k.name) else None }

  /** Where the first tokens of a pattern lead. A condition is ahead as an expression. */
  ghost predicate PatternIs(toks: seq<Token>, i: nat, goal: PatternGoal, cond: Goal)
    requires goal.PrintedPattern?
  {
    && i < |toks| && IsPattern(goal.pattern) && GoalAhead(cond, toks, i, 0)
    && match goal.pattern
       case LitArm(e) => toks[i].kind == AtomToken(e) && Next(toks, i) == goal.end
       case BindArm(name) =>
         toks[i].kind == Ident(name) && Next(toks, i) == goal.end && AheadKind(toks, i, 1) == Punct("=>")
       case VariantArm(_, _) => toks[i].kind == Punct(".")
       case CondArm(c) =>
         && cond == Printed(c, goal.end) && toks[i].kind != Punct(".")
         && (StartsCondition(Print(c, 0)) <==>
               && !IsLiteralToken(toks[i].kind)
               && (toks[i].kind.Ident? ==>
                     && toks[i].kind.name !in WORDS
                     && AheadKind(toks, i, 1).Punct? && TokenTier(AheadKind(toks, i, 1)).Some?))
       case WildcardArm => true
  }

  lemma {:induction false} VariantIsMet(
      toks: seq<Token>, i: nat, goal: PatternGoal, p: ArmPattern, j: nat, quiet: bool)
    requires i < |toks| && toks[i].kind == Punct(".") && DotMeans(AheadKind(toks, i, 1), p)
    requires goal.PrintedPattern? ==>
               PatternAhead(goal, toks, i) && goal.pattern.VariantArm? && p == goal.pattern && j == goal.end && quiet
    ensures PatternMeans(toks, i, p) && PatternMet(goal, p, j, quiet)
  {
    hide Spells, AheadKind, DotMeans;
  }

  lemma {:induction false} LiteralIsMet(
      toks: seq<Token>, i: nat, goal: PatternGoal, cond: Goal, e: Expr, j: nat, quiet: bool)
    requires i < |toks| && IsLiteralToken(toks[i].kind) && IsAtom(e) && AtomToken(e) == toks[i].kind
    requires goal.PrintedPattern? ==> PatternIs(toks, i, goal, cond) && j == Next(toks, i) && quiet
    ensures PatternMeans(toks, i, LitArm(e)) && PatternMet(goal, LitArm(e), j, quiet)
  {
    hide Next, AheadKind, GoalAhead, TokenTier, Print, StartsCondition;
  }

  lemma {:induction false} NameIsMet(
      toks: seq<Token>, i: nat, goal: PatternGoal, cond: Goal, p: ArmPattern, j: nat, quiet: bool)
    requires i < |toks| && toks[i].kind.Ident? && NameMeans(toks[i].kind.name, AheadKind(toks, i, 1), p)
    requires goal.PrintedPattern? ==>
               PatternIs(toks, i, goal, cond) &&
               if p.CondArm? then GoalMet(cond, p.condition, j) && (cond.Printed? ==> quiet)
               else j == Next(toks, i) && quiet
    ensures PatternMeans(toks, i, p) && PatternMet(goal, p, j, quiet)
  {
    hide Next, AheadKind, GoalAhead, Print, StartsCondition, Same;
    PowersFollowTiers(Punct("=>"), 0);
  }

  lemma {:induction false} ConditionIsMet(
      toks: seq<Token>, i: nat, goal: PatternGoal, cond: Goal, e: Expr, j: nat, quiet: bool)
    requires i < |toks| && toks[i].kind != Punct(".") && !toks[i].kind.Ident? && !IsLiteralToken(toks[i].kind)
    requires goal.PrintedPattern? ==>
               PatternIs(toks, i, goal, cond) && GoalMet(cond, e, j) && (cond.Printed? ==> quiet)
    ensures PatternMeans(toks, i, CondArm(e)) && PatternMet(goal, CondArm(e), j, quiet)
  {
    hide Next, AheadKind, GoalAhead, TokenTier, Print, StartsCondition, Same;
  }

  lemma {:induction false} PatternShape(toks: seq<Token>, i: nat, goal: PatternGoal) returns (cond: Goal)
    requires Ended(toks) && goal.PrintedPattern? && PatternAhead(goal, toks, i)
    ensures PatternIs(toks, i, goal, cond) && GoalAhead(cond, toks, i, 0)
  {
    cond := NoGoal;
    hide Print, IsTree, StartsCondition, PrintNames, AheadKind, Next, PastComments;
    match goal.pattern {
      case LitArm(e) => LastToken(toks, i, AtomToken(e), goal.end);
      case BindArm(name) =>
        LastToken(toks, i, Ident(name), goal.end);
        OneAhead(toks, i);
      case VariantArm(_, _) => FirstSpelled(toks, i, PrintPattern(goal.pattern), goal.end);
      case CondArm(c) =>
        cond := Printed(c, goal.end);
        ConditionStarts(toks, i, c, goal.end);
    }
  }

  lemma {:induction false} ConditionStarts(toks: seq<Token>, i: nat, c: Expr, end: nat)
    requires Ended(toks) && IsTree(c) && Spells(toks, i, Print(c, 0), end) && PunctAt(toks, end, "=>")
    ensures i < |toks| && toks[i].kind != Punct(".") && toks[i].kind != Eof
    ensures StartsCondition(Print(c, 0)) <==>
              && !IsLiteralToken(toks[i].kind)
              && (toks[i].kind.Ident? ==>
                    && toks[i].kind.name !in WORDS
                    && AheadKind(toks, i, 1).Punct? && TokenTier(AheadKind(toks, i, 1)).Some?)
  {
    hide Print, IsTree;
    var ks := Print(c, 0);
    FirstTokens(c, 0);
    FirstSpelled(toks, i, ks, end);
    OneAhead(toks, i);
    if |ks| > 1 {
      FirstSpelled(toks, Next(toks, i), ks[1..], end);
    } else {
      assert ks[1..] == [];
    }
  }

  lemma {:induction false} VariantShape(toks: seq<Token>, i: nat, goal: PatternGoal) returns (names: NamesGoal)
    requires Ended(toks) && goal.PrintedPattern? && PatternAhead(goal, toks, i)
    requires i < |toks| && toks[i].kind == Punct(".")
    ensures goal.pattern.VariantArm? && Next(toks, i) < |toks| && toks[Next(toks, i)].kind == Ident(goal.pattern.name)
    ensures var m := Next(toks, Next(toks, i));
            m < |toks| &&
            if goal.pattern.bindings == [] then m == goal.end && toks[m].kind == Punct("=>")
            else
              && toks[m].kind == Punct("(") && names == PrintedNames(goal.pattern.bindings, goal.end)
              && NamesAhead(names, toks, Next(toks, m))
  {
    hide Next, PrintNames;
    names := NoNames;
    var cond := PatternShape(toks, i, goal);
    var p := goal.pattern;
    var tail := if p.bindings == [] then [] else [Punct("(")] + PrintNames(p.bindings);
    SpellsOne(toks, i, Punct("."), [Ident(p.name)] + tail, goal.end);
    SpellsOne(toks, Next(toks, i), Ident(p.name), tail, goal.end);
    if p.bindings != [] {
      SpellsOne(toks, Next(toks, Next(toks, i)), Punct("("), PrintNames(p.bindings), goal.end);
      names := PrintedNames(p.bindings, goal.end);
    }
  }

  /** The first names have been read; then the rest is ahead, or the closing mark. */
  ghost predicate NamesRead(goal: NamesGoal, toks: seq<Token>, i: nat, names: seq<string>)
    requires goal.PrintedNames?
  {
    && |names| <= |goal.names| && names == goal.names[..|names|] && goal.end < |toks|
    && if |names| == |goal.names| then PunctAt(toks, i, ")") && Next(toks, i) == goal.end
       else Spells(toks, i, PrintNames(goal.names[|names|..]), goal.end)
  }

  lemma {:induction false} NextName(toks: seq<Token>, i: nat, goal: NamesGoal, names: seq<string>)
    requires goal.PrintedNames? && NamesRead(goal, toks, i, names) && |names| < |goal.names|
    ensures i < |toks| && toks[i].kind == Ident(goal.names[|names|])
    ensures var more, j := names + [goal.names[|names|]], Next(toks, i);
            j < |toks| &&
            if |more| == |goal.names| then toks[j].kind == Punct(")") && NamesRead(goal, toks, j, more)
            else toks[j].kind == Punct(",") && NamesRead(goal, toks, Next(toks, j), more)
  {
    hide Next;
    var rest := goal.names[|names|..];
    assert rest[0] == goal.names[|names|] && rest[1..] == goal.names[|names|+1..];
    if |rest| == 1 {
      SpellsOne(toks, i, Ident(rest[0]), [Punct(")")], goal.end);
      LastToken(toks, Next(toks, i), Punct(")"), goal.end);
    } else {
      SpellsOne(toks, i, Ident(rest[0]), [Punct(",")] + PrintNames(rest[1..]), goal.end);
      SpellsOne(toks, Next(toks, i), Punct(","), PrintNames(rest[1..]), goal.end);
    }
  }

  lemma {:induction false} ArmShape(toks: seq<Token>, i: nat, goal: ArmGoal) returns (pattern: PatternGoal, body: Goal)
    requires goal.PrintedArm? && ArmAhead(goal, toks, i)
    ensures pattern.PrintedPattern? && pattern.pattern == goal.arm.pattern && PatternAhead(pattern, toks, i)
    ensures PunctAt(toks, pattern.end, "=>")
    ensures body == Printed(goal.arm.body, goal.end) && GoalAhead(body, toks, Next(toks, pattern.end), LIST)
  {
    hide Next, Print, PrintPattern, IsTree, IsPattern;
    var arm := goal.arm;
    var tail := [Punct("=>")] + Print(arm.body, LIST);
    var m := SpellsSplit(toks, i, PrintPattern(arm.pattern), tail, goal.end);
    SpellsOne(toks, m, Punct("=>"), Print(arm.body, LIST), goal.end);
    pattern, body := PrintedPattern(arm.pattern, m), Printed(arm.body, goal.end);
  }

  /** The first arms have been read as they are; then the rest is ahead, or the brace that closes them. */
  ghost predicate ArmsRead(goal: ArmsGoal, toks: seq<Token>, i: nat, arms: seq<Arm>)
    requires goal.PrintedArms?
  {
    && |arms| <= |goal.arms| && AreArms(goal.arms) && goal.end < |toks|
    && (forall k | 0 <= k < |arms| :: SameArm(arms[k], goal.arms[k]) && IsReadable(goal.arms[k].pattern))
    && Spells(toks, i, PrintArms(goal.arms[|arms|..]), goal.end)
  }

  /** The next arm can be read back. */
  ghost predicate ReadsOn(goal: ArmsGoal, arms: seq<Arm>)
    requires goal.PrintedArms?
  {
    |arms| < |goal.arms| && IsArm(goal.arms[|arms|]) && IsReadable(goal.arms[|arms|].pattern)
  }

  /** Some arm has been taken for another. */
  ghost predicate GoneWrong(goal: ArmsGoal, arms: seq<Arm>)
    requires goal.PrintedArms?
  {
    && AreArms(goal.arms) && !AllReadable(goal.arms)
    && exists k :: 0 <= k < |arms| && k < |goal.arms| && !SameArm(arms[k], goal.arms[k])
  }

  lemma {:induction false} NoneRead(toks: seq<Token>, i: nat, goal: ArmsGoal)
    requires goal.PrintedArms? && ArmsAhead(goal, toks, i)
    ensures ArmsRead(goal, toks, i, []) && i < |toks|
    ensures toks[i].kind == Punct("}") ==> goal.arms == []
  {
    hide Spells, IsArm;
    assert goal.arms[0..] == goal.arms;
    if goal.arms != [] {
      var arm := NextArm(toks, i, goal, []);
    } else {
      LastToken(toks, i, Punct("}"), goal.end);
    }
  }

  /** The next arm is ahead, and behind it come a comma and the rest, or the brace. */
  lemma {:induction false} NextArm(toks: seq<Token>, i: nat, goal: ArmsGoal, arms: seq<Arm>) returns (arm: ArmGoal)
    requires goal.PrintedArms? && ArmsRead(goal, toks, i, arms)
    ensures i < |toks| && toks[i].kind != Eof
    ensures if |arms| == |goal.arms| then toks[i].kind == Punct("}") && Next(toks, i) == goal.end
            else
              && toks[i].kind != Punct("}")
              && arm.PrintedArm? && arm.arm == goal.arms[|arms|] && ArmAhead(arm, toks, i) && i < arm.end
              && ArmFollowed(goal, toks, |arms|, arm.end)
  {
    hide Next, Print, PrintPattern, IsTree, IsPattern, SameArm;
    arm := NoArm;
    var rest := goal.arms[|arms|..];
    if rest == [] {
      LastToken(toks, i, Punct("}"), goal.end);
    } else {
      assert rest[0] == goal.arms[|arms|] && rest[1..] == goal.arms[|arms|+1..];
      var tail := if |rest| == 1 then [Punct("}")] else [Punct(",")] + PrintArms(rest[1..]);
      var m := SpellsSplit(toks, i, PrintArm(rest[0]), tail, goal.end);
      arm := PrintedArm(rest[0], m);
      ArmBegins(rest[0]);
      FirstSpelled(toks, i, PrintArm(rest[0]), m);
      SpellsForward(toks, i, PrintArm(rest[0]), m);
      if |rest| == 1 {
        SpellsOne(toks, m, Punct("}"), [], goal.end);
        assert rest[1..] == [];
      } else {
        SpellsOne(toks, m, Punct(","), PrintArms(rest[1..]), goal.end);
      }
    }
  }

  ghost predicate ArmFollowed(goal: ArmsGoal, toks: seq<Token>, k: nat, i: nat)
    requires goal.PrintedArms? && k < |goal.arms| && AreArms(goal.arms)
  {
    i < |toks| &&
    if k + 1 == |goal.arms| then toks[i].kind == Punct("}") && Next(toks, i) == goal.end
    else toks[i].kind == Punct(",") && Spells(toks, Next(toks, i), PrintArms(goal.arms[k+1..]), goal.end)
  }

  lemma {:induction false} ArmBegins(a: Arm)
    requires IsArm(a)
    ensures PrintArm(a) != [] && PrintArm(a)[0] !in {Punct("}"), Eof}
  {
    hide Print, IsTree;
    if a.pattern.CondArm? {
      FirstTokens(a.pattern.condition, 0);
    }
    assert PrintArm(a)[0] == PrintPattern(a.pattern)[0];
  }

  lemma {:induction false} ArmRead(
      toks: seq<Token>, i: nat, j: nat, goal: ArmsGoal, arms: seq<Arm>, armGoal: ArmGoal, arm: Arm, quiet: bool)
    requires goal.PrintedArms? && ArmsRead(goal, toks, i, arms) && |arms| < |goal.arms|
    requires armGoal.PrintedArm? && armGoal.arm == goal.arms[|arms|] && i < armGoal.end
    requires ArmFollowed(goal, toks, |arms|, armGoal.end) && ArmMet(armGoal, arm, j, quiet)
    ensures if ReadsOn(goal, arms) then
              && quiet && i < j < |toks|
              && ArmsRead(goal, toks, if toks[j].kind == Punct(",") then Next(toks, j) else j, arms + [arm])
            else GoneWrong(goal, arms + [arm])
  {
    hide Next, PrintArm, SameArm, IsReadable, IsPattern, IsTree;
    var k := |arms|;
    var now := arms + [arm];
    if ReadsOn(goal, arms) {
      forall l | 0 <= l < |now| ensures SameArm(now[l], goal.arms[l]) && IsReadable(goal.arms[l].pattern) {
        assert IsArm(goal.arms[l]);
        assert l < k ==> now[l] == arms[l];
      }
      if k + 1 == |goal.arms| {
        assert goal.arms[k+1..] == [];
        SpelledLast(toks, j, Punct("}"));
      }
    } else {
      assert IsArm(goal.arms[k]);
      assert !SameArm(now[k], goal.arms[k]);
    }
  }

  lemma {:induction false} StaysWrong(goal: ArmsGoal, arms: seq<Arm>, more: seq<Arm>)
    requires goal.PrintedArms? && GoneWrong(goal, arms) && |arms| <= |more| && more[..|arms|] == arms
    ensures GoneWrong(goal, more)
  {
    hide SameArm, AllReadable;
    var k :| 0 <= k < |arms| && k < |goal.arms| && !SameArm(arms[k], goal.arms[k]);
    assert more[k] == arms[k];
  }

  lemma {:induction false} AllArmsRead(toks: seq<Token>, i: nat, goal: ArmsGoal, arms: seq<Arm>)
    requires goal.PrintedArms? && ArmsRead(goal, toks, i, arms)
    requires i < |toks| && (toks[i].kind == Punct("}") || toks[i].kind == Eof)
    ensures toks[i].kind == Punct("}") && Next(toks, i) == goal.end
    ensures SameArms(arms, goal.arms) && AreArms(goal.arms) && AllReadable(goal.arms)
  {
    var arm := NextArm(toks, i, goal, arms);
    hide SameArm, IsReadable, Spells;
  }

  lemma {:induction false} ArmsEnd(
      toks: seq<Token>, i: nat, goal: ArmsGoal, left: ArmsGoal, arms: seq<Arm>, quiet: bool)
    requires left.PrintedArms? ==>
               && left == goal && quiet && i < |toks| && toks[i].kind == Punct("}") && Next(toks, i) == goal.end
               && SameArms(arms, goal.arms) && AreArms(goal.arms) && AllReadable(goal.arms)
    requires goal.PrintedArms? && left.NoArms? ==> GoneWrong(goal, arms)
    ensures ArmsMet(goal, arms, goal.PrintedArms? && i < |toks| && toks[i].kind == Punct("}") &&
                                Next(toks, i) == goal.end && quiet)
  {
    hide SameArm, AllReadable, Next;
    if goal.PrintedArms? && left.NoArms? {
      var k :| 0 <= k < |arms| && k < |goal.arms| && !SameArm(arms[k], goal.arms[k]);
    }
  }

  lemma {:induction false} MetStill(goal: ArmsGoal, arms: seq<Arm>, met: bool, still: bool)
    requires ArmsMet(goal, arms, met) && (met ==> still)
    ensures ArmsMet(goal, arms, still)
  {
    hide SameArms, AllReadable, AreArms;
  }

  lemma {:induction false} ArmsAreMet(goal: ArmsGoal, arms: seq<Arm>, i: nat, quiet: bool)
    requires ArmsMet(goal, arms, goal.PrintedArms? && i == goal.end && quiet)
    ensures goal.PrintedArms? ==>
              AreArms(goal.arms) &&
              if AllReadable(goal.arms) then SameArms(arms, goal.arms) && i == goal.end && quiet
              else !SameArms(arms, goal.arms)
  {
    hide SameArms, AllReadable, AreArms;
  }

  /** What the parts of a branch are read with. */
  datatype Parts = Parts(condition: Goal, body: Goal, braced: ArmsGoal)

  lemma {:induction false} BranchShape(toks: seq<Token>, i: nat, goal: BranchGoal) returns (parts: Parts)
    requires goal != NoBranch && BranchAhead(goal, toks, i)
    ensures i < |toks| && Next(toks, i) < |toks|
    ensures if toks[Next(toks, i)].kind == Punct("{") then
              && goal.PrintedBranch? && goal.scrutinee == None && parts.braced == PrintedArms(goal.arms, goal.end)
              && ArmsAhead(parts.braced, toks, Next(toks, Next(toks, i)))
            else ConditionNext(goal, parts, toks, Next(toks, i))
  {
    hide Next, Print, PrintArms, IsTree, AreArms;
    match goal {
      case PrintedGuard(condition, body, end) =>
        var tail := [Punct("=>")] + Print(body, 0);
        var m := ConditionAhead(toks, i, condition, tail, end);
        SpellsOne(toks, m, Punct("=>"), Print(body, 0), end);
        parts := Parts(Printed(condition, m), Printed(body, end), NoArms);
      case PrintedBranch(None, arms, end) =>
        SpellsOne(toks, i, Punct("?"), [Punct("{")] + PrintArms(arms), end);
        SpellsOne(toks, Next(toks, i), Punct("{"), PrintArms(arms), end);
        parts := Parts(NoGoal, NoGoal, PrintedArms(arms, end));
      case PrintedBranch(Some(e), arms, end) =>
        var braced := [Punct("{")] + PrintArms(arms);
        var m := ConditionAhead(toks, i, e, [Keyword("is")] + braced, end);
        SpellsOne(toks, m, Keyword("is"), braced, end);
        SpellsOne(toks, Next(toks, m), Punct("{"), PrintArms(arms), end);
        parts := Parts(Printed(e, m), NoGoal, PrintedArms(arms, end));
    }
  }

  /** A guard or a match is ahead, from its condition on. */
  ghost predicate ConditionNext(goal: BranchGoal, parts: Parts, toks: seq<Token>, i: nat)
  {
    && GoalAhead(parts.condition, toks, i, LIST)
    && match goal
       case NoBranch => parts == Parts(NoGoal, NoGoal, NoArms)
       case PrintedGuard(condition, body, end) =>
         && parts.condition.Printed? && parts.condition.tree == condition && PunctAt(toks, parts.condition.end, "=>")
         && parts.body == Printed(body, end) && parts.braced == NoArms
         && GoalAhead(parts.body, toks, Next(toks, parts.condition.end), 0)
       case PrintedBranch(scrutinee, arms, end) =>
         && parts.condition.Printed? && scrutinee == Some(parts.condition.tree) && parts.body == NoGoal
         && parts.braced == PrintedArms(arms, end)
         && var n := parts.condition.end;
            && n < |toks| && toks[n].kind == Keyword("is") && PunctAt(toks, Next(toks, n), "{")
            && ArmsAhead(parts.braced, toks, Next(toks, Next(toks, n)))
  }

  lemma {:induction false} ConditionAhead(toks: seq<Token>, i: nat, e: Expr, tail: seq<TokenKind>, end: nat)
    returns (m: nat)
    requires IsTree(e) && Spells(toks, i, [Punct("?")] + (Print(e, LIST) + tail), end)
    requires tail != [] && tail[0] in {Punct("=>"), Keyword("is")}
    ensures i < |toks| && Next(toks, i) < |toks| && toks[Next(toks, i)].kind != Punct("{")
    ensures GoalAhead(Printed(e, m), toks, Next(toks, i), LIST) && Spells(toks, m, tail, end) && m < |toks|
  {
    hide Next, Print, IsTree;
    SpellsOne(toks, i, Punct("?"), Print(e, LIST) + tail, end);
    m := SpellsSplit(toks, Next(toks, i), Print(e, LIST), tail, end);
    FirstTokens(e, LIST);
    FirstSpelled(toks, Next(toks, i), Print(e, LIST), m);
    FirstSpelled(toks, m, tail, end);
  }

  lemma {:induction false} GuardIsMet(goal: BranchGoal, condition: Expr, body: Expr)
    requires goal.PrintedGuard? ==> Same(condition, goal.condition) && Same(body, goal.body)
    ensures goal.PrintedGuard? ==>
              SameArms([Arm(CondArm(condition), body)], [Arm(CondArm(goal.condition), goal.body)])
  {
    hide Same;
  }

  datatype LoopParts = LoopParts(subject: Goal, block: BlockGoal)

  /** Unless the subject is taken for a tag: where it is, and the block. */
  lemma {:induction false} LoopShape(toks: seq<Token>, i: nat, goal: LoopGoal) returns (parts: LoopParts)
    requires Ended(toks) && goal.PrintedLoop? && LoopAhead(goal, toks, i)
    ensures i < |toks| && Next(toks, i) < |toks| && (goal.subject.Some? ==> IsTree(goal.subject.value))
    ensures if SubjectIsTag(goal.tag, goal.subject) then
              toks[Next(toks, i)].kind.Ident? && parts == LoopParts(NoGoal, NoBlock)
            else
              && NameOf(toks[Next(toks, i)].kind) == goal.tag
              && (goal.tag.Some? ==> PunctAt(toks, Next(toks, Next(toks, i)), "@"))
              && SubjectAhead(toks, if goal.tag.Some? then Next(toks, Next(toks, Next(toks, i))) else Next(toks, i),
                              goal, parts)
  {
    hide Next, Print, PrintStmts, IsTree, AreBlockStmts, AreSeparated;
    var block := PrintBlock(goal.stmts);
    var rest := (if goal.subject.Some? then Print(goal.subject.value, LIST) else []) + block;
    var tagged := if goal.tag.Some? then [Ident(goal.tag.value)] + [Punct("@")] else [];
    SpellsOne(toks, i, Punct("@"), tagged + rest, goal.end);
    var m := SpellsSplit(toks, Next(toks, i), tagged, rest, goal.end);
    if goal.tag.Some? {
      SpellsOne(toks, Next(toks, i), Ident(goal.tag.value), [Punct("@")], m);
      LastToken(toks, Next(toks, Next(toks, i)), Punct("@"), m);
    }
    FirstSpelled(toks, m, rest, goal.end);
    if goal.subject.Some? {
      FirstTokens(goal.subject.value, LIST);
      assert rest[0] == Print(goal.subject.value, LIST)[0];
    }
    if SubjectIsTag(goal.tag, goal.subject) {
      parts := LoopParts(NoGoal, NoBlock);
    } else {
      parts := SubjectShape(toks, m, goal);
    }
  }

  /** The subject is ahead, if there is one, and then the block. */
  ghost predicate SubjectAhead(toks: seq<Token>, i: nat, goal: LoopGoal, parts: LoopParts)
    requires goal.PrintedLoop?
  {
    && i < |toks| && parts.block == PrintedBlock(goal.stmts, goal.end)
    && match goal.subject {
         case None => toks[i].kind == Punct("{") && parts.subject == NoGoal && BlockAhead(parts.block, toks, i)
         case Some(e) =>
           && toks[i].kind != Punct("{") && parts.subject.Printed? && parts.subject.tree == e
           && GoalAhead(parts.subject, toks, i, LIST) && BlockAhead(parts.block, toks, parts.subject.end)
       }
  }

  lemma {:induction false} BraceStops()
    ensures Stops(Punct("{"), LIST)
  {
  }

  lemma {:induction false} SubjectShape(toks: seq<Token>, i: nat, goal: LoopGoal) returns (parts: LoopParts)
    requires goal.PrintedLoop? && AreBlockStmts(goal.stmts) && AreSeparated(goal.stmts) && goal.end < |toks|
    requires goal.subject.Some? ==> IsTree(goal.subject.value)
    requires Spells(toks, i, (if goal.subject.Some? then Print(goal.subject.value, LIST) else []) +
                             PrintBlock(goal.stmts), goal.end)
    ensures SubjectAhead(toks, i, goal, parts)
  {
    hide Next, Print, PrintStmts, IsTree, AreBlockStmts, AreSeparated, Stops;
    var block, blockGoal := PrintBlock(goal.stmts), PrintedBlock(goal.stmts, goal.end);
    if goal.subject.None? {
      assert [] + block == block;
      SpellsOne(toks, i, Punct("{"), PrintStmts(goal.stmts), goal.end);
      parts := LoopParts(NoGoal, blockGoal);
      assert BlockAhead(blockGoal, toks, i);
    } else {
      var e := goal.subject.value;
      var m := SpellsSplit(toks, i, Print(e, LIST), block, goal.end);
      FirstTokens(e, LIST);
      FirstSpelled(toks, i, Print(e, LIST), m);
      SpellsOne(toks, m, Punct("{"), PrintStmts(goal.stmts), goal.end);
      parts := LoopParts(Printed(e, m), blockGoal);
      BraceStops();
    }
  }

  lemma {:induction false} LoopIsMet(goal: LoopGoal, e: Expr, i: nat, quiet: bool)
    requires e.Loop? && e.body.Block?
    requires goal.PrintedLoop? ==>
               && (goal.subject.Some? ==> IsTree(goal.subject.value))
               && if SubjectIsTag(goal.tag, goal.subject) then e.tag.Some?
                  else
                    && e.tag == goal.tag && SameSubject(e.subject, goal.subject)
                    && if EndsInMatch(goal.stmts) then |e.body.stmts| > |goal.stmts|
                       else SameStmts(e.body.stmts, goal.stmts) && i == goal.end && quiet
    ensures LoopMet(goal, e, i, quiet)
  {
    hide Print, IsTree, SubjectIsTag, SameSubject, EndsInMatch, SameBlockStmt;
  }

  // ----- Printing, then parsing -----

  /** Any tree, printed with the parentheses it needs, is read back: the same tree, all of the tokens,
      and no report. */
  method ParsePrinted(tree: Expr, spans: seq<Span>) returns (e: Expr, p: Parser)
    requires IsTree(tree) && |spans| == |Print(tree, 0)| + 1
    ensures Same(e, tree) && fresh(p) && p.Valid() && p.pos == |p.toks| - 1 && p.sink.log == []
    ensures Kinds(p.toks) == Print(tree, 0) + [Eof]
  {
    var kinds := Print(tree, 0) + [Eof];
    var toks := seq(|kinds|, i requires 0 <= i < |kinds| => Token(kinds[i], spans[i]));
    PrintedAhead(tree, toks);
    hide *;
    var sink := new DiagSink(None);
    p := new Parser(toks, sink);
    e := p.ParseExpr(Printed(tree, |toks| - 1));
    GoalWasMet(tree, |toks| - 1, e, p.pos);
  }

  /** Two operators in a row group to the left exactly when the second is in the tier of the first or in a
      looser one; otherwise to the right. */
  method ParseTwoOperators(x: Expr, p: string, y: Expr, q: string, z: Expr, spans: seq<Span>)
    returns (e: Expr, reader: Parser)
    requires IsAtom(x) && IsAtom(y) && IsAtom(z) && IsOperator(p) && IsOperator(q) && |spans| == 6
    ensures Kinds(reader.toks) ==
            [AtomToken(x), OperatorToken(p), AtomToken(y), OperatorToken(q), AtomToken(z)] + [Eof]
    ensures Same(e, if Tier(q) <= Tier(p) then Binary(q, Binary(p, x, y), z) else Binary(p, x, Binary(q, y, z)))
    ensures reader.sink.log == []
  {
    hide Print, Tier, IsOperator, IsAtom, AtomToken, Same, Kinds;
    AtomIsTree(x);
    AtomIsTree(y);
    AtomIsTree(z);
    ParenthesesExactlyWhenNeeded(x, y, z, p, q);
    var tree := if Tier(q) <= Tier(p) then Joined(q, Joined(p, x, y), z) else Joined(p, x, Joined(q, y, z));
    e, reader := ParsePrinted(tree, spans);
  }

  lemma {:induction false} AtomIsTree(e: Expr)
    requires IsAtom(e)
    ensures IsTree(e)
  {
  }

  lemma {:induction false} GoalWasMet(tree: Expr, end: nat, e: Expr, i: nat)
    requires GoalMet(Printed(tree, end), e, i)
    ensures Same(e, tree) && i == end
  {
  }

  lemma {:induction false} PrintedAhead(tree: Expr, toks: seq<Token>)
    requires IsTree(tree) && |toks| == |Print(tree, 0)| + 1
    requires forall k | 0 <= k < |toks| :: toks[k].kind == (Print(tree, 0) + [Eof])[k]
    ensures Ended(toks) && PastComments(toks, 0) == 0 && Kinds(toks) == Print(tree, 0) + [Eof]
    ensures GoalAhead(Printed(tree, |toks| - 1), toks, 0, 0)
  {
    hide Print, IsTree;
    PrintHasNoComment(tree, 0);
    forall k | 0 <= k < |toks| ensures toks[k].kind != Comment {
      assert k < |Print(tree, 0)| ==> Print(tree, 0)[k] in Print(tree, 0);
    }
    PlainSpells(toks, 0, Print(tree, 0));
  }

  /** A block of such statements, each closed off from the next, is read back as it is exactly when the last
      one is not a match: behind a match the closing brace is taken for the start of a statement. */
  method ParsePrintedBlock(stmts: seq<Stmt>, spans: seq<Span>) returns (e: Expr, p: Parser)
    requires AreBlockStmts(stmts) && AreSeparated(stmts) && |spans| == |PrintBlock(stmts)| + 1
    ensures fresh(p) && p.Valid() && Kinds(p.toks) == PrintBlock(stmts) + [Eof] && e.Block?
    ensures SameStmts(e.stmts, stmts) <==> !EndsInMatch(stmts)
    ensures !EndsInMatch(stmts) ==> p.pos == |p.toks| - 1 && p.sink.log == []
  {
    var kinds := PrintBlock(stmts) + [Eof];
    var toks := seq(|kinds|, i requires 0 <= i < |kinds| => Token(kinds[i], spans[i]));
    BlockIsAhead(stmts, toks);
    hide *;
    var sink := new DiagSink(None);
    p := new Parser(toks, sink);
    e := p.ParseBlock(PrintedBlock(stmts, |toks| - 1));
    SameLength(e.stmts, stmts);
  }

  lemma {:induction false} SameLength(ss: seq<Stmt>, ts: seq<Stmt>)
    ensures SameStmts(ss, ts) ==> |ss| == |ts|
  {
  }

  lemma {:induction false} BlockIsAhead(stmts: seq<Stmt>, toks: seq<Token>)
    requires AreBlockStmts(stmts) && AreSeparated(stmts) && |toks| == |PrintBlock(stmts)| + 1
    requires forall k | 0 <= k < |toks| :: toks[k].kind == (PrintBlock(stmts) + [Eof])[k]
    ensures Ended(toks) && PastComments(toks, 0) == 0 && Kinds(toks) == PrintBlock(stmts) + [Eof]
    ensures BlockAhead(PrintedBlock(stmts, |toks| - 1), toks, 0)
  {
    hide PrintStmts, AreSeparated, AreBlockStmts;
    StmtsHaveNoComment(stmts);
    var ks := PrintBlock(stmts);
    OneNoGap(Punct("{"));
    NoGapsJoin([Punct("{")], PrintStmts(stmts));
    forall k | 0 <= k < |toks| ensures toks[k].kind != Comment {
      assert k < |ks| ==> ks[k] in ks;
    }
    PlainSpells(toks, 0, ks);
  }

  function TokensOf(ks: seq<TokenKind>, spans: seq<Span>): (toks: seq<Token>)
    requires |spans| == |ks| + 1
    ensures Kinds(toks) == ks + [Eof]
  {
    seq(|ks| + 1, i requires 0 <= i <= |ks| => Token((ks + [Eof])[i], spans[i]))
  }

  lemma {:induction false} KindsAhead(ks: seq<TokenKind>, spans: seq<Span>)
    requires |spans| == |ks| + 1 && NoGaps(ks)
    ensures var toks := TokensOf(ks, spans);
            && Ended(toks) && PastComments(toks, 0) == 0 && Spells(toks, 0, ks, |ks|)
            && |toks| == |ks| + 1 && toks[|ks|].kind == Eof
  {
    var toks := TokensOf(ks, spans);
    forall k | 0 <= k < |toks| ensures toks[k].kind != Comment {
      assert k < |ks| ==> ks[k] in ks;
    }
    PlainSpells(toks, 0, ks);
  }

  lemma {:induction false} NothingEndsAtEof(min: nat)
    ensures Stops(Eof, min)
  {
  }

  /** A guard is read back as it is. */
  method ParsePrintedGuard(condition: Expr, body: Expr, spans: seq<Span>) returns (e: Expr, p: Parser)
    requires IsTree(condition) && IsTree(body) && |spans| == |PrintGuard(condition, body)| + 1
    ensures fresh(p) && p.Valid() && Kinds(p.toks) == PrintGuard(condition, body) + [Eof]
    ensures IsBranch(e, None, [Arm(CondArm(condition), body)]) && p.pos == |p.toks| - 1 && p.sink.log == []
  {
    var ks := PrintGuard(condition, body);
    GuardHasNoComment(condition, body);
    KindsAhead(ks, spans);
    NothingEndsAtEof(0);
    var toks := TokensOf(ks, spans);
    ghost var goal := PrintedGuard(condition, body, |ks|);
    assert BranchAhead(goal, toks, 0);
    BranchBegins(toks, goal);
    hide *;
    var sink := new DiagSink(None);
    p := new Parser(toks, sink);
    e := p.ParseBranch(goal);
    BranchWasMet(goal, e, p.pos, p.sink.log == []);
  }

  /** A branch with arms is read back as it is exactly when every condition among its patterns starts like one. */
  method ParsePrintedBranch(scrutinee: Option<Expr>, arms: seq<Arm>, spans: seq<Span>) returns (e: Expr, p: Parser)
    requires (scrutinee.Some? ==> IsTree(scrutinee.value)) && AreArms(arms)
    requires |spans| == |PrintBranch(scrutinee, arms)| + 1
    ensures fresh(p) && p.Valid() && Kinds(p.toks) == PrintBranch(scrutinee, arms) + [Eof]
    ensures IsBranch(e, scrutinee, arms) <==> AllReadable(arms)
    ensures AllReadable(arms) ==> p.pos == |p.toks| - 1 && p.sink.log == []
  {
    var ks := PrintBranch(scrutinee, arms);
    BranchHasNoComment(scrutinee, arms);
    KindsAhead(ks, spans);
    var toks := TokensOf(ks, spans);
    ghost var goal := PrintedBranch(scrutinee, arms, |ks|);
    assert BranchAhead(goal, toks, 0);
    BranchBegins(toks, goal);
    hide *;
    var sink := new DiagSink(None);
    p := new Parser(toks, sink);
    e := p.ParseBranch(goal);
    BranchWasMet(goal, e, p.pos, p.sink.log == []);
  }

  lemma {:induction false} BranchBegins(toks: seq<Token>, goal: BranchGoal)
    requires goal != NoBranch && BranchAhead(goal, toks, 0)
    ensures toks != [] && toks[0].kind != Eof
  {
    hide Next, Print, PrintArms, IsTree, AreArms;
    match goal {
      case PrintedGuard(condition, body, end) => FirstSpelled(toks, 0, PrintGuard(condition, body), end);
      case PrintedBranch(scrutinee, arms, end) => FirstSpelled(toks, 0, PrintBranch(scrutinee, arms), end);
    }
  }

  lemma {:induction false} BranchWasMet(goal: BranchGoal, e: Expr, i: nat, quiet: bool)
    requires BranchMet(goal, e, i, quiet)
    ensures goal.PrintedGuard? ==>
              IsBranch(e, None, [Arm(CondArm(goal.condition), goal.body)]) && i == goal.end && quiet
    ensures goal.PrintedBranch? ==>
              && AreArms(goal.arms) && (IsBranch(e, goal.scrutinee, goal.arms) <==> AllReadable(goal.arms))
              && (AllReadable(goal.arms) ==> i == goal.end && quiet)
  {
    hide IsBranch, AllReadable, AreArms;
  }

  /** A loop is read back as it is exactly when its subject is not taken for a tag and its block does not end
      in a match. */
  method ParsePrintedLoop(tag: Option<string>, subject: Option<Expr>, stmts: seq<Stmt>, spans: seq<Span>)
    returns (e: Expr, p: Parser)
    requires (subject.Some? ==> IsTree(subject.value)) && AreBlockStmts(stmts) && AreSeparated(stmts)
    requires |spans| == |PrintLoop(tag, subject, stmts)| + 1
    ensures fresh(p) && p.Valid() && Kinds(p.toks) == PrintLoop(tag, subject, stmts) + [Eof]
    ensures IsLoop(e, tag, subject, stmts) <==> !SubjectIsTag(tag, subject) && !EndsInMatch(stmts)
    ensures IsLoop(e, tag, subject, stmts) ==> p.pos == |p.toks| - 1 && p.sink.log == []
  {
    var ks := PrintLoop(tag, subject, stmts);
    LoopHasNoComment(tag, subject, stmts);
    KindsAhead(ks, spans);
    var toks := TokensOf(ks, spans);
    ghost var goal := PrintedLoop(tag, subject, stmts, |ks|);
    assert LoopAhead(goal, toks, 0);
    FirstSpelled(toks, 0, ks, |ks|);
    hide *;
    var sink := new DiagSink(None);
    p := new Parser(toks, sink);
    e := p.ParseLoop(goal);
    LoopWasMet(goal, e, p.pos, p.sink.log == []);
  }

  lemma {:induction false} LoopWasMet(goal: LoopGoal, e: Expr, i: nat, quiet: bool)
    requires goal.PrintedLoop? && LoopMet(goal, e, i, quiet)
    ensures goal.subject.Some? ==> IsTree(goal.subject.value)
    ensures IsLoop(e, goal.tag, goal.subject, goal.stmts) <==>
              !SubjectIsTag(goal.tag, goal.subject) && !EndsInMatch(goal.stmts)
    ensures IsLoop(e, goal.tag, goal.subject, goal.stmts) ==> i == goal.end && quiet
  {
    hide SameStmts, Same, Print, IsTree, EndsInMatch;
  }

  lemma {:induction false} LoopHasNoComment(tag: Option<string>, subject: Option<Expr>, stmts: seq<Stmt>)
    requires (subject.Some? ==> IsTree(subject.value)) && AreBlockStmts(stmts)
    ensures NoGaps(PrintLoop(tag, subject, stmts))
  {
    hide NoGaps, Print, PrintStmts, IsTree, AreBlockStmts;
    StmtsHaveNoComment(stmts);
    OneNoGap(Punct("{"));
    OneNoGap(Punct("@"));
    NoGapsJoin([Punct("{")], PrintStmts(stmts));
    var head := if subject.Some? then Print(subject.value, LIST) else [];
    var tagged := if tag.Some? then [Ident(tag.value)] + [Punct("@")] else [];
    if subject.Some? {
      PrintHasNoComment(subject.value, LIST);
    } else {
      NothingHasNoGap();
    }
    if tag.Some? {
      OneNoGap(Ident(tag.value));
      NoGapsJoin([Ident(tag.value)], [Punct("@")]);
    } else {
      NothingHasNoGap();
    }
    NoGapsJoin(head, PrintBlock(stmts));
    NoGapsJoin(tagged, head + PrintBlock(stmts));
    NoGapsJoin([Punct("@")], tagged + (head + PrintBlock(stmts)));
  }

  lemma {:induction false} NothingHasNoGap()
    ensures NoGaps([])
  {
  }

  lemma {:induction false} StmtsHaveNoComment(ss: seq<Stmt>)
    requires AreBlockStmts(ss)
    ensures NoGaps(PrintStmts(ss))
    decreases ss
  {
    hide NoGaps, PrintStmt, PrintMatch, IsPlainStmt, IsMatch;
    if ss == [] {
      OneNoGap(Punct("}"));
    } else {
      StmtsHaveNoComment(ss[1..]);
      if IsMatch(ss[0]) {
        MatchHasNoComment(ss[0]);
      } else {
        StmtHasNoComment(ss[0]);
      }
      NoGapsJoin(PrintBlockStmt(ss[0]), PrintStmts(ss[1..]));
    }
  }

  lemma {:induction false} MatchHasNoComment(s: Stmt)
    requires IsMatch(s)
    ensures NoGaps(PrintMatch(s))
  {
    hide Print, IsTree;
    PrintHasNoComment(s.expr.scrutinee.value, LIST);
  }

  lemma {:induction false} TypeHasNoComment(t: TypeExpr)
    requires Writable(t)
    ensures NoGaps(PrintType(t))
    decreases t
  {
    hide Digits;
    match t {
      case NamedType(_) =>
      case BorrowType(inner) => TypeHasNoComment(inner);
      case OwnType(inner) => TypeHasNoComment(inner);
      case ArrayType(elem, _) => TypeHasNoComment(elem);
      case SliceType(elem) => TypeHasNoComment(elem);
      case ErrUnionType(_, err) => TypeHasNoComment(err);
    }
  }

  lemma {:induction false} StmtHasNoComment(s: Stmt)
    requires IsPlainStmt(s)
    ensures NoGaps(PrintStmt(s))
  {
    hide Print, IsTree, PrintType, Writable;
    match s {
      case Let(_, _, ty, init) =>
        PrintHasNoComment(init, 0);
        if ty.Some? {
          TypeHasNoComment(ty.value);
        }
      case Assign(target, value, _) =>
        PrintHasNoComment(target, 0);
        PrintHasNoComment(value, 0);
      case Defer(e) => PrintHasNoComment(e, 0);
      case ExprStmt(e) => PrintHasNoComment(e, 0);
    }
  }
}
