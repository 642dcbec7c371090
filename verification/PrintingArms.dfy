/** Printing patterns, arms, branches and loops, and which patterns can be read back at all. */
module PrintingArms {
  import opened Wrappers
  import opened Ast
  import opened Tokens
  import opened Printing

  const WORDS: set<string> := {"true", "false", "nil"}

  // ----- Patterns -----

  /** Every pattern but the wildcard, which has no form of its own: an underscore is a name like others. */
  predicate IsPattern(p: ArmPattern)
  {
    match p
    case LitArm(e) => IsAtom(e) && !e.Path?
    case BindArm(name) => name !in WORDS
    case VariantArm(_, _) => true
    case CondArm(c) => IsTree(c)
    case WildcardArm => false
  }

  function PrintNames(names: seq<string>): seq<TokenKind>
    requires names != []
  {
    if |names| == 1 then [Ident(names[0])] + [Punct(")")]
    else [Ident(names[0])] + ([Punct(",")] + PrintNames(names[1..]))
  }

  function PrintPattern(p: ArmPattern): seq<TokenKind>
    requires IsPattern(p)
  {
    match p
    case LitArm(e) => [AtomToken(e)]
    case BindArm(name) => [Ident(name)]
    case VariantArm(name, names) =>
      [Punct(".")] + ([Ident(name)] + (if names == [] then [] else [Punct("(")] + PrintNames(names)))
    case CondArm(c) => Print(c, 0)
  }

  predicate SamePattern(p: ArmPattern, q: ArmPattern)
  {
    match (p, q)
    case (LitArm(e), LitArm(f)) => e == f
    case (CondArm(c), CondArm(d)) => Same(c, d)
    case _ => p == q
  }

  /** A condition is taken for one unless it starts with a literal, or with a name that no operator mark
      follows. */
  predicate StartsCondition(ks: seq<TokenKind>)
  {
    && ks != [] && !ks[0].Int? && !ks[0].Float? && !ks[0].Str? && !(ks[0].Keyword? && ks[0].word in WORDS)
    && (ks[0].Ident? ==> ks[0].name !in WORDS && |ks| > 1 && ks[1].Punct? && TokenTier(ks[1]).Some?)
  }

  predicate IsReadable(p: ArmPattern)
    requires IsPattern(p)
  {
    p.CondArm? ==> StartsCondition(Print(p.condition, 0))
  }

  // ----- Arms -----

  predicate IsArm(a: Arm) { IsPattern(a.pattern) && IsTree(a.body) }

  function PrintArm(a: Arm): seq<TokenKind>
    requires IsArm(a)
  {
    PrintPattern(a.pattern) + ([Punct("=>")] + Print(a.body, LIST))
  }

  predicate AreArms(arms: seq<Arm>) { forall i | 0 <= i < |arms| :: IsArm(arms[i]) }

  /** Arms with commas between them, up to the brace that closes them. */
  function PrintArms(arms: seq<Arm>): seq<TokenKind>
    requires AreArms(arms)
  {
    if arms == [] then [Punct("}")]
    else if |arms| == 1 then PrintArm(arms[0]) + [Punct("}")]
    else PrintArm(arms[0]) + ([Punct(",")] + PrintArms(arms[1..]))
  }

  predicate SameArm(a: Arm, b: Arm) { SamePattern(a.pattern, b.pattern) && Same(a.body, b.body) }

  predicate SameArms(xs: seq<Arm>, ys: seq<Arm>)
  {
    |xs| == |ys| && forall i | 0 <= i < |xs| :: SameArm(xs[i], ys[i])
  }

  predicate AllReadable(arms: seq<Arm>)
    requires AreArms(arms)
  {
    forall i | 0 <= i < |arms| :: IsReadable(arms[i].pattern)
  }

  // ----- Branches and loops -----

  /** `? condition => body`. */
  function PrintGuard(condition: Expr, body: Expr): seq<TokenKind>
    requires IsTree(condition) && IsTree(body)
  {
    [Punct("?")] + (Print(condition, LIST) + ([Punct("=>")] + Print(body, 0)))
  }

  /** `? { arms }`, or `? e is { arms }`. */
  function PrintBranch(scrutinee: Option<Expr>, arms: seq<Arm>): seq<TokenKind>
    requires (scrutinee.Some? ==> IsTree(scrutinee.value)) && AreArms(arms)
  {
    var braced := [Punct("{")] + PrintArms(arms);
    [Punct("?")] + if scrutinee.Some? then Print(scrutinee.value, LIST) + ([Keyword("is")] + braced) else braced
  }

  /** `@ tag @ e { }`, with neither, either or both in front of the block. */
  function PrintLoop(tag: Option<string>, subject: Option<Expr>, stmts: seq<Stmt>): seq<TokenKind>
    requires (subject.Some? ==> IsTree(subject.value)) && AreBlockStmts(stmts)
  {
    [Punct("@")] + ((if tag.Some? then [Ident(tag.value)] + [Punct("@")] else []) +
                    ((if subject.Some? then Print(subject.value, LIST) else []) + PrintBlock(stmts)))
  }

  /** Without a tag, a subject that starts with a name has that name taken for the tag. */
  predicate SubjectIsTag(tag: Option<string>, subject: Option<Expr>)
    requires subject.Some? ==> IsTree(subject.value)
  {
    tag.None? && subject.Some? && Print(subject.value, LIST) != [] && Print(subject.value, LIST)[0].Ident?
  }

  // ----- Nothing in between -----

  lemma {:induction false} NamesHaveNoComment(names: seq<string>)
    requires names != []
    ensures NoGaps(PrintNames(names))
  {
    if |names| > 1 {
      NamesHaveNoComment(names[1..]);
    }
  }

  lemma {:induction false} PatternHasNoComment(p: ArmPattern)
    requires IsPattern(p)
    ensures NoGaps(PrintPattern(p))
  {
    hide Print, IsTree, PrintNames;
    match p {
      case CondArm(c) => PrintHasNoComment(c, 0);
      case VariantArm(_, names) =>
        if names != [] {
          NamesHaveNoComment(names);
        }
      case _ =>
    }
  }

  lemma {:induction false} ArmHasNoComment(a: Arm)
    requires IsArm(a)
    ensures NoGaps(PrintArm(a))
  {
    hide NoGaps, Print, PrintPattern, IsTree, IsPattern;
    PatternHasNoComment(a.pattern);
    PrintHasNoComment(a.body, LIST);
    OneNoGap(Punct("=>"));
    NoGapsJoin([Punct("=>")], Print(a.body, LIST));
    NoGapsJoin(PrintPattern(a.pattern), [Punct("=>")] + Print(a.body, LIST));
  }

  lemma {:induction false} ArmsHaveNoComment(arms: seq<Arm>)
    requires AreArms(arms)
    ensures NoGaps(PrintArms(arms))
  {
    hide NoGaps, PrintArm, IsArm;
    OneNoGap(Punct("}"));
    OneNoGap(Punct(","));
    if arms != [] {
      ArmHasNoComment(arms[0]);
      if |arms| == 1 {
        NoGapsJoin(PrintArm(arms[0]), [Punct("}")]);
      } else {
        ArmsHaveNoComment(arms[1..]);
        NoGapsJoin([Punct(",")], PrintArms(arms[1..]));
        NoGapsJoin(PrintArm(arms[0]), [Punct(",")] + PrintArms(arms[1..]));
      }
    }
  }

  lemma {:induction false} GuardHasNoComment(condition: Expr, body: Expr)
    requires IsTree(condition) && IsTree(body)
    ensures NoGaps(PrintGuard(condition, body))
  {
    hide NoGaps, Print, IsTree;
    PrintHasNoComment(condition, LIST);
    PrintHasNoComment(body, 0);
    OneNoGap(Punct("?"));
    OneNoGap(Punct("=>"));
    NoGapsJoin([Punct("=>")], Print(body, 0));
    NoGapsJoin(Print(condition, LIST), [Punct("=>")] + Print(body, 0));
    NoGapsJoin([Punct("?")], Print(condition, LIST) + ([Punct("=>")] + Print(body, 0)));
  }

  lemma {:induction false} BranchHasNoComment(scrutinee: Option<Expr>, arms: seq<Arm>)
    requires (scrutinee.Some? ==> IsTree(scrutinee.value)) && AreArms(arms)
    ensures NoGaps(PrintBranch(scrutinee, arms))
  {
    hide NoGaps, Print, PrintArms, IsTree, AreArms;
    var braced := [Punct("{")] + PrintArms(arms);
    ArmsHaveNoComment(arms);
    OneNoGap(Punct("?"));
    OneNoGap(Punct("{"));
    OneNoGap(Keyword("is"));
    NoGapsJoin([Punct("{")], PrintArms(arms));
    NoGapsJoin([Punct("?")], braced);
    if scrutinee.Some? {
      var tail := [Keyword("is")] + braced;
      PrintHasNoComment(scrutinee.value, LIST);
      NoGapsJoin([Keyword("is")], braced);
      NoGapsJoin(Print(scrutinee.value, LIST), tail);
      NoGapsJoin([Punct("?")], Print(scrutinee.value, LIST) + tail);
    }
  }

  // ----- Conditions and subjects that are taken for something else -----

  /** A call as a condition: its callee is taken for a binding. */
  lemma {:induction false} CallIsTakenForBinding(callee: Expr, arg: Expr)
    requires IsAtom(callee) && callee.Path? && IsAtom(arg)
    ensures var p := CondArm(CallExpr(callee, [arg])); IsPattern(p) && !IsReadable(p)
  {
    var call := CallExpr(callee, [arg]);
    PrintAtom(arg, LIST);
    assert AreTrees([arg]) by {
      assert [arg][1..] == [];
      assert AreTrees([]);
    }
    ChainPrints(call);
    PrintAtom(callee, SUFFIX);
    assert Print(call, 0) == [AtomToken(callee)] + SuffixTokens(call);
    assert SuffixTokens(call)[0] == Punct("(");
  }

  /** A comparison of a name: as a condition it is read, as the subject of a loop its name is taken for a tag. */
  lemma {:induction false} ComparisonOfName(x: Expr, op: string, y: Expr)
    requires IsAtom(x) && x.Path? && x.segments[0] !in WORDS && IsAtom(y) && op in {"==", "!=", "<", "<=", ">", ">="}
    ensures var e := Binary(op, x, y); IsTree(e) && IsReadable(CondArm(e)) && SubjectIsTag(None, Some(e))
  {
    var e := Binary(op, x, y);
    PrintAtom(x, Tier(op));
    PrintAtom(y, Tier(op) + 1);
    assert Print(e, 0) == Print(e, LIST) == [AtomToken(x), OperatorToken(op), AtomToken(y)];
  }
}
