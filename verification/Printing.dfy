/** Printing expressions, types, simple statements and blocks of these, with as few parentheses as precedence
    and left associativity allow. */
module Printing {
  import opened Ast
  import opened Tokens
  import opened Decimal

  /** An operand: a literal or a name. */
  predicate IsAtom(e: Expr)
  {
    e.IntLit? || e.FloatLit? || e.StrLit? || e.BoolLit? || e.NilLit? || (e.Path? && |e.segments| == 1)
  }

  /** Forms written behind an operand: `x^`, `x!`, `x.name`, `x[i]`, `x(args)`. */
  predicate IsSuffixed(e: Expr) { e.DerefExpr? || e.Propagate? || e.FieldExpr? || e.IndexExpr? || e.CallExpr? }

  /** What the last suffix stands behind. */
  function Base(e: Expr): Expr
    requires IsSuffixed(e)
  {
    match e
    case DerefExpr(operand) => operand
    case Propagate(operand) => operand
    case FieldExpr(base, _) => base
    case IndexExpr(base, _) => base
    case CallExpr(callee, _) => callee
  }

  predicate IsUpper(c: char) { 'A' <= c <= 'Z' }

  /** Such a name behind a dot is taken for a variant, not for a field. */
  predicate IsVariantName(name: string) { name != "" && IsUpper(name[0]) }

  /** Atoms and array literals, joined by prefix operators, suffixes and binary operators. */
  predicate IsTree(e: Expr)
    decreases e
  {
    match e
    case Unary(op, operand) => op in {"-", "not", "~"} && IsTree(operand)
    case ArrayLit(elements) => AreTrees(elements)
    case DerefExpr(operand) => IsTree(operand)
    case Propagate(operand) => IsTree(operand)
    case FieldExpr(base, name) => IsTree(base) && !IsVariantName(name)
    case IndexExpr(base, index) => IsTree(base) && IsTree(index)
    case CallExpr(callee, args) => IsTree(callee) && AreTrees(args)
    case Binary(op, lhs, rhs) => IsOperator(op) && IsTree(lhs) && IsTree(rhs)
    case _ => IsAtom(e)
  }

  predicate AreTrees(es: seq<Expr>)
    decreases es
  {
    es == [] || (IsTree(es[0]) && AreTrees(es[1..]))
  }

  function AtomToken(e: Expr): TokenKind
    requires IsAtom(e)
  {
    match e
    case IntLit(s) => Int(s)
    case FloatLit(s) => Float(s)
    case StrLit(s) => Str(s)
    case BoolLit(b) => Keyword(if b then "true" else "false")
    case NilLit => Keyword("nil")
    case Path(segments, _) => Ident(segments[0])
  }

  function PrefixToken(op: string): TokenKind { if op == "not" then Keyword(op) else Punct(op) }

  /** Elements and arguments are read from the tier above the comma on. */
  const LIST: nat := 1

  /** Suffixes bind tighter than every binary operator, prefix operators tighter than suffixes. */
  const SUFFIX: nat := 9

  const PREFIX: nat := 10

  function Level(e: Expr): nat
    requires IsTree(e)
  {
    if e.Binary? then Tier(e.op) else if IsSuffixed(e) then SUFFIX else PREFIX
  }

  /** A form looser than `min` asks for parentheses; a left operand may use an operator as loose as this
      one, a right operand only tighter ones. */
  function Print(e: Expr, min: nat): (r: seq<TokenKind>)
    requires IsTree(e)
    decreases e, if Level(e) < min then 2 else 1
  {
    if Level(e) < min then [Punct("(")] + Print(e, 0) + [Punct(")")]
    else if e.Binary? then Print(e.lhs, Tier(e.op)) + [OperatorToken(e.op)] + Print(e.rhs, Tier(e.op) + 1)
    else if e.Unary? then [PrefixToken(e.unop)] + Print(e.operand, PREFIX)
    else if e.ArrayLit? then [Punct("[")] + PrintList(e.elements, "]")
    else if IsSuffixed(e) then Print(Base(e), SUFFIX) + SuffixTokens(e)
    else [AtomToken(e)]
  }

  function SuffixTokens(e: Expr): seq<TokenKind>
    requires IsTree(e) && IsSuffixed(e)
    decreases e, 0
  {
    match e
    case DerefExpr(_) => [Punct("^")]
    case Propagate(_) => [Punct("!")]
    case FieldExpr(_, name) => [Punct(".")] + [Ident(name)]
    case IndexExpr(_, index) => [Punct("[")] + (Print(index, 0) + [Punct("]")])
    case CallExpr(_, args) => [Punct("(")] + PrintList(args, ")")
  }

  /** Items with commas between them, up to the closing mark. */
  function PrintList(es: seq<Expr>, close: string): seq<TokenKind>
    requires AreTrees(es)
    decreases es, 0
  {
    if es == [] then [Punct(close)]
    else if |es| == 1 then Print(es[0], LIST) + [Punct(close)]
    else Print(es[0], LIST) + ([Punct(",")] + PrintList(es[1..], close))
  }

  /** The same tree, wherever it was read. */
  predicate Same(e: Expr, f: Expr)
    decreases e
  {
    match (e, f)
    case (Binary(op, l, r), Binary(op', l', r')) => op == op' && Same(l, l') && Same(r, r')
    case (Unary(op, x), Unary(op', x')) => op == op' && Same(x, x')
    case (ArrayLit(es), ArrayLit(es')) => SameAll(es, es')
    case (DerefExpr(x), DerefExpr(x')) => Same(x, x')
    case (Propagate(x), Propagate(x')) => Same(x, x')
    case (FieldExpr(x, name), FieldExpr(x', name')) => Same(x, x') && name == name'
    case (IndexExpr(x, i), IndexExpr(x', i')) => Same(x, x') && Same(i, i')
    case (CallExpr(x, es), CallExpr(x', es')) => Same(x, x') && SameAll(es, es')
    case (Path(s, _), Path(s', _)) => s == s'
    case _ => e == f
  }

  predicate SameAll(es: seq<Expr>, fs: seq<Expr>)
    decreases es
  {
    |es| == |fs| && forall i | 0 <= i < |es| :: Same(es[i], fs[i])
  }

  // ----- Tokens that spell a sequence of kinds, comments apart -----

  ghost predicate Spells(toks: seq<Token>, i: nat, ks: seq<TokenKind>, j: nat)
    decreases ks
  {
    if ks == [] then j == i
    else i < |toks| && toks[i].kind == ks[0] && Spells(toks, Next(toks, i), ks[1..], j)
  }

  lemma {:induction false} SpellsSplit(
      toks: seq<Token>, i: nat, ks: seq<TokenKind>, ls: seq<TokenKind>, j: nat) returns (m: nat)
    requires Spells(toks, i, ks + ls, j)
    ensures Spells(toks, i, ks, m) && Spells(toks, m, ls, j)
    decreases |ks|
  {
    if ks == [] {
      assert ks + ls == ls;
      m := i;
    } else {
      assert (ks + ls)[1..] == ks[1..] + ls;
      m := SpellsSplit(toks, Next(toks, i), ks[1..], ls, j);
    }
  }

  lemma {:induction false} SpellsOne(toks: seq<Token>, i: nat, k: TokenKind, ks: seq<TokenKind>, j: nat)
    requires Spells(toks, i, [k] + ks, j)
    ensures i < |toks| && toks[i].kind == k && Spells(toks, Next(toks, i), ks, j)
  {
    assert ([k] + ks)[1..] == ks;
  }

  // ----- The spine: what one round of the loop reads -----

  datatype Link = Link(op: string, rhs: Expr)

  predicate IsLink(l: Link) { IsOperator(l.op) && IsTree(l.rhs) }

  /** A tree read from the left: its leftmost operand at this level, then operators with their right
      operands, each no tighter than the one before. */
  datatype Spine = Spine(head: Expr, links: seq<Link>)

  function SpineOf(e: Expr, min: nat): Spine
    requires IsTree(e)
  {
    if e.Binary? && Tier(e.op) >= min then
      var left := SpineOf(e.lhs, Tier(e.op));
      Spine(left.head, left.links + [Link(e.op, e.rhs)])
    else Spine(e, [])
  }

  function Fold(head: Expr, links: seq<Link>): Expr
  {
    if links == [] then head else
    var last := links[|links|-1];
    Binary(last.op, Fold(head, links[..|links|-1]), last.rhs)
  }

  ghost predicate AllLinks(links: seq<Link>) { forall i | 0 <= i < |links| :: IsLink(links[i]) }

  function LinkTokens(l: Link): seq<TokenKind>
    requires IsLink(l)
  {
    [OperatorToken(l.op)] + Print(l.rhs, Tier(l.op) + 1)
  }

  function LinksTokens(links: seq<Link>): seq<TokenKind>
    requires forall i | 0 <= i < |links| :: IsLink(links[i])
  {
    if links == [] then [] else LinkTokens(links[0]) + LinksTokens(links[1..])
  }

  /** Each operator is at least as tight as `min`, and no tighter than the one before it. */
  ghost predicate Loosening(links: seq<Link>, min: nat)
  {
    && AllLinks(links)
    && (forall i | 0 <= i < |links| :: min <= Tier(links[i].op))
    && (forall i | 0 < i < |links| :: Tier(links[i].op) <= Tier(links[i-1].op))
  }

  lemma {:induction false} LinksAppend(links: seq<Link>, l: Link)
    requires AllLinks(links) && IsLink(l)
    ensures AllLinks(links + [l]) && LinksTokens(links + [l]) == LinksTokens(links) + LinkTokens(l)
  {
    hide LinkTokens;
    if links == [] {
      assert [] + [l] == [l] && [l][1..] == [];
      assert LinksTokens([l]) == LinkTokens(l) + [];
    } else {
      assert (links + [l])[1..] == links[1..] + [l];
      LinksAppend(links[1..], l);
    }
  }

  lemma {:induction false} SpineFolds(e: Expr, min: nat)
    requires IsTree(e)
    ensures var s := SpineOf(e, min); IsTree(s.head) && Loosening(s.links, min) && Fold(s.head, s.links) == e
    decreases e
  {
    hide IsOperator, Tier;
    if e.Binary? && Tier(e.op) >= min {
      var left := SpineOf(e.lhs, Tier(e.op));
      SpineFolds(e.lhs, Tier(e.op));
      assert (left.links + [Link(e.op, e.rhs)])[..|left.links|] == left.links;
      hide Fold, IsTree;
      Loosened(left.links, Link(e.op, e.rhs), min);
    }
  }

  lemma {:induction false} Loosened(links: seq<Link>, l: Link, min: nat)
    requires IsLink(l) && min <= Tier(l.op) && Loosening(links, Tier(l.op))
    ensures Loosening(links + [l], min)
  {
    hide IsOperator, Tier, IsTree;
    var all := links + [l];
    forall i | 0 <= i < |all| ensures IsLink(all[i]) && min <= Tier(all[i].op) {
      assert all[i] == if i < |links| then links[i] else l;
    }
    forall i | 0 < i < |all| ensures Tier(all[i].op) <= Tier(all[i-1].op) {
      assert all[i-1] == links[i-1];
    }
  }

  lemma {:induction false} SpineStep(e: Expr, min: nat)
    requires IsTree(e) && e.Binary? && Tier(e.op) >= min
    ensures var left := SpineOf(e.lhs, Tier(e.op));
            SpineOf(e, min) == Spine(left.head, left.links + [Link(e.op, e.rhs)])
    ensures IsTree(e.lhs) && IsLink(Link(e.op, e.rhs))
  {
  }

  lemma {:induction false} Regroup(a: seq<TokenKind>, b: seq<TokenKind>, c: seq<TokenKind>)
    ensures a + b + c == a + (b + c)
  {
  }

  lemma {:induction false} SpineIsTree(e: Expr, min: nat)
    requires IsTree(e)
    ensures IsTree(SpineOf(e, min).head) && AllLinks(SpineOf(e, min).links)
  {
    SpineFolds(e, min);
  }

  lemma {:induction false} TierBelowSuffix(op: string)
    requires IsOperator(op)
    ensures Tier(op) < SUFFIX
  {
  }

  /** A tree prints as its spine does. */
  lemma {:induction false} SpinePrints(e: Expr, min: nat)
    requires IsTree(e) && min <= SUFFIX
    ensures IsTree(SpineOf(e, min).head) && AllLinks(SpineOf(e, min).links)
    ensures Print(e, min) == Print(SpineOf(e, min).head, SUFFIX) + LinksTokens(SpineOf(e, min).links)
    decreases e
  {
    SpineIsTree(e, min);
    if e.Binary? && Tier(e.op) >= min {
      hide *;
      var left := SpineOf(e.lhs, Tier(e.op));
      var last := Link(e.op, e.rhs);
      SpineStep(e, min);
      BinaryIsTree(e);
      TierBelowSuffix(e.op);
      SpinePrints(e.lhs, Tier(e.op));
      PrintBinary(e, min);
      LinksAppend(left.links, last);
      Regroup(Print(left.head, SUFFIX), LinksTokens(left.links), LinkTokens(last));
    } else {
      LooseEnough(e, min);
      hide *;
      assert Print(e, SUFFIX) + [] == Print(e, SUFFIX);
    }
  }

  lemma {:induction false} BinaryIsTree(e: Expr)
    requires IsTree(e) && e.Binary?
    ensures IsOperator(e.op) && IsTree(e.lhs) && IsTree(e.rhs)
  {
  }

  lemma {:induction false} LooseEnough(e: Expr, min: nat)
    requires IsTree(e) && min <= SUFFIX && !(e.Binary? && Tier(e.op) >= min)
    ensures Print(e, min) == Print(e, SUFFIX)
    ensures SpineOf(e, min) == Spine(e, []) && LinksTokens([]) == []
  {
    if e.Binary? {
      TierBelowSuffix(e.op);
    }
  }

  lemma {:induction false} PrintBinary(e: Expr, min: nat)
    requires IsTree(e) && e.Binary? && Tier(e.op) >= min
    ensures IsLink(Link(e.op, e.rhs)) && Print(e, min) == Print(e.lhs, Tier(e.op)) + LinkTokens(Link(e.op, e.rhs))
  {
    assert Print(e.lhs, Tier(e.op)) + [OperatorToken(e.op)] + Print(e.rhs, Tier(e.op) + 1) ==
           Print(e.lhs, Tier(e.op)) + ([OperatorToken(e.op)] + Print(e.rhs, Tier(e.op) + 1));
  }

  // ----- The suffixes behind an operand -----

  function RootOf(e: Expr): (r: Expr)
    requires IsTree(e)
    ensures IsTree(r) && !IsSuffixed(r)
  {
    if IsSuffixed(e) then RootOf(Base(e)) else e
  }

  ghost predicate AllSuffixed(es: seq<Expr>) { forall i | 0 <= i < |es| :: IsTree(es[i]) && IsSuffixed(es[i]) }

  /** The forms that come about, suffix by suffix; the last one is the whole. */
  function Suffixes(e: Expr): (r: seq<Expr>)
    requires IsTree(e)
    ensures AllSuffixed(r)
  {
    if IsSuffixed(e) then Suffixes(Base(e)) + [e] else []
  }

  function SuffixesTokens(es: seq<Expr>): seq<TokenKind>
    requires forall i | 0 <= i < |es| :: IsTree(es[i]) && IsSuffixed(es[i])
  {
    if es == [] then [] else SuffixTokens(es[0]) + SuffixesTokens(es[1..])
  }

  /** What has been read after `k` suffixes. */
  function ReadTo(e: Expr, k: nat): (r: Expr)
    requires IsTree(e) && k <= |Suffixes(e)|
    ensures IsTree(r)
  {
    if k == 0 then RootOf(e) else Suffixes(e)[k-1]
  }

  lemma {:induction false} SuffixStands(e: Expr, k: nat)
    requires IsTree(e) && k < |Suffixes(e)|
    ensures Base(Suffixes(e)[k]) == ReadTo(e, k)
    decreases e
  {
    if k + 1 < |Suffixes(e)| {
      SuffixStands(Base(e), k);
    } else {
      AllSuffixesRead(Base(e));
    }
  }

  lemma {:induction false} AllSuffixesRead(e: Expr)
    requires IsTree(e)
    ensures ReadTo(e, |Suffixes(e)|) == e
  {
  }

  lemma {:induction false} SuffixesAppend(es: seq<Expr>, e: Expr)
    requires AllSuffixed(es) && IsTree(e) && IsSuffixed(e)
    ensures AllSuffixed(es + [e]) && SuffixesTokens(es + [e]) == SuffixesTokens(es) + SuffixTokens(e)
  {
    hide SuffixTokens, IsTree;
    if es == [] {
      assert [] + [e] == [e] && [e][1..] == [];
      assert SuffixesTokens([e]) == SuffixTokens(e) + [];
    } else {
      assert (es + [e])[1..] == es[1..] + [e];
      SuffixesAppend(es[1..], e);
    }
  }

  /** An operand with its suffixes prints as that operand, then suffix by suffix. */
  lemma {:induction false} ChainPrints(e: Expr)
    requires IsTree(e)
    ensures Print(e, SUFFIX) == Print(RootOf(e), PREFIX) + SuffixesTokens(Suffixes(e))
    decreases e
  {
    if IsSuffixed(e) {
      ChainPrints(Base(e));
      SuffixesAppend(Suffixes(Base(e)), e);
      hide SuffixTokens, IsTree, SuffixesTokens;
      Regroup(Print(RootOf(e), PREFIX), SuffixesTokens(Suffixes(Base(e))), SuffixTokens(e));
    } else {
      if e.Binary? {
        TierBelowSuffix(e.op);
      }
      assert Print(e, PREFIX) + [] == Print(e, PREFIX);
    }
  }

  // ----- Where an expression ends -----

  /** The token does not continue an expression read from tier `min` on. */
  predicate Stops(k: TokenKind, min: nat)
  {
    !StartsPostfix(k) && (TokenTier(k).Some? ==> TokenTier(k).value < min)
  }

  lemma {:induction false} StopsTighter(k: TokenKind, min: nat, tighter: nat)
    requires Stops(k, min) && min <= tighter
    ensures Stops(k, tighter)
  {
  }

  lemma {:induction false} NextLinkStops(links: seq<Link>, min: nat, i: nat)
    requires Loosening(links, min) && 0 < i < |links|
    ensures Stops(OperatorToken(links[i].op), Tier(links[i-1].op) + 1)
  {
    OperatorReadsBack(links[i].op);
    OperatorEndsPostfix(links[i].op);
  }

  lemma {:induction false} FoldNext(head: Expr, links: seq<Link>, i: nat)
    requires i < |links|
    ensures Fold(head, links[..i+1]) == Binary(links[i].op, Fold(head, links[..i]), links[i].rhs)
  {
    assert links[..i+1][..i] == links[..i];
  }

  // ----- Reading kinds straight off -----

  function Kinds(toks: seq<Token>): seq<TokenKind> { seq(|toks|, i requires 0 <= i < |toks| => toks[i].kind) }

  lemma {:induction false} PlainSpells(toks: seq<Token>, i: nat, ks: seq<TokenKind>)
    requires i + |ks| < |toks| && forall k | 0 <= k < |toks| :: toks[k].kind != Comment
    requires forall k | 0 <= k < |ks| :: toks[i + k].kind == ks[k]
    ensures Spells(toks, i, ks, i + |ks|)
    decreases |ks|
  {
    if ks != [] {
      PlainSpells(toks, i + 1, ks[1..]);
    }
  }

  ghost predicate NoGaps(ks: seq<TokenKind>) { forall k | k in ks :: k != Comment && k != Eof }

  lemma {:induction false} NoGapsJoin(ks: seq<TokenKind>, ls: seq<TokenKind>)
    requires NoGaps(ks) && NoGaps(ls)
    ensures NoGaps(ks + ls)
  {
  }

  lemma {:induction false} PrintHasNoComment(e: Expr, min: nat)
    requires IsTree(e)
    ensures NoGaps(Print(e, min))
    decreases e, if Level(e) < min then 2 else 1
  {
    hide Tier, IsOperator, NoGaps;
    if Level(e) < min {
      PrintHasNoComment(e, 0);
      Enclosed(Print(e, 0));
    } else if e.Binary? {
      var left, op := Print(e.lhs, Tier(e.op)), [OperatorToken(e.op)];
      PrintHasNoComment(e.lhs, Tier(e.op));
      PrintHasNoComment(e.rhs, Tier(e.op) + 1);
      OneNoGap(OperatorToken(e.op));
      NoGapsJoin(left, op);
      NoGapsJoin(left + op, Print(e.rhs, Tier(e.op) + 1));
    } else if e.Unary? {
      PrintHasNoComment(e.operand, PREFIX);
      OneNoGap(PrefixToken(e.unop));
      NoGapsJoin([PrefixToken(e.unop)], Print(e.operand, PREFIX));
    } else if e.ArrayLit? {
      ListHasNoComment(e.elements, "]");
      OneNoGap(Punct("["));
      NoGapsJoin([Punct("[")], PrintList(e.elements, "]"));
    } else if IsSuffixed(e) {
      PrintHasNoComment(Base(e), SUFFIX);
      SuffixHasNoComment(e);
      NoGapsJoin(Print(Base(e), SUFFIX), SuffixTokens(e));
    } else {
      OneNoGap(AtomToken(e));
    }
  }

  lemma {:induction false} OneNoGap(k: TokenKind)
    ensures k != Comment && k != Eof ==> NoGaps([k])
  {
  }

  lemma {:induction false} Enclosed(ks: seq<TokenKind>)
    requires NoGaps(ks)
    ensures NoGaps([Punct("(")] + ks + [Punct(")")])
  {
  }

  lemma {:induction false} SuffixHasNoComment(e: Expr)
    requires IsTree(e) && IsSuffixed(e)
    ensures NoGaps(SuffixTokens(e))
    decreases e, 0
  {
    match e {
      case IndexExpr(_, index) => PrintHasNoComment(index, 0);
      case CallExpr(_, args) => ListHasNoComment(args, ")");
      case _ =>
    }
  }

  lemma {:induction false} ListHasNoComment(es: seq<Expr>, close: string)
    requires AreTrees(es)
    ensures NoGaps(PrintList(es, close))
    decreases es, 0
  {
    if es != [] {
      PrintHasNoComment(es[0], LIST);
      if |es| > 1 {
        ListHasNoComment(es[1..], close);
      }
    }
  }

  function Joined(op: string, x: Expr, y: Expr): (e: Expr)
    requires IsOperator(op) && IsTree(x) && IsTree(y)
    ensures IsTree(e) && e.Binary?
  {
    Binary(op, x, y)
  }

  lemma {:induction false} PrintJoined(op: string, x: Expr, y: Expr, min: nat)
    requires IsOperator(op) && IsTree(x) && IsTree(y)
    ensures var plain := Print(x, Tier(op)) + [OperatorToken(op)] + Print(y, Tier(op) + 1);
            Print(Joined(op, x, y), min) == if Tier(op) < min then [Punct("(")] + plain + [Punct(")")] else plain
  {
    hide Tier, IsOperator;
    var e := Joined(op, x, y);
    assert Tier(op) < min ==> Print(e, min) == [Punct("(")] + Print(e, 0) + [Punct(")")];
  }

  /** Two operators in a row without parentheses are one grouping or the other, never both: to the left
      when the first binds at least as tightly, to the right otherwise. So the parentheses that are
      printed are the ones that are needed. */
  lemma {:induction false} ParenthesesExactlyWhenNeeded(x: Expr, y: Expr, z: Expr, p: string, q: string)
    requires IsAtom(x) && IsAtom(y) && IsAtom(z) && IsOperator(p) && IsOperator(q)
    ensures var bare := [AtomToken(x), OperatorToken(p), AtomToken(y), OperatorToken(q), AtomToken(z)];
            && (Print(Joined(q, Joined(p, x, y), z), 0) == bare <==> Tier(p) >= Tier(q))
            && (Print(Joined(p, x, Joined(q, y, z)), 0) == bare <==> Tier(q) > Tier(p))
  {
    hide Print, Tier, IsOperator, IsTree, IsAtom, AtomToken, Joined;
    TierBelowSuffix(p);
    TierBelowSuffix(q);
    PrintAtom(x, Tier(p));
    PrintAtom(y, Tier(p) + 1);
    PrintAtom(y, Tier(q));
    PrintAtom(z, Tier(q) + 1);
    var left, right := Joined(p, x, y), Joined(q, y, z);
    PrintJoined(p, x, y, Tier(q));
    PrintJoined(q, left, z, 0);
    PrintJoined(q, y, z, Tier(p) + 1);
    PrintJoined(p, x, right, 0);
    assert |Print(Joined(q, left, z), 0)| == if Tier(p) >= Tier(q) then 5 else 7;
    assert |Print(Joined(p, x, right), 0)| == if Tier(q) > Tier(p) then 5 else 7;
  }

  /** A prefix operator takes its operand before any suffix does: `-x.f` is the field of `-x`. */
  lemma {:induction false} PrefixBeforeSuffix(op: string, x: Expr, name: string)
    requires op in {"-", "not", "~"} && IsAtom(x) && !IsVariantName(name)
    ensures var bare := [PrefixToken(op), AtomToken(x), Punct("."), Ident(name)];
            var field, negated := FieldExpr(Unary(op, x), name), Unary(op, FieldExpr(x, name));
            IsTree(field) && IsTree(negated) && Print(field, 0) == bare && Print(negated, 0) != bare
  {
    hide IsAtom, AtomToken, IsVariantName, PrefixToken;
    PrintAtom(x, SUFFIX);
    PrintAtom(x, PREFIX);
    var suffix := FieldExpr(x, name);
    assert Print(Unary(op, x), SUFFIX) == [PrefixToken(op), AtomToken(x)];
    assert Print(suffix, PREFIX)[0] == Punct("(");
    assert Print(suffix, 0) == [AtomToken(x), Punct("."), Ident(name)];
    assert |Print(suffix, PREFIX)| == 5;
  }

  lemma {:induction false} PrintAtom(e: Expr, min: nat)
    requires IsAtom(e) && min <= PREFIX
    ensures IsTree(e) && Print(e, min) == [AtomToken(e)]
  {
  }

  // ----- Types -----

  /** Types that can be written: the left side of an error union is a name. */
  predicate Writable(t: TypeExpr)
  {
    match t
    case NamedType(_) => true
    case BorrowType(inner) => Writable(inner)
    case OwnType(inner) => Writable(inner)
    case ArrayType(elem, len) => Writable(elem) && len <= U64_MAX
    case SliceType(elem) => Writable(elem)
    case ErrUnionType(ok, err) => ok.NamedType? && Writable(err)
  }

  function PrintType(t: TypeExpr): seq<TokenKind>
    requires Writable(t)
  {
    match t
    case NamedType(name) => [Ident(name)]
    case BorrowType(inner) => [Punct("^")] + PrintType(inner)
    case OwnType(inner) => [Keyword("own")] + ([Punct("^")] + PrintType(inner))
    case ArrayType(elem, len) => [Punct("[")] + ([Int(Digits(len))] + ([Punct("]")] + PrintType(elem)))
    case SliceType(elem) => [Punct("[")] + ([Punct("]")] + PrintType(elem))
    case ErrUnionType(ok, err) => [Ident(ok.name)] + ([Punct("!")] + PrintType(err))
  }

  // ----- Statements -----

  /** Statements with such trees in them; a mutable binding has its type inferred. */
  predicate IsPlainStmt(s: Stmt)
  {
    match s
    case Let(_, isMut, ty, init) => (ty.Some? ==> !isMut && Writable(ty.value)) && IsTree(init)
    case Assign(target, value, _) => IsTree(target) && IsTree(value)
    case Defer(e) => IsTree(e)
    case ExprStmt(e) => IsTree(e)
  }

  function PrintStmt(s: Stmt): seq<TokenKind>
    requires IsPlainStmt(s)
  {
    match s
    case Let(name, _, Some(ty), init) =>
      [Ident(name)] + ([Punct(":")] + (PrintType(ty) + ([Punct("=")] + Print(init, 0))))
    case Let(name, isMut, None, init) =>
      var binding := [Ident(name)] + ([Punct(":=")] + Print(init, 0));
      if isMut then [Punct("~")] + binding else binding
    case Assign(target, value, _) => Print(target, 0) + ([Punct("=")] + Print(value, 0))
    case Defer(e) => [Keyword("defer")] + Print(e, 0)
    case ExprStmt(e) => Print(e, 0)
  }

  predicate SameStmt(s: Stmt, t: Stmt)
  {
    match (s, t)
    case (Let(n, m, ty, e), Let(n', m', ty', e')) => n == n' && m == m' && ty == ty' && Same(e, e')
    case (Assign(x, v, _), Assign(x', v', _)) => Same(x, x') && Same(v, v')
    case (Defer(e), Defer(e')) => Same(e, e')
    case (ExprStmt(e), ExprStmt(e')) => Same(e, e')
    case _ => false
  }

  /** The token neither continues an expression nor turns what was read into a binding. */
  predicate StopsStmt(k: TokenKind)
  {
    Stops(k, 0) && k != Punct("=") && k != Punct(":=") && k != Punct(":")
  }

  /** How a printed tree starts: nothing that closes a list, opens or closes a block, branches, ends a
      statement or the file, leaves or defers, and behind a name nothing that makes it a binding. */
  ghost predicate StartsTree(ks: seq<TokenKind>)
  {
    && ks != [] && ks[0] !in {Punct(")"), Punct("]"), Punct("{"), Punct("}"), Punct("?"), Punct(";"), Punct("."), Eof}
    && ks[0] !in {Keyword("defer"), Keyword("ret"), Keyword("stop"), Keyword("skip"), Keyword("jmp"), Keyword("break")}
    && (ks[0].Ident? && |ks| > 1 ==> !IsColon(ks[1]))
  }

  predicate IsColon(k: TokenKind) { k == Punct(":") || k == Punct(":=") }

  lemma {:induction false} StartsMore(ks: seq<TokenKind>, ls: seq<TokenKind>)
    requires StartsTree(ks) && (ls != [] ==> !IsColon(ls[0]))
    ensures StartsTree(ks + ls)
  {
    assert ls != [] ==> (ks + ls)[|ks|] == ls[0];
  }

  lemma {:induction false} FirstTokens(e: Expr, min: nat)
    requires IsTree(e)
    ensures StartsTree(Print(e, min))
    decreases e, if Level(e) < min then 2 else 1
  {
    if Level(e) >= min && e.Binary? {
      BinaryIsTree(e);
      PrintBinary(e, min);
      hide *;
      FirstTokens(e.lhs, Tier(e.op));
      LinkIsNoColon(Link(e.op, e.rhs));
      StartsMore(Print(e.lhs, Tier(e.op)), LinkTokens(Link(e.op, e.rhs)));
    } else if Level(e) >= min && IsSuffixed(e) {
      SuffixIsNoColon(e);
      hide StartsTree, SuffixTokens, IsColon, IsAtom;
      FirstTokens(Base(e), SUFFIX);
      StartsMore(Print(Base(e), SUFFIX), SuffixTokens(e));
    } else {
      hide AreTrees, Tier, IsOperator;
    }
  }

  lemma {:induction false} LinkIsNoColon(l: Link)
    requires IsLink(l)
    ensures LinkTokens(l) != [] && !IsColon(LinkTokens(l)[0])
  {
    OperatorIsNoColon(l.op);
  }

  lemma {:induction false} SuffixIsNoColon(e: Expr)
    requires IsTree(e) && IsSuffixed(e)
    ensures SuffixTokens(e) != [] && !IsColon(SuffixTokens(e)[0])
  {
    hide Print, PrintList;
  }

  lemma {:induction false} OperatorIsNoColon(op: string)
    requires IsOperator(op)
    ensures !IsColon(OperatorToken(op))
  {
  }

  // ----- Blocks -----

  /** A match without arms, `? e is { }`, as a statement. */
  predicate IsMatch(s: Stmt)
  {
    s.ExprStmt? && s.expr.Branch? && s.expr.arms == [] && s.expr.scrutinee.Some? && IsTree(s.expr.scrutinee.value)
  }

  predicate IsBlockStmt(s: Stmt) { IsMatch(s) || IsPlainStmt(s) }

  predicate AreBlockStmts(ss: seq<Stmt>) { forall i | 0 <= i < |ss| :: IsBlockStmt(ss[i]) }

  function PrintMatch(s: Stmt): seq<TokenKind>
    requires IsMatch(s)
  {
    [Punct("?")] + (Print(s.expr.scrutinee.value, LIST) + [Keyword("is"), Punct("{"), Punct("}")])
  }

  function PrintBlockStmt(s: Stmt): seq<TokenKind>
    requires IsBlockStmt(s)
  {
    if IsMatch(s) then PrintMatch(s) else PrintStmt(s)
  }

  /** Statements one behind the other, up to the brace that closes the block. */
  function PrintStmts(ss: seq<Stmt>): (r: seq<TokenKind>)
    requires AreBlockStmts(ss)
    ensures r != []
  {
    if ss == [] then [Punct("}")] else PrintBlockStmt(ss[0]) + PrintStmts(ss[1..])
  }

  function PrintBlock(ss: seq<Stmt>): seq<TokenKind>
    requires AreBlockStmts(ss)
  {
    [Punct("{")] + PrintStmts(ss)
  }

  predicate SameBlockStmt(s: Stmt, t: Stmt)
  {
    if IsMatch(t) then
      && s.ExprStmt? && s.expr.Branch? && s.expr.arms == [] && s.expr.scrutinee.Some?
      && Same(s.expr.scrutinee.value, t.expr.scrutinee.value)
    else SameStmt(s, t)
  }

  predicate SameStmts(ss: seq<Stmt>, ts: seq<Stmt>)
  {
    |ss| == |ts| && forall i | 0 <= i < |ss| :: SameBlockStmt(ss[i], ts[i])
  }

  /** Nothing stands between statements: so none begins in a way that continues the one before it. A match
      is closed by its brace. */
  predicate AreSeparated(ss: seq<Stmt>)
    requires AreBlockStmts(ss)
  {
    ss == [] || (AreSeparated(ss[1..]) && (IsMatch(ss[0]) || StopsStmt(PrintStmts(ss[1..])[0])))
  }

  predicate EndsInMatch(ss: seq<Stmt>) { ss != [] && IsMatch(ss[|ss|-1]) }

  lemma {:induction false} LastStmt(s: Stmt)
    requires IsBlockStmt(s)
    ensures AreBlockStmts([s]) && PrintStmts([s]) == PrintBlockStmt(s) + [Punct("}")] && AreSeparated([s])
  {
    hide PrintBlockStmt, IsBlockStmt, IsMatch;
    assert [s][1..] == [];
    assert PrintStmts([]) == [Punct("}")];
  }

  lemma {:induction false} TwoStmts(s: Stmt, t: Stmt)
    requires IsPlainStmt(s) && !IsMatch(s) && IsPlainStmt(t) && !IsMatch(t) && PrintStmt(t) != []
    ensures AreBlockStmts([s, t]) && PrintStmts([s, t]) == PrintStmt(s) + (PrintStmt(t) + [Punct("}")])
    ensures AreSeparated([s, t]) <==> StopsStmt(PrintStmt(t)[0])
  {
    LastStmt(t);
    hide PrintStmt, IsPlainStmt, IsMatch, StopsStmt;
    assert [s, t][1..] == [t];
  }

  lemma {:induction false} MinusPrints(x: Expr, y: Expr)
    requires IsAtom(x) && IsAtom(y)
    ensures IsTree(x) && IsTree(Unary("-", y)) && IsTree(Binary("-", x, y)) && !x.Branch?
    ensures Print(x, 0) == [AtomToken(x)] && Print(Unary("-", y), 0) == [Punct("-"), AtomToken(y)]
    ensures Print(Binary("-", x, y), 0) == [AtomToken(x), Punct("-"), AtomToken(y)]
  {
    assert !x.Branch?;
    hide IsAtom, AtomToken;
    PrintAtom(x, 0);
    PrintAtom(x, 7);
    PrintAtom(y, 8);
    PrintAtom(y, PREFIX);
  }

  /** Without that the tokens are those of other statements: `x` and then `-y` are read as `x - y`. */
  lemma {:induction false} SeparationMatters(x: Expr, y: Expr)
    requires IsAtom(x) && IsAtom(y)
    ensures var two, one := [ExprStmt(x), ExprStmt(Unary("-", y))], [ExprStmt(Binary("-", x, y))];
            && AreBlockStmts(two) && AreBlockStmts(one) && PrintBlock(two) == PrintBlock(one)
            && AreSeparated(one) && !AreSeparated(two)
  {
    MinusPrints(x, y);
    hide Print, IsTree, IsAtom, AtomToken, PrintStmts, AreSeparated;
    TwoStmts(ExprStmt(x), ExprStmt(Unary("-", y)));
    LastStmt(ExprStmt(Binary("-", x, y)));
  }
}
