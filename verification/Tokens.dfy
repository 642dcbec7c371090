/** Tokens, the positions a cursor can be at, and operators with their binding powers. */
module Tokens {
  import opened Wrappers
  import opened Diag

  datatype TokenKind =
    | Ident(name: string)
    | Keyword(word: string)
    | Int(text: string)
    | Float(text: string)
    | Str(text: string)
    | Punct(mark: string)
    | Comment
    | Eof

  datatype Token = Token(kind: TokenKind, span: Span)

  /** What the lexer hands over: the end of file comes last. */
  predicate Ended(toks: seq<Token>)
  {
    toks != [] && toks[|toks|-1].kind == Eof
  }

  /** The first token from `i` on that is not a comment. */
  function PastComments(toks: seq<Token>, i: nat): (r: nat)
    ensures i <= r && (i <= |toks| ==> r <= |toks|) && (r < |toks| ==> toks[r].kind != Comment)
    ensures forall k | i <= k < r && k < |toks| :: toks[k].kind == Comment
    decreases |toks| - i
  {
    if i < |toks| && toks[i].kind == Comment then PastComments(toks, i + 1) else i
  }

  function Next(toks: seq<Token>, i: nat): nat { PastComments(toks, i + 1) }

  /** The cursor only goes forward, and no end of file is behind it. */
  ghost predicate Moved(toks: seq<Token>, i: nat, j: nat)
  {
    i <= j < |toks| && forall k | i <= k < j :: toks[k].kind != Eof
  }

  lemma {:induction false} SkipStays(toks: seq<Token>, i: nat)
    requires Ended(toks) && i < |toks|
    ensures Moved(toks, i, PastComments(toks, i))
    decreases |toks| - i
  {
    if toks[i].kind == Comment {
      SkipStays(toks, i + 1);
    }
  }

  lemma {:induction false} NextMoves(toks: seq<Token>, i: nat)
    requires Ended(toks) && i < |toks| && toks[i].kind != Eof
    ensures Moved(toks, i, Next(toks, i)) && i < Next(toks, i)
  {
    SkipStays(toks, i + 1);
  }

  lemma {:induction false} MovedTrans(toks: seq<Token>, i: nat, j: nat, k: nat)
    requires Moved(toks, i, j) && Moved(toks, j, k)
    ensures Moved(toks, i, k) && i <= j <= k
  {
  }

  lemma {:induction false} SameStays(toks: seq<Token>, i: nat)
    requires i < |toks|
    ensures Moved(toks, i, i)
  {
  }

  lemma {:induction false} MovedForward(toks: seq<Token>, i: nat, j: nat)
    requires Moved(toks, i, j)
    ensures i <= j < |toks|
  {
  }

  // ----- Operators -----

  /** How tightly an operator mark binds. */
  function BindingPower(mark: string): Option<nat>
  {
    if mark == "," then Some(5)
    else if mark in {"*", "/", "%"} then Some(70)
    else if mark in {"+", "-"} then Some(60)
    else if mark in {"<<", ">>"} then Some(50)
    else if mark in {"&", "|"} then Some(40)
    else if mark in {"<", "<=", ">", ">="} then Some(30)
    else if mark in {"==", "!="} then Some(20)
    else None
  }

  /** The operator a token stands for, with its power; `or` and `and` are words. */
  function OperatorOf(k: TokenKind): Option<(string, nat)>
  {
    match k
    case Keyword(word) => if word == "or" then Some(("or", 10)) else if word == "and" then Some(("and", 15)) else None
    case Punct(mark) => if BindingPower(mark).Some? then Some((mark, BindingPower(mark).value)) else None
    case _ => None
  }

  function OperatorToken(op: string): TokenKind { if op == "or" || op == "and" then Keyword(op) else Punct(op) }

  // ----- The tiers of the language -----

  /** The tier of an operator, from the loosest on; the operators of one tier group to the left. */
  function TierOf(op: string): Option<nat>
  {
    if op in {","} then Some(0)
    else if op in {"or"} then Some(1)
    else if op in {"and"} then Some(2)
    else if op in {"==", "!="} then Some(3)
    else if op in {"<", "<=", ">", ">="} then Some(4)
    else if op in {"&", "|"} then Some(5)
    else if op in {"<<", ">>"} then Some(6)
    else if op in {"+", "-"} then Some(7)
    else if op in {"*", "/", "%"} then Some(8)
    else None
  }

  predicate IsOperator(op: string) { TierOf(op).Some? }

  function Tier(op: string): nat
    requires IsOperator(op)
  {
    TierOf(op).value
  }

  function TokenTier(k: TokenKind): Option<nat>
  {
    match k
    case Keyword(word) => if word in {"or", "and"} then TierOf(word) else None
    case Punct(mark) => if mark in {"or", "and"} then None else TierOf(mark)
    case _ => None
  }

  /** The loosest tier whose operators are read with this minimal power. */
  function TierFrom(min: nat): nat
  {
    if min <= 5 then 0 else if min <= 10 then 1 else if min <= 15 then 2
    else if min <= 20 then 3 else if min <= 30 then 4 else if min <= 40 then 5
    else if min <= 50 then 6 else if min <= 60 then 7 else if min <= 70 then 8 else 9
  }

  /** The powers put the operators into their tiers: one is read at `min` exactly when its tier is, and one
      more than its own power admits the next tier. */
  lemma {:induction false} PowersFollowTiers(k: TokenKind, min: nat)
    ensures OperatorOf(k).Some? <==> TokenTier(k).Some?
    ensures OperatorOf(k).Some? ==>
              var (op, bp) := OperatorOf(k).value;
              && IsOperator(op) && k == OperatorToken(op) && TokenTier(k) == Some(Tier(op))
              && (bp >= min <==> Tier(op) >= TierFrom(min)) && TierFrom(bp + 1) == Tier(op) + 1
  {
  }

  lemma {:induction false} OperatorReadsBack(op: string)
    requires IsOperator(op)
    ensures OperatorOf(OperatorToken(op)).Some? && OperatorOf(OperatorToken(op)).value.0 == op
    ensures TokenTier(OperatorToken(op)) == Some(Tier(op))
  {
  }

  /** Tokens that continue the expression before them. */
  predicate StartsPostfix(k: TokenKind)
  {
    k.Punct? && k.mark in {"^", "!", "(", "[", "."}
  }

  lemma {:induction false} OperatorEndsPostfix(op: string)
    requires IsOperator(op)
    ensures !StartsPostfix(OperatorToken(op))
  {
  }
}
