/** How folded constants meet the code generator, which emits every integer as a wrapping 32-bit
    value: folding first and truncating after must agree with truncating first and letting the
    machine compute. */
module Emission {
  import opened Hir
  import opened HirSemantics
  import opened ConstFold

  const M32: int := 0x1_0000_0000
  const I32_MIN: int := -0x8000_0000
  const I32_MAX: int := 0x7FFF_FFFF

  /** The low 32 bits, read as a signed number. */
  function Wrap32(n: int): (r: int)
    ensures I32_MIN <= r <= I32_MAX
  {
    (n + 0x8000_0000) % M32 - 0x8000_0000
  }

  predicate FitsI32(n: int) { I32_MIN <= n <= I32_MAX }

  /** A machine result: a 32-bit integer, a one-bit truth value, nothing defined (division by zero
      or division overflow), or an operator the generator rejects. */
  datatype Machine = Word(n: int) | Bit(b: bool) | Undefined | Rejected

  function MachineBin(op: BinOp, a: int, b: int): Machine
  {
    match op
    case Add => Word(Wrap32(a + b))
    case Sub => Word(Wrap32(a - b))
    case Mul => Word(Wrap32(a * b))
    case Div => if b == 0 || (a == I32_MIN && b == -1) then Undefined else Word(Wrap32(TruncDiv(a, b)))
    case Rem => if b == 0 || (a == I32_MIN && b == -1) then Undefined else Word(Wrap32(TruncRem(a, b)))
    case Eq => Bit(a == b)
    case Ne => Bit(a != b)
    case Lt => Bit(a < b)
    case Le => Bit(a <= b)
    case Gt => Bit(a > b)
    case Ge => Bit(a >= b)
    case _ => Rejected
  }

  /** Both negations of the language are emitted as a bitwise complement. */
  function MachineUn(op: UnOp, a: int): Machine
  {
    match op
    case Neg => Word(Wrap32(-a))
    case Not => Word(Wrap32(-a - 1))
    case BitNot => Word(Wrap32(-a - 1))
  }

  function EmitConst(rv: HirRvalue): Machine
  {
    match rv
    case Use(ConstOp(IntConst(n))) => Word(Wrap32(n))
    case Use(ConstOp(BoolConst(b))) => Bit(b)
    case _ => Rejected
  }

  lemma {:induction false} WrapShift(n: int, k: int)
    ensures Wrap32(n + M32 * k) == Wrap32(n)
  {
    var x := n + 0x8000_0000;
    assert (x + M32 * k) % M32 == x % M32 by {
      assert x + M32 * k == M32 * (x / M32 + k) + x % M32;
    }
  }

  lemma {:induction false} WrapWitness(n: int) returns (k: int)
    ensures Wrap32(n) == n + M32 * k
  {
    k := -((n + 0x8000_0000) / M32);
  }

  lemma {:induction false} WrapFits(n: int)
    ensures FitsI32(n) <==> Wrap32(n) == n
  {
  }

  lemma {:induction false} WrapAdd(a: int, b: int)
    ensures Wrap32(Wrap32(a) + Wrap32(b)) == Wrap32(a + b)
    ensures Wrap32(Wrap32(a) - Wrap32(b)) == Wrap32(a - b)
  {
    var i := WrapWitness(a);
    var j := WrapWitness(b);
    WrapShift(a + b, i + j);
    WrapShift(a - b, i - j);
  }

  lemma {:induction false} WrapMul(a: int, b: int)
    ensures Wrap32(Wrap32(a) * Wrap32(b)) == Wrap32(a * b)
  {
    var i := WrapWitness(a);
    var j := WrapWitness(b);
    var k := a * j + b * i + M32 * (i * j);
    assert (a + M32 * i) * (b + M32 * j) == a * b + M32 * k by {
      assert (a + M32 * i) * (b + M32 * j) == a * b + a * (M32 * j) + (M32 * i) * b + (M32 * i) * (M32 * j);
      assert a * (M32 * j) == M32 * (a * j);
      assert (M32 * i) * b == M32 * (b * i);
      assert (M32 * i) * (M32 * j) == M32 * (M32 * (i * j));
    }
    WrapShift(a * b, k);
  }

  predicate Wraps(op: BinOp) { op.Add? || op.Sub? || op.Mul? }

  predicate Compares(op: BinOp) { op.Eq? || op.Ne? || op.Lt? || op.Le? || op.Gt? || op.Ge? }

  /** Sums, differences and products may be folded at any size; quotients, remainders and comparisons
      when both constants fit 32 bits and the machine defines the result. */
  lemma {:induction false} FoldingCommutesWithEmission(op: BinOp, a: i128, b: i128)
    requires FoldInts(op, a, b).Some?
    requires Wraps(op) || ((op.Div? || op.Rem? || Compares(op)) && FitsI32(a) && FitsI32(b))
    ensures var machine := MachineBin(op, Wrap32(a), Wrap32(b));
            machine != Undefined ==> machine == EmitConst(FoldInts(op, a, b).value)
    ensures Wraps(op) || Compares(op) ==> MachineBin(op, Wrap32(a), Wrap32(b)) != Undefined
  {
    if Wraps(op) {
      WrapAdd(a, b);
      WrapMul(a, b);
    } else {
      WrapFits(a);
      WrapFits(b);
    }
  }

  /** Arithmetic negation and bitwise complement agree for every constant that is folded. Logical
      negation of an integer constant does not: folding yields 0 or 1, the machine complements all
      bits, and the two agree exactly when the low 32 bits are all ones. */
  lemma {:induction false} UnaryFoldingVersusEmission(op: UnOp, a: i128)
    requires TryFoldUnary(op, ConstOp(IntConst(a))).Some?
    ensures var folded := EmitConst(TryFoldUnary(op, ConstOp(IntConst(a))).value);
            folded == MachineUn(op, Wrap32(a)) <==> (op.Not? ==> Wrap32(a) == -1)
  {
    var k := WrapWitness(a);
    WrapShift(-(a as int), -k);
    WrapShift(-(a as int) - 1, -k);
    WrapFits(-Wrap32(a) - 1);
  }

  /** Which block of 2^32 consecutive numbers a constant lies in; block 0 holds those of 32 bits. */
  function Page(n: int): int { (n + 0x8000_0000) / M32 }

  lemma {:induction false} PageAndWord(n: int)
    ensures n == M32 * Page(n) + Wrap32(n)
    ensures FitsI32(n) <==> Page(n) == 0
  {
  }

  lemma {:induction false} PagesOrder(a: int, b: int)
    requires Page(a) < Page(b)
    ensures a < b
  {
    PageAndWord(a);
    PageAndWord(b);
  }

  lemma {:induction false} SameWordIff(a: int, b: int)
    ensures Wrap32(a) == Wrap32(b) <==> (a - b) % M32 == 0
  {
    PageAndWord(a);
    PageAndWord(b);
    var words, pages := Wrap32(a) - Wrap32(b), Page(a) - Page(b);
    assert a - b == M32 * pages + words;
    assert -M32 < words < M32;
    if (a - b) % M32 == 0 {
      var q := (a - b) / M32;
      assert words == M32 * (q - pages);
    }
  }

  /** Folding a comparison of any two constants agrees with the machine exactly when: for equality, the
      constants are equal or differ by no multiple of 2^32; for an ordering, they lie in the same page,
      or their low words are ordered as their pages are. */
  lemma {:induction false} ComparisonFoldsRightlyIff(op: BinOp, a: i128, b: i128)
    requires Compares(op)
    ensures FoldInts(op, a, b).Some?
    ensures MachineBin(op, Wrap32(a), Wrap32(b)) == EmitConst(FoldInts(op, a, b).value) <==>
            match op
            case Eq => a == b || (a - b) % M32 != 0
            case Ne => a == b || (a - b) % M32 != 0
            case Lt => Page(a) == Page(b) || (Page(a) < Page(b) <==> Wrap32(a) < Wrap32(b))
            case Ge => Page(a) == Page(b) || (Page(a) < Page(b) <==> Wrap32(a) < Wrap32(b))
            case _ => Page(a) == Page(b) || (Page(a) < Page(b) <==> Wrap32(a) <= Wrap32(b))
  {
    SameWordIff(a, b);
    PageAndWord(a);
    PageAndWord(b);
    if Page(a) < Page(b) {
      PagesOrder(a, b);
    } else if Page(b) < Page(a) {
      PagesOrder(b, a);
    }
    hide Wrap32, Page;
  }

  /** The quotient and remainder used throughout are the truncated ones, and the only ones. */
  lemma {:induction false} TruncDivIsUnique(a: int, b: int, q: int, r: int)
    requires b != 0
    requires a == b * q + r && (if r >= 0 then r else -r) < (if b >= 0 then b else -b)
    requires (a >= 0 ==> r >= 0) && (a <= 0 ==> r <= 0)
    ensures q == TruncDiv(a, b) && r == TruncRem(a, b)
  {
    var m, n, p := if a >= 0 then a else -a, if b > 0 then b else -b, if (a >= 0) == (b > 0) then q else -q;
    var s := if r >= 0 then r else -r;
    assert m == n * p + s by {
      assert (-b) * (-q) == b * q;
      assert (-b) * q == -(b * q);
      assert b * (-q) == -(b * q);
    }
    EuclidUnique(m, n, p, s);
  }

  lemma {:induction false} MulMonotone(n: int, x: int, y: int)
    requires n > 0 && x < y
    ensures n * x + n <= n * y
  {
    var d := y - x - 1;
    assert n * d >= 0;
    assert n * (x + (1 + d)) == n * x + n * (1 + d);
    assert n * (1 + d) == n + n * d;
    assert x + (1 + d) == y;
  }

  lemma {:induction false} EuclidUnique(m: int, n: int, p: int, s: int)
    requires n > 0 && 0 <= s < n && m == n * p + s
    ensures p == m / n
  {
    var q := m / n;
    assert n * q <= m < n * q + n;
    if p < q {
      MulMonotone(n, p, q);
    } else if q < p {
      MulMonotone(n, q, p);
    }
  }
}
