/** What the operations on patterns mean (verifier/arithmetic.rs): the two's-complement reading, and each
    comparison and arithmetic operation said of the integers its operands stand for. */
module Arithmetic {
  import opened Types
  import opened Bits
  import opened Ir

  // ----- readings -----

  lemma WordSizes()
    ensures Pow2(0) == 1 && Pow2(1) == 2 && Pow2(8) == 0x100 && Pow2(16) == 0x1_0000
    ensures Pow2(32) == 0x1_0000_0000 && Pow2(64) == 0x1_0000_0000_0000_0000
  {
    Squared(8, 0x100);
    Squared(16, 0x1_0000);
    Squared(32, 0x1_0000_0000);
  }

  lemma Squared(a: nat, p: nat)
    requires Pow2(a) == p
    ensures Pow2(a + a) == p * p
  {
    Pow2Sum(a, a);
  }

  lemma {:induction false} Pow2Sum(a: nat, b: nat)
    ensures Pow2(a + b) == Pow2(a) * Pow2(b)
  {
    if a > 0 { Pow2Sum(a - 1, b); }
  }

  /** A word in the signed range is the reading of its pattern. */
  lemma SignedPattern(x: int, w: nat)
    requires InWord(x, w)
    ensures Wrap(x, w) == if x >= 0 then x else x + Pow2(w)
    ensures ToSigned(Wrap(x, w), w) == x
  {
    assert Pow2(w) == 2 * Pow2(w - 1);
    if x >= 0 { DivModUnique(x, Pow2(w), 0, x); } else { DivModUnique(x, Pow2(w), -1, x + Pow2(w)); }
  }

  lemma UnsignedPattern(x: int, w: nat)
    requires 0 <= x < Pow2(w)
    ensures Wrap(x, w) == x
  {
    DivModUnique(x, Pow2(w), 0, x);
  }

  /** The reading of a pattern lies in the signed range and has that pattern. */
  lemma SignedReading(n: nat, w: nat)
    requires w > 0 && n < Pow2(w)
    ensures 0 - (Pow2(w - 1) as int) <= ToSigned(n, w) < Pow2(w - 1)
    ensures Wrap(ToSigned(n, w), w) == n
  {
    assert Pow2(w) == 2 * Pow2(w - 1);
    SignedPattern(ToSigned(n, w), w);
  }

  // ----- comparisons -----

  /** Signed comparisons compare the integers, each taken at its pattern. */
  lemma SignedComparison(x: int, y: int, w: nat)
    requires InWord(x, w) && InWord(y, w)
    ensures EvalCmp(SLt, Wrap(x, w), Wrap(y, w), w) <==> x < y
    ensures EvalCmp(SLe, Wrap(x, w), Wrap(y, w), w) <==> x <= y
    ensures EvalCmp(SGt, Wrap(x, w), Wrap(y, w), w) <==> x > y
    ensures EvalCmp(SGe, Wrap(x, w), Wrap(y, w), w) <==> x >= y
    ensures EvalCmp(Eq, Wrap(x, w), Wrap(y, w), w) <==> x == y
    ensures EvalCmp(Ne, Wrap(x, w), Wrap(y, w), w) <==> x != y
  {
    SignedPattern(x, w);
    SignedPattern(y, w);
  }

  lemma UnsignedComparison(x: int, y: int, w: nat)
    requires 0 <= x < Pow2(w) && 0 <= y < Pow2(w)
    ensures EvalCmp(ULt, Wrap(x, w), Wrap(y, w), w) <==> x < y
    ensures EvalCmp(ULe, Wrap(x, w), Wrap(y, w), w) <==> x <= y
    ensures EvalCmp(UGt, Wrap(x, w), Wrap(y, w), w) <==> x > y
    ensures EvalCmp(UGe, Wrap(x, w), Wrap(y, w), w) <==> x >= y
    ensures EvalCmp(Eq, Wrap(x, w), Wrap(y, w), w) <==> x == y
    ensures EvalCmp(Ne, Wrap(x, w), Wrap(y, w), w) <==> x != y
  {
    UnsignedPattern(x, w);
    UnsignedPattern(y, w);
  }

  /** The four comparisons of one signedness. */
  predicate OneOrder(lt: CmpOp, le: CmpOp, gt: CmpOp, ge: CmpOp) {
    (lt == SLt && le == SLe && gt == SGt && ge == SGe) || (lt == ULt && le == ULe && gt == UGt && ge == UGe)
  }

  /** They are the strict and the weak form of one total order on patterns, and its converses. */
  lemma ComparisonOrder(lt: CmpOp, le: CmpOp, gt: CmpOp, ge: CmpOp, a: nat, b: nat, c: nat, w: nat)
    requires OneOrder(lt, le, gt, ge) && w > 0 && a < Pow2(w) && b < Pow2(w) && c < Pow2(w)
    ensures EvalCmp(lt, a, b, w) || a == b || EvalCmp(lt, b, a, w)
    ensures !(EvalCmp(lt, a, b, w) && EvalCmp(lt, b, a, w)) && !EvalCmp(lt, a, a, w)
    ensures EvalCmp(lt, a, b, w) && EvalCmp(lt, b, c, w) ==> EvalCmp(lt, a, c, w)
    ensures EvalCmp(le, a, b, w) <==> EvalCmp(lt, a, b, w) || a == b
    ensures EvalCmp(gt, a, b, w) <==> EvalCmp(lt, b, a, w)
    ensures EvalCmp(ge, a, b, w) <==> EvalCmp(le, b, a, w)
  {
    SignedReading(a, w);
    SignedReading(b, w);
  }

  /** The pattern of all ones is below zero when signed, and above every other when unsigned. */
  lemma AllOnes(a: nat, w: nat)
    requires w > 0 && a < Pow2(w) - 1
    ensures EvalCmp(SLt, Pow2(w) - 1, 0, w) && ToSigned(Pow2(w) - 1, w) == -1
    ensures EvalCmp(ULt, a, Pow2(w) - 1, w)
  {
    SignedPattern(-1, w);
    SignedPattern(0, w);
  }

  // ----- sums, differences and products -----

  /** Operations on patterns are operations on the integers they stand for, modulo the word. */
  lemma WordArithmetic(x: int, y: int, w: nat)
    ensures EvalArith(Add, Wrap(x, w), Wrap(y, w), w) == Wrap(x + y, w)
    ensures EvalArith(Sub, Wrap(x, w), Wrap(y, w), w) == Wrap(x - y, w)
    ensures EvalArith(Mul, Wrap(x, w), Wrap(y, w), w) == Wrap(x * y, w)
  {
    var j := WrapGap(x, w);
    var k := WrapGap(y, w);
    var a, b, m := Wrap(x, w), Wrap(y, w), Pow2(w);
    assert x + y == (a + b) + (j + k) * m;
    WrapCongruent(x + y, a + b, j + k, w);
    assert x - y == (a - b) + (j - k) * m;
    WrapCongruent(x - y, a - b, j - k, w);
    MulCongruent(x, y, a, b, j, k, m);
    WrapCongruent(x * y, a * b, a * k + b * j + j * k * m, w);
  }

  /** A result that fits is exact. */
  lemma ExactWhenItFits(x: int, y: int, w: nat)
    ensures InWord(x + y, w) ==> ToSigned(EvalArith(Add, Wrap(x, w), Wrap(y, w), w), w) == x + y
    ensures InWord(x - y, w) ==> ToSigned(EvalArith(Sub, Wrap(x, w), Wrap(y, w), w), w) == x - y
    ensures InWord(x * y, w) ==> ToSigned(EvalArith(Mul, Wrap(x, w), Wrap(y, w), w), w) == x * y
  {
    WordArithmetic(x, y, w);
    if InWord(x + y, w) { SignedPattern(x + y, w); }
    if InWord(x - y, w) { SignedPattern(x - y, w); }
    if InWord(x * y, w) { SignedPattern(x * y, w); }
  }

  // ----- division -----

  function Abs(x: int): (r: nat)
    ensures r == x || r == -x
  {
    if x < 0 then -x else x
  }

  /** q and r are quotient and remainder of x by y, rounding toward zero. */
  ghost predicate Divides(x: int, y: int, q: int, r: int) {
    x == y * q + r && Abs(r) < Abs(y) && (r == 0 || (r > 0 <==> x > 0))
  }

  lemma TruncDivides(x: int, y: int)
    requires y != 0
    ensures Divides(x, y, TruncDiv(x, y), x - y * TruncDiv(x, y))
  {
    var m := Abs(x) / y;
    Euclid(Abs(x), y);
    var q := if x >= 0 then m else -m;
    assert TruncDiv(x, y) == q;
    NegatedProduct(y, m);
    assert y * q == if x >= 0 then y * m else -(y * m);
    Rounded(x, y, q, y * q, Abs(x) % y);
  }

  lemma Euclid(n: int, y: int)
    requires y != 0
    ensures n == y * (n / y) + n % y && 0 <= n % y < Abs(y)
  {
  }

  lemma Rounded(x: int, y: int, q: int, p: int, k: nat)
    requires p == y * q && k < Abs(y)
    requires if x >= 0 then x == p + k else -x == -p + k
    ensures Divides(x, y, q, x - p)
  {
  }

  lemma NegatedProduct(y: int, q: int)
    ensures y * (-q) == -(y * q) && (-y) * q == -(y * q) && (-y) * (-q) == y * q
  {
  }

  /** A quotient is no larger than the dividend, and smaller unless the divisor is 1 or -1. */
  lemma QuotientBound(x: int, y: int, q: int, r: int)
    requires Divides(x, y, q, r)
    ensures Abs(r) <= Abs(x) && Abs(q) <= Abs(x)
    ensures (y == 1 ==> q == x && r == 0) && (y == -1 ==> q == -x && r == 0)
    ensures x != 0 && y != 1 && y != -1 ==> Abs(q) < Abs(x)
  {
    AbsProduct(y, q);
    var p := y * q;
    assert Abs(r) <= Abs(x) && Abs(p) <= Abs(x) by { SameSign(x, p, r, y, q); }
    ProductAtLeast(Abs(y), Abs(q));
  }

  lemma SameSign(x: int, p: int, r: int, y: int, q: int)
    requires x == p + r && Abs(r) < Abs(y) && (r == 0 || (r > 0 <==> x > 0)) && p == y * q
    ensures Abs(r) <= Abs(x) && Abs(p) <= Abs(x)
  {
    AbsProduct(y, q);
    ProductAtLeast(Abs(y), Abs(q));
  }

  lemma ProductAtLeast(a: nat, b: nat)
    ensures a >= 1 ==> a * b >= b
    ensures a >= 2 ==> a * b >= 2 * b
    ensures b >= 1 ==> a * b >= a
  {
    if a >= 2 { assert a * b == 2 * b + (a - 2) * b; }
  }

  lemma AbsProduct(y: int, q: int)
    ensures Abs(y * q) == Abs(y) * Abs(q)
  {
    NegatedProduct(y, q);
    if y >= 0 { NonNegative(y, Abs(q)); } else { NonNegative(-y, Abs(q)); }
  }

  lemma NonNegative(a: nat, b: nat)
    ensures a * b >= 0
  {
  }

  lemma QuotientFits(x: int, y: int, q: int, r: int, w: nat)
    requires InWord(x, w) && InWord(y, w) && Divides(x, y, q, r) && !(x == Minus(w - 1) && y == -1)
    ensures InWord(q, w) && InWord(r, w)
  {
    QuotientBound(x, y, q, r);
  }

  /** bvsdiv and bvsrem: rounding toward zero, but for a zero divisor and the one overflow. */
  lemma SignedDivision(x: int, y: int, w: nat)
    requires InWord(x, w) && InWord(y, w)
    ensures var quotient := EvalArith(ArithOp.SDiv, Wrap(x, w), Wrap(y, w), w);
            var remainder := EvalArith(ArithOp.SRem, Wrap(x, w), Wrap(y, w), w);
            if y == 0 then quotient == Wrap(if x >= 0 then -1 else 1, w) && remainder == Wrap(x, w)
            else if x == Minus(w - 1) && y == -1 then quotient == Wrap(x, w) && remainder == 0
            else Divides(x, y, ToSigned(quotient, w), ToSigned(remainder, w))
  {
    SignedOperands(x, w);
    SignedOperands(y, w);
    if y != 0 {
      var q := TruncDiv(x, y);
      TruncDivides(x, y);
      if x == Minus(w - 1) && y == -1 {
        QuotientBound(x, y, q, x - y * q);
        WrapCongruent(q, x, 1, w);
        DivModUnique(0, Pow2(w), 0, 0);
      } else {
        QuotientFits(x, y, q, x - y * q, w);
        SignedPattern(q, w);
        SignedPattern(x - y * q, w);
      }
    }
  }

  lemma SignedOperands(x: int, w: nat)
    requires InWord(x, w)
    ensures ToSigned(Wrap(Wrap(x, w), w), w) == x
  {
    SignedPattern(x, w);
    UnsignedPattern(Wrap(x, w), w);
  }

  /** bvudiv and bvurem. */
  lemma UnsignedDivision(x: nat, y: nat, w: nat)
    requires x < Pow2(w) && y < Pow2(w)
    ensures var quotient := EvalArith(ArithOp.UDiv, Wrap(x, w), Wrap(y, w), w);
            var remainder := EvalArith(ArithOp.URem, Wrap(x, w), Wrap(y, w), w);
            if y == 0 then quotient == Pow2(w) - 1 && remainder == x
            else x == y * quotient + remainder && remainder < y
  {
    UnsignedPattern(x, w);
    UnsignedPattern(y, w);
    if y == 0 { DivModUnique(-1, Pow2(w), -1, Pow2(w) - 1); } else { Euclid(x, y); }
  }

  // ----- instructions -----

  /** v holds the word whose integer is x. */
  predicate HoldsWord(types: map<Value, Type>, env: Env, v: Value, x: int) {
    Get(env, v) == Int(Wrap(x, Width(types, v)))
  }

  /** The integer types: their widths, and which of them are signed. */
  lemma IntegerTypes(t: Type)
    ensures t == I8 || t == U8 ==> IntBitWidth(t) == Some(8)
    ensures t == I16 || t == U16 ==> IntBitWidth(t) == Some(16)
    ensures t == I32 || t == U32 ==> IntBitWidth(t) == Some(32)
    ensures t == I64 || t == U64 ==> IntBitWidth(t) == Some(64)
    ensures t == Bool ==> IntBitWidth(t) == Some(1)
    ensures t == I8 || t == I16 || t == I32 || t == I64 ==> IsSigned(t)
    ensures t == U8 || t == U16 || t == U32 || t == U64 || t == Bool ==> !IsSigned(t)
  {
  }

  /** What has no bit width is taken for 64 bits. */
  lemma WidthOfType(types: map<Value, Type>, v: Value)
    ensures v in types && IntBitWidth(types[v]).Some? ==> IntBitWidth(types[v]) == Some(Width(types, v))
    ensures v !in types || IntBitWidth(types[v]).None? ==> Width(types, v) == 64
  {
  }

  /** A refined or literal type is read as the type it is built on. */
  lemma WrappedType(t: Type, p: string, n: int)
    ensures IntBitWidth(Refined(t, p)) == IntBitWidth(Literal(t, n)) == IntBitWidth(t)
    ensures IsSigned(Refined(t, p)) == IsSigned(Literal(t, n)) == IsSigned(t)
  {
  }

  /** A wider destination takes the integer the source's type gives it; an equal one the pattern; a
      narrower one what is left modulo the word. */
  lemma AssignmentKeepsInteger(I: Interp, types: map<Value, Type>, d: Value, s: Value, x: int, env: Env)
    requires HoldsWord(types, env, s, x)
    requires if s in types && IsSigned(types[s]) then InWord(x, Width(types, s)) else 0 <= x < Pow2(Width(types, s))
    ensures Eval(I, types, Assign(d, s), env) == Int(Wrap(x, Width(types, d)))
  {
    var wd, ws := Width(types, d), Width(types, s);
    if s in types && IsSigned(types[s]) {
      SignedPattern(x, ws);
      if wd <= ws { NarrowPattern(x, ws, wd); }
    } else {
      UnsignedPattern(x, ws);
    }
  }

  lemma NarrowPattern(x: int, wide: nat, w: nat)
    requires w <= wide
    ensures Wrap(Wrap(x, wide), w) == Wrap(x, w)
  {
    var k := WrapOperand(x, w, wide);
    WrapCongruent(x, Wrap(x, wide), k, w);
  }

  lemma NegationNegates(I: Interp, types: map<Value, Type>, d: Value, s: Value, x: int, env: Env)
    requires HoldsWord(types, env, s, x) && Width(types, d) == Width(types, s)
    ensures Eval(I, types, Neg(d, s), env) == Int(Wrap(-x, Width(types, d)))
  {
    NegatedPattern(x, Width(types, d));
  }

  lemma NegatedPattern(x: int, w: nat)
    ensures Wrap(0 - (Wrap(x, w) as int), w) == Wrap(-x, w)
  {
    var k := WrapGap(x, w);
    NegatedProduct(Pow2(w), k);
    WrapCongruent(-x, 0 - (Wrap(x, w) as int), -k, w);
  }

  lemma SumResult(I: Interp, types: map<Value, Type>, d: Value, l: Value, r: Value, x: int, y: int, env: Env)
    requires HoldsWord(types, env, l, x) && HoldsWord(types, env, r, y)
    requires Width(types, d) == Width(types, l) == Width(types, r)
    ensures Eval(I, types, Arith(Add, d, l, r), env) == Int(Wrap(x + y, Width(types, d)))
    ensures Eval(I, types, Arith(Sub, d, l, r), env) == Int(Wrap(x - y, Width(types, d)))
    ensures Eval(I, types, Arith(Mul, d, l, r), env) == Int(Wrap(x * y, Width(types, d)))
  {
    WordArithmetic(x, y, Width(types, d));
  }

  /** Where the divisor is not zero, and short of the one overflow, the two instructions give the quotient
      and the remainder of the left operand by the right one. */
  lemma QuotientResult(I: Interp, types: map<Value, Type>, d: Value, l: Value, r: Value, x: int, y: int, env: Env)
    returns (q: int, m: int)
    requires HoldsWord(types, env, l, x) && HoldsWord(types, env, r, y)
    requires Width(types, d) == Width(types, l) == Width(types, r)
    requires var w := Width(types, d); InWord(x, w) && InWord(y, w) && y != 0 && !(x == Minus(w - 1) && y == -1)
    ensures x == y * q + m && Abs(m) < Abs(y) && (m == 0 || (m > 0 <==> x > 0))
    ensures Eval(I, types, Arith(ArithOp.SDiv, d, l, r), env) == Int(Wrap(q, Width(types, d)))
    ensures Eval(I, types, Arith(ArithOp.SRem, d, l, r), env) == Int(Wrap(m, Width(types, d)))
  {
    var w := Width(types, d);
    var quotient := EvalArith(ArithOp.SDiv, Wrap(x, w), Wrap(y, w), w);
    var remainder := EvalArith(ArithOp.SRem, Wrap(x, w), Wrap(y, w), w);
    SignedDivision(x, y, w);
    SignedReading(quotient, w);
    SignedReading(remainder, w);
    q, m := ToSigned(quotient, w), ToSigned(remainder, w);
  }

  lemma UnsignedQuotientResult(I: Interp, types: map<Value, Type>, d: Value, l: Value, r: Value, x: int, y: int,
                               env: Env)
    returns (q: nat, m: nat)
    requires HoldsWord(types, env, l, x) && HoldsWord(types, env, r, y)
    requires Width(types, d) == Width(types, l) == Width(types, r)
    requires 0 <= x < Pow2(Width(types, d)) && 0 < y < Pow2(Width(types, d))
    ensures x == y * q + m && m < y
    ensures Eval(I, types, Arith(ArithOp.UDiv, d, l, r), env) == Int(q)
    ensures Eval(I, types, Arith(ArithOp.URem, d, l, r), env) == Int(m)
  {
    var w := Width(types, d);
    UnsignedDivision(x, y, w);
    q, m := EvalArith(ArithOp.UDiv, Wrap(x, w), Wrap(y, w), w), EvalArith(ArithOp.URem, Wrap(x, w), Wrap(y, w), w);
  }

  /** A comparison of words gives 1 where the integers compare so and 0 where they do not. */
  lemma ComparisonResult(I: Interp, types: map<Value, Type>, d: Value, l: Value, r: Value, x: int, y: int, env: Env)
    requires HoldsWord(types, env, l, x) && HoldsWord(types, env, r, y) && Width(types, l) == Width(types, r)
    requires InWord(x, Width(types, l)) && InWord(y, Width(types, l))
    ensures Eval(I, types, Cmp(Eq, d, l, r), env) == Int(if x == y then 1 else 0)
    ensures Eval(I, types, Cmp(Ne, d, l, r), env) == Int(if x == y then 0 else 1)
    ensures Eval(I, types, Cmp(SLt, d, l, r), env) == Int(if x < y then 1 else 0)
    ensures Eval(I, types, Cmp(SLe, d, l, r), env) == Int(if x <= y then 1 else 0)
    ensures Eval(I, types, Cmp(SGt, d, l, r), env) == Int(if x > y then 1 else 0)
    ensures Eval(I, types, Cmp(SGe, d, l, r), env) == Int(if x >= y then 1 else 0)
  {
    SignedComparison(x, y, Width(types, l));
  }

  lemma UnsignedComparisonResult(I: Interp, types: map<Value, Type>, d: Value, l: Value, r: Value, x: int, y: int,
                                 env: Env)
    requires HoldsWord(types, env, l, x) && HoldsWord(types, env, r, y) && Width(types, l) == Width(types, r)
    requires 0 <= x < Pow2(Width(types, l)) && 0 <= y < Pow2(Width(types, l))
    ensures Eval(I, types, Cmp(ULt, d, l, r), env) == Int(if x < y then 1 else 0)
    ensures Eval(I, types, Cmp(ULe, d, l, r), env) == Int(if x <= y then 1 else 0)
    ensures Eval(I, types, Cmp(UGt, d, l, r), env) == Int(if x > y then 1 else 0)
    ensures Eval(I, types, Cmp(UGe, d, l, r), env) == Int(if x >= y then 1 else 0)
  {
    UnsignedComparison(x, y, Width(types, l));
  }
}
