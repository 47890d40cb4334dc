/** What the built bit-vector terms mean: every overflow and underflow predicate is an
    exact range condition on integers, at every width. */
module BitVectors {
  import opened AstManager
  import opened BvTerms
  import opened Powers

  // ---------- the theory of fixed-size bit-vectors ----------

  datatype Val = BitVec(n: nat, width: nat) | IntVal(i: int) | BoolVal(b: bool)

  function MsbSet(x: nat, w: nat): bool
    requires w > 0
  {
    x / Pow2(w - 1) % 2 == 1
  }

  /** Signed comparison by most significant bits, as the theory defines it. */
  function SltBits(x: nat, y: nat, w: nat): bool
    requires w > 0
  {
    (MsbSet(x, w) && !MsbSet(y, w)) || (MsbSet(x, w) == MsbSet(y, w) && x < y)
  }

  function Unary(op: Op, v: Val): Val {
    match op
    case BvNeg => if v.BitVec? then BitVec((Pow2(v.width) - v.n) % Pow2(v.width), v.width) else v
    case ZeroExt(k) => if v.BitVec? then BitVec(v.n, v.width + k) else v
    case Extract(h, l) => if v.BitVec? && l <= h then BitVec(v.n / Pow2(l) % Pow2(h - l + 1), h - l + 1) else v
    case Bv2Int => if v.BitVec? then IntVal(v.n) else v
    case Not => if v.BoolVal? then BoolVal(!v.b) else v
    case _ => v
  }

  function BvBinary(op: Op, x: nat, y: nat, w: nat): Val
    requires w > 0
  {
    match op
    case BvAdd => BitVec((x + y) % Pow2(w), w)
    case BvShl => BitVec(x * Pow2(y) % Pow2(w), w)
    case BvSlt => BoolVal(SltBits(x, y, w))
    case BvUle => BoolVal(x <= y)
    case _ => BitVec(x, w)
  }

  function Binary(op: Op, v: Val, u: Val): Val {
    match op
    case Eq => BoolVal(v == u)
    case And => if v.BoolVal? && u.BoolVal? then BoolVal(v.b && u.b) else v
    case Implies => if v.BoolVal? && u.BoolVal? then BoolVal(v.b ==> u.b) else v
    case IntSub => if v.IntVal? && u.IntVal? then IntVal(v.i - u.i) else v
    case _ => if v.BitVec? && u.BitVec? && v.width == u.width > 0 then BvBinary(op, v.n, u.n, v.width) else v
  }

  type Env = (nat, AstSort) -> Val

  function Eval(env: Env, a: Ast): Val
    decreases a
  {
    match a.op
    case Const(id, s) => env(id, s)
    case BvNum(v, w) => BitVec(v, w)
    case IntNum(i) => IntVal(i)
    case Ite =>
      if |a.args| == 3 && Eval(env, a.args[0]).BoolVal? then
        if Eval(env, a.args[0]).b then Eval(env, a.args[1]) else Eval(env, a.args[2])
      else BoolVal(false)
    case _ =>
      if |a.args| == 1 then Unary(a.op, Eval(env, a.args[0]))
      else if |a.args| == 2 then Binary(a.op, Eval(env, a.args[0]), Eval(env, a.args[1]))
      else BoolVal(false)
  }

  /** `t` denotes a bit-vector of positive width `n` with the bits of `x`. */
  ghost predicate Denotes(env: Env, t: Ast, x: nat, n: nat) {
    n > 0 && x < Pow2(n) && SortOf(t) == BvSort(n) && Eval(env, t) == BitVec(x, n)
  }

  // ---------- signed integers ----------

  /** The integer that the bits of `x` stand for in two's complement. */
  function ToInt(x: nat, n: nat): int
    requires n > 0
  {
    if x < Pow2(n - 1) then x else x - Pow2(n)
  }

  predicate Fits(i: int, n: nat)
    requires n > 0
  {
    -Pow2(n - 1) <= i < Pow2(n - 1)
  }

  lemma HalfRange(n: nat)
    requires n > 0
    ensures Pow2(n) == 2 * Pow2(n - 1)
  {
  }

  lemma MsbIsNegative(x: nat, n: nat)
    requires n > 0 && x < Pow2(n)
    ensures MsbSet(x, n) <==> ToInt(x, n) < 0
  {
    HalfRange(n);
    TopBit(x, Pow2(n - 1));
  }

  /** Comparison by bits is comparison of integers. */
  lemma SltIsSigned(x: nat, y: nat, n: nat)
    requires n > 0 && x < Pow2(n) && y < Pow2(n)
    ensures SltBits(x, y, n) <==> ToInt(x, n) < ToInt(y, n)
  {
    MsbIsNegative(x, n);
    MsbIsNegative(y, n);
  }

  /** Addition wraps around when the integer sum does not fit. */
  lemma AddWraps(x: nat, y: nat, n: nat)
    requires n > 0 && x < Pow2(n) && y < Pow2(n)
    ensures var r, sum := (x + y) % Pow2(n), ToInt(x, n) + ToInt(y, n);
            && r < Pow2(n)
            && ToInt(r, n) == if Fits(sum, n) then sum else if sum >= 0 then sum - Pow2(n) else sum + Pow2(n)
  {
    ModOnce(x + y, Pow2(n));
  }

  lemma NegWraps(y: nat, n: nat)
    requires n > 0 && y < Pow2(n)
    ensures var r := (Pow2(n) - y) % Pow2(n);
            r < Pow2(n) && ToInt(r, n) == if Fits(-ToInt(y, n), n) then -ToInt(y, n) else ToInt(y, n)
  {
    ModOnce(Pow2(n) - y, Pow2(n));
  }

  // ---------- the parts ----------

  lemma ZeroDenotes(env: Env, t: Ast, n: nat)
    requires n > 0 && SortOf(t) == BvSort(n)
    ensures Denotes(env, Zero(t), 0, n)
  {
  }

  lemma SltEval(env: Env, a: Ast, b: Ast, x: nat, y: nat, n: nat)
    requires Denotes(env, a, x, n) && Denotes(env, b, y, n)
    ensures Eval(env, Slt(a, b)) == BoolVal(ToInt(x, n) < ToInt(y, n))
  {
    SltIsSigned(x, y, n);
  }

  lemma PlusDenotes(env: Env, a: Ast, b: Ast, x: nat, y: nat, n: nat)
    requires Denotes(env, a, x, n) && Denotes(env, b, y, n)
    ensures Denotes(env, Plus(a, b), (x + y) % Pow2(n), n)
  {
  }

  lemma NegDenotes(env: Env, a: Ast, x: nat, n: nat)
    requires Denotes(env, a, x, n)
    ensures Denotes(env, Neg(a), (Pow2(n) - x) % Pow2(n), n)
  {
  }

  lemma ImpBoth(env: Env, a: Ast, b: Ast, c: Ast, p: bool, q: bool, r: bool)
    requires Eval(env, a) == BoolVal(p) && Eval(env, b) == BoolVal(q) && Eval(env, c) == BoolVal(r)
    ensures Eval(env, Imp(Both(a, b), c)) == BoolVal(p && q ==> r)
  {
    assert Eval(env, Both(a, b)) == BoolVal(p && q);
  }

  lemma SmallerThanPow2(n: nat)
    ensures n < Pow2(n)
  {
    if n > 0 { SmallerThanPow2(n - 1); }
  }

  /** `Z3_mk_bvmsb` is the least signed integer. */
  lemma MsbIsMin(env: Env, n: nat)
    requires n > 0
    ensures Denotes(env, Msb(BvSort(n)), Pow2(n - 1), n) && ToInt(Pow2(n - 1), n) == -Pow2(n - 1)
  {
    SmallerThanPow2(n);
    HalfRange(n);
    ModOnce(n - 1, Pow2(n));
    ModOnce(1, Pow2(n));
    ModOnce(Pow2(n - 1), Pow2(n));
    ShlEval(env, n, Num(1, BvSort(n)), Num(n - 1, BvSort(n)));
  }

  lemma ShlEval(env: Env, n: nat, a: Ast, b: Ast)
    requires n > 0 && Eval(env, a) == BitVec(1, n) && Eval(env, b) == BitVec(n - 1, n)
    ensures Eval(env, Ast(BvShl, [a, b])) == BitVec(Pow2(n - 1) % Pow2(n), n)
  {
  }

  // ---------- exactness ----------

  lemma SignedAddNoOverflowExact(env: Env, t1: Ast, t2: Ast, x: nat, y: nat, n: nat)
    requires Denotes(env, t1, x, n) && Denotes(env, t2, y, n)
    ensures Eval(env, SignedAddNoOverflow(t1, t2)) == BoolVal(ToInt(x, n) + ToInt(y, n) <= Pow2(n - 1) - 1)
  {
    var zero, r := Zero(t1), (x + y) % Pow2(n);
    ZeroDenotes(env, t1, n);
    PlusDenotes(env, t1, t2, x, y, n);
    SltEval(env, zero, t1, 0, x, n);
    SltEval(env, zero, t2, 0, y, n);
    SltEval(env, zero, Plus(t1, t2), 0, r, n);
    AddWraps(x, y, n);
    ImpBoth(env, Slt(zero, t1), Slt(zero, t2), Slt(zero, Plus(t1, t2)),
            0 < ToInt(x, n), 0 < ToInt(y, n), 0 < ToInt(r, n));
  }

  lemma AddNoUnderflowExact(env: Env, t1: Ast, t2: Ast, x: nat, y: nat, n: nat)
    requires Denotes(env, t1, x, n) && Denotes(env, t2, y, n)
    ensures Eval(env, AddNoUnderflow(t1, t2)) == BoolVal(ToInt(x, n) + ToInt(y, n) >= -Pow2(n - 1))
  {
    var zero, r := Zero(t1), (x + y) % Pow2(n);
    ZeroDenotes(env, t1, n);
    PlusDenotes(env, t1, t2, x, y, n);
    SltEval(env, t1, zero, x, 0, n);
    SltEval(env, t2, zero, y, 0, n);
    SltEval(env, Plus(t1, t2), zero, r, 0, n);
    AddWraps(x, y, n);
    ImpBoth(env, Slt(t1, zero), Slt(t2, zero), Slt(Plus(t1, t2), zero),
            ToInt(x, n) < 0, ToInt(y, n) < 0, ToInt(r, n) < 0);
  }

  lemma SubNoOverflowExact(env: Env, t1: Ast, t2: Ast, x: nat, y: nat, n: nat)
    requires Denotes(env, t1, x, n) && Denotes(env, t2, y, n)
    ensures Eval(env, SubNoOverflow(t1, t2)) == BoolVal(ToInt(x, n) - ToInt(y, n) <= Pow2(n - 1) - 1)
  {
    MsbIsMin(env, n);
    assert Eval(env, Equal(t2, Msb(SortOf(t2)))) == BoolVal(y == Pow2(n - 1));
    ZeroDenotes(env, t2, n);
    SltEval(env, t1, Zero(t2), x, 0, n);
    NegDenotes(env, t2, y, n);
    NegWraps(y, n);
    SignedAddNoOverflowExact(env, t1, Neg(t2), x, (Pow2(n) - y) % Pow2(n), n);
  }

  lemma SignedSubNoUnderflowExact(env: Env, t1: Ast, t2: Ast, x: nat, y: nat, n: nat)
    requires Denotes(env, t1, x, n) && Denotes(env, t2, y, n)
    ensures Eval(env, SignedSubNoUnderflow(t1, t2)) == BoolVal(ToInt(x, n) - ToInt(y, n) >= -Pow2(n - 1))
  {
    ZeroDenotes(env, t1, n);
    SltEval(env, Zero(t1), t2, 0, y, n);
    NegDenotes(env, t2, y, n);
    NegWraps(y, n);
    AddNoUnderflowExact(env, t1, Neg(t2), x, (Pow2(n) - y) % Pow2(n), n);
  }

  lemma UnsignedSubNoUnderflowExact(env: Env, t1: Ast, t2: Ast, x: nat, y: nat, n: nat)
    requires Denotes(env, t1, x, n) && Denotes(env, t2, y, n)
    ensures Eval(env, UnsignedSubNoUnderflow(t1, t2)) == BoolVal(x - y >= 0)
  {
  }

  lemma UnsignedAddNoOverflowExact(env: Env, t1: Ast, t2: Ast, x: nat, y: nat, n: nat)
    requires Denotes(env, t1, x, n) && Denotes(env, t2, y, n)
    ensures Eval(env, UnsignedAddNoOverflow(t1, t2)) == BoolVal(x + y < Pow2(n))
  {
    var e1, e2 := Ast(ZeroExt(1), [t1]), Ast(ZeroExt(1), [t2]);
    assert Eval(env, e1) == BitVec(x, n + 1) && Eval(env, e2) == BitVec(y, n + 1);
    ModOnce(x + y, Pow2(n + 1));
    assert Eval(env, Plus(e1, e2)) == BitVec(x + y, n + 1);
    var ex := Ast(Extract(n, n), [Plus(e1, e2)]);
    assert Eval(env, ex) == BitVec((x + y) / Pow2(n) % Pow2(1), 1);
    TopBit(x + y, Pow2(n));
    assert Pow2(1) == 2;
    assert Eval(env, Num(0, BvSort(1))) == BitVec(0, 1);
  }

  lemma NegNoOverflowExact(env: Env, t: Ast, x: nat, n: nat)
    requires Denotes(env, t, x, n)
    ensures Eval(env, NegNoOverflow(t)) == BoolVal(-ToInt(x, n) <= Pow2(n - 1) - 1)
  {
    MsbIsMin(env, n);
    assert Eval(env, Equal(t, Msb(SortOf(t)))) == BoolVal(x == Pow2(n - 1));
  }

  /** Division that truncates toward zero. */
  function TruncDiv(a: int, b: int): int
    requires b != 0
  {
    if a >= 0 then if b > 0 then a / b else -(a / -b)
    else if b > 0 then -(-a / b) else -a / -b
  }

  lemma QuotientBound(a: nat, b: nat)
    requires b > 0
    ensures 0 <= a / b <= a && (b > 1 && a > 0 ==> a / b < a) && (b == 1 ==> a / b == a)
  {
    assert b * (a / b) <= a;
    MulMonotone(if b > 1 then 2 else 1, b, a / b);
  }

  /** The only quotient that does not fit is that of the least integer by -1. */
  lemma QuotientFits(a: int, b: int, h: int)
    requires h > 0 && -h <= a < h && -h <= b < h && b != 0
    ensures -h <= TruncDiv(a, b) < h <==> !(a == -h && b == -1)
  {
    QuotientBound(if a >= 0 then a else -a, if b >= 0 then b else -b);
  }

  lemma SdivNoOverflowExact(env: Env, t1: Ast, t2: Ast, x: nat, y: nat, n: nat)
    requires Denotes(env, t1, x, n) && Denotes(env, t2, y, n)
    ensures Eval(env, SdivNoOverflow(t1, t2))
            == BoolVal(y == 0 || Fits(TruncDiv(ToInt(x, n), ToInt(y, n)), n))
  {
    MsbIsMin(env, n);
    assert Eval(env, Equal(t1, Msb(SortOf(t1)))) == BoolVal(x == Pow2(n - 1));
    MinusOneEval(env, n, Pow2(n));
    HalfRange(n);
    assert Eval(env, Equal(t2, Num(-1, SortOf(t1)))) == BoolVal(y == Pow2(n) - 1);
    if y != 0 { QuotientFits(ToInt(x, n), ToInt(y, n), Pow2(n - 1)); }
  }

  lemma ModMinusOne(m: int)
    requires m > 0
    ensures (-1) % m == m - 1
  {
    var q := (-1) / m;
    assert -1 == m * q + (-1) % m;
    if q >= 0 { MulMonotone(0, q, m); }
    if q <= -2 { MulMonotone(q, -2, m); }
  }

  lemma NumEval(env: Env, v: int, n: nat)
    ensures Eval(env, Num(v, BvSort(n))) == BitVec(v % Pow2(n), n)
  {
  }

  lemma MinusOneEval(env: Env, n: nat, m: nat)
    requires m == Pow2(n)
    ensures Eval(env, Num(-1, BvSort(n))) == BitVec(m - 1, n)
  {
    ModMinusOne(m);
    NumEval(env, -1, n);
  }

  // ---------- conversion to integers ----------

  lemma SignedToIntExact(env: Env, t: Ast, x: nat, n: nat)
    requires Denotes(env, t, x, n)
    ensures Eval(env, UnsignedToInt(t)) == IntVal(x)
    ensures Eval(env, SignedToInt(t)) == IntVal(ToInt(x, n))
  {
    ZeroDenotes(env, t, n);
    SltEval(env, t, Zero(t), x, 0, n);
    assert Eval(env, Num(Pow2(Size(SortOf(t))), IntSort)) == IntVal(Pow2(n));
  }

  // ---------- numerals from bits ----------

  predicate TopSet(v: nat, h: int)
    requires h > 0
  {
    v / h % 2 == 1
  }

  function Low(v: nat, h: int): nat
    requires h > 0
  {
    v % h
  }

  /** The binary digits of `v`, least significant first. */
  function BitsOf(v: nat, n: nat): seq<bool>
    decreases n
  {
    if n == 0 then []
    else
      var h := Pow2(n - 1);
      BitsOf(Low(v, h), n - 1) + [TopSet(v, h)]
  }

  lemma SplitTop(low: nat, b: bool, h: nat)
    requires low < h
    ensures var v := low + if b then h else 0; Low(v, h) == low && TopSet(v, h) == b
  {
    ModOnce(low + if b then h else 0, h);
    TopBit(low + if b then h else 0, h);
  }

  lemma {:induction false} LittleSumBound(bits: seq<bool>)
    ensures LittleSum(bits) < Pow2(|bits|)
  {
    if bits != [] { LittleSumBound(bits[..|bits| - 1]); }
  }

  /** From bits to a number and back. */
  lemma {:induction false} BitsRoundTrip(bits: seq<bool>)
    ensures BitsOf(LittleSum(bits), |bits|) == bits
  {
    if bits != [] {
      var n := |bits| - 1;
      LittleSumBound(bits[..n]);
      BitsRoundTrip(bits[..n]);
      SplitTop(LittleSum(bits[..n]), bits[n], Pow2(n));
    }
  }

  /** From a number to bits and back. */
  lemma {:induction false} NumberRoundTrip(v: nat, n: nat)
    requires v < Pow2(n)
    ensures |BitsOf(v, n)| == n && LittleSum(BitsOf(v, n)) == v
  {
    if n > 0 {
      var h := Pow2(n - 1);
      HalfRange(n);
      ModOnce(v, h);
      TopBit(v, h);
      NumberRoundTrip(Low(v, h), n - 1);
      assert BitsOf(v, n)[..n - 1] == BitsOf(Low(v, h), n - 1);
    }
  }

  /** Different bit lists of one length give different numerals. */
  lemma LittleSumInjective(xs: seq<bool>, bs: seq<bool>)
    requires |xs| == |bs| && LittleSum(xs) == LittleSum(bs)
    ensures xs == bs
  {
    BitsRoundTrip(xs);
    BitsRoundTrip(bs);
  }

  /** The top bit counts negatively. */
  function TwosComplement(bits: seq<bool>): int
    requires bits != []
  {
    LittleSum(bits[..|bits| - 1]) - if bits[|bits| - 1] then Pow2(|bits| - 1) else 0
  }

  /** Conversions of a numeral back to integers. */
  lemma NumeralToInt(env: Env, bits: seq<bool>)
    requires bits != []
    ensures Eval(env, UnsignedToInt(BvNumeral(bits))) == IntVal(LittleSum(bits))
    ensures Eval(env, SignedToInt(BvNumeral(bits))) == IntVal(TwosComplement(bits))
  {
    var n := |bits|;
    LittleSumBound(bits);
    LittleSumBound(bits[..n - 1]);
    ModOnce(LittleSum(bits), Pow2(n));
    SignedToIntExact(env, BvNumeral(bits), LittleSum(bits), n);
  }
}
