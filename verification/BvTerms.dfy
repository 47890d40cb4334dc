/** The terms that the bit-vector builders construct. */
module BvTerms {
  import opened AstManager
  import opened Powers

  /** Numerals of bit-vector sorts are reduced to the width. */
  function NumOp(v: int, s: AstSort): Op {
    if s.BvSort? then BvNum(v % Pow2(s.width), s.width) else IntNum(v)
  }

  function Num(v: int, s: AstSort): Ast { Ast(NumOp(v, s), []) }

  function SortOf(a: Ast): AstSort
    decreases a
  {
    match a.op
    case Const(_, s) => s
    case BvNum(_, w) => BvSort(w)
    case IntNum(_) => IntSort
    case Bv2Int => IntSort
    case IntSub => IntSort
    case BvAdd => if |a.args| > 0 then SortOf(a.args[0]) else BoolSort
    case BvNeg => if |a.args| > 0 then SortOf(a.args[0]) else BoolSort
    case BvShl => if |a.args| > 0 then SortOf(a.args[0]) else BoolSort
    case Ite => if |a.args| > 1 then SortOf(a.args[1]) else BoolSort
    case ZeroExt(k) => if |a.args| > 0 then BvSort(Size(SortOf(a.args[0])) + k) else BoolSort
    case Extract(h, l) => if l <= h then BvSort(h - l + 1) else BoolSort
    case _ => BoolSort
  }

  function Size(s: AstSort): nat { if s.BvSort? then s.width else 0 }

  function Slt(a: Ast, b: Ast): Ast { Ast(BvSlt, [a, b]) }
  function Plus(a: Ast, b: Ast): Ast { Ast(BvAdd, [a, b]) }
  function Neg(a: Ast): Ast { Ast(BvNeg, [a]) }
  function Both(a: Ast, b: Ast): Ast { Ast(And, [a, b]) }
  function Imp(a: Ast, b: Ast): Ast { Ast(Implies, [a, b]) }
  function Equal(a: Ast, b: Ast): Ast { Ast(Eq, [a, b]) }
  function Zero(t: Ast): Ast { Num(0, SortOf(t)) }
  function Msb(s: AstSort): Ast { Ast(BvShl, [Num(1, s), Num(Size(s) - 1, s)]) }

  function SignedAddNoOverflow(t1: Ast, t2: Ast): Ast {
    Imp(Both(Slt(Zero(t1), t1), Slt(Zero(t1), t2)), Slt(Zero(t1), Plus(t1, t2)))
  }

  function UnsignedAddNoOverflow(t1: Ast, t2: Ast): Ast {
    var n := Size(SortOf(t1));
    Equal(Ast(Extract(n, n), [Plus(Ast(ZeroExt(1), [t1]), Ast(ZeroExt(1), [t2]))]), Num(0, BvSort(1)))
  }

  function AddNoUnderflow(t1: Ast, t2: Ast): Ast {
    Imp(Both(Slt(t1, Zero(t1)), Slt(t2, Zero(t1))), Slt(Plus(t1, t2), Zero(t1)))
  }

  function SubNoOverflow(t1: Ast, t2: Ast): Ast {
    Ast(Ite, [Equal(t2, Msb(SortOf(t2))), Slt(t1, Zero(t2)), SignedAddNoOverflow(t1, Neg(t2))])
  }

  function SignedSubNoUnderflow(t1: Ast, t2: Ast): Ast {
    Imp(Slt(Zero(t1), t2), AddNoUnderflow(t1, Neg(t2)))
  }

  function UnsignedSubNoUnderflow(t1: Ast, t2: Ast): Ast { Ast(BvUle, [t2, t1]) }

  function NegNoOverflow(t: Ast): Ast { Ast(Not, [Equal(t, Msb(SortOf(t)))]) }

  function SdivNoOverflow(t1: Ast, t2: Ast): Ast {
    Ast(Not, [Both(Equal(t1, Msb(SortOf(t1))), Equal(t2, Num(-1, SortOf(t1))))])
  }

  function UnsignedToInt(t: Ast): Ast { Ast(Bv2Int, [t]) }

  function SignedToInt(t: Ast): Ast {
    Ast(Ite, [Slt(t, Zero(t)), Ast(IntSub, [UnsignedToInt(t), Num(Pow2(Size(SortOf(t))), IntSort)]), UnsignedToInt(t)])
  }

  /** The sum of the powers of two at the set bits, least significant first. */
  function LittleSum(bits: seq<bool>): nat {
    if bits == [] then 0
    else LittleSum(bits[..|bits| - 1]) + if bits[|bits| - 1] then Pow2(|bits| - 1) else 0
  }

  function BvNumeral(bits: seq<bool>): Ast { Num(LittleSum(bits), BvSort(|bits|)) }
}
