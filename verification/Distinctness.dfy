/** What the theories know about two terms: different values, and, for bit-vectors, one
    term with two different numerals added to it. */
module Distinctness {
  import opened Terms
  import opened Abstraction
  import opened Congruence

  lemma DistinctSurvives<V(!new)>(S: Structure<V>, M: Model<V>, sub: Subst, a: Expr, b: Expr)
    requires ValuesOk(S) && KeepsConnectives(sub) && AreDistinct(a, b) && Comparable(a, b)
    ensures Eval(S, M, Replace(sub, a)) != Eval(S, M, Replace(sub, b))
  {
    UniqueUnchanged(sub, a);
    UniqueUnchanged(sub, b);
  }

  /** The tests that a theory has unless it has its own. */
  function DefaultTheory(simp: Expr -> Expr): Theory {
    Theory(simp, (a, b) => false, (a, b) => AreDistinct(a, b))
  }

  lemma DefaultTheoryOk<V(!new)>(S: Structure<V>, simp: Expr -> Expr)
    requires ValuesOk(S) && Simplifies(S, simp)
    ensures TheoryOk(S, DefaultTheory(simp))
  {
    var th := DefaultTheory(simp);
    forall M, sub, a, b | SortedModel(S, M) && IsAbstraction(sub) && KeepsConnectives(sub) && Comparable(a, b)
      ensures Known(S, M, th, sub, a, b)
    {
      if AreDistinct(a, b) { DistinctSurvives(S, M, sub, a, b); }
    }
  }

  // ---------- bit-vectors ----------

  function AddDecl(s: Sort): Decl { Decl(Named("bvadd"), Interpreted, [s, s], s) }

  function MkNumeral(s: Sort, n: nat): Expr { App(NumeralDecl(s, n), []) }

  predicate IsNumeral(e: Expr) {
    e.App? && e.decl.range.BitVec? && e.decl.name.Numeral? && e == MkNumeral(e.decl.range, e.decl.name.n)
  }

  /** A numeral plus some term. */
  predicate IsOffset(a: Expr) {
    a.App? && |a.args| == 2 && a.decl == AddDecl(a.decl.range) && IsNumeral(a.args[0])
  }

  function BaseOf(a: Expr): Expr { if IsOffset(a) then a.args[1] else a }
  function OffsetOf(a: Expr): nat { if IsOffset(a) then a.args[0].decl.name.n else 0 }

  /** Different values, or the same term with different numerals added. */
  predicate BvDistinct(a: Expr, b: Expr) {
    AreDistinct(a, b) || (BaseOf(a) == BaseOf(b) && OffsetOf(a) != OffsetOf(b))
  }

  /** The test tells apart all sums of one term with different numerals, and the term
      itself from its sum with a numeral other than zero. */
  lemma OffsetsApart(s: Sort, j: nat, k: nat, x: Expr)
    requires s.BitVec? && j != k
    ensures BvDistinct(App(AddDecl(s), [MkNumeral(s, j), x]), App(AddDecl(s), [MkNumeral(s, k), x]))
    ensures !IsOffset(x) && k > 0 ==> BvDistinct(x, App(AddDecl(s), [MkNumeral(s, k), x]))
    ensures BvDistinct(MkNumeral(s, j), MkNumeral(s, k))
  {
    assert IsNumeral(MkNumeral(s, j)) && IsNumeral(MkNumeral(s, k));
    assert IsOffset(App(AddDecl(s), [MkNumeral(s, j), x])) && IsOffset(App(AddDecl(s), [MkNumeral(s, k), x]));
    assert IsUnique(MkNumeral(s, j)) && IsUnique(MkNumeral(s, k));
    assert MkNumeral(s, j).decl.name.n == j && MkNumeral(s, k).decl.name.n == k;
  }

  function BvTheory(simp: Expr -> Expr): Theory {
    Theory(simp, (a, b) => false, (a, b) => BvDistinct(a, b))
  }

  /** The sum of a numeral and `x`. */
  function Plus<V(==)>(S: Structure<V>, s: Sort, n: nat, x: V): V {
    S.interp(AddDecl(s))([S.interp(NumeralDecl(s, n))([]), x])
  }

  /** Adding zero changes nothing, and adding different numerals that fit gives different
      sums. */
  ghost predicate AddOk<V(!new)>(S: Structure<V>) {
    && (forall s: Sort, x :: s.BitVec? && S.hasSort(x, s) ==> Plus(S, s, 0, x) == x)
    && (forall s: Sort, j: nat, k: nat, x ::
          s.BitVec? && S.hasSort(x, s) && IsValueOf(NumeralDecl(s, j)) && IsValueOf(NumeralDecl(s, k)) && j != k
          ==> Plus(S, s, j, x) != Plus(S, s, k, x))
  }

  /** A term is its base with its offset added, also after abstraction. */
  lemma OffsetMeaning<V(!new)>(S: Structure<V>, M: Model<V>, sub: Subst, a: Expr)
    requires SortsOk(S) && AddOk(S) && SortedModel(S, M) && IsAbstraction(sub) && KeepsConnectives(sub)
    requires WellSorted(a) && SortOf(a).BitVec?
    ensures var x := Eval(S, M, Replace(sub, BaseOf(a)));
            && S.hasSort(x, SortOf(a)) && IsValueOf(NumeralDecl(SortOf(a), OffsetOf(a)))
            && Eval(S, M, Replace(sub, a)) == Plus(S, SortOf(a), OffsetOf(a), x)
  {
    assert WellSorted(BaseOf(a)) && SortOf(BaseOf(a)) == SortOf(a);
    ReplaceSorted(sub, BaseOf(a));
    EvalHasSort(S, M, Replace(sub, BaseOf(a)));
    if IsOffset(a) {
      UniqueUnchanged(sub, a.args[0]);
      assert Replace(sub, a) == App(a.decl, ReplaceAll(sub, a.args));
      assert EvalAll(S, M, []) == [];
      assert Vals(S, M, sub, a.args) == [Eval(S, M, a.args[0]), Eval(S, M, Replace(sub, a.args[1]))];
    }
  }

  lemma BvDistinctSound<V(!new)>(S: Structure<V>, M: Model<V>, sub: Subst, a: Expr, b: Expr)
    requires SortsOk(S) && ValuesOk(S) && AddOk(S) && Comparable(a, b)
    requires SortedModel(S, M) && IsAbstraction(sub) && KeepsConnectives(sub) && BvDistinct(a, b)
    ensures Eval(S, M, Replace(sub, a)) != Eval(S, M, Replace(sub, b))
  {
    if AreDistinct(a, b) {
      DistinctSurvives(S, M, sub, a, b);
    } else {
      OffsetMeaning(S, M, sub, a);
      OffsetMeaning(S, M, sub, b);
    }
  }

  /** The test of the bit-vector theory is right about abstracted terms. */
  lemma BvTheoryOk<V(!new)>(S: Structure<V>, simp: Expr -> Expr)
    requires SortsOk(S) && ValuesOk(S) && AddOk(S) && Simplifies(S, simp)
    ensures TheoryOk(S, BvTheory(simp))
  {
    var th := BvTheory(simp);
    forall M, sub, a, b | SortedModel(S, M) && IsAbstraction(sub) && KeepsConnectives(sub) && Comparable(a, b)
      ensures Known(S, M, th, sub, a, b)
    {
      if BvDistinct(a, b) { BvDistinctSound(S, M, sub, a, b); }
    }
  }
}
