/** Formulas for which the encoder takes more pairs than its limit allows. */
module OverLimit {
  import opened Terms
  import opened AckrHelper
  import opened Congruence
  import opened Encoding
  import opened LemmaBound
  import opened Lackr

  const ELEM: Sort := Base(1)

  function F(): Decl { Decl(Named("f"), Uninterpreted, [ELEM], ELEM) }
  function Applied(i: nat): Expr { App(F(), [Point(i, ELEM)]) }
  function Formula(i: nat): Expr { MkEq(Applied(i), Applied(i)) }

  /** `f(x) = f(x)`, `f(xx) = f(xx)`, ... */
  function Formulas(n: nat): (fs: seq<Expr>)
    ensures |fs| == n && forall i :: 0 <= i < n ==> fs[i] == Formula(i)
  {
    seq(n, i requires 0 <= i < n => Formula(i))
  }

  lemma SubOfApplied(i: nat)
    ensures Sub(Applied(i)) == {Applied(i), Point(i, ELEM)}
  {
    assert Applied(i).args[0] == Point(i, ELEM);
    assert Sub(Point(i, ELEM)) == {Point(i, ELEM)};
  }

  lemma SubOfFormula(i: nat)
    ensures Sub(Formula(i)) == {Formula(i), Applied(i), Point(i, ELEM)}
  {
    SubOfApplied(i);
    assert Formula(i).args[0] == Formula(i).args[1] == Applied(i);
  }

  ghost predicate Reached(x: Expr, n: nat) {
    exists i: nat :: i < n && (x == Formula(i) || x == Applied(i) || x == Point(i, ELEM))
  }

  lemma Reaches(n: nat, x: Expr)
    ensures x in SubAll(Formulas(n)) <==> Reached(x, n)
  {
    var fs := Formulas(n);
    if x in SubAll(fs) {
      var i :| 0 <= i < |fs| && x in Sub(fs[i]);
      SubOfFormula(i);
    }
    if i: nat :| i < n && (x == Formula(i) || x == Applied(i) || x == Point(i, ELEM)) {
      SubOfFormula(i);
      assert x in Sub(fs[i]);
    }
  }

  lemma KindOf(n: nat, x: Expr)
    requires Reached(x, n)
    ensures x.App? && !IsHigher(x.decl) && !IsSelect(x) && x.decl.name.Named?
    ensures FunApp(x) <==> exists i: nat :: i < n && x == Applied(i)
    ensures FunApp(x) ==> x.decl == F() && !ConstArgs(x)
  {
    var i: nat :| i < n && (x == Formula(i) || x == Applied(i) || x == Point(i, ELEM));
    if FunApp(x) {
      assert x == Applied(i);
      assert KeyArgs(x)[0] == Point(i, ELEM) && !IsUnique(Point(i, ELEM));
    }
  }

  lemma FormulaOk(i: nat)
    ensures WellSorted(Formula(i)) && SortOf(Formula(i)) == BOOL
  {
    assert WellSorted(Point(i, ELEM));
    assert WellSorted(Applied(i));
  }

  /** What is needed of the reached terms `R`, whichever formulas they come from. */
  ghost predicate OnlyApplies(R: set<Expr>, f: Decl, group: set<Expr>) {
    && (forall x :: x in R ==> x.App? && !IsHigher(x.decl) && !IsSelect(x) && (FunApp(x) ==> x in group))
    && (forall x :: x in group ==> x in R && x.App? && FunApp(x) && x.decl == f && !ConstArgs(x))
  }

  lemma AppliesOnly(n: nat)
    ensures OnlyApplies(SubAll(Formulas(n)), F(), Applications(F(), ELEM, n))
  {
    forall x | x in SubAll(Formulas(n))
      ensures x.App? && !IsHigher(x.decl) && !IsSelect(x) && (FunApp(x) ==> x in Applications(F(), ELEM, n))
    {
      Reaches(n, x);
      KindOf(n, x);
      ApplicationIff(F(), ELEM, n, x);
    }
    forall x | x in Applications(F(), ELEM, n)
      ensures x in SubAll(Formulas(n)) && x.App? && FunApp(x) && x.decl == F() && !ConstArgs(x)
    {
      ApplicationIff(F(), ELEM, n, x);
      var i: nat :| i < n && x == App(F(), [Point(i, ELEM)]);
      assert x == Applied(i);
      Reaches(n, x);
      KindOf(n, x);
    }
  }

  lemma OneFunction(R: set<Expr>, f: Decl, group: set<Expr>, f2t: FunMap, s2t: SelMap)
    requires group != {} && OnlyApplies(R, f, group) && FunGroups(f2t, R) && SelGroups(s2t, R)
    ensures f2t == map[f := AppOcc({}, group)] && s2t == map[]
  {
    NothingPruned(R, f, group);
    var x :| x in group;
    assert f in FunKeys(R);
    OneGroupOf(R, f, group);
  }

  lemma NothingPruned(R: set<Expr>, f: Decl, group: set<Expr>)
    requires OnlyApplies(R, f, group)
    ensures NonFuns(R) == {} && SelKeys(R) == {} && FunKeys(R) <= {f}
  {
  }

  lemma OneGroupOf(R: set<Expr>, f: Decl, group: set<Expr>)
    requires OnlyApplies(R, f, group)
    ensures FunOcc(R, f) == AppOcc({}, group)
  {
    forall x ensures x in FunOcc(R, f).varArgs <==> x in group {}
    assert FunOcc(R, f).constArgs == {};
  }

  lemma Countable(n: nat)
    requires n == 0x2_0000
    ensures var o := AppOcc({}, Applications(F(), ELEM, n));
            && Applications(F(), ELEM, n) != {}
            && ComputedBound(map[F() := o], map[]) == Finite(0xFFFF_0000)
            && AllPairs(map[F() := o], map[]) == 0x1_FFFF_0000
  {
    ApplicationsMany(F(), ELEM, n);
    LimitExceeded(F(), AppOcc({}, Applications(F(), ELEM, n)));
  }

  lemma Usable(n: nat)
    ensures forall i :: 0 <= i < n ==> WellSorted(Formulas(n)[i]) && SortOf(Formulas(n)[i]) == BOOL
    ensures forall x :: x in SubAll(Formulas(n)) ==> x.App? && !IsHigher(x.decl) && x.decl.name.Named?
  {
    forall i | 0 <= i < n ensures WellSorted(Formulas(n)[i]) && SortOf(Formulas(n)[i]) == BOOL { FormulaOk(i); }
    forall x | x in SubAll(Formulas(n)) ensures x.App? && !IsHigher(x.decl) && x.decl.name.Named? {
      Reaches(n, x);
      KindOf(n, x);
    }
  }

  /** A first encoding of formulas without quantifiers, over named symbols. */
  method EncodeNew(fs: seq<Expr>, th: Theory, limit: real) returns (l: Lackr, ok: bool)
    requires limit > 0.0
    requires forall i :: 0 <= i < |fs| ==> WellSorted(fs[i]) && SortOf(fs[i]) == BOOL
    requires forall x :: x in SubAll(fs) ==> x.App? && !IsHigher(x.decl) && x.decl.name.Named?
    ensures l.formulas == fs && (ok <==> !ComputedBound(l.fun2terms, l.sel2terms).Exceeds(limit))
    ensures FunGroups(l.fun2terms, SubAll(fs)) && SelGroups(l.sel2terms, SubAll(fs))
  {
    l := new Lackr(fs, th, 0);
    assert l.R() == SubAll(fs);
    assert OlderThan(0, l.R());
    var goal;
    ok, goal := l.MkAckermann(UpTo(limit));
  }

  /** With 2^17 such formulas the encoder succeeds under a limit of 2^32 although it has to
      consider nearly twice as many pairs. */
  method EncodeOverLimit(n: nat, th: Theory) returns (l: Lackr, ok: bool)
    requires n == 0x2_0000
    ensures ok && l.formulas == Formulas(n) && AllPairs(l.fun2terms, l.sel2terms) as real > 8589000000.0
  {
    Usable(n);
    l, ok := EncodeNew(Formulas(n), th, 4294967296.0);
    AppliesOnly(n);
    Countable(n);
    OneFunction(l.R(), F(), Applications(F(), ELEM, n), l.fun2terms, l.sel2terms);
  }
}
