/** Ackermann lemmas as formulas, what they say in a model, and why the omitted ones
    are not missed. */
module Congruence {
  import opened Terms
  import opened AckrHelper
  import opened Abstraction

  // ---------- the set of collected terms ----------

  function CollectedFuns(R: set<Expr>): set<Expr> {
    set a | a in R && FunApp(a) && a.decl !in NonFuns(R)
  }

  function CollectedSels(R: set<Expr>): set<Expr> {
    set a | a in R && IsSelect(a) && a.args[0] !in NonSelect(R)
  }

  /** The array constants that disappear: their only uses are collected selects. */
  function Consumed(R: set<Expr>): set<Expr> {
    set a | a in CollectedSels(R) :: a.args[0]
  }

  ghost predicate SameClass(t1: Expr, t2: Expr) {
    || (FunApp(t1) && FunApp(t2) && t1.decl == t2.decl)
    || (IsSelect(t1) && IsSelect(t2) && t1.args[0] == t2.args[0])
  }

  /** The constant for `t` is not a symbol of `a`. */
  predicate Apart(sub: Subst, t: Expr, a: Expr)
    requires t in sub && sub[t].App? && a.App?
  {
    sub[t].decl != a.decl && (IsHigher(a.decl) ==> sub[t].decl != a.decl.kind.f)
  }

  /** Keys of the abstraction are exactly the collected terms of `R`, and their
      constants do not occur in `R`. */
  ghost predicate Abstracts(sub: Subst, R: set<Expr>) {
    && IsAbstraction(sub)
    && sub.Keys == CollectedFuns(R) + CollectedSels(R)
    && (forall t, a {:trigger Apart(sub, t, a)} :: t in sub && a in R && a.App? ==> Apart(sub, t, a))
  }

  // ---------- the lemma for a pair ----------

  /** What the encoder asks the theories: to simplify a formula, and whether two terms
      are known to be equal, or to be different. */
  datatype Theory = Theory(simp: Expr -> Expr, equal: (Expr, Expr) -> bool, distinct: (Expr, Expr) -> bool)

  predicate AreEqual(th: Theory, a: Expr, b: Expr) { a == b || th.equal(a, b) }

  /** Equations between the arguments that are not known to be equal. */
  function Diffs(th: Theory, xs: seq<Expr>, ys: seq<Expr>): seq<Expr>
    requires |xs| == |ys|
  {
    if xs == [] then []
    else
      var n := |xs| - 1;
      Diffs(th, xs[..n], ys[..n]) + if AreEqual(th, xs[n], ys[n]) then [] else [MkEq(xs[n], ys[n])]
  }

  /** The first pair of arguments that is not known to be equal and known to be different. */
  predicate NeverEqual(th: Theory, xs: seq<Expr>, ys: seq<Expr>)
    requires |xs| == |ys|
  {
    exists i :: 0 <= i < |xs| && NotEqualAt(th, xs[i], ys[i])
  }

  predicate NotEqualAt(th: Theory, a: Expr, b: Expr) { !AreEqual(th, a, b) && th.distinct(a, b) }

  /** The equations are those between arguments at one position that are different terms and
      not known to be equal. */
  lemma {:induction false} DiffsMember(th: Theory, xs: seq<Expr>, ys: seq<Expr>, e: Expr)
    requires |xs| == |ys|
    ensures e in Diffs(th, xs, ys) <==>
              exists i :: 0 <= i < |xs| && xs[i] != ys[i] && !th.equal(xs[i], ys[i]) && e == MkEq(xs[i], ys[i])
  {
    if xs != [] {
      var n := |xs| - 1;
      DiffsMember(th, xs[..n], ys[..n], e);
      if i :| 0 <= i < |xs| && xs[i] != ys[i] && !th.equal(xs[i], ys[i]) && e == MkEq(xs[i], ys[i]) {
        assert i < n ==> xs[..n][i] == xs[i] && ys[..n][i] == ys[i];
      }
    }
  }

  function CongruenceFormula(th: Theory, sub: Subst, t1: Expr, t2: Expr): Expr
    requires t1 in sub && t2 in sub && t1.App? && t2.App? && |t1.args| == |t2.args|
  {
    MkImplies(MkAnd(Diffs(th, t1.args, t2.args)), MkEq(sub[t1], sub[t2]))
  }

  /** What is emitted for a pair: nothing if two arguments are known to be different or the
      simplified lemma is the constant true. */
  function Emitted(sub: Subst, th: Theory, t1: Expr, t2: Expr): seq<Expr>
    requires t1 in sub && t2 in sub && t1.App? && t2.App? && |t1.args| == |t2.args|
  {
    if NeverEqual(th, t1.args, t2.args) then []
    else
      var l := th.simp(Replace(sub, CongruenceFormula(th, sub, t1, t2)));
      if l == True() then [] else [l]
  }

  // ---------- meaning ----------

  /** What the theories know about two terms is true of their abstractions. */
  ghost predicate Known<V(!new)>(S: Structure<V>, M: Model<V>, th: Theory, sub: Subst, a: Expr, b: Expr) {
    && (th.equal(a, b) ==> Eval(S, M, Replace(sub, a)) == Eval(S, M, Replace(sub, b)))
    && (th.distinct(a, b) ==> Eval(S, M, Replace(sub, a)) != Eval(S, M, Replace(sub, b)))
  }

  ghost predicate Keeps<V(!new)>(S: Structure<V>, e: Expr, r: Expr) {
    IsFormula(r) && forall M :: SortedModel(S, M) ==> Eval(S, M, r) == Eval(S, M, e)
  }

  /** The simplifier keeps the meaning of formulas. */
  ghost predicate Simplifies<V(!new)>(S: Structure<V>, simp: Expr -> Expr) {
    forall e :: IsFormula(e) ==> Keeps(S, e, simp(e))
  }

  /** And the tests on terms are right, also about abstracted terms, since they look at
      interpreted symbols and syntactic equality only. */
  ghost predicate TheoryOk<V(!new)>(S: Structure<V>, th: Theory) {
    && Simplifies(S, th.simp)
    && (forall M, sub, a, b {:trigger Known(S, M, th, sub, a, b)} ::
          SortedModel(S, M) && IsAbstraction(sub) && KeepsConnectives(sub) && Comparable(a, b)
          ==> Known(S, M, th, sub, a, b))
  }

  ghost function Vals<V(!new)>(S: Structure<V>, M: Model<V>, sub: Subst, es: seq<Expr>): seq<V> {
    EvalAll(S, M, ReplaceAll(sub, es))
  }

  /** The abstracted applications of each class behave like one function. */
  ghost predicate Congruent<V(!new)>(S: Structure<V>, M: Model<V>, sub: Subst)
    requires IsAbstraction(sub)
  {
    forall t1, t2 :: t1 in sub && t2 in sub && SameClass(t1, t2)
                     && Vals(S, M, sub, t1.args) == Vals(S, M, sub, t2.args)
                     ==> Eval(S, M, sub[t1]) == Eval(S, M, sub[t2])
  }

  /** Only free applications and selects are replaced, so connectives are kept. */
  ghost predicate KeepsConnectives(sub: Subst) {
    forall t :: t in sub ==> FunApp(t) || IsSelect(t)
  }

  ghost predicate AllHold<V(!new)>(S: Structure<V>, M: Model<V>, sub: Subst, es: seq<Expr>) {
    forall i :: 0 <= i < |es| ==> Holds(S, M, Replace(sub, es[i]))
  }

  lemma AndMeaning<V(!new)>(S: Structure<V>, M: Model<V>, sub: Subst, es: seq<Expr>)
    requires BoolOk(S) && KeepsConnectives(sub)
    ensures Holds(S, M, Replace(sub, MkAnd(es))) <==> AllHold(S, M, sub, es)
  {
    if |es| == 0 {
      AndOfNone(S, M, sub);
    } else if |es| > 1 {
      BoolAnd(S, Vals(S, M, sub, es));
      AndOfMany(S, M, sub, es, Vals(S, M, sub, es));
    } else {
      AndOfOne(S, M, sub, es);
    }
  }

  lemma AndOfOne<V(!new)>(S: Structure<V>, M: Model<V>, sub: Subst, es: seq<Expr>)
    requires |es| == 1
    ensures Holds(S, M, Replace(sub, MkAnd(es))) <==> AllHold(S, M, sub, es)
  {
    assert AllHold(S, M, sub, es) <==> Holds(S, M, Replace(sub, es[0]));
  }

  lemma BoolAnd<V(!new)>(S: Structure<V>, vs: seq<V>)
    requires BoolOk(S)
    ensures S.interp(AndDecl(|vs|))(vs) == Tt(S) <==> forall i :: 0 <= i < |vs| ==> vs[i] == Tt(S)
  {
  }

  lemma AndOfNone<V(!new)>(S: Structure<V>, M: Model<V>, sub: Subst)
    requires KeepsConnectives(sub)
    ensures Holds(S, M, Replace(sub, MkAnd([])))
  {
    assert Replace(sub, MkAnd([])) == MkAnd([]) by { assert ReplaceAll(sub, []) == []; }
    assert EvalAll(S, M, []) == [];
  }

  lemma AndOfMany<V(!new)>(S: Structure<V>, M: Model<V>, sub: Subst, es: seq<Expr>, vs: seq<V>)
    requires KeepsConnectives(sub) && |es| > 1 && vs == Vals(S, M, sub, es)
    requires S.interp(AndDecl(|vs|))(vs) == Tt(S) <==> forall i :: 0 <= i < |vs| ==> vs[i] == Tt(S)
    ensures Holds(S, M, Replace(sub, MkAnd(es))) <==> AllHold(S, M, sub, es)
  {
    var conj := MkAnd(es);
    assert conj !in sub;
    assert Replace(sub, conj) == App(AndDecl(|es|), ReplaceAll(sub, es));
    assert Eval(S, M, Replace(sub, conj)) == S.interp(AndDecl(|vs|))(vs);
  }

  lemma EqMeaning<V(!new)>(S: Structure<V>, M: Model<V>, sub: Subst, a: Expr, b: Expr)
    requires BoolOk(S) && KeepsConnectives(sub)
    ensures Holds(S, M, Replace(sub, MkEq(a, b))) <==> Eval(S, M, Replace(sub, a)) == Eval(S, M, Replace(sub, b))
  {
    assert Vals(S, M, sub, [a, b]) == [Eval(S, M, Replace(sub, a)), Eval(S, M, Replace(sub, b))];
  }

  lemma ImpliesMeaning<V(!new)>(S: Structure<V>, M: Model<V>, sub: Subst, a: Expr, b: Expr)
    requires BoolOk(S) && KeepsConnectives(sub)
    ensures Holds(S, M, Replace(sub, MkImplies(a, b)))
            <==> (Holds(S, M, Replace(sub, a)) ==> Holds(S, M, Replace(sub, b)))
  {
    assert Vals(S, M, sub, [a, b]) == [Eval(S, M, Replace(sub, a)), Eval(S, M, Replace(sub, b))];
  }

  lemma AllHoldAppend<V(!new)>(S: Structure<V>, M: Model<V>, sub: Subst, es: seq<Expr>, e: Expr)
    ensures AllHold(S, M, sub, es + [e]) <==> AllHold(S, M, sub, es) && Holds(S, M, Replace(sub, e))
  {
    var all := es + [e];
    assert all[|es|] == e;
    forall i | 0 <= i < |es| ensures all[i] == es[i] {}
    if AllHold(S, M, sub, all) {
      forall i | 0 <= i < |es| ensures Holds(S, M, Replace(sub, es[i])) { assert all[i] == es[i]; }
    }
  }

  lemma ValsAppend<V(!new)>(S: Structure<V>, M: Model<V>, sub: Subst, es: seq<Expr>, e: Expr)
    ensures Vals(S, M, sub, es + [e]) == Vals(S, M, sub, es) + [Eval(S, M, Replace(sub, e))]
  {
  }

  predicate AllComparable(xs: seq<Expr>, ys: seq<Expr>) {
    |xs| == |ys| && forall i :: 0 <= i < |xs| ==> Comparable(xs[i], ys[i])
  }

  /** Two applications that the encoder may pair. */
  predicate SameShape(t1: Expr, t2: Expr) {
    WellSorted(t1) && WellSorted(t2) && t1.App? && t2.App? && t1.decl == t2.decl
  }

  lemma AllButLast(xs: seq<Expr>, ys: seq<Expr>)
    requires AllComparable(xs, ys) && xs != []
    ensures var n := |xs| - 1; AllComparable(xs[..n], ys[..n]) && Comparable(xs[n], ys[n])
    ensures var n := |xs| - 1; xs == xs[..n] + [xs[n]] && ys == ys[..n] + [ys[n]]
  {
  }

  lemma {:induction false} DiffsMeaning<V(!new)>(S: Structure<V>, M: Model<V>, sub: Subst, th: Theory, xs: seq<Expr>,
                                                 ys: seq<Expr>)
    requires BoolOk(S) && TheoryOk(S, th) && SortedModel(S, M) && IsAbstraction(sub) && KeepsConnectives(sub)
    requires AllComparable(xs, ys)
    ensures AllHold(S, M, sub, Diffs(th, xs, ys)) <==> Vals(S, M, sub, xs) == Vals(S, M, sub, ys)
  {
    if xs != [] {
      var n := |xs| - 1;
      var a, b := xs[n], ys[n];
      AllButLast(xs, ys);
      DiffsMeaning(S, M, sub, th, xs[..n], ys[..n]);
      ValsAppend(S, M, sub, xs[..n], a);
      ValsAppend(S, M, sub, ys[..n], b);
      AllHoldAppend(S, M, sub, Diffs(th, xs[..n], ys[..n]), MkEq(a, b));
      EqMeaning(S, M, sub, a, b);
      AppendInjective(Vals(S, M, sub, xs[..n]), Eval(S, M, Replace(sub, a)),
                      Vals(S, M, sub, ys[..n]), Eval(S, M, Replace(sub, b)));
      EqualSound(S, M, sub, th, a, b);
      DiffsStep(th, xs, ys);
    } else {
      assert xs == ys;
    }
  }

  lemma DiffsStep(th: Theory, xs: seq<Expr>, ys: seq<Expr>)
    requires |xs| == |ys| > 0
    ensures var n := |xs| - 1; var rest := Diffs(th, xs[..n], ys[..n]);
            Diffs(th, xs, ys) == if AreEqual(th, xs[n], ys[n]) then rest else rest + [MkEq(xs[n], ys[n])]
  {
  }

  lemma EqualSound<V(!new)>(S: Structure<V>, M: Model<V>, sub: Subst, th: Theory, a: Expr, b: Expr)
    requires TheoryOk(S, th) && SortedModel(S, M) && IsAbstraction(sub) && KeepsConnectives(sub) && Comparable(a, b)
    ensures AreEqual(th, a, b) ==> Eval(S, M, Replace(sub, a)) == Eval(S, M, Replace(sub, b))
    ensures NotEqualAt(th, a, b) ==> Eval(S, M, Replace(sub, a)) != Eval(S, M, Replace(sub, b))
  {
    assert Known(S, M, th, sub, a, b);
  }

  lemma AppendInjective<T>(s: seq<T>, x: T, t: seq<T>, y: T)
    ensures s + [x] == t + [y] <==> s == t && x == y
  {
    if s + [x] == t + [y] {
      assert (s + [x])[..|s|] == s && (t + [y])[..|t|] == t;
      assert (s + [x])[|s|] == x && (t + [y])[|t|] == y;
    }
  }

  /** A lemma holds exactly in the models where its pair is congruent. */
  lemma CongruenceFormulaMeaning<V(!new)>(S: Structure<V>, M: Model<V>, sub: Subst, th: Theory, t1: Expr, t2: Expr)
    requires BoolOk(S) && TheoryOk(S, th) && SortedModel(S, M) && IsAbstraction(sub) && KeepsConnectives(sub)
    requires t1 in sub && t2 in sub && SameShape(t1, t2)
    ensures Holds(S, M, Replace(sub, CongruenceFormula(th, sub, t1, t2)))
            <==> (Vals(S, M, sub, t1.args) == Vals(S, M, sub, t2.args)
                  ==> Eval(S, M, sub[t1]) == Eval(S, M, sub[t2]))
  {
    var eqs, c1, c2 := Diffs(th, t1.args, t2.args), sub[t1], sub[t2];
    DiffsMeaning(S, M, sub, th, t1.args, t2.args);
    LemmaMeaning(S, M, sub, eqs, c1, c2);
  }

  lemma LemmaMeaning<V(!new)>(S: Structure<V>, M: Model<V>, sub: Subst, eqs: seq<Expr>, c1: Expr, c2: Expr)
    requires BoolOk(S) && KeepsConnectives(sub) && IsUninterpConst(c1) && IsUninterpConst(c2)
    ensures Holds(S, M, Replace(sub, MkImplies(MkAnd(eqs), MkEq(c1, c2))))
            <==> (AllHold(S, M, sub, eqs) ==> Eval(S, M, c1) == Eval(S, M, c2))
  {
    ConstantUnchanged(sub, c1);
    ConstantUnchanged(sub, c2);
    ImpliesMeaning(S, M, sub, MkAnd(eqs), MkEq(c1, c2));
    AndMeaning(S, M, sub, eqs);
    EqMeaning(S, M, sub, c1, c2);
  }

  lemma ConstantUnchanged(sub: Subst, c: Expr)
    requires KeepsConnectives(sub) && IsUninterpConst(c)
    ensures Replace(sub, c) == c
  {
    assert c !in sub;
    assert ReplaceAll(sub, c.args) == c.args;
  }

  lemma {:induction false} UniqueUnchanged(sub: Subst, e: Expr)
    requires KeepsConnectives(sub) && IsUnique(e)
    ensures Replace(sub, e) == e
    decreases e
  {
    forall i | 0 <= i < |e.args| ensures ReplaceAll(sub, e.args)[i] == e.args[i] {
      UniqueUnchanged(sub, e.args[i]);
    }
    assert ReplaceAll(sub, e.args) == e.args;
  }

  /** Two lists of arguments with different values somewhere. */
  predicate ValuesDiffer(xs: seq<Expr>, ys: seq<Expr>)
    requires |xs| == |ys|
  {
    exists i :: 0 <= i < |xs| && AreDistinct(xs[i], ys[i])
  }

  /** Distinct value arguments never evaluate alike, so no lemma is needed. */
  lemma ValuesDifferSound<V(!new)>(S: Structure<V>, M: Model<V>, sub: Subst, xs: seq<Expr>, ys: seq<Expr>)
    requires ValuesOk(S) && KeepsConnectives(sub) && AllComparable(xs, ys) && ValuesDiffer(xs, ys)
    ensures Vals(S, M, sub, xs) != Vals(S, M, sub, ys)
  {
    var i :| 0 <= i < |xs| && AreDistinct(xs[i], ys[i]);
    UniqueUnchanged(sub, xs[i]);
    UniqueUnchanged(sub, ys[i]);
    assert Vals(S, M, sub, xs)[i] != Vals(S, M, sub, ys)[i];
  }

  /** Nor do arguments that a theory knows to be different. */
  lemma NeverEqualSound<V(!new)>(S: Structure<V>, M: Model<V>, sub: Subst, th: Theory, xs: seq<Expr>, ys: seq<Expr>)
    requires TheoryOk(S, th) && SortedModel(S, M) && IsAbstraction(sub) && KeepsConnectives(sub)
    requires AllComparable(xs, ys) && NeverEqual(th, xs, ys)
    ensures Vals(S, M, sub, xs) != Vals(S, M, sub, ys)
  {
    var i :| 0 <= i < |xs| && NotEqualAt(th, xs[i], ys[i]);
    EqualSound(S, M, sub, th, xs[i], ys[i]);
    assert Vals(S, M, sub, xs)[i] != Vals(S, M, sub, ys)[i];
  }

  lemma SimplifiedMeaning<V(!new)>(S: Structure<V>, M: Model<V>, th: Theory, f: Expr)
    requires TheoryOk(S, th) && SortedModel(S, M) && IsFormula(f)
    ensures HoldAll(S, M, if th.simp(f) == True() then [] else [th.simp(f)]) <==> Holds(S, M, f)
  {
    assert Keeps(S, f, th.simp(f));
    assert EvalAll(S, M, []) == [];
    assert Holds(S, M, True());
    assert [th.simp(f)][0] == th.simp(f);
  }

  // ---------- the lemmas are formulas ----------

  lemma {:induction false} ReplaceSorted(sub: Subst, e: Expr)
    requires IsAbstraction(sub) && WellSorted(e)
    ensures WellSorted(Replace(sub, e)) && SortOf(Replace(sub, e)) == SortOf(e)
    decreases e
  {
    if e in sub {
    } else if e.App? {
      forall i | 0 <= i < |e.args|
        ensures WellSorted(Replace(sub, e.args[i])) && SortOf(Replace(sub, e.args[i])) == SortOf(e.args[i])
      {
        ReplaceSorted(sub, e.args[i]);
      }
    } else if e.Quant? {
      ReplaceSorted(sub, e.body);
    }
  }

  lemma AndIsFormula(es: seq<Expr>)
    requires AreFormulas(es)
    ensures IsFormula(MkAnd(es))
  {
    if |es| > 1 {
      forall i | 0 <= i < |es| ensures WellSorted(es[i]) && SortOf(es[i]) == AndDecl(|es|).domain[i] {
        assert IsFormula(es[i]);
      }
    }
  }

  lemma EqIsFormula(a: Expr, b: Expr)
    requires Comparable(a, b)
    ensures IsFormula(MkEq(a, b))
  {
  }

  lemma ImpliesIsFormula(a: Expr, b: Expr)
    requires IsFormula(a) && IsFormula(b)
    ensures IsFormula(MkImplies(a, b))
  {
  }

  lemma {:induction false} DiffsAreFormulas(th: Theory, xs: seq<Expr>, ys: seq<Expr>)
    requires AllComparable(xs, ys)
    ensures AreFormulas(Diffs(th, xs, ys))
  {
    if xs != [] {
      var n := |xs| - 1;
      DiffsAreFormulas(th, xs[..n], ys[..n]);
      EqIsFormula(xs[n], ys[n]);
    }
  }

  lemma LemmaIsFormula(sub: Subst, th: Theory, t1: Expr, t2: Expr)
    requires IsAbstraction(sub) && t1 in sub && t2 in sub && SameShape(t1, t2)
    ensures IsFormula(Replace(sub, CongruenceFormula(th, sub, t1, t2)))
  {
    var eqs := Diffs(th, t1.args, t2.args);
    DiffsAreFormulas(th, t1.args, t2.args);
    AndIsFormula(eqs);
    EqIsFormula(sub[t1], sub[t2]);
    ImpliesIsFormula(MkAnd(eqs), MkEq(sub[t1], sub[t2]));
    ReplaceSorted(sub, CongruenceFormula(th, sub, t1, t2));
  }

  lemma EmittedAreFormulas<V(!new)>(S: Structure<V>, sub: Subst, th: Theory, t1: Expr, t2: Expr)
    requires TheoryOk(S, th) && IsAbstraction(sub) && t1 in sub && t2 in sub && SameShape(t1, t2)
    ensures AreFormulas(Emitted(sub, th, t1, t2))
  {
    LemmaIsFormula(sub, th, t1, t2);
    var f := Replace(sub, CongruenceFormula(th, sub, t1, t2));
    assert Keeps(S, f, th.simp(f));
  }

  /** What a pair contributes, in any sorted model: its congruence, nothing less. */
  lemma EmittedMeaning<V(!new)>(S: Structure<V>, M: Model<V>, sub: Subst, th: Theory, t1: Expr, t2: Expr)
    requires BoolOk(S) && ValuesOk(S) && TheoryOk(S, th) && SortedModel(S, M)
    requires IsAbstraction(sub) && KeepsConnectives(sub)
    requires t1 in sub && t2 in sub && SameShape(t1, t2)
    ensures HoldAll(S, M, Emitted(sub, th, t1, t2))
            <==> (Vals(S, M, sub, t1.args) == Vals(S, M, sub, t2.args)
                  ==> Eval(S, M, sub[t1]) == Eval(S, M, sub[t2]))
  {
    if NeverEqual(th, t1.args, t2.args) {
      NeverEqualSound(S, M, sub, th, t1.args, t2.args);
    } else {
      CongruenceFormulaMeaning(S, M, sub, th, t1, t2);
      LemmaIsFormula(sub, th, t1, t2);
      SimplifiedMeaning(S, M, th, Replace(sub, CongruenceFormula(th, sub, t1, t2)));
    }
  }

  /** Two different applications of a class over unique values differ in an argument. */
  lemma ConstPairNeverEqual(t1: Expr, t2: Expr)
    requires SameClass(t1, t2) && t1 != t2 && ConstArgs(t1) && ConstArgs(t2)
    requires WellSorted(t1) && WellSorted(t2)
    ensures |t1.args| == |t2.args| && ValuesDiffer(t1.args, t2.args)
  {
    SameClassSameDecl(t1, t2);
    assert t1.args != t2.args;
    var i :| 0 <= i < |t1.args| && t1.args[i] != t2.args[i];
    var k := if IsSelect(t1) then i - 1 else i;
    assert KeyArgs(t1)[k] == t1.args[i] && KeyArgs(t2)[k] == t2.args[i];
    assert IsUnique(KeyArgs(t1)[k]) && IsUnique(KeyArgs(t2)[k]);
    assert AreDistinct(t1.args[i], t2.args[i]);
  }

  lemma SameClassSameDecl(t1: Expr, t2: Expr)
    requires SameClass(t1, t2) && WellSorted(t1) && WellSorted(t2)
    ensures SameShape(t1, t2)
  {
    if IsSelect(t1) {
      assert t1.decl.domain[0] == SortOf(t1.args[0]) && t2.decl.domain[0] == SortOf(t2.args[0]);
    }
  }

  // ---------- the emitted lemmas imply all the others ----------

  ghost predicate Covered(sub: Subst, th: Theory, ls: seq<Expr>, t1: Expr, t2: Expr)
    requires t1 in sub && t2 in sub && t1.App? && t2.App? && |t1.args| == |t2.args|
  {
    || (forall l :: l in Emitted(sub, th, t1, t2) ==> l in ls)
    || (forall l :: l in Emitted(sub, th, t2, t1) ==> l in ls)
  }

  /** Every pair of a class with a non-constant member was tried, in some orientation. */
  ghost predicate AllCovered(sub: Subst, th: Theory, ls: seq<Expr>)
    requires IsAbstraction(sub) && KeepsConnectives(sub) && forall t :: t in sub ==> WellSorted(t)
  {
    forall t1, t2 :: t1 in sub && t2 in sub && SameClass(t1, t2) && t1 != t2 && !(ConstArgs(t1) && ConstArgs(t2))
                     ==> |t1.args| == |t2.args| && Covered(sub, th, ls, t1, t2)
  }

  /** And every emitted formula is one of these lemmas. */
  ghost predicate OnlyLemmas(sub: Subst, th: Theory, ls: seq<Expr>)
    requires IsAbstraction(sub)
  {
    forall l :: l in ls ==> exists t1, t2 :: t1 in sub && t2 in sub && SameClass(t1, t2)
                                             && |t1.args| == |t2.args| && l in Emitted(sub, th, t1, t2)
  }

  lemma HoldAllIn<V(!new)>(S: Structure<V>, M: Model<V>, ls: seq<Expr>, some: seq<Expr>)
    requires HoldAll(S, M, ls) && forall l :: l in some ==> l in ls
    ensures HoldAll(S, M, some)
  {
    forall i | 0 <= i < |some| ensures Holds(S, M, some[i]) {
      assert some[i] in ls;
      var j :| 0 <= j < |ls| && ls[j] == some[i];
    }
  }

  /** Main result on lemmas: the emitted ones hold exactly in the congruent models. */
  lemma LemmasAreCongruence<V(!new)>(S: Structure<V>, M: Model<V>, sub: Subst, th: Theory, ls: seq<Expr>)
    requires BoolOk(S) && ValuesOk(S) && TheoryOk(S, th) && SortedModel(S, M)
    requires IsAbstraction(sub) && KeepsConnectives(sub) && forall t :: t in sub ==> WellSorted(t)
    requires AllCovered(sub, th, ls) && OnlyLemmas(sub, th, ls)
    ensures HoldAll(S, M, ls) <==> Congruent(S, M, sub)
  {
    if HoldAll(S, M, ls) {
      forall t1, t2 | t1 in sub && t2 in sub && SameClass(t1, t2)
                      && Vals(S, M, sub, t1.args) == Vals(S, M, sub, t2.args)
        ensures Eval(S, M, sub[t1]) == Eval(S, M, sub[t2])
      {
        PairCongruent(S, M, sub, th, ls, t1, t2);
      }
    }
    if Congruent(S, M, sub) {
      forall i | 0 <= i < |ls| ensures Holds(S, M, ls[i]) {
        assert ls[i] in ls;
        var t1, t2 :| t1 in sub && t2 in sub && SameClass(t1, t2) && |t1.args| == |t2.args|
                      && ls[i] in Emitted(sub, th, t1, t2);
        SameClassSameDecl(t1, t2);
        EmittedMeaning(S, M, sub, th, t1, t2);
      }
    }
  }

  lemma PairCongruent<V(!new)>(S: Structure<V>, M: Model<V>, sub: Subst, th: Theory, ls: seq<Expr>,
                               t1: Expr, t2: Expr)
    requires BoolOk(S) && ValuesOk(S) && TheoryOk(S, th) && SortedModel(S, M)
    requires IsAbstraction(sub) && KeepsConnectives(sub) && forall t :: t in sub ==> WellSorted(t)
    requires AllCovered(sub, th, ls) && HoldAll(S, M, ls)
    requires t1 in sub && t2 in sub && SameClass(t1, t2)
    requires Vals(S, M, sub, t1.args) == Vals(S, M, sub, t2.args)
    ensures Eval(S, M, sub[t1]) == Eval(S, M, sub[t2])
  {
    if t1 != t2 {
      SameClassSameDecl(t1, t2);
      if ConstArgs(t1) && ConstArgs(t2) {
        ConstPairNeverEqual(t1, t2);
        ValuesDifferSound(S, M, sub, t1.args, t2.args);
      } else if forall l :: l in Emitted(sub, th, t1, t2) ==> l in ls {
        HoldAllIn(S, M, ls, Emitted(sub, th, t1, t2));
        EmittedMeaning(S, M, sub, th, t1, t2);
      } else {
        assert Covered(sub, th, ls, t1, t2);
        HoldAllIn(S, M, ls, Emitted(sub, th, t2, t1));
        EmittedMeaning(S, M, sub, th, t2, t1);
      }
    }
  }

  lemma LemmasAreFormulas<V(!new)>(S: Structure<V>, sub: Subst, th: Theory, ls: seq<Expr>)
    requires TheoryOk(S, th) && IsAbstraction(sub) && OnlyLemmas(sub, th, ls) && forall t :: t in sub ==> WellSorted(t)
    ensures AreFormulas(ls)
  {
    forall i | 0 <= i < |ls| ensures IsFormula(ls[i]) {
      assert ls[i] in ls;
      var t1, t2 :| t1 in sub && t2 in sub && SameClass(t1, t2) && |t1.args| == |t2.args|
                    && ls[i] in Emitted(sub, th, t1, t2);
      SameClassSameDecl(t1, t2);
      EmittedAreFormulas(S, sub, th, t1, t2);
    }
  }
}
