/** Abstraction preserves satisfiability: how a model of the input and a model of the
    abstraction are carried over to each other. */
module Equisat {
  import opened Terms
  import opened AckrHelper
  import opened Abstraction
  import opened Congruence

  /** Boolean, well-sorted, quantifier-free formulas: what collection lets through. */
  ghost predicate Input(fs: seq<Expr>) {
    forall i :: 0 <= i < |fs| ==> WellSorted(fs[i]) && SortOf(fs[i]) == BOOL && NoQuantifier(fs[i])
  }

  lemma {:induction false} SubWellSorted(x: Expr, e: Expr)
    requires x in Sub(e) && WellSorted(e)
    ensures x.Quant? || e.Quant? || WellSorted(x)
    decreases e
  {
    if x != e {
      var i :| 0 <= i < |e.args| && x in Sub(e.args[i]);
      SubWellSorted(x, e.args[i]);
    }
  }

  lemma ReachWellSorted(fs: seq<Expr>, x: Expr)
    requires Input(fs) && x in SubAll(fs)
    ensures WellSorted(x) && NoQuantifier(x) && !x.Quant?
  {
    var i :| 0 <= i < |fs| && x in Sub(fs[i]);
    assert fs[i] in Sub(fs[i]);
    SubWellSorted(x, fs[i]);
    forall y | y in Sub(x) ensures !y.Quant? { SubTransitive(y, x, fs[i]); }
  }

  lemma NonSelectArgMarked(R: set<Expr>, a: Expr, x: Expr)
    requires a in R
    ensures NonSelectArg(a, x) ==> x in NonSelect(R)
  {
    assert NonSelectArg(a, x) ==> x in a.args;
  }

  /** Pruning is safe: an array constant that survives it occurs only as the first
      argument of a collected select. */
  lemma ConsumedOnlyInSelects(fs: seq<Expr>, a: Expr, i: nat)
    requires a in SubAll(fs) && a.App? && i < |a.args|
    ensures a.args[i] in Consumed(SubAll(fs)) ==> i == 0 && a in CollectedSels(SubAll(fs))
  {
    NonSelectArgMarked(SubAll(fs), a, a.args[i]);
  }

  lemma FormulaNotConsumed(fs: seq<Expr>, i: nat)
    requires Input(fs) && i < |fs|
    ensures fs[i] in SubAll(fs) && fs[i] !in Consumed(SubAll(fs))
  {
    assert fs[i] in Sub(fs[i]);
    if fs[i] in Consumed(SubAll(fs)) {
      var s :| s in CollectedSels(SubAll(fs)) && s.args[0] == fs[i];
      ReachWellSorted(fs, s);
    }
  }

  // ---------- agreement of a term with its abstraction ----------

  /** `x` in the model `Mo` of the input means what its abstraction means in `Ma`. */
  ghost predicate Agrees<V(!new)>(S: Structure<V>, Mo: Model<V>, Ma: Model<V>, sub: Subst, x: Expr) {
    Eval(S, Mo, x) == Eval(S, Ma, Replace(sub, x))
  }

  /** Agreement passes from the arguments of an application to the application. */
  ghost predicate Stepwise<V(!new)>(S: Structure<V>, Mo: Model<V>, Ma: Model<V>, sub: Subst, R: set<Expr>) {
    forall a :: a in R && a.App? && a !in Consumed(R)
                && (forall x :: x in a.args && x !in Consumed(R) ==> Agrees(S, Mo, Ma, sub, x))
                ==> Agrees(S, Mo, Ma, sub, a)
  }

  lemma {:induction false} SubtermsAgree<V(!new)>(S: Structure<V>, Mo: Model<V>, Ma: Model<V>, sub: Subst,
                                                  fs: seq<Expr>, e: Expr)
    requires Input(fs) && IsAbstraction(sub) && Stepwise(S, Mo, Ma, sub, SubAll(fs))
    requires e in SubAll(fs) && e !in Consumed(SubAll(fs))
    ensures Agrees(S, Mo, Ma, sub, e)
    decreases e
  {
    ReachWellSorted(fs, e);
    if e.App? {
      forall x | x in e.args && x !in Consumed(SubAll(fs)) ensures Agrees(S, Mo, Ma, sub, x) {
        var i :| 0 <= i < |e.args| && e.args[i] == x;
        ArgInSubAll(e, i, fs);
        SubtermsAgree(S, Mo, Ma, sub, fs, x);
      }
    }
  }

  lemma FormulasAgree<V(!new)>(S: Structure<V>, Mo: Model<V>, Ma: Model<V>, sub: Subst, fs: seq<Expr>)
    requires Input(fs) && IsAbstraction(sub) && Stepwise(S, Mo, Ma, sub, SubAll(fs))
    ensures HoldAll(S, Mo, fs) <==> HoldAll(S, Ma, ReplaceAll(sub, fs))
  {
    forall i | 0 <= i < |fs| ensures Holds(S, Mo, fs[i]) <==> Holds(S, Ma, ReplaceAll(sub, fs)[i]) {
      FormulaNotConsumed(fs, i);
      SubtermsAgree(S, Mo, Ma, sub, fs, fs[i]);
    }
  }

  // ---------- symbols whose interpretation is kept ----------

  ghost predicate Untouched(sub: Subst, R: set<Expr>, d: Decl)
    requires IsAbstraction(sub)
  {
    && IsFree(d)
    && (forall t :: t in sub ==> sub[t].decl != d)
    && (forall t :: t in CollectedFuns(R) ==> t.decl != d)
    && (forall A :: A in Consumed(R) ==> A.decl != d)
  }

  ghost predicate SameUntouched<V(!new)>(Mo: Model<V>, Ma: Model<V>, sub: Subst, R: set<Expr>)
    requires IsAbstraction(sub)
  {
    forall d :: Untouched(sub, R, d) ==> Mo(d) == Ma(d)
  }

  lemma UncollectedFree(sub: Subst, fs: seq<Expr>, a: Expr)
    requires Input(fs) && Abstracts(sub, SubAll(fs))
    requires a in SubAll(fs) && a.App? && IsFree(a.decl) && a !in sub && a !in Consumed(SubAll(fs))
    ensures Untouched(sub, SubAll(fs), a.decl)
  {
    var R := SubAll(fs);
    ReachWellSorted(fs, a);
    forall t | t in sub ensures sub[t].decl != a.decl { assert Apart(sub, t, a); }
    forall t | t in CollectedFuns(R) ensures t.decl != a.decl {
      ReachWellSorted(fs, t);
    }
    forall A | A in Consumed(R) ensures A.decl != a.decl {
      ConsumedIsConst(fs, A);
      assert A == App(A.decl, []);
    }
  }

  lemma LiftedUntouched(sub: Subst, fs: seq<Expr>, a: Expr)
    requires Input(fs) && Abstracts(sub, SubAll(fs)) && a in SubAll(fs) && a.App?
    requires IsHigher(a.decl) && IsFree(a.decl.kind.f)
    ensures Untouched(sub, SubAll(fs), a.decl.kind.f)
  {
    var R := SubAll(fs);
    ReachWellSorted(fs, a);
    assert a.decl.kind.f in NonFuns(R);
    forall t | t in sub ensures sub[t].decl != a.decl.kind.f { assert Apart(sub, t, a); }
    forall A | A in Consumed(R) ensures A.decl != a.decl.kind.f { ConsumedIsConst(fs, A); }
  }

  lemma UncollectedUntouched(sub: Subst, fs: seq<Expr>, a: Expr)
    requires Input(fs) && Abstracts(sub, SubAll(fs))
    requires a in SubAll(fs) && a.App? && a !in sub && a !in Consumed(SubAll(fs))
    ensures IsFree(a.decl) ==> Untouched(sub, SubAll(fs), a.decl)
    ensures IsHigher(a.decl) && IsFree(a.decl.kind.f) ==> Untouched(sub, SubAll(fs), a.decl.kind.f)
  {
    if IsFree(a.decl) { UncollectedFree(sub, fs, a); }
    if IsHigher(a.decl) && IsFree(a.decl.kind.f) { LiftedUntouched(sub, fs, a); }
  }

  lemma ConsumedIsConst(fs: seq<Expr>, A: Expr)
    requires Input(fs) && A in Consumed(SubAll(fs))
    ensures A in SubAll(fs) && IsConstant(A) && SortOf(A).ArraySort?
    ensures exists s :: s in CollectedSels(SubAll(fs)) && s.args[0] == A && s.decl == SelectDecl(SortOf(A))
  {
    var s :| s in CollectedSels(SubAll(fs)) && s.args[0] == A;
    ReachWellSorted(fs, s);
    ArgInSubAll(s, 0, fs);
    ReachWellSorted(fs, A);
  }

  lemma UncollectedAgrees<V(!new)>(S: Structure<V>, Mo: Model<V>, Ma: Model<V>, sub: Subst, fs: seq<Expr>, a: Expr)
    requires Input(fs) && Abstracts(sub, SubAll(fs)) && SameUntouched(Mo, Ma, sub, SubAll(fs))
    requires a in SubAll(fs) && a.App? && a !in sub && a !in Consumed(SubAll(fs))
    requires forall x :: x in a.args && x !in Consumed(SubAll(fs)) ==> Agrees(S, Mo, Ma, sub, x)
    ensures Agrees(S, Mo, Ma, sub, a)
  {
    UncollectedUntouched(sub, fs, a);
    assert Fun(S, Mo, a.decl) == Fun(S, Ma, a.decl);
    forall i | 0 <= i < |a.args|
      ensures EvalAll(S, Mo, a.args)[i] == EvalAll(S, Ma, ReplaceAll(sub, a.args))[i]
    {
      ConsumedOnlyInSelects(fs, a, i);
      assert a.args[i] in a.args;
    }
    assert EvalAll(S, Mo, a.args) == EvalAll(S, Ma, ReplaceAll(sub, a.args));
  }

  /** Keys evaluate alike in both models once the arguments agree. */
  lemma KeysAgree<V(!new)>(S: Structure<V>, Mo: Model<V>, Ma: Model<V>, sub: Subst, fs: seq<Expr>, t: Expr)
    requires Input(fs) && Abstracts(sub, SubAll(fs)) && t in sub
    requires forall x :: x in t.args && x !in Consumed(SubAll(fs)) ==> Agrees(S, Mo, Ma, sub, x)
    ensures EvalAll(S, Mo, KeyArgs(t)) == Vals(S, Ma, sub, KeyArgs(t))
  {
    forall i | 0 <= i < |KeyArgs(t)| ensures Agrees(S, Mo, Ma, sub, KeyArgs(t)[i]) {
      KeyArgNotConsumed(fs, t, i);
    }
  }

  lemma KeyArgIsArg(t: Expr, i: nat)
    requires (FunApp(t) || IsSelect(t)) && i < |KeyArgs(t)|
    ensures KeyArgs(t)[i] in t.args
    ensures KeyArgs(t)[i] == if IsSelect(t) then t.args[i + 1] else t.args[i]
  {
    assert KeyArgs(t)[i] == if IsSelect(t) then t.args[i + 1] else t.args[i];
  }

  /** Only the array of a select is ever consumed, and it is not part of the key. */
  lemma KeyArgNotConsumed(fs: seq<Expr>, t: Expr, i: nat)
    requires t in SubAll(fs) && (FunApp(t) || IsSelect(t)) && i < |KeyArgs(t)|
    ensures KeyArgs(t)[i] in t.args && KeyArgs(t)[i] !in Consumed(SubAll(fs))
  {
    KeyArgIsArg(t, i);
    if IsSelect(t) {
      ConsumedOnlyInSelects(fs, t, i + 1);
    } else {
      ConsumedOnlyInSelects(fs, t, i);
    }
  }

  // ---------- from a model of the input to a model of the abstraction ----------

  function ConstFun<V>(v: V): seq<V> -> V { _ => v }

  /** Gives each fresh constant the value of the term it stands for. */
  ghost function Expand<V(!new)>(S: Structure<V>, Mo: Model<V>, c2t: map<Decl, Expr>): Model<V> {
    (d: Decl) => if d in c2t then ConstFun(Eval(S, Mo, c2t[d])) else Mo(d)
  }

  lemma ExpandSorted<V(!new)>(S: Structure<V>, Mo: Model<V>, sub: Subst, c2t: map<Decl, Expr>, fs: seq<Expr>)
    requires SortsOk(S) && SortedModel(S, Mo) && Input(fs)
    requires Abstracts(sub, SubAll(fs)) && Inverse(sub, c2t)
    ensures SortedModel(S, Expand(S, Mo, c2t))
  {
    forall d | IsFree(d) ensures SortedFun(S, Expand(S, Mo, c2t)(d), d) {
      if d in c2t {
        ReachWellSorted(fs, c2t[d]);
        EvalHasSort(S, Mo, c2t[d]);
        assert d.range == SortOf(sub[c2t[d]]);
      }
    }
  }

  lemma ExpandKeeps<V(!new)>(S: Structure<V>, Mo: Model<V>, sub: Subst, c2t: map<Decl, Expr>, R: set<Expr>)
    requires IsAbstraction(sub) && Inverse(sub, c2t)
    ensures forall t :: t in sub ==> Eval(S, Expand(S, Mo, c2t), sub[t]) == Eval(S, Mo, t)
    ensures SameUntouched(Mo, Expand(S, Mo, c2t), sub, R)
  {
    var Ma := Expand(S, Mo, c2t);
    forall t | t in sub ensures Eval(S, Ma, sub[t]) == Eval(S, Mo, t) {
      ConstantEval(S, Ma, sub[t]);
      assert c2t[sub[t].decl] == t;
    }
  }

  lemma ExpandStepwise<V(!new)>(S: Structure<V>, Mo: Model<V>, sub: Subst, c2t: map<Decl, Expr>, fs: seq<Expr>)
    requires Input(fs) && Abstracts(sub, SubAll(fs)) && Inverse(sub, c2t)
    ensures forall t :: t in sub ==> Eval(S, Expand(S, Mo, c2t), sub[t]) == Eval(S, Mo, t)
    ensures Stepwise(S, Mo, Expand(S, Mo, c2t), sub, SubAll(fs))
  {
    var R, Ma := SubAll(fs), Expand(S, Mo, c2t);
    ExpandKeeps(S, Mo, sub, c2t, R);
    forall a | a in R && a.App? && a !in Consumed(R)
               && forall x :: x in a.args && x !in Consumed(R) ==> Agrees(S, Mo, Ma, sub, x)
      ensures Agrees(S, Mo, Ma, sub, a)
    {
      if a !in sub { UncollectedAgrees(S, Mo, Ma, sub, fs, a); }
    }
  }

  lemma ExpandIsModel<V(!new)>(S: Structure<V>, Mo: Model<V>, sub: Subst, c2t: map<Decl, Expr>, fs: seq<Expr>)
    requires SortsOk(S) && SortedModel(S, Mo) && Input(fs)
    requires Abstracts(sub, SubAll(fs)) && Inverse(sub, c2t)
    ensures SortedModel(S, Expand(S, Mo, c2t))
    ensures HoldAll(S, Mo, fs) <==> HoldAll(S, Expand(S, Mo, c2t), ReplaceAll(sub, fs))
    ensures Congruent(S, Expand(S, Mo, c2t), sub)
  {
    var Ma := Expand(S, Mo, c2t);
    ExpandSorted(S, Mo, sub, c2t, fs);
    ExpandStepwise(S, Mo, sub, c2t, fs);
    FormulasAgree(S, Mo, Ma, sub, fs);
    forall t1, t2 | t1 in sub && t2 in sub && SameClass(t1, t2)
                    && Vals(S, Ma, sub, t1.args) == Vals(S, Ma, sub, t2.args)
      ensures Eval(S, Ma, sub[t1]) == Eval(S, Ma, sub[t2])
    {
      SameKeysSameValue(S, Mo, Ma, sub, fs, t1, t2);
    }
  }

  lemma ArgAgrees<V(!new)>(S: Structure<V>, Mo: Model<V>, Ma: Model<V>, sub: Subst, fs: seq<Expr>, t: Expr, i: nat)
    requires Input(fs) && Abstracts(sub, SubAll(fs)) && Stepwise(S, Mo, Ma, sub, SubAll(fs))
    requires t in sub && i < |t.args| && !(IsSelect(t) && i == 0)
    ensures Eval(S, Ma, Replace(sub, t.args[i])) == Eval(S, Mo, t.args[i])
  {
    assert t in SubAll(fs);
    ArgInSubAll(t, i, fs);
    ConsumedOnlyInSelects(fs, t, i);
    SubtermsAgree(S, Mo, Ma, sub, fs, t.args[i]);
  }

  lemma ArgsSame<V(!new)>(S: Structure<V>, Mo: Model<V>, Ma: Model<V>, sub: Subst, fs: seq<Expr>,
                          t1: Expr, t2: Expr, i: nat)
    requires Input(fs) && Abstracts(sub, SubAll(fs)) && Stepwise(S, Mo, Ma, sub, SubAll(fs))
    requires t1 in sub && t2 in sub && SameClass(t1, t2) && i < |t1.args| == |t2.args|
    requires Eval(S, Ma, Replace(sub, t1.args[i])) == Eval(S, Ma, Replace(sub, t2.args[i]))
    ensures Eval(S, Mo, t1.args[i]) == Eval(S, Mo, t2.args[i])
  {
    if !(IsSelect(t1) && i == 0) {
      ArgAgrees(S, Mo, Ma, sub, fs, t1, i);
      ArgAgrees(S, Mo, Ma, sub, fs, t2, i);
    }
  }

  lemma SameValuesSameResult<V(!new)>(S: Structure<V>, M: Model<V>, t1: Expr, t2: Expr)
    requires t1.App? && t2.App? && t1.decl == t2.decl && |t1.args| == |t2.args|
    requires forall i :: 0 <= i < |t1.args| ==> EvalAll(S, M, t1.args)[i] == EvalAll(S, M, t2.args)[i]
    ensures Eval(S, M, t1) == Eval(S, M, t2)
  {
    assert EvalAll(S, M, t1.args) == EvalAll(S, M, t2.args);
  }

  lemma SameKeysSameValue<V(!new)>(S: Structure<V>, Mo: Model<V>, Ma: Model<V>, sub: Subst, fs: seq<Expr>,
                                   t1: Expr, t2: Expr)
    requires Input(fs) && Abstracts(sub, SubAll(fs)) && Stepwise(S, Mo, Ma, sub, SubAll(fs))
    requires t1 in sub && t2 in sub && SameClass(t1, t2)
    requires Vals(S, Ma, sub, t1.args) == Vals(S, Ma, sub, t2.args)
    ensures Eval(S, Mo, t1) == Eval(S, Mo, t2)
  {
    ReachWellSorted(fs, t1);
    ReachWellSorted(fs, t2);
    SameClassSameDecl(t1, t2);
    forall i | 0 <= i < |t1.args| ensures EvalAll(S, Mo, t1.args)[i] == EvalAll(S, Mo, t2.args)[i] {
      assert Vals(S, Ma, sub, t1.args)[i] == Vals(S, Ma, sub, t2.args)[i];
      ArgsSame(S, Mo, Ma, sub, fs, t1, t2, i);
    }
    SameValuesSameResult(S, Mo, t1, t2);
  }

  // ---------- from a model of the abstraction to a model of the input ----------

  /** `Mo` gives the collected term `t`, at the key it has in `Ma`, the value that its
      constant has in `Ma`. */
  ghost predicate RealizedAt<V(!new)>(S: Structure<V>, Mo: Model<V>, Ma: Model<V>, sub: Subst, R: set<Expr>, t: Expr)
    requires Abstracts(sub, R) && t in sub
  {
    if t in CollectedFuns(R) then Mo(t.decl)(Vals(S, Ma, sub, t.args)) == Eval(S, Ma, sub[t])
    else S.interp(t.decl)([Eval(S, Mo, t.args[0])] + Vals(S, Ma, sub, t.args[1..])) == Eval(S, Ma, sub[t])
  }

  /** `Mo` interprets every collected symbol so that each collected term takes the
      value of its constant in `Ma`, and changes nothing else. */
  ghost predicate Realizes<V(!new)>(S: Structure<V>, Mo: Model<V>, Ma: Model<V>, sub: Subst, R: set<Expr>)
    requires Abstracts(sub, R)
  {
    SameUntouched(Mo, Ma, sub, R) && forall t :: t in sub ==> RealizedAt(S, Mo, Ma, sub, R, t)
  }

  /** Once the arguments agree, a collected term agrees exactly if it is realized. */
  lemma CollectedAgrees<V(!new)>(S: Structure<V>, Mo: Model<V>, Ma: Model<V>, sub: Subst, fs: seq<Expr>, t: Expr)
    requires Input(fs) && Abstracts(sub, SubAll(fs)) && t in sub
    requires forall x :: x in t.args && x !in Consumed(SubAll(fs)) ==> Agrees(S, Mo, Ma, sub, x)
    ensures Agrees(S, Mo, Ma, sub, t) <==> RealizedAt(S, Mo, Ma, sub, SubAll(fs), t)
  {
    KeysAgree(S, Mo, Ma, sub, fs, t);
    if t in CollectedSels(SubAll(fs)) {
      SelectEval(S, Mo, t);
    } else {
      FunAppEval(S, Mo, t);
    }
  }

  lemma SelectEval<V(!new)>(S: Structure<V>, M: Model<V>, t: Expr)
    requires IsSelect(t)
    ensures Eval(S, M, t) == S.interp(t.decl)([Eval(S, M, t.args[0])] + EvalAll(S, M, KeyArgs(t)))
  {
    var vs, keys := EvalAll(S, M, t.args), EvalAll(S, M, t.args[1..]);
    forall i | 0 <= i < |keys| ensures keys[i] == vs[i + 1] {}
    assert vs == [vs[0]] + keys;
  }

  lemma ConstantEval<V(!new)>(S: Structure<V>, M: Model<V>, c: Expr)
    requires IsUninterpConst(c)
    ensures Eval(S, M, c) == M(c.decl)([])
  {
    assert EvalAll(S, M, c.args) == [];
  }

  lemma FunAppEval<V(!new)>(S: Structure<V>, M: Model<V>, t: Expr)
    requires FunApp(t)
    ensures Eval(S, M, t) == M(t.decl)(EvalAll(S, M, KeyArgs(t)))
  {
  }

  /** Model back-translation: a model that changes nothing else gives every subterm of the
      input, other than the array constants that disappeared, the meaning of its
      abstraction exactly if it realizes every collected term. */
  lemma BackTranslation<V(!new)>(S: Structure<V>, Mo: Model<V>, Ma: Model<V>, sub: Subst, fs: seq<Expr>)
    requires Input(fs) && Abstracts(sub, SubAll(fs)) && SameUntouched(Mo, Ma, sub, SubAll(fs))
    ensures AllAgree(S, Mo, Ma, sub, SubAll(fs)) <==> Realizes(S, Mo, Ma, sub, SubAll(fs))
    ensures Realizes(S, Mo, Ma, sub, SubAll(fs)) ==> (HoldAll(S, Mo, fs) <==> HoldAll(S, Ma, ReplaceAll(sub, fs)))
  {
    if Realizes(S, Mo, Ma, sub, SubAll(fs)) { RealizedAgrees(S, Mo, Ma, sub, fs); }
    if AllAgree(S, Mo, Ma, sub, SubAll(fs)) {
      forall t | t in sub ensures RealizedAt(S, Mo, Ma, sub, SubAll(fs), t) {
        AgreesRealized(S, Mo, Ma, sub, fs, t);
      }
    }
  }

  /** Every subterm other than the array constants that disappeared agrees. */
  ghost predicate AllAgree<V(!new)>(S: Structure<V>, Mo: Model<V>, Ma: Model<V>, sub: Subst, R: set<Expr>) {
    forall e :: e in R && e !in Consumed(R) ==> Agrees(S, Mo, Ma, sub, e)
  }

  lemma AgreesRealized<V(!new)>(S: Structure<V>, Mo: Model<V>, Ma: Model<V>, sub: Subst, fs: seq<Expr>, t: Expr)
    requires Input(fs) && Abstracts(sub, SubAll(fs)) && AllAgree(S, Mo, Ma, sub, SubAll(fs)) && t in sub
    ensures RealizedAt(S, Mo, Ma, sub, SubAll(fs), t)
  {
    if t in Consumed(SubAll(fs)) { ConsumedIsConst(fs, t); }
    forall x | x in t.args ensures x in SubAll(fs) {
      var i :| 0 <= i < |t.args| && t.args[i] == x;
      ArgInSubAll(t, i, fs);
    }
    CollectedAgrees(S, Mo, Ma, sub, fs, t);
  }

  lemma RealizedAgrees<V(!new)>(S: Structure<V>, Mo: Model<V>, Ma: Model<V>, sub: Subst, fs: seq<Expr>)
    requires Input(fs) && Abstracts(sub, SubAll(fs)) && Realizes(S, Mo, Ma, sub, SubAll(fs))
    ensures AllAgree(S, Mo, Ma, sub, SubAll(fs))
    ensures HoldAll(S, Mo, fs) <==> HoldAll(S, Ma, ReplaceAll(sub, fs))
  {
    var R := SubAll(fs);
    forall a | a in R && a.App? && a !in Consumed(R)
               && forall x :: x in a.args && x !in Consumed(R) ==> Agrees(S, Mo, Ma, sub, x)
      ensures Agrees(S, Mo, Ma, sub, a)
    {
      if a in sub { CollectedAgrees(S, Mo, Ma, sub, fs, a); } else { UncollectedAgrees(S, Mo, Ma, sub, fs, a); }
    }
    forall e | e in R && e !in Consumed(R) ensures Agrees(S, Mo, Ma, sub, e) {
      SubtermsAgree(S, Mo, Ma, sub, fs, e);
    }
    FormulasAgree(S, Mo, Ma, sub, fs);
  }
}
