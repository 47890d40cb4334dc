/** The queries that both strategies ask: abstracted formulas and simplified lemmas. */
module Queries {
  import opened Terms
  import opened Abstraction
  import opened Congruence
  import opened PartialModels
  import opened BackTranslate

  lemma CollectedFirstOrder(fs: seq<Expr>, sub: Subst)
    requires FirstOrderQuery(fs) && Abstracts(sub, SubAll(fs))
    ensures forall t :: t in sub ==> FirstOrder(t) && WellSorted(t)
  {
    forall t | t in sub ensures FirstOrder(t) && WellSorted(t) { ReachFirstOrder(fs, t); }
  }

  lemma {:induction false} ReplaceFirstOrder(sub: Subst, e: Expr)
    requires IsAbstraction(sub) && FirstOrder(e)
    ensures FirstOrder(Replace(sub, e))
    decreases e
  {
    if e !in sub && e.App? {
      forall i | 0 <= i < |e.args| ensures FirstOrder(Replace(sub, e.args[i])) { ReplaceFirstOrder(sub, e.args[i]); }
    }
  }

  lemma {:induction false} DiffsFirstOrder(th: Theory, xs: seq<Expr>, ys: seq<Expr>)
    requires |xs| == |ys| && forall i :: 0 <= i < |xs| ==> FirstOrder(xs[i]) && FirstOrder(ys[i])
    ensures forall i :: 0 <= i < |Diffs(th, xs, ys)| ==> FirstOrder(Diffs(th, xs, ys)[i])
  {
    if xs != [] {
      var n := |xs| - 1;
      DiffsFirstOrder(th, xs[..n], ys[..n]);
      assert FirstOrder(MkEq(xs[n], ys[n]));
    }
  }

  /** The lemma of a pair before simplification is a first-order formula. */
  lemma LemmaFirstOrder(sub: Subst, th: Theory, t1: Expr, t2: Expr)
    requires IsAbstraction(sub) && t1 in sub && t2 in sub && SameShape(t1, t2) && FirstOrder(t1) && FirstOrder(t2)
    ensures FirstOrder(Replace(sub, CongruenceFormula(th, sub, t1, t2)))
  {
    var eqs := Diffs(th, t1.args, t2.args);
    DiffsFirstOrder(th, t1.args, t2.args);
    assert FirstOrder(MkAnd(eqs)) && FirstOrder(MkEq(sub[t1], sub[t2]));
    ReplaceFirstOrder(sub, CongruenceFormula(th, sub, t1, t2));
  }

  ghost predicate Unsimplified(th: Theory, l: Expr, f: Expr) {
    FirstOrder(f) && IsFormula(f) && l == th.simp(f)
  }

  lemma UnsimplifiedLemma(sub: Subst, th: Theory, l: Expr, ls: seq<Expr>) returns (f: Expr)
    requires IsAbstraction(sub) && OnlyLemmas(sub, th, ls) && l in ls
    requires forall t :: t in sub ==> FirstOrder(t) && WellSorted(t)
    ensures Unsimplified(th, l, f)
  {
    var t1, t2 :| t1 in sub && t2 in sub && SameClass(t1, t2) && |t1.args| == |t2.args|
                  && l in Emitted(sub, th, t1, t2);
    SameClassSameDecl(t1, t2);
    LemmaFirstOrder(sub, th, t1, t2);
    LemmaIsFormula(sub, th, t1, t2);
    f := Replace(sub, CongruenceFormula(th, sub, t1, t2));
  }

  lemma {:induction false} UnsimplifiedLemmas(sub: Subst, th: Theory, ls: seq<Expr>) returns (raw: seq<Expr>)
    requires IsAbstraction(sub) && OnlyLemmas(sub, th, ls)
    requires forall t :: t in sub ==> FirstOrder(t) && WellSorted(t)
    ensures |raw| == |ls| && forall i :: 0 <= i < |ls| ==> Unsimplified(th, ls[i], raw[i])
  {
    raw := [];
    for n := 0 to |ls|
      invariant |raw| == n && forall i :: 0 <= i < n ==> Unsimplified(th, ls[i], raw[i])
    {
      var f := UnsimplifiedLemma(sub, th, ls[n], ls);
      raw := raw + [f];
    }
  }

  lemma SimplifiedSame<V(!new)>(S: Structure<V>, M: Model<V>, th: Theory, ls: seq<Expr>, raw: seq<Expr>)
    requires TheoryOk(S, th) && SortedModel(S, M)
    requires |raw| == |ls| && forall i :: 0 <= i < |ls| ==> Unsimplified(th, ls[i], raw[i])
    ensures HoldAll(S, M, ls) <==> HoldAll(S, M, raw)
  {
    forall i | 0 <= i < |ls| ensures Holds(S, M, ls[i]) <==> Holds(S, M, raw[i]) {
      assert Unsimplified(th, ls[i], raw[i]);
      assert Keeps(S, raw[i], th.simp(raw[i]));
    }
  }

  /** What is asked about a first-order input, with any of its lemmas, is answerable. */
  lemma QueryAnswerable<V(!new)>(S: Structure<V>, fs: seq<Expr>, sub: Subst, th: Theory, ls: seq<Expr>)
    requires SortsOk(S) && TheoryOk(S, th) && FirstOrderQuery(fs) && Abstracts(sub, SubAll(fs))
    requires OnlyLemmas(sub, th, ls)
    ensures Answerable(S, ReplaceAll(sub, fs) + ls)
  {
    CollectedFirstOrder(fs, sub);
    var raw := UnsimplifiedLemmas(sub, th, ls);
    var abstr := ReplaceAll(sub, fs);
    forall i | 0 <= i < |abstr + raw| ensures FirstOrder((abstr + raw)[i]) && WellSorted((abstr + raw)[i]) {
      if i < |abstr| {
        ReplaceFirstOrder(sub, fs[i]);
        ReplaceSorted(sub, fs[i]);
      } else {
        assert Unsimplified(th, ls[i - |abstr|], raw[i - |abstr|]);
      }
    }
    FirstOrderAnswerable(S, abstr + raw);
    forall M: Model<V> | SortedModel(S, M) ensures HoldAll(S, M, abstr + raw) <==> HoldAll(S, M, abstr + ls) {
      HoldAllConcat(S, M, abstr, raw);
      HoldAllConcat(S, M, abstr, ls);
      SimplifiedSame(S, M, th, ls, raw);
    }
    SameModelsAnswerable(S, abstr + raw, abstr + ls);
  }
}
