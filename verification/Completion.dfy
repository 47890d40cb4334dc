/** Model completion: a model evaluator gives the constants and functions that it misses
    the default of their sort, and registers them in the model that it evaluates in. */
module Completion {
  import opened Terms
  import opened AckrHelper
  import opened Abstraction
  import opened Congruence
  import opened Equisat
  import opened ModelTables
  import opened PartialModels
  import opened BackTranslate

  /** A value, and what was registered on the way to it, in this order. */
  datatype Evaluated<V> = Evaluated(value: V, consts: seq<Decl>, funs: seq<Decl>)

  type Evaluator<!V(==)> = (PartialModel<V>, Expr) -> Evaluated<V>

  function AddConsts<V(==)>(S: Structure<V>, m: map<Decl, V>, cs: seq<Decl>): map<Decl, V> {
    if cs == [] then m
    else var n := |cs| - 1; AddConsts(S, m, cs[..n])[cs[n] := S.someValue(cs[n].range)]
  }

  function Default<V(==)>(S: Structure<V>, f: Decl): FuncInterp<V> { FuncInterp(map[], S.someValue(f.range)) }

  function AddFuns<V(==)>(S: Structure<V>, m: map<Decl, FuncInterp<V>>, fs: seq<Decl>): map<Decl, FuncInterp<V>> {
    if fs == [] then m
    else var n := |fs| - 1; AddFuns(S, m, fs[..n])[fs[n] := Default(S, fs[n])]
  }

  function Completed<V(==)>(S: Structure<V>, m: PartialModel<V>, r: Evaluated<V>): PartialModel<V> {
    PartialModel(AddConsts(S, m.consts, r.consts), AddFuns(S, m.funs, r.funs))
  }

  lemma TakeMore<T>(q: seq<T>, i: nat)
    requires i < |q|
    ensures q[..i + 1] == q[..i] + [q[i]] && q[..i + 1][..i] == q[..i]
  {
  }

  lemma TakeAll<T>(q: seq<T>)
    ensures q[..|q|] == q
  {
  }

  lemma TakePrefix<T>(q: seq<T>, q': seq<T>, i: nat)
    requires q <= q' && i <= |q|
    ensures q'[..i] == q[..i]
  {
  }

  lemma {:induction false} DistinctFew<T>(q: seq<T>, s: set<T>)
    requires Distinct(q) && forall x :: x in q ==> x in s
    ensures |q| <= |s|
  {
    if q != [] {
      var n := |q| - 1;
      assert q[n] in s;
      DistinctFew(q[..n], s - {q[n]});
    }
  }

  /** `m'` is `m` with some missing symbols registered at their defaults. */
  ghost predicate Grows<V(!new)>(S: Structure<V>, m: PartialModel<V>, m': PartialModel<V>) {
    && (forall c :: c in m.consts ==> c in m'.consts && m'.consts[c] == m.consts[c])
    && (forall c :: c in m'.consts && c !in m.consts ==>
          IsFree(c) && c.domain == [] && m'.consts[c] == S.someValue(c.range))
    && (forall f :: f in m.funs ==> f in m'.funs && m'.funs[f] == m.funs[f])
    && (forall f :: f in m'.funs && f !in m.funs ==> IsFree(f) && f.domain != [] && m'.funs[f] == Default(S, f))
  }

  lemma GrowsTransitive<V(!new)>(S: Structure<V>, a: PartialModel<V>, b: PartialModel<V>, c: PartialModel<V>)
    requires Grows(S, a, b) && Grows(S, b, c)
    ensures Grows(S, a, c)
  {
  }

  lemma {:induction false} AddConstsAre<V(!new)>(S: Structure<V>, m: map<Decl, V>, cs: seq<Decl>)
    ensures forall c :: c in AddConsts(S, m, cs) <==> c in m || c in cs
    ensures forall c :: c in cs ==> AddConsts(S, m, cs)[c] == S.someValue(c.range)
    ensures forall c :: c in m && c !in cs ==> AddConsts(S, m, cs)[c] == m[c]
  {
    if cs != [] {
      assert cs == cs[..|cs| - 1] + [cs[|cs| - 1]];
      AddConstsAre(S, m, cs[..|cs| - 1]);
    }
  }

  lemma {:induction false} AddFunsAre<V(!new)>(S: Structure<V>, m: map<Decl, FuncInterp<V>>, fs: seq<Decl>)
    ensures forall f :: f in AddFuns(S, m, fs) <==> f in m || f in fs
    ensures forall f :: f in fs ==> AddFuns(S, m, fs)[f] == Default(S, f)
    ensures forall f :: f in m && f !in fs ==> AddFuns(S, m, fs)[f] == m[f]
  {
    if fs != [] {
      assert fs == fs[..|fs| - 1] + [fs[|fs| - 1]];
      AddFunsAre(S, m, fs[..|fs| - 1]);
    }
  }

  lemma GrowsWellFormed<V(!new)>(S: Structure<V>, m: PartialModel<V>, m': PartialModel<V>)
    requires SortsOk(S) && WellFormedModel(S, m) && Grows(S, m, m')
    ensures WellFormedModel(S, m')
  {
    forall f | f in m'.funs ensures SortedFun(S, DenoteFun(m'.funs[f]), f) {
      if f !in m.funs { assert DenoteFun(m'.funs[f]) == ConstFun(S.someValue(f.range)); }
    }
  }

  /** Registering defaults changes nothing that completion would not have said. */
  lemma GrowsTotal<V(!new)>(S: Structure<V>, m: PartialModel<V>, m': PartialModel<V>, d: Decl)
    requires Grows(S, m, m')
    ensures Total(S, m')(d) == Total(S, m)(d)
  {
    assert Total(S, m')(d) == DeclInterp(S, m', d) && Total(S, m)(d) == DeclInterp(S, m, d);
  }

  lemma {:induction false} EvalSame<V(!new)>(S: Structure<V>, M1: Model<V>, M2: Model<V>, e: Expr)
    requires forall d :: M1(d) == M2(d)
    ensures Eval(S, M1, e) == Eval(S, M2, e)
    decreases e
  {
    match e {
      case Var(_, _) =>
      case App(d, args) =>
        forall i | 0 <= i < |args| ensures EvalAll(S, M1, args)[i] == EvalAll(S, M2, args)[i] {
          EvalSame(S, M1, M2, args[i]);
        }
        assert EvalAll(S, M1, args) == EvalAll(S, M2, args);
      case Quant(q, body) =>
        var t1, t2 := BodyTable(S, M1, |q.domain|, body), BodyTable(S, M2, |q.domain|, body);
        forall vs: seq<V> | |vs| == |q.domain| ensures t1[vs] == t2[vs] {
          EvalSame(S.(env := vs + S.env), M1, M2, body);
        }
        assert t1 == t2;
    }
  }

  lemma GrowsEval<V(!new)>(S: Structure<V>, m: PartialModel<V>, m': PartialModel<V>, e: Expr)
    requires Grows(S, m, m')
    ensures Eval(S, Total(S, m'), e) == Eval(S, Total(S, m), e)
  {
    forall d ensures Total(S, m')(d) == Total(S, m)(d) { GrowsTotal(S, m, m', d); }
    EvalSame(S, Total(S, m'), Total(S, m), e);
  }

  /** `m` settles `e`: it has the value `v` in every completion. */
  ghost predicate Settles<V(!new)>(S: Structure<V>, m: PartialModel<V>, e: Expr, v: V) {
    forall M: Model<V> :: SortedModel(S, M) && Extends(M, m) ==> Eval(S, M, e) == v
  }

  lemma SettlesStill<V(!new)>(S: Structure<V>, m: PartialModel<V>, m': PartialModel<V>, e: Expr, v: V)
    requires Settles(S, m, e, v) && Grows(S, m, m')
    ensures Settles(S, m', e, v)
  {
    forall M: Model<V> | SortedModel(S, M) && Extends(M, m') ensures Eval(S, M, e) == v {
      assert Extends(M, m);
    }
  }

  lemma SettledValue<V(!new)>(S: Structure<V>, m: PartialModel<V>, m': PartialModel<V>, e: Expr, v: V)
    requires SortsOk(S) && WellFormedModel(S, m) && Grows(S, m, m') && Settles(S, m', e, v)
    ensures v == Eval(S, Total(S, m), e)
  {
    GrowsWellFormed(S, m, m');
    TotalIsModel(S, m');
    GrowsEval(S, m, m', e);
  }

  // ---------- completion by the values of the removed terms ----------

  lemma SupplySortedAt<V(!new)>(S: Structure<V>, m: PartialModel<V>, sub: Subst, c2t: map<Decl, Expr>, fs: seq<Expr>,
                                Mo: Model<V>, d: Decl)
    requires SortsOk(S) && WellFormedModel(S, m) && SortedModel(S, Mo) && IsFree(d)
    requires Input(fs) && Abstracts(sub, SubAll(fs)) && Inverse(sub, c2t)
    ensures SortedFun(S, Supply(S, m, c2t, Mo)(d), d)
  {
    if d !in m.consts && d !in m.funs && d in c2t {
      ReachWellSorted(fs, c2t[d]);
      EvalHasSort(S, Mo, c2t[d]);
      assert d.range == SortOf(sub[c2t[d]]);
    }
  }

  lemma SupplySorted<V(!new)>(S: Structure<V>, m: PartialModel<V>, sub: Subst, c2t: map<Decl, Expr>, fs: seq<Expr>,
                              Mo: Model<V>)
    requires SortsOk(S) && WellFormedModel(S, m) && SortedModel(S, Mo)
    requires Input(fs) && Abstracts(sub, SubAll(fs)) && Inverse(sub, c2t)
    ensures SortedModel(S, Supply(S, m, c2t, Mo)) && Extends(Supply(S, m, c2t, Mo), m)
  {
    forall d | IsFree(d) ensures SortedFun(S, Supply(S, m, c2t, Mo)(d), d) {
      SupplySortedAt(S, m, sub, c2t, fs, Mo, d);
    }
    assert forall c :: c in m.consts ==> c !in m.funs;
  }

  // ---------- the evaluator, as an oracle ----------

  /** The free constants of a term, and the free functions, lifted ones included. */
  ghost function ConstsOf(e: Expr): set<Decl> { ConstDecls(Sub(e)) }

  ghost function FunsOf(e: Expr): set<Decl> {
    FunDecls(Sub(e)) + set a | a in Sub(e) && a.App? && IsHigher(a.decl) && IsFree(a.decl.kind.f) :: a.decl.kind.f
  }

  /** Only missing symbols of the term are registered, and then the value is settled. */
  ghost predicate EvaluatesRight<V(!new)>(S: Structure<V>, ev: Evaluator<V>, m: PartialModel<V>, e: Expr) {
    var r := ev(m, e);
    && Distinct(r.consts) && (forall c :: c in r.consts ==> c in ConstsOf(e) && c !in m.consts)
    && (forall f :: f in r.funs ==> f in FunsOf(e) && f !in m.funs)
    && Settles(S, Completed(S, m, r), e, r.value)
  }

  ghost predicate EvaluatorOk<V(!new)>(S: Structure<V>, ev: Evaluator<V>) {
    forall m, e :: WellFormedModel(S, m) && WellSorted(e) && NoQuantifier(e) ==> EvaluatesRight(S, ev, m, e)
  }

  lemma {:induction false} SubPlain(x: Expr, e: Expr)
    requires x in Sub(e) && WellSorted(e) && NoQuantifier(e)
    ensures WellSorted(x) && !x.Quant?
    decreases e
  {
    if x != e {
      var i :| 0 <= i < |e.args| && x in Sub(e.args[i]);
      ArgNoQuantifier(e, i);
      SubPlain(x, e.args[i]);
    }
  }

  lemma CompletedGrows<V(!new)>(S: Structure<V>, m: PartialModel<V>, e: Expr, r: Evaluated<V>)
    requires WellSorted(e) && NoQuantifier(e)
    requires forall c :: c in r.consts ==> c in ConstsOf(e) && c !in m.consts
    requires forall f :: f in r.funs ==> f in FunsOf(e) && f !in m.funs
    ensures Grows(S, m, Completed(S, m, r))
  {
    AddConstsAre(S, m.consts, r.consts);
    AddFunsAre(S, m.funs, r.funs);
    forall f | f in r.funs ensures IsFree(f) && f.domain != [] {
      if f !in FunDecls(Sub(e)) {
        var a :| a in Sub(e) && a.App? && IsHigher(a.decl) && IsFree(a.decl.kind.f) && a.decl.kind.f == f;
        SubPlain(a, e);
      }
    }
  }

  /** An evaluator that registers all it misses. */
  ghost function Eager<V(!new)>(S: Structure<V>, m: PartialModel<V>, e: Expr): Evaluated<V> {
    Evaluated(Eval(S, Total(S, m), e), SomeOrder(ConstsOf(e) - m.consts.Keys), SomeOrder(FunsOf(e) - m.funs.Keys))
  }

  /** The free symbols that `x` needs are registered. */
  ghost predicate Registers<V>(m: PartialModel<V>, x: Expr)
    requires x.App?
  {
    && (IsFree(x.decl) && x.decl.domain == [] ==> x.decl in m.consts)
    && (IsFree(x.decl) && x.decl.domain != [] ==> x.decl in m.funs)
    && (IsHigher(x.decl) && IsFree(x.decl.kind.f) ==> x.decl.kind.f in m.funs)
  }

  lemma {:induction false} RegisteredSettles<V(!new)>(S: Structure<V>, m: PartialModel<V>, m': PartialModel<V>,
                                                      M: Model<V>, e: Expr)
    requires WellSorted(e) && NoQuantifier(e) && Grows(S, m, m') && Extends(M, m')
    requires forall x :: x in Sub(e) && x.App? ==> Registers(m', x)
    ensures Eval(S, M, e) == Eval(S, Total(S, m), e)
    decreases e
  {
    if e.App? {
      forall i | 0 <= i < |e.args| ensures EvalAll(S, M, e.args)[i] == EvalAll(S, Total(S, m), e.args)[i] {
        ArgNoQuantifier(e, i);
        forall x | x in Sub(e.args[i]) && x.App? ensures Registers(m', x) { assert x in Sub(e); }
        RegisteredSettles(S, m, m', M, e.args[i]);
      }
      assert EvalAll(S, M, e.args) == EvalAll(S, Total(S, m), e.args);
      AppSettled(S, m, m', M, e);
    }
  }

  lemma AppSettled<V(!new)>(S: Structure<V>, m: PartialModel<V>, m': PartialModel<V>, M: Model<V>, x: Expr)
    requires x.App? && WellSorted(x) && Grows(S, m, m') && Extends(M, m') && Registers(m', x)
    ensures Fun(S, M, x.decl)(EvalAll(S, M, x.args)) == Fun(S, Total(S, m), x.decl)(EvalAll(S, M, x.args))
  {
    var d := x.decl;
    if IsFree(d) && d.domain == [] {
      ConstSettled(S, m, m', M, d);
      assert EvalAll(S, M, x.args) == [];
    } else if IsFree(d) {
      FunSettled(S, m, m', M, d);
    } else if IsHigher(d) && IsFree(d.kind.f) {
      FunSettled(S, m, m', M, d.kind.f);
    }
  }

  lemma EagerRegisters<V(!new)>(S: Structure<V>, m: PartialModel<V>, e: Expr, x: Expr)
    requires x in Sub(e) && x.App?
    ensures Registers(Completed(S, m, Eager(S, m, e)), x)
  {
    var r := Eager(S, m, e);
    AddConstsAre(S, m.consts, r.consts);
    AddFunsAre(S, m.funs, r.funs);
    assert IsFree(x.decl) && x.decl.domain == [] ==> x.decl in ConstsOf(e);
    assert IsFree(x.decl) && x.decl.domain != [] ==> x.decl in FunsOf(e);
    assert IsHigher(x.decl) && IsFree(x.decl.kind.f) ==> x.decl.kind.f in FunsOf(e);
  }

  lemma ConstSettled<V(!new)>(S: Structure<V>, m: PartialModel<V>, m': PartialModel<V>, M: Model<V>, c: Decl)
    requires Grows(S, m, m') && Extends(M, m') && c in m'.consts && c.domain == []
    ensures M(c)([]) == Total(S, m)(c)([])
  {
    GrowsTotal(S, m, m', c);
    assert Total(S, m')(c) == DeclInterp(S, m', c);
  }

  lemma FunSettled<V(!new)>(S: Structure<V>, m: PartialModel<V>, m': PartialModel<V>, M: Model<V>, f: Decl)
    requires Grows(S, m, m') && Extends(M, m') && f in m'.funs && f.domain != []
    ensures M(f) == Total(S, m)(f)
  {
    GrowsTotal(S, m, m', f);
    assert Total(S, m')(f) == DeclInterp(S, m', f);
  }

  lemma EagerRight<V(!new)>(S: Structure<V>, ev: Evaluator<V>, m: PartialModel<V>, e: Expr)
    requires WellSorted(e) && NoQuantifier(e) && ev(m, e) == Eager(S, m, e)
    ensures EvaluatesRight(S, ev, m, e)
  {
    var r := Eager(S, m, e);
    CompletedGrows(S, m, e, r);
    forall x | x in Sub(e) && x.App? ensures Registers(Completed(S, m, r), x) { EagerRegisters(S, m, e, x); }
    forall M: Model<V> | SortedModel(S, M) && Extends(M, Completed(S, m, r)) ensures Eval(S, M, e) == r.value {
      RegisteredSettles(S, m, Completed(S, m, r), M, e);
    }
    assert Settles(S, Completed(S, m, r), e, r.value);
  }

  /** Over every structure there is a right evaluator. */
  lemma SomeEvaluator<V(!new)>(S: Structure<V>) returns (ev: Evaluator<V>)
    ensures EvaluatorOk(S, ev)
  {
    ev := (m: PartialModel<V>, e: Expr) => Eager(S, m, e);
    forall m, e | WellFormedModel(S, m) && WellSorted(e) && NoQuantifier(e) ensures EvaluatesRight(S, ev, m, e) {
      assert ev(m, e) == Eager(S, m, e);
      EagerRight(S, ev, m, e);
    }
  }
}
