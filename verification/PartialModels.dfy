/** Models as a solver returns them, finitely many constants and function tables, and
    which queries such a model can answer. */
module PartialModels {
  import opened Terms
  import opened Equisat
  import opened ModelTables

  datatype PartialModel<V(==)> = PartialModel(consts: map<Decl, V>, funs: map<Decl, FuncInterp<V>>)

  function DeclInterp<V(==)>(S: Structure<V>, m: PartialModel<V>, d: Decl): seq<V> -> V {
    if d.domain == [] then ConstFun(if d in m.consts then m.consts[d] else S.someValue(d.range))
    else if d in m.funs then DenoteFun(m.funs[d])
    else ConstFun(S.someValue(d.range))
  }

  /** Model completion: what the partial model leaves open gets the default of its sort. */
  function Total<V(==)>(S: Structure<V>, m: PartialModel<V>): Model<V> {
    (d: Decl) => DeclInterp(S, m, d)
  }

  ghost predicate WellFormedModel<V(!new)>(S: Structure<V>, m: PartialModel<V>) {
    && (forall c :: c in m.consts ==> IsFree(c) && c.domain == [] && S.hasSort(m.consts[c], c.range))
    && (forall f :: f in m.funs ==> IsFree(f) && f.domain != [] && SortedFun(S, DenoteFun(m.funs[f]), f))
  }

  ghost predicate Extends<V(!new)>(M: Model<V>, m: PartialModel<V>) {
    && (forall c :: c in m.consts ==> M(c)([]) == m.consts[c])
    && (forall f :: f in m.funs ==> M(f) == DenoteFun(m.funs[f]))
  }

  /** The completion that gives an unlisted constant of `c2t` the value its term has in `Mo`,
      and is like `Mo` elsewhere. */
  ghost function Supply<V(!new)>(S: Structure<V>, m: PartialModel<V>, c2t: map<Decl, Expr>, Mo: Model<V>): Model<V> {
    (d: Decl) => if d in m.consts then ConstFun(m.consts[d])
                 else if d in m.funs then DenoteFun(m.funs[d])
                 else if d in c2t then ConstFun(Eval(S, Mo, c2t[d]))
                 else Mo(d)
  }

  lemma TotalIsModel<V(!new)>(S: Structure<V>, m: PartialModel<V>)
    requires SortsOk(S) && WellFormedModel(S, m)
    ensures SortedModel(S, Total(S, m)) && Extends(Total(S, m), m)
  {
  }

  // ---------- the solver, as an oracle ----------

  datatype Answer<V(==)> = Unsat | Unknown | Sat(model: PartialModel<V>)

  /** Every completion of `m` satisfies the formulas: what `m` leaves out does not matter. */
  ghost predicate Implicant<V(!new)>(S: Structure<V>, m: PartialModel<V>, fs: seq<Expr>) {
    WellFormedModel(S, m)
    && forall M: Model<V> :: SortedModel(S, M) && Extends(M, m) ==> HoldAll(S, M, fs)
  }

  ghost predicate IsTrue<V(!new)>(S: Structure<V>, a: Answer<V>, fs: seq<Expr>) {
    match a
    case Unsat => !Satisfiable(S, fs)
    case Sat(m) => Implicant(S, m, fs)
    case Unknown => true
  }

  /** A right solver: its answers about formulas are true. */
  ghost predicate SolverOk<V(!new)>(S: Structure<V>, solver: seq<Expr> -> Answer<V>) {
    forall fs :: AreFormulas(fs) ==> IsTrue(S, solver(fs), fs)
  }

  /** A query that some right answer other than `Unknown` exists for: a satisfiable one
      has a finite implicant. */
  ghost predicate Answerable<V(!new)>(S: Structure<V>, fs: seq<Expr>) {
    Satisfiable(S, fs) ==> exists m: PartialModel<V> :: Implicant(S, m, fs)
  }

  /** A complete solver: it knows the answer whenever there is one. */
  ghost predicate Complete<V(!new)>(S: Structure<V>, solver: seq<Expr> -> Answer<V>) {
    forall fs :: AreFormulas(fs) && Answerable(S, fs) ==> !solver(fs).Unknown?
  }

  ghost function BestAnswer<V(!new)>(S: Structure<V>, fs: seq<Expr>): (a: Answer<V>)
    ensures IsTrue(S, a, fs)
    ensures a.Unknown? ==> !Answerable(S, fs)
  {
    if !Satisfiable(S, fs) then Unsat
    else if m: PartialModel<V> :| Implicant(S, m, fs) then Sat(m)
    else Unknown
  }

  /** Over every structure there is a right and complete solver. */
  lemma CompleteSolver<V(!new)>(S: Structure<V>) returns (solver: seq<Expr> -> Answer<V>)
    ensures SolverOk(S, solver) && Complete(S, solver)
  {
    solver := (fs: seq<Expr>) => BestAnswer(S, fs);
    assert forall fs :: solver(fs) == BestAnswer(S, fs);
  }

  // ---------- first-order queries have finite implicants ----------

  /** No quantifier, and no uninterpreted symbol is lifted to an array operation. */
  predicate FirstOrder(e: Expr)
    decreases e
  {
    match e
    case Var(_, _) => true
    case App(d, args) =>
      (IsHigher(d) ==> !IsFree(d.kind.f)) && forall i :: 0 <= i < |args| ==> FirstOrder(args[i])
    case Quant(_, _) => false
  }

  ghost predicate FirstOrderQuery(fs: seq<Expr>) {
    forall i :: 0 <= i < |fs| ==> FirstOrder(fs[i]) && WellSorted(fs[i])
  }

  lemma {:induction false} FirstOrderSub(x: Expr, e: Expr)
    requires x in Sub(e) && FirstOrder(e) && WellSorted(e)
    ensures FirstOrder(x) && WellSorted(x)
    decreases e
  {
    if x != e {
      var i :| 0 <= i < |e.args| && x in Sub(e.args[i]);
      FirstOrderSub(x, e.args[i]);
    }
  }

  lemma ReachFirstOrder(fs: seq<Expr>, x: Expr)
    requires FirstOrderQuery(fs) && x in SubAll(fs)
    ensures FirstOrder(x) && WellSorted(x)
  {
    var i :| 0 <= i < |fs| && x in Sub(fs[i]);
    FirstOrderSub(x, fs[i]);
  }

  ghost function ConstDecls(R: set<Expr>): set<Decl> {
    set a | a in R && a.App? && IsFree(a.decl) && a.decl.domain == [] :: a.decl
  }

  ghost function FunDecls(R: set<Expr>): set<Decl> {
    set a | a in R && a.App? && IsFree(a.decl) && a.decl.domain != [] :: a.decl
  }

  /** The points at which `R` needs the function `f` in the model `M`. */
  ghost function Points<V(!new)>(S: Structure<V>, M: Model<V>, R: set<Expr>, f: Decl): set<seq<V>> {
    set a | a in R && a.App? && a.decl == f :: EvalAll(S, M, a.args)
  }

  ghost function Entries<V(!new)>(S: Structure<V>, M: Model<V>, R: set<Expr>, f: Decl): map<seq<V>, V> {
    map vs | vs in Points(S, M, R, f) :: M(f)(vs)
  }

  /** As much of `M` as `R` needs. */
  ghost function Needed<V(!new)>(S: Structure<V>, M: Model<V>, R: set<Expr>): PartialModel<V> {
    PartialModel(map c | c in ConstDecls(R) :: M(c)([]),
                 map f | f in FunDecls(R) :: FuncInterp(Entries(S, M, R, f), S.someValue(f.range)))
  }

  lemma EntriesSorted<V(!new)>(S: Structure<V>, M: Model<V>, fs: seq<Expr>, f: Decl)
    requires SortsOk(S) && SortedModel(S, M) && FirstOrderQuery(fs) && IsFree(f)
    ensures SortedFun(S, DenoteFun(FuncInterp(Entries(S, M, SubAll(fs), f), S.someValue(f.range))), f)
  {
    forall vs | vs in Points(S, M, SubAll(fs), f) ensures S.hasSort(M(f)(vs), f.range) {
      var a :| a in SubAll(fs) && a.App? && a.decl == f && EvalAll(S, M, a.args) == vs;
      ReachFirstOrder(fs, a);
      EvalAllSorted(S, M, a);
    }
  }

  lemma NeededWellFormed<V(!new)>(S: Structure<V>, M: Model<V>, fs: seq<Expr>)
    requires SortsOk(S) && SortedModel(S, M) && FirstOrderQuery(fs)
    ensures WellFormedModel(S, Needed(S, M, SubAll(fs)))
  {
    var m := Needed(S, M, SubAll(fs));
    forall c | c in m.consts ensures IsFree(c) && c.domain == [] && S.hasSort(m.consts[c], c.range) {
      assert SortedFun(S, M(c), c) && SortedAs(S, [], c.domain);
    }
    forall f | f in m.funs ensures IsFree(f) && f.domain != [] && SortedFun(S, DenoteFun(m.funs[f]), f) {
      EntriesSorted(S, M, fs, f);
    }
  }

  /** Models that share what is needed agree on every term of the query. */
  lemma {:induction false} NeededDecides<V(!new)>(S: Structure<V>, M: Model<V>, M': Model<V>, fs: seq<Expr>, e: Expr)
    requires FirstOrderQuery(fs) && Extends(M', Needed(S, M, SubAll(fs))) && e in SubAll(fs)
    ensures Eval(S, M', e) == Eval(S, M, e)
    decreases e
  {
    ReachFirstOrder(fs, e);
    if e.App? {
      forall i | 0 <= i < |e.args| ensures EvalAll(S, M', e.args)[i] == EvalAll(S, M, e.args)[i] {
        ArgInSubAll(e, i, fs);
        NeededDecides(S, M, M', fs, e.args[i]);
      }
      assert EvalAll(S, M', e.args) == EvalAll(S, M, e.args);
      AppDecided(S, M, M', SubAll(fs), e);
    }
  }

  lemma AppDecided<V(!new)>(S: Structure<V>, M: Model<V>, M': Model<V>, R: set<Expr>, e: Expr)
    requires e.App? && e in R && FirstOrder(e) && WellSorted(e) && Extends(M', Needed(S, M, R))
    ensures Fun(S, M', e.decl)(EvalAll(S, M, e.args)) == Fun(S, M, e.decl)(EvalAll(S, M, e.args))
  {
    var d, vs := e.decl, EvalAll(S, M, e.args);
    if IsFree(d) && d.domain == [] {
      assert d in ConstDecls(R) && vs == [];
    } else if IsFree(d) {
      FunNeeded(S, M, M', R, e);
    }
  }

  lemma FunNeeded<V(!new)>(S: Structure<V>, M: Model<V>, M': Model<V>, R: set<Expr>, e: Expr)
    requires e.App? && e in R && IsFree(e.decl) && e.decl.domain != [] && Extends(M', Needed(S, M, R))
    ensures M'(e.decl)(EvalAll(S, M, e.args)) == M(e.decl)(EvalAll(S, M, e.args))
  {
    var d, vs := e.decl, EvalAll(S, M, e.args);
    assert d in FunDecls(R) && vs in Points(S, M, R, d);
    assert vs in Entries(S, M, R, d);
    assert M'(d) == DenoteFun(FuncInterp(Entries(S, M, R, d), S.someValue(d.range)));
  }

  /** Every first-order query is answerable. */
  lemma FirstOrderAnswerable<V(!new)>(S: Structure<V>, fs: seq<Expr>)
    requires SortsOk(S) && FirstOrderQuery(fs)
    ensures Answerable(S, fs)
  {
    if Satisfiable(S, fs) {
      var M: Model<V> :| SortedModel(S, M) && HoldAll(S, M, fs);
      NeededWellFormed(S, M, fs);
      forall M': Model<V> | SortedModel(S, M') && Extends(M', Needed(S, M, SubAll(fs))) ensures HoldAll(S, M', fs) {
        forall i | 0 <= i < |fs| ensures Holds(S, M', fs[i]) {
          assert fs[i] in Sub(fs[i]);
          NeededDecides(S, M, M', fs, fs[i]);
        }
      }
      assert Implicant(S, Needed(S, M, SubAll(fs)), fs);
    }
  }

  /** Being answerable depends only on the models of a query. */
  lemma SameModelsAnswerable<V(!new)>(S: Structure<V>, fs: seq<Expr>, gs: seq<Expr>)
    requires forall M: Model<V> :: SortedModel(S, M) ==> (HoldAll(S, M, fs) <==> HoldAll(S, M, gs))
    requires Answerable(S, fs)
    ensures Answerable(S, gs)
  {
    if Satisfiable(S, gs) {
      var M: Model<V> :| SortedModel(S, M) && HoldAll(S, M, gs);
      assert Satisfiable(S, fs);
      var m: PartialModel<V> :| Implicant(S, m, fs);
      assert Implicant(S, m, gs);
    }
  }
}
