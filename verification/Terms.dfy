/** Hash-consed expressions and their meaning.

    Two pointers to the same hash-consed node are the same `Expr` value here, so
    pointer equality in the program is structural equality in the model. */
module Terms {
  import opened Powers

  /** The truth values; sorts with any number of values, like the integers; enumerations;
      bit-vectors; arrays. */
  datatype Sort =
    | Base(id: nat)
    | Enumerated(id: nat, last: nat)
    | BitVec(size: nat)
    | ArraySort(domain: seq<Sort>, range: Sort)

  const BOOL: Sort := Base(0)

  datatype Name = Named(s: string) | Numeral(n: nat) | FreshName(base: Name, index: nat)

  /** What a plugin says about a declaration.  `Uninterpreted` has no family;
      `PluginFree` belongs to a plugin that treats it as uninterpreted (division by
      zero and the like); `Value` builds unique values; `AsArray` and `ArrayMap`
      carry the first-order function symbol they lift. */
  datatype Kind =
    | Uninterpreted
    | PluginFree
    | Value
    | Interpreted
    | Select
    | AsArray(f: Decl)
    | ArrayMap(f: Decl)

  datatype Decl = Decl(name: Name, kind: Kind, domain: seq<Sort>, range: Sort)

  datatype Expr =
    | Var(index: nat, sort: Sort)
    | App(decl: Decl, args: seq<Expr>)
    | Quant(binder: Decl, body: Expr)

  function SortOf(e: Expr): Sort {
    match e
    case Var(_, s) => s
    case App(d, _) => d.range
    case Quant(q, _) => q.range
  }

  predicate IsFree(d: Decl) {
    d.kind.Uninterpreted? || d.kind.PluginFree?
  }

  predicate IsHigher(d: Decl) {
    d.kind.AsArray? || d.kind.ArrayMap?
  }

  predicate IsUninterpConst(e: Expr) {
    e.App? && e.args == [] && e.decl.kind.Uninterpreted?
  }

  /** Unique theory values: different value terms of a sort never denote the same element. */
  predicate IsUnique(e: Expr) {
    e.App? && e.decl.kind.Value? && AllUnique(e.args)
  }

  predicate AllUnique(es: seq<Expr>) {
    forall i :: 0 <= i < |es| ==> IsUnique(es[i])
  }

  predicate AreDistinct(a: Expr, b: Expr) {
    a != b && IsUnique(a) && IsUnique(b)
  }

  // ---------- Boolean structure ----------

  function TrueDecl(): Decl { Decl(Named("true"), Value, [], BOOL) }
  function FalseDecl(): Decl { Decl(Named("false"), Value, [], BOOL) }
  function EqDecl(s: Sort): Decl { Decl(Named("="), Interpreted, [s, s], BOOL) }
  function AndDecl(n: nat): Decl { Decl(Named("and"), Interpreted, seq(n, _ => BOOL), BOOL) }
  function ImpliesDecl(): Decl { Decl(Named("=>"), Interpreted, [BOOL, BOOL], BOOL) }

  function True(): Expr { App(TrueDecl(), []) }
  function MkEq(a: Expr, b: Expr): Expr { App(EqDecl(SortOf(a)), [a, b]) }
  function MkImplies(a: Expr, b: Expr): Expr { App(ImpliesDecl(), [a, b]) }
  function MkAnd(es: seq<Expr>): Expr {
    if |es| == 0 then True() else if |es| == 1 then es[0] else App(AndDecl(|es|), es)
  }

  // ---------- well-formed input ----------

  function SelectDecl(s: Sort): Decl
    requires s.ArraySort?
  {
    Decl(Named("select"), Select, [s] + s.domain, s.range)
  }

  function NumeralDecl(s: Sort, n: nat): Decl { Decl(Numeral(n), Value, [], s) }

  /** The constant array, a unique value if its element is one. */
  function ConstDecl(s: Sort): Decl
    requires s.ArraySort?
  {
    Decl(Named("const"), Value, [s.range], s)
  }

  /** The values that a sort has: two truth values, the numerals that fit a width, the
      members of an enumeration, constant arrays. */
  predicate IsValueOf(d: Decl) {
    match d.range
    case Base(_) => d.range == BOOL ==> d == TrueDecl() || d == FalseDecl()
    case Enumerated(_, last) => d.name.Numeral? && d == NumeralDecl(d.range, d.name.n) && d.name.n <= last
    case BitVec(size) => d.name.Numeral? && d == NumeralDecl(d.range, d.name.n) && d.name.n < Pow2(size)
    case ArraySort(_, _) => d == ConstDecl(d.range)
  }

  predicate WellFormedDecl(d: Decl) {
    && (d.kind.Value? ==> IsValueOf(d))
    && (IsHigher(d) ==> !IsHigher(d.kind.f) && d.kind.f.domain != [])
    && (d.kind.Select? ==> |d.domain| > 0 && d.domain[0].ArraySort? && d == SelectDecl(d.domain[0]))
  }

  predicate WellSorted(e: Expr) {
    match e
    case Var(_, _) => true
    case App(d, args) =>
      && WellFormedDecl(d)
      && |args| == |d.domain|
      && (forall i :: 0 <= i < |args| ==> WellSorted(args[i]) && SortOf(args[i]) == d.domain[i])
    case Quant(_, body) => WellSorted(body)
  }

  /** Terms that an equation may be about. */
  predicate Comparable(a: Expr, b: Expr) { WellSorted(a) && WellSorted(b) && SortOf(a) == SortOf(b) }

  predicate IsFormula(e: Expr) { WellSorted(e) && SortOf(e) == BOOL }

  ghost predicate AreFormulas(es: seq<Expr>) {
    forall i :: 0 <= i < |es| ==> IsFormula(es[i])
  }

  // ---------- subterms reached through application arguments ----------

  function Sub(e: Expr): (r: set<Expr>)
    ensures e in r
  {
    {e} + if e.App? then SubAll(e.args) else {}
  }

  function SubAll(es: seq<Expr>): (r: set<Expr>)
    ensures forall x :: x in r <==> exists i :: 0 <= i < |es| && x in Sub(es[i])
  {
    set i, x | 0 <= i < |es| && x in Sub(es[i]) :: x
  }

  lemma {:induction false} SubTransitive(x: Expr, y: Expr, e: Expr)
    requires x in Sub(y) && y in Sub(e)
    ensures x in Sub(e)
    decreases e
  {
    if y != e {
      var i :| 0 <= i < |e.args| && y in Sub(e.args[i]);
      SubTransitive(x, y, e.args[i]);
    }
  }

  lemma ArgInSub(a: Expr, i: nat, e: Expr)
    requires a in Sub(e) && a.App? && i < |a.args|
    ensures a.args[i] in Sub(e)
  {
    assert a.args[i] in Sub(a);
    SubTransitive(a.args[i], a, e);
  }

  lemma ArgInSubAll(a: Expr, i: nat, es: seq<Expr>)
    requires a in SubAll(es) && a.App? && i < |a.args|
    ensures a.args[i] in SubAll(es)
  {
    var k :| 0 <= k < |es| && a in Sub(es[k]);
    ArgInSub(a, i, es[k]);
  }

  predicate NoQuantifier(e: Expr) {
    forall x :: x in Sub(e) ==> !x.Quant?
  }

  // ---------- structures, models and evaluation ----------

  /** The fixed part of a model: how interpreted symbols, arrays and quantifiers
      behave over a universe `V`, and the values of the free variables. */
  datatype Structure<!V(==)> = Structure(
    env: seq<V>,
    hasSort: (V, Sort) -> bool,
    someValue: Sort -> V,
    interp: Decl -> (seq<V> -> V),
    higher: (Decl, seq<V> -> V) -> (seq<V> -> V),
    quant: (Decl, imap<seq<V>, V>) -> V,
    constArray: (Sort, V) -> V,
    store: (Sort, V, seq<V>, V) -> V)

  /** The free part: what uninterpreted symbols stand for. */
  type Model<!V> = Decl -> (seq<V> -> V)

  function FirstOrderFun<V(==)>(S: Structure<V>, M: Model<V>, d: Decl): seq<V> -> V {
    if IsFree(d) then M(d) else S.interp(d)
  }

  function Fun<V(==)>(S: Structure<V>, M: Model<V>, d: Decl): seq<V> -> V {
    if IsHigher(d) then S.higher(d, FirstOrderFun(S, M, d.kind.f)) else FirstOrderFun(S, M, d)
  }

  ghost function Eval<V(!new)>(S: Structure<V>, M: Model<V>, e: Expr): V
    decreases e, 0
  {
    match e
    case Var(i, s) => if i < |S.env| && S.hasSort(S.env[i], s) then S.env[i] else S.someValue(s)
    case App(d, args) => Fun(S, M, d)(EvalAll(S, M, args))
    case Quant(q, body) => S.quant(q, BodyTable(S, M, |q.domain|, body))
  }

  /** The value of a quantified body for every choice of its `n` bound variables. */
  ghost function BodyTable<V(!new)>(S: Structure<V>, M: Model<V>, n: nat, body: Expr): (t: imap<seq<V>, V>)
    ensures forall vs: seq<V> {:trigger vs in t} :: vs in t <==> |vs| == n
    ensures forall vs: seq<V> {:trigger t[vs]} :: |vs| == n ==> t[vs] == Eval(S.(env := vs + S.env), M, body)
    decreases body, 1
  {
    imap vs: seq<V> | |vs| == n :: Eval(S.(env := vs + S.env), M, body)
  }

  ghost function EvalAll<V(!new)>(S: Structure<V>, M: Model<V>, es: seq<Expr>): (vs: seq<V>)
    ensures |vs| == |es|
    ensures forall i :: 0 <= i < |es| ==> vs[i] == Eval(S, M, es[i])
    decreases es
  {
    seq(|es|, i requires 0 <= i < |es| => Eval(S, M, es[i]))
  }

  predicate SortedAs<V(==)>(S: Structure<V>, vs: seq<V>, ss: seq<Sort>) {
    |vs| == |ss| && forall i :: 0 <= i < |vs| ==> S.hasSort(vs[i], ss[i])
  }

  ghost predicate SortedFun<V(!new)>(S: Structure<V>, g: seq<V> -> V, d: Decl) {
    forall vs :: SortedAs(S, vs, d.domain) ==> S.hasSort(g(vs), d.range)
  }

  ghost predicate SortedModel<V(!new)>(S: Structure<V>, M: Model<V>) {
    forall d :: IsFree(d) ==> SortedFun(S, M(d), d)
  }

  function Tt<V(==)>(S: Structure<V>): V { S.interp(TrueDecl())([]) }

  ghost predicate Holds<V(!new)>(S: Structure<V>, M: Model<V>, f: Expr) {
    Eval(S, M, f) == Tt(S)
  }

  ghost predicate HoldAll<V(!new)>(S: Structure<V>, M: Model<V>, fs: seq<Expr>) {
    forall i :: 0 <= i < |fs| ==> Holds(S, M, fs[i])
  }

  ghost predicate Satisfiable<V(!new)>(S: Structure<V>, fs: seq<Expr>) {
    exists M: Model<V> :: SortedModel(S, M) && HoldAll(S, M, fs)
  }

  // What a structure must satisfy: sorts are respected, the Boolean connectives
  // mean what they say, values of a sort are distinct, arrays obey read-over-write.

  ghost predicate SortsOk<V(!new)>(S: Structure<V>) {
    && (forall s :: S.hasSort(S.someValue(s), s))
    && (forall d :: !IsFree(d) && !IsHigher(d) ==> SortedFun(S, S.interp(d), d))
    && (forall d, g :: IsHigher(d) && SortedFun(S, g, d.kind.f) ==> SortedFun(S, S.higher(d, g), d))
    && (forall q, m :: S.hasSort(S.quant(q, m), q.range))
  }

  ghost predicate BoolOk<V(!new)>(S: Structure<V>) {
    && (forall s, a, b :: S.interp(EqDecl(s))([a, b]) == Tt(S) <==> a == b)
    && (forall a, b :: S.interp(ImpliesDecl())([a, b]) == Tt(S) <==> (a == Tt(S) ==> b == Tt(S)))
    && (forall vs: seq<V> :: S.interp(AndDecl(|vs|))(vs) == Tt(S)
                             <==> forall i :: 0 <= i < |vs| ==> vs[i] == Tt(S))
  }

  ghost predicate ValuesOk<V(!new)>(S: Structure<V>) {
    forall M, a, b :: AreDistinct(a, b) && Comparable(a, b) ==> Eval(S, M, a) != Eval(S, M, b)
  }

  ghost predicate ArraysOk<V(!new)>(S: Structure<V>) {
    && (forall s: Sort, v :: s.ArraySort? && S.hasSort(v, s.range) ==> S.hasSort(S.constArray(s, v), s))
    && (forall s: Sort, a, i, v :: s.ArraySort? && S.hasSort(a, s) && SortedAs(S, i, s.domain) && S.hasSort(v, s.range)
                             ==> S.hasSort(S.store(s, a, i, v), s))
    && (forall s: Sort, v, j :: s.ArraySort? && S.hasSort(v, s.range) && SortedAs(S, j, s.domain)
                                ==> S.interp(SelectDecl(s))([S.constArray(s, v)] + j) == v)
    && (forall s: Sort, a, i, v, j :: s.ArraySort? && S.hasSort(a, s) && SortedAs(S, i, s.domain)
                                      && S.hasSort(v, s.range) && SortedAs(S, j, s.domain)
                                      ==> S.interp(SelectDecl(s))([S.store(s, a, i, v)] + j)
                                          == if i == j then v else S.interp(SelectDecl(s))([a] + j))
  }

  ghost predicate StructureOk<V(!new)>(S: Structure<V>) {
    SortsOk(S) && BoolOk(S) && ValuesOk(S) && ArraysOk(S)
  }

  /** Every well-sorted term denotes an element of its sort. */
  lemma {:induction false} EvalHasSort<V(!new)>(S: Structure<V>, M: Model<V>, e: Expr)
    requires SortsOk(S) && SortedModel(S, M) && WellSorted(e)
    ensures S.hasSort(Eval(S, M, e), SortOf(e))
    decreases e
  {
    if e.App? {
      EvalAllSorted(S, M, e);
      assert SortedFun(S, FirstOrderFun(S, M, e.decl), e.decl) || IsHigher(e.decl);
      assert IsHigher(e.decl) ==> SortedFun(S, FirstOrderFun(S, M, e.decl.kind.f), e.decl.kind.f);
      assert SortedFun(S, Fun(S, M, e.decl), e.decl);
    }
  }

  lemma {:induction false} EvalAllSorted<V(!new)>(S: Structure<V>, M: Model<V>, e: Expr)
    requires SortsOk(S) && SortedModel(S, M) && WellSorted(e) && e.App?
    ensures SortedAs(S, EvalAll(S, M, e.args), e.decl.domain)
    decreases e, 0
  {
    forall i | 0 <= i < |e.args|
      ensures S.hasSort(EvalAll(S, M, e.args)[i], e.decl.domain[i])
    {
      EvalHasSort(S, M, e.args[i]);
    }
  }

  lemma ArgNoQuantifier(e: Expr, i: nat)
    requires NoQuantifier(e) && e.App? && i < |e.args|
    ensures NoQuantifier(e.args[i])
  {
    forall x | x in Sub(e.args[i])
      ensures !x.Quant?
    {
      assert e.args[i] in Sub(e);
      SubTransitive(x, e.args[i], e);
    }
  }
}
