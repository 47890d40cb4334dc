/** What a solver's answers about the abstraction say about the input. */
module Solving {
  import opened Terms
  import opened AckrHelper
  import opened Abstraction
  import opened Congruence
  import opened Equisat
  import opened PartialModels
  import opened BackTranslate
  import opened Pairing
  import opened ModelConstructor
  import Worklist
  import opened Encoding
  import opened LemmaBound
  import opened Queries
  import opened Distinctness
  import U = TermUniverse

  datatype LBool = LFalse | LUndef | LTrue

  function Verdict<V(==)>(a: Answer<V>): LBool {
    match a case Unsat => LFalse case Unknown => LUndef case Sat(_) => LTrue
  }

  /** An answer about `fs` after asking `asked`: a definite answer is right, an undefined one
      is the solver's, only formulas were asked, and about a first-order input only what is
      answerable. */
  ghost predicate Correct<V(!new)>(S: Structure<V>, fs: seq<Expr>, solver: seq<Expr> -> Answer<V>,
                                   asked: seq<seq<Expr>>, r: LBool) {
    && (r == LTrue ==> Satisfiable(S, fs))
    && (r == LFalse ==> !Satisfiable(S, fs))
    && (r == LUndef ==> exists q :: q in asked && solver(q).Unknown?)
    && AllAnswerable(S, fs, asked)
  }

  ghost predicate AllAnswerable<V(!new)>(S: Structure<V>, fs: seq<Expr>, asked: seq<seq<Expr>>) {
    && (forall q :: q in asked ==> AreFormulas(q))
    && (FirstOrderQuery(fs) ==> forall q :: q in asked ==> Answerable(S, q))
  }

  lemma OneMoreAsked<V(!new)>(S: Structure<V>, fs: seq<Expr>, solver: seq<Expr> -> Answer<V>, asked: seq<seq<Expr>>,
                              q: seq<Expr>)
    requires AllAnswerable(S, fs, asked) && AllAnswerable(S, fs, [q])
    ensures AllAnswerable(S, fs, asked + [q])
    ensures forall r :: Correct(S, fs, solver, [q], r) ==> Correct(S, fs, solver, asked + [q], r)
  {
    assert q in [q] && q in asked + [q];
  }

  /** With a complete solver every correct strategy decides every first-order input, so
      any two strategies agree. */
  lemma CorrectDecides<V(!new)>(S: Structure<V>, fs: seq<Expr>, solver: seq<Expr> -> Answer<V>, asked: seq<seq<Expr>>,
                                r: LBool)
    requires Complete(S, solver) && FirstOrderQuery(fs) && Correct(S, fs, solver, asked, r)
    ensures r == if Satisfiable(S, fs) then LTrue else LFalse
  {
  }

  /** What both strategies take for granted can be met, all at once, over a structure with
      two truth values and finite bit-vectors, and with the test of the bit-vector theory. */
  lemma AssumptionsMet() returns (S: Structure<U.Element>, th: Theory, solver: seq<Expr> -> Answer<U.Element>)
    ensures StructureOk(S) && U.OnlyValues(S)
    ensures TheoryOk(S, th) && forall a, b :: th.distinct(a, b) <==> BvDistinct(a, b)
    ensures SolverOk(S, solver) && Complete(S, solver)
  {
    S, th := U.Universe(), BvTheory((e: Expr) => e);
    U.AssumptionsHold();
    BvTheoryOk(S, (e: Expr) => e);
    solver := CompleteSolver(S);
  }

  /** Some lemmas of the input, not necessarily all: satisfiability carries over. */
  lemma LemmasKeepSatisfiable<V(!new)>(S: Structure<V>, fs: seq<Expr>, sub: Subst, c2t: map<Decl, Expr>,
                                       th: Theory, ls: seq<Expr>)
    requires StructureOk(S) && TheoryOk(S, th) && Input(fs) && Abstracts(sub, SubAll(fs)) && Inverse(sub, c2t)
    requires OnlyLemmas(sub, th, ls) && Satisfiable(S, fs)
    ensures Satisfiable(S, ReplaceAll(sub, fs) + ls)
  {
    var Mo: Model<V> :| SortedModel(S, Mo) && HoldAll(S, Mo, fs);
    var Ma := Expand(S, Mo, c2t);
    ExpandIsModel(S, Mo, sub, c2t, fs);
    KeysWellSorted(fs, sub);
    CongruentHoldsAll(S, Ma, sub, th, ls);
    HoldAllConcat(S, Ma, ReplaceAll(sub, fs), ls);
  }

  lemma CongruentHoldsAll<V(!new)>(S: Structure<V>, M: Model<V>, sub: Subst, th: Theory, ls: seq<Expr>)
    requires BoolOk(S) && ValuesOk(S) && TheoryOk(S, th) && SortedModel(S, M)
    requires IsAbstraction(sub) && KeepsConnectives(sub) && Congruent(S, M, sub)
    requires OnlyLemmas(sub, th, ls) && forall t :: t in sub ==> WellSorted(t)
    ensures HoldAll(S, M, ls)
  {
    forall i | 0 <= i < |ls| ensures Holds(S, M, ls[i]) { CongruentHolds(S, M, sub, th, ls, ls[i]); }
  }

  lemma CongruentHolds<V(!new)>(S: Structure<V>, M: Model<V>, sub: Subst, th: Theory, ls: seq<Expr>, l: Expr)
    requires BoolOk(S) && ValuesOk(S) && TheoryOk(S, th) && SortedModel(S, M)
    requires IsAbstraction(sub) && KeepsConnectives(sub) && Congruent(S, M, sub)
    requires OnlyLemmas(sub, th, ls) && l in ls && forall t :: t in sub ==> WellSorted(t)
    ensures Holds(S, M, l)
  {
    var t1, t2 :| t1 in sub && t2 in sub && SameClass(t1, t2) && |t1.args| == |t2.args|
                  && l in Emitted(sub, th, t1, t2);
    SameClassSameDecl(t1, t2);
    EmittedMeaning(S, M, sub, th, t1, t2);
  }

  /** A conflict seen in a model of the asserted formulas gives a lemma that is false
      there, so it was not asserted before. */
  lemma ConflictIsNew<V(!new)>(S: Structure<V>, am: PartialModel<V>, sub: Subst, th: Theory,
                               abstr: seq<Expr>, ls: seq<Expr>, t1: Expr, t2: Expr)
    requires StructureOk(S) && TheoryOk(S, th) && IsAbstraction(sub) && KeepsConnectives(sub)
    requires Implicant(S, am, abstr + ls)
    requires t1 in sub && t2 in sub && SameShape(t1, t2)
    requires var M := Total(S, am); Vals(S, M, sub, t1.args) == Vals(S, M, sub, t2.args)
                                    && Eval(S, M, sub[t1]) != Eval(S, M, sub[t2])
    ensures exists l :: l in Emitted(sub, th, t1, t2) && l !in ls
  {
    var M := Total(S, am);
    TotalIsModel(S, am);
    assert HoldAll(S, M, abstr + ls);
    HoldAllConcat(S, M, abstr, ls);
    EmittedMeaning(S, M, sub, th, t1, t2);
    var es := Emitted(sub, th, t1, t2);
    var i :| 0 <= i < |es| && !Holds(S, M, es[i]);
    assert es[i] in es;
    HoldAllMembers(S, M, ls);
  }

  lemma HoldAllMembers<V(!new)>(S: Structure<V>, M: Model<V>, ls: seq<Expr>)
    requires HoldAll(S, M, ls)
    ensures forall l :: l in ls ==> Holds(S, M, l)
  {
  }

  lemma ImplicantPrefix<V(!new)>(S: Structure<V>, am: PartialModel<V>, a: seq<Expr>, b: seq<Expr>)
    requires Implicant(S, am, a + b)
    ensures Implicant(S, am, a)
  {
    forall M: Model<V> | SortedModel(S, M) && Extends(M, am) ensures HoldAll(S, M, a) {
      HoldAllConcat(S, M, a, b);
    }
  }

  lemma ImplicantSatisfiable<V(!new)>(S: Structure<V>, am: PartialModel<V>, fs: seq<Expr>)
    requires SortsOk(S) && Implicant(S, am, fs)
    ensures Satisfiable(S, fs)
  {
    TotalIsModel(S, am);
  }

  // ---------- one conjunction instead of many assertions ----------

  lemma {:induction false} ReplaceNothing(e: Expr)
    ensures Replace(map[], e) == e
    decreases e
  {
    if e.App? {
      forall i | 0 <= i < |e.args| ensures ReplaceAll(map[], e.args)[i] == e.args[i] { ReplaceNothing(e.args[i]); }
      assert ReplaceAll(map[], e.args) == e.args;
    } else if e.Quant? {
      ReplaceNothing(e.body);
    }
  }

  lemma ConjunctionMeaning<V(!new)>(S: Structure<V>, M: Model<V>, th: Theory, abstr: seq<Expr>, ls: seq<Expr>)
    requires BoolOk(S) && TheoryOk(S, th) && SortedModel(S, M) && AreFormulas(ls)
    ensures HoldAll(S, M, abstr + [th.simp(MkAnd(ls))]) <==> HoldAll(S, M, abstr + ls)
  {
    var conj := [th.simp(MkAnd(ls))];
    HoldAllConcat(S, M, abstr, conj);
    HoldAllConcat(S, M, abstr, ls);
    AndMeaning(S, M, map[], ls);
    ReplaceNothing(MkAnd(ls));
    AndIsFormula(ls);
    assert Keeps(S, MkAnd(ls), th.simp(MkAnd(ls)));
    forall i | 0 <= i < |ls| ensures Holds(S, M, Replace(map[], ls[i])) <==> Holds(S, M, ls[i]) {
      ReplaceNothing(ls[i]);
    }
    assert Holds(S, M, conj[0]) <==> Holds(S, M, MkAnd(ls));
  }

  lemma ConjunctionSatisfiable<V(!new)>(S: Structure<V>, th: Theory, abstr: seq<Expr>, ls: seq<Expr>)
    requires BoolOk(S) && TheoryOk(S, th) && AreFormulas(ls)
    ensures Satisfiable(S, abstr + [th.simp(MkAnd(ls))]) <==> Satisfiable(S, abstr + ls)
  {
    forall M: Model<V> | SortedModel(S, M)
      ensures HoldAll(S, M, abstr + [th.simp(MkAnd(ls))]) <==> HoldAll(S, M, abstr + ls)
    {
      ConjunctionMeaning(S, M, th, abstr, ls);
    }
  }

  // ---------- the pairs that are still open ----------

  ghost predicate PairOf(sub: Subst, p: Pair) {
    p.0 in sub && p.1 in sub && p.0.App? && p.1.App? && SameClass(p.0, p.1) && |p.0.args| == |p.1.args|
  }

  /** Neither lemma of the pair has been asserted. */
  ghost predicate Open(sub: Subst, th: Theory, ls: seq<Expr>, p: Pair) {
    PairOf(sub, p) && !Covered(sub, th, ls, p.0, p.1)
  }

  /** How many of the pairs `ps` are open. */
  ghost function OpenCount(sub: Subst, th: Theory, ls: seq<Expr>, ps: seq<Pair>): (n: nat)
    ensures n <= |ps|
  {
    if ps == [] then 0
    else OpenCount(sub, th, ls, ps[..|ps| - 1]) + if Open(sub, th, ls, ps[|ps| - 1]) then 1 else 0
  }

  lemma {:induction false} OpenCountFalls(sub: Subst, th: Theory, ls: seq<Expr>, ls': seq<Expr>, ps: seq<Pair>)
    requires forall l :: l in ls ==> l in ls'
    ensures OpenCount(sub, th, ls', ps) <= OpenCount(sub, th, ls, ps)
    ensures (exists p :: p in ps && Open(sub, th, ls, p) && !Open(sub, th, ls', p)) ==>
              OpenCount(sub, th, ls', ps) < OpenCount(sub, th, ls, ps)
  {
    if ps != [] {
      InLonger(ps);
      OpenCountFalls(sub, th, ls, ls', ps[..|ps| - 1]);
    }
  }

  lemma OnlyLemmasGrow(sub: Subst, th: Theory, ls: seq<Expr>, t1: Expr, t2: Expr)
    requires IsAbstraction(sub) && OnlyLemmas(sub, th, ls)
    requires t1 in sub && t2 in sub && SameClass(t1, t2) && |t1.args| == |t2.args|
    ensures OnlyLemmas(sub, th, ls + Emitted(sub, th, t1, t2))
  {
  }

  // ---------- the terms a check can visit ----------

  function CheckSpace<V(==)>(R: set<Expr>, c2t: map<Decl, Expr>, am: PartialModel<V>): set<Expr> {
    R + set c | c in am.consts && c !in c2t :: App(c, [])
  }

  lemma CheckSpaceSetting<V(!new)>(S: Structure<V>, am: PartialModel<V>, fs: seq<Expr>, sub: Subst,
                                   c2t: map<Decl, Expr>, mc: ModelConstructor<V>)
    requires Input(fs) && CheckableInput(fs) && WellFormedModel(S, am)
    requires Abstracts(sub, SubAll(fs)) && Inverse(sub, c2t)
    requires mc.S == S && mc.sub == sub && mc.c2t == c2t && mc.am == am
    ensures mc.Setting(CheckSpace(SubAll(fs), c2t, am))
    ensures forall c :: c in am.consts ==> mc.TermFor(c) in CheckSpace(SubAll(fs), c2t, am)
  {
    var U := CheckSpace(SubAll(fs), c2t, am);
    assert KeepsConnectives(sub);
    forall a | a in U ensures Checkable(a) && WellSorted(a) && (FunApp(a) ==> a in sub) {
      InSpace(S, am, fs, sub, c2t, a);
    }
    SpaceClosed(fs, c2t, am);
    forall c | c in am.consts ensures mc.TermFor(c) in U { TermInSpace(fs, sub, c2t, am, c); }
  }

  lemma InSpace<V(!new)>(S: Structure<V>, am: PartialModel<V>, fs: seq<Expr>, sub: Subst, c2t: map<Decl, Expr>, a: Expr)
    requires Input(fs) && CheckableInput(fs) && Abstracts(sub, SubAll(fs)) && WellFormedModel(S, am)
    requires a in CheckSpace(SubAll(fs), c2t, am)
    ensures Checkable(a) && WellSorted(a) && (FunApp(a) ==> a in sub) && (UFInput(fs) ==> !IsSelect(a))
  {
    if a in SubAll(fs) { TermAbstracted(fs, sub, a); }
  }

  lemma SpaceClosed<V(!new)>(fs: seq<Expr>, c2t: map<Decl, Expr>, am: PartialModel<V>)
    ensures Worklist.Closed(CheckSpace(SubAll(fs), c2t, am))
  {
    var U := CheckSpace(SubAll(fs), c2t, am);
    forall a, x | a in U && a.App? && x in a.args ensures x in U {
      if a in SubAll(fs) { ArgReached(fs, a, x); }
    }
  }

  lemma TermInSpace<V(!new)>(fs: seq<Expr>, sub: Subst, c2t: map<Decl, Expr>, am: PartialModel<V>, c: Decl)
    requires Abstracts(sub, SubAll(fs)) && Inverse(sub, c2t) && c in am.consts
    ensures (if c in c2t then c2t[c] else App(c, [])) in CheckSpace(SubAll(fs), c2t, am)
  {
  }

  lemma ArgReached(fs: seq<Expr>, a: Expr, x: Expr)
    requires a in SubAll(fs) && a.App? && x in a.args
    ensures x in SubAll(fs)
  {
    var i :| 0 <= i < |a.args| && a.args[i] == x;
    ArgInSubAll(a, i, fs);
  }

  lemma TermAbstracted(fs: seq<Expr>, sub: Subst, a: Expr)
    requires Input(fs) && CheckableInput(fs) && a in SubAll(fs)
    requires sub.Keys == CollectedFuns(SubAll(fs)) + CollectedSels(SubAll(fs))
    ensures Checkable(a) && WellSorted(a) && (FunApp(a) ==> a in sub)
  {
    ReachWellSorted(fs, a);
    NothingLifted(SubAll(fs));
  }

  lemma NothingLifted(R: set<Expr>)
    requires forall x :: x in R ==> Checkable(x)
    ensures NonFuns(R) == {}
  {
  }

  // ---------- the answers of the eager strategy ----------

  lemma EagerAnswer<V(!new)>(S: Structure<V>, fs: seq<Expr>, sub: Subst, c2t: map<Decl, Expr>, th: Theory,
                             ls: seq<Expr>, solver: seq<Expr> -> Answer<V>)
    requires StructureOk(S) && TheoryOk(S, th) && SolverOk(S, solver) && Ackermannized(fs, sub, c2t, th, ls)
    ensures var abstr := ReplaceAll(sub, fs); var all := abstr + [th.simp(MkAnd(ls))];
            Correct(S, fs, solver, [abstr, all], Verdict(solver(all)))
  {
    var abstr := ReplaceAll(sub, fs);
    var all := abstr + [th.simp(MkAnd(ls))];
    QueriesAreFormulas(S, fs, sub, th, ls);
    ConjunctionSatisfiable(S, th, abstr, ls);
    Equisatisfiable(S, fs, sub, c2t, th, ls);
    if FirstOrderQuery(fs) { EagerQueries(S, fs, sub, th, ls); }
    TwoAsked(S, fs, solver, abstr, all);
  }

  /** The second of two queries decides, if it is as satisfiable as the input. */
  lemma TwoAsked<V(!new)>(S: Structure<V>, fs: seq<Expr>, solver: seq<Expr> -> Answer<V>, q1: seq<Expr>, q2: seq<Expr>)
    requires SortsOk(S) && SolverOk(S, solver) && AreFormulas(q1) && AreFormulas(q2)
    requires Satisfiable(S, q2) <==> Satisfiable(S, fs)
    requires FirstOrderQuery(fs) ==> Answerable(S, q1) && Answerable(S, q2)
    ensures Correct(S, fs, solver, [q1, q2], Verdict(solver(q2)))
  {
    assert IsTrue(S, solver(q2), q2);
    if solver(q2).Sat? { ImplicantSatisfiable(S, solver(q2).model, q2); }
    assert q2 in [q1, q2];
  }

  /** All that is asked are formulas. */
  lemma QueriesAreFormulas<V(!new)>(S: Structure<V>, fs: seq<Expr>, sub: Subst, th: Theory, ls: seq<Expr>)
    requires TheoryOk(S, th) && Input(fs) && Abstracts(sub, SubAll(fs)) && OnlyLemmas(sub, th, ls)
    ensures AreFormulas(ls) && AreFormulas(ReplaceAll(sub, fs)) && AreFormulas(ReplaceAll(sub, fs) + ls)
    ensures AreFormulas(ReplaceAll(sub, fs) + [th.simp(MkAnd(ls))])
  {
    KeysWellSorted(fs, sub);
    LemmasAreFormulas(S, sub, th, ls);
    forall i | 0 <= i < |fs| ensures IsFormula(Replace(sub, fs[i])) { ReplaceSorted(sub, fs[i]); }
    AndIsFormula(ls);
    assert Keeps(S, MkAnd(ls), th.simp(MkAnd(ls)));
  }

  lemma EagerQueries<V(!new)>(S: Structure<V>, fs: seq<Expr>, sub: Subst, th: Theory, ls: seq<Expr>)
    requires StructureOk(S) && TheoryOk(S, th) && FirstOrderQuery(fs) && Abstracts(sub, SubAll(fs))
    requires OnlyLemmas(sub, th, ls) && AreFormulas(ls)
    ensures Answerable(S, ReplaceAll(sub, fs)) && Answerable(S, ReplaceAll(sub, fs) + [th.simp(MkAnd(ls))])
  {
    var abstr := ReplaceAll(sub, fs);
    QueryAnswerable(S, fs, sub, th, []);
    assert abstr + [] == abstr;
    QueryAnswerable(S, fs, sub, th, ls);
    forall M: Model<V> | SortedModel(S, M)
      ensures HoldAll(S, M, abstr + ls) <==> HoldAll(S, M, abstr + [th.simp(MkAnd(ls))])
    {
      ConjunctionMeaning(S, M, th, abstr, ls);
    }
    SameModelsAnswerable(S, abstr + ls, abstr + [th.simp(MkAnd(ls))]);
  }

  // ---------- one round of the lazy strategy ----------

  /** A pair of applications of one symbol that `am` interprets inconsistently. */
  ghost predicate Refutes<V(!new)>(S: Structure<V>, am: PartialModel<V>, sub: Subst, p: Pair) {
    var M := Total(S, am);
    && p.0 in sub && p.1 in sub && SameClass(p.0, p.1) && SameShape(p.0, p.1)
    && Vals(S, M, sub, p.0.args) == Vals(S, M, sub, p.1.args) && Eval(S, M, sub[p.0]) != Eval(S, M, sub[p.1])
  }

  /** Applications of constants and values whose constants the model lists. */
  ghost predicate FlatPair<V(!new)>(am: PartialModel<V>, sub: Subst, t1: Expr, t2: Expr) {
    && t1 in sub && t2 in sub && FunApp(t1) && t2.App? && sub[t1].App? && sub[t2].App?
    && sub[t1].decl in am.consts && sub[t2].decl in am.consts
    && forall x :: x in t1.args || x in t2.args ==> x.App? && x.args == []
  }

  /** Every two such applications that disagree are found. */
  ghost predicate FlatConflictsFound<V(!new)>(S: Structure<V>, am: PartialModel<V>, sub: Subst, ps: seq<Pair>) {
    forall t1, t2 :: FlatPair(am, sub, t1, t2) && Refutes(S, am, sub, (t1, t2))
                     ==> exists p :: p in ps && (p.0 == t1 || p.0 == t2)
  }

  /** Checks an abstract model: either the input has a model, or there are conflicts. */
  method CheckModel<V(==, !new)>(S: Structure<V>, ghost fs: seq<Expr>, sub: Subst, c2t: map<Decl, Expr>,
                                 am: PartialModel<V>) returns (ok: bool, conflicts: seq<Pair>)
    requires SortsOk(S) && Input(fs) && UFInput(fs) && Abstracts(sub, SubAll(fs)) && Inverse(sub, c2t)
    requires Implicant(S, am, ReplaceAll(sub, fs))
    ensures ok ==> Satisfiable(S, fs)
    ensures !ok ==> conflicts != [] && forall p :: p in conflicts ==> Refutes(S, am, sub, p)
    ensures FlatConflictsFound(S, am, sub, conflicts)
  {
    ghost var U := CheckSpace(SubAll(fs), c2t, am);
    var mc := new ModelConstructor(S, sub, c2t, am);
    CheckSpaceSetting(S, am, fs, sub, c2t, mc);
    ok := mc.Check(U);
    conflicts := mc.conflicts;
    FlatAreFound(mc, U);
    if ok {
      mc.CheckedIsModel(U, fs);
    } else {
      forall a | a in U ensures !IsSelect(a) { InSpace(S, am, fs, sub, c2t, a); }
      forall p | p in conflicts ensures Refutes(S, am, sub, p) {
        ConflictRefutes(mc, U, p);
      }
    }
  }

  /** A model of an input with selects can fail the check without a conflict: if it lists
      the constant of a select, and no two applications disagree. */
  method CheckAtSelect<V(==, !new)>(S: Structure<V>, ghost fs: seq<Expr>, sub: Subst, c2t: map<Decl, Expr>,
                                    am: PartialModel<V>) returns (ok: bool, conflicts: seq<Pair>)
    requires Input(fs) && CheckableInput(fs) && WellFormedModel(S, am)
    requires Abstracts(sub, SubAll(fs)) && Inverse(sub, c2t)
    requires exists c :: c in am.consts && c in c2t && IsSelect(c2t[c])
    requires forall p: Pair :: FunApp(p.0) ==> !Refutes(S, am, sub, p)
    ensures !ok && conflicts == []
  {
    ghost var U := CheckSpace(SubAll(fs), c2t, am);
    var mc := new ModelConstructor(S, sub, c2t, am);
    CheckSpaceSetting(S, am, fs, sub, c2t, mc);
    ok := mc.Check(U);
    conflicts := mc.conflicts;
    assert forall c :: c in c2t ==> mc.TermFor(c) == c2t[c];
    NothingRefuted(mc, U);
  }

  lemma FlatAreFound<V(!new)>(mc: ModelConstructor<V>, U: set<Expr>)
    requires mc.AllTried(U)
    ensures FlatConflictsFound(mc.S, mc.am, mc.sub, mc.conflicts)
  {
    forall t1, t2 | FlatPair(mc.am, mc.sub, t1, t2) && Refutes(mc.S, mc.am, mc.sub, (t1, t2))
      ensures exists p :: p in mc.conflicts && (p.0 == t1 || p.0 == t2)
    {
      FlatIsFound(mc, U, t1, t2);
    }
  }

  lemma FlatIsFound<V(!new)>(mc: ModelConstructor<V>, U: set<Expr>, t1: Expr, t2: Expr)
    requires mc.AllTried(U) && FlatPair(mc.am, mc.sub, t1, t2) && Refutes(mc.S, mc.am, mc.sub, (t1, t2))
    ensures exists p :: p in mc.conflicts && (p.0 == t1 || p.0 == t2)
  {
    RefutesConflicts(mc, t1, t2);
    mc.FlatConflictFound(U, t1, t2);
  }

  lemma RefutesConflicts<V(!new)>(mc: ModelConstructor<V>, t1: Expr, t2: Expr)
    requires IsAbstraction(mc.sub) && Refutes(mc.S, mc.am, mc.sub, (t1, t2)) && FunApp(t1)
    ensures mc.Conflict((t1, t2))
  {
  }

  lemma NothingRefuted<V(!new)>(mc: ModelConstructor<V>, U: set<Expr>)
    requires mc.Between(U) && forall p: Pair :: FunApp(p.0) ==> !Refutes(mc.S, mc.am, mc.sub, p)
    ensures mc.conflicts == []
  {
    if mc.conflicts != [] { ConflictRefutes(mc, U, mc.conflicts[0]); }
  }

  lemma ConflictRefutes<V(!new)>(mc: ModelConstructor<V>, U: set<Expr>, p: Pair)
    requires mc.Between(U) && p in mc.conflicts
    ensures FunApp(p.0) && Refutes(mc.S, mc.am, mc.sub, p)
  {
    assert WellSorted(p.0) && WellSorted(p.1);
    SameClassSameDecl(p.0, p.1);
  }

  lemma {:induction false} OnlyLemmasMany(sub: Subst, th: Theory, ls: seq<Expr>, ps: seq<Pair>)
    requires IsAbstraction(sub) && OnlyLemmas(sub, th, ls)
    requires forall p :: p in ps ==> p.0 in sub && p.1 in sub && SameClass(p.0, p.1) && |p.0.args| == |p.1.args|
    ensures OnlyLemmas(sub, th, ls + AllLemmas(sub, th, ps))
  {
    if ps == [] {
      assert ls + [] == ls;
    } else {
      var n := |ps| - 1;
      var a, b := AllLemmas(sub, th, ps[..n]), PairLemmas(sub, th, ps[n]);
      OnlyLemmasMany(sub, th, ls, ps[..n]);
      OnlyLemmasGrow(sub, th, ls + a, ps[n].0, ps[n].1);
      AppendAssociative(ls, a, b);
    }
  }

  lemma ConstPairDiffers<V(!new)>(S: Structure<V>, M: Model<V>, sub: Subst, t1: Expr, t2: Expr)
    requires ValuesOk(S) && KeepsConnectives(sub) && SameClass(t1, t2) && t1 != t2 && WellSorted(t1) && WellSorted(t2)
    requires ConstArgs(t1) && ConstArgs(t2)
    ensures Vals(S, M, sub, t1.args) != Vals(S, M, sub, t2.args)
  {
    ConstPairNeverEqual(t1, t2);
    ValuesDifferSound(S, M, sub, t1.args, t2.args);
  }

  /** A pair that the model of the asserted formulas refutes is open. */
  lemma ConflictIsOpen<V(!new)>(S: Structure<V>, am: PartialModel<V>, sub: Subst, th: Theory,
                                abstr: seq<Expr>, ls: seq<Expr>, p: Pair)
    requires StructureOk(S) && TheoryOk(S, th) && IsAbstraction(sub) && KeepsConnectives(sub)
    requires Implicant(S, am, abstr + ls) && Refutes(S, am, sub, p)
    ensures Open(sub, th, ls, p) && Open(sub, th, ls, (p.1, p.0))
  {
    RefutesIsNew(S, am, sub, th, abstr, ls, p);
  }

  lemma RefutesIsNew<V(!new)>(S: Structure<V>, am: PartialModel<V>, sub: Subst, th: Theory,
                              abstr: seq<Expr>, ls: seq<Expr>, p: Pair)
    requires StructureOk(S) && TheoryOk(S, th) && IsAbstraction(sub) && KeepsConnectives(sub)
    requires Implicant(S, am, abstr + ls) && Refutes(S, am, sub, p)
    ensures PairOf(sub, p) && !Covered(sub, th, ls, p.0, p.1)
  {
    ConflictIsNew(S, am, sub, th, abstr, ls, p.0, p.1);
    ConflictIsNew(S, am, sub, th, abstr, ls, p.1, p.0);
  }

  /** It is one of the pairs that the encoding considers. */
  lemma ConflictIsConsidered<V(!new)>(S: Structure<V>, am: PartialModel<V>, sub: Subst, all: seq<Pair>, p: Pair)
    requires ValuesOk(S) && KeepsConnectives(sub) && (forall t :: t in sub ==> WellSorted(t))
    requires TriesAllClasses(sub, all) && Refutes(S, am, sub, p)
    ensures p in all || (p.1, p.0) in all
  {
    if ConstArgs(p.0) && ConstArgs(p.1) { ConstPairDiffers(S, Total(S, am), sub, p.0, p.1); }
    assert p == (p.0, p.1);
  }

  /** What a round that finds conflicts achieves: only lemmas are added, and fewer of the
      pairs `all` are open. */
  ghost predicate Progress(sub: Subst, th: Theory, ls: seq<Expr>, all: seq<Pair>, conflicts: seq<Pair>)
    requires IsAbstraction(sub)
  {
    && (forall p :: p in conflicts ==> p.0 in sub && p.1 in sub && |p.0.args| == |p.1.args|)
    && OnlyLemmas(sub, th, ls + AllLemmas(sub, th, conflicts))
    && OpenCount(sub, th, ls + AllLemmas(sub, th, conflicts), all) < OpenCount(sub, th, ls, all)
  }

  /** A failed check closes a pair: in no later round can it conflict, in either order. */
  lemma RoundProgress<V(!new)>(S: Structure<V>, am: PartialModel<V>, sub: Subst, th: Theory,
                               abstr: seq<Expr>, ls: seq<Expr>, all: seq<Pair>, ps: seq<Pair>)
    requires StructureOk(S) && TheoryOk(S, th) && IsAbstraction(sub) && KeepsConnectives(sub)
    requires (forall t :: t in sub ==> WellSorted(t)) && TriesAllClasses(sub, all)
    requires Implicant(S, am, abstr + ls) && OnlyLemmas(sub, th, ls)
    requires ps != [] && forall p :: p in ps ==> Refutes(S, am, sub, p)
    ensures Progress(sub, th, ls, all, ps)
  {
    var p, more := ps[0], AllLemmas(sub, th, ps);
    OnlyLemmasMany(sub, th, ls, ps);
    RefutesMany(S, am, sub, ps);
    ConflictIsOpen(S, am, sub, th, abstr, ls, p);
    ConflictIsConsidered(S, am, sub, all, p);
    AllLemmasMember(sub, th, ps);
    assert forall l :: l in PairLemmas(sub, th, p) ==> l in ls + more;
    OpenCountFalls(sub, th, ls, ls + more, all);
  }

  ghost predicate Problem(fs: seq<Expr>, sub: Subst, c2t: map<Decl, Expr>) {
    Input(fs) && UFInput(fs) && Abstracts(sub, SubAll(fs)) && Inverse(sub, c2t)
  }

  lemma KeysWellSorted(fs: seq<Expr>, sub: Subst)
    requires Input(fs) && Abstracts(sub, SubAll(fs))
    ensures forall t :: t in sub ==> WellSorted(t)
  {
    forall t | t in sub ensures WellSorted(t) { ReachWellSorted(fs, t); }
  }

  lemma LazyUnsat<V(!new)>(S: Structure<V>, fs: seq<Expr>, sub: Subst, c2t: map<Decl, Expr>, th: Theory,
                           ls: seq<Expr>, solver: seq<Expr> -> Answer<V>)
    requires StructureOk(S) && TheoryOk(S, th) && SolverOk(S, solver)
    requires Input(fs) && Abstracts(sub, SubAll(fs)) && Inverse(sub, c2t) && OnlyLemmas(sub, th, ls)
    ensures AreFormulas(ReplaceAll(sub, fs) + ls)
    ensures solver(ReplaceAll(sub, fs) + ls).Unsat? ==> !Satisfiable(S, fs)
    ensures FirstOrderQuery(fs) ==> Answerable(S, ReplaceAll(sub, fs) + ls)
  {
    QueriesAreFormulas(S, fs, sub, th, ls);
    assert IsTrue(S, solver(ReplaceAll(sub, fs) + ls), ReplaceAll(sub, fs) + ls);
    if Satisfiable(S, fs) { LemmasKeepSatisfiable(S, fs, sub, c2t, th, ls); }
    if FirstOrderQuery(fs) { QueryAnswerable(S, fs, sub, th, ls); }
  }

  /** An abstraction that is unsatisfiable alone answers the question. */
  lemma AloneAnswers<V(!new)>(S: Structure<V>, fs: seq<Expr>, sub: Subst, c2t: map<Decl, Expr>, th: Theory,
                              solver: seq<Expr> -> Answer<V>)
    requires StructureOk(S) && TheoryOk(S, th) && SolverOk(S, solver)
    requires Input(fs) && Abstracts(sub, SubAll(fs)) && Inverse(sub, c2t)
    ensures var abstr := ReplaceAll(sub, fs); solver(abstr).Unsat? ==> Correct(S, fs, solver, [abstr], LFalse)
  {
    assert ReplaceAll(sub, fs) + [] == ReplaceAll(sub, fs);
    LazyUnsat(S, fs, sub, c2t, th, [], solver);
  }

  /** Between two rounds: the solver has the abstraction and the lemmas `ls`, and `left` of
      the pairs `all` are open. */
  ghost predicate Between(fs: seq<Expr>, sub: Subst, c2t: map<Decl, Expr>, th: Theory, ls: seq<Expr>,
                          asserted: seq<Expr>, all: seq<Pair>, left: nat) {
    && Problem(fs, sub, c2t) && TriesAllClasses(sub, all) && OnlyLemmas(sub, th, ls)
    && asserted == ReplaceAll(sub, fs) + ls && left == OpenCount(sub, th, ls, all)
  }

  /** At first at most all pairs are open. */
  lemma BetweenAtFirst(fs: seq<Expr>, sub: Subst, c2t: map<Decl, Expr>, th: Theory, f2t: FunMap, s2t: SelMap)
    returns (all: seq<Pair>, start: nat)
    requires Problem(fs, sub, c2t) && FunGroups(f2t, SubAll(fs)) && SelGroups(s2t, SubAll(fs))
    ensures Between(fs, sub, c2t, th, [], ReplaceAll(sub, fs), all, start)
    ensures start <= AllPairs(f2t, s2t)
  {
    all := SomeVisit(fs, sub, f2t, s2t);
    start := OpenCount(sub, th, [], all);
    NothingAdded(ReplaceAll(sub, fs));
  }

  lemma NothingAdded<T>(s: seq<T>)
    ensures s == s + []
  {
  }

  /** The conflicts that were found in the solver's model: it refutes them, and those of
      flat applications are all covered. */
  ghost predicate Found<V(!new)>(S: Structure<V>, a: Answer<V>, sub: Subst, ps: seq<Pair>) {
    && a.Sat? && ps != [] && (forall p :: p in ps ==> Refutes(S, a.model, sub, p))
    && FlatConflictsFound(S, a.model, sub, ps)
  }

  /** The query after `q` adds the lemmas of all conflicts that were found, and nothing else. */
  ghost predicate Refined<V(!new)>(S: Structure<V>, solver: seq<Expr> -> Answer<V>, sub: Subst, th: Theory,
                                   q: seq<Expr>, q': seq<Expr>) {
    exists ps: seq<Pair> :: Found(S, solver(q), sub, ps) && q' == q + AllLemmas(sub, th, ps)
  }

  ghost predicate Chain<V(!new)>(S: Structure<V>, solver: seq<Expr> -> Answer<V>, sub: Subst, th: Theory,
                                 qs: seq<seq<Expr>>) {
    forall k :: 0 < k < |qs| ==> Refined(S, solver, sub, th, qs[k - 1], qs[k])
  }

  lemma ChainMore<V(!new)>(S: Structure<V>, solver: seq<Expr> -> Answer<V>, sub: Subst, th: Theory,
                           qs: seq<seq<Expr>>, q: seq<Expr>)
    requires qs != [] && Chain(S, solver, sub, th, qs) && Refined(S, solver, sub, th, qs[|qs| - 1], q)
    ensures Chain(S, solver, sub, th, qs + [q])
  {
  }

  /** A run of the lazy loop: first the abstraction alone, then one refinement after the
      other, until the last query gives the answer. */
  ghost predicate LazyRun<V(!new)>(S: Structure<V>, solver: seq<Expr> -> Answer<V>, sub: Subst, th: Theory,
                                   abstr: seq<Expr>, asked: seq<seq<Expr>>, r: LBool) {
    && asked != [] && asked[0] == abstr && Chain(S, solver, sub, th, asked)
    && r == Verdict(solver(asked[|asked| - 1]))
  }

  /** A run of the eager strategy: the abstraction alone, and unless that is unsatisfiable
      the abstraction with the simplified conjunction of the lemmas `ls`. */
  ghost predicate EagerRun<V(!new)>(solver: seq<Expr> -> Answer<V>, th: Theory, abstr: seq<Expr>, ls: seq<Expr>,
                                    asked: seq<seq<Expr>>, r: LBool) {
    if solver(abstr).Unsat? then asked == [abstr] && r == LFalse
    else
      var all := abstr + [th.simp(MkAnd(ls))];
      asked == [abstr, all] && r == Verdict(solver(all))
  }

  /** Asks the solver and checks its model: an answer, or conflicts that make progress. */
  method AskAndCheck<V(==, !new)>(S: Structure<V>, solver: seq<Expr> -> Answer<V>, asserted: seq<Expr>,
                                  ghost fs: seq<Expr>, sub: Subst, c2t: map<Decl, Expr>, th: Theory,
                                  ghost ls: seq<Expr>, ghost all: seq<Pair>)
    returns (answered: bool, r: LBool, conflicts: seq<Pair>)
    requires StructureOk(S) && TheoryOk(S, th) && SolverOk(S, solver) && Problem(fs, sub, c2t)
    requires asserted == ReplaceAll(sub, fs) + ls && OnlyLemmas(sub, th, ls) && TriesAllClasses(sub, all)
    ensures answered ==> Correct(S, fs, solver, [asserted], r) && r == Verdict(solver(asserted))
    ensures !answered ==> Progress(sub, th, ls, all, conflicts) && AllAnswerable(S, fs, [asserted])
    ensures !answered ==> Found(S, solver(asserted), sub, conflicts)
  {
    LazyUnsat(S, fs, sub, c2t, th, ls, solver);
    var rv := solver(asserted);
    assert asserted in [asserted];
    if rv.Unknown? { return true, LUndef, []; }
    if rv.Unsat? { return true, LFalse, []; }
    var am := rv.model;
    ImplicantPrefix(S, am, ReplaceAll(sub, fs), ls);
    var ok;
    ok, conflicts := CheckModel(S, fs, sub, c2t, am);
    if ok { return true, LTrue, []; }
    KeysWellSorted(fs, sub);
    RoundProgress(S, am, sub, th, ReplaceAll(sub, fs), ls, all, conflicts);
    return false, LUndef, conflicts;
  }

  lemma RefutesMany<V(!new)>(S: Structure<V>, am: PartialModel<V>, sub: Subst, ps: seq<Pair>)
    requires forall p :: p in ps ==> Refutes(S, am, sub, p)
    ensures forall p :: p in ps ==> p.0 in sub && p.1 in sub && p.0.App? && p.1.App? && |p.0.args| == |p.1.args|
  {
  }
}
