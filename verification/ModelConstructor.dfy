/** The congruence check of the lazy loop and the model it builds. */
module ModelConstructor {
  import opened Terms
  import opened Worklist
  import opened AckrHelper
  import opened Abstraction
  import opened Congruence
  import opened ModelTables
  import opened PartialModels
  import opened Pairing
  import opened Equisat
  import opened Completion
  import opened ModelConverter

  /** What the check looks at: no lifted symbols, and no interpreted constants other than
      values. */
  predicate Checkable(x: Expr) {
    && x.App?
    && (IsFree(x.decl) || x.decl.kind.Value? || ((x.decl.kind.Interpreted? || x.decl.kind.Select?) && x.args != []))
    && (x.decl.kind.Value? && x.args == [] ==> IsUnique(x))
  }

  ghost predicate CheckableInput(fs: seq<Expr>) {
    forall x :: x in SubAll(fs) ==> Checkable(x)
  }

  /** The fragment the lazy loop supports: no selects either. */
  predicate UFTerm(x: Expr) { Checkable(x) && !x.decl.kind.Select? }

  ghost predicate UFInput(fs: seq<Expr>) {
    forall x :: x in SubAll(fs) ==> UFTerm(x)
  }

  function ValueOf<V(==)>(S: Structure<V>, a: Expr): V
    requires IsUnique(a)
    decreases a
  {
    assert AllUnique(a.args);
    S.interp(a.decl)(seq(|a.args|, i requires 0 <= i < |a.args| => ValueOf(S, a.args[i])))
  }

  lemma {:induction false} ValueOfIsEval<V(!new)>(S: Structure<V>, M: Model<V>, a: Expr)
    requires IsUnique(a)
    ensures ValueOf(S, a) == Eval(S, M, a)
    decreases a
  {
    var vs := seq(|a.args|, i requires 0 <= i < |a.args| => ValueOf(S, a.args[i]));
    forall i | 0 <= i < |a.args| ensures vs[i] == EvalAll(S, M, a.args)[i] {
      ValueOfIsEval(S, M, a.args[i]);
    }
    assert vs == EvalAll(S, M, a.args);
  }

  datatype ValInfo<V> = ValInfo(value: V, source: Expr)

  lemma EvalFree<V(!new)>(S: Structure<V>, M: Model<V>, t: Expr)
    requires t.App? && IsFree(t.decl)
    ensures Eval(S, M, t) == M(t.decl)(EvalAll(S, M, t.args))
  {
  }

  lemma TableSorted<V(!new)>(S: Structure<V>, f: Decl, entries: map<seq<V>, V>)
    requires SortsOk(S) && forall vs :: vs in entries ==> S.hasSort(entries[vs], f.range)
    ensures SortedFun(S, DenoteFun(FuncInterp(entries, S.someValue(f.range))), f)
  {
  }

  ghost predicate ClosedSorted<V(!new)>(S: Structure<V>, tables: FunTable<V>, f: Decl)
    requires f in tables
  {
    && IsFree(f) && f.domain != []
    && SortedFun(S, DenoteFun(FuncInterp(tables[f], S.someValue(f.range))), f)
  }

  lemma WithTablesSorted<V(!new)>(S: Structure<V>, m: PartialModel<V>, consts: map<Decl, V>, tables: FunTable<V>)
    requires WellFormedModel(S, m)
    requires forall c :: c in consts ==> IsFree(c) && c.domain == [] && S.hasSort(consts[c], c.range)
    requires forall f :: f in tables ==> ClosedSorted(S, tables, f)
    ensures WellFormedModel(S, PartialModel(consts, m.funs + ClosedTables(S, tables)))
  {
  }

  class ModelConstructor<V(==, !new)> {
    const S: Structure<V>
    const sub: Subst                 // the sealed abstraction table
    const c2t: map<Decl, Expr>
    const am: PartialModel<V>        // the abstract model
    var app2val: map<Expr, V>
    var values2val: map<(Decl, seq<V>), ValInfo<V>>
    var visited: set<Expr>
    var stack: seq<Expr>
    var conflicts: seq<Pair>
    ghost var sawSelect: bool        // the check gave up at a select on an array constant

    constructor (S: Structure<V>, sub: Subst, c2t: map<Decl, Expr>, am: PartialModel<V>)
      ensures this.S == S && this.sub == sub && this.c2t == c2t && this.am == am
      ensures app2val == map[] && values2val == map[] && visited == {} && stack == [] && conflicts == []
      ensures !sawSelect
    {
      this.S, this.sub, this.c2t, this.am := S, sub, c2t, am;
      app2val, values2val, visited, stack, conflicts, sawSelect := map[], map[], {}, [], [], false;
    }

    ghost function M(): Model<V> { Total(S, am) }

    ghost function AbstractValue(a: Expr): V { Eval(S, M(), Replace(sub, a)) }

    ghost function Args(a: Expr): seq<V>
      requires a.App?
    {
      Vals(S, M(), sub, a.args)
    }

    /** Every application of a free symbol is abstracted, and some selects are. */
    ghost predicate Setting(U: set<Expr>) {
      && IsAbstraction(sub) && Inverse(sub, c2t) && Closed(U) && KeepsConnectives(sub)
      && (forall a :: a in U ==> Checkable(a) && WellSorted(a) && (FunApp(a) ==> a in sub))
    }

    /** The check has failed: with a conflict, or at a select. */
    ghost predicate Failed()
      reads this
    {
      conflicts != [] || sawSelect
    }

    /** A pair whose argument values agree although the constants' values differ. */
    ghost predicate Conflict(p: Pair) {
      && p.0 in sub && p.1 in sub && FunApp(p.0) && FunApp(p.1) && p.0.decl == p.1.decl
      && Args(p.0) == Args(p.1) && AbstractValue(p.0) != AbstractValue(p.1)
    }

    ghost predicate Tabled(v2v: map<(Decl, seq<V>), ValInfo<V>>, a: Expr)
      requires a.App?
    {
      (a.decl, Args(a)) in v2v && v2v[(a.decl, Args(a))].value == AbstractValue(a)
    }

    /** The memo holds values of visited terms; applications are also in the table. */
    ghost predicate MemoOk(W: set<Expr>, a2v: map<Expr, V>, v2v: map<(Decl, seq<V>), ValInfo<V>>) {
      forall a :: a in a2v ==> a in W && a.App? && !IsUnique(a) && !IsSelect(a) && a2v[a] == AbstractValue(a)
                                && (FunApp(a) ==> Tabled(v2v, a))
    }

    ghost predicate MemoFull(W: set<Expr>, a2v: map<Expr, V>, failed: bool) {
      forall a :: a in W ==> IsUnique(a) || a in a2v || failed
    }

    /** Every table entry comes from an application with those argument values. */
    ghost predicate Origin(U: set<Expr>, k: (Decl, seq<V>), vi: ValInfo<V>) {
      var s := vi.source;
      s in U && s in sub && FunApp(s) && k == (s.decl, Args(s)) && vi.value == AbstractValue(s)
    }

    ghost predicate TableOk(U: set<Expr>, v2v: map<(Decl, seq<V>), ValInfo<V>>) {
      forall k :: k in v2v ==> Origin(U, k, v2v[k])
    }

    ghost predicate ConflictsOk(U: set<Expr>, ps: seq<Pair>) {
      forall p :: p in ps ==> p.0 in U && p.1 in U && Conflict(p)
    }

    /** What holds once the terms `W` have been visited. */
    ghost predicate Inv(U: set<Expr>, W: set<Expr>)
      reads this
    {
      && W <= U && Closed(W) && MemoOk(W, app2val, values2val) && MemoFull(W, app2val, Failed())
      && TableOk(U, values2val) && ConflictsOk(U, conflicts)
      && (sawSelect ==> exists a :: a in U && IsSelect(a)) && AllBlamed(W, app2val, conflicts)
    }

    static ghost predicate ArgsReady(a: Expr, a2v: map<Expr, V>)
      requires a.App?
    {
      forall x :: x in a.args ==> IsUnique(x) || x in a2v
    }

    static ghost predicate Blamed(a: Expr, ps: seq<Pair>) {
      IsSelect(a) || exists p :: p in ps && p.0 == a
    }

    /** A visited term without a value although its arguments have one is a select, or its
        conflict was recorded. */
    static ghost predicate AllBlamed(W: set<Expr>, a2v: map<Expr, V>, ps: seq<Pair>) {
      forall a :: a in W && a.App? && !IsUnique(a) && a !in a2v && ArgsReady(a, a2v) ==> Blamed(a, ps)
    }

    static lemma BlamedStill(W: set<Expr>, a2v: map<Expr, V>, ps: seq<Pair>, ps': seq<Pair>)
      requires AllBlamed(W, a2v, ps) && ps <= ps'
      ensures AllBlamed(W, a2v, ps')
    {
      forall a | a in W && a.App? && !IsUnique(a) && a !in a2v && ArgsReady(a, a2v) ensures Blamed(a, ps') {
        assert Blamed(a, ps) && forall p :: p in ps ==> p in ps';
      }
    }

    /** One more visited term: with a value, or blamed unless an argument has none. */
    static lemma BlamedMore(W: set<Expr>, a2v: map<Expr, V>, a2v': map<Expr, V>, ps: seq<Pair>, a: Expr)
      requires AllBlamed(W, a2v, ps) && Closed(W) && a !in W && a.App?
      requires (forall x :: x in a2v ==> x in a2v') && forall x :: x in a2v' ==> x in a2v || x == a
      requires IsUnique(a) || a in a2v' || !ArgsReady(a, a2v) || Blamed(a, ps)
      requires forall x :: x in a.args ==> x in W
      ensures AllBlamed(W + {a}, a2v', ps)
    {
      forall b | b in W + {a} && b.App? && !IsUnique(b) && b !in a2v' && ArgsReady(b, a2v') ensures Blamed(b, ps) {
        assert forall x :: x in b.args ==> x in W;
        assert ArgsReady(b, a2v);
      }
    }

    lemma MemoGrows(W: set<Expr>, a2v: map<Expr, V>, v2v: map<(Decl, seq<V>), ValInfo<V>>,
                    k: (Decl, seq<V>), vi: ValInfo<V>)
      requires MemoOk(W, a2v, v2v) && k !in v2v
      ensures MemoOk(W, a2v, v2v[k := vi])
    {
    }

    /** The cached value of an argument, a value being its own. */
    method EvalCached(a: Expr, ghost U: set<Expr>, ghost W: set<Expr>) returns (found: bool, val: V)
      requires Setting(U) && Inv(U, W) && a in W
      ensures found ==> val == AbstractValue(a)
      ensures !found ==> Failed()
      ensures found <==> IsUnique(a) || a in app2val
    {
      if IsUnique(a) {
        UniqueUnchanged(sub, a);
        ValueOfIsEval(S, M(), a);
        return true, ValueOf(S, a);
      } else if a in app2val {
        return true, app2val[a];
      }
      return false, S.someValue(SortOf(a));
    }

    method EvalArgs(a: Expr, ghost U: set<Expr>, ghost W: set<Expr>) returns (ok: bool, values: seq<V>)
      requires Setting(U) && Inv(U, W) && a.App? && forall x :: x in a.args ==> x in W
      ensures ok ==> values == Args(a)
      ensures !ok ==> Failed() && !ArgsReady(a, app2val)
    {
      values := [];
      for i := 0 to |a.args|
        invariant |values| == i && forall j :: 0 <= j < i ==> values[j] == AbstractValue(a.args[j])
      {
        assert a.args[i] in a.args;
        var found, val := EvalCached(a.args[i], U, W);
        if !found { return false, values; }
        values := values + [val];
      }
      return true, values;
    }

    function ConstValue(c: Decl, s: Sort): V {
      if c in am.consts then am.consts[c] else S.someValue(s)
    }

    /** The value of an uninterpreted application: its constant's, unless an equal
        application already has another one, which is a conflict. */
    method MakeValueUninterpreted(a: Expr, key: seq<V>, ghost U: set<Expr>, ghost W: set<Expr>)
      returns (ok: bool, result: V)
      requires Setting(U) && Inv(U, W) && a in U && FunApp(a) && key == Args(a)
      modifies this`values2val, this`conflicts
      ensures Inv(U, W)
      ensures ok ==> result == AbstractValue(a) && Tabled(values2val, a)
      ensures if ok then conflicts == old(conflicts) else conflicts != [] && Blamed(a, conflicts)
      ensures old(conflicts) <= conflicts && unchanged(this`app2val, this`sawSelect)
    {
      AbstractedValue(a);
      var value := ConstValue(sub[a].decl, a.decl.range);
      var k := (a.decl, key);
      if k in values2val {
        var vi := values2val[k];
        assert Origin(U, k, vi);
        ok := vi.value == value;
        if !ok {
          Report(a, vi.source, U, W);
        }
        result := vi.value;
      } else {
        result, ok := value, true;
        MemoGrows(W, app2val, values2val, k, ValInfo(value, a));
        assert Origin(U, k, ValInfo(value, a));
        values2val := values2val[k := ValInfo(value, a)];
      }
    }

    method Report(a: Expr, other: Expr, ghost U: set<Expr>, ghost W: set<Expr>)
      requires Inv(U, W) && a in U && other in U && Conflict((a, other))
      modifies this`conflicts
      ensures Inv(U, W) && conflicts == old(conflicts) + [(a, other)] && Blamed(a, conflicts)
    {
      BlamedStill(W, app2val, conflicts, conflicts + [(a, other)]);
      conflicts := conflicts + [(a, other)];
      assert (a, other) in conflicts;
    }

    lemma AbstractedValue(a: Expr)
      requires IsAbstraction(sub) && a in sub
      ensures AbstractValue(a) == ConstValue(sub[a].decl, a.decl.range)
    {
      assert Replace(sub, a) == sub[a] && EvalAll(S, M(), sub[a].args) == [];
    }

    lemma ConstantValue(U: set<Expr>, a: Expr)
      requires Setting(U) && a in U && a.args == [] && !IsUnique(a)
      ensures AbstractValue(a) == ConstValue(a.decl, a.decl.range)
    {
      assert a !in sub;
      assert Replace(sub, a) == App(a.decl, ReplaceAll(sub, [])) && ReplaceAll(sub, []) == [];
      assert EvalAll(S, M(), []) == [];
    }

    lemma InterpretedValue(U: set<Expr>, a: Expr)
      requires Setting(U) && a in U && !FunApp(a) && !IsSelect(a) && a.args != []
      ensures AbstractValue(a) == S.interp(a.decl)(Args(a))
    {
      assert Replace(sub, a) == App(a.decl, ReplaceAll(sub, a.args));
    }

    method Evaluate(a: Expr, ghost U: set<Expr>, ghost W: set<Expr>) returns (ok: bool, result: V)
      requires Setting(U) && Inv(U, W) && a in U && !IsUnique(a) && forall x :: x in a.args ==> x in W
      modifies this`values2val, this`conflicts, this`sawSelect
      ensures Inv(U, W)
      ensures ok ==> result == AbstractValue(a) && (FunApp(a) ==> Tabled(values2val, a)) && !IsSelect(a)
      ensures if ok then conflicts == old(conflicts) && sawSelect == old(sawSelect) else Failed()
      ensures old(conflicts) <= conflicts && unchanged(this`app2val)
      ensures !ok ==> !ArgsReady(a, app2val) || Blamed(a, conflicts)
    {
      if |a.args| == 0 {
        ConstantValue(U, a);
        return true, ConstValue(a.decl, a.decl.range);
      }
      var found, values := EvalArgs(a, U, W);
      if !found { return false, S.someValue(a.decl.range); }
      if IsUninterpFn(a) {
        ok, result := MakeValueUninterpreted(a, values, U, W);
      } else if IsSelect(a) {
        sawSelect := true;
        return false, S.someValue(a.decl.range);
      } else {
        InterpretedValue(U, a);
        return true, S.interp(a.decl)(values);
      }
    }

    method MkValue(a: Expr, ghost U: set<Expr>, ghost W: set<Expr>) returns (ok: bool)
      requires Setting(U) && Inv(U, W) && a in U && a !in W && forall x :: x in a.args ==> x in W
      modifies this`values2val, this`conflicts, this`sawSelect, this`app2val
      ensures Inv(U, W + {a})
      ensures if ok then conflicts == old(conflicts) && sawSelect == old(sawSelect)
              else Failed() && !IsUnique(a) && a !in app2val
      ensures MemoKept(W, old(app2val), app2val)
    {
      if IsUnique(a) {
        BlamedMore(W, app2val, app2val, conflicts, a);
        return true;
      }
      var evaluated, result := Evaluate(a, U, W);
      if !evaluated {
        BlamedMore(W, app2val, app2val, conflicts, a);
        return false;
      }
      MemoMore(W, app2val, values2val, a, result);
      BlamedMore(W, app2val, app2val[a := result], conflicts, a);
      app2val := app2val[a := result];
      return true;
    }

    /** No term of `W` gets or loses a value. */
    static ghost predicate MemoKept(W: set<Expr>, a2v: map<Expr, V>, a2v': map<Expr, V>) {
      forall x :: x in W ==> (x in a2v <==> x in a2v')
    }

    static lemma KeptStill(W: set<Expr>, a2v: map<Expr, V>, W': set<Expr>, a2v': map<Expr, V>, a2v'': map<Expr, V>)
      requires MemoKept(W, a2v, a2v') && W <= W' && MemoKept(W', a2v', a2v'')
      ensures MemoKept(W, a2v, a2v'')
    {
    }

    lemma MemoMore(W: set<Expr>, a2v: map<Expr, V>, v2v: map<(Decl, seq<V>), ValInfo<V>>, a: Expr, v: V)
      requires MemoOk(W, a2v, v2v) && a.App? && !IsUnique(a) && !IsSelect(a) && v == AbstractValue(a)
      requires FunApp(a) ==> Tabled(v2v, a)
      ensures MemoOk(W + {a}, a2v[a := v], v2v)
    {
    }

    /** Everything visited has its value, or a conflict was recorded. */
    ghost predicate Between(U: set<Expr>)
      reads this
    {
      Setting(U) && Inv(U, visited) && Inside(stack, U)
    }

    static ghost predicate Inside(q: seq<Expr>, U: set<Expr>) { forall x :: x in q ==> x in U }

    /** The term on top, once its arguments have been visited. */
    method Finish(curr: Expr, rest: seq<Expr>, ghost U: set<Expr>) returns (made: bool)
      requires Between(U) && stack == rest + [curr] && curr !in visited && forall x :: x in curr.args ==> x in visited
      modifies this`values2val, this`conflicts, this`sawSelect, this`app2val, this`visited, this`stack
      ensures Between(U) && stack == rest && visited == old(visited) + {curr}
      ensures if made then conflicts == old(conflicts) && sawSelect == old(sawSelect)
              else Failed() && !IsUnique(curr) && curr !in app2val
      ensures MemoKept(old(visited), old(app2val), app2val)
    {
      assert curr in stack;
      stack := rest;
      made := MkValue(curr, U, visited);
      visited := visited + {curr};
    }

    lemma PushedInside(U: set<Expr>, below: seq<Expr>, pushed: seq<Expr>, curr: Expr)
      requires Closed(U) && curr in below && curr.App? && Inside(below, U)
      requires forall x :: x in pushed ==> x in below || x in curr.args
      ensures Inside(pushed, U)
    {
    }

    /** Some term of `T` was visited and has no value. */
    static ghost predicate StoppedIn(T: set<Expr>, W: set<Expr>, a2v: map<Expr, V>) {
      exists x :: x in T && x in W && !IsUnique(x) && x !in a2v
    }

    /** One step of the visit: a visited term is popped, a term with unvisited arguments has
        them pushed, and any other term is finished. */
    method VisitTop(ghost U: set<Expr>, ghost T: set<Expr>) returns (ok: bool)
      requires Between(U) && Closed(T) && Inside(stack, T) && stack != []
      modifies this`values2val, this`conflicts, this`sawSelect, this`app2val, this`visited, this`stack
      ensures Between(U) && Inside(stack, T) && MemoKept(old(visited), old(app2val), app2val)
      ensures if ok then conflicts == old(conflicts) && sawSelect == old(sawSelect)
              else Failed() && StoppedIn(T, visited, app2val)
      ensures old(visited) <= visited && forall x :: x in old(stack) ==> x in visited || x in stack
      ensures visited == old(visited) ==>
                if TopMarked(old(stack), visited) then stack == old(stack)[..|old(stack)| - 1]
                else !TopMarked(stack, visited) && OpenTop(old(stack), visited).App?
                     && OpenTop(stack, visited) in OpenTop(old(stack), visited).args
    {
      var curr, rest := stack[|stack| - 1], stack[..|stack| - 1];
      assert stack == rest + [curr] && curr in stack;
      ok := true;
      if curr in visited {
        SetStack(rest, U);
      } else {
        var pushed, done := PushUnmarked(stack, visited, curr.args);
        if done {
          ok := Finish(curr, rest, U);
        } else {
          PushedInside(U, stack, pushed, curr);
          PushedInside(T, stack, pushed, curr);
          SetStack(pushed, U);
        }
      }
    }

    /** Visits the terms on the stack, arguments first; stops at the first failure, below one
        of the terms that it started from. */
    method CheckStack(ghost U: set<Expr>, ghost T: set<Expr>) returns (ok: bool)
      requires Between(U) && Closed(T) && Inside(stack, T)
      modifies this`values2val, this`conflicts, this`sawSelect, this`app2val, this`visited, this`stack
      ensures Between(U)
      ensures if ok then conflicts == old(conflicts) && sawSelect == old(sawSelect) else Failed()
      ensures old(visited) <= visited && (ok ==> forall x :: x in old(stack) ==> x in visited)
      ensures MemoKept(old(visited), old(app2val), app2val) && (!ok ==> StoppedIn(T, visited, app2val))
    {
      ghost var seen, memo := visited, app2val;
      ok := true;
      while ok && stack != []
        invariant Between(U) && Inside(stack, T) && seen <= visited && MemoKept(seen, memo, app2val)
        invariant if ok then conflicts == old(conflicts) && sawSelect == old(sawSelect)
                  else Failed() && StoppedIn(T, visited, app2val)
        invariant forall x :: x in old(stack) ==> x in visited || x in stack
        decreases ok, U - visited, TopMarked(stack, visited), PopsLeft(stack, visited), OpenTop(stack, visited)
      {
        ghost var seen', memo' := visited, app2val;
        ok := VisitTop(U, T);
        KeptStill(seen, memo, seen', memo', app2val);
      }
    }

    method SetStack(q: seq<Expr>, ghost U: set<Expr>)
      requires Between(U) && Inside(q, U)
      modifies this`stack
      ensures Between(U) && stack == q
    {
      stack := q;
    }

    method CheckTerm(term: Expr, ghost U: set<Expr>) returns (ok: bool)
      requires Between(U) && term in U && stack == []
      modifies this`values2val, this`conflicts, this`sawSelect, this`app2val, this`visited, this`stack
      ensures Between(U) && stack == []
      ensures if ok then conflicts == old(conflicts) && sawSelect == old(sawSelect) else Failed()
      ensures old(visited) <= visited && MemoKept(old(visited), old(app2val), app2val)
      ensures if ok then term in visited else StoppedIn(Sub(term), visited, app2val)
    {
      stack := stack + [term];
      SubClosed(term);
      ok := CheckStack(U, Sub(term));
      stack := [];
    }

    static lemma SubClosed(e: Expr)
      ensures Closed(Sub(e))
    {
      forall a, x | a in Sub(e) && a.App? && x in a.args ensures x in Sub(e) {
        var i :| 0 <= i < |a.args| && a.args[i] == x;
        ArgInSub(a, i, e);
      }
    }

    /** The term that a constant of the abstract model makes the check visit. */
    function TermFor(c: Decl): Expr {
      if c in c2t then c2t[c] else App(c, [])
    }

    lemma NoSelectVisited(U: set<Expr>)
      requires Between(U) && !Failed()
      ensures forall a :: a in visited ==> !IsSelect(a)
    {
    }

    static ghost predicate Tried(t: Expr, W: set<Expr>, a2v: map<Expr, V>) {
      t in W || StoppedIn(Sub(t), W, a2v)
    }

    static lemma TriedStill(t: Expr, W: set<Expr>, W': set<Expr>, a2v: map<Expr, V>, a2v': map<Expr, V>)
      requires Tried(t, W, a2v) && W <= W' && MemoKept(W, a2v, a2v')
      ensures Tried(t, W', a2v')
    {
    }

    lemma NoneUnblamed(U: set<Expr>)
      requires Between(U)
      ensures forall a :: a in visited && FunApp(a) && a !in app2val
                          && (forall x :: x in a.args ==> IsUnique(x) || x in app2val)
                          ==> exists p :: p in conflicts && p.0 == a
    {
      forall a | a in visited && FunApp(a) && a !in app2val && (forall x :: x in a.args ==> IsUnique(x) || x in app2val)
        ensures exists p :: p in conflicts && p.0 == a
      {
        assert ArgsReady(a, app2val);
        assert Blamed(a, conflicts);
      }
    }

    /** True iff no two visited applications conflict and no select was met.  Also after a
        failure all constants are gone through: the term of each is visited, unless some
        term below it has no value; and an application with values for its arguments but
        none for itself stands first in a recorded conflict. */
    method Check(ghost U: set<Expr>) returns (ok: bool)
      requires Between(U) && stack == [] && !Failed()
      requires forall c :: c in am.consts ==> TermFor(c) in U
      modifies this`values2val, this`conflicts, this`sawSelect, this`app2val, this`visited, this`stack
      ensures AllTried(U)
      ensures ok <==> !Failed()
      ensures (exists c :: c in am.consts && IsSelect(TermFor(c))) ==> !ok
      ensures ok ==> forall c :: c in am.consts ==> TermFor(c) in visited
      ensures forall c :: c in am.consts ==>
                var t := if c in c2t then c2t[c] else App(c, []);
                t in visited || exists x :: x in Sub(t) && x in visited && !IsUnique(x) && x !in app2val
      ensures forall a :: a in visited && FunApp(a) && a !in app2val
                          && (forall x :: x in a.args ==> IsUnique(x) || x in app2val)
                          ==> exists p :: p in conflicts && p.0 == a
    {
      ok := CheckAll(U);
      if ok { NoSelectVisited(U); }
      NoneUnblamed(U);
      forall c | c in am.consts ensures Tried(if c in c2t then c2t[c] else App(c, []), visited, app2val) {
        assert Tried(TermFor(c), visited, app2val);
      }
    }

    method CheckAll(ghost U: set<Expr>) returns (ok: bool)
      requires Between(U) && stack == [] && !Failed()
      requires forall c :: c in am.consts ==> TermFor(c) in U
      modifies this`values2val, this`conflicts, this`sawSelect, this`app2val, this`visited, this`stack
      ensures AllTried(U) && (ok <==> !Failed())
      ensures ok ==> forall c :: c in am.consts ==> TermFor(c) in visited
    {
      ok := true;
      var rest := am.consts.Keys;
      while rest != {}
        invariant rest <= am.consts.Keys && Between(U) && stack == []
        invariant ok <==> !Failed()
        invariant ok ==> forall c :: c in am.consts && c !in rest ==> TermFor(c) in visited
        invariant forall c :: c in am.consts && c !in rest ==> Tried(TermFor(c), visited, app2val)
        decreases rest
      {
        var c :| c in rest;
        ghost var seen, memo := visited, app2val;
        var good := CheckTerm(TermFor(c), U);
        if !good { ok := false; }
        forall d | d in am.consts && d !in rest ensures Tried(TermFor(d), visited, app2val) {
          TriedStill(TermFor(d), seen, visited, memo, app2val);
        }
        rest := rest - {c};
      }
    }

    /** What `Check` establishes, whether or not it succeeds. */
    ghost predicate AllTried(U: set<Expr>)
      reads this
    {
      Between(U) && forall c :: c in am.consts ==> Tried(TermFor(c), visited, app2val)
    }

    /** A visited constant or value has a value. */
    lemma FlatHasValue(U: set<Expr>, x: Expr)
      requires Between(U) && x in visited && x.App? && x.args == []
      ensures IsUnique(x) || x in app2val
    {
      assert ArgsReady(x, app2val);
      assert !IsUnique(x) && x !in app2val ==> Blamed(x, conflicts);
    }

    /** An application of constants and values is visited itself. */
    lemma FlatVisited(U: set<Expr>, t: Expr)
      requires AllTried(U) && t in sub && sub[t].decl in am.consts
      requires forall x :: x in t.args ==> x.App? && x.args == []
      ensures t in visited && ArgsReady(t, app2val)
    {
      assert TermFor(sub[t].decl) == t;
      if t !in visited {
        var x :| x in Sub(t) && x in visited && !IsUnique(x) && x !in app2val;
        var i :| 0 <= i < |t.args| && x in Sub(t.args[i]);
        assert t.args[i] in t.args && x == t.args[i];
        FlatHasValue(U, x);
      }
      forall x | x in t.args ensures IsUnique(x) || x in app2val { FlatHasValue(U, x); }
    }

    /** Two such applications that disagree are found: one of them stands first in a
        recorded conflict. */
    lemma FlatConflictFound(U: set<Expr>, t1: Expr, t2: Expr)
      requires AllTried(U) && Conflict((t1, t2)) && sub[t1].decl in am.consts && sub[t2].decl in am.consts
      requires forall x :: x in t1.args || x in t2.args ==> x.App? && x.args == []
      ensures exists p :: p in conflicts && (p.0 == t1 || p.0 == t2)
    {
      FlatVisited(U, t1);
      FlatVisited(U, t2);
      assert t1 in app2val ==> Tabled(values2val, t1);
      assert t2 in app2val ==> Tabled(values2val, t2);
      assert t1 !in app2val ==> Blamed(t1, conflicts);
      assert t2 !in app2val ==> Blamed(t2, conflicts);
    }

    // ---------- the model built from a successful check ----------

    /** The constants memoised, and the table grouped by function symbol. */
    function BuiltConsts(): map<Decl, V>
      reads this
    {
      map c | c in (set a | a in app2val && a.App? && a.args == [] :: a.decl) :: app2val[App(c, [])]
    }

    function BuiltTable(v2v: map<(Decl, seq<V>), ValInfo<V>>, d: Decl): map<seq<V>, V> {
      map vs | vs in (set k | k in v2v && k.0 == d :: k.1) :: v2v[(d, vs)].value
    }

    function BuiltTables(v2v: map<(Decl, seq<V>), ValInfo<V>>): FunTable<V> {
      map d | d in (set k | k in v2v :: k.0) :: BuiltTable(v2v, d)
    }

    function BuiltModel(): PartialModel<V>
      reads this
    {
      PartialModel(BuiltConsts(), am.funs + ClosedTables(S, BuiltTables(values2val)))
    }

    /** The built model, symbol by symbol. */
    lemma BuiltModelIs(d: Decl, vs: seq<V>)
      requires forall a :: a in app2val ==> a.App?
      ensures var r := BuiltModel();
              && (d in r.consts <==> App(d, []) in app2val)
              && (d in r.consts ==> r.consts[d] == app2val[App(d, [])])
              && ((d, vs) in values2val ==> d in r.funs && r.funs[d].els == S.someValue(d.range)
                                            && vs in r.funs[d].entries
                                            && r.funs[d].entries[vs] == values2val[(d, vs)].value)
              && ((exists k :: k in values2val && k.0 == d) && (d, vs) !in values2val ==> vs !in r.funs[d].entries)
              && ((forall k :: k in values2val ==> k.0 != d) ==> (d in r.funs <==> d in am.funs))
              && ((forall k :: k in values2val ==> k.0 != d) && d in am.funs ==> r.funs[d] == am.funs[d])
    {
      TableHas(values2val, d, vs);
      if a :| a in app2val && a.App? && a.args == [] && a.decl == d { assert a == App(d, []); }
    }

    method AddEntry(k: (Decl, seq<V>), value: V, interpretations: FunTable<V>) returns (r: FunTable<V>)
      ensures r == interpretations[
                     k.0 := (if k.0 in interpretations then interpretations[k.0] else map[])[k.1 := value]]
    {
      r := interpretations;
      if k.0 !in r { r := r[k.0 := map[]]; }
      r := r[k.0 := r[k.0][k.1 := value]];
    }

    lemma TableHas(v2v: map<(Decl, seq<V>), ValInfo<V>>, d: Decl, vs: seq<V>)
      ensures (d, vs) in v2v <==> d in BuiltTables(v2v) && vs in BuiltTables(v2v)[d]
      ensures (d, vs) in v2v ==> BuiltTables(v2v)[d][vs] == v2v[(d, vs)].value
    {
      if (d, vs) in v2v {
        var k := (d, vs);
        assert k.0 == d && k.1 == vs;
      }
    }

    lemma TableStep(v2v: map<(Decl, seq<V>), ValInfo<V>>, k: (Decl, seq<V>), vi: ValInfo<V>, d: Decl)
      requires k !in v2v
      ensures BuiltTable(v2v[k := vi], d)
              == if d == k.0 then BuiltTable(v2v, d)[k.1 := vi.value] else BuiltTable(v2v, d)
    {
      var l, r := BuiltTable(v2v[k := vi], d), BuiltTable(v2v, d);
      forall vs ensures vs in l <==> vs in r || (d == k.0 && vs == k.1) {
        assert vs in l <==> (d, vs) in v2v[k := vi] by { assert (d, vs).0 == d && (d, vs).1 == vs; }
        assert vs in r <==> (d, vs) in v2v by { assert (d, vs).0 == d && (d, vs).1 == vs; }
      }
    }

    lemma AddEntryStep(v2v: map<(Decl, seq<V>), ValInfo<V>>, k: (Decl, seq<V>), vi: ValInfo<V>)
      requires k !in v2v
      ensures var t := BuiltTables(v2v);
              BuiltTables(v2v[k := vi]) == t[k.0 := (if k.0 in t then t[k.0] else map[])[k.1 := vi.value]]
    {
      var t, t' := BuiltTables(v2v), BuiltTables(v2v[k := vi]);
      forall d ensures d in t' <==> d in t || d == k.0 {
        if d in t { var k' :| k' in v2v && k'.0 == d; assert k' in v2v[k := vi]; }
      }
      forall d | d in t'
        ensures t'[d] == (if d == k.0 then (if k.0 in t then t[k.0] else map[])[k.1 := vi.value] else t[d])
      {
        TableStep(v2v, k, vi, d);
        if d !in t { assert BuiltTable(v2v, d) == map[]; }
      }
    }

    method Tabulate() returns (tables: FunTable<V>)
      ensures tables == BuiltTables(values2val)
    {
      tables := map[];
      var rest := values2val.Keys;
      ghost var seen: map<(Decl, seq<V>), ValInfo<V>> := map[];
      while rest != {}
        invariant rest <= values2val.Keys && seen == values2val - rest && tables == BuiltTables(seen)
        decreases rest
      {
        var k :| k in rest;
        AddEntryStep(seen, k, values2val[k]);
        tables := AddEntry(k, values2val[k].value, tables);
        seen := seen[k := values2val[k]];
        rest := rest - {k};
      }
      assert seen == values2val;
    }

    /** Fills an empty model with the functions of the abstract model, the memoised
        constants and the tabulated functions. */
    method MakeModel(destination: ModelObject<V>)
      requires destination.Valid() && destination.consts == map[] && destination.funs == map[]
      requires forall a :: a in app2val ==> a.App?
      modifies destination
      ensures destination.Valid() && destination.State() == BuiltModel()
    {
      CopyFuncInterps(destination);
      RegisterMemo(destination);
      var tables := Tabulate();
      RegisterFuns(S, tables, destination);
    }

    method CopyFuncInterps(destination: ModelObject<V>)
      requires destination.funs == map[]
      modifies destination`funs
      ensures destination.funs == am.funs
    {
      var rest := am.funs.Keys;
      while rest != {}
        invariant rest <= am.funs.Keys
        invariant destination.funs.Keys == am.funs.Keys - rest
        invariant forall f :: f in destination.funs ==> destination.funs[f] == am.funs[f]
        decreases rest
      {
        var f :| f in rest;
        destination.RegisterFun(f, am.funs[f]);
        rest := rest - {f};
      }
    }

    method RegisterMemo(destination: ModelObject<V>)
      requires destination.Valid() && destination.consts == map[] && forall a :: a in app2val ==> a.App?
      modifies destination`consts, destination`decls
      ensures destination.Valid() && destination.consts == BuiltConsts()
    {
      var rest := app2val.Keys;
      while rest != {}
        invariant rest <= app2val.Keys && destination.Valid()
        invariant forall c :: c in destination.consts <==> App(c, []) in app2val && App(c, []) !in rest
        invariant forall c :: c in destination.consts ==> destination.consts[c] == app2val[App(c, [])]
        decreases rest
      {
        var a :| a in rest;
        if |a.args| == 0 {
          assert a == App(a.decl, []);
          destination.RegisterConst(a.decl, app2val[a]);
        }
        rest := rest - {a};
      }
    }

    /** After a successful check, every visited term has in the built model the value
        of its abstraction in the abstract model. */
    lemma {:induction false} BuiltAgrees(U: set<Expr>, t: Expr)
      requires Between(U) && !Failed() && t in visited
      ensures Eval(S, Total(S, BuiltModel()), t) == AbstractValue(t)
      decreases t
    {
      var Mo := Total(S, BuiltModel());
      forall i | 0 <= i < |t.args| ensures Eval(S, Mo, t.args[i]) == AbstractValue(t.args[i]) {
        assert t.args[i] in t.args;
        BuiltAgrees(U, t.args[i]);
      }
      assert EvalAll(S, Mo, t.args) == Args(t);
      if IsUnique(t) {
        UniqueUnchanged(sub, t);
        ValueOfIsEval(S, Mo, t);
        ValueOfIsEval(S, M(), t);
      } else if t.args == [] {
        BuiltConst(U, t);
      } else if FunApp(t) {
        BuiltApp(U, t);
      } else {
        InterpretedValue(U, t);
      }
    }

    lemma BuiltConst(U: set<Expr>, t: Expr)
      requires Between(U) && t in app2val && t.args == []
      ensures Eval(S, Total(S, BuiltModel()), t) == app2val[t]
    {
      assert t == App(t.decl, []);
      assert t.decl in BuiltConsts() && BuiltConsts()[t.decl] == app2val[t];
      assert t.decl.domain == [];
    }

    lemma BuiltInterp(d: Decl, vs: seq<V>)
      requires d.domain != [] && (d, vs) in values2val
      ensures Total(S, BuiltModel())(d)(vs) == values2val[(d, vs)].value
    {
      TableHas(values2val, d, vs);
      assert BuiltModel().funs[d] == FuncInterp(BuiltTables(values2val)[d], S.someValue(d.range));
    }

    lemma BuiltApp(U: set<Expr>, t: Expr)
      requires Between(U) && t in app2val && FunApp(t)
      requires EvalAll(S, Total(S, BuiltModel()), t.args) == Args(t)
      ensures Eval(S, Total(S, BuiltModel()), t) == AbstractValue(t)
    {
      assert Tabled(values2val, t) && t.decl.domain != [];
      BuiltInterp(t.decl, Args(t));
      EvalFree(S, Total(S, BuiltModel()), t);
    }

    // ---------- the built model satisfies the input ----------

    /** The completion of the abstract model that agrees with `Mo`. */
    ghost function Supplied(Mo: Model<V>): Model<V> { Supply(S, am, c2t, Mo) }

    /** A successful check of an abstract model of `fs`. */
    ghost predicate Checked(U: set<Expr>, fs: seq<Expr>)
      reads this
    {
      && Between(U) && !Failed() && (forall c :: c in am.consts ==> TermFor(c) in visited)
      && Input(fs) && UFInput(fs) && Abstracts(sub, SubAll(fs)) && SubAll(fs) <= U
      && SortsOk(S) && WellFormedModel(S, am)
    }

    lemma AbstractSorted(a: Expr)
      requires SortsOk(S) && WellFormedModel(S, am) && IsAbstraction(sub) && a in sub
      ensures S.hasSort(AbstractValue(a), a.decl.range)
    {
      AbstractedValue(a);
    }

    lemma BuiltSorted(U: set<Expr>, fs: seq<Expr>)
      requires Checked(U, fs)
      ensures WellFormedModel(S, BuiltModel())
    {
      var consts, tables := BuiltConsts(), BuiltTables(values2val);
      forall c | c in consts ensures IsFree(c) && c.domain == [] && S.hasSort(consts[c], c.range) {
        BuiltConstSorted(U, fs, c);
      }
      forall f | f in tables ensures ClosedSorted(S, tables, f) { BuiltFunSorted(U, fs, f); }
      WithTablesSorted(S, am, consts, tables);
    }

    lemma BuiltConstSorted(U: set<Expr>, fs: seq<Expr>, c: Decl)
      requires Checked(U, fs) && c in BuiltConsts()
      ensures IsFree(c) && c.domain == [] && S.hasSort(BuiltConsts()[c], c.range)
    {
      ConstantValue(U, App(c, []));
    }

    lemma BuiltFunSorted(U: set<Expr>, fs: seq<Expr>, f: Decl)
      requires Checked(U, fs) && f in BuiltTables(values2val)
      ensures ClosedSorted(S, BuiltTables(values2val), f)
    {
      var k :| k in values2val && k.0 == f;
      assert Origin(U, k, values2val[k]);
      var entries := BuiltTables(values2val)[f];
      forall vs | vs in entries ensures S.hasSort(entries[vs], f.range) { BuiltEntrySorted(U, fs, f, vs); }
      TableSorted(S, f, entries);
    }

    lemma BuiltEntrySorted(U: set<Expr>, fs: seq<Expr>, f: Decl, vs: seq<V>)
      requires Checked(U, fs) && f in BuiltTables(values2val) && vs in BuiltTables(values2val)[f]
      ensures S.hasSort(BuiltTables(values2val)[f][vs], f.range)
    {
      TableHas(values2val, f, vs);
      var vi := values2val[(f, vs)];
      assert Origin(U, (f, vs), vi);
      AbstractSorted(vi.source);
    }

    lemma NothingConsumed(U: set<Expr>, fs: seq<Expr>)
      requires Checked(U, fs)
      ensures Consumed(SubAll(fs)) == {}
    {
    }

    /** An abstracted application means what its constant means in the supplied model. */
    lemma CollectedSupplied(U: set<Expr>, fs: seq<Expr>, a: Expr)
      requires Checked(U, fs) && a in sub
      ensures var Mo := Total(S, BuiltModel()); Agrees(S, Mo, Supplied(Mo), sub, a)
    {
      var Mo, c := Total(S, BuiltModel()), sub[a];
      ConstantEval(S, Supplied(Mo), c);
      assert c2t[c.decl] == a && c.decl.domain == [];
      if c.decl in am.consts {
        assert TermFor(c.decl) == a;
        BuiltAgrees(U, a);
        AbstractedValue(a);
      } else {
        assert c.decl !in am.funs;
      }
    }

    /** A symbol that stands for no abstracted application means the same in both. */
    lemma UntouchedSupplied(U: set<Expr>, fs: seq<Expr>, d: Decl)
      requires Checked(U, fs) && Untouched(sub, SubAll(fs), d)
      ensures var Mo := Total(S, BuiltModel()); Mo(d) == Supplied(Mo)(d)
    {
      UntouchedKept(sub, c2t, SubAll(fs), d);
      if d in am.consts {
        assert TermFor(d) == App(d, []);
        ConstantValue(U, App(d, []));
        assert BuiltModel().consts[d] == am.consts[d];
      } else if d in am.funs {
        UntouchedNotBuilt(U, fs, d);
      }
    }

    lemma UntouchedNotBuilt(U: set<Expr>, fs: seq<Expr>, d: Decl)
      requires Checked(U, fs) && Untouched(sub, SubAll(fs), d)
      ensures d !in BuiltTables(values2val)
    {
      forall k | k in values2val ensures k.0 != d {
        assert Origin(U, k, values2val[k]);
      }
    }

    /** The model built after a successful check satisfies the input, whenever the
        abstract model is an implicant of the abstracted input. */
    lemma CheckedIsModel(U: set<Expr>, fs: seq<Expr>)
      requires Checked(U, fs) && Implicant(S, am, ReplaceAll(sub, fs))
      ensures SortedModel(S, Total(S, BuiltModel())) && HoldAll(S, Total(S, BuiltModel()), fs)
    {
      var Mo := Total(S, BuiltModel());
      var Ma := Supplied(Mo);
      BuiltSorted(U, fs);
      TotalIsModel(S, BuiltModel());
      SupplySorted(S, am, sub, c2t, fs, Mo);
      forall d | Untouched(sub, SubAll(fs), d) ensures Mo(d) == Ma(d) { UntouchedSupplied(U, fs, d); }
      NothingConsumed(U, fs);
      forall a | a in SubAll(fs) && a.App? && a !in Consumed(SubAll(fs))
                 && forall x :: x in a.args && x !in Consumed(SubAll(fs)) ==> Agrees(S, Mo, Ma, sub, x)
        ensures Agrees(S, Mo, Ma, sub, a)
      {
        if a in sub { CollectedSupplied(U, fs, a); } else { UncollectedAgrees(S, Mo, Ma, sub, fs, a); }
      }
      FormulasAgree(S, Mo, Ma, sub, fs);
    }
  }
}
