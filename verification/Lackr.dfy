/** The encoder: collection, abstraction, lemmas, and the two ways of solving. */
module Lackr {
  import opened Terms
  import opened Worklist
  import opened AckrHelper
  import opened Abstraction
  import opened Congruence
  import opened Equisat
  import opened BackTranslate
  import opened LemmaBound
  import opened Pairing
  import opened Encoding
  import opened PartialModels
  import opened ModelConstructor
  import opened Solving

  /** The declarations of `e` are older than the fresh-name counter `n`. */
  predicate OlderName(n: nat, d: Decl) { d.name.FreshName? ==> d.name.index < n }

  ghost predicate OlderThan(n: nat, R: set<Expr>) {
    forall a :: a in R && a.App? ==> OlderName(n, a.decl) && (IsHigher(a.decl) ==> OlderName(n, a.decl.kind.f))
  }

  function FunsOutside(R: set<Expr>, keys: set<Decl>): set<Expr> {
    set t | t in CollectedFuns(R) && t.decl !in keys
  }

  function SelsOutside(R: set<Expr>, keys: set<Expr>): set<Expr> {
    CollectedFuns(R) + set t | t in CollectedSels(R) && t.args[0] !in keys
  }

  ghost predicate DisjointGroup(o: AppOcc, before: set<Expr>) {
    && o.varArgs !! o.constArgs && o.All() !! before
    && forall t :: t in o.All() ==> t.App? && t.args != []
  }

  lemma FunGroupStep(f2t: FunMap, R: set<Expr>, keys: set<Decl>, d: Decl)
    requires FunGroups(f2t, R) && keys <= f2t.Keys && d in keys
    ensures FunsOutside(R, keys - {d}) == FunsOutside(R, keys) + f2t[d].varArgs + f2t[d].constArgs
    ensures DisjointGroup(f2t[d], FunsOutside(R, keys))
  {
  }

  lemma SelGroupStep(s2t: SelMap, R: set<Expr>, keys: set<Expr>, A: Expr)
    requires SelGroups(s2t, R) && keys <= s2t.Keys && A in keys
    ensures SelsOutside(R, keys - {A}) == SelsOutside(R, keys) + s2t[A].constArgs + s2t[A].varArgs
    ensures DisjointGroup(s2t[A], SelsOutside(R, keys))
  {
  }

  lemma GroupEnds(f2t: FunMap, s2t: SelMap, R: set<Expr>)
    requires FunGroups(f2t, R) && SelGroups(s2t, R)
    ensures FunsOutside(R, f2t.Keys) == {} && FunsOutside(R, {}) == CollectedFuns(R)
    ensures SelsOutside(R, s2t.Keys) == CollectedFuns(R) && SelsOutside(R, {}) == CollectedFuns(R) + CollectedSels(R)
  {
  }

  datatype Limit = NoLimit | UpTo(n: real)

  class Lackr {
    const formulas: seq<Expr>
    const th: Theory
    var nextName: nat               // the manager's counter for fresh names
    var fun2terms: FunMap
    var sel2terms: SelMap
    var nonSelect: set<Expr>
    var nonFuns: set<Decl>
    var info: AckrInfo
    var abstr: seq<Expr>
    var ackrs: seq<Expr>
    var isInit: bool
    var iterations: nat
    var ackrsSize: nat

    constructor (formulas: seq<Expr>, th: Theory, nextName: nat)
      ensures this.formulas == formulas && this.th == th && this.nextName == nextName
      ensures Unstarted() && ackrs == [] && fresh(info)
    {
      this.formulas, this.th, this.nextName := formulas, th, nextName;
      fun2terms, sel2terms, nonSelect, nonFuns := map[], map[], {}, {};
      info := new AckrInfo();
      abstr, ackrs, isInit, iterations, ackrsSize := [], [], false, 0, 0;
      new;
      NothingDescribed();
    }

    /** Not initialized: as new, or after attempts that gave up at a quantifier. */
    ghost predicate Unstarted()
      reads this
    {
      !isInit && abstr == [] && SomeDescribed()
    }

    ghost predicate SomeDescribed()
      reads this
    {
      exists W: set<Expr> :: W <= R() && Describes(W)
    }

    ghost function R(): set<Expr> { SubAll(formulas) }

    /** The maps and marks describe the visited terms `V`. */
    ghost predicate Describes(V: set<Expr>)
      reads this
    {
      && IsFunMap(fun2terms, V) && IsSelMap(sel2terms, V)
      && nonSelect == NonSelect(V) && NonFuns(V) <= nonFuns <= NonFuns(R())
    }

    ghost predicate Frontier(stack: seq<Expr>, V: set<Expr>) {
      && (forall x :: x in stack ==> x in R())
      && (forall x :: x in formulas ==> x in V || x in stack)
      && V <= R() && Closed(V) && (forall x :: x in V ==> !x.Quant?)
    }

    lemma NothingDescribed()
      requires fun2terms == map[] && sel2terms == map[] && nonSelect == {} && nonFuns == {}
      ensures SomeDescribed()
    {
      assert Describes({}) && {} <= R();
    }

    /** Visits all terms, innermost first, unless there is a quantifier. */
    method VisitTerms() returns (ok: bool)
      requires SomeDescribed()
      modifies this`fun2terms, this`sel2terms, this`nonSelect, this`nonFuns
      ensures ok <==> forall x :: x in R() ==> !x.Quant?
      ensures if ok then Describes(R()) else SomeDescribed()
    {
      ghost var seen: set<Expr> :| seen <= R() && Describes(seen);
      var stack := formulas;
      var visited: set<Expr> := {};
      RootsReached();
      while stack != []
        invariant Frontier(stack, visited) && Describes(seen)
        invariant visited <= seen <= R()
        decreases R() - visited, TopMarked(stack, visited), PopsLeft(stack, visited), OpenTop(stack, visited)
      {
        var curr, rest := stack[|stack| - 1], stack[..|stack| - 1];
        if curr in visited {
          FrontierPop(stack, visited);
          stack := rest;
        } else {
          match curr {
            case Var(_, _) =>
              VarVisited(seen, curr);
              FrontierFinish(stack, visited);
              seen := seen + {curr};
              visited := visited + {curr};
              stack := rest;
            case App(d, args) =>
              var pushed, done := PushUnmarked(stack, visited, args);
              if IsHigher(d) { nonFuns := nonFuns + {d.kind.f}; }
              if done {
                FrontierFinish(stack, visited);
                AddTerm(curr, seen);
                seen := seen + {curr};
                visited := visited + {curr};
                stack := rest;
              } else {
                FrontierPush(stack, pushed, visited);
                stack := pushed;
              }
            case Quant(_, _) =>
              assert curr in stack;
              return false;
          }
        }
      }
      FrontierEmpty(visited);
      assert seen == R();
      return true;
    }

    /** Collects the applications to replace; gives up at a quantifier. */
    method CollectTerms() returns (ok: bool)
      requires SomeDescribed()
      modifies this`fun2terms, this`sel2terms, this`nonSelect, this`nonFuns
      ensures ok <==> forall x :: x in R() ==> !x.Quant?
      ensures if ok then FunGroups(fun2terms, R()) && SelGroups(sel2terms, R()) else SomeDescribed()
    {
      ok := VisitTerms();
      if !ok { return; }
      sel2terms := Prune(sel2terms, nonSelect);
      fun2terms := Prune(fun2terms, nonFuns);
    }

    static lemma PopMembers(stack: seq<Expr>)
      requires stack != []
      ensures forall x :: x in stack <==> x in stack[..|stack| - 1] || x == stack[|stack| - 1]
    {
      assert stack == stack[..|stack| - 1] + [stack[|stack| - 1]];
    }

    lemma FrontierPop(stack: seq<Expr>, V: set<Expr>)
      requires stack != [] && Frontier(stack, V) && stack[|stack| - 1] in V
      ensures Frontier(stack[..|stack| - 1], V)
    {
      PopMembers(stack);
    }

    lemma FrontierFinish(stack: seq<Expr>, V: set<Expr>)
      requires stack != [] && Frontier(stack, V)
      requires var x := stack[|stack| - 1]; !x.Quant? && (x.App? ==> forall y :: y in x.args ==> y in V)
      ensures stack[|stack| - 1] in R() && Frontier(stack[..|stack| - 1], V + {stack[|stack| - 1]})
    {
      PopMembers(stack);
    }

    lemma FrontierPush(stack: seq<Expr>, pushed: seq<Expr>, V: set<Expr>)
      requires stack != [] && Frontier(stack, V) && stack[|stack| - 1].App?
      requires forall x :: x in pushed ==> x in stack || x in stack[|stack| - 1].args
      requires forall x :: x in stack ==> x in pushed
      ensures Frontier(pushed, V)
    {
      assert stack[|stack| - 1] in stack;
      ArgsReached(stack[|stack| - 1]);
    }

    lemma FrontierEmpty(V: set<Expr>)
      requires Frontier([], V)
      ensures V == R()
    {
      ClosedHasAll(V, formulas);
    }

    method AddTerm(a: Expr, ghost V: set<Expr>)
      requires a.App? && a in R() && Describes(V) && (IsHigher(a.decl) ==> a.decl.kind.f in nonFuns)
      modifies this`fun2terms, this`sel2terms, this`nonSelect
      ensures Describes(V + {a})
    {
      nonSelect := MarkNonSelect(a, nonSelect);
      fun2terms, sel2terms := Insert(fun2terms, sel2terms, a, V);
      NonSelectStep(V, a);
      NonFunsStep(V, a);
    }

    lemma RootsReached()
      ensures forall x :: x in formulas ==> x in R()
    {
      forall x | x in formulas ensures x in R() {
        var i :| 0 <= i < |formulas| && formulas[i] == x;
        assert x in Sub(formulas[i]);
      }
    }

    lemma ArgsReached(a: Expr)
      requires a in R() && a.App?
      ensures forall x :: x in a.args ==> x in R()
    {
      forall x | x in a.args ensures x in R() {
        var i :| 0 <= i < |a.args| && a.args[i] == x;
        ArgInSubAll(a, i, formulas);
      }
    }

    static lemma VarVisited(V: set<Expr>, x: Expr)
      requires !x.App?
      ensures FunKeys(V + {x}) == FunKeys(V) && SelKeys(V + {x}) == SelKeys(V)
      ensures forall d :: FunOcc(V + {x}, d) == FunOcc(V, d)
      ensures forall A :: SelOcc(V + {x}, A) == SelOcc(V, A)
      ensures NonSelect(V + {x}) == NonSelect(V) && NonFuns(V + {x}) == NonFuns(V)
    {
    }

    static lemma NonSelectStep(V: set<Expr>, a: Expr)
      requires a.App?
      ensures forall x :: x in NonSelect(V + {a}) <==> x in NonSelect(V) || NonSelectArg(a, x)
    {
      NonSelectArgsAreArgs(a);
    }

    static lemma NonSelectArgsAreArgs(a: Expr)
      ensures forall x :: NonSelectArg(a, x) ==> x in a.args
    {
    }

    static lemma NonFunsStep(V: set<Expr>, a: Expr)
      requires a.App?
      ensures NonFuns(V + {a}) == NonFuns(V) + if IsHigher(a.decl) then {a.decl.kind.f} else {}
    {
    }

    // ---------- abstraction ----------

    /** The constants made so far carry names from `start` up to the counter. */
    ghost predicate Naming(start: nat)
      reads this, info
    {
      && info.Valid() && start <= nextName
      && forall t :: t in info.t2c ==>
           info.t2c[t].decl.name.FreshName? && start <= info.t2c[t].decl.name.index < nextName
    }

    method MkFreshConst(name: Name, sort: Sort) returns (c: Expr)
      modifies this`nextName
      ensures nextName == old(nextName) + 1 && IsConstant(c) && SortOf(c) == sort
      ensures c.decl.name == FreshName(name, old(nextName))
    {
      c := App(Decl(FreshName(name, nextName), Uninterpreted, [], sort), []);
      nextName := nextName + 1;
    }

    /** Gives every term of a group its own fresh constant. */
    method AbstractTerms(name: Name, terms: set<Expr>, ghost start: nat)
      requires Naming(start) && !info.isSealed
      requires forall t :: t in terms ==> t.App? && t.args != [] && t !in info.t2c
      modifies this`nextName, info
      ensures Naming(start) && !info.isSealed && info.t2c.Keys == old(info.t2c.Keys) + terms
    {
      var rest := terms;
      while rest != {}
        invariant rest <= terms && Naming(start) && !info.isSealed
        invariant info.t2c.Keys == old(info.t2c.Keys) + (terms - rest)
        decreases rest
      {
        var t :| t in rest;
        var c := MkFreshConst(name, SortOf(t));
        info.SetAbstr(t, c);
        rest := rest - {t};
      }
    }

    method AbstractFun(ghost start: nat)
      requires Naming(start) && !info.isSealed && FunGroups(fun2terms, R()) && SelGroups(sel2terms, R())
      requires info.t2c == map[]
      modifies this`nextName, info
      ensures Naming(start) && !info.isSealed && info.t2c.Keys == CollectedFuns(R())
    {
      GroupEnds(fun2terms, sel2terms, R());
      var rest := fun2terms.Keys;
      while rest != {}
        invariant rest <= fun2terms.Keys && Naming(start) && !info.isSealed
        invariant info.t2c.Keys == FunsOutside(R(), rest)
        decreases rest
      {
        var fd :| fd in rest;
        FunGroupStep(fun2terms, R(), rest, fd);
        AbstractTerms(fd.name, fun2terms[fd].varArgs, start);
        AbstractTerms(fd.name, fun2terms[fd].constArgs, start);
        rest := rest - {fd};
      }
    }

    method AbstractSel(ghost start: nat)
      requires Naming(start) && !info.isSealed && FunGroups(fun2terms, R()) && SelGroups(sel2terms, R())
      requires info.t2c.Keys == CollectedFuns(R())
      modifies this`nextName, info
      ensures Naming(start) && !info.isSealed && info.t2c.Keys == CollectedFuns(R()) + CollectedSels(R())
    {
      GroupEnds(fun2terms, sel2terms, R());
      var rest := sel2terms.Keys;
      while rest != {}
        invariant rest <= sel2terms.Keys && Naming(start) && !info.isSealed
        invariant info.t2c.Keys == SelsOutside(R(), rest)
        decreases rest
      {
        var A :| A in rest;
        SelGroupStep(sel2terms, R(), rest, A);
        SelKeyIsApp(sel2terms, R(), A);
        AbstractTerms(A.decl.name, sel2terms[A].constArgs, start);
        AbstractTerms(A.decl.name, sel2terms[A].varArgs, start);
        rest := rest - {A};
      }
    }

    static lemma SelKeyIsApp(s2t: SelMap, R: set<Expr>, A: Expr)
      requires SelGroups(s2t, R) && A in s2t
      ensures IsUninterpConst(A)
    {
      assert A in SelKeys(R);
    }

    ghost predicate Typed() {
      forall i :: 0 <= i < |formulas| ==> WellSorted(formulas[i]) && SortOf(formulas[i]) == BOOL
    }

    /** The state after a successful `Init`. */
    ghost predicate Ready()
      reads this, info
    {
      && isInit && info.Valid() && info.isSealed
      && Prepared(formulas, fun2terms, sel2terms, info.t2c, info.c2t, abstr)
    }

    static ghost predicate Prepared(fs: seq<Expr>, f2t: FunMap, s2t: SelMap, sub: Subst, c2t: map<Decl, Expr>,
                                    abstr: seq<Expr>) {
      && Input(fs) && FunGroups(f2t, SubAll(fs)) && SelGroups(s2t, SubAll(fs))
      && Abstracts(sub, SubAll(fs)) && Inverse(sub, c2t) && abstr == ReplaceAll(sub, fs)
    }

    method Abstract()
      requires info.Valid() && !info.isSealed && info.t2c == map[] && abstr == []
      requires FunGroups(fun2terms, R()) && SelGroups(sel2terms, R()) && OlderThan(nextName, R())
      modifies this`nextName, this`abstr, info
      ensures info.Valid() && info.isSealed && Abstracts(info.t2c, R())
      ensures abstr == ReplaceAll(info.t2c, formulas)
    {
      ghost var start := nextName;
      AbstractFun(start);
      AbstractSel(start);
      info.Seal();
      AbstractsFresh(start);
      for i := 0 to |formulas|
        invariant abstr == ReplaceAll(info.t2c, formulas[..i])
        modifies this`abstr
      {
        assert formulas[..i + 1] == formulas[..i] + [formulas[i]];
        var a := info.Abstract(formulas[i]);
        abstr := abstr + [a];
      }
      assert formulas[..|formulas|] == formulas;
    }

    lemma AbstractsFresh(start: nat)
      requires Naming(start) && OlderThan(start, R())
      requires info.t2c.Keys == CollectedFuns(R()) + CollectedSels(R())
      ensures Abstracts(info.t2c, R())
    {
    }

    lemma NoQuantifierInput()
      requires Typed() && forall x :: x in R() ==> !x.Quant?
      ensures Input(formulas)
    {
      forall i | 0 <= i < |formulas| ensures NoQuantifier(formulas[i]) {
        forall x | x in Sub(formulas[i]) ensures !x.Quant? { assert x in R(); }
      }
    }

    /** Succeeds if there is no quantifier.  A later call finds everything done; one after
        a failure fails again. */
    method Init() returns (ok: bool)
      requires Ready() || (Unstarted() && Typed() && OlderThan(nextName, R()))
      modifies this, info
      ensures ok <==> old(isInit) || forall x :: x in R() ==> !x.Quant?
      ensures if ok then Ready() else Unstarted() && OlderThan(nextName, R())
      ensures ackrs == old(ackrs)
      ensures old(isInit) ==> info == old(info) && info.t2c == old(info.t2c) && nextName == old(nextName)
      ensures old(isInit) ==> fun2terms == old(fun2terms) && sel2terms == old(sel2terms)
      ensures !old(isInit) ==> fresh(info)
    {
      if !isInit {
        info := new AckrInfo();
        var collected := CollectTerms();
        if !collected { return false; }
        NoQuantifierInput();
        Abstract();
        isInit := true;
      }
      return true;
    }

    // ---------- lemmas ----------

    /** The equations between arguments, unless two of them are known to differ. */
    static method Premises(th: Theory, xs: seq<Expr>, ys: seq<Expr>) returns (never: bool, eqs: seq<Expr>)
      requires |xs| == |ys|
      ensures never <==> NeverEqual(th, xs, ys)
      ensures !never ==> eqs == Diffs(th, xs, ys)
    {
      eqs := [];
      for i := 0 to |xs|
        invariant eqs == Diffs(th, xs[..i], ys[..i])
        invariant forall j :: 0 <= j < i ==> !NotEqualAt(th, xs[j], ys[j])
      {
        var arg1, arg2 := xs[i], ys[i];
        assert xs[..i + 1][..i] == xs[..i] && ys[..i + 1][..i] == ys[..i];
        if !AreEqual(th, arg1, arg2) {
          if th.distinct(arg1, arg2) {
            assert NotEqualAt(th, xs[i], ys[i]);
            return true, [];
          }
          eqs := eqs + [MkEq(arg1, arg2)];
        }
      }
      assert xs[..|xs|] == xs && ys[..|xs|] == ys;
      return false, eqs;
    }

    /** The congruence lemma of one pair; false if none was needed. */
    method Ackr(t1: Expr, t2: Expr) returns (r: bool)
      requires info.Valid() && info.isSealed && t1 in info.t2c && t2 in info.t2c && |t1.args| == |t2.args|
      modifies this`ackrs, this`ackrsSize
      ensures ackrs == old(ackrs) + Emitted(info.t2c, th, t1, t2)
      ensures r <==> Emitted(info.t2c, th, t1, t2) != []
      ensures ackrsSize == old(ackrsSize) + |Emitted(info.t2c, th, t1, t2)|
      ensures (exists i :: 0 <= i < |t1.args| && t1.args[i] != t2.args[i] && !th.equal(t1.args[i], t2.args[i])
                           && th.distinct(t1.args[i], t2.args[i])) ==> !r && ackrs == old(ackrs)
      ensures r ==> ackrs[|ackrs| - 1] != True() && ackrs[..|ackrs| - 1] == old(ackrs)
    {
      var never, eqs := Premises(th, t1.args, t2.args);
      if never { return false; }
      var a1, a2 := info.GetAbstr(t1), info.GetAbstr(t2);
      var cga := th.simp(info.Abstract(MkImplies(MkAnd(eqs), MkEq(a1, a2))));
      if cga == True() {
        return false;
      }
      ackrsSize := ackrsSize + 1;
      ackrs := ackrs + [cga];
      return true;
    }

    static ghost predicate RowFits(sub: Subst, t: Expr, us: seq<Expr>) {
      t in sub && t.App? && forall k :: 0 <= k < |us| ==> us[k] in sub && us[k].App? && |t.args| == |us[k].args|
    }

    /** One application against each of a list. */
    method AckrRow(t: Expr, us: seq<Expr>)
      requires info.Valid() && info.isSealed && RowFits(info.t2c, t, us)
      modifies this`ackrs, this`ackrsSize
      ensures Grown(info.t2c, th, old(ackrs), ackrs, PairUp(t, us))
    {
      ghost var sub, row, start := info.t2c, PairUp(t, us), ackrs;
      GrownIs(sub, th, start, start, []);
      for k := 0 to |us|
        invariant unchanged(info) && Grown(sub, th, start, ackrs, row[..k])
        modifies this`ackrs, this`ackrsSize
      {
        assert row[..k + 1] == row[..k] + [(t, us[k])];
        ghost var before := ackrs;
        AckrPair(t, us[k]);
        GrownTwice(sub, th, start, before, ackrs, row[..k], [(t, us[k])]);
      }
      assert row[..|us|] == row;
    }

    method AckrPair(t: Expr, u: Expr)
      requires info.Valid() && info.isSealed && t in info.t2c && u in info.t2c && |t.args| == |u.args|
      modifies this`ackrs, this`ackrsSize
      ensures Grown(info.t2c, th, old(ackrs), ackrs, [(t, u)])
    {
      ghost var before := ackrs;
      var _ := Ackr(t, u);
      GrownOnce(info.t2c, th, before, ackrs, (t, u));
    }

    /** One application against the later ones and against the constant ones. */
    method AckrRows(t: Expr, later: seq<Expr>, cs: seq<Expr>)
      requires info.Valid() && info.isSealed && RowFits(info.t2c, t, later) && RowFits(info.t2c, t, cs)
      modifies this`ackrs, this`ackrsSize
      ensures Grown(info.t2c, th, old(ackrs), ackrs, PairUp(t, later) + PairUp(t, cs))
    {
      ghost var a0 := ackrs;
      AckrRow(t, later);
      ghost var a1 := ackrs;
      AckrRow(t, cs);
      GrownTwice(info.t2c, th, a0, a1, ackrs, PairUp(t, later), PairUp(t, cs));
    }

    /** The lemmas of a group, in any order of its two sets. */
    method AckrSet(ts: AppOcc) returns (ghost tried: seq<Pair>)
      requires info.Valid() && info.isSealed && GroupReady(info.t2c, ts)
      modifies this`ackrs, this`ackrsSize
      ensures GroupTried(ts, tried) && Grown(info.t2c, th, old(ackrs), ackrs, tried)
    {
      var q := Enumerate(ts.varArgs);
      var cs := Enumerate(ts.constArgs);
      RowsReady(info.t2c, ts, q, cs);
      AckrLists(q, cs);
      RowsTryGroup(ts, q, cs);
      tried := Rows(q, cs, |q|);
    }

    static ghost predicate RowReady(sub: Subst, q: seq<Expr>, cs: seq<Expr>, j: nat)
      requires j < |q|
    {
      RowFits(sub, q[j], q[j + 1..]) && RowFits(sub, q[j], cs)
    }

    method AckrLists(q: seq<Expr>, cs: seq<Expr>)
      requires info.Valid() && info.isSealed && forall j: nat :: j < |q| ==> RowReady(info.t2c, q, cs, j)
      modifies this`ackrs, this`ackrsSize
      ensures Grown(info.t2c, th, old(ackrs), ackrs, Rows(q, cs, |q|))
    {
      ghost var sub, start := info.t2c, ackrs;
      GrownIs(sub, th, start, start, []);
      for j := 0 to |q|
        invariant unchanged(info) && Grown(sub, th, start, ackrs, Rows(q, cs, j))
        modifies this`ackrs, this`ackrsSize
      {
        assert RowReady(sub, q, cs, j);
        ghost var before := ackrs;
        AckrRows(q[j], q[j + 1..], cs);
        GrownTwice(sub, th, start, before, ackrs, Rows(q, cs, j), Row(q, cs, j));
      }
    }

    static lemma RowsReady(sub: Subst, ts: AppOcc, q: seq<Expr>, cs: seq<Expr>)
      requires GroupReady(sub, ts) && forall x :: x in q ==> x in ts.varArgs
      requires forall x :: x in cs ==> x in ts.constArgs
      ensures forall j: nat :: j < |q| ==> RowReady(sub, q, cs, j)
    {
      assert forall k :: 0 <= k < |q| ==> q[k] in q;
      assert forall k :: 0 <= k < |cs| ==> cs[k] in cs;
    }

    method EncodeGroups<K(==, !new)>(groups: map<K, AppOcc>) returns (ghost tried: seq<Pair>)
      requires info.Valid() && info.isSealed && GroupsReady(info.t2c, groups)
      modifies this`ackrs, this`ackrsSize
      ensures GroupsTried(groups, {}, tried) && |tried| == TotalPairs(groups)
      ensures Grown(info.t2c, th, old(ackrs), ackrs, tried)
    {
      var rest := groups;
      ghost var sub, start := info.t2c, ackrs;
      tried := [];
      GrownIs(sub, th, start, start, []);
      while rest.Keys != {}
        invariant rest.Keys <= groups.Keys && forall k :: k in rest ==> rest[k] == groups[k]
        invariant GroupsTried(groups, rest.Keys, tried) && |tried| + TotalPairs(rest) == TotalPairs(groups)
        invariant unchanged(info) && Grown(sub, th, start, ackrs, tried)
        modifies this`ackrs, this`ackrsSize
        decreases |rest|
      {
        var k :| k in rest;
        assert GroupReady(sub, groups[k]);
        ghost var before := ackrs;
        ghost var more := AckrSet(rest[k]);
        GrownTwice(sub, th, start, before, ackrs, tried, more);
        GroupsTriedStep(groups, rest.Keys, tried, k, more);
        TotalPairsRemove(rest, k);
        tried := tried + more;
        rest := rest - {k};
      }
    }

    method EncodeBoth(f2t: FunMap, s2t: SelMap) returns (ghost funs: seq<Pair>, ghost sels: seq<Pair>)
      requires info.Valid() && info.isSealed && GroupsReady(info.t2c, f2t) && GroupsReady(info.t2c, s2t)
      modifies this`ackrs, this`ackrsSize
      ensures unchanged(this`fun2terms, this`sel2terms)
      ensures Grown(info.t2c, th, old(ackrs), ackrs, funs + sels)
      ensures GroupsTried(f2t, {}, funs) && GroupsTried(s2t, {}, sels)
      ensures |funs + sels| == TotalPairs(f2t) + TotalPairs(s2t)
    {
      ghost var a0 := ackrs;
      funs := EncodeGroups(f2t);
      ghost var a1 := ackrs;
      sels := EncodeGroups(s2t);
      GrownTwice(info.t2c, th, a0, a1, ackrs, funs, sels);
    }

    /** Every lemma the encoding needs: each group, then each array. */
    method EagerEnc() returns (ghost tried: seq<Pair>)
      requires Ready()
      modifies this`ackrs, this`ackrsSize
      ensures ackrs == old(ackrs) + AllLemmas(info.t2c, th, tried)
      ensures TriesAllClasses(info.t2c, tried)
      ensures |tried| == TotalPairs(fun2terms) + TotalPairs(sel2terms)
    {
      ghost var sub, R0 := info.t2c, R();
      FunGroupsReady(formulas, sub, fun2terms);
      SelGroupsReady(formulas, sub, sel2terms);
      ghost var funs, sels := EncodeBoth(fun2terms, sel2terms);
      TriesBoth(R0, sub, fun2terms, sel2terms, funs, sels);
      tried := funs + sels;
      GrownIs(sub, th, old(ackrs), ackrs, tried);
    }

    /** All lemmas, after any earlier ones: an ackermannization, at most one lemma a pair. */
    method EncodeAll()
      requires Ready() && OnlyLemmas(info.t2c, th, ackrs)
      modifies this`ackrs, this`ackrsSize
      ensures Ackermannized(formulas, info.t2c, info.c2t, th, ackrs)
      ensures |ackrs| <= |old(ackrs)| + AllPairs(fun2terms, sel2terms)
    {
      ghost var sub, c2t, before := info.t2c, info.c2t, ackrs;
      ghost var tried := EagerEnc();
      FewLemmas(sub, th, tried);
      TriedIsAckermannized(formulas, sub, c2t, th, tried);
      MoreLemmas(formulas, sub, c2t, th, before, AllLemmas(sub, th, tried));
    }

    static lemma MoreLemmas(fs: seq<Expr>, sub: Subst, c2t: map<Decl, Expr>, th: Theory, ls: seq<Expr>,
                            more: seq<Expr>)
      requires Ackermannized(fs, sub, c2t, th, more) && OnlyLemmas(sub, th, ls)
      ensures Ackermannized(fs, sub, c2t, th, ls + more)
    {
      CoveredByMore(sub, th, ls + more, more);
      OnlyMoreLemmas(sub, th, ls, more);
    }

    static lemma OnlyMoreLemmas(sub: Subst, th: Theory, ls: seq<Expr>, more: seq<Expr>)
      requires IsAbstraction(sub) && OnlyLemmas(sub, th, ls) && OnlyLemmas(sub, th, more)
      ensures OnlyLemmas(sub, th, ls + more)
    {
    }

    static lemma CoveredByMore(sub: Subst, th: Theory, all: seq<Expr>, ls: seq<Expr>)
      requires IsAbstraction(sub) && KeepsConnectives(sub) && (forall t :: t in sub ==> WellSorted(t))
      requires AllCovered(sub, th, ls) && forall l :: l in ls ==> l in all
      ensures AllCovered(sub, th, all)
    {
      forall t1, t2 | t1 in sub && t2 in sub && SameClass(t1, t2) && t1 != t2 && !(ConstArgs(t1) && ConstArgs(t2))
        ensures |t1.args| == |t2.args| && Covered(sub, th, all, t1, t2)
      {
        assert Covered(sub, th, ls, t1, t2);
      }
    }

    /** The bound test alone. */
    method WithinLimit(limit: Limit) returns (ok: bool)
      ensures ok <==> !TooMany(limit, fun2terms, sel2terms)
    {
      if limit.UpTo? {
        var bound := CalculateLemmaBound(fun2terms, sel2terms);
        if bound.Exceeds(limit.n) { return false; }
      }
      return true;
    }

    static ghost predicate TooMany(limit: Limit, f2t: FunMap, s2t: SelMap) {
      limit.UpTo? && ComputedBound(f2t, s2t).Exceeds(limit.n)
    }

    /** What passes the test has no more pairs than the limit, if the bound is one. */
    static lemma LimitRespected(limit: Limit, f2t: FunMap, s2t: SelMap)
      requires !TooMany(limit, f2t, s2t)
      ensures limit.UpTo? && Bounded(f2t, s2t) ==> AllPairs(f2t, s2t) as real <= limit.n
    {
      BoundsIff(f2t, s2t);
    }

    /** A limit that small groups respect lets them through. */
    static lemma SmallPasses(limit: Limit, f2t: FunMap, s2t: SelMap)
      ensures SmallGroups(f2t) && SmallGroups(s2t) && (limit.UpTo? ==> AllPairs(f2t, s2t) as real <= limit.n)
              ==> !TooMany(limit, f2t, s2t)
    {
      if SmallGroups(f2t) && SmallGroups(s2t) { SmallIsExact(f2t, s2t); }
    }

    /** Encodes everything at once, unless the bound on the lemmas exceeds the limit. */
    method MkAckermann(limit: Limit) returns (ok: bool, goal: seq<Expr>)
      requires if isInit then Ready() && OnlyLemmas(info.t2c, th, ackrs)
               else Unstarted() && ackrs == [] && Typed() && OlderThan(nextName, R())
      modifies this, info
      ensures ok <==> && (limit.UpTo? ==> limit.n > 0.0)
                      && (old(isInit) || forall x :: x in R() ==> !x.Quant?)
                      && !TooMany(limit, fun2terms, sel2terms)
      ensures (limit.UpTo? ==> limit.n > 0.0) && (old(isInit) || forall x :: x in R() ==> !x.Quant?) ==>
                Ready() && Passes(limit, ok)
      ensures ok ==> Ackermannized(formulas, info.t2c, info.c2t, th, ackrs)
      ensures ok ==> goal == ReplaceAll(info.t2c, formulas) + ackrs
      ensures ok ==> |ackrs| <= |old(ackrs)| + AllPairs(fun2terms, sel2terms)
      ensures ok && limit.UpTo? && Bounded(fun2terms, sel2terms) ==> AllPairs(fun2terms, sel2terms) as real <= limit.n
    {
      if limit.UpTo? && limit.n <= 0.0 { return false, []; }
      var initialized := Init();
      if !initialized { return false, []; }
      ok, goal := EncodeWithin(limit);
      SmallPasses(limit, fun2terms, sel2terms);
    }

    /** What has small groups and no more pairs than the limit is encoded. */
    ghost predicate Passes(limit: Limit, ok: bool)
      reads this
    {
      SmallGroups(fun2terms) && SmallGroups(sel2terms)
      && (limit.UpTo? ==> AllPairs(fun2terms, sel2terms) as real <= limit.n)
      ==> ok
    }

    method EncodeWithin(limit: Limit) returns (ok: bool, goal: seq<Expr>)
      requires Ready() && OnlyLemmas(info.t2c, th, ackrs)
      modifies this`ackrs, this`ackrsSize
      ensures Ready() && (ok <==> !TooMany(limit, fun2terms, sel2terms))
      ensures ok ==> Ackermannized(formulas, info.t2c, info.c2t, th, ackrs)
      ensures ok ==> goal == ReplaceAll(info.t2c, formulas) + ackrs
      ensures ok ==> |ackrs| <= |old(ackrs)| + AllPairs(fun2terms, sel2terms)
      ensures ok && limit.UpTo? && Bounded(fun2terms, sel2terms) ==> AllPairs(fun2terms, sel2terms) as real <= limit.n
    {
      ok := WithinLimit(limit);
      if !ok { return false, []; }
      LimitRespected(limit, fun2terms, sel2terms);
      goal := AckermannGoal();
    }

    /** The abstraction with all lemmas. */
    method AckermannGoal() returns (goal: seq<Expr>)
      requires Ready() && OnlyLemmas(info.t2c, th, ackrs)
      modifies this`ackrs, this`ackrsSize
      ensures Ready() && unchanged(this`fun2terms, this`sel2terms)
      ensures Ackermannized(formulas, info.t2c, info.c2t, th, ackrs)
      ensures goal == ReplaceAll(info.t2c, formulas) + ackrs
      ensures |ackrs| <= |old(ackrs)| + AllPairs(fun2terms, sel2terms)
    {
      EncodeAll();
      goal := AssertAll([], abstr);
      goal := AssertAll(goal, ackrs);
    }

    static method AssertAll(g: seq<Expr>, fs: seq<Expr>) returns (r: seq<Expr>)
      ensures r == g + fs
      ensures g == [] ==> r == fs
    {
      r := g;
      for i := 0 to |fs|
        invariant r == g + fs[..i]
      {
        r := r + [fs[i]];
      }
    }

    // ---------- solving ----------

    /** All lemmas at once, as one simplified conjunction, unless the abstraction alone
        is unsatisfiable. */
    method Eager<V(!new)>(S: Structure<V>, solver: seq<Expr> -> Answer<V>)
      returns (r: LBool, ghost asked: seq<seq<Expr>>)
      requires Ready() && OnlyLemmas(info.t2c, th, ackrs)
      requires StructureOk(S) && TheoryOk(S, th) && SolverOk(S, solver)
      modifies this`ackrs, this`ackrsSize
      ensures Correct(S, formulas, solver, asked, r) && unchanged(info)
      ensures EagerRun(solver, th, ReplaceAll(info.t2c, formulas), ackrs, asked, r)
      ensures !solver(ReplaceAll(info.t2c, formulas)).Unsat? ==>
                Ackermannized(formulas, info.t2c, info.c2t, th, ackrs)
    {
      AloneAnswers(S, formulas, info.t2c, info.c2t, th, solver);
      var rv0 := solver(abstr);
      if rv0.Unsat? { return LFalse, [abstr]; }
      r, asked := EagerAll(S, solver);
    }

    method EagerAll<V(!new)>(S: Structure<V>, solver: seq<Expr> -> Answer<V>)
      returns (r: LBool, ghost asked: seq<seq<Expr>>)
      requires Ready() && OnlyLemmas(info.t2c, th, ackrs)
      requires StructureOk(S) && TheoryOk(S, th) && SolverOk(S, solver)
      modifies this`ackrs, this`ackrsSize
      ensures Ackermannized(formulas, info.t2c, info.c2t, th, ackrs) && Correct(S, formulas, solver, asked, r)
      ensures unchanged(info)
      ensures var base := ReplaceAll(info.t2c, formulas);
              !solver(base).Unsat? ==> EagerRun(solver, th, base, ackrs, asked, r)
    {
      ghost var fs, sub, c2t, f := formulas, info.t2c, info.c2t, th;
      var g := EagerGoal();
      EagerAnswer(S, fs, sub, c2t, f, ackrs, solver);
      return Verdict(solver(g)), [abstr, g];
    }

    method EagerGoal() returns (g: seq<Expr>)
      requires Ready() && OnlyLemmas(info.t2c, th, ackrs)
      modifies this`ackrs, this`ackrsSize
      ensures Ackermannized(formulas, info.t2c, info.c2t, th, ackrs)
      ensures g == ReplaceAll(info.t2c, formulas) + [th.simp(MkAnd(ackrs))]
    {
      EncodeAll();
      var all := th.simp(MkAnd(ackrs));
      g := abstr + [all];
    }

    /** The lemmas of the conflicts of one round. */
    method Refine(conflicts: seq<Pair>)
      requires info.Valid() && info.isSealed
      requires forall p :: p in conflicts ==> p.0 in info.t2c && p.1 in info.t2c && |p.0.args| == |p.1.args|
      modifies this`ackrs, this`ackrsSize
      ensures ackrs == old(ackrs) + AllLemmas(info.t2c, th, conflicts)
    {
      ghost var sub, start := info.t2c, ackrs;
      GrownIs(sub, th, start, start, []);
      for i := 0 to |conflicts|
        invariant unchanged(info) && Grown(sub, th, start, ackrs, conflicts[..i])
        modifies this`ackrs, this`ackrsSize
      {
        ghost var before := ackrs;
        assert conflicts[i] in conflicts && conflicts[..i + 1] == conflicts[..i] + [conflicts[i]];
        AckrPair(conflicts[i].0, conflicts[i].1);
        GrownTwice(sub, th, start, before, ackrs, conflicts[..i], [conflicts[i]]);
      }
      assert conflicts[..|conflicts|] == conflicts;
      GrownIs(sub, th, start, ackrs, conflicts);
    }

    /** Asserts the lemmas from `head` on. */
    method AssertNew(asserted: seq<Expr>, head: nat) returns (r: seq<Expr>, newHead: nat)
      requires head <= |ackrs|
      ensures r == asserted + ackrs[head..] && newHead == |ackrs|
    {
      r, newHead := asserted, head;
      while newHead < |ackrs|
        invariant head <= newHead <= |ackrs| && r == asserted + ackrs[head..newHead]
      {
        r := r + [ackrs[newHead]];
        newHead := newHead + 1;
      }
    }

    static lemma AssertedAll(base: seq<Expr>, ls: seq<Expr>, more: seq<Expr>)
      ensures (base + ls) + (ls + more)[|ls|..] == base + (ls + more)
    {
    }

    /** Adds and asserts the lemmas of a round's conflicts. */
    method Extend(asserted: seq<Expr>, ghost base: seq<Expr>, ghost all: seq<Pair>, conflicts: seq<Pair>)
      returns (r: seq<Expr>)
      requires info.Valid() && info.isSealed && asserted == base + ackrs
      requires Progress(info.t2c, th, ackrs, all, conflicts)
      modifies this`ackrs, this`ackrsSize
      ensures OnlyLemmas(info.t2c, th, ackrs) && r == base + ackrs
      ensures ackrs == old(ackrs) + AllLemmas(info.t2c, th, conflicts)
      ensures OpenCount(info.t2c, th, ackrs, all) < OpenCount(info.t2c, th, old(ackrs), all)
    {
      ghost var ls := ackrs;
      var head := |ackrs|;
      Refine(conflicts);
      AssertedAll(base, ls, AllLemmas(info.t2c, th, conflicts));
      r, head := AssertNew(asserted, head);
    }

    /** The state between two rounds. */
    ghost predicate Refining(asserted: seq<Expr>, all: seq<Pair>, left: nat)
      reads this`ackrs, this`info, info
    {
      info.Valid() && info.isSealed
      && Between(formulas, info.t2c, info.c2t, th, ackrs, asserted, all, left)
    }

    /** The same, kept folded by a quantifier where it is only passed on. */
    ghost predicate Going(asserted: seq<Expr>, all: seq<Pair>, left: nat)
      reads this`ackrs, this`info, info
    {
      forall n: nat :: n == left ==> Refining(asserted, all, n)
    }

    /** One round: an answer, or new lemmas. */
    method Round<V(==, !new)>(S: Structure<V>, solver: seq<Expr> -> Answer<V>, asserted: seq<Expr>,
                              ghost asked: seq<seq<Expr>>, ghost all: seq<Pair>, ghost left: nat)
      returns (answered: bool, r: LBool, asserted': seq<Expr>, ghost left': nat)
      requires StructureOk(S) && TheoryOk(S, th) && SolverOk(S, solver) && Going(asserted, all, left)
      requires AllAnswerable(S, formulas, asked)
      modifies this`ackrs, this`ackrsSize
      ensures unchanged(info)
      ensures answered ==> Correct(S, formulas, solver, asked + [asserted], r) && r == Verdict(solver(asserted))
      ensures !answered ==> Going(asserted', all, left') && left' < left
      ensures !answered ==> Refined(S, solver, info.t2c, th, asserted, asserted')
      ensures AllAnswerable(S, formulas, asked + [asserted])
    {
      assert Refining(asserted, all, left);
      var conflicts;
      answered, r, conflicts := AskAndCheck(S, solver, asserted, formulas, info.t2c, info.c2t, th, ackrs, all);
      OneMoreAsked(S, formulas, solver, asked, asserted);
      asserted', left' := asserted, left;
      if !answered { asserted', left' := NextRound(asserted, all, left, conflicts); }
    }

    method NextRound(asserted: seq<Expr>, ghost all: seq<Pair>, ghost left: nat, conflicts: seq<Pair>)
      returns (asserted': seq<Expr>, ghost left': nat)
      requires Refining(asserted, all, left) && Progress(info.t2c, th, ackrs, all, conflicts)
      modifies this`ackrs, this`ackrsSize
      ensures Refining(asserted', all, left') && left' < left
      ensures asserted' == asserted + AllLemmas(info.t2c, th, conflicts)
    {
      assert asserted == ReplaceAll(info.t2c, formulas) + ackrs;
      asserted' := Extend(asserted, ReplaceAll(info.t2c, formulas), all, conflicts);
      left' := OpenCount(info.t2c, th, ackrs, all);
      AppendAssociative(ReplaceAll(info.t2c, formulas), old(ackrs), AllLemmas(info.t2c, th, conflicts));
    }

    method RefineAll<V(==, !new)>(S: Structure<V>, solver: seq<Expr> -> Answer<V>, ghost base: seq<Expr>,
                                  ghost all: seq<Pair>, ghost start: nat)
      returns (r: LBool, ghost asked: seq<seq<Expr>>)
      requires Going(abstr, all, start) && base == abstr
      requires StructureOk(S) && TheoryOk(S, th) && SolverOk(S, solver)
      modifies this`ackrs, this`ackrsSize, this`iterations
      ensures Correct(S, formulas, solver, asked, r) && LazyRun(S, solver, info.t2c, th, base, asked, r)
      ensures unchanged(info)
      ensures iterations == old(iterations) + |asked| && |asked| <= start + 1
    {
      ghost var left, sub := start, info.t2c;
      var asserted := abstr;
      asked := [];
      while true
        invariant Going(asserted, all, left) && |asked| + left <= start && unchanged(info)
        invariant iterations == old(iterations) + |asked| && AllAnswerable(S, formulas, asked)
        invariant Chain(S, solver, sub, th, asked + [asserted]) && (asked + [asserted])[0] == base
        modifies this`ackrs, this`ackrsSize, this`iterations
        decreases left
      {
        iterations := iterations + 1;
        var answered, verdict, more, fewer := Round(S, solver, asserted, asked, all, left);
        asked := asked + [asserted];
        if answered { return verdict, asked; }
        ChainMore(S, solver, sub, th, asked, more);
        asserted, left := more, fewer;
      }
    }

    lemma Begin() returns (all: seq<Pair>, start: nat)
      requires Ready() && ackrs == [] && UFInput(formulas)
      ensures Going(abstr, all, start) && start <= AllPairs(fun2terms, sel2terms)
      ensures ReplaceAll(info.t2c, formulas) == abstr
    {
      all, start := BetweenAtFirst(formulas, info.t2c, info.c2t, th, fun2terms, sel2terms);
      assert Refining(abstr, all, start);
    }

    /** Counterexample-guided refinement: terminates, after at most one round for each pair
        that the full encoding considers and one more, and answers as it does. */
    method Lazy<V(==, !new)>(S: Structure<V>, solver: seq<Expr> -> Answer<V>)
      returns (r: LBool, ghost asked: seq<seq<Expr>>)
      requires Ready() && ackrs == [] && UFInput(formulas)
      requires StructureOk(S) && TheoryOk(S, th) && SolverOk(S, solver)
      modifies this`ackrs, this`ackrsSize, this`iterations
      ensures Correct(S, formulas, solver, asked, r) && unchanged(info)
      ensures LazyRun(S, solver, info.t2c, th, ReplaceAll(info.t2c, formulas), asked, r)
      ensures iterations == old(iterations) + |asked| && |asked| <= old(AllPairs(fun2terms, sel2terms)) + 1
    {
      ghost var all, start := Begin();
      r, asked := RefineAll(S, solver, ReplaceAll(info.t2c, formulas), all, start);
    }

    /** A round that gets nowhere: the check of the solver's model fails at a select and
        finds no conflict, so no lemma is added and the next round asks the same query. */
    method StuckRound<V(==, !new)>(S: Structure<V>, solver: seq<Expr> -> Answer<V>, asserted: seq<Expr>)
      returns (ok: bool, asserted': seq<Expr>)
      requires Ready() && CheckableInput(formulas)
      requires solver(asserted).Sat? && WellFormedModel(S, solver(asserted).model)
      requires exists c :: c in solver(asserted).model.consts && c in info.c2t && IsSelect(info.c2t[c])
      requires forall p: Pair :: FunApp(p.0) ==> !Refutes(S, solver(asserted).model, info.t2c, p)
      modifies this`ackrs, this`ackrsSize
      ensures !ok && ackrs == old(ackrs) && asserted' == asserted
    {
      var am, head, conflicts := solver(asserted).model, |ackrs|, [];
      ok, conflicts := CheckAtSelect(S, formulas, info.t2c, info.c2t, am);
      Refine(conflicts);
      asserted', head := AssertNew(asserted, head);
    }

    /** The solver entry point: undefined on quantified input, otherwise either strategy. */
    method Solve<V(==, !new)>(S: Structure<V>, solver: seq<Expr> -> Answer<V>, isEager: bool)
      returns (r: LBool, ghost asked: seq<seq<Expr>>)
      requires Unstarted() && ackrs == [] && Typed() && OlderThan(nextName, R()) && (isEager || UFInput(formulas))
      requires StructureOk(S) && TheoryOk(S, th) && SolverOk(S, solver)
      modifies this, info
      ensures if exists x :: x in R() && x.Quant? then r == LUndef && asked == []
              else Abstracts(info.t2c, R()) && Correct(S, formulas, solver, asked, r)
                   && if isEager then EagerRun(solver, th, ReplaceAll(info.t2c, formulas), ackrs, asked, r)
                      else LazyRun(S, solver, info.t2c, th, ReplaceAll(info.t2c, formulas), asked, r)
    {
      var ok := Init();
      if !ok { return LUndef, []; }
      if isEager { r, asked := Eager(S, solver); } else { r, asked := Lazy(S, solver); }
    }
  }
}
