/** The model that the tables describe, and the equisatisfiability theorem. */
module BackTranslate {
  import opened Terms
  import opened AckrHelper
  import opened Abstraction
  import opened Congruence
  import opened Equisat
  import opened ModelTables

  /** `src` shows the abstract model `M` as it is. */
  ghost predicate Faithful<V(!new)>(S: Structure<V>, M: Model<V>, src: Source<V>) {
    && (forall c :: c in src.c2t ==> src.val(c) == M(c)([]))
    && (forall e :: src.ev(e) == Eval(S, M, e))
  }

  /** `M` with the tabulated functions and arrays in place of its own. */
  function Overlay<V(==)>(S: Structure<V>, M: Model<V>, funs: FunTable<V>, arrs: ArrTable<V>): Model<V> {
    (d: Decl) =>
      if d in funs then DenoteFun(FuncInterp(funs[d], S.someValue(d.range)))
      else if App(d, []) in arrs then ConstFun(DenoteArr(S, d.range, arrs[App(d, [])]))
      else M(d)
  }

  ghost function Converted<V(!new)>(S: Structure<V>, M: Model<V>, src: Source<V>, cs: seq<Decl>): Model<V> {
    Overlay(S, M, FunTables(src, cs), ArrTables(src, cs))
  }

  // The setting of every lemma below: a congruent sorted model of an abstraction.
  ghost predicate Setting<V(!new)>(S: Structure<V>, M: Model<V>, src: Source<V>, fs: seq<Expr>) {
    && StructureOk(S) && SortedModel(S, M) && Input(fs)
    && Abstracts(src.sub, SubAll(fs)) && Inverse(src.sub, src.c2t)
    && Faithful(S, M, src) && Congruent(S, M, src.sub)
  }

  lemma KeyIsVals<V(!new)>(S: Structure<V>, M: Model<V>, src: Source<V>, t: Expr)
    requires Faithful(S, M, src) && Keyed(t)
    ensures Key(src, t) == Vals(S, M, src.sub, KeyArgs(t))
  {
  }

  lemma ConstantValue<V(!new)>(S: Structure<V>, M: Model<V>, src: Source<V>, t: Expr)
    requires Faithful(S, M, src) && IsAbstraction(src.sub) && Inverse(src.sub, src.c2t) && t in src.sub
    ensures Eval(S, M, src.sub[t]) == src.val(src.sub[t].decl) && src.c2t[src.sub[t].decl] == t
  {
    assert EvalAll(S, M, src.sub[t].args) == [];
  }

  lemma CongruentIsFunctional<V(!new)>(S: Structure<V>, M: Model<V>, src: Source<V>, fs: seq<Expr>)
    requires Setting(S, M, src, fs)
    ensures Functional(src)
  {
    forall c1, c2 | c1 in src.c2t && c2 in src.c2t && Keyed(src.c2t[c1]) && Keyed(src.c2t[c2])
                    && SameClass(src.c2t[c1], src.c2t[c2]) && Key(src, src.c2t[c1]) == Key(src, src.c2t[c2])
      ensures src.val(c1) == src.val(c2)
    {
      var t1, t2 := src.c2t[c1], src.c2t[c2];
      SameKeySameVals(S, M, src, t1, t2);
      ConstantValue(S, M, src, t1);
      ConstantValue(S, M, src, t2);
    }
  }

  lemma SameKeySameVals<V(!new)>(S: Structure<V>, M: Model<V>, src: Source<V>, t1: Expr, t2: Expr)
    requires Faithful(S, M, src) && Keyed(t1) && Keyed(t2) && SameClass(t1, t2) && Key(src, t1) == Key(src, t2)
    ensures Vals(S, M, src.sub, t1.args) == Vals(S, M, src.sub, t2.args)
  {
    KeyIsVals(S, M, src, t1);
    KeyIsVals(S, M, src, t2);
    if IsSelect(t1) {
      var v1, v2 := Vals(S, M, src.sub, t1.args), Vals(S, M, src.sub, t2.args);
      assert v1 == [v1[0]] + Vals(S, M, src.sub, t1.args[1..]);
      assert v2 == [v2[0]] + Vals(S, M, src.sub, t2.args[1..]);
    }
  }

  // ---------- sorts ----------

  lemma AppNoQuantifier(d: Decl, args: seq<Expr>)
    requires forall i :: 0 <= i < |args| ==> NoQuantifier(args[i])
    ensures NoQuantifier(App(d, args))
  {
    forall x | x in Sub(App(d, args)) ensures !x.Quant? {
      if x != App(d, args) {
        var i :| 0 <= i < |args| && x in Sub(args[i]);
      }
    }
  }

  lemma {:induction false} ReplaceNoQuantifier(sub: Subst, e: Expr)
    requires IsAbstraction(sub) && NoQuantifier(e)
    ensures NoQuantifier(Replace(sub, e))
    decreases e
  {
    assert e in Sub(e);
    if e in sub {
      AppNoQuantifier(sub[e].decl, []);
    } else if e.App? {
      forall i | 0 <= i < |e.args| ensures NoQuantifier(Replace(sub, e.args[i])) {
        ArgNoQuantifier(e, i);
        ReplaceNoQuantifier(sub, e.args[i]);
      }
      AppNoQuantifier(e.decl, ReplaceAll(sub, e.args));
    }
  }

  lemma AbstractedSorted<V(!new)>(S: Structure<V>, M: Model<V>, sub: Subst, fs: seq<Expr>, x: Expr)
    requires SortsOk(S) && SortedModel(S, M) && Input(fs) && IsAbstraction(sub) && x in SubAll(fs)
    ensures S.hasSort(Eval(S, M, Replace(sub, x)), SortOf(x))
  {
    ReachWellSorted(fs, x);
    ReplaceSorted(sub, x);
    EvalHasSort(S, M, Replace(sub, x));
  }

  lemma KeySorted<V(!new)>(S: Structure<V>, M: Model<V>, src: Source<V>, fs: seq<Expr>, t: Expr)
    requires SortsOk(S) && SortedModel(S, M) && Input(fs) && IsAbstraction(src.sub) && Faithful(S, M, src)
    requires t in SubAll(fs) && IsSelect(t)
    ensures SortOf(t.args[0]).ArraySort? && t.decl == SelectDecl(SortOf(t.args[0]))
    ensures SortedAs(S, Key(src, t), SortOf(t.args[0]).domain)
  {
    ReachWellSorted(fs, t);
    var ss := SortOf(t.args[0]).domain;
    assert t.decl.domain[1..] == ss;
    forall i | 0 <= i < |KeyArgs(t)| ensures S.hasSort(Key(src, t)[i], ss[i]) {
      KeyArgSorted(S, M, src, fs, t, i);
      assert ss[i] == SortOf(KeyArgs(t)[i]);
    }
  }

  lemma KeyArgSorted<V(!new)>(S: Structure<V>, M: Model<V>, src: Source<V>, fs: seq<Expr>, t: Expr, i: nat)
    requires SortsOk(S) && SortedModel(S, M) && Input(fs) && IsAbstraction(src.sub) && Faithful(S, M, src)
    requires t in SubAll(fs) && IsSelect(t) && i < |KeyArgs(t)|
    ensures S.hasSort(Key(src, t)[i], SortOf(KeyArgs(t)[i]))
  {
    ArgInSubAll(t, i + 1, fs);
    AbstractedSorted(S, M, src.sub, fs, t.args[i + 1]);
  }

  lemma ValueSorted<V(!new)>(S: Structure<V>, M: Model<V>, src: Source<V>, fs: seq<Expr>, c: Decl)
    requires Setting(S, M, src, fs) && c in src.c2t
    ensures S.hasSort(src.val(c), SortOf(src.c2t[c])) && src.c2t[c] in SubAll(fs) && Keyed(src.c2t[c])
  {
    assert SortedFun(S, M(c), c) && SortedAs(S, [], c.domain);
  }

  ghost predicate ArrEntryOk<V(!new)>(S: Structure<V>, src: Source<V>, c: Decl)
    requires Tabulates(src, c, true)
  {
    var s := SortOf(src.c2t[c].args[0]);
    s.ArraySort? && S.hasSort(src.val(c), s.range) && SortedAs(S, Key(src, src.c2t[c]), s.domain)
  }

  lemma {:induction false} EntriesSortedArr<V(!new)>(S: Structure<V>, src: Source<V>, cs: seq<Decl>, A: Expr)
    requires A in ArrTables(src, cs)
    requires forall c :: Tabulates(src, c, true) ==> ArrEntryOk(S, src, c)
    ensures SortOf(A).ArraySort? && SortedArr(S, SortOf(A), ArrTables(src, cs)[A])
  {
    var c0, m := cs[|cs| - 1], ArrTables(src, cs[..|cs| - 1]);
    if A in m { EntriesSortedArr(S, src, cs[..|cs| - 1], A); }
    if Tabulates(src, c0, true) && src.c2t[c0].args[0] == A {
      assert ArrEntryOk(S, src, c0);
      AddArrSorted(S, src, m, src.c2t[c0], src.val(c0));
    }
  }

  lemma ArrTablesSorted<V(!new)>(S: Structure<V>, M: Model<V>, src: Source<V>, fs: seq<Expr>, cs: seq<Decl>, A: Expr)
    requires Setting(S, M, src, fs) && A in ArrTables(src, cs)
    ensures SortOf(A).ArraySort? && SortedArr(S, SortOf(A), ArrTables(src, cs)[A])
  {
    forall c | Tabulates(src, c, true) ensures ArrEntryOk(S, src, c) { ArrEntrySorted(S, M, src, fs, c); }
    EntriesSortedArr(S, src, cs, A);
  }

  lemma ArrEntrySorted<V(!new)>(S: Structure<V>, M: Model<V>, src: Source<V>, fs: seq<Expr>, c: Decl)
    requires Setting(S, M, src, fs) && Tabulates(src, c, true)
    ensures ArrEntryOk(S, src, c)
  {
    ValueSorted(S, M, src, fs, c);
    KeySorted(S, M, src, fs, src.c2t[c]);
  }

  lemma AddArrSorted<V(!new)>(S: Structure<V>, src: Source<V>, m: ArrTable<V>, t: Expr, value: V)
    requires IsSelect(t) && SortOf(t.args[0]).ArraySort?
    requires t.args[0] in m ==> SortedArr(S, SortOf(t.args[0]), m[t.args[0]])
    requires S.hasSort(value, SortOf(t.args[0]).range) && SortedAs(S, Key(src, t), SortOf(t.args[0]).domain)
    ensures SortedArr(S, SortOf(t.args[0]), AddArr(src, m, t, value)[t.args[0]])
  {
  }

  lemma FunTableSorted<V(!new)>(S: Structure<V>, M: Model<V>, src: Source<V>, fs: seq<Expr>, cs: seq<Decl>, d: Decl)
    requires Setting(S, M, src, fs) && Functional(src) && d in FunTables(src, cs)
    ensures SortedFun(S, DenoteFun(FuncInterp(FunTables(src, cs)[d], S.someValue(d.range))), d)
  {
    var entries := FunTables(src, cs)[d];
    forall vs | vs in entries ensures S.hasSort(entries[vs], d.range) {
      var c := EntryOrigin(src, cs, d, vs);
      ValueSorted(S, M, src, fs, c);
    }
    EntriesSorted(S, d, entries);
  }

  lemma EntryOrigin<V(!new)>(src: Source<V>, cs: seq<Decl>, d: Decl, vs: seq<V>) returns (c: Decl)
    requires Functional(src) && d in FunTables(src, cs) && vs in FunTables(src, cs)[d]
    ensures c in cs && Tabulates(src, c, false) && src.c2t[c].decl == d
    ensures Key(src, src.c2t[c]) == vs && src.val(c) == FunTables(src, cs)[d][vs]
  {
    FunTablesExact(src, cs, d, vs, FunTables(src, cs)[d][vs]);
    c :| c in cs && Tabulates(src, c, false) && src.c2t[c].decl == d
         && Key(src, src.c2t[c]) == vs && src.val(c) == FunTables(src, cs)[d][vs];
  }

  lemma EntriesSorted<V(!new)>(S: Structure<V>, d: Decl, entries: map<seq<V>, V>)
    requires SortsOk(S) && forall vs :: vs in entries ==> S.hasSort(entries[vs], d.range)
    ensures SortedFun(S, DenoteFun(FuncInterp(entries, S.someValue(d.range))), d)
  {
  }

  lemma ConvertedSorted<V(!new)>(S: Structure<V>, M: Model<V>, src: Source<V>, fs: seq<Expr>, cs: seq<Decl>)
    requires Setting(S, M, src, fs)
    ensures SortedModel(S, Converted(S, M, src, cs))
  {
    CongruentIsFunctional(S, M, src, fs);
    var Mo := Converted(S, M, src, cs);
    forall d | IsFree(d) ensures SortedFun(S, Mo(d), d) {
      if d in FunTables(src, cs) {
        FunTableSorted(S, M, src, fs, cs, d);
      } else if App(d, []) in ArrTables(src, cs) {
        ArrTablesSorted(S, M, src, fs, cs, App(d, []));
        ArraySorted(S, d.range, ArrTables(src, cs)[App(d, [])]);
      }
    }
  }

  lemma {:induction false} ArraySorted<V(!new)>(S: Structure<V>, s: Sort, e: ArrExpr<V>)
    requires ArraysOk(S) && s.ArraySort? && SortedArr(S, s, e)
    ensures S.hasSort(DenoteArr(S, s, e), s)
  {
    if e.Store? { ArraySorted(S, s, e.base); }
  }

  // ---------- the converted model realizes the abstract one ----------

  /** A listed constant stands for a term of the class of `t` with the same key; the
      constant of `t` itself is one. */
  ghost predicate Listed<V(!new)>(src: Source<V>, cs: seq<Decl>, t: Expr)
    requires Keyed(t)
  {
    exists c :: c in cs && c in src.c2t && Keyed(src.c2t[c]) && SameClass(src.c2t[c], t)
                && Key(src, src.c2t[c]) == Key(src, t)
  }

  /** What tabulation falls back to for a term that is not listed. */
  ghost function Fallback<V(!new)>(S: Structure<V>, M: Model<V>, src: Source<V>, cs: seq<Decl>, t: Expr): V
    requires Keyed(t)
  {
    if IsSelect(t) then
      var A := t.args[0];
      if A in ArrTables(src, cs) then DefaultOf(ArrTables(src, cs)[A])
      else S.interp(t.decl)([Eval(S, M, A)] + Key(src, t))
    else if t.decl in FunTables(src, cs) then S.someValue(t.decl.range)
    else M(t.decl)(Key(src, t))
  }

  /** The source gives the collected term `t` the value of its constant: the term is
      listed, or the value happens to be what tabulation falls back to. */
  ghost predicate ValueGiven<V(!new)>(S: Structure<V>, M: Model<V>, src: Source<V>, cs: seq<Decl>, t: Expr)
    requires t in src.sub && src.sub[t].App? && Keyed(t)
  {
    Listed(src, cs, t) || Fallback(S, M, src, cs, t) == src.val(src.sub[t].decl)
  }

  /** The table of a function at the key of one of its terms. */
  lemma FunTableAt<V(!new)>(src: Source<V>, cs: seq<Decl>, c: Decl)
    requires Functional(src) && c in src.c2t && FunApp(src.c2t[c])
    ensures var t := src.c2t[c];
            if Listed(src, cs, t) then InTable(FunTables(src, cs), t.decl, Key(src, t), src.val(c))
            else !(t.decl in FunTables(src, cs) && Key(src, t) in FunTables(src, cs)[t.decl])
  {
    var t, m := src.c2t[c], FunTables(src, cs);
    if c' :| c' in cs && c' in src.c2t && Keyed(src.c2t[c']) && SameClass(src.c2t[c'], t)
             && Key(src, src.c2t[c']) == Key(src, t) {
      assert Tabulates(src, c', false);
      FunTablesExact(src, cs, t.decl, Key(src, t), src.val(c));
    } else if t.decl in m && Key(src, t) in m[t.decl] {
      var _ := EntryOrigin(src, cs, t.decl, Key(src, t));
    }
  }

  /** The table of an array at the index of one of its selects. */
  lemma ArrTableAt<V(!new)>(src: Source<V>, cs: seq<Decl>, c: Decl)
    requires Functional(src) && c in src.c2t && IsSelect(src.c2t[c]) && src.c2t[c].args[0] in ArrTables(src, cs)
    ensures var t := src.c2t[c]; var e := ArrTables(src, cs)[t.args[0]];
            Lookup(e, Key(src, t)) == src.val(c) <==> Listed(src, cs, t) || DefaultOf(e) == src.val(c)
  {
    var t := src.c2t[c];
    ArrTablesOnly(src, cs, t.args[0], Key(src, t));
    if c' :| c' in cs && c' in src.c2t && Keyed(src.c2t[c']) && SameClass(src.c2t[c'], t)
             && Key(src, src.c2t[c']) == Key(src, t) {
      assert Tabulates(src, c', true);
      ArrTablesHold(src, cs, t.args[0], Key(src, t), src.val(c'));
    }
  }

  lemma NoTableNotListed<V(!new)>(src: Source<V>, cs: seq<Decl>, t: Expr)
    requires Keyed(t)
    ensures IsSelect(t) && t.args[0] !in ArrTables(src, cs) ==> !Listed(src, cs, t)
  {
    if IsSelect(t) {
      ArrTablesDefault(src, cs, t.args[0]);
      if c :| c in cs && c in src.c2t && Keyed(src.c2t[c]) && SameClass(src.c2t[c], t) {
        assert Tabulates(src, c, true);
      }
    }
  }

  lemma OverlayAt<V(!new)>(S: Structure<V>, M: Model<V>, src: Source<V>, cs: seq<Decl>, d: Decl, key: seq<V>)
    requires App(d, []) !in ArrTables(src, cs)
    ensures Converted(S, M, src, cs)(d)(key)
            == if d in FunTables(src, cs) then
                 if key in FunTables(src, cs)[d] then FunTables(src, cs)[d][key] else S.someValue(d.range)
               else M(d)(key)
  {
  }

  /** The converted interpretation gives a collected application the value of its
      constant exactly if that value is given. */
  lemma FunRealizedIff<V(!new)>(S: Structure<V>, M: Model<V>, src: Source<V>, fs: seq<Expr>, cs: seq<Decl>, t: Expr)
    requires Setting(S, M, src, fs) && t in CollectedFuns(SubAll(fs))
    ensures Converted(S, M, src, cs)(t.decl)(Vals(S, M, src.sub, t.args)) == Eval(S, M, src.sub[t])
            <==> ValueGiven(S, M, src, cs, t)
  {
    CongruentIsFunctional(S, M, src, fs);
    KeyIsVals(S, M, src, t);
    ConstantValue(S, M, src, t);
    NotAnArray(src, fs, cs, t);
    FunTableAt(src, cs, src.sub[t].decl);
    OverlayAt(S, M, src, cs, t.decl, Key(src, t));
  }

  lemma TabulatedCollected<V(!new)>(src: Source<V>, R: set<Expr>, c: Decl)
    requires Abstracts(src.sub, R) && Inverse(src.sub, src.c2t) && c in src.c2t
    ensures IsSelect(src.c2t[c]) ==> src.c2t[c] in CollectedSels(R) && src.c2t[c].args[0] in Consumed(R)
    ensures FunApp(src.c2t[c]) ==> src.c2t[c] in CollectedFuns(R)
    ensures src.c2t[c] in R
  {
  }

  lemma NotAnArray<V(!new)>(src: Source<V>, fs: seq<Expr>, cs: seq<Decl>, t: Expr)
    requires Input(fs) && Abstracts(src.sub, SubAll(fs)) && Inverse(src.sub, src.c2t)
    requires t in CollectedFuns(SubAll(fs))
    ensures App(t.decl, []) !in ArrTables(src, cs)
  {
    ReachWellSorted(fs, t);
    ArrTablesDefault(src, cs, App(t.decl, []));
    if c :| c in cs && Tabulates(src, c, true) && src.c2t[c].args[0] == App(t.decl, []) {
      TabulatedCollected(src, SubAll(fs), c);
      ConsumedIsConst(fs, src.c2t[c].args[0]);
    }
  }

  /** Reading the converted array at a collected index reads the table. */
  lemma SelectReads<V(!new)>(S: Structure<V>, M: Model<V>, src: Source<V>, fs: seq<Expr>, cs: seq<Decl>, t: Expr)
    requires Setting(S, M, src, fs) && t in CollectedSels(SubAll(fs)) && t.args[0] in ArrTables(src, cs)
    ensures S.interp(t.decl)([Eval(S, Converted(S, M, src, cs), t.args[0])] + Vals(S, M, src.sub, t.args[1..]))
            == Lookup(ArrTables(src, cs)[t.args[0]], Key(src, t))
  {
    var A := t.args[0];
    var arr := ArrTables(src, cs)[A];
    KeyIsVals(S, M, src, t);
    KeySorted(S, M, src, fs, t);
    ArrTablesSorted(S, M, src, fs, cs, A);
    DenoteArrLookup(S, SortOf(A), arr, Key(src, t));
    assert Eval(S, Converted(S, M, src, cs), A) == DenoteArr(S, SortOf(A), arr) by {
      ConsumedIsConst(fs, A);
      ConstNotAFunction(src, fs, cs, A);
      ConvertedArray(S, M, src, cs, A);
    }
  }

  lemma ConvertedArray<V(!new)>(S: Structure<V>, M: Model<V>, src: Source<V>, cs: seq<Decl>, A: Expr)
    requires IsConstant(A) && A in ArrTables(src, cs) && A.decl !in FunTables(src, cs)
    ensures Eval(S, Converted(S, M, src, cs), A) == DenoteArr(S, SortOf(A), ArrTables(src, cs)[A])
  {
    var Mo := Converted(S, M, src, cs);
    assert A == App(A.decl, []);
    assert Mo(A.decl) == ConstFun(DenoteArr(S, SortOf(A), ArrTables(src, cs)[A]));
    assert Eval(S, Mo, A) == Mo(A.decl)(EvalAll(S, Mo, A.args));
  }

  lemma ConstNotAFunction<V(!new)>(src: Source<V>, fs: seq<Expr>, cs: seq<Decl>, A: Expr)
    requires Input(fs) && Abstracts(src.sub, SubAll(fs)) && Inverse(src.sub, src.c2t) && IsConstant(A)
    ensures A.decl !in FunTables(src, cs)
  {
    FunTablesKeys(src, cs, A.decl);
    forall c | c in cs && Tabulates(src, c, false) ensures src.c2t[c].decl != A.decl {
      ReachWellSorted(fs, src.c2t[c]);
    }
  }

  lemma UntabulatedArray<V(!new)>(S: Structure<V>, M: Model<V>, src: Source<V>, fs: seq<Expr>, cs: seq<Decl>, A: Expr)
    requires Input(fs) && Abstracts(src.sub, SubAll(fs)) && Inverse(src.sub, src.c2t)
    requires A in Consumed(SubAll(fs)) && A !in ArrTables(src, cs)
    ensures Eval(S, Converted(S, M, src, cs), A) == Eval(S, M, A)
  {
    ConsumedIsConst(fs, A);
    ConstNotAFunction(src, fs, cs, A);
    assert A == App(A.decl, []);
    ConstantEval(S, Converted(S, M, src, cs), A);
    ConstantEval(S, M, A);
  }

  /** A collected select comes out right exactly if its value is given. */
  lemma SelectRealizedIff<V(!new)>(S: Structure<V>, M: Model<V>, src: Source<V>, fs: seq<Expr>, cs: seq<Decl>, t: Expr)
    requires Setting(S, M, src, fs) && t in CollectedSels(SubAll(fs))
    ensures (S.interp(t.decl)([Eval(S, Converted(S, M, src, cs), t.args[0])] + Vals(S, M, src.sub, t.args[1..]))
             == Eval(S, M, src.sub[t])) <==> ValueGiven(S, M, src, cs, t)
  {
    ConstantValue(S, M, src, t);
    if t.args[0] in ArrTables(src, cs) {
      CongruentIsFunctional(S, M, src, fs);
      SelectReads(S, M, src, fs, cs, t);
      ArrTableAt(src, cs, src.sub[t].decl);
    } else {
      KeyIsVals(S, M, src, t);
      NoTableNotListed(src, cs, t);
      UntabulatedArray(S, M, src, fs, cs, t.args[0]);
    }
  }

  /** Every collected term is given its value. */
  ghost predicate AllGiven<V(!new)>(S: Structure<V>, M: Model<V>, src: Source<V>, R: set<Expr>, cs: seq<Decl>)
    requires Abstracts(src.sub, R)
  {
    forall t :: t in src.sub ==> ValueGiven(S, M, src, cs, t)
  }

  lemma ConvertedRealizes<V(!new)>(S: Structure<V>, M: Model<V>, src: Source<V>, fs: seq<Expr>, cs: seq<Decl>)
    requires Setting(S, M, src, fs)
    ensures Realizes(S, Converted(S, M, src, cs), M, src.sub, SubAll(fs)) <==> AllGiven(S, M, src, SubAll(fs), cs)
  {
    var Mo, R := Converted(S, M, src, cs), SubAll(fs);
    ConvertedUntouched(S, M, src, fs, cs);
    forall t | t in src.sub ensures RealizedAt(S, Mo, M, src.sub, R, t) <==> ValueGiven(S, M, src, cs, t) {
      ConvertedRealizesAt(S, M, src, fs, cs, t);
    }
  }

  lemma ConvertedUntouched<V(!new)>(S: Structure<V>, M: Model<V>, src: Source<V>, fs: seq<Expr>, cs: seq<Decl>)
    requires Abstracts(src.sub, SubAll(fs)) && Inverse(src.sub, src.c2t)
    ensures SameUntouched(Converted(S, M, src, cs), M, src.sub, SubAll(fs))
  {
    forall d | Untouched(src.sub, SubAll(fs), d) ensures Converted(S, M, src, cs)(d) == M(d) {
      UntouchedNotTabulated(src, fs, cs, d);
    }
  }

  lemma ConvertedRealizesAt<V(!new)>(S: Structure<V>, M: Model<V>, src: Source<V>, fs: seq<Expr>, cs: seq<Decl>,
                                     t: Expr)
    requires Setting(S, M, src, fs) && t in src.sub
    ensures RealizedAt(S, Converted(S, M, src, cs), M, src.sub, SubAll(fs), t) <==> ValueGiven(S, M, src, cs, t)
  {
    if t in CollectedFuns(SubAll(fs)) {
      FunRealizedIff(S, M, src, fs, cs, t);
    } else {
      SelectRealizedIff(S, M, src, fs, cs, t);
    }
  }

  lemma UntouchedNotTabulated<V(!new)>(src: Source<V>, fs: seq<Expr>, cs: seq<Decl>, d: Decl)
    requires Abstracts(src.sub, SubAll(fs)) && Inverse(src.sub, src.c2t)
    requires Untouched(src.sub, SubAll(fs), d)
    ensures d !in FunTables(src, cs) && App(d, []) !in ArrTables(src, cs)
  {
    var R := SubAll(fs);
    FunTablesKeys(src, cs, d);
    ArrTablesDefault(src, cs, App(d, []));
    if c :| c in cs && Tabulates(src, c, false) && src.c2t[c].decl == d {
      TabulatedCollected(src, R, c);
    }
    if c :| c in cs && Tabulates(src, c, true) && src.c2t[c].args[0] == App(d, []) {
      TabulatedCollected(src, R, c);
    }
  }

  // ---------- equisatisfiability ----------

  ghost function SomeOrder<T(!new)>(s: set<T>): (q: seq<T>)
    ensures forall x :: x in q <==> x in s
    ensures |q| == |s| && Distinct(q)
  {
    if s == {} then [] else var x :| x in s; [x] + SomeOrder(s - {x})
  }

  /** The output of ackermannization: the abstracted formulas followed by lemmas that
      cover every class. */
  ghost predicate Ackermannized(fs: seq<Expr>, sub: Subst, c2t: map<Decl, Expr>, th: Theory,
                                lemmas: seq<Expr>) {
    && Input(fs) && Abstracts(sub, SubAll(fs)) && Inverse(sub, c2t)
    && (forall t :: t in sub ==> WellSorted(t))
    && AllCovered(sub, th, lemmas) && OnlyLemmas(sub, th, lemmas)
  }

  lemma HoldAllConcat<V(!new)>(S: Structure<V>, M: Model<V>, a: seq<Expr>, b: seq<Expr>)
    ensures HoldAll(S, M, a + b) <==> HoldAll(S, M, a) && HoldAll(S, M, b)
  {
    if HoldAll(S, M, a + b) {
      forall i | 0 <= i < |a| ensures Holds(S, M, a[i]) { assert (a + b)[i] == a[i]; }
      forall i | 0 <= i < |b| ensures Holds(S, M, b[i]) { assert (a + b)[|a| + i] == b[i]; }
    }
  }

  lemma AbstractionSatisfiable<V(!new)>(S: Structure<V>, Mo: Model<V>, fs: seq<Expr>, sub: Subst,
                                        c2t: map<Decl, Expr>, th: Theory, lemmas: seq<Expr>)
    requires StructureOk(S) && TheoryOk(S, th) && Ackermannized(fs, sub, c2t, th, lemmas)
    requires SortedModel(S, Mo) && HoldAll(S, Mo, fs)
    ensures Satisfiable(S, ReplaceAll(sub, fs) + lemmas)
  {
    var Ma := Expand(S, Mo, c2t);
    ExpandIsModel(S, Mo, sub, c2t, fs);
    LemmasAreCongruence(S, Ma, sub, th, lemmas);
    HoldAllConcat(S, Ma, ReplaceAll(sub, fs), lemmas);
  }

  lemma ConvertedSatisfies<V(!new)>(S: Structure<V>, M: Model<V>, src: Source<V>, fs: seq<Expr>, cs: seq<Decl>)
    requires Setting(S, M, src, fs) && AllGiven(S, M, src, SubAll(fs), cs) && HoldAll(S, M, ReplaceAll(src.sub, fs))
    ensures SortedModel(S, Converted(S, M, src, cs)) && HoldAll(S, Converted(S, M, src, cs), fs)
  {
    ConvertedRealizes(S, M, src, fs, cs);
    ConvertedSorted(S, M, src, fs, cs);
    BackTranslation(S, Converted(S, M, src, cs), M, src.sub, fs);
  }

  /** The converter's view of a whole model. */
  ghost function ViewOf<V(!new)>(S: Structure<V>, M: Model<V>, sub: Subst, c2t: map<Decl, Expr>): Source<V> {
    Source(sub, c2t, (c: Decl) => M(c)([]), (e: Expr) => Eval(S, M, e))
  }

  /** If every constant is listed then every term is given its value. */
  lemma ListedIsGiven<V(!new)>(S: Structure<V>, M: Model<V>, src: Source<V>, R: set<Expr>, cs: seq<Decl>)
    requires Abstracts(src.sub, R) && Inverse(src.sub, src.c2t) && forall c :: c in src.c2t ==> c in cs
    ensures AllGiven(S, M, src, R, cs)
  {
    forall t | t in src.sub ensures ValueGiven(S, M, src, cs, t) {
      var c := src.sub[t].decl;
      assert c in cs && src.c2t[c] == t && SameClass(src.c2t[c], t);
    }
  }

  lemma SettingHolds<V(!new)>(S: Structure<V>, M: Model<V>, src: Source<V>, fs: seq<Expr>, th: Theory,
                              lemmas: seq<Expr>)
    requires StructureOk(S) && TheoryOk(S, th) && Ackermannized(fs, src.sub, src.c2t, th, lemmas)
    requires SortedModel(S, M) && Faithful(S, M, src) && HoldAll(S, M, ReplaceAll(src.sub, fs) + lemmas)
    ensures Setting(S, M, src, fs) && HoldAll(S, M, ReplaceAll(src.sub, fs))
  {
    HoldAllConcat(S, M, ReplaceAll(src.sub, fs), lemmas);
    LemmasAreCongruence(S, M, src.sub, th, lemmas);
  }

  /** From any model of the abstraction and the lemmas, however its constants are
      ordered, the converted model satisfies the input. */
  lemma InputSatisfiable<V(!new)>(S: Structure<V>, Ma: Model<V>, fs: seq<Expr>, sub: Subst,
                                  c2t: map<Decl, Expr>, th: Theory, lemmas: seq<Expr>, cs: seq<Decl>)
    requires StructureOk(S) && TheoryOk(S, th) && Ackermannized(fs, sub, c2t, th, lemmas)
    requires SortedModel(S, Ma) && HoldAll(S, Ma, ReplaceAll(sub, fs) + lemmas)
    requires forall c :: c in c2t ==> c in cs
    ensures var Mo := Converted(S, Ma, ViewOf(S, Ma, sub, c2t), cs); SortedModel(S, Mo) && HoldAll(S, Mo, fs)
  {
    var src := ViewOf(S, Ma, sub, c2t);
    SettingHolds(S, Ma, src, fs, th, lemmas);
    ListedIsGiven(S, Ma, src, SubAll(fs), cs);
    ConvertedSatisfies(S, Ma, src, fs, cs);
  }

  /** Ackermannization preserves satisfiability in both directions. */
  lemma Equisatisfiable<V(!new)>(S: Structure<V>, fs: seq<Expr>, sub: Subst, c2t: map<Decl, Expr>,
                                 th: Theory, lemmas: seq<Expr>)
    requires StructureOk(S) && TheoryOk(S, th) && Ackermannized(fs, sub, c2t, th, lemmas)
    ensures Satisfiable(S, fs) <==> Satisfiable(S, ReplaceAll(sub, fs) + lemmas)
  {
    if Satisfiable(S, fs) {
      var Mo: Model<V> :| SortedModel(S, Mo) && HoldAll(S, Mo, fs);
      AbstractionSatisfiable(S, Mo, fs, sub, c2t, th, lemmas);
    }
    if Satisfiable(S, ReplaceAll(sub, fs) + lemmas) {
      var Ma: Model<V> :| SortedModel(S, Ma) && HoldAll(S, Ma, ReplaceAll(sub, fs) + lemmas);
      InputSatisfiable(S, Ma, fs, sub, c2t, th, lemmas, SomeOrder(c2t.Keys));
    }
  }
}
