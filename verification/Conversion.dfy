/** Every model that the solver may return is converted to a model of the input. */
module Conversion {
  import opened Terms
  import opened AckrHelper
  import opened Abstraction
  import opened Congruence
  import opened Equisat
  import opened ModelTables
  import opened PartialModels
  import opened BackTranslate
  import opened Completion
  import opened ModelConverter

  /** `m0` is a model of the abstraction and the lemmas, whatever completes it, and `m` is
      what has become of it when the converter has read its constants `cs`. */
  ghost predicate Read<V(!new)>(S: Structure<V>, src: Source<V>, m0: PartialModel<V>, m: PartialModel<V>, cs: seq<Decl>,
                                fs: seq<Expr>, th: Theory, lemmas: seq<Expr>) {
    && StructureOk(S) && TheoryOk(S, th) && Ackermannized(fs, src.sub, src.c2t, th, lemmas)
    && Implicant(S, m0, ReplaceAll(src.sub, fs) + lemmas)
    && ReadAll(S, src, m0, m, cs)
  }

  ghost predicate ReadAll<V(!new)>(S: Structure<V>, src: Source<V>, m0: PartialModel<V>, m: PartialModel<V>,
                                   cs: seq<Decl>) {
    && src == ViewOf(S, Total(S, m0), src.sub, src.c2t)
    && WellFormedModel(S, m0) && Grows(S, m0, m) && (forall c :: c in cs <==> c in m.consts)
    && KeysSettled(S, m, src, cs)
  }

  /** The constants that were read, and the functions that were copied before. */
  function Seen<V(==)>(m0: PartialModel<V>, m: PartialModel<V>): PartialModel<V> { PartialModel(m.consts, m0.funs) }

  ghost function Result<V(!new)>(S: Structure<V>, src: Source<V>, m0: PartialModel<V>, m: PartialModel<V>,
                                 cs: seq<Decl>): Model<V>
    requires ArrayConsts(ArrTables(src, cs))
  {
    Total(S, ConvertedModel(S, src, Seen(m0, m), cs))
  }

  // ---------- the result respects sorts ----------

  lemma SeenGrows<V(!new)>(S: Structure<V>, m0: PartialModel<V>, m: PartialModel<V>)
    requires Grows(S, m0, m)
    ensures Grows(S, m0, Seen(m0, m)) && Grows(S, Seen(m0, m), m)
  {
  }

  lemma FaithfulToSeen<V(!new)>(S: Structure<V>, src: Source<V>, m0: PartialModel<V>, m: PartialModel<V>)
    requires src == ViewOf(S, Total(S, m0), src.sub, src.c2t) && Grows(S, m0, m)
    ensures Faithful(S, Total(S, Seen(m0, m)), src)
  {
    var G := Seen(m0, m);
    SeenGrows(S, m0, m);
    forall c | c in src.c2t ensures src.val(c) == Total(S, G)(c)([]) { GrowsTotal(S, m0, G, c); }
    forall e ensures src.ev(e) == Eval(S, Total(S, G), e) { GrowsEval(S, m0, G, e); }
  }

  lemma SeenSetting<V(!new)>(S: Structure<V>, src: Source<V>, m0: PartialModel<V>, m: PartialModel<V>, cs: seq<Decl>,
                             fs: seq<Expr>, th: Theory, lemmas: seq<Expr>)
    requires Read(S, src, m0, m, cs, fs, th, lemmas)
    ensures Setting(S, Total(S, Seen(m0, m)), src, fs)
  {
    var G := Seen(m0, m);
    SeenGrows(S, m0, m);
    GrowsWellFormed(S, m0, G);
    TotalIsModel(S, G);
    assert Extends(Total(S, G), m0);
    FaithfulToSeen(S, src, m0, m);
    SettingHolds(S, Total(S, G), src, fs, th, lemmas);
  }

  lemma ArrayNotConstant<V(!new)>(src: Source<V>, fs: seq<Expr>, cs: seq<Decl>, c: Decl)
    requires Input(fs) && Abstracts(src.sub, SubAll(fs)) && Inverse(src.sub, src.c2t) && c in src.c2t
    ensures App(c, []) !in ArrTables(src, cs)
  {
    ArrTablesDefault(src, cs, App(c, []));
    if d :| d in cs && Tabulates(src, d, true) && src.c2t[d].args[0] == App(c, []) {
      TabulatedCollected(src, SubAll(fs), d);
      ConsumedIsConst(fs, App(c, []));
      InputDeclKept(src.sub, src.c2t, SubAll(fs), App(c, []));
    }
  }

  lemma ResultSorted<V(!new)>(S: Structure<V>, src: Source<V>, m0: PartialModel<V>, m: PartialModel<V>, cs: seq<Decl>,
                              fs: seq<Expr>)
    requires Setting(S, Total(S, Seen(m0, m)), src, fs) && ArrayConsts(ArrTables(src, cs))
    ensures SortedModel(S, Result(S, src, m0, m, cs))
  {
    var Mo, Mc := Result(S, src, m0, m, cs), Converted(S, Total(S, Seen(m0, m)), src, cs);
    ConvertedSorted(S, Total(S, Seen(m0, m)), src, fs, cs);
    forall d | IsFree(d) ensures SortedFun(S, Mo(d), d) {
      if d in src.c2t {
        ConstantDropped(S, src, m0, m, cs, fs, d);
      } else {
        ConvertedInterp(S, src, Seen(m0, m), cs, fs, d);
      }
    }
  }

  lemma ConstantDropped<V(!new)>(S: Structure<V>, src: Source<V>, m0: PartialModel<V>, m: PartialModel<V>,
                                 cs: seq<Decl>, fs: seq<Expr>, c: Decl)
    requires Input(fs) && Abstracts(src.sub, SubAll(fs)) && Inverse(src.sub, src.c2t) && c in src.c2t
    requires ArrayConsts(ArrTables(src, cs))
    ensures Result(S, src, m0, m, cs)(c) == ConstFun(S.someValue(c.range))
  {
    ArrayNotConstant(src, fs, cs, c);
    assert src.sub[src.c2t[c]] == App(c, []) && IsConstant(App(c, []));
  }

  // ---------- the completion that the result agrees with ----------

  ghost function Matching<V(!new)>(S: Structure<V>, src: Source<V>, m0: PartialModel<V>, m: PartialModel<V>,
                                   cs: seq<Decl>): Model<V>
    requires ArrayConsts(ArrTables(src, cs))
  {
    Supply(S, m, src.c2t, Result(S, src, m0, m, cs))
  }

  lemma {:induction false} TablesSame<V(!new)>(src: Source<V>, src': Source<V>, cs: seq<Decl>)
    requires src.sub == src'.sub && src.c2t == src'.c2t && forall c :: c in cs ==> src.val(c) == src'.val(c)
    requires forall j: nat :: j < |cs| ==> SameAt(src, src', cs, j)
    ensures FunTables(src, cs) == FunTables(src', cs) && ArrTables(src, cs) == ArrTables(src', cs)
  {
    if cs != [] {
      var n := |cs| - 1;
      forall j: nat | j < n ensures SameAt(src, src', cs[..n], j) {
        assert SameAt(src, src', cs, j) && cs[..n][..j] == cs[..j] && cs[..n][j] == cs[j];
      }
      assert forall c :: c in cs[..n] ==> c in cs;
      TablesSame(src, src', cs[..n]);
      assert SameAt(src, src', cs, n) && cs[n] in cs;
      StepSame(src, src', cs, n);
    }
  }

  /** The keys that are evaluated for the constant at `j` are the same in both views. */
  ghost predicate SameAt<V(!new)>(src: Source<V>, src': Source<V>, cs: seq<Decl>, j: nat)
    requires j < |cs|
  {
    && (Tabulates(src, cs[j], false) ==> Key(src, src.c2t[cs[j]]) == Key(src', src.c2t[cs[j]]))
    && (Tabulates(src, cs[j], true) && StoredAfter(src, cs[..j], cs[j]) ==>
          Key(src, src.c2t[cs[j]]) == Key(src', src.c2t[cs[j]]))
  }

  lemma StepSame<V(!new)>(src: Source<V>, src': Source<V>, cs: seq<Decl>, n: nat)
    requires |cs| == n + 1 && src.sub == src'.sub && src.c2t == src'.c2t && src.val(cs[n]) == src'.val(cs[n])
    requires SameAt(src, src', cs, n)
    requires FunTables(src, cs[..n]) == FunTables(src', cs[..n]) && ArrTables(src, cs[..n]) == ArrTables(src', cs[..n])
    ensures FunTables(src, cs) == FunTables(src', cs) && ArrTables(src, cs) == ArrTables(src', cs)
  {
  }

  lemma SettledKey<V(!new)>(S: Structure<V>, m: PartialModel<V>, M: Model<V>, src: Source<V>, t: Expr)
    requires SortedModel(S, M) && Extends(M, m) && Keyed(t) && KeySettled(S, m, src, t)
    ensures Key(ViewOf(S, M, src.sub, src.c2t), t) == Key(src, t)
  {
    forall i | 0 <= i < |KeyArgs(t)|
      ensures Key(ViewOf(S, M, src.sub, src.c2t), t)[i] == Key(src, t)[i]
    {
      assert Settled(S, m, src, KeyArgs(t)[i]);
    }
  }

  /** `M` gives the tables that `src` shows. */
  ghost predicate SameTables<V(!new)>(S: Structure<V>, M: Model<V>, src: Source<V>, cs: seq<Decl>) {
    var src' := ViewOf(S, M, src.sub, src.c2t);
    FunTables(src', cs) == FunTables(src, cs) && ArrTables(src', cs) == ArrTables(src, cs)
  }

  /** In every completion the tables are those that the converter builds. */
  lemma TablesSettled<V(!new)>(S: Structure<V>, src: Source<V>, m0: PartialModel<V>, m: PartialModel<V>, cs: seq<Decl>,
                               M: Model<V>)
    requires SortsOk(S) && ReadAll(S, src, m0, m, cs) && SortedModel(S, M) && Extends(M, m)
    ensures SameTables(S, M, src, cs)
  {
    var src' := ViewOf(S, M, src.sub, src.c2t);
    GrowsWellFormed(S, m0, m);
    forall c | c in cs ensures src.val(c) == src'.val(c) { ShownValue(S, m0, m, src.sub, src.c2t, c); }
    forall j: nat | j < |cs| ensures SameAt(src, src', cs, j) {
      assert KeysSettledAt(S, m, src, cs, j);
      if c :| c == cs[j] && c in src.c2t && Keyed(src.c2t[c]) && KeySettled(S, m, src, src.c2t[c]) {
        SettledKey(S, m, M, src, src.c2t[c]);
      }
    }
    TablesSame(src, src', cs);
  }

  // ---------- the result and the matching completion agree ----------

  /** The setting of the rest: `M` is a completion of the source that was read, and the
      model that the converter builds interprets every tabulated symbol by its table. */
  ghost predicate Matches<V(!new)>(S: Structure<V>, src: Source<V>, m: PartialModel<V>, cs: seq<Decl>, fs: seq<Expr>,
                                   Mo: Model<V>, M: Model<V>) {
    && Setting(S, M, ViewOf(S, M, src.sub, src.c2t), fs)
    && (forall d :: d in FunTables(src, cs) ==>
          Mo(d) == DenoteFun(FuncInterp(FunTables(src, cs)[d], S.someValue(d.range))))
    && (forall A :: A in ArrTables(src, cs) && A in Consumed(SubAll(fs)) ==>
          Eval(S, Mo, A) == DenoteArr(S, SortOf(A), ArrTables(src, cs)[A]))
  }

  /** A listed term takes the value of its constant. */
  lemma ListedRealized<V(!new)>(S: Structure<V>, src: Source<V>, cs: seq<Decl>, fs: seq<Expr>, Mo: Model<V>,
                                M: Model<V>, m: PartialModel<V>, t: Expr)
    requires Matches(S, src, m, cs, fs, Mo, M) && t in src.sub && src.sub[t].decl in cs
    requires SameTables(S, M, src, cs)
    ensures RealizedAt(S, Mo, M, src.sub, SubAll(fs), t)
  {
    var src' := ViewOf(S, M, src.sub, src.c2t);
    ListedGiven(S, M, src', SubAll(fs), cs, t);
    if t in CollectedFuns(SubAll(fs)) {
      FunRealizedIff(S, M, src', fs, cs, t);
      ListedFunTable(S, M, src', fs, cs, t);
    } else {
      SelectRealizedIff(S, M, src', fs, cs, t);
      ListedArrTable(S, M, src', fs, cs, t);
    }
  }

  lemma ListedFunTable<V(!new)>(S: Structure<V>, M: Model<V>, src: Source<V>, fs: seq<Expr>, cs: seq<Decl>, t: Expr)
    requires Input(fs) && Abstracts(src.sub, SubAll(fs)) && Inverse(src.sub, src.c2t)
    requires t in CollectedFuns(SubAll(fs)) && src.sub[t].decl in cs
    ensures t.decl in FunTables(src, cs)
    ensures Converted(S, M, src, cs)(t.decl)
            == DenoteFun(FuncInterp(FunTables(src, cs)[t.decl], S.someValue(t.decl.range)))
  {
    assert Tabulates(src, src.sub[t].decl, false);
    FunTablesKeys(src, cs, t.decl);
  }

  lemma ListedArrTable<V(!new)>(S: Structure<V>, M: Model<V>, src: Source<V>, fs: seq<Expr>, cs: seq<Decl>, t: Expr)
    requires Input(fs) && Abstracts(src.sub, SubAll(fs)) && Inverse(src.sub, src.c2t)
    requires t in CollectedSels(SubAll(fs)) && src.sub[t].decl in cs
    ensures t.args[0] in ArrTables(src, cs) && t.args[0] in Consumed(SubAll(fs))
    ensures Eval(S, Converted(S, M, src, cs), t.args[0])
            == DenoteArr(S, SortOf(t.args[0]), ArrTables(src, cs)[t.args[0]])
  {
    assert Tabulates(src, src.sub[t].decl, true);
    ArrTablesDefault(src, cs, t.args[0]);
    ConsumedIsConst(fs, t.args[0]);
    ConstNotAFunction(src, fs, cs, t.args[0]);
    ConvertedArray(S, M, src, cs, t.args[0]);
  }

  lemma ResultMatches<V(!new)>(S: Structure<V>, src: Source<V>, m0: PartialModel<V>, m: PartialModel<V>, cs: seq<Decl>,
                               fs: seq<Expr>, M: Model<V>)
    requires Setting(S, M, ViewOf(S, M, src.sub, src.c2t), fs) && ArrayConsts(ArrTables(src, cs))
    ensures Matches(S, src, m, cs, fs, Result(S, src, m0, m, cs), M)
  {
    var Mo := Result(S, src, m0, m, cs);
    forall d | d in FunTables(src, cs)
      ensures Mo(d) == DenoteFun(FuncInterp(FunTables(src, cs)[d], S.someValue(d.range)))
    {
      TabulatedFun(S, src, m0, m, cs, fs, d);
    }
    forall A | A in ArrTables(src, cs) && A in Consumed(SubAll(fs))
      ensures Eval(S, Mo, A) == DenoteArr(S, SortOf(A), ArrTables(src, cs)[A])
    {
      TabulatedArray(S, src, m0, m, cs, fs, A);
    }
  }

  lemma TabulatedFun<V(!new)>(S: Structure<V>, src: Source<V>, m0: PartialModel<V>, m: PartialModel<V>, cs: seq<Decl>,
                              fs: seq<Expr>, d: Decl)
    requires Input(fs) && Abstracts(src.sub, SubAll(fs)) && Inverse(src.sub, src.c2t)
    requires ArrayConsts(ArrTables(src, cs)) && d in FunTables(src, cs)
    ensures Result(S, src, m0, m, cs)(d) == DenoteFun(FuncInterp(FunTables(src, cs)[d], S.someValue(d.range)))
  {
    TableShapes(src, fs, cs, d);
  }

  lemma TabulatedArray<V(!new)>(S: Structure<V>, src: Source<V>, m0: PartialModel<V>, m: PartialModel<V>, cs: seq<Decl>,
                                fs: seq<Expr>, A: Expr)
    requires Input(fs) && Abstracts(src.sub, SubAll(fs)) && Inverse(src.sub, src.c2t)
    requires ArrayConsts(ArrTables(src, cs)) && A in ArrTables(src, cs) && A in Consumed(SubAll(fs))
    ensures Eval(S, Result(S, src, m0, m, cs), A) == DenoteArr(S, SortOf(A), ArrTables(src, cs)[A])
  {
    ConsumedIsConst(fs, A);
    InputDeclKept(src.sub, src.c2t, SubAll(fs), A);
    ConstNotAFunction(src, fs, cs, A);
    ConvertedInterp(S, src, Seen(m0, m), cs, fs, A.decl);
    ConvertedArray(S, Total(S, Seen(m0, m)), src, cs, A);
    ConstantEval(S, Result(S, src, m0, m, cs), A);
    ConstantEval(S, Converted(S, Total(S, Seen(m0, m)), src, cs), A);
  }

  lemma UntouchedSame<V(!new)>(S: Structure<V>, src: Source<V>, m0: PartialModel<V>, m: PartialModel<V>, cs: seq<Decl>,
                               fs: seq<Expr>, d: Decl)
    requires Input(fs) && Abstracts(src.sub, SubAll(fs)) && Inverse(src.sub, src.c2t) && ArrayConsts(ArrTables(src, cs))
    requires Grows(S, m0, m) && WellFormedModel(S, m) && Untouched(src.sub, SubAll(fs), d)
    ensures Result(S, src, m0, m, cs)(d) == Matching(S, src, m0, m, cs)(d)
  {
    UntouchedKept(src.sub, src.c2t, SubAll(fs), d);
    if d in m.consts || d in m.funs {
      UntouchedNotTabulated(src, fs, cs, d);
      ConvertedInterp(S, src, Seen(m0, m), cs, fs, d);
      SeenGrows(S, m0, m);
      GrowsTotal(S, Seen(m0, m), m, d);
      assert Total(S, m)(d) == DeclInterp(S, m, d);
    }
  }

  lemma ListedAgrees<V(!new)>(S: Structure<V>, src: Source<V>, m: PartialModel<V>, cs: seq<Decl>, fs: seq<Expr>,
                              Mo: Model<V>, M: Model<V>, t: Expr)
    requires Matches(S, src, m, cs, fs, Mo, M) && t in src.sub && src.sub[t].decl in cs
    requires SameTables(S, M, src, cs)
    requires forall x :: x in t.args && x !in Consumed(SubAll(fs)) ==> Agrees(S, Mo, M, src.sub, x)
    ensures Agrees(S, Mo, M, src.sub, t)
  {
    ListedRealized(S, src, cs, fs, Mo, M, m, t);
    CollectedAgrees(S, Mo, M, src.sub, fs, t);
  }

  /** A collected term agrees once its arguments do: a listed one by the tables, an
      unlisted one because its constant is completed so. */
  lemma CollectedMatches<V(!new)>(S: Structure<V>, src: Source<V>, m0: PartialModel<V>, m: PartialModel<V>,
                                  cs: seq<Decl>, fs: seq<Expr>, t: Expr)
    requires WellFormedModel(S, m) && (forall c :: c in cs <==> c in m.consts) && t in src.sub
    requires ArrayConsts(ArrTables(src, cs)) && SameTables(S, Matching(S, src, m0, m, cs), src, cs)
    requires Matches(S, src, m, cs, fs, Result(S, src, m0, m, cs), Matching(S, src, m0, m, cs))
    requires forall x :: x in t.args && x !in Consumed(SubAll(fs)) ==>
               Agrees(S, Result(S, src, m0, m, cs), Matching(S, src, m0, m, cs), src.sub, x)
    ensures Agrees(S, Result(S, src, m0, m, cs), Matching(S, src, m0, m, cs), src.sub, t)
  {
    if src.sub[t].decl in cs {
      ListedAgrees(S, src, m, cs, fs, Result(S, src, m0, m, cs), Matching(S, src, m0, m, cs), t);
    } else {
      UnlistedMatches(S, src, m0, m, cs, t);
    }
  }

  lemma UnlistedMatches<V(!new)>(S: Structure<V>, src: Source<V>, m0: PartialModel<V>, m: PartialModel<V>,
                                 cs: seq<Decl>, t: Expr)
    requires IsAbstraction(src.sub) && Inverse(src.sub, src.c2t) && ArrayConsts(ArrTables(src, cs)) && t in src.sub
    requires WellFormedModel(S, m) && src.sub[t].decl !in m.consts
    ensures Agrees(S, Result(S, src, m0, m, cs), Matching(S, src, m0, m, cs), src.sub, t)
  {
    ConstantEval(S, Matching(S, src, m0, m, cs), src.sub[t]);
    assert src.sub[t].decl.domain == [] && src.sub[t].decl !in m.funs;
  }

  lemma MatchingSetting<V(!new)>(S: Structure<V>, src: Source<V>, m0: PartialModel<V>, m: PartialModel<V>,
                                 cs: seq<Decl>, fs: seq<Expr>, th: Theory, lemmas: seq<Expr>)
    requires Read(S, src, m0, m, cs, fs, th, lemmas) && ArrayConsts(ArrTables(src, cs))
    ensures var M := Matching(S, src, m0, m, cs);
            && SortedModel(S, Result(S, src, m0, m, cs)) && SortedModel(S, M) && Extends(M, m)
            && HoldAll(S, M, ReplaceAll(src.sub, fs)) && Setting(S, M, ViewOf(S, M, src.sub, src.c2t), fs)
  {
    var M := Matching(S, src, m0, m, cs);
    SeenSetting(S, src, m0, m, cs, fs, th, lemmas);
    ResultSorted(S, src, m0, m, cs, fs);
    GrowsWellFormed(S, m0, m);
    SupplySorted(S, m, src.sub, src.c2t, fs, Result(S, src, m0, m, cs));
    assert Extends(M, m0);
    SettingHolds(S, M, ViewOf(S, M, src.sub, src.c2t), fs, th, lemmas);
  }

  /** Main result: from every source that is a model of the abstraction and the lemmas
      whatever completes it, the converter builds a model of the input.  In one completion
      of the source every subterm of the input, other than an array constant that
      disappeared, has its value in the model that was built. */
  lemma ConversionSound<V(!new)>(S: Structure<V>, src: Source<V>, m0: PartialModel<V>, m: PartialModel<V>,
                                 cs: seq<Decl>, fs: seq<Expr>, th: Theory, lemmas: seq<Expr>)
    requires Read(S, src, m0, m, cs, fs, th, lemmas) && ArrayConsts(ArrTables(src, cs))
    ensures var Mo, M := Result(S, src, m0, m, cs), Matching(S, src, m0, m, cs);
            && SortedModel(S, M) && Extends(M, m0) && AllAgree(S, Mo, M, src.sub, SubAll(fs))
            && SortedModel(S, Mo) && HoldAll(S, Mo, fs)
  {
    var Mo, M := Result(S, src, m0, m, cs), Matching(S, src, m0, m, cs);
    var R := SubAll(fs);
    MatchingSetting(S, src, m0, m, cs, fs, th, lemmas);
    ResultMatches(S, src, m0, m, cs, fs, M);
    GrowsWellFormed(S, m0, m);
    TablesSettled(S, src, m0, m, cs, M);
    forall d | Untouched(src.sub, R, d) ensures Mo(d) == M(d) { UntouchedSame(S, src, m0, m, cs, fs, d); }
    forall a | a in R && a.App? && a !in Consumed(R)
               && forall x :: x in a.args && x !in Consumed(R) ==> Agrees(S, Mo, M, src.sub, x)
      ensures Agrees(S, Mo, M, src.sub, a)
    {
      if a in src.sub {
        CollectedMatches(S, src, m0, m, cs, fs, a);
      } else {
        UncollectedAgrees(S, Mo, M, src.sub, fs, a);
      }
    }
    StepwiseAgrees(S, Mo, M, src.sub, fs);
    assert Extends(M, m0);
  }

  lemma StepwiseAgrees<V(!new)>(S: Structure<V>, Mo: Model<V>, M: Model<V>, sub: Subst, fs: seq<Expr>)
    requires Input(fs) && IsAbstraction(sub) && Stepwise(S, Mo, M, sub, SubAll(fs))
    ensures AllAgree(S, Mo, M, sub, SubAll(fs)) && (HoldAll(S, Mo, fs) <==> HoldAll(S, M, ReplaceAll(sub, fs)))
  {
    forall e | e in SubAll(fs) && e !in Consumed(SubAll(fs)) ensures Agrees(S, Mo, M, sub, e) {
      SubtermsAgree(S, Mo, M, sub, fs, e);
    }
    FormulasAgree(S, Mo, M, sub, fs);
  }

  // ---------- the converter ----------

  /** Replaces a model of the abstraction by a model of the input. */
  method Apply<V(==, !new)>(S: Structure<V>, oracle: Evaluator<V>, md: ModelObject<V>, info: AckrInfo,
                            ghost fs: seq<Expr>, ghost th: Theory, ghost lemmas: seq<Expr>)
    returns (r: ModelObject<V>)
    requires StructureOk(S) && TheoryOk(S, th) && EvaluatorOk(S, oracle)
    requires info.Valid() && info.isSealed && Ackermannized(fs, info.t2c, info.c2t, th, lemmas)
    requires md.Valid() && Implicant(S, md.State(), ReplaceAll(info.t2c, fs) + lemmas)
    modifies md
    ensures fresh(r) && SortedModel(S, Total(S, r.State())) && HoldAll(S, Total(S, r.State()), fs)
    ensures exists M: Model<V> :: SortedModel(S, M) && Extends(M, old(md.State()))
                                  && AllAgree(S, Total(S, r.State()), M, info.t2c, SubAll(fs))
  {
    ghost var m0 := md.State();
    r := new ModelObject();
    ghost var src := Convert(S, oracle, md, info, r, fs);
    ConversionSound(S, src, m0, md.State(), md.decls, fs, th, lemmas);
    assert Total(S, r.State()) == Result(S, src, m0, md.State(), md.decls);
  }
}
