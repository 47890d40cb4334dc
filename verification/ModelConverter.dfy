/** The converter from a model of the abstraction to a model of the input. */
module ModelConverter {
  import opened Terms
  import opened AckrHelper
  import opened Abstraction
  import opened Congruence
  import opened Equisat
  import opened ModelTables
  import opened PartialModels
  import opened BackTranslate
  import opened Completion

  class ModelObject<V(==)> {
    var consts: map<Decl, V>
    var decls: seq<Decl>             // the constants in the order of their registration
    var funs: map<Decl, FuncInterp<V>>

    ghost predicate Valid()
      reads this
    {
      Distinct(decls) && forall c :: c in decls <==> c in consts
    }

    constructor ()
      ensures Valid() && consts == map[] && decls == [] && funs == map[]
    {
      consts, decls, funs := map[], [], map[];
    }

    function State(): PartialModel<V>
      reads this
    {
      PartialModel(consts, funs)
    }

    method RegisterConst(c: Decl, v: V)
      requires Valid()
      modifies this`consts, this`decls
      ensures Valid() && consts == old(consts)[c := v]
      ensures decls == if c in old(consts) then old(decls) else old(decls) + [c]
    {
      if c !in consts { decls := decls + [c]; }
      consts := consts[c := v];
    }

    method RegisterFun(f: Decl, fi: FuncInterp<V>)
      modifies this`funs
      ensures funs == old(funs)[f := fi]
    {
      funs := funs[f := fi];
    }

    method CopyFuncInterps(source: ModelObject<V>)
      requires funs == map[] && source != this
      modifies this`funs
      ensures funs == source.funs
    {
      var rest := source.funs.Keys;
      while rest != {}
        invariant rest <= source.funs.Keys
        invariant funs.Keys == source.funs.Keys - rest && forall f :: f in funs ==> funs[f] == source.funs[f]
        decreases rest
      {
        var f :| f in rest;
        RegisterFun(f, source.funs[f]);
        rest := rest - {f};
      }
    }
  }

  // ---------- evaluation with completion ----------

  /** Since `m0` the model has grown by defaults, of constants in `K` only. */
  ghost predicate Grown<V(!new)>(S: Structure<V>, m0: PartialModel<V>, model: ModelObject<V>, K: set<Decl>)
    reads model
  {
    && model.Valid() && WellFormedModel(S, model.State()) && Grows(S, m0, model.State())
    && forall c :: c in model.decls ==> c in K
  }

  /** In `m` the argument `a` has the value that `src` shows, whatever completes `m`. */
  ghost predicate Settled<V(!new)>(S: Structure<V>, m: PartialModel<V>, src: Source<V>, a: Expr) {
    Settles(S, m, Replace(src.sub, a), src.ev(Replace(src.sub, a)))
  }

  ghost predicate KeySettled<V(!new)>(S: Structure<V>, m: PartialModel<V>, src: Source<V>, t: Expr)
    requires Keyed(t)
  {
    forall i :: 0 <= i < |KeyArgs(t)| ==> Settled(S, m, src, KeyArgs(t)[i])
  }

  /** The evaluator can be asked for the abstraction of `a`. */
  ghost predicate Askable(sub: Subst, K: set<Decl>, a: Expr) {
    WellSorted(Replace(sub, a)) && NoQuantifier(Replace(sub, a)) && ConstsOf(Replace(sub, a)) <= K
  }

  ghost predicate Answered<V(!new)>(S: Structure<V>, m: PartialModel<V>, src: Source<V>, args: seq<Expr>, vs: seq<V>) {
    && |vs| == |args|
    && forall i :: 0 <= i < |args| ==> vs[i] == src.ev(Replace(src.sub, args[i])) && Settled(S, m, src, args[i])
  }

  lemma OneMoreAnswer<V(!new)>(S: Structure<V>, m: PartialModel<V>, m': PartialModel<V>, src: Source<V>,
                               args: seq<Expr>, vs: seq<V>, a: Expr, v: V)
    requires Grows(S, m, m') && Answered(S, m, src, args, vs)
    requires v == src.ev(Replace(src.sub, a)) && Settled(S, m', src, a)
    ensures Answered(S, m', src, args + [a], vs + [v])
  {
    forall i | 0 <= i < |args| ensures Settled(S, m', src, args[i]) {
      SettlesStill(S, m, m', Replace(src.sub, args[i]), src.ev(Replace(src.sub, args[i])));
    }
  }

  class ModelEvaluator<V(==, !new)> {
    const S: Structure<V>
    const oracle: Evaluator<V>
    const model: ModelObject<V>

    constructor (S: Structure<V>, oracle: Evaluator<V>, model: ModelObject<V>)
      ensures this.S == S && this.oracle == oracle && this.model == model
    {
      this.S, this.oracle, this.model := S, oracle, model;
    }

    /** The value of `e`; what the evaluator completes is registered in the model. */
    method Evaluate(e: Expr) returns (v: V)
      requires model.Valid() && EvaluatesRight(S, oracle, model.State(), e)
      modifies model
      ensures model.Valid() && v == oracle(old(model.State()), e).value
      ensures model.State() == Completed(S, old(model.State()), oracle(old(model.State()), e))
      ensures model.decls == old(model.decls) + oracle(old(model.State()), e).consts
    {
      var r := oracle(model.State(), e);
      RegisterConsts(r.consts);
      RegisterDefaults(r.funs);
      v := r.value;
    }

    method RegisterConsts(cs: seq<Decl>)
      requires model.Valid() && Distinct(cs) && forall c :: c in cs ==> c !in model.consts
      modifies model`consts, model`decls
      ensures model.Valid() && model.consts == AddConsts(S, old(model.consts), cs)
      ensures model.decls == old(model.decls) + cs
    {
      for i := 0 to |cs|
        invariant model.Valid() && model.consts == AddConsts(S, old(model.consts), cs[..i])
        invariant model.decls == old(model.decls) + cs[..i]
      {
        TakeMore(cs, i);
        AddConstsAre(S, old(model.consts), cs[..i]);
        model.RegisterConst(cs[i], S.someValue(cs[i].range));
      }
      TakeAll(cs);
    }

    method RegisterDefaults(fs: seq<Decl>)
      modifies model`funs
      ensures model.funs == AddFuns(S, old(model.funs), fs)
    {
      for i := 0 to |fs|
        invariant model.funs == AddFuns(S, old(model.funs), fs[..i])
      {
        assert fs[..i + 1][..i] == fs[..i];
        model.RegisterFun(fs[i], Default(S, fs[i]));
      }
      assert fs[..|fs|] == fs;
    }

    /** What holds before and after each question. */
    ghost predicate Ready(m0: PartialModel<V>, K: set<Decl>)
      reads model
    {
      SortsOk(S) && EvaluatorOk(S, oracle) && WellFormedModel(S, m0) && Grown(S, m0, model, K)
    }

    lemma Asked(m0: PartialModel<V>, K: set<Decl>, m: PartialModel<V>, e: Expr)
      requires SortsOk(S) && EvaluatorOk(S, oracle) && WellFormedModel(S, m0) && WellFormedModel(S, m)
      requires Grows(S, m0, m)
      requires WellSorted(e) && NoQuantifier(e)
      ensures EvaluatesRight(S, oracle, m, e)
      ensures var r := oracle(m, e); var m' := Completed(S, m, r);
              && Grows(S, m, m') && Grows(S, m0, m') && WellFormedModel(S, m')
              && r.value == Eval(S, Total(S, m0), e) && Settles(S, m', e, r.value)
    {
      assert EvaluatesRight(S, oracle, m, e);
      var r := oracle(m, e);
      var m' := Completed(S, m, r);
      CompletedGrows(S, m, e, r);
      GrowsTransitive(S, m0, m, m');
      GrowsWellFormed(S, m, m');
      SettledValue(S, m0, m', e, r.value);
    }

    /** Asks for the abstraction of an argument: its value in the completed source, which is
        settled from now on. */
    method Ask(a: Expr, info: AckrInfo, ghost m0: PartialModel<V>, ghost K: set<Decl>, ghost src: Source<V>)
      returns (v: V)
      requires Ready(m0, K) && info.Valid() && info.isSealed && Askable(info.t2c, K, a)
      requires src == ViewOf(S, Total(S, m0), info.t2c, info.c2t)
      modifies model
      ensures Ready(m0, K) && Grows(S, old(model.State()), model.State()) && old(model.decls) <= model.decls
      ensures v == src.ev(Replace(src.sub, a)) && Settled(S, model.State(), src, a)
    {
      var e := info.Abstract(a);
      Asked(m0, K, model.State(), e);
      v := Evaluate(e);
    }

    method AskAll(args: seq<Expr>, info: AckrInfo, ghost m0: PartialModel<V>, ghost K: set<Decl>, ghost src: Source<V>)
      returns (vs: seq<V>)
      requires Ready(m0, K) && info.Valid() && info.isSealed && forall a :: a in args ==> Askable(info.t2c, K, a)
      requires src == ViewOf(S, Total(S, m0), info.t2c, info.c2t)
      modifies model
      ensures Ready(m0, K) && Grows(S, old(model.State()), model.State()) && old(model.decls) <= model.decls
      ensures Answered(S, model.State(), src, args, vs)
    {
      vs := [];
      for i := 0 to |args|
        invariant Ready(m0, K) && Grows(S, old(model.State()), model.State()) && old(model.decls) <= model.decls
        invariant Answered(S, model.State(), src, args[..i], vs)
      {
        ghost var before := model.State();
        assert args[i] in args;
        var v := Ask(args[i], info, m0, K, src);
        OneMoreAnswer(S, before, model.State(), src, args[..i], vs, args[i], v);
        TakeMore(args, i);
        GrowsTransitive(S, old(model.State()), before, model.State());
        vs := vs + [v];
      }
      TakeAll(args);
    }
  }

  // ---------- one constant ----------

  lemma TablesAppend<V>(src: Source<V>, cs: seq<Decl>, c: Decl)
    ensures FunTables(src, cs + [c]) == if Tabulates(src, c, false)
            then AddFun(src, FunTables(src, cs), src.c2t[c], src.val(c)) else FunTables(src, cs)
    ensures ArrTables(src, cs + [c]) == if Tabulates(src, c, true)
            then AddArr(src, ArrTables(src, cs), src.c2t[c], src.val(c)) else ArrTables(src, cs)
  {
    assert (cs + [c])[..|cs|] == cs;
  }

  /** A select on an array that has a table already, with another value than its default. */
  ghost predicate StoredAfter<V(!new)>(src: Source<V>, cs: seq<Decl>, c: Decl)
    requires Tabulates(src, c, true)
  {
    var A := src.c2t[c].args[0];
    A in ArrTables(src, cs) && DefaultOf(ArrTables(src, cs)[A]) != src.val(c)
  }

  /** The keys that are evaluated for the constant at `j`, after those before it. */
  ghost predicate KeysSettledAt<V(!new)>(S: Structure<V>, m: PartialModel<V>, src: Source<V>, cs: seq<Decl>, j: nat)
    requires j < |cs|
  {
    && (Tabulates(src, cs[j], false) ==> KeySettled(S, m, src, src.c2t[cs[j]]))
    && (Tabulates(src, cs[j], true) && StoredAfter(src, cs[..j], cs[j]) ==> KeySettled(S, m, src, src.c2t[cs[j]]))
  }

  /** Every key that is evaluated for the constants `cs` is settled in `m`. */
  ghost predicate KeysSettled<V(!new)>(S: Structure<V>, m: PartialModel<V>, src: Source<V>, cs: seq<Decl>) {
    forall j: nat :: j < |cs| ==> KeysSettledAt(S, m, src, cs, j)
  }

  lemma KeyStaysSettled<V(!new)>(S: Structure<V>, m: PartialModel<V>, m': PartialModel<V>, src: Source<V>, t: Expr)
    requires Grows(S, m, m') && Keyed(t) && KeySettled(S, m, src, t)
    ensures KeySettled(S, m', src, t)
  {
    forall i | 0 <= i < |KeyArgs(t)| ensures Settled(S, m', src, KeyArgs(t)[i]) {
      assert Settled(S, m, src, KeyArgs(t)[i]);
      SettlesStill(S, m, m', Replace(src.sub, KeyArgs(t)[i]), src.ev(Replace(src.sub, KeyArgs(t)[i])));
    }
  }

  lemma KeysSettledMore<V(!new)>(S: Structure<V>, m: PartialModel<V>, m': PartialModel<V>, src: Source<V>,
                                 cs: seq<Decl>, c: Decl)
    requires Grows(S, m, m') && KeysSettled(S, m, src, cs)
    requires Tabulates(src, c, false) ==> KeySettled(S, m', src, src.c2t[c])
    requires Tabulates(src, c, true) && StoredAfter(src, cs, c) ==> KeySettled(S, m', src, src.c2t[c])
    ensures KeysSettled(S, m', src, cs + [c])
  {
    var all := cs + [c];
    forall j: nat | j < |all| ensures KeysSettledAt(S, m', src, all, j) {
      if j < |cs| {
        assert all[j] == cs[j] && all[..j] == cs[..j];
        assert KeysSettledAt(S, m, src, cs, j);
        if c' :| c' == cs[j] && (Tabulates(src, c', false)
                                 || (Tabulates(src, c', true) && StoredAfter(src, cs[..j], c'))) {
          KeyStaysSettled(S, m, m', src, src.c2t[c']);
        }
      } else {
        assert all[j] == c && all[..j] == cs;
      }
    }
  }

  /** Every term has a key, and the evaluator can be asked for it. */
  ghost predicate AllAskable(sub: Subst, K: set<Decl>) {
    forall t :: t in sub ==> Keyed(t) && forall a :: a in KeyArgs(t) ==> Askable(sub, K, a)
  }

  /** The evaluator can be asked for the keys of all terms, and `src` shows its model. */
  ghost predicate Serves<V(!new)>(ev: ModelEvaluator<V>, info: AckrInfo, m0: PartialModel<V>, K: set<Decl>,
                                  src: Source<V>)
    reads ev.model, info
  {
    && ev.Ready(m0, K) && info.Valid() && info.isSealed && src == ViewOf(ev.S, Total(ev.S, m0), info.t2c, info.c2t)
    && AllAskable(info.t2c, K)
  }

  lemma AnsweredIsKey<V(!new)>(S: Structure<V>, m: PartialModel<V>, src: Source<V>, t: Expr, vs: seq<V>)
    requires Keyed(t) && Answered(S, m, src, KeyArgs(t), vs)
    ensures vs == Key(src, t) && KeySettled(S, m, src, t)
  {
  }

  /** The evaluated key of a term. */
  method AskKey<V(==, !new)>(ev: ModelEvaluator<V>, info: AckrInfo, term: Expr, args: seq<Expr>,
                             ghost m0: PartialModel<V>, ghost K: set<Decl>, ghost src: Source<V>) returns (vs: seq<V>)
    requires Serves(ev, info, m0, K, src) && term in info.t2c && Keyed(term) && args == KeyArgs(term)
    modifies ev.model
    ensures Serves(ev, info, m0, K, src)
    ensures Grows(ev.S, old(ev.model.State()), ev.model.State()) && old(ev.model.decls) <= ev.model.decls
    ensures vs == Key(src, term) && KeySettled(ev.S, ev.model.State(), src, term)
  {
    vs := ev.AskAll(args, info, m0, K, src);
    AnsweredIsKey(ev.S, ev.model.State(), src, term, vs);
  }

  lemma EntryAdded<V(!new)>(src: Source<V>, m: FunTable<V>, r: FunTable<V>, t: Expr, value: V)
    requires FunApp(t) && r == if t.decl in m then m else m[t.decl := map[]]
    ensures AddFun(src, m, t, value)
            == if Key(src, t) in r[t.decl] then r else r[t.decl := r[t.decl][Key(src, t) := value]]
  {
  }

  method AddFunEntry<V(==, !new)>(ev: ModelEvaluator<V>, info: AckrInfo, term: Expr, value: V,
                                  interpretations: FunTable<V>, ghost m0: PartialModel<V>, ghost K: set<Decl>,
                                  ghost src: Source<V>) returns (r: FunTable<V>)
    requires Serves(ev, info, m0, K, src) && term in info.t2c && FunApp(term)
    modifies ev.model
    ensures Serves(ev, info, m0, K, src)
    ensures Grows(ev.S, old(ev.model.State()), ev.model.State()) && old(ev.model.decls) <= ev.model.decls
    ensures r == AddFun(src, interpretations, term, value) && KeySettled(ev.S, ev.model.State(), src, term)
  {
    r := interpretations;
    if term.decl !in r { r := r[term.decl := map[]]; }
    var args := AskKey(ev, info, term, term.args, m0, K, src);
    EntryAdded(src, interpretations, r, term, value);
    if args !in r[term.decl] {
      r := r[term.decl := r[term.decl][args := value]];
    }
  }

  method AddArrEntry<V(==, !new)>(ev: ModelEvaluator<V>, info: AckrInfo, term: Expr, value: V,
                                  interpretations: ArrTable<V>, ghost m0: PartialModel<V>, ghost K: set<Decl>,
                                  ghost src: Source<V>) returns (r: ArrTable<V>)
    requires Serves(ev, info, m0, K, src) && term in info.t2c && IsSelect(term)
    modifies ev.model
    ensures Serves(ev, info, m0, K, src)
    ensures Grows(ev.S, old(ev.model.State()), ev.model.State()) && old(ev.model.decls) <= ev.model.decls
    ensures r == AddArr(src, interpretations, term, value)
    ensures term.args[0] in interpretations && DefaultOf(interpretations[term.args[0]]) != value ==>
              KeySettled(ev.S, ev.model.State(), src, term)
  {
    var A := term.args[0];
    r := interpretations;
    if A !in r {
      r := r[A := ConstArr(value)];
    } else {
      var c := DefaultTerm(r[A]);
      if c.v != value {
        var args := AskKey(ev, info, term, term.args[1..], m0, K, src);
        r := r[A := Store(r[A], args, value)];
      }
    }
  }

  /** The constant array below the stores. */
  method DefaultTerm<V>(e: ArrExpr<V>) returns (c: ArrExpr<V>)
    ensures c.ConstArr? && c.v == DefaultOf(e)
  {
    c := e;
    while c.Store?
      invariant DefaultOf(c) == DefaultOf(e)
      decreases c
    {
      c := c.base;
    }
  }

  /** The value of a listed constant is what the view shows. */
  lemma ShownValue<V(!new)>(S: Structure<V>, m0: PartialModel<V>, m: PartialModel<V>, sub: Subst,
                            c2t: map<Decl, Expr>, c: Decl)
    requires Grows(S, m0, m) && WellFormedModel(S, m) && c in m.consts
    ensures ViewOf(S, Total(S, m0), sub, c2t).val(c) == m.consts[c]
  {
    GrowsTotal(S, m0, m, c);
    assert Total(S, m)(c) == DeclInterp(S, m, c);
  }

  lemma FoundTerm(info: AckrInfo, c: Decl)
    requires info.Valid()
    ensures info.FindTerm(c) == if c in info.c2t then Some(info.c2t[c]) else None
    ensures c in info.c2t ==> info.c2t[c] in info.t2c
  {
  }

  /** The tables after the entry for a term whose constant has the value `value`.  The key is
      settled unless an array drops the entry or takes its default from it. */
  ghost predicate TermRecorded<V(!new)>(S: Structure<V>, m: PartialModel<V>, src: Source<V>, term: Expr, value: V,
                                        funs: FunTable<V>, arrs: ArrTable<V>, funs': FunTable<V>, arrs': ArrTable<V>)
    requires Keyed(term)
  {
    if IsSelect(term) then
      && funs' == funs && arrs' == AddArr(src, arrs, term, value)
      && (term.args[0] in arrs && DefaultOf(arrs[term.args[0]]) != value ==> KeySettled(S, m, src, term))
    else
      funs' == AddFun(src, funs, term, value) && arrs' == arrs && KeySettled(S, m, src, term)
  }

  /** The tables after the constant `c`. */
  ghost predicate Recorded<V(!new)>(S: Structure<V>, m: PartialModel<V>, src: Source<V>, c: Decl, funs: FunTable<V>,
                                    arrs: ArrTable<V>, funs': FunTable<V>, arrs': ArrTable<V>) {
    if c in src.c2t
    then Keyed(src.c2t[c]) && TermRecorded(S, m, src, src.c2t[c], src.val(c), funs, arrs, funs', arrs')
    else funs' == funs && arrs' == arrs
  }

  method Tabulate<V(==, !new)>(ev: ModelEvaluator<V>, term: Expr, value: V, info: AckrInfo, funs: FunTable<V>,
                               arrs: ArrTable<V>, ghost m0: PartialModel<V>, ghost K: set<Decl>, ghost src: Source<V>)
    returns (funs': FunTable<V>, arrs': ArrTable<V>)
    requires Serves(ev, info, m0, K, src) && term in info.t2c && Keyed(term)
    modifies ev.model
    ensures Serves(ev, info, m0, K, src)
    ensures Grows(ev.S, old(ev.model.State()), ev.model.State()) && old(ev.model.decls) <= ev.model.decls
    ensures TermRecorded(ev.S, ev.model.State(), src, term, value, funs, arrs, funs', arrs')
  {
    funs', arrs' := funs, arrs;
    if IsSelect(term) {
      arrs' := AddArrEntry(ev, info, term, value, arrs, m0, K, src);
    } else {
      funs' := AddFunEntry(ev, info, term, value, funs, m0, K, src);
    }
  }

  /** One constant: tabulated if it stands for a term, registered otherwise. */
  method ReadConstant<V(==, !new)>(ev: ModelEvaluator<V>, c: Decl, info: AckrInfo, destination: ModelObject<V>,
                                   funs: FunTable<V>, arrs: ArrTable<V>, ghost m0: PartialModel<V>, ghost K: set<Decl>,
                                   ghost src: Source<V>) returns (funs': FunTable<V>, arrs': ArrTable<V>)
    requires Serves(ev, info, m0, K, src) && c in ev.model.consts && destination.Valid() && destination != ev.model
    modifies ev.model, destination`consts, destination`decls
    ensures Serves(ev, info, m0, K, src) && destination.Valid()
    ensures Grows(ev.S, old(ev.model.State()), ev.model.State()) && old(ev.model.decls) <= ev.model.decls
    ensures Recorded(ev.S, ev.model.State(), src, c, funs, arrs, funs', arrs')
    ensures destination.consts == if c in src.c2t then old(destination.consts)
                                  else old(destination.consts)[c := old(ev.model.consts)[c]]
  {
    funs', arrs' := funs, arrs;
    ShownValue(ev.S, m0, ev.model.State(), info.t2c, info.c2t, c);
    var value := ev.model.consts[c];
    var term := info.FindTerm(c);
    FoundTerm(info, c);
    if term.None? {
      destination.RegisterConst(c, value);
    } else {
      funs', arrs' := Tabulate(ev, term.value, value, info, funs, arrs, m0, K, src);
    }
  }

  // ---------- all constants ----------

  /** What of `consts` has been copied after the constants `cs`. */
  ghost predicate Copied<V(!new)>(copy: map<Decl, V>, consts: map<Decl, V>, cs: seq<Decl>, c2t: map<Decl, Expr>) {
    && (forall c :: c in cs ==> c in consts)
    && (forall c :: c in copy <==> c in cs && c !in c2t)
    && (forall c :: c in copy ==> copy[c] == consts[c])
  }

  lemma CopiedMore<V(!new)>(copy: map<Decl, V>, copy': map<Decl, V>, consts: map<Decl, V>, consts': map<Decl, V>,
                            cs: seq<Decl>, c: Decl, c2t: map<Decl, Expr>)
    requires Copied(copy, consts, cs, c2t) && c in consts
    requires forall d :: d in consts ==> d in consts' && consts'[d] == consts[d]
    requires copy' == if c in c2t then copy else copy[c := consts[c]]
    ensures Copied(copy', consts', cs + [c], c2t)
  {
  }

  lemma CopiedAll<V(!new)>(copy: map<Decl, V>, consts: map<Decl, V>, cs: seq<Decl>, c2t: map<Decl, Expr>)
    requires Copied(copy, consts, cs, c2t) && forall c :: c in cs <==> c in consts
    ensures copy == consts - c2t.Keys
  {
  }

  /** After the first `i` constants: what they give is tabulated or copied, and the keys
      that were evaluated are settled. */
  ghost predicate ReadUpTo<V(!new)>(S: Structure<V>, m: PartialModel<V>, src: Source<V>, cs: seq<Decl>,
                                    funs: FunTable<V>, arrs: ArrTable<V>, copy: map<Decl, V>) {
    && funs == FunTables(src, cs) && arrs == ArrTables(src, cs)
    && KeysSettled(S, m, src, cs) && Copied(copy, m.consts, cs, src.c2t)
  }

  lemma ReadMore<V(!new)>(S: Structure<V>, m: PartialModel<V>, m': PartialModel<V>, src: Source<V>, cs: seq<Decl>,
                          c: Decl, funs: FunTable<V>, arrs: ArrTable<V>, copy: map<Decl, V>, funs': FunTable<V>,
                          arrs': ArrTable<V>, copy': map<Decl, V>)
    requires ReadUpTo(S, m, src, cs, funs, arrs, copy) && Grows(S, m, m') && c in m.consts
    requires Recorded(S, m', src, c, funs, arrs, funs', arrs')
    requires copy' == if c in src.c2t then copy else copy[c := m.consts[c]]
    ensures ReadUpTo(S, m', src, cs + [c], funs', arrs', copy')
  {
    TablesAppend(src, cs, c);
    KeysSettledMore(S, m, m', src, cs, c);
    CopiedMore(copy, copy', m.consts, m'.consts, cs, c, src.c2t);
  }

  method ReadNext<V(==, !new)>(ev: ModelEvaluator<V>, info: AckrInfo, destination: ModelObject<V>, funs: FunTable<V>,
                               arrs: ArrTable<V>, i: nat, ghost m0: PartialModel<V>, ghost K: set<Decl>,
                               ghost src: Source<V>) returns (funs': FunTable<V>, arrs': ArrTable<V>)
    requires Serves(ev, info, m0, K, src) && destination.Valid() && destination != ev.model && i < |ev.model.decls|
    requires ReadUpTo(ev.S, ev.model.State(), src, ev.model.decls[..i], funs, arrs, destination.consts)
    modifies ev.model, destination`consts, destination`decls
    ensures Serves(ev, info, m0, K, src) && destination.Valid() && i < |ev.model.decls|
    ensures ReadUpTo(ev.S, ev.model.State(), src, ev.model.decls[..i + 1], funs', arrs', destination.consts)
  {
    ghost var m, cs, copy := ev.model.State(), ev.model.decls, destination.consts;
    funs', arrs' := ReadConstant(ev, ev.model.decls[i], info, destination, funs, arrs, m0, K, src);
    ReadMore(ev.S, m, ev.model.State(), src, cs[..i], cs[i], funs, arrs, copy, funs', arrs', destination.consts);
    TakeMore(cs, i);
    TakePrefix(cs, ev.model.decls, i + 1);
  }

  lemma FewServed<V(!new)>(ev: ModelEvaluator<V>, info: AckrInfo, m0: PartialModel<V>, K: set<Decl>, src: Source<V>)
    requires Serves(ev, info, m0, K, src)
    ensures |ev.model.decls| <= |K|
  {
    DistinctFew(ev.model.decls, K);
  }

  /** Reads all constants, those included that the evaluator registers on the way. */
  method ConvertConstants<V(==, !new)>(ev: ModelEvaluator<V>, info: AckrInfo, destination: ModelObject<V>,
                                       ghost m0: PartialModel<V>, ghost K: set<Decl>, ghost src: Source<V>)
    returns (funs: FunTable<V>, arrs: ArrTable<V>)
    requires Serves(ev, info, m0, K, src) && destination.Valid() && destination != ev.model
    requires destination.consts == map[]
    modifies ev.model, destination`consts, destination`decls
    ensures Serves(ev, info, m0, K, src) && destination.Valid()
    ensures ReadUpTo(ev.S, ev.model.State(), src, ev.model.decls, funs, arrs, destination.consts)
  {
    funs, arrs := map[], map[];
    var i := 0;
    while i < |ev.model.decls|
      invariant Serves(ev, info, m0, K, src) && destination.Valid() && i <= |ev.model.decls|
      invariant ReadUpTo(ev.S, ev.model.State(), src, ev.model.decls[..i], funs, arrs, destination.consts)
      decreases |K| - i
    {
      FewServed(ev, info, m0, K, src);
      funs, arrs := ReadNext(ev, info, destination, funs, arrs, i, m0, K, src);
      i := i + 1;
    }
    TakeAll(ev.model.decls);
  }

  function ClosedTables<V(==)>(S: Structure<V>, tables: FunTable<V>): map<Decl, FuncInterp<V>> {
    map d | d in tables :: FuncInterp(tables[d], S.someValue(d.range))
  }

  lemma ClosedStep<V>(S: Structure<V>, m: map<Decl, FuncInterp<V>>, tables: FunTable<V>, d: Decl)
    requires d in tables
    ensures m[d := FuncInterp(tables[d], S.someValue(d.range))] + ClosedTables(S, tables - {d})
            == m + ClosedTables(S, tables)
  {
  }

  /** Closes each table with the default of its range and registers it. */
  method RegisterFuns<V(==)>(S: Structure<V>, tables: FunTable<V>, destination: ModelObject<V>)
    modifies destination`funs
    ensures destination.funs == old(destination.funs) + ClosedTables(S, tables)
  {
    var rest := tables;
    while rest.Keys != {}
      invariant rest.Keys <= tables.Keys && (forall d :: d in rest ==> rest[d] == tables[d])
      invariant destination.funs + ClosedTables(S, rest) == old(destination.funs) + ClosedTables(S, tables)
      decreases |rest|
    {
      var d :| d in rest;
      ClosedStep(S, destination.funs, rest, d);
      destination.RegisterFun(d, FuncInterp(rest[d], S.someValue(d.range)));
      rest := rest - {d};
    }
  }

  predicate ArrayConsts<V>(arrs: ArrTable<V>) {
    forall A :: A in arrs ==> A.App? && A == App(A.decl, [])
  }

  function ArrDecls<V>(arrs: ArrTable<V>): (ds: set<Decl>)
    requires ArrayConsts(arrs)
    ensures forall c :: c in ds <==> App(c, []) in arrs
  {
    set A | A in arrs :: A.decl
  }

  function ConstOf<V(==)>(S: Structure<V>, arrs: ArrTable<V>): map<Decl, V>
    requires ArrayConsts(arrs)
  {
    map c | c in ArrDecls(arrs) :: DenoteArr(S, c.range, arrs[App(c, [])])
  }

  lemma ConstStep<V>(S: Structure<V>, m: map<Decl, V>, arrs: ArrTable<V>, A: Expr)
    requires A in arrs && ArrayConsts(arrs)
    ensures m[A.decl := DenoteArr(S, A.decl.range, arrs[A])] + ConstOf(S, arrs - {A}) == m + ConstOf(S, arrs)
  {
    var l, r := m[A.decl := DenoteArr(S, A.decl.range, arrs[A])] + ConstOf(S, arrs - {A}), m + ConstOf(S, arrs);
    assert ConstOf(S, arrs).Keys == ConstOf(S, arrs - {A}).Keys + {A.decl};
    forall c | c in r ensures l[c] == r[c] {
      if c in ConstOf(S, arrs - {A}) {
      } else if c == A.decl {
        assert A == App(c, []);
      }
    }
  }

  method RegisterArrays<V(==)>(S: Structure<V>, arrs: ArrTable<V>, destination: ModelObject<V>)
    requires ArrayConsts(arrs) && destination.Valid()
    modifies destination`consts, destination`decls
    ensures destination.Valid() && destination.consts == old(destination.consts) + ConstOf(S, arrs)
  {
    var rest := arrs;
    while rest.Keys != {}
      invariant rest.Keys <= arrs.Keys && (forall A :: A in rest ==> rest[A] == arrs[A])
      invariant destination.Valid()
      invariant destination.consts + ConstOf(S, rest) == old(destination.consts) + ConstOf(S, arrs)
      decreases |rest|
    {
      var A :| A in rest;
      ConstStep(S, destination.consts, rest, A);
      destination.RegisterConst(A.decl, DenoteArr(S, A.decl.range, rest[A]));
      rest := rest - {A};
    }
  }

  // ---------- the whole conversion ----------

  function ConvertedModel<V(==)>(S: Structure<V>, src: Source<V>, source: PartialModel<V>,
                                 cs: seq<Decl>): PartialModel<V>
    requires ArrayConsts(ArrTables(src, cs))
  {
    PartialModel(source.consts - src.c2t.Keys + ConstOf(S, ArrTables(src, cs)),
                 source.funs + ClosedTables(S, FunTables(src, cs)))
  }

  /** The converted model, symbol by symbol: tables with the default of the range, other
      functions as in the source, arrays by their stores, other constants as in the source
      unless they stand for a term. */
  lemma ConvertedModelIs<V(!new)>(S: Structure<V>, src: Source<V>, source: PartialModel<V>, cs: seq<Decl>, d: Decl)
    requires ArrayConsts(ArrTables(src, cs))
    ensures var r, funs, arrs := ConvertedModel(S, src, source, cs), FunTables(src, cs), ArrTables(src, cs);
            && (d in funs ==> d in r.funs && r.funs[d].entries == funs[d] && r.funs[d].els == S.someValue(d.range))
            && (d !in funs ==> (d in r.funs <==> d in source.funs))
            && (d !in funs && d in source.funs ==> r.funs[d] == source.funs[d])
            && (App(d, []) in arrs ==> d in r.consts && r.consts[d] == DenoteArr(S, d.range, arrs[App(d, [])]))
            && (App(d, []) !in arrs ==> (d in r.consts <==> d in source.consts && d !in src.c2t))
            && (App(d, []) !in arrs && d in source.consts && d !in src.c2t ==> r.consts[d] == source.consts[d])
  {
  }

  lemma {:induction false} TablesKeyedByConsts<V>(src: Source<V>, cs: seq<Decl>)
    ensures ArrayConsts(ArrTables(src, cs))
  {
    if cs != [] { TablesKeyedByConsts(src, cs[..|cs| - 1]); }
  }

  /** The constants of the abstracted arguments. */
  ghost function KeyConsts(sub: Subst): set<Decl> {
    set t, a, c | t in sub && Keyed(t) && a in KeyArgs(t) && c in ConstsOf(Replace(sub, a)) :: c
  }

  lemma KeyArgAskable(fs: seq<Expr>, sub: Subst, t: Expr, a: Expr)
    requires Input(fs) && Abstracts(sub, SubAll(fs)) && t in sub && Keyed(t) && a in KeyArgs(t)
    ensures Askable(sub, KeyConsts(sub), a)
  {
    var i :| 0 <= i < |KeyArgs(t)| && KeyArgs(t)[i] == a;
    KeyArgNotConsumed(fs, t, i);
    var k :| 0 <= k < |t.args| && t.args[k] == a;
    ArgInSubAll(t, k, fs);
    ReachWellSorted(fs, a);
    ReplaceSorted(sub, a);
    ReplaceNoQuantifier(sub, a);
    assert ConstsOf(Replace(sub, a)) <= KeyConsts(sub);
  }

  lemma KeysAskable(fs: seq<Expr>, sub: Subst, K: set<Decl>)
    requires Input(fs) && Abstracts(sub, SubAll(fs)) && KeyConsts(sub) <= K
    ensures AllAskable(sub, K)
  {
    forall t, a | t in sub && Keyed(t) && a in KeyArgs(t) ensures Askable(sub, K, a) { KeyArgAskable(fs, sub, t, a); }
  }

  /** Fills an empty model.  The source has grown in the end: its constants are those that
      were visited, in this order. */
  method Convert<V(==, !new)>(S: Structure<V>, oracle: Evaluator<V>, source: ModelObject<V>, info: AckrInfo,
                              destination: ModelObject<V>, ghost fs: seq<Expr>) returns (ghost src: Source<V>)
    requires SortsOk(S) && EvaluatorOk(S, oracle) && WellFormedModel(S, source.State()) && source.Valid()
    requires info.Valid() && info.isSealed && Input(fs) && Abstracts(info.t2c, SubAll(fs))
    requires destination.Valid() && destination.consts == map[] && destination.funs == map[] && destination != source
    modifies source, destination
    ensures src == ViewOf(S, Total(S, old(source.State())), info.t2c, info.c2t)
    ensures source.Valid() && Grows(S, old(source.State()), source.State())
    ensures KeysSettled(S, source.State(), src, source.decls) && ArrayConsts(ArrTables(src, source.decls))
    ensures destination.State()
            == ConvertedModel(S, src, PartialModel(source.consts, old(source.funs)), source.decls)
  {
    ghost var m0 := source.State();
    ghost var K := source.consts.Keys + KeyConsts(info.t2c);
    src := ViewOf(S, Total(S, m0), info.t2c, info.c2t);
    destination.CopyFuncInterps(source);
    var ev := new ModelEvaluator(S, oracle, source);
    KeysAskable(fs, info.t2c, K);
    var funs, arrs := ConvertConstants(ev, info, destination, m0, K, src);
    CopiedAll(destination.consts, source.consts, source.decls, info.c2t);
    TablesKeyedByConsts(src, source.decls);
    RegisterFuns(S, funs, destination);
    RegisterArrays(S, arrs, destination);
  }

  lemma TableShapes<V(!new)>(src: Source<V>, fs: seq<Expr>, cs: seq<Decl>, d: Decl)
    requires Input(fs) && Abstracts(src.sub, SubAll(fs)) && Inverse(src.sub, src.c2t)
    ensures d in FunTables(src, cs) ==> d.domain != [] && App(d, []) !in ArrTables(src, cs)
    ensures App(d, []) in ArrTables(src, cs) ==> d.domain == []
  {
    if d in FunTables(src, cs) { FunTableShape(src, fs, cs, d); }
    if App(d, []) in ArrTables(src, cs) { ArrTableShape(src, fs, cs, d); }
  }

  lemma FunTableShape<V(!new)>(src: Source<V>, fs: seq<Expr>, cs: seq<Decl>, d: Decl)
    requires Input(fs) && Abstracts(src.sub, SubAll(fs)) && Inverse(src.sub, src.c2t) && d in FunTables(src, cs)
    ensures d.domain != [] && App(d, []) !in ArrTables(src, cs)
  {
    FunTablesKeys(src, cs, d);
    var c :| c in cs && Tabulates(src, c, false) && src.c2t[c].decl == d;
    TabulatedCollected(src, SubAll(fs), c);
    ReachWellSorted(fs, src.c2t[c]);
    NotAnArray(src, fs, cs, src.c2t[c]);
  }

  lemma ArrTableShape<V(!new)>(src: Source<V>, fs: seq<Expr>, cs: seq<Decl>, d: Decl)
    requires Input(fs) && Abstracts(src.sub, SubAll(fs)) && Inverse(src.sub, src.c2t)
    requires App(d, []) in ArrTables(src, cs)
    ensures d.domain == []
  {
    ArrTablesDefault(src, cs, App(d, []));
    var c :| c in cs && Tabulates(src, c, true) && src.c2t[c].args[0] == App(d, []);
    TabulatedCollected(src, SubAll(fs), c);
    ConsumedIsConst(fs, App(d, []));
  }

  /** The converted finite model interprets every symbol of the input as the overlay does. */
  lemma ConvertedInterp<V(!new)>(S: Structure<V>, src: Source<V>, source: PartialModel<V>, cs: seq<Decl>, fs: seq<Expr>,
                                 d: Decl)
    requires Input(fs) && Abstracts(src.sub, SubAll(fs)) && Inverse(src.sub, src.c2t)
    requires ArrayConsts(ArrTables(src, cs)) && d !in src.c2t
    ensures Total(S, ConvertedModel(S, src, source, cs))(d) == Converted(S, Total(S, source), src, cs)(d)
  {
    TableShapes(src, fs, cs, d);
  }

  lemma InputDeclKept(sub: Subst, c2t: map<Decl, Expr>, R: set<Expr>, a: Expr)
    requires Abstracts(sub, R) && Inverse(sub, c2t) && a in R && a.App?
    ensures a.decl !in c2t
  {
    forall c | c in c2t ensures c != a.decl { assert Apart(sub, c2t[c], a); }
  }

  lemma UntouchedKept(sub: Subst, c2t: map<Decl, Expr>, R: set<Expr>, d: Decl)
    requires IsAbstraction(sub) && Inverse(sub, c2t) && Untouched(sub, R, d)
    ensures d !in c2t
  {
    forall c | c in c2t ensures sub[c2t[c]].decl == c {}
  }

  /** Whether a model realizes the collected terms does not depend on the constants that
      stand for them. */
  lemma RealizesTransfer<V(!new)>(S: Structure<V>, Mo: Model<V>, Mc: Model<V>, M: Model<V>, sub: Subst,
                                  c2t: map<Decl, Expr>, fs: seq<Expr>)
    requires Input(fs) && Abstracts(sub, SubAll(fs)) && Inverse(sub, c2t) && forall d :: d !in c2t ==> Mo(d) == Mc(d)
    ensures SameUntouched(Mc, M, sub, SubAll(fs)) ==> SameUntouched(Mo, M, sub, SubAll(fs))
    ensures forall t :: t in sub ==>
              (RealizedAt(S, Mo, M, sub, SubAll(fs), t) <==> RealizedAt(S, Mc, M, sub, SubAll(fs), t))
  {
    var R := SubAll(fs);
    forall d | Untouched(sub, R, d) ensures Mo(d) == Mc(d) { UntouchedKept(sub, c2t, R, d); }
    forall t | t in CollectedFuns(R) ensures Mo(t.decl) == Mc(t.decl) { InputDeclKept(sub, c2t, R, t); }
    forall t | t in CollectedSels(R) ensures Eval(S, Mo, t.args[0]) == Eval(S, Mc, t.args[0]) {
      ConsumedIsConst(fs, t.args[0]);
      InputDeclKept(sub, c2t, R, t.args[0]);
      ConstantEval(S, Mo, t.args[0]);
      ConstantEval(S, Mc, t.args[0]);
    }
  }

  lemma ConverterRealizes<V(!new)>(S: Structure<V>, src: Source<V>, source: PartialModel<V>, cs: seq<Decl>,
                                   fs: seq<Expr>)
    requires Setting(S, Total(S, source), src, fs) && ArrayConsts(ArrTables(src, cs))
    ensures var Mo := Total(S, ConvertedModel(S, src, source, cs));
            && SameUntouched(Mo, Total(S, source), src.sub, SubAll(fs))
            && (Realizes(S, Mo, Total(S, source), src.sub, SubAll(fs))
                <==> AllGiven(S, Total(S, source), src, SubAll(fs), cs))
  {
    var M, Mo := Total(S, source), Total(S, ConvertedModel(S, src, source, cs));
    var Mc := Converted(S, M, src, cs);
    ConvertedRealizes(S, M, src, fs, cs);
    forall d | d !in src.c2t ensures Mo(d) == Mc(d) { ConvertedInterp(S, src, source, cs, fs, d); }
    RealizesTransfer(S, Mo, Mc, M, src.sub, src.c2t, fs);
    forall d | Untouched(src.sub, SubAll(fs), d) ensures Mc(d) == M(d) { UntouchedNotTabulated(src, fs, cs, d); }
  }

  /** The source in the end, a model of the abstraction and the lemmas, and its constants
      `cs` in the order in which the converter has met them. */
  ghost predicate Convertible<V(!new)>(S: Structure<V>, src: Source<V>, source: PartialModel<V>, cs: seq<Decl>,
                                       fs: seq<Expr>, th: Theory, lemmas: seq<Expr>) {
    && StructureOk(S) && TheoryOk(S, th) && Ackermannized(fs, src.sub, src.c2t, th, lemmas)
    && WellFormedModel(S, source) && Faithful(S, Total(S, source), src)
    && HoldAll(S, Total(S, source), ReplaceAll(src.sub, fs) + lemmas)
    && (forall c :: c in cs <==> c in source.consts)
  }

  /** When the default completion of the source is the one that the result agrees with: all
      subterms of the input, other than the array constants that disappeared, evaluate in
      the result to what their abstractions evaluate to there if and only if the source
      gives every collected term its value; and then the input is satisfied. */
  lemma ConverterIff<V(!new)>(S: Structure<V>, src: Source<V>, source: PartialModel<V>, cs: seq<Decl>,
                              fs: seq<Expr>, th: Theory, lemmas: seq<Expr>)
    requires Convertible(S, src, source, cs, fs, th, lemmas)
    ensures ArrayConsts(ArrTables(src, cs))
    ensures AllAgree(S, Total(S, ConvertedModel(S, src, source, cs)), Total(S, source), src.sub, SubAll(fs))
            <==> AllGiven(S, Total(S, source), src, SubAll(fs), cs)
    ensures AllGiven(S, Total(S, source), src, SubAll(fs), cs) ==>
              HoldAll(S, Total(S, ConvertedModel(S, src, source, cs)), fs)
  {
    var M := Total(S, source);
    TotalIsModel(S, source);
    SettingHolds(S, M, src, fs, th, lemmas);
    TablesKeyedByConsts(src, cs);
    ConverterRealizes(S, src, source, cs, fs);
    BackTranslation(S, Total(S, ConvertedModel(S, src, source, cs)), M, src.sub, fs);
  }

  lemma ListedGiven<V(!new)>(S: Structure<V>, M: Model<V>, src: Source<V>, R: set<Expr>, cs: seq<Decl>, t: Expr)
    requires Abstracts(src.sub, R) && Inverse(src.sub, src.c2t) && t in src.sub && src.sub[t].decl in cs
    ensures ValueGiven(S, M, src, cs, t)
  {
    assert SameClass(src.c2t[src.sub[t].decl], t);
  }
}
