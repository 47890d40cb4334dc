/** Simultaneous replacement of function symbols by bodies (Z3_substitute_funs). */
module SubstituteFuns {
  import opened Terms
  import opened Worklist
  import U = TermUniverse

  type Replacement = map<Decl, Expr>

  /** Subterms, also below quantifiers. */
  function Parts(e: Expr): (r: set<Expr>)
    ensures e in r
    decreases e
  {
    {e} + match e
          case Var(_, _) => {}
          case App(_, args) => PartsAll(args)
          case Quant(_, body) => Parts(body)
  }

  function PartsAll(es: seq<Expr>): (r: set<Expr>)
    ensures forall x :: x in r <==> exists i :: 0 <= i < |es| && x in Parts(es[i])
    decreases es
  {
    set i, x | 0 <= i < |es| && x in Parts(es[i]) :: x
  }

  lemma {:induction false} PartsTransitive(x: Expr, y: Expr, e: Expr)
    requires x in Parts(y) && y in Parts(e)
    ensures x in Parts(e)
    decreases e
  {
    if y != e {
      if e.App? {
        var i :| 0 <= i < |e.args| && y in Parts(e.args[i]);
        PartsTransitive(x, y, e.args[i]);
      } else {
        PartsTransitive(x, y, e.body);
      }
    }
  }

  lemma ChildrenAreParts(a: Expr, y: Expr)
    requires y in Parts(a)
    ensures y.App? ==> forall x :: x in y.args ==> x in Parts(a)
    ensures y.Quant? ==> y.body in Parts(a)
  {
    if y.App? {
      forall x | x in y.args ensures x in Parts(a) {
        var i :| 0 <= i < |y.args| && y.args[i] == x;
        assert x in PartsAll(y.args);
        PartsTransitive(x, y, a);
      }
    } else if y.Quant? {
      PartsTransitive(y.body, y, a);
    }
  }

  predicate HasQuantifier(e: Expr) { exists x :: x in Parts(e) && x.Quant? }

  // ---------- the reference definition ----------

  /** Raises by `n` the variables that no binder inside `e` binds; `c` binders are open. */
  function Shift(e: Expr, n: nat, c: nat): Expr
    decreases e
  {
    match e
    case Var(i, s) => if i < c then e else Var(i + n, s)
    case App(d, args) => App(d, ShiftAll(args, n, c))
    case Quant(q, body) => Quant(q, Shift(body, n, c + |q.domain|))
  }

  function ShiftAll(es: seq<Expr>, n: nat, c: nat): (r: seq<Expr>)
    ensures |r| == |es|
    ensures forall i :: 0 <= i < |es| ==> r[i] == Shift(es[i], n, c)
    decreases es
  {
    seq(|es|, i requires 0 <= i < |es| => Shift(es[i], n, c))
  }

  /** Below `b` binders variable `b + i` becomes argument `i`, raised past the binders.
      With `bySort` a variable of another sort than the argument is left alone. */
  function Inst(w: Expr, args: seq<Expr>, b: nat, bySort: bool): Expr
    decreases w
  {
    match w
    case Var(i, s) =>
      if b <= i < b + |args| && (bySort ==> SortOf(args[i - b]) == s) then Shift(args[i - b], b, 0) else w
    case App(d, ws) => App(d, InstAll(ws, args, b, bySort))
    case Quant(q, body) => Quant(q, Inst(body, args, b + |q.domain|, bySort))
  }

  function InstAll(ws: seq<Expr>, args: seq<Expr>, b: nat, bySort: bool): (r: seq<Expr>)
    ensures |r| == |ws|
    ensures forall i :: 0 <= i < |ws| ==> r[i] == Inst(ws[i], args, b, bySort)
    decreases ws
  {
    seq(|ws|, i requires 0 <= i < |ws| => Inst(ws[i], args, b, bySort))
  }

  /** Instantiates the free variables of a body: variable `i` is argument `i`.  A body
      with quantifiers goes through a replacer that looks for variables of the right sort. */
  function VarSubst(w: Expr, args: seq<Expr>): Expr { Inst(w, args, 0, HasQuantifier(w)) }

  /** Replaces in the arguments, then replaces the symbol. */
  function Subst(rep: Replacement, e: Expr): Expr
    decreases e
  {
    match e
    case Var(_, _) => e
    case App(d, args) =>
      if d in rep then VarSubst(rep[d], SubstAll(rep, args)) else App(d, SubstAll(rep, args))
    case Quant(q, body) => Quant(q, Subst(rep, body))
  }

  function SubstAll(rep: Replacement, es: seq<Expr>): (r: seq<Expr>)
    ensures |r| == |es|
    ensures forall i :: 0 <= i < |es| ==> r[i] == Subst(rep, es[i])
    decreases es
  {
    seq(|es|, i requires 0 <= i < |es| => Subst(rep, es[i]))
  }

  // ---------- the loop ----------

  datatype Result = SortError | Replaced(e: Expr)

  ghost predicate Right(rep: Replacement, cache: map<Expr, Expr>) {
    forall x :: x in cache ==> cache[x] == Subst(rep, x)
  }

  /** The cached images of the arguments, and the arguments that have none yet. */
  method Lookup(args: seq<Expr>, cache: map<Expr, Expr>, todo: seq<Expr>, ghost rep: Replacement)
    returns (done: bool, images: seq<Expr>, change: bool, todo': seq<Expr>)
    requires Right(rep, cache)
    ensures todo' == todo + Unmarked(args, cache.Keys)
    ensures done <==> todo' == todo
    ensures done ==> images == SubstAll(rep, args) && (change <==> images != args)
  {
    images, change, todo' := [], false, todo;
    for i := 0 to |args|
      invariant todo' == todo + Unmarked(args[..i], cache.Keys)
      invariant |todo'| == |todo| ==> images == SubstAll(rep, args[..i]) && (change <==> images != args[..i])
    {
      OneMore(rep, images, args, i);
      if args[i] in cache {
        images := images + [cache[args[i]]];
        change := change || cache[args[i]] != args[i];
      } else {
        todo' := todo' + [args[i]];
      }
    }
    assert args[..|args|] == args;
    done := |todo'| == |todo|;
  }

  lemma OneMore(rep: Replacement, images: seq<Expr>, args: seq<Expr>, i: nat)
    requires i < |args|
    ensures args[..i + 1][..i] == args[..i]
    ensures SubstAll(rep, args[..i + 1]) == SubstAll(rep, args[..i]) + [Subst(rep, args[i])]
    ensures forall x :: |images| == i ==> (images + [x] != args[..i + 1] <==> images != args[..i] || x != args[i])
  {
    assert args[..i + 1] == args[..i] + [args[i]];
    forall x | |images| == i && images + [x] == args[..i + 1] ensures images == args[..i] && x == args[i] {
      assert (images + [x])[..i] == images && (images + [x])[i] == x;
    }
  }

  /** Handles the uncached term on top: either its image is computed and it is popped,
      or the children that are missing are pushed. */
  method Visit(r: Expr, todo: seq<Expr>, cache: map<Expr, Expr>, rep: Replacement)
    returns (finished: bool, todo': seq<Expr>, cache': map<Expr, Expr>)
    requires todo != [] && todo[|todo| - 1] == r && r !in cache && Right(rep, cache)
    ensures finished ==> todo' == todo[..|todo| - 1] && cache' == cache[r := Subst(rep, r)]
    ensures !finished ==> cache' == cache && |todo'| > |todo| && todo'[..|todo|] == todo
    ensures !finished ==> forall x :: x in todo'[|todo|..] ==>
              x !in cache && ((r.App? && x in r.args) || (r.Quant? && x == r.body))
  {
    cache', todo' := cache, todo;
    match r {
      case App(d, args) =>
        var done, images, change, pushed := Lookup(args, cache, todo, rep);
        if done {
          var v := if d in rep then VarSubst(rep[d], images) else if change then App(d, images) else r;
          return true, todo[..|todo| - 1], cache[r := v];
        }
        UnmarkedAre(args, cache.Keys);
        return false, pushed, cache;
      case Var(_, _) =>
        return true, todo[..|todo| - 1], cache[r := r];
      case Quant(q, body) =>
        if body in cache { return true, todo[..|todo| - 1], cache[r := Quant(q, cache[body])]; }
        return false, todo + [body], cache;
    }
  }

  /** The table of replacements; a later pair for the same symbol overrides. */
  method ReadPairs(from: seq<Decl>, to: seq<Expr>) returns (ok: bool, rep: Replacement)
    requires |from| == |to|
    ensures ok <==> forall i :: 0 <= i < |from| ==> from[i].range == SortOf(to[i])
    ensures ok ==> forall d :: d in rep <==> d in from
    ensures ok ==> forall i :: 0 <= i < |from| && (forall j :: i < j < |from| ==> from[j] != from[i]) ==>
                                 rep[from[i]] == to[i]
  {
    rep := map[];
    for i := 0 to |from|
      invariant forall d :: d in rep <==> d in from[..i]
      invariant forall k :: 0 <= k < i && (forall j :: k < j < i ==> from[j] != from[k]) ==> rep[from[k]] == to[k]
      invariant forall j :: 0 <= j < i ==> from[j].range == SortOf(to[j])
    {
      if from[i].range != SortOf(to[i]) { return false, rep; }
      rep := rep[from[i] := to[i]];
    }
    assert from[..|from|] == from;
    return true, rep;
  }

  method SubstituteFuns(a: Expr, from: seq<Decl>, to: seq<Expr>) returns (r: Result, ghost table: Replacement)
    requires |from| == |to|
    ensures r.SortError? <==> exists i :: 0 <= i < |from| && from[i].range != SortOf(to[i])
    ensures r.Replaced? ==> r.e == Subst(table, a) && forall d :: d in table <==> d in from
    ensures r.Replaced? ==> forall i :: 0 <= i < |from| && (forall j :: i < j < |from| ==> from[j] != from[i]) ==>
                                          table[from[i]] == to[i]
  {
    var ok, rep := ReadPairs(from, to);
    table := rep;
    if !ok { return SortError, table; }
    var cache: map<Expr, Expr> := map[];
    var todo := [a];
    while todo != []
      invariant Right(rep, cache) && cache.Keys <= Parts(a) && (forall x :: x in todo ==> x in Parts(a))
      invariant a in cache || (todo != [] && todo[0] == a)
      decreases Parts(a) - cache.Keys, TopMarked(todo, cache.Keys), PopsLeft(todo, cache.Keys),
                OpenTop(todo, cache.Keys)
    {
      var top := todo[|todo| - 1];
      if top in cache {
        todo := todo[..|todo| - 1];
      } else {
        ghost var keys := cache.Keys;
        var finished, rest, grown := Visit(top, todo, cache, rep);
        assert top in todo;
        if finished {
          todo, cache := rest, grown;
          assert top in Parts(a) - keys && top !in Parts(a) - cache.Keys;
        } else {
          PushedSmaller(a, top, todo, rest, keys);
          todo := rest;
        }
      }
    }
    return Replaced(cache[a]), table;
  }

  lemma PushedSmaller(a: Expr, top: Expr, todo: seq<Expr>, rest: seq<Expr>, keys: set<Expr>)
    requires todo != [] && todo[|todo| - 1] == top && top !in keys
    requires forall x :: x in todo ==> x in Parts(a)
    requires |rest| > |todo| && rest[..|todo|] == todo
    requires forall x :: x in rest[|todo|..] ==>
               x !in keys && ((top.App? && x in top.args) || (top.Quant? && x == top.body))
    ensures forall x :: x in rest ==> x in Parts(a)
    ensures !TopMarked(rest, keys) && !TopMarked(todo, keys)
    ensures OpenTop(todo, keys) == top
    ensures (top.App? && OpenTop(rest, keys) in top.args) || (top.Quant? && OpenTop(rest, keys) == top.body)
  {
    assert rest == todo + rest[|todo|..];
    assert rest[|rest| - 1] in rest[|todo|..];
    assert top in todo;
    ChildrenAreParts(a, top);
  }

  // ---------- sorts ----------

  /** A body over the arguments of its symbol: a variable that stands for argument `i`
      has its sort.  Variables of inner binders, and those beyond the arguments, are free. */
  predicate BodyOver(w: Expr, domain: seq<Sort>, b: nat)
    decreases w
  {
    match w
    case Var(i, s) => b <= i < b + |domain| ==> domain[i - b] == s
    case App(_, ws) => forall i :: 0 <= i < |ws| ==> BodyOver(ws[i], domain, b)
    case Quant(q, body) => BodyOver(body, domain, b + |q.domain|)
  }

  /** Each body fits its symbol. */
  ghost predicate WellTyped(rep: Replacement) {
    forall f :: f in rep ==> WellSorted(rep[f]) && SortOf(rep[f]) == f.range && BodyOver(rep[f], f.domain, 0)
  }

  predicate SortedTerms(es: seq<Expr>, ss: seq<Sort>) {
    |es| == |ss| && forall i :: 0 <= i < |es| ==> WellSorted(es[i]) && SortOf(es[i]) == ss[i]
  }

  lemma {:induction false} ShiftSorted(e: Expr, n: nat, c: nat)
    requires WellSorted(e)
    ensures WellSorted(Shift(e, n, c)) && SortOf(Shift(e, n, c)) == SortOf(e)
    decreases e
  {
    match e {
      case Var(_, _) =>
      case App(_, args) =>
        forall i | 0 <= i < |args|
          ensures WellSorted(Shift(args[i], n, c)) && SortOf(Shift(args[i], n, c)) == SortOf(args[i])
        {
          ShiftSorted(args[i], n, c);
        }
      case Quant(q, body) => ShiftSorted(body, n, c + |q.domain|);
    }
  }

  lemma {:induction false} InstSorted(w: Expr, domain: seq<Sort>, args: seq<Expr>, b: nat, bySort: bool)
    requires WellSorted(w) && BodyOver(w, domain, b) && SortedTerms(args, domain)
    ensures WellSorted(Inst(w, args, b, bySort)) && SortOf(Inst(w, args, b, bySort)) == SortOf(w)
    decreases w
  {
    match w {
      case Var(i, _) => if b <= i < b + |args| { ShiftSorted(args[i - b], b, 0); }
      case App(_, ws) =>
        forall i | 0 <= i < |ws|
          ensures WellSorted(Inst(ws[i], args, b, bySort)) && SortOf(Inst(ws[i], args, b, bySort)) == SortOf(ws[i])
        {
          InstSorted(ws[i], domain, args, b, bySort);
        }
      case Quant(q, body) => InstSorted(body, domain, args, b + |q.domain|, bySort);
    }
  }

  /** Replacement keeps terms well-sorted and keeps their sorts. */
  lemma {:induction false} SubstSorted(rep: Replacement, e: Expr)
    requires WellTyped(rep) && WellSorted(e)
    ensures WellSorted(Subst(rep, e)) && SortOf(Subst(rep, e)) == SortOf(e)
    decreases e
  {
    if e.App? {
      var images := SubstAll(rep, e.args);
      forall i | 0 <= i < |e.args| ensures WellSorted(images[i]) && SortOf(images[i]) == e.decl.domain[i] {
        SubstSorted(rep, e.args[i]);
      }
      if e.decl in rep {
        InstSorted(rep[e.decl], e.decl.domain, images, 0, HasQuantifier(rep[e.decl]));
      }
    } else if e.Quant? {
      SubstSorted(rep, e.body);
    }
  }

  // ---------- meaning ----------

  /** Two quantified bodies that agree for all values of the bound variables. */
  lemma SameQuant<V(!new)>(S: Structure<V>, M: Model<V>, env1: seq<V>, env2: seq<V>, q: Decl, b1: Expr, b2: Expr)
    requires forall vs: seq<V> :: |vs| == |q.domain| ==>
               Eval(S.(env := vs + env1), M, b1) == Eval(S.(env := vs + env2), M, b2)
    ensures Eval(S.(env := env1), M, Quant(q, b1)) == Eval(S.(env := env2), M, Quant(q, b2))
  {
    var S1, S2 := S.(env := env1), S.(env := env2);
    var t1, t2 := BodyTable(S1, M, |q.domain|, b1), BodyTable(S2, M, |q.domain|, b2);
    forall vs: seq<V> | |vs| == |q.domain| ensures t1[vs] == t2[vs] {
      assert S1.(env := vs + S1.env) == S.(env := vs + env1) && S2.(env := vs + S2.env) == S.(env := vs + env2);
    }
    assert t1 == t2;
  }

  /** Two applications of a symbol to arguments that agree. */
  lemma SameApp<V(!new)>(S: Structure<V>, M: Model<V>, env1: seq<V>, env2: seq<V>, d: Decl, as1: seq<Expr>,
                         as2: seq<Expr>)
    requires |as1| == |as2|
    requires forall i :: 0 <= i < |as1| ==> Eval(S.(env := env1), M, as1[i]) == Eval(S.(env := env2), M, as2[i])
    ensures Eval(S.(env := env1), M, App(d, as1)) == Eval(S.(env := env2), M, App(d, as2))
  {
    assert EvalAll(S.(env := env1), M, as1) == EvalAll(S.(env := env2), M, as2);
    SameFun(S, env1, M, d);
    SameFun(S, env2, M, d);
  }

  lemma SameFun<V(!new)>(S: Structure<V>, env: seq<V>, M: Model<V>, d: Decl)
    ensures Fun(S.(env := env), M, d) == Fun(S, M, d)
  {
  }

  /** `hi` is `lo` with `n` more values behind the first `c`. */
  ghost predicate Raised<V>(hi: seq<V>, lo: seq<V>, n: nat, c: nat) {
    && c <= |lo| && |hi| == |lo| + n
    && (forall i :: 0 <= i < c ==> hi[i] == lo[i])
    && (forall i :: c <= i < |lo| ==> hi[i + n] == lo[i])
  }

  lemma RaisedUnder<V>(vs: seq<V>, hi: seq<V>, lo: seq<V>, n: nat, c: nat)
    requires Raised(hi, lo, n, c)
    ensures Raised(vs + hi, vs + lo, n, c + |vs|)
  {
    forall i | c + |vs| <= i < |vs + lo| ensures (vs + hi)[i + n] == (vs + lo)[i] {
      assert (vs + lo)[i] == lo[i - |vs|];
    }
  }

  /** Raising the variables past new values leaves the meaning alone. */
  lemma {:induction false} ShiftMeaning<V(!new)>(S: Structure<V>, M: Model<V>, hi: seq<V>, lo: seq<V>, n: nat, c: nat,
                                                 e: Expr)
    requires Raised(hi, lo, n, c)
    ensures Eval(S.(env := hi), M, Shift(e, n, c)) == Eval(S.(env := lo), M, e)
    decreases e
  {
    match e {
      case Var(i, _) => if c <= i < |lo| { assert hi[i + n] == lo[i]; }
      case App(d, args) =>
        forall i | 0 <= i < |args|
          ensures Eval(S.(env := hi), M, ShiftAll(args, n, c)[i]) == Eval(S.(env := lo), M, args[i])
        {
          ShiftMeaning(S, M, hi, lo, n, c, args[i]);
        }
        SameApp(S, M, hi, lo, d, ShiftAll(args, n, c), args);
      case Quant(q, body) =>
        var c' := c + |q.domain|;
        var image := Shift(body, n, c');
        assert Shift(e, n, c) == Quant(q, image);
        forall vs: seq<V> | |vs| == |q.domain|
          ensures Eval(S.(env := vs + hi), M, image) == Eval(S.(env := vs + lo), M, body)
        {
          RaisedUnder(vs, hi, lo, n, c);
          ShiftMeaning(S, M, vs + hi, vs + lo, n, c', body);
        }
        SameQuant(S, M, hi, lo, q, image, body);
    }
  }

  /** The variables that a body sees: the arguments, then what is in scope behind them. */
  function Bind<V>(vs: seq<V>, env: seq<V>): seq<V> {
    vs + if |vs| <= |env| then env[|vs|..] else []
  }

  /** Below `b` binders, `inner` has `vals` where `outer` has the values in scope. */
  ghost predicate Bound<V>(outer: seq<V>, inner: seq<V>, vals: seq<V>, b: nat) {
    && b <= |outer| && |inner| == (if |outer| < b + |vals| then b + |vals| else |outer|)
    && (forall i :: 0 <= i < |vals| ==> inner[b + i] == vals[i])
    && (forall i :: 0 <= i < |outer| && !(b <= i < b + |vals|) ==> inner[i] == outer[i])
  }

  lemma BoundUnder<V>(vs: seq<V>, outer: seq<V>, inner: seq<V>, vals: seq<V>, b: nat)
    requires Bound(outer, inner, vals, b)
    ensures Bound(vs + outer, vs + inner, vals, b + |vs|)
  {
    forall i | 0 <= i < |vals| ensures (vs + inner)[b + |vs| + i] == vals[i] {
      assert (vs + inner)[b + |vs| + i] == inner[b + i];
    }
  }

  lemma BindBound<V>(vals: seq<V>, env: seq<V>)
    ensures Bound(env, Bind(vals, env), vals, 0)
  {
  }

  /** Instantiating a body is evaluating it with the argument values as variables. */
  lemma {:induction false} InstMeaning<V(!new)>(S: Structure<V>, M: Model<V>, outer: seq<V>, inner: seq<V>, b: nat,
                                                w: Expr, domain: seq<Sort>, args: seq<Expr>, bySort: bool)
    requires BodyOver(w, domain, b) && SortedTerms(args, domain) && SortedAs(S, EvalAll(S, M, args), domain)
    requires Bound(outer, inner, EvalAll(S, M, args), b) && Raised(outer, S.env, b, 0)
    ensures Eval(S.(env := outer), M, Inst(w, args, b, bySort)) == Eval(S.(env := inner), M, w)
    decreases w
  {
    match w {
      case Var(_, _) => InstVarMeaning(S, M, outer, inner, b, w, domain, args, bySort);
      case App(d, ws) =>
        var images := InstAll(ws, args, b, bySort);
        assert Inst(w, args, b, bySort) == App(d, images);
        forall i | 0 <= i < |ws| ensures Eval(S.(env := outer), M, images[i]) == Eval(S.(env := inner), M, ws[i]) {
          InstMeaning(S, M, outer, inner, b, ws[i], domain, args, bySort);
        }
        SameApp(S, M, outer, inner, d, images, ws);
      case Quant(q, body) =>
        var c := b + |q.domain|;
        var image := Inst(body, args, c, bySort);
        assert Inst(w, args, b, bySort) == Quant(q, image);
        forall vs: seq<V> | |vs| == |q.domain|
          ensures Eval(S.(env := vs + outer), M, image) == Eval(S.(env := vs + inner), M, body)
        {
          BoundUnder(vs, outer, inner, EvalAll(S, M, args), b);
          RaisedBy(vs, outer, S.env, b);
          InstMeaning(S, M, vs + outer, vs + inner, c, body, domain, args, bySort);
        }
        SameQuant(S, M, outer, inner, q, image, body);
    }
  }

  lemma RaisedBy<V>(vs: seq<V>, hi: seq<V>, lo: seq<V>, n: nat)
    requires Raised(hi, lo, n, 0)
    ensures Raised(vs + hi, lo, n + |vs|, 0)
  {
    forall i | 0 <= i < |lo| ensures (vs + hi)[i + (n + |vs|)] == lo[i] {
      assert (vs + hi)[i + (n + |vs|)] == hi[i + n];
    }
  }

  lemma InstVarMeaning<V(!new)>(S: Structure<V>, M: Model<V>, outer: seq<V>, inner: seq<V>, b: nat, w: Expr,
                                domain: seq<Sort>, args: seq<Expr>, bySort: bool)
    requires w.Var? && BodyOver(w, domain, b) && SortedTerms(args, domain) && SortedAs(S, EvalAll(S, M, args), domain)
    requires Bound(outer, inner, EvalAll(S, M, args), b) && Raised(outer, S.env, b, 0)
    ensures Eval(S.(env := outer), M, Inst(w, args, b, bySort)) == Eval(S.(env := inner), M, w)
  {
    if b <= w.index < b + |args| {
      assert inner[w.index] == EvalAll(S, M, args)[w.index - b];
      InstArgMeaning(S, M, outer, inner, b, w, args, bySort);
    } else {
      KeptVar(S, M, outer, inner, b, w, EvalAll(S, M, args));
    }
  }

  /** A variable that stands for an argument of its sort. */
  lemma InstArgMeaning<V(!new)>(S: Structure<V>, M: Model<V>, outer: seq<V>, inner: seq<V>, b: nat, w: Expr,
                                args: seq<Expr>, bySort: bool)
    requires w.Var? && b <= w.index < b + |args| && w.index < |inner| && SortOf(args[w.index - b]) == w.sort
    requires inner[w.index] == Eval(S, M, args[w.index - b]) && S.hasSort(inner[w.index], w.sort)
    requires Raised(outer, S.env, b, 0)
    ensures Eval(S.(env := outer), M, Inst(w, args, b, bySort)) == Eval(S.(env := inner), M, w)
  {
    ShiftedArg(S, M, outer, b, args[w.index - b]);
  }

  lemma ShiftedArg<V(!new)>(S: Structure<V>, M: Model<V>, outer: seq<V>, b: nat, arg: Expr)
    requires Raised(outer, S.env, b, 0)
    ensures Eval(S.(env := outer), M, Shift(arg, b, 0)) == Eval(S, M, arg)
  {
    ShiftMeaning(S, M, outer, S.env, b, 0, arg);
    assert S.(env := S.env) == S;
  }

  /** Any other variable, which means the same inside and outside. */
  lemma KeptVar<V(!new)>(S: Structure<V>, M: Model<V>, outer: seq<V>, inner: seq<V>, b: nat, w: Expr, vals: seq<V>)
    requires w.Var? && Bound(outer, inner, vals, b) && !(b <= w.index < b + |vals|)
    ensures Eval(S.(env := outer), M, w) == Eval(S.(env := inner), M, w)
  {
    assert w.index < |inner| <==> w.index < |outer|;
  }

  lemma VarSubstMeaning<V(!new)>(S: Structure<V>, M: Model<V>, w: Expr, domain: seq<Sort>, args: seq<Expr>)
    requires BodyOver(w, domain, 0) && SortedTerms(args, domain) && SortedAs(S, EvalAll(S, M, args), domain)
    ensures Eval(S, M, VarSubst(w, args)) == Eval(S.(env := Bind(EvalAll(S, M, args), S.env)), M, w)
  {
    var vals := EvalAll(S, M, args);
    BindBound(vals, S.env);
    InstMeaning(S, M, S.env, Bind(vals, S.env), 0, w, domain, args, HasQuantifier(w));
    assert S.(env := S.env) == S;
  }

  // ---------- evaluation with reinterpreted symbols ----------

  /** What an applied symbol stands for, given the variables in scope. */
  type Reading<!V> = (Decl, seq<V>, seq<V>) -> V

  /** Evaluation in which `F` interprets the symbols that are applied. */
  ghost function EvalWith<V(!new)>(S: Structure<V>, F: Reading<V>, e: Expr): V
    decreases e, 0
  {
    match e
    case Var(i, s) => if i < |S.env| && S.hasSort(S.env[i], s) then S.env[i] else S.someValue(s)
    case App(d, args) => F(d, S.env, EvalAllWith(S, F, args))
    case Quant(q, body) => S.quant(q, TableWith(S, F, |q.domain|, body))
  }

  ghost function TableWith<V(!new)>(S: Structure<V>, F: Reading<V>, n: nat, body: Expr): (t: imap<seq<V>, V>)
    ensures forall vs: seq<V> {:trigger vs in t} :: vs in t <==> |vs| == n
    ensures forall vs: seq<V> {:trigger t[vs]} :: |vs| == n ==> t[vs] == EvalWith(S.(env := vs + S.env), F, body)
    decreases body, 1
  {
    imap vs: seq<V> | |vs| == n :: EvalWith(S.(env := vs + S.env), F, body)
  }

  ghost function EvalAllWith<V(!new)>(S: Structure<V>, F: Reading<V>, es: seq<Expr>): (vs: seq<V>)
    ensures |vs| == |es|
    ensures forall i :: 0 <= i < |es| ==> vs[i] == EvalWith(S, F, es[i])
    decreases es
  {
    seq(|es|, i requires 0 <= i < |es| => EvalWith(S, F, es[i]))
  }

  /** Replaced symbols stand for their bodies under `M`: simultaneously, so bodies that
      mention replaced symbols mean what they meant before.  All other declarations keep
      their meaning, also those that lift a replaced symbol. */
  ghost function Reinterpreted<V(!new)>(S: Structure<V>, M: Model<V>, rep: Replacement): Reading<V> {
    ReadingOf(S.(env := []), M, rep)
  }

  ghost function ReadingOf<V(!new)>(S: Structure<V>, M: Model<V>, rep: Replacement): Reading<V> {
    (d: Decl, env: seq<V>, vs: seq<V>) => if d in rep then BodyValue(S, M, rep[d], env, vs) else Fun(S, M, d)(vs)
  }

  /** The value of a body for the argument values `vs`. */
  ghost function BodyValue<V(!new)>(S: Structure<V>, M: Model<V>, w: Expr, env: seq<V>, vs: seq<V>): V {
    Eval(S.(env := Bind(vs, env)), M, w)
  }

  ghost function BodyFun<V(!new)>(S: Structure<V>, M: Model<V>, w: Expr): seq<V> -> V {
    (vs: seq<V>) => Eval(S.(env := vs), M, w)
  }

  lemma SortsIgnoreEnv<V(!new)>(S: Structure<V>, env: seq<V>, M: Model<V>)
    requires SortsOk(S) && SortedModel(S, M)
    ensures SortsOk(S.(env := env)) && SortedModel(S.(env := env), M)
  {
    var S' := S.(env := env);
    forall g, d ensures SortedFun(S', g, d) <==> SortedFun(S, g, d) {
      forall vs ensures SortedAs(S', vs, d.domain) <==> SortedAs(S, vs, d.domain) {}
    }
  }

  /** Evaluating the result is evaluating the input with every applied replaced symbol
      interpreted by its body, also below quantifiers. */
  lemma {:induction false} SubstMeaning<V(!new)>(S: Structure<V>, M: Model<V>, rep: Replacement, e: Expr)
    requires SortsOk(S) && SortedModel(S, M) && WellTyped(rep) && WellSorted(e)
    ensures Eval(S, M, Subst(rep, e)) == EvalWith(S, Reinterpreted(S, M, rep), e)
    decreases e
  {
    var F := Reinterpreted(S, M, rep);
    match e {
      case Var(_, _) =>
      case App(d, args) =>
        forall i | 0 <= i < |args| ensures EvalAll(S, M, SubstAll(rep, args))[i] == EvalAllWith(S, F, args)[i] {
          SubstMeaning(S, M, rep, args[i]);
        }
        assert EvalAll(S, M, SubstAll(rep, args)) == EvalAllWith(S, F, args);
        SubstAppMeaning(S, M, rep, e);
      case Quant(q, body) =>
        forall vs: seq<V> | |vs| == |q.domain|
          ensures Eval(S.(env := vs + S.env), M, Subst(rep, body)) == EvalWith(S.(env := vs + S.env), F, body)
        {
          SortsIgnoreEnv(S, vs + S.env, M);
          SubstMeaning(S.(env := vs + S.env), M, rep, body);
          assert S.(env := vs + S.env).(env := []) == S.(env := []);
        }
        assert BodyTable(S, M, |q.domain|, Subst(rep, body)) == TableWith(S, F, |q.domain|, body);
    }
  }

  lemma AppWith<V(!new)>(S: Structure<V>, M: Model<V>, rep: Replacement, d: Decl, args: seq<Expr>)
    ensures var vs := EvalAllWith(S, Reinterpreted(S, M, rep), args);
            EvalWith(S, Reinterpreted(S, M, rep), App(d, args))
            == if d in rep then Eval(S.(env := Bind(vs, S.env)), M, rep[d]) else Fun(S, M, d)(vs)
  {
    ReadingMeaning(S, M, rep, d, EvalAllWith(S, Reinterpreted(S, M, rep), args));
  }

  lemma ReadingMeaning<V(!new)>(S: Structure<V>, M: Model<V>, rep: Replacement, d: Decl, vs: seq<V>)
    ensures Reinterpreted(S, M, rep)(d, S.env, vs)
            == if d in rep then Eval(S.(env := Bind(vs, S.env)), M, rep[d]) else Fun(S, M, d)(vs)
  {
    var S0 := S.(env := []);
    if d in rep {
      assert Reinterpreted(S, M, rep)(d, S.env, vs) == BodyValue(S0, M, rep[d], S.env, vs);
      assert S0.(env := Bind(vs, S.env)) == S.(env := Bind(vs, S.env));
    } else {
      SameFun(S, [], M, d);
    }
  }

  lemma ImagesSorted<V(!new)>(S: Structure<V>, M: Model<V>, rep: Replacement, e: Expr)
    requires SortsOk(S) && SortedModel(S, M) && WellTyped(rep) && WellSorted(e) && e.App?
    ensures SortedTerms(SubstAll(rep, e.args), e.decl.domain)
    ensures SortedAs(S, EvalAll(S, M, SubstAll(rep, e.args)), e.decl.domain)
  {
    var images := SubstAll(rep, e.args);
    forall i | 0 <= i < |e.args|
      ensures WellSorted(images[i]) && SortOf(images[i]) == e.decl.domain[i]
      ensures S.hasSort(EvalAll(S, M, images)[i], e.decl.domain[i])
    {
      SubstSorted(rep, e.args[i]);
      EvalHasSort(S, M, images[i]);
    }
  }

  lemma SubstAppMeaning<V(!new)>(S: Structure<V>, M: Model<V>, rep: Replacement, e: Expr)
    requires SortsOk(S) && SortedModel(S, M) && WellTyped(rep) && WellSorted(e) && e.App?
    requires EvalAll(S, M, SubstAll(rep, e.args)) == EvalAllWith(S, Reinterpreted(S, M, rep), e.args)
    ensures Eval(S, M, Subst(rep, e)) == EvalWith(S, Reinterpreted(S, M, rep), e)
  {
    var images := SubstAll(rep, e.args);
    AppWith(S, M, rep, e.decl, e.args);
    if e.decl in rep {
      ImagesSorted(S, M, rep, e);
      VarSubstMeaning(S, M, rep[e.decl], e.decl.domain, images);
    }
  }

  // ---------- lifted symbols ----------

  /** No part of `e` lifts a replaced symbol to an array operation. */
  predicate FirstOrderIn(rep: Replacement, e: Expr)
    decreases e
  {
    match e
    case Var(_, _) => true
    case App(d, args) =>
      (IsHigher(d) ==> d.kind.f !in rep) && forall i :: 0 <= i < |args| ==> FirstOrderIn(rep, args[i])
    case Quant(_, body) => FirstOrderIn(rep, body)
  }

  /** A body that mentions no variable beyond the arguments. */
  predicate Closed(w: Expr, n: nat)
    decreases w
  {
    match w
    case Var(i, _) => i < n
    case App(_, ws) => forall i :: 0 <= i < |ws| ==> Closed(ws[i], n)
    case Quant(q, body) => Closed(body, n + |q.domain|)
  }

  /** `M` with every replaced symbol interpreted by its body under `M`. */
  ghost function Interpreted<V(!new)>(S: Structure<V>, M: Model<V>, rep: Replacement): Model<V> {
    WithBodies(S.(env := []), M, rep)
  }

  ghost function WithBodies<V(!new)>(S: Structure<V>, M: Model<V>, rep: Replacement): Model<V> {
    (d: Decl) => if d in rep then BodyFun(S, M, rep[d]) else M(d)
  }

  /** Free symbols with closed bodies: a change of the model alone. */
  ghost predicate Definitions(rep: Replacement) {
    forall f :: f in rep ==> IsFree(f) && Closed(rep[f], |f.domain|)
  }

  lemma {:induction false} ClosedMeaning<V(!new)>(S: Structure<V>, M: Model<V>, env1: seq<V>, env2: seq<V>, w: Expr,
                                                  n: nat)
    requires Closed(w, n) && n <= |env1| && n <= |env2| && forall i :: 0 <= i < n ==> env1[i] == env2[i]
    ensures Eval(S.(env := env1), M, w) == Eval(S.(env := env2), M, w)
    decreases w
  {
    match w {
      case Var(_, _) =>
      case App(d, ws) =>
        forall i | 0 <= i < |ws| ensures Eval(S.(env := env1), M, ws[i]) == Eval(S.(env := env2), M, ws[i]) {
          ClosedMeaning(S, M, env1, env2, ws[i], n);
        }
        SameApp(S, M, env1, env2, d, ws, ws);
      case Quant(q, body) =>
        forall vs: seq<V> | |vs| == |q.domain|
          ensures Eval(S.(env := vs + env1), M, body) == Eval(S.(env := vs + env2), M, body)
        {
          ClosedMeaning(S, M, vs + env1, vs + env2, body, n + |vs|);
        }
        SameQuant(S, M, env1, env2, q, body, body);
    }
  }

  /** What `e` means with the replaced symbols reinterpreted everywhere, lifted ones
      included, is what it means with them reinterpreted where they are applied, if no
      replaced symbol is lifted. */
  lemma {:induction false} FirstOrderMeaning<V(!new)>(S: Structure<V>, M: Model<V>, rep: Replacement, e: Expr)
    requires Definitions(rep) && WellSorted(e) && FirstOrderIn(rep, e)
    ensures EvalWith(S, Reinterpreted(S, M, rep), e) == Eval(S, Interpreted(S, M, rep), e)
    decreases e
  {
    var F, Mi := Reinterpreted(S, M, rep), Interpreted(S, M, rep);
    match e {
      case Var(_, _) =>
      case App(d, args) =>
        forall i | 0 <= i < |args| ensures EvalAllWith(S, F, args)[i] == EvalAll(S, Mi, args)[i] {
          FirstOrderMeaning(S, M, rep, args[i]);
        }
        assert EvalAllWith(S, F, args) == EvalAll(S, Mi, args);
        AppliedMeaning(S, M, rep, d, EvalAll(S, Mi, args));
      case Quant(q, body) =>
        forall vs: seq<V> | |vs| == |q.domain|
          ensures EvalWith(S.(env := vs + S.env), F, body) == Eval(S.(env := vs + S.env), Mi, body)
        {
          FirstOrderMeaning(S.(env := vs + S.env), M, rep, body);
          assert S.(env := vs + S.env).(env := []) == S.(env := []);
        }
        assert TableWith(S, F, |q.domain|, body) == BodyTable(S, Mi, |q.domain|, body);
    }
  }

  lemma AppliedMeaning<V(!new)>(S: Structure<V>, M: Model<V>, rep: Replacement, d: Decl, vs: seq<V>)
    requires Definitions(rep) && |vs| == |d.domain| && (IsHigher(d) ==> !IsHigher(d.kind.f) && d.kind.f !in rep)
    ensures Reinterpreted(S, M, rep)(d, S.env, vs) == Fun(S, Interpreted(S, M, rep), d)(vs)
  {
    ReadingMeaning(S, M, rep, d, vs);
    if d in rep {
      var S0 := S.(env := []);
      assert Interpreted(S, M, rep)(d) == BodyFun(S0, M, rep[d]);
      assert BodyFun(S0, M, rep[d])(vs) == Eval(S0.(env := vs), M, rep[d]);
      assert S0.(env := vs) == S.(env := vs);
      ClosedMeaning(S, M, Bind(vs, S.env), vs, rep[d], |vs|);
    }
  }

  /** Replacing free symbols that are not lifted is evaluating in the model that gives
      them the meaning of their bodies. */
  lemma SubstDefines<V(!new)>(S: Structure<V>, M: Model<V>, rep: Replacement, e: Expr)
    requires SortsOk(S) && SortedModel(S, M) && WellTyped(rep) && Definitions(rep)
    requires WellSorted(e) && FirstOrderIn(rep, e)
    ensures Eval(S, M, Subst(rep, e)) == Eval(S, Interpreted(S, M, rep), e)
  {
    SubstMeaning(S, M, rep, e);
    FirstOrderMeaning(S, M, rep, e);
  }

  /** A lifted symbol keeps its old meaning, while the arguments get the new one. */
  lemma LiftedKept<V(!new)>(S: Structure<V>, M: Model<V>, rep: Replacement, e: Expr)
    requires SortsOk(S) && SortedModel(S, M) && WellTyped(rep) && WellSorted(e)
    requires e.App? && IsHigher(e.decl) && IsFree(e.decl.kind.f) && e.decl !in rep
    ensures Eval(S, M, Subst(rep, e))
            == S.higher(e.decl, M(e.decl.kind.f))(EvalAllWith(S, Reinterpreted(S, M, rep), e.args))
  {
    SubstMeaning(S, M, rep, e);
    AppWith(S, M, rep, e.decl, e.args);
  }

  // ---------- a law that replacement breaks ----------

  const ELEM: Sort := Base(1)
  const ARRAY: Sort := ArraySort([ELEM], ELEM)

  function SymbolF(): Decl { Decl(Named("f"), Uninterpreted, [ELEM], ELEM) }
  function AsArrayF(): Decl { Decl(Named("as-array"), AsArray(SymbolF()), [], ARRAY) }
  function ValueTerm(n: string): Expr { App(Decl(Named(n), Value, [], ELEM), []) }

  /** `select(as-array(f), i) = f(i)`, which holds whatever `f` is. */
  function ReadLaw(): Expr {
    MkEq(App(SelectDecl(ARRAY), [App(AsArrayF(), []), ValueTerm("i")]), App(SymbolF(), [ValueTerm("i")]))
  }

  function ConstantFun(v: U.Element): seq<U.Element> -> U.Element { (vs: seq<U.Element>) => v }

  lemma EqHolds(M: Model<U.Element>, a: Expr, b: Expr)
    ensures Holds(U.Universe(), M, MkEq(a, b)) <==> Eval(U.Universe(), M, a) == Eval(U.Universe(), M, b)
  {
    var S := U.Universe();
    assert EvalAll(S, M, [a, b]) == [Eval(S, M, a), Eval(S, M, b)];
  }

  /** Reading the array of a function gives the function, if some array reads like it. */
  lemma ReadAsArray(M: Model<U.Element>)
    requires SortedModel(U.Universe(), M) && exists a :: U.ReadsLike(a, AsArrayF(), M(SymbolF()), [])
    ensures Eval(U.Universe(), M, App(SelectDecl(ARRAY), [App(AsArrayF(), []), ValueTerm("i")]))
            == M(SymbolF())([Eval(U.Universe(), M, ValueTerm("i"))])
  {
    var S, arr, i := U.Universe(), App(AsArrayF(), []), ValueTerm("i");
    ValueTermMeaning(M, "i");
    assert U.HaveSorts([Eval(S, M, i)], ARRAY.domain);
    assert EvalAll(S, M, []) == [] && EvalAll(S, M, [arr, i]) == [Eval(S, M, arr)] + [Eval(S, M, i)];
    U.SelectReads(ARRAY, Eval(S, M, arr), [Eval(S, M, i)]);
    assert U.ReadsLike(Eval(S, M, arr), AsArrayF(), M(SymbolF()), []);
  }

  lemma LawHolds(M: Model<U.Element>)
    requires SortedModel(U.Universe(), M) && exists a :: U.ReadsLike(a, AsArrayF(), M(SymbolF()), [])
    ensures Holds(U.Universe(), M, ReadLaw())
  {
    ReadAsArray(M);
    EqHolds(M, ReadLaw().args[0], ReadLaw().args[1]);
    assert EvalAll(U.Universe(), M, [ValueTerm("i")]) == [Eval(U.Universe(), M, ValueTerm("i"))];
  }

  lemma ConstantReads(g: seq<U.Element> -> U.Element, v: U.Element)
    requires U.HasSort(v, ELEM) && forall vs :: g(vs) == v
    ensures U.ReadsLike(U.Filled(ARRAY, v), AsArrayF(), g, [])
  {
  }

  lemma ValueTermMeaning(M: Model<U.Element>, n: string)
    ensures Eval(U.Universe(), M, ValueTerm(n)) == U.Built(ValueTerm(n).decl, [])
  {
    assert EvalAll(U.Universe(), M, []) == [];
  }

  lemma LawFits(rep: Replacement, one: Expr)
    requires one == ValueTerm("1") && rep == map[SymbolF() := one]
    ensures WellTyped(rep) && Definitions(rep) && WellSorted(ReadLaw()) && !FirstOrderIn(rep, ReadLaw())
  {
    var l, arr := ReadLaw().args[0], App(AsArrayF(), []);
    LawSorted();
    assert !FirstOrderIn(rep, arr);
    assert !FirstOrderIn(rep, l) by { assert l.args[0] == arr; }
  }

  lemma LawSorted()
    ensures WellSorted(ReadLaw())
  {
    var arr, i := App(AsArrayF(), []), ValueTerm("i");
    assert WellSorted(arr) && WellSorted(i);
    assert WellSorted(ReadLaw().args[0]) && WellSorted(ReadLaw().args[1]);
  }

  /** What the law becomes when `f` is replaced by the value 1 where it is constantly 0. */
  lemma LawBroken(M: Model<U.Element>, rep: Replacement, one: Expr)
    requires one == ValueTerm("1") && rep == map[SymbolF() := one]
    requires SortedModel(U.Universe(), M) && M(SymbolF()) == ConstantFun(U.Built(ValueTerm("0").decl, []))
    ensures Holds(U.Universe(), M, ReadLaw()) && !Holds(U.Universe(), M, Subst(rep, ReadLaw()))
  {
    ConstantReads(M(SymbolF()), U.Built(ValueTerm("0").decl, []));
    LawHolds(M);
    ReadAsArray(M);
    ImageOfLaw(rep, one);
    EqHolds(M, ReadLaw().args[0], one);
    ValueTermMeaning(M, "1");
  }

  /** `f` is constantly 0, everything else has the default of its sort. */
  ghost function ZeroModel(): Model<U.Element> {
    (g: Decl) => ConstantFun(if g == SymbolF() then U.Built(ValueTerm("0").decl, []) else U.Any(g.range))
  }

  lemma ZeroSorted()
    ensures SortedModel(U.Universe(), ZeroModel())
    ensures ZeroModel()(SymbolF()) == ConstantFun(U.Built(ValueTerm("0").decl, []))
  {
  }

  /** A law that holds before the replacement, and with `f` reinterpreted everywhere, fails
      after it: the array still reads the old `f`. */
  lemma LiftedMeaningLost() returns (M: Model<U.Element>, rep: Replacement, e: Expr)
    ensures StructureOk(U.Universe()) && SortedModel(U.Universe(), M)
    ensures WellTyped(rep) && Definitions(rep) && WellSorted(e) && !FirstOrderIn(rep, e)
    ensures Holds(U.Universe(), M, e) && Holds(U.Universe(), Interpreted(U.Universe(), M, rep), e)
    ensures !Holds(U.Universe(), M, Subst(rep, e))
  {
    var one := ValueTerm("1");
    M, rep, e := ZeroModel(), map[SymbolF() := one], ReadLaw();
    ZeroSorted();
    U.AssumptionsHold();
    LawFits(rep, one);
    LawBroken(M, rep, one);
    OneEverywhere(M, rep, one);
    InterpretedSorted(M, rep, one);
    LawHolds(Interpreted(U.Universe(), M, rep));
  }

  lemma InterpretedSorted(M: Model<U.Element>, rep: Replacement, one: Expr)
    requires one == ValueTerm("1") && rep == map[SymbolF() := one] && SortedModel(U.Universe(), M)
    ensures SortedModel(U.Universe(), Interpreted(U.Universe(), M, rep))
  {
    var S := U.Universe();
    forall vs ensures S.hasSort(Interpreted(S, M, rep)(SymbolF())(vs), ELEM) {
      assert Interpreted(S, M, rep)(SymbolF())(vs) == Eval(S.(env := []).(env := vs), M, one);
    }
    forall d | IsFree(d) ensures SortedFun(S, Interpreted(S, M, rep)(d), d) {
      if d != SymbolF() { assert Interpreted(S, M, rep)(d) == M(d); }
    }
  }

  lemma OneEverywhere(M: Model<U.Element>, rep: Replacement, one: Expr)
    requires one == ValueTerm("1") && rep == map[SymbolF() := one]
    ensures U.ReadsLike(U.Filled(ARRAY, U.Built(one.decl, [])), AsArrayF(),
                        Interpreted(U.Universe(), M, rep)(SymbolF()), [])
  {
    var S := U.Universe();
    var g := Interpreted(S, M, rep)(SymbolF());
    forall vs ensures g(vs) == U.Built(one.decl, []) {
      assert g(vs) == Eval(S.(env := []).(env := vs), M, one);
      assert EvalAll(S.(env := []).(env := vs), M, []) == [];
    }
    ConstantReads(g, U.Built(one.decl, []));
  }

  lemma ImageOfLaw(rep: Replacement, one: Expr)
    requires one == ValueTerm("1") && rep == map[SymbolF() := one]
    ensures Subst(rep, ReadLaw()) == MkEq(ReadLaw().args[0], one)
  {
    var e, i, arr := ReadLaw(), ValueTerm("i"), App(AsArrayF(), []);
    assert SubstAll(rep, []) == [];
    assert Subst(rep, i) == i && Subst(rep, arr) == arr;
    assert SubstAll(rep, [arr, i]) == [arr, i];
    assert Subst(rep, e.args[0]) == e.args[0];
    assert InstAll([], SubstAll(rep, [i]), 0, HasQuantifier(one)) == [];
    assert Subst(rep, e.args[1]) == one;
    assert SubstAll(rep, e.args) == [e.args[0], one];
  }
}
