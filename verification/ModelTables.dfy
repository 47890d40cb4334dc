/** The interpretations that back-translation tabulates from the constants of an
    abstract model, as functions of the order in which the constants are met. */
module ModelTables {
  import opened Terms
  import opened AckrHelper
  import opened Abstraction
  import opened Congruence
  import opened Equisat

  // ---------- interpretations ----------

  datatype FuncInterp<V(==)> = FuncInterp(entries: map<seq<V>, V>, els: V)

  function DenoteFun<V(==)>(fi: FuncInterp<V>): seq<V> -> V {
    if fi.entries == map[] then ConstFun(fi.els)
    else (vs: seq<V>) => if vs in fi.entries then fi.entries[vs] else fi.els
  }

  /** Array values as the converter builds them: stores over a constant array. */
  datatype ArrExpr<V> = ConstArr(v: V) | Store(base: ArrExpr<V>, index: seq<V>, v: V)

  function DefaultOf<V>(e: ArrExpr<V>): V {
    match e
    case ConstArr(v) => v
    case Store(b, _, _) => DefaultOf(b)
  }

  function Lookup<V(==)>(e: ArrExpr<V>, index: seq<V>): V {
    match e
    case ConstArr(v) => v
    case Store(b, i, v) => if i == index then v else Lookup(b, index)
  }

  function DenoteArr<V(==)>(S: Structure<V>, s: Sort, e: ArrExpr<V>): V {
    match e
    case ConstArr(v) => S.constArray(s, v)
    case Store(b, i, v) => S.store(s, DenoteArr(S, s, b), i, v)
  }

  ghost predicate SortedArr<V>(S: Structure<V>, s: Sort, e: ArrExpr<V>)
    requires s.ArraySort?
  {
    && S.hasSort(e.v, s.range)
    && (e.Store? ==> SortedAs(S, e.index, s.domain) && SortedArr(S, s, e.base))
  }

  lemma {:induction false} DenoteArrLookup<V(!new)>(S: Structure<V>, s: Sort, e: ArrExpr<V>, index: seq<V>)
    requires ArraysOk(S) && s.ArraySort? && SortedArr(S, s, e) && SortedAs(S, index, s.domain)
    ensures S.hasSort(DenoteArr(S, s, e), s)
    ensures S.interp(SelectDecl(s))([DenoteArr(S, s, e)] + index) == Lookup(e, index)
  {
    match e {
      case ConstArr(v) =>
      case Store(b, i, v) => DenoteArrLookup(S, s, b, index);
    }
  }

  // ---------- tabulation ----------

  /** The view of an abstract model that tabulation uses: the value of each constant
      and an evaluator of abstracted terms. */
  datatype Source<!V> = Source(sub: Subst, c2t: map<Decl, Expr>, val: Decl -> V, ev: Expr -> V)

  type FunTable<V(==)> = map<Decl, map<seq<V>, V>>
  type ArrTable<V> = map<Expr, ArrExpr<V>>

  predicate Keyed(t: Expr) { FunApp(t) || IsSelect(t) }

  function Key<V>(src: Source<V>, t: Expr): (k: seq<V>)
    requires Keyed(t)
    ensures |k| == |KeyArgs(t)|
  {
    seq(|KeyArgs(t)|, i requires 0 <= i < |KeyArgs(t)| => src.ev(Replace(src.sub, KeyArgs(t)[i])))
  }

  /** The first entry for a key wins. */
  function AddFun<V(==)>(src: Source<V>, m: FunTable<V>, t: Expr, value: V): FunTable<V>
    requires FunApp(t)
  {
    var entries := if t.decl in m then m[t.decl] else map[];
    m[t.decl := if Key(src, t) in entries then entries else entries[Key(src, t) := value]]
  }

  /** The first value becomes the default; values equal to the default are not stored. */
  function AddArr<V(==)>(src: Source<V>, m: ArrTable<V>, t: Expr, value: V): ArrTable<V>
    requires IsSelect(t)
  {
    var A := t.args[0];
    if A !in m then m[A := ConstArr(value)]
    else if DefaultOf(m[A]) == value then m
    else m[A := Store(m[A], Key(src, t), value)]
  }

  predicate Tabulates<V>(src: Source<V>, c: Decl, select: bool) {
    c in src.c2t && if select then IsSelect(src.c2t[c]) else FunApp(src.c2t[c])
  }

  function FunTables<V(==)>(src: Source<V>, cs: seq<Decl>): FunTable<V> {
    if cs == [] then map[]
    else
      var c, m := cs[|cs| - 1], FunTables(src, cs[..|cs| - 1]);
      if Tabulates(src, c, false) then AddFun(src, m, src.c2t[c], src.val(c)) else m
  }

  function ArrTables<V(==)>(src: Source<V>, cs: seq<Decl>): ArrTable<V> {
    if cs == [] then map[]
    else
      var c, m := cs[|cs| - 1], ArrTables(src, cs[..|cs| - 1]);
      if Tabulates(src, c, true) then AddArr(src, m, src.c2t[c], src.val(c)) else m
  }

  /** Constants of a class whose keys evaluate alike have the same value. */
  ghost predicate Functional<V(!new)>(src: Source<V>) {
    forall c1, c2 :: c1 in src.c2t && c2 in src.c2t && Keyed(src.c2t[c1]) && Keyed(src.c2t[c2])
                     && SameClass(src.c2t[c1], src.c2t[c2]) && Key(src, src.c2t[c1]) == Key(src, src.c2t[c2])
                     ==> src.val(c1) == src.val(c2)
  }

  /** Some constant of `cs` stands for an application of `d` to `key` and has `value`. */
  ghost predicate Given<V(!new)>(src: Source<V>, cs: seq<Decl>, d: Decl, key: seq<V>, value: V) {
    exists c :: c in cs && Tabulates(src, c, false) && src.c2t[c].decl == d
                && Key(src, src.c2t[c]) == key && src.val(c) == value
  }

  /** Some constant of `cs` stands for a select on `A` at `key` and has `value`. */
  ghost predicate GivenArr<V(!new)>(src: Source<V>, cs: seq<Decl>, A: Expr, key: seq<V>, value: V) {
    exists c :: c in cs && Tabulates(src, c, true) && src.c2t[c].args[0] == A
                && Key(src, src.c2t[c]) == key && src.val(c) == value
  }

  ghost predicate InTable<V>(m: FunTable<V>, d: Decl, key: seq<V>, value: V) {
    d in m && key in m[d] && m[d][key] == value
  }

  /** A function table holds exactly what the constants give, whatever their order. */
  lemma {:induction false} FunTablesExact<V(!new)>(src: Source<V>, cs: seq<Decl>, d: Decl, key: seq<V>, value: V)
    requires Functional(src)
    ensures InTable(FunTables(src, cs), d, key, value) <==> Given(src, cs, d, key, value)
  {
    if cs != [] {
      var n := |cs| - 1;
      var c0, m := cs[n], FunTables(src, cs[..n]);
      assert cs == cs[..n] + [c0];
      FunTablesExact(src, cs[..n], d, key, value);
      if Tabulates(src, c0, false) && src.c2t[c0].decl == d && Key(src, src.c2t[c0]) == key {
        if d in m && key in m[d] {
          FunTablesExact(src, cs[..n], d, key, m[d][key]);
          var c :| c in cs[..n] && Tabulates(src, c, false) && src.c2t[c].decl == d
                   && Key(src, src.c2t[c]) == key && src.val(c) == m[d][key];
          assert SameClass(src.c2t[c], src.c2t[c0]);
        }
        assert c0 in cs;
      }
      forall c | c in cs ensures c in cs[..n] || c == c0 {}
    }
  }

  /** In any source, functional or not, the first constant with a key decides. */
  lemma {:induction false} FirstEntryWins<V(!new)>(src: Source<V>, cs: seq<Decl>, d: Decl, key: seq<V>)
    ensures d in FunTables(src, cs) && key in FunTables(src, cs)[d] ==>
              exists i: nat :: FirstWith(src, cs, d, key, i) && FunTables(src, cs)[d][key] == src.val(cs[i])
    ensures (exists i: nat :: FirstWith(src, cs, d, key, i)) ==>
              d in FunTables(src, cs) && key in FunTables(src, cs)[d]
  {
    if cs != [] {
      var n := |cs| - 1;
      var m := FunTables(src, cs[..n]);
      FirstEntryWins(src, cs[..n], d, key);
      if d in m && key in m[d] {
        var i: nat :| FirstWith(src, cs[..n], d, key, i) && m[d][key] == src.val(cs[..n][i]);
        assert FirstWith(src, cs, d, key, i);
      } else {
        FirstShorter(src, cs, d, key);
        if d in FunTables(src, cs) && key in FunTables(src, cs)[d] { OnlyLast(src, cs, d, key); }
      }
    }
  }

  lemma FirstShorter<V(!new)>(src: Source<V>, cs: seq<Decl>, d: Decl, key: seq<V>)
    requires cs != []
    ensures var prev := cs[..|cs| - 1];
            forall i: nat :: FirstWith(src, cs, d, key, i) && i < |prev| ==> FirstWith(src, prev, d, key, i)
  {
  }

  lemma OnlyLast<V(!new)>(src: Source<V>, cs: seq<Decl>, d: Decl, key: seq<V>)
    requires cs != [] && d in FunTables(src, cs) && key in FunTables(src, cs)[d]
    requires var prev := cs[..|cs| - 1]; forall i: nat :: !FirstWith(src, prev, d, key, i)
    requires var m := FunTables(src, cs[..|cs| - 1]); !(d in m && key in m[d])
    ensures FirstWith(src, cs, d, key, |cs| - 1) && FunTables(src, cs)[d][key] == src.val(cs[|cs| - 1])
  {
    var n := |cs| - 1;
    NoneWith(src, cs[..n], d, key);
    forall j | 0 <= j < n ensures !HasKey(src, cs[j], d, key) { assert cs[..n][j] == cs[j]; }
  }

  lemma {:induction false} NoneWith<V(!new)>(src: Source<V>, cs: seq<Decl>, d: Decl, key: seq<V>)
    requires forall i: nat :: !FirstWith(src, cs, d, key, i)
    ensures forall j :: 0 <= j < |cs| ==> !HasKey(src, cs[j], d, key)
  {
    if cs != [] {
      var n := |cs| - 1;
      forall i: nat ensures !FirstWith(src, cs[..n], d, key, i) {
        if FirstWith(src, cs[..n], d, key, i) { assert FirstWith(src, cs, d, key, i); }
      }
      NoneWith(src, cs[..n], d, key);
      forall j | 0 <= j < n ensures !HasKey(src, cs[j], d, key) { assert cs[..n][j] == cs[j]; }
      assert HasKey(src, cs[n], d, key) ==> FirstWith(src, cs, d, key, n);
    }
  }

  ghost predicate HasKey<V>(src: Source<V>, c: Decl, d: Decl, key: seq<V>) {
    c in src.c2t && FunApp(src.c2t[c]) && src.c2t[c].decl == d && Key(src, src.c2t[c]) == key
  }

  ghost predicate FirstWith<V>(src: Source<V>, cs: seq<Decl>, d: Decl, key: seq<V>, i: nat) {
    i < |cs| && HasKey(src, cs[i], d, key) && forall j :: 0 <= j < i ==> !HasKey(src, cs[j], d, key)
  }

  lemma {:induction false} FunTablesKeys<V(!new)>(src: Source<V>, cs: seq<Decl>, d: Decl)
    ensures d in FunTables(src, cs) <==> exists c :: c in cs && Tabulates(src, c, false) && src.c2t[c].decl == d
  {
    if cs != [] {
      assert cs == cs[..|cs| - 1] + [cs[|cs| - 1]];
      FunTablesKeys(src, cs[..|cs| - 1], d);
    }
  }

  lemma GivenArrUnique<V(!new)>(src: Source<V>, cs: seq<Decl>, A: Expr, key: seq<V>, v1: V, v2: V)
    requires Functional(src) && GivenArr(src, cs, A, key, v1) && GivenArr(src, cs, A, key, v2)
    ensures v1 == v2
  {
    var c1 :| c1 in cs && Tabulates(src, c1, true) && src.c2t[c1].args[0] == A
              && Key(src, src.c2t[c1]) == key && src.val(c1) == v1;
    var c2 :| c2 in cs && Tabulates(src, c2, true) && src.c2t[c2].args[0] == A
              && Key(src, src.c2t[c2]) == key && src.val(c2) == v2;
    assert SameClass(src.c2t[c1], src.c2t[c2]);
  }

  lemma GivenArrLonger<V(!new)>(src: Source<V>, cs: seq<Decl>, A: Expr, key: seq<V>, value: V)
    requires cs != []
    ensures var c := cs[|cs| - 1];
            GivenArr(src, cs, A, key, value) <==>
              || GivenArr(src, cs[..|cs| - 1], A, key, value)
              || (Tabulates(src, c, true) && src.c2t[c].args[0] == A && Key(src, src.c2t[c]) == key
                  && src.val(c) == value)
  {
    var c := cs[|cs| - 1];
    assert cs == cs[..|cs| - 1] + [c];
    assert forall d :: d in cs <==> d in cs[..|cs| - 1] || d == c;
  }

  /** An array table holds every given value, although defaults are not stored. */
  lemma {:induction false} ArrTablesHold<V(!new)>(src: Source<V>, cs: seq<Decl>, A: Expr, key: seq<V>, value: V)
    requires Functional(src) && GivenArr(src, cs, A, key, value)
    ensures A in ArrTables(src, cs) && Lookup(ArrTables(src, cs)[A], key) == value
  {
    var n := |cs| - 1;
    var c0, m := cs[n], ArrTables(src, cs[..n]);
    GivenArrLonger(src, cs, A, key, value);
    if GivenArr(src, cs[..n], A, key, value) {
      ArrTablesHold(src, cs[..n], A, key, value);
      if Tabulates(src, c0, true) && src.c2t[c0].args[0] == A && Key(src, src.c2t[c0]) == key {
        GivenArrLonger(src, cs, A, key, src.val(c0));
        GivenArrUnique(src, cs, A, key, value, src.val(c0));
      }
    } else if A in m && DefaultOf(m[A]) == value {
      // not stored: an older entry at the same index has the default value too
      ArrTablesOnly(src, cs[..n], A, key);
      if GivenArr(src, cs[..n], A, key, Lookup(m[A], key)) {
        GivenArrLonger(src, cs, A, key, Lookup(m[A], key));
        GivenArrUnique(src, cs, A, key, value, Lookup(m[A], key));
      }
    }
  }

  /** No store holds the default of its array. */
  predicate StoresDiffer<V(==)>(e: ArrExpr<V>) {
    e.Store? ==> e.v != DefaultOf(e) && StoresDiffer(e.base)
  }

  lemma {:induction false} DefaultsNotStored<V(!new)>(src: Source<V>, cs: seq<Decl>, A: Expr)
    requires A in ArrTables(src, cs)
    ensures StoresDiffer(ArrTables(src, cs)[A])
  {
    var n := |cs| - 1;
    if A in ArrTables(src, cs[..n]) { DefaultsNotStored(src, cs[..n], A); }
  }

  /** Anywhere else it has the default. */
  lemma {:induction false} ArrTablesOnly<V(!new)>(src: Source<V>, cs: seq<Decl>, A: Expr, key: seq<V>)
    requires A in ArrTables(src, cs)
    ensures Lookup(ArrTables(src, cs)[A], key) == DefaultOf(ArrTables(src, cs)[A])
            || GivenArr(src, cs, A, key, Lookup(ArrTables(src, cs)[A], key))
  {
    var n := |cs| - 1;
    var c0, m := cs[n], ArrTables(src, cs[..n]);
    assert cs == cs[..n] + [c0];
    if A in m {
      ArrTablesOnly(src, cs[..n], A, key);
    }
    assert c0 in cs;
  }

  /** The default is the value of the first constant with a select on the array. */
  lemma {:induction false} ArrTablesDefault<V(!new)>(src: Source<V>, cs: seq<Decl>, A: Expr)
    ensures A in ArrTables(src, cs) <==> exists c :: c in cs && Tabulates(src, c, true) && src.c2t[c].args[0] == A
    ensures A in ArrTables(src, cs) ==>
              exists i: nat :: FirstOn(src, cs, A, i) && DefaultOf(ArrTables(src, cs)[A]) == src.val(cs[i])
  {
    if cs != [] {
      var n := |cs| - 1;
      var m := ArrTables(src, cs[..n]);
      assert cs == cs[..n] + [cs[n]];
      ArrTablesDefault(src, cs[..n], A);
      if A in m {
        var i: nat :| FirstOn(src, cs[..n], A, i) && DefaultOf(m[A]) == src.val(cs[..n][i]);
        assert FirstOn(src, cs, A, i);
      } else if A in ArrTables(src, cs) {
        forall j | 0 <= j < n && Tabulates(src, cs[j], true) ensures src.c2t[cs[j]].args[0] != A {
          assert cs[j] in cs[..n];
        }
        assert FirstOn(src, cs, A, n);
      }
    }
  }

  ghost predicate FirstOn<V>(src: Source<V>, cs: seq<Decl>, A: Expr, i: nat) {
    && i < |cs| && Tabulates(src, cs[i], true) && src.c2t[cs[i]].args[0] == A
    && forall j :: 0 <= j < i && Tabulates(src, cs[j], true) ==> src.c2t[cs[j]].args[0] != A
  }
}
