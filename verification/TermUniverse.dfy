/** A structure in which everything holds that the theorems take for granted. There are two
    truth values, and as many bit-vectors as fit a width; other values are terms, and
    arrays are lists of stores. Lifting a function gives the array that reads like it, if
    there is one. */
module TermUniverse {
  import opened Terms
  import opened Powers
  import opened Distinctness

  datatype Element =
    | Built(d: Decl, args: seq<Element>)
    | Plain(s: Sort)
    | Filled(s: Sort, v: Element)
    | Stored(s: Sort, a: Element, i: seq<Element>, v: Element)

  predicate HasSort(e: Element, s: Sort) {
    match e
    case Built(d, args) => d.range == s && !s.ArraySort? && |args| == |d.domain| && d.kind.Value? && IsValueOf(d)
    case Plain(t) => t == s && s.Base? && s != BOOL
    case Filled(t, v) => t == s && s.ArraySort? && HasSort(v, s.range)
    case Stored(t, a, _, v) => t == s && s.ArraySort? && HasSort(a, s) && HasSort(v, s.range)
  }

  predicate HaveSorts(es: seq<Element>, ss: seq<Sort>) {
    |es| == |ss| && forall i :: 0 <= i < |es| ==> HasSort(es[i], ss[i])
  }

  function Truth(): Element { Built(TrueDecl(), []) }
  function Falsity(): Element { Built(FalseDecl(), []) }

  function Bool(b: bool): Element { if b then Truth() else Falsity() }

  function NumeralOf(s: Sort, n: nat): Element { Built(NumeralDecl(s, n), []) }

  /** Some element of each sort. */
  function Any(s: Sort): (r: Element)
    ensures HasSort(r, s)
  {
    match s
    case Base(_) => if s == BOOL then Falsity() else Plain(s)
    case Enumerated(_, _) => NumeralOf(s, 0)
    case BitVec(_) => NumeralOf(s, 0)
    case ArraySort(_, range) => Filled(s, Any(range))
  }

  /** An element of the sort, `e` if it has it. */
  function Cast(e: Element, s: Sort): (r: Element)
    ensures HasSort(r, s)
  {
    if HasSort(e, s) then e else Any(s)
  }

  /** Reading an array: the last store at the index, or the element it is filled with. */
  function Read(a: Element, j: seq<Element>): Element {
    match a
    case Filled(_, v) => v
    case Stored(_, b, i, v) => if i == j then v else Read(b, j)
    case _ => Falsity()
  }

  function NumberOf(e: Element): nat { if e.Built? && e.d.name.Numeral? then e.d.name.n else 0 }

  function Value(d: Decl, vs: seq<Element>): Element {
    if d.range.ArraySort? && |vs| == 1 then Filled(d.range, vs[0]) else Built(d, vs)
  }

  function Apply(d: Decl, vs: seq<Element>): Element { Cast(Raw(d, vs), d.range) }

  function Raw(d: Decl, vs: seq<Element>): Element {
    if d.kind.Value? then Value(d, vs)
    else if d.kind.Select? && |vs| > 0 then Read(vs[0], vs[1..])
    else if d.name == Named("=") && |vs| == 2 then Bool(vs[0] == vs[1])
    else if d.name == Named("=>") && |vs| == 2 then Bool(vs[0] == Truth() ==> vs[1] == Truth())
    else if d.name == Named("and") then Bool(forall i :: 0 <= i < |vs| ==> vs[i] == Truth())
    else if d.name == Named("bvadd") && d.range.BitVec? && |vs| == 2 then
      NumeralOf(d.range, (NumberOf(vs[0]) + NumberOf(vs[1])) % Pow2(d.range.size))
    else Any(d.range)
  }

  function Meaning(d: Decl): seq<Element> -> Element { (vs: seq<Element>) => Apply(d, vs) }

  function ReadAll(vs: seq<Element>, j: seq<Element>): (r: seq<Element>)
    ensures |r| == |vs|
  {
    seq(|vs|, k requires 0 <= k < |vs| => Read(vs[k], j))
  }

  /** What a lifted symbol has at index `j`: `as-array` reads the function, `map` applies
      it to what the arrays have there. */
  function LiftedAt(d: Decl, g: seq<Element> -> Element, vs: seq<Element>, j: seq<Element>): Element {
    if d.kind.AsArray? then g(j) else g(ReadAll(vs, j))
  }

  ghost predicate ReadsLike(a: Element, d: Decl, g: seq<Element> -> Element, vs: seq<Element>) {
    HasSort(a, d.range) && d.range.ArraySort?
    && forall j :: HaveSorts(j, d.range.domain) ==> Read(a, j) == LiftedAt(d, g, vs, j)
  }

  ghost function Lifted(d: Decl, g: seq<Element> -> Element, vs: seq<Element>): (a: Element)
    ensures HasSort(a, d.range)
    ensures (exists b :: ReadsLike(b, d, g, vs)) ==> ReadsLike(a, d, g, vs)
  {
    if b :| ReadsLike(b, d, g, vs) then b else Any(d.range)
  }

  ghost function Lift(d: Decl, g: seq<Element> -> Element): seq<Element> -> Element {
    (vs: seq<Element>) => Lifted(d, g, vs)
  }

  ghost function Universe(): Structure<Element> {
    Structure([], (v, s) => HasSort(v, s), s => Any(s), (d: Decl) => Meaning(d),
              (d: Decl, g: seq<Element> -> Element) => Lift(d, g), (q: Decl, m) => Any(q.range),
              (s, v) => Filled(s, v), (s, a, i, v) => Stored(s, a, i, v))
  }

  // ---------- sorts with their values and nothing else ----------

  /** The truth values are the values of the two constants, and those of a finite sort the
      values of its numerals. */
  ghost predicate OnlyValues<V(!new)>(S: Structure<V>) {
    && Tt(S) != S.interp(FalseDecl())([])
    && (forall v :: S.hasSort(v, BOOL) <==> v == Tt(S) || v == S.interp(FalseDecl())([]))
    && (forall s: Sort, v :: s.Enumerated? || s.BitVec? ==> (S.hasSort(v, s) <==> IsNumeralOf(S, s, v)))
  }

  ghost predicate IsNumeralOf<V(!new)>(S: Structure<V>, s: Sort, v: V) {
    exists n: nat :: IsValueOf(NumeralDecl(s, n)) && v == S.interp(NumeralDecl(s, n))([])
  }

  lemma NumeralMeaning(s: Sort, n: nat)
    requires !s.ArraySort? && IsValueOf(NumeralDecl(s, n))
    ensures Meaning(NumeralDecl(s, n))([]) == NumeralOf(s, n) && HasSort(NumeralOf(s, n), s)
  {
  }

  lemma FiniteSorts(s: Sort, v: Element)
    requires s.Enumerated? || s.BitVec?
    ensures HasSort(v, s) <==> IsNumeralOf(Universe(), s, v)
  {
    if HasSort(v, s) {
      assert v == NumeralOf(s, v.d.name.n);
      NumeralMeaning(s, v.d.name.n);
    }
    if n: nat :| IsValueOf(NumeralDecl(s, n)) && v == Universe().interp(NumeralDecl(s, n))([]) {
      NumeralMeaning(s, n);
    }
  }

  lemma SortsAreValues()
    ensures OnlyValues(Universe())
  {
    var S := Universe();
    assert Tt(S) == Truth() && S.interp(FalseDecl())([]) == Falsity();
    forall v ensures S.hasSort(v, BOOL) <==> v == Truth() || v == Falsity() {}
    forall s: Sort, v | s.Enumerated? || s.BitVec? ensures S.hasSort(v, s) <==> IsNumeralOf(S, s, v) {
      FiniteSorts(s, v);
    }
  }

  // ---------- the assumptions ----------

  /** A value term denotes what it says. */
  lemma {:induction false} ValueMeaning(M: Model<Element>, a: Expr)
    requires IsUnique(a) && WellSorted(a)
    ensures HasSort(Eval(Universe(), M, a), SortOf(a))
    ensures Eval(Universe(), M, a) == Value(a.decl, EvalAll(Universe(), M, a.args))
    decreases a
  {
    forall i | 0 <= i < |a.args| ensures HasSort(EvalAll(Universe(), M, a.args)[i], a.decl.domain[i]) {
      ValueMeaning(M, a.args[i]);
    }
    assert Eval(Universe(), M, a) == Apply(a.decl, EvalAll(Universe(), M, a.args));
  }

  /** Different value terms of a sort denote different elements. */
  lemma {:induction false} ValuesDiffer(M: Model<Element>, a: Expr, b: Expr)
    requires IsUnique(a) && IsUnique(b) && Comparable(a, b) && Eval(Universe(), M, a) == Eval(Universe(), M, b)
    ensures a == b
    decreases a
  {
    var us, ws := EvalAll(Universe(), M, a.args), EvalAll(Universe(), M, b.args);
    ValueMeaning(M, a);
    ValueMeaning(M, b);
    assert a.decl == b.decl && us == ws;
    forall i | 0 <= i < |a.args| ensures a.args[i] == b.args[i] {
      assert us[i] == ws[i];
      ValuesDiffer(M, a.args[i], b.args[i]);
    }
    assert a.args == b.args;
  }

  lemma BooleansOk()
    ensures BoolOk(Universe())
  {
    var S := Universe();
    assert Tt(S) == Truth();
    forall s, a, b ensures S.interp(EqDecl(s))([a, b]) == Tt(S) <==> a == b {}
    forall a, b ensures S.interp(ImpliesDecl())([a, b]) == Tt(S) <==> (a == Tt(S) ==> b == Tt(S)) {}
    forall vs: seq<Element>
      ensures S.interp(AndDecl(|vs|))(vs) == Tt(S) <==> forall i :: 0 <= i < |vs| ==> vs[i] == Tt(S) {}
  }

  lemma SelectReads(s: Sort, a: Element, j: seq<Element>)
    requires s.ArraySort?
    ensures Meaning(SelectDecl(s))([a] + j) == Cast(Read(a, j), s.range)
  {
    assert ([a] + j)[1..] == j;
  }

  lemma ArraysRead()
    ensures ArraysOk(Universe())
  {
    var S := Universe();
    forall s: Sort, v, j | s.ArraySort? && S.hasSort(v, s.range)
      ensures S.interp(SelectDecl(s))([S.constArray(s, v)] + j) == v
    {
      SelectReads(s, Filled(s, v), j);
    }
    forall s: Sort, a, i, v, j | s.ArraySort? && S.hasSort(v, s.range)
      ensures S.interp(SelectDecl(s))([S.store(s, a, i, v)] + j)
              == if i == j then v else S.interp(SelectDecl(s))([a] + j)
    {
      SelectReads(s, Stored(s, a, i, v), j);
      SelectReads(s, a, j);
    }
  }

  lemma SumMeaning(s: Sort, n: nat, m: nat)
    requires s.BitVec? && IsValueOf(NumeralDecl(s, n))
    ensures Plus(Universe(), s, n, NumeralOf(s, m)) == NumeralOf(s, (n + m) % Pow2(s.size))
  {
    NumeralMeaning(s, n);
    var d, vs := AddDecl(s), [NumeralOf(s, n), NumeralOf(s, m)];
    assert Raw(d, vs) == NumeralOf(s, (n + m) % Pow2(s.size));
    assert Universe().interp(d) == Meaning(d);
  }

  lemma SumsDiffer(s: Sort, j: nat, k: nat, m: nat)
    requires s.BitVec? && IsValueOf(NumeralDecl(s, j)) && IsValueOf(NumeralDecl(s, k)) && j != k && m < Pow2(s.size)
    ensures (j + m) % Pow2(s.size) != (k + m) % Pow2(s.size)
  {
    ModOnce(j + m, Pow2(s.size));
    ModOnce(k + m, Pow2(s.size));
  }

  lemma SumsOk()
    ensures AddOk(Universe())
  {
    var S := Universe();
    forall s: Sort, x | s.BitVec? && S.hasSort(x, s) ensures Plus(S, s, 0, x) == x {
      SumMeaning(s, 0, x.d.name.n);
      ModOnce(x.d.name.n, Pow2(s.size));
    }
    forall s: Sort, j: nat, k: nat, x | s.BitVec? && S.hasSort(x, s) && IsValueOf(NumeralDecl(s, j))
                                        && IsValueOf(NumeralDecl(s, k)) && j != k
      ensures Plus(S, s, j, x) != Plus(S, s, k, x)
    {
      SumMeaning(s, j, x.d.name.n);
      SumMeaning(s, k, x.d.name.n);
      SumsDiffer(s, j, k, x.d.name.n);
    }
  }

  /** The assumptions can be met, with two truth values and finite bit-vector sorts. */
  lemma AssumptionsHold()
    ensures StructureOk(Universe()) && AddOk(Universe()) && OnlyValues(Universe())
  {
    BooleansOk();
    ArraysRead();
    SumsOk();
    SortsAreValues();
    forall M, a, b | AreDistinct(a, b) && Comparable(a, b) ensures Eval(Universe(), M, a) != Eval(Universe(), M, b) {
      if Eval(Universe(), M, a) == Eval(Universe(), M, b) { ValuesDiffer(M, a, b); }
    }
  }
}
