/** The table of abstracted terms (ackr_info) and the replacer that uses it. */
module Abstraction {
  import opened Terms

  datatype Option<+T> = None | Some(value: T)

  type Subst = map<Expr, Expr>

  /** The expression replacer: a key is replaced as a whole, whatever it contains. */
  function Replace(sub: Subst, e: Expr): Expr
    decreases e
  {
    if e in sub then sub[e]
    else match e
      case Var(_, _) => e
      case App(d, args) => App(d, ReplaceAll(sub, args))
      case Quant(q, body) => Quant(q, Replace(sub, body))
  }

  function ReplaceAll(sub: Subst, es: seq<Expr>): (r: seq<Expr>)
    ensures |r| == |es|
    ensures forall i :: 0 <= i < |es| ==> r[i] == Replace(sub, es[i])
    decreases es
  {
    seq(|es|, i requires 0 <= i < |es| => Replace(sub, es[i]))
  }

  predicate IsConstant(c: Expr) {
    IsUninterpConst(c) && c.decl.domain == []
  }

  /** Every key is an application with arguments, its image is a constant of the
      same sort, and different keys have different constants. */
  ghost predicate IsAbstraction(sub: Subst) {
    && (forall t :: t in sub ==> t.App? && t.args != [] && IsConstant(sub[t]) && SortOf(sub[t]) == SortOf(t))
    && (forall t, u {:trigger sub[t], sub[u]} :: t in sub && u in sub && sub[t] == sub[u] ==> t == u)
  }

  ghost predicate Inverse(t2c: Subst, c2t: map<Decl, Expr>) {
    && (forall t :: t in t2c ==> t2c[t].App? && t2c[t].decl in c2t && c2t[t2c[t].decl] == t)
    && (forall c :: c in c2t ==> c2t[c] in t2c && t2c[c2t[c]] == App(c, []))
  }

  class AckrInfo {
    var t2c: Subst             // terms to constants
    var c2t: map<Decl, Expr>   // constants to terms
    var subst: Subst           // what the replacer applies once sealed
    var isSealed: bool

    ghost predicate Valid()
      reads this
    {
      subst == t2c && IsAbstraction(t2c) && Inverse(t2c, c2t)
    }

    constructor ()
      ensures Valid() && t2c == map[] && !isSealed
    {
      t2c, c2t, subst, isSealed := map[], map[], map[], false;
    }

    method SetAbstr(term: Expr, c: Expr)
      requires Valid() && !isSealed
      requires term.App? && term.args != [] && term !in t2c
      requires IsConstant(c) && SortOf(c) == SortOf(term) && c.decl !in c2t
      modifies this
      ensures Valid() && !isSealed && t2c == old(t2c)[term := c] && c2t == old(c2t)[c.decl := term]
    {
      t2c := t2c[term := c];
      c2t := c2t[c.decl := term];
      subst := subst[term := c];
    }

    method Seal()
      requires Valid()
      modifies this
      ensures Valid() && isSealed && t2c == old(t2c) && c2t == old(c2t)
    {
      isSealed := true;
    }

    function Abstract(e: Expr): (r: Expr)
      requires Valid() && isSealed
      reads this
      ensures r == Replace(t2c, e)
    {
      Replace(subst, e)
    }

    function FindTerm(c: Decl): (r: Option<Expr>)
      requires Valid()
      reads this
      ensures r.Some? <==> exists t :: t in t2c && t2c[t] == App(c, [])
      ensures r.Some? ==> r.value in t2c && t2c[r.value] == App(c, [])
    {
      if c in c2t then Some(c2t[c]) else None
    }

    function GetAbstr(term: Expr): (c: Expr)
      requires Valid() && term in t2c
      reads this
      ensures c == t2c[term]
    {
      t2c[term]
    }
  }
}
