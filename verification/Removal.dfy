/** What the abstracted formulas no longer contain. */
module Removal {
  import opened Terms
  import opened AckrHelper
  import opened Abstraction
  import opened Congruence
  import opened Equisat
  import opened Encoding

  /** `y` is kept as an application, with its arguments abstracted. */
  ghost predicate Image(sub: Subst, y: Expr, x: Expr) {
    y.App? && x.App? && y !in sub && x.decl == y.decl && |x.args| == |y.args|
    && forall i :: 0 <= i < |y.args| ==> x.args[i] == Replace(sub, y.args[i])
  }

  /** A term of the abstraction is a fresh constant, a variable, or the image of a term of
      the input. */
  lemma {:induction false} ImageOf(sub: Subst, e: Expr, x: Expr)
    requires IsAbstraction(sub) && NoQuantifier(e) && x in Sub(Replace(sub, e))
    ensures x.Var? || (x.App? && x.args == [] && exists t :: t in sub && sub[t] == x)
            || exists y :: y in Sub(e) && Image(sub, y, x)
    decreases e
  {
    if e !in sub && e.App? {
      var r := Replace(sub, e);
      if x == r {
        assert Image(sub, e, x);
      } else {
        var i :| 0 <= i < |r.args| && x in Sub(r.args[i]);
        ArgNoQuantifier(e, i);
        ImageOf(sub, e.args[i], x);
        if y :| y in Sub(e.args[i]) && Image(sub, y, x) {
          assert e.args[i] in Sub(e);
          SubTransitive(y, e.args[i], e);
        }
      }
    } else {
      assert e in Sub(e);
    }
  }

  lemma ImageOfInput(fs: seq<Expr>, sub: Subst, x: Expr)
    requires Input(fs) && IsAbstraction(sub) && x in SubAll(ReplaceAll(sub, fs)) && x.App? && x.args != []
    ensures exists y :: y in SubAll(fs) && Image(sub, y, x)
  {
    var k :| 0 <= k < |fs| && x in Sub(ReplaceAll(sub, fs)[k]);
    ImageOf(sub, fs[k], x);
    var y :| y in Sub(fs[k]) && Image(sub, y, x);
    assert y in SubAll(fs);
  }

  /** `c` is the argument `i` of the application `y`. */
  predicate ArgAt(y: Expr, i: nat, c: Expr) { y.App? && i < |y.args| && y.args[i] == c }

  /** A select that is left on an uninterpreted constant: the constant is a fresh one, or
      the input also uses it other than as the array of a select. */
  lemma SelectsLeft(fs: seq<Expr>, sub: Subst, x: Expr)
    requires Input(fs) && Abstracts(sub, SubAll(fs)) && x in SubAll(ReplaceAll(sub, fs))
    requires x.App? && x.decl.kind.Select? && |x.args| > 0
    requires var c := x.args[0]; c.App? && c.args == [] && c.decl.kind.Uninterpreted? && c in SubAll(fs)
    ensures exists y, i: nat :: y in SubAll(fs) && ArgAt(y, i, x.args[0]) && !(y.decl.kind.Select? && i == 0)
  {
    ImageOfInput(fs, sub, x);
    var y :| y in SubAll(fs) && Image(sub, y, x);
    ArrayKept(fs, sub, y, x.args[0]);
    SelectNotCollected(sub, SubAll(fs), y);
    UsedElsewhere(SubAll(fs), x.args[0]);
  }

  lemma SelectNotCollected(sub: Subst, R: set<Expr>, y: Expr)
    requires Abstracts(sub, R) && y in R && y !in sub && y.App? && y.decl.kind.Select? && |y.args| > 0
    requires var c := y.args[0]; c.App? && c.args == [] && c.decl.kind.Uninterpreted?
    ensures y.args[0] in NonSelect(R)
  {
    assert IsSelect(y);
  }

  lemma UsedElsewhere(R: set<Expr>, c: Expr)
    requires c in NonSelect(R)
    ensures exists y, i: nat :: y in R && ArgAt(y, i, c) && !(y.decl.kind.Select? && i == 0)
  {
    var z :| z in R && z.App? && c in z.args && NonSelectArg(z, c);
    var i: int :| 0 <= i < |z.args| && z.args[i] == c && !(z.decl.kind.Select? && i == 0);
    assert ArgAt(z, i, c);
  }

  lemma ArrayKept(fs: seq<Expr>, sub: Subst, y: Expr, c: Expr)
    requires Input(fs) && Abstracts(sub, SubAll(fs)) && y in SubAll(fs) && y.App? && |y.args| > 0
    requires Replace(sub, y.args[0]) == c && c in SubAll(fs) && c.App? && c.args == []
    ensures y.args[0] == c
  {
    var a := y.args[0];
    assert a in sub ==> Apart(sub, a, c);
    assert a.App? && a.decl == c.decl && |a.args| == |ReplaceAll(sub, a.args)| == 0;
  }

  /** An application of a free symbol that is left: the input also lifts the symbol. */
  lemma ApplicationsLeft(fs: seq<Expr>, sub: Subst, x: Expr)
    requires Input(fs) && Abstracts(sub, SubAll(fs)) && x in SubAll(ReplaceAll(sub, fs))
    requires x.App? && |x.args| > 0 && (x.decl.kind.Uninterpreted? || x.decl.kind.PluginFree?)
    ensures exists y :: y in SubAll(fs) && y.App? && (y.decl.kind.AsArray? || y.decl.kind.ArrayMap?)
                        && y.decl.kind.f == x.decl
  {
    ImageOfInput(fs, sub, x);
    var y :| y in SubAll(fs) && Image(sub, y, x);
    assert FunApp(y) && y !in CollectedFuns(SubAll(fs));
    assert y.decl in NonFuns(SubAll(fs));
  }

  // ---------- what is replaced ----------

  /** Only two shapes of terms are replaced: an application of a free symbol that the input
      lifts nowhere, and a select on an uninterpreted constant that the input uses only as
      the array of selects. */
  lemma OnlyReplaced(fs: seq<Expr>, sub: Subst, t: Expr)
    requires Abstracts(sub, SubAll(fs)) && t in sub
    ensures t in SubAll(fs) && t.App? && |t.args| > 0
    ensures (&& (t.decl.kind.Uninterpreted? || t.decl.kind.PluginFree?)
             && forall y :: y in SubAll(fs) && y.App? && (y.decl.kind.AsArray? || y.decl.kind.ArrayMap?)
                            ==> y.decl.kind.f != t.decl)
         || (&& t.decl.kind.Select?
             && t.args[0].App? && t.args[0].args == [] && t.args[0].decl.kind.Uninterpreted?
             && forall y, i: nat :: y in SubAll(fs) && ArgAt(y, i, t.args[0]) ==> y.decl.kind.Select? && i == 0)
  {
    var R := SubAll(fs);
    if t in CollectedFuns(R) {
      assert t.decl !in NonFuns(R);
    } else {
      assert t in CollectedSels(R) && t.args[0] !in NonSelect(R);
      forall y, i: nat | y in R && ArgAt(y, i, t.args[0]) ensures y.decl.kind.Select? && i == 0 {
        NonSelectArgMarked(R, y, t.args[0]);
      }
    }
  }

  // ---------- the two sides of a group ----------

  /** An argument that is a value without arguments. */
  predicate PlainValue(x: Expr) { x.App? && x.decl.kind.Value? && x.args == [] }

  /** An application of values alone is grouped with those that need no lemma among each
      other; one with an argument that is no value is not. */
  lemma FunSides(f2t: FunMap, R: set<Expr>, t: Expr)
    requires FunGroups(f2t, R) && t in R && t.App? && t.args != []
    requires (t.decl.kind.Uninterpreted? || t.decl.kind.PluginFree?) && t.decl in f2t
    ensures (forall i :: 0 <= i < |t.args| ==> PlainValue(t.args[i])) ==> t in f2t[t.decl].constArgs
    ensures (exists i :: 0 <= i < |t.args| && !(t.args[i].App? && t.args[i].decl.kind.Value?)) ==>
              t in f2t[t.decl].varArgs
    ensures t in f2t[t.decl].constArgs <==> t !in f2t[t.decl].varArgs
  {
    assert FunApp(t) && KeyArgs(t) == t.args;
    ValuesUnique(t.args);
  }

  /** The same for selects, whose array does not count. */
  lemma SelSides(s2t: SelMap, R: set<Expr>, t: Expr)
    requires SelGroups(s2t, R) && t in R && t.App? && t.decl.kind.Select? && |t.args| > 0 && t.args[0] in s2t
    ensures (forall i :: 0 < i < |t.args| ==> PlainValue(t.args[i])) ==> t in s2t[t.args[0]].constArgs
    ensures (exists i :: 0 < i < |t.args| && !(t.args[i].App? && t.args[i].decl.kind.Value?)) ==>
              t in s2t[t.args[0]].varArgs
    ensures t in s2t[t.args[0]].constArgs <==> t !in s2t[t.args[0]].varArgs
  {
    var A := t.args[0];
    assert A in SelKeys(R) && IsUninterpConst(A) && IsSelect(t);
    ValuesUnique(KeyArgs(t));
    if i :| 0 < i < |t.args| && !(t.args[i].App? && t.args[i].decl.kind.Value?) {
      assert KeyArgs(t)[i - 1] == t.args[i];
    }
  }

  lemma ValuesUnique(es: seq<Expr>)
    ensures (forall i :: 0 <= i < |es| ==> PlainValue(es[i])) ==> AllUnique(es)
    ensures (exists i :: 0 <= i < |es| && !(es[i].App? && es[i].decl.kind.Value?)) ==> !AllUnique(es)
  {
    forall i | 0 <= i < |es| && PlainValue(es[i]) ensures IsUnique(es[i]) {}
  }
}
