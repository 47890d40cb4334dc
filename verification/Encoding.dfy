/** The groups that drive the encoder, and why visiting them covers every class. */
module Encoding {
  import opened Terms
  import opened AckrHelper
  import opened Abstraction
  import opened Congruence
  import opened Equisat
  import opened BackTranslate
  import opened LemmaBound
  import opened Pairing

  /** The groups left after pruning. */
  ghost predicate FunGroups(f2t: FunMap, R: set<Expr>) {
    f2t.Keys == FunKeys(R) - NonFuns(R) && forall d :: d in f2t ==> f2t[d] == FunOcc(R, d)
  }

  ghost predicate SelGroups(s2t: SelMap, R: set<Expr>) {
    s2t.Keys == SelKeys(R) - NonSelect(R) && forall A :: A in s2t ==> s2t[A] == SelOcc(R, A)
  }

  lemma FunGroupMember(f2t: FunMap, R: set<Expr>, d: Decl, t: Expr)
    requires FunGroups(f2t, R) && d in f2t
    ensures t in f2t[d].All() <==> t in CollectedFuns(R) && t.decl == d
    ensures t in f2t[d].varArgs <==> t in CollectedFuns(R) && t.decl == d && !ConstArgs(t)
  {
  }

  lemma SelGroupMember(s2t: SelMap, R: set<Expr>, A: Expr, t: Expr)
    requires SelGroups(s2t, R) && A in s2t
    ensures t in s2t[A].All() <==> t in CollectedSels(R) && t.args[0] == A
    ensures t in s2t[A].varArgs <==> t in CollectedSels(R) && t.args[0] == A && !ConstArgs(t)
  {
  }

  /** A group whose applications have constants and equally many arguments. */
  ghost predicate GroupReady(sub: Subst, ts: AppOcc) {
    && ts.varArgs !! ts.constArgs
    && (forall t :: t in ts.All() ==> t.App? && t in sub)
    && exists n: nat :: OfArity(ts, n)
  }

  ghost predicate OfArity(ts: AppOcc, n: nat) {
    forall t :: t in ts.All() ==> t.App? && |t.args| == n
  }

  ghost predicate GroupsReady<K(!new)>(sub: Subst, groups: map<K, AppOcc>) {
    DisjointGroups(groups) && forall k :: k in groups ==> GroupReady(sub, groups[k])
  }

  lemma FunGroupsReady(fs: seq<Expr>, sub: Subst, f2t: FunMap)
    requires Input(fs) && CollectedFuns(SubAll(fs)) <= sub.Keys && FunGroups(f2t, SubAll(fs))
    ensures GroupsReady(sub, f2t)
  {
    var R := SubAll(fs);
    forall d | d in f2t ensures GroupReady(sub, f2t[d]) {
      forall t | t in f2t[d].All() ensures t in CollectedFuns(R) && |t.args| == |d.domain| {
        FunGroupMember(f2t, R, d, t);
        ReachWellSorted(fs, t);
      }
      assert OfArity(f2t[d], |d.domain|);
    }
  }

  lemma SelGroupsReady(fs: seq<Expr>, sub: Subst, s2t: SelMap)
    requires Input(fs) && CollectedSels(SubAll(fs)) <= sub.Keys && SelGroups(s2t, SubAll(fs))
    ensures GroupsReady(sub, s2t)
  {
    forall A | A in s2t ensures GroupReady(sub, s2t[A]) { SelGroupReady(fs, sub, s2t, A); }
    SelGroupsDisjoint(SubAll(fs), s2t);
  }

  lemma SelGroupsDisjoint(R: set<Expr>, s2t: SelMap)
    requires SelGroups(s2t, R)
    ensures DisjointGroups(s2t)
  {
    forall A, B, t | A in s2t && B in s2t && t in s2t[A].All() && t in s2t[B].All() ensures A == B {
      SelGroupMember(s2t, R, A, t);
      SelGroupMember(s2t, R, B, t);
    }
  }

  lemma SelGroupReady(fs: seq<Expr>, sub: Subst, s2t: SelMap, A: Expr)
    requires Input(fs) && CollectedSels(SubAll(fs)) <= sub.Keys && SelGroups(s2t, SubAll(fs)) && A in s2t
    ensures GroupReady(sub, s2t[A])
  {
    SelGroupDisjoint(s2t, SubAll(fs), A);
    forall t | t in s2t[A].All() ensures t.App? && t in sub { SelGroupPair(fs, s2t, A, t, t); }
    SelGroupArity(fs, s2t, A);
  }

  lemma SelGroupArity(fs: seq<Expr>, s2t: SelMap, A: Expr)
    requires Input(fs) && SelGroups(s2t, SubAll(fs)) && A in s2t
    ensures exists n: nat :: OfArity(s2t[A], n)
  {
    var o := s2t[A];
    if t :| t in o.All() {
      forall u | u in o.All() ensures t.App? && u.App? && |u.args| == |t.args| { SelGroupPair(fs, s2t, A, u, t); }
      assert OfArity(o, |t.args|);
    } else {
      assert OfArity(o, 0);
    }
  }

  lemma SelGroupDisjoint(s2t: SelMap, R: set<Expr>, A: Expr)
    requires SelGroups(s2t, R) && A in s2t
    ensures s2t[A].varArgs !! s2t[A].constArgs
  {
  }

  lemma SelGroupPair(fs: seq<Expr>, s2t: SelMap, A: Expr, t: Expr, u: Expr)
    requires Input(fs) && SelGroups(s2t, SubAll(fs)) && A in s2t && t in s2t[A].All() && u in s2t[A].All()
    ensures t in CollectedSels(SubAll(fs)) && |t.args| == |u.args|
  {
    SelGroupMember(s2t, SubAll(fs), A, t);
    SelGroupMember(s2t, SubAll(fs), A, u);
    ReachWellSorted(fs, t);
    ReachWellSorted(fs, u);
    SameClassSameDecl(t, u);
  }

  /** Each unordered pair of a class with a non-constant member is tried exactly once. */
  ghost predicate TriesAllClasses(sub: Subst, tried: seq<Pair>) {
    && Once(tried)
    && (forall p :: p in tried ==> p.0 in sub && p.1 in sub && SameClass(p.0, p.1) && p.0 != p.1)
    && (forall t, u :: t in sub && u in sub && SameClass(t, u) && t != u && !(ConstArgs(t) && ConstArgs(u))
                       ==> (t, u) in tried || (u, t) in tried)
  }

  ghost predicate Groups(R: set<Expr>, f2t: FunMap, s2t: SelMap, funs: seq<Pair>, sels: seq<Pair>) {
    && FunGroups(f2t, R) && SelGroups(s2t, R)
    && GroupsTried(f2t, {}, funs) && GroupsTried(s2t, {}, sels)
  }

  lemma FunPair(R: set<Expr>, f2t: FunMap, funs: seq<Pair>, p: Pair)
    requires FunGroups(f2t, R) && GroupsTried(f2t, {}, funs) && p in funs
    ensures p.0 in CollectedFuns(R) && p.1 in CollectedFuns(R) && SameClass(p.0, p.1) && p.0 != p.1
  {
    var d :| d in f2t && p.0 in f2t[d].varArgs && p.1 in f2t[d].All() && p.0 != p.1;
    FunGroupMember(f2t, R, d, p.0);
    FunGroupMember(f2t, R, d, p.1);
  }

  lemma SelPair(R: set<Expr>, s2t: SelMap, sels: seq<Pair>, p: Pair)
    requires SelGroups(s2t, R) && GroupsTried(s2t, {}, sels) && p in sels
    ensures p.0 in CollectedSels(R) && p.1 in CollectedSels(R) && SameClass(p.0, p.1) && p.0 != p.1
  {
    var A :| A in s2t && p.0 in s2t[A].varArgs && p.1 in s2t[A].All() && p.0 != p.1;
    SelGroupMember(s2t, R, A, p.0);
    SelGroupMember(s2t, R, A, p.1);
  }

  lemma TriesFunPair(R: set<Expr>, f2t: FunMap, funs: seq<Pair>, t: Expr, u: Expr)
    requires FunGroups(f2t, R) && GroupsTried(f2t, {}, funs)
    requires t in CollectedFuns(R) && u in CollectedFuns(R) && t.decl == u.decl && t != u
    requires !(ConstArgs(t) && ConstArgs(u))
    ensures (t, u) in funs || (u, t) in funs
  {
    var d := t.decl;
    assert d in f2t by { assert d in FunKeys(R); }
    FunGroupMember(f2t, R, d, t);
    FunGroupMember(f2t, R, d, u);
    assert t in f2t[d].varArgs || u in f2t[d].varArgs;
  }

  lemma TriesSelPair(R: set<Expr>, s2t: SelMap, sels: seq<Pair>, t: Expr, u: Expr)
    requires SelGroups(s2t, R) && GroupsTried(s2t, {}, sels)
    requires t in CollectedSels(R) && u in CollectedSels(R) && t.args[0] == u.args[0] && t != u
    requires !(ConstArgs(t) && ConstArgs(u))
    ensures (t, u) in sels || (u, t) in sels
  {
    var A := t.args[0];
    assert A in s2t by { assert A in SelKeys(R); }
    SelGroupMember(s2t, R, A, t);
    SelGroupMember(s2t, R, A, u);
    assert t in s2t[A].varArgs || u in s2t[A].varArgs;
  }

  lemma TriesBoth(R: set<Expr>, sub: Subst, f2t: FunMap, s2t: SelMap, funs: seq<Pair>, sels: seq<Pair>)
    requires Groups(R, f2t, s2t, funs, sels) && sub.Keys == CollectedFuns(R) + CollectedSels(R)
    ensures TriesAllClasses(sub, funs + sels)
  {
    var tried := funs + sels;
    forall p | p in tried ensures p.0 in sub && p.1 in sub && SameClass(p.0, p.1) && p.0 != p.1 {
      if p in funs { FunPair(R, f2t, funs, p); } else { SelPair(R, s2t, sels, p); }
    }
    forall i, j | 0 <= i < |funs| && 0 <= j < |sels| ensures !SamePair(funs[i], sels[j]) {
      FunPair(R, f2t, funs, funs[i]);
      SelPair(R, s2t, sels, sels[j]);
    }
    OnceConcat(funs, sels);
    forall t, u | t in sub && u in sub && SameClass(t, u) && t != u && !(ConstArgs(t) && ConstArgs(u))
      ensures (t, u) in tried || (u, t) in tried
    {
      if t in CollectedFuns(R) {
        TriesFunPair(R, f2t, funs, t, u);
      } else {
        TriesSelPair(R, s2t, sels, t, u);
      }
    }
  }

  // ---------- a visit exists, and its size is known ----------

  lemma GroupVisit(ts: AppOcc) returns (tried: seq<Pair>)
    requires ts.varArgs !! ts.constArgs
    ensures GroupTried(ts, tried)
  {
    var q, cs := SomeOrder(ts.varArgs), SomeOrder(ts.constArgs);
    RowsTryGroup(ts, q, cs);
    tried := Rows(q, cs, |q|);
  }

  lemma GroupsVisit<K(!new)>(sub: Subst, groups: map<K, AppOcc>) returns (tried: seq<Pair>)
    requires GroupsReady(sub, groups)
    ensures GroupsTried(groups, {}, tried) && |tried| == TotalPairs(groups)
  {
    var rest := groups;
    tried := [];
    while rest.Keys != {}
      invariant rest.Keys <= groups.Keys && forall k :: k in rest ==> rest[k] == groups[k]
      invariant GroupsTried(groups, rest.Keys, tried) && |tried| + TotalPairs(rest) == TotalPairs(groups)
      decreases |rest|
    {
      var k :| k in rest;
      assert GroupReady(sub, groups[k]);
      var more := GroupVisit(rest[k]);
      GroupsTriedStep(groups, rest.Keys, tried, k, more);
      TotalPairsRemove(rest, k);
      tried, rest := tried + more, rest - {k};
    }
  }

  /** The pairs that the encoding has to consider. */
  lemma SomeVisit(fs: seq<Expr>, sub: Subst, f2t: FunMap, s2t: SelMap) returns (tried: seq<Pair>)
    requires Input(fs) && sub.Keys == CollectedFuns(SubAll(fs)) + CollectedSels(SubAll(fs))
    requires FunGroups(f2t, SubAll(fs)) && SelGroups(s2t, SubAll(fs))
    ensures TriesAllClasses(sub, tried) && |tried| == TotalPairs(f2t) + TotalPairs(s2t)
  {
    FunGroupsReady(fs, sub, f2t);
    SelGroupsReady(fs, sub, s2t);
    var funs := GroupsVisit(sub, f2t);
    var sels := GroupsVisit(sub, s2t);
    TriesBoth(SubAll(fs), sub, f2t, s2t, funs, sels);
    tried := funs + sels;
  }

  /** The lemmas of such a visit are an ackermannization. */
  lemma TriedIsAckermannized(fs: seq<Expr>, sub: Subst, c2t: map<Decl, Expr>, th: Theory, tried: seq<Pair>)
    requires Input(fs) && Abstracts(sub, SubAll(fs)) && Inverse(sub, c2t) && TriesAllClasses(sub, tried)
    ensures Ackermannized(fs, sub, c2t, th, AllLemmas(sub, th, tried))
  {
    var ls := AllLemmas(sub, th, tried);
    forall t | t in sub ensures WellSorted(t) { ReachWellSorted(fs, t); }
    TriedCovers(sub, th, tried);
    TriedOnly(sub, th, tried);
  }

  lemma TriedCovers(sub: Subst, th: Theory, tried: seq<Pair>)
    requires IsAbstraction(sub) && KeepsConnectives(sub) && (forall t :: t in sub ==> WellSorted(t))
    requires TriesAllClasses(sub, tried)
    ensures AllCovered(sub, th, AllLemmas(sub, th, tried))
  {
    var ls := AllLemmas(sub, th, tried);
    AllLemmasMember(sub, th, tried);
    forall t, u | t in sub && u in sub && SameClass(t, u) && t != u && !(ConstArgs(t) && ConstArgs(u))
      ensures |t.args| == |u.args| && Covered(sub, th, ls, t, u)
    {
      SameClassSameDecl(t, u);
      if (t, u) in tried {
        assert forall l :: l in PairLemmas(sub, th, (t, u)) ==> l in ls;
      } else {
        assert forall l :: l in PairLemmas(sub, th, (u, t)) ==> l in ls;
      }
    }
  }

  lemma TriedOnly(sub: Subst, th: Theory, tried: seq<Pair>)
    requires IsAbstraction(sub) && TriesAllClasses(sub, tried)
    ensures OnlyLemmas(sub, th, AllLemmas(sub, th, tried))
  {
    var ls := AllLemmas(sub, th, tried);
    AllLemmasMember(sub, th, tried);
    forall l | l in ls
      ensures exists t, u :: t in sub && u in sub && SameClass(t, u) && |t.args| == |u.args|
                             && l in Emitted(sub, th, t, u)
    {
      var p :| p in tried && l in PairLemmas(sub, th, p);
      assert l in Emitted(sub, th, p.0, p.1);
    }
  }
}
