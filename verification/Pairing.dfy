/** The order in which the encoder visits the pairs of a group, and what it covers. */
module Pairing {
  import opened Terms
  import opened AckrHelper
  import opened Abstraction
  import opened Congruence
  import opened LemmaBound

  type Pair = (Expr, Expr)

  predicate SamePair(p: Pair, q: Pair) { p == q || p == (q.1, q.0) }

  /** No unordered pair occurs twice. */
  ghost predicate Once(ps: seq<Pair>) {
    forall i, j :: 0 <= i < j < |ps| ==> !SamePair(ps[i], ps[j])
  }

  function PairUp(t: Expr, us: seq<Expr>): (r: seq<Pair>)
    ensures |r| == |us|
  {
    seq(|us|, i requires 0 <= i < |us| => (t, us[i]))
  }

  /** Row `j`: the element against the later ones, then against the constant ones. */
  function Row(q: seq<Expr>, cs: seq<Expr>, j: nat): (r: seq<Pair>)
    requires j < |q|
    ensures |r| == |q| - j - 1 + |cs|
  {
    PairUp(q[j], q[j + 1..]) + PairUp(q[j], cs)
  }

  function Rows(q: seq<Expr>, cs: seq<Expr>, n: nat): seq<Pair>
    requires n <= |q|
  {
    if n == 0 then [] else Rows(q, cs, n - 1) + Row(q, cs, n - 1)
  }

  lemma RowsArithmetic(n: int, q: int, c: int)
    ensures (n - 1) * (2 * q - n + 2 * c) + 2 * (q - n + c) == n * (2 * q - n - 1 + 2 * c)
  {
  }

  lemma {:induction false} RowsLength(q: seq<Expr>, cs: seq<Expr>, n: nat)
    requires n <= |q|
    ensures 2 * |Rows(q, cs, n)| == n * (2 * |q| - n - 1 + 2 * |cs|)
  {
    if n > 0 {
      RowsLength(q, cs, n - 1);
      RowsArithmetic(n, |q|, |cs|);
    }
  }

  ghost predicate InRow(q: seq<Expr>, cs: seq<Expr>, p: Pair, j: nat) {
    j < |q| && p.0 == q[j] && ((exists k :: j < k < |q| && p.1 == q[k]) || p.1 in cs)
  }

  lemma RowMember(q: seq<Expr>, cs: seq<Expr>, p: Pair, j: nat)
    requires j < |q|
    ensures p in Row(q, cs, j) <==> InRow(q, cs, p, j)
  {
    if InRow(q, cs, p, j) {
      if k :| j < k < |q| && p.1 == q[k] {
        assert Row(q, cs, j)[k - j - 1] == p;
      } else {
        var i :| 0 <= i < |cs| && cs[i] == p.1;
        assert Row(q, cs, j)[|q| - j - 1 + i] == p;
      }
    }
  }

  lemma {:induction false} RowsMember(q: seq<Expr>, cs: seq<Expr>, p: Pair, n: nat)
    requires n <= |q|
    ensures p in Rows(q, cs, n) <==> exists j: nat :: j < n && InRow(q, cs, p, j)
  {
    if n > 0 {
      RowsMember(q, cs, p, n - 1);
      RowMember(q, cs, p, n - 1);
    }
  }

  lemma RowOnce(q: seq<Expr>, cs: seq<Expr>, j: nat)
    requires j < |q| && Distinct(q + cs)
    ensures Once(Row(q, cs, j))
  {
    var r, all := Row(q, cs, j), q + cs;
    forall a | 0 <= a < |r| ensures r[a] == (all[j], all[j + 1 + a]) {}
  }

  lemma {:induction false} RowsOnce(q: seq<Expr>, cs: seq<Expr>, n: nat)
    requires n <= |q| && Distinct(q + cs)
    ensures Once(Rows(q, cs, n))
  {
    if n > 0 {
      var r, s := Rows(q, cs, n - 1), Row(q, cs, n - 1);
      RowsOnce(q, cs, n - 1);
      RowOnce(q, cs, n - 1);
      forall i, j | 0 <= i < |r| && 0 <= j < |s| ensures !SamePair(r[i], s[j]) {
        RowsMember(q, cs, r[i], n - 1);
        RowMember(q, cs, s[j], n - 1);
        EarlierRowDiffers(q, cs, r[i], s[j], n - 1);
      }
      OnceConcat(r, s);
    }
  }

  lemma EarlierRowDiffers(q: seq<Expr>, cs: seq<Expr>, p: Pair, s: Pair, n: nat)
    requires Distinct(q + cs) && InRow(q, cs, s, n) && exists j: nat :: j < n && InRow(q, cs, p, j)
    ensures !SamePair(p, s)
  {
    var all := q + cs;
    var j: nat :| j < n && InRow(q, cs, p, j);
    assert all[j] == p.0 && all[n] == s.0;
    assert s.1 != q[j] by {
      if k :| n < k < |q| && s.1 == q[k] {
        assert all[k] == s.1;
      } else {
        var i :| 0 <= i < |cs| && cs[i] == s.1;
        assert all[|q| + i] == s.1;
      }
    }
  }

  lemma OnceConcat(r: seq<Pair>, s: seq<Pair>)
    requires Once(r) && Once(s) && forall i, j :: 0 <= i < |r| && 0 <= j < |s| ==> !SamePair(r[i], s[j])
    ensures Once(r + s)
  {
  }

  // ---------- what a group's visit achieves ----------

  /** Each pair with a non-constant member is tried, and no other pair. */
  ghost predicate GroupCovered(o: AppOcc, ps: seq<Pair>) {
    && (forall p :: p in ps ==> p.0 in o.varArgs && p.1 in o.All() && p.0 != p.1)
    && (forall a, b :: a in o.varArgs && b in o.All() && a != b ==> (a, b) in ps || (b, a) in ps)
  }

  /** ... exactly once. */
  ghost predicate GroupTried(o: AppOcc, ps: seq<Pair>) {
    GroupCovered(o, ps) && Once(ps) && |ps| == Pairs(o)
  }

  lemma DistinctConcat(q: seq<Expr>, cs: seq<Expr>)
    requires Distinct(q) && Distinct(cs) && forall x :: x in q ==> x !in cs
    ensures Distinct(q + cs)
  {
    var all := q + cs;
    forall i, j | 0 <= i < j < |all| ensures all[i] != all[j] {
      if i < |q| <= j {
        assert all[i] == q[i] && q[i] in q && all[j] == cs[j - |q|] && cs[j - |q|] in cs;
      }
    }
  }

  lemma RowsCover(q: seq<Expr>, cs: seq<Expr>, a: Expr, b: Expr)
    requires a in q && a != b
    ensures b in q ==> (a, b) in Rows(q, cs, |q|) || (b, a) in Rows(q, cs, |q|)
    ensures b in cs ==> (a, b) in Rows(q, cs, |q|)
  {
    var i :| 0 <= i < |q| && q[i] == a;
    RowsMember(q, cs, (a, b), |q|);
    RowsMember(q, cs, (b, a), |q|);
    if b in cs {
      assert InRow(q, cs, (a, b), i);
    }
    if b in q {
      var j :| 0 <= j < |q| && q[j] == b;
      assert i < j ==> InRow(q, cs, (a, b), i);
      assert j < i ==> InRow(q, cs, (b, a), j);
    }
  }

  lemma RowsOnly(q: seq<Expr>, cs: seq<Expr>, p: Pair)
    requires Distinct(q + cs) && p in Rows(q, cs, |q|)
    ensures p.0 in q && (p.1 in q || p.1 in cs) && p.0 != p.1
  {
    RowsMember(q, cs, p, |q|);
    var j: nat :| j < |q| && InRow(q, cs, p, j);
    var all := q + cs;
    assert all[j] == p.0;
    if k :| j < k < |q| && p.1 == q[k] {
      assert all[k] == p.1;
    } else {
      var i :| 0 <= i < |cs| && cs[i] == p.1;
      assert all[|q| + i] == p.1;
    }
  }

  lemma RowsTryGroup(o: AppOcc, q: seq<Expr>, cs: seq<Expr>)
    requires o.varArgs !! o.constArgs && Distinct(q) && Distinct(cs)
    requires |q| == |o.varArgs| && |cs| == |o.constArgs|
    requires forall x :: x in q <==> x in o.varArgs
    requires forall x :: x in cs <==> x in o.constArgs
    ensures GroupTried(o, Rows(q, cs, |q|))
  {
    DistinctConcat(q, cs);
    RowsOnce(q, cs, |q|);
    RowsLength(q, cs, |q|);
    CountPairs(|q|, |cs|, |Rows(q, cs, |q|)|);
    RowsCoverGroup(o, q, cs);
  }

  lemma RowsCoverGroup(o: AppOcc, q: seq<Expr>, cs: seq<Expr>)
    requires Distinct(q + cs)
    requires forall x :: x in q <==> x in o.varArgs
    requires forall x :: x in cs <==> x in o.constArgs
    ensures GroupCovered(o, Rows(q, cs, |q|))
  {
    var ps := Rows(q, cs, |q|);
    forall p | p in ps ensures p.0 in o.varArgs && p.1 in o.All() && p.0 != p.1 { RowsOnly(q, cs, p); }
    forall a, b | a in o.varArgs && b in o.All() && a != b ensures (a, b) in ps || (b, a) in ps {
      RowsCover(q, cs, a, b);
    }
  }

  lemma CountPairs(n: nat, c: nat, size: nat)
    requires 2 * size == n * (2 * n - n - 1 + 2 * c)
    ensures size == Choose2(n) + n * c
  {
    assert n * (2 * n - n - 1 + 2 * c) == n * (n - 1) + 2 * (n * c);
  }

  // ---------- all groups ----------

  ghost predicate DisjointGroups<K(!new)>(groups: map<K, AppOcc>) {
    forall j, k :: j in groups && k in groups && j != k ==> groups[j].All() !! groups[k].All()
  }

  /** Every group but those in `rest` has been tried, and nothing else. */
  ghost predicate GroupsTried<K(!new)>(groups: map<K, AppOcc>, rest: set<K>, ps: seq<Pair>) {
    && (forall p :: p in ps ==> exists k :: k in groups && k !in rest && p.0 in groups[k].varArgs
                                            && p.1 in groups[k].All() && p.0 != p.1)
    && (forall k, a, b :: k in groups && k !in rest && a in groups[k].varArgs && b in groups[k].All() && a != b
                          ==> (a, b) in ps || (b, a) in ps)
    && Once(ps)
  }

  lemma GroupsTriedStep<K(!new)>(groups: map<K, AppOcc>, rest: set<K>, ps: seq<Pair>, k: K, qs: seq<Pair>)
    requires DisjointGroups(groups) && GroupsTried(groups, rest, ps) && k in rest && k in groups
    requires GroupTried(groups[k], qs)
    ensures GroupsTried(groups, rest - {k}, ps + qs)
  {
    forall i, j | 0 <= i < |ps| && 0 <= j < |qs| ensures !SamePair(ps[i], qs[j]) {
      assert ps[i] in ps && qs[j] in qs;
      var k' :| k' in groups && k' !in rest && ps[i].0 in groups[k'].varArgs;
      assert ps[i].0 in groups[k'].All() && ps[i].0 !in groups[k].All();
    }
    OnceConcat(ps, qs);
    forall p | p in ps + qs
      ensures exists k' :: k' in groups && k' !in rest - {k} && p.0 in groups[k'].varArgs
                           && p.1 in groups[k'].All() && p.0 != p.1
    {
    }
    forall k', a, b | k' in groups && k' !in rest - {k} && a in groups[k'].varArgs && b in groups[k'].All() && a != b
      ensures (a, b) in ps + qs || (b, a) in ps + qs
    {
      if k' == k { assert (a, b) in qs || (b, a) in qs; } else { assert (a, b) in ps || (b, a) in ps; }
    }
  }

  // ---------- the lemmas of a list of pairs ----------

  function PairLemmas(sub: Subst, th: Theory, p: Pair): (r: seq<Expr>)
    ensures |r| <= 1
  {
    if p.0 in sub && p.1 in sub && p.0.App? && p.1.App? && |p.0.args| == |p.1.args|
    then Emitted(sub, th, p.0, p.1) else []
  }

  function AllLemmas(sub: Subst, th: Theory, ps: seq<Pair>): seq<Expr> {
    if ps == [] then [] else AllLemmas(sub, th, ps[..|ps| - 1]) + PairLemmas(sub, th, ps[|ps| - 1])
  }

  lemma AllLemmasAppend(sub: Subst, th: Theory, ps: seq<Pair>, p: Pair)
    ensures AllLemmas(sub, th, ps + [p]) == AllLemmas(sub, th, ps) + PairLemmas(sub, th, p)
  {
    assert (ps + [p])[..|ps|] == ps;
  }

  lemma {:induction false} AllLemmasConcat(sub: Subst, th: Theory, ps: seq<Pair>, qs: seq<Pair>)
    ensures AllLemmas(sub, th, ps + qs) == AllLemmas(sub, th, ps) + AllLemmas(sub, th, qs)
  {
    if qs == [] {
      assert ps + qs == ps;
    } else {
      var n := |qs| - 1;
      var a, b, c := AllLemmas(sub, th, ps), AllLemmas(sub, th, qs[..n]), PairLemmas(sub, th, qs[n]);
      AllLemmasConcat(sub, th, ps, qs[..n]);
      assert ps + qs == (ps + qs[..n]) + [qs[n]];
      AllLemmasAppend(sub, th, ps + qs[..n], qs[n]);
      assert AllLemmas(sub, th, ps + qs) == (a + b) + c;
      assert AllLemmas(sub, th, qs) == b + c;
      AppendAssociative(a, b, c);
    }
  }

  lemma AppendAssociative<T>(a: seq<T>, b: seq<T>, c: seq<T>)
    ensures (a + b) + c == a + (b + c)
  {
  }

  /** `c` is `a` followed by the lemmas of `ps`.  The quantifier keeps the sum folded in
      proofs that only pass it on. */
  ghost predicate Grown(sub: Subst, th: Theory, a: seq<Expr>, c: seq<Expr>, ps: seq<Pair>) {
    forall b: seq<Expr> {:trigger b + AllLemmas(sub, th, ps)} :: b == a ==> c == b + AllLemmas(sub, th, ps)
  }

  lemma GrownIs(sub: Subst, th: Theory, a: seq<Expr>, c: seq<Expr>, ps: seq<Pair>)
    ensures Grown(sub, th, a, c, ps) <==> c == a + AllLemmas(sub, th, ps)
  {
  }

  /** A list of formulas that has grown by the lemmas of `ps` and then of `qs`. */
  lemma GrownTwice(sub: Subst, th: Theory, a: seq<Expr>, b: seq<Expr>, c: seq<Expr>,
                   ps: seq<Pair>, qs: seq<Pair>)
    requires Grown(sub, th, a, b, ps) && Grown(sub, th, b, c, qs)
    ensures Grown(sub, th, a, c, ps + qs)
  {
    GrownIs(sub, th, a, b, ps);
    GrownIs(sub, th, b, c, qs);
    AllLemmasConcat(sub, th, ps, qs);
    AppendAssociative(a, AllLemmas(sub, th, ps), AllLemmas(sub, th, qs));
    GrownIs(sub, th, a, c, ps + qs);
  }

  lemma GrownOnce(sub: Subst, th: Theory, a: seq<Expr>, c: seq<Expr>, p: Pair)
    requires c == a + PairLemmas(sub, th, p)
    ensures Grown(sub, th, a, c, [p])
  {
    assert [p][..0] == [];
    assert AllLemmas(sub, th, [p]) == [] + PairLemmas(sub, th, p);
  }

  lemma InLonger(ps: seq<Pair>)
    requires ps != []
    ensures forall p :: p in ps <==> p in ps[..|ps| - 1] || p == ps[|ps| - 1]
  {
    assert ps == ps[..|ps| - 1] + [ps[|ps| - 1]];
  }

  lemma {:induction false} FewLemmas(sub: Subst, th: Theory, ps: seq<Pair>)
    ensures |AllLemmas(sub, th, ps)| <= |ps|
  {
    if ps != [] { FewLemmas(sub, th, ps[..|ps| - 1]); }
  }

  lemma {:induction false} AllLemmasMember(sub: Subst, th: Theory, ps: seq<Pair>)
    ensures forall l :: l in AllLemmas(sub, th, ps) <==> exists p :: p in ps && l in PairLemmas(sub, th, p)
  {
    if ps != [] {
      AllLemmasMember(sub, th, ps[..|ps| - 1]);
      InLonger(ps);
    }
  }
}
