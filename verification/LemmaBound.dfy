/** The upper bound on the number of lemmas, in the program's unsigned arithmetic. */
module LemmaBound {
  import opened AckrHelper
  import opened Terms

  const U32: nat := 0x1_0000_0000

  /** A double that is only ever a non-negative whole number or infinity. */
  datatype Bound = Finite(n: nat) | Infinity {
    function Plus(b: Bound): Bound {
      if Infinity? || b.Infinity? then Infinity else Finite(n + b.n)
    }
    predicate AtLeast(k: nat) { Infinity? || n >= k }
    predicate Exceeds(limit: real) { Infinity? || n as real > limit }
  }

  function Choose2(n: nat): nat { n * (n - 1) / 2 }

  function NChoose2(n: nat): nat {
    (if n % 2 == 1 then n * (n / 2) else (n / 2) * (n - 1)) % U32
  }

  predicate Bit16(n: nat) { n / 0x1_0000 % 2 == 1 }

  function NChoose2Chk(n: nat): Bound {
    if Bit16(n) then Infinity else Finite(NChoose2(n))
  }

  lemma NChoose2IsChoose2(n: nat)
    ensures NChoose2(n) == Choose2(n) % U32
  {
    var h := n / 2;
    if n % 2 == 1 {
      assert n == 2 * h + 1;
      assert n * (n - 1) == 2 * (n * h);
    } else {
      assert n == 2 * h;
      assert n * (n - 1) == 2 * (h * (n - 1));
    }
  }

  /** The guard tests one bit, so it is not a guard against every overflow: the result
      bounds the true count exactly for sizes below 2^17 or with bit 16 set. */
  lemma ChkBoundsIff(n: nat)
    ensures NChoose2Chk(n).AtLeast(Choose2(n)) <==> n < 0x2_0000 || Bit16(n)
  {
    NChoose2IsChoose2(n);
    if !Bit16(n) && n < 0x2_0000 {
      Choose2Monotone(n, 0xFFFF);
    } else if !Bit16(n) {
      Choose2Monotone(0x2_0000, n);
    }
  }

  lemma MulMonotone(a: nat, b: nat, c: nat, d: nat)
    requires a <= b && c <= d
    ensures a * c <= b * d
  {
    assert a * c <= b * c;
    assert b * c <= b * d;
  }

  lemma Choose2Monotone(m: nat, n: nat)
    requires m <= n
    ensures Choose2(m) <= Choose2(n)
  {
    if m > 0 {
      MulMonotone(m, n, m - 1, n - 1);
      HalfMonotone(m * (m - 1), n * (n - 1));
    }
  }

  lemma HalfMonotone(a: nat, b: nat)
    requires a <= b
    ensures a / 2 <= b / 2
  {
  }

  // ---------- sums over the groups of a map ----------

  ghost function Some<K(!new)>(s: set<K>): (k: K)
    requires s != {}
    ensures k in s
  {
    var k :| k in s; k
  }

  ghost function Sum<K(!new), G(!new)>(groups: map<K, G>, f: G -> nat): nat
    decreases |groups|
  {
    if |groups| == 0 then 0
    else
      var k := Some(groups.Keys);
      assert |groups - {k}| < |groups|;
      f(groups[k]) + Sum(groups - {k}, f)
  }

  lemma {:induction false} SumRemove<K(!new), G(!new)>(groups: map<K, G>, f: G -> nat, k: K)
    requires k in groups
    ensures Sum(groups, f) == f(groups[k]) + Sum(groups - {k}, f)
    decreases |groups|
  {
    var k0 := Some(groups.Keys);
    if k0 != k {
      var a, b := groups - {k0}, groups - {k};
      assert |a| < |groups| && |b| < |groups| && a[k] == groups[k] && b[k0] == groups[k0];
      SumRemove(a, f, k);
      SumRemove(b, f, k0);
      assert a - {k} == b - {k0};
    }
  }

  /** The pairs of a group with a non-constant member. */
  function Pairs(o: AppOcc): nat {
    Choose2(|o.varArgs|) + |o.varArgs| * |o.constArgs|
  }

  ghost function TotalPairs<K(!new)>(groups: map<K, AppOcc>): nat { Sum(groups, Pairs) }

  lemma TotalPairsRemove<K(!new)>(groups: map<K, AppOcc>, k: K)
    requires k in groups
    ensures TotalPairs(groups) == Pairs(groups[k]) + TotalPairs(groups - {k})
  {
    SumRemove(groups, Pairs, k);
  }

  /** What the machine adds for a group that the guard lets through. */
  function Counted(o: AppOcc): nat {
    NChoose2(|o.varArgs|) + |o.constArgs| * |o.varArgs| % U32
  }

  /** Sizes at which neither product wraps around. */
  predicate SmallGroup(o: AppOcc) {
    |o.varArgs| < 0x1_0000 && |o.constArgs| * |o.varArgs| < U32
  }

  lemma CountedPairs(o: AppOcc)
    requires !Bit16(|o.varArgs|)
    ensures Counted(o) <= Pairs(o) && (Counted(o) == Pairs(o) <==> SmallGroup(o))
  {
    var n := |o.varArgs|;
    NChoose2IsChoose2(n);
    ChkBoundsIff(n);
    assert n < 0x2_0000 ==> n < 0x1_0000;
    ModAtMost(Choose2(n));
    ModAtMost(|o.constArgs| * n);
    assert n * |o.constArgs| == |o.constArgs| * n;
  }

  lemma ModAtMost(n: nat)
    ensures n % U32 <= n && (n % U32 == n <==> n < U32)
  {
  }

  ghost predicate AnyHuge<K(!new)>(groups: map<K, AppOcc>) {
    exists k :: k in groups && Bit16(|groups[k].varArgs|)
  }

  ghost predicate SmallGroups<K(!new)>(groups: map<K, AppOcc>) {
    forall k :: k in groups ==> SmallGroup(groups[k])
  }

  /** The bound that the program computes for a map. */
  ghost function MachineBound<K(!new)>(groups: map<K, AppOcc>): Bound {
    if AnyHuge(groups) then Infinity else Finite(Sum(groups, Counted))
  }

  lemma {:induction false} SumCounted<K(!new)>(groups: map<K, AppOcc>)
    requires !AnyHuge(groups)
    ensures Sum(groups, Counted) <= TotalPairs(groups)
    ensures Sum(groups, Counted) == TotalPairs(groups) <==> SmallGroups(groups)
    decreases |groups|
  {
    if |groups| > 0 {
      var k :| k in groups;
      assert |groups - {k}| < |groups|;
      CountedPairs(groups[k]);
      SumCounted(groups - {k});
      SumRemove(groups, Counted, k);
      TotalPairsRemove(groups, k);
      assert SmallGroups(groups) <==> SmallGroup(groups[k]) && SmallGroups(groups - {k}) by {
        forall j | j in groups ensures j == k || (j in groups - {k} && (groups - {k})[j] == groups[j]) {}
      }
    }
  }

  lemma SplitHuge<K(!new)>(groups: map<K, AppOcc>, k: K)
    requires k in groups
    ensures AnyHuge(groups) <==> Bit16(|groups[k].varArgs|) || AnyHuge(groups - {k})
  {
    if j :| j in groups && j != k && Bit16(|groups[j].varArgs|) {
      assert j in groups - {k} && Bit16(|(groups - {k})[j].varArgs|);
    }
  }

  lemma BoundRemove<K(!new)>(r: Bound, groups: map<K, AppOcc>, k: K)
    requires k in groups
    ensures r.Plus(NChoose2Chk(|groups[k].varArgs|))
             .Plus(Finite(|groups[k].constArgs| * |groups[k].varArgs| % U32))
             .Plus(MachineBound(groups - {k})) == r.Plus(MachineBound(groups))
  {
    SumRemove(groups, Counted, k);
    SplitHuge(groups, k);
  }

  /** What each group contributes. */
  lemma GroupAdds<K(!new)>(groups: map<K, AppOcc>, k: K)
    requires k in groups
    ensures var n, c := |groups[k].varArgs|, |groups[k].constArgs|;
            MachineBound(groups)
            == MachineBound(groups - {k}).Plus(if n / 0x1_0000 % 2 == 1 then Infinity
                                               else Finite(n * (n - 1) / 2 % 0x1_0000_0000 + c * n % 0x1_0000_0000))
  {
    BoundRemove(Finite(0), groups, k);
    NChoose2IsChoose2(|groups[k].varArgs|);
  }

  method AddBounds<K(==, !new)>(total: Bound, groups: map<K, AppOcc>) returns (r: Bound)
    ensures r == total.Plus(MachineBound(groups))
  {
    var rest := groups;
    r := total;
    while rest.Keys != {}
      invariant r.Plus(MachineBound(rest)) == total.Plus(MachineBound(groups))
      decreases |rest|
    {
      var k :| k in rest;
      var o := rest[k];
      BoundRemove(r, rest, k);
      r := r.Plus(NChoose2Chk(|o.varArgs|));
      r := r.Plus(Finite(|o.constArgs| * |o.varArgs| % U32));
      rest := rest - {k};
    }
    assert MachineBound(rest) == Finite(0);
  }

  /** The bound computed for both maps, and the number of pairs. */
  ghost function ComputedBound(occs1: FunMap, occs2: SelMap): Bound { MachineBound(occs1).Plus(MachineBound(occs2)) }
  ghost function AllPairs(occs1: FunMap, occs2: SelMap): nat { TotalPairs(occs1) + TotalPairs(occs2) }

  /** When the bound is one: some group makes it infinite, or nothing wraps around. */
  ghost predicate Bounded(occs1: FunMap, occs2: SelMap) {
    AnyHuge(occs1) || AnyHuge(occs2) || (SmallGroups(occs1) && SmallGroups(occs2))
  }

  lemma BoundsIff(occs1: FunMap, occs2: SelMap)
    ensures ComputedBound(occs1, occs2).AtLeast(AllPairs(occs1, occs2)) <==> Bounded(occs1, occs2)
  {
    if !AnyHuge(occs1) && !AnyHuge(occs2) {
      SumCounted(occs1);
      SumCounted(occs2);
    }
  }

  /** Every limit that the computed bound respects is respected by the number of pairs,
      if and only if the bound is one. */
  lemma LimitsRespectedIff(occs1: FunMap, occs2: SelMap)
    ensures (forall limit: real ::
               !ComputedBound(occs1, occs2).Exceeds(limit) ==> AllPairs(occs1, occs2) as real <= limit)
            <==> Bounded(occs1, occs2)
  {
    BoundsIff(occs1, occs2);
    if !Bounded(occs1, occs2) {
      var limit := ComputedBound(occs1, occs2).n as real;
      assert !ComputedBound(occs1, occs2).Exceeds(limit) && AllPairs(occs1, occs2) as real > limit;
    }
  }

  /** Groups below 2^16 non-value applications whose products fit a word are counted
      exactly: the bound is never infinite for them. */
  lemma SmallIsExact(occs1: FunMap, occs2: SelMap)
    requires SmallGroups(occs1) && SmallGroups(occs2)
    ensures ComputedBound(occs1, occs2) == Finite(AllPairs(occs1, occs2))
  {
    NoneHuge(occs1);
    NoneHuge(occs2);
    SumCounted(occs1);
    SumCounted(occs2);
  }

  lemma NoneHuge<K(!new)>(groups: map<K, AppOcc>)
    requires SmallGroups(groups)
    ensures !AnyHuge(groups)
  {
    forall k | k in groups ensures !Bit16(|groups[k].varArgs|) { assert SmallGroup(groups[k]); }
  }

  /** A group of 2^16 to 2^17 - 1 non-value applications makes the bound infinite. */
  lemma HugeIsInfinite(occs1: FunMap, occs2: SelMap)
    requires (exists d :: d in occs1 && 0x1_0000 <= |occs1[d].varArgs| < 0x2_0000)
             || (exists A :: A in occs2 && 0x1_0000 <= |occs2[A].varArgs| < 0x2_0000)
    ensures ComputedBound(occs1, occs2) == Infinity
  {
    if d :| d in occs1 && 0x1_0000 <= |occs1[d].varArgs| < 0x2_0000 {
      assert Bit16(|occs1[d].varArgs|);
    } else {
      var A :| A in occs2 && 0x1_0000 <= |occs2[A].varArgs| < 0x2_0000;
      assert Bit16(|occs2[A].varArgs|);
    }
  }

  lemma FromZero(a: Bound, b: Bound)
    ensures Finite(0).Plus(a).Plus(b) == a.Plus(b)
  {
  }

  method CalculateLemmaBound(occs1: FunMap, occs2: SelMap) returns (total: Bound)
    ensures total == ComputedBound(occs1, occs2)
    ensures total.AtLeast(AllPairs(occs1, occs2)) <==> Bounded(occs1, occs2)
  {
    total := Finite(0);
    total := AddBounds(total, occs1);
    total := AddBounds(total, occs2);
    FromZero(MachineBound(occs1), MachineBound(occs2));
    assert total == ComputedBound(occs1, occs2);
    BoundsIff(occs1, occs2);
  }

  // ---------- a group over the limit ----------

  /** The uninterpreted constants x, xx, xxx, ... */
  function Point(i: nat, s: Sort): Expr { App(Decl(Named(seq(i, _ => 'x')), Uninterpreted, [], s), []) }

  lemma PointsDiffer(i: nat, j: nat, s: Sort)
    requires Point(i, s) == Point(j, s)
    ensures i == j
  {
    assert |Point(i, s).decl.name.s| == i && |Point(j, s).decl.name.s| == j;
  }

  lemma NewApplication(d: Decl, s: Sort, n: nat, i: nat)
    requires i < n
    ensures App(d, [Point(n, s)]) != App(d, [Point(i, s)])
  {
    if App(d, [Point(n, s)]) == App(d, [Point(i, s)]) {
      assert [Point(n, s)][0] == [Point(i, s)][0];
      PointsDiffer(n, i, s);
    }
  }

  /** The first `n` applications of `d` to these constants. */
  function Applications(d: Decl, s: Sort, n: nat): set<Expr> {
    if n == 0 then {} else Applications(d, s, n - 1) + {App(d, [Point(n - 1, s)])}
  }

  ghost predicate AppliedBelow(d: Decl, s: Sort, n: nat, t: Expr) {
    exists i: nat :: i < n && t == App(d, [Point(i, s)])
  }

  lemma {:induction false} ApplicationIff(d: Decl, s: Sort, n: nat, t: Expr)
    ensures t in Applications(d, s, n) <==> AppliedBelow(d, s, n, t)
  {
    if n > 0 {
      ApplicationIff(d, s, n - 1, t);
      if i: nat :| i < n && t == App(d, [Point(i, s)]) {
        assert i < n - 1 ==> AppliedBelow(d, s, n - 1, t);
      }
    }
  }

  lemma {:induction false} ApplicationsMany(d: Decl, s: Sort, n: nat)
    ensures |Applications(d, s, n)| == n
  {
    if n > 0 {
      ApplicationsMany(d, s, n - 1);
      ApplicationIff(d, s, n - 1, App(d, [Point(n - 1, s)]));
      forall i: nat | i < n - 1 ensures App(d, [Point(n - 1, s)]) != App(d, [Point(i, s)]) {
        NewApplication(d, s, n - 1, i);
      }
    }
  }

  /** 2^17 applications to non-values have 2^33 - 2^16 pairs, of which 2^32 - 2^16 are
      counted: the test lets them pass under a limit of 2^32. */
  lemma LimitExceeded(d: Decl, o: AppOcc)
    requires |o.varArgs| == 0x2_0000 && |o.constArgs| == 0
    ensures ComputedBound(map[d := o], map[]) == Finite(0xFFFF_0000) && AllPairs(map[d := o], map[]) == 0x1_FFFF_0000
  {
    ManyPairs(o);
    OneGroup(d, o);
  }

  lemma ManyPairs(o: AppOcc)
    requires |o.varArgs| == 0x2_0000 && |o.constArgs| == 0
    ensures !Bit16(|o.varArgs|) && Counted(o) == 0xFFFF_0000 && Pairs(o) == 0x1_FFFF_0000
  {
  }

  lemma OneGroup(d: Decl, o: AppOcc)
    requires !Bit16(|o.varArgs|)
    ensures ComputedBound(map[d := o], map[]) == Finite(Counted(o)) && AllPairs(map[d := o], map[]) == Pairs(o)
  {
    var occs: FunMap := map[d := o];
    assert occs - {d} == map[];
    SumRemove(occs, Counted, d);
    TotalPairsRemove(occs, d);
    SplitHuge(occs, d);
  }
}
