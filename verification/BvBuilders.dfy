/** The composite bit-vector builders: they hold references to their intermediate
    results and give all of them back. */
module BvBuilders {
  import opened AstManager
  import opened ContextMachine
  import opened Context
  import opened BvTerms
  import opened Powers

  // ---------- single calls ----------

  ghost predicate Between(c: Context, u: nat)
    reads c, c.mgr, c.objects
  {
    c.Valid() && Idle(c.State())
  }

  /** The context is between two calls.  The quantifier keeps the definition folded in
      proofs that only pass this fact on from call to call. */
  ghost predicate Ready(c: Context)
    reads c, c.mgr, c.objects
  {
    forall u: nat :: Between(c, u)
  }

  /** A node that the client owns or that is the last result. */
  ghost predicate Usable(c: Context, a: Ast)
    reads c
  {
    a in c.nodes.handles || a in c.nodes.trail
  }

  /** The trail keeps `a`, alone if the user manages references, else along with all
      earlier results. */
  twostate predicate Trailed(c: Context, a: Ast)
    reads c
  {
    && a in c.nodes.trail
    && if c.userRefCount then c.nodes.trail == [a] else forall x :: x in old(c.nodes.trail) ==> x in c.nodes.trail
  }

  lemma UsableCounted(c: Context, a: Ast)
    requires Ready(c) && Usable(c, a)
    ensures a in c.mgr.count && c.mgr.count[a] > 0
  {
    assert Between(c, 0);
    ReachedNodes(c.State());
    OwnedNodesLive(c.mgr.count, c.nodes, a);
    assert a in Parts(a) && CountOk(c.mgr.count, c.mgr.refs, multiset{}, a);
  }

  lemma UsableAfterFlush(s: Ctx, a: Ast)
    requires Reached(s) && Idle(s) && (a in s.nodes.handles || a in s.nodes.trail)
    ensures Enabled(Flushed(s), IncAst(a))
    ensures Flushed(s).nodes.handles == s.nodes.handles && Flushed(s).nodes.trail == s.nodes.trail
  {
    ReachedNodes(s);
    FlushEffect(s);
    assert Flushed(s).nodes.refs[a] > 0 && a in Parts(a);
  }

  method Mk(c: Context, op: Op, args: seq<Ast>) returns (a: Ast)
    requires Ready(c) && forall x :: x in args ==> Usable(c, x)
    modifies c, c.mgr
    ensures Ready(c) && a == Ast(op, args) && c.nodes.handles == old(c.nodes.handles)
    ensures Trailed(c, a)
    ensures c.objects == old(c.objects)
  {
    assert Between(c, 0);
    forall x | x in args ensures x in c.mgr.count { UsableCounted(c, x); }
    a := c.mgr.MkApp(op, args);
    c.SaveAstTrail(a);
  }

  method Inc(c: Context, a: Ast)
    requires Ready(c) && Usable(c, a)
    modifies c, c.mgr
    ensures Ready(c) && c.nodes.handles == old(c.nodes.handles) + multiset{a} && c.nodes.trail == old(c.nodes.trail)
    ensures c.objects == old(c.objects)
  {
    assert Between(c, 0);
    UsableAfterFlush(c.State(), a);
    c.Z3IncRef(a);
  }

  /** A result that is kept beyond the next call. */
  method MkHeld(c: Context, op: Op, args: seq<Ast>) returns (a: Ast)
    requires Ready(c) && forall x :: x in args ==> Usable(c, x)
    modifies c, c.mgr
    ensures Ready(c) && a == Ast(op, args) && c.nodes.handles == old(c.nodes.handles) + multiset{a}
    ensures Trailed(c, a)
    ensures c.objects == old(c.objects)
  {
    a := Mk(c, op, args);
    Inc(c, a);
  }

  method Dec(c: Context, a: Ast)
    requires Ready(c) && a in c.nodes.handles
    modifies c, c.mgr
    ensures Ready(c) && c.nodes.handles == old(c.nodes.handles) - multiset{a} && c.nodes.trail == old(c.nodes.trail)
    ensures c.objects == old(c.objects)
  {
    assert Between(c, 0);
    UsableCounted(c, a);
    var _ := c.Z3DecRef(Node(a));
  }

  method MkBinary(c: Context, op: Op, n1: Ast, n2: Ast) returns (a: Ast)
    requires Ready(c) && Usable(c, n1) && Usable(c, n2)
    modifies c, c.mgr
    ensures Ready(c) && a == Ast(op, [n1, n2]) && c.nodes.handles == old(c.nodes.handles)
    ensures Trailed(c, a) && c.objects == old(c.objects)
  {
    a := Mk(c, op, [n1, n2]);
  }

  method MkBinaryHeld(c: Context, op: Op, n1: Ast, n2: Ast) returns (a: Ast)
    requires Ready(c) && Usable(c, n1) && Usable(c, n2)
    modifies c, c.mgr
    ensures Ready(c) && a == Ast(op, [n1, n2]) && c.nodes.handles == old(c.nodes.handles) + multiset{a}
    ensures Trailed(c, a) && c.objects == old(c.objects)
  {
    a := MkHeld(c, op, [n1, n2]);
  }

  // ---------- giving back ----------

  function Sum<T>(xs: seq<T>): multiset<T> {
    if xs == [] then multiset{} else multiset{xs[0]} + Sum(xs[1..])
  }

  lemma SumCons<T>(x: T, xs: seq<T>)
    ensures Sum([x] + xs) == multiset{x} + Sum(xs)
  {
    assert ([x] + xs)[1..] == xs;
  }

  lemma Sum2<T>(a: T, b: T)
    ensures Sum([a, b]) == multiset{a} + multiset{b}
  {
    assert [a, b] == [a] + [b] && [b] == [b] + [];
    SumCons(a, [b]);
    SumCons(b, []);
  }

  lemma Sum3<T>(a: T, b: T, c: T)
    ensures Sum([a, b, c]) == multiset{a} + (multiset{b} + multiset{c})
  {
    assert [a, b, c] == [a] + [b, c];
    SumCons(a, [b, c]);
    Sum2(b, c);
  }

  lemma Sum4<T>(a: T, b: T, c: T, d: T)
    ensures Sum([a, b, c, d]) == multiset{a} + (multiset{b} + (multiset{c} + multiset{d}))
  {
    assert [a, b, c, d] == [a] + [b, c, d];
    SumCons(a, [b, c, d]);
    Sum3(b, c, d);
  }

  lemma Sum5<T>(a: T, b: T, c: T, d: T, e: T)
    ensures Sum([a, b, c, d, e]) == multiset{a} + (multiset{b} + (multiset{c} + (multiset{d} + multiset{e})))
  {
    assert [a, b, c, d, e] == [a] + [b, c, d, e];
    SumCons(a, [b, c, d, e]);
    Sum4(b, c, d, e);
  }

  lemma Sum6<T>(a: T, b: T, c: T, d: T, e: T, f: T)
    ensures Sum([a, b, c, d, e, f])
            == multiset{a} + (multiset{b} + (multiset{c} + (multiset{d} + (multiset{e} + multiset{f}))))
  {
    assert [a, b, c, d, e, f] == [a] + [b, c, d, e, f];
    SumCons(a, [b, c, d, e, f]);
    Sum5(b, c, d, e, f);
  }

  /** Gives up several references, in this order. */
  method DecAll(c: Context, xs: seq<Ast>, ghost H: multiset<Ast>)
    requires Ready(c) && c.nodes.handles == H + Sum(xs)
    modifies c, c.mgr
    ensures Ready(c) && c.nodes.handles == H && c.nodes.trail == old(c.nodes.trail) && c.objects == old(c.objects)
  {
    for i := 0 to |xs|
      invariant Ready(c) && c.nodes.handles == H + Sum(xs[i..])
      invariant c.nodes.trail == old(c.nodes.trail) && c.objects == old(c.objects)
    {
      NextHeld(H, xs, i);
      Dec(c, xs[i]);
    }
  }

  lemma NextHeld<T>(H: multiset<T>, xs: seq<T>, i: nat)
    requires i < |xs|
    ensures xs[i] in H + Sum(xs[i..]) && H + Sum(xs[i..]) - multiset{xs[i]} == H + Sum(xs[i + 1..])
  {
    assert xs[i..] == [xs[i]] + xs[i + 1..];
    SumCons(xs[i], xs[i + 1..]);
  }

  // The references are given back in another order than they were taken.

  lemma Order2<T>(H: multiset<T>, m1: multiset<T>, m2: multiset<T>)
    ensures H + m1 + m2 == H + (m1 + m2)
  {
  }

  lemma Order1243<T>(H: multiset<T>, m1: multiset<T>, m2: multiset<T>, m3: multiset<T>, m4: multiset<T>)
    ensures H + m1 + m2 + m3 + m4 == H + (m1 + (m2 + (m4 + m3)))
  {
  }

  lemma Order1234<T>(H: multiset<T>, m1: multiset<T>, m2: multiset<T>, m3: multiset<T>, m4: multiset<T>)
    ensures H + m1 + m2 + m3 + m4 == H + (m1 + (m2 + (m3 + m4)))
  {
  }

  lemma Order23451<T>(H: multiset<T>, m1: multiset<T>, m2: multiset<T>, m3: multiset<T>,
                      m4: multiset<T>, m5: multiset<T>)
    ensures H + m1 + m2 + m3 + m4 + m5 == H + (m2 + (m3 + (m4 + (m5 + m1))))
  {
  }

  lemma Order12345<T>(H: multiset<T>, m1: multiset<T>, m2: multiset<T>, m3: multiset<T>,
                      m4: multiset<T>, m5: multiset<T>)
    ensures H + m1 + m2 + m3 + m4 + m5 == H + (m1 + (m2 + (m3 + (m4 + m5))))
  {
  }

  lemma Order24531<T>(H: multiset<T>, m1: multiset<T>, m2: multiset<T>, m3: multiset<T>,
                      m4: multiset<T>, m5: multiset<T>)
    ensures H + m1 + m2 + m3 + m4 + m5 == H + (m2 + (m4 + (m5 + (m3 + m1))))
  {
  }

  lemma Order634251<T>(H: multiset<T>, m1: multiset<T>, m2: multiset<T>, m3: multiset<T>,
                       m4: multiset<T>, m5: multiset<T>, m6: multiset<T>)
    ensures H + m1 + m2 + m3 + m4 + m5 + m6 == H + (m6 + (m3 + (m4 + (m2 + (m5 + m1)))))
  {
  }

  lemma Order123564<T>(H: multiset<T>, m1: multiset<T>, m2: multiset<T>, m3: multiset<T>,
                       m4: multiset<T>, m5: multiset<T>, m6: multiset<T>)
    ensures H + m1 + m2 + m3 + m4 + m5 + m6 == H + (m1 + (m2 + (m3 + (m5 + (m6 + m4)))))
  {
  }

  // ---------- the builders ----------

  /** An operand that survives other results: owned by the client, or, when the context
      manages references, any earlier result. */
  ghost predicate Kept(c: Context, a: Ast)
    reads c
  {
    a in c.nodes.handles || (!c.userRefCount && a in c.nodes.trail)
  }

  /** Nothing that was taken is left over, and the result is kept by the trail, alone
      if the user manages references. */
  twostate predicate Built(c: Context, r: Ast)
    reads c, c.mgr, c.objects
  {
    && Ready(c) && c.objects == old(c.objects)
    && c.nodes.handles == old(c.nodes.handles)
    && Trailed(c, r)
  }

  /** `shl(1, size - 1)`; a sort without bits is an error. */
  method MkBvMsb(c: Context, s: AstSort) returns (result: Node)
    requires Ready(c)
    modifies c, c.mgr
    ensures Size(s) == 0 ==> result == Null && Ready(c) && c.nodes == old(c.nodes) && c.objects == old(c.objects)
    ensures Size(s) > 0 ==> result == Node(Msb(s)) && Built(c, result.ast)
  {
    ghost var H := c.nodes.handles;
    var sz := Size(s);
    if sz == 0 { return Null; }
    var x := MkHeld(c, NumOp(1, s), []);
    var y := MkHeld(c, NumOp(sz - 1, s), []);
    var r := MkBinary(c, BvShl, x, y);
    Order2(H, multiset{x}, multiset{y});
    Sum2(x, y);
    DecAll(c, [x, y], H);
    return Node(r);
  }

  /** The least signed value, kept beyond the next call. */
  method MkBvSminHeld(c: Context, s: AstSort) returns (min: Ast)
    requires Ready(c) && Size(s) > 0
    modifies c, c.mgr
    ensures Ready(c) && min == Msb(s) && c.nodes.handles == old(c.nodes.handles) + multiset{min}
    ensures Trailed(c, min) && c.objects == old(c.objects)
  {
    var m := MkBvMsb(c, s);
    min := m.ast;
    Inc(c, min);
  }

  method MkBvAddNoOverflowSigned(c: Context, t1: Ast, t2: Ast) returns (result: Ast)
    requires Ready(c) && Kept(c, t1) && Kept(c, t2)
    modifies c, c.mgr
    ensures Built(c, result) && result == SignedAddNoOverflow(t1, t2)
  {
    ghost var H := c.nodes.handles;
    var zero := MkHeld(c, NumOp(0, SortOf(t1)), []);
    var r := MkBinaryHeld(c, BvAdd, t1, t2);
    var l1 := MkBinaryHeld(c, BvSlt, zero, t1);
    var l2 := MkBinaryHeld(c, BvSlt, zero, t2);
    var argsPos := MkBinaryHeld(c, And, l1, l2);
    var lt := MkBinary(c, BvSlt, zero, r);
    result := MkBinary(c, Implies, argsPos, lt);
    Order23451(H, multiset{zero}, multiset{r}, multiset{l1}, multiset{l2}, multiset{argsPos});
    Sum5(r, l1, l2, argsPos, zero);
    DecAll(c, [r, l1, l2, argsPos, zero], H);
  }

  method MkBvAddNoOverflowUnsigned(c: Context, t1: Ast, t2: Ast) returns (result: Ast)
    requires Ready(c) && Kept(c, t1) && Kept(c, t2)
    modifies c, c.mgr
    ensures Built(c, result) && result == UnsignedAddNoOverflow(t1, t2)
  {
    ghost var H := c.nodes.handles;
    var sz := Size(SortOf(t1));
    var e1 := MkHeld(c, ZeroExt(1), [t1]);
    var e2 := MkHeld(c, ZeroExt(1), [t2]);
    var r := MkBinaryHeld(c, BvAdd, e1, e2);
    var ex := MkHeld(c, Extract(sz, sz), [r]);
    var zero := Mk(c, NumOp(0, BvSort(1)), []);
    result := MkBinary(c, Eq, ex, zero);
    Order1243(H, multiset{e1}, multiset{e2}, multiset{r}, multiset{ex});
    Sum4(e1, e2, ex, r);
    DecAll(c, [e1, e2, ex, r], H);
  }

  method MkBvAddNoOverflow(c: Context, t1: Ast, t2: Ast, isSigned: bool) returns (result: Ast)
    requires Ready(c) && Kept(c, t1) && Kept(c, t2)
    modifies c, c.mgr
    ensures Built(c, result)
    ensures result == if isSigned then SignedAddNoOverflow(t1, t2) else UnsignedAddNoOverflow(t1, t2)
  {
    if isSigned {
      result := MkBvAddNoOverflowSigned(c, t1, t2);
    } else {
      result := MkBvAddNoOverflowUnsigned(c, t1, t2);
    }
  }

  method MkBvAddNoUnderflow(c: Context, t1: Ast, t2: Ast) returns (result: Ast)
    requires Ready(c) && Kept(c, t1) && Kept(c, t2)
    modifies c, c.mgr
    ensures Built(c, result) && result == AddNoUnderflow(t1, t2)
  {
    ghost var H := c.nodes.handles;
    var zero := MkHeld(c, NumOp(0, SortOf(t1)), []);
    var r := MkBinaryHeld(c, BvAdd, t1, t2);
    var l1 := MkBinaryHeld(c, BvSlt, t1, zero);
    var l2 := MkBinaryHeld(c, BvSlt, t2, zero);
    var argsNeg := MkBinaryHeld(c, And, l1, l2);
    var lt := MkBinaryHeld(c, BvSlt, r, zero);
    result := MkBinary(c, Implies, argsNeg, lt);
    Order634251(H, multiset{zero}, multiset{r}, multiset{l1}, multiset{l2}, multiset{argsNeg}, multiset{lt});
    Sum6(lt, l1, l2, r, argsNeg, zero);
    DecAll(c, [lt, l1, l2, r, argsNeg, zero], H);
  }

  method MkBvSubNoOverflow(c: Context, t1: Ast, t2: Ast) returns (result: Ast)
    requires Ready(c) && Kept(c, t1) && Kept(c, t2) && Size(SortOf(t2)) > 0
    modifies c, c.mgr
    ensures Built(c, result) && result == SubNoOverflow(t1, t2)
  {
    ghost var H := c.nodes.handles;
    var s := SortOf(t2);
    var minusT2 := MkHeld(c, BvNeg, [t2]);
    var min := MkBvSminHeld(c, s);
    var x := MkBinaryHeld(c, Eq, t2, min);
    var zero := MkHeld(c, NumOp(0, s), []);
    var y := MkBinaryHeld(c, BvSlt, t1, zero);
    var z := MkBvAddNoOverflow(c, t1, minusT2, true);
    Inc(c, z);
    result := Mk(c, Ite, [x, y, z]);
    SaveAgain(c, result);
    Order123564(H, multiset{minusT2}, multiset{min}, multiset{x}, multiset{zero}, multiset{y}, multiset{z});
    Sum6(minusT2, min, x, y, z, zero);
    DecAll(c, [minusT2, min, x, y, z, zero], H);
  }

  /** A result that may be the only node of the trail is saved once more. */
  method SaveAgain(c: Context, a: Ast)
    requires Ready(c) && Usable(c, a)
    modifies c, c.mgr
    ensures Ready(c) && c.nodes.handles == old(c.nodes.handles) && c.objects == old(c.objects)
    ensures Trailed(c, a)
  {
    assert Between(c, 0);
    UsableCounted(c, a);
    c.SaveAstTrail(a);
  }

  method MkBvSubNoUnderflowSigned(c: Context, t1: Ast, t2: Ast) returns (result: Ast)
    requires Ready(c) && Kept(c, t1) && Kept(c, t2)
    modifies c, c.mgr
    ensures Built(c, result) && result == SignedSubNoUnderflow(t1, t2)
  {
    ghost var H := c.nodes.handles;
    var zero := MkHeld(c, NumOp(0, SortOf(t1)), []);
    var minusT2 := MkHeld(c, BvNeg, [t2]);
    var x := MkBinaryHeld(c, BvSlt, zero, t2);
    var y := MkBvAddNoUnderflow(c, t1, minusT2);
    Inc(c, y);
    result := MkBinary(c, Implies, x, y);
    Order1234(H, multiset{zero}, multiset{minusT2}, multiset{x}, multiset{y});
    Sum4(zero, minusT2, x, y);
    DecAll(c, [zero, minusT2, x, y], H);
  }

  method MkBvSubNoUnderflow(c: Context, t1: Ast, t2: Ast, isSigned: bool) returns (result: Ast)
    requires Ready(c) && Kept(c, t1) && Kept(c, t2)
    modifies c, c.mgr
    ensures Built(c, result)
    ensures result == if isSigned then SignedSubNoUnderflow(t1, t2) else UnsignedSubNoUnderflow(t1, t2)
  {
    if isSigned { result := MkBvSubNoUnderflowSigned(c, t1, t2); } else { result := MkBinary(c, BvUle, t2, t1); }
  }

  method MkBvNegNoOverflow(c: Context, t: Ast) returns (result: Node)
    requires Ready(c) && Kept(c, t)
    modifies c, c.mgr
    ensures Size(SortOf(t)) == 0 ==> result == Null && Ready(c) && c.nodes == old(c.nodes)
    ensures Size(SortOf(t)) > 0 ==> result == Node(NegNoOverflow(t)) && Built(c, result.ast)
  {
    var min := MkBvMsb(c, SortOf(t));
    if min.Null? { return Null; }
    var eq := MkBinary(c, Eq, t, min.ast);
    var r := Mk(c, Not, [eq]);
    return Node(r);
  }

  method MkBvSdivNoOverflow(c: Context, t1: Ast, t2: Ast) returns (result: Ast)
    requires Ready(c) && Kept(c, t1) && Kept(c, t2) && Size(SortOf(t1)) > 0
    modifies c, c.mgr
    ensures Built(c, result) && result == SdivNoOverflow(t1, t2)
  {
    ghost var H := c.nodes.handles;
    var s := SortOf(t1);
    var min := MkBvSminHeld(c, s);
    var x := MkBinaryHeld(c, Eq, t1, min);
    var y := MkHeld(c, NumOp(-1, s), []);
    var z := MkBinaryHeld(c, Eq, t2, y);
    var u := MkBinaryHeld(c, And, x, z);
    result := Mk(c, Not, [u]);
    Order12345(H, multiset{min}, multiset{x}, multiset{y}, multiset{z}, multiset{u});
    Sum5(min, x, y, z, u);
    DecAll(c, [min, x, y, z, u], H);
  }

  method MkBv2IntSigned(c: Context, t: Ast) returns (result: Ast)
    requires Ready(c) && Kept(c, t)
    modifies c, c.mgr
    ensures Built(c, result) && result == SignedToInt(t)
  {
    ghost var H := c.nodes.handles;
    var s := SortOf(t);
    var r := MkHeld(c, Bv2Int, [t]);
    var bound := MkHeld(c, NumOp(Pow2(Size(s)), IntSort), []);
    var zero := MkHeld(c, NumOp(0, s), []);
    var pred := MkBinaryHeld(c, BvSlt, t, zero);
    var sub := MkBinaryHeld(c, IntSub, r, bound);
    result := Mk(c, Ite, [pred, sub, r]);
    Order24531(H, multiset{r}, multiset{bound}, multiset{zero}, multiset{pred}, multiset{sub});
    Sum5(bound, pred, sub, zero, r);
    DecAll(c, [bound, pred, sub, zero, r], H);
  }

  method MkBv2Int(c: Context, t: Ast, isSigned: bool) returns (result: Ast)
    requires Ready(c) && Kept(c, t)
    modifies c, c.mgr
    ensures Built(c, result) && result == if isSigned then SignedToInt(t) else UnsignedToInt(t)
  {
    if isSigned { result := MkBv2IntSigned(c, t); } else { result := Mk(c, Bv2Int, [t]); }
  }

  /** A numeral from its bits, least significant first; there is no sort without bits. */
  method MkBvNumeral(c: Context, bits: seq<bool>) returns (result: Node)
    requires Ready(c)
    modifies c, c.mgr
    ensures bits == [] ==> result == Null && Ready(c) && c.nodes == old(c.nodes)
    ensures bits != [] ==> result == Node(BvNumeral(bits)) && Built(c, result.ast)
  {
    var r := 0;
    for i := 0 to |bits|
      invariant r == LittleSum(bits[..i])
    {
      assert bits[..i + 1][..i] == bits[..i];
      if bits[i] { r := r + Pow2(i); }
    }
    assert bits[..|bits|] == bits;
    if bits == [] { return Null; }
    var a := Mk(c, NumOp(r, BvSort(|bits|)), []);
    return Node(a);
  }

  /** After a builder, with references managed by the user, the manager counts what the
      client owns, the result, and what the client has dropped but no flush has released,
      and nothing else; without concurrent drops there is nothing of the last kind. */
  lemma OnlyResultIsLeft(c: Context, r: Ast)
    requires Ready(c) && c.userRefCount && c.nodes.trail == [r]
    ensures c.mgr.refs == c.nodes.handles + multiset{r} + multiset(c.nodes.queue)
    ensures !c.concurrentDecRef ==> c.nodes.queue == []
    ensures Parts(r) <= c.mgr.count.Keys && forall a :: a in c.nodes.handles ==> Parts(a) <= c.mgr.count.Keys
  {
    assert Between(c, 0);
    ReachedNodes(c.State());
    assert c.mgr.refs == c.nodes.handles + multiset{r} + multiset(c.nodes.queue);
    OwnedNodesLive(c.mgr.count, c.nodes, r);
    forall a | a in c.nodes.handles ensures Parts(a) <= c.mgr.count.Keys { OwnedNodesLive(c.mgr.count, c.nodes, a); }
  }
}
