/** Reference-counted, hash-consed nodes: a node is kept exactly while something
    refers to it. */
module AstManager {

  /** The operators that the bit-vector builders use. */
  datatype Op =
    | Const(id: nat, sort: AstSort)
    | BvNum(value: nat, width: nat)
    | IntNum(n: int)
    | BvAdd | BvNeg | BvShl | BvSlt | BvUle
    | ZeroExt(extra: nat)
    | Extract(high: nat, low: nat)
    | Bv2Int
    | IntSub
    | Eq | And | Implies | Not | Ite

  datatype AstSort = BvSort(width: nat) | IntSort | BoolSort

  datatype Ast = Ast(op: Op, args: seq<Ast>)

  /** A pointer to a node. */
  datatype Node = Null | Node(ast: Ast)

  function Parts(a: Ast): (r: set<Ast>)
    ensures a in r
  {
    {a} + PartsAll(a.args)
  }

  function PartsAll(xs: seq<Ast>): (r: set<Ast>)
    ensures forall x :: x in r <==> exists i :: 0 <= i < |xs| && x in Parts(xs[i])
  {
    set i, x | 0 <= i < |xs| && x in Parts(xs[i]) :: x
  }

  lemma {:induction false} PartsTransitive(x: Ast, y: Ast, a: Ast)
    requires x in Parts(y) && y in Parts(a)
    ensures x in Parts(a)
    decreases a
  {
    if y != a {
      var i :| 0 <= i < |a.args| && y in Parts(a.args[i]);
      PartsTransitive(x, y, a.args[i]);
    }
  }

  lemma {:induction false} PartsAntisymmetric(x: Ast, a: Ast)
    requires x in Parts(a) && x != a
    ensures x < a
    decreases a
  {
    var i :| 0 <= i < |a.args| && x in Parts(a.args[i]);
    if x != a.args[i] { PartsAntisymmetric(x, a.args[i]); }
  }

  // ---------- references from inside the table ----------

  /** How often each node occurs as an argument of a node of `A`. */
  ghost function Internal(A: set<Ast>): multiset<Ast> {
    if A == {} then multiset{} else var p :| p in A; multiset(p.args) + Internal(A - {p})
  }

  lemma {:induction false} InternalRemove(A: set<Ast>, p: Ast)
    requires p in A
    ensures Internal(A) == multiset(p.args) + Internal(A - {p})
    decreases A
  {
    var q :| q in A && Internal(A) == multiset(q.args) + Internal(A - {q});
    if q != p {
      InternalRemove(A - {q}, p);
      InternalRemove(A - {p}, q);
      assert A - {q} - {p} == A - {p} - {q};
    }
  }

  lemma InternalHasArgs(A: set<Ast>, p: Ast, x: Ast)
    requires p in A && x in p.args
    ensures Internal(A)[x] > 0
  {
    InternalRemove(A, p);
    assert x in multiset(p.args);
  }

  lemma {:induction false} InternalFrom(A: set<Ast>, x: Ast) returns (p: Ast)
    requires Internal(A)[x] > 0
    ensures p in A && x in p.args
    decreases A
  {
    var q :| q in A && Internal(A) == multiset(q.args) + Internal(A - {q});
    if x in q.args { p := q; } else {
      assert x !in multiset(q.args);
      p := InternalFrom(A - {q}, x);
    }
  }

  ghost predicate Closed(A: set<Ast>) {
    forall p, x :: p in A && x in p.args ==> x in A
  }

  lemma {:induction false} ClosedHasParts(A: set<Ast>, a: Ast)
    requires Closed(A) && a in A
    ensures Parts(a) <= A
    decreases a
  {
    forall x | x in Parts(a) ensures x in A {
      if x != a {
        var i :| 0 <= i < |a.args| && x in Parts(a.args[i]);
        assert a.args[i] in a.args;
        ClosedHasParts(A, a.args[i]);
      }
    }
  }

  /** The count of a node is right: references from outside, from the table, and
      decrements that are still owed. */
  ghost predicate CountOk(count: map<Ast, nat>, refs: multiset<Ast>, owed: multiset<Ast>, a: Ast) {
    && (refs[a] > 0 || owed[a] > 0 ==> a in count)
    && (a in count ==> count[a] == refs[a] + Internal(count.Keys)[a] + owed[a])
  }

  ghost predicate Counts(count: map<Ast, nat>, refs: multiset<Ast>, owed: multiset<Ast>) {
    Closed(count.Keys) && forall a :: CountOk(count, refs, owed, a)
  }

  function Zeros(count: map<Ast, nat>): set<Ast> { set a | a in count && count[a] == 0 }

  /** Without floating nodes, the live nodes are those below some outside reference. */
  lemma LiveIffReferenced(count: map<Ast, nat>, refs: multiset<Ast>, a: Ast)
    requires Counts(count, refs, multiset{}) && Zeros(count) == {}
    ensures a in count <==> exists r :: refs[r] > 0 && a in Parts(r)
  {
    if a in count { var r := LiveHasReference(count, refs, a); }
    if r :| refs[r] > 0 && a in Parts(r) {
      assert CountOk(count, refs, multiset{}, r);
      ClosedHasParts(count.Keys, r);
    }
  }

  lemma {:induction false} LiveHasReference(count: map<Ast, nat>, refs: multiset<Ast>, a: Ast) returns (r: Ast)
    requires Counts(count, refs, multiset{}) && Zeros(count) == {} && a in count
    ensures refs[r] > 0 && a in Parts(r)
    decreases Above(count.Keys, a)
  {
    assert a !in Zeros(count) && CountOk(count, refs, multiset{}, a);
    if refs[a] > 0 { return a; }
    var p := InternalFrom(count.Keys, a);
    AboveShrinks(count.Keys, a, p);
    r := LiveHasReference(count, refs, p);
    PartsTransitive(a, p, r);
  }

  lemma AboveShrinks(A: set<Ast>, a: Ast, p: Ast)
    requires p in A && a in p.args
    ensures a in Parts(p) && Above(A, p) < Above(A, a)
  {
    var i :| 0 <= i < |p.args| && p.args[i] == a;
    assert a in Parts(p);
    forall q | q in Above(A, p) ensures q in Above(A, a) {
      PartsTransitive(a, p, q);
      PartsAntisymmetric(p, q);
    }
    assert p in Above(A, a);
  }

  ghost function Above(A: set<Ast>, a: Ast): set<Ast> { set q | q in A && q != a && a in Parts(q) }

  // ---------- one decrement at a time ----------

  lemma DecrementKeeps(count: map<Ast, nat>, refs: multiset<Ast>, owed: multiset<Ast>, x: Ast)
    requires Counts(count, refs, owed + multiset{x})
    ensures x in count && count[x] > 0
    ensures Counts(count[x := count[x] - 1], refs, owed)
  {
    assert CountOk(count, refs, owed + multiset{x}, x);
    var c := count[x := count[x] - 1];
    assert c.Keys == count.Keys;
    forall a ensures CountOk(c, refs, owed, a) { assert CountOk(count, refs, owed + multiset{x}, a); }
  }

  lemma EraseKeeps(count: map<Ast, nat>, refs: multiset<Ast>, owed: multiset<Ast>, x: Ast)
    requires Counts(count, refs, owed) && x in count && count[x] == 0
    ensures Counts(count - {x}, refs, owed + multiset(x.args))
  {
    var c := count - {x};
    assert c.Keys == count.Keys - {x};
    InternalRemove(count.Keys, x);
    assert CountOk(count, refs, owed, x);
    ErasedClosed(count.Keys, x);
    forall a ensures CountOk(c, refs, owed + multiset(x.args), a) {
      assert CountOk(count, refs, owed, a);
      assert a in multiset(x.args) <==> a in x.args;
    }
  }

  /** Nothing refers to a node without references, so the table stays closed. */
  lemma ErasedClosed(A: set<Ast>, x: Ast)
    requires Closed(A) && x in A && Internal(A)[x] == 0
    ensures Closed(A - {x})
    ensures forall a :: a in x.args ==> a in A - {x}
  {
    forall p, y | p in A && y in p.args ensures y != x { InternalHasArgs(A, p, y); }
  }

  class Manager {
    var count: map<Ast, nat>
    ghost var refs: multiset<Ast>    // references held outside the table

    ghost predicate Valid()
      reads this
    {
      Counts(count, refs, multiset{})
    }

    constructor ()
      ensures Valid() && count == map[] && refs == multiset{}
    {
      count, refs := map[], multiset{};
    }

    /** The node with these arguments, new nodes being unreferenced so far. */
    method MkApp(op: Op, args: seq<Ast>) returns (a: Ast)
      requires Valid() && forall x :: x in args ==> x in count
      modifies this
      ensures Valid() && refs == old(refs) && a == Ast(op, args)
      ensures count.Keys == old(count.Keys) + {a} && Zeros(count) <= old(Zeros(count)) + {a}
      ensures a in old(count) ==> count == old(count)
      ensures a !in old(count) ==>
                count[a] == 0 && forall x :: x in old(count) ==> count[x] == old(count)[x] + multiset(args)[x]
    {
      a := Ast(op, args);
      if a !in count {
        ghost var start := count;
        IncArrayRef(args);
        NodeNotInArgs(a);
        NewNodeCounts(start, count, refs, a);
        NewNodeZeros(start, count, a);
        count := count[a := 0];
      }
    }

    method IncArrayRef(args: seq<Ast>)
      requires forall x :: x in args ==> x in count
      modifies this`count
      ensures count.Keys == old(count.Keys)
      ensures forall x :: x in count ==> count[x] == old(count)[x] + multiset(args)[x]
    {
      for i := 0 to |args|
        invariant count.Keys == old(count.Keys)
        invariant forall x :: x in count ==> count[x] == old(count)[x] + multiset(args[..i])[x]
      {
        assert args[..i + 1] == args[..i] + [args[i]] && args[i] in args;
        count := count[args[i] := count[args[i]] + 1];
      }
      assert args[..|args|] == args;
    }

    static lemma NodeNotInArgs(a: Ast)
      ensures a !in a.args
    {
    }

    static lemma NewNodeCounts(start: map<Ast, nat>, count: map<Ast, nat>, refs: multiset<Ast>, a: Ast)
      requires Counts(start, refs, multiset{}) && a !in start && (forall x :: x in a.args ==> x in start)
      requires count.Keys == start.Keys && forall x :: x in count ==> count[x] == start[x] + multiset(a.args)[x]
      requires a !in a.args
      ensures Counts(count[a := 0], refs, multiset{})
    {
      var c := count[a := 0];
      assert c.Keys == start.Keys + {a} && start.Keys + {a} - {a} == start.Keys;
      InternalRemove(c.Keys, a);
      NewNodeUnused(start.Keys, a);
      assert a !in multiset(a.args);
      forall x ensures CountOk(c, refs, multiset{}, x) { assert CountOk(start, refs, multiset{}, x); }
    }

    static lemma NewNodeUnused(A: set<Ast>, a: Ast)
      requires Closed(A) && a !in A
      ensures Internal(A)[a] == 0
    {
      if Internal(A)[a] > 0 {
        var p := InternalFrom(A, a);
        assert false;
      }
    }

    static lemma NewNodeZeros(start: map<Ast, nat>, count: map<Ast, nat>, a: Ast)
      requires count.Keys == start.Keys && forall x :: x in count ==> count[x] >= start[x]
      ensures Zeros(count[a := 0]) <= Zeros(start) + {a}
    {
    }

    method IncRef(a: Ast)
      requires Valid() && a in count
      modifies this
      ensures Valid() && refs == old(refs) + multiset{a}
      ensures count == old(count)[a := old(count)[a] + 1] && Zeros(count) == old(Zeros(count)) - {a}
    {
      IncrementKeeps(count, refs, a);
      refs := refs + multiset{a};
      count := count[a := count[a] + 1];
    }

    static lemma IncrementKeeps(count: map<Ast, nat>, refs: multiset<Ast>, x: Ast)
      requires Counts(count, refs, multiset{}) && x in count
      ensures Counts(count[x := count[x] + 1], refs + multiset{x}, multiset{})
    {
      var c := count[x := count[x] + 1];
      assert c.Keys == count.Keys;
      forall a ensures CountOk(c, refs + multiset{x}, multiset{}, a) { assert CountOk(count, refs, multiset{}, a); }
    }

    /** Gives up one reference; nodes that lose their last one are deleted, and give
        up their arguments in turn. */
    method DecRef(a: Ast)
      requires Valid() && refs[a] > 0
      modifies this
      ensures Valid() && refs == old(refs) - multiset{a}
      ensures count.Keys <= old(count.Keys) && Zeros(count) <= old(Zeros(count))
      ensures a in old(count) && if old(count)[a] > 1 then count == old(count)[a := old(count)[a] - 1] else a !in count
    {
      assert CountOk(count, refs, multiset{}, a);
      refs := refs - multiset{a};
      assert old(refs) == refs + multiset{a};
      ReleaseOwes(count, refs, a);
      var erased := PushDecRef(a, [], multiset{});
      DeleteNodes(erased);
    }

    method DeleteNodes(toErase: seq<Ast>)
      requires Counts(count, refs, Owed(toErase) + multiset{})
      modifies this`count
      ensures Counts(count, refs, multiset{})
      ensures count.Keys <= old(count.Keys) && Zeros(count) <= old(Zeros(count))
      ensures toErase == [] ==> count == old(count)
    {
      var erased := toErase;
      assert Owed(erased) + multiset{} == Owed(erased);
      while erased != []
        invariant Counts(count, refs, Owed(erased))
        invariant count.Keys <= old(count.Keys) && Zeros(count) <= old(Zeros(count))
        invariant toErase == [] ==> erased == [] && count == old(count)
        decreases |count|, |erased|
      {
        var n := erased[|erased| - 1];
        erased := PushDecArrayRef(n.args, erased[..|erased| - 1]);
      }
    }

    static lemma ReleaseOwes(count: map<Ast, nat>, refs: multiset<Ast>, a: Ast)
      requires Counts(count, refs + multiset{a}, multiset{})
      ensures Counts(count, refs, Owed([]) + multiset{} + multiset{a})
    {
      forall x ensures CountOk(count, refs, Owed([]) + multiset{} + multiset{a}, x) {
        assert CountOk(count, refs + multiset{a}, multiset{}, x);
      }
    }

    method PushDecArrayRef(args: seq<Ast>, erased: seq<Ast>) returns (r: seq<Ast>)
      requires Counts(count, refs, Owed(erased) + multiset(args))
      modifies this`count
      ensures Counts(count, refs, Owed(r))
      ensures count.Keys <= old(count.Keys) && Zeros(count) <= old(Zeros(count))
      ensures (r == erased && count.Keys == old(count.Keys)) || |count| < |old(count)|
    {
      r := erased;
      for i := 0 to |args|
        invariant Counts(count, refs, Owed(r) + multiset(args[i..]))
        invariant count.Keys <= old(count.Keys) && Zeros(count) <= old(Zeros(count))
        invariant (r == erased && count.Keys == old(count.Keys)) || |count| < |old(count)|
      {
        OwedNext(Owed(r), args, i);
        r := PushDecRef(args[i], r, multiset(args[i + 1..]));
      }
      assert Owed(r) + multiset(args[|args|..]) == Owed(r);
    }

    static lemma OwedNext(owed: multiset<Ast>, args: seq<Ast>, i: nat)
      requires i < |args|
      ensures owed + multiset(args[i..]) == owed + multiset(args[i + 1..]) + multiset{args[i]}
    {
      assert args[i..] == [args[i]] + args[i + 1..];
    }

    /** The decrements that deleted nodes still owe to their arguments. */
    static function Owed(erased: seq<Ast>): multiset<Ast> {
      if erased == [] then multiset{} else Owed(erased[..|erased| - 1]) + multiset(erased[|erased| - 1].args)
    }

    static lemma DecrementZeros(count: map<Ast, nat>, x: Ast)
      requires x in count && count[x] > 0
      ensures var c := count[x := count[x] - 1];
              && c.Keys == count.Keys && Zeros(c) - {x} <= Zeros(count) && Zeros(c - {x}) <= Zeros(count)
              && (c[x] > 0 ==> Zeros(c) <= Zeros(count)) && |c - {x}| < |count|
    {
      var c := count[x := count[x] - 1];
      assert c.Keys == count.Keys && (c - {x}).Keys == count.Keys - {x};
    }

    static lemma OwedPushed(erased: seq<Ast>, x: Ast, later: multiset<Ast>)
      ensures Owed(erased + [x]) + later == Owed(erased) + later + multiset(x.args)
    {
      assert (erased + [x])[..|erased|] == erased;
    }

    /** One decrement; the node is erased from the table if it was the last. */
    method PushDecRef(x: Ast, erased: seq<Ast>, ghost later: multiset<Ast>) returns (r: seq<Ast>)
      requires Counts(count, refs, Owed(erased) + later + multiset{x})
      modifies this`count
      ensures Counts(count, refs, Owed(r) + later)
      ensures count.Keys <= old(count.Keys) && Zeros(count) <= old(Zeros(count))
      ensures (r == erased && count.Keys == old(count.Keys)) || |count| < |old(count)|
      ensures x in old(count) && if old(count)[x] > 1 then r == erased && count == old(count)[x := old(count)[x] - 1]
                                 else r == erased + [x] && count == old(count) - {x}
    {
      DecrementKeeps(count, refs, Owed(erased) + later, x);
      DecrementZeros(count, x);
      count := count[x := count[x] - 1];
      r := erased;
      if count[x] == 0 {
        EraseKeeps(count, refs, Owed(erased) + later, x);
        r := erased + [x];
        OwedPushed(erased, x, later);
        count := count - {x};
      }
    }
  }
}
