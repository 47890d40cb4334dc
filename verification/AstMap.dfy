/** Maps from nodes to nodes that keep their keys and values alive. */
module AstMap {
  import opened AstManager

  function RefsOf(v: Node): multiset<Ast> { if v.Node? then multiset{v.ast} else multiset{} }

  /** The references of one entry. */
  function EntryRefs(k: Ast, v: Node): multiset<Ast> { multiset{k} + RefsOf(v) }

  ghost function KeysOf(m: map<Ast, Node>, a: Ast): set<Ast> { set k | k in m && m[k] == Node(a) }

  /** A node is held once for being a key and once for each entry it is the value of. */
  ghost function Held(m: map<Ast, Node>, a: Ast): nat {
    (if a in m then 1 else 0) + |KeysOf(m, a)|
  }

  lemma HeldRemove(m: map<Ast, Node>, k: Ast, a: Ast)
    requires k in m
    ensures Held(m, a) == Held(m - {k}, a) + EntryRefs(k, m[k])[a]
  {
    assert KeysOf(m - {k}, a) == KeysOf(m, a) - {k};
  }

  lemma HeldInsert(m: map<Ast, Node>, k: Ast, v: Node, a: Ast)
    ensures Held(m[k := v], a) == Held(m - {k}, a) + EntryRefs(k, v)[a]
  {
    HeldRemove(m[k := v], k, a);
    assert m[k := v] - {k} == m - {k};
  }

  ghost predicate OwnOk(m: map<Ast, Node>, leaked: multiset<Ast>, own: multiset<Ast>, a: Ast) {
    own[a] == Held(m, a) + leaked[a]
  }

  /** The references that a map owns are those it accounts for, and the leaked ones. */
  ghost predicate Owns(m: map<Ast, Node>, leaked: multiset<Ast>, own: multiset<Ast>) {
    forall a :: OwnOk(m, leaked, own, a)
  }

  lemma OwnsNothing(leaked: multiset<Ast>, own: multiset<Ast>)
    requires Owns(map[], leaked, own)
    ensures own == leaked
  {
    forall a ensures own[a] == leaked[a] { assert OwnOk(map[], leaked, own, a) && KeysOf(map[], a) == {}; }
  }

  lemma RemoveOwns(m: map<Ast, Node>, leaked: multiset<Ast>, own: multiset<Ast>, k: Ast)
    requires Owns(m, leaked, own) && k in m
    ensures EntryRefs(k, m[k]) <= own
    ensures Owns(m - {k}, leaked, own - EntryRefs(k, m[k]))
  {
    var rest, less := m - {k}, own - EntryRefs(k, m[k]);
    forall a ensures EntryRefs(k, m[k])[a] <= own[a] { assert OwnOk(m, leaked, own, a); HeldRemove(m, k, a); }
    forall a ensures OwnOk(rest, leaked, less, a) { assert OwnOk(m, leaked, own, a); HeldRemove(m, k, a); }
  }

  lemma NewOwns(m: map<Ast, Node>, leaked: multiset<Ast>, own: multiset<Ast>, k: Ast, v: Node)
    requires Owns(m, leaked, own) && k !in m
    ensures Owns(m[k := v], leaked, own + EntryRefs(k, v))
  {
    var all, more := m[k := v], own + EntryRefs(k, v);
    forall a ensures OwnOk(all, leaked, more, a) {
      assert OwnOk(m, leaked, own, a) && m - {k} == m;
      HeldInsert(m, k, v, a);
    }
  }

  lemma ReplaceOwns(m: map<Ast, Node>, leaked: multiset<Ast>, own: multiset<Ast>, k: Ast, v: Node)
    requires Owns(m, leaked, own) && k in m
    ensures RefsOf(m[k]) <= own
    ensures Owns(m[k := v], leaked, own + RefsOf(v) - RefsOf(m[k]))
  {
    forall a ensures RefsOf(m[k])[a] <= own[a] { assert OwnOk(m, leaked, own, a); HeldRemove(m, k, a); }
    var all, now := m[k := v], own + RefsOf(v) - RefsOf(m[k]);
    forall a ensures OwnOk(all, leaked, now, a) {
      assert OwnOk(m, leaked, own, a);
      HeldRemove(m, k, a);
      HeldInsert(m, k, v, a);
    }
  }

  /** The key of a null entry is counted once more, and that reference is lost. */
  lemma OverwriteOwns(m: map<Ast, Node>, leaked: multiset<Ast>, own: multiset<Ast>, k: Ast, v: Node)
    requires Owns(m, leaked, own) && k in m && m[k].Null?
    ensures Owns(m[k := v], leaked + multiset{k}, own + EntryRefs(k, v))
  {
    var all, lost, more := m[k := v], leaked + multiset{k}, own + EntryRefs(k, v);
    forall a ensures OwnOk(all, lost, more, a) {
      assert OwnOk(m, leaked, own, a);
      HeldRemove(m, k, a);
      HeldInsert(m, k, v, a);
    }
  }

  function Without(m: map<Ast, Node>, k: Ast): (r: map<Ast, Node>)
    requires k in m
    ensures r == m - {k} && |r| < |m|
  {
    assert (m - {k}).Keys == m.Keys - {k};
    m - {k}
  }

  // ---------- others' references are left alone ----------

  lemma AddBoth(refs: multiset<Ast>, own: multiset<Ast>, e: multiset<Ast>)
    requires own <= refs
    ensures own + e <= refs + e && (refs + e) - (own + e) == refs - own
  {
  }

  lemma SubBoth(refs: multiset<Ast>, own: multiset<Ast>, e: multiset<Ast>)
    requires e <= own <= refs
    ensures own - e <= refs - e && (refs - e) - (own - e) == refs - own
  {
  }

  // ---------- sequences of operations ----------

  datatype MapOp = Insert(k: Ast, v: Node) | Erase(k: Ast) | Reset

  function Apply(m: map<Ast, Node>, op: MapOp): map<Ast, Node> {
    match op
    case Insert(k, v) => m[k := v]
    case Erase(k) => m - {k}
    case Reset => map[]
  }

  predicate OverwritesNull(m: map<Ast, Node>, op: MapOp) { op.Insert? && op.k in m && m[op.k].Null? }

  function Leak(m: map<Ast, Node>, op: MapOp): multiset<Ast> {
    if OverwritesNull(m, op) then multiset{op.k} else multiset{}
  }

  function After(m: map<Ast, Node>, ops: seq<MapOp>): map<Ast, Node> {
    if ops == [] then m else Apply(After(m, ops[..|ops| - 1]), ops[|ops| - 1])
  }

  /** What a sequence of operations leaks, starting from `m`. */
  function Leaks(m: map<Ast, Node>, ops: seq<MapOp>): multiset<Ast> {
    if ops == [] then multiset{}
    else Leaks(m, ops[..|ops| - 1]) + Leak(After(m, ops[..|ops| - 1]), ops[|ops| - 1])
  }

  ghost predicate OverwritesNullAt(m: map<Ast, Node>, ops: seq<MapOp>, i: nat)
    requires i < |ops|
  {
    OverwritesNull(After(m, ops[..i]), ops[i])
  }

  ghost predicate NeverOverwritesNull(m: map<Ast, Node>, ops: seq<MapOp>) {
    forall i: nat :: i < |ops| ==> !OverwritesNullAt(m, ops, i)
  }

  lemma NeverLonger(m: map<Ast, Node>, ops: seq<MapOp>)
    requires ops != []
    ensures NeverOverwritesNull(m, ops) <==>
              NeverOverwritesNull(m, ops[..|ops| - 1]) && !OverwritesNullAt(m, ops, |ops| - 1)
  {
    var n := |ops| - 1;
    forall i: nat | i < n ensures OverwritesNullAt(m, ops[..n], i) <==> OverwritesNullAt(m, ops, i) {
      assert ops[..n][..i] == ops[..i];
    }
  }

  /** Nothing is leaked if and only if no entry with a null value is ever overwritten. */
  lemma {:induction false} BalancedIff(m: map<Ast, Node>, ops: seq<MapOp>)
    ensures Leaks(m, ops) == multiset{} <==> NeverOverwritesNull(m, ops)
  {
    if ops != [] {
      var n := |ops| - 1;
      BalancedIff(m, ops[..n]);
      NeverLonger(m, ops);
      NoneInSum(Leaks(m, ops[..n]), Leak(After(m, ops[..n]), ops[n]));
    }
  }

  /** A map owns exactly what it holds if and only if no entry with a null value has ever
      been overwritten. */
  lemma OwnsHeldIff(ops: seq<MapOp>, own: multiset<Ast>)
    requires Owns(After(map[], ops), Leaks(map[], ops), own)
    ensures (forall a :: own[a] == Held(After(map[], ops), a)) <==> NeverOverwritesNull(map[], ops)
  {
    var m, leaked := After(map[], ops), Leaks(map[], ops);
    BalancedIff(map[], ops);
    forall a ensures own[a] == Held(m, a) + leaked[a] { assert OwnOk(m, leaked, own, a); }
    if leaked != multiset{} {
      var a :| a in leaked;
      assert own[a] != Held(m, a);
    }
  }

  /** The leak at its smallest: a null value is stored and then replaced. */
  lemma NullOverwriteLeaks(k: Ast, v: Node)
    ensures Leaks(map[], [Insert(k, Null), Insert(k, v)]) == multiset{k}
    ensures !NeverOverwritesNull(map[], [Insert(k, Null), Insert(k, v)])
  {
    var ops := [Insert(k, Null), Insert(k, v)];
    var first := [Insert(k, Null)];
    assert ops[..1] == first && first[..0] == [];
    assert After(map[], first) == map[k := Null] && Leaks(map[], first) == multiset{};
    assert OverwritesNullAt(map[], ops, 1);
  }

  lemma NoneInSum(a: multiset<Ast>, b: multiset<Ast>)
    ensures a + b == multiset{} <==> a == multiset{} && b == multiset{}
  {
    assert |a + b| == |a| + |b|;
  }

  /** The client's references `held` keep alive what `op` inserts. */
  predicate Holds(held: multiset<Ast>, op: MapOp) {
    op.Insert? ==> op.k in held && (op.v.Node? ==> op.v.ast in held)
  }

  lemma Restored(before: multiset<Ast>, after: multiset<Ast>, own: multiset<Ast>)
    requires own <= after && after - own == before
    ensures after == before + own
    ensures after == before <==> own == multiset{}
  {
    assert |before + own| == |before| + |own|;
  }

  class AstMapRef {
    const m: Manager
    var entries: map<Ast, Node>
    ghost var own: multiset<Ast>      // references taken and not given back
    ghost var leaked: multiset<Ast>   // taken for keys that had been counted before

    ghost predicate Valid()
      reads this, m
    {
      m.Valid() && own <= m.refs && Owns(entries, leaked, own)
    }

    constructor (m: Manager)
      requires m.Valid()
      ensures this.m == m && Valid() && entries == map[] && own == leaked == multiset{}
    {
      this.m := m;
      entries, own, leaked := map[], multiset{}, multiset{};
      new;
      forall a ensures OwnOk(entries, leaked, own, a) { assert KeysOf(entries, a) == {}; }
    }

    method Contains(k: Ast) returns (r: bool)
      ensures r <==> k in entries
    {
      r := k in entries;
    }

    /** A missing key is an error. */
    method Find(k: Ast) returns (ok: bool, r: Node)
      ensures ok <==> k in entries
      ensures r == if ok then entries[k] else Null
    {
      if k !in entries { return false, Null; }
      return true, entries[k];
    }

    /** A key whose entry is the null pointer is taken for a new one. */
    method Insert(k: Ast, v: Node)
      requires Valid() && k in m.count && (v.Node? ==> v.ast in m.count)
      modifies this, m
      ensures Valid() && entries == old(entries)[k := v] && m.refs - own == old(m.refs) - old(own)
      ensures leaked == old(leaked) + Leak(old(entries), MapOp.Insert(k, v))
      ensures k !in old(entries) || old(entries)[k] == Null ==>
                m.refs == old(m.refs) + multiset{k} + (if v.Node? then multiset{v.ast} else multiset{})
      ensures k in old(entries) && old(entries)[k].Node? ==>
                m.refs == old(m.refs) + (if v.Node? then multiset{v.ast} else multiset{})
                          - multiset{old(entries)[k].ast}
    {
      if k !in entries {
        InsertNew(k, v);
      } else if entries[k].Null? {
        InsertOverNull(k, v);
      } else {
        InsertOver(k, v);
      }
    }

    method InsertNew(k: Ast, v: Node)
      requires Valid() && k in m.count && (v.Node? ==> v.ast in m.count) && k !in entries
      modifies this, m
      ensures Valid() && entries == old(entries)[k := v] && m.refs - own == old(m.refs) - old(own)
      ensures leaked == old(leaked) && m.refs == old(m.refs) + EntryRefs(k, v)
    {
      NewOwns(entries, leaked, own, k, v);
      AddBoth(m.refs, own, EntryRefs(k, v));
      IncEntry(k, v);
      entries, own := entries[k := v], own + EntryRefs(k, v);
    }

    method InsertOverNull(k: Ast, v: Node)
      requires Valid() && k in m.count && (v.Node? ==> v.ast in m.count) && k in entries && entries[k].Null?
      modifies this, m
      ensures Valid() && entries == old(entries)[k := v] && m.refs - own == old(m.refs) - old(own)
      ensures leaked == old(leaked) + multiset{k} && m.refs == old(m.refs) + EntryRefs(k, v)
    {
      OverwriteOwns(entries, leaked, own, k, v);
      AddBoth(m.refs, own, EntryRefs(k, v));
      IncEntry(k, v);
      entries, own, leaked := entries[k := v], own + EntryRefs(k, v), leaked + multiset{k};
    }

    method InsertOver(k: Ast, v: Node)
      requires Valid() && (v.Node? ==> v.ast in m.count) && k in entries && entries[k].Node?
      modifies this, m
      ensures Valid() && entries == old(entries)[k := v] && m.refs - own == old(m.refs) - old(own)
      ensures leaked == old(leaked) && m.refs == old(m.refs) + RefsOf(v) - RefsOf(old(entries)[k])
    {
      ReplaceOwns(entries, leaked, own, k, v);
      AddBoth(m.refs, own, RefsOf(v));
      IncNode(v);
      SubBoth(m.refs, own + RefsOf(v), RefsOf(entries[k]));
      DecNode(entries[k]);
      entries, own := entries[k := v], own + RefsOf(v) - RefsOf(entries[k]);
    }

    method IncEntry(k: Ast, v: Node)
      requires m.Valid() && k in m.count && (v.Node? ==> v.ast in m.count)
      modifies m
      ensures m.Valid() && m.refs == old(m.refs) + EntryRefs(k, v)
    {
      m.IncRef(k);
      IncNode(v);
    }

    method DecEntry(k: Ast, v: Node)
      requires m.Valid() && EntryRefs(k, v) <= m.refs
      modifies m
      ensures m.Valid() && m.refs == old(m.refs) - EntryRefs(k, v)
    {
      assert k in EntryRefs(k, v);
      m.DecRef(k);
      DecNode(v);
    }

    method IncNode(v: Node)
      requires m.Valid() && (v.Node? ==> v.ast in m.count)
      modifies m
      ensures m.Valid() && m.refs == old(m.refs) + RefsOf(v)
    {
      if v.Node? { m.IncRef(v.ast); }
    }

    method DecNode(v: Node)
      requires m.Valid() && RefsOf(v) <= m.refs
      modifies m
      ensures m.Valid() && m.refs == old(m.refs) - RefsOf(v)
    {
      if v.Node? { m.DecRef(v.ast); }
    }

    method Erase(k: Ast)
      requires Valid()
      modifies this`entries, this`own, m
      ensures Valid() && entries == old(entries) - {k} && m.refs - own == old(m.refs) - old(own)
      ensures m.refs == if k !in old(entries) then old(m.refs)
                        else if old(entries)[k].Null? then old(m.refs) - multiset{k}
                        else old(m.refs) - multiset{k} - multiset{old(entries)[k].ast}
    {
      if k in entries {
        var v := entries[k];
        RemoveOwns(entries, leaked, own, k);
        SubBoth(m.refs, own, EntryRefs(k, v));
        entries, own := entries - {k}, own - EntryRefs(k, v);
        DecEntry(k, v);
      } else {
        assert entries - {k} == entries;
      }
    }

    method Reset()
      requires Valid()
      modifies this`entries, this`own, m
      ensures Valid() && entries == map[] && own == leaked && m.refs - own == old(m.refs) - old(own)
    {
      DecRefKeyValues();
    }

    /** The destructor: nothing but leaked references remains. */
    method Destroy()
      requires Valid()
      modifies this`entries, this`own, m
      ensures m.Valid() && own == leaked <= m.refs && m.refs - own == old(m.refs) - old(own)
    {
      DecRefKeyValues();
    }

    /** One operation of a client that holds what it inserts. */
    method Step(op: MapOp)
      requires Valid() && Holds(m.refs - own, op)
      modifies this, m
      ensures Valid() && entries == Apply(old(entries), op) && m.refs - own == old(m.refs) - old(own)
      ensures leaked == old(leaked) + Leak(old(entries), op)
    {
      match op {
        case Insert(k, v) =>
          HeldIsLive(op);
          Insert(k, v);
        case Erase(k) => Erase(k);
        case Reset => Reset();
      }
    }

    lemma HeldIsLive(op: MapOp)
      requires Valid() && Holds(m.refs - own, op) && op.Insert?
      ensures op.k in m.count && (op.v.Node? ==> op.v.ast in m.count)
    {
      assert CountOk(m.count, m.refs, multiset{}, op.k);
      if op.v.Node? { assert CountOk(m.count, m.refs, multiset{}, op.v.ast); }
    }

    /** Any sequence of operations: what the map holds in the end, what it has leaked, and
        that it never touches a reference of others. */
    method Run(ops: seq<MapOp>)
      requires Valid() && forall op :: op in ops ==> Holds(m.refs - own, op)
      modifies this, m
      ensures Valid() && entries == After(old(entries), ops) && m.refs - own == old(m.refs) - old(own)
      ensures leaked == old(leaked) + Leaks(old(entries), ops)
      ensures old(entries) == map[] && old(leaked) == multiset{} ==>
                ((forall a :: own[a] == Held(entries, a)) <==> NeverOverwritesNull(map[], ops))
    {
      ghost var start, lost, others := entries, leaked, m.refs - own;
      for i := 0 to |ops|
        invariant Valid() && m.refs - own == others
        invariant entries == After(start, ops[..i]) && leaked == lost + Leaks(start, ops[..i])
      {
        assert ops[..i + 1][..i] == ops[..i] && ops[i] in ops;
        Step(ops[i]);
      }
      assert ops[..|ops|] == ops;
      if start == map[] && lost == multiset{} {
        assert leaked == Leaks(map[], ops);
        OwnsHeldIff(ops, own);
      }
    }

    /** The whole life of a map: the manager is left as it was if and only if no entry with
        a null value is ever overwritten. */
    static method Lifetime(m: Manager, ops: seq<MapOp>)
      requires m.Valid() && forall op :: op in ops ==> Holds(m.refs, op)
      modifies m
      ensures m.Valid() && m.refs == old(m.refs) + Leaks(map[], ops)
      ensures m.refs == old(m.refs) <==> NeverOverwritesNull(map[], ops)
    {
      var created := new AstMapRef(m);
      assert m.refs - created.own == m.refs;
      created.Run(ops);
      created.Destroy();
      BalancedIff(map[], ops);
      Restored(old(m.refs), m.refs, created.own);
    }

    method DecRefKeyValues()
      requires Valid()
      modifies this`entries, this`own, m
      ensures Valid() && entries == map[] && own == leaked && m.refs - own == old(m.refs) - old(own)
    {
      var rest := entries;
      while rest.Keys != {}
        invariant m.Valid() && own <= m.refs && Owns(rest, leaked, own)
        invariant m.refs - own == old(m.refs) - old(own)
        decreases |rest|
      {
        var k :| k in rest;
        RemoveOwns(rest, leaked, own, k);
        SubBoth(m.refs, own, EntryRefs(k, rest[k]));
        DecEntry(k, rest[k]);
        own := own - EntryRefs(k, rest[k]);
        rest := Without(rest, k);
      }
      assert rest == map[];
      OwnsNothing(leaked, own);
      entries := map[];
    }
  }
}
