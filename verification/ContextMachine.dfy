/** The life cycle of nodes and objects in a context, as a state machine whose steps
    are the pieces of code that run without interruption.  Steps of the main thread and
    of the threads that drop handles can alternate in any order. */
module ContextMachine {
  import opened AstManager

  // Objects are numbered in the order of their creation.
  type Obj = nat

  datatype Last = NoLast | Last(o: Obj)

  /** Nodes: what the manager has counted, and who holds the references. */
  datatype Nodes = Nodes(refs: multiset<Ast>, handles: multiset<Ast>, queue: seq<Ast>, flush: seq<Ast>, trail: seq<Ast>)

  datatype Objs = Objs(
    created: nat,
    ids: map<Obj, nat>,
    table: map<nat, Obj>,
    freeIds: seq<nat>,
    count: map<Obj, nat>,           // reference counts
    handles: multiset<Obj>,         // references that clients own
    last: Last,                     // the last object returned
    nascent: set<Obj>,              // created, not yet referenced
    limbo: set<Obj>,                // count reached zero, deletion not yet requested
    queue: seq<Obj>, flush: seq<Obj>,
    freed: multiset<Obj>)

  datatype Ctx = Ctx(
    userRefs: bool,                 // the user manages references
    concurrent: bool,               // decrements are allowed in other threads
    nodes: Nodes,
    objs: Objs)

  datatype Action =
    | EnableConcurrent | ResetTrail | ResetLast
    | SwapQueues | FlushAst | FlushObj
    | IncAst(a: Ast) | SaveTrail(a: Ast) | DecAst(a: Ast)
    | AddObject | SaveObject(o: Obj) | IncObj(o: Obj) | DecObj(o: Obj) | DelObj(o: Obj)

  ghost predicate Live(refs: multiset<Ast>, a: Ast) {
    exists r :: refs[r] > 0 && a in Parts(r)
  }

  /** The main thread is not in the middle of a flush. */
  predicate Idle(s: Ctx) { s.nodes.flush == [] && s.objs.flush == [] }

  predicate Known(s: Objs, o: Obj) { o in s.handles || s.last == Last(o) }

  /** What the code itself and the owners of handles guarantee when a step starts. */
  ghost predicate Enabled(s: Ctx, act: Action) {
    match act
    case EnableConcurrent => true
    case ResetTrail => Idle(s) && s.userRefs
    case ResetLast => Idle(s)
    case SwapQueues => Idle(s) && s.concurrent && (s.nodes.queue != [] || s.objs.queue != [])
    case FlushAst => s.nodes.flush != []
    case FlushObj => s.nodes.flush == [] && s.objs.flush != []
    case IncAst(a) => Idle(s) && Live(s.nodes.refs, a)
    case SaveTrail(_) => Idle(s)
    case DecAst(a) => a in s.nodes.handles
    case AddObject => Idle(s) && s.objs.nascent == {}
    case SaveObject(o) => Idle(s) && (o in s.objs.nascent || Known(s.objs, o))
    case IncObj(o) => Known(s.objs, o)
    case DecObj(o) => o in s.objs.handles
    case DelObj(o) => o in s.objs.limbo
  }

  // ---------- the steps on nodes ----------

  function DropTrail(s: Nodes): Nodes { s.(refs := s.refs - multiset(s.trail), trail := []) }

  function Trail(s: Nodes, userRefs: bool, a: Ast): Nodes {
    if userRefs then s.(refs := s.refs + multiset{a} - multiset(s.trail), trail := [a])
    else s.(refs := s.refs + multiset{a}, trail := s.trail + [a])
  }

  function DropHandle(s: Nodes, concurrent: bool, a: Ast): Nodes {
    var t := s.(handles := s.handles - multiset{a});
    if concurrent then t.(queue := t.queue + [a]) else t.(refs := t.refs - multiset{a})
  }

  function FlushOneAst(s: Nodes): Nodes {
    if s.flush == [] then s else s.(refs := s.refs - multiset{s.flush[0]}, flush := s.flush[1..])
  }

  // ---------- the steps on objects ----------

  function IdOf(s: Objs, o: Obj): nat { if o in s.ids then s.ids[o] else 0 }

  function CountOf(s: Objs, o: Obj): nat { if o in s.count then s.count[o] else 0 }

  /** Returns the object's id to the free list and deallocates it. */
  function Free(s: Objs, o: Obj): Objs {
    s.(freeIds := s.freeIds + [IdOf(s, o)], table := s.table - {IdOf(s, o)}, freed := s.freed + multiset{o})
  }

  function NewIdOf(table: map<nat, Obj>, freeIds: seq<nat>): nat {
    if freeIds != [] then freeIds[|freeIds| - 1] else |table|
  }

  function PopId(freeIds: seq<nat>): seq<nat> {
    if freeIds != [] then freeIds[..|freeIds| - 1] else freeIds
  }

  function Alloc(s: Objs): Objs {
    var o, id := s.created, NewIdOf(s.table, s.freeIds);
    s.(created := s.created + 1, ids := s.ids[o := id], table := s.table[id := o], freeIds := PopId(s.freeIds),
       count := s.count[o := 0], nascent := s.nascent + {o})
  }

  function Acquire(s: Objs, o: Obj): Objs {
    s.(count := s.count[o := CountOf(s, o) + 1], nascent := s.nascent - {o})
  }

  /** Gives up one reference; at zero the caller goes on to request the deletion. */
  function Release(s: Objs, o: Obj): Objs {
    if CountOf(s, o) == 0 then s
    else s.(count := s.count[o := CountOf(s, o) - 1], limbo := if CountOf(s, o) == 1 then s.limbo + {o} else s.limbo)
  }

  function Delete(s: Objs, concurrent: bool, o: Obj): Objs {
    var t := s.(limbo := s.limbo - {o});
    if concurrent then t.(queue := t.queue + [o]) else Free(t, o)
  }

  /** A reference given up, and the deletion requested if it was the last one. */
  function Dropped(s: Objs, concurrent: bool, o: Obj): Objs {
    if CountOf(s, o) == 1 then Delete(Release(s, o), concurrent, o) else Release(s, o)
  }

  function DropLast(s: Objs): Objs {
    if s.last.Last? then Release(s, s.last.o).(last := NoLast) else s
  }

  function SetLast(s: Objs, o: Obj): Objs {
    DropLast(Acquire(s, o)).(last := Last(o))
  }

  function FlushOneObj(s: Objs): Objs {
    if s.flush == [] then s else Free(s, s.flush[0]).(flush := s.flush[1..])
  }

  // ---------- every step ----------

  function SwapNodes(s: Nodes): Nodes { s.(flush := s.queue, queue := []) }

  function SwapObjs(s: Objs): Objs { s.(flush := s.queue, queue := []) }

  function Swap(s: Ctx): Ctx { s.(nodes := SwapNodes(s.nodes), objs := SwapObjs(s.objs)) }

  function Step(s: Ctx, act: Action): Ctx {
    match act
    case EnableConcurrent => s.(concurrent := true)
    case ResetTrail => s.(nodes := DropTrail(s.nodes))
    case ResetLast => s.(objs := DropLast(s.objs))
    case SwapQueues => Swap(s)
    case FlushAst => s.(nodes := FlushOneAst(s.nodes))
    case FlushObj => s.(objs := FlushOneObj(s.objs))
    case IncAst(a) =>
      s.(nodes := s.nodes.(refs := s.nodes.refs + multiset{a}, handles := s.nodes.handles + multiset{a}))
    case SaveTrail(a) => s.(nodes := Trail(s.nodes, s.userRefs, a))
    case DecAst(a) => s.(nodes := DropHandle(s.nodes, s.concurrent, a))
    case AddObject => s.(objs := Alloc(s.objs))
    case SaveObject(o) => s.(objs := SetLast(s.objs, o))
    case IncObj(o) => s.(objs := Acquire(s.objs, o).(handles := s.objs.handles + multiset{o}))
    case DecObj(o) => s.(objs := Release(s.objs, o).(handles := s.objs.handles - multiset{o}))
    case DelObj(o) => s.(objs := Delete(s.objs, s.concurrent, o))
  }

  // ---------- what the steps do, field by field ----------

  /** The steps of other threads leave everything alone that only the main thread may
      touch: they give up handles and append to the queues. */
  lemma OtherThreads(s: Ctx, act: Action)
    requires s.concurrent && (act.DecAst? || act.DecObj? || act.DelObj?)
    ensures var t := Step(s, act);
            && t.userRefs == s.userRefs && t.concurrent
            && t.nodes.refs == s.nodes.refs && t.nodes.flush == s.nodes.flush && t.nodes.trail == s.nodes.trail
            && t.objs.table == s.objs.table && t.objs.freeIds == s.objs.freeIds && t.objs.freed == s.objs.freed
            && t.objs.ids == s.objs.ids && t.objs.created == s.objs.created && t.objs.flush == s.objs.flush
            && t.objs.last == s.objs.last && t.objs.nascent == s.objs.nascent
            && t.nodes.queue == s.nodes.queue + (if act.DecAst? then [act.a] else [])
            && t.nodes.handles == s.nodes.handles - (if act.DecAst? then multiset{act.a} else multiset{})
            && t.objs.queue == s.objs.queue + (if act.DelObj? then [act.o] else [])
            && t.objs.handles == s.objs.handles - (if act.DecObj? then multiset{act.o} else multiset{})
  {
    assert act.DecAst? || s.nodes.queue + [] == s.nodes.queue;
    assert act.DelObj? || s.objs.queue + [] == s.objs.queue;
  }

  /** Without concurrent drops the same steps take effect at once and queue nothing. */
  lemma OneThread(s: Ctx, act: Action)
    requires !s.concurrent && (act.DecAst? || (act.DelObj? && act.o in s.objs.ids))
    ensures var t := Step(s, act);
            && t.nodes.queue == s.nodes.queue && t.objs.queue == s.objs.queue
            && t.nodes.refs == s.nodes.refs - (if act.DecAst? then multiset{act.a} else multiset{})
            && t.objs.freed == s.objs.freed + (if act.DelObj? then multiset{act.o} else multiset{})
            && t.objs.freeIds == s.objs.freeIds + (if act.DelObj? then [s.objs.ids[act.o]] else [])
            && t.objs.table == s.objs.table - (if act.DelObj? then {s.objs.ids[act.o]} else {})
  {
    assert act.DelObj? || s.objs.freeIds + [] == s.objs.freeIds;
  }

  /** A dropped object is on its way to deletion exactly when nobody owns it any more. */
  lemma DropCounts(s: Ctx, o: Obj)
    requires o in s.objs.count && s.objs.count[o] > 0
    ensures var t := Step(s, DecObj(o));
            && t.objs.count == s.objs.count[o := s.objs.count[o] - 1]
            && t.objs.limbo == if s.objs.count[o] == 1 then s.objs.limbo + {o} else s.objs.limbo
  {
  }

  /** A client that takes a reference owns one more, and one more is counted. */
  lemma IncCounts(s: Ctx, a: Ast, o: Obj)
    requires o in s.objs.count
    ensures Step(s, IncAst(a)) == s.(nodes := s.nodes.(refs := s.nodes.refs + multiset{a},
                                                       handles := s.nodes.handles + multiset{a}))
    ensures Step(s, IncObj(o)) == s.(objs := s.objs.(count := s.objs.count[o := s.objs.count[o] + 1],
                                                     handles := s.objs.handles + multiset{o},
                                                     nascent := s.objs.nascent - {o}))
  {
  }

  /** The pieces of a flush: the queues are taken over as they are, then their entries are
      released from the front. */
  lemma FlushPieces(s: Ctx)
    ensures Step(s, SwapQueues) == s.(nodes := s.nodes.(flush := s.nodes.queue, queue := []),
                                      objs := s.objs.(flush := s.objs.queue, queue := []))
    ensures s.nodes.flush != [] ==>
              Step(s, FlushAst) == s.(nodes := s.nodes.(refs := s.nodes.refs - multiset{s.nodes.flush[0]},
                                                        flush := s.nodes.flush[1..]))
    ensures s.objs.flush != [] && s.objs.flush[0] in s.objs.ids ==>
              var o := s.objs.flush[0]; var id := s.objs.ids[o];
              Step(s, FlushObj) == s.(objs := s.objs.(flush := s.objs.flush[1..], freed := s.objs.freed + multiset{o},
                                                      freeIds := s.objs.freeIds + [id], table := s.objs.table - {id}))
  {
  }

  lemma Resets(s: Ctx)
    requires s.objs.last.Last? ==> s.objs.last.o in s.objs.count && s.objs.count[s.objs.last.o] > 0
    ensures Step(s, EnableConcurrent) == s.(concurrent := true)
    ensures Step(s, ResetTrail) == s.(nodes := s.nodes.(refs := s.nodes.refs - multiset(s.nodes.trail), trail := []))
    ensures var l, t := s.objs.last, Step(s, ResetLast).objs;
            t.last == NoLast && t.count == if l.Last? then s.objs.count[l.o := s.objs.count[l.o] - 1] else s.objs.count
  {
  }

  /** A new object takes the id that was freed last, if there is one, and otherwise the
      number of the objects that are allocated. */
  lemma IdsAreRecycled(s: Ctx)
    ensures var n, o, t := |s.objs.freeIds|, s.objs.created, Step(s, AddObject).objs;
            && t.created == o + 1 && t.count == s.objs.count[o := 0] && t.freed == s.objs.freed
            && (n > 0 ==> t.freeIds == s.objs.freeIds[..n - 1] && t.table == s.objs.table[s.objs.freeIds[n - 1] := o])
            && (n == 0 ==> t.freeIds == [] && t.table == s.objs.table[|s.objs.table| := o])
            && t.ids[o] in t.table && t.table[t.ids[o]] == o
  {
  }

  /** What the trail keeps after a result is saved, and what is counted. */
  lemma TrailKeeps(s: Ctx, a: Ast)
    ensures var t := Step(s, SaveTrail(a)).nodes;
            && t.trail == (if s.userRefs then [a] else s.nodes.trail + [a])
            && t.refs == (if s.userRefs then s.nodes.refs + multiset{a} - multiset(s.nodes.trail)
                          else s.nodes.refs + multiset{a})
            && t.handles == s.nodes.handles && t.queue == s.nodes.queue && t.flush == s.nodes.flush
  {
  }

  /** A saved object is the last one and has one more owner; its predecessor has one less. */
  lemma LastCounts(s: Ctx, o: Obj)
    requires o in s.objs.count
    requires s.objs.last.Last? ==> s.objs.last.o in s.objs.count && s.objs.count[s.objs.last.o] > 0
    ensures var n, l, t := s.objs.count, s.objs.last, Step(s, SaveObject(o)).objs;
            && t.last == Last(o) && o !in t.nascent && t.handles == s.objs.handles
            && t.count == if l == Last(o) then n
                          else if l.Last? then n[o := n[o] + 1][l.o := n[l.o] - 1] else n[o := n[o] + 1]
  {
  }

  // ---------- the invariant ----------

  /** Every counted reference has one owner: a client, a queue, or the trail. */
  ghost predicate NodesBalance(s: Nodes) {
    s.refs == s.handles + multiset(s.queue) + multiset(s.flush) + multiset(s.trail)
  }

  function Owners(s: Objs, o: Obj): nat { s.handles[o] + if s.last == Last(o) then 1 else 0 }

  /** How often `o` is on its way to being freed. */
  function Dying(s: Objs, o: Obj): nat {
    multiset(s.queue)[o] + multiset(s.flush)[o] + if o in s.limbo then 1 else 0
  }

  predicate Alive(s: Objs, o: Obj) { o < s.created && o !in s.freed }

  /** An object's count is the number of its owners.  Every object created so far is
      exactly one of: owned, new, about to be freed once, freed once.  Until it is
      freed, the table lists it under its id. */
  predicate ObjOk(s: Objs, o: Obj) {
    && (o in s.ids <==> o < s.created) && (o in s.count <==> o < s.created)
    && CountOf(s, o) == Owners(s, o)
    && (if Owners(s, o) > 0 then 1 else 0) + (if o in s.nascent then 1 else 0) + Dying(s, o) + s.freed[o]
       == (if o < s.created then 1 else 0)
    && (Alive(s, o) ==> s.ids[o] in s.table && s.table[s.ids[o]] == o)
  }

  /** The ids in use and the free ones, each occurring once, are an interval from zero. */
  predicate IdOk(s: Objs, i: nat) {
    && (if i in s.table then 1 else 0) + multiset(s.freeIds)[i] == (if i < |s.table| + |s.freeIds| then 1 else 0)
    && (i in s.table ==> Alive(s, s.table[i]) && s.table[i] in s.ids && s.ids[s.table[i]] == i)
  }

  ghost predicate ObjsOk(s: Objs) {
    (forall o: Obj :: ObjOk(s, o)) && (forall i: nat :: IdOk(s, i))
  }

  /** Nothing is ever queued in a context whose references are all dropped by one thread. */
  predicate QueuesOk(s: Ctx) {
    s.concurrent || (s.nodes.queue == [] && s.objs.queue == [] && Idle(s))
  }

  ghost predicate Inv(s: Ctx) {
    NodesBalance(s.nodes) && ObjsOk(s.objs) && QueuesOk(s)
  }

  // ---------- ids ----------

  /** `add_object` always hands out an id that is not in use. */
  lemma NewIdUnused(s: Objs)
    requires ObjsOk(s)
    ensures NewIdOf(s.table, s.freeIds) !in s.table
  {
    var id := NewIdOf(s.table, s.freeIds);
    assert IdOk(s, id);
    if s.freeIds != [] { assert id in s.freeIds; }
  }

  lemma PopIdCount(freeIds: seq<nat>, i: nat)
    requires freeIds != []
    ensures multiset(freeIds)[i] == multiset(PopId(freeIds))[i] + if i == freeIds[|freeIds| - 1] then 1 else 0
  {
    assert freeIds == PopId(freeIds) + [freeIds[|freeIds| - 1]];
  }

  /** One more id in use: a recycled one, or the next of the interval. */
  lemma AllocSizes(s: Objs)
    requires NewIdOf(s.table, s.freeIds) !in s.table
    ensures var t := Alloc(s);
            |t.table| + |t.freeIds| == |s.table| + |s.freeIds| + if s.freeIds == [] then 1 else 0
  {
    assert Alloc(s).table.Keys == s.table.Keys + {NewIdOf(s.table, s.freeIds)};
  }

  lemma AllocIds(s: Objs, i: nat)
    requires ObjsOk(s)
    ensures IdOk(Alloc(s), i)
  {
    NewIdUnused(s);
    AllocSizes(s);
    assert IdOk(s, i) && ObjOk(s, s.created);
    if s.freeIds != [] { PopIdCount(s.freeIds, i); }
  }

  lemma AllocObjects(s: Objs, o: Obj)
    requires ObjsOk(s)
    ensures ObjOk(Alloc(s), o)
  {
    NewIdUnused(s);
    assert ObjOk(s, o);
  }

  lemma FreeIds(s: Objs, o: Obj, i: nat)
    requires ObjsOk(s) && Dying(s, o) > 0
    ensures IdOk(Free(s, o), i)
  {
    assert ObjOk(s, o) && IdOk(s, i);
    var t := Free(s, o);
    assert t.table.Keys == s.table.Keys - {s.ids[o]};
    assert multiset(t.freeIds)[i] == multiset(s.freeIds)[i] + if i == s.ids[o] then 1 else 0;
  }

  // ---------- every step keeps the invariant ----------

  lemma FreeKeeps(s: Objs, t: Objs, o: Obj)
    requires ObjsOk(s) && Dying(s, o) > 0
    requires t == Free(s, o).(limbo := t.limbo, flush := t.flush)
    requires forall x: Obj :: Dying(t, x) == Dying(s, x) - if x == o then 1 else 0
    ensures ObjsOk(t)
  {
    forall x: Obj ensures ObjOk(t, x) { assert ObjOk(s, x) && ObjOk(s, o); }
    forall i: nat ensures IdOk(t, i) { FreeIds(s, o, i); assert IdOk(Free(s, o), i); }
  }

  /** Steps that neither allocate nor free. */
  lemma SameTable(s: Objs, t: Objs, i: nat)
    requires IdOk(s, i) && t.table == s.table && t.freeIds == s.freeIds && t.ids == s.ids
    requires t.created == s.created && t.freed == s.freed
    ensures IdOk(t, i)
  {
  }

  lemma AcquireOk(s: Objs, o: Obj, x: Obj)
    requires ObjOk(s, x) && (o in s.nascent || Known(s, o))
    ensures ObjOk(Acquire(s, o).(handles := s.handles + multiset{o}), x)
  {
  }

  lemma AcquireKeeps(s: Objs, o: Obj)
    requires ObjsOk(s) && (o in s.nascent || Known(s, o))
    ensures ObjsOk(Acquire(s, o).(handles := s.handles + multiset{o}))
  {
    var t := Acquire(s, o).(handles := s.handles + multiset{o});
    forall x: Obj ensures ObjOk(t, x) { assert ObjOk(s, x); AcquireOk(s, o, x); }
    forall i: nat ensures IdOk(t, i) { assert IdOk(s, i); SameTable(s, t, i); }
  }

  lemma DecObjOk(s: Objs, o: Obj, x: Obj)
    requires ObjOk(s, x) && o in s.handles
    ensures ObjOk(Release(s, o).(handles := s.handles - multiset{o}), x)
  {
  }

  lemma DecObjKeeps(s: Objs, o: Obj)
    requires ObjsOk(s) && o in s.handles
    ensures ObjsOk(Release(s, o).(handles := s.handles - multiset{o}))
  {
    var t := Release(s, o).(handles := s.handles - multiset{o});
    forall x: Obj ensures ObjOk(t, x) { assert ObjOk(s, x); DecObjOk(s, o, x); }
    forall i: nat ensures IdOk(t, i) { assert IdOk(s, i); SameTable(s, t, i); }
  }

  /** Whoever gives up the last reference also requests the deletion. */
  lemma LastDropDeletes(s: Objs, concurrent: bool, o: Obj)
    requires o in s.count && s.count[o] > 0
    ensures var t, last := Dropped(s, concurrent, o), s.count[o] == 1;
            && t.count == s.count[o := s.count[o] - 1]
            && t.queue == s.queue + (if last && concurrent then [o] else [])
            && t.freed == s.freed + (if last && !concurrent then multiset{o} else multiset{})
            && t.limbo == if last then s.limbo - {o} else s.limbo
  {
    assert s.queue + [] == s.queue;
  }

  lemma DropLastOk(s: Objs, x: Obj)
    requires ObjOk(s, x)
    ensures ObjOk(DropLast(s), x)
  {
  }

  lemma DropLastKeeps(s: Objs)
    requires ObjsOk(s)
    ensures ObjsOk(DropLast(s))
  {
    var t := DropLast(s);
    forall x: Obj ensures ObjOk(t, x) { assert ObjOk(s, x); DropLastOk(s, x); }
    forall i: nat ensures IdOk(t, i) { assert IdOk(s, i); SameTable(s, t, i); }
  }

  lemma SaveObjectOk(s: Objs, o: Obj, x: Obj)
    requires ObjOk(s, x) && (o in s.nascent || Known(s, o))
    ensures ObjOk(SetLast(s, o), x)
  {
  }

  lemma SaveObjectKeeps(s: Objs, o: Obj)
    requires ObjsOk(s) && (o in s.nascent || Known(s, o))
    ensures ObjsOk(SetLast(s, o))
  {
    var t := SetLast(s, o);
    forall x: Obj ensures ObjOk(t, x) { assert ObjOk(s, x); SaveObjectOk(s, o, x); }
    forall i: nat ensures IdOk(t, i) { assert IdOk(s, i); SameTable(s, t, i); }
  }

  lemma DelObjKeeps(s: Objs, concurrent: bool, o: Obj)
    requires ObjsOk(s) && o in s.limbo
    ensures ObjsOk(Delete(s, concurrent, o))
  {
    var t := Delete(s, concurrent, o);
    if concurrent {
      Requeued(s, t);
    } else {
      FreeKeeps(s, t, o);
    }
  }

  lemma FlushObjKeeps(s: Objs)
    requires ObjsOk(s) && s.flush != []
    ensures ObjsOk(FlushOneObj(s))
  {
    assert s.flush == [s.flush[0]] + s.flush[1..];
    FreeKeeps(s, FlushOneObj(s), s.flush[0]);
  }

  /** Where a dying object waits does not matter. */
  lemma Requeued(s: Objs, t: Objs)
    requires ObjsOk(s) && t == s.(queue := t.queue, flush := t.flush, limbo := t.limbo)
    requires forall x: Obj :: Dying(t, x) == Dying(s, x)
    ensures ObjsOk(t)
  {
    forall x: Obj ensures ObjOk(t, x) { assert ObjOk(s, x); }
    forall i: nat ensures IdOk(t, i) { assert IdOk(s, i); SameTable(s, t, i); }
  }

  lemma AddObjectKeeps(s: Objs)
    requires ObjsOk(s)
    ensures ObjsOk(Alloc(s))
  {
    forall o: Obj ensures ObjOk(Alloc(s), o) { AllocObjects(s, o); }
    forall i: nat ensures IdOk(Alloc(s), i) { AllocIds(s, i); }
  }

  lemma ObjStepKeeps(s: Ctx, act: Action)
    requires ObjsOk(s.objs) && Enabled(s, act)
    ensures ObjsOk(Step(s, act).objs)
  {
    match act {
      case AddObject => AddObjectKeeps(s.objs);
      case ResetLast => DropLastKeeps(s.objs);
      case SaveObject(o) => SaveObjectKeeps(s.objs, o);
      case IncObj(o) => AcquireKeeps(s.objs, o);
      case DecObj(o) => DecObjKeeps(s.objs, o);
      case DelObj(o) => DelObjKeeps(s.objs, s.concurrent, o);
      case FlushObj => FlushObjKeeps(s.objs);
      case SwapQueues => Requeued(s.objs, Swap(s).objs);
      case _ =>
    }
  }

  lemma DropHandleBalances(s: Nodes, concurrent: bool, a: Ast)
    requires NodesBalance(s) && a in s.handles
    ensures NodesBalance(DropHandle(s, concurrent, a))
  {
  }

  lemma TrailBalances(s: Nodes, userRefs: bool, a: Ast)
    requires NodesBalance(s)
    ensures NodesBalance(Trail(s, userRefs, a))
  {
  }

  lemma FlushBalances(s: Nodes)
    requires NodesBalance(s)
    ensures NodesBalance(FlushOneAst(s))
  {
    if s.flush != [] { assert s.flush == [s.flush[0]] + FlushOneAst(s).flush; }
  }

  lemma NodeStepBalances(s: Ctx, act: Action)
    requires NodesBalance(s.nodes) && Enabled(s, act)
    ensures NodesBalance(Step(s, act).nodes)
  {
    match act {
      case DecAst(a) => DropHandleBalances(s.nodes, s.concurrent, a);
      case SaveTrail(a) => TrailBalances(s.nodes, s.userRefs, a);
      case FlushAst => FlushBalances(s.nodes);
      case _ =>
    }
  }

  lemma QueuesStep(s: Ctx, act: Action)
    requires QueuesOk(s) && Enabled(s, act)
    ensures QueuesOk(Step(s, act))
  {
  }

  lemma StepKeepsInv(s: Ctx, act: Action)
    requires Inv(s) && Enabled(s, act)
    ensures Inv(Step(s, act))
  {
    ObjStepKeeps(s, act);
    NodeStepBalances(s, act);
    QueuesStep(s, act);
  }

  /** Whatever a node's reference is held for, the node and everything below it stay in
      the manager's table. */
  lemma OwnedNodesLive(count: map<Ast, nat>, s: Nodes, a: Ast)
    requires Counts(count, s.refs, multiset{}) && NodesBalance(s)
    requires a in s.handles || a in s.queue || a in s.flush || a in s.trail
    ensures s.refs[a] > 0 && Parts(a) <= count.Keys
  {
    assert s.refs[a] > 0 && CountOk(count, s.refs, multiset{}, a);
    ClosedHasParts(count.Keys, a);
  }

  // ---------- runs ----------

  function Initial(userRefs: bool): Ctx {
    Ctx(userRefs, false, Nodes(multiset{}, multiset{}, [], [], []),
        Objs(0, map[], map[], [], map[], multiset{}, NoLast, {}, {}, [], [], multiset{}))
  }

  lemma InitialInv(userRefs: bool)
    ensures Inv(Initial(userRefs))
  {
  }

  ghost predicate StepAt(states: seq<Ctx>, i: nat)
    requires i + 1 < |states|
  {
    exists act :: Enabled(states[i], act) && states[i + 1] == Step(states[i], act)
  }

  /** The states of a run, one step after the other, in any interleaving. */
  ghost predicate IsRun(states: seq<Ctx>) {
    && states != [] && states[0] == Initial(states[0].userRefs)
    && forall i: nat | i + 1 < |states| :: StepAt(states, i)
  }

  ghost predicate Reached(s: Ctx) {
    exists states :: IsRun(states) && states[|states| - 1] == s
  }

  lemma StepAtKeepsInv(states: seq<Ctx>, i: nat)
    requires IsRun(states) && i + 1 < |states| && Inv(states[i])
    ensures Inv(states[i + 1])
  {
    assert StepAt(states, i);
    var act :| Enabled(states[i], act) && states[i + 1] == Step(states[i], act);
    StepKeepsInv(states[i], act);
  }

  lemma {:induction false} RunKeepsInv(states: seq<Ctx>, i: nat)
    requires IsRun(states) && i < |states|
    ensures Inv(states[i])
  {
    if i == 0 { InitialInv(states[0].userRefs); } else {
      RunKeepsInv(states, i - 1);
      StepAtKeepsInv(states, i - 1);
    }
  }

  /** Whatever the interleaving: every reference the manager counts has an owner; a known
      object is not freed and its count is the number of its owners; no object is freed
      twice; no id is both free and in use, and the next id is unused. */
  lemma RunsAreSafe(states: seq<Ctx>, k: nat)
    requires IsRun(states) && k < |states|
    ensures var s := states[k];
            && NodesBalance(s.nodes)
            && (forall o: Obj :: Known(s.objs, o) ==> o !in s.objs.freed && CountOf(s.objs, o) == Owners(s.objs, o) > 0)
            && (forall o: Obj :: s.objs.freed[o] <= 1)
            && (forall i: nat :: i < |s.objs.table| + |s.objs.freeIds| <==> i in s.objs.table || i in s.objs.freeIds)
            && (forall i: nat :: i in s.objs.freeIds ==> i !in s.objs.table && multiset(s.objs.freeIds)[i] == 1)
            && NewIdOf(s.objs.table, s.objs.freeIds) !in s.objs.table
  {
    RunKeepsInv(states, k);
    var s := states[k].objs;
    NewIdUnused(s);
    forall o: Obj ensures s.freed[o] <= 1 && (Known(s, o) ==> o !in s.freed && CountOf(s, o) == Owners(s, o) > 0) {
      assert ObjOk(s, o);
    }
    forall i: nat
      ensures i < |s.table| + |s.freeIds| <==> i in s.table || i in s.freeIds
      ensures i in s.freeIds ==> i !in s.table && multiset(s.freeIds)[i] == 1
    {
      assert IdOk(s, i);
      assert i in s.freeIds <==> i in multiset(s.freeIds);
    }
  }

  lemma ReachedInv(s: Ctx)
    requires Reached(s)
    ensures Inv(s)
  {
    var states :| IsRun(states) && states[|states| - 1] == s;
    RunKeepsInv(states, |states| - 1);
  }

  lemma ReachedNodes(s: Ctx)
    requires Reached(s)
    ensures NodesBalance(s.nodes) && QueuesOk(s)
  {
    ReachedInv(s);
  }

  lemma AddReached(s: Ctx)
    requires Reached(s) && Idle(s) && s.objs.nascent == {}
    ensures Reached(s.(objs := Alloc(s.objs))) && Step(s, AddObject) == s.(objs := Alloc(s.objs))
  {
    StepReached(s, AddObject);
  }

  lemma IncReached(s: Ctx, o: Obj)
    requires Reached(s) && Known(s.objs, o)
    ensures Reached(s.(objs := Acquire(s.objs, o).(handles := s.objs.handles + multiset{o})))
  {
    StepReached(s, IncObj(o));
  }

  /** The client gives up one of its references. */
  lemma DecReached(s: Ctx, o: Obj)
    requires Reached(s) && o in s.objs.handles
    ensures CountOf(s.objs, o) > 0
    ensures Reached(s.(objs := Dropped(s.objs, s.concurrent, o).(handles := s.objs.handles - multiset{o})))
  {
    ReachedInv(s);
    assert ObjOk(s.objs, o);
    StepReached(s, DecObj(o));
    if CountOf(s.objs, o) == 1 { StepReached(Step(s, DecObj(o)), DelObj(o)); }
  }

  /** `ref` counts the new object before it releases the old one. */
  function Saved(s: Objs, concurrent: bool, o: Obj): Objs {
    var t := Acquire(s, o);
    (if s.last.Last? then Dropped(t, concurrent, s.last.o) else t).(last := Last(o))
  }

  lemma SaveReached(s: Ctx, o: Obj)
    requires Reached(s) && Enabled(s, SaveObject(o))
    ensures s.objs.last.Last? ==> CountOf(Acquire(s.objs, o), s.objs.last.o) > 0
    ensures Reached(s.(objs := Saved(s.objs, s.concurrent, o)))
  {
    ReachedInv(s);
    StepReached(s, SaveObject(o));
    if s.objs.last.Last? {
      var l := s.objs.last.o;
      assert ObjOk(s.objs, l);
      if CountOf(Acquire(s.objs, o), l) == 1 { StepReached(Step(s, SaveObject(o)), DelObj(l)); }
    }
  }

  lemma DropReached(s: Ctx, a: Ast)
    requires Reached(s) && a in s.nodes.handles
    ensures s.nodes.refs[a] > 0 && Reached(s.(nodes := DropHandle(s.nodes, s.concurrent, a)))
  {
    ReachedNodes(s);
    StepReached(s, DecAst(a));
  }

  lemma StepReached(s: Ctx, act: Action)
    requires Reached(s) && Enabled(s, act)
    ensures Reached(Step(s, act))
  {
    var states :| IsRun(states) && states[|states| - 1] == s;
    RunGrows(states, act);
  }

  lemma RunGrows(states: seq<Ctx>, act: Action)
    requires IsRun(states) && Enabled(states[|states| - 1], act)
    ensures IsRun(states + [Step(states[|states| - 1], act)])
  {
    var more := states + [Step(states[|states| - 1], act)];
    forall i: nat | i + 1 < |more| ensures StepAt(more, i) {
      if i + 1 < |states| {
        assert StepAt(states, i);
        var a :| Enabled(states[i], a) && states[i + 1] == Step(states[i], a);
        assert Enabled(more[i], a) && more[i + 1] == Step(more[i], a);
      } else {
        assert Enabled(more[i], act);
      }
    }
  }

  lemma InitialReached(userRefs: bool)
    ensures Reached(Initial(userRefs))
  {
    assert IsRun([Initial(userRefs)]);
  }

  // ---------- flushing ----------

  /** All waiting decrements are done. */
  function DrainNodes(s: Nodes): Nodes { s.(refs := s.refs - multiset(s.flush), flush := []) }

  /** All waiting objects are freed. */
  function DrainObjs(s: Objs): Objs
    decreases |s.flush|
  {
    if s.flush == [] then s else DrainObjs(FlushOneObj(s))
  }

  /** `flush_objects` as a whole. */
  function Flushed(s: Ctx): Ctx {
    if s.concurrent && (s.nodes.queue != [] || s.objs.queue != []) then
      s.(nodes := DrainNodes(Swap(s).nodes), objs := DrainObjs(Swap(s).objs))
    else s
  }

  lemma {:induction false} DrainNodesReached(s: Ctx)
    requires Reached(s)
    ensures Reached(s.(nodes := DrainNodes(s.nodes)))
    decreases |s.nodes.flush|
  {
    if s.nodes.flush == [] {
      assert DrainNodes(s.nodes) == s.nodes;
    } else {
      StepReached(s, FlushAst);
      FlushOneThenDrain(s.nodes);
      DrainNodesReached(Step(s, FlushAst));
    }
  }

  lemma FlushOneThenDrain(s: Nodes)
    requires s.flush != []
    ensures DrainNodes(FlushOneAst(s)) == DrainNodes(s)
  {
    assert s.flush == [s.flush[0]] + s.flush[1..];
  }

  lemma {:induction false} DrainObjsReached(s: Ctx)
    requires Reached(s) && s.nodes.flush == []
    ensures Reached(s.(objs := DrainObjs(s.objs)))
    decreases |s.objs.flush|
  {
    if s.objs.flush != [] {
      StepReached(s, FlushObj);
      DrainObjsReached(Step(s, FlushObj));
    }
  }

  lemma SwapReached(s: Ctx)
    requires Reached(s) && Enabled(s, SwapQueues)
    ensures Reached(Swap(s))
  {
    StepReached(s, SwapQueues);
  }

  /** `flush_objects` is a part of a run. */
  lemma FlushReached(s: Ctx)
    requires Reached(s) && Idle(s)
    ensures Reached(Flushed(s))
  {
    if s.concurrent && (s.nodes.queue != [] || s.objs.queue != []) {
      SwapReached(s);
      DrainNodesReached(Swap(s));
      DrainObjsReached(Swap(s).(nodes := DrainNodes(Swap(s).nodes)));
    }
  }

  /** The only effects of draining: the waiting objects are freed. */
  lemma {:induction false} DrainEffect(s: Objs)
    ensures var t := DrainObjs(s);
            && t == s.(freeIds := t.freeIds, table := t.table, freed := t.freed, flush := [])
            && t.freed == s.freed + multiset(s.flush)
    decreases |s.flush|
  {
    if s.flush != [] {
      DrainEffect(FlushOneObj(s));
      assert s.flush == [s.flush[0]] + s.flush[1..];
    }
  }

  lemma FlushedCreated(s: Ctx)
    ensures Flushed(s).objs.created == s.objs.created && Flushed(s).objs.nascent == s.objs.nascent
  {
    DrainEffect(Swap(s).objs);
  }

  function IdsOf(s: Objs, q: seq<Obj>): (r: seq<nat>)
    ensures |r| == |q| && forall i :: 0 <= i < |q| ==> r[i] == if q[i] in s.ids then s.ids[q[i]] else 0
  {
    if q == [] then [] else [IdOf(s, q[0])] + IdsOf(s, q[1..])
  }

  lemma {:induction false} SameIds(s: Objs, t: Objs, q: seq<Obj>)
    requires s.ids == t.ids
    ensures IdsOf(s, q) == IdsOf(t, q)
  {
    if q != [] { SameIds(s, t, q[1..]); }
  }

  /** Freed ids are returned in the order of the queue, and leave the table. */
  lemma {:induction false} DrainFrees(s: Objs)
    ensures var ids, t := IdsOf(s, s.flush), DrainObjs(s);
            t.freeIds == s.freeIds + ids && forall i :: i in t.table <==> i in s.table && i !in ids
    ensures forall i :: i in DrainObjs(s).table ==> DrainObjs(s).table[i] == s.table[i]
    decreases |s.flush|
  {
    if s.flush != [] {
      DrainFrees(FlushOneObj(s));
      SameIds(s, FlushOneObj(s), s.flush[1..]);
    }
  }

  lemma FlushFrees(s: Ctx)
    requires Idle(s) && QueuesOk(s)
    ensures var ids, t := IdsOf(s.objs, s.objs.queue), Flushed(s).objs;
            t.freeIds == s.objs.freeIds + ids && forall i :: i in t.table <==> i in s.objs.table && i !in ids
    ensures forall i :: i in Flushed(s).objs.table ==> Flushed(s).objs.table[i] == s.objs.table[i]
  {
    DrainFrees(Swap(s).objs);
    SameIds(s.objs, Swap(s).objs, s.objs.queue);
  }

  lemma FlushEffect(s: Ctx)
    requires Idle(s) && QueuesOk(s)
    ensures var t := Flushed(s);
            && Idle(t) && t.objs.queue == [] && t.nodes.queue == []
            && t.nodes == s.nodes.(refs := s.nodes.refs - multiset(s.nodes.queue), queue := [])
            && t.objs == s.objs.(freeIds := t.objs.freeIds, table := t.objs.table, freed := t.objs.freed, queue := [])
            && t.objs.freed == s.objs.freed + multiset(s.objs.queue)
            && t == s.(nodes := t.nodes, objs := t.objs)
  {
    DrainEffect(Swap(s).objs);
  }

  // ---------- the end of a context ----------

  /** No other thread is running, and the main thread is between two calls. */
  predicate Quiescent(s: Ctx) { Idle(s) && s.objs.limbo == {} && s.objs.nascent == {} }

  /** The last result is released, and deleted if nobody else owns it. */
  function LastReleased(s: Ctx): Ctx {
    if s.objs.last.Last? then s.(objs := Dropped(s.objs, s.concurrent, s.objs.last.o).(last := NoLast)) else s
  }

  /** The objects that are still allocated are deallocated without leaving the table. */
  ghost function Destroyed(s: Ctx): Objs {
    var t := Flushed(LastReleased(s)).objs;
    t.(freed := t.freed + multiset(t.table.Values))
  }

  lemma LastReleasedEffect(s: Ctx)
    requires Quiescent(s)
    ensures var t := LastReleased(s); Quiescent(t) && t.objs.last == NoLast && t.objs.handles == s.objs.handles
    ensures LastReleased(s).objs.created == s.objs.created
  {
  }

  lemma LastReleasedReached(s: Ctx)
    requires Reached(s) && Idle(s)
    ensures s.objs.last.Last? ==> CountOf(s.objs, s.objs.last.o) > 0
    ensures Reached(LastReleased(s))
  {
    if s.objs.last.Last? {
      ReachedInv(s);
      assert ObjOk(s.objs, s.objs.last.o);
      StepReached(s, ResetLast);
      if CountOf(s.objs, s.objs.last.o) == 1 { StepReached(Step(s, ResetLast), DelObj(s.objs.last.o)); }
    }
  }

  lemma EndState(s: Ctx) returns (u: Objs)
    requires Reached(s) && Quiescent(s)
    ensures u == Flushed(LastReleased(s)).objs && ObjsOk(u)
    ensures u.created == s.objs.created && u.handles == s.objs.handles && u.last == NoLast
    ensures u.nascent == u.limbo == {} && u.queue == u.flush == []
  {
    LastReleasedEffect(s);
    LastReleasedReached(s);
    FlushReached(LastReleased(s));
    ReachedNodes(LastReleased(s));
    FlushEffect(LastReleased(s));
    u := Flushed(LastReleased(s)).objs;
    ReachedInv(Flushed(LastReleased(s)));
  }

  lemma TableValues(s: Objs, o: Obj)
    requires ObjsOk(s)
    ensures multiset(s.table.Values)[o] == if Alive(s, o) then 1 else 0
  {
    assert ObjOk(s, o);
    if Alive(s, o) { assert s.table[s.ids[o]] == o; }
    if i: nat :| i in s.table && s.table[i] == o { assert IdOk(s, i); }
  }

  lemma TableInjective(s: Ctx)
    requires Reached(s)
    ensures forall i: nat, j: nat ::
              i in s.objs.table && j in s.objs.table && s.objs.table[i] == s.objs.table[j] ==> i == j
  {
    ReachedInv(s);
    assert forall i: nat :: i in s.objs.table ==> IdOk(s.objs, i);
  }

  /** When the destructor is done, every object ever created has been deallocated, and
      none of them twice. */
  lemma DestroyedOnce(s: Ctx, o: Obj)
    requires Reached(s) && Quiescent(s)
    ensures Destroyed(s).freed[o] == if o < s.objs.created then 1 else 0
  {
    var u := EndState(s);
    TableValues(u, o);
    assert ObjOk(u, o);
  }

  /** When the clients have dropped all their references, the destructor finds nothing
      left to collect: every object has been freed before the final sweep. */
  lemma NothingLeft(s: Ctx)
    requires Reached(s) && Quiescent(s) && s.objs.handles == multiset{}
    ensures Flushed(LastReleased(s)).objs.table == map[]
  {
    var u := EndState(s);
    NobodyLeft(u);
  }

  lemma NobodyLeft(u: Objs)
    requires ObjsOk(u) && u.handles == multiset{} && u.last == NoLast && u.nascent == {} && u.limbo == {}
    requires u.queue == [] && u.flush == []
    ensures u.table == map[]
  {
    forall o: Obj ensures !Alive(u, o) { assert ObjOk(u, o); }
    forall i: nat ensures i !in u.table { assert IdOk(u, i); }
  }
}
