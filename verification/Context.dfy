/** The context: it hands out objects with reference counts and ids, keeps results alive,
    and collects on the main thread what other threads have dropped. */
module Context {
  import opened AstManager
  import opened ContextMachine

  class ApiObject {
    ghost const serial: Obj
    var refCount: nat
    var id: nat

    constructor (ghost serial: Obj)
      ensures this.serial == serial && refCount == 0
    {
      this.serial := serial;
      refCount, id := 0, 0;
    }
  }

  ghost predicate IsObject(objects: seq<ApiObject>, o: ApiObject) {
    o.serial < |objects| && objects[o.serial] == o
  }

  ghost function Serials(os: seq<ApiObject>): seq<Obj> { seq(|os|, i requires 0 <= i < |os| => os[i].serial) }

  /** `objects` lists all objects ever created; their fields are those of the model. */
  ghost predicate ObjectsMatch(objects: seq<ApiObject>, s: Objs)
    reads objects
  {
    && |objects| == s.created
    && (forall i :: 0 <= i < |objects| ==>
           objects[i].serial == i
           && objects[i].refCount == CountOf(s, i) && objects[i].id == IdOf(s, i))
  }

  ghost predicate TableMatches(objects: seq<ApiObject>, inUse: map<nat, ApiObject>, table: map<nat, Obj>) {
    && inUse.Keys == table.Keys
    && forall i :: i in inUse ==> IsObject(objects, inUse[i]) && inUse[i].serial == table[i]
  }

  ghost predicate QueueMatches(objects: seq<ApiObject>, queue: seq<ApiObject>, q: seq<Obj>) {
    q == Serials(queue) && forall o :: o in queue ==> IsObject(objects, o)
  }

  ghost predicate LastMatches(objects: seq<ApiObject>, o: ApiObject?, last: Last) {
    && (o != null ==> IsObject(objects, o))
    && last == if o == null then NoLast else Last(o.serial)
  }

  // ---------- one more object ----------

  lemma ObjectsGrow(objects: seq<ApiObject>, s: Objs, o: ApiObject)
    requires ObjectsMatch(objects, s) && o.serial == s.created
    requires o.refCount == 0 && o.id == NewIdOf(s.table, s.freeIds)
    ensures ObjectsMatch(objects + [o], Alloc(s))
  {
  }

  lemma IsObjectGrows(objects: seq<ApiObject>, o: ApiObject)
    ensures forall x :: IsObject(objects, x) ==> IsObject(objects + [o], x)
    ensures o.serial == |objects| ==> IsObject(objects + [o], o)
  {
  }

  lemma TableGrows(objects: seq<ApiObject>, inUse: map<nat, ApiObject>, table: map<nat, Obj>, id: nat, o: ApiObject)
    requires TableMatches(objects, inUse, table) && o.serial == |objects|
    ensures TableMatches(objects + [o], inUse[id := o], table[id := o.serial])
  {
    IsObjectGrows(objects, o);
  }

  lemma QueueGrows(objects: seq<ApiObject>, queue: seq<ApiObject>, q: seq<Obj>, o: ApiObject)
    requires QueueMatches(objects, queue, q)
    ensures QueueMatches(objects + [o], queue, q)
  {
    IsObjectGrows(objects, o);
  }

  lemma LastGrows(objects: seq<ApiObject>, l: ApiObject?, last: Last, o: ApiObject)
    requires LastMatches(objects, l, last)
    ensures LastMatches(objects + [o], l, last)
  {
    IsObjectGrows(objects, o);
  }

  class Context {
    const userRefCount: bool
    const mgr: Manager
    var concurrentDecRef: bool
    var astsToFlush: seq<Ast>
    var astsToFlush2: seq<Ast>
    var objectsToFlush: seq<ApiObject>
    var objectsToFlush2: seq<ApiObject>
    var astTrail: seq<Ast>
    var lastObj: ApiObject?
    var allocatedObjects: map<nat, ApiObject>
    var freeObjectIds: seq<nat>

    ghost var nodes: Nodes
    ghost var objs: Objs
    ghost var objects: seq<ApiObject>

    ghost function State(): Ctx
      reads this
    {
      Ctx(userRefCount, concurrentDecRef, nodes, objs)
    }

    ghost predicate NodesValid()
      reads this`nodes, this`astsToFlush, this`astsToFlush2, this`astTrail, mgr
    {
      && mgr.Valid() && mgr.refs == nodes.refs
      && nodes.queue == astsToFlush && nodes.trail == astTrail && nodes.flush == astsToFlush2
    }

    ghost predicate ObjectsValid()
      reads this`objects, this`objs, this`allocatedObjects, this`freeObjectIds
      reads this`objectsToFlush, this`objectsToFlush2, this`lastObj, objects
    {
      && ObjectsMatch(objects, objs)
      && TableMatches(objects, allocatedObjects, objs.table) && freeObjectIds == objs.freeIds
      && QueueMatches(objects, objectsToFlush, objs.queue)
      && QueueMatches(objects, objectsToFlush2, objs.flush)
      && LastMatches(objects, lastObj, objs.last)
    }

    ghost predicate Valid()
      reads this, mgr, objects
    {
      NodesValid() && ObjectsValid() && Reached(State())
    }

    constructor (userRefCount: bool)
      ensures Valid() && State() == Initial(userRefCount) && fresh(mgr) && mgr.count == map[]
    {
      this.userRefCount := userRefCount;
      mgr := new Manager();
      concurrentDecRef := false;
      astsToFlush, astsToFlush2, objectsToFlush, objectsToFlush2 := [], [], [], [];
      astTrail, lastObj, allocatedObjects, freeObjectIds := [], null, map[], [];
      nodes, objs, objects := Initial(userRefCount).nodes, Initial(userRefCount).objs, [];
      new;
      InitialReached(userRefCount);
    }

    method EnableConcurrentDecRef()
      requires Valid()
      modifies this`concurrentDecRef
      ensures Valid() && State() == Step(old(State()), EnableConcurrent)
    {
      StepReached(State(), EnableConcurrent);
      concurrentDecRef := true;
    }

    // ---------- flushing ----------

    /** Collects what was dropped since the last flush. */
    method FlushObjects()
      requires Valid() && Idle(State())
      modifies this, mgr
      ensures Valid() && Idle(State()) && State() == Flushed(old(State())) && objects == old(objects)
      ensures !old(concurrentDecRef) ==> unchanged(this, mgr)
      ensures Zeros(mgr.count) <= old(Zeros(mgr.count))
    {
      if !concurrentDecRef { return; }
      if astsToFlush == [] && objectsToFlush == [] { return; }
      FlushReached(State());
      ReachedNodes(State());
      DrainEffect(SwapObjs(objs));
      Flush();
    }

    method Flush()
      requires NodesValid() && ObjectsValid() && multiset(astsToFlush) <= mgr.refs
      requires nodes.flush == [] && objs.flush == []
      modifies this, mgr
      ensures NodesValid() && ObjectsValid()
      ensures nodes == DrainNodes(SwapNodes(old(nodes)))
      ensures objs == DrainObjs(SwapObjs(old(objs)))
      ensures concurrentDecRef == old(concurrentDecRef) && objects == old(objects)
      ensures Zeros(mgr.count) <= old(Zeros(mgr.count))
    {
      SwapQueues();
      Collect();
    }

    method Collect()
      requires NodesValid() && ObjectsValid() && multiset(astsToFlush2) <= mgr.refs
      modifies this`nodes, this`astsToFlush2, mgr
      modifies this`objs, this`objectsToFlush2, this`freeObjectIds, this`allocatedObjects
      ensures NodesValid() && ObjectsValid() && nodes == DrainNodes(old(nodes)) && objs == DrainObjs(old(objs))
      ensures Zeros(mgr.count) <= old(Zeros(mgr.count))
    {
      CollectAsts();
      CollectObjects();
    }

    method SwapQueues()
      requires NodesValid() && ObjectsValid() && nodes.flush == [] && objs.flush == []
      modifies this`astsToFlush, this`astsToFlush2, this`objectsToFlush, this`objectsToFlush2, this`nodes, this`objs
      ensures NodesValid() && ObjectsValid() && astsToFlush2 == old(astsToFlush)
      ensures nodes == SwapNodes(old(nodes))
      ensures objs == SwapObjs(old(objs))
    {
      astsToFlush, astsToFlush2 := [], astsToFlush;
      objectsToFlush, objectsToFlush2 := [], objectsToFlush;
      nodes, objs := SwapNodes(nodes), SwapObjs(objs);
    }

    method CollectAsts()
      requires NodesValid() && multiset(astsToFlush2) <= mgr.refs
      modifies this`nodes, this`astsToFlush2, mgr
      ensures NodesValid() && nodes == DrainNodes(old(nodes))
      ensures Zeros(mgr.count) <= old(Zeros(mgr.count))
    {
      FlushAsts();
      astsToFlush2 := [];
      nodes := DrainNodes(nodes);
    }

    method CollectObjects()
      requires ObjectsValid()
      modifies this`objs, this`objectsToFlush2, this`freeObjectIds, this`allocatedObjects
      ensures ObjectsValid() && objs == DrainObjs(old(objs))
    {
      FlushDeletions();
      objectsToFlush2 := [];
      DrainEffect(objs);
      objs := DrainObjs(objs);
    }

    method FlushAsts()
      requires mgr.Valid() && multiset(astsToFlush2) <= mgr.refs
      modifies mgr
      ensures mgr.Valid() && mgr.refs == old(mgr.refs) - multiset(astsToFlush2)
      ensures Zeros(mgr.count) <= old(Zeros(mgr.count))
    {
      for i := 0 to |astsToFlush2|
        invariant mgr.Valid() && mgr.refs == old(mgr.refs) - multiset(astsToFlush2[..i])
        invariant Zeros(mgr.count) <= old(Zeros(mgr.count))
      {
        EnoughLeft(old(mgr.refs), astsToFlush2, i);
        mgr.DecRef(astsToFlush2[i]);
      }
      assert astsToFlush2[..|astsToFlush2|] == astsToFlush2;
    }

    static lemma EnoughLeft(refs: multiset<Ast>, queue: seq<Ast>, i: nat)
      requires multiset(queue) <= refs && i < |queue|
      ensures (refs - multiset(queue[..i]))[queue[i]] > 0
      ensures refs - multiset(queue[..i + 1]) == refs - multiset(queue[..i]) - multiset{queue[i]}
    {
      assert queue == queue[..i] + [queue[i]] + queue[i + 1..];
      assert queue[..i + 1] == queue[..i] + [queue[i]];
    }

    method FlushDeletions()
      requires ObjectsValid()
      modifies this`freeObjectIds, this`allocatedObjects
      ensures TableMatches(objects, allocatedObjects, DrainObjs(objs).table) && freeObjectIds == DrainObjs(objs).freeIds
    {
      ghost var cur := objs;
      for i := 0 to |objectsToFlush2|
        invariant TableMatches(objects, allocatedObjects, cur.table) && freeObjectIds == cur.freeIds
        invariant cur.flush == objs.flush[i..] && cur.ids == objs.ids && DrainObjs(cur) == DrainObjs(objs)
      {
        var o := objectsToFlush2[i];
        assert o in objectsToFlush2 && objects[o.serial] == o;
        assert cur.flush[0] == o.serial && o.id == IdOf(cur, o.serial);
        freeObjectIds := freeObjectIds + [o.id];
        allocatedObjects := allocatedObjects - {o.id};
        cur := FlushOneObj(cur);
      }
    }

    // ---------- nodes ----------

    /** Keeps the result alive; with user references, only until the next result. */
    method SaveAstTrail(n: Ast)
      requires Valid() && Idle(State()) && n in mgr.count
      modifies this`nodes, this`astTrail, mgr
      ensures Valid() && State() == Step(old(State()), SaveTrail(n))
      ensures Zeros(mgr.count) <= old(Zeros(mgr.count)) - {n}
    {
      StepReached(State(), SaveTrail(n));
      ReachedNodes(State());
      PushTrail(n);
    }

    method PushTrail(n: Ast)
      requires NodesValid() && multiset(astTrail) <= mgr.refs && n in mgr.count
      modifies this`nodes, this`astTrail, mgr
      ensures NodesValid() && nodes == Trail(old(nodes), userRefCount, n)
      ensures astTrail == if userRefCount then [n] else old(astTrail) + [n]
      ensures Zeros(mgr.count) <= old(Zeros(mgr.count)) - {n}
    {
      mgr.IncRef(n);
      if userRefCount {
        ResetTrail();
        astTrail := [n];
      } else {
        astTrail := astTrail + [n];
      }
      nodes := Trail(nodes, userRefCount, n);
    }

    method ResetTrail()
      requires mgr.Valid() && multiset(astTrail) <= mgr.refs
      modifies mgr
      ensures mgr.Valid() && mgr.refs == old(mgr.refs) - multiset(astTrail)
      ensures Zeros(mgr.count) <= old(Zeros(mgr.count))
    {
      for i := 0 to |astTrail|
        invariant mgr.Valid() && mgr.refs == old(mgr.refs) - multiset(astTrail[..i])
        invariant Zeros(mgr.count) <= old(Zeros(mgr.count))
      {
        EnoughLeft(old(mgr.refs), astTrail, i);
        mgr.DecRef(astTrail[i]);
      }
      assert astTrail[..|astTrail|] == astTrail;
    }

    method Z3IncRef(a: Ast)
      requires Valid() && Idle(State()) && Enabled(Flushed(State()), IncAst(a))
      modifies this, mgr
      ensures Valid() && Idle(State()) && State() == Step(Flushed(old(State())), IncAst(a)) && objects == old(objects)
      ensures Zeros(mgr.count) <= old(Zeros(mgr.count))
    {
      FlushObjects();
      StepReached(State(), IncAst(a));
      TakeRef(a);
    }

    method TakeRef(a: Ast)
      requires NodesValid() && Live(nodes.refs, a)
      modifies this`nodes, mgr
      ensures NodesValid()
      ensures nodes == old(nodes).(refs := old(nodes).refs + multiset{a}, handles := old(nodes).handles + multiset{a})
      ensures Zeros(mgr.count) <= old(Zeros(mgr.count))
    {
      LiveInTable(mgr.count, nodes.refs, a);
      mgr.IncRef(a);
      nodes := nodes.(refs := nodes.refs + multiset{a}, handles := nodes.handles + multiset{a});
    }

    static lemma LiveInTable(count: map<Ast, nat>, refs: multiset<Ast>, a: Ast)
      requires Counts(count, refs, multiset{}) && Live(refs, a)
      ensures a in count
    {
      var r :| refs[r] > 0 && a in Parts(r);
      assert CountOk(count, refs, multiset{}, r);
      ClosedHasParts(count.Keys, r);
    }

    method DecRef(a: Ast)
      requires Valid() && a in nodes.handles
      modifies this`nodes, this`astsToFlush, mgr
      ensures Valid() && State() == Step(old(State()), DecAst(a))
      ensures old(concurrentDecRef) ==> unchanged(mgr) && astsToFlush == old(astsToFlush) + [a]
      ensures !old(concurrentDecRef) ==> mgr.refs == old(mgr.refs) - multiset{a} && astsToFlush == old(astsToFlush)
      ensures Zeros(mgr.count) <= old(Zeros(mgr.count))
    {
      DropReached(State(), a);
      DropRef(a);
    }

    method DropRef(a: Ast)
      requires NodesValid() && mgr.refs[a] > 0
      modifies this`nodes, this`astsToFlush, mgr
      ensures NodesValid() && nodes == DropHandle(old(nodes), concurrentDecRef, a)
      ensures concurrentDecRef ==> unchanged(mgr) && astsToFlush == old(astsToFlush) + [a]
      ensures !concurrentDecRef ==> mgr.refs == old(mgr.refs) - multiset{a} && astsToFlush == old(astsToFlush)
      ensures Zeros(mgr.count) <= old(Zeros(mgr.count))
    {
      if concurrentDecRef {
        astsToFlush := astsToFlush + [a];
      } else {
        mgr.DecRef(a);
      }
      nodes := DropHandle(nodes, concurrentDecRef, a);
    }

    /** Null is ignored, and a node without references is an error. */
    method Z3DecRef(a: Node) returns (ok: bool)
      requires Valid() && (a.Node? ==> a.ast in mgr.count && (mgr.count[a.ast] > 0 ==> a.ast in nodes.handles))
      modifies this`nodes, this`astsToFlush, mgr
      ensures Valid() && ok == !(a.Node? && old(mgr.count)[a.ast] == 0)
      ensures State() == if ok && a.Node? then Step(old(State()), DecAst(a.ast)) else old(State())
    {
      if a.Node? && mgr.count[a.ast] == 0 { return false; }
      if a.Node? { DecRef(a.ast); }
      return true;
    }

    // ---------- objects ----------

    /** The constructor of an object: it registers itself. */
    method MkObject() returns (o: ApiObject)
      requires Valid() && Idle(State()) && objs.nascent == {}
      modifies this, mgr
      ensures Valid() && Idle(State()) && State() == Step(Flushed(old(State())), ContextMachine.AddObject)
      ensures fresh(o) && objects == old(objects) + [o] && o.serial in objs.nascent
    {
      o := new ApiObject(objs.created);
      AddObject(o);
    }

    /** Flushes first, so that ids of objects that wait for deletion can be reused. */
    method AddObject(o: ApiObject)
      requires Valid() && Idle(State()) && objs.nascent == {} && o.serial == objs.created && o.refCount == 0
      modifies this, mgr, o`id
      ensures Valid() && Idle(State()) && State() == Step(Flushed(old(State())), ContextMachine.AddObject)
      ensures objects == old(objects) + [o]
    {
      FlushedCreated(State());
      FlushObjects();
      AddReached(State());
      Register(o);
    }

    method Register(o: ApiObject)
      requires ObjectsValid() && o.serial == objs.created && o.refCount == 0
      modifies this`allocatedObjects, this`freeObjectIds, this`objs, this`objects, o`id
      ensures ObjectsValid() && objs == Alloc(old(objs)) && objects == old(objects) + [o]
    {
      assert o !in objects;
      var id := PickId();
      TableGrows(objects, allocatedObjects, objs.table, id, o);
      QueueGrows(objects, objectsToFlush, objs.queue, o);
      QueueGrows(objects, objectsToFlush2, objs.flush, o);
      LastGrows(objects, lastObj, objs.last, o);
      allocatedObjects := allocatedObjects[id := o];
      o.id := id;
      ObjectsGrow(objects, objs, o);
      objects := objects + [o];
      objs := Alloc(objs);
    }

    /** A recycled id, or the next one. */
    method PickId() returns (id: nat)
      requires allocatedObjects.Keys == objs.table.Keys && freeObjectIds == objs.freeIds
      modifies this`freeObjectIds
      ensures id == NewIdOf(objs.table, objs.freeIds) && freeObjectIds == PopId(objs.freeIds)
    {
      assert |allocatedObjects| == |allocatedObjects.Keys| == |objs.table.Keys| == |objs.table|;
      id := |allocatedObjects|;
      if freeObjectIds != [] {
        id := freeObjectIds[|freeObjectIds| - 1];
        freeObjectIds := freeObjectIds[..|freeObjectIds| - 1];
      }
    }

    method IncObj(o: ApiObject)
      requires Valid() && IsObject(objects, o) && Known(objs, o.serial)
      modifies this`objs, o`refCount
      ensures Valid() && State() == Step(old(State()), ContextMachine.IncObj(o.serial))
    {
      IncReached(State(), o.serial);
      IncRef(o);
      objs := objs.(handles := objs.handles + multiset{o.serial});
    }

    /** `inc_ref` of an object. */
    method IncRef(o: ApiObject)
      requires ObjectsValid() && IsObject(objects, o)
      modifies this`objs, o`refCount
      ensures ObjectsValid() && objs == Acquire(old(objs), o.serial)
    {
      o.refCount := o.refCount + 1;
      objs := Acquire(objs, o.serial);
    }

    /** `dec_ref` of an object; at zero the object asks the context to delete it. */
    method DecRefObj(o: ApiObject)
      requires ObjectsValid() && IsObject(objects, o) && o.refCount > 0
      modifies this`objs, this`objectsToFlush, this`freeObjectIds, this`allocatedObjects, o`refCount
      ensures ObjectsValid() && objs == Dropped(old(objs), concurrentDecRef, o.serial)
    {
      o.refCount := o.refCount - 1;
      objs := Release(objs, o.serial);
      if o.refCount == 0 { DelObject(o); }
    }

    method DelObject(o: ApiObject?)
      requires ObjectsValid() && (o != null ==> IsObject(objects, o))
      modifies this`objs, this`objectsToFlush, this`freeObjectIds, this`allocatedObjects
      ensures ObjectsValid() && objs == if o == null then old(objs) else Delete(old(objs), concurrentDecRef, o.serial)
      ensures o == null || concurrentDecRef ==> unchanged(this`freeObjectIds, this`allocatedObjects)
      ensures o != null && concurrentDecRef ==> objectsToFlush == old(objectsToFlush) + [o]
      ensures o == null || !concurrentDecRef ==> unchanged(this`objectsToFlush)
      ensures o != null && !concurrentDecRef ==> freeObjectIds == old(freeObjectIds) + [o.id]
                                                 && allocatedObjects == old(allocatedObjects) - {o.id}
    {
      if o == null { return; }
      if concurrentDecRef {
        objectsToFlush := objectsToFlush + [o];
      } else {
        freeObjectIds := freeObjectIds + [o.id];
        allocatedObjects := allocatedObjects - {o.id};
      }
      objs := Delete(objs, concurrentDecRef, o.serial);
    }

    method DecObj(o: ApiObject)
      requires Valid() && IsObject(objects, o) && o.serial in objs.handles
      modifies this`objs, this`objectsToFlush, this`freeObjectIds, this`allocatedObjects, o`refCount
      ensures Valid()
      ensures objs == Dropped(old(objs), concurrentDecRef, o.serial).(handles := old(objs).handles - multiset{o.serial})
    {
      DecReached(State(), o.serial);
      DropHandleOf(o);
    }

    method DropHandleOf(o: ApiObject)
      requires ObjectsValid() && IsObject(objects, o) && CountOf(objs, o.serial) > 0
      modifies this`objs, this`objectsToFlush, this`freeObjectIds, this`allocatedObjects, o`refCount
      ensures ObjectsValid()
      ensures objs == Dropped(old(objs), concurrentDecRef, o.serial).(handles := old(objs).handles - multiset{o.serial})
    {
      DecRefObj(o);
      objs := objs.(handles := objs.handles - multiset{o.serial});
    }

    /** Keeps the last returned object alive. */
    method SaveObject(r: ApiObject)
      requires Valid() && IsObject(objects, r) && Enabled(State(), ContextMachine.SaveObject(r.serial))
      modifies this`objs, this`lastObj, this`objectsToFlush, this`freeObjectIds, this`allocatedObjects, objects
      ensures Valid() && Idle(State()) && objs == Saved(old(objs), concurrentDecRef, r.serial)
    {
      SaveReached(State(), r.serial);
      SetLast(r);
    }

    method SetLast(r: ApiObject)
      requires ObjectsValid() && IsObject(objects, r)
      requires objs.last.Last? ==> CountOf(Acquire(objs, r.serial), objs.last.o) > 0
      modifies this`objs, this`lastObj, this`objectsToFlush, this`freeObjectIds, this`allocatedObjects, objects
      ensures ObjectsValid() && objs == Saved(old(objs), concurrentDecRef, r.serial)
    {
      IncRef(r);
      DropLast();
      ReplaceLast(r);
    }

    method ReplaceLast(l: ApiObject?)
      requires ObjectsValid() && (l != null ==> IsObject(objects, l))
      modifies this`objs, this`lastObj
      ensures ObjectsValid() && objs == old(objs).(last := if l == null then NoLast else Last(l.serial))
    {
      lastObj := l;
      objs := objs.(last := if l == null then NoLast else Last(l.serial));
    }

    /** Gives back the reference to the last object. */
    method DropLast()
      requires ObjectsValid() && (objs.last.Last? ==> CountOf(objs, objs.last.o) > 0)
      modifies this`objs, this`objectsToFlush, this`freeObjectIds, this`allocatedObjects, objects
      ensures ObjectsValid()
      ensures objs == if old(objs).last.Last? then Dropped(old(objs), concurrentDecRef, old(objs).last.o) else old(objs)
    {
      if lastObj != null { DecRefObj(lastObj); }
    }

    // ---------- the end ----------

    /** The destructor: every object ever created has then been deallocated exactly once. */
    method Destroy()
      requires Valid() && Quiescent(State())
      modifies this, mgr, objects
      ensures forall o: Obj :: objs.freed[o] == if o < old(objs).created then 1 else 0
    {
      ghost var start := State();
      ReleaseLastAndFlush();
      ghost var freed := DeallocAll(allocatedObjects, objs.table);
      objs := objs.(freed := objs.freed + freed);
      forall o: Obj ensures objs.freed[o] == if o < start.objs.created then 1 else 0 { DestroyedOnce(start, o); }
    }

    method ReleaseLastAndFlush()
      requires Valid() && Quiescent(State())
      modifies this, mgr, objects
      ensures objs == Flushed(LastReleased(old(State()))).objs && allocatedObjects.Keys == objs.table.Keys
      ensures forall i: nat, j: nat :: i in objs.table && j in objs.table && objs.table[i] == objs.table[j] ==> i == j
    {
      LastReleasedReached(State());
      LastReleasedEffect(State());
      ReleaseLast();
      FlushObjects();
      TableInjective(State());
    }

    method ReleaseLast()
      requires ObjectsValid() && (objs.last.Last? ==> CountOf(objs, objs.last.o) > 0)
      modifies this`objs, this`lastObj, this`objectsToFlush, this`freeObjectIds, this`allocatedObjects, objects
      ensures ObjectsValid() && objs == LastReleased(old(State())).objs
    {
      DropLast();
      ReplaceLast(null);
    }

    static method DeallocAll(inUse: map<nat, ApiObject>, ghost table: map<nat, Obj>)
      returns (ghost freed: multiset<Obj>)
      requires inUse.Keys == table.Keys
      requires forall i: nat, j: nat :: i in table && j in table && table[i] == table[j] ==> i == j
      ensures freed == multiset(table.Values)
    {
      ghost var done: set<Obj> := {};
      var rest := inUse;
      freed := multiset{};
      while rest.Keys != {}
        invariant rest.Keys <= table.Keys && done <= table.Values && freed == multiset(done)
        invariant forall i :: i in table ==> (table[i] in done <==> i !in rest)
        decreases |rest|
      {
        var id :| id in rest;
        SetGrows(done, table[id]);
        done, freed := done + {table[id]}, freed + multiset{table[id]};
        rest := rest - {id};
      }
      assert done == table.Values;
    }

    static lemma SetGrows(s: set<Obj>, o: Obj)
      requires o !in s
      ensures multiset(s + {o}) == multiset(s) + multiset{o}
    {
    }
  }
}
