/**
 The entity manager as an object: it owns the registered archetype pools and the handle
 pool, grows and links them in place, and hands out positions. Every method is tied to the
 operation of the same name on the manager's value.
 */
module EntityManagers {
  import opened Common
  import opened Pools
  import opened Entities
  import opened EntityBatch
  import opened Storage

  lemma ResolvesInside(m: Manager, h: Pos)
    requires Resolvable(m, h)
    ensures PoolId(m, h) < |m.pools| && SlotOf(m, h) in m.pools[PoolId(m, h)].rows.Keys
  {
  }

  /** The front positions of the grown pools are live once they are linked, and were not live before. */
  lemma NowLive(m0: Manager, m1: Manager, i: nat, status: Cell)
    requires ManagerShape(m0) && i < |m0.pools| && m1 == Prepare(m0, i) && Ready(m1, i)
    ensures var r := Take(m1, i, status);
      var slot, h := m1.pools[i].free[0], m1.ptrs.free[0];
      && Live(r.pools[i], slot) && !Live(m0.pools[i], slot) && Live(r.ptrs, h)
      && r.ptrs.rows[h].link == slot && r.pools[i].rows[slot].link == h && r.pools[i].rows[slot].status == status
  {
    PrepareReady(m0, i);
    AddChunkOk(m0.pools[i]);
    var slot, h := m1.pools[i].free[0], m1.ptrs.free[0];
    TakeSlotOk(m1.pools[i], status, h);
    TakePtrOk(m1.ptrs, slot, i);
    assert slot in m1.pools[i].free;
    hide PoolOk;
  }

  class EntityManager {
    var pools: seq<ArchetypePool>
    const ptrs: ArchetypePool

    constructor (ptrChunk: nat)
      requires ptrChunk > 0
      ensures Valid() && State() == Manager([], EmptyPool("EntityPtr", 1, ptrChunk))
    {
      pools := [];
      ptrs := new ArchetypePool("EntityPtr", ptrChunk, 1);
    }

    /** Registered pools are pairwise distinct objects, and none is the handle pool. */
    ghost predicate Separate()
      reads this
    {
      && ptrs !in pools
      && forall a, b :: 0 <= a < b < |pools| ==> pools[a] != pools[b]
    }

    ghost predicate Valid()
      reads this, ptrs, pools
    {
      && Separate()
      && ptrs.Valid() && ptrs.width == 1
      && forall p :: p in pools ==> p.Valid()
    }

    ghost function PoolStates(): (s: seq<Pool>)
      reads this, ptrs, pools
      requires Valid()
      ensures |s| == |pools|
      ensures forall k :: 0 <= k < |s| ==> s[k] == pools[k].State()
    {
      seq(|pools|, k requires 0 <= k < |pools| && Valid() reads this, ptrs, pools => pools[k].State())
    }

    ghost function State(): Manager
      reads this, ptrs, pools
      requires Valid()
    {
      Manager(PoolStates(), ptrs.State())
    }

    method RegisterEntityPool(p: ArchetypePool)
      requires Valid() && p.Valid() && p != ptrs && p !in pools
      modifies this`pools
      ensures Valid() && State() == RegisterPool(old(State()), p.State())
    {
      hide Lockstep, RowsOf;
      pools := pools + [p];
      assert PoolStates() == old(PoolStates()) + [p.State()];
    }

    /** The first registered pool with this name; the number of pools when there is none. */
    method FindEntityPool(name: string) returns (i: nat)
      requires Valid()
      ensures i == FindPool(State(), name)
    {
      hide Lockstep, RowsOf;
      i := 0;
      while i < |pools| && pools[i].name != name
        invariant i <= |pools|
        invariant FindPoolFrom(PoolStates(), name, i) == FindPool(State(), name)
      {
        i := i + 1;
      }
    }

    method GrowSlotPool(i: nat)
      requires Valid() && i < |pools|
      modifies pools[i]
      ensures Valid() && State() == GrowSlots(old(State()), i)
    {
      hide Lockstep, RowsOf, Pools.AddChunk;
      pools[i].AddChunk();
      assert PoolStates() == old(PoolStates())[i := pools[i].State()];
    }

    method GrowPtrPool()
      requires Valid()
      modifies ptrs
      ensures Valid() && State() == GrowPtrs(old(State()))
    {
      hide Lockstep, RowsOf, Pools.AddChunk;
      ptrs.AddChunk();
      assert PoolStates() == old(PoolStates());
    }

    /** Creates one entity of a registered archetype. */
    method CreateEntity(name: string, status: Cell) returns (slot: Pos, h: Pos)
      requires Valid() && ManagerShape(State()) && FindPool(State(), name) < |pools|
      modifies pools, ptrs
      ensures Valid() && State() == Create(old(State()), FindPool(old(State()), name), status)
      ensures h == CreatedHandle(old(State()), FindPool(old(State()), name))
      ensures var i := FindPool(old(State()), name);
        && Live(State().pools[i], slot) && !Live(old(State()).pools[i], slot)
        && State().pools[i].rows[slot].link == h && State().pools[i].rows[slot].status == status
      ensures Live(State().ptrs, h) && SlotOf(State(), h) == slot
    {
      hide Lockstep, RowsOf, Pools.AddChunk, Take, PoolOk;
      var i := FindEntityPool(name);
      ghost var m0 := State();
      PrepareReady(m0, i);
      if |pools[i].freePos| == 0 {
        GrowSlotPool(i);
      }
      if |ptrs.freePos| == 0 {
        GrowPtrPool();
      }
      ghost var m1 := State();
      assert m1 == Prepare(m0, i);
      slot, h := LinkFront(i, status);
      NowLive(m0, m1, i, status);
    }

    /** Links the front free slot with the front free handle and drops both from the free lists. */
    method LinkFront(i: nat, status: Cell) returns (slot: Pos, h: Pos)
      requires Valid() && Ready(State(), i) && ManagerShape(State())
      modifies pools[i], ptrs
      ensures Valid() && State() == Take(old(State()), i, status)
      ensures slot == old(State()).pools[i].free[0] && h == old(State()).ptrs.free[0]
      ensures slot in State().pools[i].rows && State().pools[i].rows[slot].link == h
    {
      hide Lockstep, RowsOf, PoolOk;
      ghost var m0 := State();
      var pool := pools[i];
      slot, h := pool.freePos[0], ptrs.freePos[0];
      assert m0.pools[i] == pool.State();
      LinkSlot(pool, slot, status, h);
      LinkPtr(slot, h, i % POOL_ID_RANGE);
      ptrs.freePos := ptrs.freePos[1..];
      pool.freePos := pool.freePos[1..];
      assert pool.State() == TakeSlot(m0.pools[i], status, h);
      assert ptrs.State() == TakePtr(m0.ptrs, slot, i);
      assert PoolStates() == m0.pools[i := pool.State()];
    }

    method LinkSlot(pool: ArchetypePool, slot: Pos, status: Cell, h: Pos)
      requires pool.Valid() && slot in pool.State().rows
      modifies pool`columns
      ensures pool.Valid() && pool.State() == old(pool.State()).(
        rows := old(pool.State()).rows[slot := old(pool.State()).rows[slot].(status := status, link := h)])
    {
      hide Lockstep, RowsOf;
      pool.SetCellAt(0, slot, status);
      pool.SetLinkAt(slot, h);
    }

    method LinkPtr(slot: Pos, h: Pos, id: Cell)
      requires ptrs.Valid() && h in ptrs.State().rows && ptrs.width == 1
      modifies ptrs`columns
      ensures ptrs.Valid() && ptrs.State() == old(ptrs.State()).(
        rows := old(ptrs.State()).rows[h := Row(ENT_ALIVE, slot, [id])])
    {
      hide Lockstep, RowsOf;
      ptrs.SetCellAt(0, h, ENT_ALIVE);
      ptrs.SetLinkAt(h, slot);
      ghost var r := ptrs.State().rows[h];
      ptrs.SetCellAt(3, h, id);
      assert r.cells[0 := id] == [id];
    }

    /** Grows one pool until `n` positions are free. */
    method GrowFree(pool: ArchetypePool, n: nat)
      requires pool.Valid() && PoolOk(pool.State())
      modifies pool
      ensures pool.Valid() && pool.State() == GrowTo(old(pool.State()), n)
    {
      hide Lockstep, RowsOf, FreshRows;
      while |pool.freePos| < n
        invariant pool.Valid() && PoolOk(pool.State())
        invariant GrowTo(pool.State(), n) == GrowTo(old(pool.State()), n)
        decreases n - |pool.freePos|
      {
        AddChunkOk(pool.State());
        pool.AddChunk();
      }
    }

    /** Creates `count` entities of a registered archetype in one call; returns their slots in order. */
    method CreateEntities(name: string, count: nat, status: Cell) returns (slots: seq<Pos>)
      requires Valid() && ManagerShape(State()) && FindPool(State(), name) < |pools|
      modifies pools, ptrs
      ensures Valid() && State() == BatchCreate(old(State()), FindPool(old(State()), name), count, status)
      ensures slots == FirstFree(old(State()).pools[FindPool(old(State()), name)], count)
    {
      hide Lockstep, RowsOf, PoolOk, SetStatuses, SetCells, SetLinks, Pools.AddChunk, GrowTo;
      var i := FindEntityPool(name);
      ghost var m0 := State();
      var pool := pools[i];
      GrowToOk(m0.pools[i], count);
      GrowToOk(m0.ptrs, count);
      GrowFree(pool, count);
      GrowFree(ptrs, count);
      slots := pool.freePos[..count];
      var hs := ptrs.freePos[..count];
      TakeSlotRange(pool, slots, hs, status);
      TakePtrRange(hs, slots, i % POOL_ID_RANGE);
      ptrs.freePos := ptrs.freePos[count..];
      pool.freePos := pool.freePos[count..];
      assert pool.State() == BatchSlots(m0.pools[i], count, status, hs);
      assert ptrs.State() == BatchPtrs(m0.ptrs, count, slots, i);
      assert PoolStates() == m0.pools[i := pool.State()];
    }

    method TakeSlotRange(pool: ArchetypePool, slots: seq<Pos>, hs: seq<Pos>, status: Cell)
      requires pool.Valid() && |slots| == |hs| && forall q :: q in slots ==> q in pool.State().rows
      modifies pool`columns
      ensures pool.Valid()
      ensures pool.State() == old(pool.State()).(rows := SetLinks(SetStatuses(old(pool.State()).rows, slots, status),
        slots, hs))
    {
      hide Lockstep, RowsOf, SetStatuses, SetLinks;
      pool.SetStatusAt(slots, status);
      pool.SetLinksAt(slots, hs);
    }

    method TakePtrRange(hs: seq<Pos>, slots: seq<Pos>, id: Cell)
      requires ptrs.Valid() && ptrs.width == 1 && |slots| == |hs| && forall q :: q in hs ==> q in ptrs.State().rows
      modifies ptrs`columns
      ensures ptrs.Valid()
      ensures ptrs.State() == old(ptrs.State()).(
        rows := SetCells(SetLinks(SetStatuses(old(ptrs.State()).rows, hs, ENT_ALIVE), hs, slots), hs, [id]))
    {
      hide Lockstep, RowsOf, SetStatuses, SetLinks, SetCells;
      ptrs.SetStatusAt(hs, ENT_ALIVE);
      ptrs.SetLinksAt(hs, slots);
      ptrs.SetIdAt(hs, id);
    }

    /** Reads the stored slots of many handles. */
    method SlotsOfHandles(hs: seq<Pos>) returns (slots: seq<Pos>)
      requires Valid() && forall h :: h in hs ==> h in ptrs.State().rows
      ensures slots == SlotsOf(State(), hs)
    {
      hide Lockstep, RowsOf;
      slots := [];
      for k := 0 to |hs|
        invariant |slots| == k && forall j :: 0 <= j < k ==> slots[j] == SlotOf(State(), hs[j])
      {
        assert hs[k] in hs;
        var s := ptrs.LinkAt(hs[k]);
        slots := slots + [s];
      }
    }

    /** Destroys the handles of `hs` as entities of pool `i`. */
    method DestroyFromPool(hs: seq<Pos>, i: nat)
      requires Valid() && i < |pools|
      requires forall h :: h in hs ==> h in State().ptrs.rows && SlotOf(State(), h) in State().pools[i].rows
      modifies pools, ptrs
      ensures Valid() && State() == DestroyFrom(old(State()), hs, i)
    {
      hide Lockstep, RowsOf, ResetAll;
      ghost var m0 := State();
      var pool := pools[i];
      assert pool in pools && pool != ptrs;
      ptrs.freePos := ptrs.freePos + hs;
      assert PoolStates() == m0.pools;
      var slots := SlotsOfHandles(hs);
      assert slots == SlotsOf(m0, hs);
      assert forall q :: q in slots ==> q in m0.pools[i].rows;
      assert pool.State() == m0.pools[i];
      pool.freePos := pool.freePos + slots;
      ptrs.ResetEntityAtIndexes(hs);
      assert pool.Valid() && pool.State().rows == m0.pools[i].rows;
      pool.ResetEntityAtIndexes(slots);
      assert PoolStates() == m0.pools[i := ReleaseAll(m0.pools[i], slots)];
    }

    method DestroyEntity(h: Pos)
      requires Valid() && Resolvable(State(), h)
      modifies pools, ptrs
      ensures Valid() && State() == Destroy(old(State()), h)
    {
      hide Lockstep, RowsOf, DestroyFrom, Destroy;
      DestroyFromOne(State(), h);
      var i := ptrs.CellAt(0, h);
      DestroyFromPool([h], i);
    }

    /** Destroys by archetype name; does nothing when no pool has that name. */
    method DestroyNamed(hs: seq<Pos>, name: string)
      requires Valid()
      requires FindPool(State(), name) < |pools| ==> forall h :: h in hs ==>
        h in State().ptrs.rows && SlotOf(State(), h) in State().pools[FindPool(State(), name)].rows
      modifies pools, ptrs
      ensures Valid()
      ensures State() == if FindPool(old(State()), name) < |pools|
        then DestroyFrom(old(State()), hs, FindPool(old(State()), name)) else old(State())
    {
      hide Lockstep, RowsOf, DestroyFrom;
      var i := FindEntityPool(name);
      if i < |pools| {
        DestroyFromPool(hs, i);
      }
    }

    /** Destroys handles of any pools: all handles are read first, then slots are released one by one. */
    method DestroyMixed(hs: seq<Pos>)
      requires Valid() && forall h :: h in hs ==> Resolvable(State(), h)
      modifies pools, ptrs
      ensures Valid() && State() == DestroyEach(old(State()), hs)
    {
      hide Lockstep, RowsOf, ResetAll;
      ghost var m0 := State();
      ptrs.freePos := ptrs.freePos + hs;
      assert PoolStates() == m0.pools;
      var slots := SlotsOfHandles(hs);
      var ids := IdsOfHandles(hs);
      ReleaseInOrder(hs, slots, ids, m0);
      ptrs.ResetEntityAtIndexes(hs);
      assert PoolStates() == ReleaseSlots(m0, hs, |hs|);
    }

    method ReleaseInOrder(ghost hs: seq<Pos>, slots: seq<Pos>, ids: seq<nat>, ghost m0: Manager)
      requires Valid() && PoolStates() == m0.pools && |slots| == |ids| == |hs|
      requires forall h :: h in hs ==> Resolvable(m0, h)
      requires forall k :: 0 <= k < |hs| ==>
        Resolvable(m0, hs[k]) && slots[k] == SlotOf(m0, hs[k]) && ids[k] == PoolId(m0, hs[k])
      modifies pools
      ensures Valid() && PoolStates() == ReleaseSlots(m0, hs, |hs|)
    {
      hide Lockstep, RowsOf, Release, Resolvable, ArchetypePool.State;
      for k := 0 to |ids|
        invariant Valid() && PoolStates() == ReleaseSlots(m0, hs, k)
      {
        assert hs[k] in hs;
        ResolvesInside(m0, hs[k]);
        ReleaseSlot(ids[k], slots[k]);
      }
    }

    /** Reads the stored pool ids of many handles. */
    method IdsOfHandles(hs: seq<Pos>) returns (ids: seq<nat>)
      requires Valid() && forall h :: h in hs ==> h in ptrs.State().rows
      ensures |ids| == |hs|
      ensures forall k :: 0 <= k < |hs| ==> |State().ptrs.rows[hs[k]].cells| == 1 && ids[k] == PoolId(State(), hs[k])
    {
      hide Lockstep, RowsOf;
      ids := [];
      for k := 0 to |hs|
        invariant |ids| == k
        invariant forall j :: 0 <= j < k ==> |State().ptrs.rows[hs[j]].cells| == 1 && ids[j] == PoolId(State(), hs[j])
      {
        assert hs[k] in hs;
        var i := ptrs.CellAt(0, hs[k]);
        ids := ids + [i];
      }
    }

    method ReleaseSlot(i: nat, slot: Pos)
      requires Valid() && i < |pools| && slot in PoolStates()[i].rows
      modifies pools[i]
      ensures Valid() && PoolStates() == old(PoolStates())[i := Release(old(PoolStates())[i], slot)]
    {
      hide Lockstep, RowsOf;
      var pool := pools[i];
      ghost var p0 := pool.State();
      pool.ResetEntityAtIndexes([slot]);
      pool.freePos := pool.freePos + [slot];
      SameMap(ResetAll(p0.rows, p0.width, [slot]), p0.rows[slot := ZeroRow(p0.width)]);
      assert pool.State() == Release(p0, slot);
    }

    /** Resolves a handle through its stored pool id. */
    method GetEntity(h: Pos) returns (i: nat, slot: Pos)
      requires Valid() && Resolvable(State(), h)
      ensures i == PoolId(State(), h) && slot == SlotOf(State(), h)
    {
      hide Lockstep, RowsOf;
      i := ptrs.CellAt(0, h);
      slot := ptrs.LinkAt(h);
    }

    /** Resolves a handle through an archetype name instead of its stored pool id. */
    method GetEntityAs(name: string, h: Pos) returns (i: nat, slot: Pos)
      requires Valid() && Ok(State()) && LiveHandle(State(), h) && FindPool(State(), name) < |pools|
      ensures i == FindPool(State(), name) && slot == SlotOf(State(), h)
      ensures Resolvable(State(), h) && (i == PoolId(State(), h) ==> Live(State().pools[i], slot))
    {
      hide Lockstep, RowsOf, PoolOk;
      LiveIsResolvable(State(), h);
      i := FindEntityPool(name);
      slot := ptrs.LinkAt(h);
    }

    method DeleteEverything()
      requires Valid()
      modifies pools, ptrs
      ensures Valid() && State() == Entities.DeleteEverything(old(State()))
    {
      hide Lockstep, RowsOf;
      ghost var m0 := State();
      for k := 0 to |pools|
        invariant Valid() && ptrs.State() == m0.ptrs
        invariant forall j :: 0 <= j < k ==> pools[j].State() == Cleared(m0.pools[j])
        invariant forall j :: k <= j < |pools| ==> pools[j].State() == m0.pools[j]
      {
        pools[k].DeleteEverything();
      }
      ptrs.DeleteEverything();
      assert PoolStates() == Entities.DeleteEverything(m0).pools;
    }
  }
}
