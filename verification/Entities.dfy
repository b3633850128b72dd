/**
 The entity manager as a value: archetype pools, the pool of stable handles, and the
 cross links between them. A handle is a position in the handle pool; its row stores the
 position of the entity's slot and, as its one cell, the index of the slot's pool. The slot's
 row stores the handle back.
 */
module Entities {
  import opened Common
  import opened Pools

  const ENT_NONE: Cell := 0
  const ENT_ALIVE: Cell := 3

  /** Pool ids are stored in eight bits. */
  const POOL_ID_RANGE: nat := 256

  datatype Manager = Manager(pools: seq<Pool>, ptrs: Pool)

  /** Index of the first registered pool with this name, or the number of pools. */
  function FindPool(m: Manager, name: string): (i: nat)
    ensures i <= |m.pools|
    ensures i < |m.pools| ==> m.pools[i].name == name
    ensures forall j :: 0 <= j < i ==> m.pools[j].name != name
  {
    FindPoolFrom(m.pools, name, 0)
  }

  function FindPoolFrom(pools: seq<Pool>, name: string, k: nat): (i: nat)
    requires k <= |pools|
    ensures k <= i <= |pools|
    ensures i < |pools| ==> pools[i].name == name
    ensures forall j :: k <= j < i ==> pools[j].name != name
    decreases |pools| - k
  {
    if k == |pools| || pools[k].name == name then k else FindPoolFrom(pools, name, k + 1)
  }

  // ---------- operations ----------

  function RegisterPool(m: Manager, p: Pool): Manager {
    m.(pools := m.pools + [p])
  }

  function GrowSlots(m: Manager, i: nat): Manager
    requires i < |m.pools|
  {
    m.(pools := m.pools[i := AddChunk(m.pools[i])])
  }

  function GrowPtrs(m: Manager): Manager {
    m.(ptrs := AddChunk(m.ptrs))
  }

  /** The slot and the handle the next single creation in pool `i` hands out. */
  predicate Ready(m: Manager, i: nat) {
    && i < |m.pools|
    && |m.pools[i].free| > 0 && m.pools[i].free[0] in m.pools[i].rows
    && |m.ptrs.free| > 0 && m.ptrs.free[0] in m.ptrs.rows
  }

  function TakeSlot(p: Pool, status: Cell, h: Pos): Pool
    requires |p.free| > 0 && p.free[0] in p.rows
  {
    var s := p.free[0];
    p.(rows := p.rows[s := p.rows[s].(status := status, link := h)], free := p.free[1..])
  }

  function TakePtr(ptrs: Pool, s: Pos, i: nat): Pool
    requires |ptrs.free| > 0
  {
    ptrs.(rows := ptrs.rows[ptrs.free[0] := Row(ENT_ALIVE, s, [i % POOL_ID_RANGE])], free := ptrs.free[1..])
  }

  /** Links the front free slot of pool `i` with the front free handle. */
  function Take(m: Manager, i: nat, status: Cell): Manager
    requires Ready(m, i)
  {
    var s := m.pools[i].free[0];
    var h := m.ptrs.free[0];
    Manager(m.pools[i := TakeSlot(m.pools[i], status, h)], TakePtr(m.ptrs, s, i))
  }

  /** A chunk is added to a pool whose free list is empty, never otherwise. */
  function Prepare(m: Manager, i: nat): Manager
    requires i < |m.pools|
  {
    var m1 := if m.pools[i].free == [] then GrowSlots(m, i) else m;
    if m1.ptrs.free == [] then GrowPtrs(m1) else m1
  }

  /** Creates one entity in pool `i`. */
  function Create(m: Manager, i: nat, status: Cell): Manager
    requires ManagerShape(m) && i < |m.pools|
  {
    PrepareReady(m, i);
    Take(Prepare(m, i), i, status)
  }

  /** The handle `Create` hands out. */
  function CreatedHandle(m: Manager, i: nat): (h: Pos)
    requires ManagerShape(m) && i < |m.pools|
  {
    PrepareReady(m, i);
    Prepare(m, i).ptrs.free[0]
  }

  function Release(p: Pool, q: Pos): Pool
    requires q in p.rows
  {
    p.(rows := p.rows[q := ZeroRow(p.width)], free := p.free + [q])
  }

  /**
   The stored row of handle `h` leads to a stored slot. Holds of every handle of a program with a pool 0 that
   has a chunk.
   */
  predicate Resolvable(m: Manager, h: Pos) {
    && h in m.ptrs.rows
    && |m.ptrs.rows[h].cells| == 1
    && PoolId(m, h) < |m.pools|
    && SlotOf(m, h) in m.pools[PoolId(m, h)].rows
  }

  function SlotOf(m: Manager, h: Pos): Pos
    requires h in m.ptrs.rows
  {
    m.ptrs.rows[h].link
  }

  function PoolId(m: Manager, h: Pos): nat
    requires h in m.ptrs.rows && |m.ptrs.rows[h].cells| == 1
  {
    m.ptrs.rows[h].cells[0]
  }

  /** Destroys the entity of one handle. */
  function Destroy(m: Manager, h: Pos): Manager
    requires Resolvable(m, h)
  {
    var i := PoolId(m, h);
    Manager(m.pools[i := Release(m.pools[i], SlotOf(m, h))], Release(m.ptrs, h))
  }

  /** An in-place change of an entity's status and cells through a live handle. */
  function Write(m: Manager, h: Pos, status: Cell, cells: seq<Cell>): Manager
    requires Resolvable(m, h)
  {
    var i := PoolId(m, h);
    var p := m.pools[i];
    var s := SlotOf(m, h);
    m.(pools := m.pools[i := p.(rows := p.rows[s := p.rows[s].(status := status, cells := cells)])])
  }

  function Cleared(p: Pool): Pool {
    EmptyPool(p.name, p.width, p.chunkSize)
  }

  function DeleteEverything(m: Manager): Manager {
    Manager(seq(|m.pools|, k requires 0 <= k < |m.pools| => Cleared(m.pools[k])), Cleared(m.ptrs))
  }

  // ---------- invariants ----------

  ghost predicate ManagerShape(m: Manager) {
    && (forall k :: 0 <= k < |m.pools| ==> PoolOk(m.pools[k]))
    && PoolOk(m.ptrs) && m.ptrs.width == 1
  }

  /** A handle points to a live slot of the pool it names, which points back to it. */
  ghost predicate HandleOk(m: Manager, h: Pos)
    requires h in m.ptrs.rows
  {
    && m.ptrs.rows[h].status == ENT_ALIVE
    && |m.ptrs.rows[h].cells| == 1
    && PoolId(m, h) < |m.pools|
    && Live(m.pools[PoolId(m, h)], SlotOf(m, h))
    && m.pools[PoolId(m, h)].rows[SlotOf(m, h)].link == h
  }

  /** A slot points to a live handle which points back to it and names its pool. */
  ghost predicate SlotOk(m: Manager, i: nat, s: Pos)
    requires i < |m.pools| && s in m.pools[i].rows
  {
    var h := m.pools[i].rows[s].link;
    && Live(m.ptrs, h)
    && SlotOf(m, h) == s
    && m.ptrs.rows[h].cells == [i]
  }

  ghost predicate Linked(m: Manager) {
    && (forall h :: Live(m.ptrs, h) ==> HandleOk(m, h))
    && (forall i, s :: 0 <= i < |m.pools| && Live(m.pools[i], s) ==> SlotOk(m, i, s))
  }

  /** The invariant of every run: shapes, free lists, zeroed free positions, cross links. */
  ghost predicate Ok(m: Manager) {
    ManagerShape(m) && Linked(m)
  }

  predicate LiveHandle(m: Manager, h: Pos) {
    Live(m.ptrs, h)
  }

  // ---------- every operation keeps the invariant ----------

  lemma LiveIsResolvable(m: Manager, h: Pos)
    requires Ok(m) && LiveHandle(m, h)
    ensures Resolvable(m, h) && Live(m.pools[PoolId(m, h)], SlotOf(m, h))
  {
    assert HandleOk(m, h);
  }

  lemma PrepareReady(m: Manager, i: nat)
    requires ManagerShape(m) && i < |m.pools|
    ensures ManagerShape(Prepare(m, i)) && Ready(Prepare(m, i), i)
  {
    AddChunkOk(m.pools[i]);
    AddChunkOk(m.ptrs);
  }

  lemma GrowSlotsOk(m: Manager, i: nat)
    requires Ok(m) && i < |m.pools|
    ensures Ok(GrowSlots(m, i))
  {
    AddChunkOk(m.pools[i]);
    var r := GrowSlots(m, i);
    forall h | Live(r.ptrs, h) ensures HandleOk(r, h) {
      assert HandleOk(m, h);
    }
    forall k, s | 0 <= k < |r.pools| && Live(r.pools[k], s) ensures SlotOk(r, k, s) {
      assert Live(m.pools[k], s);
      assert SlotOk(m, k, s);
    }
  }

  lemma GrowPtrsOk(m: Manager)
    requires Ok(m)
    ensures Ok(GrowPtrs(m))
  {
    AddChunkOk(m.ptrs);
    var r := GrowPtrs(m);
    forall h | Live(r.ptrs, h) ensures HandleOk(r, h) {
      assert HandleOk(m, h);
    }
    forall k, s | 0 <= k < |r.pools| && Live(r.pools[k], s) ensures SlotOk(r, k, s) {
      assert SlotOk(m, k, s);
    }
  }

  lemma PrepareOk(m: Manager, i: nat)
    requires Ok(m) && i < |m.pools|
    ensures Ok(Prepare(m, i)) && Ready(Prepare(m, i), i)
  {
    PrepareReady(m, i);
    GrowSlotsOk(m, i);
    var m1 := if m.pools[i].free == [] then GrowSlots(m, i) else m;
    GrowPtrsOk(m1);
  }

  lemma TakeSlotOk(p: Pool, status: Cell, h: Pos)
    requires PoolOk(p) && |p.free| > 0
    ensures PoolOk(TakeSlot(p, status, h))
    ensures forall q :: Live(TakeSlot(p, status, h), q) <==> Live(p, q) || q == p.free[0]
  {
    var r := TakeSlot(p, status, h);
    assert p.free == [p.free[0]] + r.free;
    assert p.free[0] in p.free;
    assert forall q :: q in r.free ==> q in p.free;
  }

  lemma TakePtrOk(p: Pool, s: Pos, i: nat)
    requires PoolOk(p) && |p.free| > 0 && p.width == 1
    ensures PoolOk(TakePtr(p, s, i))
    ensures forall q :: Live(TakePtr(p, s, i), q) <==> Live(p, q) || q == p.free[0]
  {
    var r := TakePtr(p, s, i);
    assert p.free == [p.free[0]] + r.free;
    assert p.free[0] in p.free;
    assert forall q :: q in r.free ==> q in p.free;
  }

  /** Linking one free slot with one free handle keeps the bijection, if the pool index fits a pool id. */
  lemma TakeOk(m: Manager, i: nat, status: Cell)
    requires Ok(m) && Ready(m, i) && i < POOL_ID_RANGE
    ensures Ok(Take(m, i, status))
  {
    var r := Take(m, i, status);
    var s0, h0 := m.pools[i].free[0], m.ptrs.free[0];
    TakeSlotOk(m.pools[i], status, h0);
    TakePtrOk(m.ptrs, s0, i);
    assert s0 in m.pools[i].free && h0 in m.ptrs.free;
    forall h | Live(r.ptrs, h) ensures HandleOk(r, h) {
      if h != h0 {
        assert Live(m.ptrs, h) && HandleOk(m, h);
      }
    }
    forall k, s | 0 <= k < |r.pools| && Live(r.pools[k], s) ensures SlotOk(r, k, s) {
      if k == i && s == s0 {
      } else {
        assert Live(m.pools[k], s);
        assert SlotOk(m, k, s);
      }
    }
  }

  lemma CreateOk(m: Manager, i: nat, status: Cell)
    requires Ok(m) && i < |m.pools| && i < POOL_ID_RANGE
    ensures Ok(Create(m, i, status))
  {
    PrepareOk(m, i);
    TakeOk(Prepare(m, i), i, status);
  }

  /** Creation in a pool keeps the invariant exactly when the pool's index fits the eight-bit id. */
  lemma CreateOkIff(m: Manager, i: nat, status: Cell)
    requires Ok(m) && i < |m.pools|
    ensures Ok(Create(m, i, status)) <==> i < POOL_ID_RANGE
  {
    PrepareOk(m, i);
    if i < POOL_ID_RANGE {
      CreateOk(m, i, status);
    } else {
      var g := Prepare(m, i);
      var r := Take(g, i, status);
      var s0, h0 := g.pools[i].free[0], g.ptrs.free[0];
      TakeSlotOk(g.pools[i], status, h0);
      assert Live(r.pools[i], s0);
      assert r.ptrs.rows[h0].cells == [i % POOL_ID_RANGE];
      assert r.ptrs.rows[h0].cells[0] != i;
      assert !SlotOk(r, i, s0);
    }
  }

  lemma ReleaseOk(p: Pool, q: Pos)
    requires PoolOk(p) && Live(p, q)
    ensures PoolOk(Release(p, q))
    ensures forall x :: Live(Release(p, q), x) <==> Live(p, x) && x != q
  {
    var r := Release(p, q);
    assert r.free[|p.free|] == q;
    assert forall x :: x in r.free <==> x in p.free || x == q;
  }

  lemma DestroyOk(m: Manager, h: Pos)
    requires Ok(m) && LiveHandle(m, h) && Resolvable(m, h)
    ensures Ok(Destroy(m, h))
  {
    LiveIsResolvable(m, h);
    var r := Destroy(m, h);
    var i, s := PoolId(m, h), SlotOf(m, h);
    assert HandleOk(m, h);
    ReleaseOk(m.pools[i], s);
    ReleaseOk(m.ptrs, h);
    forall g | Live(r.ptrs, g) ensures HandleOk(r, g) {
      assert HandleOk(m, g);
    }
    forall k, t | 0 <= k < |r.pools| && Live(r.pools[k], t) ensures SlotOk(r, k, t) {
      assert Live(m.pools[k], t);
      assert SlotOk(m, k, t);
    }
  }

  /**
   Resolving a live handle by archetype name reaches the entity of that handle exactly when the name is
   that of the pool the handle was created in.
   */
  lemma ByNameIff(m: Manager, name: string, h: Pos)
    requires Ok(m) && LiveHandle(m, h) && FindPool(m, name) < |m.pools|
    ensures h in m.ptrs.rows && |m.ptrs.rows[h].cells| == 1
    ensures var p, s := m.pools[FindPool(m, name)], SlotOf(m, h);
      (Live(p, s) && p.rows[s].link == h) <==> FindPool(m, name) == PoolId(m, h)
  {
    var i, s := FindPool(m, name), SlotOf(m, h);
    assert HandleOk(m, h);
    if Live(m.pools[i], s) && m.pools[i].rows[s].link == h {
      assert SlotOk(m, i, s);
    }
  }

  lemma WriteOk(m: Manager, h: Pos, status: Cell, cells: seq<Cell>)
    requires Ok(m) && LiveHandle(m, h) && Resolvable(m, h)
    requires |cells| == m.pools[PoolId(m, h)].width
    ensures Ok(Write(m, h, status, cells))
  {
    LiveIsResolvable(m, h);
    var r := Write(m, h, status, cells);
    var i, s := PoolId(m, h), SlotOf(m, h);
    assert PoolOk(r.pools[i]) by {
      assert forall q :: q in r.pools[i].rows <==> q in m.pools[i].rows;
    }
    forall g | Live(r.ptrs, g) ensures HandleOk(r, g) {
      assert HandleOk(m, g);
    }
    forall k, t | 0 <= k < |r.pools| && Live(r.pools[k], t) ensures SlotOk(r, k, t) {
      assert Live(m.pools[k], t);
      assert SlotOk(m, k, t);
    }
  }

  lemma RegisterPoolOk(m: Manager, p: Pool)
    requires Ok(m) && PoolOk(p) && LiveSet(p) == {}
    ensures Ok(RegisterPool(m, p))
  {
    var r := RegisterPool(m, p);
    forall h | Live(r.ptrs, h) ensures HandleOk(r, h) {
      assert HandleOk(m, h);
    }
    forall k, s | 0 <= k < |r.pools| && Live(r.pools[k], s) ensures SlotOk(r, k, s) {
      assert k == |m.pools| ==> s in LiveSet(p);
      assert SlotOk(m, k, s);
    }
  }

  lemma DeleteEverythingOk(m: Manager)
    requires ManagerShape(m)
    ensures Ok(DeleteEverything(m))
  {
  }
}
