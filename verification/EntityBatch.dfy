/**
 The batch paths of the entity manager: grow both pools first, write the statuses, the
 links and the pool ids in separate passes, then drop a prefix of the free lists. Each is
 proved equal to the same number of single calls.
 */
module EntityBatch {
  import opened Common
  import opened Pools
  import opened Entities

  // ---------- passes over many positions ----------

  function SetStatuses(rows: map<Pos, Row>, qs: seq<Pos>, status: Cell): (r: map<Pos, Row>)
    ensures r.Keys == rows.Keys
  {
    map q | q in rows :: if q in qs then rows[q].(status := status) else rows[q]
  }

  function SetCells(rows: map<Pos, Row>, qs: seq<Pos>, cells: seq<Cell>): (r: map<Pos, Row>)
    ensures r.Keys == rows.Keys
  {
    map q | q in rows :: if q in qs then rows[q].(cells := cells) else rows[q]
  }

  function ResetAll(rows: map<Pos, Row>, width: nat, qs: seq<Pos>): (r: map<Pos, Row>)
    ensures r.Keys == rows.Keys
  {
    map q | q in rows :: if q in qs then ZeroRow(width) else rows[q]
  }

  /** Writes `links[k]` at `qs[k]`, in order. */
  function SetLinks(rows: map<Pos, Row>, qs: seq<Pos>, links: seq<Pos>): (r: map<Pos, Row>)
    requires |qs| == |links| && forall q :: q in qs ==> q in rows
    ensures r.Keys == rows.Keys
    ensures forall q :: q in rows && q !in qs ==> r[q] == rows[q]
    decreases |qs|
  {
    if qs == [] then rows
    else
      var n := |qs| - 1;
      var r := SetLinks(rows, qs[..n], links[..n]);
      r[qs[n] := r[qs[n]].(link := links[n])]
  }

  lemma {:induction false} SetLinksAt(rows: map<Pos, Row>, qs: seq<Pos>, links: seq<Pos>, k: nat)
    requires |qs| == |links| && (forall q :: q in qs ==> q in rows) && Distinct(qs) && k < |qs|
    ensures SetLinks(rows, qs, links)[qs[k]] == rows[qs[k]].(link := links[k])
    decreases |qs|
  {
    var n := |qs| - 1;
    assert Distinct(qs[..n]);
    if k < n {
      assert qs[..n][k] == qs[k] && links[..n][k] == links[k] && qs[k] != qs[n];
      SetLinksAt(rows, qs[..n], links[..n], k);
    } else {
      assert qs[n] !in qs[..n];
    }
  }

  // ---------- growth ----------

  function GrowTo(p: Pool, n: nat): Pool
    requires p.chunkSize > 0
    decreases n - |p.free|
  {
    if |p.free| >= n then p else GrowTo(AddChunk(p), n)
  }

  lemma {:induction false} GrowToOk(p: Pool, n: nat)
    requires PoolOk(p)
    ensures PoolOk(GrowTo(p, n)) && |GrowTo(p, n).free| >= n
    ensures GrowTo(p, n).width == p.width && GrowTo(p, n).name == p.name
    decreases n - |p.free|
  {
    if |p.free| < n {
      AddChunkOk(p);
      GrowToOk(AddChunk(p), n);
    }
  }

  /** Asking for one more position adds a chunk exactly when the free list is one short. */
  lemma {:induction false} GrowToNext(p: Pool, n: nat)
    requires PoolOk(p)
    ensures |GrowTo(p, n).free| >= n
    ensures GrowTo(p, n + 1) == if |GrowTo(p, n).free| > n then GrowTo(p, n) else AddChunk(GrowTo(p, n))
    decreases n - |p.free|
  {
    AddChunkOk(p);
    if |p.free| < n {
      GrowToNext(AddChunk(p), n);
    } else if |p.free| == n {
      assert GrowTo(AddChunk(p), n + 1) == AddChunk(p);
    }
  }

  // ---------- batch creation ----------

  function TakeSlots(p: Pool, n: nat, status: Cell, hs: seq<Pos>): Pool
    requires |hs| == n <= |p.free| && forall q :: q in p.free ==> q in p.rows
  {
    var slots := p.free[..n];
    p.(rows := SetLinks(SetStatuses(p.rows, slots, status), slots, hs), free := p.free[n..])
  }

  function TakePtrs(t: Pool, n: nat, slots: seq<Pos>, i: nat): Pool
    requires |slots| == n <= |t.free| && forall q :: q in t.free ==> q in t.rows
  {
    var hs := t.free[..n];
    t.(rows := SetCells(SetLinks(SetStatuses(t.rows, hs, ENT_ALIVE), hs, slots), hs, [i % POOL_ID_RANGE]),
       free := t.free[n..])
  }

  function BatchSlots(p: Pool, n: nat, status: Cell, hs: seq<Pos>): Pool
    requires PoolOk(p) && |hs| == n
  {
    GrowToOk(p, n);
    TakeSlots(GrowTo(p, n), n, status, hs)
  }

  function BatchPtrs(t: Pool, n: nat, slots: seq<Pos>, i: nat): Pool
    requires PoolOk(t) && |slots| == n
  {
    GrowToOk(t, n);
    TakePtrs(GrowTo(t, n), n, slots, i)
  }

  function FirstFree(p: Pool, n: nat): (s: seq<Pos>)
    requires PoolOk(p)
    ensures |s| == n
  {
    GrowToOk(p, n);
    GrowTo(p, n).free[..n]
  }

  /** Creates `n` entities of pool `i` in one call. */
  function BatchCreate(m: Manager, i: nat, n: nat, status: Cell): Manager
    requires ManagerShape(m) && i < |m.pools|
  {
    var slots, hs := FirstFree(m.pools[i], n), FirstFree(m.ptrs, n);
    Manager(m.pools[i := BatchSlots(m.pools[i], n, status, hs)], BatchPtrs(m.ptrs, n, slots, i))
  }

  /** `n` single creations, one after the other. */
  function CreateN(m: Manager, i: nat, n: nat, status: Cell): (r: Manager)
    requires ManagerShape(m) && i < |m.pools|
    ensures ManagerShape(r) && |r.pools| == |m.pools|
  {
    if n == 0 then m
    else
      var r := CreateN(m, i, n - 1, status);
      CreateShape(r, i, status);
      Create(r, i, status)
  }

  lemma CreateShape(m: Manager, i: nat, status: Cell)
    requires ManagerShape(m) && i < |m.pools|
    ensures ManagerShape(Create(m, i, status))
  {
    PrepareReady(m, i);
    var g := Prepare(m, i);
    TakeSlotOk(g.pools[i], status, g.ptrs.free[0]);
    TakePtrOk(g.ptrs, g.pools[i].free[0], i);
  }

  lemma TakeSlotsAt(p: Pool, n: nat, status: Cell, hs: seq<Pos>, q: Pos)
    requires PoolOk(p) && |hs| == n <= |p.free| && q in p.rows
    ensures TakeSlots(p, n, status, hs).rows.Keys == p.rows.Keys
    ensures q !in p.free[..n] ==> TakeSlots(p, n, status, hs).rows[q] == p.rows[q]
    ensures forall k :: 0 <= k < n && p.free[k] == q ==>
      TakeSlots(p, n, status, hs).rows[q] == p.rows[q].(status := status, link := hs[k])
  {
    var slots := p.free[..n];
    forall k | 0 <= k < n && p.free[k] == q
      ensures TakeSlots(p, n, status, hs).rows[q] == p.rows[q].(status := status, link := hs[k])
    {
      SetLinksAt(SetStatuses(p.rows, slots, status), slots, hs, k);
      assert slots[k] == q;
    }
  }

  lemma TakePtrsAt(t: Pool, n: nat, slots: seq<Pos>, i: nat, q: Pos)
    requires PoolOk(t) && |slots| == n <= |t.free| && q in t.rows
    ensures TakePtrs(t, n, slots, i).rows.Keys == t.rows.Keys
    ensures q !in t.free[..n] ==> TakePtrs(t, n, slots, i).rows[q] == t.rows[q]
    ensures forall k :: 0 <= k < n && t.free[k] == q ==>
      TakePtrs(t, n, slots, i).rows[q] == Row(ENT_ALIVE, slots[k], [i % POOL_ID_RANGE])
  {
    var hs := t.free[..n];
    forall k | 0 <= k < n && t.free[k] == q
      ensures TakePtrs(t, n, slots, i).rows[q] == Row(ENT_ALIVE, slots[k], [i % POOL_ID_RANGE])
    {
      SetLinksAt(SetStatuses(t.rows, hs, ENT_ALIVE), hs, slots, k);
      assert hs[k] == q;
    }
  }

  lemma FreeInRows(p: Pool)
    requires PoolOk(p)
    ensures forall q :: q in p.free ==> q in p.rows
  {
  }

  lemma TakeSlotsParts(p: Pool, n: nat, status: Cell, hs: seq<Pos>)
    requires PoolOk(p) && |hs| == n <= |p.free|
    ensures var r := TakeSlots(p, n, status, hs);
      r == p.(rows := r.rows, free := p.free[n..]) && r.rows.Keys == p.rows.Keys
  {
  }

  lemma TakePtrsParts(t: Pool, n: nat, slots: seq<Pos>, i: nat)
    requires PoolOk(t) && |slots| == n <= |t.free|
    ensures var r := TakePtrs(t, n, slots, i);
      r == t.(rows := r.rows, free := t.free[n..]) && r.rows.Keys == t.rows.Keys
  {
  }

  /** Growing two pools of one shape and one set of rows adds the same keys and the same free positions. */
  lemma AddChunkParts(p: Pool, r: Pool)
    requires r == p.(rows := r.rows, free := r.free) && r.rows.Keys == p.rows.Keys
    ensures AddChunk(r) == AddChunk(p).(rows := AddChunk(r).rows,
      free := r.free + ChunkPositions(p.chunks, p.chunkSize))
    ensures AddChunk(r).rows.Keys == AddChunk(p).rows.Keys
    ensures AddChunk(p).free == p.free + ChunkPositions(p.chunks, p.chunkSize)
  {
    hide FreshRows, ChunkPositions;
  }

  lemma TakeSlotsGrowAt(p: Pool, n: nat, status: Cell, hs: seq<Pos>, q: Pos)
    requires PoolOk(p) && PoolOk(AddChunk(p)) && |hs| == n <= |p.free| && q in AddChunk(p).rows
    ensures q in AddChunk(TakeSlots(p, n, status, hs)).rows
    ensures TakeSlots(AddChunk(p), n, status, hs).rows[q] == AddChunk(TakeSlots(p, n, status, hs)).rows[q]
  {
    var g := AddChunk(p);
    assert g.free[..n] == p.free[..n];
    AddChunkAt(p, q);
    AddChunkAt(TakeSlots(p, n, status, hs), q);
    hide FreshRows, ChunkPositions;
    TakeSlotsAt(g, n, status, hs, q);
    if q in p.rows { TakeSlotsAt(p, n, status, hs, q); }
    FreeIndex(p, n, q);
  }

  /** Taking from a grown pool and growing after taking agree: the new chunk holds none of the taken slots. */
  lemma TakeSlotsGrow(p: Pool, n: nat, status: Cell, hs: seq<Pos>)
    requires PoolOk(p) && |hs| == n <= |p.free|
    ensures PoolOk(AddChunk(p))
    ensures TakeSlots(AddChunk(p), n, status, hs) == AddChunk(TakeSlots(p, n, status, hs))
  {
    hide PoolOk, TakeSlots, AddChunk, ChunkPositions;
    AddChunkOk(p);
    FreeInRows(p);
    FreeInRows(AddChunk(p));
    TakeSlotsParts(p, n, status, hs);
    AddChunkParts(p, TakeSlots(p, n, status, hs));
    TakeSlotsParts(AddChunk(p), n, status, hs);
    var l, r := TakeSlots(AddChunk(p), n, status, hs), AddChunk(TakeSlots(p, n, status, hs));
    assert l.free == r.free;
    forall q | q in l.rows ensures q in r.rows && l.rows[q] == r.rows[q] {
      TakeSlotsGrowAt(p, n, status, hs, q);
    }
    SameMap(l.rows, r.rows);
  }

  lemma TakePtrsGrowAt(t: Pool, n: nat, slots: seq<Pos>, i: nat, q: Pos)
    requires PoolOk(t) && PoolOk(AddChunk(t)) && |slots| == n <= |t.free| && q in AddChunk(t).rows
    ensures q in AddChunk(TakePtrs(t, n, slots, i)).rows
    ensures TakePtrs(AddChunk(t), n, slots, i).rows[q] == AddChunk(TakePtrs(t, n, slots, i)).rows[q]
  {
    var g := AddChunk(t);
    assert g.free[..n] == t.free[..n];
    AddChunkAt(t, q);
    AddChunkAt(TakePtrs(t, n, slots, i), q);
    hide FreshRows, ChunkPositions;
    TakePtrsAt(g, n, slots, i, q);
    if q in t.rows { TakePtrsAt(t, n, slots, i, q); }
    FreeIndex(t, n, q);
  }

  lemma TakePtrsGrow(t: Pool, n: nat, slots: seq<Pos>, i: nat)
    requires PoolOk(t) && |slots| == n <= |t.free|
    ensures PoolOk(AddChunk(t))
    ensures TakePtrs(AddChunk(t), n, slots, i) == AddChunk(TakePtrs(t, n, slots, i))
  {
    hide PoolOk, TakePtrs, AddChunk, ChunkPositions;
    AddChunkOk(t);
    FreeInRows(t);
    FreeInRows(AddChunk(t));
    TakePtrsParts(t, n, slots, i);
    AddChunkParts(t, TakePtrs(t, n, slots, i));
    TakePtrsParts(AddChunk(t), n, slots, i);
    var l, r := TakePtrs(AddChunk(t), n, slots, i), AddChunk(TakePtrs(t, n, slots, i));
    assert l.free == r.free;
    forall q | q in l.rows ensures q in r.rows && l.rows[q] == r.rows[q] {
      TakePtrsGrowAt(t, n, slots, i, q);
    }
    SameMap(l.rows, r.rows);
  }

  lemma SameMap(a: map<Pos, Row>, b: map<Pos, Row>)
    requires a.Keys == b.Keys && forall q :: q in a ==> a[q] == b[q]
    ensures a == b
  {
  }

  lemma FreeIndex(p: Pool, n: nat, q: Pos)
    requires n <= |p.free|
    ensures q in p.free[..n] ==> exists k :: 0 <= k < n && p.free[k] == q
  {
  }

  lemma FreeStored(p: Pool, n: nat)
    requires PoolOk(p) && n < |p.free|
    ensures p.free[n] in p.rows && p.free[n] !in p.free[..n]
  {
    assert p.free[n] in p.free;
  }

  /** Taking n + 1 slots is taking n and then one more. */
  lemma TakeSlotsNext(p: Pool, n: nat, status: Cell, hs: seq<Pos>)
    requires PoolOk(p) && |hs| == n + 1 <= |p.free|
    ensures var a := TakeSlots(p, n, status, hs[..n]);
      |a.free| > 0 && a.free[0] == p.free[n] && a.free[0] in a.rows &&
      TakeSlots(p, n + 1, status, hs) == TakeSlot(a, status, hs[n])
  {
    hide PoolOk, TakeSlots;
    FreeInRows(p);
    TakeSlotsParts(p, n, status, hs[..n]);
    TakeSlotsParts(p, n + 1, status, hs);
    FreeStored(p, n);
    var a := TakeSlots(p, n, status, hs[..n]);
    var l, r := TakeSlots(p, n + 1, status, hs), TakeSlot(a, status, hs[n]);
    TakeSlotsAt(p, n, status, hs[..n], p.free[n]);
    forall q | q in p.rows ensures q in r.rows && l.rows[q] == r.rows[q] {
      TakeSlotsAt(p, n + 1, status, hs, q);
      TakeSlotsAt(p, n, status, hs[..n], q);
      FreeIndex(p, n, q);
      FreeIndex(p, n + 1, q);
    }
    assert l.rows.Keys == r.rows.Keys;
    assert l.rows == r.rows;
  }

  lemma TakePtrsNext(t: Pool, n: nat, slots: seq<Pos>, i: nat)
    requires PoolOk(t) && |slots| == n + 1 <= |t.free|
    ensures var a := TakePtrs(t, n, slots[..n], i);
      |a.free| > 0 && a.free[0] == t.free[n] && a.free[0] in a.rows &&
      TakePtrs(t, n + 1, slots, i) == TakePtr(a, slots[n], i)
  {
    hide PoolOk, TakePtrs;
    FreeInRows(t);
    TakePtrsParts(t, n, slots[..n], i);
    TakePtrsParts(t, n + 1, slots, i);
    FreeStored(t, n);
    var a := TakePtrs(t, n, slots[..n], i);
    var l, r := TakePtrs(t, n + 1, slots, i), TakePtr(a, slots[n], i);
    TakePtrsAt(t, n, slots[..n], i, t.free[n]);
    forall q | q in t.rows ensures q in r.rows && l.rows[q] == r.rows[q] {
      TakePtrsAt(t, n + 1, slots, i, q);
      TakePtrsAt(t, n, slots[..n], i, q);
      FreeIndex(t, n, q);
      FreeIndex(t, n + 1, q);
    }
    assert l.rows.Keys == r.rows.Keys;
    assert l.rows == r.rows;
  }

  function Refill(p: Pool): Pool {
    if p.free == [] then AddChunk(p) else p
  }

  lemma GrowToPrefix(p: Pool, n: nat)
    requires PoolOk(p)
    ensures PoolOk(GrowTo(p, n)) && PoolOk(GrowTo(p, n + 1))
    ensures |GrowTo(p, n).free| >= n && |GrowTo(p, n + 1).free| > n
    ensures GrowTo(p, n + 1).free[..n] == GrowTo(p, n).free[..n]
    ensures GrowTo(p, n + 1) == if |GrowTo(p, n).free| > n then GrowTo(p, n) else AddChunk(GrowTo(p, n))
    ensures GrowTo(p, n).width == GrowTo(p, n + 1).width == p.width
  {
    hide PoolOk, FreshRows;
    GrowToOk(p, n);
    GrowToOk(p, n + 1);
    GrowToNext(p, n);
  }

  /** Refilling after a batch of n reaches the pool the batch of n + 1 would have grown. */
  lemma RefillSlots(p: Pool, n: nat, status: Cell, hs: seq<Pos>)
    requires PoolOk(p) && |hs| == n
    ensures PoolOk(GrowTo(p, n)) && |GrowTo(p, n).free| >= n
    ensures PoolOk(GrowTo(p, n + 1)) && |GrowTo(p, n + 1).free| > n
    ensures Refill(TakeSlots(GrowTo(p, n), n, status, hs)) == TakeSlots(GrowTo(p, n + 1), n, status, hs)
  {
    GrowToPrefix(p, n);
    TakeSlotsGrow(GrowTo(p, n), n, status, hs);
  }

  lemma RefillPtrs(t: Pool, n: nat, slots: seq<Pos>, i: nat)
    requires PoolOk(t) && |slots| == n
    ensures PoolOk(GrowTo(t, n)) && |GrowTo(t, n).free| >= n
    ensures PoolOk(GrowTo(t, n + 1)) && |GrowTo(t, n + 1).free| > n
    ensures Refill(TakePtrs(GrowTo(t, n), n, slots, i)) == TakePtrs(GrowTo(t, n + 1), n, slots, i)
  {
    GrowToPrefix(t, n);
    TakePtrsGrow(GrowTo(t, n), n, slots, i);
  }

  lemma FirstFreeNext(p: Pool, n: nat)
    requires PoolOk(p)
    ensures FirstFree(p, n + 1)[..n] == FirstFree(p, n)
  {
    GrowToPrefix(p, n);
  }

  lemma BatchSlotsNext(p: Pool, n: nat, status: Cell, hs: seq<Pos>)
    requires PoolOk(p) && |hs| == n + 1
    ensures var a := Refill(BatchSlots(p, n, status, hs[..n]));
      |a.free| > 0 && a.free[0] == FirstFree(p, n + 1)[n] && a.free[0] in a.rows &&
      BatchSlots(p, n + 1, status, hs) == TakeSlot(a, status, hs[n])
  {
    RefillSlots(p, n, status, hs[..n]);
    TakeSlotsNext(GrowTo(p, n + 1), n, status, hs);
  }

  lemma BatchPtrsNext(t: Pool, n: nat, slots: seq<Pos>, i: nat)
    requires PoolOk(t) && |slots| == n + 1
    ensures var a := Refill(BatchPtrs(t, n, slots[..n], i));
      |a.free| > 0 && a.free[0] == FirstFree(t, n + 1)[n] && a.free[0] in a.rows &&
      BatchPtrs(t, n + 1, slots, i) == TakePtr(a, slots[n], i)
  {
    RefillPtrs(t, n, slots[..n], i);
    TakePtrsNext(GrowTo(t, n + 1), n, slots, i);
  }

  lemma CreateIsRefill(m: Manager, i: nat, status: Cell, p: Pool, t: Pool)
    requires ManagerShape(m) && i < |m.pools| && p == Refill(m.pools[i]) && t == Refill(m.ptrs)
    ensures |p.free| > 0 && |t.free| > 0 && p.free[0] in p.rows
    ensures Create(m, i, status) == Manager(m.pools[i := TakeSlot(p, status, t.free[0])], TakePtr(t, p.free[0], i))
  {
    PrepareReady(m, i);
    var g := Prepare(m, i);
    assert m.pools == m.pools[i := m.pools[i]];
    assert g == Manager(m.pools[i := p], t);
    assert m.pools[i := p][i := TakeSlot(p, status, t.free[0])] == m.pools[i := TakeSlot(p, status, t.free[0])];
  }

  /** A batch of n followed by one creation is a batch of n + 1. */
  lemma BatchThenCreate(m: Manager, i: nat, n: nat, status: Cell)
    requires ManagerShape(m) && i < |m.pools| && ManagerShape(BatchCreate(m, i, n, status))
    ensures BatchCreate(m, i, n + 1, status) == Create(BatchCreate(m, i, n, status), i, status)
  {
    hide TakeSlots, TakePtrs, BatchSlots, BatchPtrs, FirstFree, Create, PoolOk, TakeSlot, TakePtr, Refill;
    var p, t := m.pools[i], m.ptrs;
    var hs, slots := FirstFree(t, n + 1), FirstFree(p, n + 1);
    FirstFreeNext(p, n);
    FirstFreeNext(t, n);
    BatchSlotsNext(p, n, status, hs);
    BatchPtrsNext(t, n, slots, i);
    var bp, bt := BatchSlots(p, n, status, hs[..n]), BatchPtrs(t, n, slots[..n], i);
    var b := BatchCreate(m, i, n, status);
    assert b == Manager(m.pools[i := bp], bt);
    CreateIsRefill(b, i, status, Refill(bp), Refill(bt));
    var sp := BatchSlots(p, n + 1, status, hs);
    assert m.pools[i := bp][i := sp] == m.pools[i := sp];
  }

  lemma BatchOfNone(m: Manager, i: nat, status: Cell)
    requires ManagerShape(m) && i < |m.pools|
    ensures BatchCreate(m, i, 0, status) == m
  {
    var p, t := m.pools[i], m.ptrs;
    var b := BatchCreate(m, i, 0, status);
    assert p.free[0..] == p.free && t.free[0..] == t.free;
    SameMap(SetStatuses(p.rows, [], status), p.rows);
    SameMap(SetStatuses(t.rows, [], ENT_ALIVE), t.rows);
    SameMap(SetCells(t.rows, [], [i % POOL_ID_RANGE]), t.rows);
    assert p.free[..0] == [] && t.free[..0] == [];
    assert b.pools == m.pools;
  }

  /** One call creating `n` entities leaves the same free lists, chunks, links and statuses as `n` single calls. */
  lemma {:induction false} BatchCreateIsCreateN(m: Manager, i: nat, n: nat, status: Cell)
    requires ManagerShape(m) && i < |m.pools|
    ensures BatchCreate(m, i, n, status) == CreateN(m, i, n, status)
  {
    hide BatchCreate, Create, PoolOk;
    if n == 0 {
      BatchOfNone(m, i, status);
    } else {
      BatchCreateIsCreateN(m, i, n - 1, status);
      BatchThenCreate(m, i, n - 1, status);
    }
  }

  lemma {:induction false} BatchCreateOk(m: Manager, i: nat, n: nat, status: Cell)
    requires Ok(m) && i < |m.pools| && i < POOL_ID_RANGE
    ensures Ok(BatchCreate(m, i, n, status)) && |BatchCreate(m, i, n, status).pools| == |m.pools|
  {
    if n == 0 {
      BatchOfNone(m, i, status);
    } else {
      BatchCreateOk(m, i, n - 1, status);
      BatchThenCreate(m, i, n - 1, status);
      CreateOk(BatchCreate(m, i, n - 1, status), i, status);
    }
  }

  // ---------- batch destruction ----------

  /** Returns all of `qs` to the free list, then zeroes them. */
  function ReleaseAll(p: Pool, qs: seq<Pos>): Pool {
    p.(rows := ResetAll(p.rows, p.width, qs), free := p.free + qs)
  }

  function SlotsOf(m: Manager, hs: seq<Pos>): (s: seq<Pos>)
    requires forall h :: h in hs ==> h in m.ptrs.rows
    ensures |s| == |hs|
    ensures forall k :: 0 <= k < |hs| ==> s[k] == SlotOf(m, hs[k])
  {
    seq(|hs|, k requires 0 <= k < |hs| => SlotOf(m, hs[k]))
  }

  /** Destroys every handle of `hs` as an entity of pool `i`. */
  function DestroyFrom(m: Manager, hs: seq<Pos>, i: nat): Manager
    requires i < |m.pools| && forall h :: h in hs ==> h in m.ptrs.rows
  {
    Manager(m.pools[i := ReleaseAll(m.pools[i], SlotsOf(m, hs))], ReleaseAll(m.ptrs, hs))
  }

  /** Releases the slots of `hs[..n]` one by one, each in the pool its handle row names. */
  function ReleaseSlots(m: Manager, hs: seq<Pos>, n: nat): (ps: seq<Pool>)
    requires n <= |hs| && forall h :: h in hs ==> Resolvable(m, h)
    ensures |ps| == |m.pools|
    ensures forall k :: 0 <= k < |ps| ==> ps[k].rows.Keys == m.pools[k].rows.Keys
  {
    if n == 0 then m.pools
    else
      var ps := ReleaseSlots(m, hs, n - 1);
      var h := hs[n - 1];
      assert Resolvable(m, h);
      ps[PoolId(m, h) := Release(ps[PoolId(m, h)], SlotOf(m, h))]
  }

  /** Destroys every handle of `hs`, whatever pool it belongs to. */
  function DestroyEach(m: Manager, hs: seq<Pos>): Manager
    requires forall h :: h in hs ==> Resolvable(m, h)
  {
    Manager(ReleaseSlots(m, hs, |hs|), ReleaseAll(m.ptrs, hs))
  }

  ghost predicate AllLive(m: Manager, hs: seq<Pos>) {
    forall h :: h in hs ==> LiveHandle(m, h)
  }

  /** `r` has exactly the live handles of `m` that are not in `hs`, with unchanged rows. */
  ghost predicate Without(m: Manager, r: Manager, hs: seq<Pos>) {
    && |r.pools| == |m.pools|
    && (forall h :: LiveHandle(r, h) <==> LiveHandle(m, h) && h !in hs)
    && (forall h :: LiveHandle(r, h) ==> LiveHandle(m, h) && r.ptrs.rows[h] == m.ptrs.rows[h])
  }

  lemma DestroyEffect(m: Manager, h: Pos)
    requires Ok(m) && LiveHandle(m, h)
    ensures Resolvable(m, h) && Ok(Destroy(m, h)) && Without(m, Destroy(m, h), [h])
  {
    LiveIsResolvable(m, h);
    DestroyOk(m, h);
    ReleaseOk(m.ptrs, h);
  }

  lemma WithoutTrans(m: Manager, r: Manager, q: Manager, hs: seq<Pos>)
    requires |hs| > 0 && Without(m, r, hs[..|hs| - 1]) && Without(r, q, [hs[|hs| - 1]])
    ensures Without(m, q, hs)
  {
    assert hs == hs[..|hs| - 1] + [hs[|hs| - 1]];
  }

  /** One destruction after the other. */
  ghost function DestroyN(m: Manager, hs: seq<Pos>): (r: Manager)
    requires Ok(m) && Distinct(hs) && AllLive(m, hs)
    ensures Ok(r) && Without(m, r, hs)
    decreases |hs|
  {
    if hs == [] then m
    else
      hide Linked, PoolOk;
      var n := |hs| - 1;
      var r := DestroyN(m, hs[..n]);
      assert hs[n] in hs && hs[n] !in hs[..n];
      DestroyEffect(r, hs[n]);
      WithoutTrans(m, r, Destroy(r, hs[n]), hs);
      Destroy(r, hs[n])
  }

  lemma ResetAllNext(rows: map<Pos, Row>, width: nat, qs: seq<Pos>, n: nat)
    requires n < |qs| && qs[n] in rows
    ensures ResetAll(rows, width, qs[..n + 1]) == ResetAll(rows, width, qs[..n])[qs[n] := ZeroRow(width)]
  {
    assert qs[..n + 1] == qs[..n] + [qs[n]];
    SameMap(ResetAll(rows, width, qs[..n + 1]), ResetAll(rows, width, qs[..n])[qs[n] := ZeroRow(width)]);
  }

  lemma ReleaseNone(p: Pool)
    ensures ReleaseAll(p, []) == p
  {
    SameMap(ResetAll(p.rows, p.width, []), p.rows);
    assert p.free + [] == p.free;
  }

  lemma ReleaseAllNext(p: Pool, qs: seq<Pos>)
    requires |qs| > 0 && qs[|qs| - 1] in p.rows
    ensures ReleaseAll(p, qs) == Release(ReleaseAll(p, qs[..|qs| - 1]), qs[|qs| - 1])
  {
    var n := |qs| - 1;
    ResetAllNext(p.rows, p.width, qs, n);
    assert qs[..n + 1] == qs && qs == qs[..n] + [qs[n]];
    assert p.free + qs == p.free + qs[..n] + [qs[n]];
  }

  lemma DestroyFromNext(m: Manager, hs: seq<Pos>, i: nat)
    requires i < |m.pools| && |hs| > 0 && forall h :: h in hs ==> h in m.ptrs.rows
    requires var h := hs[|hs| - 1]; m.ptrs.rows[h].cells == [i] && SlotOf(m, h) in m.pools[i].rows
    requires hs[|hs| - 1] !in hs[..|hs| - 1]
    ensures Resolvable(DestroyFrom(m, hs[..|hs| - 1], i), hs[|hs| - 1])
    ensures DestroyFrom(m, hs, i) == Destroy(DestroyFrom(m, hs[..|hs| - 1], i), hs[|hs| - 1])
  {
    var n := |hs| - 1;
    assert SlotsOf(m, hs)[..n] == SlotsOf(m, hs[..n]);
    ReleaseAllNext(m.pools[i], SlotsOf(m, hs));
    ReleaseAllNext(m.ptrs, hs);
  }

  /** Destroying one handle is a batch of one, whether or not the handle is live. */
  lemma DestroyFromOne(m: Manager, h: Pos)
    requires Resolvable(m, h)
    ensures DestroyFrom(m, [h], PoolId(m, h)) == Destroy(m, h)
  {
    var i := PoolId(m, h);
    assert m.ptrs.rows[h].cells == [i];
    assert [h][..0] == [] && SlotsOf(m, []) == [];
    ReleaseNone(m.ptrs);
    ReleaseNone(m.pools[i]);
    assert m.pools[i := m.pools[i]] == m.pools;
    DestroyFromNext(m, [h], i);
  }

  /** Destroying a batch by its pool equals destroying its members one by one. */
  lemma {:induction false} DestroyFromIsDestroyN(m: Manager, hs: seq<Pos>, i: nat)
    requires Ok(m) && i < |m.pools| && Distinct(hs) && AllLive(m, hs)
    requires forall h :: h in hs ==> m.ptrs.rows[h].cells == [i]
    ensures DestroyFrom(m, hs, i) == DestroyN(m, hs)
    decreases |hs|
  {
    if hs == [] {
      ReleaseNone(m.ptrs);
      ReleaseNone(m.pools[i]);
      assert SlotsOf(m, []) == [];
      assert m.pools[i := m.pools[i]] == m.pools;
    } else {
      var n := |hs| - 1;
      var h := hs[n];
      hide Linked, PoolOk;
      DestroyFromIsDestroyN(m, hs[..n], i);
      assert h in hs && h !in hs[..n];
      LiveIsResolvable(m, h);
      DestroyFromNext(m, hs, i);
    }
  }

  lemma {:induction false} ReleaseSlotsIsDestroyN(m: Manager, hs: seq<Pos>, n: nat)
    requires Ok(m) && n <= |hs| && Distinct(hs) && AllLive(m, hs)
    requires forall h :: h in hs ==> Resolvable(m, h)
    ensures Distinct(hs[..n]) && AllLive(m, hs[..n])
    ensures ReleaseSlots(m, hs, n) == DestroyN(m, hs[..n]).pools
    ensures ReleaseAll(m.ptrs, hs[..n]) == DestroyN(m, hs[..n]).ptrs
  {
    hide PoolOk;
    assert hs[..n] == [] || hs[..n][..n - 1] == hs[..n - 1];
    if n == 0 {
      ReleaseNone(m.ptrs);
    } else {
      ReleaseSlotsIsDestroyN(m, hs, n - 1);
      assert hs[..n][n - 1] in hs && Resolvable(m, hs[..n][n - 1]);
      ReleaseAllNext(m.ptrs, hs[..n]);
      var r := DestroyN(m, hs[..n - 1]);
      assert hs[n - 1] in hs && hs[n - 1] !in hs[..n - 1];
      LiveIsResolvable(r, hs[n - 1]);
    }
  }

  /** Destroying a mixed batch equals destroying its members one by one. */
  lemma DestroyEachIsDestroyN(m: Manager, hs: seq<Pos>)
    requires Ok(m) && Distinct(hs) && AllLive(m, hs)
    requires forall h :: h in hs ==> Resolvable(m, h)
    ensures DestroyEach(m, hs) == DestroyN(m, hs)
  {
    ReleaseSlotsIsDestroyN(m, hs, |hs|);
    assert hs[..|hs|] == hs;
  }

  lemma AppendedDistinct(a: seq<Pos>, b: seq<Pos>)
    requires Distinct(a + b)
    ensures Distinct(b) && forall q :: q in b ==> q !in a
  {
    forall k, l | 0 <= k < l < |b| ensures b[k] != b[l] {
      assert (a + b)[|a| + k] == b[k] && (a + b)[|a| + l] == b[l];
    }
    forall k, l | 0 <= k < |b| && 0 <= l < |a| ensures b[k] != a[l] {
      assert (a + b)[|a| + k] == b[k] && (a + b)[l] == a[l];
    }
  }

  /**
   A batch destroyed as entities of pool `i` keeps the invariant exactly when its handles are
   pairwise distinct, all live and all of pool `i`.
   */
  lemma DestroyFromOkIff(m: Manager, hs: seq<Pos>, i: nat)
    requires Ok(m) && i < |m.pools| && forall h :: h in hs ==> h in m.ptrs.rows
    ensures Ok(DestroyFrom(m, hs, i)) <==>
      Distinct(hs) && AllLive(m, hs) && forall h :: h in hs ==> m.ptrs.rows[h].cells == [i]
  {
    var r := DestroyFrom(m, hs, i);
    if Distinct(hs) && AllLive(m, hs) && forall h :: h in hs ==> m.ptrs.rows[h].cells == [i] {
      DestroyFromIsDestroyN(m, hs, i);
    } else if Ok(r) {
      AppendedDistinct(m.ptrs.free, hs);
      forall h | h in hs ensures m.ptrs.rows[h].cells == [i] {
        LiveIsResolvable(m, h);
        var k, s := PoolId(m, h), SlotOf(m, h);
        assert HandleOk(m, h);
        assert k != i ==> Live(r.pools[k], s) && !SlotOk(r, k, s);
      }
      assert false;
    }
  }

  /** A mixed batch keeps the invariant exactly when its handles are pairwise distinct and all live. */
  lemma DestroyEachOkIff(m: Manager, hs: seq<Pos>)
    requires Ok(m) && forall h :: h in hs ==> Resolvable(m, h)
    ensures Ok(DestroyEach(m, hs)) <==> Distinct(hs) && AllLive(m, hs)
  {
    if Distinct(hs) && AllLive(m, hs) {
      DestroyEachIsDestroyN(m, hs);
    } else if Ok(DestroyEach(m, hs)) {
      AppendedDistinct(m.ptrs.free, hs);
      assert false;
    }
  }

  /** Destroying a handle that was already destroyed frees the first slot of the first pool. */
  lemma StaleDestroy(m: Manager, h: Pos)
    requires Ok(m) && !LiveHandle(m, h) && Resolvable(m, h)
    ensures PoolId(m, h) == 0 && SlotOf(m, h) == Pos(0, 0)
    ensures !Ok(Destroy(m, h)) && !Live(Destroy(m, h).pools[0], Pos(0, 0))
  {
    assert h in m.ptrs.free;
    assert m.ptrs.rows[h] == ZeroRow(1);
    var r := Destroy(m, h);
    assert r.ptrs.free == m.ptrs.free + [h];
    var k :| 0 <= k < |m.ptrs.free| && m.ptrs.free[k] == h;
    assert r.ptrs.free[k] == r.ptrs.free[|m.ptrs.free|];
    assert !PoolOk(r.ptrs);
    assert r.pools[0].free[|m.pools[0].free|] == Pos(0, 0);
  }
}
