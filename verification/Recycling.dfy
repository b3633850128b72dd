/** The order in which positions are handed out: a new pool's in index order, returned ones after all that were free. */
module Recycling {
  import opened Common
  import opened Pools
  import opened Entities
  import opened EntityBatch

  // ---------- positions never used before ----------

  /** The free list of a pool that has handed out nothing: every position, chunk by chunk, in index order. */
  ghost predicate Untouched(p: Pool) {
    && p.chunkSize > 0 && |p.free| == p.chunks * p.chunkSize
    && forall k :: 0 <= k < |p.free| ==> p.free[k] == Pos(k / p.chunkSize, k % p.chunkSize)
  }

  lemma Split(c: nat, e: nat, size: nat)
    requires e < size
    ensures (c * size + e) / size == c && (c * size + e) % size == e
  {
    var x, q := c * size + e, (c * size + e) / size;
    assert x == q * size + x % size;
    assert (q - c) * size == e - x % size;
    if q > c { ProductBound(q - c, size); }
    if q < c { ProductBound(c - q, size); }
  }

  lemma ProductBound(d: nat, size: nat)
    requires d > 0
    ensures d * size >= size
  {
    ProductNext(d - 1, size);
  }

  lemma AddChunkUntouched(p: Pool)
    requires Untouched(p)
    ensures Untouched(AddChunk(p))
  {
    var r := AddChunk(p);
    ProductNext(p.chunks, p.chunkSize);
    forall k | 0 <= k < |r.free| ensures r.free[k] == Pos(k / p.chunkSize, k % p.chunkSize) {
      if k >= |p.free| {
        var e := k - |p.free|;
        assert r.free[k] == ChunkPositions(p.chunks, p.chunkSize)[e];
        Split(p.chunks, e, p.chunkSize);
      }
    }
  }

  lemma {:induction false} GrowToUntouched(p: Pool, n: nat)
    requires Untouched(p) && PoolOk(p)
    ensures Untouched(GrowTo(p, n)) && GrowTo(p, n).chunkSize == p.chunkSize
    decreases n - |p.free|
  {
    if |p.free| < n {
      AddChunkUntouched(p);
      AddChunkOk(p);
      hide Untouched;
      GrowToUntouched(AddChunk(p), n);
    }
  }

  /** A new pool hands out its positions chunk by chunk and in index order. */
  lemma FirstPositions(name: string, width: nat, size: nat, n: nat, k: nat)
    requires size > 0 && k < n
    ensures PoolOk(EmptyPool(name, width, size))
    ensures FirstFree(EmptyPool(name, width, size), n)[k] == Pos(k / size, k % size)
  {
    var p := EmptyPool(name, width, size);
    assert Untouched(p);
    GrowToUntouched(p, n);
    GrowToOk(p, n);
  }

  // ---------- positions that came back ----------

  lemma EnoughFree(p: Pool, n: nat)
    requires PoolOk(p) && n == |p.free|
    ensures FirstFree(p, n) == p.free
  {
  }

  lemma FreeAfter(m: Manager, hs: seq<Pos>, i: nat)
    requires i < |m.pools| && forall h :: h in hs ==> h in m.ptrs.rows
    ensures var r := DestroyFrom(m, hs, i);
      && |r.pools| == |m.pools| && r.ptrs.free == m.ptrs.free + hs
      && r.pools[i].free == m.pools[i].free + SlotsOf(m, hs)
  {
    hide ResetAll;
  }

  lemma ShapeAfter(m: Manager, hs: seq<Pos>, i: nat)
    requires Ok(m) && i < |m.pools| && Distinct(hs) && AllLive(m, hs)
    requires forall h :: h in hs ==> m.ptrs.rows[h].cells == [i]
    ensures (forall h :: h in hs ==> h in m.ptrs.rows) && ManagerShape(DestroyFrom(m, hs, i))
  {
    DestroyFromIsDestroyN(m, hs, i);
    hide DestroyFrom, DestroyN, Linked, PoolOk;
  }

  /**
   First in, first out: after a batch of entities of one pool was destroyed, all handles and slots that were free
   before are handed out first, and then those of the batch in the order it named them.
   */
  lemma ReturnedInOrder(m: Manager, hs: seq<Pos>, i: nat)
    requires Ok(m) && i < |m.pools| && Distinct(hs) && AllLive(m, hs)
    requires forall h :: h in hs ==> m.ptrs.rows[h].cells == [i]
    ensures var r := DestroyFrom(m, hs, i);
      && ManagerShape(r) && |r.pools| == |m.pools|
      && FirstFree(r.ptrs, |m.ptrs.free| + |hs|) == m.ptrs.free + hs
      && FirstFree(r.pools[i], |m.pools[i].free| + |hs|) == m.pools[i].free + SlotsOf(m, hs)
  {
    ShapeAfter(m, hs, i);
    FreeAfter(m, hs, i);
    var r := DestroyFrom(m, hs, i);
    hide DestroyFrom, Linked, PoolOk, FirstFree, AllLive;
    EnoughFree(r.ptrs, |m.ptrs.free| + |hs|);
    EnoughFree(r.pools[i], |m.pools[i].free| + |hs|);
  }
}
