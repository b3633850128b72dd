/**
 The value of one archetype pool: rows of raw component cells addressed by
 (chunk, element), and the first-in first-out list of free positions.
 */
module Pools {
  import opened Common

  /** A position in a chunked pool. */
  datatype Pos = Pos(chunk: nat, elem: nat)

  /** Raw bits of one stored scalar; zero is the bit pattern a fresh or reset cell holds. */
  type Cell = nat

  /** All cells of one position: the two base components, then the archetype's own cells. */
  datatype Row = Row(status: Cell, link: Pos, cells: seq<Cell>)

  datatype Pool = Pool(name: string, width: nat, chunkSize: nat, chunks: nat, rows: map<Pos, Row>, free: seq<Pos>)

  function ZeroRow(width: nat): (r: Row)
    ensures |r.cells| == width
  {
    Row(0, Pos(0, 0), seq(width, _ => 0))
  }

  function EmptyPool(name: string, width: nat, chunkSize: nat): Pool {
    Pool(name, width, chunkSize, 0, map[], [])
  }

  /** The positions of chunk `c`, in index order. */
  function ChunkPositions(c: nat, size: nat): (s: seq<Pos>)
    ensures |s| == size
    ensures forall e :: 0 <= e < size ==> s[e] == Pos(c, e)
  {
    seq(size, e requires 0 <= e => Pos(c, e))
  }

  function FreshRows(c: nat, size: nat, width: nat): map<Pos, Row> {
    map q | q in ChunkPositions(c, size) :: ZeroRow(width)
  }

  lemma FreshRowsAt(c: nat, size: nat, width: nat)
    ensures forall q: Pos :: q in FreshRows(c, size, width) <==> q.chunk == c && q.elem < size
    ensures forall q :: q in FreshRows(c, size, width) ==> FreshRows(c, size, width)[q] == ZeroRow(width)
  {
    var s := ChunkPositions(c, size);
    assert forall q: Pos :: q.chunk == c && q.elem < size ==> s[q.elem] == q;
  }

  /** Appends a zeroed chunk; its positions join the end of the free list. */
  function AddChunk(p: Pool): (r: Pool) {
    p.(chunks := p.chunks + 1,
       rows := p.rows + FreshRows(p.chunks, p.chunkSize, p.width),
       free := p.free + ChunkPositions(p.chunks, p.chunkSize))
  }

  /** An allocated position: stored, and not on the free list. */
  predicate Live(p: Pool, q: Pos) {
    q in p.rows && q !in p.free
  }

  predicate InShape(p: Pool, q: Pos) {
    q.chunk < p.chunks && q.elem < p.chunkSize
  }

  /** Shape, free-list and zeroing invariants of one pool. */
  ghost predicate PoolOk(p: Pool) {
    && p.chunkSize > 0
    && (forall q :: q in p.rows <==> InShape(p, q))
    && (forall q :: q in p.rows ==> |p.rows[q].cells| == p.width)
    && Distinct(p.free)
    && (forall q :: q in p.free ==> q in p.rows)
    && (forall q :: q in p.free ==> p.rows[q] == ZeroRow(p.width))
  }

  /** Positions handed out: everything stored that is not free. */
  function UsedSize(p: Pool): int {
    |p.rows| - |p.free|
  }

  function LiveSet(p: Pool): set<Pos> {
    set q | q in p.rows && q !in p.free
  }

  /** addChunk touches no stored position and makes every new one free and zeroed. */
  lemma AddChunkOk(p: Pool)
    requires PoolOk(p)
    ensures PoolOk(AddChunk(p))
    ensures forall q :: q in p.rows ==> q in AddChunk(p).rows && AddChunk(p).rows[q] == p.rows[q]
    ensures forall q :: Live(AddChunk(p), q) <==> Live(p, q)
    ensures |AddChunk(p).free| == |p.free| + p.chunkSize
  {
    var r := AddChunk(p);
    var added := ChunkPositions(p.chunks, p.chunkSize);
    FreshRowsAt(p.chunks, p.chunkSize, p.width);
    hide FreshRows;
    assert forall q :: q in added ==> q in FreshRows(p.chunks, p.chunkSize, p.width);
    assert forall q: Pos :: q.chunk == p.chunks && q.elem < p.chunkSize ==> added[q.elem] == q;
    assert forall q :: q in p.free ==> q !in added;
    assert forall q :: q in r.rows <==> InShape(r, q);
  }

  predicate InNextChunk(p: Pool, q: Pos) {
    q.chunk == p.chunks && q.elem < p.chunkSize
  }

  lemma AddChunkAt(p: Pool, q: Pos)
    ensures q in AddChunk(p).rows <==> q in p.rows || InNextChunk(p, q)
    ensures InNextChunk(p, q) ==> AddChunk(p).rows[q] == ZeroRow(p.width)
    ensures q in p.rows && !InNextChunk(p, q) ==> AddChunk(p).rows[q] == p.rows[q]
  {
    FreshRowsAt(p.chunks, p.chunkSize, p.width);
  }

  /** getUsedSize counts exactly the live positions. */
  lemma UsedSizeCountsLive(p: Pool)
    requires PoolOk(p)
    ensures UsedSize(p) == |LiveSet(p)|
  {
    var f := set q | q in p.free;
    DistinctCard(p.free);
    assert LiveSet(p) == p.rows.Keys - f;
    assert f <= p.rows.Keys;
  }

  lemma {:induction false} DistinctCard<T>(s: seq<T>)
    requires Distinct(s)
    ensures |set x | x in s| == |s|
  {
    if |s| == 0 {
    } else {
      var t := s[..|s| - 1];
      DistinctCard(t);
      assert s == t + [s[|s| - 1]];
      assert (set x | x in s) == (set x | x in t) + {s[|s| - 1]};
    }
  }
}
