/**
 Chunked column storage and archetype pools as objects updated in place. Each scalar of each
 component has its own column; an archetype pool keeps its columns in lockstep and a free list
 beside them. `State` gives the pool value the other modules reason about.
 */
module Storage {
  import opened Common
  import opened Pools
  import opened EntityBatch

  /** The cells of one column, chunk by chunk. */
  type Column = seq<seq<Cell>>

  predicate ColumnShape(c: Column, chunks: nat, size: nat) {
    |c| == chunks && forall k :: 0 <= k < chunks ==> |c[k]| == size
  }

  /** All columns have the same number of chunks, of the same size. */
  predicate Lockstep(cols: seq<Column>, chunks: nat, size: nat) {
    |cols| >= 3 && forall k :: 0 <= k < |cols| ==> ColumnShape(cols[k], chunks, size)
  }

  predicate Inside(q: Pos, chunks: nat, size: nat) {
    q.chunk < chunks && q.elem < size
  }

  function SetCell(c: Column, q: Pos, v: Cell): Column
    requires q.chunk < |c| && q.elem < |c[q.chunk]|
  {
    var chunk: seq<Cell> := c[q.chunk][q.elem := v];
    c[q.chunk := chunk]
  }

  /** The row stored at one position: status, link, then the remaining cells in column order. */
  function RowAt(cols: seq<Column>, chunks: nat, size: nat, q: Pos): Row
    requires Lockstep(cols, chunks, size) && Inside(q, chunks, size)
  {
    Row(cols[0][q.chunk][q.elem], Pos(cols[1][q.chunk][q.elem], cols[2][q.chunk][q.elem]),
        seq(|cols| - 3, k requires 0 <= k < |cols| - 3 => cols[k + 3][q.chunk][q.elem]))
  }

  function AllPositions(chunks: nat, size: nat): (s: set<Pos>)
    ensures forall q :: q in s <==> Inside(q, chunks, size)
  {
    set c: nat, e: nat | c < chunks && e < size :: Pos(c, e)
  }

  function RowsOf(cols: seq<Column>, chunks: nat, size: nat): (rows: map<Pos, Row>)
    requires Lockstep(cols, chunks, size)
    ensures forall q :: q in rows <==> Inside(q, chunks, size)
  {
    map q | q in AllPositions(chunks, size) :: RowAt(cols, chunks, size, q)
  }

  /** Row with the cell of column `k` replaced. */
  function WithCell(r: Row, k: nat, v: Cell): Row
    requires k < |r.cells| + 3
  {
    if k == 0 then r.(status := v)
    else if k == 1 then r.(link := Pos(v, r.link.elem))
    else if k == 2 then r.(link := Pos(r.link.chunk, v))
    else r.(cells := r.cells[k - 3 := v])
  }

  /** Writing one cell changes one row, in one place. */
  lemma SetCellRow(cols: seq<Column>, chunks: nat, size: nat, k: nat, q: Pos, v: Cell)
    requires Lockstep(cols, chunks, size) && Inside(q, chunks, size) && k < |cols|
    ensures Lockstep(cols[k := SetCell(cols[k], q, v)], chunks, size)
    ensures |RowAt(cols, chunks, size, q).cells| == |cols| - 3
    ensures RowsOf(cols, chunks, size)[q] == RowAt(cols, chunks, size, q)
    ensures RowsOf(cols[k := SetCell(cols[k], q, v)], chunks, size) ==
      RowsOf(cols, chunks, size)[q := WithCell(RowAt(cols, chunks, size, q), k, v)]
  {
    var r := cols[k := SetCell(cols[k], q, v)];
    forall p | Inside(p, chunks, size)
      ensures RowAt(r, chunks, size, p) ==
        if p == q then WithCell(RowAt(cols, chunks, size, q), k, v) else RowAt(cols, chunks, size, p)
    {
      var x, y := RowAt(r, chunks, size, p), RowAt(cols, chunks, size, p);
      if p == q {
        assert x.cells == WithCell(y, k, v).cells;
      } else {
        assert x.cells == y.cells;
      }
    }
    SameMap(RowsOf(r, chunks, size), RowsOf(cols, chunks, size)[q := WithCell(RowAt(cols, chunks, size, q), k, v)]);
  }

  function ZeroChunk(size: nat): (c: seq<Cell>)
    ensures |c| == size && forall k :: 0 <= k < size ==> c[k] == 0
  {
    seq(size, _ => 0)
  }

  /** Adding a zeroed chunk to every column adds exactly the zeroed rows of that chunk. */
  lemma AddChunkRows(cols: seq<Column>, cols': seq<Column>, chunks: nat, size: nat)
    requires Lockstep(cols, chunks, size) && |cols'| == |cols|
    requires forall k :: 0 <= k < |cols| ==> cols'[k] == cols[k] + [ZeroChunk(size)]
    ensures Lockstep(cols', chunks + 1, size)
    ensures RowsOf(cols', chunks + 1, size) == RowsOf(cols, chunks, size) + FreshRows(chunks, size, |cols| - 3)
  {
    FreshRowsAt(chunks, size, |cols| - 3);
    hide FreshRows;
    var l, r := RowsOf(cols', chunks + 1, size), RowsOf(cols, chunks, size) + FreshRows(chunks, size, |cols| - 3);
    forall q | Inside(q, chunks + 1, size) ensures q in r && l[q] == r[q] {
      AddChunkRowAt(cols, cols', chunks, size, q);
    }
    SameMap(l, r);
  }

  lemma AddChunkRowAt(cols: seq<Column>, cols': seq<Column>, chunks: nat, size: nat, q: Pos)
    requires Lockstep(cols, chunks, size) && |cols'| == |cols| && Lockstep(cols', chunks + 1, size)
    requires forall k :: 0 <= k < |cols| ==> cols'[k] == cols[k] + [ZeroChunk(size)]
    requires Inside(q, chunks + 1, size)
    ensures RowAt(cols', chunks + 1, size, q) ==
      if q.chunk < chunks then RowAt(cols, chunks, size, q) else ZeroRow(|cols| - 3)
  {
    if q.chunk < chunks {
      assert RowAt(cols', chunks + 1, size, q).cells == RowAt(cols, chunks, size, q).cells;
    } else {
      assert RowAt(cols', chunks + 1, size, q).cells == ZeroRow(|cols| - 3).cells;
    }
  }

  /** `c'` is `c` with `v` at every position of `qs`. */
  predicate Scattered(c: Column, c': Column, qs: seq<Pos>, v: Cell, size: nat) {
    && ColumnShape(c, |c|, size) && ColumnShape(c', |c|, size)
    && forall k, e :: 0 <= k < |c| && 0 <= e < size ==> c'[k][e] == if Pos(k, e) in qs then v else c[k][e]
  }

  /** Zeroing every column at a set of positions zeroes exactly those rows. */
  lemma ResetRows(cols: seq<Column>, cols': seq<Column>, chunks: nat, size: nat, qs: seq<Pos>)
    requires Lockstep(cols, chunks, size) && |cols'| == |cols|
    requires forall k :: 0 <= k < |cols| ==> Scattered(cols[k], cols'[k], qs, 0, size)
    ensures Lockstep(cols', chunks, size)
    ensures RowsOf(cols', chunks, size) == ResetAll(RowsOf(cols, chunks, size), |cols| - 3, qs)
  {
    forall q | Inside(q, chunks, size)
      ensures RowAt(cols', chunks, size, q) ==
        if q in qs then ZeroRow(|cols| - 3) else RowAt(cols, chunks, size, q)
    {
      assert q == Pos(q.chunk, q.elem);
      assert forall k :: 0 <= k < |cols| ==>
        cols'[k][q.chunk][q.elem] == if q in qs then 0 else cols[k][q.chunk][q.elem];
      assert RowAt(cols', chunks, size, q).cells ==
        if q in qs then ZeroRow(|cols| - 3).cells else RowAt(cols, chunks, size, q).cells;
    }
    SameMap(RowsOf(cols', chunks, size), ResetAll(RowsOf(cols, chunks, size), |cols| - 3, qs));
  }

  lemma SetStatusesNext(rows: map<Pos, Row>, qs: seq<Pos>, n: nat, status: Cell)
    requires n < |qs| && qs[n] in rows
    ensures SetStatuses(rows, qs[..n + 1], status) ==
      SetStatuses(rows, qs[..n], status)[qs[n] := SetStatuses(rows, qs[..n], status)[qs[n]].(status := status)]
  {
    assert qs[..n + 1] == qs[..n] + [qs[n]];
    SameMap(SetStatuses(rows, qs[..n + 1], status),
      SetStatuses(rows, qs[..n], status)[qs[n] := SetStatuses(rows, qs[..n], status)[qs[n]].(status := status)]);
  }

  lemma SetCellsNext(rows: map<Pos, Row>, qs: seq<Pos>, n: nat, cells: seq<Cell>)
    requires n < |qs| && qs[n] in rows
    ensures SetCells(rows, qs[..n + 1], cells) ==
      SetCells(rows, qs[..n], cells)[qs[n] := SetCells(rows, qs[..n], cells)[qs[n]].(cells := cells)]
  {
    assert qs[..n + 1] == qs[..n] + [qs[n]];
    SameMap(SetCells(rows, qs[..n + 1], cells),
      SetCells(rows, qs[..n], cells)[qs[n] := SetCells(rows, qs[..n], cells)[qs[n]].(cells := cells)]);
  }

  lemma NothingSet(rows: map<Pos, Row>, status: Cell, cells: seq<Cell>)
    ensures SetStatuses(rows, [], status) == rows == SetCells(rows, [], cells)
  {
    SameMap(SetStatuses(rows, [], status), rows);
    SameMap(SetCells(rows, [], cells), rows);
  }

  function Mixed(before: seq<Cell>, after: seq<Cell>, k: nat): seq<Cell>
    requires k <= |after| == |before|
  {
    after[..k] + before[k..]
  }

  lemma MixedNext(before: seq<Cell>, after: seq<Cell>, k: nat)
    requires k < |after| == |before|
    ensures |Mixed(before, after, k)| == |after|
    ensures Mixed(before, after, k)[k := after[k]] == Mixed(before, after, k + 1)
  {
  }

  lemma MixedEnds(before: seq<Cell>, after: seq<Cell>)
    requires |after| == |before|
    ensures Mixed(before, after, 0) == before && Mixed(before, after, |after|) == after
  {
  }

  /**
   One archetype pool. Its component pools are members, each a vector of chunks per scalar,
   so the columns live inside the object and every method updates them in place.
   */
  class ArchetypePool {
    const name: string
    const chunkSize: nat
    const width: nat
    var columns: seq<Column>
    var freePos: seq<Pos>

    constructor (name: string, chunkSize: nat, width: nat)
      requires chunkSize > 0
      ensures Valid() && State() == EmptyPool(name, width, chunkSize)
    {
      this.name := name;
      this.chunkSize := chunkSize;
      this.width := width;
      columns := seq(width + 3, _ => []);
      freePos := [];
      new;
      assert forall k :: 0 <= k < |columns| ==> columns[k] == [];
      assert RowsOf(columns, 0, chunkSize) == map[];
    }

    ghost predicate Valid()
      reads this
    {
      chunkSize > 0 && |columns| == width + 3 && Lockstep(columns, |columns[0]|, chunkSize)
    }

    ghost function State(): Pool
      reads this
      requires Valid()
    {
      Pool(name, width, chunkSize, |columns[0]|, RowsOf(columns, |columns[0]|, chunkSize), freePos)
    }

    /** Adds a zeroed chunk to every column and its positions to the free list. */
    method AddChunk()
      requires Valid()
      modifies this
      ensures Valid() && State() == Pools.AddChunk(old(State()))
    {
      hide RowsOf, FreshRows;
      var count := |columns[0]|;
      ghost var before := columns;
      for k := 0 to |columns|
        invariant |columns| == |before| && freePos == old(freePos)
        invariant forall a :: 0 <= a < k ==> columns[a] == before[a] + [ZeroChunk(chunkSize)]
        invariant forall a :: k <= a < |columns| ==> columns[a] == before[a]
      {
        columns := columns[k := columns[k] + [ZeroChunk(chunkSize)]];
      }
      AddChunkRows(before, columns, count, chunkSize);
      ghost var after := columns;
      for e := 0 to chunkSize
        invariant columns == after
        invariant freePos == old(freePos) + ChunkPositions(count, chunkSize)[..e]
      {
        freePos := freePos + [Pos(count, e)];
        assert ChunkPositions(count, chunkSize)[..e + 1] == ChunkPositions(count, chunkSize)[..e] + [Pos(count, e)];
      }
      assert ChunkPositions(count, chunkSize)[..chunkSize] == ChunkPositions(count, chunkSize);
    }

    /** Writes one cell of one row. */
    method SetCellAt(k: nat, q: Pos, v: Cell)
      requires Valid() && k < |columns| && q in State().rows
      modifies this`columns
      ensures Valid() && |old(State()).rows[q].cells| == width
      ensures State() == old(State()).(rows := old(State()).rows[q := WithCell(old(State()).rows[q], k, v)])
    {
      hide RowsOf;
      SetCellRow(columns, |columns[0]|, chunkSize, k, q, v);
      var chunk: seq<Cell> := columns[k][q.chunk][q.elem := v];
      columns := columns[k := columns[k][q.chunk := chunk]];
    }

    method SetLinkAt(q: Pos, link: Pos)
      requires Valid() && q in State().rows
      modifies this`columns
      ensures Valid()
      ensures State() == old(State()).(rows := old(State()).rows[q := old(State()).rows[q].(link := link)])
    {
      hide RowsOf, Lockstep;
      SetCellAt(1, q, link.chunk);
      SetCellAt(2, q, link.elem);
    }

    method LinkAt(q: Pos) returns (link: Pos)
      requires Valid() && q in State().rows
      ensures link == State().rows[q].link
    {
      link := Pos(columns[1][q.chunk][q.elem], columns[2][q.chunk][q.elem]);
    }

    method CellAt(k: nat, q: Pos) returns (v: Cell)
      requires Valid() && q in State().rows && k < width
      ensures |State().rows[q].cells| == width && v == State().rows[q].cells[k]
    {
      v := columns[3 + k][q.chunk][q.elem];
    }

    method ReadRow(q: Pos) returns (row: Row)
      requires Valid() && q in State().rows
      ensures row == State().rows[q] && |row.cells| == width
    {
      row := RowAt(columns, |columns[0]|, chunkSize, q);
    }

    /** Overwrites the status and all further cells of one row. */
    method WriteRow(q: Pos, status: Cell, cells: seq<Cell>)
      requires Valid() && q in State().rows && |cells| == width
      modifies this`columns
      ensures Valid()
      ensures State() == old(State()).(rows := old(State()).rows[q := old(State()).rows[q].(status := status,
        cells := cells)])
    {
      hide RowsOf, Lockstep, Mixed;
      ghost var p0 := State();
      ghost var base := p0.rows[q].(status := status);
      SetCellAt(0, q, status);
      MixedEnds(base.cells, cells);
      for k := 0 to |cells|
        invariant Valid() && State() == p0.(rows := p0.rows[q := base.(cells := Mixed(base.cells, cells, k))])
      {
        MixedNext(base.cells, cells, k);
        SetCellAt(3 + k, q, cells[k]);
      }
    }

    /** Writes one status at many positions. */
    method SetStatusAt(qs: seq<Pos>, status: Cell)
      requires Valid() && forall q :: q in qs ==> q in State().rows
      modifies this`columns
      ensures Valid()
      ensures State() == old(State()).(rows := SetStatuses(old(State()).rows, qs, status))
    {
      hide RowsOf, Lockstep, SetStatuses;
      ghost var p0 := State();
      NothingSet(p0.rows, status, []);
      for k := 0 to |qs|
        invariant Valid() && State() == p0.(rows := SetStatuses(p0.rows, qs[..k], status))
      {
        assert qs[k] in qs;
        SetStatusesNext(p0.rows, qs, k, status);
        SetCellAt(0, qs[k], status);
      }
      assert qs[..|qs|] == qs;
    }

    /** Writes one link at each position. */
    method SetLinksAt(qs: seq<Pos>, links: seq<Pos>)
      requires Valid() && |qs| == |links| && forall q :: q in qs ==> q in State().rows
      modifies this`columns
      ensures Valid()
      ensures State() == old(State()).(rows := SetLinks(old(State()).rows, qs, links))
    {
      hide RowsOf, Lockstep;
      ghost var p0 := State();
      for k := 0 to |qs|
        invariant Valid() && State() == p0.(rows := SetLinks(p0.rows, qs[..k], links[..k]))
      {
        assert qs[k] in qs;
        assert qs[..k + 1][..k] == qs[..k] && links[..k + 1][..k] == links[..k];
        SetLinkAt(qs[k], links[k]);
      }
      assert qs[..|qs|] == qs && links[..|qs|] == links;
    }

    /** Writes one pool id at many positions of a pool with a single extra cell. */
    method SetIdAt(qs: seq<Pos>, id: Cell)
      requires Valid() && width == 1 && forall q :: q in qs ==> q in State().rows
      modifies this`columns
      ensures Valid()
      ensures State() == old(State()).(rows := SetCells(old(State()).rows, qs, [id]))
    {
      hide RowsOf, Lockstep, SetCells;
      ghost var p0 := State();
      NothingSet(p0.rows, 0, [id]);
      for k := 0 to |qs|
        invariant Valid() && State() == p0.(rows := SetCells(p0.rows, qs[..k], [id]))
      {
        assert qs[k] in qs;
        SetCellsNext(p0.rows, qs, k, [id]);
        ghost var r0 := State().rows[qs[k]];
        SetCellAt(3, qs[k], id);
        assert WithCell(r0, 3, id) == r0.(cells := [id]) by { assert r0.cells[0 := id] == [id]; }
      }
      assert qs[..|qs|] == qs;
    }

    /** Scatters one value over many positions of one column. */
    method SetValueAtIndexes(k: nat, qs: seq<Pos>, v: Cell)
      requires k < |columns| && ColumnShape(columns[k], |columns[k]|, chunkSize)
      requires forall q :: q in qs ==> Inside(q, |columns[k]|, chunkSize)
      modifies this`columns
      ensures |columns| == |old(columns)| && Scattered(old(columns)[k], columns[k], qs, v, chunkSize)
      ensures forall a :: 0 <= a < |columns| && a != k ==> columns[a] == old(columns)[a]
    {
      for j := 0 to |qs|
        invariant |columns| == |old(columns)| && Scattered(old(columns)[k], columns[k], qs[..j], v, chunkSize)
        invariant forall a :: 0 <= a < |columns| && a != k ==> columns[a] == old(columns)[a]
      {
        var q := qs[j];
        assert q in qs;
        assert qs[..j + 1] == qs[..j] + [q];
        var chunk: seq<Cell> := columns[k][q.chunk][q.elem := v];
        columns := columns[k := columns[k][q.chunk := chunk]];
      }
      assert qs[..|qs|] == qs;
    }

    /** Zeroes every column at the given positions, column by column. */
    method ResetEntityAtIndexes(qs: seq<Pos>)
      requires Valid() && forall q :: q in qs ==> q in State().rows
      modifies this`columns
      ensures Valid()
      ensures State() == old(State()).(rows := ResetAll(old(State()).rows, width, qs))
    {
      hide RowsOf, Scattered;
      ghost var before := columns;
      ghost var n := |columns[0]|;
      for k := 0 to |columns|
        invariant |columns| == |before|
        invariant forall a :: k <= a < |columns| ==> columns[a] == before[a]
        invariant forall a :: 0 <= a < k ==> Scattered(before[a], columns[a], qs, 0, chunkSize)
      {
        assert ColumnShape(before[k], n, chunkSize);
        SetValueAtIndexes(k, qs, 0);
      }
      ResetRows(before, columns, n, chunkSize, qs);
    }

    method DeleteEverything()
      requires Valid()
      modifies this
      ensures Valid() && State() == EmptyPool(name, width, chunkSize)
    {
      for k := 0 to |columns|
        invariant |columns| == width + 3
        invariant forall a :: 0 <= a < k ==> columns[a] == []
      {
        columns := columns[k := []];
      }
      freePos := [];
      assert RowsOf(columns, 0, chunkSize) == map[];
    }

    /** Elements in all chunks of the first column, less the free positions. */
    method GetUsedSize() returns (n: int)
      requires Valid() && PoolOk(State())
      ensures n == |LiveSet(State())|
    {
      var total: nat := 0;
      for k := 0 to |columns[0]|
        invariant total == k * chunkSize
      {
        ProductNext(k, chunkSize);
        assert ColumnShape(columns[0], |columns[0]|, chunkSize);
        total := total + |columns[0][k]|;
      }
      n := total - |freePos|;
      UsedSizeCountsLive(State());
      RowCount(|columns[0]|, chunkSize);
      assert State().rows.Keys == AllPositions(|columns[0]|, chunkSize);
    }
  }

  lemma PositionsNext(chunks: nat, size: nat)
    ensures exists t ::
      |t| == size && AllPositions(chunks + 1, size) == AllPositions(chunks, size) + t && AllPositions(chunks, size) !! t
  {
    hide AllPositions;
    var s := ChunkPositions(chunks, size);
    var t := set q | q in s;
    DistinctCard(s);
    assert forall q: Pos :: q.chunk == chunks && q.elem < size ==> s[q.elem] == q;
    assert AllPositions(chunks + 1, size) == AllPositions(chunks, size) + t;
  }

  lemma {:induction false} RowCount(chunks: nat, size: nat)
    ensures |AllPositions(chunks, size)| == chunks * size
  {
    if chunks == 0 {
      assert AllPositions(0, size) == {};
    } else {
      hide AllPositions;
      RowCount(chunks - 1, size);
      PositionsNext(chunks - 1, size);
      ProductNext(chunks - 1, size);
    }
  }
}
