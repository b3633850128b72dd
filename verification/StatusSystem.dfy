/**
 Systems that visit the rows of matched pools in pool, chunk, index order, and the status filter that
 keeps them away from free slots.
 */
module StatusSystem {
  import opened Common
  import opened Loops
  import opened Pools
  import opened Entities
  import opened Storage

  function OrderFn(size: nat): nat -> seq<Pos> {
    (c: nat) => ChunkPositions(c, size)
  }

  /** Every position of a pool, in the order the loops visit them. */
  function Order(chunks: nat, size: nat): seq<Pos> {
    Flat(chunks, OrderFn(size))
  }

  /** The positions among `qs` whose row has the status. */
  function WithStatus(rows: map<Pos, Row>, qs: seq<Pos>, status: Cell): seq<Pos>
    decreases |qs|
  {
    if qs == [] then []
    else
      var n := |qs| - 1;
      WithStatus(rows, qs[..n], status) + if qs[n] in rows && rows[qs[n]].status == status then [qs[n]] else []
  }

  /** The calls one run makes on a pool. */
  function CallsIn(p: Pool, status: Cell): seq<Pos> {
    WithStatus(p.rows, Order(p.chunks, p.chunkSize), status)
  }

  /** A system's operation: it sees one row and may change its status and its cells. */
  ghost predicate Local(op: Row -> Row) {
    forall r :: op(r).link == r.link && |op(r).cells| == |r.cells|
  }

  /** The operation applied to those of `qs` that have the status. */
  function Operated(rows: map<Pos, Row>, qs: seq<Pos>, status: Cell, op: Row -> Row): map<Pos, Row> {
    map q | q in rows :: if q in qs && rows[q].status == status then op(rows[q]) else rows[q]
  }

  lemma OrderMember(chunks: nat, size: nat, q: Pos)
    ensures q in Order(chunks, size) <==> q.chunk < chunks && q.elem < size
  {
    FlatMember(chunks, OrderFn(size), q);
    if q.chunk < chunks && q.elem < size {
      assert OrderFn(size)(q.chunk)[q.elem] == q;
    }
  }

  lemma OrderDistinct(chunks: nat, size: nat)
    ensures Distinct(Order(chunks, size))
  {
    var f := OrderFn(size);
    forall c: nat, d: nat | c < d ensures Apart(f(c), f(d)) { }
    FlatDistinct(chunks, f);
  }

  lemma {:induction false} WithStatusMember(rows: map<Pos, Row>, qs: seq<Pos>, status: Cell, q: Pos)
    ensures q in WithStatus(rows, qs, status) <==> q in qs && q in rows && rows[q].status == status
    decreases |qs|
  {
    if qs == [] {
    } else {
      var n := |qs| - 1;
      WithStatusMember(rows, qs[..n], status, q);
      assert qs == qs[..n] + [qs[n]];
    }
  }

  lemma {:induction false} WithStatusDistinct(rows: map<Pos, Row>, qs: seq<Pos>, status: Cell)
    requires Distinct(qs)
    ensures Distinct(WithStatus(rows, qs, status))
    decreases |qs|
  {
    if qs == [] {
    } else {
      var n := |qs| - 1;
      WithStatusDistinct(rows, qs[..n], status);
      WithStatusMember(rows, qs[..n], status, qs[n]);
    }
  }

  /**
   For a status other than none, a run calls its operation once for each live slot with it and for no other
   position.
   */
  lemma CallsAreLiving(p: Pool, status: Cell)
    requires PoolOk(p) && status != ENT_NONE
    ensures Distinct(CallsIn(p, status))
    ensures forall q :: q in CallsIn(p, status) <==> Live(p, q) && p.rows[q].status == status
  {
    OrderDistinct(p.chunks, p.chunkSize);
    WithStatusDistinct(p.rows, Order(p.chunks, p.chunkSize), status);
    forall q ensures q in CallsIn(p, status) <==> Live(p, q) && p.rows[q].status == status {
      WithStatusMember(p.rows, Order(p.chunks, p.chunkSize), status, q);
      OrderMember(p.chunks, p.chunkSize, q);
      if q in p.free { assert p.rows[q].status == ENT_NONE; }
    }
  }

  /** Over all registered pools: the calls are exactly the slots of the live handles whose entity has the status. */
  lemma CallsAreHandles(m: Manager, i: nat, status: Cell, q: Pos)
    requires Ok(m) && i < |m.pools| && status != ENT_NONE
    ensures q in CallsIn(m.pools[i], status) <==>
      exists h :: LiveHandle(m, h) && Resolvable(m, h) && PoolId(m, h) == i && SlotOf(m, h) == q &&
        m.pools[i].rows[q].status == status
  {
    CallsAreLiving(m.pools[i], status);
    if q in CallsIn(m.pools[i], status) {
      assert SlotOk(m, i, q);
      var h := m.pools[i].rows[q].link;
      LiveIsResolvable(m, h);
      assert LiveHandle(m, h) && PoolId(m, h) == i && SlotOf(m, h) == q;
    }
    if h :|
      LiveHandle(m, h) && Resolvable(m, h) && PoolId(m, h) == i && SlotOf(m, h) == q
      && m.pools[i].rows[q].status == status {
      LiveIsResolvable(m, h);
    }
  }

  /** A run for the status none stays away from free slots exactly when there are none. */
  lemma NoneSeesFreeIff(p: Pool)
    requires PoolOk(p)
    ensures (forall q :: q in CallsIn(p, ENT_NONE) ==> Live(p, q)) <==> p.free == []
  {
    forall q ensures q in CallsIn(p, ENT_NONE) <==> q in p.rows && p.rows[q].status == ENT_NONE {
      WithStatusMember(p.rows, Order(p.chunks, p.chunkSize), ENT_NONE, q);
      OrderMember(p.chunks, p.chunkSize, q);
    }
    if p.free != [] {
      assert p.free[0] in p.free && p.free[0] in CallsIn(p, ENT_NONE);
    }
  }

  lemma OperatedNext(rows: map<Pos, Row>, qs: seq<Pos>, q: Pos, status: Cell, op: Row -> Row)
    requires q in rows && q !in qs
    ensures Operated(rows, qs, status, op)[q] == rows[q]
    ensures Operated(rows, qs + [q], status, op) ==
      if rows[q].status == status then Operated(rows, qs, status, op)[q := op(rows[q])]
      else Operated(rows, qs, status, op)
  {
    var l, a := Operated(rows, qs + [q], status, op), Operated(rows, qs, status, op);
    var r := if rows[q].status == status then a[q := op(rows[q])] else a;
    forall x | x in rows ensures l[x] == r[x] {
      assert x in qs + [q] <==> x in qs || x == q;
    }
  }

  lemma WithStatusNext(rows: map<Pos, Row>, qs: seq<Pos>, q: Pos, status: Cell)
    requires q in rows
    ensures WithStatus(rows, qs + [q], status) == WithStatus(rows, qs, status) + if rows[q].status == status then
      [q] else []
  {
    assert (qs + [q])[..|qs|] == qs;
  }

  /** One visit: the row's status is read, and the operation is applied in place when it matches. */
  method Visit(pool: ArchetypePool, q: Pos, status: Cell, op: Row -> Row) returns (called: bool)
    requires pool.Valid() && q in pool.State().rows && Local(op)
    modifies pool`columns
    ensures pool.Valid() && called == (old(pool.State()).rows[q].status == status)
    ensures pool.State() == if called
      then old(pool.State()).(rows := old(pool.State()).rows[q := op(old(pool.State()).rows[q])]) else old(pool.State())
  {
    hide Lockstep, RowsOf;
    var row := pool.ReadRow(q);
    called := row.status == status;
    if called {
      var next := op(row);
      pool.WriteRow(q, next.status, next.cells);
      assert op(row) == row.(status := next.status, cells := next.cells);
    }
  }

  /** The loops over chunks and indices of one pool. */
  method RunOnPool(pool: ArchetypePool, status: Cell, op: Row -> Row) returns (calls: seq<Pos>)
    requires pool.Valid() && Local(op)
    modifies pool`columns
    ensures pool.Valid() && calls == CallsIn(old(pool.State()), status)
    ensures pool.State() == old(pool.State()).(
      rows := Operated(old(pool.State()).rows, Order(old(pool.State()).chunks, pool.chunkSize), status, op))
  {
    hide Lockstep, Local;
    ghost var p0 := pool.State();
    OrderDistinct(p0.chunks, p0.chunkSize);
    calls := [];
    assert Operated(p0.rows, [], status, op) == p0.rows;
    for c := 0 to |pool.columns[0]|
      invariant pool.Valid() && pool.State() == p0.(rows := Operated(p0.rows, Order(c, p0.chunkSize), status, op))
      invariant calls == WithStatus(p0.rows, Order(c, p0.chunkSize), status)
    {
      var more := RunOnChunk(pool, c, status, op, p0, Order(c, p0.chunkSize));
      calls := calls + more;
    }
  }

  method RunOnChunk(pool: ArchetypePool, c: nat, status: Cell, op: Row -> Row, ghost p0: Pool, ghost done: seq<Pos>)
    returns (calls: seq<Pos>)
    requires pool.Valid() && Local(op) && c < p0.chunks && p0.chunkSize == pool.chunkSize
    requires forall q: Pos :: q in p0.rows <==> q.chunk < p0.chunks && q.elem < p0.chunkSize
    requires done == Order(c, p0.chunkSize) && pool.State() == p0.(rows := Operated(p0.rows, done, status, op))
    modifies pool`columns
    ensures pool.Valid()
    ensures pool.State() == p0.(rows := Operated(p0.rows, Order(c + 1, p0.chunkSize), status, op))
    ensures WithStatus(p0.rows, done, status) + calls == WithStatus(p0.rows, Order(c + 1, p0.chunkSize), status)
  {
    hide Lockstep, RowsOf, Local, WithStatus, Operated;
    calls := [];
    ghost var chunk := ChunkPositions(c, p0.chunkSize);
    ghost var first := WithStatus(p0.rows, done, status);
    assert done + chunk[..0] == done;
    for e := 0 to pool.chunkSize
      invariant pool.Valid() && pool.State() == p0.(rows := Operated(p0.rows, done + chunk[..e], status, op))
      invariant first + calls == WithStatus(p0.rows, done + chunk[..e], status)
    {
      var q := Pos(c, e);
      assert done + chunk[..e + 1] == (done + chunk[..e]) + [q];
      OrderMember(c, p0.chunkSize, q);
      OperatedNext(p0.rows, done + chunk[..e], q, status, op);
      WithStatusNext(p0.rows, done + chunk[..e], q, status);
      var called := Visit(pool, q, status, op);
      if called {
        calls := calls + [q];
      }
    }
    assert chunk[..p0.chunkSize] == chunk;
    assert Order(c + 1, p0.chunkSize) == done + chunk;
  }
}
