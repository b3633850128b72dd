/**
 A whole run of a status system: its operation over every pool its query has matched, in the order of the matches.
 A pool the query holds more than once is run over as often.
 */
module StatusRuns {
  import opened Common
  import opened Pools
  import opened Entities
  import opened Storage
  import opened StatusSystem

  /** One call of the operation: the registered pool and the position in it. */
  datatype Visit = Visit(pool: nat, pos: Pos)

  function Tagged(i: nat, qs: seq<Pos>): (s: seq<Visit>)
    ensures |s| == |qs| && forall k :: 0 <= k < |s| ==> s[k] == Visit(i, qs[k])
  {
    seq(|qs|, k requires 0 <= k < |qs| => Visit(i, qs[k]))
  }

  predicate InRange(ms: seq<nat>, n: nat) {
    forall k :: 0 <= k < |ms| ==> ms[k] < n
  }

  /** The pool after its rows with the status have been operated on. */
  function Ran(p: Pool, status: Cell, op: Row -> Row): Pool {
    p.(rows := Operated(p.rows, Order(p.chunks, p.chunkSize), status, op))
  }

  /** The pools after a run over the matched ones, and the calls made. */
  function RunAll(ps: seq<Pool>, ms: seq<nat>, status: Cell, op: Row -> Row): (r: (seq<Pool>, seq<Visit>))
    requires InRange(ms, |ps|)
    ensures |r.0| == |ps|
  {
    if ms == [] then (ps, [])
    else
      var n := |ms| - 1;
      var (qs, calls) := RunAll(ps, ms[..n], status, op);
      (qs[ms[n] := Ran(qs[ms[n]], status, op)], calls + Tagged(ms[n], CallsIn(qs[ms[n]], status)))
  }

  // ---------- the loop over the matched pools ----------

  ghost predicate AllValid(pools: seq<ArchetypePool>)
    reads pools
  {
    forall p :: p in pools ==> p.Valid()
  }

  ghost function States(pools: seq<ArchetypePool>): (s: seq<Pool>)
    reads pools
    requires AllValid(pools)
    ensures |s| == |pools| && forall k :: 0 <= k < |s| ==> s[k] == pools[k].State()
  {
    seq(|pools|, k requires 0 <= k < |pools| && AllValid(pools) reads pools => pools[k].State())
  }

  method RunMatched(pools: seq<ArchetypePool>, ms: seq<nat>, status: Cell, op: Row -> Row) returns (calls: seq<Visit>)
    requires AllValid(pools) && InRange(ms, |pools|) && Local(op)
    requires forall a, b :: 0 <= a < b < |pools| ==> pools[a] != pools[b]
    modifies pools
    ensures AllValid(pools) && (States(pools), calls) == RunAll(old(States(pools)), ms, status, op)
  {
    hide Local, CallsIn, Operated, Order, ArchetypePool.State, ArchetypePool.Valid;
    ghost var before := States(pools);
    calls := [];
    for k := 0 to |ms|
      invariant AllValid(pools) && (States(pools), calls) == RunAll(before, ms[..k], status, op)
    {
      assert ms[..k + 1][..k] == ms[..k];
      ghost var now := States(pools);
      var more := RunOne(pools, ms[k], status, op);
      calls := calls + more;
    }
    assert ms[..|ms|] == ms;
  }

  method RunOne(pools: seq<ArchetypePool>, i: nat, status: Cell, op: Row -> Row) returns (calls: seq<Visit>)
    requires AllValid(pools) && i < |pools| && Local(op)
    requires forall a, b :: 0 <= a < b < |pools| ==> pools[a] != pools[b]
    modifies pools
    ensures AllValid(pools) && States(pools) == old(States(pools))[i := Ran(old(States(pools))[i], status, op)]
    ensures calls == Tagged(i, CallsIn(old(States(pools))[i], status))
  {
    hide Local, CallsIn, Operated, Order, Lockstep, RowsOf;
    ghost var now := States(pools);
    var qs := RunOnPool(pools[i], status, op);
    calls := Tagged(i, qs);
    assert States(pools) == now[i := Ran(now[i], status, op)];
  }

  // ---------- how often one slot is called ----------

  /** A row after `c` runs over its pool. */
  function RowAfter(row: Row, status: Cell, op: Row -> Row, c: nat): Row {
    if c == 0 then row
    else
      var r := RowAfter(row, status, op, c - 1);
      if r.status == status then op(r) else r
  }

  /** In how many of `c` runs the row is called on. */
  function Called(row: Row, status: Cell, op: Row -> Row, c: nat): nat {
    if c == 0 then 0
    else Called(row, status, op, c - 1) + if RowAfter(row, status, op, c - 1).status == status then 1 else 0
  }

  function Occurrences(ms: seq<nat>, i: nat): nat {
    multiset(ms)[i]
  }

  function Visits(calls: seq<Visit>, v: Visit): nat {
    multiset(calls)[v]
  }

  lemma OccurrencesNext(ms: seq<nat>, i: nat)
    requires ms != []
    ensures Occurrences(ms, i) == Occurrences(ms[..|ms| - 1], i) + if ms[|ms| - 1] == i then 1 else 0
  {
    assert ms == ms[..|ms| - 1] + [ms[|ms| - 1]];
  }

  lemma TaggedCount(i: nat, qs: seq<Pos>, v: Visit)
    requires Distinct(qs)
    ensures Visits(Tagged(i, qs), v) == if v.pool == i && v.pos in qs then 1 else 0
  {
    var s := Tagged(i, qs);
    assert v == Visit(v.pool, v.pos);
    assert Distinct(s);
    DistinctCount(s, v);
    if v.pool == i && v.pos in qs {
      var k :| 0 <= k < |qs| && qs[k] == v.pos;
      assert s[k] == v;
    }
  }

  ghost predicate Shaped(p: Pool) {
    forall q :: q in p.rows <==> InShape(p, q)
  }

  ghost predicate AllShaped(ps: seq<Pool>) {
    forall k :: 0 <= k < |ps| ==> Shaped(ps[k])
  }

  /** One pool's calls and rows, one position at a time. */
  lemma OneRun(p: Pool, status: Cell, op: Row -> Row, q: Pos)
    requires Shaped(p)
    ensures Shaped(Ran(p, status, op)) && Distinct(CallsIn(p, status))
    ensures q in CallsIn(p, status) <==> q in p.rows && p.rows[q].status == status
    ensures q in p.rows ==>
      && q in Ran(p, status, op).rows
      && Ran(p, status, op).rows[q] == if p.rows[q].status == status then op(p.rows[q]) else p.rows[q]
  {
    OrderDistinct(p.chunks, p.chunkSize);
    WithStatusDistinct(p.rows, Order(p.chunks, p.chunkSize), status);
    WithStatusMember(p.rows, Order(p.chunks, p.chunkSize), status, q);
    OrderMember(p.chunks, p.chunkSize, q);
    hide Order;
  }

  /** What a run has done to one slot of one pool, and how often it called on it. */
  ghost predicate RunAt(ps: seq<Pool>, ms: seq<nat>, status: Cell, op: Row -> Row, i: nat, q: Pos)
    requires InRange(ms, |ps|)
  {
    var (rs, calls) := RunAll(ps, ms, status, op);
    && (i >= |ps| ==> Visits(calls, Visit(i, q)) == 0)
    && (i < |ps| ==> Shaped(rs[i]) && rs[i].rows.Keys == ps[i].rows.Keys)
    && (i < |ps| && q !in ps[i].rows ==> Visits(calls, Visit(i, q)) == 0)
    && (i < |ps| && q in ps[i].rows ==>
         && rs[i].rows[q] == RowAfter(ps[i].rows[q], status, op, Occurrences(ms, i))
         && Visits(calls, Visit(i, q)) == Called(ps[i].rows[q], status, op, Occurrences(ms, i)))
  }

  lemma RunNext(ps: seq<Pool>, ms: seq<nat>, status: Cell, op: Row -> Row, v: Visit)
    requires InRange(ms, |ps|) && ms != []
    requires AllShaped(RunAll(ps, ms[..|ms| - 1], status, op).0)
    ensures var m := ms[|ms| - 1];
      var (qs, before) := RunAll(ps, ms[..|ms| - 1], status, op);
      Visits(RunAll(ps, ms, status, op).1, v) == Visits(before, v) + if v.pool == m &&
        v.pos in CallsIn(qs[m], status) then 1 else 0
  {
    hide CallsIn, Ran, Shaped;
    var m := ms[|ms| - 1];
    var (qs, before) := RunAll(ps, ms[..|ms| - 1], status, op);
    OneRun(qs[m], status, op, v.pos);
    TaggedCount(m, CallsIn(qs[m], status), v);
  }

  lemma {:induction false} RunPoint(ps: seq<Pool>, ms: seq<nat>, status: Cell, op: Row -> Row, i: nat, q: Pos)
    requires InRange(ms, |ps|) && AllShaped(ps)
    ensures RunAt(ps, ms, status, op, i, q)
    decreases |ms|
  {
    hide CallsIn, Ran, Shaped, Visits;
    if ms == [] {
      assert RunAll(ps, ms, status, op) == (ps, []);
      NoVisits(Visit(i, q));
      assert Occurrences(ms, i) == 0;
    } else {
      var n := |ms| - 1;
      var qs := RunAll(ps, ms[..n], status, op).0;
      forall k | 0 <= k < |ps| ensures Shaped(qs[k]) { RunPoint(ps, ms[..n], status, op, k, q); }
      RunPoint(ps, ms[..n], status, op, i, q);
      RunNext(ps, ms, status, op, Visit(i, q));
      OneRun(qs[ms[n]], status, op, q);
      OccurrencesNext(ms, i);
      hide Occurrences;
      RanKeys(qs[ms[n]], status, op);
    }
  }

  lemma NoVisits(v: Visit)
    ensures Visits([], v) == 0
  {
  }

  lemma RanKeys(p: Pool, status: Cell, op: Row -> Row)
    ensures Ran(p, status, op).rows.Keys == p.rows.Keys
  {
  }

  // ---------- what a run sees ----------

  /** The rows a status system is for: allocated, of its status, in a matched pool. */
  predicate Wanted(ps: seq<Pool>, ms: seq<nat>, status: Cell, i: nat, q: Pos) {
    i in ms && i < |ps| && Live(ps[i], q) && ps[i].rows[q].status == status
  }

  ghost predicate AllOk(ps: seq<Pool>) {
    forall k :: 0 <= k < |ps| ==> PoolOk(ps[k])
  }

  lemma {:induction false} NeverCalled(row: Row, status: Cell, op: Row -> Row, c: nat)
    requires row.status != status
    ensures RowAfter(row, status, op, c) == row && Called(row, status, op, c) == 0
  {
    if c == 0 {
    } else {
      NeverCalled(row, status, op, c - 1);
    }
  }

  /** Called once: run over once, or given another status by the first call. */
  lemma {:induction false} CalledOnceIff(row: Row, status: Cell, op: Row -> Row, c: nat)
    requires row.status == status && c > 0
    ensures Called(row, status, op, c) >= 1
    ensures Called(row, status, op, c) == 1 <==> c == 1 || op(row).status != status
    ensures op(row).status != status ==> RowAfter(row, status, op, c) == op(row)
  {
    if c == 1 {
      assert RowAfter(row, status, op, 0) == row && Called(row, status, op, 0) == 0;
    } else {
      CalledOnceIff(row, status, op, c - 1);
      if c == 2 {
        assert RowAfter(row, status, op, 0) == row && RowAfter(row, status, op, 1) == op(row);
      }
    }
  }

  lemma InOccurs(ms: seq<nat>, i: nat)
    ensures i in ms <==> Occurrences(ms, i) > 0
  {
    assert i in multiset(ms) <==> i in ms;
  }

  lemma VisitedIn(calls: seq<Visit>, v: Visit)
    ensures v in calls <==> Visits(calls, v) > 0
  {
    assert v in multiset(calls) <==> v in calls;
  }

  /**
   How often a run calls on a slot: for a status other than none, never on a free slot, however often a pool is
   matched.
   */
  lemma VisitCount(ps: seq<Pool>, ms: seq<nat>, status: Cell, op: Row -> Row, i: nat, q: Pos)
    requires AllOk(ps) && InRange(ms, |ps|) && status != ENT_NONE
    ensures Visits(RunAll(ps, ms, status, op).1, Visit(i, q)) ==
      if Wanted(ps, ms, status, i, q) then Called(ps[i].rows[q], status, op, Occurrences(ms, i)) else 0
  {
    forall k | 0 <= k < |ps| ensures Shaped(ps[k]) { assert PoolOk(ps[k]); }
    RunPoint(ps, ms, status, op, i, q);
    InOccurs(ms, i);
    hide Visits, RunAll, Occurrences;
    if i < |ps| && q in ps[i].rows {
      assert PoolOk(ps[i]);
      if ps[i].rows[q].status != status {
        NeverCalled(ps[i].rows[q], status, op, Occurrences(ms, i));
      }
      assert q in ps[i].free ==> ps[i].rows[q].status == ENT_NONE;
    }
  }

  /**
   Every living entity of the status in a matched pool is called on exactly once if and only if each of them lives
   in a pool matched once or is given another status by its first call. No other position is ever called on.
   */
  lemma OnceIff(ps: seq<Pool>, ms: seq<nat>, status: Cell, op: Row -> Row)
    requires AllOk(ps) && InRange(ms, |ps|) && status != ENT_NONE
    ensures (forall i: nat, q: Pos :: Wanted(ps, ms, status, i, q) ==>
      Visits(RunAll(ps, ms, status, op).1, Visit(i, q)) == 1) <==>
      (forall i: nat, q: Pos :: Wanted(ps, ms, status, i, q) ==>
        Occurrences(ms, i) == 1 || op(ps[i].rows[q]).status != status)
    ensures forall v :: v in RunAll(ps, ms, status, op).1 <==> Wanted(ps, ms, status, v.pool, v.pos)
  {
    hide RunAll, Visits, Occurrences, PoolOk;
    forall i: nat, q: Pos | Wanted(ps, ms, status, i, q)
      ensures Visits(RunAll(ps, ms, status, op).1, Visit(i, q)) >= 1
      ensures Visits(RunAll(ps, ms, status, op).1, Visit(i, q)) == 1 <==>
        Occurrences(ms, i) == 1 || op(ps[i].rows[q]).status != status
    {
      VisitCount(ps, ms, status, op, i, q);
      InOccurs(ms, i);
      WantedRow(ps, ms, status, i, q);
      CalledOnceIff(ps[i].rows[q], status, op, Occurrences(ms, i));
    }
    forall v ensures v in RunAll(ps, ms, status, op).1 <==> Wanted(ps, ms, status, v.pool, v.pos) {
      VisitCount(ps, ms, status, op, v.pool, v.pos);
      VisitedIn(RunAll(ps, ms, status, op).1, v);
      assert v == Visit(v.pool, v.pos);
    }
  }

  lemma WantedRow(ps: seq<Pool>, ms: seq<nat>, status: Cell, i: nat, q: Pos)
    requires Wanted(ps, ms, status, i, q)
    ensures i < |ps| && q in ps[i].rows && ps[i].rows[q].status == status
  {
  }

  ghost predicate KeepsStatus(op: Row -> Row) {
    forall r: Row :: op(r).status == r.status
  }

  /** An operation that leaves the status alone calls each entity as often as its pool is matched. */
  lemma {:induction false} KeptStatusCalls(row: Row, status: Cell, op: Row -> Row, c: nat)
    requires row.status == status && KeepsStatus(op)
    ensures Called(row, status, op, c) == c && RowAfter(row, status, op, c).status == status
  {
    if c == 0 {
    } else {
      KeptStatusCalls(row, status, op, c - 1);
    }
  }

  /**
   The operation of a status system is not handed the status, so it keeps it: every living entity of the status is
   then called on exactly once if and only if no matched pool holding one is matched twice.
   */
  lemma OnceIffMatchedOnce(ps: seq<Pool>, ms: seq<nat>, status: Cell, op: Row -> Row)
    requires AllOk(ps) && InRange(ms, |ps|) && status != ENT_NONE && KeepsStatus(op)
    ensures (forall i: nat, q: Pos :: Wanted(ps, ms, status, i, q) ==>
      Visits(RunAll(ps, ms, status, op).1, Visit(i, q)) == 1) <==>
      (forall i: nat, q: Pos :: Wanted(ps, ms, status, i, q) ==> Occurrences(ms, i) == 1)
  {
    OnceIff(ps, ms, status, op);
    hide RunAll, Visits, Occurrences, PoolOk;
  }

  /** In general such an operation is called as often as the pool is matched. */
  lemma CalledAsMatched(ps: seq<Pool>, ms: seq<nat>, status: Cell, op: Row -> Row, i: nat, q: Pos)
    requires AllOk(ps) && InRange(ms, |ps|) && status != ENT_NONE && KeepsStatus(op)
    ensures Visits(RunAll(ps, ms, status, op).1, Visit(i, q)) ==
      if Wanted(ps, ms, status, i, q) then Occurrences(ms, i) else 0
  {
    VisitCount(ps, ms, status, op, i, q);
    hide RunAll, Visits, Occurrences, PoolOk;
    if Wanted(ps, ms, status, i, q) {
      KeptStatusCalls(ps[i].rows[q], status, op, Occurrences(ms, i));
    }
  }

  // ---------- order ----------

  predicate Earlier(a: Pos, b: Pos) {
    a.chunk < b.chunk || (a.chunk == b.chunk && a.elem < b.elem)
  }

  predicate Sorted(qs: seq<Pos>) {
    forall a, b :: 0 <= a < b < |qs| ==> Earlier(qs[a], qs[b])
  }

  /** Pool, then chunk, then index. */
  predicate InOrder(calls: seq<Visit>) {
    forall a, b :: 0 <= a < b < |calls| ==>
      calls[a].pool < calls[b].pool || (calls[a].pool == calls[b].pool && Earlier(calls[a].pos, calls[b].pos))
  }

  predicate Increasing(ms: seq<nat>) {
    forall a, b :: 0 <= a < b < |ms| ==> ms[a] < ms[b]
  }

  lemma {:induction false} OrderSorted(chunks: nat, size: nat)
    ensures Sorted(Order(chunks, size)) && forall q :: q in Order(chunks, size) ==> q.chunk < chunks
  {
    if chunks == 0 {
    } else {
      OrderSorted(chunks - 1, size);
      var a, b := Order(chunks - 1, size), ChunkPositions(chunks - 1, size);
      assert Order(chunks, size) == a + b;
      assert forall k :: 0 <= k < |a| ==> a[k] in a;
    }
  }

  lemma {:induction false} FilterSorted(rows: map<Pos, Row>, qs: seq<Pos>, status: Cell)
    requires Sorted(qs)
    ensures Sorted(WithStatus(rows, qs, status))
    decreases |qs|
  {
    if qs == [] {
    } else {
      var n := |qs| - 1;
      var a := WithStatus(rows, qs[..n], status);
      FilterSorted(rows, qs[..n], status);
      forall k | 0 <= k < |a| ensures Earlier(a[k], qs[n]) {
        assert a[k] in a;
        WithStatusMember(rows, qs[..n], status, a[k]);
        var j :| 0 <= j < n && qs[j] == a[k];
      }
    }
  }

  /** Pools that are matched once are not changed before their turn. */
  lemma {:induction false} Untouched(ps: seq<Pool>, ms: seq<nat>, status: Cell, op: Row -> Row, i: nat)
    requires InRange(ms, |ps|) && i < |ps| && i !in ms
    ensures RunAll(ps, ms, status, op).0[i] == ps[i]
    decreases |ms|
  {
    hide Ran, CallsIn;
    if ms == [] {
    } else {
      Untouched(ps, ms[..|ms| - 1], status, op, i);
    }
  }

  /** With the pools matched in registration order, the calls come in pool, chunk, index order, so none comes twice. */
  lemma {:induction false} CallsInOrder(ps: seq<Pool>, ms: seq<nat>, status: Cell, op: Row -> Row)
    requires InRange(ms, |ps|) && Increasing(ms)
    ensures var calls := RunAll(ps, ms, status, op).1;
      InOrder(calls) && Distinct(calls) && forall k :: 0 <= k < |calls| ==> calls[k].pool in ms
    decreases |ms|
  {
    hide Ran, CallsIn;
    if ms == [] {
    } else {
      var n := |ms| - 1;
      CallsInOrder(ps, ms[..n], status, op);
      Untouched(ps, ms[..n], status, op, ms[n]);
      var a, b := RunAll(ps, ms[..n], status, op).1, Tagged(ms[n], CallsIn(ps[ms[n]], status));
      CallsSorted(ps[ms[n]], status);
      forall k | 0 <= k < |a| ensures a[k].pool < ms[n] {
        var j :| 0 <= j < n && ms[j] == a[k].pool;
      }
      OrderAppend(a, b, ms[n]);
      assert forall k :: 0 <= k < |a + b| ==> (a + b)[k].pool == if k < |a| then a[k].pool else ms[n];
    }
  }

  lemma CallsSorted(p: Pool, status: Cell)
    ensures Sorted(CallsIn(p, status))
  {
    OrderSorted(p.chunks, p.chunkSize);
    FilterSorted(p.rows, Order(p.chunks, p.chunkSize), status);
  }

  lemma OrderAppend(a: seq<Visit>, b: seq<Visit>, i: nat)
    requires InOrder(a) && InOrder(b)
    requires (forall k :: 0 <= k < |a| ==> a[k].pool < i) && forall k :: 0 <= k < |b| ==> b[k].pool == i
    ensures InOrder(a + b) && Distinct(a + b)
  {
  }
}
