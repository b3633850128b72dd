/**
 Mapping an operation over the slots of several pools with one thread per pool. A thread loads a
 slot's value, applies the operation and stores the result; loads and stores of different threads interleave freely.
 */
module ParallelMap {
  import opened Common
  import Pools

  /** A component slot: its pool and its position there. */
  datatype Loc = Loc(pool: nat, pos: Pools.Pos)

  /** One thread: the slots of its pool in visiting order, the next one, and the value it holds. */
  datatype Thread<V> = Thread(locs: seq<Loc>, next: nat, held: Option<V>)

  datatype State<V> = State(mem: map<Loc, V>, threads: seq<Thread<V>>, stores: seq<Loc>)

  datatype Label = Load(thread: nat) | Store(thread: nat)

  function Begin<V>(mem: map<Loc, V>, pools: seq<seq<Loc>>): State<V> {
    State(mem, seq(|pools|, k requires 0 <= k < |pools| => Thread(pools[k], 0, None)), [])
  }

  predicate Enabled<V>(s: State<V>, l: Label) {
    l.thread < |s.threads| &&
    var t := s.threads[l.thread];
    t.next < |t.locs| && t.locs[t.next] in s.mem && (l.Load? <==> t.held.None?)
  }

  function Apply<V>(s: State<V>, l: Label, f: V -> V): State<V>
    requires Enabled(s, l)
  {
    var t := s.threads[l.thread];
    var loc := t.locs[t.next];
    match l
    case Load(k) => s.(threads := s.threads[k := t.(held := Some(s.mem[loc]))])
    case Store(k) =>
      State(s.mem[loc := f(t.held.value)], s.threads[k := Thread(t.locs, t.next + 1, None)], s.stores + [loc])
  }

  predicate Finished<V>(s: State<V>) {
    forall k :: 0 <= k < |s.threads| ==> s.threads[k].next == |s.threads[k].locs|
  }

  // ---------- the sequential loops ----------

  function MapPool<V>(mem: map<Loc, V>, locs: seq<Loc>, f: V -> V): (r: map<Loc, V>)
    requires forall j :: 0 <= j < |locs| ==> locs[j] in mem
    ensures r.Keys == mem.Keys
  {
    if locs == [] then mem
    else
      var n := |locs| - 1;
      var r := MapPool(mem, locs[..n], f);
      r[locs[n] := f(r[locs[n]])]
  }

  function MapPools<V>(mem: map<Loc, V>, pools: seq<seq<Loc>>, f: V -> V): (r: map<Loc, V>)
    requires forall k, j :: 0 <= k < |pools| && 0 <= j < |pools[k]| ==> pools[k][j] in mem
    ensures r.Keys == mem.Keys
    decreases |pools|
  {
    if pools == [] then mem else MapPool(MapPools(mem, pools[..|pools| - 1], f), pools[|pools| - 1], f)
  }

  ghost predicate Stored<V>(mem: map<Loc, V>, pools: seq<seq<Loc>>) {
    forall k, j :: 0 <= k < |pools| && 0 <= j < |pools[k]| ==> pools[k][j] in mem
  }

  /** No slot occurs twice, in one pool or in two. */
  ghost predicate Disjoint(pools: seq<seq<Loc>>) {
    && (forall k :: 0 <= k < |pools| ==> Distinct(pools[k]))
    && (forall k, l, x :: 0 <= k < l < |pools| && x in pools[k] ==> x !in pools[l])
  }

  predicate Touched(pools: seq<seq<Loc>>, x: Loc) {
    exists k :: 0 <= k < |pools| && x in pools[k]
  }

  lemma {:induction false} MapPoolAt<V>(mem: map<Loc, V>, locs: seq<Loc>, f: V -> V, x: Loc)
    requires (forall j :: 0 <= j < |locs| ==> locs[j] in mem) && Distinct(locs) && x in mem
    ensures MapPool(mem, locs, f)[x] == if x in locs then f(mem[x]) else mem[x]
    decreases |locs|
  {
    if locs == [] {
    } else {
      var n := |locs| - 1;
      MapPoolAt(mem, locs[..n], f, x);
      assert locs == locs[..n] + [locs[n]];
      assert locs[n] !in locs[..n];
    }
  }

  lemma {:induction false} MapPoolsAt<V>(mem: map<Loc, V>, pools: seq<seq<Loc>>, f: V -> V, x: Loc)
    requires Stored(mem, pools) && Disjoint(pools) && x in mem
    ensures MapPools(mem, pools, f)[x] == if Touched(pools, x) then f(mem[x]) else mem[x]
    decreases |pools|
  {
    if pools == [] {
    } else {
      var n := |pools| - 1;
      MapPoolsAt(mem, pools[..n], f, x);
      var r := MapPools(mem, pools[..n], f);
      MapPoolAt(r, pools[n], f, x);
      assert Touched(pools[..n], x) ==> Touched(pools, x) && x !in pools[n];
      assert x in pools[n] ==> Touched(pools, x);
      assert Touched(pools, x) ==> Touched(pools[..n], x) || x in pools[n];
    }
  }

  // ---------- every interleaving ----------

  /** Slots before a thread's position hold the mapped value, the others the original one. */
  ghost predicate ThreadOk<V>(s: State<V>, mem: map<Loc, V>, locs: seq<Loc>, k: nat, f: V -> V)
    requires k < |s.threads|
  {
    var t := s.threads[k];
    && t.locs == locs && t.next <= |locs|
    && (forall j :: 0 <= j < |locs| ==> locs[j] in mem && locs[j] in s.mem)
    && (forall j :: 0 <= j < t.next ==> s.mem[locs[j]] == f(mem[locs[j]]))
    && (forall j :: t.next <= j < |locs| ==> s.mem[locs[j]] == mem[locs[j]])
    && (t.held.Some? ==> t.next < |locs| && t.held.value == mem[locs[t.next]])
  }

  ghost predicate Passed<V>(s: State<V>, x: Loc) {
    exists k, j :: 0 <= k < |s.threads| && 0 <= j < s.threads[k].next <= |s.threads[k].locs| &&
      s.threads[k].locs[j] == x
  }

  ghost predicate Inv<V>(s: State<V>, mem: map<Loc, V>, pools: seq<seq<Loc>>, f: V -> V) {
    && |s.threads| == |pools| && s.mem.Keys == mem.Keys
    && (forall k :: 0 <= k < |pools| ==> ThreadOk(s, mem, pools[k], k, f))
    && (forall x :: x in mem && !Touched(pools, x) ==> s.mem[x] == mem[x])
    && Distinct(s.stores) && (forall x :: x in s.stores <==> Passed(s, x))
  }

  lemma BeginInv<V>(mem: map<Loc, V>, pools: seq<seq<Loc>>, f: V -> V)
    requires Stored(mem, pools)
    ensures Inv(Begin(mem, pools), mem, pools, f)
  {
  }

  lemma LoadInv<V>(s: State<V>, k: nat, mem: map<Loc, V>, pools: seq<seq<Loc>>, f: V -> V)
    requires Inv(s, mem, pools, f) && Enabled(s, Load(k))
    ensures Inv(Apply(s, Load(k), f), mem, pools, f)
  {
    var r := Apply(s, Load(k), f);
    forall j | 0 <= j < |pools| ensures ThreadOk(r, mem, pools[j], j, f) {
      assert ThreadOk(s, mem, pools[j], j, f);
    }
    forall x ensures Passed(r, x) <==> Passed(s, x) {
      SamePassed(s, r, x);
    }
  }

  lemma SamePassed<V>(s: State<V>, r: State<V>, x: Loc)
    requires |r.threads| == |s.threads|
    requires forall k :: 0 <= k < |s.threads| ==>
      r.threads[k].locs == s.threads[k].locs && r.threads[k].next == s.threads[k].next
    ensures Passed(r, x) <==> Passed(s, x)
  {
  }

  lemma StorePassed<V>(s: State<V>, k: nat, f: V -> V, x: Loc)
    requires Enabled(s, Store(k))
    ensures Passed(Apply(s, Store(k), f), x) <==> Passed(s, x) || x == s.threads[k].locs[s.threads[k].next]
  {
    var r := Apply(s, Store(k), f);
    var t := s.threads[k];
    if i, j :| 0 <= i < |s.threads| && 0 <= j < s.threads[i].next <= |s.threads[i].locs| && s.threads[i].locs[j] == x {
      assert 0 <= j < r.threads[i].next <= |r.threads[i].locs| && r.threads[i].locs[j] == x;
    }
    if x == t.locs[t.next] {
      assert t.next < r.threads[k].next <= |r.threads[k].locs| && r.threads[k].locs[t.next] == x;
    }
    if i, j :| 0 <= i < |r.threads| && 0 <= j < r.threads[i].next <= |r.threads[i].locs| && r.threads[i].locs[j] == x {
      assert s.threads[i].locs[j] == x;
    }
  }

  lemma StoreThread<V>(s: State<V>, k: nat, l: nat, mem: map<Loc, V>, pools: seq<seq<Loc>>, f: V -> V)
    requires Enabled(s, Store(k)) && |s.threads| == |pools| && l < |pools| && Disjoint(pools)
    requires ThreadOk(s, mem, pools[k], k, f) && ThreadOk(s, mem, pools[l], l, f)
    ensures ThreadOk(Apply(s, Store(k), f), mem, pools[l], l, f)
  {
    var t := s.threads[k];
    var loc := t.locs[t.next];
    assert loc in pools[k];
    if l != k {
      assert loc !in pools[l];
    } else {
      assert Distinct(pools[k]);
    }
  }

  lemma StoreInv<V>(s: State<V>, k: nat, mem: map<Loc, V>, pools: seq<seq<Loc>>, f: V -> V)
    requires Inv(s, mem, pools, f) && Disjoint(pools) && Enabled(s, Store(k))
    ensures Inv(Apply(s, Store(k), f), mem, pools, f)
  {
    hide Disjoint, Passed, ThreadOk;
    var r := Apply(s, Store(k), f);
    var loc := s.threads[k].locs[s.threads[k].next];
    forall l | 0 <= l < |pools| ensures ThreadOk(r, mem, pools[l], l, f) {
      assert ThreadOk(s, mem, pools[l], l, f);
      StoreThread(s, k, l, mem, pools, f);
    }
    NotPassed(s, k, mem, pools, f);
    assert Touched(pools, loc);
    forall x ensures x in r.stores <==> Passed(r, x) {
      StorePassed(s, k, f, x);
    }
  }

  lemma NotPassed<V>(s: State<V>, k: nat, mem: map<Loc, V>, pools: seq<seq<Loc>>, f: V -> V)
    requires Inv(s, mem, pools, f) && Disjoint(pools) && Enabled(s, Store(k))
    ensures !Passed(s, s.threads[k].locs[s.threads[k].next])
    ensures s.threads[k].locs[s.threads[k].next] in pools[k]
  {
    var loc := s.threads[k].locs[s.threads[k].next];
    assert ThreadOk(s, mem, pools[k], k, f);
    assert loc in pools[k];
    forall i, j | 0 <= i < |s.threads| && 0 <= j < s.threads[i].next <= |s.threads[i].locs|
      ensures s.threads[i].locs[j] != loc
    {
      assert ThreadOk(s, mem, pools[i], i, f);
      assert s.threads[i].locs[j] in pools[i];
      assert Distinct(pools[k]);
    }
  }

  ghost predicate IsRun<V>(s: State<V>, ls: seq<Label>, f: V -> V)
    decreases |ls|
  {
    ls == [] || (Enabled(s, ls[0]) && IsRun(Apply(s, ls[0], f), ls[1..], f))
  }

  ghost function After<V>(s: State<V>, ls: seq<Label>, f: V -> V): State<V>
    requires IsRun(s, ls, f)
    decreases |ls|
  {
    if ls == [] then s else After(Apply(s, ls[0], f), ls[1..], f)
  }

  lemma {:induction false} RunInv<V>(s: State<V>, ls: seq<Label>, mem: map<Loc, V>, pools: seq<seq<Loc>>, f: V -> V)
    requires Inv(s, mem, pools, f) && Disjoint(pools) && IsRun(s, ls, f)
    ensures Inv(After(s, ls, f), mem, pools, f)
    decreases |ls|
  {
    hide Inv, Disjoint;
    if ls == [] {
    } else {
      match ls[0] {
        case Load(k) => LoadInv(s, k, mem, pools, f);
        case Store(k) => StoreInv(s, k, mem, pools, f);
      }
      RunInv(Apply(s, ls[0], f), ls[1..], mem, pools, f);
    }
  }

  /**
   With pairwise disjoint pools every finished interleaving ends in the memory of the sequential
   loops, and stores to each slot of each pool exactly once.
   */
  lemma ParallelIsSequential<V>(mem: map<Loc, V>, pools: seq<seq<Loc>>, f: V -> V, ls: seq<Label>)
    requires Stored(mem, pools) && Disjoint(pools)
    requires IsRun(Begin(mem, pools), ls, f) && Finished(After(Begin(mem, pools), ls, f))
    ensures var s := After(Begin(mem, pools), ls, f);
      s.mem == MapPools(mem, pools, f) && Distinct(s.stores) && forall x :: x in s.stores <==> Touched(pools, x)
  {
    hide Inv, Disjoint, Stored, Begin, Finished;
    BeginInv(mem, pools, f);
    RunInv(Begin(mem, pools), ls, mem, pools, f);
    var s := After(Begin(mem, pools), ls, f);
    FinalMemory(s, mem, pools, f);
    AllPassed(s, mem, pools, f);
    StoresPassed(s, mem, pools, f);
  }

  lemma StoresPassed<V>(s: State<V>, mem: map<Loc, V>, pools: seq<seq<Loc>>, f: V -> V)
    requires Inv(s, mem, pools, f)
    ensures Distinct(s.stores) && forall x :: x in s.stores <==> Passed(s, x)
  {
  }

  lemma FinalAt<V>(s: State<V>, mem: map<Loc, V>, pools: seq<seq<Loc>>, f: V -> V, x: Loc)
    requires Inv(s, mem, pools, f) && Finished(s) && x in mem
    ensures s.mem[x] == if Touched(pools, x) then f(mem[x]) else mem[x]
  {
    if k :| 0 <= k < |pools| && x in pools[k] {
      assert ThreadOk(s, mem, pools[k], k, f);
      var j :| 0 <= j < |pools[k]| && pools[k][j] == x;
    }
  }

  lemma FinalMemory<V>(s: State<V>, mem: map<Loc, V>, pools: seq<seq<Loc>>, f: V -> V)
    requires Stored(mem, pools) && Disjoint(pools) && Inv(s, mem, pools, f) && Finished(s)
    ensures s.mem == MapPools(mem, pools, f)
  {
    assert s.mem.Keys == mem.Keys;
    hide Disjoint, Inv, Touched;
    forall x | x in mem ensures s.mem[x] == MapPools(mem, pools, f)[x] {
      MapPoolsAt(mem, pools, f, x);
      FinalAt(s, mem, pools, f, x);
    }
  }

  lemma AllPassed<V>(s: State<V>, mem: map<Loc, V>, pools: seq<seq<Loc>>, f: V -> V)
    requires Inv(s, mem, pools, f) && Finished(s)
    ensures forall x :: Passed(s, x) <==> Touched(pools, x)
  {
    forall x ensures Passed(s, x) <==> Touched(pools, x) {
      if k, j :|
          0 <= k < |s.threads| && 0 <= j < s.threads[k].next <= |s.threads[k].locs| && s.threads[k].locs[j] == x {
        assert ThreadOk(s, mem, pools[k], k, f) && x in pools[k];
      }
      if k :| 0 <= k < |pools| && x in pools[k] {
        assert ThreadOk(s, mem, pools[k], k, f);
        var j :| 0 <= j < |pools[k]| && pools[k][j] == x;
        assert s.threads[k].locs[j] == x;
      }
    }
  }
}
