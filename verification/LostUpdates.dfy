/**
 What happens when two of the threads of a parallel map share a slot, as they do when a query holds the same
 pool twice: some interleaving of an increment loses an update.
 */
module LostUpdates {
  import opened Common
  import opened ParallelMap

  function Increment(v: nat): nat {
    v + 1
  }

  ghost predicate EachDistinct(pools: seq<seq<Loc>>) {
    forall k :: 0 <= k < |pools| ==> Distinct(pools[k])
  }

  function Count(xs: seq<Loc>, x: Loc): nat {
    if xs == [] then 0 else Count(xs[..|xs| - 1], x) + if xs[|xs| - 1] == x then 1 else 0
  }

  lemma CountNext(xs: seq<Loc>, y: Loc, x: Loc)
    ensures Count(xs + [y], x) == Count(xs, x) + if y == x then 1 else 0
  {
    assert (xs + [y])[..|xs|] == xs;
  }

  /** How many pools hold the slot. */
  function Holders(pools: seq<seq<Loc>>, x: Loc): nat {
    if pools == [] then 0 else Holders(pools[..|pools| - 1], x) + if x in pools[|pools| - 1] then 1 else 0
  }

  /** The sequential loops increment a slot once for each pool that holds it. */
  lemma {:induction false} SequentialAt(mem: map<Loc, nat>, pools: seq<seq<Loc>>, x: Loc)
    requires Stored(mem, pools) && EachDistinct(pools) && x in mem
    ensures MapPools(mem, pools, Increment)[x] == mem[x] + Holders(pools, x)
    decreases |pools|
  {
    if pools == [] {
    } else {
      var n := |pools| - 1;
      SequentialAt(mem, pools[..n], x);
      assert Distinct(pools[n]);
      MapPoolAt(MapPools(mem, pools[..n], Increment), pools[n], Increment, x);
    }
  }

  // ---------- counting stores ----------

  function PassedBy(t: Thread<nat>, x: Loc): nat {
    if t.next <= |t.locs| && x in t.locs[..t.next] then 1 else 0
  }

  function Passes(ts: seq<Thread<nat>>, x: Loc): nat {
    if ts == [] then 0 else Passes(ts[..|ts| - 1], x) + PassedBy(ts[|ts| - 1], x)
  }

  lemma {:induction false} PassesUpdate(ts: seq<Thread<nat>>, k: nat, t: Thread<nat>, x: Loc)
    requires k < |ts|
    ensures Passes(ts[k := t], x) == Passes(ts, x) - PassedBy(ts[k], x) + PassedBy(t, x)
  {
    hide PassedBy;
    var n := |ts| - 1;
    if k < n {
      PassesUpdate(ts[..n], k, t, x);
      assert ts[k := t][..n] == ts[..n][k := t];
    } else {
      assert ts[k := t][..n] == ts[..n];
    }
  }

  // ---------- an upper bound on one slot ----------

  ghost predicate SaneThread(s: State<nat>, t: Thread<nat>) {
    && t.next <= |t.locs| && (t.held.Some? ==> t.next < |t.locs|)
    && Distinct(t.locs) && forall j :: 0 <= j < |t.locs| ==> t.locs[j] in s.mem
  }

  ghost predicate Sane(s: State<nat>) {
    forall k :: 0 <= k < |s.threads| ==> SaneThread(s, s.threads[k])
  }

  predicate HeldAtMost(t: Thread<nat>, x: Loc, bound: int) {
    t.held.Some? && t.next < |t.locs| && t.locs[t.next] == x ==> t.held.value <= bound
  }

  /** The slot, and every copy of it a thread holds, is at most `top` plus the stores made to it. */
  ghost predicate AtMost(s: State<nat>, x: Loc, top: int) {
    && x in s.mem && s.mem[x] <= top + Count(s.stores, x)
    && forall k :: 0 <= k < |s.threads| ==> HeldAtMost(s.threads[k], x, top + Count(s.stores, x))
  }

  ghost predicate Owns(s: State<nat>, pools: seq<seq<Loc>>) {
    |s.threads| == |pools| && forall k :: 0 <= k < |pools| ==> s.threads[k].locs == pools[k]
  }

  ghost predicate Good(s: State<nat>, pools: seq<seq<Loc>>, x: Loc, top: int) {
    Sane(s) && Owns(s, pools) && AtMost(s, x, top) && Count(s.stores, x) == Passes(s.threads, x)
  }

  lemma StepSane(s: State<nat>, l: Label)
    requires Sane(s) && Enabled(s, l)
    ensures Sane(Apply(s, l, Increment))
  {
    var r := Apply(s, l, Increment);
    forall k | 0 <= k < |r.threads| ensures SaneThread(r, r.threads[k]) {
      assert SaneThread(s, s.threads[k]);
    }
  }

  lemma StepAtMost(s: State<nat>, l: Label, x: Loc, top: int)
    requires Sane(s) && Enabled(s, l) && AtMost(s, x, top)
    ensures AtMost(Apply(s, l, Increment), x, top)
  {
    hide Sane, Count;
    var t := s.threads[l.thread];
    CountNext(s.stores, t.locs[t.next], x);
    assert HeldAtMost(t, x, top + Count(s.stores, x));
  }

  lemma StepCount(s: State<nat>, l: Label, x: Loc)
    requires Sane(s) && Enabled(s, l) && Count(s.stores, x) == Passes(s.threads, x)
    ensures Count(Apply(s, l, Increment).stores, x) == Passes(Apply(s, l, Increment).threads, x)
  {
    hide Sane, Count, Passes;
    var t := s.threads[l.thread];
    var r := Apply(s, l, Increment);
    PassesUpdate(s.threads, l.thread, r.threads[l.thread], x);
    if l.Store? {
      CountNext(s.stores, t.locs[t.next], x);
      assert SaneThread(s, t) by { SaneAt(s, l.thread); }
      assert t.locs[..t.next + 1] == t.locs[..t.next] + [t.locs[t.next]];
      assert t.locs[t.next] !in t.locs[..t.next];
    }
  }

  lemma SaneAt(s: State<nat>, k: nat)
    requires Sane(s) && k < |s.threads|
    ensures SaneThread(s, s.threads[k])
  {
  }

  lemma {:induction false} RunGood(s: State<nat>, ls: seq<Label>, pools: seq<seq<Loc>>, x: Loc, top: int)
    requires Good(s, pools, x, top) && IsRun(s, ls, Increment)
    ensures Good(After(s, ls, Increment), pools, x, top)
    decreases |ls|
  {
    hide Sane, AtMost, Count, Passes;
    if ls == [] {
    } else {
      StepSane(s, ls[0]);
      StepAtMost(s, ls[0], x, top);
      StepCount(s, ls[0], x);
      RunGood(Apply(s, ls[0], Increment), ls[1..], pools, x, top);
    }
  }

  lemma {:induction false} FinishedPasses(ts: seq<Thread<nat>>, pools: seq<seq<Loc>>, x: Loc)
    requires |ts| == |pools| && forall k :: 0 <= k < |ts| ==> ts[k].locs == pools[k] && ts[k].next == |pools[k]|
    ensures Passes(ts, x) == Holders(pools, x)
  {
    if ts == [] {
    } else {
      var n := |ts| - 1;
      FinishedPasses(ts[..n], pools[..n], x);
      assert ts[n].locs[..ts[n].next] == pools[n];
    }
  }

  // ---------- runs that exist ----------

  ghost predicate Leads(s: State<nat>, ls: seq<Label>, r: State<nat>) {
    IsRun(s, ls, Increment) && After(s, ls, Increment) == r
  }

  lemma {:induction false} LeadsAppend(s: State<nat>, a: seq<Label>, r: State<nat>, b: seq<Label>, q: State<nat>)
    requires Leads(s, a, r) && Leads(r, b, q)
    ensures Leads(s, a + b, q)
    decreases |a|
  {
    if a == [] {
      assert a + b == b;
    } else {
      assert (a + b)[1..] == a[1..] + b;
      LeadsAppend(Apply(s, a[0], Increment), a[1..], r, b, q);
    }
  }

  lemma LeadsOne(s: State<nat>, l: Label)
    requires Enabled(s, l)
    ensures Leads(s, [l], Apply(s, l, Increment))
  {
    assert [l][1..] == [];
  }

  lemma LeadsNone(s: State<nat>)
    ensures Leads(s, [], s)
  {
  }

  /** A thread that holds nothing can run alone up to its `n`-th slot. */
  lemma {:induction false} Advance(s: State<nat>, k: nat, n: nat) returns (ls: seq<Label>, r: State<nat>)
    requires Sane(s) && k < |s.threads| && s.threads[k].held.None? && s.threads[k].next <= n <= |s.threads[k].locs|
    ensures Leads(s, ls, r) && Sane(r) && r.threads == s.threads[k := Thread(s.threads[k].locs, n, None)]
    decreases n - s.threads[k].next
  {
    hide Sane, Leads;
    SaneAt(s, k);
    if s.threads[k].next == n {
      LeadsNone(s);
      return [], s;
    }
    var s1 := Apply(s, Load(k), Increment);
    LeadsOne(s, Load(k));
    StepSane(s, Load(k));
    SaneAt(s1, k);
    var s2 := Apply(s1, Store(k), Increment);
    LeadsOne(s1, Store(k));
    StepSane(s1, Store(k));
    LeadsAppend(s, [Load(k)], s1, [Store(k)], s2);
    var rest;
    rest, r := Advance(s2, k, n);
    ls := [Load(k)] + [Store(k)] + rest;
    LeadsAppend(s, [Load(k)] + [Store(k)], s2, rest, r);
  }

  /** Every state has a run in which all threads from `k` on finish. */
  lemma {:induction false} Finish(s: State<nat>, k: nat) returns (ls: seq<Label>, r: State<nat>)
    requires Sane(s) && k <= |s.threads| && forall j :: 0 <= j < k ==> s.threads[j].next == |s.threads[j].locs|
    ensures Leads(s, ls, r) && Finished(r)
    decreases |s.threads| - k
  {
    hide Sane, Leads;
    if k == |s.threads| {
      LeadsNone(s);
      return [], s;
    }
    SaneAt(s, k);
    var first, s1 := [], s;
    LeadsNone(s);
    if s.threads[k].held.Some? {
      first, s1 := [Store(k)], Apply(s, Store(k), Increment);
      LeadsOne(s, Store(k));
      StepSane(s, Store(k));
      SaneAt(s1, k);
    }
    var second, s2 := Advance(s1, k, |s.threads[k].locs|);
    var third;
    third, r := Finish(s2, k + 1);
    LeadsAppend(s, first, s1, second, s2);
    LeadsAppend(s, first + second, s2, third, r);
    ls := first + second + third;
  }

  /** Both threads load the shared slot before either stores it. */
  lemma Collide(s: State<nat>, k: nat, l: nat, pools: seq<seq<Loc>>, x: Loc, top: int) returns (ls: seq<Label>,
        r: State<nat>)
    requires Good(s, pools, x, top) && k < |pools| && l < |pools| && k != l
    requires forall j :: 0 <= j < |pools| ==> s.threads[j].held.None?
    requires s.threads[k].next < |pools[k]| && pools[k][s.threads[k].next] == x
    requires s.threads[l].next < |pools[l]| && pools[l][s.threads[l].next] == x
    ensures Leads(s, ls, r) && Good(r, pools, x, top - 1)
  {
    hide Count, Passes, Leads, Sane, PassedBy;
    SaneAt(s, k);
    SaneAt(s, l);
    var s1 := Apply(s, Load(k), Increment);
    var s2 := Apply(s1, Load(l), Increment);
    var s3 := Apply(s2, Store(k), Increment);
    r := Apply(s3, Store(l), Increment);
    LeadsOne(s, Load(k));
    LeadsOne(s1, Load(l));
    LeadsOne(s2, Store(k));
    LeadsOne(s3, Store(l));
    LeadsAppend(s, [Load(k)], s1, [Load(l)], s2);
    LeadsAppend(s2, [Store(k)], s3, [Store(l)], r);
    ls := [Load(k)] + [Load(l)] + ([Store(k)] + [Store(l)]);
    LeadsAppend(s, [Load(k)] + [Load(l)], s2, [Store(k)] + [Store(l)], r);
    assert Good(r, pools, x, top) by {
      assert Leads(s, ls, r) && IsRun(s, ls, Increment) by { LeadsRun(s, ls, r); }
      LeadsAfter(s, ls, r);
      RunGood(s, ls, pools, x, top);
    }
    CountNext(s.stores, x, x);
    CountNext(s.stores + [x], x, x);
    assert r.stores == s.stores + [x] + [x] && r.mem[x] == s.mem[x] + 1;
  }

  lemma LeadsRun(s: State<nat>, ls: seq<Label>, r: State<nat>)
    requires Leads(s, ls, r)
    ensures IsRun(s, ls, Increment)
  {
  }

  lemma LeadsAfter(s: State<nat>, ls: seq<Label>, r: State<nat>)
    requires Leads(s, ls, r)
    ensures IsRun(s, ls, Increment) && After(s, ls, Increment) == r
  {
  }

  lemma BeginGood(mem: map<Loc, nat>, pools: seq<seq<Loc>>, x: Loc)
    requires Stored(mem, pools) && EachDistinct(pools) && x in mem
    ensures Good(Begin(mem, pools), pools, x, mem[x])
  {
    var s := Begin(mem, pools);
    NonePassed(s.threads, x);
    forall k | 0 <= k < |s.threads| ensures SaneThread(s, s.threads[k]) {
      assert Distinct(pools[k]);
    }
  }

  lemma {:induction false} NonePassed(ts: seq<Thread<nat>>, x: Loc)
    requires forall k :: 0 <= k < |ts| ==> ts[k].next == 0
    ensures Passes(ts, x) == 0
  {
    if ts == [] {
    } else {
      NonePassed(ts[..|ts| - 1], x);
    }
  }

  /** Two pools that share a slot have a finished interleaving that differs from the sequential loops. */
  lemma LosesUpdate(mem: map<Loc, nat>, pools: seq<seq<Loc>>, k: nat, l: nat, a: nat, b: nat) returns (ls: seq<Label>)
    requires Stored(mem, pools) && EachDistinct(pools) && k < l < |pools|
    requires a < |pools[k]| && b < |pools[l]| && pools[k][a] == pools[l][b]
    ensures IsRun(Begin(mem, pools), ls, Increment) && Finished(After(Begin(mem, pools), ls, Increment))
    ensures After(Begin(mem, pools), ls, Increment).mem != MapPools(mem, pools, Increment)
  {
    hide Good, Leads, Sane, Begin, EachDistinct, Distinct;
    var x := pools[k][a];
    var top: int := mem[x];
    var s := Begin(mem, pools);
    BeginThreads(mem, pools);
    BeginGood(mem, pools, x);
    GoodSane(s, pools, x, top);
    var l1, s1 := Advance(s, k, a);
    var l2, s2 := Advance(s1, l, b);
    LeadsAppend(s, l1, s1, l2, s2);
    LeadsAfter(s, l1 + l2, s2);
    RunGood(s, l1 + l2, pools, x, top);
    var l3, s3 := Collide(s2, k, l, pools, x, top);
    GoodSane(s3, pools, x, top - 1);
    var l4, s4 := Finish(s3, 0);
    LeadsAfter(s3, l4, s4);
    RunGood(s3, l4, pools, x, top - 1);
    LeadsAppend(s, l1 + l2, s2, l3, s3);
    LeadsAppend(s, l1 + l2 + l3, s3, l4, s4);
    ls := l1 + l2 + l3 + l4;
    LeadsAfter(s, ls, s4);
    FinalBelow(s4, pools, x, top - 1);
    SequentialAt(mem, pools, x);
  }

  lemma BeginThreads(mem: map<Loc, nat>, pools: seq<seq<Loc>>)
    ensures |Begin(mem, pools).threads| == |pools|
    ensures forall k :: 0 <= k < |pools| ==> Begin(mem, pools).threads[k] == Thread(pools[k], 0, None)
  {
  }

  lemma GoodSane(s: State<nat>, pools: seq<seq<Loc>>, x: Loc, top: int)
    requires Good(s, pools, x, top)
    ensures Sane(s)
  {
  }

  lemma FinalBelow(s: State<nat>, pools: seq<seq<Loc>>, x: Loc, top: int)
    requires Good(s, pools, x, top) && Finished(s)
    ensures x in s.mem && s.mem[x] <= top + Holders(pools, x)
  {
    FinishedPasses(s.threads, pools, x);
  }

  /**
   All finished interleavings agree with the sequential loops exactly when no two of the pools
   share a slot.
   */
  lemma AgreesIffDisjoint(mem: map<Loc, nat>, pools: seq<seq<Loc>>)
    requires Stored(mem, pools) && EachDistinct(pools)
    ensures (forall ls ::
        IsRun(Begin(mem, pools), ls, Increment) && Finished(After(Begin(mem, pools), ls, Increment)) ==>
        After(Begin(mem, pools), ls, Increment).mem == MapPools(mem, pools, Increment)) <==> Disjoint(pools)
  {
    if Disjoint(pools) {
      forall ls | IsRun(Begin(mem, pools), ls, Increment) && Finished(After(Begin(mem, pools), ls, Increment))
        ensures After(Begin(mem, pools), ls, Increment).mem == MapPools(mem, pools, Increment)
      {
        ParallelIsSequential(mem, pools, Increment, ls);
      }
    } else {
      var k, l, x :| 0 <= k < l < |pools| && x in pools[k] && x in pools[l];
      var a :| 0 <= a < |pools[k]| && pools[k][a] == x;
      var b :| 0 <= b < |pools[l]| && pools[l][b] == x;
      var ls := LosesUpdate(mem, pools, k, l, a, b);
    }
  }
}
