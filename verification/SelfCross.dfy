/**
 The self cross of a query: every pair of chunks of the matched pools is visited in both orders, and inside a
 pair of chunks only the lower triangle of index pairs.
 */
module SelfCross {
  import opened Common
  import opened Loops

  /** An entity slot: matched pool, chunk, index in the chunk. */
  datatype Slot = Slot(pool: nat, chunk: nat, elem: nat)

  datatype Call = Call(first: Slot, second: Slot)

  function One(p: nat, q: nat, k: nat, l: nat, i: nat, j: nat): seq<Call> {
    if p == q && k == l && i == j then [] else [Call(Slot(p, k, i), Slot(q, l, j))]
  }

  function RowFn(p: nat, q: nat, k: nat, l: nat, i: nat): nat -> seq<Call> {
    (j: nat) => One(p, q, k, l, i, j)
  }

  function Row(p: nat, q: nat, k: nat, l: nat, i: nat): seq<Call> {
    Flat(i + 1, RowFn(p, q, k, l, i))
  }

  function TriangleFn(p: nat, q: nat, k: nat, l: nat): nat -> seq<Call> {
    (i: nat) => Row(p, q, k, l, i)
  }

  /** One call of the triangle loop on chunk `k` of pool `p` and chunk `l` of pool `q`. */
  function Triangle(p: nat, q: nat, k: nat, l: nat, size: nat): seq<Call> {
    Flat(size, TriangleFn(p, q, k, l))
  }

  function SecondChunkFn(size: nat, p: nat, q: nat, k: nat): nat -> seq<Call> {
    (l: nat) => Triangle(p, q, k, l, size)
  }

  function OverSecondChunks(count: nat, size: nat, p: nat, q: nat, k: nat): seq<Call> {
    Flat(count, SecondChunkFn(size, p, q, k))
  }

  function FirstChunkFn(count: nat, size: nat, p: nat, q: nat): nat -> seq<Call> {
    (k: nat) => OverSecondChunks(count, size, p, q, k)
  }

  /** All chunk pairs of two pools with `count1` and `count2` chunks. */
  function OverChunks(count1: nat, count2: nat, size: nat, p: nat, q: nat): seq<Call> {
    Flat(count1, FirstChunkFn(count2, size, p, q))
  }

  function CountAt(chunks: seq<nat>, p: nat): nat {
    if p < |chunks| then chunks[p] else 0
  }

  /** The pool of the `i`-th match. */
  function PoolAt(ms: seq<nat>, i: nat): nat {
    if i < |ms| then ms[i] else 0
  }

  function SecondPoolFn(ms: seq<nat>, chunks: seq<nat>, size: nat, p: nat): nat -> seq<Call> {
    (j: nat) => OverChunks(CountAt(chunks, p), CountAt(chunks, PoolAt(ms, j)), size, p, PoolAt(ms, j))
  }

  function OverSecondPools(ms: seq<nat>, chunks: seq<nat>, size: nat, p: nat): seq<Call> {
    Flat(|ms|, SecondPoolFn(ms, chunks, size, p))
  }

  function FirstPoolFn(ms: seq<nat>, chunks: seq<nat>, size: nat): nat -> seq<Call> {
    (i: nat) => OverSecondPools(ms, chunks, size, PoolAt(ms, i))
  }

  /**
   All calls, in order, for the matched pools `ms`, which may repeat; `chunks[p]` is the number of chunks
   of registered pool `p`, all of `size` entities.
   */
  function Calls(ms: seq<nat>, chunks: seq<nat>, size: nat): seq<Call> {
    Flat(|ms|, FirstPoolFn(ms, chunks, size))
  }

  // ---------- the loops ----------

  method TriangleLoop(p: nat, q: nat, k: nat, l: nat, size: nat) returns (trace: seq<Call>)
    ensures trace == Triangle(p, q, k, l, size)
  {
    trace := [];
    for i := 0 to size
      invariant trace == Flat(i, TriangleFn(p, q, k, l))
    {
      ghost var before := trace;
      for j := 0 to i + 1
        invariant trace == before + Flat(j, RowFn(p, q, k, l, i))
      {
        if !(p == q && k == l && i == j) {
          trace := trace + [Call(Slot(p, k, i), Slot(q, l, j))];
        }
      }
    }
  }

  method ChunkLoop(count1: nat, count2: nat, size: nat, p: nat, q: nat) returns (trace: seq<Call>)
    ensures trace == OverChunks(count1, count2, size, p, q)
  {
    hide Triangle;
    trace := [];
    for k := 0 to count1
      invariant trace == Flat(k, FirstChunkFn(count2, size, p, q))
    {
      ghost var before := trace;
      for l := 0 to count2
        invariant trace == before + Flat(l, SecondChunkFn(size, p, q, k))
      {
        var inner := TriangleLoop(p, q, k, l, size);
        trace := trace + inner;
      }
    }
  }

  method SecondPoolLoop(ms: seq<nat>, chunks: seq<nat>, size: nat, p: nat) returns (trace: seq<Call>)
    requires p < |chunks| && forall k :: 0 <= k < |ms| ==> ms[k] < |chunks|
    ensures trace == OverSecondPools(ms, chunks, size, p)
  {
    hide OverChunks;
    trace := [];
    for j := 0 to |ms|
      invariant trace == Flat(j, SecondPoolFn(ms, chunks, size, p))
    {
      var inner := ChunkLoop(chunks[p], chunks[ms[j]], size, p, ms[j]);
      trace := trace + inner;
    }
  }

  /** The loops over the matched pools, each pool with each. */
  method SelfCrossLoop(ms: seq<nat>, chunks: seq<nat>, size: nat) returns (trace: seq<Call>)
    requires forall k :: 0 <= k < |ms| ==> ms[k] < |chunks|
    ensures trace == Calls(ms, chunks, size)
  {
    hide OverSecondPools;
    trace := [];
    for i := 0 to |ms|
      invariant trace == Flat(i, FirstPoolFn(ms, chunks, size))
    {
      var inner := SecondPoolLoop(ms, chunks, size, ms[i]);
      trace := trace + inner;
    }
  }

  // ---------- which pairs are visited ----------

  predicate IsSlot(chunks: seq<nat>, size: nat, x: Slot) {
    x.pool < |chunks| && x.chunk < chunks[x.pool] && x.elem < size
  }

  /** The first index is at least the second, and a slot is not paired with itself. */
  predicate Wanted(c: Call) {
    c.second.elem <= c.first.elem && c.first != c.second
  }

  lemma RowMember(p: nat, q: nat, k: nat, l: nat, i: nat, c: Call)
    ensures c in Row(p, q, k, l, i) <==>
      c.first == Slot(p, k, i) && c.second.pool == q && c.second.chunk == l && Wanted(c)
    ensures Distinct(Row(p, q, k, l, i))
  {
    var f := RowFn(p, q, k, l, i);
    FlatMember(i + 1, f, c);
    forall j: nat, m: nat | j < m ensures Apart(f(j), f(m)) { }
    FlatDistinct(i + 1, f);
    assert c in f(c.second.elem) <==> c in One(p, q, k, l, i, c.second.elem);
  }

  lemma RowsApart(p: nat, q: nat, k: nat, l: nat, i: nat, m: nat)
    requires i != m
    ensures Apart(Row(p, q, k, l, i), Row(p, q, k, l, m))
  {
    hide Row;
    var a, b := Row(p, q, k, l, i), Row(p, q, k, l, m);
    forall x, y | 0 <= x < |a| && 0 <= y < |b| ensures a[x] != b[y] {
      RowMember(p, q, k, l, i, a[x]);
      RowMember(p, q, k, l, m, b[y]);
    }
  }

  lemma TriangleMember(p: nat, q: nat, k: nat, l: nat, size: nat, c: Call)
    ensures c in Triangle(p, q, k, l, size) <==>
      c.first.pool == p && c.first.chunk == k && c.first.elem < size && c.second.pool == q && c.second.chunk == l &&
        Wanted(c)
    ensures Distinct(Triangle(p, q, k, l, size))
  {
    hide Row;
    var f := TriangleFn(p, q, k, l);
    forall i: nat, m: nat | i < m ensures Apart(f(i), f(m)) { RowsApart(p, q, k, l, i, m); }
    forall i: nat ensures Distinct(f(i)) { RowMember(p, q, k, l, i, c); }
    FlatDistinct(size, f);
    FlatMember(size, f, c);
    RowMember(p, q, k, l, c.first.elem, c);
    assert f(c.first.elem) == Row(p, q, k, l, c.first.elem);
    if i: nat :| i < size && c in f(i) { RowMember(p, q, k, l, i, c); }
  }

  lemma TrianglesApart(p: nat, q: nat, k: nat, l: nat, m: nat, size: nat)
    requires l != m
    ensures Apart(Triangle(p, q, k, l, size), Triangle(p, q, k, m, size))
  {
    hide Triangle;
    var a, b := Triangle(p, q, k, l, size), Triangle(p, q, k, m, size);
    forall x, y | 0 <= x < |a| && 0 <= y < |b| ensures a[x] != b[y] {
      TriangleMember(p, q, k, l, size, a[x]);
      TriangleMember(p, q, k, m, size, b[y]);
    }
  }

  lemma SecondChunksMember(count: nat, size: nat, p: nat, q: nat, k: nat, c: Call)
    ensures c in OverSecondChunks(count, size, p, q, k) <==>
      c.first.pool == p && c.first.chunk == k && c.first.elem < size && c.second.pool == q && c.second.chunk < count &&
        Wanted(c)
    ensures Distinct(OverSecondChunks(count, size, p, q, k))
  {
    hide Triangle;
    var f := SecondChunkFn(size, p, q, k);
    forall l: nat, m: nat | l < m ensures Apart(f(l), f(m)) { TrianglesApart(p, q, k, l, m, size); }
    forall l: nat ensures Distinct(f(l)) { TriangleMember(p, q, k, l, size, c); }
    FlatDistinct(count, f);
    FlatMember(count, f, c);
    TriangleMember(p, q, k, c.second.chunk, size, c);
    assert f(c.second.chunk) == Triangle(p, q, k, c.second.chunk, size);
    if l: nat :| l < count && c in f(l) { TriangleMember(p, q, k, l, size, c); }
  }

  lemma SecondChunksApart(count: nat, size: nat, p: nat, q: nat, k: nat, m: nat)
    requires k != m
    ensures Apart(OverSecondChunks(count, size, p, q, k), OverSecondChunks(count, size, p, q, m))
  {
    hide OverSecondChunks;
    var a, b := OverSecondChunks(count, size, p, q, k), OverSecondChunks(count, size, p, q, m);
    forall x, y | 0 <= x < |a| && 0 <= y < |b| ensures a[x] != b[y] {
      SecondChunksMember(count, size, p, q, k, a[x]);
      SecondChunksMember(count, size, p, q, m, b[y]);
    }
  }

  lemma ChunksMember(count1: nat, count2: nat, size: nat, p: nat, q: nat, c: Call)
    ensures c in OverChunks(count1, count2, size, p, q) <==>
      c.first.pool == p && c.first.chunk < count1 && c.first.elem < size && c.second.pool == q &&
        c.second.chunk < count2 && Wanted(c)
    ensures Distinct(OverChunks(count1, count2, size, p, q))
  {
    hide OverSecondChunks;
    var f := FirstChunkFn(count2, size, p, q);
    forall k: nat, m: nat | k < m ensures Apart(f(k), f(m)) { SecondChunksApart(count2, size, p, q, k, m); }
    forall k: nat ensures Distinct(f(k)) { SecondChunksMember(count2, size, p, q, k, c); }
    FlatDistinct(count1, f);
    FlatMember(count1, f, c);
    SecondChunksMember(count2, size, p, q, c.first.chunk, c);
    assert f(c.first.chunk) == OverSecondChunks(count2, size, p, q, c.first.chunk);
    if k: nat :| k < count1 && c in f(k) { SecondChunksMember(count2, size, p, q, k, c); }
  }

  // ---------- how often a call is made ----------

  function Occurrences(ms: seq<nat>, i: nat): nat {
    multiset(ms)[i]
  }

  function Times(calls: seq<Call>, c: Call): nat {
    multiset(calls)[c]
  }

  lemma OccurrencesNext(ms: seq<nat>, n: nat, i: nat)
    requires n < |ms|
    ensures Occurrences(ms[..n + 1], i) == Occurrences(ms[..n], i) + if ms[n] == i then 1 else 0
  {
    assert ms[..n + 1] == ms[..n] + [ms[n]];
  }

  lemma TimesNext(n: nat, f: nat -> seq<Call>, c: Call)
    ensures Times(Flat(n + 1, f), c) == Times(Flat(n, f), c) + Times(f(n), c)
    ensures Times(Flat(0, f), c) == 0
  {
  }

  /** The call pairs the two pools it names, apart from which matches they come from. */
  predicate Possible(chunks: seq<nat>, size: nat, c: Call) {
    IsSlot(chunks, size, c.first) && IsSlot(chunks, size, c.second) && Wanted(c)
  }

  lemma OneMatchTimes(chunks: seq<nat>, size: nat, p: nat, q: nat, c: Call)
    requires p < |chunks| && q < |chunks|
    ensures Times(OverChunks(chunks[p], chunks[q], size, p, q), c) ==
      if Possible(chunks, size, c) && c.first.pool == p && c.second.pool == q then 1 else 0
  {
    ChunksMember(chunks[p], chunks[q], size, p, q, c);
    hide OverChunks;
    DistinctCount(OverChunks(chunks[p], chunks[q], size, p, q), c);
  }

  lemma {:induction false} SecondPoolsTimes(ms: seq<nat>, chunks: seq<nat>, size: nat, p: nat, n: nat, c: Call)
    requires n <= |ms| && p < |chunks| && forall k :: 0 <= k < |ms| ==> ms[k] < |chunks|
    ensures Times(Flat(n, SecondPoolFn(ms, chunks, size, p)), c) ==
      if Possible(chunks, size, c) && c.first.pool == p then Occurrences(ms[..n], c.second.pool) else 0
  {
    hide Times, Flat, Possible, OverChunks;
    var f := SecondPoolFn(ms, chunks, size, p);
    if n == 0 {
      TimesNext(0, f, c);
      assert ms[..0] == [];
    } else {
      TimesNext(n - 1, f, c);
      SecondPoolsTimes(ms, chunks, size, p, n - 1, c);
      OneMatchTimes(chunks, size, p, ms[n - 1], c);
      OccurrencesNext(ms, n - 1, c.second.pool);
    }
  }

  lemma {:induction false} FirstPoolsTimes(ms: seq<nat>, chunks: seq<nat>, size: nat, n: nat, c: Call)
    requires n <= |ms| && forall k :: 0 <= k < |ms| ==> ms[k] < |chunks|
    ensures Times(Flat(n, FirstPoolFn(ms, chunks, size)), c) ==
      if Possible(chunks, size, c) then Occurrences(ms[..n], c.first.pool) * Occurrences(ms, c.second.pool) else 0
  {
    hide Times, Flat, Possible, Occurrences;
    var f := FirstPoolFn(ms, chunks, size);
    if n == 0 {
      TimesNext(0, f, c);
      assert ms[..0] == [] && Occurrences([], c.first.pool) == 0 by { NoOccurrences(c.first.pool); }
    } else {
      TimesNext(n - 1, f, c);
      FirstPoolsTimes(ms, chunks, size, n - 1, c);
      SecondPoolsTimes(ms, chunks, size, ms[n - 1], |ms|, c);
      assert ms[..|ms|] == ms;
      OccurrencesNext(ms, n - 1, c.first.pool);
      ProductNext(Occurrences(ms[..n - 1], c.first.pool), Occurrences(ms, c.second.pool));
    }
  }

  lemma NoOccurrences(i: nat)
    ensures Occurrences([], i) == 0
  {
  }

  /**
   A possible call is made once for each match of its first pool and each match of its second; no other call is
   made.
   */
  lemma CallTimes(ms: seq<nat>, chunks: seq<nat>, size: nat, c: Call)
    requires forall k :: 0 <= k < |ms| ==> ms[k] < |chunks|
    ensures Times(Calls(ms, chunks, size), c) ==
      if Possible(chunks, size, c) then Occurrences(ms, c.first.pool) * Occurrences(ms, c.second.pool) else 0
  {
    hide Times, Possible, Occurrences;
    FirstPoolsTimes(ms, chunks, size, |ms|, c);
    assert ms[..|ms|] == ms;
  }

  /** With every pool matched once: pairs of slots in the lower triangle, a slot never with itself, each once. */
  lemma CallsAre(ms: seq<nat>, chunks: seq<nat>, size: nat, c: Call)
    requires Distinct(ms) && forall k :: 0 <= k < |ms| ==> ms[k] < |chunks|
    ensures c in Calls(ms, chunks, size) <==> Possible(chunks, size, c) && c.first.pool in ms && c.second.pool in ms
    ensures Distinct(Calls(ms, chunks, size))
  {
    hide Possible, Calls, Distinct;
    forall d ensures multiset(Calls(ms, chunks, size))[d] ==
      if Possible(chunks, size, d) && d.first.pool in ms && d.second.pool in ms then 1 else 0
    {
      CallTimes(ms, chunks, size, d);
      DistinctCount(ms, d.first.pool);
      DistinctCount(ms, d.second.pool);
    }
    assert c in Calls(ms, chunks, size) <==> c in multiset(Calls(ms, chunks, size));
    CountsDistinct(Calls(ms, chunks, size));
  }

  /** How often the unordered pair of two slots is visited. */
  function Visits(ms: seq<nat>, chunks: seq<nat>, size: nat, x: Slot, y: Slot): nat {
    Times(Calls(ms, chunks, size), Call(x, y)) + if x != y then Times(Calls(ms, chunks, size), Call(y, x)) else 0
  }

  /**
   No slot is paired with itself. Two distinct slots of pools matched a and b times are visited a times b times, and
   twice as often if they have the same index in different chunks, half of the visits in each order.
   */
  lemma PairVisits(ms: seq<nat>, chunks: seq<nat>, size: nat, x: Slot, y: Slot)
    requires forall k :: 0 <= k < |ms| ==> ms[k] < |chunks|
    requires IsSlot(chunks, size, x) && IsSlot(chunks, size, y)
    ensures Visits(ms, chunks, size, x, y) ==
      if x == y then 0
      else Occurrences(ms, x.pool) * Occurrences(ms, y.pool) * if x.elem == y.elem then 2 else 1
  {
    hide Calls, Times, Occurrences;
    CallTimes(ms, chunks, size, Call(x, y));
    CallTimes(ms, chunks, size, Call(y, x));
    Commutes(Occurrences(ms, x.pool), Occurrences(ms, y.pool));
  }

  lemma Commutes(a: int, b: int)
    ensures a * b == b * a
  {
  }

  // ---------- how many calls ----------

  /** Chunks of the first `n` matches. */
  function ChunksBelow(ms: seq<nat>, chunks: seq<nat>, n: nat): nat {
    if n == 0 then 0 else ChunksBelow(ms, chunks, n - 1) + CountAt(chunks, PoolAt(ms, n - 1))
  }

  /** The same, each match counted as often as its pool is matched. */
  function SharedBelow(ms: seq<nat>, chunks: seq<nat>, n: nat): nat {
    if n == 0 then 0
    else SharedBelow(ms, chunks, n - 1) + CountAt(chunks, PoolAt(ms, n - 1)) * Occurrences(ms, PoolAt(ms, n - 1))
  }

  lemma {:induction false} RowCount(p: nat, q: nat, k: nat, l: nat, i: nat, n: nat)
    ensures |Flat(n, RowFn(p, q, k, l, i))| == n - if p == q && k == l && i < n then 1 else 0
  {
    if n == 0 {
    } else {
      RowCount(p, q, k, l, i, n - 1);
    }
  }

  function Diagonal(same: bool, size: nat): nat {
    if same then size else 0
  }

  /** Twice the calls of one triangle. */
  lemma {:induction false} TriangleCount(p: nat, q: nat, k: nat, l: nat, n: nat)
    ensures 2 * |Flat(n, TriangleFn(p, q, k, l))| == n * (n + 1) - 2 * Diagonal(p == q && k == l, n)
  {
    if n == 0 {
    } else {
      TriangleCount(p, q, k, l, n - 1);
      RowCount(p, q, k, l, n - 1, n);
      assert n * (n + 1) == (n - 1) * n + 2 * n;
    }
  }

  lemma {:induction false} SecondChunksCount(n: nat, size: nat, p: nat, q: nat, k: nat)
    ensures 2 * |Flat(n, SecondChunkFn(size, p, q, k))| == n * (size * (size + 1)) - 2 * Diagonal(p == q && k < n, size)
  {
    if n > 0 {
      hide Flat;
      FlatNext(n - 1, SecondChunkFn(size, p, q, k));
      SecondChunksCount(n - 1, size, p, q, k);
      TriangleCount(p, q, k, n - 1, size);
      ProductNext(n - 1, size * (size + 1));
    } else {
      FlatNone(SecondChunkFn(size, p, q, k));
    }
  }

  lemma FlatNext<T>(n: nat, f: nat -> seq<T>)
    ensures Flat(n + 1, f) == Flat(n, f) + f(n)
  {
  }

  lemma FlatNone<T>(f: nat -> seq<T>)
    ensures Flat(0, f) == []
  {
  }

  lemma {:induction false} ChunksCount(n: nat, count2: nat, size: nat, p: nat, q: nat)
    requires p == q ==> n <= count2
    ensures 2 * |Flat(n, FirstChunkFn(count2, size, p, q))| ==
      n * (count2 * (size * (size + 1))) - 2 * (n * Diagonal(p == q, size))
  {
    if n > 0 {
      hide Flat;
      FlatNext(n - 1, FirstChunkFn(count2, size, p, q));
      ChunksCount(n - 1, count2, size, p, q);
      SecondChunksCount(count2, size, p, q, n - 1);
      ProductNext(n - 1, count2 * (size * (size + 1)));
      ProductNext(n - 1, Diagonal(p == q, size));
    } else {
      FlatNone(FirstChunkFn(count2, size, p, q));
    }
  }

  lemma AddScaled(a: int, b: int, c: int, t: int, d: int, e: int, x: int, y: int)
    requires x == a * (b * t) - 2 * (a * d) && y == a * (c * t) - 2 * (a * e)
    ensures x + y == a * ((b + c) * t) - 2 * (a * (d + e))
  {
    assert (b + c) * t == b * t + c * t;
    assert a * (b * t + c * t) == a * (b * t) + a * (c * t);
    assert a * (d + e) == a * d + a * e;
  }

  lemma {:induction false} SecondPoolsCount(ms: seq<nat>, chunks: seq<nat>, size: nat, p: nat, n: nat)
    requires n <= |ms|
    ensures 2 * |Flat(n, SecondPoolFn(ms, chunks, size, p))| ==
      CountAt(chunks, p) * (ChunksBelow(ms, chunks, n) * (size * (size + 1))) - 2 * (CountAt(chunks,
        p) * (Occurrences(ms[..n], p) * size))
  {
    hide Flat, Occurrences;
    var f := SecondPoolFn(ms, chunks, size, p);
    var k := CountAt(chunks, p);
    if n == 0 {
      FlatNone(f);
      assert ms[..0] == [];
      NoOccurrences(p);
    } else {
      var q := ms[n - 1];
      FlatNext(n - 1, f);
      SecondPoolsCount(ms, chunks, size, p, n - 1);
      ChunksCount(k, CountAt(chunks, q), size, p, q);
      assert f(n - 1) == OverChunks(k, CountAt(chunks, q), size, p, q);
      OccurrencesNext(ms, n - 1, p);
      AddScaled(k, ChunksBelow(ms, chunks, n - 1), CountAt(chunks, q), size * (size + 1),
        Occurrences(ms[..n - 1], p) * size, Diagonal(p == q, size), 2 * |Flat(n - 1, f)|, 2 * |f(n - 1)|);
      ProductNext(Occurrences(ms[..n - 1], p), size);
    }
  }

  lemma AddProducts(b: int, c: int, t: int, d: int, e: int, s: int, x: int, y: int)
    requires x == b * t - 2 * (d * s) && y == c * t - 2 * (c * (e * s))
    ensures x + y == (b + c) * t - 2 * ((d + c * e) * s)
  {
    assert (b + c) * t == b * t + c * t;
    assert (d + c * e) * s == d * s + c * e * s;
    assert c * (e * s) == c * e * s;
  }

  lemma {:induction false} PoolsCount(ms: seq<nat>, chunks: seq<nat>, size: nat, n: nat)
    requires n <= |ms|
    ensures 2 * |Flat(n, FirstPoolFn(ms, chunks, size))| ==
      ChunksBelow(ms, chunks, n) * (ChunksBelow(ms, chunks, |ms|) * (size * (size + 1))) - 2 * (SharedBelow(ms, chunks,
        n) * size)
  {
    hide Flat, Occurrences;
    var f := FirstPoolFn(ms, chunks, size);
    if n == 0 {
      FlatNone(f);
    } else {
      var p := ms[n - 1];
      FlatNext(n - 1, f);
      PoolsCount(ms, chunks, size, n - 1);
      SecondPoolsCount(ms, chunks, size, p, |ms|);
      assert ms[..|ms|] == ms && f(n - 1) == OverSecondPools(ms, chunks, size, p);
      AddProducts(ChunksBelow(ms, chunks, n - 1), CountAt(chunks, p),
        ChunksBelow(ms, chunks, |ms|) * (size * (size + 1)),
        SharedBelow(ms, chunks, n - 1), Occurrences(ms, p), size, 2 * |Flat(n - 1, f)|, 2 * |f(n - 1)|);
    }
  }

  lemma {:induction false} SharedIsScaled(ms: seq<nat>, chunks: seq<nat>, t: nat, n: nat)
    requires n <= |ms| && forall k :: 0 <= k < |ms| ==> Occurrences(ms, ms[k]) == t
    ensures SharedBelow(ms, chunks, n) == ChunksBelow(ms, chunks, n) * t
  {
    hide Occurrences;
    if n == 0 {
    } else {
      SharedIsScaled(ms, chunks, t, n - 1);
      Distribute(ChunksBelow(ms, chunks, n - 1), CountAt(chunks, ms[n - 1]), t);
    }
  }

  lemma Distribute(a: int, b: int, t: int)
    ensures (a + b) * t == a * t + b * t
  {
  }

  /**
   With M chunks of s slots each over all matches, and every matched pool matched t times, the operation is called
   M s (M s + M - 2 t) / 2 times.
   */
  lemma CallCount(ms: seq<nat>, chunks: seq<nat>, size: nat, t: nat)
    requires forall k :: 0 <= k < |ms| ==> Occurrences(ms, ms[k]) == t
    ensures var m := ChunksBelow(ms, chunks, |ms|);
      2 * |Calls(ms, chunks, size)| == m * size * (m * size + m - 2 * t)
  {
    PoolsCount(ms, chunks, size, |ms|);
    SharedIsScaled(ms, chunks, t, |ms|);
    Factor(ChunksBelow(ms, chunks, |ms|), size, t);
  }

  lemma Factor(m: int, s: int, t: int)
    ensures m * (m * (s * (s + 1))) - 2 * (m * t * s) == m * s * (m * s + m - 2 * t)
  {
    var a := m * s;
    assert m * (m * (s * (s + 1))) == a * (a + m) by {
      assert m * (s * (s + 1)) == a * (s + 1);
      assert m * (a * (s + 1)) == a * (m * (s + 1));
      assert m * (s + 1) == a + m;
    }
    assert m * t * s == a * t;
    assert a * (a + m) - 2 * (a * t) == a * (a + m - 2 * t) by {
      Distribute(a + m, -2 * t, a);
      Commutes(a, a + m - 2 * t);
    }
  }

  // ---------- chunks of different sizes ----------

  /** The triangle loop on chunks of `size1` and `size2` entities never indexes past either. */
  predicate InBounds(size1: nat, size2: nat) {
    forall i: nat :: i < size1 ==> RowInBounds(i, size2)
  }

  predicate RowInBounds(i: nat, size2: nat) {
    i < size2
  }

  /** The loops stay in bounds on all pairs of chunks exactly when all chunks have the same size. */
  lemma InBoundsIff(sizes: seq<nat>)
    ensures (forall a, b :: 0 <= a < |sizes| && 0 <= b < |sizes| ==> InBounds(sizes[a], sizes[b])) <==>
      (forall a, b :: 0 <= a < |sizes| && 0 <= b < |sizes| ==> sizes[a] == sizes[b])
  {
    if forall a, b :: 0 <= a < |sizes| && 0 <= b < |sizes| ==> InBounds(sizes[a], sizes[b]) {
      forall a, b | 0 <= a < |sizes| && 0 <= b < |sizes| ensures sizes[a] <= sizes[b] {
        assert InBounds(sizes[a], sizes[b]);
        if sizes[a] > 0 {
          assert RowInBounds(sizes[a] - 1, sizes[b]);
        }
      }
    }
  }
}
