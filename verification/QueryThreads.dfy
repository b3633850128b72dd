/** A query used through the manager, mapped with one thread per matched pool. */
module QueryThreads {
  import opened Common
  import opened ParallelMap
  import opened QueryMatch
  import opened LostUpdates
  import StatusSystem
  import TypeSets

  /** Chunks of a registered pool, and their size. */
  datatype Shape = Shape(chunks: nat, size: nat)

  /** The slots of pool `k` in the order its thread visits them. */
  function SlotsOf(shapes: seq<Shape>, k: nat): (s: seq<Loc>)
    requires k < |shapes|
    ensures |s| == |StatusSystem.Order(shapes[k].chunks, shapes[k].size)|
    ensures forall i :: 0 <= i < |s| ==> s[i] == Loc(k, StatusSystem.Order(shapes[k].chunks, shapes[k].size)[i])
  {
    var order := StatusSystem.Order(shapes[k].chunks, shapes[k].size);
    seq(|order|, i requires 0 <= i < |order| => Loc(k, order[i]))
  }

  predicate InRange(m: seq<Match>, n: nat) {
    forall j :: 0 <= j < |m| ==> m[j].pool < n
  }

  predicate Increasing(m: seq<Match>) {
    forall i, j :: 0 <= i < j < |m| ==> m[i].pool < m[j].pool
  }

  /** One list of slots for each match, in the order of the matches. */
  function Threads(shapes: seq<Shape>, matches: seq<Match>): (ts: seq<seq<Loc>>)
    requires InRange(matches, |shapes|)
    ensures |ts| == |matches| && forall j :: 0 <= j < |ts| ==> ts[j] == SlotsOf(shapes, matches[j].pool)
  {
    seq(|matches|, j requires 0 <= j < |matches| => SlotsOf(shapes, matches[j].pool))
  }

  lemma InRangeAppend(a: seq<Match>, b: seq<Match>, n: nat)
    requires InRange(a, n) && InRange(b, n)
    ensures InRange(a + b, n)
  {
  }

  lemma {:induction false} MatchAllIncreasing(requested: seq<TypeSets.TypeName>, pools: seq<seq<TypeSets.TypeName>>,
        n: nat)
    requires n <= |pools|
    ensures InRange(MatchAll(requested, pools, n), n) && Increasing(MatchAll(requested, pools, n))
  {
    hide TryAdd;
    if n == 0 {
    } else {
      MatchAllIncreasing(requested, pools, n - 1);
      var a, b := MatchAll(requested, pools, n - 1), MatchOne(requested, pools, n - 1);
      assert |b| <= 1 && forall j :: 0 <= j < |b| ==> b[j].pool == n - 1;
      assert Increasing(a + b) && InRange(a + b, n);
    }
  }

  lemma {:induction false} InitializedInRange(requested: seq<TypeSets.TypeName>, pools: seq<seq<TypeSets.TypeName>>,
        times: nat)
    ensures InRange(InitializedTimes(requested, pools, times), |pools|)
  {
    hide MatchAll;
    if times == 0 {
    } else {
      InitializedInRange(requested, pools, times - 1);
      MatchAllIncreasing(requested, pools, |pools|);
      var a, b := InitializedTimes(requested, pools, times - 1), MatchAll(requested, pools, |pools|);
      InRangeAppend(a, b, |pools|);
    }
  }

  lemma ThreadsDistinct(shapes: seq<Shape>, matches: seq<Match>)
    requires InRange(matches, |shapes|)
    ensures EachDistinct(Threads(shapes, matches))
  {
    var ts := Threads(shapes, matches);
    forall k | 0 <= k < |ts| ensures Distinct(ts[k]) {
      var shape := shapes[matches[k].pool];
      StatusSystem.OrderDistinct(shape.chunks, shape.size);
      assert ts[k] == SlotsOf(shapes, matches[k].pool);
    }
  }

  /** Matches that name each pool once give threads that share no slot. */
  lemma OnceDisjoint(shapes: seq<Shape>, matches: seq<Match>)
    requires InRange(matches, |shapes|)
    requires Increasing(matches)
    ensures Disjoint(Threads(shapes, matches))
  {
    var ts := Threads(shapes, matches);
    ThreadsDistinct(shapes, matches);
    forall k, l, x | 0 <= k < l < |ts| && x in ts[k] ensures x !in ts[l] {
      assert ts[k] == SlotsOf(shapes, matches[k].pool) && ts[l] == SlotsOf(shapes, matches[l].pool);
    }
  }

  /** After two uses the first match occurs again, so two threads share its slots. */
  lemma TwiceShared(
      requested: seq<TypeSets.TypeName>, pools: seq<seq<TypeSets.TypeName>>, shapes: seq<Shape>, times: nat, j: nat)
    requires |shapes| == |pools| && times >= 2
    requires var m := MatchAll(requested, pools, |pools|);
      j < |m| && m[j].pool < |shapes| && SlotsOf(shapes, m[j].pool) != []
    ensures InRange(InitializedTimes(requested, pools, times), |shapes|)
    ensures !Disjoint(Threads(shapes, InitializedTimes(requested, pools, times)))
  {
    hide MatchAll;
    var m := MatchAll(requested, pools, |pools|);
    InitializedInRange(requested, pools, times);
    var all := InitializedTimes(requested, pools, times);
    var before := InitializedTimes(requested, pools, times - 1);
    assert all == before + m;
    assert before == InitializedTimes(requested, pools, times - 2) + m;
    var a, b := |before| - |m| + j, |before| + j;
    assert all[a] == m[j] == all[b];
    var ts := Threads(shapes, all);
    var x := SlotsOf(shapes, m[j].pool)[0];
    assert ts[a] == SlotsOf(shapes, m[j].pool) == ts[b];
    assert x in ts[a] && x in ts[b];
  }

  /** The threads of a parallel map after `times` uses through the manager. */
  function ThreadsAfter(
      requested: seq<TypeSets.TypeName>, pools: seq<seq<TypeSets.TypeName>>, shapes: seq<Shape>,
        times: nat): seq<seq<Loc>>
    requires |shapes| == |pools|
  {
    InitializedInRange(requested, pools, times);
    Threads(shapes, InitializedTimes(requested, pools, times))
  }

  /** The query matches a pool that has a slot. */
  ghost predicate MatchesASlot(requested: seq<TypeSets.TypeName>, pools: seq<seq<TypeSets.TypeName>>,
        shapes: seq<Shape>) {
    var m := MatchAll(requested, pools, |pools|);
    exists j :: 0 <= j < |m| && m[j].pool < |shapes| && SlotsOf(shapes, m[j].pool) != []
  }

  /**
   A query that matches some pool with a slot, mapped in parallel after `times` uses through the manager: every
   finished interleaving of an increment agrees with the sequential loops if and only if it was used at most once.
   */
  lemma AgreesIffUsedOnce(
      requested: seq<TypeSets.TypeName>, pools: seq<seq<TypeSets.TypeName>>, shapes: seq<Shape>, times: nat,
        mem: map<Loc, nat>)
    requires |shapes| == |pools| && MatchesASlot(requested, pools, shapes)
    requires Stored(mem, ThreadsAfter(requested, pools, shapes, times))
    ensures var ts := ThreadsAfter(requested, pools, shapes, times);
      (forall ls :: IsRun(Begin(mem, ts), ls, Increment) && Finished(After(Begin(mem, ts), ls, Increment)) ==>
        After(Begin(mem, ts), ls, Increment).mem == MapPools(mem, ts, Increment)) <==> times <= 1
  {
    hide MatchAll, Disjoint, EachDistinct, Stored, IsRun, After, Finished, Begin, MapPools;
    var all := InitializedTimes(requested, pools, times);
    InitializedInRange(requested, pools, times);
    ThreadsDistinct(shapes, all);
    AgreesIffDisjoint(mem, Threads(shapes, all));
    var m := MatchAll(requested, pools, |pools|);
    if times <= 1 {
      MatchAllIncreasing(requested, pools, |pools|);
      assert times == 1 ==> all == [] + m == m;
      OnceDisjoint(shapes, all);
    } else {
      var j :| 0 <= j < |m| && m[j].pool < |shapes| && SlotsOf(shapes, m[j].pool) != [];
      TwiceShared(requested, pools, shapes, times, j);
    }
  }
}
