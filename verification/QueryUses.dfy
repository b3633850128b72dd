/** A query used several times through the manager, and its self cross: the matches repeat, and so do the visits. */
module QueryUses {
  import opened Common
  import opened QueryMatch
  import opened SelfCross
  import QueryThreads
  import TypeSets

  type Names = seq<TypeSets.TypeName>

  /** The registered pool of each match. */
  function PoolsOf(m: seq<Match>): (ms: seq<nat>)
    ensures |ms| == |m| && forall k :: 0 <= k < |m| ==> ms[k] == m[k].pool
  {
    seq(|m|, k requires 0 <= k < |m| => m[k].pool)
  }

  predicate IsMatched(requested: Names, pools: seq<Names>, i: nat) {
    i < |pools| && TryAdd(requested, pools[i]).Some?
  }

  lemma {:induction false} MatchedOnce(requested: Names, pools: seq<Names>, n: nat, i: nat)
    requires n <= |pools|
    ensures Occurrences(PoolsOf(MatchAll(requested, pools, n)), i) ==
      if i < n && IsMatched(requested, pools, i) then 1 else 0
  {
    hide TryAdd, Occurrences;
    if n == 0 {
      NoOccurrences(i);
      assert PoolsOf([]) == [];
    } else {
      MatchedOnce(requested, pools, n - 1, i);
      var a, b := MatchAll(requested, pools, n - 1), MatchOne(requested, pools, n - 1);
      OccurrencesAppend(a, b, i);
      OccurrencesOne(b, i);
    }
  }

  lemma OccurrencesAppend(a: seq<Match>, b: seq<Match>, i: nat)
    ensures Occurrences(PoolsOf(a + b), i) == Occurrences(PoolsOf(a), i) + Occurrences(PoolsOf(b), i)
  {
    assert PoolsOf(a + b) == PoolsOf(a) + PoolsOf(b);
  }

  lemma OccurrencesOne(b: seq<Match>, i: nat)
    requires |b| <= 1
    ensures Occurrences(PoolsOf(b), i) == if |b| == 1 && b[0].pool == i then 1 else 0
  {
    assert PoolsOf(b) == if |b| == 1 then [b[0].pool] else [];
  }

  /** After `times` uses each matching pool is held `times` times. */
  lemma {:induction false} MatchedTimes(requested: Names, pools: seq<Names>, times: nat, i: nat)
    ensures Occurrences(PoolsOf(InitializedTimes(requested, pools, times)), i) ==
      if IsMatched(requested, pools, i) then times else 0
  {
    hide Occurrences, MatchAll;
    if times == 0 {
      NoOccurrences(i);
      assert PoolsOf([]) == [];
    } else {
      MatchedTimes(requested, pools, times - 1, i);
      MatchedOnce(requested, pools, |pools|, i);
      OccurrencesAppend(InitializedTimes(requested, pools, times - 1), MatchAll(requested, pools, |pools|), i);
    }
  }

  /**
   The self cross after `times` uses through the manager visits each pair of distinct slots of matching pools
   `times` times `times`, and twice as often if they have the same index in different chunks.
   */
  lemma VisitsAfterUses(requested: Names, pools: seq<Names>, chunks: seq<nat>, size: nat, times: nat, x: Slot, y: Slot)
    requires |chunks| == |pools| && IsSlot(chunks, size, x) && IsSlot(chunks, size, y)
    requires IsMatched(requested, pools, x.pool) && IsMatched(requested, pools, y.pool)
    ensures Visits(PoolsOf(InitializedTimes(requested, pools, times)), chunks, size, x, y) ==
      if x == y then 0 else times * times * if x.elem == y.elem then 2 else 1
  {
    hide Visits, Occurrences, InitializedTimes, IsMatched;
    QueryThreads.InitializedInRange(requested, pools, times);
    MatchedTimes(requested, pools, times, x.pool);
    MatchedTimes(requested, pools, times, y.pool);
    PairVisits(PoolsOf(InitializedTimes(requested, pools, times)), chunks, size, x, y);
  }

  /**
   No pair of distinct slots is visited twice if and only if the query was used at most once and no two equal
   indices meet.
   */
  lemma NoPairTwiceIff(requested: Names, pools: seq<Names>, chunks: seq<nat>, size: nat, times: nat, x: Slot, y: Slot)
    requires |chunks| == |pools| && IsSlot(chunks, size, x) && IsSlot(chunks, size, y) && x != y
    requires IsMatched(requested, pools, x.pool) && IsMatched(requested, pools, y.pool)
    ensures Visits(PoolsOf(InitializedTimes(requested, pools, times)), chunks, size, x, y) <= 1 <==>
      times == 0 || (times == 1 && x.elem != y.elem)
  {
    VisitsAfterUses(requested, pools, chunks, size, times, x, y);
    hide Visits, InitializedTimes, IsSlot, IsMatched;
    AtMostOne(times, if x.elem == y.elem then 2 else 1);
  }

  lemma AtMostOne(times: nat, k: nat)
    requires k == 1 || k == 2
    ensures times * times * k <= 1 <==> times == 0 || (times == 1 && k == 1)
  {
    if times >= 2 {
      AtLeastFour(times);
    }
  }

  lemma AtLeastFour(times: nat)
    requires times >= 2
    ensures times * times >= 4
  {
  }
}
