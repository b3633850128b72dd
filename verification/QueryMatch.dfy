/** Matching archetype pools against the component list of a query. */
module QueryMatch {
  import opened Common
  import opened TypeSets

  /** For each requested name in turn, the indices of all component pools with that name. */
  function Matches(requested: seq<TypeName>, pools: seq<TypeName>): seq<nat> {
    if requested == [] then []
    else
      var n := |requested| - 1;
      Matches(requested[..n], pools) + IndicesOf(requested[n], pools)
  }

  function IndicesOf(name: TypeName, pools: seq<TypeName>): seq<nat> {
    if pools == [] then []
    else
      var n := |pools| - 1;
      IndicesOf(name, pools[..n]) + if pools[n] == name then [n] else []
  }

  /** The array a query stores for the pool: filled exactly. */
  function TryAdd(requested: seq<TypeName>, pools: seq<TypeName>): Option<seq<nat>> {
    var m := Matches(requested, pools);
    if |m| == |requested| then Some(m) else None
  }

  /** Slot j holds the pool of the j-th requested name. */
  ghost predicate Exact(requested: seq<TypeName>, pools: seq<TypeName>, m: seq<nat>) {
    |m| == |requested| && forall j :: 0 <= j < |m| ==> m[j] < |pools| && pools[m[j]] == requested[j]
  }

  ghost predicate AllPresent(requested: seq<TypeName>, pools: seq<TypeName>) {
    forall j :: 0 <= j < |requested| ==> requested[j] in pools
  }

  lemma {:induction false} IndicesOfUnique(name: TypeName, pools: seq<TypeName>)
    requires Distinct(pools)
    ensures |IndicesOf(name, pools)| == if name in pools then 1 else 0
    ensures forall x :: x in IndicesOf(name, pools) ==> x < |pools| && pools[x] == name
  {
    if pools == [] {
    } else {
      var n := |pools| - 1;
      IndicesOfUnique(name, pools[..n]);
      assert pools == pools[..n] + [pools[n]];
    }
  }

  lemma PresentNext(requested: seq<TypeName>, pools: seq<TypeName>)
    requires requested != []
    ensures AllPresent(requested, pools) <==>
      AllPresent(requested[..|requested| - 1], pools) && requested[|requested| - 1] in pools
  {
  }

  lemma ExactNext(requested: seq<TypeName>, pools: seq<TypeName>, m: seq<nat>, x: nat)
    requires requested != [] && Exact(requested[..|requested| - 1], pools, m)
    requires x < |pools| && pools[x] == requested[|requested| - 1]
    ensures Exact(requested, pools, m + [x])
  {
  }

  lemma {:induction false} MatchesUnique(requested: seq<TypeName>, pools: seq<TypeName>)
    requires Distinct(pools)
    ensures |Matches(requested, pools)| <= |requested|
    ensures |Matches(requested, pools)| == |requested| <==> AllPresent(requested, pools)
    ensures AllPresent(requested, pools) ==> Exact(requested, pools, Matches(requested, pools))
  {
    if requested == [] {
    } else {
      hide Distinct, AllPresent, Exact, IndicesOf;
      var n := |requested| - 1;
      MatchesUnique(requested[..n], pools);
      var last := IndicesOf(requested[n], pools);
      IndicesOfUnique(requested[n], pools);
      PresentNext(requested, pools);
      if AllPresent(requested, pools) {
        assert last[0] in last && last == [last[0]];
        ExactNext(requested, pools, Matches(requested[..n], pools), last[0]);
      }
    }
  }

  /** The matching is right for a pool: it succeeds iff every requested name is present, and then exactly. */
  ghost predicate Correct(requested: seq<TypeName>, pools: seq<TypeName>) {
    && (TryAdd(requested, pools).Some? <==> AllPresent(requested, pools))
    && (TryAdd(requested, pools).Some? ==> Exact(requested, pools, TryAdd(requested, pools).value))
  }

  lemma {:induction false} IndicesOfCount(name: TypeName, pools: seq<TypeName>, a: nat, b: nat)
    requires a < b < |pools| && pools[a] == name == pools[b]
    ensures |IndicesOf(name, pools)| >= 2
  {
    var n := |pools| - 1;
    if b < n {
      IndicesOfCount(name, pools[..n], a, b);
    } else {
      IndicesOfPresent(name, pools[..n], a);
    }
  }

  lemma {:induction false} IndicesOfPresent(name: TypeName, pools: seq<TypeName>, a: nat)
    requires a < |pools| && pools[a] == name
    ensures |IndicesOf(name, pools)| >= 1
  {
    var n := |pools| - 1;
    if a < n {
      IndicesOfPresent(name, pools[..n], a);
    }
  }

  /** Matching is right for every query exactly when the pool's component list has no repeats. */
  lemma CorrectIffDistinct(pools: seq<TypeName>)
    ensures (forall requested :: Correct(requested, pools)) <==> Distinct(pools)
  {
    if Distinct(pools) {
      forall requested ensures Correct(requested, pools) { MatchesUnique(requested, pools); }
    } else {
      var a, b :| 0 <= a < b < |pools| && pools[a] == pools[b];
      IndicesOfCount(pools[a], pools, a, b);
      var r := [pools[a]];
      assert r[..0] == [];
      assert Matches(r, pools) == Matches([], pools) + IndicesOf(pools[a], pools);
      assert AllPresent(r, pools) && TryAdd(r, pools).None?;
      assert !Correct(r, pools);
    }
  }

  /** With a repeated component a query can even be given the wrong pool. */
  lemma WrongPoolExample()
    ensures var r := TryAdd(["Position", "Size"], ["Position", "Position"]);
      r == Some([0, 1]) && !Exact(["Position", "Size"], ["Position", "Position"], r.value)
  {
    var q, p := ["Position", "Size"], ["Position", "Position"];
    assert q[..1] == ["Position"] && q[..1][..0] == [];
    assert p[..1] == ["Position"] && p[..1][..0] == [];
    assert IndicesOf("Position", p) == [0, 1];
    assert IndicesOf("Size", p) == [];
    assert Matches(q[..1], p) == [0, 1];
    assert Matches(q, p) == [0, 1];
  }

  /** Every archetype built from aspects is matched correctly by every query. */
  lemma ArchetypesMatch(a: Aspect, requested: seq<TypeName>)
    ensures Correct(requested, ArchComponents(a))
    ensures TryAdd(requested, ArchComponents(a)).Some? <==>
      forall j :: 0 <= j < |requested| ==> requested[j] in BASE_COMPONENTS || Lists(a, requested[j])
  {
    ArchComponentsUnion(a, "");
    CorrectIffDistinct(ArchComponents(a));
    forall j | 0 <= j < |requested|
      ensures requested[j] in ArchComponents(a) <==> requested[j] in BASE_COMPONENTS || Lists(a, requested[j])
    {
      ArchComponentsUnion(a, requested[j]);
    }
  }

  // ---------- the query object ----------

  /** A matched archetype pool: its index and the component pools taken from it. */
  datatype Match = Match(pool: nat, components: seq<nat>)

  function MatchOne(requested: seq<TypeName>, pools: seq<seq<TypeName>>, k: nat): seq<Match>
    requires k < |pools|
  {
    match TryAdd(requested, pools[k])
    case None => []
    case Some(m) => [Match(k, m)]
  }

  /** The matches of the first `n` registered pools, in registration order. */
  function MatchAll(requested: seq<TypeName>, pools: seq<seq<TypeName>>, n: nat): seq<Match>
    requires n <= |pools|
  {
    if n == 0 then [] else MatchAll(requested, pools, n - 1) + MatchOne(requested, pools, n - 1)
  }

  class Query {
    const requested: seq<TypeName>
    var matches: seq<Match>

    constructor (requested: seq<TypeName>)
      ensures matches == [] && this.requested == requested
    {
      this.requested := requested;
      matches := [];
    }

    /** Scans all component pools for each requested name; gives up when more are found than requested. */
    method FindComponents(pools: seq<TypeName>) returns (found: Option<seq<nat>>)
      ensures found == TryAdd(requested, pools)
    {
      var m: seq<nat> := [];
      for j := 0 to |requested|
        invariant m == Matches(requested[..j], pools) && |m| <= |requested|
      {
        assert requested[..j + 1][..j] == requested[..j];
        ghost var before := m;
        for k := 0 to |pools|
          invariant m == before + IndicesOf(requested[j], pools[..k]) && |m| <= |requested|
        {
          assert pools[..k + 1][..k] == pools[..k];
          if pools[k] == requested[j] {
            if |m| == |requested| {
              TooMany(requested, pools, j, k);
              return None;
            }
            m := m + [k];
          }
        }
        assert pools[..|pools|] == pools;
      }
      assert requested[..|requested|] == requested;
      return if |m| == |requested| then Some(m) else None;
    }

    method TryAddEntityPool(index: nat, pools: seq<TypeName>) returns (added: bool)
      modifies this
      ensures added <==> TryAdd(requested, pools).Some?
      ensures matches == old(matches) + if added then [Match(index, TryAdd(requested, pools).value)] else []
    {
      var found := FindComponents(pools);
      if found.Some? {
        matches := matches + [Match(index, found.value)];
      }
      added := found.Some?;
    }

    /** Offers every registered pool to the query, on top of what it already holds. */
    method Initialize(pools: seq<seq<TypeName>>)
      modifies this
      ensures matches == old(matches) + MatchAll(requested, pools, |pools|)
    {
      for k := 0 to |pools|
        invariant matches == old(matches) + MatchAll(requested, pools, k)
      {
        var added := TryAddEntityPool(k, pools[k]);
      }
    }
  }

  lemma {:induction false} IndicesGrow(name: TypeName, pools: seq<TypeName>, k: nat)
    requires k <= |pools|
    ensures |IndicesOf(name, pools)| >= |IndicesOf(name, pools[..k])|
  {
    if k < |pools| {
      var n := |pools| - 1;
      assert pools[..n][..k] == pools[..k];
      IndicesGrow(name, pools[..n], k);
    } else {
      assert pools[..k] == pools;
    }
  }

  lemma {:induction false} MatchesGrow(requested: seq<TypeName>, pools: seq<TypeName>, j: nat)
    requires j <= |requested|
    ensures |Matches(requested, pools)| >= |Matches(requested[..j], pools)|
  {
    if j < |requested| {
      var n := |requested| - 1;
      assert requested[..n][..j] == requested[..j];
      MatchesGrow(requested[..n], pools, j);
    } else {
      assert requested[..j] == requested;
    }
  }

  lemma IndicesNext(name: TypeName, pools: seq<TypeName>, k: nat)
    requires k < |pools|
    ensures IndicesOf(name, pools[..k + 1]) == IndicesOf(name, pools[..k]) + if pools[k] == name then [k] else []
  {
    assert pools[..k + 1][..k] == pools[..k];
  }

  lemma MatchesNext(requested: seq<TypeName>, pools: seq<TypeName>, j: nat)
    requires j < |requested|
    ensures Matches(requested[..j + 1], pools) == Matches(requested[..j], pools) + IndicesOf(requested[j], pools)
  {
    hide IndicesOf;
    assert requested[..j + 1][..j] == requested[..j];
  }

  /** One match more than requested is already too many, whatever follows. */
  lemma TooMany(requested: seq<TypeName>, pools: seq<TypeName>, j: nat, k: nat)
    requires j < |requested| && k < |pools| && pools[k] == requested[j]
    requires |Matches(requested[..j], pools)| + |IndicesOf(requested[j], pools[..k])| == |requested|
    ensures |Matches(requested, pools)| > |requested|
  {
    hide Matches, IndicesOf;
    IndicesNext(requested[j], pools, k);
    IndicesGrow(requested[j], pools, k + 1);
    MatchesNext(requested, pools, j);
    MatchesGrow(requested, pools, j + 1);
  }

  /** The match list after `times` initializations. */
  function InitializedTimes(requested: seq<TypeName>, pools: seq<seq<TypeName>>, times: nat): seq<Match> {
    if times == 0 then [] else InitializedTimes(requested, pools, times - 1) + MatchAll(requested, pools, |pools|)
  }

  lemma {:induction false} InitializedLength(requested: seq<TypeName>, pools: seq<seq<TypeName>>, times: nat)
    ensures |InitializedTimes(requested, pools, times)| == times * |MatchAll(requested, pools, |pools|)|
  {
    hide MatchAll;
    if times == 0 {
    } else {
      InitializedLength(requested, pools, times - 1);
      ProductNext(times - 1, |MatchAll(requested, pools, |pools|)|);
    }
  }

  /**
   Mapping through the manager initializes the query each time, so a query that matches anything holds
   each matching pool exactly once only if it has been used exactly once.
   */
  lemma {:induction false} ReuseDuplicates(requested: seq<TypeName>, pools: seq<seq<TypeName>>, times: nat)
    requires MatchAll(requested, pools, |pools|) != []
    ensures InitializedTimes(requested, pools, times) == MatchAll(requested, pools, |pools|) <==> times == 1
  {
    InitializedLength(requested, pools, times);
    var m := MatchAll(requested, pools, |pools|);
    if times == 1 {
      assert InitializedTimes(requested, pools, 0) + m == m;
    } else if times > 1 {
      assert times * |m| > |m| by { assert times * |m| >= 2 * |m|; }
    }
  }
}
