/**
 The runs of status systems that were registered with the manager: which pools they have matched, and whom they
 see.
 */
module RegisteredRuns {
  import opened Common
  import opened Pools
  import opened Entities
  import opened StatusRuns
  import StatusSystem
  import QueryMatch
  import Registration
  import SystemTrees
  import TypeSets

  type Id = Registration.PoolId
  type Names = seq<TypeSets.TypeName>

  predicate IsMatch(requested: Names, components: Names) {
    QueryMatch.TryAdd(requested, components).Some?
  }

  /** The offered pools that match, as often and in the order they were offered. */
  function Matched(requested: Names, offered: seq<Id>, components: Id -> Names): seq<Id> {
    if offered == [] then []
    else
      var n := |offered| - 1;
      Matched(requested, offered[..n], components) + if IsMatch(requested, components(offered[n])) then
        [offered[n]] else []
  }

  function Components(offered: seq<Id>, components: Id -> Names): seq<Names> {
    seq(|offered|, i requires 0 <= i < |offered| => components(offered[i]))
  }

  lemma {:induction false} MatchAllPrefix(requested: Names, a: seq<Names>, b: seq<Names>, n: nat)
    requires n <= |a| && n <= |b| && a[..n] == b[..n]
    ensures QueryMatch.MatchAll(requested, a, n) == QueryMatch.MatchAll(requested, b, n)
  {
    if n == 0 {
    } else {
      assert a[..n - 1] == a[..n][..n - 1] && b[..n - 1] == b[..n][..n - 1];
      assert a[n - 1] == a[..n][n - 1] && b[n - 1] == b[..n][n - 1];
      MatchAllPrefix(requested, a, b, n - 1);
    }
  }

  /** These are the pools of the query's match list, match by match. */
  lemma {:induction false} MatchedIsMatchList(requested: Names, offered: seq<Id>, components: Id -> Names)
    ensures var m := Registration.MatchList(requested, offered, components);
      var ms := Matched(requested, offered, components);
      |ms| == |m| && forall k :: 0 <= k < |m| ==> m[k].pool < |offered| && ms[k] == offered[m[k].pool]
  {
    hide QueryMatch.TryAdd;
    var all := Components(offered, components);
    if offered == [] {
    } else {
      var n := |offered| - 1;
      var before := Components(offered[..n], components);
      MatchedIsMatchList(requested, offered[..n], components);
      MatchAllPrefix(requested, all, before, n);
      assert all == Components(offered, components);
      assert QueryMatch.MatchAll(requested, all, n + 1)
          == QueryMatch.MatchAll(requested, before, n) + QueryMatch.MatchOne(requested, all, n);
    }
  }

  lemma {:induction false} MatchedMember(requested: Names, offered: seq<Id>, components: Id -> Names, i: Id)
    ensures i in Matched(requested, offered, components) <==> i in offered && IsMatch(requested, components(i))
  {
    if offered == [] {
    } else {
      var n := |offered| - 1;
      MatchedMember(requested, offered[..n], components, i);
      assert offered == offered[..n] + [offered[n]];
    }
  }

  lemma {:induction false} MatchedIncreasing(requested: Names, offered: seq<Id>, components: Id -> Names)
    requires Increasing(offered)
    ensures Increasing(Matched(requested, offered, components))
  {
    if offered == [] {
    } else {
      var n := |offered| - 1;
      var a := Matched(requested, offered[..n], components);
      MatchedIncreasing(requested, offered[..n], components);
      forall k | 0 <= k < |a| ensures a[k] < offered[n] {
        MatchedMember(requested, offered[..n], components, a[k]);
      }
    }
  }

  lemma {:induction false} MatchedAppend(requested: Names, a: seq<Id>, b: seq<Id>, components: Id -> Names)
    ensures Matched(requested, a + b, components) == Matched(requested, a, components) + Matched(requested, b,
      components)
  {
    if b == [] {
      assert a + b == a;
    } else {
      assert (a + b)[..|a + b| - 1] == a + b[..|b| - 1];
      MatchedAppend(requested, a, b[..|b| - 1], components);
    }
  }

  /** The pools of the manager, by the index they were registered at. */
  predicate FirstIds(ids: seq<Id>) {
    forall k :: 0 <= k < |ids| ==> ids[k] == k
  }

  /** Components of the pools are what archetypes have: lists without repeats. */
  ghost predicate NoRepeats(ids: seq<Id>, components: Id -> Names) {
    forall i :: i in ids ==> Distinct(components(i))
  }

  /**
   A status system registered once, in any interleaving of registrations, run over the manager: it calls, in pool,
   chunk, index order and each once, exactly the slots of live handles whose entity has the status and whose
   pool has all
   requested components.
   */
  lemma RegisteredOnceSeesLiving(
      ops: seq<Registration.Op>, s: SystemTrees.Sys, requested: Names, components: Id -> Names,
      m: Manager, status: Cell, op: Row -> Row)
    requires Registration.RegisteredOnce({}, ops) && s in Registration.Run(Registration.NewWorld(), ops).Reachable()
    requires FirstIds(Registration.PoolsOf(ops)) && |Registration.PoolsOf(ops)| == |m.pools|
    requires NoRepeats(Registration.PoolsOf(ops), components) && Ok(m) && status != ENT_NONE
    ensures var offered := Registration.OfferedTo(Registration.Run(Registration.NewWorld(), ops).offers, s);
      var ms := Matched(requested, offered, components);
      && InRange(ms, |m.pools|)
      && var calls := RunAll(m.pools, ms, status, op).1;
      && InOrder(calls) && Distinct(calls)
      && forall v :: v in calls <==>
           v.pool < |m.pools| && QueryMatch.AllPresent(requested, components(v.pool)) && Holds(m, v.pool, v.pos, status)
  {
    var ids := Registration.PoolsOf(ops);
    Registration.AnyOrder(ops, s);
    hide Registration.Run, Registration.RegisteredOnce, Registration.PoolsOf, Registration.OfferedTo;
    OnceSeesLiving(ids, requested, components, m, status, op);
  }

  /** Some live handle stands for the slot, and its entity has the status. */
  ghost predicate Holds(m: Manager, i: nat, q: Pos, status: Cell) {
    exists h :: HoldsAs(m, i, q, status, h)
  }

  ghost predicate HoldsAs(m: Manager, i: nat, q: Pos, status: Cell, h: Pos) {
    LiveHandle(m, h) && Resolvable(m, h) && PoolId(m, h) == i && SlotOf(m, h) == q &&
      m.pools[i].rows[q].status == status
  }

  lemma HoldsIff(m: Manager, i: nat, q: Pos, status: Cell)
    requires Ok(m) && i < |m.pools|
    ensures Holds(m, i, q, status) <==> Live(m.pools[i], q) && m.pools[i].rows[q].status == status
  {
    if Live(m.pools[i], q) && m.pools[i].rows[q].status == status {
      assert SlotOk(m, i, q);
      var h := m.pools[i].rows[q].link;
      LiveIsResolvable(m, h);
      assert HoldsAs(m, i, q, status, h);
    }
    if h :| HoldsAs(m, i, q, status, h) {
      LiveIsResolvable(m, h);
    }
  }

  lemma OnceSeesLiving(ids: seq<Id>, requested: Names, components: Id -> Names, m: Manager, status: Cell,
        op: Row -> Row)
    requires FirstIds(ids) && |ids| == |m.pools| && NoRepeats(ids, components) && Ok(m) && status != ENT_NONE
    ensures var ms := Matched(requested, ids, components);
      && InRange(ms, |m.pools|)
      && var calls := RunAll(m.pools, ms, status, op).1;
      && InOrder(calls) && Distinct(calls)
      && forall v :: v in calls <==>
           v.pool < |m.pools| && QueryMatch.AllPresent(requested, components(v.pool)) && Holds(m, v.pool, v.pos, status)
  {
    var ms := Matched(requested, ids, components);
    assert AllOk(m.pools);
    MatchedIncreasing(requested, ids, components);
    forall i: nat ensures i in ms <==> i < |m.pools| && QueryMatch.AllPresent(requested, components(i)) {
      MatchedMember(requested, ids, components, i);
      assert i < |ids| ==> ids[i] == i && ids[i] in ids;
      if i in ids {
        QueryMatch.MatchesUnique(requested, components(i));
      }
    }
    assert forall k :: 0 <= k < |ms| ==> ms[k] in ms;
    hide Matched, RunAll, Ok, QueryMatch.AllPresent, Holds, Live;
    CallsInOrder(m.pools, ms, status, op);
    OnceIff(m.pools, ms, status, op);
    var calls := RunAll(m.pools, ms, status, op).1;
    forall v
      ensures v in calls <==>
        v.pool < |m.pools| && QueryMatch.AllPresent(requested, components(v.pool)) && Holds(m, v.pool, v.pos, status)
    {
      if v.pool < |m.pools| { HoldsIff(m, v.pool, v.pos, status); }
      assert v in calls <==> Wanted(m.pools, ms, status, v.pool, v.pos);
    }
  }

  lemma {:induction false} MatchedOnce(requested: Names, ids: seq<Id>, components: Id -> Names, i: Id)
    requires Increasing(ids)
    ensures Occurrences(Matched(requested, ids, components), i) ==
      if i in ids && IsMatch(requested, components(i)) then 1 else 0
  {
    var ms := Matched(requested, ids, components);
    MatchedIncreasing(requested, ids, components);
    MatchedMember(requested, ids, components, i);
    assert Distinct(ms);
    DistinctCount(ms, i);
  }

  /**
   A system whose first registration failed for want of its group and was repeated has every matching pool twice in
   its query, so each run calls its operation twice on every living entity of the status.
   */
  lemma RetriedSeesTwice(
      w: Registration.World, s: SystemTrees.Sys, g: string, newGroup: Registration.Op,
      requested: Names, components: Id -> Names, m: Manager, status: Cell, op: Row -> Row, i: nat, q: Pos)
    requires Registration.OfferedTo(w.offers, s) == [] && w.pools != [] && newGroup.Group?
    requires Registration.Grown(w, Registration.System(s, g, false, false)).None?
    requires FirstIds(w.pools) && |w.pools| == |m.pools| && Ok(m) && status != ENT_NONE && KeepsStatus(op)
    ensures var again := Registration.System(s, g, false, false);
      var offered := Registration.OfferedTo(Registration.Run(w, [again, newGroup, again]).offers, s);
      var ms := Matched(requested, offered, components);
      && InRange(ms, |m.pools|)
      && Visits(RunAll(m.pools, ms, status, op).1, Visit(i, q)) ==
           if i < |m.pools| && IsMatch(requested, components(i)) && Holds(m, i, q, status) then 2 else 0
  {
    Registration.RetryDuplicates(w, s, g, newGroup);
    var ids := w.pools;
    var ms := Matched(requested, ids + ids, components);
    MatchedAppend(requested, ids, ids, components);
    MatchedOnce(requested, ids, components, i);
    assert i < |ids| ==> ids[i] == i && ids[i] in ids;
    var one := Matched(requested, ids, components);
    assert Occurrences(one + one, i) == Occurrences(one, i) + Occurrences(one, i);
    forall k | 0 <= k < |ms| ensures ms[k] < |m.pools| {
      assert ms[k] in ms;
      MatchedMember(requested, ids + ids, components, ms[k]);
    }
    assert AllOk(m.pools);
    hide Matched, RunAll, Visits, Ok, Registration.Run, Registration.OfferedTo, Registration.Grown;
    InOccurs(ms, i);
    CalledAsMatched(m.pools, ms, status, op, i, q);
    if i < |m.pools| { HoldsIff(m, i, q, status); }
  }
}
