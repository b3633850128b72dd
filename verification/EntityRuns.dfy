/**
 Whole runs of the entity manager: any sequence of registrations, single and batch
 creations, single and batch destructions, in-place writes and resets. The manager refines a plain map from
 handles to entities, and the sizes of its pools always add up to the number of live handles.
 */
module EntityRuns {
  import opened Common
  import opened Pools
  import opened Entities
  import opened EntityBatch

  // ---------- the plain map ----------

  datatype Entity = Entity(pool: nat, status: Cell, cells: seq<Cell>)

  /** What a caller sees through live handles. */
  ghost function Abs(m: Manager): map<Pos, Entity>
    requires Ok(m)
  {
    map h | h in m.ptrs.rows && LiveHandle(m, h) :: EntityAt(m, h)
  }

  function Bind(hs: seq<Pos>, e: Entity): map<Pos, Entity> {
    map h | h in hs :: e
  }

  ghost function EntityAt(m: Manager, h: Pos): Entity
    requires Ok(m) && LiveHandle(m, h)
  {
    LiveIsResolvable(m, h);
    var row := m.pools[PoolId(m, h)].rows[SlotOf(m, h)];
    Entity(PoolId(m, h), row.status, row.cells)
  }

  lemma GrowEntity(m: Manager, r: Manager, i: nat, h: Pos)
    requires Ok(m) && i < |m.pools| && Ok(r) && (r == GrowSlots(m, i) || r == GrowPtrs(m))
    ensures LiveHandle(r, h) <==> LiveHandle(m, h)
    ensures LiveHandle(m, h) ==> EntityAt(r, h) == EntityAt(m, h)
  {
    AddChunkOk(m.pools[i]);
    AddChunkOk(m.ptrs);
    if LiveHandle(m, h) {
      LiveIsResolvable(m, h);
    }
  }

  /** Growth is invisible: addChunk changes no live entity. */
  lemma GrowAbs(m: Manager, r: Manager, i: nat)
    requires Ok(m) && i < |m.pools| && Ok(r) && (r == GrowSlots(m, i) || r == GrowPtrs(m))
    ensures Abs(r) == Abs(m)
  {
    hide PoolOk, Linked, EntityAt;
    forall h | h in m.ptrs.rows || h in r.ptrs.rows
      ensures (h in m.ptrs.rows && LiveHandle(m, h)) <==> (h in r.ptrs.rows && LiveHandle(r, h))
      ensures LiveHandle(m, h) ==> LiveHandle(r, h) && EntityAt(r, h) == EntityAt(m, h)
    {
      GrowEntity(m, r, i, h);
    }
    SameEntities(Abs(r), Abs(m));
  }

  lemma SameEntities(a: map<Pos, Entity>, b: map<Pos, Entity>)
    requires a.Keys == b.Keys && forall h :: h in a ==> a[h] == b[h]
    ensures a == b
  {
  }

  lemma PrepareAbs(m: Manager, i: nat)
    requires Ok(m) && i < |m.pools|
    ensures Ok(Prepare(m, i)) && Ready(Prepare(m, i), i) && Abs(Prepare(m, i)) == Abs(m)
    ensures |Prepare(m, i).pools| == |m.pools| && Prepare(m, i).pools[i].width == m.pools[i].width
  {
    hide PoolOk, Linked;
    PrepareOk(m, i);
    GrowSlotsOk(m, i);
    GrowAbs(m, GrowSlots(m, i), i);
    var m1 := if m.pools[i].free == [] then GrowSlots(m, i) else m;
    GrowPtrsOk(m1);
    GrowAbs(m1, GrowPtrs(m1), i);
  }

  lemma TakeNew(m: Manager, i: nat, status: Cell)
    requires Ok(m) && Ready(m, i) && i < POOL_ID_RANGE && Ok(Take(m, i, status))
    ensures !LiveHandle(m, m.ptrs.free[0]) && LiveHandle(Take(m, i, status), m.ptrs.free[0])
    ensures EntityAt(Take(m, i, status), m.ptrs.free[0]) == Entity(i, status, ZeroRow(m.pools[i].width).cells)
  {
    TakePtrOk(m.ptrs, m.pools[i].free[0], i);
    assert m.ptrs.free[0] in m.ptrs.free && m.pools[i].free[0] in m.pools[i].free;
  }

  lemma TakeEntity(m: Manager, i: nat, status: Cell, h: Pos)
    requires Ok(m) && Ready(m, i) && i < POOL_ID_RANGE && Ok(Take(m, i, status))
    ensures LiveHandle(Take(m, i, status), h) <==> LiveHandle(m, h) || h == m.ptrs.free[0]
    ensures LiveHandle(m, h) ==> EntityAt(Take(m, i, status), h) == EntityAt(m, h)
  {
    var s0 := m.pools[i].free[0];
    TakePtrOk(m.ptrs, s0, i);
    assert s0 in m.pools[i].free && m.ptrs.free[0] in m.ptrs.free;
    if LiveHandle(m, h) {
      LiveIsResolvable(m, h);
      assert SlotOf(m, h) == s0 ==> PoolId(m, h) != i;
    }
  }

  lemma TakeAbs(m: Manager, i: nat, status: Cell)
    requires Ok(m) && Ready(m, i) && i < POOL_ID_RANGE
    ensures Ok(Take(m, i, status)) && m.ptrs.free[0] !in Abs(m)
    ensures Abs(Take(m, i, status)) == Abs(m)[m.ptrs.free[0] := Entity(i, status, ZeroRow(m.pools[i].width).cells)]
  {
    hide PoolOk, Linked, EntityAt, Take;
    TakeOk(m, i, status);
    var h0 := m.ptrs.free[0];
    var r := Take(m, i, status);
    TakeNew(m, i, status);
    forall h | h in m.ptrs.rows || h in r.ptrs.rows
      ensures (h in r.ptrs.rows && LiveHandle(r, h)) <==> ((h in m.ptrs.rows && LiveHandle(m, h)) || h == h0)
      ensures LiveHandle(m, h) ==> LiveHandle(r, h) && EntityAt(r, h) == EntityAt(m, h)
    {
      TakeEntity(m, i, status, h);
    }
    SameEntities(Abs(r), Abs(m)[h0 := Entity(i, status, ZeroRow(m.pools[i].width).cells)]);
  }

  /** Creation adds exactly one fresh key, bound to a zeroed entity of the given status. */
  lemma CreateAbs(m: Manager, i: nat, status: Cell)
    requires Ok(m) && i < |m.pools| && i < POOL_ID_RANGE
    ensures Ok(Create(m, i, status)) && CreatedHandle(m, i) !in Abs(m)
    ensures Abs(Create(m, i, status)) ==
      Abs(m)[CreatedHandle(m, i) := Entity(i, status, ZeroRow(m.pools[i].width).cells)]
  {
    hide PoolOk, Linked, Abs;
    PrepareAbs(m, i);
    TakeAbs(Prepare(m, i), i, status);
  }

  lemma DestroyOthers(m: Manager, h: Pos, g: Pos)
    requires Ok(m) && LiveHandle(m, h) && LiveHandle(m, g) && g != h
    requires Resolvable(m, h) && Ok(Destroy(m, h)) && LiveHandle(Destroy(m, h), g)
    ensures EntityAt(Destroy(m, h), g) == EntityAt(m, g)
  {
    assert HandleOk(m, g) && HandleOk(m, h);
  }

  /** Destruction removes exactly the key it names. */
  lemma DestroyAbs(m: Manager, h: Pos)
    requires Ok(m) && LiveHandle(m, h)
    ensures Resolvable(m, h) && Ok(Destroy(m, h))
    ensures Abs(Destroy(m, h)) == Abs(m) - {h}
  {
    hide PoolOk, Linked;
    DestroyEffect(m, h);
    var r := Destroy(m, h);
    forall g | LiveHandle(r, g) ensures EntityAt(r, g) == EntityAt(m, g) {
      DestroyOthers(m, h, g);
    }
    assert Abs(r).Keys == (Abs(m) - {h}).Keys;
  }

  /** A write changes the value of the one handle it goes through. */
  lemma WriteAbs(m: Manager, h: Pos, status: Cell, cells: seq<Cell>)
    requires Ok(m) && LiveHandle(m, h) && Resolvable(m, h) && |cells| == m.pools[PoolId(m, h)].width
    ensures Ok(Write(m, h, status, cells))
    ensures Abs(Write(m, h, status, cells)) == Abs(m)[h := Entity(PoolId(m, h), status, cells)]
  {
    WriteOk(m, h, status, cells);
    var r := Write(m, h, status, cells);
    forall g | LiveHandle(m, g) && g != h ensures EntityAt(r, g) == EntityAt(m, g) {
      assert HandleOk(m, g) && HandleOk(m, h);
    }
    assert EntityAt(r, h) == Entity(PoolId(m, h), status, cells) by { assert HandleOk(m, h); }
    assert Abs(r).Keys == Abs(m)[h := Entity(PoolId(m, h), status, cells)].Keys;
  }

  /** A batch creation adds `n` pairwise distinct fresh keys, all bound to the same zeroed entity. */
  lemma {:induction false} BatchCreateAbs(m: Manager, i: nat, n: nat, status: Cell)
    requires Ok(m) && i < |m.pools| && i < POOL_ID_RANGE
    ensures Ok(BatchCreate(m, i, n, status)) && |BatchCreate(m, i, n, status).pools| == |m.pools|
    ensures BatchCreate(m, i, n, status).pools[i].width == m.pools[i].width
    ensures Distinct(FirstFree(m.ptrs, n)) && forall h :: h in FirstFree(m.ptrs, n) ==> h !in Abs(m)
    ensures Abs(BatchCreate(m, i, n, status)) ==
      Abs(m) + Bind(FirstFree(m.ptrs, n), Entity(i, status, ZeroRow(m.pools[i].width).cells))
  {
    hide Ok, Abs, Create, CreatedHandle, BatchCreate, FirstFree, Bind, ManagerShape;
    OkShape(m);
    var e := Entity(i, status, ZeroRow(m.pools[i].width).cells);
    BatchCreateOk(m, i, n, status);
    BatchKeepsWidth(m, i, n, status);
    if n == 0 {
      BatchOfNone(m, i, status);
      BindNone(Abs(m), FirstFree(m.ptrs, 0), e);
    } else {
      var k := n - 1;
      BatchCreateAbs(m, i, k, status);
      BatchKeepsWidth(m, i, k, status);
      var a := BatchCreate(m, i, k, status);
      OkShape(a);
      BatchThenCreate(m, i, k, status);
      CreateAbs(a, i, status);
      CreatedIsNextFree(m, i, k, status);
      var hs := FirstFree(m.ptrs, n);
      FirstFreeNext(m.ptrs, k);
      BindFresh(Abs(m), hs, e);
    }
  }

  lemma OkShape(m: Manager)
    requires Ok(m)
    ensures ManagerShape(m) && PoolOk(m.ptrs)
  {
  }

  lemma BindNone(a: map<Pos, Entity>, hs: seq<Pos>, e: Entity)
    requires hs == []
    ensures a + Bind(hs, e) == a && Distinct(hs)
  {
  }

  lemma BindNext(hs: seq<Pos>, e: Entity)
    requires |hs| > 0
    ensures Bind(hs, e) == Bind(hs[..|hs| - 1], e)[hs[|hs| - 1] := e]
  {
    assert hs == hs[..|hs| - 1] + [hs[|hs| - 1]];
  }

  lemma BindFresh(a: map<Pos, Entity>, hs: seq<Pos>, e: Entity)
    requires |hs| > 0
    requires var k := |hs| - 1;
      Distinct(hs[..k]) && (forall h :: h in hs[..k] ==> h !in a) && hs[k] !in a + Bind(hs[..k], e)
    ensures a + Bind(hs, e) == (a + Bind(hs[..|hs| - 1], e))[hs[|hs| - 1] := e]
    ensures Distinct(hs) && forall h :: h in hs ==> h !in a
  {
    var k := |hs| - 1;
    BindNext(hs, e);
    assert hs == hs[..k] + [hs[k]];
    hide Bind;
    assert forall j :: 0 <= j < k ==> hs[j] == hs[..k][j];
  }

  lemma BatchKeepsWidth(m: Manager, i: nat, n: nat, status: Cell)
    requires ManagerShape(m) && i < |m.pools|
    ensures |BatchCreate(m, i, n, status).pools| == |m.pools|
    ensures BatchCreate(m, i, n, status).pools[i].width == m.pools[i].width
  {
    GrowToOk(m.pools[i], n);
  }

  lemma CreatedIsNextFree(m: Manager, i: nat, k: nat, status: Cell)
    requires ManagerShape(m) && i < |m.pools| && ManagerShape(BatchCreate(m, i, k, status))
    ensures CreatedHandle(BatchCreate(m, i, k, status), i) == FirstFree(m.ptrs, k + 1)[k]
  {
    var p, t := m.pools[i], m.ptrs;
    var slots := FirstFree(p, k + 1);
    FirstFreeNext(p, k);
    BatchPtrsNext(t, k, slots, i);
    var b := BatchCreate(m, i, k, status);
    PrepareIsRefill(b, i);
  }

  lemma PrepareIsRefill(m: Manager, i: nat)
    requires i < |m.pools|
    ensures Prepare(m, i).ptrs == Refill(m.ptrs)
  {
  }

  lemma {:induction false} DestroyNAbs(m: Manager, hs: seq<Pos>)
    requires Ok(m) && Distinct(hs) && AllLive(m, hs)
    ensures Abs(DestroyN(m, hs)) == Abs(m) - set h | h in hs
    decreases |hs|
  {
    hide Ok, Abs, Without, AllLive, Distinct;
    if hs == [] {
      assert Abs(m) - (set h | h in hs) == Abs(m);
    } else {
      DestroyNLast(m, hs);
      var n := |hs| - 1;
      DestroyNAbs(m, hs[..n]);
      DestroyAbs(DestroyN(m, hs[..n]), hs[n]);
      assert hs == hs[..n] + [hs[n]];
      assert (set h | h in hs) == (set h | h in hs[..n]) + {hs[n]};
    }
  }

  lemma DestroyNLast(m: Manager, hs: seq<Pos>)
    requires Ok(m) && Distinct(hs) && AllLive(m, hs) && |hs| > 0
    ensures Distinct(hs[..|hs| - 1]) && AllLive(m, hs[..|hs| - 1])
    ensures var r := DestroyN(m, hs[..|hs| - 1]);
      LiveHandle(r, hs[|hs| - 1]) && Resolvable(r, hs[|hs| - 1]) && DestroyN(m, hs) == Destroy(r, hs[|hs| - 1])
  {
    hide PoolOk, Linked;
    var n := |hs| - 1;
    assert hs[n] in hs && hs[n] !in hs[..n];
    LiveIsResolvable(DestroyN(m, hs[..n]), hs[n]);
  }

  // ---------- runs ----------

  datatype Op =
    | Register(pool: Pool)
    | Make(name: string, count: nat, status: Cell)
    | DestroyOne(h: Pos)
    | DestroyNamed(ofName: seq<Pos>, name: string)
    | DestroyMixed(mixed: seq<Pos>)
    | Assign(target: Pos, newStatus: Cell, newCells: seq<Cell>)
    | Clear

  ghost predicate DistinctLive(m: Manager, hs: seq<Pos>) {
    Distinct(hs) && AllLive(m, hs)
  }

  /** What each call asks of its caller: registered archetypes, live distinct handles, fewer than 257 pools. */
  ghost predicate Allowed(m: Manager, op: Op)
    requires Ok(m)
  {
    match op
    case Register(p) => PoolOk(p) && LiveSet(p) == {} && |m.pools| < POOL_ID_RANGE
    case Make(name, _, _) => FindPool(m, name) < |m.pools|
    case DestroyOne(h) => LiveHandle(m, h)
    case DestroyNamed(hs, name) => FindPool(m, name) < |m.pools| ==>
      DistinctLive(m, hs) && forall h :: h in hs ==> h in m.ptrs.rows && m.ptrs.rows[h].cells == [FindPool(m, name)]
    case DestroyMixed(hs) => DistinctLive(m, hs)
    case Assign(h, _, cells) => LiveHandle(m, h) && (LiveIsResolvable(m, h); |cells| == m.pools[PoolId(m, h)].width)
    case Clear => true
  }

  ghost function Step(m: Manager, op: Op): Manager
    requires Ok(m) && Allowed(m, op)
  {
    match op
    case Register(p) => RegisterPool(m, p)
    case Make(name, n, status) => BatchCreate(m, FindPool(m, name), n, status)
    case DestroyOne(h) => LiveIsResolvable(m, h); Destroy(m, h)
    case DestroyNamed(hs, name) =>
      var i := FindPool(m, name);
      if i < |m.pools| then DestroyFrom(m, hs, i) else m
    case DestroyMixed(hs) => AllResolvable(m, hs); DestroyEach(m, hs)
    case Assign(h, status, cells) => LiveIsResolvable(m, h); Write(m, h, status, cells)
    case Clear => DeleteEverything(m)
  }

  lemma AllResolvable(m: Manager, hs: seq<Pos>)
    requires Ok(m) && AllLive(m, hs)
    ensures forall h :: h in hs ==> Resolvable(m, h)
  {
    forall h | h in hs ensures Resolvable(m, h) { LiveIsResolvable(m, h); }
  }

  /** The handles a call hands out. */
  ghost function Created(m: Manager, op: Op): (hs: seq<Pos>)
    requires Ok(m)
    ensures op.Make? ==> |hs| == op.count
  {
    if op.Make? then FirstFree(m.ptrs, op.count) else []
  }

  /** The handles a call gives up. */
  ghost function Destroyed(m: Manager, op: Op): set<Pos>
    requires Ok(m)
  {
    match op
    case DestroyOne(h) => {h}
    case DestroyNamed(hs, name) => if FindPool(m, name) < |m.pools| then set h | h in hs else {}
    case DestroyMixed(hs) => set h | h in hs
    case Clear => Abs(m).Keys
    case _ => {}
  }

  /** What the call does to the plain map: drop the destroyed keys, add the created ones, or overwrite one. */
  ghost function MapStep(m: Manager, op: Op): map<Pos, Entity>
    requires Ok(m) && Allowed(m, op)
  {
    match op
    case Make(name, _, status) =>
      Abs(m) + Bind(Created(m, op), Entity(FindPool(m, name), status, ZeroRow(m.pools[FindPool(m, name)].width).cells))
    case Assign(h, status, cells) => LiveIsResolvable(m, h); Abs(m)[h := Entity(PoolId(m, h), status, cells)]
    case _ => Abs(m) - Destroyed(m, op)
  }

  ghost predicate FitsIds(m: Manager) {
    |m.pools| <= POOL_ID_RANGE
  }

  /** Every call keeps the invariant and acts on the plain map as `MapStep` says. */
  lemma StepRefines(m: Manager, op: Op)
    requires Ok(m) && FitsIds(m) && Allowed(m, op)
    ensures Ok(Step(m, op)) && FitsIds(Step(m, op))
    ensures Abs(Step(m, op)) == MapStep(m, op)
    ensures Distinct(Created(m, op)) && forall h :: h in Created(m, op) ==> h !in Abs(m)
    ensures Destroyed(m, op) <= Abs(m).Keys
  {
    match op
    case Register(p) => RegisterAbs(m, p);
    case Make(name, n, status) => BatchCreateAbs(m, FindPool(m, name), n, status);
    case DestroyOne(h) => DestroyAbs(m, h);
    case DestroyNamed(hs, name) =>
      var i := FindPool(m, name);
      if i < |m.pools| {
        DestroyFromIsDestroyN(m, hs, i);
        DestroyNAbs(m, hs);
      } else {
        assert Abs(m) - {} == Abs(m);
      }
    case DestroyMixed(hs) =>
      AllResolvable(m, hs);
      DestroyEachIsDestroyN(m, hs);
      DestroyNAbs(m, hs);
    case Assign(h, status, cells) =>
      LiveIsResolvable(m, h);
      WriteAbs(m, h, status, cells);
    case Clear =>
      DeleteEverythingOk(m);
      assert Abs(m) - Abs(m).Keys == map[];
      assert Abs(DeleteEverything(m)) == map[];
  }

  lemma RegisterAbs(m: Manager, p: Pool)
    requires Ok(m) && PoolOk(p) && LiveSet(p) == {}
    ensures Ok(RegisterPool(m, p)) && Abs(RegisterPool(m, p)) == Abs(m) - {}
  {
    RegisterPoolOk(m, p);
    var r := RegisterPool(m, p);
    forall h | LiveHandle(m, h) ensures EntityAt(r, h) == EntityAt(m, h) {
      LiveIsResolvable(m, h);
    }
    assert Abs(r).Keys == Abs(m).Keys;
  }

  /** A run whose every call is allowed in the state it is made in. */
  ghost predicate AllowedRun(m: Manager, ops: seq<Op>)
    requires Ok(m) && FitsIds(m)
    decreases |ops|
  {
    ops == [] ||
    (Allowed(m, ops[0]) && (StepRefines(m, ops[0]); AllowedRun(Step(m, ops[0]), ops[1..])))
  }

  /** The state a run ends in, which satisfies the invariant. */
  ghost function Run(m: Manager, ops: seq<Op>): (r: Manager)
    requires Ok(m) && FitsIds(m) && AllowedRun(m, ops)
    ensures Ok(r) && FitsIds(r)
    decreases |ops|
  {
    if ops == [] then m
    else
      StepRefines(m, ops[0]);
      Run(Step(m, ops[0]), ops[1..])
  }

  /** A manager no pool has been registered with. */
  function NewManager(ptrChunk: nat): Manager {
    Manager([], EmptyPool("EntityPtr", 1, ptrChunk))
  }

  lemma NewManagerOk(ptrChunk: nat)
    requires ptrChunk > 0
    ensures Ok(NewManager(ptrChunk)) && FitsIds(NewManager(ptrChunk)) && Abs(NewManager(ptrChunk)) == map[]
  {
  }

  // ---------- counting ----------

  function SumUsed(pools: seq<Pool>, k: nat): int
    requires k <= |pools|
  {
    if k == 0 then 0 else SumUsed(pools, k - 1) + UsedSize(pools[k - 1])
  }

  ghost function HandlesBelow(m: Manager, k: nat): set<Pos>
    requires Ok(m)
  {
    set h | h in m.ptrs.rows && LiveHandle(m, h) && EntityAt(m, h).pool < k
  }

  ghost function LinksInto(m: Manager, k: nat): map<Pos, Pos>
    requires Ok(m)
  {
    map h | h in m.ptrs.rows && LiveHandle(m, h) && EntityAt(m, h).pool == k :: SlotOf(m, h)
  }

  lemma {:induction false} CardInjective(g: map<Pos, Pos>)
    requires forall a, b :: a in g && b in g && g[a] == g[b] ==> a == b
    ensures |g.Values| == |g.Keys|
    decreases |g|
  {
    if g.Keys != {} {
      var a :| a in g;
      var rest := g - {a};
      assert g.Keys == rest.Keys + {a};
      CardInjective(rest);
      assert g.Values == rest.Values + {g[a]};
      assert g[a] !in rest.Values;
    } else {
      assert g.Values == {};
    }
  }

  /** The live handles naming pool `k` are in bijection with the live slots of pool `k`. */
  lemma LinksIntoBijective(m: Manager, k: nat)
    requires Ok(m) && k < |m.pools|
    ensures |LinksInto(m, k).Keys| == UsedSize(m.pools[k])
  {
    var g := LinksInto(m, k);
    forall a, b | a in g && b in g && g[a] == g[b] ensures a == b {
      assert HandleOk(m, a) && HandleOk(m, b);
    }
    CardInjective(g);
    UsedSizeCountsLive(m.pools[k]);
    forall s ensures s in g.Values <==> s in LiveSet(m.pools[k]) {
      if s in LiveSet(m.pools[k]) {
        assert SlotOk(m, k, s);
        assert m.pools[k].rows[s].link in g && g[m.pools[k].rows[s].link] == s;
      }
      if s in g.Values {
        var h :| h in g && g[h] == s;
        assert HandleOk(m, h);
      }
    }
    assert g.Values == LiveSet(m.pools[k]);
  }

  lemma BelowNext(m: Manager, k: nat)
    requires Ok(m)
    ensures |HandlesBelow(m, k + 1)| == |HandlesBelow(m, k)| + |LinksInto(m, k).Keys|
  {
    hide Ok, EntityAt, LiveHandle, SlotOf;
    var a, b := HandlesBelow(m, k), LinksInto(m, k).Keys;
    assert a !! b;
    assert HandlesBelow(m, k + 1) == a + b;
  }

  lemma {:induction false} CountBelow(m: Manager, k: nat)
    requires Ok(m) && k <= |m.pools|
    ensures |HandlesBelow(m, k)| == SumUsed(m.pools, k)
  {
    hide Ok, EntityAt, LiveHandle, UsedSize;
    if k == 0 {
      assert HandlesBelow(m, 0) == {};
    } else {
      hide HandlesBelow, LinksInto;
      CountBelow(m, k - 1);
      LinksIntoBijective(m, k - 1);
      BelowNext(m, k - 1);
    }
  }

  /** The used sizes of the archetype pools always add up to the number of live handles. */
  lemma UsedIsLive(m: Manager)
    requires Ok(m)
    ensures SumUsed(m.pools, |m.pools|) == |Abs(m)| == UsedSize(m.ptrs)
  {
    CountBelow(m, |m.pools|);
    UsedSizeCountsLive(m.ptrs);
    forall h | LiveHandle(m, h) ensures EntityAt(m, h).pool < |m.pools| {
      LiveIsResolvable(m, h);
    }
    assert HandlesBelow(m, |m.pools|) == Abs(m).Keys == LiveSet(m.ptrs);
  }

  /** Entities handed out minus entities given up, over a whole run. */
  ghost function Balance(m: Manager, ops: seq<Op>): int
    requires Ok(m) && FitsIds(m) && AllowedRun(m, ops)
    decreases |ops|
  {
    if ops == [] then 0
    else
      StepRefines(m, ops[0]);
      |Created(m, ops[0])| - |Destroyed(m, ops[0])| + Balance(Step(m, ops[0]), ops[1..])
  }

  lemma BindCard(a: map<Pos, Entity>, hs: seq<Pos>, e: Entity)
    requires Distinct(hs) && forall h :: h in hs ==> h !in a
    ensures |a + Bind(hs, e)| == |a| + |hs|
  {
    DistinctCard(hs);
    var s := set h | h in hs;
    assert (a + Bind(hs, e)).Keys == a.Keys + s;
    assert a.Keys !! s;
  }

  lemma RemoveCard(a: map<Pos, Entity>, s: set<Pos>)
    requires s <= a.Keys
    ensures |a - s| == |a| - |s|
  {
    assert (a - s).Keys == a.Keys - s;
  }

  lemma StepBalance(m: Manager, op: Op)
    requires Ok(m) && FitsIds(m) && Allowed(m, op)
    ensures Ok(Step(m, op)) && |Abs(Step(m, op))| == |Abs(m)| + |Created(m, op)| - |Destroyed(m, op)|
  {
    hide Ok, Abs, Step, Linked, PoolOk, LiveSet;
    StepRefines(m, op);
    var a := Abs(m);
    match op
    case Make(name, n, status) =>
      BindCard(a, Created(m, op), Entity(FindPool(m, name), status, ZeroRow(m.pools[FindPool(m, name)].width).cells));
    case Assign(h, status, cells) =>
      LiveInAbs(m, h);
      LiveIsResolvable(m, h);
      assert a[h := Entity(PoolId(m, h), status, cells)].Keys == a.Keys;
    case _ =>
      RemoveCard(a, Destroyed(m, op));
  }

  lemma LiveInAbs(m: Manager, h: Pos)
    requires Ok(m) && LiveHandle(m, h)
    ensures h in Abs(m)
  {
  }

  /** Conservation over any run: live entities change by exactly what was created minus what was destroyed. */
  lemma {:induction false} RunConserves(m: Manager, ops: seq<Op>)
    requires Ok(m) && FitsIds(m) && AllowedRun(m, ops)
    ensures SumUsed(Run(m, ops).pools, |Run(m, ops).pools|) == |Abs(m)| + Balance(m, ops)
    decreases |ops|
  {
    if ops == [] {
      UsedIsLive(m);
    } else {
      hide Ok, Abs, Created, Destroyed;
      StepRefines(m, ops[0]);
      StepBalance(m, ops[0]);
      RunConserves(Step(m, ops[0]), ops[1..]);
    }
  }

  // ---------- stability of handles ----------

  /** `h` keeps its slot and its pool id from `m` to `r`. */
  ghost predicate SameSlot(m: Manager, r: Manager, h: Pos) {
    && LiveHandle(m, h) && LiveHandle(r, h)
    && r.ptrs.rows[h] == m.ptrs.rows[h]
  }

  lemma {:induction false} GrowToKeeps(p: Pool, n: nat, q: Pos)
    requires PoolOk(p) && Live(p, q)
    ensures Live(GrowTo(p, n), q) && GrowTo(p, n).rows[q] == p.rows[q]
    decreases n - |p.free|
  {
    if |p.free| < n {
      AddChunkOk(p);
      GrowToKeeps(AddChunk(p), n, q);
    }
  }

  lemma MakeKeepsSlot(m: Manager, i: nat, n: nat, status: Cell, h: Pos)
    requires Ok(m) && i < |m.pools| && LiveHandle(m, h)
    ensures SameSlot(m, BatchCreate(m, i, n, status), h)
  {
    GrowToOk(m.ptrs, n);
    GrowToKeeps(m.ptrs, n, h);
    var t := GrowTo(m.ptrs, n);
    hide Linked;
    TakePtrsAt(t, n, FirstFree(m.pools[i], n), i, h);
    assert forall q :: q in t.free[..n] ==> q in t.free;
    assert forall q :: q in t.free[n..] ==> q in t.free;
  }

  /** No call moves a live entity it does not destroy. */
  lemma StepKeepsSlot(m: Manager, op: Op, h: Pos)
    requires Ok(m) && FitsIds(m) && Allowed(m, op) && LiveHandle(m, h) && h !in Destroyed(m, op)
    ensures SameSlot(m, Step(m, op), h)
  {
    hide PoolOk, Linked;
    match op
    case Register(p) =>
    case Make(name, n, status) => MakeKeepsSlot(m, FindPool(m, name), n, status, h);
    case DestroyOne(g) => DestroyEffect(m, g);
    case DestroyNamed(hs, name) =>
      if FindPool(m, name) < |m.pools| {
        DestroyFromIsDestroyN(m, hs, FindPool(m, name));
      }
    case DestroyMixed(hs) =>
      AllResolvable(m, hs);
      DestroyEachIsDestroyN(m, hs);
    case Assign(g, status, cells) => LiveIsResolvable(m, g);
    case Clear => LiveInAbs(m, h);
  }

  /** No call of the run destroys `h`. */
  ghost predicate Survives(m: Manager, ops: seq<Op>, h: Pos)
    requires Ok(m) && FitsIds(m) && AllowedRun(m, ops)
    decreases |ops|
  {
    ops == [] ||
    (h !in Destroyed(m, ops[0]) && (StepRefines(m, ops[0]); Survives(Step(m, ops[0]), ops[1..], h)))
  }

  /** Through any run a handle resolves to the same slot of the same pool until it is destroyed. */
  lemma {:induction false} RunKeepsSlot(m: Manager, ops: seq<Op>, h: Pos)
    requires Ok(m) && FitsIds(m) && AllowedRun(m, ops) && LiveHandle(m, h) && Survives(m, ops, h)
    ensures SameSlot(m, Run(m, ops), h)
    decreases |ops|
  {
    if ops == [] {
    } else {
      hide Ok, Destroyed;
      StepRefines(m, ops[0]);
      StepKeepsSlot(m, ops[0], h);
      RunKeepsSlot(Step(m, ops[0]), ops[1..], h);
    }
  }

  // ---------- callers that go too far ----------

  /** A destroyed handle still resolves, to slot (0, 0) of the first pool, as soon as that pool has a chunk. */
  lemma DestroyedResolves(m: Manager, h: Pos)
    requires Ok(m) && LiveHandle(m, h) && |m.pools| > 0 && Pos(0, 0) in m.pools[0].rows
    ensures Resolvable(m, h) && !LiveHandle(Destroy(m, h), h) && Resolvable(Destroy(m, h), h)
  {
    LiveIsResolvable(m, h);
    var r := Destroy(m, h);
    ReleaseOk(m.ptrs, h);
    assert r.ptrs.free[|m.ptrs.free|] == h;
    assert r.ptrs.rows[h] == ZeroRow(1);
  }

  /** The run ends with the handle resolvable but not live. */
  ghost predicate EndsStale(m: Manager, ops: seq<Op>, h: Pos)
    requires Ok(m) && FitsIds(m)
  {
    AllowedRun(m, ops) && Resolvable(Run(m, ops), h) && !LiveHandle(Run(m, ops), h)
  }

  /** Register a pool, create one entity, destroy it: its handle then resolves although it is not live. */
  lemma StaleReachable(name: string, width: nat, chunk: nat, ptrChunk: nat, status: Cell)
    requires chunk > 0 && ptrChunk > 0
    ensures Ok(NewManager(ptrChunk)) && FitsIds(NewManager(ptrChunk))
    ensures exists h :: EndsStale(NewManager(ptrChunk),
      [Register(EmptyPool(name, width, chunk)), Make(name, 1, status), DestroyOne(h)], h)
  {
    hide Step, Allowed, Ok, FitsIds, Resolvable, LiveHandle, Run, AllowedRun, FindPool, NewManager;
    var p := EmptyPool(name, width, chunk);
    var m := NewManager(ptrChunk);
    FirstPool(p, ptrChunk);
    var h := MakeThenDestroy(Step(m, Register(p)), name, status);
    RunCons(m, Register(p), [Make(name, 1, status), DestroyOne(h)]);
    assert [Register(p)] + [Make(name, 1, status), DestroyOne(h)] == [Register(p), Make(name, 1, status),
      DestroyOne(h)];
  }

  lemma FirstPool(p: Pool, ptrChunk: nat)
    requires p == EmptyPool(p.name, p.width, p.chunkSize) && p.chunkSize > 0 && ptrChunk > 0
    ensures Ok(NewManager(ptrChunk)) && FitsIds(NewManager(ptrChunk)) && Allowed(NewManager(ptrChunk), Register(p))
    ensures var r := Step(NewManager(ptrChunk), Register(p));
      Ok(r) && FitsIds(r) && |r.pools| > 0 && FindPool(r, p.name) == 0 && r.pools[0].free == []
  {
    var m := NewManager(ptrChunk);
    NewManagerOk(ptrChunk);
    RegisterPoolOk(m, p);
    assert RegisterPool(m, p).pools == [p];
    hide Ok, Abs, PoolOk;
  }

  lemma MakeThenDestroy(m: Manager, name: string, status: Cell) returns (h: Pos)
    requires Ok(m) && FitsIds(m) && |m.pools| > 0 && FindPool(m, name) == 0 && m.pools[0].free == []
    ensures EndsStale(m, [Make(name, 1, status), DestroyOne(h)], h)
  {
    hide Linked, PoolOk, BatchCreate, FirstFree, FitsIds, Step, Allowed, Run, AllowedRun, Resolvable, LiveHandle,
      FindPool;
    h := FirstFree(m.ptrs, 1)[0];
    Made(m, name, status);
    DestroyIsStale(Step(m, Make(name, 1, status)), h);
    RunCons(m, Make(name, 1, status), [DestroyOne(h)]);
    assert [Make(name, 1, status)] + [DestroyOne(h)] == [Make(name, 1, status), DestroyOne(h)];
  }

  lemma MakeIsBatch(m: Manager, name: string, status: Cell)
    requires Ok(m) && FindPool(m, name) < |m.pools|
    ensures Allowed(m, Make(name, 1, status))
    ensures Step(m, Make(name, 1, status)) == BatchCreate(m, FindPool(m, name), 1, status)
  {
    hide BatchCreate, FindPool, Ok;
  }

  /** The one entity made lives, and the first pool has its first chunk. */
  lemma Made(m: Manager, name: string, status: Cell)
    requires Ok(m) && FitsIds(m) && |m.pools| > 0 && FindPool(m, name) == 0 && m.pools[0].free == []
    ensures Allowed(m, Make(name, 1, status))
    ensures var r := Step(m, Make(name, 1, status));
      Ok(r) && FitsIds(r) && LiveHandle(r, FirstFree(m.ptrs, 1)[0]) && |r.pools| > 0 && Pos(0, 0) in r.pools[0].rows
  {
    hide Linked, PoolOk, BatchCreate, FirstFree, LiveHandle, GrowTo, FindPool, Step, Allowed;
    MakeIsBatch(m, name, status);
    MadeIsLive(m, name, status);
    BatchCreateOk(m, 0, 1, status);
    MadeRows(m, status);
  }

  lemma DestroyIsStale(m: Manager, h: Pos)
    requires Ok(m) && FitsIds(m) && LiveHandle(m, h) && |m.pools| > 0 && Pos(0, 0) in m.pools[0].rows
    ensures EndsStale(m, [DestroyOne(h)], h)
  {
    RunOne(m, DestroyOne(h));
    DestroyedResolves(m, h);
    hide Ok, Resolvable, LiveHandle, Destroy, Run, AllowedRun;
  }

  lemma MadeRows(m: Manager, status: Cell)
    requires Ok(m) && |m.pools| > 0 && m.pools[0].free == []
    ensures |BatchCreate(m, 0, 1, status).pools| == |m.pools|
    ensures Pos(0, 0) in BatchCreate(m, 0, 1, status).pools[0].rows
  {
    FirstChunk(m.pools[0]);
    GrowToOk(m.pools[0], 1);
    TakeSlotsParts(GrowTo(m.pools[0], 1), 1, status, FirstFree(m.ptrs, 1));
  }

  lemma MadeIsLive(m: Manager, name: string, status: Cell)
    requires Ok(m) && FitsIds(m) && FindPool(m, name) < |m.pools|
    ensures var r := BatchCreate(m, FindPool(m, name), 1, status); LiveHandle(r, FirstFree(m.ptrs, 1)[0])
  {
    BatchCreateAbs(m, FindPool(m, name), 1, status);
    var r := BatchCreate(m, FindPool(m, name), 1, status);
    var h := FirstFree(m.ptrs, 1)[0];
    assert h in FirstFree(m.ptrs, 1);
    hide BatchCreate, FirstFree, LiveHandle;
    assert h in Abs(r);
  }

  /** The first creation in an empty pool gives it a chunk. */
  lemma FirstChunk(p: Pool)
    requires PoolOk(p) && p.free == []
    ensures Pos(0, 0) in GrowTo(p, 1).rows
  {
    AddChunkOk(p);
    assert GrowTo(p, 1) == AddChunk(p);
    assert InShape(AddChunk(p), Pos(0, 0));
  }

  lemma RunOne(m: Manager, op: Op)
    requires Ok(m) && FitsIds(m) && Allowed(m, op)
    ensures AllowedRun(m, [op]) && Run(m, [op]) == Step(m, op)
  {
    StepRefines(m, op);
    assert [op][1..] == [];
    hide Step, Allowed;
  }

  lemma RunCons(m: Manager, op: Op, ops: seq<Op>)
    requires Ok(m) && FitsIds(m) && Allowed(m, op)
    requires StepAllows(m, op, ops)
    ensures Ok(Step(m, op)) && FitsIds(Step(m, op)) && AllowedRun(Step(m, op), ops)
    ensures AllowedRun(m, [op] + ops) && Run(m, [op] + ops) == Run(Step(m, op), ops)
  {
    StepRefines(m, op);
    assert ([op] + ops)[1..] == ops;
    hide Step, Allowed;
  }

  ghost predicate StepAllows(m: Manager, op: Op, ops: seq<Op>)
    requires Ok(m) && FitsIds(m) && Allowed(m, op)
  {
    StepRefines(m, op);
    AllowedRun(Step(m, op), ops)
  }

  /** A manager with `n` empty pools of distinct names, registered one after the other. */
  function Registered(n: nat, width: nat, chunk: nat, ptrChunk: nat): Manager {
    if n == 0 then NewManager(ptrChunk)
    else RegisterPool(Registered(n - 1, width, chunk, ptrChunk), EmptyPool(NameOf(n - 1), width, chunk))
  }

  function NameOf(k: nat): (s: string)
    ensures |s| == k
  {
    seq(k, _ => 'p')
  }

  lemma {:induction false} RegisteredOk(n: nat, width: nat, chunk: nat, ptrChunk: nat)
    requires chunk > 0 && ptrChunk > 0
    ensures var m := Registered(n, width, chunk, ptrChunk);
      Ok(m) && |m.pools| == n && forall k :: 0 <= k < n ==> m.pools[k] == EmptyPool(NameOf(k), width, chunk)
  {
    if n == 0 {
    } else {
      RegisteredOk(n - 1, width, chunk, ptrChunk);
      hide Ok;
      RegisterPoolOk(Registered(n - 1, width, chunk, ptrChunk), EmptyPool(NameOf(n - 1), width, chunk));
    }
  }

  /** Registration sets no bound: after 257 of them, creating in the last pool breaks the invariant. */
  lemma TooManyPools(width: nat, chunk: nat, ptrChunk: nat, status: Cell)
    requires chunk > 0 && ptrChunk > 0
    ensures var m := Registered(POOL_ID_RANGE + 1, width, chunk, ptrChunk);
      && Ok(m) && |m.pools| == POOL_ID_RANGE + 1
      && FindPool(m, NameOf(POOL_ID_RANGE)) == POOL_ID_RANGE && !Ok(Create(m, POOL_ID_RANGE, status))
  {
    var m := Registered(POOL_ID_RANGE + 1, width, chunk, ptrChunk);
    RegisteredOk(POOL_ID_RANGE + 1, width, chunk, ptrChunk);
    hide Registered, NameOf;
    CreateOkIff(m, POOL_ID_RANGE, status);
    var i := FindPool(m, NameOf(POOL_ID_RANGE));
    hide Ok;
    assert m.pools[POOL_ID_RANGE].name == NameOf(POOL_ID_RANGE);
    assert i < |m.pools| ==> m.pools[i].name == NameOf(i) && |NameOf(i)| == i;
  }
}
