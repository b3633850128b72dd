/**
 Registration of archetype pools, systems, system nodes and groups with the manager, in any order: which pools
 each system has been offered.
 */
module Registration {
  import opened Common
  import opened SystemTrees
  import QueryMatch
  import TypeSets

  type PoolId = nat

  /** For each system, the pools its `tryAddEntityPool` has been called with, in order. */
  type Offers = map<Sys, seq<PoolId>>

  function OfferedTo(o: Offers, s: Sys): seq<PoolId> {
    if s in o then o[s] else []
  }

  function Offer(o: Offers, s: Sys, p: PoolId): Offers {
    o[s := OfferedTo(o, s) + [p]]
  }

  function OfferEach(o: Offers, ss: seq<Sys>, p: PoolId): Offers {
    if ss == [] then o else Offer(OfferEach(o, ss[..|ss| - 1], p), ss[|ss| - 1], p)
  }

  function OfferPools(o: Offers, ss: seq<Sys>, ps: seq<PoolId>): Offers {
    if ps == [] then o else OfferEach(OfferPools(o, ss, ps[..|ps| - 1]), ss, ps[|ps| - 1])
  }

  /** Every system in a node, enabled or not, in the order pools are offered to them. */
  function Systems(n: Node): seq<Sys> {
    n.start + SystemsAll(n.children) + n.end
  }

  function SystemsAll(cs: seq<Node>): seq<Sys> {
    if cs == [] then [] else Systems(cs[0]) + SystemsAll(cs[1..])
  }

  /** How often a system occurs. */
  function Count(ss: seq<Sys>, s: Sys): nat {
    multiset(ss)[s]
  }

  datatype World = World(pools: seq<PoolId>, tree: Node, fixedTree: Node, offers: Offers) {
    function Tree(fixed: bool): Node {
      if fixed then fixedTree else tree
    }

    function Reachable(): seq<Sys> {
      Systems(tree) + Systems(fixedTree)
    }

    function Replant(fixed: bool, grown: Option<Node>): World {
      if grown.None? then this else if fixed then this.(fixedTree := grown.value) else this.(tree := grown.value)
    }
  }

  datatype Op =
    | Pool(pool: PoolId)
    | System(sys: Sys, group: string, atStart: bool, fixed: bool)
    | SystemNode(node: Node, target: string, before: bool, inside: bool, fixed: bool)
    | Group(target: string, newGroup: string, before: bool, inside: bool, fixed: bool)

  /** The systems a registration brings in. */
  function Brings(op: Op): seq<Sys> {
    match op
    case System(s, _, _, _) => [s]
    case SystemNode(n, _, _, _, _) => Systems(n)
    case _ => []
  }

  function Grown(w: World, op: Op): Option<Node> {
    match op
    case Pool(_) => None
    case System(s, g, atStart, fixed) => InsertSystem(w.Tree(fixed), s, g, atStart)
    case SystemNode(n, g, before, inside, fixed) => InsertNode(w.Tree(fixed), n, g, before, inside)
    case Group(g, newGroup, before, inside, fixed) => InsertNode(w.Tree(fixed), EmptyGroup(newGroup), g, before, inside)
  }

  /** One registration: a system or node is offered all pools first, whether or not its group is then found. */
  function Step(w: World, op: Op): World {
    match op
    case Pool(p) =>
      w.(pools := w.pools + [p], offers := OfferEach(OfferEach(w.offers, Systems(w.tree), p), Systems(w.fixedTree), p))
    case _ =>
      w.(offers := OfferPools(w.offers, Brings(op), w.pools)).Replant(op.fixed, Grown(w, op))
  }

  // ---------- offers, one system at a time ----------

  lemma {:induction false} OfferEachAt(o: Offers, ss: seq<Sys>, p: PoolId, s: Sys)
    requires Count(ss, s) <= 1
    ensures OfferedTo(OfferEach(o, ss, p), s) == OfferedTo(o, s) + if s in ss then [p] else []
  {
    if ss == [] {
    } else {
      var init, last := ss[..|ss| - 1], ss[|ss| - 1];
      assert ss == init + [last];
      OfferEachAt(o, init, p, s);
    }
  }

  lemma {:induction false} OfferPoolsAt(o: Offers, ss: seq<Sys>, ps: seq<PoolId>, s: Sys)
    requires Count(ss, s) <= 1
    ensures OfferedTo(OfferPools(o, ss, ps), s) == OfferedTo(o, s) + if s in ss then ps else []
  {
    hide OfferedTo, OfferEach;
    if ps == [] {
    } else {
      var init, last := ps[..|ps| - 1], ps[|ps| - 1];
      OfferPoolsAt(o, ss, init, s);
      OfferEachAt(OfferPools(o, ss, init), ss, last, s);
      assert OfferedTo(o, s) + (init + [last]) == OfferedTo(o, s) + init + [last] && ps == init + [last];
    }
  }

  lemma {:induction false} OfferEachAppend(o: Offers, a: seq<Sys>, b: seq<Sys>, p: PoolId)
    ensures OfferEach(o, a + b, p) == OfferEach(OfferEach(o, a, p), b, p)
  {
    if b == [] {
      assert a + b == a;
    } else {
      assert (a + b)[..|a + b| - 1] == a + b[..|b| - 1];
      OfferEachAppend(o, a, b[..|b| - 1], p);
    }
  }

  // ---------- insertion adds exactly the new systems ----------

  lemma {:induction false} SystemsAllAppend(a: seq<Node>, b: seq<Node>)
    ensures SystemsAll(a + b) == SystemsAll(a) + SystemsAll(b)
  {
    hide Systems;
    if a == [] {
      assert a + b == b;
    } else {
      assert (a + b)[1..] == a[1..] + b;
      SystemsAllAppend(a[1..], b);
    }
  }

  lemma SystemsUnfold(n: Node)
    ensures Systems(n) == n.start + SystemsAll(n.children) + n.end
  {
  }

  lemma NoSystems(a: seq<Sys>)
    ensures a + SystemsAll([]) == a
  {
  }

  lemma SystemsSnoc(a: seq<Sys>, cs: seq<Node>, i: nat)
    requires i < |cs|
    ensures a + SystemsAll(cs[..i + 1]) == a + SystemsAll(cs[..i]) + Systems(cs[i])
  {
    hide Systems;
    assert cs[..i + 1] == cs[..i] + [cs[i]];
    SystemsAllAppend(cs[..i], [cs[i]]);
    SystemsAllOne(cs[i]);
  }

  lemma SystemsAllOne(c: Node)
    ensures SystemsAll([c]) == Systems(c)
  {
    hide Systems;
    assert [c][1..] == [] && Systems(c) + [] == Systems(c);
  }

  function EditBrings(e: Edit): seq<Sys> {
    match e
    case AddStart(s) => [s]
    case AddEnd(s) => [s]
    case FirstChild(c) => Systems(c)
    case LastChild(c) => Systems(c)
  }

  lemma EditNodeSystems(n: Node, e: Edit)
    ensures multiset(Systems(ApplyEdit(n, e))) == multiset(Systems(n)) + multiset(EditBrings(e))
  {
    hide SystemsAll;
    SystemsUnfold(n);
    SystemsUnfold(ApplyEdit(n, e));
    hide Systems;
    match e
    case AddStart(s) =>
    case AddEnd(s) =>
    case FirstChild(c) =>
      SystemsAllAppend([c], n.children);
      SystemsAllOne(c);
    case LastChild(c) =>
      SystemsAllAppend(n.children, [c]);
      SystemsAllOne(c);
  }

  lemma {:induction false} EditSystems(n: Node, g: string, e: Edit)
    requires EditFirst(n, g, e).Some?
    ensures multiset(Systems(EditFirst(n, g, e).value)) == multiset(Systems(n)) + multiset(EditBrings(e))
  {
    hide SystemsAll, ApplyEdit, EditBrings;
    if n.group == g {
      hide Systems;
      EditNodeSystems(n, e);
    } else {
      EditEachSystems(n.children, g, e);
    }
  }

  lemma {:induction false} EditEachSystems(cs: seq<Node>, g: string, e: Edit)
    requires EditEach(cs, g, e).Some?
    ensures multiset(SystemsAll(EditEach(cs, g, e).value)) == multiset(SystemsAll(cs)) + multiset(EditBrings(e))
  {
    hide Systems, EditFirst, EditBrings;
    var head, tail := cs[0], cs[1..];
    var r := EditEach(cs, g, e).value;
    if EditFirst(head, g, e).Some? {
      EditSystems(head, g, e);
      assert r[1..] == tail;
    } else {
      EditEachSystems(tail, g, e);
      assert r[1..] == EditEach(tail, g, e).value;
    }
  }

  lemma BesideSystems(n: Node, g: string, c: Node, before: bool)
    requires InsertBeside(n, g, c, before).Some?
    ensures multiset(Systems(InsertBeside(n, g, c, before).value)) == multiset(Systems(n)) + multiset(Systems(c))
  {
    var i := ChildIndex(n.children, g);
    var at := if before then i else i + 1;
    var a, b := n.children[..at], n.children[at..];
    hide SystemsAll, ChildIndex;
    assert n.children == a + b;
    SystemsAllAppend(a, b);
    SystemsAllAppend(a + [c], b);
    SystemsAllAppend(a, [c]);
    SystemsAllOne(c);
  }

  lemma InsertNodeSystems(n: Node, c: Node, g: string, before: bool, inside: bool)
    requires InsertNode(n, c, g, before, inside).Some?
    ensures multiset(Systems(InsertNode(n, c, g, before, inside).value)) == multiset(Systems(n)) + multiset(Systems(c))
  {
    hide EditFirst, InsertBeside, Systems;
    if inside { EditSystems(n, g, if before then FirstChild(c) else LastChild(c));
      } else { BesideSystems(n, g, c, before); }
  }

  /** A registration that finds its place adds exactly its systems to its tree. */
  lemma GrownSystems(w: World, op: Op)
    requires Grown(w, op).Some?
    ensures multiset(Systems(Grown(w, op).value)) == multiset(Systems(w.Tree(op.fixed))) + multiset(Brings(op))
  {
    hide EditFirst, InsertNode, Systems;
    var t := w.Tree(op.fixed);
    match op
    case System(s, g, atStart, _) =>
      EditSystems(t, g, if atStart then AddStart(s) else AddEnd(s));
    case SystemNode(c, g, before, inside, _) =>
      InsertNodeSystems(t, c, g, before, inside);
    case Group(g, newGroup, before, inside, _) =>
      InsertNodeSystems(t, EmptyGroup(newGroup), g, before, inside);
      EmptyGroupSystems(newGroup);
  }

  /** The tree a registration grows, and the one it leaves alone. */
  ghost predicate OnlyGrows(w: World, v: World, fixed: bool) {
    if fixed then v.tree == w.tree else v.fixedTree == w.fixedTree
  }

  /**
   With all nodes of the chosen tree enabled, registering a system or a node changes that tree only, and there the flags
   of the call say where in the run order the new systems stand.
   */
  lemma RegisterPlaces(w: World, op: Op)
    requires !op.Pool? && AllEnabled(if op.fixed then w.fixedTree else w.tree)
    ensures var v := Step(w, op);
      var (before, after) := if op.fixed then (w.fixedTree, v.fixedTree) else (w.tree, v.tree);
      && OnlyGrows(w, v, op.fixed)
      && (Grown(w, op).None? ==> after == before)
      && (Grown(w, op).Some? && op.System? ==> SystemPlaced(before, after, op.sys, op.group, op.atStart))
      && (Grown(w, op).Some? && op.SystemNode? && op.inside ==>
        NodePlaced(before, after, op.node, op.target, op.before))
      && (Grown(w, op).Some? && op.Group? ==> Trace(after) == Trace(before))
  {
    hide AllEnabled, Trace, EditFirst, InsertSystem, InsertNode, SystemPlaced, NodePlaced, OfferPools, Brings;
    var t := if op.fixed then w.fixedTree else w.tree;
    if Grown(w, op).Some? {
      match op
      case System(s, g, atStart, _) => InsertSystemTrace(t, s, g, atStart);
      case SystemNode(c, g, before, inside, _) => if inside { InsertNodeInsideTrace(t, c, g, before); }
      case Group(g, h, before, inside, _) => AddGroupKeepsTrace(t, h, g, before, inside);
    }
  }

  lemma EmptyGroupSystems(newGroup: string)
    ensures Systems(EmptyGroup(newGroup)) == []
  {
  }

  // ---------- any interleaving ----------

  /** Every reachable system occurs once and has been offered exactly the registered pools, in order. */
  ghost predicate InStep(w: World, used: set<Sys>) {
    && (forall s :: s in w.Reachable() ==> s in used && OfferedTo(w.offers, s) == w.pools)
    && (forall s :: Count(w.Reachable(), s) <= 1)
    && (forall s :: s !in used ==> OfferedTo(w.offers, s) == [])
  }

  /** Each system is registered at most once over the whole run. */
  ghost predicate BringsNew(used: set<Sys>, op: Op) {
    forall s :: Count(Brings(op), s) <= 1 && (s in Brings(op) ==> s !in used)
  }

  function UsedAfter(used: set<Sys>, op: Op): set<Sys> {
    used + set s | s in Brings(op)
  }

  lemma ReachableAfter(w: World, op: Op, s: Sys)
    requires !op.Pool?
    ensures Count(Step(w, op).Reachable(), s) ==
      Count(w.Reachable(), s) + if Grown(w, op).Some? then Count(Brings(op), s) else 0
  {
    hide Systems, OfferPools, Grown, Brings;
    if Grown(w, op).Some? {
      GrownSystems(w, op);
    }
  }

  lemma PoolOffers(w: World, used: set<Sys>, p: PoolId, s: Sys)
    requires InStep(w, used)
    ensures OfferedTo(Step(w, Pool(p)).offers, s) == OfferedTo(w.offers, s) + if s in w.Reachable() then [p] else []
  {
    hide Systems, OfferEach, OfferedTo;
    var a, b := Systems(w.tree), Systems(w.fixedTree);
    assert Count(w.Reachable(), s) == Count(a, s) + Count(b, s);
    assert (s in a <==> Count(a, s) > 0) && (s in b <==> Count(b, s) > 0);
    OfferEachAt(w.offers, a, p, s);
    OfferEachAt(OfferEach(w.offers, a, p), b, p, s);
    assert OfferedTo(w.offers, s) + [] == OfferedTo(w.offers, s);
    assert OfferedTo(w.offers, s) + [p] + [] == OfferedTo(w.offers, s) + [p];
  }

  lemma StepInStep(w: World, used: set<Sys>, op: Op)
    requires InStep(w, used) && BringsNew(used, op)
    ensures InStep(Step(w, op), UsedAfter(used, op))
  {
    var v := Step(w, op);
    var after := UsedAfter(used, op);
    forall s
      ensures s in v.Reachable() ==> s in after && OfferedTo(v.offers, s) == v.pools
      ensures Count(v.Reachable(), s) <= 1
      ensures s !in after ==> OfferedTo(v.offers, s) == []
    {
      StepSystem(w, used, op, s);
    }
  }

  lemma StepSystem(w: World, used: set<Sys>, op: Op, s: Sys)
    requires InStep(w, used) && BringsNew(used, op)
    ensures s in Step(w, op).Reachable() ==>
      s in UsedAfter(used, op) && OfferedTo(Step(w, op).offers, s) == Step(w, op).pools
    ensures Count(Step(w, op).Reachable(), s) <= 1
    ensures s !in UsedAfter(used, op) ==> OfferedTo(Step(w, op).offers, s) == []
  {
    hide Systems, Grown, Brings, OfferedTo, OfferEach, OfferPools;
    var v := Step(w, op);
    assert s in v.Reachable() <==> Count(v.Reachable(), s) > 0;
    assert s in w.Reachable() <==> Count(w.Reachable(), s) > 0;
    assert s in Brings(op) <==> Count(Brings(op), s) > 0;
    match op
    case Pool(p) =>
      PoolOffers(w, used, p, s);
    case _ =>
      ReachableAfter(w, op, s);
      OfferPoolsAt(w.offers, Brings(op), w.pools, s);
      assert [] + w.pools == w.pools && w.pools + [] == w.pools;
  }

  ghost predicate RegisteredOnce(used: set<Sys>, ops: seq<Op>)
    decreases |ops|
  {
    ops == [] || (BringsNew(used, ops[0]) && RegisteredOnce(UsedAfter(used, ops[0]), ops[1..]))
  }

  function Run(w: World, ops: seq<Op>): World
    decreases |ops|
  {
    if ops == [] then w else Run(Step(w, ops[0]), ops[1..])
  }

  function PoolsOf(ops: seq<Op>): seq<PoolId> {
    if ops == [] then [] else (if ops[0].Pool? then [ops[0].pool] else []) + PoolsOf(ops[1..])
  }

  lemma {:induction false} RunInStep(w: World, used: set<Sys>, ops: seq<Op>)
    requires InStep(w, used) && RegisteredOnce(used, ops)
    ensures exists after :: InStep(Run(w, ops), after)
    ensures Run(w, ops).pools == w.pools + PoolsOf(ops)
    decreases |ops|
  {
    hide InStep, Step, BringsNew, UsedAfter;
    if ops == [] {
      assert InStep(Run(w, ops), used);
      assert w.pools + [] == w.pools;
    } else {
      StepInStep(w, used, ops[0]);
      var v := Step(w, ops[0]);
      RunInStep(v, UsedAfter(used, ops[0]), ops[1..]);
      var after :| InStep(Run(v, ops[1..]), after);
      assert InStep(Run(w, ops), after);
      StepPools(w, ops[0]);
      var first := if ops[0].Pool? then [ops[0].pool] else [];
      assert PoolsOf(ops) == first + PoolsOf(ops[1..]);
      assert v.pools == w.pools + first;
      assert w.pools + first + PoolsOf(ops[1..]) == w.pools + (first + PoolsOf(ops[1..]));
    }
  }

  lemma StepPools(w: World, op: Op)
    ensures Step(w, op).pools == w.pools + if op.Pool? then [op.pool] else []
  {
    hide Grown, OfferPools, OfferEach, Brings;
  }

  function NewWorld(): World {
    World([], EmptyGroup("ROOT"), EmptyGroup("FIXED_ROOT"), map[])
  }

  /**
   Whatever the interleaving of registrations, every system reachable in either tree occurs once and
   has been offered exactly the registered pools, each as often and in the order it was registered.
   */
  lemma AnyOrder(ops: seq<Op>, s: Sys)
    requires RegisteredOnce({}, ops) && s in Run(NewWorld(), ops).Reachable()
    ensures OfferedTo(Run(NewWorld(), ops).offers, s) == PoolsOf(ops)
    ensures Count(Run(NewWorld(), ops).Reachable(), s) == 1
  {
    hide Run, RegisteredOnce, PoolsOf, OfferedTo;
    NewInStep();
    RunInStep(NewWorld(), {}, ops);
    var w := Run(NewWorld(), ops);
    var after :| InStep(w, after);
    assert [] + PoolsOf(ops) == PoolsOf(ops);
    hide NewWorld;
    assert Count(w.Reachable(), s) <= 1;
    assert s in multiset(w.Reachable());
  }

  lemma NewInStep()
    ensures InStep(NewWorld(), {})
  {
    assert NewWorld().Reachable() == [];
  }

  /** So the match list of a system's query depends only on the order of the pools. */
  lemma MatchesDoNotDependOnOrder(
      ops: seq<Op>, others: seq<Op>, s: Sys, requested: seq<TypeSets.TypeName>,
        components: PoolId -> seq<TypeSets.TypeName>)
    requires RegisteredOnce({}, ops) && s in Run(NewWorld(), ops).Reachable()
    requires RegisteredOnce({}, others) && s in Run(NewWorld(), others).Reachable()
    requires PoolsOf(ops) == PoolsOf(others)
    ensures MatchList(requested, OfferedTo(Run(NewWorld(), ops).offers, s), components)
         == MatchList(requested, OfferedTo(Run(NewWorld(), others).offers, s), components)
  {
    AnyOrder(ops, s);
    AnyOrder(others, s);
  }

  function MatchList(requested: seq<TypeSets.TypeName>, offered: seq<PoolId>,
        components: PoolId -> seq<TypeSets.TypeName>): seq<QueryMatch.Match> {
    QueryMatch.MatchAll(requested, seq(|offered|, i requires 0 <= i < |offered| => components(offered[i])), |offered|)
  }

  /**
   Without the once-only restriction: registering a system leaves it offered exactly the registered
   pools if and only if it had been offered none before. A failed registration counts as an offer.
   */
  lemma RegisterIff(w: World, s: Sys, g: string, atStart: bool, fixed: bool)
    ensures OfferedTo(Step(w, System(s, g, atStart, fixed)).offers, s) == w.pools <==> OfferedTo(w.offers, s) == []
  {
    hide Grown, OfferPools, OfferedTo;
    OnlyOne(s);
    OfferPoolsAt(w.offers, [s], w.pools, s);
    PrefixedSame(OfferedTo(w.offers, s), w.pools);
  }

  lemma OnlyOne(s: Sys)
    ensures Count([s], s) == 1
  {
  }

  lemma PrefixedSame(before: seq<PoolId>, ps: seq<PoolId>)
    ensures before + ps == ps <==> before == []
  {
    assert |before + ps| == |before| + |ps|;
    assert [] + ps == ps;
  }

  /** A registration that failed for want of its group, repeated once the group exists, offers every pool twice. */
  lemma RetryDuplicates(w: World, s: Sys, g: string, newGroup: Op)
    requires OfferedTo(w.offers, s) == [] && w.pools != [] && newGroup.Group?
    requires Grown(w, System(s, g, false, false)).None?
    ensures OfferedTo(Run(w, [System(s, g, false, false), newGroup, System(s, g, false, false)]).offers,
      s) == w.pools + w.pools
  {
    hide Grown, OfferPools, OfferedTo;
    var op := System(s, g, false, false);
    var ops := [op, newGroup, op];
    assert ops[1..] == [newGroup, op] && [newGroup, op][1..] == [op] && [op][1..] == [];
    var w1 := Step(w, op);
    var w2 := Step(w1, newGroup);
    OfferPoolsAt(w.offers, [s], w.pools, s);
    OfferPoolsAt(w1.offers, [], w.pools, s);
    OfferPoolsAt(w2.offers, [s], w.pools, s);
    assert Run(w2, [op]) == Step(w2, op);
    assert [] + w.pools == w.pools && w.pools + [] == w.pools;
  }

  // ---------- the manager object ----------

  class Registry {
    const tree: SystemTree
    const fixedTree: SystemTree
    var pools: seq<PoolId>
    var offers: Offers

    ghost predicate Valid() { tree != fixedTree }

    ghost function Now(): World
      reads this, tree, fixedTree
    {
      World(pools, tree.root, fixedTree.root, offers)
    }

    constructor ()
      ensures Valid() && Now() == NewWorld() && fresh(tree) && fresh(fixedTree)
    {
      tree := new SystemTree("ROOT");
      fixedTree := new SystemTree("FIXED_ROOT");
      pools, offers := [], map[];
    }

    /** A node's systems are offered the pool: start systems, children, end systems. */
    method OfferToNode(n: Node, p: PoolId)
      modifies this`offers
      ensures offers == OfferEach(old(offers), Systems(n), p)
      decreases n
    {
      hide Systems, SystemsAll, OfferEach;
      ghost var before := offers;
      OfferToSystems(n.start, p);
      NoSystems(n.start);
      assert n.children[..0] == [];
      for i := 0 to |n.children|
        invariant offers == OfferEach(before, n.start + SystemsAll(n.children[..i]), p)
      {
        OfferToNode(n.children[i], p);
        SystemsSnoc(n.start, n.children, i);
        OfferEachAppend(before, n.start + SystemsAll(n.children[..i]), Systems(n.children[i]), p);
      }
      assert n.children[..|n.children|] == n.children;
      OfferToSystems(n.end, p);
      OfferEachAppend(before, n.start + SystemsAll(n.children), n.end, p);
      SystemsUnfold(n);
    }

    method OfferToSystems(ss: seq<Sys>, p: PoolId)
      modifies this`offers
      ensures offers == OfferEach(old(offers), ss, p)
    {
      for i := 0 to |ss|
        invariant offers == OfferEach(old(offers), ss[..i], p)
      {
        assert ss[..i + 1][..i] == ss[..i];
        offers := Offer(offers, ss[i], p);
      }
      assert ss[..|ss|] == ss;
    }

    method RegisterEntityPool(p: PoolId)
      requires Valid()
      modifies this
      ensures Valid() && Now() == Step(old(Now()), Pool(p))
    {
      OfferToNode(tree.root, p);
      OfferToNode(fixedTree.root, p);
      pools := pools + [p];
    }

    method RegisterSystem(s: Sys, g: string, atStart: bool, fixed: bool) returns (ok: bool)
      requires Valid()
      modifies this, tree, fixedTree
      ensures Valid() && Now() == Step(old(Now()), System(s, g, atStart, fixed))
      ensures ok <==> Grown(old(Now()), System(s, g, atStart, fixed)).Some?
    {
      hide InsertSystem, OfferEach;
      for i := 0 to |pools|
        invariant tree.root == old(tree.root) && fixedTree.root == old(fixedTree.root) && pools == old(pools)
        invariant offers == OfferPools(old(offers), [s], pools[..i])
      {
        assert pools[..i + 1][..i] == pools[..i];
        OfferToSystems([s], pools[i]);
      }
      assert pools[..|pools|] == pools;
      if fixed {
        ok := fixedTree.AddSystem(s, g, atStart);
      } else {
        ok := tree.AddSystem(s, g, atStart);
      }
    }

    method RegisterSystemNode(n: Node, g: string, before: bool, inside: bool, fixed: bool) returns (ok: bool)
      requires Valid()
      modifies this, tree, fixedTree
      ensures Valid() && Now() == Step(old(Now()), SystemNode(n, g, before, inside, fixed))
      ensures ok <==> Grown(old(Now()), SystemNode(n, g, before, inside, fixed)).Some?
    {
      hide InsertNode, OfferEach, Systems;
      for i := 0 to |pools|
        invariant tree.root == old(tree.root) && fixedTree.root == old(fixedTree.root) && pools == old(pools)
        invariant offers == OfferPools(old(offers), Systems(n), pools[..i])
      {
        assert pools[..i + 1][..i] == pools[..i];
        OfferToNode(n, pools[i]);
      }
      assert pools[..|pools|] == pools;
      if fixed {
        ok := fixedTree.AddSystemTreeNode(n, g, before, inside);
      } else {
        ok := tree.AddSystemTreeNode(n, g, before, inside);
      }
    }

    method RegisterSystemGroup(g: string, newGroup: string, before: bool, inside: bool, fixed: bool) returns (ok: bool)
      requires Valid()
      modifies tree, fixedTree
      ensures Valid() && Now() == Step(old(Now()), Group(g, newGroup, before, inside, fixed))
      ensures ok <==> Grown(old(Now()), Group(g, newGroup, before, inside, fixed)).Some?
    {
      OfferNobody(offers, pools);
      hide InsertNode, OfferPools;
      if fixed {
        ok := fixedTree.AddSystemGroup(g, newGroup, before, inside);
      } else {
        ok := tree.AddSystemGroup(g, newGroup, before, inside);
      }
    }
  }

  lemma {:induction false} OfferNobody(o: Offers, ps: seq<PoolId>)
    ensures OfferPools(o, [], ps) == o
  {
    if ps == [] {
    } else {
      OfferNobody(o, ps[..|ps| - 1]);
    }
  }
}
