/**
 The two-thread connection table. The context thread owns the live connections, the main thread owns
 the clients, and a first-in first-out event queue is all that links them. Every locked region, every
 queue operation and every change of a table is a step of its own, so each thread has a place in its code. What a
 read finds is the result of filling the connection's receive buffer.
 */
module Connections {
  import opened Common
  import opened Buffers

  type Id = nat
  type Fd = int

  datatype Event = Connection(id: Id) | Read(id: Id) | Disconnection(id: Id)

  /**
   Where the context thread is: between events, about to look up an id it was asked to disconnect, about to
   announce a change it has made to its table, or about to drop the outgoing connection it has announced as gone.
   */
  datatype Context = Ready | Asked(asked: Id) | Announcing(event: Event) | Resetting

  /**
   Where the main thread is: between events, holding one it has popped, about to use a connection it has looked
   up, or thrown out of the loop because that connection was gone.
   */
  datatype Main = Idle | Holding(event: Event) | Found(id: Id) | Thrown(id: Id)

  /**
   `conns` are the accepted connections by id, `single` the outgoing one, `issued` every connection id
   handed out; `clients` maps client ids to connection ids. `log` records every event ever pushed,
   of which the main thread has popped the first `taken`. `served` lists the connections whose received data the main
   thread has gone through, one entry each time.
   */
  datatype Table = Table(
    conns: map<Id, Fd>, single: Option<Id>, issued: set<Id>, asks: seq<Id>, context: Context,
    clients: map<Id, Id>, issuedClients: set<Id>, log: seq<Event>, taken: nat, main: Main, served: seq<Id>)

  /** The events waiting in the queue. */
  function Pending(t: Table): seq<Event>
    requires t.taken <= |t.log|
  {
    t.log[t.taken..]
  }

  /** The events the main thread has not acted on: the one it holds, then those in the queue. */
  function Unhandled(t: Table): seq<Event>
    requires t.taken <= |t.log|
  {
    (if t.main.Holding? then [t.main.event] else []) + Pending(t)
  }

  function Push(t: Table, e: Event): Table {
    t.(log := t.log + [e])
  }

  // ---------- steps ----------

  datatype Label =
    // the context thread
    | Accept(newId: Id, newFd: Fd)
    | ReadReady(readFd: Fd, readId: Id, result: FillResult)
    | WriteReady(writeFd: Fd, writeId: Id, written: bool)
    | ErrorOn(errorFd: Fd, errorId: Id)
    | SingleRead(singleResult: FillResult)
    | SingleBroken
    | TakeAsk
    | EraseAsked
    | Announce
    | ResetSingle
    // the main thread
    | Ask(askedId: Id)
    | TakeEvent
    | HandleEvent(newClient: Id)
    | UseConnection

  /** A descriptor names the connection that stores it, if any does. */
  predicate Names(t: Table, fd: Fd, id: Id) {
    if exists k :: k in t.conns && t.conns[k] == fd then id in t.conns && t.conns[id] == fd else true
  }

  predicate Enabled(t: Table, l: Label) {
    match l
    case Accept(id, _) => t.context.Ready? && id !in t.issued
    case ReadReady(fd, id, _) => t.context.Ready? && Names(t, fd, id)
    case WriteReady(fd, id, _) => t.context.Ready? && Names(t, fd, id)
    case ErrorOn(fd, id) => t.context.Ready? && Names(t, fd, id)
    case SingleRead(_) => t.context.Ready? && t.single.Some?
    case SingleBroken => t.context.Ready? && t.single.Some?
    case TakeAsk => t.context.Ready? && t.asks != []
    case EraseAsked => t.context.Asked?
    case Announce => t.context.Announcing?
    case ResetSingle => t.context.Resetting?
    case Ask(_) => true
    case TakeEvent => t.main.Idle? && t.taken < |t.log|
    case HandleEvent(u) => t.main.Holding? && (t.main.event.Connection? ==> u !in t.issuedClients)
    case UseConnection => t.main.Found?
  }

  predicate Stores(t: Table, fd: Fd, id: Id) {
    id in t.conns && t.conns[id] == fd
  }

  /** The locked erase of one connection; what is left to do is to announce it. */
  function Erase(t: Table, id: Id): Table {
    if id in t.conns then t.(conns := t.conns - {id},
      context := Announcing(Disconnection(id))) else t.(context := Ready)
  }

  /** The client of a connection, if any. */
  ghost predicate ClientOf(t: Table, u: Id, id: Id) {
    u in t.clients && t.clients[u] == id
  }

  function RemoveClient(clients: map<Id, Id>, id: Id): map<Id, Id> {
    map u | u in clients && clients[u] != id :: clients[u]
  }

  function Handle(t: Table, u: Id): Table
    requires t.main.Holding?
  {
    match t.main.event
    case Connection(id) => t.(clients := t.clients[u := id], issuedClients := t.issuedClients + {u}, main := Idle)
    case Disconnection(id) => t.(clients := RemoveClient(t.clients, id), main := Idle)
    // the outgoing connection is read at once, an accepted one is looked up first and used under the lock
    case Read(id) =>
      if t.single == Some(id) then t.(main := Idle, served := t.served + [id])
      else t.(main := if id in t.conns then Found(id) else Idle)
  }

  function Apply(t: Table, l: Label): Table
    requires Enabled(t, l)
  {
    match l
    case Accept(id, fd) =>
      t.(conns := t.conns[id := fd], issued := t.issued + {id}, context := Announcing(Connection(id)))
    case ReadReady(fd, id, result) =>
      if !Stores(t, fd, id) || result.Failed? then t
      else if result.Nothing? then Erase(t, id)
      else Push(t, Read(id))
    case WriteReady(fd, id, written) => if Stores(t, fd, id) && !written then Erase(t, id) else t
    case ErrorOn(fd, id) => if Stores(t, fd, id) then Erase(t, id) else t
    // an empty read on the outgoing connection is ignored, unlike on an accepted one
    case SingleRead(result) => if result.Filled? then Push(t, Read(t.single.value)) else t
    case SingleBroken => Push(t.(context := Resetting), Disconnection(t.single.value))
    case TakeAsk => t.(asks := t.asks[1..], context := Asked(t.asks[0]))
    case EraseAsked => Erase(t, t.context.asked)
    case Announce => Push(t.(context := Ready), t.context.event)
    case ResetSingle => t.(single := None, context := Ready)
    case Ask(id) => t.(asks := t.asks + [id])
    case TakeEvent => t.(taken := t.taken + 1, main := Holding(t.log[t.taken]))
    case HandleEvent(u) => Handle(t, u)
    case UseConnection =>
      if t.main.id in t.conns then t.(main := Idle, served := t.served + [t.main.id])
      else t.(main := Thrown(t.main.id))
  }

  /** A server before its context thread starts, with or without an outgoing connection. */
  function Start(single: Option<Id>): Table {
    match single
    case None => Table(map[], None, {}, [], Ready, map[], {}, [], 0, Idle, [])
    case Some(id) => Table(map[], single, {id}, [], Ready, map[], {}, [Connection(id)], 0, Idle, [])
  }

  // ---------- what one id's events look like ----------

  datatype Phase = Unseen | Up | Down | Broken

  function Advance(p: Phase, e: Event): Phase {
    match (p, e)
    case (Unseen, Connection(_)) => Up
    case (Up, Read(_)) => Up
    case (Up, Disconnection(_)) => Down
    case _ => Broken
  }

  function PhaseOf(log: seq<Event>, id: Id): Phase {
    if log == [] then Unseen
    else
      var p := PhaseOf(log[..|log| - 1], id);
      var e := log[|log| - 1];
      if e.id == id then Advance(p, e) else p
  }

  function Project(log: seq<Event>, id: Id): seq<Event> {
    if log == [] then []
    else
      var e := log[|log| - 1];
      Project(log[..|log| - 1], id) + if e.id == id then [e] else []
  }

  predicate AllReads(es: seq<Event>) {
    forall k :: 0 <= k < |es| ==> es[k].Read?
  }

  /** A phase other than `Broken` means: one connection, then reads, then at most one disconnection. */
  lemma {:induction false} PhaseShape(log: seq<Event>, id: Id)
    ensures PhaseOf(log, id) == Unseen ==> Project(log, id) == []
    ensures PhaseOf(log, id) == Up ==>
      var es := Project(log, id); |es| > 0 && es[0] == Connection(id) && AllReads(es[1..])
    ensures PhaseOf(log, id) == Down ==>
      var es := Project(log, id);
      |es| > 1 && es[0] == Connection(id) && AllReads(es[1..|es| - 1]) && es[|es| - 1] == Disconnection(id)
  {
    if log == [] {
    } else {
      var n := |log| - 1;
      PhaseShape(log[..n], id);
      var a, b := Project(log[..n], id), Project(log, id);
      if log[n].id == id && PhaseOf(log[..n], id) == Up {
        assert b[1..] == a[1..] + [log[n]];
        assert b[1..|b| - 1] == a[1..];
      } else if log[n].id != id {
        assert b == a;
      }
    }
  }

  lemma PhasePush(log: seq<Event>, e: Event, id: Id)
    ensures PhaseOf(log + [e], id) == if e.id == id then Advance(PhaseOf(log, id), e) else PhaseOf(log, id)
  {
    assert (log + [e])[..|log|] == log;
  }

  lemma PhaseTake(log: seq<Event>, n: nat, id: Id)
    requires n < |log|
    ensures PhaseOf(log[..n + 1], id) ==
      if log[n].id == id then Advance(PhaseOf(log[..n], id), log[n]) else PhaseOf(log[..n], id)
  {
    assert log[..n + 1] == log[..n] + [log[n]];
    PhasePush(log[..n], log[n], id);
  }

  lemma {:induction false} BrokenStays(log: seq<Event>, n: nat, id: Id)
    requires n <= |log| && PhaseOf(log[..n], id) == Broken
    ensures PhaseOf(log, id) == Broken
    decreases |log| - n
  {
    if n < |log| {
      PhaseTake(log, n, id);
      BrokenStays(log, n + 1, id);
    } else {
      assert log[..n] == log;
    }
  }

  // ---------- the invariant ----------

  function LiveIds(t: Table): set<Id> {
    t.conns.Keys + if t.single.Some? then {t.single.value} else {}
  }

  /** The id erased from the table whose disconnection has not been pushed yet. */
  function Leaving(t: Table): set<Id> {
    if t.context.Announcing? && t.context.event.Disconnection? then {t.context.event.id} else {}
  }

  /** The id still stored that the queue does not count: not announced yet, or already announced as gone. */
  function Unsettled(t: Table): set<Id> {
    if t.context.Announcing? && t.context.event.Connection? then {t.context.event.id}
    else if t.context.Resetting? && t.single.Some? then {t.single.value}
    else {}
  }

  /** The ids that are connected according to the events pushed so far. */
  function Announced(t: Table): set<Id> {
    LiveIds(t) - Unsettled(t) + Leaving(t)
  }

  /** How many events the main thread has acted on. */
  function Handled(t: Table): int {
    if t.main.Holding? then t.taken - 1 else t.taken
  }

  ghost predicate ContextOk(t: Table) {
    && (t.single.Some? ==> t.single.value !in t.conns)
    && (t.context.Resetting? ==> t.single.Some?)
    && (t.context.Announcing? ==> !t.context.event.Read?)
    && Leaving(t) !! LiveIds(t) && Unsettled(t) <= LiveIds(t)
    && LiveIds(t) + Leaving(t) <= t.issued
    && (t.context.Announcing? && t.context.event.Connection? ==> PhaseOf(t.log, t.context.event.id) == Unseen)
  }

  ghost predicate LogOk(t: Table) {
    && (forall id :: PhaseOf(t.log, id) != Broken)
    && (forall id :: PhaseOf(t.log, id) == Up <==> id in Announced(t))
    && (forall id :: PhaseOf(t.log, id) != Unseen ==> id in t.issued)
  }

  ghost predicate MainOk(t: Table) {
    && t.taken <= |t.log|
    && (t.main.Holding? ==> t.taken > 0 && t.log[t.taken - 1] == t.main.event)
    && (forall id :: PhaseOf(t.log[..Handled(t)], id) == Up <==> exists u :: ClientOf(t, u, id))
    && (forall u, v :: u in t.clients && v in t.clients && t.clients[u] == t.clients[v] ==> u == v)
    && t.clients.Keys <= t.issuedClients
  }

  ghost predicate Inv(t: Table) {
    ContextOk(t) && LogOk(t) && MainOk(t)
  }

  lemma StartPhase(single: Option<Id>, id: Id)
    ensures PhaseOf([], id) == Unseen
    ensures PhaseOf(Start(single).log, id) == if single == Some(id) then Up else Unseen
  {
    if single.Some? {
      PhasePush([], Connection(single.value), id);
      assert [] + [Connection(single.value)] == Start(single).log;
    }
  }

  lemma StartInv(single: Option<Id>)
    ensures Inv(Start(single))
  {
    hide PhaseOf;
    var t := Start(single);
    assert t.log[..Handled(t)] == [];
    forall id: Id
      ensures PhaseOf([], id) == Unseen && PhaseOf(t.log, id) == if single == Some(id) then Up else Unseen
    {
      StartPhase(single, id);
    }
  }

  /** The main thread's side depends on nothing the context thread writes but the log, which only grows. */
  lemma MainStays(t: Table, r: Table)
    requires MainOk(t) && r.clients == t.clients && r.issuedClients == t.issuedClients && r.taken == t.taken
    requires r.main == t.main
    requires |t.log| <= |r.log| && r.log[..|t.log|] == t.log
    ensures MainOk(r)
  {
    assert r.log[..Handled(r)] == t.log[..Handled(t)];
    assert t.taken > 0 ==> r.log[t.taken - 1] == r.log[..|t.log|][t.taken - 1];
    forall id ensures PhaseOf(r.log[..Handled(r)], id) == Up <==> exists u :: ClientOf(r, u, id) {
      assert forall u :: ClientOf(r, u, id) <==> ClientOf(t, u, id);
    }
  }

  /** A step that pushes nothing, and leaves the announced ids as they were. */
  lemma QuietInv(t: Table, r: Table)
    requires Inv(t) && ContextOk(r) && r.log == t.log && t.issued <= r.issued && Announced(r) == Announced(t)
    requires r.clients == t.clients && r.issuedClients == t.issuedClients && r.taken == t.taken && r.main == t.main
    ensures Inv(r)
  {
    assert r.log[..|t.log|] == t.log;
    MainStays(t, r);
  }

  /** A step that pushes one event, which moves exactly its id in or out of the announced ids. */
  lemma PushInv(t: Table, r: Table, e: Event)
    requires Inv(t) && ContextOk(r) && r.log == t.log + [e] && r.issued == t.issued
    requires r.clients == t.clients && r.issuedClients == t.issuedClients && r.taken == t.taken && r.main == t.main
    requires e.Connection? ==> PhaseOf(t.log, e.id) == Unseen && e.id in t.issued
    requires e.Connection? ==> Announced(r) == Announced(t) + {e.id}
    requires e.Read? ==> e.id in Announced(t) && Announced(r) == Announced(t)
    requires e.Disconnection? ==> e.id in Announced(t) && Announced(r) == Announced(t) - {e.id}
    ensures Inv(r)
  {
    hide ContextOk, Announced, MainOk;
    forall id
      ensures PhaseOf(r.log, id) == if e.id == id then Advance(PhaseOf(t.log, id), e) else PhaseOf(t.log, id)
    {
      PhasePush(t.log, e, id);
    }
    assert r.log[..|t.log|] == t.log;
    MainStays(t, r);
  }

  lemma AcceptInv(t: Table, id: Id, fd: Fd)
    requires Inv(t) && Enabled(t, Accept(id, fd))
    ensures Inv(Apply(t, Accept(id, fd)))
  {
    var r := Apply(t, Accept(id, fd));
    assert PhaseOf(t.log, id) == Unseen;
    assert LiveIds(r) == LiveIds(t) + {id};
    assert Announced(r) == Announced(t);
    QuietInv(t, r);
  }

  lemma EraseInv(t: Table, id: Id)
    requires Inv(t) && (t.context.Ready? || t.context.Asked?)
    ensures Inv(Erase(t, id))
  {
    var r := Erase(t, id);
    assert id in t.conns ==> LiveIds(r) == LiveIds(t) - {id};
    assert Announced(r) == Announced(t);
    QuietInv(t, r);
  }

  lemma AnnounceInv(t: Table)
    requires Inv(t) && t.context.Announcing?
    ensures Inv(Apply(t, Announce))
  {
    var r := Apply(t, Announce);
    var e := t.context.event;
    assert LiveIds(r) == LiveIds(t);
    assert Announced(r) == if e.Connection? then Announced(t) + {e.id} else Announced(t) - {e.id};
    PushInv(t, r, e);
  }

  /** The phase of an id among the first events is never broken, since it is not broken in the whole log. */
  lemma PrefixPhase(t: Table, n: nat, id: Id)
    requires LogOk(t) && n <= |t.log|
    ensures PhaseOf(t.log[..n], id) != Broken
  {
    if PhaseOf(t.log[..n], id) == Broken {
      BrokenStays(t.log, n, id);
    }
  }

  lemma TakeInv(t: Table)
    requires Inv(t) && Enabled(t, TakeEvent)
    ensures Inv(Apply(t, TakeEvent))
  {
    var r := Apply(t, TakeEvent);
    assert Handled(r) == Handled(t) && LiveIds(r) == LiveIds(t);
    forall id ensures PhaseOf(r.log[..Handled(r)], id) == Up <==> exists u :: ClientOf(r, u, id) {
      assert forall u :: ClientOf(r, u, id) <==> ClientOf(t, u, id);
    }
  }

  lemma HandleInv(t: Table, u: Id)
    requires Inv(t) && Enabled(t, HandleEvent(u))
    ensures Inv(Handle(t, u))
  {
    hide ContextOk, Announced;
    var r := Handle(t, u);
    var e := t.main.event;
    assert ContextOk(r) && Announced(r) == Announced(t) by { SameContext(t, r); }
    assert Handled(r) == t.taken;
    forall id ensures PhaseOf(r.log[..Handled(r)], id) == Up <==> exists v :: ClientOf(r, v, id) {
      HandleClient(t, u, id);
    }
    if e.Connection? {
      var n := t.taken - 1;
      assert t.log[n] == e && Handled(t) == n;
      PrefixPhase(t, n + 1, e.id);
      PhaseTake(t.log, n, e.id);
      assert forall v :: v in t.clients && t.clients[v] == e.id ==> ClientOf(t, v, e.id);
    }
  }

  lemma SameContext(t: Table, r: Table)
    requires r.conns == t.conns && r.single == t.single && r.issued == t.issued && r.context == t.context
    requires r.log == t.log
    ensures ContextOk(r) == ContextOk(t) && Announced(r) == Announced(t)
  {
  }

  lemma HandleClient(t: Table, u: Id, id: Id)
    requires LogOk(t) && MainOk(t) && Enabled(t, HandleEvent(u))
    ensures var r := Handle(t, u); PhaseOf(t.log[..t.taken], id) == Up <==> exists v :: ClientOf(r, v, id)
  {
    var r := Handle(t, u);
    var e := t.main.event;
    var n := t.taken - 1;
    assert t.log[n] == e && Handled(t) == n && t.log[..n + 1] == t.log[..t.taken];
    PrefixPhase(t, n, id);
    PrefixPhase(t, n + 1, id);
    PhaseTake(t.log, n, id);
    if e.id == id {
      if e.Connection? { assert ClientOf(r, u, id); }
      if e.Read? { assert forall v :: ClientOf(r, v, id) <==> ClientOf(t, v, id); }
      if e.Disconnection? { assert forall v :: !ClientOf(r, v, id); }
    } else {
      assert forall v :: ClientOf(t, v, id) ==> v != u || !e.Connection?;
      assert forall v :: ClientOf(r, v, id) <==> ClientOf(t, v, id);
    }
  }

  lemma UseInv(t: Table)
    requires Inv(t) && t.main.Found?
    ensures Inv(Apply(t, UseConnection))
  {
    var r := Apply(t, UseConnection);
    assert Handled(r) == Handled(t) && LiveIds(r) == LiveIds(t);
    forall id ensures PhaseOf(r.log[..Handled(r)], id) == Up <==> exists u :: ClientOf(r, u, id) {
      assert forall u :: ClientOf(r, u, id) <==> ClientOf(t, u, id);
    }
  }

  /** Every step of either thread keeps the invariant, whatever the interleaving of reads, errors and requests. */
  lemma StepInv(t: Table, l: Label)
    requires Inv(t) && Enabled(t, l)
    ensures Inv(Apply(t, l))
  {
    hide PhaseOf;
    match l
    case Accept(id, fd) => AcceptInv(t, id, fd);
    case ReadReady(fd, id, result) =>
      EraseInv(t, id);
      if Stores(t, fd, id) && result.Filled? { PushInv(t, Apply(t, l), Read(id)); }
    case WriteReady(fd, id, _) => EraseInv(t, id);
    case ErrorOn(fd, id) => EraseInv(t, id);
    case SingleRead(result) =>
      if result.Filled? { PushInv(t, Apply(t, l), Read(t.single.value)); }
    case SingleBroken => PushInv(t, Apply(t, l), Disconnection(t.single.value));
    case TakeAsk => QuietInv(t, Apply(t, l));
    case EraseAsked => EraseInv(t, t.context.asked);
    case Announce => AnnounceInv(t);
    case ResetSingle => QuietInv(t, Apply(t, l));
    case Ask(id) => QuietInv(t, Apply(t, l));
    case TakeEvent => TakeInv(t);
    case HandleEvent(u) => HandleInv(t, u);
    case UseConnection => UseInv(t);
  }

  ghost predicate IsRun(t: Table, ls: seq<Label>)
    decreases |ls|
  {
    ls == [] || (Enabled(t, ls[0]) && IsRun(Apply(t, ls[0]), ls[1..]))
  }

  ghost function After(t: Table, ls: seq<Label>): Table
    requires IsRun(t, ls)
    decreases |ls|
  {
    if ls == [] then t else After(Apply(t, ls[0]), ls[1..])
  }

  lemma {:induction false} RunInv(t: Table, ls: seq<Label>)
    requires Inv(t) && IsRun(t, ls)
    ensures Inv(After(t, ls))
    decreases |ls|
  {
    hide Inv, Enabled, Apply;
    if ls == [] {
    } else {
      StepInv(t, ls[0]);
      RunInv(Apply(t, ls[0]), ls[1..]);
    }
  }

  // ---------- what the invariant gives ----------

  /** The connection ids the main thread would know after handling `es`. */
  function Replay(known: set<Id>, es: seq<Event>): set<Id>
    decreases |es|
  {
    if es == [] then known
    else
      match es[0]
      case Connection(id) => Replay(known + {id}, es[1..])
      case Disconnection(id) => Replay(known - {id}, es[1..])
      case Read(_) => Replay(known, es[1..])
  }

  lemma {:induction false} ReplayPhase(log: seq<Event>, n: nat, known: set<Id>)
    requires n <= |log| && forall id :: PhaseOf(log, id) != Broken
    requires forall id :: id in known <==> PhaseOf(log[..n], id) == Up
    ensures forall id :: id in Replay(known, log[n..]) <==> PhaseOf(log, id) == Up
    decreases |log| - n
  {
    if n == |log| {
      assert log[..n] == log;
    } else {
      var e := log[n];
      var next := match e case Connection(id) => known + {id} case Disconnection(id) => known -
        {id} case Read(_) => known;
      forall id ensures id in next <==> PhaseOf(log[..n + 1], id) == Up {
        PhaseTake(log, n, id);
        if PhaseOf(log[..n + 1], id) == Broken {
          BrokenStays(log, n + 1, id);
        }
      }
      assert log[n..][1..] == log[n + 1..];
      ReplayPhase(log, n + 1, next);
    }
  }

  lemma ReplayIsAnnounced(t: Table)
    requires Inv(t)
    ensures Replay(t.clients.Values, Unhandled(t)) == Announced(t)
  {
    var n := Handled(t);
    forall id ensures id in t.clients.Values <==> PhaseOf(t.log[..n], id) == Up {
      if id in t.clients.Values {
        var u :| u in t.clients && t.clients[u] == id;
        assert ClientOf(t, u, id);
      }
      if PhaseOf(t.log[..n], id) == Up {
        var u :| ClientOf(t, u, id);
        assert t.clients[u] in t.clients.Values;
      }
    }
    assert t.log[n..] == Unhandled(t);
    hide ContextOk, Announced, PhaseOf, Unhandled;
    ReplayPhase(t.log, n, t.clients.Values);
  }

  /**
   In every reachable state, replaying the unhandled events over the clients' connections yields the live
   connections, plus the one erased but not announced yet, less the one stored that is not announced yet or already
   announced as gone. It yields exactly the live connections if and only if the context thread is at neither place.
   */
  lemma UnhandledReplaysToLive(single: Option<Id>, ls: seq<Label>)
    requires IsRun(Start(single), ls)
    ensures var t := After(Start(single), ls);
      && t.taken <= |t.log|
      && Replay(t.clients.Values, Unhandled(t)) == LiveIds(t) - Unsettled(t) + Leaving(t)
      && (Replay(t.clients.Values, Unhandled(t)) == LiveIds(t) <==> !t.context.Announcing? && !t.context.Resetting?)
  {
    StartInv(single);
    RunInv(Start(single), ls);
    var t := After(Start(single), ls);
    ReplayIsAnnounced(t);
    hide PhaseOf;
    AnnouncedIff(t);
  }

  lemma AnnouncedIff(t: Table)
    requires ContextOk(t)
    ensures Announced(t) == LiveIds(t) <==> !t.context.Announcing? && !t.context.Resetting?
  {
    if t.context.Announcing? {
      assert t.context.event.id in Announced(t) <==> t.context.event.id !in LiveIds(t);
    }
    if t.context.Resetting? {
      assert t.single.value in LiveIds(t) && t.single.value !in Announced(t);
    }
  }

  /** Both places are reached: right after an accept, and right after an accepted connection broke. */
  lemma HalfStepsReachable(id: Id, fd: Fd)
    ensures var ls := [Accept(id, fd)];
      IsRun(Start(None), ls) && Unsettled(After(Start(None), ls)) == {id}
    ensures var ls := [Accept(id, fd), Announce, ErrorOn(fd, id)];
      IsRun(Start(None), ls) && Leaving(After(Start(None), ls)) == {id}
  {
    hide Names;
    var ls := [Accept(id, fd), Announce, ErrorOn(fd, id)];
    var t1 := Apply(Start(None), ls[0]);
    var t2 := Apply(t1, ls[1]);
    OnlyConnection(t2, fd, id);
    var t3 := Apply(t2, ls[2]);
    LastStep(t2, ls, 2, t3);
    EarlierStep(t1, ls, 1, t3);
    EarlierStep(Start(None), ls, 0, t3);
    assert ls[0..] == ls;
    LastStep(Start(None), [Accept(id, fd)], 0, t1);
    assert [Accept(id, fd)][0..] == [Accept(id, fd)];
  }

  /**
   One id's events over any run: one connection, then reads, then at most one disconnection, which is missing
   exactly while the id is live and settled, or erased with the disconnection about to be pushed.
   */
  lemma EventGrammar(single: Option<Id>, ls: seq<Label>, id: Id)
    requires IsRun(Start(single), ls)
    ensures var t := After(Start(single), ls);
      var es := Project(t.log, id);
      var up := (id in LiveIds(t) && id !in Unsettled(t)) || id in Leaving(t);
      || (es == [] && !up)
      || (|es| > 0 && es[0] == Connection(id) && AllReads(es[1..]) && up)
      || (|es| > 1 && es[0] == Connection(id) && AllReads(es[1..|es| - 1]) && es[|es| - 1] == Disconnection(id) && !up)
  {
    StartInv(single);
    RunInv(Start(single), ls);
    PhaseShape(After(Start(single), ls).log, id);
  }

  /** A read or disconnection the main thread holds always has exactly one client: the fallback branch is dead. */
  lemma HeldEventFindsClient(single: Option<Id>, ls: seq<Label>)
    requires IsRun(Start(single), ls)
    ensures var t := After(Start(single), ls);
      t.main.Holding? && !t.main.event.Connection? ==>
        exists u :: ClientOf(t, u, t.main.event.id) && forall v :: ClientOf(t, v, t.main.event.id) ==> v == u
  {
    StartInv(single);
    RunInv(Start(single), ls);
    var t := After(Start(single), ls);
    if t.main.Holding? && !t.main.event.Connection? {
      var id := t.main.event.id;
      var n := t.taken - 1;
      assert t.log[n] == t.main.event && Handled(t) == n;
      PrefixPhase(t, n + 1, id);
      PhaseTake(t.log, n, id);
      var u :| ClientOf(t, u, id);
      assert forall v :: ClientOf(t, v, id) ==> v == u;
    }
  }

  // ---------- when a connection goes, and when data is announced ----------

  /** No two stored connections share a descriptor. */
  ghost predicate UniqueFds(t: Table) {
    forall a, b :: a in t.conns && b in t.conns && t.conns[a] == t.conns[b] ==> a == b
  }

  /** The operating system never hands out a descriptor that is in use. */
  ghost predicate FreshFd(t: Table, l: Label) {
    l.Accept? ==> l.newFd !in t.conns.Values
  }

  ghost predicate FreshFds(t: Table, ls: seq<Label>)
    requires IsRun(t, ls)
    decreases |ls|
  {
    ls == [] || (FreshFd(t, ls[0]) && FreshFds(Apply(t, ls[0]), ls[1..]))
  }

  lemma StepUniqueFds(t: Table, l: Label)
    requires UniqueFds(t) && Enabled(t, l) && FreshFd(t, l)
    ensures UniqueFds(Apply(t, l))
  {
    hide Names;
    if l.Accept? {
      assert forall a :: a in t.conns ==> t.conns[a] in t.conns.Values;
    }
  }

  lemma {:induction false} RunUniqueFds(t: Table, ls: seq<Label>)
    requires UniqueFds(t) && IsRun(t, ls) && FreshFds(t, ls)
    ensures UniqueFds(After(t, ls))
    decreases |ls|
  {
    hide UniqueFds, FreshFd, Enabled, Apply;
    if ls == [] {
    } else {
      StepUniqueFds(t, ls[0]);
      RunUniqueFds(Apply(t, ls[0]), ls[1..]);
    }
  }

  /** What ends an accepted connection: a request that is acted on, or one of three events on its descriptor. */
  predicate Ends(t: Table, l: Label, id: Id)
    requires id in t.conns
  {
    match l
    case EraseAsked => t.context == Asked(id)
    case ErrorOn(fd, _) => fd == t.conns[id]
    case WriteReady(fd, _, written) => fd == t.conns[id] && !written
    case ReadReady(fd, _, result) => fd == t.conns[id] && result.Nothing?
    case _ => false
  }

  /**
   Over any run, one step takes a stored connection away if and only if the step is an acted-on request to disconnect
   it, or an error, a failed write or an empty read on the descriptor it was accepted with. Its disconnection is then
   what the context thread is about to announce, and there is no other way to get there.
   */
  lemma GoneIff(single: Option<Id>, ls: seq<Label>, l: Label, id: Id)
    requires IsRun(Start(single), ls) && FreshFds(Start(single), ls) && Enabled(After(Start(single), ls), l)
    requires id in After(Start(single), ls).conns
    ensures var t := After(Start(single), ls);
      && Accept(id, t.conns[id]) in ls
      && (id !in Apply(t, l).conns <==> Ends(t, l, id))
      && (Apply(t, l).context == Announcing(Disconnection(id)) <==> Ends(t, l, id))
  {
    var t := After(Start(single), ls);
    StartInv(single);
    RunInv(Start(single), ls);
    RunUniqueFds(Start(single), ls);
    StoredFd(Start(single), ls, id);
    hide IsRun, After, LogOk, MainOk;
    GoneNow(t, l, id);
  }

  lemma GoneNow(t: Table, l: Label, id: Id)
    requires ContextOk(t) && UniqueFds(t) && Enabled(t, l) && id in t.conns
    ensures id !in Apply(t, l).conns <==> Ends(t, l, id)
    ensures Apply(t, l).context == Announcing(Disconnection(id)) <==> Ends(t, l, id)
  {
    hide PhaseOf;
    assert t.conns[id] == t.conns[id];
  }

  /** The context thread is through with a request one step after it has taken it. */
  predicate OnItsWay(l: Label) {
    l.TakeAsk? || l.Ask? || l.TakeEvent? || l.HandleEvent? || l.UseConnection?
  }

  lemma AskedOnce(t: Table, l: Label)
    requires Enabled(t, l) && Apply(t, l).context.Asked?
    ensures OnItsWay(l) && (l.TakeAsk? ==> Apply(t, l).context.asked == t.asks[0])
  {
    hide Names;
  }

  lemma SameFd(t: Table, l: Label, id: Id)
    requires Enabled(t, l) && id in Apply(t, l).conns
    ensures l == Accept(id, Apply(t, l).conns[id]) || (id in t.conns && Apply(t, l).conns[id] == t.conns[id])
  {
    hide Names;
  }

  /** A stored connection has the descriptor it was accepted with. */
  lemma {:induction false} StoredFd(t: Table, ls: seq<Label>, id: Id)
    requires IsRun(t, ls) && id in After(t, ls).conns
    ensures var fd := After(t, ls).conns[id]; Accept(id, fd) in ls || (id in t.conns && t.conns[id] == fd)
    decreases |ls|
  {
    if ls == [] {
    } else {
      hide Enabled, Apply;
      StoredFd(Apply(t, ls[0]), ls[1..], id);
      var fd := After(t, ls).conns[id];
      if Accept(id, fd) !in ls[1..] {
        SameFd(t, ls[0], id);
        assert ls[0] == Accept(id, fd) ==> Accept(id, fd) in ls;
      } else {
        assert ls == [ls[0]] + ls[1..];
      }
    }
  }

  lemma LogGrows(t: Table, l: Label)
    requires Enabled(t, l)
    ensures t.log <= Apply(t, l).log
  {
    hide Names;
  }

  lemma {:induction false} RunLogGrows(t: Table, ls: seq<Label>)
    requires IsRun(t, ls)
    ensures t.log <= After(t, ls).log
    decreases |ls|
  {
    hide Enabled, Apply;
    if ls == [] {
    } else {
      LogGrows(t, ls[0]);
      RunLogGrows(Apply(t, ls[0]), ls[1..]);
    }
  }

  /** Whatever the context thread is about to announce is the next event pushed, and nothing is pushed before. */
  lemma {:induction false} AnnouncedNext(t: Table, ls: seq<Label>)
    requires t.context.Announcing? && IsRun(t, ls)
    ensures var r := After(t, ls);
      (r.log == t.log && r.context == t.context) || t.log + [t.context.event] <= r.log
    decreases |ls|
  {
    if ls == [] {
    } else if ls[0].Announce? {
      RunLogGrows(Apply(t, ls[0]), ls[1..]);
    } else {
      assert Apply(t, ls[0]).log == t.log && Apply(t, ls[0]).context == t.context by { hide Names; }
      hide Enabled, Apply;
      AnnouncedNext(Apply(t, ls[0]), ls[1..]);
    }
  }

  /** A request to disconnect `id` waits, or is being acted on. */
  predicate AskPending(t: Table, id: Id) {
    id in t.asks || t.context == Asked(id)
  }

  lemma AskStep(t: Table, l: Label, id: Id)
    requires Inv(t) && Enabled(t, l) && id in t.issued && (id in t.conns ==> AskPending(t, id))
    ensures id in Apply(t, l).issued && (id in Apply(t, l).conns ==> AskPending(Apply(t, l), id))
  {
    hide PhaseOf, LogOk, MainOk, Names;
    if l.TakeAsk? {
      assert t.asks == [t.asks[0]] + t.asks[1..];
    }
  }

  lemma {:induction false} AskRun(t: Table, ls: seq<Label>, id: Id)
    requires Inv(t) && IsRun(t, ls) && id in t.issued && (id in t.conns ==> AskPending(t, id))
    ensures id in After(t, ls).conns ==> AskPending(After(t, ls), id)
    decreases |ls|
  {
    hide Inv, Enabled, Apply, AskPending;
    if ls == [] {
    } else {
      StepInv(t, ls[0]);
      AskStep(t, ls[0], id);
      AskRun(Apply(t, ls[0]), ls[1..], id);
    }
  }

  /**
   A request to disconnect is carried out: whatever happens afterwards, once no request is waiting or being acted on the
   connection is gone.
   */
  lemma AskedIsGone(single: Option<Id>, before: seq<Label>, id: Id, ls: seq<Label>)
    requires IsRun(Start(single), before) && id in After(Start(single), before).issued
    requires IsRun(Apply(After(Start(single), before), Ask(id)), ls)
    ensures var r := After(Apply(After(Start(single), before), Ask(id)), ls);
      && (id in r.conns ==> AskPending(r, id))
      && (r.asks == [] && r.context.Ready? ==> id !in r.conns)
  {
    StartInv(single);
    RunInv(Start(single), before);
    var t := After(Start(single), before);
    StepInv(t, Ask(id));
    assert (t.asks + [id])[|t.asks|] == id;
    hide Inv, IsRun, After;
    AskRun(Apply(t, Ask(id)), ls, id);
  }

  /** Data arrived on the connection: on its descriptor, or on the outgoing connection. */
  predicate Data(t: Table, l: Label, id: Id) {
    match l
    case ReadReady(fd, _, result) => id in t.conns && fd == t.conns[id] && result.Filled?
    case SingleRead(result) => t.single == Some(id) && result.Filled?
    case _ => false
  }

  /**
   Over any run, one step announces data for an id exactly when data arrived on its connection, and announces the
   outgoing connection as gone exactly when that broke: an empty read on it is no reason.
   */
  lemma ReadIff(single: Option<Id>, ls: seq<Label>, l: Label, id: Id)
    requires IsRun(Start(single), ls) && FreshFds(Start(single), ls) && Enabled(After(Start(single), ls), l)
    ensures var t := After(Start(single), ls);
      && (Apply(t, l).log == t.log + [Read(id)] <==> Data(t, l, id))
      && (t.single == Some(id) ==> (Apply(t, l).log == t.log + [Disconnection(id)] <==> l.SingleBroken?))
  {
    var t := After(Start(single), ls);
    StartInv(single);
    RunInv(Start(single), ls);
    RunUniqueFds(Start(single), ls);
    hide IsRun, After, LogOk, MainOk;
    ReadNow(t, l, id);
  }

  lemma ReadNow(t: Table, l: Label, id: Id)
    requires ContextOk(t) && UniqueFds(t) && Enabled(t, l)
    ensures Apply(t, l).log == t.log + [Read(id)] <==> Data(t, l, id)
    ensures t.single == Some(id) ==> (Apply(t, l).log == t.log + [Disconnection(id)] <==> l.SingleBroken?)
  {
    hide PhaseOf;
    var r := Apply(t, l);
    assert r.log == t.log ==> |r.log| != |t.log + [Read(id)]|;
    assert forall e :: r.log == t.log + [e] ==> r.log[|t.log|] == e;
  }

  // ---------- no announced data of a live connection is passed over ----------

  function ReadCount(log: seq<Event>, id: Id): nat {
    if log == [] then 0
    else ReadCount(log[..|log| - 1], id) + if log[|log| - 1] == Read(id) then 1 else 0
  }

  /** The main thread has popped data of this connection and not gone through it yet. */
  predicate Busy(t: Table, id: Id) {
    t.main == Holding(Read(id)) || t.main == Found(id)
  }

  /** How often its data has been gone through, or is being gone through. */
  function Accounted(t: Table, id: Id): nat {
    multiset(t.served)[id] + if Busy(t, id) then 1 else 0
  }

  ghost predicate ServedOk(t: Table, id: Id)
    requires t.taken <= |t.log|
  {
    && (id in LiveIds(t) ==> ReadCount(t.log[..t.taken], id) == Accounted(t, id))
    && (id !in t.issued ==> id !in t.served && t.main != Found(id))
    && (t.single == Some(id) ==> t.main != Found(id))
  }

  ghost predicate AllServed(t: Table) {
    t.taken <= |t.log| && forall id :: ServedOk(t, id)
  }

  lemma {:induction false} UnseenIsNowhere(log: seq<Event>, id: Id)
    requires PhaseOf(log, id) == Unseen
    ensures forall k :: 0 <= k < |log| ==> log[k].id != id
  {
    if log == [] {
    } else {
      var n := |log| - 1;
      UnseenIsNowhere(log[..n], id);
      assert forall k :: 0 <= k < n ==> log[..n][k] == log[k];
    }
  }

  lemma {:induction false} NoReads(log: seq<Event>, id: Id)
    requires forall k :: 0 <= k < |log| ==> log[k].id != id
    ensures ReadCount(log, id) == 0
  {
    if log == [] {
    } else {
      NoReads(log[..|log| - 1], id);
    }
  }

  lemma AcceptServed(t: Table, id: Id, fd: Fd)
    requires Inv(t) && AllServed(t) && Enabled(t, Accept(id, fd))
    ensures ServedOk(Apply(t, Accept(id, fd)), id)
  {
    assert PhaseOf(t.log, id) == Unseen;
    UnseenIsNowhere(t.log, id);
    hide PhaseOf;
    assert forall k :: 0 <= k < t.taken ==> t.log[..t.taken][k] == t.log[k];
    NoReads(t.log[..t.taken], id);
    assert ServedOk(t, id);
  }

  /** A step that adds to the log and to the ids, and takes connections away. */
  lemma GrownTable(t: Table, r: Table, id: Id)
    requires t.taken <= |t.log| && ServedOk(t, id) && t.log <= r.log && t.issued <= r.issued
    requires r.taken == t.taken && r.main == t.main && r.served == t.served
    requires id in LiveIds(r) ==> id in LiveIds(t)
    requires r.single == Some(id) ==> t.single == Some(id)
    ensures ServedOk(r, id)
  {
    hide ReadCount, LiveIds;
    assert r.log[..t.taken] == t.log[..t.taken];
  }

  lemma ContextTable(t: Table, l: Label, id: Id)
    requires Enabled(t, l) && !l.TakeEvent? && !l.HandleEvent? && !l.UseConnection?
    requires l.Accept? ==> l.newId != id
    ensures var r := Apply(t, l);
      && t.issued <= r.issued && r.taken == t.taken && r.main == t.main && r.served == t.served
      && (id in LiveIds(r) ==> id in LiveIds(t)) && (r.single == Some(id) ==> t.single == Some(id))
  {
    hide Names;
  }

  /** The steps of the context thread, and new requests. */
  lemma ContextServed(t: Table, l: Label, id: Id)
    requires Inv(t) && AllServed(t) && Enabled(t, l)
    requires !l.TakeEvent? && !l.HandleEvent? && !l.UseConnection?
    ensures ServedOk(Apply(t, l), id)
  {
    if l.Accept? && l.newId == id {
      AcceptServed(t, id, l.newFd);
    } else {
      LogGrows(t, l);
      ContextTable(t, l, id);
      assert ServedOk(t, id);
      hide Inv, Enabled, Apply, ServedOk;
      GrownTable(t, Apply(t, l), id);
    }
  }

  lemma TakeServed(t: Table, id: Id)
    requires Inv(t) && ServedOk(t, id) && Enabled(t, TakeEvent)
    ensures ServedOk(Apply(t, TakeEvent), id)
  {
    hide PhaseOf, LogOk, MainOk;
    assert t.log[..t.taken + 1][..t.taken] == t.log[..t.taken];
  }

  /** A step that only says whether the main thread is busy, and what it has gone through. */
  lemma SameTable(t: Table, r: Table, id: Id)
    requires t.taken <= |t.log| && ServedOk(t, id)
    requires r.conns == t.conns && r.single == t.single && r.issued == t.issued && r.log == t.log && r.taken == t.taken
    requires id in LiveIds(t) ==> Accounted(r, id) == Accounted(t, id)
    requires id !in t.issued ==> id !in r.served && r.main != Found(id)
    requires t.single == Some(id) ==> r.main != Found(id)
    ensures ServedOk(r, id)
  {
    hide ReadCount, Accounted;
    assert LiveIds(r) == LiveIds(t);
  }

  /** Handling an event moves its connection from busy to gone through, if it is live. */
  lemma HandleAccounts(t: Table, u: Id, id: Id)
    requires ContextOk(t) && t.taken <= |t.log| && ServedOk(t, id) && Enabled(t, HandleEvent(u))
    ensures var r := Handle(t, u);
      && (id in LiveIds(t) ==> Accounted(r, id) == Accounted(t, id))
      && (id !in t.issued ==> id !in r.served && r.main != Found(id))
      && (t.single == Some(id) ==> r.main != Found(id))
  {
    hide ReadCount, PhaseOf, RemoveClient;
  }

  lemma HandleServed(t: Table, u: Id, id: Id)
    requires ContextOk(t) && t.taken <= |t.log| && ServedOk(t, id) && Enabled(t, HandleEvent(u))
    ensures ServedOk(Handle(t, u), id)
  {
    HandleAccounts(t, u, id);
    hide ServedOk, ContextOk, Accounted;
    SameTable(t, Handle(t, u), id);
  }

  lemma UseServed(t: Table, id: Id)
    requires ContextOk(t) && t.taken <= |t.log| && ServedOk(t, id) && Enabled(t, UseConnection)
    ensures ServedOk(Apply(t, UseConnection), id)
  {
    var r := Apply(t, UseConnection);
    assert id in LiveIds(t) ==> Accounted(r, id) == Accounted(t, id);
    hide ServedOk, ReadCount, PhaseOf;
    SameTable(t, r, id);
  }

  /** The main thread's steps: popping data makes the connection busy, going through it is recorded. */
  lemma MainServed(t: Table, l: Label, id: Id)
    requires Inv(t) && AllServed(t) && Enabled(t, l) && (l.TakeEvent? || l.HandleEvent? || l.UseConnection?)
    ensures ServedOk(Apply(t, l), id)
  {
    assert ServedOk(t, id);
    hide ContextOk, LogOk, MainOk, ServedOk;
    match l
    case TakeEvent => TakeServed(t, id);
    case HandleEvent(u) => HandleServed(t, u, id);
    case UseConnection => UseServed(t, id);
  }

  lemma {:induction false} RunServed(t: Table, ls: seq<Label>)
    requires Inv(t) && AllServed(t) && IsRun(t, ls)
    ensures AllServed(After(t, ls))
    decreases |ls|
  {
    if ls == [] {
    } else {
      var r := Apply(t, ls[0]);
      StepInv(t, ls[0]);
      assert r.taken <= |r.log|;
      hide Inv, Enabled, Apply, ServedOk;
      forall id ensures ServedOk(r, id) {
        if ls[0].TakeEvent? || ls[0].HandleEvent? || ls[0].UseConnection? {
          MainServed(t, ls[0], id);
        } else {
          ContextServed(t, ls[0], id);
        }
      }
      RunServed(r, ls[1..]);
    }
  }

  /**
   Over any run, the main thread has gone through the data of a live connection as often as data was announced for it
   among the events it has popped, but for the one it is busy with: no announcement is passed over, and
   none is acted on twice.
   */
  lemma NoReadIsLost(single: Option<Id>, ls: seq<Label>, id: Id)
    requires IsRun(Start(single), ls) && id in LiveIds(After(Start(single), ls))
    ensures var t := After(Start(single), ls);
      && t.taken <= |t.log|
      && ReadCount(t.log[..t.taken], id) == multiset(t.served)[id] + if Busy(t, id) then 1 else 0
  {
    StartInv(single);
    var t := Start(single);
    assert t.log[..0] == [];
    assert AllServed(t);
    RunServed(t, ls);
    assert ServedOk(After(t, ls), id);
  }

  // ---------- between looking a connection up and using it ----------

  /** Some step of the run erases the connection. */
  ghost predicate Erased(t: Table, ls: seq<Label>, id: Id)
    requires IsRun(t, ls)
    decreases |ls|
  {
    ls != [] && ((id in t.conns && id !in Apply(t, ls[0]).conns) || Erased(Apply(t, ls[0]), ls[1..], id))
  }

  lemma NeverAgain(t: Table, l: Label, id: Id)
    requires Inv(t) && Enabled(t, l) && id in t.issued && id !in t.conns
    ensures id in Apply(t, l).issued && id !in Apply(t, l).conns
  {
    hide PhaseOf, LogOk, MainOk;
  }

  lemma {:induction false} GoneStaysGone(t: Table, ls: seq<Label>, id: Id)
    requires Inv(t) && IsRun(t, ls) && id in t.issued && id !in t.conns
    ensures id !in After(t, ls).conns && !Erased(t, ls, id)
    decreases |ls|
  {
    hide Inv, Enabled, Apply;
    if ls == [] {
    } else {
      StepInv(t, ls[0]);
      NeverAgain(t, ls[0], id);
      GoneStaysGone(Apply(t, ls[0]), ls[1..], id);
    }
  }

  lemma {:induction false} StoredUnlessErased(t: Table, ls: seq<Label>, id: Id)
    requires Inv(t) && IsRun(t, ls) && id in t.conns
    ensures id in After(t, ls).conns <==> !Erased(t, ls, id)
    decreases |ls|
  {
    if ls == [] {
    } else {
      hide PhaseOf, LogOk, MainOk, Enabled, Apply;
      StepInv(t, ls[0]);
      var r := Apply(t, ls[0]);
      if id in r.conns {
        StoredUnlessErased(r, ls[1..], id);
      } else {
        IssuedStays(t, ls[0], id);
        GoneStaysGone(r, ls[1..], id);
      }
    }
  }

  lemma IssuedStays(t: Table, l: Label, id: Id)
    requires Enabled(t, l) && ContextOk(t) && id in t.conns
    ensures id in Apply(t, l).issued
  {
    hide PhaseOf;
  }

  /**
   The main thread looks a connection up without the lock and uses it under the lock. Whatever happens in
   between, the use finds nothing and throws if and only if some step in between erased the connection.
   */
  lemma UseThrowsIff(t: Table, ls: seq<Label>, id: Id)
    requires Inv(t) && t.main == Found(id) && id in t.conns && IsRun(t, ls) && After(t, ls).main == t.main
    ensures Apply(After(t, ls), UseConnection).main.Thrown? <==> Erased(t, ls, id)
  {
    StoredUnlessErased(t, ls, id);
  }

  /** And it can: a connection that breaks right after its data was looked up. */
  lemma UseCanThrow(id: Id, fd: Fd, u: Id)
    ensures var ls := LookedUpThenBroken(id, fd, u);
      IsRun(Start(None), ls) && After(Start(None), ls).main == Thrown(id)
  {
    var ls := LookedUpThenBroken(id, fd, u);
    hide Enabled, Apply, IsRun, After, LookedUp, Start;
    ThenBroken(id, fd, u);
    ToLookedUp(id, fd, u, After(LookedUp(id, fd, u), ls[7..]));
    assert ls[0..] == ls;
  }

  function LookedUpThenBroken(id: Id, fd: Fd, u: Id): seq<Label> {
    [Accept(id, fd), Announce, ReadReady(fd, id, Filled(1)), TakeEvent, HandleEvent(u), TakeEvent, HandleEvent(u),
     ErrorOn(fd, id), UseConnection]
  }

  /** The table once the main thread has looked up the only connection for its first data. */
  function LookedUp(id: Id, fd: Fd, u: Id): Table {
    Table(map[id := fd], None, {id}, [], Ready, map[u := id], {u}, [Connection(id), Read(id)], 2, Found(id), [])
  }

  lemma ThenBroken(id: Id, fd: Fd, u: Id)
    ensures var t := LookedUp(id, fd, u);
      var ls := LookedUpThenBroken(id, fd, u)[7..];
      IsRun(t, ls) && After(t, ls).main == Thrown(id)
  {
    hide Names;
    var ls := LookedUpThenBroken(id, fd, u);
    var t7 := LookedUp(id, fd, u);
    OnlyConnection(t7, fd, id);
    var t8 := Apply(t7, ls[7]);
    var t9 := Apply(t8, ls[8]);
    LastStep(t8, ls, 8, t9);
    EarlierStep(t7, ls, 7, t9);
  }

  lemma ToLookedUp(id: Id, fd: Fd, u: Id, r: Table)
    requires var ls := LookedUpThenBroken(id, fd, u)[7..];
      IsRun(LookedUp(id, fd, u), ls) && After(LookedUp(id, fd, u), ls) == r
    ensures var ls := LookedUpThenBroken(id, fd, u)[0..]; IsRun(Start(None), ls) && After(Start(None), ls) == r
  {
    hide Names, IsRun, After;
    var ls := LookedUpThenBroken(id, fd, u);
    var t0 := Start(None);
    var t1 := Apply(t0, ls[0]);
    var t2 := Apply(t1, ls[1]);
    OnlyConnection(t2, fd, id);
    var t3 := Apply(t2, ls[2]);
    var t4 := Apply(t3, ls[3]);
    var t5 := Apply(t4, ls[4]);
    var t6 := Apply(t5, ls[5]);
    assert t6.log[..] == [Connection(id), Read(id)];
    assert Apply(t6, ls[6]) == LookedUp(id, fd, u);
    EarlierStep(t6, ls, 6, r);
    EarlierStep(t5, ls, 5, r);
    EarlierStep(t4, ls, 4, r);
    EarlierStep(t3, ls, 3, r);
    EarlierStep(t2, ls, 2, r);
    EarlierStep(t1, ls, 1, r);
    EarlierStep(t0, ls, 0, r);
  }

  lemma OnlyConnection(t: Table, fd: Fd, id: Id)
    requires t.conns == map[id := fd]
    ensures Names(t, fd, id)
  {
  }

  lemma LastStep(t: Table, ls: seq<Label>, k: nat, r: Table)
    requires k + 1 == |ls| && Enabled(t, ls[k]) && r == Apply(t, ls[k])
    ensures IsRun(t, ls[k..]) && After(t, ls[k..]) == r
  {
    assert ls[k..][1..] == [];
  }

  lemma EarlierStep(t: Table, ls: seq<Label>, k: nat, r: Table)
    requires k < |ls| && Enabled(t, ls[k])
    requires IsRun(Apply(t, ls[k]), ls[k + 1..]) && After(Apply(t, ls[k]), ls[k + 1..]) == r
    ensures IsRun(t, ls[k..]) && After(t, ls[k..]) == r
  {
    hide Enabled, Apply;
    assert ls[k..][1..] == ls[k + 1..] && ls[k..][0] == ls[k];
  }
}
