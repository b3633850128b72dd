/**
 The hosting server's clients and its cache of verified UDP addresses. A client is told a
 number over TCP and is verified by a datagram that carries its id and the transformed number.
 */
module Handshake {
  import opened Common
  import opened Packets
  import opened Uuids
  import Framing

  type Addr = nat

  /** The address a client has before it is verified. */
  const NO_ADDR: Addr := 0

  const SECRET_NUMBER: bv64 := 0x1234567890ABCDEF

  datatype Client = Client(conn: Id, addr: Addr, number: bv64)

  /** What the server received and what it did, in order. */
  datatype Entry =
    | Received(from: Addr, bytes: seq<Byte>)
    | UdpConnected(client: Id, at: Addr)
    | Dispatched(source: Addr, target: Id, packet: Packet)

  /** `numbers` remembers the number of every client id ever issued. */
  datatype State = State(clients: map<Id, Client>, cache: map<Addr, Id>, numbers: map<Id, bv64>, log: seq<Entry>)

  function Transform(number: bv64): bv64 {
    number ^ SECRET_NUMBER
  }

  /**
   Different numbers never give the same result, applying the function twice gives the number back, and no number is
   its own result.
   */
  lemma TransformInjective(a: bv64, b: bv64)
    ensures Transform(a) == Transform(b) <==> a == b
    ensures Transform(Transform(a)) == a && Transform(a) != a
    ensures Transform(0) == 0x1234567890ABCDEF
  {
    assert a ^ SECRET_NUMBER ^ SECRET_NUMBER == a;
    assert b ^ SECRET_NUMBER ^ SECRET_NUMBER == b;
  }

  /** The id and number a handshake response carries, if the datagram is one. */
  function Response(bytes: seq<Byte>): Option<Pair64> {
    match Deserialize(bytes)
    case None => None
    case Some(p) => if p.header.kind == ASKUDP_RESPONSE then DecodePair(p.data) else None
  }

  // ---------- the three events ----------

  function Connect(s: State, conn: Id, u: Id, number: bv64): State {
    s.(clients := s.clients[u := Client(conn, NO_ADDR, number)], numbers := s.numbers[u := number])
  }

  /** The first client, in id order, with this connection. */
  predicate FirstWith(clients: map<Id, Client>, conn: Id, u: Id) {
    && u in clients && clients[u].conn == conn
    && forall v :: v in clients && clients[v].conn == conn ==> u <= v
  }

  predicate NoneWith(clients: map<Id, Client>, conn: Id) {
    forall v :: v in clients ==> clients[v].conn != conn
  }

  function Disconnect(s: State, u: Id): State
    requires u in s.clients
  {
    s.(clients := s.clients - {u}, cache := s.cache - {s.clients[u].addr})
  }

  function Log(s: State, e: Entry): State {
    s.(log := s.log + [e])
  }

  /** The datagram proves that its sender knows the number told to client `u`. */
  predicate Proves(s: State, bytes: seq<Byte>, u: Id) {
    && Response(bytes).Some? && Response(bytes).value.id == u && u in s.numbers
    && Transform(s.numbers[u]) as nat == Response(bytes).value.number
  }

  function Verify(s: State, addr: Addr, u: Id): State
    requires u in s.clients
  {
    Log(s.(clients := s.clients[u := s.clients[u].(addr := addr)], cache := s.cache[addr := u]), UdpConnected(u, addr))
  }

  function Datagram(s: State, addr: Addr, bytes: seq<Byte>): State {
    var r := Log(s, Received(addr, bytes));
    if addr in s.cache then
      match Deserialize(bytes)
      case None => r
      case Some(p) => Log(r, Dispatched(addr, s.cache[addr], p))
    else
      match Response(bytes)
      case None => r
      case Some(pair) =>
        if pair.id in s.clients && Transform(s.clients[pair.id].number) as nat == pair.number then
          Verify(r, addr, pair.id)
        else r
  }

  predicate HasUdpConnection(s: State, u: Id) {
    u in s.clients && s.clients[u].addr in s.cache
  }

  // ---------- runs ----------

  datatype Label =
    | Join(conn: Id, newClient: Id, number: bv64)
    | Leave(gone: Id)
    | Arrive(from: Addr, bytes: seq<Byte>)

  /** Ids come from the generator, so they are new. */
  predicate Enabled(s: State, l: Label) {
    match l
    case Join(_, u, _) => u !in s.numbers
    case Leave(u) => u in s.clients
    case Arrive(_, _) => true
  }

  /** Datagrams have a real source address, not the default one. */
  predicate Genuine(l: Label) {
    l.Arrive? ==> l.from != NO_ADDR
  }

  predicate AllGenuine(ls: seq<Label>) {
    forall k :: 0 <= k < |ls| ==> Genuine(ls[k])
  }

  function Apply(s: State, l: Label): State
    requires Enabled(s, l)
  {
    match l
    case Join(conn, u, number) => Connect(s, conn, u, number)
    case Leave(u) => Disconnect(s, u)
    case Arrive(a, bytes) => Datagram(s, a, bytes)
  }

  function Start(): State {
    State(map[], map[], map[], [])
  }

  /** `u` was verified from `a` at some point. */
  ghost predicate WasVerified(s: State, u: Id, a: Addr) {
    UdpConnected(u, a) in s.log
  }

  /** Before entry `k`, address `a` sent a datagram that proves knowledge of `u`'s number. */
  ghost predicate ProvedBefore(s: State, k: nat, a: Addr, u: Id)
    requires k <= |s.log|
  {
    exists j :: 0 <= j < k && ProofAt(s, j, a, u)
  }

  ghost predicate ProofAt(s: State, j: nat, a: Addr, u: Id)
    requires j < |s.log|
  {
    s.log[j].Received? && s.log[j].from == a && Proves(s, s.log[j].bytes, u)
  }

  ghost predicate DispatchOk(s: State, k: nat)
    requires k < |s.log|
  {
    s.log[k].Dispatched? ==> ProvedBefore(s, k, s.log[k].source, s.log[k].target)
  }

  ghost predicate NumberOk(s: State, u: Id)
    requires u in s.clients
  {
    && u in s.numbers && s.numbers[u] == s.clients[u].number
    && (s.clients[u].addr != NO_ADDR ==> WasVerified(s, u, s.clients[u].addr))
  }

  ghost predicate CacheOk(s: State, a: Addr)
    requires a in s.cache
  {
    s.cache[a] in s.numbers && ProvedBefore(s, |s.log|, a, s.cache[a])
  }

  /** What every run keeps: numbers are remembered, and whatever is cached or dispatched was proved before. */
  ghost predicate Base(s: State) {
    && (forall u :: u in s.clients ==> NumberOk(s, u))
    && (forall a :: a in s.cache ==> CacheOk(s, a))
    && (forall k :: 0 <= k < |s.log| ==> DispatchOk(s, k))
    && (forall u, a :: WasVerified(s, u, a) ==> u in s.numbers)
  }

  /** The cache holds exactly the addresses the client was ever verified from. */
  ghost predicate ClientOk(s: State, u: Id)
    requires u in s.clients
  {
    && (s.clients[u].addr == NO_ADDR <==> forall a :: !WasVerified(s, u, a))
    && (s.clients[u].addr != NO_ADDR ==> s.clients[u].addr in s.cache && s.cache[s.clients[u].addr] == u)
    && (forall a :: WasVerified(s, u, a) <==> a in s.cache && s.cache[a] == u)
  }

  /** What every run keeps whose datagrams have real source addresses. */
  ghost predicate Inv(s: State) {
    Base(s) && NO_ADDR !in s.cache && forall u :: u in s.clients ==> ClientOk(s, u)
  }

  lemma StartInv()
    ensures Inv(Start())
  {
  }

  /** Proofs stay proofs as the log grows and new ids join. */
  lemma ProofStays(s: State, r: State, k: nat, a: Addr, u: Id)
    requires k <= |s.log| <= |r.log| && r.log[..|s.log|] == s.log
    requires forall v :: v in s.numbers ==> v in r.numbers && r.numbers[v] == s.numbers[v]
    requires ProvedBefore(s, k, a, u)
    ensures ProvedBefore(r, k, a, u)
  {
    var j :| 0 <= j < k && ProofAt(s, j, a, u);
    assert r.log[j] == r.log[..|s.log|][j];
    assert ProofAt(r, j, a, u);
  }

  /** The log grows at its end, and numbers are never forgotten. */
  ghost predicate Grows(s: State, r: State) {
    && |s.log| <= |r.log| && r.log[..|s.log|] == s.log
    && forall v :: v in s.numbers ==> v in r.numbers && r.numbers[v] == s.numbers[v]
  }

  lemma DispatchStays(s: State, r: State)
    requires Base(s) && Grows(s, r)
    ensures forall k :: 0 <= k < |s.log| ==> DispatchOk(r, k)
  {
    forall k | 0 <= k < |s.log| ensures DispatchOk(r, k) {
      assert r.log[k] == r.log[..|s.log|][k];
      assert DispatchOk(s, k);
      if s.log[k].Dispatched? {
        ProofStays(s, r, k, s.log[k].source, s.log[k].target);
      }
    }
  }

  lemma CacheStays(s: State, r: State, a: Addr)
    requires Base(s) && Grows(s, r) && a in s.cache && a in r.cache && r.cache[a] == s.cache[a]
    ensures CacheOk(r, a)
  {
    assert CacheOk(s, a);
    ProofStays(s, r, |s.log|, a, s.cache[a]);
    var j :| 0 <= j < |s.log| && ProofAt(r, j, a, s.cache[a]);
    assert ProvedBefore(r, |r.log|, a, r.cache[a]);
  }

  lemma NumberStays(s: State, r: State, u: Id)
    requires Base(s) && Grows(s, r) && u in s.clients && u in r.clients && r.clients[u] == s.clients[u]
    ensures NumberOk(r, u)
  {
    assert NumberOk(s, u);
    forall a | WasVerified(s, u, a) ensures WasVerified(r, u, a) {
      var k :| 0 <= k < |s.log| && s.log[k] == UdpConnected(u, a);
      assert r.log[k] == r.log[..|s.log|][k];
    }
  }

  lemma ConnectBase(s: State, conn: Id, u: Id, number: bv64)
    requires Base(s) && u !in s.numbers
    ensures Base(Connect(s, conn, u, number))
  {
    var r := Connect(s, conn, u, number);
    hide CacheOk, DispatchOk, ProvedBefore;
    assert NumberOk(r, u) && Grows(s, r);
    hide NumberOk, Grows;
    DispatchStays(s, r);
    forall a | a in r.cache ensures CacheOk(r, a) { CacheStays(s, r, a); }
    forall v | v in r.clients ensures NumberOk(r, v) {
      if v != u { NumberStays(s, r, v); }
    }
    assert forall v, a :: WasVerified(r, v, a) ==> WasVerified(s, v, a);
  }

  lemma ConnectClient(s: State, conn: Id, u: Id, number: bv64, v: Id)
    requires Inv(s) && u !in s.numbers && v in Connect(s, conn, u, number).clients
    ensures ClientOk(Connect(s, conn, u, number), v)
  {
    var r := Connect(s, conn, u, number);
    assert forall a :: WasVerified(r, v, a) <==> WasVerified(s, v, a);
    if v == u {
      forall a ensures !WasVerified(s, u, a) && (a in s.cache ==> s.cache[a] != u) {
        if a in s.cache { assert CacheOk(s, a); }
      }
    } else {
      assert ClientOk(s, v);
    }
  }

  lemma DisconnectBase(s: State, u: Id)
    requires Base(s) && u in s.clients
    ensures Base(Disconnect(s, u))
  {
    hide NumberOk, CacheOk, DispatchOk, ProvedBefore, ProofAt;
    var r := Disconnect(s, u);
    assert Grows(s, r);
    hide Grows;
    DispatchStays(s, r);
    forall a | a in r.cache ensures CacheOk(r, a) { CacheStays(s, r, a); }
    forall v | v in r.clients ensures NumberOk(r, v) { NumberStays(s, r, v); }
    assert forall v, a :: WasVerified(r, v, a) ==> WasVerified(s, v, a);
  }

  lemma DisconnectClient(s: State, u: Id, v: Id)
    requires u in s.clients && v in s.clients && v != u && ClientOk(s, u) && ClientOk(s, v) && NO_ADDR !in s.cache
    ensures ClientOk(Disconnect(s, u), v)
  {
    assert forall a :: WasVerified(Disconnect(s, u), v, a) <==> WasVerified(s, v, a);
  }

  lemma LogClient(s: State, e: Entry, v: Id)
    requires !e.UdpConnected? && v in s.clients && ClientOk(s, v)
    ensures ClientOk(Log(s, e), v)
  {
    assert forall a :: WasVerified(Log(s, e), v, a) <==> WasVerified(s, v, a);
  }

  /** Logging an entry that is neither a verification nor an unproved dispatch keeps everything. */
  lemma LogBase(s: State, e: Entry)
    requires Base(s) && !e.UdpConnected?
    requires e.Dispatched? ==> ProvedBefore(s, |s.log|, e.source, e.target)
    ensures Base(Log(s, e))
  {
    hide Proves;
    var r := Log(s, e);
    assert Grows(s, r);
    DispatchStays(s, r);
    if e.Dispatched? { ProofStays(s, r, |s.log|, e.source, e.target); }
    assert DispatchOk(r, |s.log|);
    hide NumberOk, CacheOk, DispatchOk, Grows;
    forall a | a in r.cache ensures CacheOk(r, a) { CacheStays(s, r, a); }
    forall v | v in r.clients ensures NumberOk(r, v) { NumberStays(s, r, v); }
    assert forall v, a :: WasVerified(r, v, a) ==> WasVerified(s, v, a);
  }

  lemma LogInv(s: State, e: Entry)
    requires Inv(s) && !e.UdpConnected?
    requires e.Dispatched? ==> ProvedBefore(s, |s.log|, e.source, e.target)
    ensures Inv(Log(s, e))
  {
    LogBase(s, e);
    hide Base, ClientOk, ProvedBefore;
    forall v | v in s.clients ensures ClientOk(Log(s, e), v) { LogClient(s, e, v); }
  }

  lemma VerifyClient(s: State, addr: Addr, u: Id, v: Id)
    requires u in s.clients && addr !in s.cache && addr != NO_ADDR && v in s.clients && ClientOk(s, v)
    ensures ClientOk(Verify(s, addr, u), v)
  {
    var r := Verify(s, addr, u);
    VerifyLog(s, addr, u);
    assert v == u ==> WasVerified(r, u, addr);
  }

  lemma VerifyLog(s: State, addr: Addr, u: Id)
    requires u in s.clients
    ensures forall v, a :: WasVerified(Verify(s, addr, u), v, a) <==> WasVerified(s, v, a) || (v == u && a == addr)
  {
    var r := Verify(s, addr, u);
    assert r.log[|s.log|] == UdpConnected(u, addr);
  }

  lemma VerifyCache(s: State, addr: Addr, u: Id)
    requires Base(s) && u in s.clients && ProvedBefore(s, |s.log|, addr, u)
    ensures CacheOk(Verify(s, addr, u), addr)
  {
    var r := Verify(s, addr, u);
    ProofStays(s, r, |s.log|, addr, u);
    assert NumberOk(s, u);
    var j :| 0 <= j < |s.log| && ProofAt(r, j, addr, u);
    assert ProvedBefore(r, |r.log|, addr, u);
  }

  /** Verifying a live client right after its proof arrived. */
  lemma VerifyBase(s: State, addr: Addr, u: Id)
    requires Base(s) && u in s.clients && ProvedBefore(s, |s.log|, addr, u)
    ensures Base(Verify(s, addr, u))
  {
    var r := Verify(s, addr, u);
    assert Grows(s, r);
    VerifyDispatch(s, addr, u);
    VerifyCache(s, addr, u);
    VerifyLog(s, addr, u);
    assert NumberOk(s, u) && NumberOk(r, u);
    hide NumberOk, CacheOk, DispatchOk, WasVerified, Grows;
    forall a | a in r.cache ensures CacheOk(r, a) {
      if a != addr { CacheStays(s, r, a); }
    }
    forall v | v in r.clients ensures NumberOk(r, v) {
      if v != u { NumberStays(s, r, v); }
    }
  }

  lemma VerifyDispatch(s: State, addr: Addr, u: Id)
    requires Base(s) && u in s.clients
    ensures var r := Verify(s, addr, u); forall k :: 0 <= k < |r.log| ==> DispatchOk(r, k)
  {
    var r := Verify(s, addr, u);
    assert DispatchOk(r, |s.log|) && Grows(s, r);
    hide NumberOk, CacheOk, DispatchOk;
    DispatchStays(s, r);
  }

  lemma VerifyInv(s: State, addr: Addr, u: Id)
    requires Inv(s) && u in s.clients && addr !in s.cache && addr != NO_ADDR && ProvedBefore(s, |s.log|, addr, u)
    ensures Inv(Verify(s, addr, u))
  {
    VerifyBase(s, addr, u);
    hide Base, ClientOk, ProvedBefore;
    forall v | v in s.clients ensures ClientOk(Verify(s, addr, u), v) { VerifyClient(s, addr, u, v); }
  }

  /** The datagram proves knowledge of the number of a live client. */
  predicate Answers(s: State, bytes: seq<Byte>) {
    var r := Response(bytes);
    r.Some? && r.value.id in s.clients && Transform(s.clients[r.value.id].number) as nat == r.value.number
  }

  lemma AnswerProves(s: State, addr: Addr, bytes: seq<Byte>)
    requires Base(s) && Answers(s, bytes)
    ensures var r := Log(s, Received(addr, bytes)); ProvedBefore(r, |r.log|, addr, Response(bytes).value.id)
  {
    hide Response, Transform;
    assert NumberOk(s, Response(bytes).value.id);
    assert ProofAt(Log(s, Received(addr, bytes)), |s.log|, addr, Response(bytes).value.id);
  }

  /** A datagram is dispatched, verifies a client, or is only received. */
  lemma DatagramCases(s: State, addr: Addr, bytes: seq<Byte>)
    ensures var r := Log(s, Received(addr, bytes));
      Datagram(s, addr, bytes) ==
        if addr in s.cache && Deserialize(bytes).Some? then
          Log(r, Dispatched(addr, s.cache[addr], Deserialize(bytes).value))
        else if addr !in s.cache && Answers(s, bytes) then Verify(r, addr, Response(bytes).value.id)
        else r
  {
    hide Deserialize, Transform, Verify;
  }

  lemma DatagramBase(s: State, addr: Addr, bytes: seq<Byte>)
    requires Base(s)
    ensures Base(Datagram(s, addr, bytes))
  {
    var r := Log(s, Received(addr, bytes));
    LogBase(s, Received(addr, bytes));
    DatagramCases(s, addr, bytes);
    hide Deserialize, Response, Transform, Datagram;
    if addr in s.cache && Deserialize(bytes).Some? {
      assert CacheOk(r, addr);
      hide Base;
      LogBase(r, Dispatched(addr, s.cache[addr], Deserialize(bytes).value));
    } else if addr !in s.cache && Answers(s, bytes) {
      AnswerProves(s, addr, bytes);
      hide Base;
      VerifyBase(r, addr, Response(bytes).value.id);
    }
  }

  lemma DatagramInv(s: State, addr: Addr, bytes: seq<Byte>)
    requires Inv(s) && addr != NO_ADDR
    ensures Inv(Datagram(s, addr, bytes))
  {
    var r := Log(s, Received(addr, bytes));
    LogInv(s, Received(addr, bytes));
    DatagramCases(s, addr, bytes);
    hide Deserialize, Response, Transform, Datagram, ClientOk;
    if addr in s.cache && Deserialize(bytes).Some? {
      assert CacheOk(r, addr);
      hide Inv;
      LogInv(r, Dispatched(addr, s.cache[addr], Deserialize(bytes).value));
    } else if addr !in s.cache && Answers(s, bytes) {
      AnswerProves(s, addr, bytes);
      hide Inv;
      VerifyInv(r, addr, Response(bytes).value.id);
    }
  }

  lemma StepBase(s: State, l: Label)
    requires Base(s) && Enabled(s, l)
    ensures Base(Apply(s, l))
  {
    match l
    case Join(conn, u, number) => ConnectBase(s, conn, u, number);
    case Leave(u) => DisconnectBase(s, u);
    case Arrive(a, bytes) => DatagramBase(s, a, bytes);
  }

  /** Every event keeps the invariant, given real source addresses. */
  lemma StepInv(s: State, l: Label)
    requires Inv(s) && Enabled(s, l) && Genuine(l)
    ensures Inv(Apply(s, l))
  {
    StepBase(s, l);
    match l
    case Join(conn, u, number) =>
      forall v | v in Apply(s, l).clients ensures ClientOk(Apply(s, l), v) { ConnectClient(s, conn, u, number, v); }
    case Leave(u) =>
      hide ClientOk;
      forall v | v in Apply(s, l).clients ensures ClientOk(Apply(s, l), v) { DisconnectClient(s, u, v); }
    case Arrive(a, bytes) => DatagramInv(s, a, bytes);
  }

  ghost predicate IsRun(s: State, ls: seq<Label>)
    decreases |ls|
  {
    ls == [] || (Enabled(s, ls[0]) && IsRun(Apply(s, ls[0]), ls[1..]))
  }

  ghost function After(s: State, ls: seq<Label>): State
    requires IsRun(s, ls)
    decreases |ls|
  {
    if ls == [] then s else After(Apply(s, ls[0]), ls[1..])
  }

  lemma {:induction false} RunBase(s: State, ls: seq<Label>)
    requires Base(s) && IsRun(s, ls)
    ensures Base(After(s, ls))
    decreases |ls|
  {
    hide Base, Apply, Enabled;
    if ls == [] {
    } else {
      StepBase(s, ls[0]);
      RunBase(Apply(s, ls[0]), ls[1..]);
    }
  }

  lemma {:induction false} RunInv(s: State, ls: seq<Label>)
    requires Inv(s) && IsRun(s, ls) && AllGenuine(ls)
    ensures Inv(After(s, ls))
    decreases |ls|
  {
    hide Inv, Apply, Enabled, Genuine;
    if ls == [] {
    } else {
      StepInv(s, ls[0]);
      RunInv(Apply(s, ls[0]), ls[1..]);
    }
  }

  // ---------- what the invariant gives ----------

  /** Over any run, a packet is dispatched from `a` to `u` only after `a` proved knowledge of `u`'s number. */
  lemma DispatchIsProved(ls: seq<Label>, k: nat)
    requires IsRun(Start(), ls) && k < |After(Start(), ls).log| && After(Start(), ls).log[k].Dispatched?
    ensures var s := After(Start(), ls); ProvedBefore(s, k, s.log[k].source, s.log[k].target)
  {
    StartInv();
    RunBase(Start(), ls);
    assert DispatchOk(After(Start(), ls), k);
  }

  /** Live clients: verified ones map back through the cache, and no two share an address. */
  lemma CacheIsReverseIndex(ls: seq<Label>, u: Id)
    requires IsRun(Start(), ls) && AllGenuine(ls) && u in After(Start(), ls).clients
    ensures var s := After(Start(), ls);
      && (HasUdpConnection(s, u) <==> exists a :: WasVerified(s, u, a))
      && (HasUdpConnection(s, u) ==> s.cache[s.clients[u].addr] == u)
      && forall v :: v in s.clients && v != u && HasUdpConnection(s, u) ==> s.clients[v].addr != s.clients[u].addr
  {
    StartInv();
    RunInv(Start(), ls);
    var s := After(Start(), ls);
    assert ClientOk(s, u);
    forall v | v in s.clients && v != u && HasUdpConnection(s, u) ensures s.clients[v].addr != s.clients[u].addr {
      assert ClientOk(s, v);
    }
  }

  // ---------- clients and their connections ----------

  /** Step `k` is the join that issued client id `u`. */
  predicate Issues(ls: seq<Label>, k: nat, u: Id) {
    k < |ls| && ls[k].Join? && ls[k].newClient == u
  }

  /** A live client's connection and number are those of the join that issued its id. */
  ghost predicate JoinedAs(s: State, ls: seq<Label>, u: Id) {
    && (u in s.numbers <==> exists k: nat :: Issues(ls, k, u))
    && (u in s.clients ==> u in s.numbers)
    && forall k: nat :: Issues(ls, k, u) ==>
      u in s.numbers && s.numbers[u] == ls[k].number && (u in s.clients ==> s.clients[u].conn == ls[k].conn)
  }

  lemma DatagramKeepsConn(s: State, addr: Addr, bytes: seq<Byte>, u: Id)
    ensures var r := Datagram(s, addr, bytes);
      && r.numbers == s.numbers && r.clients.Keys == s.clients.Keys
      && (u in s.clients ==> r.clients[u].conn == s.clients[u].conn && r.clients[u].number == s.clients[u].number)
  {
    hide Deserialize, Response, Transform;
  }

  lemma IssuesNext(ls: seq<Label>, k: nat, u: Id)
    requires ls != []
    ensures Issues(ls, k, u) <==> Issues(ls[..|ls| - 1], k, u) || (k == |ls| - 1 && Issues(ls, k, u))
    ensures Issues(ls[..|ls| - 1], k, u) ==> ls[..|ls| - 1][k] == ls[k]
  {
  }

  lemma JoinedNext(s: State, ls: seq<Label>, u: Id)
    requires ls != [] && Enabled(s, ls[|ls| - 1]) && JoinedAs(s, ls[..|ls| - 1], u)
    ensures JoinedAs(Apply(s, ls[|ls| - 1]), ls, u)
  {
    var n := |ls| - 1;
    var l, r := ls[n], Apply(s, ls[n]);
    forall k: nat
      ensures Issues(ls, k, u) <==> Issues(ls[..n], k, u) || (k == n && Issues(ls, n, u))
      ensures Issues(ls[..n], k, u) ==> ls[..n][k] == ls[k]
    {
      IssuesNext(ls, k, u);
    }
    match l
    case Join(_, v, _) =>
      assert v == u <==> Issues(ls, n, u);
      assert forall k: nat :: Issues(ls[..n], k, u) ==> u in s.numbers && k < n;
    case Leave(v) =>
      assert !Issues(ls, n, u) && r.numbers == s.numbers;
    case Arrive(from, bytes) =>
      assert !Issues(ls, n, u);
      DatagramKeepsConn(s, from, bytes, u);
      hide Datagram;
      assert r.numbers == s.numbers;
  }

  lemma {:induction false} RunJoined(ls: seq<Label>, u: Id)
    requires IsRun(Start(), ls)
    ensures JoinedAs(After(Start(), ls), ls, u)
    decreases |ls|
  {
    if ls == [] {
    } else {
      var n := |ls| - 1;
      RunSnoc(Start(), ls);
      RunJoined(ls[..n], u);
      hide JoinedAs, Apply, Enabled, IsRun, After;
      JoinedNext(After(Start(), ls[..n]), ls, u);
    }
  }

  /** Over any run, a live client has the connection and the number of the one join that issued its id. */
  lemma ClientIsFromJoin(ls: seq<Label>, u: Id)
    requires IsRun(Start(), ls) && u in After(Start(), ls).clients
    ensures var c := After(Start(), ls).clients[u];
      (exists k: nat :: Issues(ls, k, u)) && forall k: nat :: Issues(ls, k, u) ==> ls[k] == Join(c.conn, u, c.number)
  {
    RunJoined(ls, u);
    RunBase(Start(), ls) by { StartInv(); }
    assert NumberOk(After(Start(), ls), u);
  }

  /** No other step joins on the connection of step `k`. */
  ghost predicate OnlyJoin(ls: seq<Label>, k: nat) {
    k < |ls| && ls[k].Join? && forall j :: 0 <= j < |ls| && ls[j].Join? && ls[j].conn == ls[k].conn ==> j == k
  }

  /**
   Over any run, if a connection was joined on once, disconnecting it selects exactly the client that joined on it, if
   that is still there, and nobody otherwise.
   */
  lemma DisconnectSelects(ls: seq<Label>, k: nat, v: Id)
    requires IsRun(Start(), ls) && OnlyJoin(ls, k)
    ensures var s := After(Start(), ls);
      && (FirstWith(s.clients, ls[k].conn, v) <==> v == ls[k].newClient && v in s.clients)
      && (NoneWith(s.clients, ls[k].conn) <==> ls[k].newClient !in s.clients)
  {
    var s, u := After(Start(), ls), ls[k].newClient;
    assert Issues(ls, k, u);
    RunJoined(ls, u);
    forall w | w in s.clients && s.clients[w].conn == ls[k].conn ensures w == u {
      ClientIsFromJoin(ls, w);
      var j: nat :| Issues(ls, j, w);
      assert ls[j] == Join(ls[k].conn, w, s.clients[w].number);
    }
  }

  /**
   A client that joins on a connection no live client has, and whose connection is then disconnected, is the one that
   goes: the other clients stay, and so does the cache, unless the default address is cached.
   */
  lemma JoinThenDisconnect(s: State, conn: Id, u: Id, number: bv64, v: Id)
    requires u !in s.clients && NoneWith(s.clients, conn)
    ensures var r := Connect(s, conn, u, number);
      && (FirstWith(r.clients, conn, v) <==> v == u)
      && Disconnect(r, u).clients == s.clients && Disconnect(r, u).log == s.log
      && (Disconnect(r, u).cache == s.cache <==> NO_ADDR !in s.cache)
  {
    var r := Connect(s, conn, u, number);
    assert r.clients - {u} == s.clients;
    if NO_ADDR in s.cache {
      assert NO_ADDR !in Disconnect(r, u).cache;
    } else {
      assert s.cache - {NO_ADDR} == s.cache;
    }
  }

  /** Whoever else disconnects, a client keeps its record, and its address if that is cached for it. */
  lemma DisconnectKeepsOthers(ls: seq<Label>, u: Id, v: Id)
    requires IsRun(Start(), ls) && AllGenuine(ls) && u in After(Start(), ls).clients
    requires v in After(Start(), ls).clients && v != u
    ensures var s := After(Start(), ls);
      && v in Disconnect(s, u).clients && Disconnect(s, u).clients[v] == s.clients[v]
      && u !in Disconnect(s, u).clients
      && (HasUdpConnection(Disconnect(s, u), v) <==> HasUdpConnection(s, v))
  {
    StartInv();
    RunInv(Start(), ls);
    var s := After(Start(), ls);
    assert ClientOk(s, u) && ClientOk(s, v);
  }

  // ---------- datagrams from the default address ----------

  lemma {:induction false} RunSnoc(s: State, ls: seq<Label>)
    requires IsRun(s, ls) && ls != []
    ensures var n := |ls| - 1;
      IsRun(s, ls[..n]) && Enabled(After(s, ls[..n]), ls[n]) && After(s, ls) == Apply(After(s, ls[..n]), ls[n])
    decreases |ls|
  {
    hide Enabled, Apply;
    var n := |ls| - 1;
    if n == 0 {
      assert ls[1..] == [] && ls[..0] == [];
    } else {
      RunSnoc(Apply(s, ls[0]), ls[1..]);
      assert ls[1..][..n - 1] == ls[..n][1..] && ls[1..][n - 1] == ls[n];
    }
  }

  /** At step `k` a proof for a live client arrived from the default address, which was not cached. */
  ghost predicate OpensDefault(ls: seq<Label>, k: nat) {
    && k < |ls| && ls[k].Arrive? && ls[k].from == NO_ADDR
    && IsRun(Start(), ls[..k]) && NO_ADDR !in After(Start(), ls[..k]).cache &&
      Answers(After(Start(), ls[..k]), ls[k].bytes)
  }

  /** At step `k` a client left whose address was the default one. */
  ghost predicate ClosesDefault(ls: seq<Label>, k: nat) {
    && k < |ls| && ls[k].Leave? && IsRun(Start(), ls[..k])
    && ls[k].gone in After(Start(), ls[..k]).clients && After(Start(), ls[..k]).clients[ls[k].gone].addr == NO_ADDR
  }

  /** A proof came from the default address, and no client at that address has left since. */
  ghost predicate DefaultOpen(ls: seq<Label>) {
    exists k: nat :: OpensDefault(ls, k) && NotClosedAfter(ls, k)
  }

  ghost predicate NotClosedAfter(ls: seq<Label>, k: nat) {
    forall j :: k < j < |ls| ==> !ClosesDefault(ls, j)
  }

  lemma SamePrefix(ls: seq<Label>, n: nat, k: nat)
    requires k < n <= |ls|
    ensures OpensDefault(ls[..n], k) == OpensDefault(ls, k) && ClosesDefault(ls[..n], k) == ClosesDefault(ls, k)
  {
    assert ls[..n][..k] == ls[..k] && ls[..n][k] == ls[k];
  }

  lemma DefaultOpenNext(ls: seq<Label>)
    requires ls != []
    ensures var n := |ls| - 1;
      DefaultOpen(ls) <==> OpensDefault(ls, n) || (DefaultOpen(ls[..n]) && !ClosesDefault(ls, n))
  {
    hide OpensDefault, ClosesDefault;
    var n := |ls| - 1;
    forall k: nat | k < n
      ensures OpensDefault(ls[..n], k) == OpensDefault(ls, k) && ClosesDefault(ls[..n], k) == ClosesDefault(ls, k)
    {
      SamePrefix(ls, n, k);
    }
    OpensInside(ls);
    OpensInside(ls[..n]);
    if DefaultOpen(ls) {
      var k: nat :| OpensDefault(ls, k) && NotClosedAfter(ls, k);
      if k < n { assert NotClosedAfter(ls[..n], k); }
    }
    if OpensDefault(ls, n) { assert NotClosedAfter(ls, n); }
    if DefaultOpen(ls[..n]) && !ClosesDefault(ls, n) {
      var k: nat :| OpensDefault(ls[..n], k) && NotClosedAfter(ls[..n], k);
      assert NotClosedAfter(ls, k);
    }
  }

  lemma OpensInside(ls: seq<Label>)
    ensures forall k: nat :: OpensDefault(ls, k) ==> k < |ls|
  {
  }

  /** One event adds or drops the default address as a cached one in no other way. */
  lemma DefaultStep(s: State, l: Label)
    requires Enabled(s, l)
    ensures NO_ADDR in Apply(s, l).cache <==>
      (l.Arrive? && l.from == NO_ADDR && Answers(s, l.bytes)) ||
      (NO_ADDR in s.cache && !(l.Leave? && s.clients[l.gone].addr == NO_ADDR)) ||
      (l.Arrive? && NO_ADDR in s.cache)
  {
    if l.Arrive? { DatagramCases(s, l.from, l.bytes); }
    hide Datagram, Answers;
  }

  lemma {:induction false} DefaultCachedIff(ls: seq<Label>)
    requires IsRun(Start(), ls)
    ensures NO_ADDR in After(Start(), ls).cache <==> DefaultOpen(ls)
    decreases |ls|
  {
    if ls == [] {
      assert !DefaultOpen(ls) by { OpensInside(ls); }
    } else {
      var n := |ls| - 1;
      RunSnoc(Start(), ls);
      var s := After(Start(), ls[..n]);
      DefaultCachedIff(ls[..n]);
      DefaultOpenNext(ls);
      DefaultStep(s, ls[n]);
      hide Apply, DefaultOpen, IsRun, After, Answers;
    }
  }

  /**
   Without the assumption on source addresses: over any run, a live client that was never verified is reported as
   connected if and only if a proof for some client came from the default address, and no client at that
   address has left since.
   */
  lemma DefaultAddressIff(ls: seq<Label>, u: Id)
    requires IsRun(Start(), ls) && u in After(Start(), ls).clients && forall a :: !WasVerified(After(Start(), ls), u, a)
    ensures HasUdpConnection(After(Start(), ls), u) <==> DefaultOpen(ls)
  {
    StartInv();
    RunBase(Start(), ls);
    assert NumberOk(After(Start(), ls), u);
    hide Base;
    DefaultCachedIff(ls);
  }

  lemma StaleEntry(s: State, u: Id)
    requires u in s.clients && ClientOk(s, u) && NO_ADDR !in s.cache
    ensures (exists a :: a in Disconnect(s, u).cache && Disconnect(s, u).cache[a] == u) <==>
      (exists a, b :: a != b && WasVerified(s, u, a) && WasVerified(s, u, b))
  {
    var r := Disconnect(s, u);
    var cur := s.clients[u].addr;
    if a :| a in r.cache && r.cache[a] == u {
      assert WasVerified(s, u, a) && WasVerified(s, u, cur) && a != cur;
    }
    if a, b :| a != b && WasVerified(s, u, a) && WasVerified(s, u, b) {
      var c := if a == cur then b else a;
      assert c in r.cache && r.cache[c] == u;
    }
  }

  /** Leaving keeps a stale cache entry exactly when the client had been verified from two addresses. */
  lemma StaleEntryIff(ls: seq<Label>, u: Id)
    requires IsRun(Start(), ls) && AllGenuine(ls) && u in After(Start(), ls).clients
    ensures var s := After(Start(), ls);
      (exists a :: a in Disconnect(s, u).cache && Disconnect(s, u).cache[a] == u) <==>
      (exists a, b :: a != b && WasVerified(s, u, a) && WasVerified(s, u, b))
  {
    StartInv();
    RunInv(Start(), ls);
    var s := After(Start(), ls);
    assert ClientOk(s, u);
    hide Inv, ClientOk;
    StaleEntry(s, u);
  }

  ghost predicate StaleAt(s: State, a: Addr, u: Id) {
    a in s.cache && s.cache[a] == u && u in s.numbers && u !in s.clients
  }

  /** A datagram keeps a cached address bound and verifies nobody from it. */
  lemma ArriveElsewhere(s: State, from: Addr, bytes: seq<Byte>, a: Addr)
    requires a in s.cache
    ensures var r := Datagram(s, from, bytes);
      && a in r.cache && r.cache[a] == s.cache[a] && r.clients.Keys == s.clients.Keys && r.numbers == s.numbers
      && forall v :: WasVerified(r, v, a) <==> WasVerified(s, v, a)
  {
    hide Deserialize, Response, Transform;
  }

  lemma StaleStep(s: State, l: Label, a: Addr, u: Id)
    requires Inv(s) && Enabled(s, l) && Genuine(l) && StaleAt(s, a, u)
    ensures StaleAt(Apply(s, l), a, u)
    ensures forall v :: WasVerified(Apply(s, l), v, a) <==> WasVerified(s, v, a)
  {
    hide Deserialize, Response, Transform, DispatchOk, ProvedBefore, ProofAt;
    if l.Leave? {
      assert ClientOk(s, l.gone) && CacheOk(s, a);
    } else if l.Arrive? {
      hide Inv, ClientOk, CacheOk;
      ArriveElsewhere(s, l.from, l.bytes, a);
    }
  }

  /** A stale entry never names a later client, and no client is ever verified from its address again. */
  lemma {:induction false} StaleForever(s: State, ls: seq<Label>, a: Addr, u: Id)
    requires Inv(s) && IsRun(s, ls) && AllGenuine(ls) && StaleAt(s, a, u)
    ensures StaleAt(After(s, ls), a, u)
    ensures forall v :: WasVerified(After(s, ls), v, a) <==> WasVerified(s, v, a)
    decreases |ls|
  {
    hide Inv, Apply, Enabled, StaleAt, WasVerified;
    if ls == [] {
    } else {
      StepInv(s, ls[0]);
      StaleStep(s, ls[0], a, u);
      StaleForever(Apply(s, ls[0]), ls[1..], a, u);
    }
  }

  // ---------- an honest client succeeds ----------

  /** The packet that tells a client its number. */
  function Request(u: Id, number: bv64, pad: seq<Byte>): Packet
    requires |pad| == 2
  {
    MakePacket(ASKUDP_NUMBER, EncodePair(Pair64(u, number as nat)), pad)
  }

  /** The number an honest client answers with. */
  function Answer(number: nat): (n: nat)
    requires number < U64
    ensures n < U64
  {
    hide Transform;
    Value(Transform(number as bv64))
  }

  function Value(number: bv64): (n: nat)
    ensures n < U64
  {
    number as nat
  }

  lemma AnswerOf(number: bv64)
    ensures Answer(number as nat) == Transform(number) as nat
  {
    hide Transform;
    assert (number as nat) as bv64 == number;
  }

  /** The datagram an honest client answers with. */
  function Reply(request: Pair64, pad: seq<Byte>): seq<Byte>
    requires |pad| == 2 && request.number < U64
  {
    Serialize(MakePacket(ASKUDP_RESPONSE, EncodePair(Pair64(request.id, Answer(request.number))), pad))
  }

  lemma PairCarried(pair: Pair64, pad: seq<Byte>)
    requires |pad| == 2 && pair.id < U64 && pair.number < U64
    ensures Response(Serialize(MakePacket(ASKUDP_RESPONSE, EncodePair(pair), pad))) == Some(pair)
  {
    hide Deserialize, Serialize, EncodePair, DecodePair;
    var p := MakePacket(ASKUDP_RESPONSE, EncodePair(pair), pad);
    RoundTrip(p, []);
    assert Serialize(p) + [] == Serialize(p);
    PairRoundTrip(pair, []);
    assert EncodePair(pair) + [] == EncodePair(pair);
  }

  lemma ReplyCarries(request: Pair64, pad: seq<Byte>)
    requires |pad| == 2 && request.id < U64 && request.number < U64
    ensures Response(Reply(request, pad)) == Some(Pair64(request.id, Answer(request.number)))
  {
    hide Answer, Response, Serialize, MakePacket, EncodePair;
    PairCarried(Pair64(request.id, Answer(request.number)), pad);
  }

  /**
   What counts as a response: a datagram that starts with a response packet holding exactly the id and the number it
   carries, and no other.
   */
  lemma ResponseIff(bytes: seq<Byte>, pair: Pair64)
    ensures Response(bytes) == Some(pair) <==>
      exists pad: seq<Byte>, more: seq<Byte> :: CarriesResponse(bytes, pair, pad, more)
  {
    if Response(bytes) == Some(pair) {
      var p := Deserialize(bytes).value;
      ReadIsPrefix(bytes);
      DecodedPair(p.data, pair);
      var more := bytes[PacketSize(p)..];
      assert p == MakePacket(ASKUDP_RESPONSE, EncodePair(pair), p.header.pad);
      assert CarriesResponse(bytes, pair, p.header.pad, more);
    }
    if pad: seq<Byte>, more: seq<Byte> :| CarriesResponse(bytes, pair, pad, more) {
      PairRoundTrip(pair, []);
      assert EncodePair(pair) + [] == EncodePair(pair);
      hide EncodePair, DecodePair, Serialize, Deserialize;
      RoundTrip(MakePacket(ASKUDP_RESPONSE, EncodePair(pair), pad), more);
    }
  }

  ghost predicate CarriesResponse(bytes: seq<Byte>, pair: Pair64, pad: seq<Byte>, more: seq<Byte>) {
    && pair.id < U64 && pair.number < U64 && |pad| == 2
    && bytes == Serialize(MakePacket(ASKUDP_RESPONSE, EncodePair(pair), pad)) + more
  }

  lemma ValueIs(number: bv64)
    ensures number as nat == Value(number)
  {
  }

  lemma ValueReturns(number: bv64)
    ensures Value(number) as bv64 == number
  {
  }

  lemma ValueInjective(a: bv64, b: bv64)
    requires a != b
    ensures Value(a) != Value(b)
  {
    hide Value;
    ValueReturns(a);
    ValueReturns(b);
  }

  /** A client that sends back the number itself is not verified. */
  lemma EchoIsRejected(s: State, u: Id, addr: Addr, pad: seq<Byte>)
    requires u in s.clients && u < U64 && |pad| == 2
    ensures var echo := Serialize(MakePacket(ASKUDP_RESPONSE, EncodePair(Pair64(u, Value(s.clients[u].number))), pad));
      addr !in s.cache ==> Datagram(s, addr, echo) == Log(s, Received(addr, echo))
  {
    hide Deserialize, Serialize, EncodePair, Response, Transform, Value, MakePacket, Datagram;
    var number := s.clients[u].number;
    var pair := Pair64(u, Value(number));
    var echo := Serialize(MakePacket(ASKUDP_RESPONSE, EncodePair(pair), pad));
    PairCarried(pair, pad);
    TransformInjective(number, number);
    ValueInjective(Transform(number), number);
    assert Transform(number) as nat == Value(Transform(number)) by { ValueIs(Transform(number)); }
    assert !Answers(s, echo);
    DatagramCases(s, addr, echo);
  }

  /**
   Told its number over TCP, a live client that answers from an address not cached yet is verified from
   that address.
   */
  lemma HonestHandshake(s: State, u: Id, addr: Addr, pad: seq<Byte>)
    requires u in s.clients && u < U64 && addr !in s.cache && |pad| == 2
    ensures var told := Pair64(u, s.clients[u].number as nat);
      var bytes := Reply(told, pad);
      && Framing.Dispatch(Request(u, s.clients[u].number, pad)) == Framing.Respond(told)
      && Datagram(s, addr, bytes) == Verify(Log(s, Received(addr, bytes)), addr, u)
      && HasUdpConnection(Datagram(s, addr, bytes), u)
  {
    hide Answer, Transform, Reply, EncodePair, DecodePair, Deserialize, Response;
    var told := Pair64(u, s.clients[u].number as nat);
    PairRoundTrip(told, []);
    assert EncodePair(told) + [] == EncodePair(told);
    ReplyCarries(told, pad);
    AnswerOf(s.clients[u].number);
  }

  /**
   A client that answers from two addresses and then leaves: its first address stays cached for it. So the stale entries
   of `StaleEntryIff` and `StaleForever` do arise.
   */
  lemma StaleReachable(conn: Id, u: Id, number: bv64, a: Addr, b: Addr, pad: seq<Byte>)
    requires u < U64 && |pad| == 2 && a != b && a != NO_ADDR && b != NO_ADDR
    ensures var bytes := Reply(Pair64(u, number as nat), pad);
      var ls := [Join(conn, u, number), Arrive(a, bytes), Arrive(b, bytes), Leave(u)];
      IsRun(Start(), ls) && AllGenuine(ls) && StaleAt(After(Start(), ls), a, u)
  {
    StaleAfter(conn, Pair64(u, number as nat), number, a, b, pad);
  }

  lemma StaleAfter(conn: Id, told: Pair64, number: bv64, a: Addr, b: Addr, pad: seq<Byte>)
    requires told.id < U64 && told.number < U64 && told.number == number as nat
    requires |pad| == 2 && a != b && a != NO_ADDR && b != NO_ADDR
    ensures var bytes := Reply(told, pad);
      var ls := [Join(conn, told.id, number), Arrive(a, bytes), Arrive(b, bytes), Leave(told.id)];
      IsRun(Start(), ls) && AllGenuine(ls) && StaleAt(After(Start(), ls), a, told.id)
  {
    hide Reply, Datagram, IsRun, After;
    var (u, bytes) := (told.id, Reply(told, pad));
    var s1 := Connect(Start(), conn, u, number);
    var s2, s3 := Datagram(s1, a, bytes), Datagram(Datagram(s1, a, bytes), b, bytes);
    TwoAnswers(s1, told, a, b, pad);
    var s4 := Disconnect(s3, u);
    FourSteps(Start(), Join(conn, u, number), s1, Arrive(a, bytes), s2, Arrive(b, bytes), s3, Leave(u), s4);
  }

  /** The same answer from two addresses: both are cached, and the second one is the client's. */
  lemma TwoAnswers(s: State, told: Pair64, a: Addr, b: Addr, pad: seq<Byte>)
    requires told.id in s.clients && told.number < U64 && told.number == s.clients[told.id].number as nat
    requires told.id < U64 && |pad| == 2 && a != b && a !in s.cache && b !in s.cache
    ensures var r := Datagram(Datagram(s, a, Reply(told, pad)), b, Reply(told, pad));
      && r.clients == s.clients[told.id := s.clients[told.id].(addr := b)]
      && r.cache == s.cache[a := told.id][b := told.id] && r.numbers == s.numbers
  {
    hide Reply, Datagram;
    AnswerVerifies(s, told.id, a, pad);
    AnswerVerifies(Datagram(s, a, Reply(told, pad)), told.id, b, pad);
  }

  /** What one honest answer changes. */
  lemma AnswerVerifies(s: State, u: Id, addr: Addr, pad: seq<Byte>)
    requires u in s.clients && u < U64 && addr !in s.cache && |pad| == 2
    ensures var r := Datagram(s, addr, Reply(Pair64(u, s.clients[u].number as nat), pad));
      && r.clients == s.clients[u := s.clients[u].(addr := addr)] && r.cache == s.cache[addr := u] &&
        r.numbers == s.numbers
  {
    HonestHandshake(s, u, addr, pad);
    hide Datagram, Reply;
  }

  lemma FourSteps(s0: State, l1: Label, s1: State, l2: Label, s2: State, l3: Label, s3: State, l4: Label, s4: State)
    requires Enabled(s0, l1) && Apply(s0, l1) == s1 && Enabled(s1, l2) && Apply(s1, l2) == s2
    requires Enabled(s2, l3) && Apply(s2, l3) == s3 && Enabled(s3, l4) && Apply(s3, l4) == s4
    ensures IsRun(s0, [l1, l2, l3, l4]) && After(s0, [l1, l2, l3, l4]) == s4
  {
    hide Enabled, Apply;
    var ls := [l1, l2, l3, l4];
    assert ls[1..] == [l2, l3, l4] && [l2, l3, l4][1..] == [l3, l4] && [l3, l4][1..] == [l4] && [l4][1..] == [];
    assert IsRun(s3, [l4]) && After(s3, [l4]) == s4;
    assert IsRun(s2, [l3, l4]) && After(s2, [l3, l4]) == s4;
    assert IsRun(s1, [l2, l3, l4]) && After(s1, [l2, l3, l4]) == s4;
  }

  // ---------- the filter of the context thread ----------

  const DATAGRAM_MAX: nat := 8192

  /** The filter looks at the datagram followed by the zeros of its buffer. */
  predicate Admitted(bytes: seq<Byte>)
    requires |bytes| <= DATAGRAM_MAX
  {
    match Deserialize(bytes + seq(DATAGRAM_MAX - |bytes|, _ => 0))
    case None => false
    case Some(p) => p.header.size != 0
  }

  /** The payload length the filter reads from the first `n` bytes of a packet. */
  function SizeSeen(p: Packet, n: nat): nat {
    if n >= 6 then |p.data| else if n == 5 then |p.data| % 256 else 0
  }

  lemma SizeField(p: Packet, n: nat)
    requires Framed(p) && n <= PacketSize(p) && n <= DATAGRAM_MAX
    ensures var padded := Serialize(p)[..n] + seq(DATAGRAM_MAX - n, _ => 0);
      DecodeHeader(padded).size == SizeSeen(p, n)
  {
    var padded: seq<Byte> := Serialize(p)[..n] + seq(DATAGRAM_MAX - n, _ => 0);
    HeaderLayout(p.header);
    assert Serialize(p)[4] == EncodeHeader(p.header)[4] && Serialize(p)[5] == EncodeHeader(p.header)[5];
    hide Serialize, EncodeHeader, EncodeLE;
    var z := padded[4..6];
    assert z == [padded[4], padded[5]];
    TwoBytes(padded[4], padded[5]);
    assert padded[4] == (if n > 4 then p.header.size % 256 else 0) && padded[5] ==
      if n > 5 then p.header.size / 256 else 0;
  }

  lemma TwoBytes(low: Byte, high: Byte)
    ensures DecodeLE([low, high]) == low + 256 * high
  {
    assert [low, high][1..] == [high] && [high][1..] == [];
    assert DecodeLE([high]) == high + 256 * DecodeLE([]);
  }

  /**
   The first `n` bytes of a packet, whole or cut off, pass the filter if and only if the size field they show
   is not zero and
   announces no more than the buffer holds: a packet that was cut off passes like a whole one.
   */
  lemma AdmittedIff(p: Packet, n: nat)
    requires Framed(p) && n <= PacketSize(p) && n <= DATAGRAM_MAX
    ensures Admitted(Serialize(p)[..n]) <==> 0 < SizeSeen(p, n) <= DATAGRAM_MAX - HEADER_SIZE
  {
    SizeField(p, n);
    hide Serialize, DecodeHeader, SizeSeen;
  }

  /** Whatever was cut off and still passed changes nothing but the record of what was received. */
  lemma CutOffIsIgnored(s: State, addr: Addr, p: Packet, n: nat)
    requires Framed(p) && n < PacketSize(p)
    ensures Datagram(s, addr, Serialize(p)[..n]) == Log(s, Received(addr, Serialize(p)[..n]))
  {
    PrefixFree(p, n);
    hide Serialize, Deserialize;
    DatagramCases(s, addr, Serialize(p)[..n]);
  }

  // ---------- the server object ----------

  class Server {
    var clients: map<Id, Client>
    var cache: map<Addr, Id>
    const ids: UuidGenerator
    ghost var numbers: map<Id, bv64>
    ghost var log: seq<Entry>

    constructor ()
      ensures Valid() && Current() == Start() && fresh(ids)
    {
      clients, cache, numbers, log := map[], map[], map[], [];
      ids := new UuidGenerator();
    }

    ghost predicate Valid()
      reads this, ids
    {
      ids.generated == numbers.Keys
    }

    ghost function Current(): State
      reads this
    {
      State(clients, cache, numbers, log)
    }

    /** Issues a new client id, stores the client unverified and returns the packet that asks it to prove itself. */
    method OnTcpConnection(conn: Id, draws: seq<Id>, number: bv64, pad: seq<Byte>) returns (u: Id, request: Packet)
      requires Valid() && |pad| == 2 && exists k :: 0 <= k < |draws| && draws[k] !in ids.generated
      modifies this, ids
      ensures Valid() && u !in old(numbers)
      ensures Current() == Connect(old(Current()), conn, u, number)
      ensures request == Request(u, number, pad)
    {
      var used;
      u, used := ids.NewUuid(draws);
      clients := clients[u := Client(conn, NO_ADDR, number)];
      numbers := numbers[u := number];
      request := MakePacket(ASKUDP_NUMBER, EncodePair(Pair64(u, number as nat)), pad);
    }

    /** Finds the first client, in id order, of a connection. */
    method FindByConnection(conn: Id) returns (u: Option<Id>)
      ensures u.Some? ==> FirstWith(clients, conn, u.value)
      ensures u.None? ==> NoneWith(clients, conn)
    {
      u := None;
      var left := clients.Keys;
      while left != {}
        invariant left <= clients.Keys
        invariant u.Some? ==> u.value in clients && clients[u.value].conn == conn
        invariant u.Some? ==> forall v :: v in clients && v !in left && clients[v].conn == conn ==> u.value <= v
        invariant u.None? ==> forall v :: v in clients && v !in left ==> clients[v].conn != conn
        decreases |left|
      {
        var v :| v in left;
        left := left - {v};
        if clients[v].conn == conn && (u.None? || v < u.value) {
          u := Some(v);
        }
      }
    }

    method OnTcpDisconnection(conn: Id)
      requires Valid()
      modifies this
      ensures Valid()
      ensures NoneWith(old(clients), conn) ==> Current() == old(Current())
      ensures !NoneWith(old(clients), conn) ==>
        exists u :: FirstWith(old(clients), conn, u) && Current() == Disconnect(old(Current()), u)
    {
      var found := FindByConnection(conn);
      if found.Some? {
        cache := cache - {clients[found.value].addr};
        clients := clients - {found.value};
        assert FirstWith(old(clients), conn, found.value) && Current() == Disconnect(old(Current()), found.value);
      }
    }

    /** Dispatches to the verified client of the address, or treats the datagram as a handshake response. */
    method OnUdpData(addr: Addr, bytes: seq<Byte>) returns (dispatched: Option<(Packet, Id)>)
      requires Valid()
      modifies this
      ensures Valid() && Current() == Datagram(old(Current()), addr, bytes)
      ensures dispatched == if addr in old(cache) && Deserialize(bytes).Some?
        then Some((Deserialize(bytes).value, old(cache)[addr])) else None
    {
      dispatched := None;
      log := log + [Received(addr, bytes)];
      var packet := Deserialize(bytes);
      if addr in cache {
        if packet.Some? {
          log := log + [Dispatched(addr, cache[addr], packet.value)];
          dispatched := Some((packet.value, cache[addr]));
        }
      } else if packet.Some? && packet.value.header.kind == ASKUDP_RESPONSE {
        var pair := DecodePair(packet.value.data);
        if pair.Some? && pair.value.id in clients {
          var u := pair.value.id;
          if Transform(clients[u].number) as nat == pair.value.number {
            clients := clients[u := clients[u].(addr := addr)];
            cache := cache[addr := u];
            log := log + [UdpConnected(u, addr)];
          }
        }
      }
    }
  }
}
