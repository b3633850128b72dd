/**
 One accepted TCP connection from the sender's `BufWriter` to the receiver's parse loop, as a step
 system. The receiving side has two threads. The context thread fills the buffer under the reader's lock. The main
 thread holds the connection's lock for the whole parse loop, takes spans of the buffer under the
 reader's lock, and decodes them and handles packets after releasing it.
 */
module Framing {
  import opened Common
  import opened Packets
  import opened Buffers

  // ---------- the parse loop on its own ----------

  /** All packets at the front of a byte sequence, and what is left. */
  function ParseAll(s: seq<Byte>): (r: (seq<Packet>, seq<Byte>))
    decreases |s|
  {
    match Deserialize(s)
    case None => ([], s)
    case Some(p) =>
      ReadIsPrefix(s);
      var rest := ParseAll(s[PacketSize(p)..]);
      ([p] + rest.0, rest.1)
  }

  /** The loop splits its input losslessly into framed packets and a remainder that holds none. */
  lemma {:induction false} ParseAllSplits(s: seq<Byte>)
    ensures AllFramed(ParseAll(s).0) && Concat(ParseAll(s).0) + ParseAll(s).1 == s
    ensures Deserialize(ParseAll(s).1) == None
    decreases |s|
  {
    if Deserialize(s).Some? {
      var p := Deserialize(s).value;
      ReadIsPrefix(s);
      var t := s[PacketSize(p)..];
      ParseAllSplits(t);
      var r := ParseAll(t);
      assert ([p] + r.0)[1..] == r.0;
      Assoc(Serialize(p), Concat(r.0), r.1);
    }
  }

  /** What the server does with one packet. */
  datatype Action = OnPacket(packet: Packet) | Respond(request: Pair64) | Ignored

  function Dispatch(p: Packet): Action {
    if p.header.kind != ASKUDP_NUMBER then OnPacket(p)
    else
      match DecodePair(p.data)
      case Some(request) => Respond(request)
      case None => Ignored
  }

  function DispatchAll(ps: seq<Packet>): (a: seq<Action>)
    ensures |a| == |ps|
    ensures forall k :: 0 <= k < |ps| ==> a[k] == Dispatch(ps[k])
  {
    seq(|ps|, k requires 0 <= k < |ps| => Dispatch(ps[k]))
  }

  /**
   What the protocol asks for: every packet that is not a handshake request goes to the application unchanged, and a
   request is answered with the id and the number that make up its payload. Only a request with
   another payload is ignored.
   */
  predicate Meets(a: Action, p: Packet) {
    match a
    case OnPacket(q) => q == p && p.header.kind != ASKUDP_NUMBER
    case Respond(pair) =>
      p.header.kind == ASKUDP_NUMBER && pair.id < U64 && pair.number < U64 && p.data == EncodePair(pair)
    case Ignored => p.header.kind == ASKUDP_NUMBER && |p.data| != 16
  }

  ghost predicate AllMeet(actions: seq<Action>, ps: seq<Packet>) {
    |actions| == |ps| && forall k :: 0 <= k < |ps| ==> Meets(actions[k], ps[k])
  }

  lemma DispatchMeets(p: Packet)
    ensures Meets(Dispatch(p), p)
  {
    if p.header.kind == ASKUDP_NUMBER && |p.data| == 16 {
      DecodedPair(p.data, DecodePair(p.data).value);
    }
  }

  /** The packets handed to the application, in order. */
  function Given(actions: seq<Action>): seq<Packet> {
    if actions == [] then []
    else (if actions[0].OnPacket? then [actions[0].packet] else []) + Given(actions[1..])
  }

  /** The payloads of the requests answered, in order. */
  function Answered(actions: seq<Action>): seq<seq<Byte>> {
    if actions == [] then []
    else (if actions[0].Respond? then [EncodePair(actions[0].request)] else []) + Answered(actions[1..])
  }

  function Applications(ps: seq<Packet>): seq<Packet> {
    if ps == [] then []
    else (if ps[0].header.kind != ASKUDP_NUMBER then [ps[0]] else []) + Applications(ps[1..])
  }

  /** The payloads of the requests of the right size. */
  function Requests(ps: seq<Packet>): seq<seq<Byte>> {
    if ps == [] then []
    else (if ps[0].header.kind == ASKUDP_NUMBER && |ps[0].data| == 16 then [ps[0].data] else []) + Requests(ps[1..])
  }

  /** Nothing is handed over or answered twice, dropped, or out of order. */
  lemma {:induction false} AllMeetInOrder(actions: seq<Action>, ps: seq<Packet>)
    requires AllMeet(actions, ps)
    ensures Given(actions) == Applications(ps) && Answered(actions) == Requests(ps)
  {
    hide EncodePair;
    if ps == [] {
    } else {
      assert Meets(actions[0], ps[0]);
      AllMeetInOrder(actions[1..], ps[1..]);
    }
  }

  lemma {:induction false} ApplicationsPrefix(ps: seq<Packet>, n: nat)
    requires n <= |ps|
    ensures Applications(ps[..n]) <= Applications(ps) && Requests(ps[..n]) <= Requests(ps)
  {
    if n > 0 {
      ApplicationsPrefix(ps[1..], n - 1);
      assert ps[..n][1..] == ps[1..][..n - 1];
    }
  }

  lemma Assoc4Packets(a: seq<Packet>, p: Packet, b: seq<Packet>)
    ensures a + ([p] + b) == (a + [p]) + b
  {
  }

  /**
   The loop of `on_tcp_data` over a reader, in place: handle, consume, take the next span. The application gets
   exactly the parsed packets that are no requests, and exactly the well-formed requests are answered.
   */
  method OnTcpData(reader: RecvBuffer) returns (actions: seq<Action>)
    requires reader.Valid()
    modifies reader
    ensures reader.Valid() && View(reader.State()) == ParseAll(old(View(reader.State()))).1
    ensures actions == DispatchAll(ParseAll(old(View(reader.State()))).0)
    ensures AllMeet(actions, ParseAll(old(View(reader.State()))).0)
    ensures Given(actions) == Applications(ParseAll(old(View(reader.State()))).0)
    ensures Answered(actions) == Requests(ParseAll(old(View(reader.State()))).0)
  {
    hide Deserialize, Dispatch, Meets, Applications, Requests, Given, Answered;
    actions := [];
    ghost var handled: seq<Packet> := [];
    var packet := Deserialize(reader.buffer[reader.pos..reader.filled]);
    while packet.Some?
      invariant reader.Valid() && packet == Deserialize(View(reader.State()))
      invariant actions == DispatchAll(handled) && AllMeet(actions, handled)
      invariant handled + ParseAll(View(reader.State())).0 == ParseAll(old(View(reader.State()))).0
      invariant ParseAll(View(reader.State())).1 == ParseAll(old(View(reader.State()))).1
      decreases |View(reader.State())|
    {
      var p := packet.value;
      ghost var v := View(reader.State());
      ReadIsPrefix(v);
      Assoc4Packets(handled, p, ParseAll(v[PacketSize(p)..]).0);
      handled := handled + [p];
      actions := actions + [Dispatch(p)];
      DispatchMeets(p);
      ConsumeView(reader.State(), PacketSize(p));
      reader.ConsumeBytes(PacketSize(p));
      assert View(reader.State()) == v[PacketSize(p)..];
      packet := Deserialize(reader.buffer[reader.pos..reader.filled]);
    }
    assert handled + [] == handled;
    AllMeetInOrder(actions, handled);
  }

  // ---------- both threads, step by step ----------

  /** The main thread: with no event, with a popped one, inside the connection's lock, and through the parse loop. */
  datatype Main =
    | Idle
    | Popped
    | Entered
    | Spanned(lo: nat, hi: nat)
    | Decoded(packet: Packet)
    | Handled(done: Packet)

  /**
   `closing` says that the context thread got nothing from a fill, still holds the reader's lock and
   waits for the connection's lock to erase the connection.
   */
  datatype Conn = Conn(
    accepted: seq<Packet>, sendBuf: seq<Byte>, inFlight: seq<Byte>,
    window: Window, events: nat, main: Main, handled: seq<Packet>, actions: seq<Action>, open: bool, closing: bool)

  datatype Label =
    | Send(kind: nat, data: seq<Byte>, pad: seq<Byte>)
    | Flush(count: nat)
    | FillSome(count: nat)
    | FillError
    | FillNothing
    | Close
    | Break
    | Pop
    | Enter
    | First
    | Decode
    | Handle
    | ConsumeDone

  function Start(): Conn {
    Conn([], [], [], Window(seq(CAPACITY, _ => 0), 0, 0), 0, Idle, [], [], true, false)
  }

  /** The main thread holds the connection's lock. */
  predicate Inside(m: Main) {
    m.Entered? || m.Spanned? || m.Decoded? || m.Handled?
  }

  predicate Enabled(s: Conn, l: Label)
    requires WindowOk(s.window)
  {
    match l
    case Send(kind, data, pad) => kind < U32 && |pad| == 2
    case Flush(k) => k <= |s.sendBuf|
    case FillSome(k) => s.open && !s.closing && 0 < k <= |s.inFlight| && k <= Space(s.window)
    case FillError => s.open && !s.closing && Space(s.window) > 0
    case FillNothing => s.open && !s.closing
    // an error on the socket, or a request to disconnect, erases without the reader's lock
    case Close => s.open && s.closing && !Inside(s.main)
    case Break => s.open && !s.closing && !Inside(s.main)
    case Pop => s.events > 0 && s.main.Idle?
    case Enter => s.main.Popped?
    case First => s.main.Entered? && !s.closing
    case Decode => s.main.Spanned? && s.main.lo <= s.main.hi <= |s.window.bytes|
    case Handle => s.main.Decoded?
    case ConsumeDone => s.main.Handled? && !s.closing
  }

  function Read(bytes: seq<Byte>): Main {
    match Deserialize(bytes)
    case None => Idle
    case Some(p) => Decoded(p)
  }

  function Apply(s: Conn, l: Label): Conn
    requires WindowOk(s.window) && Enabled(s, l)
  {
    match l
    case Send(kind, data, pad) =>
      var p := MakePacket(kind, data, pad);
      if Accepts(s.sendBuf, Serialize(p)) then
        s.(accepted := s.accepted + [p], sendBuf := s.sendBuf + Serialize(p))
      else s
    case Flush(k) => s.(inFlight := s.inFlight + s.sendBuf[..k], sendBuf := s.sendBuf[k..])
    case FillSome(k) =>
      s.(window := Fill(s.window, ReadBytes(s.inFlight[..k])).0, inFlight := s.inFlight[k..], events := s.events + 1)
    case FillError => s.(window := Fill(s.window, ReadError).0)
    case FillNothing => s.(window := Rewound(s.window), closing := true)
    case Close => s.(open := false, closing := false)
    case Break => s.(open := false)
    case Pop => s.(events := s.events - 1, main := Popped)
    case Enter => s.(main := if s.open then Entered else Idle)
    case First => s.(main := Read(View(s.window)))
    case Decode => s.(main := Read(s.window.bytes[s.main.lo..s.main.hi]))
    case Handle =>
      var p := s.main.packet;
      s.(handled := s.handled + [p], actions := s.actions + [Dispatch(p)], main := Handled(p))
    case ConsumeDone =>
      var w := Consume(s.window, PacketSize(s.main.done));
      s.(window := w, main := Spanned(w.pos, w.filled))
  }

  /** Packets whose bytes have left the window. */
  function Consumed(s: Conn): seq<Packet> {
    if s.main.Handled? && s.handled != [] then s.handled[..|s.handled| - 1] else s.handled
  }

  /** Where the main thread is, against the window. */
  ghost predicate MainOk(s: Conn)
    requires WindowOk(s.window)
  {
    match s.main
    case Idle => s.open && s.events == 0 ==> Deserialize(View(s.window)) == None
    case Popped => true
    case Entered => s.open
    case Spanned(lo, hi) =>
      && s.open && lo <= hi <= |s.window.bytes|
      && (lo < hi ==> lo == s.window.pos && hi <= s.window.filled)
      && (s.events == 0 ==> View(s.window) == s.window.bytes[lo..hi])
    case Decoded(p) => s.open && Deserialize(View(s.window)) == Some(p)
    case Handled(p) =>
      && s.open && Deserialize(View(s.window)) == Some(p)
      && s.handled != [] && s.handled[|s.handled| - 1] == p
  }

  /** Consumed frames, window, bytes in flight and send buffer make up the accepted frames. */
  ghost predicate StreamOk(s: Conn)
    requires WindowOk(s.window)
  {
    && AllFramed(s.accepted) && AllFramed(s.handled) && AllFramed(Consumed(s))
    && Concat(Consumed(s)) + (View(s.window) + (s.inFlight + s.sendBuf)) == Concat(s.accepted)
  }

  ghost predicate Inv(s: Conn) {
    && WindowOk(s.window) && |s.window.bytes| == CAPACITY && StreamOk(s) && MainOk(s) && (s.closing ==> s.open)
    && AllMeet(s.actions, s.handled)
  }

  lemma StartInv()
    ensures Inv(Start())
  {
    var w := Start().window;
    assert View(w) == [];
  }

  lemma Assoc4(a: seq<Byte>, b: seq<Byte>, c: seq<Byte>, d: seq<Byte>, e: seq<Byte>)
    ensures a + (b + (c + (d + e))) == a + (b + (c + d)) + e
  {
  }

  lemma SendInv(s: Conn, l: Label)
    requires Inv(s) && l.Send? && Enabled(s, l)
    ensures Inv(Apply(s, l))
  {
    hide Deserialize, Serialize, Concat, MakePacket, AllFramed, View;
    var p := MakePacket(l.kind, l.data, l.pad);
    if Accepts(s.sendBuf, Serialize(p)) {
      AcceptedIsFramed(s.sendBuf, l.kind, l.data, l.pad);
      ConcatAppend(s.accepted, p);
      Assoc4(Concat(Consumed(s)), View(s.window), s.inFlight, s.sendBuf, Serialize(p));
    }
  }

  lemma FlushInv(s: Conn, k: nat)
    requires Inv(s) && k <= |s.sendBuf|
    ensures Inv(Apply(s, Flush(k)))
  {
    hide Concat, AllFramed, View, Deserialize;
    assert s.inFlight + s.sendBuf[..k] + s.sendBuf[k..] == s.inFlight + s.sendBuf;
  }

  lemma FillSomeInv(s: Conn, k: nat)
    requires Inv(s) && Enabled(s, FillSome(k))
    ensures Inv(Apply(s, FillSome(k)))
  {
    hide Concat, AllFramed, Deserialize;
    var r := Apply(s, FillSome(k));
    var chunk := s.inFlight[..k];
    FillView(s.window, ReadBytes(chunk));
    assert View(r.window) == View(s.window) + chunk;
    assert View(s.window) + chunk + (s.inFlight[k..] + s.sendBuf) == View(s.window) + (s.inFlight + s.sendBuf);
    if s.window.pos < s.window.filled {
      FillKeepsBytes(s.window, ReadBytes(chunk));
    }
    if Deserialize(View(s.window)).Some? {
      ReadStable(View(s.window), chunk);
    }
  }

  lemma RewoundInv(s: Conn, closing: bool)
    requires Inv(s) && s.open
    ensures Inv(s.(window := Rewound(s.window), closing := closing))
  {
    assert View(Rewound(s.window)) == View(s.window);
  }

  /** Steps that leave the window and the streams alone. */
  lemma QuietInv(s: Conn, l: Label)
    requires Inv(s) && Enabled(s, l) && (l.Close? || l.Break? || l.Pop? || l.Enter? || l.First?)
    ensures Inv(Apply(s, l))
  {
  }

  /** Decoding outside the lock reads the frame that is still at the front of the window. */
  lemma DecodeInv(s: Conn)
    requires Inv(s) && Enabled(s, Decode)
    ensures Inv(Apply(s, Decode))
  {
    var lo, hi := s.main.lo, s.main.hi;
    var span := s.window.bytes[lo..hi];
    if Deserialize(span).Some? {
      assert lo < hi;
      assert View(s.window) == span + s.window.bytes[hi..s.window.filled];
      ReadStable(span, s.window.bytes[hi..s.window.filled]);
    }
  }

  lemma HandleInv(s: Conn)
    requires Inv(s) && Enabled(s, Handle)
    ensures Inv(Apply(s, Handle))
  {
    hide Deserialize, Concat, View, Dispatch, Meets;
    ReadIsPrefix(View(s.window));
    DispatchMeets(s.main.packet);
    var r := Apply(s, Handle);
    assert r.handled[..|r.handled| - 1] == s.handled;
  }

  /** Consuming moves the handled frame from the window to the consumed packets. */
  lemma ConsumeStream(s: Conn)
    requires Inv(s) && Enabled(s, ConsumeDone)
    ensures WindowOk(Apply(s, ConsumeDone).window) && StreamOk(Apply(s, ConsumeDone))
  {
    var p := s.main.done;
    var v := View(s.window);
    assert Deserialize(v) == Some(p);
    hide Deserialize, Concat, AllFramed, Serialize, MainOk;
    var r := Apply(s, ConsumeDone);
    ReadIsPrefix(v);
    ConsumeView(s.window, PacketSize(p));
    assert View(r.window) == v[PacketSize(p)..];
    hide View, Consume;
    ConcatSnoc(s.handled);
    var rest := s.inFlight + s.sendBuf;
    Assoc(Serialize(p), View(r.window), rest);
    Assoc(Concat(Consumed(s)), Serialize(p), View(r.window) + rest);
  }

  lemma ConsumeInv(s: Conn)
    requires Inv(s) && Enabled(s, ConsumeDone)
    ensures Inv(Apply(s, ConsumeDone))
  {
    ConsumeStream(s);
    ConsumeView(s.window, PacketSize(s.main.done));
    hide StreamOk, Deserialize;
  }

  /** Every step of either thread or of the network keeps the invariant. */
  lemma StepInv(s: Conn, l: Label)
    requires Inv(s) && Enabled(s, l)
    ensures Inv(Apply(s, l))
  {
    match l
    case Send(_, _, _) => SendInv(s, l);
    case Flush(k) => FlushInv(s, k);
    case FillSome(k) => FillSomeInv(s, k);
    case FillError => RewoundInv(s, false);
    case FillNothing => RewoundInv(s, true);
    case Close => QuietInv(s, l);
    case Break => QuietInv(s, l);
    case Pop => QuietInv(s, l);
    case Enter => QuietInv(s, l);
    case First => QuietInv(s, l);
    case Decode => DecodeInv(s);
    case Handle => HandleInv(s);
    case ConsumeDone => ConsumeInv(s);
  }

  /**
   A fill of the receive buffer is the step its result names: new bytes are announced, an error leaves the connection
   as it is, and an empty result starts to close it.
   */
  lemma FillStep(s: Conn, r: SocketRead)
    requires WindowOk(s.window) && s.open && !s.closing
    requires r.ReadBytes? ==> |r.bytes| <= Space(s.window) && r.bytes <= s.inFlight
    ensures match Fill(s.window, r) {
      case (w, Filled(n)) =>
        && Enabled(s, FillSome(n)) && Apply(s, FillSome(n)).window == w && Apply(s, FillSome(n)).events == s.events + 1
        && r.bytes + Apply(s, FillSome(n)).inFlight == s.inFlight && !Apply(s, FillSome(n)).closing
      case (w, Failed) => Enabled(s, FillError) && Apply(s, FillError) == s.(window := w)
      case (w, Nothing) => Enabled(s, FillNothing) && Apply(s, FillNothing) == s.(window := w, closing := true)
    }
  {
    if r.ReadBytes? {
      assert s.inFlight[..|r.bytes|] == r.bytes;
      if r.bytes == [] && Space(s.window) > 0 {
        assert Store(s.window, []) == Rewound(s.window);
      }
    }
  }

  /** And every such step is a fill with that result. */
  lemma StepIsFill(s: Conn, l: Label)
    requires WindowOk(s.window) && Enabled(s, l)
    ensures l.FillSome? ==> Fill(s.window, ReadBytes(s.inFlight[..l.count])) == (Apply(s, l).window, Filled(l.count))
    ensures l.FillError? ==> Fill(s.window, ReadError) == (Apply(s, l).window, Failed)
    ensures l.FillNothing? ==> Fill(s.window, ReadBytes([])) == (Apply(s, l).window, Nothing)
  {
    if l.FillNothing? && Space(s.window) > 0 {
      assert Store(s.window, []) == Rewound(s.window);
    }
  }

  /** A run of enabled steps from `s`. */
  ghost predicate IsRun(s: Conn, ls: seq<Label>)
    requires Inv(s)
    decreases |ls|
  {
    ls == [] || (Enabled(s, ls[0]) && (StepInv(s, ls[0]); IsRun(Apply(s, ls[0]), ls[1..])))
  }

  ghost function After(s: Conn, ls: seq<Label>): (r: Conn)
    requires Inv(s) && IsRun(s, ls)
    ensures Inv(r)
    decreases |ls|
  {
    if ls == [] then s
    else
      StepInv(s, ls[0]);
      After(Apply(s, ls[0]), ls[1..])
  }

  /** The handled packets are the first accepted packets, in order and byte for byte. */
  lemma HandledIsPrefix(s: Conn)
    requires Inv(s)
    ensures |s.handled| <= |s.accepted| && s.handled == s.accepted[..|s.handled|]
  {
    hide Deserialize, Concat, AllFramed, Serialize;
    var rest := s.inFlight + s.sendBuf;
    var v := View(s.window);
    if s.main.Handled? {
      var p := s.main.done;
      ReadIsPrefix(v);
      ConcatSnoc(s.handled);
      var after := v[PacketSize(p)..];
      Assoc(Serialize(p), after, rest);
      Assoc(Concat(Consumed(s)), Serialize(p), after + rest);
      UniqueParse(s.handled, s.accepted, after + rest);
    } else {
      UniqueParse(s.handled, s.accepted, v + rest);
    }
  }

  ghost predicate From(s: Conn, r: Conn)
    requires Inv(s)
  {
    exists ls :: IsRun(s, ls) && After(s, ls) == r
  }

  ghost predicate Reachable(s: Conn) {
    StartInv();
    From(Start(), s)
  }

  lemma ReachableInv(s: Conn)
    requires Reachable(s)
    ensures Inv(s)
  {
    StartInv();
    var ls :| IsRun(Start(), ls) && After(Start(), ls) == s;
    assert Inv(After(Start(), ls));
  }

  /**
   End to end: over every interleaving, what the server handled is a prefix of what the writer accepted. So the
   application was given the first of its packets among them, and the first of the well-formed requests were
   answered, both in order.
   */
  lemma EndToEnd(s: Conn)
    requires Reachable(s)
    ensures |s.handled| <= |s.accepted| && s.handled == s.accepted[..|s.handled|]
    ensures Given(s.actions) == Applications(s.accepted[..|s.handled|]) <= Applications(s.accepted)
    ensures Answered(s.actions) == Requests(s.accepted[..|s.handled|]) <= Requests(s.accepted)
  {
    ReachableInv(s);
    HandledIsPrefix(s);
    AllMeetInOrder(s.actions, s.handled);
    ApplicationsPrefix(s.accepted, |s.handled|);
  }

  /** Nothing is lost: once the network and the event queue are drained, every accepted packet has been handled. */
  lemma DrainedIsComplete(s: Conn)
    requires Inv(s) && s.open && s.main.Idle? && s.events == 0 && s.inFlight == [] && s.sendBuf == []
    ensures s.handled == s.accepted
    ensures Given(s.actions) == Applications(s.accepted) && Answered(s.actions) == Requests(s.accepted)
  {
    AllMeetInOrder(s.actions, s.handled);
    HandledIsPrefix(s);
    var v := View(s.window);
    assert v + (s.inFlight + s.sendBuf) == v;
    UniqueParse(s.handled, s.accepted, v);
    var left := s.accepted[|s.handled|..];
    if left != [] {
      RoundTrip(left[0], Concat(left[1..]));
    }
  }

  /** The steps of the context thread and of the network. */
  predicate NotMain(l: Label) {
    l.Send? || l.Flush? || l.FillSome? || l.FillError? || l.FillNothing?
  }

  ghost predicate SameSpan(s: Conn, r: Conn) {
    && s.main.Spanned? && r.main == s.main && s.main.lo <= s.main.hi <= |s.window.bytes| == |r.window.bytes|
    && r.window.pos == s.window.pos == s.main.lo && s.main.hi <= r.window.filled
    && r.window.bytes[s.main.lo..s.main.hi] == s.window.bytes[s.main.lo..s.main.hi]
  }

  lemma SpanStep(s: Conn, l: Label)
    requires Inv(s) && s.main.Spanned? && s.main.lo < s.main.hi && Enabled(s, l) && NotMain(l)
    ensures SameSpan(s, Apply(s, l))
  {
    hide StreamOk, Deserialize;
    if l.FillSome? {
      var chunk := s.inFlight[..l.count];
      FillKeepsBytes(s.window, ReadBytes(chunk));
      var w := Apply(s, l).window;
      assert w.bytes[s.main.lo..s.main.hi] == w.bytes[..s.window.filled][s.main.lo..s.main.hi];
      assert s.window.bytes[s.main.lo..s.main.hi] == s.window.bytes[..s.window.filled][s.main.lo..s.main.hi];
    }
  }

  /**
   A span taken under the lock still denotes the same bytes, at an unmoved position, after any
   number of steps that are not the main thread's.
   */
  lemma {:induction false} SpanStable(s: Conn, ls: seq<Label>)
    requires Inv(s) && s.main.Spanned? && s.main.lo < s.main.hi && IsRun(s, ls) && forall k :: 0 <= k < |ls| ==>
      NotMain(ls[k])
    ensures SameSpan(s, After(s, ls))
    decreases |ls|
  {
    hide StreamOk, Deserialize, NotMain, Apply, Enabled;
    if ls == [] {
    } else {
      StepInv(s, ls[0]);
      SpanStep(s, ls[0]);
      SpanStable(Apply(s, ls[0]), ls[1..]);
    }
  }

  /** The clamp in `consume` never fires: a handled packet lies wholly inside the window. */
  lemma ConsumeIsExact(s: Conn)
    requires Inv(s) && s.main.Handled?
    ensures Consume(s.window, PacketSize(s.main.done)).pos == s.window.pos + PacketSize(s.main.done) <= s.window.filled
  {
    ReadIsPrefix(View(s.window));
  }

  // ---------- when the next accepted packet can be handled ----------

  lemma {:induction false} RunThenStep(s: Conn, ls: seq<Label>, l: Label)
    requires Inv(s) && IsRun(s, ls) && Enabled(After(s, ls), l)
    ensures IsRun(s, ls + [l]) && After(s, ls + [l]) == Apply(After(s, ls), l)
    decreases |ls|
  {
    hide StreamOk, MainOk, Enabled, Apply;
    if ls == [] {
      StepInv(s, l);
      assert ([l] + [])[1..] == [] && ls + [l] == [l];
    } else {
      StepInv(s, ls[0]);
      RunThenStep(Apply(s, ls[0]), ls[1..], l);
      assert (ls + [l])[1..] == ls[1..] + [l];
    }
  }

  lemma FromSelf(s: Conn)
    requires Inv(s)
    ensures From(s, s)
  {
    hide Inv;
    assert IsRun(s, []) && After(s, []) == s;
  }

  lemma FromStep(s: Conn, r: Conn, l: Label)
    requires Inv(s) && From(s, r) && WindowOk(r.window) && Enabled(r, l)
    ensures From(s, Apply(r, l)) && Inv(r) && Inv(Apply(r, l))
  {
    hide Inv, Enabled, Apply, IsRun, After;
    var ls :| IsRun(s, ls) && After(s, ls) == r;
    RunThenStep(s, ls, l);
    StepInv(r, l);
  }

  /** The frame at the front of the window belongs to the first accepted packet not handled yet. */
  lemma WindowIsNext(s: Conn)
    requires Inv(s) && !s.main.Handled? && Deserialize(View(s.window)).Some?
    ensures |s.handled| < |s.accepted| && s.accepted[|s.handled|] == Deserialize(View(s.window)).value
  {
    hide Deserialize, Concat, AllFramed, Serialize;
    var v := View(s.window);
    var q := Deserialize(v).value;
    ReadIsPrefix(v);
    var after, rest := v[PacketSize(q)..], s.inFlight + s.sendBuf;
    ConcatAppend(s.handled, q);
    Assoc(Serialize(q), after, rest);
    Assoc(Concat(s.handled), Serialize(q), after + rest);
    UniqueParse(s.handled + [q], s.accepted, after + rest);
    assert (s.handled + [q])[|s.handled|] == q;
  }

  /** The next accepted packet would end beyond the array, counted from where the window starts. */
  predicate TooFar(w: Window, next: Packet) {
    Rewound(w).pos + PacketSize(next) > CAPACITY
  }

  /**
   No packet is being parsed, and none can be: the next one is too far, or the connection is closed or about to
   be.
   */
  ghost predicate Blocked(s: Conn, handled: seq<Packet>, next: Packet) {
    && (s.main.Idle? || s.main.Popped? || s.main.Entered?)
    && s.handled == handled && |handled| < |s.accepted| && s.accepted[|handled|] == next
    && WindowOk(s.window) && (TooFar(s.window, next) || s.closing || !s.open)
  }

  lemma BlockedStep(s: Conn, l: Label, handled: seq<Packet>, next: Packet)
    requires Inv(s) && Blocked(s, handled, next) && Enabled(s, l)
    ensures Blocked(Apply(s, l), handled, next)
  {
    if l.First? {
      if Deserialize(View(s.window)).Some? {
        WindowIsNext(s);
        ReadIsPrefix(View(s.window));
        assert false;
      }
    } else {
      hide Inv, Deserialize, Serialize, MakePacket;
    }
  }

  lemma {:induction false} BlockedForever(s: Conn, ls: seq<Label>, handled: seq<Packet>, next: Packet)
    requires Inv(s) && Blocked(s, handled, next) && IsRun(s, ls)
    ensures After(s, ls).handled == handled
    decreases |ls|
  {
    if ls == [] {
    } else {
      hide StreamOk, MainOk, Enabled, Apply;
      StepInv(s, ls[0]);
      BlockedStep(s, ls[0], handled, next);
      BlockedForever(Apply(s, ls[0]), ls[1..], handled, next);
    }
  }

  /** What has not been handled, seen from the window: the next frame comes first. */
  lemma NextInStream(s: Conn)
    requires Inv(s) && !s.main.Handled? && |s.handled| < |s.accepted|
    ensures Framed(s.accepted[|s.handled|])
    ensures PacketSize(s.accepted[|s.handled|]) <= |View(s.window) + (s.inFlight + s.sendBuf)|
    ensures (View(s.window) + (s.inFlight + s.sendBuf))[..PacketSize(s.accepted[|s.handled|])] ==
      Serialize(s.accepted[|s.handled|])
  {
    hide Deserialize, Serialize;
    var t := View(s.window) + (s.inFlight + s.sendBuf);
    UniqueParse(s.handled, s.accepted, t);
    var left := s.accepted[|s.handled|..];
    assert t == Serialize(left[0]) + Concat(left[1..]);
  }

  lemma ShortView(s: Conn)
    requires Inv(s) && s.main.Idle? && |s.handled| < |s.accepted| && Deserialize(View(s.window)) == None
    ensures |View(s.window)| < PacketSize(s.accepted[|s.handled|])
  {
    hide Deserialize, Serialize, Concat;
    NextInStream(s);
    var v, n := View(s.window), PacketSize(s.accepted[|s.handled|]);
    if |v| >= n {
      assert (v + (s.inFlight + s.sendBuf))[..n] == v[..n];
      assert v == Serialize(s.accepted[|s.handled|]) + v[n..];
      RoundTrip(s.accepted[|s.handled|], v[n..]);
    }
  }

  /** Bytes of the next packet that have not reached the window, brought in by one flush and one fill. */
  lemma Fetch(s: Conn) returns (r: Conn)
    requires Inv(s) && s.open && !s.closing && s.main.Idle? && |s.handled| < |s.accepted|
    requires Deserialize(View(s.window)) == None && !TooFar(s.window, s.accepted[|s.handled|])
    ensures From(s, r) && Inv(r) && r.open && !r.closing && r.main.Idle? && r.events > 0 && r.handled == s.handled
    ensures r.accepted == s.accepted
    ensures View(r.window) == Serialize(s.accepted[|s.handled|])
  {
    hide Deserialize, Serialize, Concat, AllFramed, From;
    NextInStream(s);
    ShortView(s);
    FromSelf(s);
    var p := s.accepted[|s.handled|];
    var v, rest := View(s.window), s.inFlight + s.sendBuf;
    var need := PacketSize(p) - |v|;
    FromStep(s, s, Flush(|s.sendBuf|));
    var s1 := Apply(s, Flush(|s.sendBuf|));
    assert s1.inFlight == rest by { assert s.sendBuf[..|s.sendBuf|] == s.sendBuf; }
    FromStep(s, s1, FillSome(need));
    r := Apply(s1, FillSome(need));
    FillView(s1.window, ReadBytes(rest[..need]));
    assert View(r.window) == v + rest[..need] == (v + rest)[..PacketSize(p)];
  }

  lemma CanHandle(s: Conn) returns (r: Conn)
    requires Inv(s) && s.open && !s.closing && s.main.Idle? && |s.handled| < |s.accepted|
    requires !TooFar(s.window, s.accepted[|s.handled|])
    ensures From(s, r) && r.handled == s.handled + [s.accepted[|s.handled|]]
  {
    hide Serialize, Deserialize, From, StreamOk;
    var p := s.accepted[|s.handled|];
    var t := s;
    FromSelf(s);
    if Deserialize(View(s.window)).Some? {
      WindowIsNext(s);
    } else {
      t := Fetch(s);
      NextInStream(s);
      RoundTrip(p, []);
      assert Serialize(p) + [] == Serialize(p);
    }
    FromStep(s, t, Pop);
    var t1 := Apply(t, Pop);
    FromStep(s, t1, Enter);
    var t2 := Apply(t1, Enter);
    FromStep(s, t2, First);
    var t3 := Apply(t2, First);
    FromStep(s, t3, Handle);
    r := Apply(t3, Handle);
  }

  /**
   From an open connection with the main thread idle, some run handles the next accepted packet if and only if the
   context thread is not about to close the connection and the packet fits the array counted from the start of the
   window, which an unconsumed byte holds in place.
   */
  lemma NextHandledIff(s: Conn)
    requires Inv(s) && s.open && s.main.Idle? && |s.handled| < |s.accepted|
    ensures (exists r :: From(s, r) && r.handled != s.handled) <==>
      !s.closing && Rewound(s.window).pos + PacketSize(s.accepted[|s.handled|]) <= CAPACITY
  {
    hide StreamOk, MainOk;
    var next := s.accepted[|s.handled|];
    if !s.closing && !TooFar(s.window, next) {
      var r := CanHandle(s);
      assert From(s, r) && r.handled != s.handled;
    } else {
      forall r | From(s, r) ensures r.handled == s.handled {
        var ls :| IsRun(s, ls) && After(s, ls) == r;
        BlockedForever(s, ls, s.handled, next);
      }
    }
  }

  // ---------- a sender that keeps within the array ----------

  /** Bytes the writer takes in one step. */
  function Taken(s: Conn, l: Label): nat
    requires WindowOk(s.window) && Enabled(s, l)
  {
    if l.Send? && Accepts(s.sendBuf, Serialize(MakePacket(l.kind, l.data, l.pad))) then HEADER_SIZE + |l.data| else 0
  }

  /** Bytes taken since everything taken before had been handled and consumed. */
  function Outstanding(s: Conn, out: nat, l: Label): nat
    requires WindowOk(s.window) && Enabled(s, l)
  {
    (if Consumed(s) == s.accepted then 0 else out) + Taken(s, l)
  }

  /** Throughout the run the outstanding bytes would fit the array. */
  ghost predicate Paced(s: Conn, out: nat, ls: seq<Label>)
    requires Inv(s) && IsRun(s, ls)
    decreases |ls|
  {
    ls == [] ||
    (Outstanding(s, out, ls[0]) <= CAPACITY &&
     (StepInv(s, ls[0]); Paced(Apply(s, ls[0]), Outstanding(s, out, ls[0]), ls[1..])))
  }

  ghost predicate PacedReachable(s: Conn) {
    StartInv();
    exists ls :: IsRun(Start(), ls) && Paced(Start(), 0, ls) && After(Start(), ls) == s
  }

  /** Everything not consumed, laid out from the start of the window, ends within `out`. */
  ghost predicate Room(s: Conn, out: nat) {
    WindowOk(s.window) && Rewound(s.window).pos + |View(s.window)| + |s.inFlight| + |s.sendBuf| <= out
  }

  lemma SettledRoom(s: Conn)
    requires Inv(s) && Consumed(s) == s.accepted
    ensures Room(s, 0)
  {
    assert |View(s.window) + (s.inFlight + s.sendBuf)| == 0;
  }

  /** The end of everything not consumed, laid out from the start of the window. */
  function End(w: Window, others: nat): nat
    requires WindowOk(w)
  {
    Rewound(w).pos + (w.filled - w.pos) + others
  }

  /** Filling moves bytes that were on their way into the window; consuming takes bytes from its front. */
  lemma EndStays(w: Window, chunk: seq<Byte>, amount: nat, others: nat)
    requires WindowOk(w)
    ensures 0 < |chunk| <= Space(w) && |chunk| <= others ==>
      End(Fill(w, ReadBytes(chunk)).0, others - |chunk|) == End(w, others)
    ensures End(Consume(w, amount), others) <= End(w, others)
    ensures WindowOk(Rewound(w)) && End(Rewound(w), others) == End(w, others)
  {
  }

  lemma RoomIsEnd(s: Conn, out: nat)
    ensures Room(s, out) <==> WindowOk(s.window) && End(s.window, |s.inFlight| + |s.sendBuf|) <= out
  {
  }

  lemma RoomSend(s: Conn, out: nat, l: Label)
    requires Room(s, out) && Enabled(s, l) && l.Send?
    ensures Room(Apply(s, l), out + Taken(s, l))
  {
    hide Rewound, View, Serialize;
  }

  lemma RoomWindow(s: Conn, out: nat, l: Label)
    requires Room(s, out) && Enabled(s, l) && (l.FillSome? || l.FillError? || l.FillNothing? || l.ConsumeDone?)
    ensures Room(Apply(s, l), out)
  {
    hide Deserialize, Serialize;
    RoomIsEnd(s, out);
    RoomIsEnd(Apply(s, l), out);
    hide Room;
    var others := |s.inFlight| + |s.sendBuf|;
    if l.FillSome? {
      EndStays(s.window, s.inFlight[..l.count], 0, others);
    } else if l.ConsumeDone? {
      EndStays(s.window, [], PacketSize(s.main.done), others);
    } else {
      EndStays(s.window, [], 0, others);
    }
    hide End;
  }

  lemma RoomQuiet(s: Conn, out: nat, l: Label)
    requires Room(s, out) && Enabled(s, l)
    requires !l.Send? && !l.FillSome? && !l.FillError? && !l.FillNothing? && !l.ConsumeDone?
    ensures Room(Apply(s, l), out)
  {
    hide Rewound, View, Deserialize;
  }

  lemma RoomStep(s: Conn, out: nat, l: Label)
    requires Inv(s) && Enabled(s, l) && Room(s, out)
    ensures Room(Apply(s, l), Outstanding(s, out, l))
  {
    if Consumed(s) == s.accepted { SettledRoom(s); }
    hide Inv, Enabled, Apply, Room, Consumed, Taken;
    var rest := if Consumed(s) == s.accepted then 0 else out;
    TakenNone(s, l);
    if l.Send? {
      RoomSend(s, rest, l);
    } else if l.FillSome? || l.FillError? || l.FillNothing? || l.ConsumeDone? {
      RoomWindow(s, rest, l);
    } else {
      RoomQuiet(s, rest, l);
    }
  }

  lemma TakenNone(s: Conn, l: Label)
    requires WindowOk(s.window) && Enabled(s, l)
    ensures !l.Send? ==> Taken(s, l) == 0
  {
  }

  lemma {:induction false} PacedRoom(s: Conn, out: nat, ls: seq<Label>)
    requires Inv(s) && IsRun(s, ls) && Paced(s, out, ls) && Room(s, out) && out <= CAPACITY
    ensures Room(After(s, ls), CAPACITY)
    decreases |ls|
  {
    hide StreamOk, MainOk, Enabled, Apply, Outstanding;
    if ls == [] {
    } else {
      StepInv(s, ls[0]);
      RoomStep(s, out, ls[0]);
      PacedRoom(Apply(s, ls[0]), Outstanding(s, out, ls[0]), ls[1..]);
    }
  }

  /**
   A sender that lets at most one array of bytes be outstanding before waiting until all of it is consumed never
   loses a packet to the array: while the connection is open and not closing, the next packet can be handled.
   */
  lemma PacedIsHandled(s: Conn)
    requires PacedReachable(s) && s.open && !s.closing && s.main.Idle? && |s.handled| < |s.accepted|
    ensures Inv(s) && exists r :: From(s, r) && r.handled != s.handled
  {
    StartInv();
    var ls :| IsRun(Start(), ls) && Paced(Start(), 0, ls) && After(Start(), ls) == s;
    assert Inv(After(Start(), ls));
    assert View(Start().window) == [];
    hide Deserialize, Serialize, From;
    PacedRoom(Start(), 0, ls);
    NextInStream(s);
    NextHandledIff(s);
  }

  // ---------- the two locks ----------

  /** The main thread can leave the parse loop without the reader's lock. */
  ghost predicate CanLeave(s: Conn) {
    match s.main
    case Spanned(lo, hi) => lo <= hi <= |s.window.bytes| && Deserialize(s.window.bytes[lo..hi]) == None
    case _ => !Inside(s.main)
  }

  /** Each thread holds the lock the other one needs, or the main thread is on its way there. */
  ghost predicate Locked(s: Conn) {
    s.open && s.closing && !CanLeave(s)
  }

  lemma LockedStep(s: Conn, l: Label)
    requires Inv(s) && Locked(s) && Enabled(s, l)
    ensures Locked(Apply(s, l)) && Apply(s, l).window == s.window
  {
    hide StreamOk, Serialize;
  }

  lemma {:induction false} LockedForever(s: Conn, ls: seq<Label>)
    requires Inv(s) && Locked(s) && IsRun(s, ls)
    ensures Locked(After(s, ls)) && After(s, ls).window == s.window
    decreases |ls|
  {
    if ls == [] {
    } else {
      hide StreamOk, MainOk, Enabled, Apply;
      StepInv(s, ls[0]);
      LockedStep(s, ls[0]);
      LockedForever(Apply(s, ls[0]), ls[1..]);
    }
  }

  /**
   Once a fill got nothing, some run closes the connection if and only if the main thread is outside the connection's
   lock or can leave it without the reader's lock. Otherwise the two threads wait for each other for ever.
   */
  lemma ClosesIff(s: Conn)
    requires Inv(s) && s.closing
    ensures (exists r :: From(s, r) && !r.open) <==> CanLeave(s)
  {
    hide StreamOk;
    if CanLeave(s) {
      var r := LeaveAndClose(s);
    } else {
      forall r | From(s, r) ensures r.open {
        var ls :| IsRun(s, ls) && After(s, ls) == r;
        LockedForever(s, ls);
      }
    }
  }

  lemma LeaveAndClose(s: Conn) returns (r: Conn)
    requires Inv(s) && s.closing && CanLeave(s)
    ensures From(s, r) && !r.open
  {
    hide From, StreamOk;
    FromSelf(s);
    var t := s;
    if s.main.Spanned? {
      FromStep(s, s, Decode);
      t := Apply(s, Decode);
    }
    FromStep(s, t, Close);
    r := Apply(t, Close);
  }

  // ---------- an accepted packet that is never handled ----------

  lemma ReachStep(s: Conn, l: Label)
    requires Reachable(s) && WindowOk(s.window) && Enabled(s, l)
    ensures Reachable(Apply(s, l)) && WindowOk(Apply(s, l).window) && Inv(Apply(s, l))
  {
    StartInv();
    hide Inv, Enabled, Apply, IsRun, After;
    FromStep(Start(), s, l);
    InvWindow(Apply(s, l));
  }

  lemma InvWindow(s: Conn)
    requires Inv(s)
    ensures WindowOk(s.window)
  {
  }

  /** One framed message, sent and delivered into a window that has room for `n` of its bytes. */
  lemma Deliver(s: Conn, p: Packet, n: nat) returns (r: Conn)
    requires Reachable(s) && WindowOk(s.window) && s.open && !s.closing && s.sendBuf == [] && s.inFlight == []
    requires Framed(p) && PacketSize(p) < CAPACITY && 0 < n <= PacketSize(p) && n <= Space(s.window)
    ensures Reachable(r) && WindowOk(r.window) && r.open && !r.closing && r.sendBuf == []
    ensures r.main == s.main && r.handled == s.handled && r.accepted == s.accepted + [p] && r.events == s.events + 1
    ensures r.inFlight == Serialize(p)[n..] && r.window == Store(s.window, Serialize(p)[..n])
  {
    hide Serialize, Reachable, Store;
    assert MakePacket(p.header.kind, p.data, p.header.pad) == p;
    var l1 := Send(p.header.kind, p.data, p.header.pad);
    ReachStep(s, l1);
    var s1 := Apply(s, l1);
    assert s1.sendBuf == Serialize(p) by { assert [] + Serialize(p) == Serialize(p); }
    var l2 := Flush(PacketSize(p));
    ReachStep(s1, l2);
    var s2 := Apply(s1, l2);
    assert s2.inFlight == Serialize(p) && s2.sendBuf == [];
    ReachStep(s2, FillSome(n));
    r := Apply(s2, FillSome(n));
  }

  /**
   Any two messages that fit the buffer one by one but not together can leave the second one
   unhandled for ever: it arrives before the first is parsed, and the array is not compacted.
   */
  lemma OverrunLosesPacket(p: Packet, q: Packet) returns (s: Conn)
    requires Framed(p) && Framed(q) && PacketSize(p) < CAPACITY && PacketSize(q) < CAPACITY
    requires PacketSize(p) + PacketSize(q) > CAPACITY
    ensures Reachable(s) && Inv(s) && s.accepted == [p, q] && s.handled == [p]
    ensures forall ls :: IsRun(s, ls) ==> After(s, ls).handled == [p]
  {
    hide Serialize, Deserialize, Reachable, IsRun, After;
    var n := CAPACITY - PacketSize(p);
    var b := DeliverBoth(p, q, n);
    var sq := Serialize(q)[..n];
    RoundTrip(p, sq);
    s := ParseFirst(b, p, sq);
    PrefixFree(q, n);
    assert [] + [p] == [p];
    forall ls | IsRun(s, ls) ensures After(s, ls).handled == [p] {
      BlockedForever(s, ls, [p], q);
    }
  }

  /** A connection whose peer closes while its data is about to be parsed ends with both threads waiting. */
  lemma LockReachable(p: Packet) returns (s: Conn)
    requires Framed(p) && PacketSize(p) < CAPACITY
    ensures Reachable(s) && Inv(s) && Locked(s) && s.handled == [] && s.accepted == [p]
  {
    FromSelf(Start()) by { StartInv(); }
    hide Serialize, Deserialize, Inv, Reachable;
    var a := Deliver(Start(), p, PacketSize(p));
    ReachStep(a, Pop);
    var b := Apply(a, Pop);
    ReachStep(b, Enter);
    var c := Apply(b, Enter);
    ReachStep(c, FillNothing);
    s := Apply(c, FillNothing);
    assert [] + [p] == [p];
  }

  /** Two messages in flight at once, the second cut off by the end of the array. */
  lemma DeliverBoth(p: Packet, q: Packet, n: nat) returns (b: Conn)
    requires Framed(p) && Framed(q) && PacketSize(p) < CAPACITY && PacketSize(q) < CAPACITY
    requires n == CAPACITY - PacketSize(p) && 0 < n < PacketSize(q)
    ensures Reachable(b) && WindowOk(b.window) && b.open && !b.closing && b.main.Idle? && b.events > 0
    ensures b.accepted == [p, q] && b.handled == [] && b.window.filled == |b.window.bytes| == CAPACITY
    ensures View(b.window) == Serialize(p) + Serialize(q)[..n]
  {
    StartInv();
    FromSelf(Start());
    hide Serialize, Deserialize, Reachable, Inv, IsRun, After;
    var a := Deliver(Start(), p, PacketSize(p));
    var sp, sq := Serialize(p), Serialize(q)[..n];
    assert sp[..PacketSize(p)] == sp && sp[PacketSize(p)..] == [];
    StoreView(Start().window, sp);
    assert View(a.window) == sp by { assert [] + sp == sp; }
    b := Deliver(a, q, n);
    StoreView(a.window, sq);
    assert [] + [p] + [q] == [p, q];
  }

  /** The main thread handles the first packet of the window and finds no second one. */
  lemma ParseFirst(b: Conn, p: Packet, rest: seq<Byte>) returns (s: Conn)
    requires Reachable(b) && WindowOk(b.window) && b.open && !b.closing && b.events > 0 && b.main.Idle?
    requires Framed(p) && View(b.window) == Serialize(p) + rest && rest != []
    requires Deserialize(Serialize(p) + rest) == Some(p)
    ensures Reachable(s) && WindowOk(s.window) && s.accepted == b.accepted && s.handled == b.handled + [p]
    ensures s.window.bytes == b.window.bytes && s.window.filled == b.window.filled && View(s.window) == rest
    ensures Inv(s) && (Deserialize(rest) == None ==> s.main.Idle?)
  {
    hide Serialize, Deserialize, Reachable, Inv;
    ReachStep(b, Pop);
    var b0 := Apply(b, Pop);
    ReachStep(b0, Enter);
    var b00 := Apply(b0, Enter);
    ReachStep(b00, First);
    var b1 := Apply(b00, First);
    ReachStep(b1, Handle);
    var b2 := Apply(b1, Handle);
    ReachStep(b2, ConsumeDone);
    var b3 := Apply(b2, ConsumeDone);
    ConsumeView(b2.window, PacketSize(p));
    assert View(b3.window) == rest;
    ReachStep(b3, Decode);
    s := Apply(b3, Decode);
  }
}
