/**
 The two byte buffers of a TCP connection. The receive buffer is a window over a fixed array that is
 rewound only when empty; the send buffer accepts a message whole or not at all and
 keeps the tail of a partial flush.
 */
module Buffers {
  import opened Common
  import opened Packets

  const CAPACITY: nat := 8192

  // ---------- receive window, as a value ----------

  datatype Window = Window(bytes: seq<Byte>, pos: nat, filled: nat)

  predicate WindowOk(w: Window) {
    w.pos <= w.filled <= |w.bytes|
  }

  /** The received bytes not consumed yet. */
  function View(w: Window): seq<Byte>
    requires WindowOk(w)
  {
    w.bytes[w.pos..w.filled]
  }

  /** An empty window starts again at the front of the array. */
  function Rewound(w: Window): Window {
    if w.pos == w.filled then w.(pos := 0, filled := 0) else w
  }

  /** Free bytes behind the window; the array is never compacted. */
  function Space(w: Window): nat
    requires WindowOk(w)
  {
    |w.bytes| - Rewound(w).filled
  }

  datatype SocketRead = ReadError | ReadBytes(bytes: seq<Byte>)

  datatype FillResult = Nothing | Failed | Filled(count: nat)

  /** Stores received bytes behind the window. */
  function Store(w: Window, chunk: seq<Byte>): (r: Window)
    requires WindowOk(w) && |chunk| <= Space(w)
    ensures WindowOk(r) && |r.bytes| == |w.bytes|
  {
    var v := Rewound(w);
    Window(v.bytes[..v.filled] + chunk + v.bytes[v.filled + |chunk|..], v.pos, v.filled + |chunk|)
  }

  /** The new window and the reported result of one fill. */
  function Fill(w: Window, r: SocketRead): (Window, FillResult)
    requires WindowOk(w) && (r.ReadBytes? ==> |r.bytes| <= Space(w))
  {
    if Space(w) == 0 then (Rewound(w), Nothing)
    else if r.ReadError? then (Rewound(w), Failed)
    else (Store(w, r.bytes), if r.bytes == [] then Nothing else Filled(|r.bytes|))
  }

  /** Consumption is clamped to the filled part. */
  function Consume(w: Window, amount: nat): Window {
    w.(pos := if w.pos + amount < w.filled then w.pos + amount else w.filled)
  }

  lemma StoreView(w: Window, chunk: seq<Byte>)
    requires WindowOk(w) && |chunk| <= Space(w)
    ensures View(Store(w, chunk)) == View(w) + chunk
  {
  }

  /**
   Filling appends to the view exactly what the socket delivered, and the result says how: a read error as `Failed`, an
   empty read or a full array as `Nothing`, and n > 0 new bytes as `Filled(n)`.
   */
  lemma FillView(w: Window, r: SocketRead)
    requires WindowOk(w) && (r.ReadBytes? ==> |r.bytes| <= Space(w))
    ensures WindowOk(Fill(w, r).0)
    ensures View(Fill(w, r).0) == View(w) + if r.ReadBytes? then r.bytes else []
    ensures Fill(w, r).1 == Failed <==> Space(w) > 0 && r.ReadError?
    ensures Fill(w, r).1 == Nothing <==> Space(w) == 0 || r == ReadBytes([])
    ensures Fill(w, r).1.Filled? ==> 0 < Fill(w, r).1.count == |View(Fill(w, r).0)| - |View(w)|
  {
    if r.ReadBytes? {
      StoreView(w, r.bytes);
    }
  }

  /** A non-empty window's bytes stay where they are through any fill. */
  lemma FillKeepsBytes(w: Window, r: SocketRead)
    requires WindowOk(w) && (r.ReadBytes? ==> |r.bytes| <= Space(w)) && w.pos < w.filled
    ensures var v := Fill(w, r).0;
      WindowOk(v) && |v.bytes| == |w.bytes| && v.pos == w.pos && v.filled >= w.filled &&
        v.bytes[..w.filled] == w.bytes[..w.filled]
  {
  }

  /**
   No room is left exactly when unconsumed bytes reach the end of the array; an empty window has the whole array
   to fill.
   */
  lemma NoSpaceIff(w: Window)
    requires WindowOk(w) && |w.bytes| > 0
    ensures Space(w) == 0 <==> w.pos < w.filled == |w.bytes|
    ensures Space(w) == |w.bytes| <==> View(w) == []
  {
  }

  lemma ConsumeView(w: Window, amount: nat)
    requires WindowOk(w)
    ensures WindowOk(Consume(w, amount))
    ensures View(Consume(w, amount)) == View(w)[if amount < |View(w)| then amount else |View(w)|..]
  {
  }

  // ---------- the receive buffer, in place ----------

  method CopyInto(a: array<Byte>, at: nat, bytes: seq<Byte>)
    requires at + |bytes| <= a.Length
    modifies a
    ensures a[..] == old(a[..at]) + bytes + old(a[at + |bytes|..])
  {
    for i := 0 to |bytes|
      invariant a[..at] == old(a[..at]) && a[at..at + i] == bytes[..i] && a[at + i..] == old(a[at + i..])
    {
      a[at + i] := bytes[i];
      assert a[at..at + i + 1] == a[at..at + i] + [bytes[i]];
    }
    assert a[..] == a[..at] + a[at..at + |bytes|] + a[at + |bytes|..];
  }

  class RecvBuffer {
    const buffer: array<Byte>
    var pos: nat
    var filled: nat

    constructor (capacity: nat)
      ensures Valid() && fresh(buffer) && buffer.Length == capacity && View(State()) == []
    {
      buffer := new Byte[capacity](_ => 0);
      pos, filled := 0, 0;
    }

    ghost predicate Valid()
      reads this
    {
      pos <= filled <= buffer.Length
    }

    ghost function State(): (w: Window)
      reads this, buffer
      requires Valid()
      ensures WindowOk(w)
    {
      Window(buffer[..], pos, filled)
    }

    /** The array has a free byte behind the window, or the window is empty. */
    ghost predicate Room()
      reads this
    {
      filled < buffer.Length || (pos == filled && buffer.Length > 0)
    }

    /**
     Reads from the socket into the free tail. An error is reported as such, and only then; an empty result means a
     full array or an empty read; anything else reports how many bytes joined the window.
     */
    method FillBuf(r: SocketRead) returns (result: FillResult)
      requires Valid() && (r.ReadBytes? ==> |r.bytes| <= Space(State()))
      modifies this, buffer
      ensures Valid() && (State(), result) == Fill(old(State()), r)
      ensures result == Failed <==> old(Room()) && r.ReadError?
      ensures result == Nothing <==> !old(Room()) || r == ReadBytes([])
      ensures result.Filled? ==> 0 < result.count == |View(State())| - |old(View(State()))|
      ensures View(State()) == old(View(State())) + if r.ReadBytes? then r.bytes else []
    {
      ghost var w := State();
      if pos == filled {
        pos, filled := 0, 0;
      }
      if filled == buffer.Length {
        return Nothing;
      }
      match r
      case ReadError => return Failed;
      case ReadBytes(bytes) =>
        CopyInto(buffer, filled, bytes);
        filled := filled + |bytes|;
        return if |bytes| == 0 then Nothing else Filled(|bytes|);
    }

    method ConsumeBytes(amount: nat)
      requires Valid()
      modifies this
      ensures Valid() && State() == Consume(old(State()), amount)
    {
      pos := if pos + amount < filled then pos + amount else filled;
    }
  }

  // ---------- the send buffer ----------

  /** A message is taken whole, if strictly smaller than the free capacity. */
  predicate Accepts(pending: seq<Byte>, message: seq<Byte>) {
    |pending| <= CAPACITY && |message| < CAPACITY - |pending|
  }

  class BufWriter {
    var buffer: seq<Byte>

    constructor ()
      ensures buffer == []
    {
      buffer := [];
    }

    method Write(message: seq<Byte>) returns (count: nat)
      requires |buffer| <= CAPACITY
      modifies this
      ensures Accepts(old(buffer), message) <==> |old(buffer)| + |message| < CAPACITY
      ensures Accepts(old(buffer), message) ==> buffer == old(buffer) + message && count == |message|
      ensures !Accepts(old(buffer), message) ==> buffer == old(buffer) && count == 0
      ensures |buffer| <= CAPACITY
    {
      if |message| < CAPACITY - |buffer| {
        buffer := buffer + message;
        return |message|;
      } else {
        return 0;
      }
    }

    /** Hands the whole buffer to the socket, which takes `written` bytes; `None` is a socket error. */
    method FlushBuf(written: Option<nat>) returns (ok: bool, out: seq<Byte>)
      requires written.Some? ==> written.value <= |buffer|
      modifies this
      ensures out + buffer == old(buffer)
      ensures ok <==> old(buffer) == [] || written.Some?
      ensures |out| == if ok && written.Some? && old(buffer) != [] then written.value else 0
    {
      if |buffer| == 0 {
        return true, [];
      }
      match written
      case None => return false, [];
      case Some(k) =>
        out := buffer[..k];
        buffer := buffer[k..];
        return true, out;
    }
  }

  /** A message the writer takes carries fewer than 65536 payload bytes, so its size field is exact. */
  lemma AcceptedIsFramed(pending: seq<Byte>, kind: nat, data: seq<Byte>, pad: seq<Byte>)
    requires kind < U32 && |pad| == 2 && Accepts(pending, Serialize(MakePacket(kind, data, pad)))
    ensures Framed(MakePacket(kind, data, pad))
  {
  }
}
