/**
 Packets on the wire: an eight-byte header (a 32-bit type, a 16-bit size and two padding bytes
 copied along with it, little endian) followed by the payload.
 */
module Packets {
  import opened Common

  type Byte = b: int | 0 <= b < 256

  const HEADER_SIZE: nat := 8
  const U16: nat := 0x1_0000
  const U32: nat := 0x1_0000_0000
  const U64: nat := 0x1_0000_0000_0000_0000

  const ASKUDP_NUMBER: nat := 1
  const ASKUDP_RESPONSE: nat := 2

  datatype Header = Header(kind: nat, size: nat, pad: seq<Byte>)

  datatype Packet = Packet(header: Header, data: seq<Byte>)

  /** The fields fit their wire widths. */
  predicate Fits(h: Header) {
    h.kind < U32 && h.size < U16 && |h.pad| == 2
  }

  // ---------- little-endian integers ----------

  function Pow256(k: nat): (p: nat)
    ensures p > 0
  {
    if k == 0 then 1 else 256 * Pow256(k - 1)
  }

  function EncodeLE(n: nat, k: nat): (s: seq<Byte>)
    ensures |s| == k
    decreases k
  {
    if k == 0 then [] else [n % 256] + EncodeLE(n / 256, k - 1)
  }

  function DecodeLE(s: seq<Byte>): nat {
    if s == [] then 0 else s[0] + 256 * DecodeLE(s[1..])
  }

  lemma {:induction false} EncodeDecodeLE(n: nat, k: nat)
    requires n < Pow256(k)
    ensures DecodeLE(EncodeLE(n, k)) == n
    decreases k
  {
    if k == 0 {
    } else {
      EncodeDecodeLE(n / 256, k - 1);
      assert EncodeLE(n, k)[1..] == EncodeLE(n / 256, k - 1);
    }
  }

  lemma {:induction false} DecodeEncodeLE(s: seq<Byte>)
    ensures DecodeLE(s) < Pow256(|s|)
    ensures EncodeLE(DecodeLE(s), |s|) == s
  {
    if s == [] {
    } else {
      DecodeEncodeLE(s[1..]);
      Digits(s[0], DecodeLE(s[1..]));
    }
  }

  lemma Digits(low: Byte, high: nat)
    ensures (low + 256 * high) % 256 == low && (low + 256 * high) / 256 == high
  {
  }

  lemma Widths()
    ensures Pow256(2) == U16 && Pow256(4) == U32 && Pow256(8) == U64
  {
    assert Pow256(1) == 256;
    assert Pow256(3) == 256 * Pow256(2);
    assert Pow256(5) == 256 * Pow256(4);
    assert Pow256(7) == 256 * Pow256(6) && Pow256(6) == 256 * Pow256(5);
  }

  // ---------- the codec ----------

  function EncodeHeader(h: Header): (s: seq<Byte>)
    requires Fits(h)
    ensures |s| == HEADER_SIZE
  {
    EncodeLE(h.kind, 4) + EncodeLE(h.size, 2) + h.pad
  }

  function DecodeHeader(s: seq<Byte>): (h: Header)
    requires |s| >= HEADER_SIZE
    ensures Fits(h)
  {
    DecodeEncodeLE(s[..4]);
    DecodeEncodeLE(s[4..6]);
    Widths();
    Header(DecodeLE(s[..4]), DecodeLE(s[4..6]), s[6..8])
  }

  function Serialize(p: Packet): (s: seq<Byte>)
    requires Fits(p.header)
    ensures |s| == HEADER_SIZE + |p.data|
  {
    EncodeHeader(p.header) + p.data
  }

  function PacketSize(p: Packet): nat {
    HEADER_SIZE + |p.data|
  }

  function Deserialize(s: seq<Byte>): Option<Packet> {
    if |s| < HEADER_SIZE then None
    else
      var h := DecodeHeader(s);
      if |s| < HEADER_SIZE + h.size then None
      else Some(Packet(h, s[HEADER_SIZE..HEADER_SIZE + h.size]))
  }

  /** Wraps a payload; the 16-bit size field keeps the length modulo 65536. */
  function MakePacket(kind: nat, data: seq<Byte>, pad: seq<Byte>): (p: Packet)
    requires kind < U32 && |pad| == 2
    ensures Fits(p.header)
  {
    Packet(Header(kind, |data| % U16, pad), data)
  }

  /** A packet whose size field tells its payload's length. */
  predicate Framed(p: Packet) {
    Fits(p.header) && p.header.size == |p.data|
  }

  /**
   Where the fields stand on the wire: the type in bytes 0 to 3, the size in 4 and 5, low byte first, then the
   padding.
   */
  lemma HeaderLayout(h: Header)
    requires Fits(h)
    ensures var s := EncodeHeader(h);
      && s[0] == h.kind % 256 && s[1] == h.kind / 256 % 256 && s[2] == h.kind / 65536 % 256 && s[3] == h.kind / 16777216
      && s[4] == h.size % 256 && s[5] == h.size / 256 && s[6..8] == h.pad
  {
    FourBytes(h.kind);
    LowBytes(h.size, 1);
    HighBytes(h.kind, h.size);
    hide EncodeLE;
  }

  lemma LowBytes(n: nat, k: nat)
    ensures EncodeLE(n, k + 1)[0] == n % 256
    ensures k > 0 ==> EncodeLE(n, k + 1)[1] == n / 256 % 256
  {
    assert EncodeLE(n, k + 1) == [n % 256] + EncodeLE(n / 256, k);
  }

  lemma FourBytes(n: nat)
    ensures EncodeLE(n, 4)[0] == n % 256 && EncodeLE(n, 4)[1] == n / 256 % 256
    ensures EncodeLE(n, 4)[2] == n / 256 / 256 % 256 && EncodeLE(n, 4)[3] == n / 256 / 256 / 256 % 256
  {
    LowBytes(n, 3);
    LowBytes(n / 256 / 256, 1);
    assert EncodeLE(n, 4) == [n % 256] + ([n / 256 % 256] + EncodeLE(n / 256 / 256, 2));
  }

  lemma HighBytes(kind: nat, size: nat)
    requires kind < U32 && size < U16
    ensures kind / 256 / 256 == kind / 65536 && kind / 256 / 256 / 256 % 256 == kind / 16777216
    ensures size / 256 % 256 == size / 256
  {
  }

  lemma HeaderRoundTrip(h: Header, rest: seq<Byte>)
    requires Fits(h)
    ensures DecodeHeader(EncodeHeader(h) + rest) == h
  {
    Widths();
    EncodeDecodeLE(h.kind, 4);
    EncodeDecodeLE(h.size, 2);
    var s := EncodeHeader(h) + rest;
    assert s[..4] == EncodeLE(h.kind, 4);
    assert s[4..6] == EncodeLE(h.size, 2);
    assert s[6..8] == h.pad;
  }

  lemma HeaderOf(s: seq<Byte>)
    requires |s| >= HEADER_SIZE
    ensures EncodeHeader(DecodeHeader(s)) == s[..HEADER_SIZE]
  {
    DecodeEncodeLE(s[..4]);
    DecodeEncodeLE(s[4..6]);
    assert s[..HEADER_SIZE] == s[..4] + s[4..6] + s[6..8];
  }

  /** A framed packet is read back whatever follows it on the stream. */
  lemma RoundTrip(p: Packet, rest: seq<Byte>)
    requires Framed(p)
    ensures Deserialize(Serialize(p) + rest) == Some(p)
  {
    var s := Serialize(p) + rest;
    assert s == EncodeHeader(p.header) + (p.data + rest);
    HeaderRoundTrip(p.header, p.data + rest);
    assert s[HEADER_SIZE..HEADER_SIZE + |p.data|] == p.data;
  }

  /** Wrapping, writing and reading back returns type and payload exactly when the payload is below 65536 bytes. */
  lemma RoundTripIff(kind: nat, data: seq<Byte>, pad: seq<Byte>, rest: seq<Byte>)
    requires kind < U32 && |pad| == 2
    ensures var p := MakePacket(kind, data, pad);
      var read := Deserialize(Serialize(p) + rest);
      && (read == Some(p) <==> |data| < U16)
      && (read.Some? && read.value.header.kind == kind && read.value.data == data <==> |data| < U16)
  {
    hide Serialize, Deserialize;
    var p := MakePacket(kind, data, pad);
    if |data| < U16 {
      RoundTrip(p, rest);
    } else {
      ReadIsPrefix(Serialize(p) + rest);
    }
  }

  /** No proper prefix of a framed packet reads as a packet. */
  lemma PrefixFree(p: Packet, n: nat)
    requires Framed(p) && n < PacketSize(p)
    ensures Deserialize(Serialize(p)[..n]) == None
  {
    var s := Serialize(p)[..n];
    if n >= HEADER_SIZE {
      assert s == EncodeHeader(p.header) + p.data[..n - HEADER_SIZE];
      HeaderRoundTrip(p.header, p.data[..n - HEADER_SIZE]);
    }
  }

  /** Whatever is read is framed, and is byte for byte the start of what it was read from. */
  lemma ReadIsPrefix(s: seq<Byte>)
    ensures Deserialize(s).Some? ==>
      var p := Deserialize(s).value;
      Framed(p) && PacketSize(p) <= |s| && s == Serialize(p) + s[PacketSize(p)..]
  {
    if Deserialize(s).Some? {
      var p := Deserialize(s).value;
      HeaderOf(s);
      assert s == s[..HEADER_SIZE] + s[HEADER_SIZE..PacketSize(p)] + s[PacketSize(p)..];
    }
  }

  /** More bytes never change what was already readable. */
  lemma ReadStable(s: seq<Byte>, more: seq<Byte>)
    requires Deserialize(s).Some?
    ensures Deserialize(s + more) == Deserialize(s)
  {
    ReadIsPrefix(s);
    var p := Deserialize(s).value;
    assert s + more == Serialize(p) + (s[PacketSize(p)..] + more);
    RoundTrip(p, s[PacketSize(p)..] + more);
  }

  // ---------- streams of packets ----------

  ghost predicate AllFramed(ps: seq<Packet>) {
    forall i :: 0 <= i < |ps| ==> Framed(ps[i])
  }

  ghost function Concat(ps: seq<Packet>): seq<Byte>
    requires AllFramed(ps)
  {
    if ps == [] then [] else Serialize(ps[0]) + Concat(ps[1..])
  }

  lemma {:induction false} ConcatAppend(a: seq<Packet>, p: Packet)
    requires AllFramed(a) && Framed(p)
    ensures AllFramed(a + [p]) && Concat(a + [p]) == Concat(a) + Serialize(p)
  {
    hide Serialize;
    if a == [] {
      assert (a + [p])[1..] == [];
      assert Serialize(p) + [] == Serialize(p);
    } else {
      assert (a + [p])[1..] == a[1..] + [p];
      ConcatAppend(a[1..], p);
    }
  }

  lemma ConcatSnoc(h: seq<Packet>)
    requires AllFramed(h) && h != []
    ensures AllFramed(h[..|h| - 1]) && Framed(h[|h| - 1])
    ensures Concat(h) == Concat(h[..|h| - 1]) + Serialize(h[|h| - 1])
  {
    hide Concat, Serialize;
    ConcatAppend(h[..|h| - 1], h[|h| - 1]);
    assert h[..|h| - 1] + [h[|h| - 1]] == h;
  }

  /** A framed packet at the head of a stream of packets is the stream's first packet. */
  lemma FirstOfStream(p: Packet, more: seq<Byte>, a: seq<Packet>)
    requires Framed(p) && AllFramed(a) && Serialize(p) + more == Concat(a)
    ensures a != [] && a[0] == p && more == Concat(a[1..])
  {
    hide Serialize;
    assert |Concat(a)| >= HEADER_SIZE;
    RoundTrip(p, more);
    RoundTrip(a[0], Concat(a[1..]));
    assert more == Concat(a)[PacketSize(p)..];
  }

  lemma TailPrefix(h: seq<Packet>, a: seq<Packet>)
    requires h != [] && a != [] && h[0] == a[0] && |h| <= |a| && h[1..] == a[1..][..|h| - 1]
    ensures h == a[..|h|] && a[1..][|h| - 1..] == a[|h|..]
  {
    assert a[..|h|] == [a[0]] + a[1..][..|h| - 1];
    assert h == [h[0]] + h[1..];
  }

  lemma ConcatCons(h: seq<Packet>)
    requires AllFramed(h)
    ensures h == [] ==> Concat(h) == []
    ensures h != [] ==> Framed(h[0]) && AllFramed(h[1..]) && Concat(h) == Serialize(h[0]) + Concat(h[1..])
  {
  }

  lemma Assoc(a: seq<Byte>, b: seq<Byte>, c: seq<Byte>)
    ensures (a + b) + c == a + (b + c)
  {
  }

  lemma ConcatStep(h: seq<Packet>, a: seq<Packet>, tail: seq<Byte>)
    requires AllFramed(h) && AllFramed(a) && Concat(h) + tail == Concat(a)
    ensures h == [] ==> tail == Concat(a) && a == a[0..]
    ensures h != [] ==> a != [] && h[0] == a[0] && AllFramed(h[1..]) && AllFramed(a[1..])
    ensures h != [] ==> Concat(h[1..]) + tail == Concat(a[1..])
  {
    hide Concat, AllFramed, Serialize;
    ConcatCons(h);
    ConcatCons(a);
    if h == [] {
      assert [] + tail == tail;
    } else {
      Assoc(Serialize(h[0]), Concat(h[1..]), tail);
      FirstOfStream(h[0], Concat(h[1..]) + tail, a);
    }
  }

  /** Two packet lists on the same stream: the one whose bytes come first is a prefix of the other. */
  lemma {:induction false} UniqueParse(h: seq<Packet>, a: seq<Packet>, tail: seq<Byte>)
    requires AllFramed(h) && AllFramed(a)
    requires Concat(h) + tail == Concat(a)
    ensures |h| <= |a| && h == a[..|h|] && tail == Concat(a[|h|..])
    decreases |h|
  {
    hide Concat;
    ConcatStep(h, a, tail);
    if h == [] {
    } else {
      UniqueParse(h[1..], a[1..], tail);
      TailPrefix(h, a);
    }
  }

  // ---------- buffers filled in place ----------

  /** Copies the header, then the payload, into a fresh buffer. */
  method SerializeInto(p: Packet) returns (buffer: array<Byte>)
    requires Fits(p.header)
    ensures fresh(buffer) && buffer[..] == Serialize(p)
  {
    hide EncodeHeader;
    var header := EncodeHeader(p.header);
    buffer := new Byte[HEADER_SIZE + |p.data|](_ => 0);
    for i := 0 to HEADER_SIZE
      invariant buffer[..i] == header[..i]
    {
      buffer[i] := header[i];
    }
    for i := 0 to |p.data|
      invariant buffer[..HEADER_SIZE + i] == header + p.data[..i]
    {
      buffer[HEADER_SIZE + i] := p.data[i];
      assert p.data[..i + 1] == p.data[..i] + [p.data[i]];
    }
    assert p.data[..|p.data|] == p.data;
    assert buffer[..HEADER_SIZE + |p.data|] == buffer[..];
  }

  // ---------- fixed-size structures in a payload ----------

  /** Two 64-bit fields, packed. */
  datatype Pair64 = Pair64(id: nat, number: nat)

  function EncodePair(p: Pair64): (s: seq<Byte>)
    ensures |s| == 16
  {
    EncodeLE(p.id, 8) + EncodeLE(p.number, 8)
  }

  function DecodePair(s: seq<Byte>): Option<Pair64> {
    if |s| != 16 then None else Some(Pair64(DecodeLE(s[..8]), DecodeLE(s[8..])))
  }

  /** The id stands in the first eight bytes and the number in the last eight, each low byte first. */
  lemma PairLayout(p: Pair64)
    requires p.id < U64 && p.number < U64
    ensures DecodeLE(EncodePair(p)[..8]) == p.id && EncodePair(p)[0] == p.id % 256
    ensures DecodeLE(EncodePair(p)[8..]) == p.number && EncodePair(p)[8] == p.number % 256
  {
    Widths();
    EncodeDecodeLE(p.id, 8);
    EncodeDecodeLE(p.number, 8);
    LowBytes(p.id, 7);
    LowBytes(p.number, 7);
    hide EncodeLE, DecodeLE;
    assert EncodePair(p)[..8] == EncodeLE(p.id, 8) && EncodePair(p)[8..] == EncodeLE(p.number, 8);
  }

  lemma DecodedPair(s: seq<Byte>, p: Pair64)
    requires DecodePair(s) == Some(p)
    ensures p.id < U64 && p.number < U64 && s == EncodePair(p)
  {
    DecodeEncodeLE(s[..8]);
    DecodeEncodeLE(s[8..]);
    Widths();
    assert s == s[..8] + s[8..];
  }

  /** The packed structure reads back, and only from a payload of exactly its size. */
  lemma PairRoundTrip(p: Pair64, more: seq<Byte>)
    requires p.id < U64 && p.number < U64
    ensures DecodePair(EncodePair(p) + more) == Some(p) <==> more == []
  {
    Widths();
    EncodeDecodeLE(p.id, 8);
    EncodeDecodeLE(p.number, 8);
    if more == [] {
      assert EncodePair(p) + more == EncodePair(p);
      assert EncodePair(p)[..8] == EncodeLE(p.id, 8) && EncodePair(p)[8..] == EncodeLE(p.number, 8);
    }
  }
}
