/** struct virtio_net_hdr, kept in memory and on the wire in the machine's byte order. */
module Virtio {
  import opened Bytes
  import opened InternetChecksum

  type uint16 = x: int | 0 <= x < TWO16

  const HDR_LEN := 10
  const F_NEEDS_CSUM: byte := 1
  const GSO_NONE: byte := 0
  const GSO_TCPV4: byte := 1
  const GSO_TCPV6: byte := 4
  const GSO_UDP_L4: byte := 5

  datatype Header = Header(
    flags: byte,
    gsoType: byte,
    hdrLen: uint16,
    gsoSize: uint16,
    csumStart: uint16,
    csumOffset: uint16
  )

  /** virtioNetHdr{}, written in front of every packet that is not coalesced. */
  const ZERO := Header(0, GSO_NONE, 0, 0, 0, 0)

  predicate NeedsCsum(h: Header) {
    h.flags % 2 == 1
  }

  function Encode(e: Endian, h: Header): (b: seq<byte>)
    ensures |b| == HDR_LEN
  {
    [h.flags, h.gsoType] + ToNative(e, h.hdrLen, 2) + ToNative(e, h.gsoSize, 2)
    + ToNative(e, h.csumStart, 2) + ToNative(e, h.csumOffset, 2)
  }

  lemma Native16(e: Endian, b: seq<byte>)
    requires |b| == 2
    ensures Native(e, b) < TWO16
  {
    LittleBound(b);
    BigBound(b);
    assert Pow256(2) == TWO16;
  }

  function Field(e: Endian, b: seq<byte>, at: nat): uint16
    requires at + 2 <= |b|
  {
    Native16(e, b[at..at + 2]);
    Native(e, b[at..at + 2])
  }

  function Decode(e: Endian, b: seq<byte>): Header
    requires |b| >= HDR_LEN
  {
    Header(b[0], b[1], Field(e, b, 2), Field(e, b, 4), Field(e, b, 6), Field(e, b, 8))
  }

  /** What the write side encodes the read side decodes, in either byte order and whatever follows it. */
  lemma DecodeEncode(e: Endian, h: Header, rest: seq<byte>)
    ensures Decode(e, Encode(e, h) + rest) == h
  {
    var b := Encode(e, h) + rest;
    assert Pow256(2) == TWO16;
    assert b[2..4] == ToNative(e, h.hdrLen, 2);
    assert b[4..6] == ToNative(e, h.gsoSize, 2);
    assert b[6..8] == ToNative(e, h.csumStart, 2);
    assert b[8..10] == ToNative(e, h.csumOffset, 2);
    NativeRoundTrip(e, h.hdrLen, 2);
    NativeRoundTrip(e, h.gsoSize, 2);
    NativeRoundTrip(e, h.csumStart, 2);
    NativeRoundTrip(e, h.csumOffset, 2);
  }

  /** The empty header is ten zero bytes. */
  lemma ZeroBytes(e: Endian)
    ensures Encode(e, ZERO) == [0, 0, 0, 0, 0, 0, 0, 0, 0, 0]
  {
    Layout(e, ZERO);
    hide Encode;
  }

  /** A 16-bit number from its first and second byte in memory. */
  function Word(e: Endian, first: byte, second: byte): nat {
    if e == Little then first as int + 256 * second as int else 256 * first as int + second as int
  }

  /** Where the fields of struct virtio_net_hdr lie: two bytes, then four 16-bit numbers without padding. */
  lemma Layout(e: Endian, h: Header)
    ensures
      var b := Encode(e, h);
      && b[0] == h.flags && b[1] == h.gsoType
      && Word(e, b[2], b[3]) == h.hdrLen && Word(e, b[4], b[5]) == h.gsoSize
      && Word(e, b[6], b[7]) == h.csumStart && Word(e, b[8], b[9]) == h.csumOffset
  {
    TwoBytes(e, h.hdrLen);
    TwoBytes(e, h.gsoSize);
    TwoBytes(e, h.csumStart);
    TwoBytes(e, h.csumOffset);
    hide ToNative;
  }

  lemma TwoBytes(e: Endian, x: uint16)
    ensures |ToNative(e, x, 2)| == 2 && Word(e, ToNative(e, x, 2)[0], ToNative(e, x, 2)[1]) == x
  {
    var low, high := x as int % 256, x as int / 256;
    assert high % 256 == high && high / 256 == 0;
    assert ToLittle(high, 1) == [high] + ToLittle(0, 0);
    assert ToLittle(x, 2) == [low] + ToLittle(high, 1);
    assert ToBig(high, 1) == ToBig(0, 0) + [high];
    assert ToBig(x, 2) == ToBig(high, 1) + [low];
  }
}
