/** What the packets delivered by the read side look like, for every frame it accepts. */
module GsoTheorems {
  import opened Bytes
  import opened OnesComplement
  import opened Segments
  import opened Packets
  import opened Virtio
  import opened Gso

  /** A recomputed IPv4 header sums to all ones, and only its checksum field changed. */
  lemma SealIpv4Verifies(ip: seq<byte>)
    requires |ip| >= 20
    ensures Norm(WordSum(SealIpv4(ip))) == 65535
    ensures forall p :: 0 <= p < |ip| && p != 10 && p != 11 ==> SealIpv4(ip)[p] == ip[p]
  {
    ComplementVerifies(Put16(ip, 10, 0), 10, 0);
  }

  /** A sealed transport part sums, with its pseudo-header, to all ones. */
  lemma SealTransportVerifies(t: seq<byte>, at: nat, pseudo: nat)
    requires at + 2 <= |t| && at % 2 == 0 && Get16(t, at) == 0
    ensures Norm(pseudo + WordSum(SealTransport(t, at, pseudo))) == 65535
  {
    ComplementVerifies(t, at, pseudo);
  }

  lemma SegmentParts(pkt: seq<byte>, h: Header, isV6: bool, i: nat)
    requires HasSegment(pkt, h, isV6, i)
    ensures h.csumStart <= h.hdrLen <= |Segment(pkt, h, isV6, i)|
    ensures Segment(pkt, h, isV6, i)[..h.csumStart] == SegmentHead(pkt, h, isV6, i)
    ensures Segment(pkt, h, isV6, i)[h.csumStart..] == SegmentTail(pkt, h, isV6, i)
  {
    hide SegmentHead, SegmentTail;
  }

  /** The tail of a segment carries its part of the payload, unchanged. */
  lemma TailPayload(pkt: seq<byte>, h: Header, isV6: bool, i: nat)
    requires HasSegment(pkt, h, isV6, i)
    ensures SegmentTail(pkt, h, isV6, i)[h.hdrLen as int - h.csumStart as int..] == Chunks(pkt, h)[i]
    ensures forall p ::
      0 <= p < h.hdrLen as int - h.csumStart as int && p != h.csumOffset && p != h.csumOffset as int + 1 ==>
      SegmentTail(pkt, h, isV6, i)[p] == SegmentMiddle(pkt, h, isV6, i)[p]
  {
    hide SegmentMiddle, Chunks;
    var data := Chunks(pkt, h)[i];
    var middle := SegmentMiddle(pkt, h, isV6, i);
    var t := middle + data;
    var tail := SegmentTail(pkt, h, isV6, i);
    assert forall p :: 0 <= p < |t| && p != h.csumOffset && p != h.csumOffset as int + 1 ==> tail[p] == t[p];
  }

  /** The byte positions of an IP header that SegmentIp rewrites. */
  predicate IpRewritten(p: nat, isV6: bool) {
    if isV6 then 4 <= p < 6 else 2 <= p < 6 || 10 <= p < 12
  }

  /** The byte positions of a transport header that a segment rewrites. */
  predicate TransportRewritten(p: nat, tcp: bool) {
    if tcp then 4 <= p < 8 || p == 13 || 16 <= p < 18 else 4 <= p < 8
  }

  lemma SegmentIpFields(ip: seq<byte>, i: nat, totalLen: nat, isV6: bool)
    requires |ip| >= MinIpHeader(isV6)
    requires if isV6 then 0 <= totalLen - |ip| <= MAX_UINT16 else totalLen <= MAX_UINT16
    ensures
      var r := SegmentIp(ip, i, totalLen, isV6);
      && (forall p :: 0 <= p < |ip| && !IpRewritten(p, isV6) ==> r[p] == ip[p])
      && (isV6 ==> Get16(r, 4) == totalLen - |ip|)
      && (!isV6 ==> Get16(r, 2) == totalLen && Get16(r, 4) == (Get16(ip, 4) + i) % TWO16 && Norm(WordSum(r)) == 65535)
  {
    hide Put16, Get16, SealIpv4, Norm, WordSum, Low16;
    if !isV6 {
      IdAdvances(ip, i);
      var numbered := if i > 0 then Put16(ip, 4, Low16(Get16(ip, 4) + Low16(i))) else ip;
      var sized := Put16(numbered, 2, totalLen);
      Put16Keeps(numbered, 2, totalLen, 4);
      SealIpv4Verifies(sized);
      SealIpv4Keeps(sized);
    }
  }

  lemma IdAdvances(ip: seq<byte>, i: nat)
    requires |ip| >= 20
    ensures
      var numbered := if i > 0 then Put16(ip, 4, Low16(Get16(ip, 4) + Low16(i))) else ip;
      Get16(numbered, 4) == (Get16(ip, 4) + i) % TWO16
  {
    hide Put16, Get16;
    LowSum(Get16(ip, 4), i);
  }

  lemma LowSum(a: nat, b: nat)
    requires a < TWO16
    ensures Low16(a + Low16(b)) == (a + b) % TWO16
    ensures b == 0 ==> (a + b) % TWO16 == a
  {
  }

  lemma SealIpv4Keeps(ip: seq<byte>)
    requires |ip| >= 20
    ensures Get16(SealIpv4(ip), 2) == Get16(ip, 2)
    ensures Get16(SealIpv4(ip), 4) == Get16(ip, 4)
  {
    hide SealIpv4;
    SealIpv4Verifies(ip);
  }

  lemma SegmentTransportFields(th: seq<byte>, tcp: bool, position: nat, last: bool, dataLen: nat)
    requires |th| >= (if tcp then 20 else 8) && |th| + dataLen <= MAX_UINT16
    ensures
      var r := SegmentTransport(th, tcp, position, last, dataLen);
      && (forall p :: 0 <= p < |th| && !TransportRewritten(p, tcp) ==> r[p] == th[p])
      && Get16(r, if tcp then 16 else 6) == 0
      && (tcp ==> Get32(r, 4) == (Get32(th, 4) + position) % TWO32)
      && (tcp ==> r[13] == if last then th[13] else ClearFinPsh(th[13]))
      && (!tcp ==> Get16(r, 4) == |th| + dataLen)
  {
    hide ClearFinPsh, Put16, Get16, Put32, Get32, Low16;
    if tcp {
      TcpHeaderFields(th, position, last, dataLen);
    } else {
      var cleared := Put16(th, 6, 0);
      var len := Low16(Low16(dataLen) + Low16(|th|));
      UdpLength(dataLen, |th|);
      Put16Keeps(cleared, 4, len, 6);
    }
  }

  lemma UdpLength(a: nat, b: nat)
    requires a + b <= MAX_UINT16
    ensures Low16(Low16(a) + Low16(b)) == a + b
  {
  }

  lemma TcpHeaderFields(th: seq<byte>, position: nat, last: bool, dataLen: nat)
    requires |th| >= 20
    ensures
      var r := SegmentTransport(th, true, position, last, dataLen);
      && (forall p :: 0 <= p < |th| && !TransportRewritten(p, true) ==> r[p] == th[p])
      && Get16(r, 16) == 0
      && Get32(r, 4) == (Get32(th, 4) + position) % TWO32
      && r[13] == if last then th[13] else ClearFinPsh(th[13])
  {
    hide ClearFinPsh, Put16, Put32, Get32;
    var cleared := Put16(th, 16, 0);
    var seqNo := Low32(Get32(th, 4) + Low32(position));
    assert seqNo == (Get32(th, 4) + position) % TWO32;
    hide Low32;
    var numbered := Put32(cleared, 4, seqNo);
    Put32Keeps(cleared, 4, seqNo, 16);
    var r := SegmentTransport(th, true, position, last, dataLen);
    assert Get32(r, 4) == Get32(numbered, 4) by { SameBytes(r, numbered); }
    assert Get16(r, 16) == Get16(numbered, 16);
  }

  lemma SameBytes(a: seq<byte>, b: seq<byte>)
    requires |a| == |b| >= 8 && a[4] == b[4] && a[5] == b[5] && a[6] == b[6] && a[7] == b[7]
    ensures Get32(a, 4) == Get32(b, 4)
  {
  }

  /** FIN and PSH are the two bits cleared; the other six survive. */
  lemma ClearFinPshBits(flags: byte)
    ensures
      var r := ClearFinPsh(flags);
      && r % 2 == 0 && r / 8 % 2 == 0
      && r / 2 % 4 == flags / 2 % 4 && r / 16 == flags / 16
  {
    var high: int, mid: int := flags / 16, flags / 2 % 4;
    assert ClearFinPsh(flags) == 2 * (8 * high + mid) == 8 * (2 * high) + 2 * mid == 16 * high + 2 * mid;
  }

  /**
   The IP header of segment i: exact lengths, an identification that counts up,
   and otherwise the packet's own bytes.
   */
  ghost predicate IpFieldsOf(s: seq<byte>, pkt: seq<byte>, h: Header, isV6: bool, i: nat)
    requires HasSegment(pkt, h, isV6, i) && |s| >= h.hdrLen
  {
    && (forall p :: 0 <= p < h.csumStart && !IpRewritten(p, isV6) ==> s[p] == pkt[p])
    && (isV6 ==> Get16(s, 4) == |s| - h.csumStart)
    && (!isV6 ==> Get16(s, 2) == |s| && Get16(s, 4) == (Get16(pkt, 4) + i) % TWO16)
  }

  /**
   The transport header of segment i: a sequence number that advances modulo
   2^32, FIN and PSH on the last segment only, an exact UDP length, and
   otherwise the packet's own bytes outside the checksum.
   */
  ghost predicate TransportFieldsOf(s: seq<byte>, pkt: seq<byte>, h: Header, isV6: bool, i: nat)
    requires HasSegment(pkt, h, isV6, i) && |s| >= h.hdrLen
  {
    var cs := h.csumStart;
    && (forall p :: cs <= p < h.hdrLen && !TransportRewritten(p - cs, IsTcpGso(h)) ==> s[p] == pkt[p])
    && (IsTcpGso(h) ==> Get32(s, cs + 4) == (Get32(pkt, cs + 4) + i * h.gsoSize) % TWO32)
    && (IsTcpGso(h) ==> s[cs + 13] == if i + 1 == |Chunks(pkt, h)| then pkt[cs + 13] else ClearFinPsh(pkt[cs + 13]))
    && (!IsTcpGso(h) ==> Get16(s, cs + 4) == |s| - cs)
  }

  lemma HeadFields(pkt: seq<byte>, h: Header, isV6: bool, i: nat)
    requires HasSegment(pkt, h, isV6, i)
    ensures
      var r := SegmentHead(pkt, h, isV6, i);
      var len := h.hdrLen + |Chunks(pkt, h)[i]|;
      && (forall p :: 0 <= p < |r| && !IpRewritten(p, isV6) ==> r[p] == pkt[p])
      && (isV6 ==> Get16(r, 4) == len - |r|)
      && (!isV6 ==> Get16(r, 2) == len && Get16(r, 4) == (Get16(pkt, 4) + i) % TWO16 && Norm(WordSum(r)) == 65535)
  {
    hide SegmentIp, Norm, WordSum, Chunks;
    SegmentIpFields(pkt[..h.csumStart], i, h.hdrLen + |Chunks(pkt, h)[i]|, isV6);
  }

  lemma MiddleFields(pkt: seq<byte>, h: Header, isV6: bool, i: nat)
    requires HasSegment(pkt, h, isV6, i)
    ensures
      var r := SegmentMiddle(pkt, h, isV6, i);
      var cs := h.csumStart;
      var last := i + 1 == |Chunks(pkt, h)|;
      && Get16(r, h.csumOffset) == 0
      && (forall p :: 0 <= p < |r| && !TransportRewritten(p, IsTcpGso(h)) ==> r[p] == pkt[cs + p])
      && (IsTcpGso(h) ==> Get32(r, 4) == (Get32(pkt, cs + 4) + i * h.gsoSize) % TWO32)
      && (IsTcpGso(h) ==> r[13] == if last then pkt[cs + 13] else ClearFinPsh(pkt[cs + 13]))
      && (!IsTcpGso(h) ==> Get16(r, 4) == |r| + |Chunks(pkt, h)[i]|)
  {
    hide SegmentTransport, ClearFinPsh, Chunks;
    var th := pkt[h.csumStart..h.hdrLen];
    SegmentTransportFields(th, IsTcpGso(h), i * h.gsoSize, i + 1 == |Chunks(pkt, h)|, |Chunks(pkt, h)[i]|);
    if IsTcpGso(h) {
      assert Get32(th, 4) == Get32(pkt, h.csumStart + 4);
    }
  }

  lemma SegmentIpPart(pkt: seq<byte>, h: Header, isV6: bool, i: nat)
    requires HasSegment(pkt, h, isV6, i)
    ensures IpFieldsOf(Segment(pkt, h, isV6, i), pkt, h, isV6, i)
  {
    hide Segment, SegmentHead, SegmentTail, Chunks, WordSum, Norm, LengthsFit;
    SegmentParts(pkt, h, isV6, i);
    HeadFields(pkt, h, isV6, i);
    var s := Segment(pkt, h, isV6, i);
    GetWindow(s, 0, h.csumStart, 2);
    GetWindow(s, 0, h.csumStart, 4);
    hide Get16;
    var head := s[..h.csumStart];
    assert forall p :: 0 <= p < h.csumStart ==> s[p] == head[p];
  }

  lemma SegmentTransportPart(pkt: seq<byte>, h: Header, isV6: bool, i: nat)
    requires HasSegment(pkt, h, isV6, i)
    ensures TransportFieldsOf(Segment(pkt, h, isV6, i), pkt, h, isV6, i)
    ensures Segment(pkt, h, isV6, i)[h.hdrLen..] == Chunks(pkt, h)[i]
  {
    hide Segment, SegmentHead, SegmentMiddle, SegmentTail, Chunks, ClearFinPsh, WordSum, Norm, LengthsFit;
    SegmentParts(pkt, h, isV6, i);
    TailPayload(pkt, h, isV6, i);
    MiddleFields(pkt, h, isV6, i);
    var s := Segment(pkt, h, isV6, i);
    var cs := h.csumStart;
    var middle := SegmentMiddle(pkt, h, isV6, i);
    var tail := s[cs..];
    GetWindow(s, cs, |s|, 4);
    SamePrefix(tail, middle, h.csumOffset);
    hide Get16, Get32, TransportRewritten;
    forall p | cs <= p < h.hdrLen && !TransportRewritten(p - cs, IsTcpGso(h))
      ensures s[p] == pkt[p]
    {
      assert s[p] == tail[p - cs];
    }
    assert s[h.hdrLen..] == tail[h.hdrLen - cs..];
  }

  lemma SamePrefix(a: seq<byte>, b: seq<byte>, except: nat)
    requires |b| <= |a|
    requires forall p :: 0 <= p < |b| && p != except && p != except + 1 ==> a[p] == b[p]
    ensures 6 <= except && |b| >= 6 ==> Get16(a, 4) == Get16(b, 4)
    ensures 8 <= except && |b| >= 8 ==> Get32(a, 4) == Get32(b, 4)
  {
  }

  /** Every field of segment i of an accepted packet. */
  lemma SegmentFields(pkt: seq<byte>, h: Header, isV6: bool, i: nat)
    requires HasSegment(pkt, h, isV6, i)
    ensures IpFieldsOf(Segment(pkt, h, isV6, i), pkt, h, isV6, i)
    ensures TransportFieldsOf(Segment(pkt, h, isV6, i), pkt, h, isV6, i)
    ensures Segment(pkt, h, isV6, i)[h.hdrLen..] == Chunks(pkt, h)[i]
  {
    hide Segment, IpFieldsOf, TransportFieldsOf;
    SegmentIpPart(pkt, h, isV6, i);
    SegmentTransportPart(pkt, h, isV6, i);
  }

  /** Every segment verifies: its IPv4 header, and its transport part under the receiver's test. */
  lemma SegmentVerifies(pkt: seq<byte>, h: Header, isV6: bool, i: nat)
    requires HasSegment(pkt, h, isV6, i)
    ensures !isV6 ==> Norm(WordSum(Segment(pkt, h, isV6, i)[..h.csumStart])) == 65535
    ensures ChecksumOk(Segment(pkt, h, isV6, i), h.csumStart, if IsTcpGso(h) then 6 else 17, isV6)
    ensures !isV6 ==> Get16(Segment(pkt, h, isV6, i), 10) < 0xFFFF
    ensures Get16(Segment(pkt, h, isV6, i), h.csumStart + h.csumOffset) < 0xFFFF
  {
    hide Segment, SegmentHead, SegmentMiddle, SegmentTail, Chunks, WordSum, Norm, PseudoSum, Get16;
    SegmentFieldsSmall(pkt, h, isV6, i);
    SegmentParts(pkt, h, isV6, i);
    HeadFields(pkt, h, isV6, i);
    MiddleFields(pkt, h, isV6, i);
    SameAddresses(Segment(pkt, h, isV6, i), pkt, isV6, SegmentHead(pkt, h, isV6, i));
    TailVerifies(pkt, h, isV6, i);
  }

  /** A sealed field holds the complement of a sum that is not zero, so it is never all ones. */
  lemma SegmentFieldsSmall(pkt: seq<byte>, h: Header, isV6: bool, i: nat)
    requires HasSegment(pkt, h, isV6, i)
    ensures |Segment(pkt, h, isV6, i)| >= h.hdrLen
    ensures !isV6 ==> Get16(Segment(pkt, h, isV6, i), 10) < 0xFFFF
    ensures Get16(Segment(pkt, h, isV6, i), h.csumStart + h.csumOffset) < 0xFFFF
  {
    hide Segment, SegmentMiddle, Chunks, WordSum, Norm, SealIpv4, Get16;
    SegmentParts(pkt, h, isV6, i);
    var s, cs := Segment(pkt, h, isV6, i), h.csumStart;
    GetSuffix(s, cs, h.csumOffset);
    var t := SegmentMiddle(pkt, h, isV6, i) + Chunks(pkt, h)[i];
    SealTransportSmall(t, h.csumOffset, PacketPseudo(pkt, Protocol(h), isV6, |t|));
    if !isV6 {
      GetWindow(s, 0, cs, 10);
      HeadSmall(pkt, h, i);
    }
  }

  lemma SealTransportSmall(t: seq<byte>, at: nat, pseudo: nat)
    requires at + 2 <= |t| && pseudo > 0
    ensures Get16(SealTransport(t, at, pseudo), at) < 0xFFFF
  {
    hide Norm, WordSum;
    NormOf(pseudo + WordSum(t));
  }

  lemma HeadSmall(pkt: seq<byte>, h: Header, i: nat)
    requires HasSegment(pkt, h, false, i)
    ensures Get16(SegmentHead(pkt, h, false, i), 10) < 0xFFFF
  {
    hide Norm, WordSum, Chunks, SealIpv4;
    var len := h.hdrLen + |Chunks(pkt, h)[i]|;
    var ip := pkt[..h.csumStart];
    var numbered := if i > 0 then Put16(ip, 4, Low16(Get16(ip, 4) + Low16(i))) else ip;
    SealIpv4Small(Put16(numbered, 2, len));
  }

  lemma SealIpv4Small(ip: seq<byte>)
    requires |ip| >= 20 && Get16(ip, 2) > 0
    ensures Get16(SealIpv4(ip), 10) < 0xFFFF
  {
    hide Norm;
    var cleared := Put16(ip, 10, 0);
    assert Get16(cleared, 2) == Get16(ip, 2);
    assert WordSum(cleared) == Get16(cleared, 0) + WordSum(cleared[2..]);
    assert WordSum(cleared[2..]) == Get16(cleared[2..], 0) + WordSum(cleared[2..][2..]);
    NormOf(WordSum(cleared));
  }

  lemma TailVerifies(pkt: seq<byte>, h: Header, isV6: bool, i: nat)
    requires HasSegment(pkt, h, isV6, i)
    ensures
      var tail := SegmentTail(pkt, h, isV6, i);
      Norm(PacketPseudo(pkt, Protocol(h), isV6, |tail|) + WordSum(tail)) == 65535
  {
    MiddleFields(pkt, h, isV6, i);
    hide SegmentMiddle, Chunks, WordSum, Norm, PseudoSum, Protocol, SealTransport;
    var middle := SegmentMiddle(pkt, h, isV6, i);
    var t := middle + Chunks(pkt, h)[i];
    assert Get16(t, h.csumOffset) == Get16(middle, h.csumOffset);
    SealTransportVerifies(t, h.csumOffset, PacketPseudo(pkt, Protocol(h), isV6, |t|));
  }

  lemma SameAddresses(s: seq<byte>, pkt: seq<byte>, isV6: bool, head: seq<byte>)
    requires |pkt| >= MinIpHeader(isV6) && MinIpHeader(isV6) <= |head| <= |pkt| && head <= s
    requires forall p :: 0 <= p < |head| && !IpRewritten(p, isV6) ==> head[p] == pkt[p]
    ensures SrcAddr(s, isV6) == SrcAddr(pkt, isV6)
    ensures DstAddr(s, isV6) == DstAddr(pkt, isV6)
  {
    assert forall p :: 0 <= p < |head| ==> s[p] == head[p];
  }

  /** The payloads of packets whose headers are hdrLen bytes long. */
  function PayloadsOf(packets: seq<seq<byte>>, hdrLen: nat): seq<seq<byte>>
    requires forall i :: 0 <= i < |packets| ==> |packets[i]| >= hdrLen
  {
    seq(|packets|, i requires 0 <= i < |packets| => packets[i][hdrLen..])
  }

  /**
   The packets of an accepted frame partition its payload, in order and without
   overlap, and all but the last are full.
   */
  lemma SplitIsPartition(pkt: seq<byte>, h: Header, outLens: seq<nat>, sizes: nat, offset: int, isV6: bool)
    requires SplitFrame(pkt, h, outLens, sizes, offset, isV6).Delivered?
    ensures h.hdrLen < |pkt| && h.gsoSize > 0 && offset >= 0
    ensures
      var packets := SplitFrame(pkt, h, outLens, sizes, offset, isV6).packets;
      && |packets| == Count(|pkt| - h.hdrLen, h.gsoSize) <= |outLens|
      && (forall i :: 0 <= i < |packets| ==>
           && h.hdrLen < |packets[i]| <= h.hdrLen as int + h.gsoSize as int
           && (i < |packets| - 1 ==> |packets[i]| == h.hdrLen as int + h.gsoSize as int)
           && offset + |packets[i]| <= outLens[i])
      && Concat(PayloadsOf(packets, h.hdrLen)) == pkt[h.hdrLen..]
  {
    hide Segment, ValidateSplit;
    AcceptedSplit(pkt, h, outLens, sizes, offset, isV6);
    var packets := SplitFrame(pkt, h, outLens, sizes, offset, isV6).packets;
    var parts := Chunks(pkt, h);
    SplitCount(Payload(pkt, h), h.gsoSize);
    forall i | 0 <= i < |packets|
      ensures |packets[i]| == h.hdrLen + |parts[i]| && packets[i][h.hdrLen..] == parts[i]
      ensures 0 < |parts[i]| <= h.gsoSize && (i < |packets| - 1 ==> |parts[i]| == h.gsoSize)
    {
      SegmentFields(pkt, h, isV6, i);
      SplitAt(Payload(pkt, h), h.gsoSize, i);
    }
    assert PayloadsOf(packets, h.hdrLen) == parts;
    ConcatSplit(Payload(pkt, h), h.gsoSize);
  }

  /**
   The IPv6 payload length counts everything after the 40-byte fixed header
   (section 3 of RFC 8200). gsoSplit writes the length after csumStart, which is
   that number exactly for packets without extension headers.
   */
  lemma Ipv6LengthExact(pkt: seq<byte>, h: Header, i: nat)
    requires HasSegment(pkt, h, true, i)
    ensures Get16(Segment(pkt, h, true, i), 4) == |Segment(pkt, h, true, i)| - 40 <==> h.csumStart == 40
  {
    hide Segment;
    SegmentFields(pkt, h, true, i);
  }

  lemma MultipleOf(x: int, d: nat, k: int)
    requires d > 0 && x == d * k
    ensures x % d == 0
  {
    DivisionUnique(x, d, k, 0);
  }

  /** Adding a 16-bit complement with its two bytes swapped gives a multiple of 65535 only for multiples of 257. */
  lemma SwappedComplement(total: nat, c: nat)
    requires c == 65535 - Norm(total)
    ensures (total + c / 256 + 256 * (c % 256)) % 65535 == 0 <==> total % 257 == 0
  {
    NormOf(total);
    hide Norm;
    var k :| Norm(total) - total == Times65535(k);
    var hi, lo := c / 256, c % 256;
    var sum := total + hi + 256 * lo;
    var q := 256 - 256 * k - hi;
    assert sum == 65535 * q - 255 * total;
    if total % 257 == 0 {
      var m := total / 257;
      MultipleOf(sum, 65535, q - m);
    }
    if sum % 65535 == 0 {
      var m := sum / 65535;
      assert 255 * total == 65535 * (q - m);
      MultipleOf(total, 257, q - m);
    }
  }

  /**
   gsoNoneChecksum completes a partial checksum: the part from csumStart on,
   added to the value that was in the field, sums to all ones. That holds for
   every even csumOffset, and for an odd one exactly when the sum is a multiple of 257.
   */
  lemma NoneChecksumVerifies(pkt: seq<byte>, csumStart: nat, csumOffset: nat)
    requires csumStart + csumOffset + 2 <= |pkt|
    ensures
      var initial := Get16(pkt, csumStart + csumOffset);
      var rest := WordSum(Put16(pkt, csumStart + csumOffset, 0)[csumStart..]);
      Norm(initial + WordSum(NoneChecksum(pkt, csumStart, csumOffset)[csumStart..])) == 65535
      <==> csumOffset % 2 == 0 || (initial + rest) % 257 == 0
  {
    hide Norm, WordSum, Put16;
    var at := csumStart + csumOffset;
    var initial := Get16(pkt, at);
    var t := Put16(pkt, at, 0)[csumStart..];
    var total := initial + WordSum(t);
    NormOf(total);
    var c := 65535 - Norm(total);
    assert NoneChecksum(pkt, csumStart, csumOffset)[csumStart..] == Put16(t, csumOffset, c);
    assert Get16(t, csumOffset) == 0;
    if csumOffset % 2 == 0 {
      ComplementVerifies(t, csumOffset, initial);
    } else {
      WordSumPut16(t, csumOffset, c);
      assert t[csumOffset] == 0 && t[csumOffset + 1] == 0;
      SwappedComplement(total, c);
      NormIsOnes(total + c / 256 + 256 * (c % 256));
    }
  }
}
