/** Exactly which packets an item takes: the narrow arithmetic of the source neither admits nor loses any. */
module Matching {
  import opened Bytes
  import opened Segments
  import opened Packets
  import opened Gro
  import opened Coalescing
  import opened Joining

  /** The item's own fields fit its buffer. */
  predicate Sound(item: GroItem, v: View, offset: nat) {
    && item.iphLen == MinIpHeader(item.key.isV6) && (item.TcpItem? <==> item.key.TcpKey?)
    && (item.TcpItem? ==> item.tcphLen >= 20)
    && offset + item.HeaderLen() <= |v.bytes| && item.gsoSize > 0
  }

  /** Packet i was admitted to the item's flow, and agrees with the item on every header field that must not vary. */
  ghost predicate SameAsItem(item: GroItem, v: View, inp: seq<View>, i: nat, info: Info, offset: nat)
    requires Sound(item, v, offset)
  {
    && info.headerLen == item.HeaderLen()
    && Member(inp, offset, item.key, item.HeaderLen(), i)
    && OriginalShape(inp, offset, item.key, item.HeaderLen(), i) == ItemShape(item, v, offset)
  }

  /**
   Packet i comes right behind a TCP item: it starts where the item's payload
   truly ends modulo 2^32, the last segment is full and without PSH, and the
   packet is no larger than the segments.
   */
  ghost predicate Follows(item: GroItem, v: View, inp: seq<View>, i: nat, info: Info, offset: nat)
    requires Sound(item, v, offset) && item.TcpItem?
  {
    var payload := v.bytes[offset + item.HeaderLen()..];
    && SameAsItem(item, v, inp, i, info, offset)
    && info.seqNo == (item.sentSeq + |payload|) % TWO32
    && |payload| % item.gsoSize == 0 && info.gsoSize <= item.gsoSize && !item.pshSet
  }

  /**
   Packet i comes right in front of a TCP item: it ends where the item starts, has
   no PSH itself, and is as large as the segments, or larger than a single one.
   */
  ghost predicate Precedes(item: GroItem, v: View, inp: seq<View>, i: nat, info: Info, offset: nat)
    requires Sound(item, v, offset) && item.TcpItem?
  {
    && SameAsItem(item, v, inp, i, info, offset)
    && (info.seqNo + info.gsoSize) % TWO32 == item.sentSeq
    && !info.pshSet && item.gsoSize <= info.gsoSize && (item.gsoSize < info.gsoSize ==> item.numMerged == 0)
  }

  /** A packet that was admitted to the item's flow. */
  ghost predicate Offered(item: GroItem, v: View, os: seq<nat>, inp: seq<View>, i: nat, info: Info, offset: nat) {
    && ItemInv(item, v, os, inp, offset)
    && i < |inp| && offset <= |inp[i].bytes|
    && Admit(Pkt(inp[i], offset), true) == Some(info) && info.key == item.key
  }

  lemma OfferedFacts(item: GroItem, v: View, os: seq<nat>, inp: seq<View>, i: nat, info: Info, offset: nat)
    requires Offered(item, v, os, inp, i, info, offset)
    ensures (item.TcpItem? <==> item.key.TcpKey?) && item.iphLen == MinIpHeader(item.key.isV6) == info.iphLen
    ensures item.TcpItem? ==> item.tcphLen >= 20 && info.headerLen >= info.iphLen + 20 && item.sentSeq < TWO32
    ensures item.UdpItem? ==> info.headerLen == item.HeaderLen()
    ensures offset + item.HeaderLen() <= |v.bytes| && 0 < item.gsoSize
    ensures i < |inp| && offset <= |inp[i].bytes| && |Pkt(inp[i], offset)| >= info.headerLen
    ensures 0 < info.gsoSize <= MAX_UINT16 && info.seqNo < TWO32
    ensures Member(inp, offset, item.key, info.headerLen, i)
  {
    hide ItemInv, Admit;
    BasicsOf(item, v, os, inp, offset);
    AdmitFacts(Pkt(inp[i], offset), true);
  }

  /** The comparison of headers is exactly agreement with the item. */
  lemma HeadersExactly(item: GroItem, v: View, os: seq<nat>, inp: seq<View>, i: nat, info: Info, offset: nat)
    requires Offered(item, v, os, inp, i, info, offset) && info.headerLen == item.HeaderLen()
    ensures Sound(item, v, offset) && i < |inp| && offset + item.HeaderLen() <= |inp[i].bytes|
    ensures
      var pkt, target, h := Pkt(inp[i], offset), Pkt(v, offset), item.HeaderLen();
      IpHeadersCanCoalesce(pkt, target) && (item.TcpItem? ==> pkt[item.iphLen + 20..h] == target[item.iphLen + 20..h])
      <==> SameAsItem(item, v, inp, i, info, offset)
  {
    hide ItemInv, ItemPayloads, ItemHeader, ItemSequence, ItemChecked, Admit, ShapeOf, IpHeadersCanCoalesce;
    OfferedFacts(item, v, os, inp, i, info, offset);
    BasicsOf(item, v, os, inp, offset);
    InvParts(item, v, os, inp, offset);
    FrontOf(item, v, os, inp, offset);
    var pkt, front, b := Pkt(inp[i], offset), Pkt(inp[os[0]], offset), Pkt(v, offset);
    SameHeaders(b, front, pkt, item.iphLen, item.HeaderLen(), item.TcpItem?);
    SameShape(pkt, front);
    MemberIph(front);
    assert OriginalShape(inp, offset, item.key, item.HeaderLen(), os[0]) == ItemShape(item, v, offset);
  }

  /** The end of an item's payload in sequence space, as the source computes it, is right when every segment is full. */
  lemma EndExact(item: GroItem, v: View, os: seq<nat>, inp: seq<View>, offset: nat)
    requires ItemInv(item, v, os, inp, offset)
    ensures offset + item.HeaderLen() <= |v.bytes| && item.gsoSize > 0
    ensures
      var payload := v.bytes[offset + item.HeaderLen()..];
      |payload| % item.gsoSize == 0 ==> Low16(item.gsoSize + Low16(item.numMerged * item.gsoSize)) == |payload|
  {
    hide Split, ItemInv, Low16;
    BasicsOf(item, v, os, inp, offset);
    var payload := v.bytes[offset + item.HeaderLen()..];
    PayloadCount(item, v, os, inp, offset);
    if |payload| % item.gsoSize == 0 {
      FullParts(payload, item.gsoSize);
      ExactLow16(item.gsoSize, item.numMerged, |payload|);
    }
  }

  /** A packet cannot both follow an item and precede it. */
  lemma NotBoth(seqNo: nat, sentSeq: nat, end: nat, size: nat)
    requires seqNo < TWO32 && sentSeq < TWO32 && end <= MAX_UINT16 && 0 < size <= MAX_UINT16
    requires Low32(seqNo + size) == sentSeq
    ensures seqNo != Low32(sentSeq + end)
  {
  }

  /** tcpPacketsCanCoalesce, exactly, although the source computes the end of the item in 16 bits. */
  lemma TcpExactly(item: GroItem, v: View, os: seq<nat>, inp: seq<View>, i: nat, info: Info, offset: nat)
    requires Offered(item, v, os, inp, i, info, offset) && item.TcpItem?
    ensures Sound(item, v, offset) && item.iphLen == info.iphLen
    ensures i < |inp| && offset <= |inp[i].bytes| && |Pkt(inp[i], offset)| >= info.headerLen >= info.iphLen + 20
    ensures
      var can := TcpCanCoalesce(Pkt(inp[i], offset), info, item, Pkt(v, offset));
      && (can == Append <==> Follows(item, v, inp, i, info, offset))
      && (can == Prepend <==> Precedes(item, v, inp, i, info, offset))
  {
    hide Offered, ItemInv, Admit, ShapeOf, IpHeadersCanCoalesce, SameAsItem, Low16, Member;
    OfferedFacts(item, v, os, inp, i, info, offset);
    OfferedInv(item, v, os, inp, i, info, offset);
    EndExact(item, v, os, inp, offset);
    var end := Low16(item.gsoSize + Low16(item.numMerged * item.gsoSize));
    if Low32(info.seqNo + info.gsoSize) == item.sentSeq {
      NotBoth(info.seqNo, item.sentSeq, end, info.gsoSize);
    }
    if info.headerLen == item.HeaderLen() {
      HeadersExactly(item, v, os, inp, i, info, offset);
    } else {
      OtherLength(item, v, inp, i, info, offset);
    }
    assert Pkt(v, offset)[item.HeaderLen()..] == v.bytes[offset + item.HeaderLen()..];
  }

  /** The packet adjoins the item, and the buffer that will be in front has the capacity for both. */
  ghost predicate Tries(item: GroItem, v: View, inp: seq<View>, i: nat, info: Info, offset: nat)
    requires Sound(item, v, offset) && item.TcpItem? && i < |inp|
  {
    var len := |v.bytes| + |inp[i].bytes| - item.HeaderLen();
    || (Follows(item, v, inp, i, info, offset) && len <= v.cap)
    || (Precedes(item, v, inp, i, info, offset) && len <= inp[i].cap)
  }

  /** The item is a single packet whose own checksum fails. */
  predicate LoneInvalid(item: GroItem, v: View, offset: nat)
    requires Sound(item, v, offset)
  {
    item.numMerged == 0 && !ChecksumOk(Pkt(v, offset), item.iphLen, item.Protocol(), item.key.isV6)
  }

  /**
   One turn of the loop of tcpGRO, exactly: the item is deleted when the packet
   would be merged with it and the item is a lone packet with a bad checksum.
   */
  lemma VerdictExactly(item: GroItem, v: View, os: seq<nat>, inp: seq<View>, i: nat, info: Info, offset: nat)
    requires Offered(item, v, os, inp, i, info, offset) && item.TcpItem?
    ensures Sound(item, v, offset) && Comparable(v, info, item, offset)
    ensures i < |inp| && offset <= |inp[i].bytes| && Admit(Pkt(inp[i], offset), true) == Some(info)
    ensures item.iphLen <= |Pkt(inp[i], offset)| && MinIpHeader(item.key.isV6) <= |Pkt(inp[i], offset)|
    ensures ExamineTcp(inp[i], v, info, item, offset)
         == if !Tries(item, v, inp, i, info, offset) then Skip
            else if LoneInvalid(item, v, offset) then DropIt
            else if !ChecksumOk(Pkt(inp[i], offset), item.iphLen, item.Protocol(), item.key.isV6) then Reject
            else Join(if Follows(item, v, inp, i, info, offset) then Append else Prepend)
  {
    hide ItemInv, Admit, ExamineTcp, TcpCanCoalesce, ChecksumOk, Follows, Precedes;
    OfferedFacts(item, v, os, inp, i, info, offset);
    OfferedComparable(item, v, os, inp, i, info, offset);
    TcpExactly(item, v, os, inp, i, info, offset);
    ExamineParts(inp[i], v, info, item, offset);
    if Precedes(item, v, inp, i, info, offset) {
      NotPsh(item, v, inp, i, info, offset);
    }
  }

  lemma NotPsh(item: GroItem, v: View, inp: seq<View>, i: nat, info: Info, offset: nat)
    requires Sound(item, v, offset) && item.TcpItem? && Precedes(item, v, inp, i, info, offset)
    ensures !info.pshSet
  {
  }

  lemma OfferedComparable(item: GroItem, v: View, os: seq<nat>, inp: seq<View>, i: nat, info: Info, offset: nat)
    requires Offered(item, v, os, inp, i, info, offset) && item.TcpItem?
    ensures Comparable(v, info, item, offset)
  {
    hide ItemInv, Admit;
    BasicsOf(item, v, os, inp, offset);
  }

  lemma OfferedInv(item: GroItem, v: View, os: seq<nat>, inp: seq<View>, i: nat, info: Info, offset: nat)
    requires Offered(item, v, os, inp, i, info, offset)
    ensures ItemInv(item, v, os, inp, offset)
  {
    hide ItemInv, Admit;
  }

  lemma OtherLength(item: GroItem, v: View, inp: seq<View>, i: nat, info: Info, offset: nat)
    requires Sound(item, v, offset) && info.headerLen != item.HeaderLen()
    ensures !SameAsItem(item, v, inp, i, info, offset)
  {
    hide Member, OriginalShape, ItemShape;
  }

  /** udpPacketsCanCoalesce, exactly. */
  lemma UdpExactly(item: GroItem, v: View, os: seq<nat>, inp: seq<View>, i: nat, info: Info, offset: nat)
    requires Offered(item, v, os, inp, i, info, offset) && item.UdpItem?
    ensures Sound(item, v, offset) && item.iphLen == info.iphLen && i < |inp| && offset <= |inp[i].bytes|
    ensures
      var can := UdpCanCoalesce(Pkt(inp[i], offset), info, item, Pkt(v, offset));
      var payload := v.bytes[offset + item.HeaderLen()..];
      && can != Prepend
      && (can == Append <==>
           && SameAsItem(item, v, inp, i, info, offset)
           && |payload| % item.gsoSize == 0 && info.gsoSize <= item.gsoSize)
  {
    hide Offered, ItemInv, Admit, ShapeOf, IpHeadersCanCoalesce, SameAsItem, Member;
    OfferedFacts(item, v, os, inp, i, info, offset);
    HeadersExactly(item, v, os, inp, i, info, offset);
    assert Pkt(v, offset)[item.HeaderLen()..] == v.bytes[offset + item.HeaderLen()..];
  }
}
