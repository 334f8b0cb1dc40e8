/** Coalescing one more packet keeps the invariant of an item, by appending and by prepending. */
module Joining {
  import opened Bytes
  import opened Segments
  import opened Packets
  import opened Gro
  import opened Coalescing

  /** Packet i passes every check for being coalesced into the item. */
  ghost predicate CanJoin(mode: CanCoalesce, item: GroItem, v: View, os: seq<nat>, inp: seq<View>, i: nat, info: Info,
                          offset: nat) {
    && ItemInv(item, v, os, inp, offset)
    && v.cap <= MAX_UINT16 + 2 * offset
    && i < |inp| && offset <= |inp[i].bytes| && inp[i].cap <= MAX_UINT16 + 2 * offset
    && Admit(Pkt(inp[i], offset), true) == Some(info) && info.key == item.key
    && offset + info.headerLen <= |inp[i].bytes| && info.headerLen >= info.iphLen + (if item.TcpItem? then 20 else 8)
    && info.iphLen == item.iphLen
    && mode != Unavailable
    && (if item.TcpItem? then TcpCanCoalesce(Pkt(inp[i], offset), info, item, Pkt(v, offset)) == mode
        else mode == Append && UdpCanCoalesce(Pkt(inp[i], offset), info, item, Pkt(v, offset)) == Append)
    && info.headerLen == item.HeaderLen()
    && TryCoalesce(mode, inp[i], info, item, v, offset) == Success
    && forall m :: 0 <= m < |os| ==> os[m] < i
  }

  lemma JoinBounds(mode: CanCoalesce, item: GroItem, v: View, os: seq<nat>, inp: seq<View>, i: nat, info: Info,
                   offset: nat)
    requires CanJoin(mode, item, v, os, inp, i, info, offset)
    ensures ItemInv(item, v, os, inp, offset)
    ensures offset + item.HeaderLen() < |v.bytes| && item.gsoSize > 0
    ensures i < |inp| && offset + item.HeaderLen() < |inp[i].bytes|
  {
    hide ItemShapes, ItemPayloads, ItemHeader, ItemSequence, ItemChecked, Admit, TryCoalesce, TcpCanCoalesce,
         UdpCanCoalesce;
    AdmitFacts(Pkt(inp[i], offset), true);
  }

  /** The headers that coalescing compared. */
  lemma JoinHeaders(mode: CanCoalesce, item: GroItem, v: View, os: seq<nat>, inp: seq<View>, i: nat, info: Info,
                    offset: nat)
    requires CanJoin(mode, item, v, os, inp, i, info, offset)
    ensures offset <= |v.bytes| && i < |inp| && offset <= |inp[i].bytes|
    ensures item.HeaderLen() <= |Pkt(v, offset)| && item.HeaderLen() <= |Pkt(inp[i], offset)|
    ensures IpHeadersCanCoalesce(Pkt(inp[i], offset), Pkt(v, offset))
    ensures item.TcpItem? ==>
      && item.tcphLen >= 20
      && Pkt(inp[i], offset)[item.iphLen + 20..item.HeaderLen()] == Pkt(v, offset)[item.iphLen + 20..item.HeaderLen()]
  {
    hide Admit, TryCoalesce, ItemShapes, ItemPayloads, ItemHeader, ItemSequence, ItemChecked, Member,
         IpHeadersCanCoalesce, Low16, Low32;
  }

  /** b and front agree on all that the comparison of headers looks at. */
  lemma SameHeaders(b: seq<byte>, front: seq<byte>, pkt: seq<byte>, iph: nat, h: nat, tcp: bool)
    requires 20 <= iph <= h <= |b| && h <= |front| && h <= |pkt| && (tcp ==> iph + 20 <= h)
    requires forall q :: 0 <= q < h && !(tcp && q == iph + 13) ==> b[q] == front[q]
    ensures IpHeadersCanCoalesce(pkt, b) == IpHeadersCanCoalesce(pkt, front)
    ensures tcp ==> b[iph + 20..h] == front[iph + 20..h]
  {
  }

  /** The item's front bytes are those of the first packet. */
  lemma FrontOf(item: GroItem, v: View, os: seq<nat>, inp: seq<View>, offset: nat)
    requires ItemBasics(item, v, os, inp, offset) && ItemHeader(item, v, os, inp, offset)
    ensures |os| > 0 && Member(inp, offset, item.key, item.HeaderLen(), os[0])
    ensures
      var b, front, h := Pkt(v, offset), Pkt(inp[os[0]], offset), item.HeaderLen();
      && h <= |b| && h <= |front|
      && forall q :: 0 <= q < h && !(item.TcpItem? && q == item.iphLen + 13) ==> b[q] == front[q]
  {
    hide Admit;
    var b, front, h := Pkt(v, offset), Pkt(inp[os[0]], offset), item.HeaderLen();
    AdmitFacts(front, true);
    forall q | 0 <= q < h && !(item.TcpItem? && q == item.iphLen + 13)
      ensures b[q] == front[q]
    {
      assert v.bytes[offset + q] == inp[os[0]].bytes[offset + q];
    }
  }

  /** Packet i has the shape of the item. */
  lemma JoinShape(mode: CanCoalesce, item: GroItem, v: View, os: seq<nat>, inp: seq<View>, i: nat, info: Info,
                  offset: nat)
    requires CanJoin(mode, item, v, os, inp, i, info, offset)
    ensures Member(inp, offset, item.key, item.HeaderLen(), i)
    ensures OriginalShape(inp, offset, item.key, item.HeaderLen(), i) == ItemShape(item, v, offset)
  {
    hide CanJoin, ItemInv, ItemPayloads, ItemHeader, ItemSequence, ItemChecked, Admit, ShapeOf, IpHeadersCanCoalesce;
    JoinBounds(mode, item, v, os, inp, i, info, offset);
    JoinModes(mode, item, v, os, inp, i, info, offset);
    JoinHeaders(mode, item, v, os, inp, i, info, offset);
    BasicsOf(item, v, os, inp, offset);
    InvParts(item, v, os, inp, offset);
    FrontOf(item, v, os, inp, offset);
    var pkt, front, b := Pkt(inp[i], offset), Pkt(inp[os[0]], offset), Pkt(v, offset);
    assert Member(inp, offset, item.key, item.HeaderLen(), os[0]);
    SameHeaders(b, front, pkt, item.iphLen, item.HeaderLen(), item.TcpItem?);
    SameShape(pkt, front);
    MemberIph(front);
    assert OriginalShape(inp, offset, item.key, item.HeaderLen(), os[0]) == ItemShape(item, v, offset);
  }

  lemma MemberIph(pkt: seq<byte>)
    requires Admit(pkt, true).Some?
    ensures Admit(pkt, true).value.iphLen == MinIpHeader(Admit(pkt, true).value.key.isV6)
  {
    AdmitFacts(pkt, true);
  }

  /** The checksums that coalescing verified. */
  lemma JoinTested(mode: CanCoalesce, item: GroItem, v: View, os: seq<nat>, inp: seq<View>, i: nat, info: Info,
                   offset: nat)
    requires CanJoin(mode, item, v, os, inp, i, info, offset)
    ensures offset <= |v.bytes| && i < |inp| && offset <= |inp[i].bytes| && item.iphLen == MinIpHeader(item.key.isV6)
    ensures item.iphLen <= |Pkt(inp[i], offset)| && item.iphLen <= |Pkt(v, offset)|
    ensures ChecksumOk(Pkt(inp[i], offset), item.iphLen, item.Protocol(), item.key.isV6)
    ensures item.numMerged == 0 ==>
      && ChecksumOk(Pkt(v, offset), item.iphLen, item.Protocol(), item.key.isV6)
      && (item.UdpItem? ==> !item.cSumKnownInvalid)
  {
    hide Admit, TcpCanCoalesce, UdpCanCoalesce, ItemShapes, ItemPayloads, ItemHeader, ItemSequence, ItemChecked,
         ChecksumOk, Member;
  }

  /** Packet i and every packet already in the item came in with a valid checksum. */
  lemma JoinChecked(mode: CanCoalesce, item: GroItem, v: View, os: seq<nat>, inp: seq<View>, i: nat, info: Info,
                    offset: nat)
    requires CanJoin(mode, item, v, os, inp, i, info, offset)
    ensures Member(inp, offset, item.key, item.HeaderLen(), i)
    ensures Valid(inp, offset, item.key, item.HeaderLen(), i)
    ensures forall m :: 0 <= m < |os| ==> Valid(inp, offset, item.key, item.HeaderLen(), os[m])
    ensures item.UdpItem? ==> !item.cSumKnownInvalid
  {
    hide CanJoin, ItemInv, ItemShapes, ItemPayloads, ItemHeader, ItemSequence, Admit, Member, ChecksumOk, OriginalShape,
         ItemShape;
    JoinBounds(mode, item, v, os, inp, i, info, offset);
    JoinShape(mode, item, v, os, inp, i, info, offset);
    JoinTested(mode, item, v, os, inp, i, info, offset);
    InvParts(item, v, os, inp, offset);
  }

  /** The coalesced packet, headers included, still fits an IP length field. */
  lemma JoinLength(mode: CanCoalesce, item: GroItem, v: View, os: seq<nat>, inp: seq<View>, i: nat, info: Info,
                   offset: nat)
    requires CanJoin(mode, item, v, os, inp, i, info, offset)
    ensures |v.bytes| + |inp[i].bytes| - 2 * offset - item.HeaderLen() <= MAX_UINT16
    ensures |v.bytes| + |inp[i].bytes| - offset - item.HeaderLen() <= (if mode == Prepend then inp[i].cap else v.cap)
  {
    hide Admit, ChecksumOk, ItemInv, TcpCanCoalesce, UdpCanCoalesce;
  }

  /** What the sequence and size checks say about an append. */
  lemma TcpAppendFacts(pkt: seq<byte>, info: Info, item: GroItem, target: seq<byte>)
    requires item.TcpItem? && item.gsoSize > 0 && item.iphLen == info.iphLen && item.tcphLen >= 20
    requires |target| >= item.HeaderLen() && |pkt| >= info.headerLen >= info.iphLen + 20
    requires TcpCanCoalesce(pkt, info, item, target) == Append
    ensures !item.pshSet && info.gsoSize <= item.gsoSize && info.headerLen == item.HeaderLen()
    ensures |target[item.HeaderLen()..]| % item.gsoSize == 0
    ensures info.seqNo == Low32(item.sentSeq + Low16(item.gsoSize + Low16(item.numMerged * item.gsoSize)))
  {
    hide Low16, Low32, IpHeadersCanCoalesce;
  }

  /** What they say about a prepend. */
  lemma TcpPrependFacts(pkt: seq<byte>, info: Info, item: GroItem, target: seq<byte>)
    requires item.TcpItem? && item.gsoSize > 0 && item.iphLen == info.iphLen && item.tcphLen >= 20
    requires |target| >= item.HeaderLen() && |pkt| >= info.headerLen >= info.iphLen + 20
    requires TcpCanCoalesce(pkt, info, item, target) == Prepend
    ensures !info.pshSet && info.gsoSize >= item.gsoSize && info.headerLen == item.HeaderLen()
    ensures info.gsoSize > item.gsoSize ==> item.numMerged == 0
    ensures Low32(info.seqNo + info.gsoSize) == item.sentSeq
  {
    hide Low16, Low32, IpHeadersCanCoalesce;
  }

  lemma AppendFacts(item: GroItem, v: View, os: seq<nat>, inp: seq<View>, i: nat, info: Info, offset: nat)
    requires CanJoin(Append, item, v, os, inp, i, info, offset)
    ensures |v.bytes[offset + item.HeaderLen()..]| % item.gsoSize == 0
    ensures 0 < info.gsoSize <= item.gsoSize
    ensures info.gsoSize == |inp[i].bytes[offset + item.HeaderLen()..]|
    ensures item.TcpItem? ==>
      && !item.pshSet
      && info.seqNo == Low32(item.sentSeq + Low16(item.gsoSize + Low16(item.numMerged * item.gsoSize)))
  {
    hide Admit, ItemShapes, ItemPayloads, ItemHeader, ItemSequence, ItemChecked, TryCoalesce, TcpCanCoalesce, Low16,
         Low32;
    var pkt, target := Pkt(inp[i], offset), Pkt(v, offset);
    AdmitFacts(pkt, true);
    assert target[item.HeaderLen()..] == v.bytes[offset + item.HeaderLen()..];
    if item.TcpItem? {
      TcpAppendFacts(pkt, info, item, target);
    }
  }

  lemma ExactLow16(g: nat, k: nat, len: nat)
    requires len == (k + 1) * g <= MAX_UINT16
    ensures Low16(g + Low16(k * g)) == len
  {
    assert (k + 1) * g == k * g + g;
    assert 0 <= k * g;
  }

  /**
   The 16-bit length that tcpPacketsCanCoalesce computes is exact whenever it
   answers append: the packet's sequence number follows the item's true payload.
   */
  lemma NarrowSequenceExact(item: GroItem, v: View, os: seq<nat>, inp: seq<View>, i: nat, info: Info, offset: nat)
    requires CanJoin(Append, item, v, os, inp, i, info, offset) && item.TcpItem?
    ensures |v.bytes[offset + item.HeaderLen()..]| == |os| * item.gsoSize
    ensures info.seqNo == (item.sentSeq + |v.bytes[offset + item.HeaderLen()..]|) % TWO32
  {
    hide CanJoin, Split, ItemInv, Low16, TcpCanCoalesce;
    JoinBounds(Append, item, v, os, inp, i, info, offset);
    AppendFacts(item, v, os, inp, i, info, offset);
    var payload := v.bytes[offset + item.HeaderLen()..];
    PayloadCount(item, v, os, inp, offset);
    FullParts(payload, item.gsoSize);
    ExactLow16(item.gsoSize, item.numMerged, |payload|);
  }

  lemma PayloadCount(item: GroItem, v: View, os: seq<nat>, inp: seq<View>, offset: nat)
    requires ItemInv(item, v, os, inp, offset)
    ensures |Split(v.bytes[offset + item.HeaderLen()..], item.gsoSize)| == |os| == item.numMerged + 1
    ensures |v.bytes[offset + item.HeaderLen()..]| <= MAX_UINT16
  {
    hide Split, ItemShapes, ItemHeader, ItemSequence, ItemChecked;
  }

  /** An item holds at most as many packets as a packet has bytes. */
  lemma CountBound(item: GroItem, v: View, os: seq<nat>, inp: seq<View>, offset: nat)
    requires ItemInv(item, v, os, inp, offset)
    ensures item.numMerged < MAX_UINT16
  {
    hide ItemInv, Split;
    BasicsOf(item, v, os, inp, offset);
    PayloadCount(item, v, os, inp, offset);
    PartsAtMostBytes(v.bytes[offset + item.HeaderLen()..], item.gsoSize);
  }

  /** The packets of the item after packet i joined, in stream order. */
  function Joined(mode: CanCoalesce, os: seq<nat>, i: nat): seq<nat> {
    if mode == Prepend then [i] + os else os + [i]
  }

  /** The bytes of the coalesced packet. */
  lemma MergedBytes(mode: CanCoalesce, pkt: View, info: Info, item: GroItem, target: View, offset: nat)
    requires offset + item.HeaderLen() <= |target.bytes| && offset + item.HeaderLen() <= |pkt.bytes|
    requires (item.TcpItem? ==> item.tcphLen >= 20) && mode != Unavailable && (item.UdpItem? ==> mode == Append)
    ensures
      var h := offset + item.HeaderLen();
      var v' := MergedView(mode, pkt, info, item, target, offset);
      && |v'.bytes| == |target.bytes| + |pkt.bytes| - h
      && v'.bytes[h..]
            == (if mode == Prepend then pkt.bytes[h..] + target.bytes[h..] else target.bytes[h..] + pkt.bytes[h..])
      && (mode == Prepend ==> v'.bytes[..h] == pkt.bytes[..h])
      && (mode == Append ==> forall q :: 0 <= q < h && !(item.TcpItem? && q == offset + item.iphLen + 13) ==>
        v'.bytes[q] == target.bytes[q])
      && (mode == Append && item.TcpItem? ==>
           var at := offset + item.iphLen + 13;
           v'.bytes[at] == if info.pshSet then SetPsh(target.bytes[at]) else target.bytes[at])
  {
    hide SetPsh;
    var h := offset + item.HeaderLen();
    var v' := MergedView(mode, pkt, info, item, target, offset);
    if mode == Prepend {
      assert v'.bytes[h..] == pkt.bytes[h..] + target.bytes[h..];
    } else {
      assert v'.bytes[h..] == target.bytes[h..] + pkt.bytes[h..];
    }
  }

  /** The fields of the item after packet i joined. */
  lemma MergedFields(mode: CanCoalesce, info: Info, item: GroItem)
    requires mode != Unavailable && (item.UdpItem? ==> mode == Append)
    requires item.numMerged < MAX_UINT16
    ensures
      var item' := MergedItem(mode, info, item);
      && (item'.TcpItem? <==> item.TcpItem?)
      && item'.key == item.key && item'.bufsIndex == item.bufsIndex && item'.iphLen == item.iphLen
      && item'.HeaderLen() == item.HeaderLen()
      && item'.numMerged == item.numMerged + 1
      && item'.gsoSize == (if item.TcpItem? && info.gsoSize > item.gsoSize then info.gsoSize else item.gsoSize)
      && (item.UdpItem? ==> item'.cSumKnownInvalid == item.cSumKnownInvalid)
      && (item.TcpItem? ==>
           && item'.tcphLen == item.tcphLen
           && item'.sentSeq == (if mode == Prepend then info.seqNo else item.sentSeq)
           && item'.pshSet == (item.pshSet || (mode == Append && info.pshSet)))
  {
  }

  lemma JoinBasics(mode: CanCoalesce, item: GroItem, v: View, os: seq<nat>, inp: seq<View>, i: nat, info: Info,
                   offset: nat)
    requires CanJoin(mode, item, v, os, inp, i, info, offset)
    requires offset + item.HeaderLen() <= |v.bytes| && i < |inp| && offset + item.HeaderLen() <= |inp[i].bytes|
    ensures ItemBasics(MergedItem(mode, info, item), MergedView(mode, inp[i], info, item, v, offset),
                       Joined(mode, os, i), inp, offset)
    ensures MergedItem(mode, info, item).numMerged == item.numMerged + 1
  {
    hide CanJoin, ItemInv, Member, Admit, Split, OriginalShape, ItemShape, MergedItem, MergedView;
    JoinBounds(mode, item, v, os, inp, i, info, offset);
    BasicsOf(item, v, os, inp, offset);
    JoinShape(mode, item, v, os, inp, i, info, offset);
    JoinLength(mode, item, v, os, inp, i, info, offset);
    JoinModes(mode, item, v, os, inp, i, info, offset);
    CountBound(item, v, os, inp, offset);
    MergedBytes(mode, inp[i], info, item, v, offset);
    MergedFields(mode, info, item);
    var os' := Joined(mode, os, i);
    forall m | 0 <= m < |os'|
      ensures Member(inp, offset, item.key, item.HeaderLen(), os'[m])
    {
      assert os'[m] == i || os'[m] == os[if mode == Prepend then m - 1 else m];
    }
  }

  lemma JoinModes(mode: CanCoalesce, item: GroItem, v: View, os: seq<nat>, inp: seq<View>, i: nat, info: Info,
                  offset: nat)
    requires CanJoin(mode, item, v, os, inp, i, info, offset)
    ensures mode != Unavailable && (item.UdpItem? ==> mode == Append)
    ensures info.key == item.key && info.headerLen == item.HeaderLen() && info.iphLen == item.iphLen
    ensures 0 < info.gsoSize <= MAX_UINT16 && info.seqNo < TWO32
    ensures Admit(Pkt(inp[i], offset), true) == Some(info)
    ensures info.gsoSize == |inp[i].bytes[offset + item.HeaderLen()..]|
  {
    hide ItemInv, ChecksumOk, TryCoalesce, TcpCanCoalesce, UdpCanCoalesce;
    AdmitFacts(Pkt(inp[i], offset), true);
  }

  lemma JoinShapes(mode: CanCoalesce, item: GroItem, v: View, os: seq<nat>, inp: seq<View>, i: nat, info: Info,
                   offset: nat)
    requires CanJoin(mode, item, v, os, inp, i, info, offset)
    requires offset + item.HeaderLen() <= |v.bytes| && i < |inp| && offset + item.HeaderLen() <= |inp[i].bytes|
    ensures ItemBasics(MergedItem(mode, info, item), MergedView(mode, inp[i], info, item, v, offset),
                       Joined(mode, os, i), inp, offset)
    ensures ItemShapes(MergedItem(mode, info, item), MergedView(mode, inp[i], info, item, v, offset),
                       Joined(mode, os, i), inp, offset)
  {
    hide CanJoin, ItemInv, ItemPayloads, ItemHeader, ItemSequence, ItemChecked, Admit, Member, Split, MergedView,
         MergedItem, ShapeOf;
    JoinBasics(mode, item, v, os, inp, i, info, offset);
    JoinBounds(mode, item, v, os, inp, i, info, offset);
    BasicsOf(item, v, os, inp, offset);
    JoinShape(mode, item, v, os, inp, i, info, offset);
    JoinModes(mode, item, v, os, inp, i, info, offset);
    CountBound(item, v, os, inp, offset);
    MergedFields(mode, info, item);
    MergedBytes(mode, inp[i], info, item, v, offset);
    InvParts(item, v, os, inp, offset);
    var v' := MergedView(mode, inp[i], info, item, v, offset);
    MergedShape(mode, item, v, v', inp[i], offset);
    var os' := Joined(mode, os, i);
    forall m | 0 <= m < |os'|
      ensures OriginalShape(inp, offset, item.key, item.HeaderLen(), os'[m]) == ItemShape(item, v', offset)
    {
      assert os'[m] == i || os'[m] == os[if mode == Prepend then m - 1 else m];
    }
  }

  /** The shape in front is that of the old front, or of the packet put before it. */
  lemma MergedShape(mode: CanCoalesce, item: GroItem, v: View, v': View, pkt: View, offset: nat)
    requires item.iphLen == MinIpHeader(item.key.isV6) && (item.TcpItem? <==> item.key.TcpKey?)
    requires item.TcpItem? ==> item.tcphLen >= 20
    requires var h := offset + item.HeaderLen(); h <= |v.bytes| && h <= |v'.bytes| && h <= |pkt.bytes|
    requires mode == Prepend ==> v'.bytes[..offset + item.HeaderLen()] == pkt.bytes[..offset + item.HeaderLen()]
    requires mode == Append ==>
      forall q :: 0 <= q < offset + item.HeaderLen() && !(item.TcpItem? && q == offset + item.iphLen + 13) ==>
        v'.bytes[q] == v.bytes[q]
    requires mode != Unavailable
    ensures ItemShape(item, v', offset) == ItemShape(item, if mode == Prepend then pkt else v, offset)
  {
    var src := if mode == Prepend then pkt else v;
    var a, b := Pkt(v', offset), Pkt(src, offset);
    var h, iph := item.HeaderLen(), item.iphLen;
    forall q | 0 <= q < h && !(item.TcpItem? && q == iph + 13)
      ensures a[q] == b[q]
    {
      assert a[q] == v'.bytes[offset + q] && b[q] == src.bytes[offset + q];
      assert mode == Prepend ==> v'.bytes[..offset + h][offset + q] == pkt.bytes[..offset + h][offset + q];
    }
    SameShapeBytes(a, b, item.key.isV6, item.TcpItem?, h);
  }

  lemma SameShapeBytes(a: seq<byte>, b: seq<byte>, isV6: bool, tcp: bool, h: nat)
    requires |a| >= h && |b| >= h && h >= MinIpHeader(isV6) + if tcp then 20 else 8
    requires forall q :: 0 <= q < h && !(tcp && q == MinIpHeader(isV6) + 13) ==> a[q] == b[q]
    ensures ShapeOf(a, isV6, tcp, h) == ShapeOf(b, isV6, tcp, h)
  {
    assert SrcAddr(a, isV6) == SrcAddr(b, isV6);
    assert DstAddr(a, isV6) == DstAddr(b, isV6);
    if tcp {
      assert a[MinIpHeader(isV6) + 20..h] == b[MinIpHeader(isV6) + 20..h];
    }
  }

  /** What the checks say about a prepend. */
  lemma PrependFacts(item: GroItem, v: View, os: seq<nat>, inp: seq<View>, i: nat, info: Info, offset: nat)
    requires CanJoin(Prepend, item, v, os, inp, i, info, offset)
    ensures item.TcpItem? && !info.pshSet && info.gsoSize >= item.gsoSize
    ensures info.gsoSize > item.gsoSize ==> item.numMerged == 0
    ensures Low32(info.seqNo + info.gsoSize) == item.sentSeq
  {
    hide Admit, ItemShapes, ItemPayloads, ItemHeader, ItemSequence, ItemChecked, TryCoalesce, TcpCanCoalesce,
         UdpCanCoalesce, Low32;
    TcpPrependFacts(Pkt(inp[i], offset), info, item, Pkt(v, offset));
  }

  lemma PayloadsAppend(inp: seq<View>, offset: nat, key: FlowKey, headerLen: nat, os: seq<nat>, i: nat)
    requires Member(inp, offset, key, headerLen, i)
    requires forall m :: 0 <= m < |os| ==> Member(inp, offset, key, headerLen, os[m])
    ensures PayloadsOf(inp, offset, key, headerLen, os + [i])
         == PayloadsOf(inp, offset, key, headerLen, os) + [PayloadOf(inp, offset, key, headerLen, i)]
    ensures PayloadsOf(inp, offset, key, headerLen, [i] + os)
         == [PayloadOf(inp, offset, key, headerLen, i)] + PayloadsOf(inp, offset, key, headerLen, os)
  {
    hide Member, PayloadOf;
  }

  /** The payload stays cut into the packets' payloads. */
  lemma JoinPayloads(mode: CanCoalesce, item: GroItem, v: View, os: seq<nat>, inp: seq<View>, i: nat, info: Info,
                     offset: nat)
    requires CanJoin(mode, item, v, os, inp, i, info, offset)
    requires offset + item.HeaderLen() <= |v.bytes| && i < |inp| && offset + item.HeaderLen() <= |inp[i].bytes|
    ensures ItemBasics(MergedItem(mode, info, item), MergedView(mode, inp[i], info, item, v, offset),
                       Joined(mode, os, i), inp, offset)
    ensures ItemPayloads(MergedItem(mode, info, item), MergedView(mode, inp[i], info, item, v, offset),
                         Joined(mode, os, i), inp, offset)
  {
    hide CanJoin, Split, PayloadsOf, MergedItem, MergedView, ItemShapes, ItemHeader, ItemSequence, ItemChecked, Admit;
    JoinBasics(mode, item, v, os, inp, i, info, offset);
    JoinBounds(mode, item, v, os, inp, i, info, offset);
    JoinModes(mode, item, v, os, inp, i, info, offset);
    MergedBytes(mode, inp[i], info, item, v, offset);
    JoinSizes(mode, item, v, os, inp, i, info, offset);
    JoinMembers(mode, item, v, os, inp, i, info, offset);
    JoinKeeps(mode, item, v, os, inp, i, info, offset);
    PayloadsAppend(inp, offset, item.key, item.HeaderLen(), os, i);
    var h := offset + item.HeaderLen();
    var x, payload := inp[i].bytes[h..], v.bytes[h..];
    assert x == PayloadOf(inp, offset, item.key, item.HeaderLen(), i);
    JoinedSplit(mode, x, payload, item.gsoSize, info.gsoSize, |os|);
  }

  lemma JoinMembers(mode: CanCoalesce, item: GroItem, v: View, os: seq<nat>, inp: seq<View>, i: nat, info: Info,
                    offset: nat)
    requires CanJoin(mode, item, v, os, inp, i, info, offset)
    ensures Member(inp, offset, item.key, item.HeaderLen(), i)
    ensures forall m :: 0 <= m < |os| ==> Member(inp, offset, item.key, item.HeaderLen(), os[m])
    ensures |os| > 0 && |os| == item.numMerged + 1
  {
    hide CanJoin, Member;
    JoinBounds(mode, item, v, os, inp, i, info, offset);
    JoinShape(mode, item, v, os, inp, i, info, offset);
  }

  /** The sizes involved in joining, and the segment size that results. */
  lemma JoinSizes(mode: CanCoalesce, item: GroItem, v: View, os: seq<nat>, inp: seq<View>, i: nat, info: Info,
                  offset: nat)
    requires CanJoin(mode, item, v, os, inp, i, info, offset)
    requires offset + item.HeaderLen() <= |v.bytes|
    ensures mode == Append ==>
      |v.bytes[offset + item.HeaderLen()..]| % item.gsoSize == 0 && info.gsoSize <= item.gsoSize
    ensures mode == Append ==> MergedItem(mode, info, item).gsoSize == item.gsoSize
    ensures mode == Prepend ==> info.gsoSize >= item.gsoSize && (info.gsoSize > item.gsoSize ==> |os| == 1)
    ensures mode == Prepend ==> MergedItem(mode, info, item).gsoSize == info.gsoSize
  {
    hide CanJoin, Split, ItemInv, Low16, Low32;
    JoinBounds(mode, item, v, os, inp, i, info, offset);
    PayloadCount(item, v, os, inp, offset);
    if mode == Append {
      AppendFacts(item, v, os, inp, i, info, offset);
    } else if mode == Prepend {
      PrependFacts(item, v, os, inp, i, info, offset);
    }
  }

  lemma JoinedSplit(mode: CanCoalesce, x: seq<byte>, payload: seq<byte>, size: nat, newSize: nat, n: nat)
    requires size > 0 && |x| == newSize > 0 && |payload| > 0 && mode != Unavailable
    requires |Split(payload, size)| == n
    requires mode == Append ==> |payload| % size == 0 && newSize <= size
    requires mode == Prepend ==> newSize >= size && (newSize > size ==> n == 1)
    ensures mode == Append ==> Split(payload + x, size) == Split(payload, size) + [x]
    ensures mode == Prepend ==> Split(x + payload, newSize) == [x] + Split(payload, size)
  {
    if mode == Append {
      SplitAppend(payload, x, size);
    } else if newSize == size {
      SplitPrepend(x, payload, size);
    } else {
      if |payload| > size {
        NonEmptySplit(payload[size..], size);
      }
      SplitPair(x, payload);
      assert Split(payload, size) == [payload];
    }
  }

  lemma PrependHeader(item: GroItem, v: View, os: seq<nat>, inp: seq<View>, i: nat, offset: nat)
    requires ItemBasics(item, v, [i] + os, inp, offset) && Member(inp, offset, item.key, item.HeaderLen(), i)
    requires offset + item.HeaderLen() <= |inp[i].bytes|
    requires v.bytes[..offset + item.HeaderLen()] == inp[i].bytes[..offset + item.HeaderLen()]
    requires item.TcpItem? ==> inp[i].bytes[offset + item.iphLen + 13] == FLAG_ACK
    requires |os| > 0 && forall m :: 0 <= m < |os| ==> os[m] < i
    ensures ItemHeader(item, v, [i] + os, inp, offset)
  {
    hide Admit;
    FrontBytes(v.bytes, inp[i].bytes, offset + item.HeaderLen());
    var os' := [i] + os;
    assert os'[0] == i && os'[|os'| - 1] == os[|os| - 1] < i;
    assert !ArrivedLast(os');
  }

  lemma SetPshShows(psh: bool)
    ensures (if psh then SetPsh(FLAG_ACK) else FLAG_ACK) == if psh then FLAG_ACK_PSH else FLAG_ACK
  {
  }

  /** Packet i comes after every packet of the item. */
  lemma JoinLater(mode: CanCoalesce, item: GroItem, v: View, os: seq<nat>, inp: seq<View>, i: nat, info: Info,
                  offset: nat)
    requires CanJoin(mode, item, v, os, inp, i, info, offset)
    ensures forall m :: 0 <= m < |os| ==> os[m] < i
  {
    hide ItemInv, Admit, TryCoalesce, TcpCanCoalesce, UdpCanCoalesce;
  }

  lemma AppendHeader(item: GroItem, item': GroItem, v: View, v': View, os: seq<nat>, inp: seq<View>, i: nat, psh: bool,
                     offset: nat)
    requires ItemBasics(item, v, os, inp, offset) && ItemHeader(item, v, os, inp, offset)
    requires ItemBasics(item', v', os + [i], inp, offset)
    requires item'.key == item.key && item'.HeaderLen() == item.HeaderLen()
    requires forall q :: 0 <= q < offset + item.HeaderLen() && !(item.TcpItem? && q == offset + item.iphLen + 13) ==>
      v'.bytes[q] == v.bytes[q]
    requires item.TcpItem? ==>
      var at := offset + item.iphLen + 13;
      && v'.bytes[at] == (if psh then SetPsh(v.bytes[at]) else v.bytes[at])
      && !item.pshSet && item'.pshSet == psh
    requires forall m :: 0 <= m < |os| ==> os[m] < i
    ensures ItemHeader(item', v', os + [i], inp, offset)
  {
    hide Admit, SetPsh;
    var os' := os + [i];
    assert os'[0] == os[0] && Member(inp, offset, item'.key, item'.HeaderLen(), os'[0]);
    assert item'.iphLen == item.iphLen && (item'.TcpItem? <==> item.TcpItem?);
    assert ArrivedLast(os');
    SetPshShows(psh);
  }

  /** The header in front stays that of the first packet in stream order. */
  lemma JoinHeader(mode: CanCoalesce, item: GroItem, v: View, os: seq<nat>, inp: seq<View>, i: nat, info: Info,
                   offset: nat)
    requires CanJoin(mode, item, v, os, inp, i, info, offset)
    requires offset + item.HeaderLen() <= |v.bytes| && i < |inp| && offset + item.HeaderLen() <= |inp[i].bytes|
    ensures ItemBasics(MergedItem(mode, info, item), MergedView(mode, inp[i], info, item, v, offset),
                       Joined(mode, os, i), inp, offset)
    ensures ItemHeader(MergedItem(mode, info, item), MergedView(mode, inp[i], info, item, v, offset),
                       Joined(mode, os, i), inp, offset)
  {
    hide CanJoin, ItemInv, ItemBasics, ItemShapes, ItemPayloads, ItemHeader, ItemSequence, ItemChecked, MergedItem,
         MergedView, Admit, Member, SetPsh, Low16, Low32;
    JoinBasics(mode, item, v, os, inp, i, info, offset);
    JoinBounds(mode, item, v, os, inp, i, info, offset);
    BasicsOf(item, v, os, inp, offset);
    InvParts(item, v, os, inp, offset);
    JoinModes(mode, item, v, os, inp, i, info, offset);
    JoinMembers(mode, item, v, os, inp, i, info, offset);
    CountBound(item, v, os, inp, offset);
    MergedFields(mode, info, item);
    MergedBytes(mode, inp[i], info, item, v, offset);
    JoinLater(mode, item, v, os, inp, i, info, offset);
    var item', v' := MergedItem(mode, info, item), MergedView(mode, inp[i], info, item, v, offset);
    if mode == Append {
      assert item.TcpItem? ==> !item.pshSet by {
        AppendFacts(item, v, os, inp, i, info, offset);
      }
      AppendHeader(item, item', v, v', os, inp, i, info.pshSet, offset);
    } else {
      if item.TcpItem? {
        AdmittedFlags(inp[i], info, offset);
        assert !info.pshSet by {
          PrependFacts(item, v, os, inp, i, info, offset);
        }
      }
      PrependHeader(item', v', os, inp, i, offset);
    }
  }

  lemma FrontBytes(a: seq<byte>, b: seq<byte>, h: nat)
    requires h <= |a| && h <= |b| && a[..h] == b[..h]
    ensures forall q :: 0 <= q < h ==> a[q] == b[q]
  {
    assert forall q :: 0 <= q < h ==> a[q] == a[..h][q] && b[q] == b[..h][q];
  }

  /** Sequence numbers stay contiguous and PSH stays on the last packet. */
  lemma JoinSequence(mode: CanCoalesce, item: GroItem, v: View, os: seq<nat>, inp: seq<View>, i: nat, info: Info,
                     offset: nat)
    requires CanJoin(mode, item, v, os, inp, i, info, offset) && item.TcpItem?
    ensures MergedItem(mode, info, item).TcpItem?
    ensures ItemSequence(MergedItem(mode, info, item), Joined(mode, os, i), inp, offset)
  {
    hide CanJoin, MergedItem, ItemShapes, ItemPayloads, ItemHeader, ItemChecked, Admit, Split, Low16, Low32;
    JoinBounds(mode, item, v, os, inp, i, info, offset);
    JoinModes(mode, item, v, os, inp, i, info, offset);
    JoinMembers(mode, item, v, os, inp, i, info, offset);
    CountBound(item, v, os, inp, offset);
    MergedFields(mode, info, item);
    JoinSizes(mode, item, v, os, inp, i, info, offset);
    hide Member;
    assert InfoOf(inp, offset, i) == info by { assert Member(inp, offset, item.key, item.HeaderLen(), i); }
    if mode == Append {
      AppendFacts(item, v, os, inp, i, info, offset);
      NarrowSequenceExact(item, v, os, inp, i, info, offset);
      SequenceAppend(item, MergedItem(mode, info, item), os, inp, i, offset);
    } else {
      PrependFacts(item, v, os, inp, i, info, offset);
      SequencePrepend(item, MergedItem(mode, info, item), os, inp, i, offset);
    }
  }

  lemma SequenceAppend(item: GroItem, item': GroItem, os: seq<nat>, inp: seq<View>, i: nat, offset: nat)
    requires item.TcpItem? && item'.TcpItem? && ItemSequence(item, os, inp, offset) && !item.pshSet
    requires item'.key == item.key && item'.HeaderLen() == item.HeaderLen()
    requires item'.sentSeq == item.sentSeq && item'.gsoSize == item.gsoSize
    requires Member(inp, offset, item.key, item.HeaderLen(), i)
    requires InfoOf(inp, offset, i).seqNo == (item.sentSeq + |os| * item.gsoSize) % TWO32
    requires item'.pshSet == InfoOf(inp, offset, i).pshSet
    ensures ItemSequence(item', os + [i], inp, offset)
  {
    hide Admit;
    var os' := os + [i];
    forall m | 0 <= m < |os'|
      ensures Member(inp, offset, item'.key, item'.HeaderLen(), os'[m])
      ensures InfoOf(inp, offset, os'[m]).seqNo == (item'.sentSeq + m * item'.gsoSize) % TWO32
      ensures m < |os'| - 1 ==> !InfoOf(inp, offset, os'[m]).pshSet
    {
      if m < |os| {
        assert os'[m] == os[m];
      }
    }
  }

  lemma SequencePrepend(item: GroItem, item': GroItem, os: seq<nat>, inp: seq<View>, i: nat, offset: nat)
    requires item.TcpItem? && item'.TcpItem? && ItemSequence(item, os, inp, offset)
    requires item'.key == item.key && item'.HeaderLen() == item.HeaderLen()
    requires Member(inp, offset, item.key, item.HeaderLen(), i) && !InfoOf(inp, offset, i).pshSet
    requires item'.sentSeq == InfoOf(inp, offset, i).seqNo < TWO32
    requires item'.gsoSize > item.gsoSize ==> |os| == 1
    requires item'.gsoSize >= item.gsoSize
    requires Low32(item'.sentSeq + item'.gsoSize) == item.sentSeq
    requires item'.pshSet == item.pshSet
    ensures ItemSequence(item', [i] + os, inp, offset)
  {
    hide Admit, InfoOf, Low32;
    var os' := [i] + os;
    forall m | 0 <= m < |os'|
      ensures Member(inp, offset, item'.key, item'.HeaderLen(), os'[m])
      ensures InfoOf(inp, offset, os'[m]).seqNo == (item'.sentSeq + m * item'.gsoSize) % TWO32
      ensures m < |os'| - 1 ==> !InfoOf(inp, offset, os'[m]).pshSet
    {
      if m > 0 {
        assert os'[m] == os[m - 1];
        assert InfoOf(inp, offset, os[m - 1]).seqNo == (item.sentSeq + (m - 1) * item.gsoSize) % TWO32;
        ShiftSequence(item'.sentSeq, item'.gsoSize, item.sentSeq, item.gsoSize, m);
      } else {
        assert 0 * item'.gsoSize == 0;
      }
    }
  }

  lemma ShiftSequence(start: nat, size: nat, oldStart: nat, oldSize: nat, m: nat)
    requires m >= 1 && (size == oldSize || m == 1) && Low32(start + size) == oldStart
    ensures (oldStart + (m - 1) * oldSize) % TWO32 == (start + m * size) % TWO32
  {
    assert m * size == size + (m - 1) * size;
    assert m == 1 ==> (m - 1) * oldSize == 0 && (m - 1) * size == 0;
    AddModulo(start + size, (m - 1) * oldSize);
  }

  lemma AddModulo(a: nat, b: nat)
    ensures (a % TWO32 + b) % TWO32 == (a + b) % TWO32
  {
  }

  lemma JoinStaysChecked(mode: CanCoalesce, item: GroItem, v: View, os: seq<nat>, inp: seq<View>, i: nat, info: Info,
                         offset: nat)
    requires CanJoin(mode, item, v, os, inp, i, info, offset)
    requires offset + item.HeaderLen() <= |v.bytes| && i < |inp| && offset + item.HeaderLen() <= |inp[i].bytes|
    ensures ItemBasics(MergedItem(mode, info, item), MergedView(mode, inp[i], info, item, v, offset),
                       Joined(mode, os, i), inp, offset)
    ensures ItemChecked(MergedItem(mode, info, item), MergedView(mode, inp[i], info, item, v, offset),
                        Joined(mode, os, i), inp, offset)
  {
    hide CanJoin, MergedItem, MergedView, ItemBasics, Member, Valid;
    JoinBasics(mode, item, v, os, inp, i, info, offset);
    JoinModes(mode, item, v, os, inp, i, info, offset);
    JoinMembers(mode, item, v, os, inp, i, info, offset);
    JoinChecked(mode, item, v, os, inp, i, info, offset);
    JoinKeeps(mode, item, v, os, inp, i, info, offset);
    var os' := Joined(mode, os, i);
    assert |os'| > 1;
    forall m | 0 <= m < |os'|
      ensures Member(inp, offset, item.key, item.HeaderLen(), os'[m])
      ensures Valid(inp, offset, item.key, item.HeaderLen(), os'[m])
    {
      assert os'[m] == i || os'[m] == os[if mode == Prepend then m - 1 else m];
    }
  }

  lemma JoinKeeps(mode: CanCoalesce, item: GroItem, v: View, os: seq<nat>, inp: seq<View>, i: nat, info: Info,
                  offset: nat)
    requires CanJoin(mode, item, v, os, inp, i, info, offset)
    ensures
      var item' := MergedItem(mode, info, item);
      && (item'.TcpItem? <==> item.TcpItem?) && (item.TcpItem? <==> item.key.TcpKey?)
      && item'.key == item.key && item'.bufsIndex == item.bufsIndex && item'.HeaderLen() == item.HeaderLen()
      && (item.UdpItem? ==> item'.cSumKnownInvalid == item.cSumKnownInvalid)
      && (item.TcpItem? ==> item'.tcphLen == item.tcphLen)
  {
    hide CanJoin, Split, ItemShapes, ItemPayloads, ItemHeader, ItemSequence, ItemChecked, MergedItem, Admit;
    JoinBounds(mode, item, v, os, inp, i, info, offset);
    JoinModes(mode, item, v, os, inp, i, info, offset);
    CountBound(item, v, os, inp, offset);
    MergedFields(mode, info, item);
  }

  /** Every successful coalescing, by append, equal-size prepend or larger-first prepend, keeps the item invariant. */
  lemma JoinInv(mode: CanCoalesce, item: GroItem, v: View, os: seq<nat>, inp: seq<View>, i: nat, info: Info,
                offset: nat)
    requires CanJoin(mode, item, v, os, inp, i, info, offset)
    ensures offset + item.HeaderLen() <= |v.bytes| && i < |inp| && offset + item.HeaderLen() <= |inp[i].bytes|
    ensures item.TcpItem? ==> item.tcphLen >= 20
    ensures ItemInv(MergedItem(mode, info, item), MergedView(mode, inp[i], info, item, v, offset), Joined(mode, os, i),
                    inp, offset)
  {
    hide CanJoin, MergedItem, MergedView, ItemShapes, ItemPayloads, ItemHeader, ItemSequence, ItemChecked, Member,
         Joined;
    JoinBounds(mode, item, v, os, inp, i, info, offset);
    JoinKeeps(mode, item, v, os, inp, i, info, offset);
    JoinBasics(mode, item, v, os, inp, i, info, offset);
    hide ItemBasics;
    JoinShapes(mode, item, v, os, inp, i, info, offset);
    JoinPayloads(mode, item, v, os, inp, i, info, offset);
    JoinHeader(mode, item, v, os, inp, i, info, offset);
    if item.TcpItem? {
      JoinSequence(mode, item, v, os, inp, i, info, offset);
    }
    JoinStaysChecked(mode, item, v, os, inp, i, info, offset);
  }
}
