/**
 Writing and then reading: what handleGRO coalesces, handleVirtioRead splits
 back into the packets that went in.
 */
module RoundTrip {
  import opened Bytes
  import opened OnesComplement
  import opened InternetChecksum
  import opened Segments
  import opened Packets
  import opened Virtio
  import opened Gso
  import opened GsoTheorems
  import opened Gro
  import opened Coalescing
  import opened Headers
  import opened Accounting

  /** Accounting rewrites only lengths and checksums. */
  predicate Accounted(p: nat, item: GroItem) {
    if p < item.iphLen then (if item.key.isV6 then 4 <= p < 6 else 2 <= p < 4 || 10 <= p < 12)
    else if item.TcpItem? then 16 <= p - item.iphLen < 18 else 4 <= p - item.iphLen < 8
  }

  lemma AccountIpFields(ip: seq<byte>, len: nat, isV6: bool)
    requires |ip| >= MinIpHeader(isV6) && |ip| <= len <= MAX_UINT16
    ensures
      var r := AccountIp(ip, len, isV6);
      && (forall p :: 0 <= p < |ip| && !(if isV6 then 4 <= p < 6 else 2 <= p < 4 || 10 <= p < 12) ==> r[p] == ip[p])
      && (if isV6 then Get16(r, 4) == len - |ip| else Get16(r, 2) == len && Norm(WordSum(r)) == 65535)
  {
    hide Norm, WordSum, SealIpv4;
    if isV6 {
      LowDifference(len, |ip|);
    } else {
      var sized := Put16(ip, 2, Low16(len));
      SealIpv4Verifies(sized);
      SealIpv4Keeps(sized);
    }
  }

  lemma LowDifference(a: nat, b: nat)
    requires b <= a <= MAX_UINT16
    ensures Low16(Low16(a) - Low16(b)) == a - b
  {
  }

  lemma AccountTransportFields(t: seq<byte>, item: GroItem, pseudo: nat)
    requires CsumOffset(item) + 2 <= |t| <= MAX_UINT16
    ensures
      var r := AccountTransport(t, item, pseudo);
      && (forall p :: 0 <= p < |t| && !(if item.TcpItem? then 16 <= p < 18 else 4 <= p < 8) ==> r[p] == t[p])
      && Get16(r, CsumOffset(item)) == Norm(pseudo)
      && (item.UdpItem? ==> Get16(r, 4) == |t|)
  {
    NormOf(pseudo);
    hide Norm;
    if item.UdpItem? {
      Put16Keeps(Put16(t, 4, Low16(|t|)), 6, Norm(pseudo), 4);
    }
  }

  /** A coalesced packet of at most 65535 bytes, before accounting. */
  ghost predicate Accountable(item: GroItem, pkt: seq<byte>) {
    && (item.TcpItem? <==> item.key.TcpKey?)
    && item.iphLen == MinIpHeader(item.key.isV6)
    && (item.TcpItem? ==> 20 <= item.tcphLen <= 60)
    && item.HeaderLen() < |pkt| <= MAX_UINT16
    && 0 < item.gsoSize <= MAX_UINT16
  }

  function AccountPseudo(item: GroItem, pkt: seq<byte>): nat
    requires |pkt| >= MinIpHeader(item.key.isV6) && |pkt| >= item.iphLen
  {
    PacketPseudo(pkt, item.Protocol(), item.key.isV6, |pkt| - item.iphLen)
  }

  lemma AccountParts(item: GroItem, pkt: seq<byte>)
    requires Accountable(item, pkt)
    ensures AccountPacket(item, pkt)[..item.iphLen] == AccountIp(pkt[..item.iphLen], |pkt|, item.key.isV6)
    ensures AccountPacket(item, pkt)[item.iphLen..]
         == AccountTransport(pkt[item.iphLen..], item, AccountPseudo(item, pkt))
  {
    hide AccountIp, AccountTransport, PacketPseudo;
  }

  /** What accounting keeps of a packet. */
  lemma AccountKeeps(item: GroItem, pkt: seq<byte>)
    requires Accountable(item, pkt)
    ensures forall p :: 0 <= p < |pkt| && !Accounted(p, item) ==> AccountPacket(item, pkt)[p] == pkt[p]
    ensures AccountPacket(item, pkt)[item.HeaderLen()..] == pkt[item.HeaderLen()..]
  {
    hide AccountPacket, AccountIp, AccountTransport, AccountPseudo, Norm, WordSum, Get16, Put16;
    var iph := item.iphLen;
    AccountParts(item, pkt);
    AccountIpFields(pkt[..iph], |pkt|, item.key.isV6);
    AccountTransportFields(pkt[iph..], item, AccountPseudo(item, pkt));
    var a := AccountPacket(item, pkt);
    forall p | 0 <= p < |pkt| && !Accounted(p, item)
      ensures a[p] == pkt[p]
    {
      if p < iph {
        assert a[p] == a[..iph][p] && pkt[p] == pkt[..iph][p];
      } else {
        assert a[p] == a[iph..][p - iph] && pkt[p] == pkt[iph..][p - iph];
      }
    }
    SameTail(a, pkt, item.HeaderLen());
  }

  lemma SameTail(a: seq<byte>, b: seq<byte>, h: nat)
    requires h <= |a| == |b| && forall p :: h <= p < |a| ==> a[p] == b[p]
    ensures a[h..] == b[h..]
  {
  }

  /** What it writes: exact lengths, an IPv4 header that verifies, and the pseudo-header sum. */
  lemma AccountWrites(item: GroItem, pkt: seq<byte>)
    requires Accountable(item, pkt)
    ensures
      var a := AccountPacket(item, pkt);
      && (!item.key.isV6 ==> Norm(WordSum(a[..item.iphLen])) == 65535)
      && LengthFieldOk(a, item.key.isV6)
      && Get16(a, item.iphLen + CsumOffset(item)) == Norm(AccountPseudo(item, pkt))
      && (item.UdpItem? ==> Get16(a, item.iphLen + 4) == |pkt| - item.iphLen)
  {
    var iph := item.iphLen;
    AccountParts(item, pkt);
    AccountIpFields(pkt[..iph], |pkt|, item.key.isV6);
    AccountTransportFields(pkt[iph..], item, AccountPseudo(item, pkt));
    hide AccountPacket, AccountIp, AccountTransport, AccountPseudo, Norm, WordSum;
    var a := AccountPacket(item, pkt);
    GetWindow(a, 0, iph, 2);
    GetWindow(a, 0, iph, 4);
    GetSuffix(a, iph, 4);
    GetSuffix(a, iph, CsumOffset(item));
    hide Get16;
  }

  /**
   The length written is that of the packet exactly when the packet is no longer
   than its 16-bit field can say; a longer one, which only a backing array of more
   than 64 KiB could hold, would be written with its length truncated.
   */
  lemma AccountLengthExact(item: GroItem, pkt: seq<byte>)
    requires item.iphLen == MinIpHeader(item.key.isV6) && |pkt| >= item.iphLen + CsumOffset(item) + 2
    ensures LengthFieldOk(AccountPacket(item, pkt), item.key.isV6)
      <==> |pkt| <= MAX_UINT16 + if item.key.isV6 then 40 else 0
  {
    hide AccountTransport, PacketPseudo, SealIpv4;
    var ip, a := AccountIp(pkt[..item.iphLen], |pkt|, item.key.isV6), AccountPacket(item, pkt);
    assert forall p :: 0 <= p < item.iphLen ==> a[p] == ip[p];
    if item.key.isV6 {
      LowDifferenceExact(|pkt|);
    } else {
      SealIpv4Keeps(Put16(pkt[..item.iphLen], 2, Low16(|pkt|)));
    }
    hide AccountPacket, AccountIp;
  }

  lemma LowDifferenceExact(len: nat)
    requires len >= 40
    ensures Low16(Low16(len) - Low16(40)) == (len - 40) % TWO16
  {
  }

  /**
   A partial checksum completes correctly: gsoNoneChecksum, run at the position
   that the emitted header names, leaves a packet that the receiver accepts.
   */
  lemma PartialChecksumCompletes(item: GroItem, pkt: seq<byte>)
    requires Accountable(item, pkt)
    ensures
      var a := AccountPacket(item, pkt);
      var h := HeaderFor(item);
      && (!item.key.isV6 ==> Norm(WordSum(a[..item.iphLen])) == 65535)
      && NeedsCsum(h) && h.csumStart as int + h.csumOffset as int + 2 <= |a|
      && ChecksumOk(NoneChecksum(a, h.csumStart, h.csumOffset), if item.key.isV6 then 40 else 20,
                    if item.TcpItem? then 6 else 17, item.key.isV6)
  {
    hide AccountPacket, Norm, WordSum, PseudoSum, NoneChecksum, AccountPseudo, Accounted, LengthFieldOk, ChecksumOk,
         Put16;
    AccountWrites(item, pkt);
    CompletedPacket(item, pkt);
  }

  lemma CompletedPacket(item: GroItem, pkt: seq<byte>)
    requires Accountable(item, pkt)
    ensures CsumOffset(item) + 2 <= |pkt| - item.iphLen
    ensures ChecksumOk(NoneChecksum(AccountPacket(item, pkt), item.iphLen, CsumOffset(item)), item.iphLen,
                       item.Protocol(), item.key.isV6)
  {
    hide AccountPacket, Norm, WordSum, PseudoSum, NoneChecksum, AccountPseudo, LengthFieldOk, ChecksumOk, Put16;
    AccountWrites(item, pkt);
    AccountKeeps(item, pkt);
    var a := AccountPacket(item, pkt);
    var iph, at := item.iphLen, CsumOffset(item);
    NoneChecksumVerifies(a, iph, at);
    NoneChecksumKeeps(a, iph, at);
    CompletedSum(NoneChecksum(a, iph, at), pkt, item, at);
  }

  lemma CompletedSum(done: seq<byte>, pkt: seq<byte>, item: GroItem, at: nat)
    requires Accountable(item, pkt) && |done| == |pkt|
    requires forall p :: 0 <= p < item.iphLen && !Accounted(p, item) ==> done[p] == pkt[p]
    requires Norm(Norm(AccountPseudo(item, pkt)) + WordSum(done[item.iphLen..])) == 65535
    ensures ChecksumOk(done, item.iphLen, item.Protocol(), item.key.isV6)
  {
    hide Norm, WordSum, PseudoSum;
    assert SrcAddr(done, item.key.isV6) == SrcAddr(pkt, item.key.isV6);
    assert DstAddr(done, item.key.isV6) == DstAddr(pkt, item.key.isV6);
    NormAbsorbs(AccountPseudo(item, pkt), WordSum(done[item.iphLen..]));
  }

  lemma NoneChecksumKeeps(pkt: seq<byte>, csumStart: nat, csumOffset: nat)
    requires csumStart + csumOffset + 2 <= |pkt|
    ensures forall p :: 0 <= p < csumStart ==> NoneChecksum(pkt, csumStart, csumOffset)[p] == pkt[p]
  {
    hide SealTransport;
  }

  /** The frame written for a coalesced item: its virtio header, then the accounted packet. */
  lemma FrameParts(e: Endian, item: GroItem, bytes: seq<byte>, offset: nat)
    requires HDR_LEN <= offset <= |bytes| && Accountable(item, bytes[offset..]) && item.numMerged > 0
    ensures
      var frame := AccountBytes(e, item, bytes, offset)[offset - HDR_LEN..];
      && |frame| >= HDR_LEN
      && Decode(e, frame) == HeaderFor(item)
      && frame[HDR_LEN..] == AccountPacket(item, bytes[offset..])
  {
    hide AccountPacket, Encode;
    var a := AccountPacket(item, bytes[offset..]);
    var header := Encode(e, HeaderFor(item));
    var frame := AccountBytes(e, item, bytes, offset)[offset - HDR_LEN..];
    assert frame == header + a;
    DecodeEncode(e, HeaderFor(item), a);
  }

  /**
   The frame of a coalesced item, byte for byte: a virtio header that names the
   segmentation type of its protocol and version, the lengths of its headers and
   segments, and where its checksum is; and in the checksum field the sum of the
   pseudo-header's bytes, for the other side to complete.
   */
  lemma EmittedFrame(e: Endian, item: GroItem, bytes: seq<byte>, offset: nat)
    requires HDR_LEN <= offset <= |bytes| && Accountable(item, bytes[offset..]) && item.numMerged > 0
    ensures
      var b := AccountBytes(e, item, bytes, offset)[offset - 10..];
      var iph, at := if item.key.isV6 then 40 else 20, if item.TcpItem? then 16 else 6;
      && |b| >= 10 + iph + at + 2
      && b[0] == 1 && b[1] == (if item.UdpItem? then 5 else if item.key.isV6 then 4 else 1)
      && Word(e, b[2], b[3]) == iph + (if item.TcpItem? then item.tcphLen else 8)
      && Word(e, b[4], b[5]) == item.gsoSize
      && Word(e, b[6], b[7]) == iph && Word(e, b[8], b[9]) == at
      && Get16(b[10..], iph + at) == FoldAll(WordSum(PseudoHeaderOf(bytes[offset..], item.TcpItem?, item.key.isV6)))
      && (!item.key.isV6 ==> Get16(b[10..], 10) < 0xFFFF)
  {
    hide AccountPacket, Encode, AccountBytes, Decode, FoldAll, WordSum, PseudoHeaderOf, Get16;
    var pkt := bytes[offset..];
    FrameParts(e, item, bytes, offset);
    FrameBytes(e, item, bytes, offset);
    Layout(e, HeaderFor(item));
    AccountWrites(item, pkt);
    AccountPseudoBytes(item, pkt);
    if !item.key.isV6 {
      AccountedHeaderSmall(item, pkt);
    }
  }

  lemma FrameBytes(e: Endian, item: GroItem, bytes: seq<byte>, offset: nat)
    requires HDR_LEN <= offset <= |bytes| && Accountable(item, bytes[offset..]) && item.numMerged > 0
    ensures AccountBytes(e, item, bytes, offset)[offset - HDR_LEN..]
         == Encode(e, HeaderFor(item)) + AccountPacket(item, bytes[offset..])
  {
    hide AccountPacket, Encode;
  }

  /** The bytes of the pseudo-header that a packet is summed with. */
  function PseudoHeaderOf(pkt: seq<byte>, tcp: bool, isV6: bool): seq<byte>
    requires (if isV6 then 40 else 20) <= |pkt| <= MAX_UINT16
  {
    var protocol := if tcp then 6 else 17;
    if isV6 then
      pkt[8..24] + pkt[24..40] + [0, 0, (|pkt| - 40) / 256, (|pkt| - 40) % 256] + [0, 0, 0, protocol]
    else
      pkt[12..16] + pkt[16..20] + [0, protocol] + [(|pkt| - 20) / 256, (|pkt| - 20) % 256]
  }

  lemma AccountPseudoBytes(item: GroItem, pkt: seq<byte>)
    requires Accountable(item, pkt)
    ensures Norm(AccountPseudo(item, pkt)) == FoldAll(WordSum(PseudoHeaderOf(pkt, item.TcpItem?, item.key.isV6)))
  {
    hide Norm, FoldAll, WordSum;
    var isV6 := item.key.isV6;
    PseudoHeaderSum(SrcAddr(pkt, isV6), DstAddr(pkt, isV6), item.Protocol(), |pkt| - item.iphLen, isV6);
    FoldAllIsNorm(WordSum(PseudoHeaderOf(pkt, item.TcpItem?, isV6)));
  }

  /** The recomputed IPv4 checksum is never all ones. */
  lemma AccountedHeaderSmall(item: GroItem, pkt: seq<byte>)
    requires Accountable(item, pkt) && !item.key.isV6
    ensures Get16(AccountPacket(item, pkt), 10) < 0xFFFF
  {
    hide AccountTransport, SealIpv4, Norm, WordSum, PacketPseudo;
    AccountParts(item, pkt);
    SealIpv4Small(Put16(pkt[..20], 2, |pkt|));
    GetWindow(AccountPacket(item, pkt), 0, 20, 10);
    hide AccountPacket, Get16;
  }

  /** A frame with the empty virtio header, as written for every packet that is not coalesced. */
  lemma PlainParts(e: Endian, bytes: seq<byte>, offset: nat)
    requires HDR_LEN <= offset <= |bytes|
    ensures
      var frame := WithHeader(bytes, offset, Encode(e, ZERO))[offset - HDR_LEN..];
      |frame| >= HDR_LEN && Decode(e, frame) == ZERO && frame[HDR_LEN..] == bytes[offset..]
  {
    hide Encode;
    var frame := WithHeader(bytes, offset, Encode(e, ZERO))[offset - HDR_LEN..];
    assert frame == Encode(e, ZERO) + bytes[offset..];
    DecodeEncode(e, ZERO, bytes[offset..]);
  }

  /** A packet that was not coalesced is read back as the single packet it was. */
  lemma PlainRoundTrip(e: Endian, bytes: seq<byte>, offset: nat, outLens: seq<nat>, sizes: nat, outOffset: int)
    requires HDR_LEN <= offset <= |bytes|
    requires 0 < |outLens| <= sizes && 0 <= outOffset && outOffset + |bytes| - offset <= outLens[0]
    ensures Read(e, WithHeader(bytes, offset, Encode(e, ZERO))[offset - HDR_LEN..], outLens, sizes, outOffset)
         == Delivered([bytes[offset..]])
  {
    hide WithHeader, Encode, Decode, ParseHeaderLen, SplitFrame;
    PlainParts(e, bytes, offset);
  }

  /** handleVirtioRead finds in the packet the header length that the item recorded. */
  lemma HeaderParses(item: GroItem, pkt: seq<byte>)
    requires Accountable(item, pkt)
    requires pkt[0] / 16 == if item.key.isV6 then 6 else 4
    requires item.TcpItem? ==> (pkt[item.iphLen + 12] as int / 16) * 4 == item.tcphLen
    ensures ParseHeaderLen(pkt, HeaderFor(item)) == Ok(HeaderFor(item))
  {
  }

  /** The checks of validateGSOSplit pass, given enough output buffers. */
  lemma FrameValid(item: GroItem, pkt: seq<byte>, outputs: nat, sizes: nat)
    requires Accountable(item, pkt)
    requires pkt[0] / 16 == (if item.key.isV6 then 6 else 4) && (!item.key.isV6 ==> pkt[0] == 69)
    requires item.TcpItem? ==> (pkt[item.iphLen + 12] as int / 16) * 4 == item.tcphLen
    requires |Split(pkt[item.HeaderLen()..], item.gsoSize)| <= outputs <= sizes
    ensures ValidateFrame(pkt, HeaderFor(item), outputs, sizes, item.key.isV6)
         == Result.Ok(|Split(pkt[item.HeaderLen()..], item.gsoSize)|)
  {
    hide Split;
    SplitCount(pkt[item.HeaderLen()..], item.gsoSize);
    NonEmptySplit(pkt[item.HeaderLen()..], item.gsoSize);
  }

  /** Every segment has room and fits its length fields. */
  lemma {:induction false} SegmentsValid(h: Header, payload: seq<byte>, i: nat, outLens: seq<nat>, offset: int,
                                         isV6: bool)
    requires h.gsoSize > 0 && h.csumStart <= h.hdrLen && offset >= 0
    requires |Split(payload, h.gsoSize)| <= |outLens| && i <= |Split(payload, h.gsoSize)|
    requires forall j :: 0 <= j < |Split(payload, h.gsoSize)| ==>
      offset + h.hdrLen + |Split(payload, h.gsoSize)[j]| <= outLens[j]
    requires h.hdrLen + |payload| <= MAX_UINT16
    ensures ValidateSegments(h, |Split(payload, h.gsoSize)|, i, |payload| - i * h.gsoSize, outLens, offset, isV6).Pass?
    decreases |Split(payload, h.gsoSize)| - i
  {
    var parts := Split(payload, h.gsoSize);
    if i < |parts| {
      SplitAt(payload, h.gsoSize, i);
      assert Min(h.gsoSize, |payload| - i * h.gsoSize) == |parts[i]|;
      if i + 1 < |parts| {
        assert (i + 1) * h.gsoSize == i * h.gsoSize + h.gsoSize;
      }
      SegmentsValid(h, payload, i + 1, outLens, offset, isV6);
    }
  }

  /**
   Packet s is packet o again: same length and payload, and the same bytes in
   every header position that is compared before a merge; the same sequence number
   for TCP; length fields that are right, and checksums that verify.
   */
  ghost predicate ComesBack(s: seq<byte>, o: seq<byte>, key: FlowKey, headerLen: nat) {
    var iph := if key.isV6 then 40 else 20;
    && HeadersAgree(s, o, key.isV6, key.TcpKey?, headerLen)
    && |s| == |o| && s[headerLen..] == o[headerLen..]
    && LengthFieldOk(s, key.isV6) && LengthFieldOk(o, key.isV6)
    && ChecksumOk(s, iph, if key.TcpKey? then 6 else 17, key.isV6)
    && (!key.isV6 ==> Norm(WordSum(s[..iph])) == 65535)
    && (if key.TcpKey? then Get32(s, iph + 4) == Get32(o, iph + 4) else Get16(s, iph + 4) == |s| - iph)
  }

  /** In particular addresses, ports and for TCP the acknowledgement number and options are the packet's own. */
  lemma FlowComesBack(s: seq<byte>, o: seq<byte>, key: FlowKey, headerLen: nat)
    requires ComesBack(s, o, key, headerLen)
    ensures
      var iph := if key.isV6 then 40 else 20;
      && |s| == |o| >= headerLen >= iph + (if key.TcpKey? then 20 else 8)
      && (if key.isV6 then s[8..24] == o[8..24] && s[24..40] == o[24..40]
          else s[12..16] == o[12..16] && s[16..20] == o[16..20])
      && Get16(s, iph) == Get16(o, iph) && Get16(s, iph + 2) == Get16(o, iph + 2)
      && (key.TcpKey? ==>
           Get32(s, iph + 8) == Get32(o, iph + 8) && s[iph + 20..headerLen] == o[iph + 20..headerLen])
  {
    hide ChecksumOk, LengthFieldOk, Norm, WordSum;
  }

  /** The facts about a coalesced item that reading it back relies on. */
  lemma ItemFacts(item: GroItem, v: View, os: seq<nat>, inp: seq<View>, offset: nat)
    requires ItemInv(item, v, os, inp, offset)
    ensures offset <= |v.bytes| && Accountable(item, Pkt(v, offset))
    ensures var b := Pkt(v, offset);
      && b[0] / 16 == (if item.key.isV6 then 6 else 4) && (!item.key.isV6 ==> b[0] == 69)
      && (item.TcpItem? ==> (b[item.iphLen + 12] as int / 16) * 4 == item.tcphLen)
      && (item.TcpItem? ==> Get32(b, item.iphLen + 4) == item.sentSeq)
      && |Split(b[item.HeaderLen()..], item.gsoSize)| == |os| > 0
  {
    hide ItemInv, ItemShapes, ItemChecked, ItemSequence, Admit, Coalescing.PayloadsOf, Split, ShapeOf, Get32;
    InvParts(item, v, os, inp, offset);
    BasicsOf(item, v, os, inp, offset);
    var b, front := Pkt(v, offset), Pkt(inp[os[0]], offset);
    assert Member(inp, offset, item.key, item.HeaderLen(), os[0]);
    MemberShape(front);
    var h := item.HeaderLen();
    assert b[h..] == v.bytes[offset + h..];
    assert forall q :: 0 <= q < h && !(item.TcpItem? && q == item.iphLen + 13) ==> b[q] == front[q];
    if item.TcpItem? {
      SameSequence(b, front, item.iphLen);
      FirstSequence(item, os, inp, offset);
    }
  }

  lemma SameSequence(a: seq<byte>, b: seq<byte>, iph: nat)
    requires |a| >= iph + 8 && |b| >= iph + 8 && forall q :: iph + 4 <= q < iph + 8 ==> a[q] == b[q]
    ensures Get32(a, iph + 4) == Get32(b, iph + 4)
  {
  }

  /** The item starts where its first packet does. */
  lemma FirstSequence(item: GroItem, os: seq<nat>, inp: seq<View>, offset: nat)
    requires item.TcpItem? && ItemSequence(item, os, inp, offset) && item.sentSeq < TWO32
    ensures |os| > 0 && Member(inp, offset, item.key, item.HeaderLen(), os[0])
    ensures InfoOf(inp, offset, os[0]).seqNo == item.sentSeq
  {
    hide Admit;
    assert InfoOf(inp, offset, os[0]).seqNo == (item.sentSeq + 0 * item.gsoSize) % TWO32;
  }

  /** The outcome is the segments of a, whose payloads are parts. */
  ghost predicate SplitsTo(outcome: Outcome, a: seq<byte>, h: Header, isV6: bool, parts: seq<seq<byte>>) {
    && outcome.Delivered? && h.hdrLen <= |a| && h.gsoSize > 0
    && Chunks(a, h) == parts && |outcome.packets| == |parts|
    && forall m :: 0 <= m < |parts| ==> HasSegment(a, h, isV6, m) && outcome.packets[m] == Segment(a, h, isV6, m)
  }

  lemma AcceptedSplitsTo(a: seq<byte>, h: Header, outLens: seq<nat>, sizes: nat, outOffset: int, isV6: bool)
    requires ValidateSplit(a, h, outLens, sizes, outOffset, isV6).Ok?
    ensures h.hdrLen <= |a| && h.gsoSize > 0
    ensures SplitsTo(SplitFrame(a, h, outLens, sizes, outOffset, isV6), a, h, isV6, Chunks(a, h))
  {
    hide ValidateSplit, Segment, Split, LengthsFit;
    AcceptedSplit(a, h, outLens, sizes, outOffset, isV6);
  }

  /** A frame with a segmentation type in its header is split. */
  lemma ReadIsSplit(e: Endian, frame: seq<byte>, outLens: seq<nat>, sizes: nat, outOffset: int)
    requires |frame| > HDR_LEN
    requires var h := Decode(e, frame); h.gsoType != GSO_NONE && ParseHeaderLen(frame[HDR_LEN..], h) == Ok(h)
    ensures Read(e, frame, outLens, sizes, outOffset)
         == SplitFrame(frame[HDR_LEN..], Decode(e, frame), outLens, sizes, outOffset, frame[HDR_LEN..][0] / 16 == 6)
  {
    hide Decode, SplitFrame, ParseHeaderLen, ReadPlain;
  }

  /** Accounting leaves the bytes that reading looks at, and the payload. */
  lemma AccountedFront(item: GroItem, b: seq<byte>)
    requires Accountable(item, b)
    ensures
      var a := AccountPacket(item, b);
      && Accountable(item, a) && a[0] == b[0]
      && (item.TcpItem? ==> a[item.iphLen + 12] == b[item.iphLen + 12])
      && a[item.HeaderLen()..] == b[item.HeaderLen()..]
  {
    hide AccountPacket;
    AccountKeeps(item, b);
  }

  lemma HeaderExact(item: GroItem, b: seq<byte>)
    requires Accountable(item, b)
    ensures
      var h := HeaderFor(item);
      && h.hdrLen == item.HeaderLen() && h.gsoSize == item.gsoSize > 0 && h.csumStart == item.iphLen
      && h.gsoType != GSO_NONE
  {
  }

  /** With room for them, reading the frame delivers the segments of the accounted packet. */
  lemma ReadSplits(e: Endian, item: GroItem, bytes: seq<byte>, offset: nat, outLens: seq<nat>, sizes: nat,
                   outOffset: int)
    requires HDR_LEN <= offset <= |bytes| && Accountable(item, bytes[offset..]) && item.numMerged > 0
    requires var b := bytes[offset..];
      && b[0] / 16 == (if item.key.isV6 then 6 else 4) && (!item.key.isV6 ==> b[0] == 69)
      && (item.TcpItem? ==> (b[item.iphLen + 12] as int / 16) * 4 == item.tcphLen)
    requires var parts := Split(bytes[offset + item.HeaderLen()..], item.gsoSize);
      && |parts| <= |outLens| <= sizes && 0 <= outOffset
      && forall m :: 0 <= m < |parts| ==> outOffset + item.HeaderLen() + |parts[m]| <= outLens[m]
    ensures SplitsTo(Read(e, AccountBytes(e, item, bytes, offset)[offset - HDR_LEN..], outLens, sizes, outOffset),
                     AccountPacket(item, bytes[offset..]), HeaderFor(item), item.key.isV6,
                     Split(bytes[offset + item.HeaderLen()..], item.gsoSize))
  {
    hide AccountPacket, AccountBytes, Decode, Split, Read, SplitFrame, ParseHeaderLen, ValidateFrame, HeaderFor,
         SplitsTo, Accountable;
    var b := bytes[offset..];
    AccountableSizes(item, b);
    var a := AccountPacket(item, b);
    var h := HeaderFor(item);
    HeaderExact(item, b);
    FrameParts(e, item, bytes, offset);
    AccountedFront(item, b);
    assert b[item.HeaderLen()..] == bytes[offset + item.HeaderLen()..];
    HeaderParses(item, a);
    ReadIsSplit(e, AccountBytes(e, item, bytes, offset)[offset - HDR_LEN..], outLens, sizes, outOffset);
    FrameValid(item, a, |outLens|, sizes);
    SegmentsValid(h, Payload(a, h), 0, outLens, outOffset, item.key.isV6);
    assert ValidateSplit(a, h, outLens, sizes, outOffset, item.key.isV6).Ok?;
    AcceptedSplitsTo(a, h, outLens, sizes, outOffset, item.key.isV6);
  }

  lemma AccountableSizes(item: GroItem, b: seq<byte>)
    requires Accountable(item, b)
    ensures item.iphLen == MinIpHeader(item.key.isV6)
    ensures item.iphLen + CsumOffset(item) + 2 <= item.HeaderLen() < |b| <= MAX_UINT16
    ensures 0 < item.gsoSize <= MAX_UINT16 && item.iphLen <= item.HeaderLen()
  {
  }

  /** The header bytes that splitting rewrites. */
  predicate Rewritten(p: nat, isV6: bool, tcp: bool) {
    if p < MinIpHeader(isV6) then IpRewritten(p, isV6)
    else TransportRewritten(p - MinIpHeader(isV6), tcp)
  }

  /** Neither accounting nor splitting touches a byte of the shape. */
  lemma ShapeSurvives(a: seq<byte>, b: seq<byte>, isV6: bool, tcp: bool, h: nat)
    requires |a| >= h && |b| >= h && h >= MinIpHeader(isV6) + if tcp then 20 else 8
    requires forall p :: 0 <= p < h && !Rewritten(p, isV6, tcp) ==> a[p] == b[p]
    ensures ShapeOf(a, isV6, tcp, h) == ShapeOf(b, isV6, tcp, h)
  {
    assert SrcAddr(a, isV6) == SrcAddr(b, isV6);
    assert DstAddr(a, isV6) == DstAddr(b, isV6);
    if tcp {
      assert a[MinIpHeader(isV6) + 20..h] == b[MinIpHeader(isV6) + 20..h];
    }
  }

  lemma AccountedShape(item: GroItem, b: seq<byte>)
    requires Accountable(item, b)
    ensures ShapeOf(AccountPacket(item, b), item.key.isV6, item.TcpItem?, item.HeaderLen())
         == ShapeOf(b, item.key.isV6, item.TcpItem?, item.HeaderLen())
  {
    hide AccountPacket, ShapeOf;
    AccountKeeps(item, b);
    ShapeSurvives(AccountPacket(item, b), b, item.key.isV6, item.TcpItem?, item.HeaderLen());
  }

  lemma SegmentShape(a: seq<byte>, h: Header, isV6: bool, m: nat)
    requires HasSegment(a, h, isV6, m) && h.csumStart == MinIpHeader(isV6)
    ensures ShapeOf(Segment(a, h, isV6, m), isV6, IsTcpGso(h), h.hdrLen) == ShapeOf(a, isV6, IsTcpGso(h), h.hdrLen)
  {
    hide Segment, ShapeOf, Chunks, LengthsFit;
    SegmentFields(a, h, isV6, m);
    ShapeSurvives(Segment(a, h, isV6, m), a, isV6, IsTcpGso(h), h.hdrLen);
  }

  /** What segment m of n, cut from an item whose packet is b, is like; part is its share of the payload. */
  ghost predicate SegmentLike(item: GroItem, s: seq<byte>, b: seq<byte>, part: seq<byte>, m: nat, n: nat)
    requires Accountable(item, b)
  {
    && |s| == item.HeaderLen() + |part|
    && s[item.HeaderLen()..] == part
    && ShapeOf(s, item.key.isV6, item.TcpItem?, item.HeaderLen())
          == ShapeOf(b, item.key.isV6, item.TcpItem?, item.HeaderLen())
    && LengthFieldOk(s, item.key.isV6)
    && ChecksumOk(s, item.iphLen, item.Protocol(), item.key.isV6)
    && (!item.key.isV6 ==> Norm(WordSum(s[..item.iphLen])) == 65535)
    && (!item.key.isV6 ==> Get16(s, 4) == (Get16(b, 4) + m) % TWO16)
    && (item.TcpItem? ==> Get32(s, item.iphLen + 4) == (Get32(b, item.iphLen + 4) + m * item.gsoSize) % TWO32)
    && (item.TcpItem? ==>
      s[item.iphLen + 13] == if m + 1 == n then b[item.iphLen + 13] else ClearFinPsh(b[item.iphLen + 13]))
    && (item.UdpItem? ==> Get16(s, item.iphLen + 4) == |s| - item.iphLen)
  }

  lemma SegmentOfItem(item: GroItem, b: seq<byte>, m: nat)
    requires Accountable(item, b)
    requires HasSegment(AccountPacket(item, b), HeaderFor(item), item.key.isV6, m)
    ensures
      var a, h := AccountPacket(item, b), HeaderFor(item);
      h.hdrLen <= |a| && SegmentLike(item, Segment(a, h, item.key.isV6, m), b, Chunks(a, h)[m], m, |Chunks(a, h)|)
  {
    hide AccountPacket, Segment, Chunks, ShapeOf, Norm, WordSum, PseudoSum, LengthsFit, ClearFinPsh;
    var a, h := AccountPacket(item, b), HeaderFor(item);
    AccountKeeps(item, b);
    AccountedShape(item, b);
    SegmentFields(a, h, item.key.isV6, m);
    SegmentVerifies(a, h, item.key.isV6, m);
    SegmentShape(a, h, item.key.isV6, m);
    assert IsTcpGso(h) <==> item.TcpItem?;
    if item.TcpItem? {
      assert Get32(a, item.iphLen + 4) == Get32(b, item.iphLen + 4);
    }
    assert !item.key.isV6 ==> Get16(a, 4) == Get16(b, 4);
  }

  /** What the m-th of n packets of an item whose packet is b was like when it came in. */
  ghost predicate OriginalLike(item: GroItem, o: seq<byte>, b: seq<byte>, part: seq<byte>, m: nat, n: nat, last: bool)
    requires Accountable(item, b)
  {
    && |o| == item.HeaderLen() + |part|
    && o[item.HeaderLen()..] == part && LengthFieldOk(o, item.key.isV6)
    && ShapeOf(o, item.key.isV6, item.TcpItem?, item.HeaderLen())
          == ShapeOf(b, item.key.isV6, item.TcpItem?, item.HeaderLen())
    && (item.TcpItem? ==> Get32(o, item.iphLen + 4) == (Get32(b, item.iphLen + 4) + m * item.gsoSize) % TWO32)
    && (item.TcpItem? ==> o[item.iphLen + 13] == if m == n - 1 && item.pshSet then FLAG_ACK_PSH else FLAG_ACK)
    && (item.TcpItem? ==> b[item.iphLen + 13] == if item.pshSet && last then FLAG_ACK_PSH else FLAG_ACK)
  }

  lemma OriginalOfItem(item: GroItem, v: View, os: seq<nat>, inp: seq<View>, offset: nat, m: nat)
    requires ItemInv(item, v, os, inp, offset) && m < |os|
    ensures offset + item.HeaderLen() <= |v.bytes| && item.gsoSize > 0 && Accountable(item, Pkt(v, offset))
    ensures Member(inp, offset, item.key, item.HeaderLen(), os[m])
    ensures
      var parts := Split(v.bytes[offset + item.HeaderLen()..], item.gsoSize);
      |parts| == |os| && OriginalLike(item, Pkt(inp[os[m]], offset), Pkt(v, offset), parts[m], m, |os|, ArrivedLast(os))
  {
    hide ShapeOf, Admit, Split, ItemInv, Get32, FLAG_ACK, FLAG_ACK_PSH;
    ItemFacts(item, v, os, inp, offset);
    OriginalPayload(item, v, os, inp, offset, m);
    OriginalHeader(item, v, os, inp, offset, m);
  }

  lemma OriginalPayload(item: GroItem, v: View, os: seq<nat>, inp: seq<View>, offset: nat, m: nat)
    requires ItemInv(item, v, os, inp, offset) && m < |os|
    ensures Member(inp, offset, item.key, item.HeaderLen(), os[m])
    ensures |Pkt(inp[os[m]], offset)| > item.HeaderLen() && offset + item.HeaderLen() <= |v.bytes| && item.gsoSize > 0
    ensures
      var parts := Split(v.bytes[offset + item.HeaderLen()..], item.gsoSize);
      |parts| == |os| && Pkt(inp[os[m]], offset)[item.HeaderLen()..] == parts[m]
  {
    hide Admit, Split, ItemChecked, ItemShapes, ItemHeader, ItemSequence;
    var o := Pkt(inp[os[m]], offset);
    assert Member(inp, offset, item.key, item.HeaderLen(), os[m]);
    AdmitFacts(o, true);
    assert Coalescing.PayloadsOf(inp, offset, item.key, item.HeaderLen(), os)[m] == o[item.HeaderLen()..];
  }

  lemma OriginalHeader(item: GroItem, v: View, os: seq<nat>, inp: seq<View>, offset: nat, m: nat)
    requires ItemInv(item, v, os, inp, offset) && m < |os|
    ensures Member(inp, offset, item.key, item.HeaderLen(), os[m])
    ensures offset + item.HeaderLen() <= |v.bytes| && Accountable(item, Pkt(v, offset))
    ensures
      var o, b := Pkt(inp[os[m]], offset), Pkt(v, offset);
      && |o| > item.HeaderLen() >= MinIpHeader(item.key.isV6) + (if item.TcpItem? then 20 else 8)
      && LengthFieldOk(o, item.key.isV6)
      && ShapeOf(o, item.key.isV6, item.TcpItem?, item.HeaderLen())
            == ShapeOf(b, item.key.isV6, item.TcpItem?, item.HeaderLen())
      && (item.TcpItem? ==> Get32(o, item.iphLen + 4) == (item.sentSeq + m * item.gsoSize) % TWO32)
      && (item.TcpItem? ==> o[item.iphLen + 13] == if m == |os| - 1 && item.pshSet then FLAG_ACK_PSH else FLAG_ACK)
      && (item.TcpItem? ==> b[item.iphLen + 13] == if item.pshSet && ArrivedLast(os) then FLAG_ACK_PSH else FLAG_ACK)
  {
    hide ShapeOf, Admit, ItemChecked, ItemPayloads, ArrivedLast;
    var o := Pkt(inp[os[m]], offset);
    assert Member(inp, offset, item.key, item.HeaderLen(), os[m]);
    MemberShape(o);
    AdmittedLength(o);
    AdmitFacts(o, true);
    assert OriginalShape(inp, offset, item.key, item.HeaderLen(), os[m]) == ItemShape(item, v, offset);
  }

  /** The header in front carries the first packet's IPv4 identification. */
  lemma FrontId(item: GroItem, v: View, os: seq<nat>, inp: seq<View>, offset: nat)
    requires ItemInv(item, v, os, inp, offset) && !item.key.isV6
    ensures Member(inp, offset, item.key, item.HeaderLen(), os[0])
    ensures offset + 20 <= |v.bytes| && offset + 20 <= |inp[os[0]].bytes|
    ensures Get16(Pkt(v, offset), 4) == Get16(Pkt(inp[os[0]], offset), 4)
  {
    hide ItemShapes, ItemPayloads, ItemSequence, ItemChecked, Admit;
    AdmitFacts(Pkt(inp[os[0]], offset), true);
    assert Pkt(v, offset)[4] == v.bytes[offset + 4] && Pkt(v, offset)[5] == v.bytes[offset + 5];
  }

  /** A segment and an original that match the same item are the same packet; the flags may differ only on the last. */
  lemma Matches(item: GroItem, s: seq<byte>, o: seq<byte>, b: seq<byte>, part: seq<byte>, m: nat, n: nat, last: bool)
    requires Accountable(item, b) && m < n
    requires SegmentLike(item, s, b, part, m, n) && OriginalLike(item, o, b, part, m, n, last)
    ensures ComesBack(s, o, item.key, item.HeaderLen())
    ensures |s| == |o| >= item.HeaderLen()
    ensures item.TcpItem? ==> var at := item.iphLen + 13; s[at] == if last then o[at] else FLAG_ACK
  {
    hide ShapeOf, Norm, WordSum, ChecksumOk, LengthFieldOk, Get16, Get32, ClearFinPsh;
    AckAlone();
    ShapeInBytes(s, o, item.key.isV6, item.TcpItem?, item.HeaderLen());
  }

  lemma AckAlone()
    ensures ClearFinPsh(FLAG_ACK) == ClearFinPsh(FLAG_ACK_PSH) == FLAG_ACK
  {
  }

  /** The packets delivered for a coalesced item. */
  ghost predicate ReadsBack(packets: seq<seq<byte>>, item: GroItem, os: seq<nat>, inp: seq<View>, offset: nat) {
    && |packets| == |os| == item.numMerged + 1
    && forall m :: 0 <= m < |os| ==> ReadsBackAt(packets[m], item, os, inp, offset, m)
  }

  /**
   Packet m of the item comes back. Its IPv4 identification counts up from the
   first packet's, and its TCP flags are its own, except that no packet has PSH
   when the last one in stream order was not also the last one to arrive.
   */
  ghost predicate ReadsBackAt(s: seq<byte>, item: GroItem, os: seq<nat>, inp: seq<View>, offset: nat, m: nat)
    requires m < |os|
  {
    && os[m] < |inp| && offset <= |inp[os[m]].bytes| && os[0] < |inp| && offset <= |inp[os[0]].bytes|
    && var o, first := Pkt(inp[os[m]], offset), Pkt(inp[os[0]], offset);
    var at := item.iphLen + 13;
    && ComesBack(s, o, item.key, item.HeaderLen())
    && (!item.key.isV6 ==> |first| >= 20 && |s| >= 20 && Get16(s, 4) == (Get16(first, 4) + m) % TWO16)
    && (item.TcpItem? ==> at < |s| == |o| && s[at] == if ArrivedLast(os) then o[at] else FLAG_ACK)
  }

  lemma SegmentComesBack(item: GroItem, v: View, os: seq<nat>, inp: seq<View>, offset: nat, m: nat)
    requires ItemInv(item, v, os, inp, offset) && m < |os|
    requires offset <= |v.bytes| && Accountable(item, Pkt(v, offset))
    requires HasSegment(AccountPacket(item, Pkt(v, offset)), HeaderFor(item), item.key.isV6, m)
    requires Chunks(AccountPacket(item, Pkt(v, offset)), HeaderFor(item))
         == Split(v.bytes[offset + item.HeaderLen()..], item.gsoSize)
    ensures ReadsBackAt(Segment(AccountPacket(item, Pkt(v, offset)), HeaderFor(item), item.key.isV6, m), item, os, inp,
                        offset, m)
  {
    hide AccountPacket, Segment, Chunks, ShapeOf, Norm, WordSum, ChecksumOk, LengthFieldOk, Admit, Split, HasSegment,
         Accountable, HeaderFor, ItemChecked, ItemShapes, ItemPayloads, ItemHeader, ItemSequence, SegmentLike,
         OriginalLike, ComesBack, ArrivedLast;
    var b := Pkt(v, offset);
    SegmentOfItem(item, b, m);
    OriginalOfItem(item, v, os, inp, offset, m);
    var s := Segment(AccountPacket(item, b), HeaderFor(item), item.key.isV6, m);
    var part := Split(v.bytes[offset + item.HeaderLen()..], item.gsoSize)[m];
    Matches(item, s, Pkt(inp[os[m]], offset), b, part, m, |os|, ArrivedLast(os));
    assert Member(inp, offset, item.key, item.HeaderLen(), os[0]);
    SegmentId(item, s, b, part, m, |os|);
    if !item.key.isV6 {
      FrontId(item, v, os, inp, offset);
    }
  }

  lemma SegmentId(item: GroItem, s: seq<byte>, b: seq<byte>, part: seq<byte>, m: nat, n: nat)
    requires Accountable(item, b) && SegmentLike(item, s, b, part, m, n)
    ensures !item.key.isV6 ==> |s| >= 20 && |b| >= 20 && Get16(s, 4) == (Get16(b, 4) + m) % TWO16
  {
  }

  /**
   Write, then read: a coalesced item's frame, read with enough room, delivers
   exactly the packets that went into it, in stream order.
   */
  lemma ItemRoundTrip(e: Endian, item: GroItem, v: View, os: seq<nat>, inp: seq<View>, offset: nat, outLens: seq<nat>,
                      sizes: nat, outOffset: int)
    requires ItemInv(item, v, os, inp, offset) && item.numMerged > 0 && HDR_LEN <= offset
    requires |os| <= |outLens| <= sizes && 0 <= outOffset
    requires forall m :: 0 <= m < |os| ==> os[m] < |inp| && outOffset + |inp[os[m]].bytes| - offset <= outLens[m]
    ensures offset + item.iphLen + CsumOffset(item) + 2 <= |v.bytes| && item.iphLen == MinIpHeader(item.key.isV6)
    ensures |AccountBytes(e, item, v.bytes, offset)| == |v.bytes|
    ensures AccountBytes(e, item, v.bytes, offset)[offset..] == AccountPacket(item, Pkt(v, offset))
    ensures
      var outcome := Read(e, AccountBytes(e, item, v.bytes, offset)[offset - HDR_LEN..], outLens, sizes, outOffset);
      outcome.Delivered? && ReadsBack(outcome.packets, item, os, inp, offset)
  {
    hide AccountPacket, AccountBytes, Read, Segment, Chunks, Admit, Split, HasSegment, HeaderFor, ItemChecked,
         ItemShapes, ItemPayloads, ItemHeader, ItemSequence, OriginalLike, ReadsBackAt, Member;
    ItemFacts(item, v, os, inp, offset);
    var b := Pkt(v, offset);
    var parts := Split(v.bytes[offset + item.HeaderLen()..], item.gsoSize);
    assert b[item.HeaderLen()..] == v.bytes[offset + item.HeaderLen()..];
    forall m | 0 <= m < |os|
      ensures outOffset + item.HeaderLen() + |parts[m]| <= outLens[m]
    {
      PartLength(item, v, os, inp, offset, m);
    }
    ReadSplits(e, item, v.bytes, offset, outLens, sizes, outOffset);
    FrameParts(e, item, v.bytes, offset);
    SuffixOf(AccountBytes(e, item, v.bytes, offset), offset);
    forall m | 0 <= m < |os|
      ensures ReadsBackAt(Segment(AccountPacket(item, b), HeaderFor(item), item.key.isV6, m), item, os, inp, offset, m)
    {
      SegmentComesBack(item, v, os, inp, offset, m);
    }
  }

  lemma SuffixOf(bytes: seq<byte>, offset: nat)
    requires HDR_LEN <= offset <= |bytes|
    ensures bytes[offset - HDR_LEN..][HDR_LEN..] == bytes[offset..]
  {
  }

  lemma PartLength(item: GroItem, v: View, os: seq<nat>, inp: seq<View>, offset: nat, m: nat)
    requires ItemInv(item, v, os, inp, offset) && m < |os|
    ensures offset + item.HeaderLen() <= |v.bytes| && item.gsoSize > 0
    ensures
      var parts := Split(v.bytes[offset + item.HeaderLen()..], item.gsoSize);
      |parts| == |os| && os[m] < |inp| && |inp[os[m]].bytes| - offset == item.HeaderLen() + |parts[m]|
  {
    hide Split, ShapeOf, ItemInv;
    OriginalOfItem(item, v, os, inp, offset, m);
  }
}
