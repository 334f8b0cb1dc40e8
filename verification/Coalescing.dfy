/**
 What an item of a flow table stands for: one header followed by the payloads
 of the packets coalesced so far, and why coalescing one more keeps that.
 */
module Coalescing {
  import opened Bytes
  import opened Segments
  import opened Packets
  import opened Gro

  /**
   The header fields that all packets of an item agree on: version and header
   length, traffic class, IPv4 fragment bits, hop limit, protocol, addresses and
   ports, and for TCP the acknowledgement number, header length and options.
   */
  datatype Shape = Shape(first: byte, traffic: byte, fragment: nat, hops: byte, protocol: byte, key: FlowKey,
                         dataOffset: byte, options: seq<byte>)

  function ShapeOf(pkt: seq<byte>, isV6: bool, tcp: bool, headerLen: nat): Shape
    requires |pkt| >= headerLen >= MinIpHeader(isV6) + if tcp then 20 else 8
  {
    var iph := MinIpHeader(isV6);
    Shape(
      pkt[0],
      if isV6 then pkt[1] / 16 else pkt[1],
      if isV6 then 0 else Get16(pkt, 6),
      if isV6 then pkt[7] else pkt[8],
      if isV6 then pkt[6] else pkt[9],
      if tcp then TcpFlow(pkt, iph, isV6) else UdpFlow(pkt, iph, isV6),
      if tcp then pkt[iph + 12] / 16 else 0,
      if tcp then pkt[iph + 20..headerLen] else [])
  }

  /** The packet that a buffer holds. */
  function Pkt(v: View, offset: nat): seq<byte>
    requires offset <= |v.bytes|
  {
    v.bytes[offset..]
  }

  /** Packet o of the batch was admitted to the flow, with headers of the given length. */
  ghost predicate Member(inp: seq<View>, offset: nat, key: FlowKey, headerLen: nat, o: nat) {
    && o < |inp| && offset <= |inp[o].bytes|
    && Admit(Pkt(inp[o], offset), true).Some?
    && Admit(Pkt(inp[o], offset), true).value.key == key
    && Admit(Pkt(inp[o], offset), true).value.headerLen == headerLen
  }

  function InfoOf(inp: seq<View>, offset: nat, o: nat): Info
    requires o < |inp| && offset <= |inp[o].bytes| && Admit(Pkt(inp[o], offset), true).Some?
  {
    Admit(Pkt(inp[o], offset), true).value
  }

  /** Admission reads everything but lengths, identification, checksums and payload off the shape. */
  lemma MemberShape(pkt: seq<byte>)
    requires Admit(pkt, true).Some?
    ensures
      var info := Admit(pkt, true).value;
      var isV6, tcp := info.key.isV6, info.key.TcpKey?;
      && |pkt| >= info.headerLen >= MinIpHeader(isV6) + (if tcp then 20 else 8)
      && info.iphLen == MinIpHeader(isV6)
      && ShapeOf(pkt, isV6, tcp, info.headerLen).key == info.key
      && pkt[0] / 16 == (if isV6 then 6 else 4)
      && (!isV6 ==> pkt[0] == 69 && pkt[6] % 32 == 0 && pkt[7] == 0)
      && (if isV6 then pkt[6] else pkt[9]) == (if tcp then PROTO_TCP else PROTO_UDP)
      && (tcp ==> (pkt[info.iphLen + 12] as int / 16) * 4 == info.headerLen - info.iphLen)
      && (tcp ==> pkt[info.iphLen + 13] == if info.pshSet then FLAG_ACK_PSH else FLAG_ACK)
      && (tcp ==> info.seqNo == Get32(pkt, info.iphLen + 4))
  {
    AdmitFacts(pkt, true);
  }

  lemma AdmittedLength(pkt: seq<byte>)
    requires Admit(pkt, true).Some?
    ensures |pkt| >= 20 && LengthFieldOk(pkt, Admit(pkt, true).value.key.isV6)
  {
    hide LengthFieldOk;
  }

  /** Two admitted packets of one flow have the same shape exactly when their headers may be coalesced. */
  lemma SameShape(a: seq<byte>, b: seq<byte>)
    requires Admit(a, true).Some? && Admit(b, true).Some?
    requires Admit(a, true).value.key == Admit(b, true).value.key
    requires Admit(a, true).value.headerLen == Admit(b, true).value.headerLen
    ensures
      var info := Admit(a, true).value;
      var isV6, tcp, h, iph := info.key.isV6, info.key.TcpKey?, info.headerLen, info.iphLen;
      && h <= |a| && h <= |b|
      && (IpHeadersCanCoalesce(a, b) && (tcp ==> a[iph + 20..h] == b[iph + 20..h])
          <==> ShapeOf(a, isV6, tcp, h) == ShapeOf(b, isV6, tcp, h))
  {
    MemberShape(a);
    MemberShape(b);
    var info := Admit(a, true).value;
    var isV6 := info.key.isV6;
    var h := info.headerLen;
    hide Admit, TcpFlow, UdpFlow;
    if !isV6 {
      assert a[6] == 32 * (a[6] / 32) && b[6] == 32 * (b[6] / 32);
      assert Get16(a, 6) == 256 * (a[6] as int) && Get16(b, 6) == 256 * (b[6] as int);
    }
    if info.key.TcpKey? {
      assert a[info.iphLen + 12] / 16 == b[info.iphLen + 12] / 16;
    }
  }

  /** The item's own fields fit its buffer, and the packets os in it were all admitted to its flow. */
  ghost predicate ItemBasics(item: GroItem, v: View, os: seq<nat>, inp: seq<View>, offset: nat) {
    && (item.TcpItem? <==> item.key.TcpKey?)
    && item.iphLen == MinIpHeader(item.key.isV6)
    && (item.TcpItem? ==> 20 <= item.tcphLen <= 60 && item.sentSeq < TWO32)
    && |os| == item.numMerged + 1
    && offset + item.HeaderLen() < |v.bytes| <= offset + MAX_UINT16
    && 0 < item.gsoSize <= MAX_UINT16
    && forall m :: 0 <= m < |os| ==> Member(inp, offset, item.key, item.HeaderLen(), os[m])
  }

  /** The payloads of the packets os, whose headers are headerLen bytes long. */
  ghost function PayloadsOf(inp: seq<View>, offset: nat, key: FlowKey, headerLen: nat,
                            os: seq<nat>): (r: seq<seq<byte>>)
    requires forall m :: 0 <= m < |os| ==> Member(inp, offset, key, headerLen, os[m])
    ensures |r| == |os|
  {
    seq(|os|, m requires 0 <= m < |os| => PayloadOf(inp, offset, key, headerLen, os[m]))
  }

  ghost function PayloadOf(inp: seq<View>, offset: nat, key: FlowKey, headerLen: nat, o: nat): (r: seq<byte>)
    requires Member(inp, offset, key, headerLen, o)
    ensures 0 < |r| == InfoOf(inp, offset, o).gsoSize
  {
    AdmitFacts(Pkt(inp[o], offset), true);
    Pkt(inp[o], offset)[headerLen..]
  }

  ghost function OriginalShape(inp: seq<View>, offset: nat, key: FlowKey, headerLen: nat, o: nat): Shape
    requires Member(inp, offset, key, headerLen, o)
  {
    MemberShape(Pkt(inp[o], offset));
    ShapeOf(Pkt(inp[o], offset), key.isV6, key.TcpKey?, headerLen)
  }

  function ItemShape(item: GroItem, v: View, offset: nat): Shape
    requires item.iphLen == MinIpHeader(item.key.isV6) && (item.TcpItem? <==> item.key.TcpKey?)
    requires item.TcpItem? ==> item.tcphLen >= 20
    requires offset + item.HeaderLen() <= |v.bytes|
  {
    ShapeOf(Pkt(v, offset), item.key.isV6, item.key.TcpKey?, item.HeaderLen())
  }

  /** Every packet in the item has the shape of the header in front. */
  ghost predicate ItemShapes(item: GroItem, v: View, os: seq<nat>, inp: seq<View>, offset: nat)
    requires ItemBasics(item, v, os, inp, offset)
  {
    forall m :: 0 <= m < |os| ==>
      OriginalShape(inp, offset, item.key, item.HeaderLen(), os[m]) == ItemShape(item, v, offset)
  }

  /** After the header come the packets' payloads, in order, all of gsoSize bytes except perhaps the last. */
  ghost predicate ItemPayloads(item: GroItem, v: View, os: seq<nat>, inp: seq<View>, offset: nat)
    requires ItemBasics(item, v, os, inp, offset)
  {
    Split(v.bytes[offset + item.HeaderLen()..], item.gsoSize) == PayloadsOf(inp, offset, item.key, item.HeaderLen(), os)
  }

  /** The last of the packets os in stream order is also the last of them to have arrived. */
  ghost predicate ArrivedLast(os: seq<nat>) {
    |os| > 0 && forall m :: 0 <= m < |os| - 1 ==> os[m] < os[|os| - 1]
  }

  /**
   The header in front is that of the first packet, but for the PSH flag, which
   it has exactly when the last packet had it and arrived after all the others.
   */
  ghost predicate ItemHeader(item: GroItem, v: View, os: seq<nat>, inp: seq<View>, offset: nat)
    requires ItemBasics(item, v, os, inp, offset)
  {
    && Member(inp, offset, item.key, item.HeaderLen(), os[0])
    && offset + item.HeaderLen() <= |inp[os[0]].bytes|
    && (forall q :: offset <= q < offset + item.HeaderLen() && !(item.TcpItem? && q == offset + item.iphLen + 13) ==>
         v.bytes[q] == inp[os[0]].bytes[q])
    && (item.TcpItem? ==>
         var flags := v.bytes[offset + item.iphLen + 13];
         && (flags == FLAG_ACK || flags == FLAG_ACK_PSH)
         && (flags == FLAG_ACK_PSH <==> item.pshSet && ArrivedLast(os)))
  }

  /** The m-th packet starts m * gsoSize bytes after sentSeq modulo 2^32, and only the last one may have PSH. */
  ghost predicate ItemSequence(item: GroItem, os: seq<nat>, inp: seq<View>, offset: nat)
    requires item.TcpItem?
  {
    && (forall m :: 0 <= m < |os| ==>
         && Member(inp, offset, item.key, item.HeaderLen(), os[m])
         && InfoOf(inp, offset, os[m]).seqNo == (item.sentSeq + m * item.gsoSize) % TWO32
         && (m < |os| - 1 ==> !InfoOf(inp, offset, os[m]).pshSet))
    && |os| > 0
    && item.pshSet == InfoOf(inp, offset, os[|os| - 1]).pshSet
  }

  /** The transport checksum of packet o, as it came in, verifies. */
  ghost predicate Valid(inp: seq<View>, offset: nat, key: FlowKey, headerLen: nat, o: nat)
    requires Member(inp, offset, key, headerLen, o)
  {
    AdmitFacts(Pkt(inp[o], offset), true);
    ChecksumOk(Pkt(inp[o], offset), MinIpHeader(key.isV6), if key.TcpKey? then PROTO_TCP else PROTO_UDP, key.isV6)
  }

  /**
   No corrupt packet is merged: once two packets are together, each had a valid
   checksum when it came in. Until then the buffer is the packet itself, gsoSize
   is its payload, and a flag that calls its checksum invalid is right.
   */
  ghost predicate ItemChecked(item: GroItem, v: View, os: seq<nat>, inp: seq<View>, offset: nat)
    requires ItemBasics(item, v, os, inp, offset)
  {
    && (|os| > 1 ==> forall m :: 0 <= m < |os| ==> Valid(inp, offset, item.key, item.HeaderLen(), os[m]))
    && (|os| == 1 ==>
         os[0] == item.bufsIndex && v == inp[os[0]] && offset + item.HeaderLen() + item.gsoSize == |v.bytes|)
    && (item.UdpItem? && item.cSumKnownInvalid ==>
         |os| == 1 && !Valid(inp, offset, item.key, item.HeaderLen(), os[0]))
  }

  /** The invariant of an item that holds the packets os of the batch inp. */
  ghost predicate ItemInv(item: GroItem, v: View, os: seq<nat>, inp: seq<View>, offset: nat) {
    && ItemBasics(item, v, os, inp, offset)
    && ItemShapes(item, v, os, inp, offset)
    && ItemPayloads(item, v, os, inp, offset)
    && ItemHeader(item, v, os, inp, offset)
    && (item.TcpItem? ==> ItemSequence(item, os, inp, offset))
    && ItemChecked(item, v, os, inp, offset)
  }

  /** The parts of the invariant's first conjunct, item by item. */
  lemma BasicsOf(item: GroItem, v: View, os: seq<nat>, inp: seq<View>, offset: nat)
    requires ItemInv(item, v, os, inp, offset)
    ensures (item.TcpItem? <==> item.key.TcpKey?) && item.iphLen == MinIpHeader(item.key.isV6)
    ensures item.TcpItem? ==> 20 <= item.tcphLen <= 60 && item.sentSeq < TWO32
    ensures |os| == item.numMerged + 1 && 0 < item.gsoSize <= MAX_UINT16
    ensures offset + item.HeaderLen() < |v.bytes| <= offset + MAX_UINT16
    ensures forall m :: 0 <= m < |os| ==> Member(inp, offset, item.key, item.HeaderLen(), os[m])
  {
    hide ItemShapes, ItemPayloads, ItemHeader, ItemSequence, ItemChecked, Member;
  }

  /** The conjuncts of the invariant. */
  lemma InvParts(item: GroItem, v: View, os: seq<nat>, inp: seq<View>, offset: nat)
    requires ItemInv(item, v, os, inp, offset)
    ensures ItemBasics(item, v, os, inp, offset)
    ensures ItemShapes(item, v, os, inp, offset) && ItemPayloads(item, v, os, inp, offset)
    ensures ItemHeader(item, v, os, inp, offset)
    ensures item.TcpItem? ==> ItemSequence(item, os, inp, offset)
    ensures ItemChecked(item, v, os, inp, offset)
  {
    hide ItemBasics, ItemShapes, ItemPayloads, ItemHeader, ItemSequence, ItemChecked;
  }

  /** A new item starts out with the invariant. */
  lemma NewItemInv(inp: seq<View>, i: nat, info: Info, known: bool, offset: nat)
    requires i < |inp| <= IDEAL_BATCH_SIZE && offset <= |inp[i].bytes|
    requires Admit(Pkt(inp[i], offset), true) == Some(info)
    requires known ==>
      info.key.UdpKey? && Member(inp, offset, info.key, info.headerLen, i)
      && !Valid(inp, offset, info.key, info.headerLen, i)
    ensures
      var pkt := Pkt(inp[i], offset);
      && |pkt| >= info.headerLen >= info.iphLen + 8 && (info.key.TcpKey? ==> info.headerLen >= info.iphLen + 20)
      && ItemInv(NewItem(pkt, info, i, known), inp[i], [i], inp, offset)
  {
    hide Admit, NewItem, ShapeOf, ChecksumOk, Split, PayloadsOf, Valid;
    var pkt := Pkt(inp[i], offset);
    NewItemSafe(pkt, info, i, known);
    AdmitFacts(pkt, true);
    NewItemKnown(pkt, info, i, known);
    var item := NewItem(pkt, info, i, known);
    OnePayload(inp, i, info, offset);
    assert ItemBasics(item, inp[i], [i], inp, offset);
    if item.TcpItem? {
      AdmittedFlags(inp[i], info, offset);
    }
  }

  lemma NewItemKnown(pkt: seq<byte>, info: Info, i: nat, known: bool)
    requires |pkt| >= info.headerLen >= info.iphLen + 8 && (info.key.TcpKey? ==> info.headerLen >= info.iphLen + 20)
    ensures NewItem(pkt, info, i, known).UdpItem? ==> NewItem(pkt, info, i, known).cSumKnownInvalid == known
  {
  }

  /** The payload of a lone packet is its one segment. */
  lemma OnePayload(inp: seq<View>, i: nat, info: Info, offset: nat)
    requires i < |inp| && offset <= |inp[i].bytes| && Admit(Pkt(inp[i], offset), true) == Some(info)
    ensures Member(inp, offset, info.key, info.headerLen, i)
    ensures info.gsoSize > 0 && offset + info.headerLen <= |inp[i].bytes|
    ensures Split(inp[i].bytes[offset + info.headerLen..], info.gsoSize)
         == PayloadsOf(inp, offset, info.key, info.headerLen, [i])
  {
    var pkt := Pkt(inp[i], offset);
    AdmitFacts(pkt, true);
    hide Admit;
    var payload := inp[i].bytes[offset + info.headerLen..];
    assert payload == pkt[info.headerLen..];
    assert Split(payload, info.gsoSize) == [payload];
    assert PayloadsOf(inp, offset, info.key, info.headerLen, [i]) == [payload];
  }

  lemma AdmittedFlags(v: View, info: Info, offset: nat)
    requires offset <= |v.bytes| && Admit(Pkt(v, offset), true) == Some(info) && info.key.TcpKey?
    ensures offset + info.iphLen + 13 < |v.bytes|
    ensures v.bytes[offset + info.iphLen + 13] == if info.pshSet then FLAG_ACK_PSH else FLAG_ACK
  {
    MemberShape(Pkt(v, offset));
    hide Admit, ShapeOf;
  }
}
