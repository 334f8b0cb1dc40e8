/** Datagrams of a UDP flow keep their order of arrival. */
module UdpOrder {
  import opened Bytes
  import opened Segments
  import opened Packets
  import opened Virtio
  import opened InternetChecksum
  import opened Gro
  import opened Coalescing
  import opened Batch
  import opened BatchSteps
  import opened Accounting
  import opened RoundTrip
  import opened GroTheorems

  /** The payloads of the datagrams os, as they came in. */
  function Datagrams(inp: seq<View>, offset: nat, isV6: bool, os: seq<nat>): seq<seq<byte>> {
    if |os| == 0 then []
    else
      Datagrams(inp, offset, isV6, os[..|os| - 1])
      + [Datagram(inp, offset, isV6, os[|os| - 1])]
  }

  function Datagram(inp: seq<View>, offset: nat, isV6: bool, o: nat): seq<byte> {
    var start := offset + MinIpHeader(isV6) + UDP_HEADER_LEN;
    if o < |inp| && start <= |inp[o].bytes| then inp[o].bytes[start..] else []
  }

  /** The payload of an item's buffer, cut by gsoSize. */
  function ItemSegments(item: GroItem, bufs: seq<View>, offset: nat): seq<seq<byte>> {
    if item.bufsIndex < |bufs| && offset + item.HeaderLen() <= |bufs[item.bufsIndex].bytes| && item.gsoSize > 0
    then Split(bufs[item.bufsIndex].bytes[offset + item.HeaderLen()..], item.gsoSize)
    else []
  }

  /** The segments of a flow's items, item after item. */
  function FlowSegments(items: seq<GroItem>, bufs: seq<View>, offset: nat): seq<seq<byte>> {
    if |items| == 0 then []
    else FlowSegments(items[..|items| - 1], bufs, offset) + ItemSegments(items[|items| - 1], bufs, offset)
  }

  lemma {:induction false} DatagramsConcat(inp: seq<View>, offset: nat, isV6: bool, a: seq<nat>, b: seq<nat>)
    ensures Datagrams(inp, offset, isV6, a + b) == Datagrams(inp, offset, isV6, a) + Datagrams(inp, offset, isV6, b)
    decreases |b|
  {
    if |b| == 0 {
      assert a + b == a;
    } else {
      assert (a + b)[..|a + b| - 1] == a + b[..|b| - 1];
      DatagramsConcat(inp, offset, isV6, a, b[..|b| - 1]);
    }
  }

  lemma {:induction false} DatagramsAt(inp: seq<View>, offset: nat, isV6: bool, os: seq<nat>)
    ensures |Datagrams(inp, offset, isV6, os)| == |os|
    ensures forall m :: 0 <= m < |os| ==> Datagrams(inp, offset, isV6, os)[m] == Datagram(inp, offset, isV6, os[m])
  {
    if |os| > 0 {
      DatagramsAt(inp, offset, isV6, os[..|os| - 1]);
    }
  }

  lemma ItemDatagrams(st: GroState, inp: seq<View>, offset: nat, item: GroItem)
    requires ItemOk(st, inp, offset, item) && item.UdpItem?
    ensures ItemSegments(item, st.bufs, offset) == Datagrams(inp, offset, item.key.isV6, st.origin[item.bufsIndex])
  {
    hide ItemShapes, ItemHeader, ItemChecked, Admit, Split;
    var os := st.origin[item.bufsIndex];
    DatagramsAt(inp, offset, item.key.isV6, os);
    var payloads := Coalescing.PayloadsOf(inp, offset, item.key, item.HeaderLen(), os);
    forall m | 0 <= m < |os|
      ensures payloads[m] == Datagram(inp, offset, item.key.isV6, os[m])
    {
      assert Member(inp, offset, item.key, item.HeaderLen(), os[m]);
      AdmitFacts(Pkt(inp[os[m]], offset), true);
      assert Pkt(inp[os[m]], offset)[item.HeaderLen()..] == inp[os[m]].bytes[offset + item.HeaderLen()..];
    }
    assert payloads == Datagrams(inp, offset, item.key.isV6, os);
  }

  lemma {:induction false} StreamSegments(st: GroState, inp: seq<View>, offset: nat, isV6: bool, items: seq<GroItem>)
    requires forall p :: 0 <= p < |items| ==>
      ItemOk(st, inp, offset, items[p]) && items[p].UdpItem? && items[p].key.isV6 == isV6
    ensures FlowSegments(items, st.bufs, offset) == Datagrams(inp, offset, isV6, Stream(items, st.origin))
  {
    hide ItemInv, ItemSegments;
    if |items| > 0 {
      var item := items[|items| - 1];
      StreamSegments(st, inp, offset, isV6, items[..|items| - 1]);
      assert ItemOk(st, inp, offset, item);
      ItemDatagrams(st, inp, offset, item);
      DatagramsConcat(inp, offset, isV6, Stream(items[..|items| - 1], st.origin), st.origin[item.bufsIndex]);
    }
  }

  lemma {:induction false} SegmentsUnchanged(items: seq<GroItem>, bufs: seq<View>, bufs': seq<View>, offset: nat)
    requires forall p :: 0 <= p < |items| ==>
      ItemSegments(items[p], bufs', offset) == ItemSegments(items[p], bufs, offset)
    ensures FlowSegments(items, bufs', offset) == FlowSegments(items, bufs, offset)
  {
    hide ItemSegments;
    if |items| > 0 {
      SegmentsUnchanged(items[..|items| - 1], bufs, bufs', offset);
    }
  }

  /** Accounting leaves payloads alone. */
  lemma AccountPayload(e: Endian, item: GroItem, v: View, os: seq<nat>, inp: seq<View>, offset: nat)
    requires ItemInv(item, v, os, inp, offset) && HDR_LEN <= offset
    ensures item.iphLen == MinIpHeader(item.key.isV6) && |v.bytes| >= offset + item.iphLen + CsumOffset(item) + 2
    ensures offset + item.HeaderLen() <= |v.bytes|
    ensures AccountBytes(e, item, v.bytes, offset)[offset + item.HeaderLen()..] == v.bytes[offset + item.HeaderLen()..]
  {
    hide ItemInv, AccountPacket, AccountBytes, Accountable;
    ItemFacts(item, v, os, inp, offset);
    AccountableBounds(item, v.bytes, offset);
    var bytes := AccountBytes(e, item, v.bytes, offset);
    if item.numMerged > 0 {
      FrameParts(e, item, v.bytes, offset);
      SuffixOf(bytes, offset);
      AccountKeeps(item, Pkt(v, offset));
    } else if item.numMerged == 0 {
      SingleBytes(e, item, v.bytes, offset);
    }
    SuffixTwice(bytes, offset, item.HeaderLen());
    SuffixTwice(v.bytes, offset, item.HeaderLen());
  }

  lemma AccountableBounds(item: GroItem, bytes: seq<byte>, offset: nat)
    requires offset <= |bytes| && Accountable(item, bytes[offset..])
    ensures item.iphLen == MinIpHeader(item.key.isV6) && |bytes| >= offset + item.iphLen + CsumOffset(item) + 2
    ensures offset + item.HeaderLen() <= |bytes|
  {
  }

  lemma SuffixTwice(bytes: seq<byte>, a: nat, b: nat)
    requires a + b <= |bytes|
    ensures bytes[a..][b..] == bytes[a + b..]
  {
  }

  lemma FinishSegments(e: Endian, st: GroState, inp: seq<View>, offset: nat, key: FlowKey, p: nat)
    requires Safe(st, offset) && HDR_LEN <= offset && key in st.flows && p < |st.flows[key]|
    requires ItemOk(st, inp, offset, st.flows[key][p])
    ensures ItemSegments(st.flows[key][p], Finish(e, st, offset).bufs, offset)
         == ItemSegments(st.flows[key][p], st.bufs, offset)
  {
    hide ItemInv, AccountBytes, Split, Safe, FinishView;
    var item := st.flows[key][p];
    FinishHeld(e, st, offset, key, p);
    AccountPayload(e, item, st.bufs[item.bufsIndex], st.origin[item.bufsIndex], inp, offset);
  }

  lemma SingleBytes(e: Endian, item: GroItem, bytes: seq<byte>, offset: nat)
    requires item.iphLen == MinIpHeader(item.key.isV6) && item.numMerged == 0
    requires HDR_LEN <= offset && |bytes| >= offset + item.iphLen + CsumOffset(item) + 2
    ensures AccountBytes(e, item, bytes, offset)[offset..] == bytes[offset..]
  {
    hide Encode;
    var header := Encode(e, ZERO);
    assert WithHeader(bytes, offset, header)[offset..] == bytes[offset..];
  }

  /**
   UDP order: cutting the buffers of a flow's items, in the order of the list,
   gives the payloads of the datagrams admitted to the flow, in order of arrival.
   The buffers are written in that order too, and a flow's list is never empty.
   */
  lemma UdpOrder(e: Endian, inp: seq<View>, offset: nat, canUDP: bool, key: FlowKey)
    requires Accepted(e, inp, offset, canUDP) && key.UdpKey?
    ensures
      var st := HandleGro(e, inp, offset, canUDP).0;
      && FlowSegments(FlowItems(st, key), st.bufs, offset)
         == Datagrams(inp, offset, key.isV6, Arrivals(inp, offset, canUDP, key, |inp|))
      && (key in st.flows ==> |st.flows[key]| > 0)
      && (forall p, q :: 0 <= p < q < |FlowItems(st, key)| ==>
        FlowItems(st, key)[p].bufsIndex < FlowItems(st, key)[q].bufsIndex)
      && (forall p :: 0 <= p < |FlowItems(st, key)| ==> FlowItems(st, key)[p].bufsIndex in st.toWrite)
  {
    AcceptedInv(e, inp, offset, canUDP);
    var st0 := Looped(e, inp, offset, canUDP);
    hide HandleGro, Looped, Inv, FlowSegments, Datagrams, Arrivals, Finish, Safe;
    FinishKeeps(e, st0, offset);
    UdpPayloads(e, st0, inp, offset, canUDP, key);
    UdpIndices(e, st0, inp, offset, canUDP, key);
  }

  lemma UdpPayloads(e: Endian, st: GroState, inp: seq<View>, offset: nat, canUDP: bool, key: FlowKey)
    requires Inv(e, st, inp, offset, canUDP, |inp|) && Safe(st, offset) && key.UdpKey? && HDR_LEN <= offset
    ensures FlowSegments(FlowItems(st, key), Finish(e, st, offset).bufs, offset)
         == Datagrams(inp, offset, key.isV6, Arrivals(inp, offset, canUDP, key, |inp|))
  {
    hide PositionsOk, PlacementOk, BackingOk, FlowSegments, ItemSegments, Datagrams, ItemOk, Finish, Safe, Written,
         Stream, Arrivals;
    var items := FlowItems(st, key);
    forall p | 0 <= p < |items|
      ensures ItemOk(st, inp, offset, items[p]) && items[p].UdpItem? && items[p].key.isV6 == key.isV6
      ensures ItemSegments(items[p], Finish(e, st, offset).bufs, offset) == ItemSegments(items[p], st.bufs, offset)
    {
      HeldIndex(st, offset, key, p);
      assert ItemOk(st, inp, offset, st.flows[key][p]);
      FinishSegments(e, st, inp, offset, key, p);
    }
    StreamSegments(st, inp, offset, key.isV6, items);
    SegmentsUnchanged(items, st.bufs, Finish(e, st, offset).bufs, offset);
    assert StreamOk(st, inp, offset, canUDP, |inp|, key);
  }

  lemma UdpIndices(e: Endian, st: GroState, inp: seq<View>, offset: nat, canUDP: bool, key: FlowKey)
    requires Inv(e, st, inp, offset, canUDP, |inp|) && Safe(st, offset) && key.UdpKey?
    ensures key in st.flows ==> |st.flows[key]| > 0
    ensures forall p, q :: 0 <= p < q < |FlowItems(st, key)| ==>
      FlowItems(st, key)[p].bufsIndex < FlowItems(st, key)[q].bufsIndex
    ensures forall p :: 0 <= p < |FlowItems(st, key)| ==> FlowItems(st, key)[p].bufsIndex in st.toWrite
  {
    hide ItemsOk, PlacementOk, BackingOk, StreamsOk, PositionOk, Safe;
    FlowIndices(st, offset, key);
    WrittenOrder(st.fate, |inp|);
    UdpNonEmpty(st, offset, key);
  }

  lemma UdpNonEmpty(st: GroState, offset: nat, key: FlowKey)
    requires Safe(st, offset) && key.UdpKey?
    ensures key in st.flows ==> |st.flows[key]| > 0
  {
    if key in st.flows {
      assert FlowSafe(st, offset, key);
    }
  }
}
