/**
 applyTCPCoalesceAccounting and applyUDPCoalesceAccounting as values, and the
 state that handleGRO ends in.
 */
module Accounting {
  import opened Bytes
  import opened OnesComplement
  import opened InternetChecksum
  import opened Packets
  import opened Virtio
  import opened Gro
  import opened Coalescing
  import opened Batch

  function CsumOffset(item: GroItem): nat {
    if item.TcpItem? then 16 else 6
  }

  /** The virtio header of a coalesced packet. */
  function HeaderFor(item: GroItem): Header {
    Header(
      F_NEEDS_CSUM,
      if item.UdpItem? then GSO_UDP_L4 else if item.key.isV6 then GSO_TCPV6 else GSO_TCPV4,
      Low16(item.HeaderLen()),
      Low16(item.gsoSize),
      Low16(item.iphLen),
      CsumOffset(item))
  }

  /** The IP header with the length of the coalesced packet and, for IPv4, a new checksum. */
  function AccountIp(ip: seq<byte>, len: nat, isV6: bool): (r: seq<byte>)
    requires |ip| >= MinIpHeader(isV6)
    ensures |r| == |ip|
  {
    if isV6 then Put16(ip, 4, Low16(Low16(len) - Low16(|ip|)))
    else SealIpv4(Put16(ip, 2, Low16(len)))
  }

  /** The transport part with the pseudo-header sum in its checksum field, and for UDP its length. */
  function AccountTransport(t: seq<byte>, item: GroItem, pseudo: nat): (r: seq<byte>)
    requires |t| >= CsumOffset(item) + 2
    ensures |r| == |t|
  {
    NormOf(pseudo);
    var sized := if item.UdpItem? then Put16(t, 4, Low16(|t|)) else t;
    Put16(sized, CsumOffset(item), Norm(pseudo))
  }

  function AccountPacket(item: GroItem, pkt: seq<byte>): (r: seq<byte>)
    requires item.iphLen == MinIpHeader(item.key.isV6) && |pkt| >= item.iphLen + CsumOffset(item) + 2
    ensures |r| == |pkt|
  {
    var pseudo := PacketPseudo(pkt, item.Protocol(), item.key.isV6, Low16(|pkt| - item.iphLen));
    AccountIp(pkt[..item.iphLen], |pkt|, item.key.isV6) + AccountTransport(pkt[item.iphLen..], item, pseudo)
  }

  /** The buffer of an item after accounting. */
  function AccountBytes(e: Endian, item: GroItem, bytes: seq<byte>, offset: nat): (r: seq<byte>)
    requires item.iphLen == MinIpHeader(item.key.isV6)
    requires HDR_LEN <= offset && |bytes| >= offset + item.iphLen + CsumOffset(item) + 2
    ensures |r| == |bytes|
  {
    if item.numMerged > 0 then
      WithHeader(bytes[..offset] + AccountPacket(item, bytes[offset..]), offset, Encode(e, HeaderFor(item)))
    else
      WithHeader(bytes, offset, Encode(e, ZERO))
  }

  /** Where the item with buffer index j is in the list, or the list's length. */
  function IndexOf(items: seq<GroItem>, j: nat): (p: nat)
    ensures p <= |items|
    ensures p < |items| ==> items[p].bufsIndex == j
  {
    if |items| == 0 then 0
    else if items[0].bufsIndex == j then 0
    else 1 + IndexOf(items[1..], j)
  }

  lemma {:induction false} IndexOfFinds(items: seq<GroItem>, p: nat)
    requires p < |items|
    requires forall q, r :: 0 <= q < r < |items| ==> items[q].bufsIndex < items[r].bufsIndex
    ensures IndexOf(items, items[p].bufsIndex) == p
  {
    if p > 0 {
      assert items[0].bufsIndex < items[p].bufsIndex;
      assert items[1..][p - 1] == items[p];
      IndexOfFinds(items[1..], p - 1);
    }
  }

  /** An item is found at its own place in its flow. */
  lemma OnlyIndex(st: GroState, offset: nat, key: FlowKey, p: nat)
    requires Safe(st, offset) && key in st.flows && p < |st.flows[key]|
    ensures IndexOf(st.flows[key], st.flows[key][p].bufsIndex) == p
  {
    assert FlowSafe(st, offset, key);
    IndexOfFinds(st.flows[key], p);
  }

  /** Buffer j after accounting: only buffers of items still in a table are touched. */
  function FinishView(e: Endian, st: GroState, offset: nat, j: nat): View
    requires Safe(st, offset) && HDR_LEN <= offset && j < |st.bufs|
  {
    var v := st.bufs[j];
    if st.fate[j].Held? && st.fate[j].key in st.flows
       && IndexOf(st.flows[st.fate[j].key], j) < |st.flows[st.fate[j].key]| then
      var key := st.fate[j].key;
      var p := IndexOf(st.flows[key], j);
      assert FlowSafe(st, offset, key);
      assert ItemSafe(st, offset, key, st.flows[key][p]);
      v.(bytes := AccountBytes(e, st.flows[key][p], v.bytes, offset))
    else v
  }

  /** The state after both accounting passes. Each buffer is rewritten at most once, so their order does not matter. */
  function Finish(e: Endian, st: GroState, offset: nat): GroState
    requires Safe(st, offset) && HDR_LEN <= offset
  {
    st.(bufs := seq(|st.bufs|, j requires 0 <= j < |st.bufs| => FinishView(e, st, offset, j)))
  }

  /** handleGRO on a batch with empty tables; the flag is false for an error. */
  function HandleGro(e: Endian, inp: seq<View>, offset: int, canUDP: bool): (GroState, bool)
    requires |inp| <= IDEAL_BATCH_SIZE
  {
    if |inp| == 0 then (Initial(inp), true)
    else if offset < HDR_LEN then (Initial(inp), false)
    else
      var (st, ok) := GroLoop(e, Initial(inp), 0, offset, canUDP);
      if ok then
        LoopSafe(e, Initial(inp), 0, offset, canUDP);
        (Finish(e, st, offset), true)
      else (st, false)
  }

  lemma {:induction false} LoopSafe(e: Endian, st: GroState, i: nat, offset: nat, canUDP: bool)
    requires Safe(st, offset) && i <= |st.bufs|
    requires forall j :: i <= j < |st.fate| ==> st.fate[j] == Pending
    ensures Safe(GroLoop(e, st, i, offset, canUDP).0, offset)
    decreases |st.bufs| - i
  {
    if i < |st.bufs| && HDR_LEN <= offset < |st.bufs[i].bytes| {
      StepSafe(e, st, i, offset, canUDP);
      hide Safe;
      LoopSafe(e, Step(e, st, i, offset, canUDP), i + 1, offset, canUDP);
    }
  }

  /** An item held at the end: its buffer is the accounted one. */
  lemma FinishHeld(e: Endian, st: GroState, offset: nat, key: FlowKey, p: nat)
    requires Safe(st, offset) && HDR_LEN <= offset
    requires key in st.flows && p < |st.flows[key]|
    ensures ItemSafe(st, offset, key, st.flows[key][p])
    ensures
      var item := st.flows[key][p];
      Finish(e, st, offset).bufs[item.bufsIndex]
        == st.bufs[item.bufsIndex].(bytes := AccountBytes(e, item, st.bufs[item.bufsIndex].bytes, offset))
  {
    assert FlowSafe(st, offset, key);
    assert ItemSafe(st, offset, key, st.flows[key][p]);
    hide AccountBytes;
    IndexOfFinds(st.flows[key], p);
  }
}
