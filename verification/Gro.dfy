/**
 The write side as values (offload_linux.go): which packets enter a flow
 table, when two packets may be coalesced, and what each step of handleGRO does
 to the buffers, the tables and the list of packets to write.
 */
module Gro {
  import opened Bytes
  import opened InternetChecksum
  import opened Packets
  import opened Virtio

  /** tcpFlowKey and udpFlowKey. Addresses are kept at their own length, which isV6 determines. */
  datatype FlowKey =
    | TcpKey(isV6: bool, src: seq<byte>, dst: seq<byte>, srcPort: nat, dstPort: nat, rxAck: nat)
    | UdpKey(isV6: bool, src: seq<byte>, dst: seq<byte>, srcPort: nat, dstPort: nat)

  /** tcpGROItem and udpGROItem. */
  datatype GroItem =
    | TcpItem(key: FlowKey, bufsIndex: nat, numMerged: nat, gsoSize: nat, iphLen: nat,
              sentSeq: nat, tcphLen: nat, pshSet: bool)
    | UdpItem(key: FlowKey, bufsIndex: nat, numMerged: nat, gsoSize: nat, iphLen: nat,
              cSumKnownInvalid: bool)
  {
    function HeaderLen(): nat {
      iphLen + if TcpItem? then tcphLen else UDP_HEADER_LEN
    }

    function Protocol(): byte {
      if TcpItem? then PROTO_TCP else PROTO_UDP
    }
  }

  const IDEAL_BATCH_SIZE := 128

  const FLAG_ACK: byte := 16
  const FLAG_ACK_PSH: byte := 24

  datatype Candidate = NotCandidate | Tcp4 | Tcp6 | Udp4 | Udp6

  /** packetIsGROCandidate. */
  function Classify(b: seq<byte>, canUDP: bool): Candidate {
    if |b| < 28 then NotCandidate
    else if b[0] / 16 == 4 then
      if b[0] % 16 != 5 then NotCandidate
      else if b[9] == PROTO_TCP && |b| >= 40 then Tcp4
      else if b[9] == PROTO_UDP && canUDP then Udp4
      else NotCandidate
    else if b[0] / 16 == 6 then
      if b[6] == PROTO_TCP && |b| >= 60 then Tcp6
      else if b[6] == PROTO_UDP && |b| >= 48 && canUDP then Udp6
      else NotCandidate
    else NotCandidate
  }

  /** What the admission checks of tcpGRO and udpGRO read off a packet. */
  datatype Info = Info(key: FlowKey, iphLen: nat, headerLen: nat, gsoSize: nat, seqNo: nat, pshSet: bool)

  datatype Option<+T> = None | Some(value: T)

  /** The length field of the IP header agrees with the length of the packet. */
  predicate LengthFieldOk(pkt: seq<byte>, isV6: bool)
    requires |pkt| >= 20
  {
    if isV6 then Get16(pkt, 4) == |pkt| - 40 else Get16(pkt, 2) == |pkt|
  }

  /** An IPv4 packet with more fragments to follow, or at a non-zero fragment offset. */
  predicate IsFragment(pkt: seq<byte>)
    requires |pkt| >= 20
  {
    pkt[6] / 32 % 2 == 1 || (pkt[6] as int * 8) % 256 != 0 || pkt[7] != 0
  }

  function TcpFlow(pkt: seq<byte>, iphLen: nat, isV6: bool): FlowKey
    requires |pkt| >= iphLen + 20 && iphLen >= MinIpHeader(isV6)
  {
    TcpKey(isV6, SrcAddr(pkt, isV6), DstAddr(pkt, isV6), Get16(pkt, iphLen), Get16(pkt, iphLen + 2),
           Get32(pkt, iphLen + 8))
  }

  function UdpFlow(pkt: seq<byte>, iphLen: nat, isV6: bool): FlowKey
    requires |pkt| >= iphLen + 8 && iphLen >= MinIpHeader(isV6)
  {
    UdpKey(isV6, SrcAddr(pkt, isV6), DstAddr(pkt, isV6), Get16(pkt, iphLen), Get16(pkt, iphLen + 2))
  }

  /** The checks of tcpGRO before it looks at the table; None is groResultNoop. */
  function ParseTcp(pkt: seq<byte>, isV6: bool): Option<Info>
    requires Classify(pkt, true) == if isV6 then Tcp6 else Tcp4
  {
    var iphLen := if isV6 then 40 else (pkt[0] as int % 16) * 4;
    if |pkt| > MAX_UINT16 then None
    else if !LengthFieldOk(pkt, isV6) then None
    else
      var tcphLen := (pkt[iphLen + 12] as int / 16) * 4;
      if tcphLen < 20 || tcphLen > 60 then None
      else if |pkt| < iphLen + tcphLen then None
      else if !isV6 && IsFragment(pkt) then None
      else if pkt[iphLen + 13] != FLAG_ACK && pkt[iphLen + 13] != FLAG_ACK_PSH then None
      else
        var gsoSize := Low16(|pkt| - tcphLen - iphLen);
        if gsoSize < 1 then None
        else Some(Info(TcpFlow(pkt, iphLen, isV6), iphLen, iphLen + tcphLen, gsoSize,
                       Get32(pkt, iphLen + 4), pkt[iphLen + 13] != FLAG_ACK))
  }

  /** The checks of udpGRO before it looks at the table. */
  function ParseUdp(pkt: seq<byte>, isV6: bool): Option<Info>
    requires Classify(pkt, true) == if isV6 then Udp6 else Udp4
  {
    var iphLen := if isV6 then 40 else (pkt[0] as int % 16) * 4;
    if |pkt| > MAX_UINT16 then None
    else if !LengthFieldOk(pkt, isV6) then None
    else if |pkt| < iphLen + UDP_HEADER_LEN then None
    else if !isV6 && IsFragment(pkt) then None
    else
      var gsoSize := Low16(|pkt| - UDP_HEADER_LEN - iphLen);
      if gsoSize < 1 then None
      else Some(Info(UdpFlow(pkt, iphLen, isV6), iphLen, iphLen + UDP_HEADER_LEN, gsoSize, 0, false))
  }

  /** The packet's flow and sizes when it reaches a flow table, None when GRO leaves it alone. */
  function Admit(pkt: seq<byte>, canUDP: bool): Option<Info> {
    match Classify(pkt, canUDP)
    case NotCandidate => None
    case Tcp4 => ParseTcp(pkt, false)
    case Tcp6 => ParseTcp(pkt, true)
    case Udp4 => ParseUdp(pkt, false)
    case Udp6 => ParseUdp(pkt, true)
  }

  /** What admission establishes about a packet. */
  lemma AdmitFacts(pkt: seq<byte>, canUDP: bool)
    ensures Admit(pkt, canUDP).Some? ==>
      var info := Admit(pkt, canUDP).value;
      && info.iphLen == MinIpHeader(info.key.isV6)
      && (if info.key.TcpKey? then info.iphLen + 20 <= info.headerLen <= info.iphLen + 60
          else info.headerLen == info.iphLen + UDP_HEADER_LEN)
      && info.headerLen < |pkt| <= MAX_UINT16
      && info.gsoSize == |pkt| - info.headerLen
      && info.seqNo < TWO32
      && Admit(pkt, true) == Admit(pkt, canUDP)
  {
  }

  /** The item that insert makes for packet i. */
  function NewItem(pkt: seq<byte>, info: Info, i: nat, known: bool): GroItem
    requires |pkt| >= info.headerLen >= info.iphLen + 8
    requires info.key.TcpKey? ==> info.headerLen >= info.iphLen + 20
  {
    if info.key.TcpKey? then
      TcpItem(info.key, Low16(i), 0, Low16(|pkt[info.headerLen..]|), info.iphLen, Get32(pkt, info.iphLen + 4),
              info.headerLen - info.iphLen, pkt[info.iphLen + 13] / 8 % 2 == 1)
    else
      UdpItem(info.key, Low16(i), 0, Low16(|pkt[info.headerLen..]|), info.iphLen, known)
  }

  datatype CanCoalesce = Prepend | Unavailable | Append

  /** ipHeadersCanCoalesce. */
  predicate IpHeadersCanCoalesce(a: seq<byte>, b: seq<byte>) {
    |a| >= 9 && |b| >= 9 &&
    if a[0] / 16 == 6 then a[0] == b[0] && a[1] / 16 == b[1] / 16 && a[7] == b[7]
    else a[1] == b[1] && a[6] / 32 == b[6] / 32 && a[8] == b[8]
  }

  /** tcpPacketsCanCoalesce: target is the packet that item holds so far. */
  function TcpCanCoalesce(pkt: seq<byte>, info: Info, item: GroItem, target: seq<byte>): CanCoalesce
    requires item.TcpItem? && item.gsoSize > 0 && item.iphLen == info.iphLen && item.tcphLen >= 20
    requires |target| >= item.HeaderLen() && |pkt| >= info.headerLen >= info.iphLen + 20
  {
    if info.headerLen != item.HeaderLen() then Unavailable
    else if pkt[info.iphLen + 20..info.headerLen] != target[item.iphLen + 20..info.headerLen] then Unavailable
    else if !IpHeadersCanCoalesce(pkt, target) then Unavailable
    else
      var lhsLen := Low16(item.gsoSize + Low16(item.numMerged * item.gsoSize));
      if info.seqNo == Low32(item.sentSeq + lhsLen) then
        if item.pshSet then Unavailable
        else if |target[info.headerLen..]| % item.gsoSize != 0 then Unavailable
        else if info.gsoSize > item.gsoSize then Unavailable
        else Append
      else if Low32(info.seqNo + info.gsoSize) == item.sentSeq then
        if info.pshSet then Unavailable
        else if info.gsoSize < item.gsoSize then Unavailable
        else if info.gsoSize > item.gsoSize && item.numMerged > 0 then Unavailable
        else Prepend
      else Unavailable
  }

  /** udpPacketsCanCoalesce. */
  function UdpCanCoalesce(pkt: seq<byte>, info: Info, item: GroItem, target: seq<byte>): CanCoalesce
    requires item.UdpItem? && item.gsoSize > 0 && item.iphLen == info.iphLen
    requires |target| >= item.HeaderLen()
  {
    if !IpHeadersCanCoalesce(pkt, target) then Unavailable
    else if |target[info.iphLen + UDP_HEADER_LEN..]| % item.gsoSize != 0 then Unavailable
    else if info.gsoSize > item.gsoSize then Unavailable
    else Append
  }

  /** A buffer: which backing array it is, how large that is, and the visible bytes. */
  datatype View = View(id: nat, cap: nat, bytes: seq<byte>)

  datatype CoalesceResult = InsufficientCap | PshEnding | ItemInvalidCsum | PktInvalidCsum | Success

  /** The decision of coalesceTCPPackets and coalesceUDPPackets; nothing is changed unless it is Success. */
  function TryCoalesce(mode: CanCoalesce, pkt: View, info: Info, item: GroItem, target: View,
                       offset: nat): CoalesceResult
    requires mode != Unavailable && (item.UdpItem? ==> mode == Append)
    requires item.iphLen == MinIpHeader(item.key.isV6)
    requires offset + item.HeaderLen() <= |target.bytes| && offset + item.HeaderLen() <= |pkt.bytes|
    requires item.TcpItem? ==> item.tcphLen >= 20
  {
    var isV6 := item.key.isV6;
    var head := if mode == Prepend then pkt else target;
    var coalescedLen := |target.bytes[offset..]| + |pkt.bytes[offset..]| - item.HeaderLen();
    if head.cap - offset - offset < coalescedLen then InsufficientCap
    else if mode == Prepend && info.pshSet then PshEnding
    else if item.numMerged == 0
         && ((item.UdpItem? && item.cSumKnownInvalid)
             || !ChecksumOk(target.bytes[offset..], item.iphLen, item.Protocol(), isV6))
      then ItemInvalidCsum
    else if !ChecksumOk(pkt.bytes[offset..], item.iphLen, item.Protocol(), isV6) then PktInvalidCsum
    else Success
  }

  /** The item after a successful coalescing. */
  function MergedItem(mode: CanCoalesce, info: Info, item: GroItem): (r: GroItem)
    ensures r.key == item.key && r.bufsIndex == item.bufsIndex
  {
    var counted := item.(numMerged := Low16(item.numMerged + 1));
    if item.UdpItem? then counted
    else if mode == Prepend then
      counted.(sentSeq := info.seqNo, gsoSize := if info.gsoSize > item.gsoSize then info.gsoSize else item.gsoSize)
    else
      counted.(pshSet := item.pshSet || info.pshSet,
               gsoSize := if info.gsoSize > item.gsoSize then info.gsoSize else item.gsoSize)
  }

  /** flags |= PSH. */
  function SetPsh(flags: byte): byte {
    if flags / 8 % 2 == 1 then flags else flags + 8
  }

  function WithPsh(bytes: seq<byte>, at: nat): (r: seq<byte>)
    requires at < |bytes|
    ensures |r| == |bytes|
  {
    bytes[at := SetPsh(bytes[at])]
  }

  /** The buffer that holds the coalesced packet. */
  function MergedView(mode: CanCoalesce, pkt: View, info: Info, item: GroItem, target: View, offset: nat): View
    requires offset + item.HeaderLen() <= |target.bytes| && offset + item.HeaderLen() <= |pkt.bytes|
    requires item.TcpItem? ==> item.tcphLen >= 20
  {
    if mode == Prepend then pkt.(bytes := pkt.bytes + target.bytes[offset + item.HeaderLen()..])
    else
      var at := offset + item.iphLen + 13;
      var head := if item.TcpItem? && info.pshSet then WithPsh(target.bytes, at) else target.bytes;
      target.(bytes := head + pkt.bytes[offset + item.HeaderLen()..])
  }

  /** What became of a packet of the batch. */
  datatype Fate =
    | Pending
    | Noop
    | Held(key: FlowKey)
    | Dropped
    | Coalesced(into: nat)

  /**
   The state of handleGRO between packets. fate and origin are history: fate
   says what became of each packet, and origin which packets, in stream order,
   each buffer carries. The source stores neither.
   */
  datatype GroState = GroState(
    bufs: seq<View>,
    flows: map<FlowKey, seq<GroItem>>,
    toWrite: seq<nat>,
    fate: seq<Fate>,
    origin: seq<seq<nat>>
  )

  function FlowItems(st: GroState, key: FlowKey): seq<GroItem> {
    if key in st.flows then st.flows[key] else []
  }

  /** The item can be worked on: its buffer exists, holds its headers and a payload, and is held by its flow. */
  ghost predicate ItemSafe(st: GroState, offset: nat, key: FlowKey, item: GroItem)
    requires |st.fate| == |st.bufs|
  {
    && item.key == key && (item.TcpItem? <==> key.TcpKey?)
    && item.iphLen == MinIpHeader(key.isV6)
    && (item.TcpItem? ==> 20 <= item.tcphLen <= 60)
    && item.gsoSize > 0
    && item.bufsIndex < |st.bufs|
    && st.fate[item.bufsIndex] == Held(key)
    && offset + item.HeaderLen() < |st.bufs[item.bufsIndex].bytes|
  }

  ghost predicate FlowSafe(st: GroState, offset: nat, key: FlowKey)
    requires |st.fate| == |st.bufs| && key in st.flows
  {
    && (forall p :: 0 <= p < |st.flows[key]| ==> ItemSafe(st, offset, key, st.flows[key][p]))
    && (forall p, q :: 0 <= p < q < |st.flows[key]| ==> st.flows[key][p].bufsIndex < st.flows[key][q].bufsIndex)
    && (key.UdpKey? ==> |st.flows[key]| > 0)
  }

  /** The tables and buffers fit together: every item is safe, and buffer indices increase within a flow. */
  ghost predicate Safe(st: GroState, offset: nat) {
    && |st.fate| == |st.bufs| && |st.origin| == |st.bufs| <= IDEAL_BATCH_SIZE
    && forall key :: key in st.flows ==> FlowSafe(st, offset, key)
  }

  function WithHeader(bytes: seq<byte>, offset: nat, header: seq<byte>): (r: seq<byte>)
    requires |header| == HDR_LEN <= offset <= |bytes|
    ensures |r| == |bytes|
  {
    Overwrite(bytes, offset - HDR_LEN, header)
  }

  /** groResultNoop: an empty virtio header goes in front of packet i, which is written as it is. */
  function LeaveAlone(e: Endian, st: GroState, i: nat, offset: nat): GroState
    requires i < |st.bufs| == |st.fate| && HDR_LEN <= offset <= |st.bufs[i].bytes|
  {
    var v := st.bufs[i];
    st.(bufs := st.bufs[i := v.(bytes := WithHeader(v.bytes, offset, Encode(e, ZERO)))],
        toWrite := st.toWrite + [i],
        fate := st.fate[i := Noop])
  }

  /** groResultTableInsert: a new item at the end of the packet's flow. */
  function Insert(st: GroState, i: nat, info: Info, known: bool, offset: nat): GroState
    requires i < |st.bufs| == |st.fate| && offset <= |st.bufs[i].bytes|
    requires Admit(st.bufs[i].bytes[offset..], true) == Some(info)
  {
    AdmitFacts(st.bufs[i].bytes[offset..], true);
    var item := NewItem(st.bufs[i].bytes[offset..], info, i, known);
    st.(flows := st.flows[item.key := FlowItems(st, item.key) + [item]],
        toWrite := st.toWrite + [i],
        fate := st.fate[i := Held(item.key)])
  }

  /** deleteAt. */
  function DropItem(st: GroState, key: FlowKey, p: nat): GroState
    requires key in st.flows && p < |st.flows[key]| && st.flows[key][p].bufsIndex < |st.fate|
  {
    var items := st.flows[key];
    st.(flows := st.flows[key := items[..p] + items[p + 1..]],
        fate := st.fate[items[p].bufsIndex := Dropped])
  }

  /** The buffers after packet i joined the item; a prepend also swaps the two buffers. */
  function MergedBufs(bufs: seq<View>, i: nat, info: Info, item: GroItem, mode: CanCoalesce,
                      offset: nat): (r: seq<View>)
    requires i < |bufs| && item.bufsIndex < |bufs| && (item.TcpItem? ==> item.tcphLen >= 20)
    requires offset + item.HeaderLen() <= |bufs[item.bufsIndex].bytes| && offset + item.HeaderLen() <= |bufs[i].bytes|
    ensures |r| == |bufs|
  {
    var j := item.bufsIndex;
    var merged := MergedView(mode, bufs[i], info, item, bufs[j], offset);
    if mode == Prepend then bufs[i := bufs[j]][j := merged] else bufs[j := merged]
  }

  /** The packets of a merged buffer in stream order. */
  function JoinedOrder(mode: CanCoalesce, packet: seq<nat>, item: seq<nat>): seq<nat> {
    if mode == Prepend then packet + item else item + packet
  }

  /** groResultCoalesced: packet i joins item p of the flow. */
  function MergeInto(st: GroState, i: nat, info: Info, p: nat, mode: CanCoalesce, offset: nat): GroState
    requires |st.fate| == |st.bufs| == |st.origin| && i < |st.bufs|
    requires info.key in st.flows && p < |st.flows[info.key]| && ItemSafe(st, offset, info.key, st.flows[info.key][p])
    requires offset + st.flows[info.key][p].HeaderLen() <= |st.bufs[i].bytes|
  {
    var item := st.flows[info.key][p];
    var j := item.bufsIndex;
    st.(flows := st.flows[info.key := st.flows[info.key][p := MergedItem(mode, info, item)]],
        bufs := MergedBufs(st.bufs, i, info, item, mode, offset),
        fate := st.fate[i := Coalesced(j)],
        origin := st.origin[j := JoinedOrder(mode, st.origin[i], st.origin[j])][i := []])
  }

  /** Packet i is next: it can be looked at, and nothing has happened to it or to a later one yet. */
  ghost predicate Fresh(st: GroState, i: nat, offset: nat) {
    && i < |st.bufs| == |st.fate|
    && (forall j :: i <= j < |st.fate| ==> st.fate[j] == Pending)
    && HDR_LEN <= offset < |st.bufs[i].bytes|
  }

  /** What comparing packet i with one item of its flow leads to. */
  datatype Verdict = Skip | DropIt | Reject | Join(mode: CanCoalesce)

  /** The item can be compared with a packet of its TCP flow. */
  predicate Comparable(target: View, info: Info, item: GroItem, offset: nat) {
    && item.TcpItem? && item.key == info.key && info.key.TcpKey?
    && item.iphLen == MinIpHeader(info.key.isV6)
    && 20 <= item.tcphLen <= 60
    && item.gsoSize > 0
    && offset + item.HeaderLen() < |target.bytes|
  }

  /** One turn of the loop of tcpGRO, up to the change it makes: pkt is the packet, target the item's buffer. */
  function ExamineTcp(pkt: View, target: View, info: Info, item: GroItem, offset: nat): Verdict
    requires offset <= |pkt.bytes| && Admit(pkt.bytes[offset..], true) == Some(info)
    requires Comparable(target, info, item, offset)
  {
    AdmitFacts(pkt.bytes[offset..], true);
    hide Admit;
    var can := TcpCanCoalesce(pkt.bytes[offset..], info, item, target.bytes[offset..]);
    if can == Unavailable then Skip
    else
      match TryCoalesce(can, pkt, info, item, target, offset)
      case Success => Join(can)
      case ItemInvalidCsum => DropIt
      case PktInvalidCsum => Reject
      case _ => Skip
  }

  /** A packet that can be coalesced with an item has headers of the item's length. */
  lemma AvailableHeaders(pkt: seq<byte>, info: Info, item: GroItem, target: seq<byte>)
    requires item.TcpItem? && item.gsoSize > 0 && item.iphLen == info.iphLen && item.tcphLen >= 20
    requires |target| >= item.HeaderLen() && |pkt| >= info.headerLen >= info.iphLen + 20
    requires TcpCanCoalesce(pkt, info, item, target) != Unavailable
    ensures item.HeaderLen() == info.headerLen
  {
  }

  /** What ExamineTcp makes of the answers of its two parts. */
  function VerdictOf(can: CanCoalesce, result: CoalesceResult): Verdict {
    match result
    case Success => Join(can)
    case ItemInvalidCsum => DropIt
    case PktInvalidCsum => Reject
    case _ => Skip
  }

  lemma ExamineParts(pkt: View, target: View, info: Info, item: GroItem, offset: nat)
    requires offset <= |pkt.bytes| && Admit(pkt.bytes[offset..], true) == Some(info)
    requires Comparable(target, info, item, offset)
    ensures |pkt.bytes[offset..]| >= info.headerLen >= info.iphLen + 20 && item.iphLen == info.iphLen
    ensures
      var can := TcpCanCoalesce(pkt.bytes[offset..], info, item, target.bytes[offset..]);
      if can == Unavailable then ExamineTcp(pkt, target, info, item, offset) == Skip
      else
        && item.HeaderLen() == info.headerLen
        && ExamineTcp(pkt, target, info, item, offset)
              == VerdictOf(can, TryCoalesce(can, pkt, info, item, target, offset))
  {
    AdmitFacts(pkt.bytes[offset..], true);
    hide Admit, TryCoalesce;
    var can := TcpCanCoalesce(pkt.bytes[offset..], info, item, target.bytes[offset..]);
    if can != Unavailable {
      AvailableHeaders(pkt.bytes[offset..], info, item, target.bytes[offset..]);
    }
    hide TcpCanCoalesce;
  }

  lemma DropSafe(st: GroState, offset: nat, key: FlowKey, p: nat)
    requires Safe(st, offset) && key.TcpKey?
    requires key in st.flows && p < |st.flows[key]|
    ensures FlowSafe(st, offset, key) && ItemSafe(st, offset, key, st.flows[key][p])
    ensures Safe(DropItem(st, key, p), offset)
    ensures forall i :: Fresh(st, i, offset) ==> Fresh(DropItem(st, key, p), i, offset)
    ensures DropItem(st, key, p).bufs == st.bufs && DropItem(st, key, p).flows.Keys == st.flows.Keys
    ensures |DropItem(st, key, p).flows[key]| == |st.flows[key]| - 1
  {
    var items := st.flows[key];
    var st' := DropItem(st, key, p);
    var rest := st'.flows[key];
    assert ItemSafe(st, offset, key, items[p]);
    forall q | 0 <= q < |rest|
      ensures ItemSafe(st', offset, key, rest[q])
    {
      var was := if q < p then q else q + 1;
      assert ItemSafe(st, offset, key, items[was]);
    }
    forall k | k in st'.flows && k != key
      ensures FlowSafe(st', offset, k)
    {
      assert FlowSafe(st, offset, k);
    }
  }

  /**
   The scan of tcpGRO over the first n items of the packet's flow, last item
   first. Deleting an item moves only items that have been looked at already.
   */
  function TcpScan(e: Endian, st: GroState, i: nat, info: Info, n: nat, offset: nat): GroState
    requires Safe(st, offset) && Fresh(st, i, offset)
    requires Admit(st.bufs[i].bytes[offset..], true) == Some(info) && info.key.TcpKey?
    requires info.key in st.flows && n <= |st.flows[info.key]|
    decreases n
  {
    if n == 0 then Insert(st, i, info, false, offset)
    else
      hide FlowSafe, ExamineTcp, TcpCanCoalesce, TryCoalesce, Admit, DropItem, MergeInto;
      DropSafe(st, offset, info.key, n - 1);
      AdmitFacts(st.bufs[i].bytes[offset..], true);
      var item := st.flows[info.key][n - 1];
      ExamineParts(st.bufs[i], st.bufs[item.bufsIndex], info, item, offset);
      match ExamineTcp(st.bufs[i], st.bufs[item.bufsIndex], info, item, offset)
      case Skip => TcpScan(e, st, i, info, n - 1, offset)
      case DropIt => TcpScan(e, DropItem(st, info.key, n - 1), i, info, n - 1, offset)
      case Reject => LeaveAlone(e, st, i, offset)
      case Join(mode) => MergeInto(st, i, info, n - 1, mode, offset)
  }

  /** udpGRO after its checks: only the last item of the flow is considered. */
  function UdpStep(st: GroState, i: nat, info: Info, offset: nat): GroState
    requires Safe(st, offset) && Fresh(st, i, offset)
    requires Admit(st.bufs[i].bytes[offset..], true) == Some(info) && info.key.UdpKey?
  {
    var pkt := st.bufs[i].bytes[offset..];
    if info.key !in st.flows then Insert(st, i, info, false, offset)
    else
      assert FlowSafe(st, offset, info.key);
      var p := |st.flows[info.key]| - 1;
      var item := st.flows[info.key][p];
      assert ItemSafe(st, offset, info.key, item);
      var target := st.bufs[item.bufsIndex];
      AdmitFacts(pkt, true);
      if UdpCanCoalesce(pkt, info, item, target.bytes[offset..]) != Append then
        Insert(st, i, info, false, offset)
      else
        match TryCoalesce(Append, st.bufs[i], info, item, target, offset)
        case Success => MergeInto(st, i, info, p, Append, offset)
        case PktInvalidCsum => Insert(st, i, info, true, offset)
        case _ => Insert(st, i, info, false, offset)
  }

  /** One turn of the loop of handleGRO: packet i. */
  function Step(e: Endian, st: GroState, i: nat, offset: nat, canUDP: bool): GroState
    requires Safe(st, offset) && Fresh(st, i, offset)
  {
    var pkt := st.bufs[i].bytes[offset..];
    var info := Admit(pkt, canUDP);
    if info.None? then LeaveAlone(e, st, i, offset)
    else if info.value.key.UdpKey? then UdpStep(st, i, info.value, offset)
    else if info.value.key !in st.flows then Insert(st, i, info.value, false, offset)
    else TcpScan(e, st, i, info.value, |st.flows[info.value.key]|, offset)
  }

  /** Everything but packet i's own buffer and the buffers of earlier packets is left as it was. */
  ghost predicate LaterUntouched(st: GroState, st': GroState, i: nat) {
    && |st'.bufs| == |st.bufs| && |st'.fate| == |st.fate| && |st'.origin| == |st.origin|
    && |st.fate| == |st.bufs| && |st.origin| == |st.bufs|
    && forall j :: i < j < |st.bufs| ==>
         st'.fate[j] == st.fate[j] && st'.bufs[j] == st.bufs[j] && st'.origin[j] == st.origin[j]
  }

  lemma LeaveAloneSafe(e: Endian, st: GroState, i: nat, offset: nat)
    requires Safe(st, offset) && Fresh(st, i, offset)
    ensures Safe(LeaveAlone(e, st, i, offset), offset)
    ensures LaterUntouched(st, LeaveAlone(e, st, i, offset), i)
  {
    hide WithHeader;
    var st' := LeaveAlone(e, st, i, offset);
    forall key | key in st'.flows
      ensures FlowSafe(st', offset, key)
    {
      assert FlowSafe(st, offset, key);
      forall p | 0 <= p < |st.flows[key]|
        ensures ItemSafe(st', offset, key, st.flows[key][p])
      {
        assert ItemSafe(st, offset, key, st.flows[key][p]);
      }
    }
  }

  /** A new item is safe, and comes after every item of its flow. */
  lemma NewItemSafe(pkt: seq<byte>, info: Info, i: nat, known: bool)
    requires Admit(pkt, true) == Some(info) && i < TWO16
    ensures |pkt| >= info.headerLen >= info.iphLen + 8
    ensures info.key.TcpKey? ==> info.headerLen >= info.iphLen + 20
    ensures
      var item := NewItem(pkt, info, i, known);
      && item.key == info.key && (item.TcpItem? <==> info.key.TcpKey?)
      && item.iphLen == info.iphLen == MinIpHeader(info.key.isV6)
      && item.HeaderLen() == info.headerLen < |pkt|
      && (item.TcpItem? ==> 20 <= item.tcphLen <= 60)
      && item.gsoSize == info.gsoSize > 0
      && item.bufsIndex == i && item.numMerged == 0
      && (item.TcpItem? ==> item.sentSeq == info.seqNo && item.pshSet == info.pshSet)
  {
    AdmitFacts(pkt, true);
  }

  lemma InsertSafe(st: GroState, i: nat, info: Info, known: bool, offset: nat)
    requires Safe(st, offset) && Fresh(st, i, offset)
    requires Admit(st.bufs[i].bytes[offset..], true) == Some(info)
    ensures Safe(Insert(st, i, info, known, offset), offset)
    ensures LaterUntouched(st, Insert(st, i, info, known, offset), i)
  {
    var pkt := st.bufs[i].bytes[offset..];
    NewItemSafe(pkt, info, i, known);
    var item := NewItem(pkt, info, i, known);
    hide NewItem, Admit;
    var st' := Insert(st, i, info, known, offset);
    assert st'.flows == st.flows[info.key := FlowItems(st, info.key) + [item]];
    forall key | key in st'.flows
      ensures FlowSafe(st', offset, key)
    {
      if key in st.flows {
        assert FlowSafe(st, offset, key);
        forall p | 0 <= p < |st.flows[key]|
          ensures ItemSafe(st', offset, key, st.flows[key][p]) && st.flows[key][p].bufsIndex < i
        {
          assert ItemSafe(st, offset, key, st.flows[key][p]);
        }
      }
      if key == info.key {
        assert ItemSafe(st', offset, key, item);
      }
    }
  }

  /** Merging into item p keeps item q of any flow in place and safe. */
  lemma MergeKeepsItem(st: GroState, i: nat, info: Info, p: nat, mode: CanCoalesce, offset: nat, key: FlowKey, q: nat)
    requires Safe(st, offset) && Fresh(st, i, offset) && mode != Unavailable
    requires info.key in st.flows && p < |st.flows[info.key]| && ItemSafe(st, offset, info.key, st.flows[info.key][p])
    requires offset + st.flows[info.key][p].HeaderLen() <= |st.bufs[i].bytes|
    requires key in st.flows && q < |st.flows[key]|
    ensures
      var st' := MergeInto(st, i, info, p, mode, offset);
      && key in st'.flows && |st'.flows[key]| == |st.flows[key]|
      && st'.flows[key][q].bufsIndex == st.flows[key][q].bufsIndex
      && ItemSafe(st', offset, key, st'.flows[key][q])
  {
    assert FlowSafe(st, offset, info.key) && FlowSafe(st, offset, key);
    var other := st.flows[key][q];
    assert ItemSafe(st, offset, key, other);
    if !(key == info.key && q == p) {
      assert other.bufsIndex != i && other.bufsIndex != st.flows[info.key][p].bufsIndex;
      hide MergedView;
    }
  }

  lemma HeldBefore(st: GroState, i: nat, offset: nat, key: FlowKey, item: GroItem)
    requires |st.fate| == |st.bufs| && Fresh(st, i, offset) && ItemSafe(st, offset, key, item)
    ensures item.bufsIndex < i
  {
  }

  /** Merging changes only buffer i and the item's buffer, which no other item uses. */
  lemma MergeSafe(st: GroState, i: nat, info: Info, p: nat, mode: CanCoalesce, offset: nat)
    requires Safe(st, offset) && Fresh(st, i, offset) && mode != Unavailable
    requires info.key in st.flows && p < |st.flows[info.key]| && ItemSafe(st, offset, info.key, st.flows[info.key][p])
    requires offset + st.flows[info.key][p].HeaderLen() <= |st.bufs[i].bytes|
    ensures Safe(MergeInto(st, i, info, p, mode, offset), offset)
    ensures LaterUntouched(st, MergeInto(st, i, info, p, mode, offset), i)
  {
    hide MergedView, MergedItem, ItemSafe;
    HeldBefore(st, i, offset, info.key, st.flows[info.key][p]);
    MergeKeepsItem(st, i, info, p, mode, offset, info.key, p);
    var st' := MergeInto(st, i, info, p, mode, offset);
    forall key | key in st'.flows
      ensures FlowSafe(st', offset, key)
    {
      assert FlowSafe(st, offset, key);
      forall q | 0 <= q < |st.flows[key]|
        ensures |st'.flows[key]| == |st.flows[key]|
        ensures ItemSafe(st', offset, key, st'.flows[key][q])
        ensures st'.flows[key][q].bufsIndex == st.flows[key][q].bufsIndex
      {
        MergeKeepsItem(st, i, info, p, mode, offset, key, q);
      }
    }
  }

  lemma {:induction false} ScanSafe(e: Endian, st: GroState, i: nat, info: Info, n: nat, offset: nat)
    requires Safe(st, offset) && Fresh(st, i, offset)
    requires Admit(st.bufs[i].bytes[offset..], true) == Some(info) && info.key.TcpKey?
    requires info.key in st.flows && n <= |st.flows[info.key]|
    ensures Safe(TcpScan(e, st, i, info, n, offset), offset)
    ensures LaterUntouched(st, TcpScan(e, st, i, info, n, offset), i)
    decreases n
  {
    hide Admit, ExamineTcp, TcpCanCoalesce, TryCoalesce, Insert, LeaveAlone, MergeInto, FlowSafe;
    if n == 0 {
      InsertSafe(st, i, info, false, offset);
    } else {
      DropSafe(st, offset, info.key, n - 1);
      AdmitFacts(st.bufs[i].bytes[offset..], true);
      var item := st.flows[info.key][n - 1];
      ExamineParts(st.bufs[i], st.bufs[item.bufsIndex], info, item, offset);
      match ExamineTcp(st.bufs[i], st.bufs[item.bufsIndex], info, item, offset)
      case Skip => ScanSafe(e, st, i, info, n - 1, offset);
      case DropIt =>
        var st' := DropItem(st, info.key, n - 1);
        ScanSafe(e, st', i, info, n - 1, offset);
        assert LaterUntouched(st, st', i);
      case Reject => LeaveAloneSafe(e, st, i, offset);
      case Join(mode) => MergeSafe(st, i, info, n - 1, mode, offset);
    }
  }

  lemma UdpStepSafe(st: GroState, i: nat, info: Info, offset: nat)
    requires Safe(st, offset) && Fresh(st, i, offset)
    requires Admit(st.bufs[i].bytes[offset..], true) == Some(info) && info.key.UdpKey?
    ensures Safe(UdpStep(st, i, info, offset), offset)
    ensures LaterUntouched(st, UdpStep(st, i, info, offset), i)
  {
    hide LaterUntouched, Insert, MergeInto, TryCoalesce, UdpCanCoalesce, Admit, Safe;
    InsertSafe(st, i, info, false, offset);
    InsertSafe(st, i, info, true, offset);
    if info.key in st.flows {
      UdpTarget(st, i, info, offset);
      MergeSafe(st, i, info, |st.flows[info.key]| - 1, Append, offset);
    }
  }

  /** The last item of a UDP flow can be compared with a datagram of the flow. */
  lemma UdpTarget(st: GroState, i: nat, info: Info, offset: nat)
    requires Safe(st, offset) && Fresh(st, i, offset)
    requires Admit(st.bufs[i].bytes[offset..], true) == Some(info) && info.key.UdpKey?
    requires info.key in st.flows
    ensures FlowSafe(st, offset, info.key) && |st.flows[info.key]| > 0
    ensures
      var item := st.flows[info.key][|st.flows[info.key]| - 1];
      && ItemSafe(st, offset, info.key, item)
      && item.iphLen == info.iphLen && offset + item.HeaderLen() <= |st.bufs[i].bytes|
  {
    assert FlowSafe(st, offset, info.key);
    assert ItemSafe(st, offset, info.key, st.flows[info.key][|st.flows[info.key]| - 1]);
    AdmitFacts(st.bufs[i].bytes[offset..], true);
  }

  /** Every step keeps the tables and buffers fitting together, and looks only at packet i and earlier ones. */
  lemma StepSafe(e: Endian, st: GroState, i: nat, offset: nat, canUDP: bool)
    requires Safe(st, offset) && Fresh(st, i, offset)
    ensures Safe(Step(e, st, i, offset, canUDP), offset)
    ensures LaterUntouched(st, Step(e, st, i, offset, canUDP), i)
  {
    var pkt := st.bufs[i].bytes[offset..];
    AdmitFacts(pkt, canUDP);
    var admitted := Admit(pkt, canUDP);
    hide Admit, Safe, LaterUntouched, UdpStep, TcpScan, Insert, LeaveAlone;
    if admitted.None? {
      LeaveAloneSafe(e, st, i, offset);
    } else {
      var info := admitted.value;
      if info.key.UdpKey? {
        UdpStepSafe(st, i, info, offset);
      } else if info.key !in st.flows {
        InsertSafe(st, i, info, false, offset);
      } else {
        ScanSafe(e, st, i, info, |st.flows[info.key]|, offset);
      }
    }
  }

  /** The loop of handleGRO from packet i on; the flag is false when it stopped at an invalid offset. */
  function GroLoop(e: Endian, st: GroState, i: nat, offset: nat, canUDP: bool): (GroState, bool)
    requires Safe(st, offset) && i <= |st.bufs|
    requires forall j :: i <= j < |st.fate| ==> st.fate[j] == Pending
    decreases |st.bufs| - i
  {
    if i == |st.bufs| then (st, true)
    else if offset < HDR_LEN || offset > |st.bufs[i].bytes| - 1 then (st, false)
    else
      StepSafe(e, st, i, offset, canUDP);
      hide Safe;
      GroLoop(e, Step(e, st, i, offset, canUDP), i + 1, offset, canUDP)
  }
}
