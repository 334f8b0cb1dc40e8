/**
 The read side as values: what handleVirtioRead accepts, and which packets it
 produces from a frame (offload_linux.go, tun_linux.go).
 */
module Gso {
  import opened Bytes
  import opened OnesComplement
  import opened InternetChecksum
  import opened Segments
  import opened Packets
  import opened Virtio

  datatype ReadError =
    | ShortHeader
    | NoOutputBuffers
    | ShortSizes
    | InvalidOffset(buffer: nat)
    | ShortBuffer(buffer: nat)
    | ChecksumPosition
    | UnsupportedGsoType
    | EmptyPacket
    | IpVersion
    | ZeroGsoSize
    | IpHeaderLength
    | CsumStartTooLarge
    | PacketTooShort
    | HeaderBeforeChecksumStart
    | NoPayload
    | TransportHeaderLength
    | ChecksumOffset
    | TooManySegments
    | SegmentTooLong(segment: nat)

  datatype Result<+T> = Ok(value: T) | Err(error: ReadError)

  datatype Check = Pass | Fail(error: ReadError)

  function ValidateOutputs(outputs: nat, sizes: nat): Check {
    if outputs == 0 then Fail(NoOutputBuffers)
    else if sizes < outputs then Fail(ShortSizes)
    else Pass
  }

  function ValidateOutputOffset(outLen: nat, offset: int, buffer: nat): Check {
    if offset < 0 || offset > outLen then Fail(InvalidOffset(buffer)) else Pass
  }

  function ValidateChecksumPosition(packetLen: int, csumStart: uint16, csumOffset: uint16): Check {
    if csumStart > packetLen || csumStart as int + csumOffset as int > packetLen - 2 then Fail(ChecksumPosition)
    else Pass
  }

  predicate IsTcpGso(h: Header) {
    h.gsoType == GSO_TCPV4 || h.gsoType == GSO_TCPV6
  }

  /** The checks of validateGSOSplit before its loop; the value is the segment count. */
  function ValidateFrame(pkt: seq<byte>, h: Header, outputs: nat, sizes: nat, isV6: bool): Result<nat> {
    var out := ValidateOutputs(outputs, sizes);
    if out.Fail? then Err(out.error)
    else if h.gsoSize == 0 then Err(ZeroGsoSize)
    else if |pkt| == 0 then Err(EmptyPacket)
    else if pkt[0] / 16 != (if isV6 then 6 else 4) then Err(IpVersion)
    else if !IsTcpGso(h) && h.gsoType != GSO_UDP_L4 then Err(UnsupportedGsoType)
    else if h.gsoType == (if isV6 then GSO_TCPV4 else GSO_TCPV6) then Err(IpVersion)
    else if h.csumStart < MinIpHeader(isV6) then Err(IpHeaderLength)
    else if !isV6 && (pkt[0] as int % 16) * 4 != h.csumStart then Err(IpHeaderLength)
    else if h.hdrLen < h.csumStart then Err(HeaderBeforeChecksumStart)
    else if h.hdrLen > |pkt| then Err(PacketTooShort)
    else if h.hdrLen == |pkt| then Err(NoPayload)
    else
      var position := ValidateChecksumPosition(h.hdrLen, h.csumStart, h.csumOffset);
      var transportLen := h.hdrLen as int - h.csumStart as int;
      if position.Fail? then Err(position.error)
      else if !IsTcpGso(h) && transportLen != UDP_HEADER_LEN then Err(TransportHeaderLength)
      else if !IsTcpGso(h) && h.csumOffset != 6 then Err(ChecksumOffset)
      else if IsTcpGso(h) && (transportLen < 20 || transportLen > 60 || transportLen % 4 != 0) then
        Err(TransportHeaderLength)
      else if IsTcpGso(h) && (pkt[h.csumStart + 12] as int / 16) * 4 != transportLen then Err(TransportHeaderLength)
      else if IsTcpGso(h) && h.csumOffset != 16 then Err(ChecksumOffset)
      else
        var count := Count(|pkt| - h.hdrLen, h.gsoSize);
        if count > outputs then Err(TooManySegments)
        else if count > sizes then Err(ShortSizes)
        else Ok(count)
  }

  function Min(a: int, b: int): int {
    if a < b then a else b
  }

  /** One turn of the loop of validateGSOSplit, for a segment with dataLen payload bytes. */
  function ValidateSegment(h: Header, dataLen: int, i: nat, outLen: nat, offset: int, isV6: bool): Check {
    var at := ValidateOutputOffset(outLen, offset, i);
    var totalLen := h.hdrLen as int + dataLen;
    if at.Fail? then at
    else if (if isV6 then totalLen - 40 else totalLen) > MAX_UINT16 then Fail(SegmentTooLong(i))
    else if totalLen - h.csumStart as int > MAX_UINT16 then Fail(SegmentTooLong(i))
    else if totalLen > outLen - offset then Fail(ShortBuffer(i))
    else Pass
  }

  /** The loop of validateGSOSplit from segment i on, with remaining payload bytes left. */
  function ValidateSegments(h: Header, count: nat, i: nat, remaining: int, outLens: seq<nat>, offset: int,
                            isV6: bool): Check
    requires i <= count <= |outLens|
    decreases count - i
  {
    if i == count then Pass
    else
      var dataLen := Min(h.gsoSize, remaining);
      var segment := ValidateSegment(h, dataLen, i, outLens[i], offset, isV6);
      if segment.Fail? then segment
      else ValidateSegments(h, count, i + 1, remaining - dataLen, outLens, offset, isV6)
  }

  function ValidateSplit(pkt: seq<byte>, h: Header, outLens: seq<nat>, sizes: nat, offset: int,
                         isV6: bool): Result<nat> {
    var frame := ValidateFrame(pkt, h, |outLens|, sizes, isV6);
    if frame.Err? then frame
    else
      var segments := ValidateSegments(h, frame.value, 0, |pkt| - h.hdrLen, outLens, offset, isV6);
      if segments.Fail? then Err(segments.error) else frame
  }

  /** What the header checks establish: the headers lie inside the packet, in order, and something follows them. */
  predicate Splittable(pkt: seq<byte>, h: Header, isV6: bool) {
    && h.gsoSize > 0
    && MinIpHeader(isV6) <= h.csumStart <= h.hdrLen < |pkt|
    && (!isV6 ==> h.csumStart % 4 == 0)
    && (if IsTcpGso(h) then 20 <= h.hdrLen as int - h.csumStart as int <= 60 && h.csumOffset == 16
        else h.hdrLen as int - h.csumStart as int == 8 && h.csumOffset == 6)
  }

  function Payload(pkt: seq<byte>, h: Header): seq<byte>
    requires h.hdrLen <= |pkt|
  {
    pkt[h.hdrLen..]
  }

  function Chunks(pkt: seq<byte>, h: Header): seq<seq<byte>>
    requires h.hdrLen <= |pkt| && h.gsoSize > 0
  {
    Split(Payload(pkt, h), h.gsoSize)
  }

  /** A segment with dataLen payload bytes has lengths that its 16-bit fields can hold. */
  predicate LengthsFit(h: Header, dataLen: nat, isV6: bool) {
    && h.hdrLen as int + dataLen - (if isV6 then 40 else 0) <= MAX_UINT16
    && h.hdrLen as int + dataLen - h.csumStart as int <= MAX_UINT16
  }

  /** The IP header of segment i, totalLen bytes long in all, made from the header ip of the whole packet. */
  function SegmentIp(ip: seq<byte>, i: nat, totalLen: nat, isV6: bool): (r: seq<byte>)
    requires |ip| >= MinIpHeader(isV6)
    requires if isV6 then 0 <= totalLen - |ip| <= MAX_UINT16 else totalLen <= MAX_UINT16
    ensures |r| == |ip|
  {
    if isV6 then Put16(ip, 4, totalLen - |ip|)
    else
      var numbered := if i > 0 then Put16(ip, 4, Low16(Get16(ip, 4) + Low16(i))) else ip;
      SealIpv4(Put16(numbered, 2, totalLen))
  }

  /** out &^= FIN | PSH: bits 0 and 3 are cleared, the other six kept. */
  function ClearFinPsh(flags: byte): byte {
    16 * (flags / 16) + 2 * (flags / 2 % 4)
  }

  /** The transport header of a segment before its checksum: th is that of the whole packet, at the payload position. */
  function SegmentTransport(th: seq<byte>, tcp: bool, position: nat, last: bool, dataLen: nat): (r: seq<byte>)
    requires |th| >= (if tcp then 20 else 8)
    ensures |r| == |th|
  {
    if tcp then
      var cleared := Put16(th, 16, 0);
      var numbered := Put32(cleared, 4, Low32(Get32(th, 4) + Low32(position)));
      if last then numbered else numbered[13 := ClearFinPsh(numbered[13])]
    else
      Put16(Put16(th, 6, 0), 4, Low16(Low16(dataLen) + Low16(|th|)))
  }

  function Protocol(h: Header): byte {
    if IsTcpGso(h) then PROTO_TCP else PROTO_UDP
  }

  /** t with the checksum field at its offset at set to the complement of the sum. */
  function SealTransport(t: seq<byte>, at: nat, pseudo: nat): (r: seq<byte>)
    requires at + 2 <= |t|
    ensures |r| == |t|
  {
    NormOf(pseudo + WordSum(t));
    Put16(t, at, 65535 - Norm(pseudo + WordSum(t)))
  }

  /** Segment i exists and its lengths fit their fields. */
  predicate HasSegment(pkt: seq<byte>, h: Header, isV6: bool, i: nat) {
    && Splittable(pkt, h, isV6)
    && i < |Chunks(pkt, h)|
    && LengthsFit(h, |Chunks(pkt, h)[i]|, isV6)
  }

  /** The IP header of segment i. */
  function SegmentHead(pkt: seq<byte>, h: Header, isV6: bool, i: nat): (r: seq<byte>)
    requires HasSegment(pkt, h, isV6, i)
    ensures |r| == h.csumStart
  {
    SegmentIp(pkt[..h.csumStart], i, h.hdrLen + |Chunks(pkt, h)[i]|, isV6)
  }

  /** The transport header of segment i, its checksum field still zero. */
  function SegmentMiddle(pkt: seq<byte>, h: Header, isV6: bool, i: nat): (r: seq<byte>)
    requires HasSegment(pkt, h, isV6, i)
    ensures |r| == h.hdrLen as int - h.csumStart as int
  {
    SegmentTransport(pkt[h.csumStart..h.hdrLen], IsTcpGso(h), i * h.gsoSize, i + 1 == |Chunks(pkt, h)|,
                     |Chunks(pkt, h)[i]|)
  }

  /** The transport header and payload of segment i. */
  function SegmentTail(pkt: seq<byte>, h: Header, isV6: bool, i: nat): (r: seq<byte>)
    requires HasSegment(pkt, h, isV6, i)
    ensures |r| == h.hdrLen as int - h.csumStart as int + |Chunks(pkt, h)[i]|
  {
    var t := SegmentMiddle(pkt, h, isV6, i) + Chunks(pkt, h)[i];
    SealTransport(t, h.csumOffset, PacketPseudo(pkt, Protocol(h), isV6, |t|))
  }

  /** Segment i of the packet. */
  function Segment(pkt: seq<byte>, h: Header, isV6: bool, i: nat): (r: seq<byte>)
    requires HasSegment(pkt, h, isV6, i)
    ensures |r| == h.hdrLen + |Chunks(pkt, h)[i]|
  {
    SegmentHead(pkt, h, isV6, i) + SegmentTail(pkt, h, isV6, i)
  }

  /** handleVirtioRead's own header checks, and the header with a hdrLen parsed from the packet itself. */
  function ParseHeaderLen(pkt: seq<byte>, h: Header): Result<Header> {
    if !IsTcpGso(h) && h.gsoType != GSO_UDP_L4 then Err(UnsupportedGsoType)
    else if |pkt| == 0 then Err(EmptyPacket)
    else if pkt[0] / 16 == 4 && h.gsoType == GSO_TCPV6 then Err(IpVersion)
    else if pkt[0] / 16 == 6 && h.gsoType == GSO_TCPV4 then Err(IpVersion)
    else if pkt[0] / 16 != 4 && pkt[0] / 16 != 6 then Err(IpVersion)
    else if IsTcpGso(h) && h.csumStart as int + 12 >= |pkt| then Err(PacketTooShort)
    else
      var transportLen := if IsTcpGso(h) then (pkt[h.csumStart + 12] as int / 16) * 4 else UDP_HEADER_LEN;
      if IsTcpGso(h) && (transportLen < 20 || transportLen > 60) then Err(TransportHeaderLength)
      else if h.csumStart as int > MAX_UINT16 - transportLen then Err(CsumStartTooLarge)
      else
        var parsed := h.(hdrLen := h.csumStart as int + transportLen);
        if |pkt| < parsed.hdrLen then Err(PacketTooShort)
        else
          var position := ValidateChecksumPosition(parsed.hdrLen, h.csumStart, h.csumOffset);
          if position.Fail? then Err(position.error) else Ok(parsed)
  }

  /** gsoNoneChecksum on a packet whose checksum field lies inside it. */
  function NoneChecksum(pkt: seq<byte>, csumStart: nat, csumOffset: nat): (r: seq<byte>)
    requires csumStart + csumOffset + 2 <= |pkt|
    ensures |r| == |pkt|
  {
    var at := csumStart + csumOffset;
    var initial := Get16(pkt, at);
    var cleared := Put16(pkt, at, 0);
    pkt[..csumStart] + SealTransport(cleared[csumStart..], csumOffset, initial)
  }

  /** The packets that handleVirtioRead delivers, or its error. */
  datatype Outcome = Delivered(packets: seq<seq<byte>>) | Failed(error: ReadError)

  /** The outcome for a frame with gsoType NONE, of which pkt follows the virtio header. */
  function ReadPlain(pkt: seq<byte>, h: Header, outLens: seq<nat>, sizes: nat, offset: int): Outcome {
    var out := ValidateOutputs(|outLens|, sizes);
    if out.Fail? then Failed(out.error)
    else
      var at := ValidateOutputOffset(outLens[0], offset, 0);
      if at.Fail? then Failed(at.error)
      else if |pkt| > outLens[0] - offset then Failed(ShortBuffer(0))
      else if !NeedsCsum(h) then Delivered([pkt])
      else
        var position := ValidateChecksumPosition(|pkt|, h.csumStart, h.csumOffset);
        if position.Fail? then Failed(position.error)
        else Delivered([NoneChecksum(pkt, h.csumStart, h.csumOffset)])
  }

  lemma {:induction false} SegmentsFit(h: Header, payload: seq<byte>, i: nat, outLens: seq<nat>, offset: int,
                                       isV6: bool)
    requires h.gsoSize > 0 && h.csumStart <= h.hdrLen
    requires |Split(payload, h.gsoSize)| <= |outLens| && i <= |Split(payload, h.gsoSize)|
    requires 0 <= i * h.gsoSize
    requires ValidateSegments(h, |Split(payload, h.gsoSize)|, i, |payload| - i * h.gsoSize, outLens, offset, isV6).Pass?
    ensures forall j :: i <= j < |Split(payload, h.gsoSize)| ==>
      && LengthsFit(h, |Split(payload, h.gsoSize)[j]|, isV6)
      && 0 <= offset
      && offset + h.hdrLen + |Split(payload, h.gsoSize)[j]| <= outLens[j]
    decreases |Split(payload, h.gsoSize)| - i
  {
    var parts := Split(payload, h.gsoSize);
    if i < |parts| {
      SplitAt(payload, h.gsoSize, i);
      assert Min(h.gsoSize, |payload| - i * h.gsoSize) == |parts[i]|;
      if i + 1 < |parts| {
        assert (i + 1) * h.gsoSize == i * h.gsoSize + h.gsoSize;
        SegmentsFit(h, payload, i + 1, outLens, offset, isV6);
      }
    }
  }

  /** An accepted frame can be split: every segment is well defined and has room. */
  lemma AcceptedSplit(pkt: seq<byte>, h: Header, outLens: seq<nat>, sizes: nat, offset: int, isV6: bool)
    requires ValidateSplit(pkt, h, outLens, sizes, offset, isV6).Ok?
    ensures Splittable(pkt, h, isV6)
    ensures ValidateSplit(pkt, h, outLens, sizes, offset, isV6).value == |Chunks(pkt, h)|
    ensures 0 < |Chunks(pkt, h)| <= |outLens| <= sizes && 0 <= offset
    ensures forall j :: 0 <= j < |Chunks(pkt, h)| ==>
      && LengthsFit(h, |Chunks(pkt, h)[j]|, isV6)
      && offset + h.hdrLen + |Chunks(pkt, h)[j]| <= outLens[j]
  {
    SplitCount(Payload(pkt, h), h.gsoSize);
    NonEmptySplit(Payload(pkt, h), h.gsoSize);
    SegmentsFit(h, Payload(pkt, h), 0, outLens, offset, isV6);
  }

  /** gsoSplit. */
  function SplitFrame(pkt: seq<byte>, h: Header, outLens: seq<nat>, sizes: nat, offset: int, isV6: bool): Outcome {
    var valid := ValidateSplit(pkt, h, outLens, sizes, offset, isV6);
    if valid.Err? then Failed(valid.error)
    else
      AcceptedSplit(pkt, h, outLens, sizes, offset, isV6);
      Delivered(seq(|Chunks(pkt, h)|, i requires 0 <= i < |Chunks(pkt, h)| => Segment(pkt, h, isV6, i)))
  }

  /** handleVirtioRead on a whole frame, virtio header included. */
  function Read(e: Endian, frame: seq<byte>, outLens: seq<nat>, sizes: nat, offset: int): Outcome {
    if |frame| < HDR_LEN then Failed(ShortHeader)
    else
      var h := Decode(e, frame);
      var pkt := frame[HDR_LEN..];
      if h.gsoType == GSO_NONE then ReadPlain(pkt, h, outLens, sizes, offset)
      else
        var parsed := ParseHeaderLen(pkt, h);
        if parsed.Err? then Failed(parsed.error)
        else SplitFrame(pkt, parsed.value, outLens, sizes, offset, pkt[0] / 16 == 6)
  }
}
