/** Exactly which frames the read side accepts, and what it makes of them, in terms of the frame's bytes. */
module ReadTheorems {
  import opened Bytes
  import opened OnesComplement
  import opened InternetChecksum
  import opened Segments
  import opened Packets
  import opened Virtio
  import opened Gso
  import opened GsoTheorems

  /** The fields of a virtio header are where struct virtio_net_hdr has them. */
  lemma DecodedFields(e: Endian, frame: seq<byte>)
    requires |frame| >= 10
    ensures
      var h := Decode(e, frame);
      && h.flags == frame[0] && h.gsoType == frame[1]
      && h.hdrLen == Word(e, frame[2], frame[3]) && h.gsoSize == Word(e, frame[4], frame[5])
      && h.csumStart == Word(e, frame[6], frame[7]) && h.csumOffset == Word(e, frame[8], frame[9])
  {
    NativeWord(e, frame, 2);
    NativeWord(e, frame, 4);
    NativeWord(e, frame, 6);
    NativeWord(e, frame, 8);
    hide Field;
  }

  lemma NativeWord(e: Endian, b: seq<byte>, at: nat)
    requires at + 2 <= |b|
    ensures Field(e, b, at) == Word(e, b[at], b[at + 1])
  {
    var s := b[at..at + 2];
    assert s[1..] == [b[at + 1]] && s[..1] == [b[at]];
    assert [b[at + 1]][1..] == [] && [b[at]][..0] == [];
    assert LittleValue([b[at + 1]]) == b[at + 1] && BigValue([b[at]]) == b[at];
  }

  // ---------------------------------------------------------------- frames without segmentation

  /** There is room for the packet of a frame with gsoType NONE, and its checksum field is in it. */
  predicate PlainFits(e: Endian, frame: seq<byte>, outLens: seq<nat>, sizes: nat, offset: int)
    requires |frame| >= 10
  {
    && 0 < |outLens| <= sizes
    && 0 <= offset && offset + |frame| - 10 <= outLens[0]
    && (frame[0] % 2 == 1 ==> Word(e, frame[6], frame[7]) + Word(e, frame[8], frame[9]) + 2 <= |frame| - 10)
  }

  lemma PlainDelivered(e: Endian, frame: seq<byte>, outLens: seq<nat>, sizes: nat, offset: int)
    requires |frame| >= 10 && frame[1] == 0
    ensures Read(e, frame, outLens, sizes, offset).Delivered? <==> PlainFits(e, frame, outLens, sizes, offset)
  {
    hide NoneChecksum, Decode;
    DecodedFields(e, frame);
  }

  /** The packet with its checksum field zero, from csumStart on. */
  function Cleared(pkt: seq<byte>, start: nat, at: nat): seq<byte>
    requires start + at + 2 <= |pkt|
  {
    pkt[start + at := 0][start + at + 1 := 0][start..]
  }

  /**
   What is delivered for such a frame is its one packet. Without NEEDS_CSUM it is
   unchanged. With it, the packet differs only in its checksum field, which holds
   the complement of the sum of what was in the field and of the rest; and the
   whole sums to all ones exactly when csumOffset is even or 257 divides the sum.
   */
  lemma PlainPacket(e: Endian, frame: seq<byte>, outLens: seq<nat>, sizes: nat, offset: int)
    requires |frame| >= 10 && frame[1] == 0 && PlainFits(e, frame, outLens, sizes, offset)
    ensures
      var pkt, outcome := frame[10..], Read(e, frame, outLens, sizes, offset);
      && outcome.Delivered? && |outcome.packets| == 1 && |outcome.packets[0]| == |pkt|
      && (frame[0] % 2 == 0 ==> outcome.packets[0] == pkt)
      && (frame[0] % 2 == 1 ==>
           Completed(outcome.packets[0], pkt, Word(e, frame[6], frame[7]), Word(e, frame[8], frame[9])))
  {
    hide NoneChecksum, Decode, Completed;
    DecodedFields(e, frame);
    var pkt := frame[10..];
    if frame[0] % 2 == 1 {
      NoneCompletes(pkt, Word(e, frame[6], frame[7]), Word(e, frame[8], frame[9]));
    }
  }

  predicate Completed(p: seq<byte>, pkt: seq<byte>, start: nat, at: nat)
    requires start + at + 2 <= |pkt|
  {
    var sum := Get16(pkt, start + at) + WordSum(Cleared(pkt, start, at));
    && |p| == |pkt|
    && (forall q :: 0 <= q < |pkt| && q != start + at && q != start + at + 1 ==> p[q] == pkt[q])
    && Get16(p, start + at) == 0xFFFF - FoldAll(sum)
    && (FoldAll(Get16(pkt, start + at) + WordSum(p[start..])) == 0xFFFF <==> at % 2 == 0 || sum % 257 == 0)
  }

  lemma NoneCompletes(pkt: seq<byte>, start: nat, at: nat)
    requires start + at + 2 <= |pkt|
    ensures Completed(NoneChecksum(pkt, start, at), pkt, start, at)
  {
    hide Norm, WordSum, FoldAll;
    NoneChecksumVerifies(pkt, start, at);
    var cleared := Put16(pkt, start + at, 0);
    assert cleared == pkt[start + at := 0][start + at + 1 := 0];
    var sum := Get16(pkt, start + at) + WordSum(Cleared(pkt, start, at));
    var p := NoneChecksum(pkt, start, at);
    FoldAllIsNorm(sum);
    FoldAllIsNorm(Get16(pkt, start + at) + WordSum(p[start..]));
    NoneField(pkt, start, at);
  }

  lemma NoneField(pkt: seq<byte>, start: nat, at: nat)
    requires start + at + 2 <= |pkt|
    ensures
      var p := NoneChecksum(pkt, start, at);
      var sum := Get16(pkt, start + at) + WordSum(Put16(pkt, start + at, 0)[start..]);
      && Get16(p, start + at) == 0xFFFF - Norm(sum)
      && forall q :: 0 <= q < |pkt| && q != start + at && q != start + at + 1 ==> p[q] == pkt[q]
  {
    hide Norm, WordSum;
    var cleared := Put16(pkt, start + at, 0);
    var sealed := SealTransport(cleared[start..], at, Get16(pkt, start + at));
    assert NoneChecksum(pkt, start, at) == pkt[..start] + sealed;
    assert Get16(pkt[..start] + sealed, start + at) == Get16(sealed, at);
  }

  // ---------------------------------------------------------------- segmentation frames

  /** The length of the headers as the packet itself has them. */
  function HeaderLength(pkt: seq<byte>, start: nat, tcp: bool): nat
    requires tcp ==> start + 12 < |pkt|
  {
    start + if tcp then (pkt[start + 12] as int / 16) * 4 else 8
  }

  /** The payload bytes of segment i. */
  function SegmentLen(payload: nat, size: nat, i: nat): int {
    Min(size, payload - i * size)
  }

  /** The number of segments: the payload divided by the segment size, rounded up. */
  function Segmented(payload: nat, size: nat): nat
    requires size > 0
  {
    payload / size + if payload % size != 0 then 1 else 0
  }

  /** The version of the packet is one that the segmentation type is for. */
  predicate TypeFits(gsoType: byte, version: nat) {
    match gsoType
    case 1 => version == 4
    case 4 => version == 6
    case 5 => version == 4 || version == 6
    case _ => false
  }

  /** The headers of a packet are where the virtio header says, and something follows them. */
  predicate HeadersFit(pkt: seq<byte>, gsoType: byte, gsoSize: nat, start: nat, at: nat) {
    && |pkt| > 0 && TypeFits(gsoType, pkt[0] / 16)
    && (if pkt[0] / 16 == 6 then start >= 40 else start >= 20 && start == pkt[0] % 16 * 4)
    && gsoSize > 0
    && (gsoType != 5 ==> start + 12 < |pkt| && pkt[start + 12] as int / 16 >= 5)
    && at == (if gsoType == 5 then 6 else 16)
    && HeaderLength(pkt, start, gsoType != 5) < |pkt|
    && HeaderLength(pkt, start, gsoType != 5) <= 65535
  }

  /** The segments fit their length fields and the output buffers. */
  predicate SegmentsFitOut(payload: nat, size: nat, hdr: nat, isV6: bool, outLens: seq<nat>, sizes: nat, offset: int)
    requires size > 0
  {
    && hdr + Min(size, payload) - (if isV6 then 40 else 0) <= 65535
    && 0 <= offset && Segmented(payload, size) <= |outLens| <= sizes
    && forall i :: 0 <= i < Segmented(payload, size) ==> offset + hdr + SegmentLen(payload, size, i) <= outLens[i]
  }

  /** A frame with a gsoType other than NONE is delivered exactly when its headers and segments fit. */
  predicate GsoFits(e: Endian, frame: seq<byte>, outLens: seq<nat>, sizes: nat, offset: int)
    requires |frame| >= 10
  {
    var pkt, size, start := frame[10..], Word(e, frame[4], frame[5]), Word(e, frame[6], frame[7]);
    && HeadersFit(pkt, frame[1], size, start, Word(e, frame[8], frame[9]))
    && var hdr := HeaderLength(pkt, start, frame[1] != 5);
    SegmentsFitOut(|pkt| - hdr, size, hdr, pkt[0] / 16 == 6, outLens, sizes, offset)
  }

  /** The header length is taken from the packet, for every packet whose headers fit. */
  lemma HeaderParsed(pkt: seq<byte>, h: Header)
    ensures
      var parsed := ParseHeaderLen(pkt, h);
      && (HeadersFit(pkt, h.gsoType, h.gsoSize, h.csumStart, h.csumOffset) ==> parsed.Ok?)
      && (parsed.Ok? ==>
           && |pkt| > 0 && TypeFits(h.gsoType, pkt[0] / 16) && (h.gsoType != 5 ==> h.csumStart as int + 12 < |pkt|)
           && parsed.value == h.(hdrLen := parsed.value.hdrLen)
           && parsed.value.hdrLen == HeaderLength(pkt, h.csumStart, h.gsoType != 5) <= |pkt|
           && (h.gsoType != 5 ==> pkt[h.csumStart + 12] as int / 16 >= 5))
  {
  }

  /** The checks of validateGSOSplit before its loop pass exactly when the headers fit and there are enough outputs. */
  lemma FrameChecked(pkt: seq<byte>, h: Header, outputs: nat, sizes: nat)
    requires |pkt| > 0 && TypeFits(h.gsoType, pkt[0] / 16) && (h.gsoType != 5 ==> h.csumStart as int + 12 < |pkt|)
    requires h.hdrLen == HeaderLength(pkt, h.csumStart, h.gsoType != 5) <= |pkt|
    requires h.gsoType != 5 ==> pkt[h.csumStart + 12] as int / 16 >= 5
    ensures
      var frame := ValidateFrame(pkt, h, outputs, sizes, pkt[0] / 16 == 6);
      var fits := HeadersFit(pkt, h.gsoType, h.gsoSize, h.csumStart, h.csumOffset);
      && (frame.Ok? ==> fits)
      && (fits ==>
           && (frame.Ok? <==> 0 < outputs <= sizes && Segmented(|pkt| - h.hdrLen, h.gsoSize) <= outputs)
           && (frame.Ok? ==> frame.value == Segmented(|pkt| - h.hdrLen, h.gsoSize)))
  {
  }

  /** The loop over the segments passes exactly when each of them does. */
  lemma {:induction false} SegmentsChecked(h: Header, payload: nat, count: nat, i: nat, outLens: seq<nat>, offset: int,
                                           isV6: bool)
    requires h.gsoSize > 0 && i <= count <= |outLens| && (count > 0 ==> (count - 1) * h.gsoSize <= payload)
    ensures ValidateSegments(h, count, i, payload - i * h.gsoSize, outLens, offset, isV6).Pass?
      <==> forall j :: i <= j < count ==>
             ValidateSegment(h, SegmentLen(payload, h.gsoSize, j), j, outLens[j], offset, isV6).Pass?
    decreases count - i
  {
    hide ValidateSegment;
    if i < count {
      SegmentsBefore(h.gsoSize, payload, count, i);
      SegmentsChecked(h, payload, count, i + 1, outLens, offset, isV6);
    }
  }

  lemma SegmentCount(payload: nat, size: nat)
    requires payload > 0 && size > 0
    ensures Segmented(payload, size) >= 1 && (Segmented(payload, size) - 1) * size <= payload
  {
    var q, r := payload / size, payload % size;
    assert payload == q * size + r;
    if r == 0 {
      assert (q - 1) * size == q * size - size;
      assert q != 0;
    }
  }

  /** No segment is longer than the first, and none has a negative length. */
  lemma FirstIsLongest(payload: nat, size: nat, count: nat, j: nat)
    requires size > 0 && j < count && (count - 1) * size <= payload
    ensures 0 <= SegmentLen(payload, size, j) <= SegmentLen(payload, size, 0) == Min(size, payload)
  {
    assert (count - 1) * size == j * size + (count - 1 - j) * size;
    assert j * size >= 0 && (count - 1 - j) * size >= 0;
    assert 0 * size == 0;
  }

  /** All segments pass exactly when they fit their length fields and the outputs. */
  lemma SegmentsPass(pkt: seq<byte>, h: Header, outLens: seq<nat>, sizes: nat, offset: int)
    requires HeadersFit(pkt, h.gsoType, h.gsoSize, h.csumStart, h.csumOffset)
    requires h.hdrLen == HeaderLength(pkt, h.csumStart, h.gsoType != 5)
    requires Segmented(|pkt| - h.hdrLen, h.gsoSize) <= |outLens| <= sizes
    ensures ValidateSegments(h, Segmented(|pkt| - h.hdrLen, h.gsoSize), 0, |pkt| - h.hdrLen, outLens, offset,
                             pkt[0] / 16 == 6).Pass?
      <==> SegmentsFitOut(|pkt| - h.hdrLen, h.gsoSize, h.hdrLen, pkt[0] / 16 == 6, outLens, sizes, offset)
  {
    hide ValidateSegments;
    var payload, size, isV6 := |pkt| - h.hdrLen, h.gsoSize, pkt[0] / 16 == 6;
    var count := Segmented(payload, size);
    SegmentCount(payload, size);
    SegmentsChecked(h, payload, count, 0, outLens, offset, isV6);
    assert payload - 0 * size == payload;
    forall j | 0 <= j < count
      ensures 0 <= SegmentLen(payload, size, j) <= SegmentLen(payload, size, 0) == Min(size, payload)
    {
      FirstIsLongest(payload, size, count, j);
    }
    hide SegmentLen, Segmented;
    forall j | 0 <= j < count
      ensures ValidateSegment(h, SegmentLen(payload, size, j), j, outLens[j], offset, isV6).Pass?
        <==> 0 <= offset && offset + h.hdrLen + SegmentLen(payload, size, j) <= outLens[j]
             && h.hdrLen + SegmentLen(payload, size, j) - (if isV6 then 40 else 0) <= 65535
    {
    }
    hide ValidateSegment;
    if count > 0 && !(h.hdrLen + Min(size, payload) - (if isV6 then 40 else 0) <= 65535) {
      assert !ValidateSegment(h, SegmentLen(payload, size, 0), 0, outLens[0], offset, isV6).Pass?;
    }
    assert ValidateSegment(h, SegmentLen(payload, size, 0), 0, outLens[0], offset, isV6).Pass? ==> 0 <= offset;
  }

  /** Exactly which frames with a segmentation type are delivered. */
  lemma GsoDelivered(e: Endian, frame: seq<byte>, outLens: seq<nat>, sizes: nat, offset: int)
    requires |frame| >= 10 && frame[1] != 0
    ensures Read(e, frame, outLens, sizes, offset).Delivered? <==> GsoFits(e, frame, outLens, sizes, offset)
  {
    hide Decode, ParseHeaderLen, ValidateFrame, ValidateSegments, Segment, HeadersFit, SegmentsFitOut;
    DecodedFields(e, frame);
    var pkt, h := frame[10..], Decode(e, frame);
    HeaderParsed(pkt, h);
    var parsed := ParseHeaderLen(pkt, h);
    if parsed.Ok? {
      FrameChecked(pkt, parsed.value, |outLens|, sizes);
      if ValidateFrame(pkt, parsed.value, |outLens|, sizes, pkt[0] / 16 == 6).Ok? {
        SegmentsPass(pkt, parsed.value, outLens, sizes, offset);
      }
    }
    if GsoFits(e, frame, outLens, sizes, offset) {
      FittingSizes(pkt, h, outLens, sizes, offset);
    }
  }

  lemma FittingSizes(pkt: seq<byte>, h: Header, outLens: seq<nat>, sizes: nat, offset: int)
    requires HeadersFit(pkt, h.gsoType, h.gsoSize, h.csumStart, h.csumOffset)
    requires var hdr := HeaderLength(pkt, h.csumStart, h.gsoType != 5);
      SegmentsFitOut(|pkt| - hdr, h.gsoSize, hdr, pkt[0] / 16 == 6, outLens, sizes, offset)
    ensures var hdr := HeaderLength(pkt, h.csumStart, h.gsoType != 5);
      0 < |outLens| <= sizes && Segmented(|pkt| - hdr, h.gsoSize) <= |outLens|
  {
    SegmentCount(|pkt| - HeaderLength(pkt, h.csumStart, h.gsoType != 5), h.gsoSize);
  }

  lemma SegmentsBefore(size: nat, payload: nat, count: nat, i: nat)
    requires i < count && (count - 1) * size <= payload
    ensures i + 1 < count ==> SegmentLen(payload, size, i) == size
    ensures payload - i * size - size == payload - (i + 1) * size
  {
    Distribute(i, 1, size);
    if i + 1 < count {
      Distribute(i + 1, count - 2 - i, size);
    }
  }

  lemma Distribute(a: nat, b: nat, size: nat)
    ensures (a + b) * size == a * size + b * size && b * size >= 0
    ensures b == 1 ==> b * size == size
  {
  }

  /** Nothing depends on the header length that the kernel reports in bytes 2 and 3. */
  lemma HdrLenIgnored(e: Endian, frame: seq<byte>, frame': seq<byte>, outLens: seq<nat>, sizes: nat, offset: int)
    requires |frame| == |frame'| >= 10
    requires forall p :: 0 <= p < |frame| && p != 2 && p != 3 ==> frame[p] == frame'[p]
    ensures Read(e, frame, outLens, sizes, offset) == Read(e, frame', outLens, sizes, offset)
  {
    hide Decode, SplitFrame, NoneChecksum;
    DecodedFields(e, frame);
    DecodedFields(e, frame');
    assert frame[10..] == frame'[10..];
    var h, h' := Decode(e, frame), Decode(e, frame');
    assert h' == h.(hdrLen := h'.hdrLen);
    ParseIgnores(frame[10..], h, h'.hdrLen);
    hide ParseHeaderLen;
  }

  lemma ParseIgnores(pkt: seq<byte>, h: Header, hdrLen: uint16)
    ensures ParseHeaderLen(pkt, h.(hdrLen := hdrLen)) == ParseHeaderLen(pkt, h)
  {
  }

  /** The virtio header of a frame with the header length that its packet has. */
  function ParsedHeader(e: Endian, frame: seq<byte>): Header
    requires |frame| >= 10 && frame[1] != 0
    requires HeadersFit(frame[10..], frame[1], Word(e, frame[4], frame[5]), Word(e, frame[6], frame[7]),
                        Word(e, frame[8], frame[9]))
  {
    var start := Word(e, frame[6], frame[7]);
    Header(frame[0], frame[1], HeaderLength(frame[10..], start, frame[1] != 5), Word(e, frame[4], frame[5]), start,
           Word(e, frame[8], frame[9]))
  }

  /**
   What is delivered for such a frame: as many packets as the payload has
   segments, in order, each with its share of the payload behind headers that are
   the packet's own but for lengths, identification, sequence number, flags and
   checksums, which are right for it.
   */
  lemma GsoPackets(e: Endian, frame: seq<byte>, outLens: seq<nat>, sizes: nat, offset: int, i: nat)
    requires |frame| >= 10 && frame[1] != 0 && GsoFits(e, frame, outLens, sizes, offset)
    ensures
      var pkt, h, outcome := frame[10..], ParsedHeader(e, frame), Read(e, frame, outLens, sizes, offset);
      var isV6 := pkt[0] / 16 == 6;
      && outcome.Delivered? && |outcome.packets| == Segmented(|pkt| - h.hdrLen, h.gsoSize)
      && (i < |outcome.packets| ==>
           var s := outcome.packets[i];
           && HasSegment(pkt, h, isV6, i) && |s| >= h.hdrLen
           && IpFieldsOf(s, pkt, h, isV6, i) && TransportFieldsOf(s, pkt, h, isV6, i)
           && ChecksumOk(s, h.csumStart, if frame[1] == 5 then 17 else 6, isV6)
           && (!isV6 ==> Norm(WordSum(s[..h.csumStart])) == 65535)
           && 0 <= i * h.gsoSize && h.hdrLen + i * h.gsoSize + SegmentLen(|pkt| - h.hdrLen, h.gsoSize, i) <= |pkt|
           && SegmentLen(|pkt| - h.hdrLen, h.gsoSize, i) > 0
           && s[h.hdrLen..] == pkt[h.hdrLen + i * h.gsoSize..][..SegmentLen(|pkt| - h.hdrLen, h.gsoSize, i)])
  {
    hide Decode, ParseHeaderLen, Segment, HeadersFit, SegmentsFitOut, ValidateSplit, Chunks, ChecksumOk, Norm, WordSum,
         IpFieldsOf, TransportFieldsOf, LengthsFit;
    DecodedFields(e, frame);
    GsoDelivered(e, frame, outLens, sizes, offset);
    var pkt, h := frame[10..], Decode(e, frame);
    HeaderParsed(pkt, h);
    var parsed := ParseHeaderLen(pkt, h).value;
    assert parsed == ParsedHeader(e, frame);
    AcceptedSplit(pkt, parsed, outLens, sizes, offset, pkt[0] / 16 == 6);
    ChunkCount(pkt, parsed);
    if i < |Chunks(pkt, parsed)| {
      SegmentFields(pkt, parsed, pkt[0] / 16 == 6, i);
      SegmentVerifies(pkt, parsed, pkt[0] / 16 == 6, i);
      ChunkAt(pkt, parsed, i);
    }
  }

  lemma ChunkCount(pkt: seq<byte>, h: Header)
    requires h.hdrLen <= |pkt| && h.gsoSize > 0
    ensures |Chunks(pkt, h)| == Segmented(|pkt| - h.hdrLen, h.gsoSize)
  {
    SplitCount(Payload(pkt, h), h.gsoSize);
  }

  lemma ChunkAt(pkt: seq<byte>, h: Header, i: nat)
    requires h.hdrLen <= |pkt| && h.gsoSize > 0 && i < |Chunks(pkt, h)|
    ensures
      var len := SegmentLen(|pkt| - h.hdrLen, h.gsoSize, i);
      && 0 <= i * h.gsoSize && 0 < len && h.hdrLen + i * h.gsoSize + len <= |pkt|
      && Chunks(pkt, h)[i] == pkt[h.hdrLen + i * h.gsoSize..][..len]
  {
    SplitAt(Payload(pkt, h), h.gsoSize, i);
  }

  /** Exactly which frames are delivered. */
  lemma DeliveredExactly(e: Endian, frame: seq<byte>, outLens: seq<nat>, sizes: nat, offset: int)
    ensures Read(e, frame, outLens, sizes, offset).Delivered?
      <==> |frame| >= 10
           && if frame[1] == 0 then PlainFits(e, frame, outLens, sizes, offset)
              else GsoFits(e, frame, outLens, sizes, offset)
  {
    hide PlainFits, GsoFits, Decode, ParseHeaderLen, SplitFrame, NoneChecksum;
    if |frame| >= 10 {
      if frame[1] == 0 {
        PlainDelivered(e, frame, outLens, sizes, offset);
      } else {
        GsoDelivered(e, frame, outLens, sizes, offset);
      }
    }
  }

  // ---------------------------------------------------------------- output buffers that are too small

  /** The loop gives this error for the first segment that does not pass, if that is the reason. */
  lemma {:induction false} ShortLoop(h: Header, payload: nat, count: nat, i: nat, outLens: seq<nat>, offset: int,
                                     isV6: bool, k: nat)
    requires h.gsoSize > 0 && i <= count <= |outLens| && (count > 0 ==> (count - 1) * h.gsoSize <= payload)
    ensures ValidateSegments(h, count, i, payload - i * h.gsoSize, outLens, offset, isV6) == Fail(ShortBuffer(k))
      <==> && i <= k < count
           && ValidateSegment(h, SegmentLen(payload, h.gsoSize, k), k, outLens[k], offset, isV6) == Fail(ShortBuffer(k))
           && forall j :: i <= j < k ==>
                ValidateSegment(h, SegmentLen(payload, h.gsoSize, j), j, outLens[j], offset, isV6).Pass?
    decreases count - i
  {
    hide ValidateSegment;
    if i < count {
      SegmentsBefore(h.gsoSize, payload, count, i);
      ShortLoop(h, payload, count, i + 1, outLens, offset, isV6, k);
      OwnBuffer(h, SegmentLen(payload, h.gsoSize, i), i, outLens[i], offset, isV6);
    }
  }

  lemma OwnBuffer(h: Header, dataLen: nat, i: nat, outLen: nat, offset: int, isV6: bool)
    ensures forall k :: ValidateSegment(h, dataLen, i, outLen, offset, isV6) == Fail(ShortBuffer(k)) ==> k == i
  {
  }

  /** Everything about the frame is in order but that buffer k is the first without room for its packet. */
  predicate TooSmall(e: Endian, frame: seq<byte>, outLens: seq<nat>, sizes: nat, offset: int, k: nat)
    requires |frame| >= 10
  {
    if frame[1] == 0 then
      k == 0 < |outLens| <= sizes && 0 <= offset <= outLens[0] && offset + |frame| - 10 > outLens[0]
    else
      var pkt, size, start := frame[10..], Word(e, frame[4], frame[5]), Word(e, frame[6], frame[7]);
      && HeadersFit(pkt, frame[1], size, start, Word(e, frame[8], frame[9]))
      && var hdr := HeaderLength(pkt, start, frame[1] != 5);
      var count := Segmented(|pkt| - hdr, size);
      && hdr + Min(size, |pkt| - hdr) - (if pkt[0] / 16 == 6 then 40 else 0) <= 65535
      && k < count <= |outLens| <= sizes
      && 0 <= offset <= outLens[k] && offset + hdr + SegmentLen(|pkt| - hdr, size, k) > outLens[k]
      && forall j :: 0 <= j < k ==> offset + hdr + SegmentLen(|pkt| - hdr, size, j) <= outLens[j]
  }

  /** The error for a packet that does not fit names the first buffer that is too small, and means nothing else. */
  lemma ShortBufferExactly(e: Endian, frame: seq<byte>, outLens: seq<nat>, sizes: nat, offset: int, k: nat)
    requires |frame| >= 10
    ensures Read(e, frame, outLens, sizes, offset) == Failed(ShortBuffer(k))
      <==> TooSmall(e, frame, outLens, sizes, offset, k)
  {
    hide Decode, ParseHeaderLen, ValidateFrame, ValidateSegments, Segment, HeadersFit, NoneChecksum;
    DecodedFields(e, frame);
    if frame[1] != 0 {
      var pkt, h := frame[10..], Decode(e, frame);
      HeaderParsed(pkt, h);
      var parsed := ParseHeaderLen(pkt, h);
      NotShort(pkt, h, |outLens|, sizes);
      if parsed.Ok? {
        FrameChecked(pkt, parsed.value, |outLens|, sizes);
        if ValidateFrame(pkt, parsed.value, |outLens|, sizes, pkt[0] / 16 == 6).Ok? {
          ShortSegment(pkt, parsed.value, outLens, sizes, offset, k);
        }
      }
    }
  }

  /** The checks on headers never give that error. */
  lemma NotShort(pkt: seq<byte>, h: Header, outputs: nat, sizes: nat)
    ensures ParseHeaderLen(pkt, h).Err? ==> !ParseHeaderLen(pkt, h).error.ShortBuffer?
    ensures forall h', isV6 :: ValidateFrame(pkt, h', outputs, sizes, isV6).Err? ==>
      !ValidateFrame(pkt, h', outputs, sizes, isV6).error.ShortBuffer?
  {
  }

  lemma ShortSegment(pkt: seq<byte>, h: Header, outLens: seq<nat>, sizes: nat, offset: int, k: nat)
    requires HeadersFit(pkt, h.gsoType, h.gsoSize, h.csumStart, h.csumOffset)
    requires h.hdrLen == HeaderLength(pkt, h.csumStart, h.gsoType != 5)
    requires Segmented(|pkt| - h.hdrLen, h.gsoSize) <= |outLens| <= sizes
    ensures
      var payload, size, isV6 := |pkt| - h.hdrLen, h.gsoSize, pkt[0] / 16 == 6;
      var count := Segmented(payload, size);
      ValidateSegments(h, count, 0, payload, outLens, offset, isV6) == Fail(ShortBuffer(k))
      <==> && h.hdrLen + Min(size, payload) - (if isV6 then 40 else 0) <= 65535
           && k < count
           && 0 <= offset <= outLens[k] && offset + h.hdrLen + SegmentLen(payload, size, k) > outLens[k]
           && forall j :: 0 <= j < k ==> offset + h.hdrLen + SegmentLen(payload, size, j) <= outLens[j]
  {
    hide ValidateSegments;
    var payload, size, isV6 := |pkt| - h.hdrLen, h.gsoSize, pkt[0] / 16 == 6;
    var count := Segmented(payload, size);
    SegmentCount(payload, size);
    ShortLoop(h, payload, count, 0, outLens, offset, isV6, k);
    assert payload - 0 * size == payload;
    forall j | 0 <= j < count
      ensures 0 <= SegmentLen(payload, size, j) <= SegmentLen(payload, size, 0) == Min(size, payload)
    {
      FirstIsLongest(payload, size, count, j);
    }
    hide SegmentLen, Segmented, HeaderLength;
    forall j | 0 <= j < count
      ensures
        var len := SegmentLen(payload, size, j);
        var verdict := ValidateSegment(h, len, j, outLens[j], offset, isV6);
        && (verdict.Pass? <==> 0 <= offset && offset + h.hdrLen + len <= outLens[j]
                               && h.hdrLen + len - (if isV6 then 40 else 0) <= 65535)
        && (verdict == Fail(ShortBuffer(j)) <==> 0 <= offset <= outLens[j] && offset + h.hdrLen + len > outLens[j]
                                                 && h.hdrLen + len - (if isV6 then 40 else 0) <= 65535)
    {
    }
    hide ValidateSegment;
    if 0 < k < count && h.hdrLen + Min(size, payload) - (if isV6 then 40 else 0) > 65535 {
      assert !ValidateSegment(h, SegmentLen(payload, size, 0), 0, outLens[0], offset, isV6).Pass?;
    }
  }
}
