/** The read side over buffers: handleVirtioRead and what it calls, proved against Gso. */
module Reader {
  import opened Bytes
  import opened OnesComplement
  import opened InternetChecksum
  import opened Segments
  import opened Packets
  import opened Virtio
  import opened Gso
  import opened Slices

  /** The lengths of the output buffers. */
  function Lens(outs: seq<Slice>): (r: seq<nat>)
    ensures |r| == |outs|
  {
    seq(|outs|, i requires 0 <= i < |outs| => outs[i].len)
  }

  /** Output buffers with backing arrays of their own. */
  ghost predicate Disjoint(outs: seq<Slice>) {
    && (forall i :: 0 <= i < |outs| ==> outs[i].len <= outs[i].arr.Length)
    && (forall i, j :: 0 <= i < j < |outs| ==> outs[i].arr != outs[j].arr)
  }

  /** The contents of the backing arrays. */
  ghost function Contents(outs: seq<Slice>): (r: seq<seq<byte>>)
    reads Arrays(outs)
    ensures |r| == |outs|
  {
    seq(|outs|, i requires 0 <= i < |outs| reads Arrays(outs) => outs[i].arr[..])
  }

  function Arrays(outs: seq<Slice>): set<array<byte>> {
    set i | 0 <= i < |outs| :: outs[i].arr
  }

  /** validateGSOSplit: the checks on the headers, then one turn of the loop per segment. */
  method ValidateGsoSplit(pkt: seq<byte>, h: Header, outs: seq<Slice>, sizes: nat, offset: int, isV6: bool)
    returns (r: Result<nat>)
    ensures r == ValidateSplit(pkt, h, Lens(outs), sizes, offset, isV6)
  {
    var frame := ValidateFrame(pkt, h, |outs|, sizes, isV6);
    if frame.Err? {
      return frame;
    }
    var count := frame.value;
    var remaining: int := |pkt| - h.hdrLen;
    var i := 0;
    while i < count
      invariant 0 <= i <= count <= |outs|
      invariant ValidateSegments(h, count, i, remaining, Lens(outs), offset, isV6)
             == ValidateSegments(h, count, 0, |pkt| - h.hdrLen, Lens(outs), offset, isV6)
    {
      var dataLen := Min(h.gsoSize, remaining);
      var segment := ValidateSegment(h, dataLen, i, outs[i].len, offset, isV6);
      if segment.Fail? {
        return Err(segment.error);
      }
      remaining := remaining - dataLen;
      i := i + 1;
    }
    return frame;
  }

  /** The IP header of a segment, written at the front of its window. */
  method WriteIp(e: Endian, out: array<byte>, base: nat, ip: seq<byte>, i: nat, totalLen: nat, isV6: bool,
                 ghost s0: seq<byte>, ghost cur0: seq<byte>, ghost rest: seq<byte>)
    requires |ip| >= MinIpHeader(isV6) && |cur0| == |ip|
    requires if isV6 then 0 <= totalLen - |ip| <= MAX_UINT16 else totalLen <= MAX_UINT16
    requires Window(out[..], s0, base, [], cur0, rest)
    modifies out
    ensures Window(out[..], s0, base, [], SegmentIp(ip, i, totalLen, isV6), rest)
  {
    hide Window, Put16, SealIpv4, Low16;
    CopyField(out, base, ip, s0, base, [], cur0, rest);
    if !isV6 {
      ghost var cur := ip;
      if i > 0 {
        WindowSize(out[..], s0, base, [], cur, rest);
        var id := Get16(out[base..base + |ip|], 4);
        id := Low16(id + Low16(i));
        PutField(out, base, 4, id, s0, base, [], cur, rest);
        cur := Put16(cur, 4, id);
      }
      PutField(out, base, 2, totalLen, s0, base, [], cur, rest);
      SealIp(e, out, base, |ip|, s0, Put16(cur, 2, totalLen), rest);
    } else {
      PutField(out, base, 4, totalLen - |ip|, s0, base, [], ip, rest);
    }
  }

  /** Clears and recomputes the checksum of the IPv4 header at the front of a window. */
  method SealIp(e: Endian, out: array<byte>, base: nat, len: nat, ghost s0: seq<byte>, ghost ip: seq<byte>,
                ghost rest: seq<byte>)
    requires |ip| == len >= 20
    requires Window(out[..], s0, base, [], ip, rest)
    modifies out
    ensures Window(out[..], s0, base, [], SealIpv4(ip), rest)
  {
    hide Window, Put16, Norm, WordSum, FoldAll;
    PutField(out, base, 10, 0, s0, base, [], ip, rest);
    ghost var cleared := Put16(ip, 10, 0);
    WindowSize(out[..], s0, base, [], cleared, rest);
    var sum := Checksum(e, out[base..base + len], 0);
    PutField(out, base, 10, 65535 - sum, s0, base, [], cleared, rest);
  }

  /** The transport header of a segment, written behind the IP header of its window. */
  method WriteTransport(out: array<byte>, start: nat, th: seq<byte>, tcp: bool, first: nat, position: nat, last: bool,
                        dataLen: nat, ghost s0: seq<byte>, ghost base: nat, ghost pre: seq<byte>, ghost cur0: seq<byte>,
                        ghost post: seq<byte>)
    requires |th| >= (if tcp then 20 else 8) && |cur0| == |th| && start == base + |pre|
    requires tcp ==> first == Get32(th, 4)
    requires Window(out[..], s0, base, pre, cur0, post)
    modifies out
    ensures Window(out[..], s0, base, pre, SegmentTransport(th, tcp, position, last, dataLen), post)
  {
    hide Window, Put16, Put32, Low16, Low32, ClearFinPsh;
    CopyField(out, start, th, s0, base, pre, cur0, post);
    PutField(out, start, if tcp then 16 else 6, 0, s0, base, pre, th, post);
    if tcp {
      var tcpSeq := Low32(first + Low32(position));
      PutField32(out, start, 4, tcpSeq, s0, base, pre, Put16(th, 16, 0), post);
      if !last {
        ghost var cur := Put32(Put16(th, 16, 0), 4, tcpSeq);
        WindowSize(out[..], s0, base, pre, cur, post);
        assert out[start + 13] == out[start..start + |th|][13];
        var flags := ClearFinPsh(out[start + 13]);
        PutByte(out, start, 13, flags, s0, base, pre, cur, post);
      }
    } else {
      var len := Low16(Low16(dataLen) + Low16(|th|));
      PutField(out, start, 4, len, s0, base, pre, Put16(th, 6, 0), post);
    }
  }

  /** The checksum of the transport part at the end of a window. */
  method WriteTransportChecksum(e: Endian, out: array<byte>, start: nat, csumOffset: nat, len: nat, protocol: byte,
                                src: seq<byte>, dst: seq<byte>, ghost s0: seq<byte>, ghost base: nat,
                                ghost pre: seq<byte>, ghost t: seq<byte>)
    requires start == base + |pre| && |t| == len <= MAX_UINT16 && csumOffset + 2 <= len
    requires Window(out[..], s0, base, pre, t, [])
    modifies out
    ensures Window(out[..], s0, base, pre, SealTransport(t, csumOffset, PseudoSum(protocol, src, dst, len)), [])
  {
    hide Window, Put16, Norm, WordSum, FoldAll, PseudoSum, Congruent;
    var noFold := PseudoHeaderChecksumNoFold(e, protocol, src, dst, len);
    WindowSize(out[..], s0, base, pre, t, []);
    var sum := Checksum(e, out[start..start + len], noFold);
    ChainedChecksum(noFold, PseudoSum(protocol, src, dst, len), t);
    PutField(out, start, csumOffset, 65535 - sum, s0, base, pre, t, []);
  }

  /** One segment, written into its output buffer. */
  method WriteSegment(e: Endian, out: array<byte>, offset: nat, pkt: seq<byte>, h: Header, isV6: bool, i: nat,
                      nextAt: nat, first: nat)
    returns (totalLen: nat)
    requires HasSegment(pkt, h, isV6, i)
    requires offset + h.hdrLen + |Chunks(pkt, h)[i]| <= out.Length
    requires nextAt == h.hdrLen + i * h.gsoSize && h.hdrLen <= nextAt <= |pkt|
    requires IsTcpGso(h) ==> first == Get32(pkt, h.csumStart + 4)
    modifies out
    ensures totalLen == |Segment(pkt, h, isV6, i)|
    ensures out[..] == Overwrite(old(out[..]), offset, Segment(pkt, h, isV6, i))
  {
    hide Window, Segment, Split, SegmentIp, SegmentTransport, SealTransport, PseudoSum, Overwrite;
    ChunkAt(pkt, h, isV6, i, nextAt);
    var dataLen := Min(h.gsoSize, |pkt| - nextAt);
    var nextEnd := nextAt + dataLen;
    totalLen := h.hdrLen + dataLen;
    var cs := h.csumStart as int;
    var hl := h.hdrLen as int;
    ghost var s0 := out[..];
    ghost var w := s0[offset..offset + totalLen];
    WindowOpen(s0, offset, totalLen);
    ghost var tail := w[hl..];
    WindowRegroup(s0, s0, offset, [], w, [], [], w[..cs], w[cs..]);
    WriteIp(e, out, offset, pkt[..cs], i, totalLen, isV6, s0, w[..cs], w[cs..]);
    ghost var ip := SegmentIp(pkt[..cs], i, totalLen, isV6);
    WindowRegroup(out[..], s0, offset, [], ip, w[cs..], ip, w[cs..hl], tail);
    var th := pkt[cs..hl];
    assert IsTcpGso(h) ==> Get32(th, 4) == Get32(pkt, cs + 4);
    WriteTransport(out, offset + cs, th, IsTcpGso(h), first, nextAt - hl, nextEnd == |pkt|, dataLen, s0, offset, ip,
                   w[cs..hl], tail);
    ghost var middle := SegmentTransport(th, IsTcpGso(h), nextAt - hl, nextEnd == |pkt|, dataLen);
    var data := pkt[nextAt..nextEnd];
    WindowRegroup(out[..], s0, offset, ip, middle, tail, ip + middle, tail, []);
    CopyField(out, offset + hl, data, s0, offset, ip + middle, tail, []);
    WindowRegroup(out[..], s0, offset, ip + middle, data, [], ip, middle + data, []);
    WriteTransportChecksum(e, out, offset + cs, h.csumOffset, totalLen - cs, Protocol(h), SrcAddr(pkt, isV6),
                           DstAddr(pkt, isV6), s0, offset, ip, middle + data);
    FinishSegment(out[..], s0, offset, pkt, h, isV6, i, ip,
                  SealTransport(middle + data, h.csumOffset,
                                PseudoSum(Protocol(h), SrcAddr(pkt, isV6), DstAddr(pkt, isV6), totalLen - cs)));
  }

  lemma FinishSegment(s: seq<byte>, s0: seq<byte>, offset: nat, pkt: seq<byte>, h: Header, isV6: bool, i: nat,
                      ip: seq<byte>, t: seq<byte>)
    requires HasSegment(pkt, h, isV6, i)
    requires Window(s, s0, offset, ip, t, [])
    requires ip == SegmentHead(pkt, h, isV6, i) && t == SegmentTail(pkt, h, isV6, i)
    ensures offset + |Segment(pkt, h, isV6, i)| <= |s0|
    ensures s == Overwrite(s0, offset, Segment(pkt, h, isV6, i))
  {
    hide SegmentHead, SegmentTail;
    assert ip + t + [] == Segment(pkt, h, isV6, i);
  }

  /** Segment i's payload is where the loop of gsoSplit finds it. */
  lemma ChunkAt(pkt: seq<byte>, h: Header, isV6: bool, i: nat, nextAt: nat)
    requires HasSegment(pkt, h, isV6, i) && nextAt == h.hdrLen + i * h.gsoSize && nextAt <= |pkt|
    ensures
      var len := Min(h.gsoSize, |pkt| - nextAt);
      && 0 < len && nextAt + len <= |pkt|
      && Chunks(pkt, h)[i] == pkt[nextAt..nextAt + len]
      && (nextAt + len == |pkt| <==> i + 1 == |Chunks(pkt, h)|)
  {
    var p := Payload(pkt, h);
    SplitAt(p, h.gsoSize, i);
    hide Split;
    var n := |Chunks(pkt, h)|;
    if i + 1 < n {
      SplitAt(p, h.gsoSize, i + 1);
      assert (i + 1) * h.gsoSize == i * h.gsoSize + h.gsoSize;
    }
    var end := if i + 1 < n then i * h.gsoSize + h.gsoSize else |p|;
    assert p[i * h.gsoSize..end] == pkt[nextAt..h.hdrLen + end];
  }

  /** now is before with packet written offset bytes in, within the visible length. */
  ghost predicate Holds(now: seq<byte>, before: seq<byte>, offset: int, len: nat, packet: seq<byte>) {
    0 <= offset && offset + |packet| <= len <= |before| && now == Overwrite(before, offset, packet)
  }

  /** The first n packets are in the first n buffers, with their sizes, and nothing else has changed. */
  ghost predicate Filled(packets: seq<seq<byte>>, n: nat, now: seq<seq<byte>>, before: seq<seq<byte>>, sizes: seq<int>,
                         sizes0: seq<int>, lens: seq<nat>, offset: int) {
    && n <= |packets| && n <= |lens| == |now| == |before| && n <= |sizes| == |sizes0|
    && (forall i :: 0 <= i < n ==> sizes[i] == |packets[i]| && Holds(now[i], before[i], offset, lens[i], packets[i]))
    && (forall i :: n <= i < |now| ==> now[i] == before[i])
    && (forall i :: n <= i < |sizes| ==> sizes[i] == sizes0[i])
  }

  /** All or nothing: the packets of the outcome and no other change, or its error and no change at all. */
  ghost predicate AllOrNothing(outcome: Outcome, n: nat, result: Check, now: seq<seq<byte>>, before: seq<seq<byte>>,
                               sizes: seq<int>, sizes0: seq<int>, lens: seq<nat>, offset: int) {
    match outcome
    case Failed(error) => n == 0 && result == Fail(error) && now == before && sizes == sizes0
    case Delivered(packets) =>
      n == |packets| && result == Pass && Filled(packets, n, now, before, sizes, sizes0, lens, offset)
  }

  lemma FilledStart(packets: seq<seq<byte>>, before: seq<seq<byte>>, sizes0: seq<int>, lens: seq<nat>, offset: int)
    requires |lens| == |before|
    ensures Filled(packets, 0, before, before, sizes0, sizes0, lens, offset)
  {
  }

  lemma UnfilledAt(packets: seq<seq<byte>>, i: nat, now: seq<seq<byte>>, before: seq<seq<byte>>, sizes: seq<int>,
                   sizes0: seq<int>, lens: seq<nat>, offset: int)
    requires Filled(packets, i, now, before, sizes, sizes0, lens, offset) && i < |now|
    ensures |now| == |before| == |lens| && now[i] == before[i] && |sizes| == |sizes0|
  {
  }

  lemma FilledStep(packets: seq<seq<byte>>, i: nat, now: seq<seq<byte>>, before: seq<seq<byte>>, sizes: seq<int>,
                   sizes0: seq<int>, lens: seq<nat>, offset: int, written: seq<byte>)
    requires Filled(packets, i, now, before, sizes, sizes0, lens, offset)
    requires i < |packets| && i < |now| && i < |sizes| && i < |before| && i < |lens|
    requires Holds(written, before[i], offset, lens[i], packets[i])
    ensures Filled(packets, i + 1, now[i := written], before, sizes[i := |packets[i]|], sizes0, lens, offset)
  {
    hide Holds;
  }

  lemma SplitAccepted(pkt: seq<byte>, h: Header, outLens: seq<nat>, sizes: nat, offset: int, isV6: bool)
    requires ValidateSplit(pkt, h, outLens, sizes, offset, isV6).Ok?
    ensures
      var n := ValidateSplit(pkt, h, outLens, sizes, offset, isV6).value;
      && 0 < n <= |outLens| <= sizes && 0 <= offset
      && |SplitFrame(pkt, h, outLens, sizes, offset, isV6).packets| == n
      && Splittable(pkt, h, isV6) && n == |Chunks(pkt, h)|
      && forall i :: 0 <= i < n ==>
           && HasSegment(pkt, h, isV6, i)
           && SplitFrame(pkt, h, outLens, sizes, offset, isV6).packets[i] == Segment(pkt, h, isV6, i)
           && offset + h.hdrLen + |Chunks(pkt, h)[i]| <= outLens[i]
  {
    hide Segment, Split;
    AcceptedSplit(pkt, h, outLens, sizes, offset, isV6);
  }

  /** gsoSplit: every segment in its own buffer, or an error and nothing changed. */
  method GsoSplit(e: Endian, pkt: seq<byte>, h: Header, outs: seq<Slice>, sizes: array<int>, offset: int, isV6: bool)
    returns (n: nat, result: Check)
    requires Disjoint(outs)
    modifies sizes, Arrays(outs)
    ensures AllOrNothing(SplitFrame(pkt, h, Lens(outs), sizes.Length, offset, isV6), n, result, Contents(outs),
                         old(Contents(outs)), sizes[..], old(sizes[..]), Lens(outs), offset)
  {
    var valid := ValidateGsoSplit(pkt, h, outs, sizes.Length, offset, isV6);
    if valid.Err? {
      return 0, Fail(valid.error);
    }
    SplitAccepted(pkt, h, Lens(outs), sizes.Length, offset, isV6);
    hide Splittable, ValidateSplit, SplitFrame, Filled;
    n := valid.value;
    WriteSegments(e, pkt, h, outs, sizes, offset, isV6, n,
                  SplitFrame(pkt, h, Lens(outs), sizes.Length, offset, isV6).packets);
    result := Pass;
  }

  /** The loop of gsoSplit. */
  method WriteSegments(e: Endian, pkt: seq<byte>, h: Header, outs: seq<Slice>, sizes: array<int>, offset: nat,
                       isV6: bool, n: nat, ghost packets: seq<seq<byte>>)
    requires Disjoint(outs) && |packets| == n <= |outs| && n <= sizes.Length
    requires Splittable(pkt, h, isV6) && n == |Chunks(pkt, h)|
    requires forall i :: 0 <= i < n ==> HasSegment(pkt, h, isV6, i) && packets[i] == Segment(pkt, h, isV6, i)
    requires forall i :: 0 <= i < n ==> offset + h.hdrLen + |Chunks(pkt, h)[i]| <= Lens(outs)[i]
    modifies sizes, Arrays(outs)
    ensures Filled(packets, n, Contents(outs), old(Contents(outs)), sizes[..], old(sizes[..]), Lens(outs), offset)
  {
    var first := if IsTcpGso(h) then FirstSeq(pkt, h, isV6) else 0;
    var nextAt: nat := h.hdrLen;
    var i := 0;
    ghost var before, sizes0 := Contents(outs), sizes[..];
    hide Splittable, Segment, Chunks, HasSegment, Holds, Filled, IsTcpGso;
    FilledStart(packets, before, sizes0, Lens(outs), offset);
    while i < n
      invariant 0 <= i <= n && (i < n ==> nextAt == h.hdrLen + i * h.gsoSize)
      invariant Filled(packets, i, Contents(outs), before, sizes[..], sizes0, Lens(outs), offset)
    {
      assert HasSegment(pkt, h, isV6, i);
      ghost var now, sizes1 := Contents(outs), sizes[..];
      UnfilledAt(packets, i, now, before, sizes1, sizes0, Lens(outs), offset);
      nextAt := SegmentTurn(e, outs[i], sizes, offset, pkt, h, isV6, i, nextAt, first);
      FilledStep(packets, i, now, before, sizes1, sizes0, Lens(outs), offset, outs[i].arr[..]);
      assert Contents(outs) == now[i := outs[i].arr[..]];
      i := i + 1;
    }
  }

  /** One turn of the loop: segment i goes into its buffer and its size is recorded. */
  method SegmentTurn(e: Endian, out: Slice, sizes: array<int>, offset: nat, pkt: seq<byte>, h: Header, isV6: bool,
                     i: nat, nextAt: nat, first: nat)
    returns (next: nat)
    requires HasSegment(pkt, h, isV6, i) && i < sizes.Length
    requires out.len <= out.arr.Length && offset + h.hdrLen + |Chunks(pkt, h)[i]| <= out.len
    requires nextAt == h.hdrLen + i * h.gsoSize
    requires IsTcpGso(h) ==> first == Get32(pkt, h.csumStart + 4)
    modifies sizes, out.arr
    ensures i + 1 < |Chunks(pkt, h)| ==> next == h.hdrLen + (i + 1) * h.gsoSize
    ensures sizes[..] == old(sizes[..])[i := |Segment(pkt, h, isV6, i)|]
    ensures Holds(out.arr[..], old(out.arr[..]), offset, out.len, Segment(pkt, h, isV6, i))
  {
    hide Segment, Split, Overwrite, Get32;
    SegmentStart(pkt, h, isV6, i, nextAt);
    var totalLen := WriteSegment(e, out.arr, offset, pkt, h, isV6, i, nextAt, first);
    sizes[i] := totalLen;
    next := nextAt + (totalLen - h.hdrLen);
  }

  function FirstSeq(pkt: seq<byte>, h: Header, isV6: bool): (r: nat)
    requires Splittable(pkt, h, isV6) && IsTcpGso(h)
    ensures r == Get32(pkt, h.csumStart + 4)
  {
    Get32(pkt, h.csumStart + 4)
  }

  /** Where the next segment starts. */
  lemma SegmentStart(pkt: seq<byte>, h: Header, isV6: bool, i: nat, nextAt: nat)
    requires HasSegment(pkt, h, isV6, i) && nextAt == h.hdrLen + i * h.gsoSize
    ensures h.hdrLen <= nextAt <= |pkt|
    ensures nextAt + |Chunks(pkt, h)[i]|
         == if i + 1 < |Chunks(pkt, h)| then h.hdrLen + (i + 1) * h.gsoSize else |pkt|
    ensures |Segment(pkt, h, isV6, i)| == h.hdrLen + |Chunks(pkt, h)[i]|
  {
    var p := Payload(pkt, h);
    SplitAt(p, h.gsoSize, i);
    hide Split, Segment;
    assert (i + 1) * h.gsoSize == i * h.gsoSize + h.gsoSize;
  }

  /** gsoNoneChecksum on the packet that lies between lo and hi of a buffer. */
  method GsoNoneChecksum(e: Endian, out: array<byte>, lo: nat, hi: nat, csumStart: uint16, csumOffset: uint16)
    returns (result: Check)
    requires lo <= hi <= out.Length
    modifies out
    ensures result == ValidateChecksumPosition(hi - lo, csumStart, csumOffset)
    ensures result.Fail? ==> out[..] == old(out[..])
    ensures result.Pass? ==>
      && csumStart as int + csumOffset as int + 2 <= hi - lo
      && out[..] == Overwrite(old(out[..]), lo, NoneChecksum(old(out[lo..hi]), csumStart, csumOffset))
  {
    result := ValidateChecksumPosition(hi - lo, csumStart, csumOffset);
    if result.Fail? {
      return;
    }
    hide Window, Put16, Norm, WordSum, FoldAll, Overwrite, Get16;
    ghost var s0 := out[..];
    ghost var w := out[lo..hi];
    var cs: nat := csumStart;
    assert w == s0[lo..hi];
    WindowOpen(s0, lo, hi - lo);
    WindowRegroup(s0, s0, lo, [], w, [], w[..cs], w[cs..], []);
    GetSuffix(w, cs, csumOffset);
    var initial := Get16(out[lo..hi], cs + csumOffset);
    CompletePartial(e, out, lo + cs, hi, csumOffset, initial, s0, lo, w[..cs], w[cs..]);
    ClosePartial(out[..], s0, lo, w, cs, csumOffset);
  }

  /** Clears the field at the given offset of a window's last part, and sets it to the complement of the sum. */
  method CompletePartial(e: Endian, out: array<byte>, start: nat, end: nat, csumOffset: nat, initial: nat,
                         ghost s0: seq<byte>, ghost base: nat, ghost pre: seq<byte>, ghost cur: seq<byte>)
    requires Window(out[..], s0, base, pre, cur, []) && start == base + |pre| && end == start + |cur|
    requires csumOffset + 2 <= |cur| && initial < TWO16
    modifies out
    ensures Window(out[..], s0, base, pre, SealTransport(Put16(cur, csumOffset, 0), csumOffset, initial), [])
  {
    hide Window, Put16, Norm, WordSum, FoldAll;
    PutField(out, start, csumOffset, 0, s0, base, pre, cur, []);
    ghost var cleared := Put16(cur, csumOffset, 0);
    WindowSize(out[..], s0, base, pre, cleared, []);
    var sum := Checksum(e, out[start..end], initial);
    PutField(out, start, csumOffset, 65535 - sum, s0, base, pre, cleared, []);
  }

  lemma ClosePartial(s: seq<byte>, s0: seq<byte>, lo: nat, w: seq<byte>, cs: nat, csumOffset: nat)
    requires cs + csumOffset + 2 <= |w|
    requires Window(s, s0, lo, w[..cs],
                    SealTransport(Put16(w[cs..], csumOffset, 0), csumOffset, Get16(w, cs + csumOffset)), [])
    ensures lo + |w| <= |s0| && s == Overwrite(s0, lo, NoneChecksum(w, cs, csumOffset))
  {
    hide Window, SealTransport;
    PutSuffix(w, cs, csumOffset, 0);
    var sealed := SealTransport(Put16(w[cs..], csumOffset, 0), csumOffset, Get16(w, cs + csumOffset));
    assert w[..cs] + sealed == NoneChecksum(w, cs, csumOffset);
    WindowRegroup(s, s0, lo, w[..cs], sealed, [], [], w[..cs] + sealed, []);
    WindowClose(s, s0, lo, w[..cs] + sealed);
  }

  lemma PutSuffix(s: seq<byte>, lo: nat, at: nat, v: nat)
    requires lo + at + 2 <= |s| && v < TWO16
    ensures Put16(s, lo + at, v)[lo..] == Put16(s[lo..], at, v)
  {
  }

  /** The part of handleVirtioRead for a frame that needs no splitting. */
  method ReadPlainFrame(e: Endian, pkt: seq<byte>, h: Header, outs: seq<Slice>, sizes: array<int>, offset: int)
    returns (n: nat, result: Check)
    requires Disjoint(outs)
    modifies sizes, Arrays(outs)
    ensures AllOrNothing(ReadPlain(pkt, h, Lens(outs), sizes.Length, offset), n, result, Contents(outs),
                         old(Contents(outs)), sizes[..], old(sizes[..]), Lens(outs), offset)
  {
    hide NoneChecksum;
    n := 0;
    result := ValidateOutputs(|outs|, sizes.Length);
    if result.Fail? {
      return;
    }
    result := ValidateOutputOffset(outs[0].len, offset, 0);
    if result.Fail? {
      return;
    }
    if |pkt| > outs[0].len - offset {
      return 0, Fail(ShortBuffer(0));
    }
    if NeedsCsum(h) {
      result := ValidateChecksumPosition(|pkt|, h.csumStart, h.csumOffset);
      if result.Fail? {
        return;
      }
    }
    ghost var before, sizes0 := Contents(outs), sizes[..];
    CopyInto(outs[0].arr, offset, pkt);
    if NeedsCsum(h) {
      // The position was checked before anything was copied, so this cannot fail.
      result := GsoNoneChecksum(e, outs[0].arr, offset, offset + |pkt|, h.csumStart, h.csumOffset);
      OverwriteAgain(before[0], offset, pkt, NoneChecksum(pkt, h.csumStart, h.csumOffset));
    }
    sizes[0] := |pkt|;
    n := 1;
    assert Contents(outs) == before[0 := outs[0].arr[..]];
    assert sizes[..] == sizes0[0 := |pkt|];
  }

  lemma OverwriteAgain(s0: seq<byte>, at: nat, a: seq<byte>, b: seq<byte>)
    requires at + |a| <= |s0| && |a| == |b|
    ensures Overwrite(Overwrite(s0, at, a), at, b) == Overwrite(s0, at, b)
  {
  }

  /**
   handleVirtioRead. Whatever the frame, the offset and the shape of the
   buffers, it either delivers the packets that Read prescribes, touching
   nothing else, or returns an error with every buffer and size as it was.
   */
  method HandleVirtioRead(e: Endian, frame: seq<byte>, outs: seq<Slice>, sizes: array<int>, offset: int)
    returns (n: nat, result: Check)
    requires Disjoint(outs)
    modifies sizes, Arrays(outs)
    ensures AllOrNothing(Read(e, frame, Lens(outs), sizes.Length, offset), n, result, Contents(outs),
                         old(Contents(outs)), sizes[..], old(sizes[..]), Lens(outs), offset)
  {
    hide Decode, ReadPlain, SplitFrame, ParseHeaderLen, Filled;
    if |frame| < HDR_LEN {
      return 0, Fail(ShortHeader);
    }
    var h := Decode(e, frame);
    var pkt := frame[HDR_LEN..];
    if h.gsoType == GSO_NONE {
      n, result := ReadPlainFrame(e, pkt, h, outs, sizes, offset);
    } else {
      var parsed := ParseHeaderLen(pkt, h);
      if parsed.Err? {
        return 0, Fail(parsed.error);
      }
      ParsedNotEmpty(pkt, h);
      n, result := GsoSplit(e, pkt, parsed.value, outs, sizes, offset, pkt[0] / 16 == 6);
    }
  }

  lemma ParsedNotEmpty(pkt: seq<byte>, h: Header)
    requires ParseHeaderLen(pkt, h).Ok?
    ensures |pkt| > 0
  {
  }
}
