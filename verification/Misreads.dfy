/** Frames on which the read side does less than one would expect of it. */
module Misreads {
  import opened Bytes
  import opened OnesComplement
  import opened InternetChecksum
  import opened Segments
  import opened Virtio
  import opened Gso
  import opened GsoTheorems

  const UDP_AFTER_EXTENSION := Header(0, GSO_UDP_L4, 56, 1, 48, 6)

  /** An IPv6 packet with eight bytes of extension header in front of the UDP header and one byte of payload. */
  function Extended(): (r: seq<byte>)
    ensures |r| == 57
  {
    seq(57, k requires 0 <= k < 57 => if k == 0 then 0x60 else 0)
  }

  lemma OneChunk(pkt: seq<byte>, h: Header)
    requires h.hdrLen + 1 == |pkt| && h.gsoSize == 1
    ensures Chunks(pkt, h) == [pkt[h.hdrLen..]]
  {
  }

  /** The frame is accepted, and the one packet it becomes does not have the IPv6 payload length of RFC 8200. */
  lemma ExtensionHeaderMiscounted(e: Endian)
    ensures
      var outcome := Read(e, Encode(e, UDP_AFTER_EXTENSION) + Extended(), [57], 1, 0);
      && outcome.Delivered? && |outcome.packets| == 1
      && |outcome.packets[0]| == 57 && Get16(outcome.packets[0], 4) == 9 != 57 - 40
  {
    hide Encode, Decode, Segment, Chunks, ValidateSplit, Splittable;
    var pkt, h := Extended(), UDP_AFTER_EXTENSION;
    DecodeEncode(e, h, pkt);
    assert (Encode(e, h) + pkt)[HDR_LEN..] == pkt;
    ExtendedValid(pkt, h);
    AcceptedSplit(pkt, h, [57], 1, 0, true);
    OneChunk(pkt, h);
    SegmentFields(pkt, h, true, 0);
  }

  lemma ExtendedValid(pkt: seq<byte>, h: Header)
    requires pkt == Extended() && h == UDP_AFTER_EXTENSION
    ensures ValidateSplit(pkt, h, [57], 1, 0, true) == Ok(1)
    ensures ParseHeaderLen(pkt, h) == Ok(h)
  {
    assert Count(1, 1) == 1;
    assert ValidateSegments(h, 1, 1, 0, [57], 0, true).Pass?;
  }

  const ODD_FIELD := Header(F_NEEDS_CSUM, GSO_NONE, 0, 0, 0, 1)

  /** The frame is delivered with its checksum completed at an odd offset, and its sum is not all ones. */
  lemma OddOffsetNotCompleted(e: Endian)
    ensures
      var outcome := Read(e, Encode(e, ODD_FIELD) + [0, 0, 0, 1], [4], 1, 0);
      && outcome.Delivered? && |outcome.packets| == 1
      && Norm(Get16([0, 0, 0, 1], 1) + WordSum(outcome.packets[0])) != 65535
  {
    hide Encode, Decode, NoneChecksum, Norm, WordSum;
    var pkt: seq<byte> := [0, 0, 0, 1];
    DecodeEncode(e, ODD_FIELD, pkt);
    assert (Encode(e, ODD_FIELD) + pkt)[HDR_LEN..] == pkt;
    assert Put16(pkt, 1, 0)[0..] == pkt;
    SumOfOne(pkt);
    NoneChecksumVerifies(pkt, 0, 1);
    assert NoneChecksum(pkt, 0, 1)[0..] == NoneChecksum(pkt, 0, 1);
  }

  lemma SumOfOne(pkt: seq<byte>)
    requires pkt == [0, 0, 0, 1]
    ensures WordSum(pkt) == 1
  {
    assert pkt[2..] == [0, 1] && pkt[2..][2..] == [];
    assert WordSum(pkt) == Get16(pkt, 0) + WordSum(pkt[2..]);
    assert WordSum(pkt[2..]) == Get16(pkt[2..], 0) + WordSum(pkt[2..][2..]);
  }
}
