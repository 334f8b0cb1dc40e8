/** Exactly which packets reach a flow table, in terms of the fields of their headers. */
module Admission {
  import opened Bytes
  import opened Packets
  import opened Gro

  const TCP_DATA_OFFSET := 12
  const TCP_FLAGS := 13

  /** A TCP segment with a payload whose flags are ACK, or ACK and PSH, and nothing else. */
  predicate PlainSegment(pkt: seq<byte>, iph: nat) {
    && |pkt| > iph + 20
    && var words := pkt[iph + TCP_DATA_OFFSET] as int / 16;
    && words >= 5 && |pkt| > iph + 4 * words
    && (pkt[iph + TCP_FLAGS] == FLAG_ACK || pkt[iph + TCP_FLAGS] == FLAG_ACK_PSH)
  }

  predicate Transportable(pkt: seq<byte>, iph: nat, protocol: byte, canUDP: bool) {
    || (protocol == PROTO_TCP && PlainSegment(pkt, iph))
    || (protocol == PROTO_UDP && canUDP && |pkt| > iph + UDP_HEADER_LEN)
  }

  /** An unfragmented IPv4 packet without options (section 3.1 of RFC 791), with the length that it claims. */
  predicate WholeIpv4(pkt: seq<byte>) {
    |pkt| >= 20 && pkt[0] == 0x45 && Get16(pkt, 2) == |pkt| && Get16(pkt, 6) % 0x4000 == 0
  }

  /** An IPv6 packet with the length that it claims (section 3 of RFC 8200). */
  predicate WholeIpv6(pkt: seq<byte>) {
    |pkt| >= 40 && pkt[0] / 16 == 6 && Get16(pkt, 4) == |pkt| - 40
  }

  /**
   A packet is tried for coalescing exactly when it is whole, at most 65535
   bytes, and carries a payload it may be merged by.
   */
  lemma AdmittedExactly(pkt: seq<byte>, canUDP: bool)
    ensures Admit(pkt, canUDP).Some? <==>
      && |pkt| <= MAX_UINT16
      && ((WholeIpv4(pkt) && Transportable(pkt, 20, pkt[9], canUDP))
          || (WholeIpv6(pkt) && Transportable(pkt, 40, pkt[6], canUDP)))
  {
    if |pkt| >= 28 {
      FragmentField(pkt);
      FirstByte(pkt[0]);
    }
    hide Get32, IsFragment, FLAG_ACK, FLAG_ACK_PSH;
  }

  lemma FirstByte(b: byte)
    ensures b == 0x45 <==> b / 16 == 4 && b % 16 == 5
  {
  }

  /** No more fragments and offset zero: the low 14 bits of the flags and fragment offset are zero. */
  lemma FragmentField(pkt: seq<byte>)
    requires |pkt| >= 20
    ensures IsFragment(pkt) <==> Get16(pkt, 6) % 0x4000 != 0
  {
    FragmentBits(pkt[6], pkt[7]);
  }

  lemma FragmentBits(high: byte, low: byte)
    ensures (high / 32 % 2 == 1 || (high as int * 8) % 256 != 0 || low != 0)
      <==> (256 * (high as int) + low as int) % 0x4000 != 0
  {
    var top, bottom := high as int / 64, high as int % 64;
    assert high == 64 * top + bottom;
    assert (256 * (high as int) + low as int) == 0x4000 * top + (256 * bottom + low as int);
    assert 0 <= 256 * bottom + low as int < 0x4000;
  }
}
