/** Where the fields of an IP packet are, and when its transport checksum verifies. */
module Packets {
  import opened Bytes
  import opened OnesComplement
  import opened InternetChecksum

  const PROTO_TCP: byte := 6
  const PROTO_UDP: byte := 17
  const MAX_UINT16 := 65535
  const UDP_HEADER_LEN := 8

  function AddrOffset(isV6: bool): nat {
    if isV6 then 8 else 12
  }

  function AddrLen(isV6: bool): nat {
    if isV6 then 16 else 4
  }

  function MinIpHeader(isV6: bool): nat {
    if isV6 then 40 else 20
  }

  function SrcAddr(pkt: seq<byte>, isV6: bool): seq<byte>
    requires |pkt| >= MinIpHeader(isV6)
  {
    pkt[AddrOffset(isV6)..AddrOffset(isV6) + AddrLen(isV6)]
  }

  function DstAddr(pkt: seq<byte>, isV6: bool): seq<byte>
    requires |pkt| >= MinIpHeader(isV6)
  {
    pkt[AddrOffset(isV6) + AddrLen(isV6)..AddrOffset(isV6) + 2 * AddrLen(isV6)]
  }

  /** The pseudo-header sum of a packet whose transport part is len bytes long. */
  function PacketPseudo(pkt: seq<byte>, protocol: byte, isV6: bool, len: nat): nat
    requires |pkt| >= MinIpHeader(isV6)
  {
    PseudoSum(protocol, SrcAddr(pkt, isV6), DstAddr(pkt, isV6), len)
  }

  /** The receiver's test on the transport checksum: pseudo-header, header and payload sum to all ones. */
  predicate ChecksumOk(pkt: seq<byte>, iphLen: nat, protocol: byte, isV6: bool)
    requires |pkt| >= MinIpHeader(isV6) && iphLen <= |pkt|
  {
    Norm(PacketPseudo(pkt, protocol, isV6, Low16(|pkt| - iphLen)) + WordSum(pkt[iphLen..])) == 65535
  }

  /**
   The checksum test is the receiver's: pseudo-header, transport header and
   payload, byte for byte, sum to all ones.
   */
  lemma ReceiverTest(pkt: seq<byte>, iphLen: nat, protocol: byte, isV6: bool)
    requires (if isV6 then 40 else 20) <= iphLen <= |pkt| < iphLen + TWO16
    ensures
      var len, rest := |pkt| - iphLen, pkt[iphLen..];
      ChecksumOk(pkt, iphLen, protocol, isV6)
      <==> FoldAll(WordSum(
             if isV6 then pkt[8..24] + pkt[24..40] + [0, 0, len / 256, len % 256] + [0, 0, 0, protocol] + rest
             else pkt[12..16] + pkt[16..20] + [0, protocol] + [len / 256, len % 256] + rest)) == 0xFFFF
  {
    hide WordSum, Norm, FoldAll;
    var src, dst := SrcAddr(pkt, isV6), DstAddr(pkt, isV6);
    var len := |pkt| - iphLen;
    PseudoHeaderSum(src, dst, protocol, len, isV6);
    WordSumConcat(PseudoHeader(src, dst, protocol, len, isV6), pkt[iphLen..]);
    FoldAllIsNorm(WordSum(PseudoHeader(src, dst, protocol, len, isV6) + pkt[iphLen..]));
  }

  /** An IPv4 header with its checksum recomputed. */
  function SealIpv4(ip: seq<byte>): (r: seq<byte>)
    requires |ip| >= 20
    ensures |r| == |ip|
  {
    var cleared := Put16(ip, 10, 0);
    NormOf(WordSum(cleared));
    Put16(cleared, 10, 65535 - Norm(WordSum(cleared)))
  }

  /** checksumValid. */
  method ChecksumValid(e: Endian, pkt: seq<byte>, iphLen: nat, protocol: byte, isV6: bool) returns (ok: bool)
    requires |pkt| >= MinIpHeader(isV6) && iphLen <= |pkt|
    ensures ok == ChecksumOk(pkt, iphLen, protocol, isV6)
  {
    var lenForPseudo := Low16(|pkt| - iphLen);
    var cSum := PseudoHeaderChecksumNoFold(e, protocol, SrcAddr(pkt, isV6), DstAddr(pkt, isV6), lenForPseudo);
    var sum := Checksum(e, pkt[iphLen..], cSum);
    ChainedChecksum(cSum, PacketPseudo(pkt, protocol, isV6, lenForPseudo), pkt[iphLen..]);
    ok := 65535 - sum == 0;
  }
}
