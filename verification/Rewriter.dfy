/** applyTCPCoalesceAccounting and applyUDPCoalesceAccounting over the buffers, proved against Accounting. */
module Rewriter {
  import opened Bytes
  import opened OnesComplement
  import opened InternetChecksum
  import opened Packets
  import opened Virtio
  import opened Gro
  import opened Accounting
  import opened Slices
  import opened Reader

  /** The IP header of a coalesced packet, rewritten in place: its length and, for IPv4, its checksum. */
  method RewriteIp(e: Endian, arr: array<byte>, offset: nat, iphLen: nat, len: nat, isV6: bool)
    requires iphLen == MinIpHeader(isV6) && offset + iphLen <= arr.Length
    modifies arr
    ensures arr[..] == Overwrite(old(arr[..]), offset, AccountIp(old(arr[offset..offset + iphLen]), len, isV6))
  {
    hide Window, Put16, Get16, SealIpv4, Overwrite, Low16;
    ghost var s0 := arr[..];
    ghost var ip := arr[offset..offset + iphLen];
    assert ip == s0[offset..offset + iphLen];
    WindowOpen(s0, offset, iphLen);
    if isV6 {
      PutField(arr, offset, 4, Low16(Low16(len) - Low16(iphLen)), s0, offset, [], ip, []);
    } else {
      PutField(arr, offset, 2, Low16(len), s0, offset, [], ip, []);
      SealIp(e, arr, offset, iphLen, s0, Put16(ip, 2, Low16(len)), []);
    }
    WindowClose(arr[..], s0, offset, AccountIp(ip, len, isV6));
  }

  /** The transport part: for UDP its length, then the folded pseudo-header sum in its checksum field. */
  method RewriteTransport(e: Endian, arr: array<byte>, start: nat, end: nat, item: GroItem, src: seq<byte>,
                          dst: seq<byte>)
    requires start + CsumOffset(item) + 2 <= end <= arr.Length
    modifies arr
    ensures arr[..]
         == Overwrite(old(arr[..]), start,
                      AccountTransport(old(arr[start..end]), item,
                                       PseudoSum(item.Protocol(), src, dst, Low16(end - start))))
  {
    hide Window, Put16, Get16, Overwrite, Norm, WordSum, PseudoSum, Congruent, Low16;
    ghost var s0 := arr[..];
    ghost var t := arr[start..end];
    assert t == s0[start..start + (end - start)];
    WindowOpen(s0, start, end - start);
    ghost var sized := t;
    if item.UdpItem? {
      PutField(arr, start, 4, Low16(end - start), s0, start, [], t, []);
      sized := Put16(t, 4, Low16(end - start));
    }
    var psum := PseudoHeaderChecksumNoFold(e, item.Protocol(), src, dst, Low16(end - start));
    var sum := Checksum(e, [], psum);
    ghost var pseudo := PseudoSum(item.Protocol(), src, dst, Low16(end - start));
    FoldedPseudo(psum, pseudo);
    PutField(arr, start, CsumOffset(item), sum, s0, start, [], sized, []);
    WindowClose(arr[..], s0, start, AccountTransport(t, item, pseudo));
  }

  lemma FoldedPseudo(psum: nat, pseudo: nat)
    requires Congruent(psum, pseudo) && (psum == 0 <==> pseudo == 0)
    ensures Norm(psum + WordSum([])) == Norm(pseudo) < TWO16
  {
    ChainedChecksum(psum, pseudo, []);
    NormOf(pseudo);
  }

  /** The rewritten header is where the addresses are still the packet's own. */
  lemma AddressesKept(ip: seq<byte>, len: nat, isV6: bool)
    requires |ip| == MinIpHeader(isV6)
    ensures SrcAddr(AccountIp(ip, len, isV6), isV6) == SrcAddr(ip, isV6)
    ensures DstAddr(AccountIp(ip, len, isV6), isV6) == DstAddr(ip, isV6)
  {
    hide Norm, WordSum, Put16;
  }

  /** The three regions that accounting writes, put together. */
  lemma AccountLayout(e: Endian, item: GroItem, s0: seq<byte>, len: nat, offset: nat, ip: seq<byte>, t: seq<byte>)
    requires item.iphLen == MinIpHeader(item.key.isV6) && item.numMerged > 0
    requires HDR_LEN <= offset && offset + item.iphLen + CsumOffset(item) + 2 <= len <= |s0|
    requires
      var pkt := s0[..len][offset..];
      && ip == AccountIp(pkt[..item.iphLen], |pkt|, item.key.isV6)
      && t
            == AccountTransport(pkt[item.iphLen..], item,
                                PacketPseudo(pkt, item.Protocol(), item.key.isV6, Low16(|pkt| - item.iphLen)))
    ensures
      var s1 := Overwrite(s0, offset, ip);
      var s2 := Overwrite(s1, offset - HDR_LEN, Encode(e, HeaderFor(item)));
      Overwrite(s2, offset + item.iphLen, t)[..len] == AccountBytes(e, item, s0[..len], offset)
  {
    hide AccountIp, AccountTransport, PacketPseudo, Encode, HeaderFor;
    var bytes := s0[..len];
    assert AccountPacket(item, bytes[offset..]) == ip + t;
    var header := Encode(e, HeaderFor(item));
    ThreeRegions(s0, len, offset, item.iphLen, header, ip, t);
    assert AccountBytes(e, item, bytes, offset) == WithHeader(bytes[..offset] + (ip + t), offset, header);
  }

  lemma ThreeRegions(s0: seq<byte>, len: nat, offset: nat, iphLen: nat, header: seq<byte>, ip: seq<byte>, t: seq<byte>)
    requires |header| == HDR_LEN <= offset && |ip| == iphLen && offset + iphLen + |t| == len <= |s0|
    ensures Overwrite(Overwrite(Overwrite(s0, offset, ip), offset - HDR_LEN, header), offset + iphLen, t)[..len]
         == WithHeader(s0[..len][..offset] + (ip + t), offset, header)
  {
    var got := Overwrite(Overwrite(Overwrite(s0, offset, ip), offset - HDR_LEN, header), offset + iphLen, t);
    var want := WithHeader(s0[..len][..offset] + (ip + t), offset, header);
    assert got[offset - HDR_LEN..offset] == header;
    assert want[offset - HDR_LEN..offset] == header;
  }

  lemma OverwriteApart(s: seq<byte>, at: nat, src: seq<byte>, lo: nat, hi: nat)
    requires at + |src| <= |s| && lo <= hi <= |s| && (hi <= at || at + |src| <= lo)
    ensures Overwrite(s, at, src)[lo..hi] == s[lo..hi]
  {
    hide Overwrite;
  }

  /** What the second and third writes see of the ones before them. */
  lemma AccountSteps(e: Endian, item: GroItem, s0: seq<byte>, len: nat, offset: nat)
    requires item.iphLen == MinIpHeader(item.key.isV6) && item.numMerged > 0
    requires HDR_LEN <= offset && offset + item.iphLen + CsumOffset(item) + 2 <= len <= |s0|
    ensures
      var isV6, start := item.key.isV6, offset + item.iphLen;
      var s1 := Overwrite(s0, offset, AccountIp(s0[offset..start], len - offset, isV6));
      var s2 := Overwrite(s1, offset - HDR_LEN, Encode(e, HeaderFor(item)));
      var pseudo := PseudoSum(item.Protocol(), SrcAddr(s2[offset..start], isV6), DstAddr(s2[offset..start], isV6),
          Low16(len - start));
      Overwrite(s2, start, AccountTransport(s2[start..len], item, pseudo))[..len]
         == AccountBytes(e, item, s0[..len], offset)
  {
    hide Overwrite, AccountIp, AccountTransport, PseudoSum, Encode, HeaderFor, AccountBytes;
    var isV6, start := item.key.isV6, offset + item.iphLen;
    var pkt := s0[..len][offset..];
    assert pkt[..item.iphLen] == s0[offset..start];
    var ip := AccountIp(pkt[..item.iphLen], |pkt|, isV6);
    var s1 := Overwrite(s0, offset, ip);
    var s2 := Overwrite(s1, offset - HDR_LEN, Encode(e, HeaderFor(item)));
    OverwriteApart(s1, offset - HDR_LEN, Encode(e, HeaderFor(item)), offset, start);
    OverwriteApart(s1, offset - HDR_LEN, Encode(e, HeaderFor(item)), start, len);
    OverwriteApart(s0, offset, ip, start, len);
    assert s0[start..len] == pkt[item.iphLen..];
    AddressesKept(pkt[..item.iphLen], |pkt|, isV6);
    assert SrcAddr(pkt[..item.iphLen], isV6) == SrcAddr(pkt, isV6)
    && DstAddr(pkt[..item.iphLen], isV6) == DstAddr(pkt, isV6);
    AccountLayout(e, item, s0, len, offset, ip,
                  AccountTransport(pkt[item.iphLen..], item,
                                   PacketPseudo(pkt, item.Protocol(), isV6, Low16(|pkt| - item.iphLen))));
  }

  /** The body of the accounting loops: the buffer of one item. */
  method AccountBuffer(e: Endian, arr: array<byte>, len: nat, item: GroItem, offset: nat)
    requires len <= arr.Length && item.iphLen == MinIpHeader(item.key.isV6)
    requires HDR_LEN <= offset && offset + item.iphLen + CsumOffset(item) + 2 <= len
    modifies arr
    ensures arr[..len] == AccountBytes(e, item, old(arr[..len]), offset)
  {
    ghost var s0 := arr[..];
    assert s0[..len] == arr[..len];
    if item.numMerged > 0 {
      AccountCoalesced(e, arr, len, item, offset);
    } else {
      hide Encode;
      CopyInto(arr, offset - HDR_LEN, Encode(e, ZERO));
    }
  }

  method AccountCoalesced(e: Endian, arr: array<byte>, len: nat, item: GroItem, offset: nat)
    requires len <= arr.Length && item.iphLen == MinIpHeader(item.key.isV6) && item.numMerged > 0
    requires HDR_LEN <= offset && offset + item.iphLen + CsumOffset(item) + 2 <= len
    modifies arr
    ensures arr[..len] == AccountBytes(e, item, old(arr[..len]), offset)
  {
    hide Overwrite, AccountIp, AccountTransport, PseudoSum, Encode, HeaderFor, AccountBytes;
    AccountSteps(e, item, arr[..], len, offset);
    var start := offset + item.iphLen;
    RewriteIp(e, arr, offset, item.iphLen, len - offset, item.key.isV6);
    CopyInto(arr, offset - HDR_LEN, Encode(e, HeaderFor(item)));
    var ip := arr[offset..start];
    RewriteTransport(e, arr, start, len, item, SrcAddr(ip, item.key.isV6), DstAddr(ip, item.key.isV6));
  }
}
