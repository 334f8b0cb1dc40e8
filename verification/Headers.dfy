/** Flows and header comparisons in terms of the bytes of the packets, position by position. */
module Headers {
  import opened Bytes
  import opened Packets
  import opened Gro
  import opened Coalescing

  /**
   The header positions in which packets of one item may differ: lengths, IPv4
   identification and checksum, IPv6 flow label, and of the transport header
   sequence number, flags, window, checksum and urgent pointer, or UDP length and
   checksum. Two more bytes are compared in part.
   */
  predicate Free(p: nat, isV6: bool, tcp: bool) {
    var iph := if isV6 then 40 else 20;
    if p < iph then (if isV6 then 1 <= p < 6 else 2 <= p < 6 || 10 <= p < 12)
    else 4 <= p - iph < 8 || (tcp && 12 <= p - iph < 20)
  }

  /** The headers agree byte for byte outside those positions, and in the high halves of those two bytes. */
  predicate HeadersAgree(a: seq<byte>, b: seq<byte>, isV6: bool, tcp: bool, h: nat) {
    var iph := if isV6 then 40 else 20;
    && iph + (if tcp then 20 else 8) <= h <= |a| && h <= |b|
    && (forall p :: 0 <= p < h && !Free(p, isV6, tcp) ==> a[p] == b[p])
    && (isV6 ==> a[1] / 16 == b[1] / 16)
    && (tcp ==> a[iph + 12] / 16 == b[iph + 12] / 16)
  }

  /** The shape of a packet is what the comparison of bytes compares. */
  lemma ShapeInBytes(a: seq<byte>, b: seq<byte>, isV6: bool, tcp: bool, h: nat)
    requires MinIpHeader(isV6) + (if tcp then 20 else 8) <= h <= |a| && h <= |b|
    requires !tcp ==> h == MinIpHeader(isV6) + 8
    ensures ShapeOf(a, isV6, tcp, h) == ShapeOf(b, isV6, tcp, h) <==> HeadersAgree(a, b, isV6, tcp, h)
  {
    var iph := MinIpHeader(isV6);
    if ShapeOf(a, isV6, tcp, h) == ShapeOf(b, isV6, tcp, h) {
      ShapeAddresses(a, b, isV6, tcp, h);
      ShapeTransport(a, b, isV6, tcp, h);
      hide ShapeOf;
      forall p | 0 <= p < h && !Free(p, isV6, tcp)
        ensures a[p] == b[p]
      {
        if tcp && p >= iph + 20 {
          assert a[p] == a[iph + 20..h][p - iph - 20] && b[p] == b[iph + 20..h][p - iph - 20];
        }
      }
    }
    if HeadersAgree(a, b, isV6, tcp, h) {
      AgreedShape(a, b, isV6, tcp, h);
    }
  }

  lemma AgreedShape(a: seq<byte>, b: seq<byte>, isV6: bool, tcp: bool, h: nat)
    requires HeadersAgree(a, b, isV6, tcp, h)
    ensures ShapeOf(a, isV6, tcp, h) == ShapeOf(b, isV6, tcp, h)
  {
    var iph := MinIpHeader(isV6);
    assert SrcAddr(a, isV6) == SrcAddr(b, isV6) && DstAddr(a, isV6) == DstAddr(b, isV6);
    assert tcp ==> a[iph + 20..h] == b[iph + 20..h];
  }

  /** Two packets of a flow pass the comparison of headers exactly when their bytes agree. */
  lemma MergeableExactly(a: seq<byte>, b: seq<byte>)
    requires Admit(a, true).Some? && Admit(b, true).Some?
    requires Admit(a, true).value.key == Admit(b, true).value.key
    requires Admit(a, true).value.headerLen == Admit(b, true).value.headerLen
    ensures
      var info := Admit(a, true).value;
      var tcp, h, iph := info.key.TcpKey?, info.headerLen, info.iphLen;
      && h <= |a| && h <= |b|
      && (IpHeadersCanCoalesce(a, b) && (tcp ==> iph + 20 <= h && a[iph + 20..h] == b[iph + 20..h])
          <==> HeadersAgree(a, b, info.key.isV6, tcp, h))
  {
    SameShape(a, b);
    MemberShape(a);
    MemberShape(b);
    AdmitFacts(a, true);
    var info := Admit(a, true).value;
    hide Admit, ShapeOf, IpHeadersCanCoalesce, HeadersAgree;
    ShapeInBytes(a, b, info.key.isV6, info.key.TcpKey?, info.headerLen);
  }

  lemma ShapeAddresses(a: seq<byte>, b: seq<byte>, isV6: bool, tcp: bool, h: nat)
    requires MinIpHeader(isV6) + (if tcp then 20 else 8) <= h <= |a| && h <= |b|
    requires ShapeOf(a, isV6, tcp, h) == ShapeOf(b, isV6, tcp, h)
    ensures forall p :: 0 <= p < MinIpHeader(isV6) && !Free(p, isV6, tcp) ==> a[p] == b[p]
    ensures isV6 ==> a[1] / 16 == b[1] / 16
  {
    var at, len := AddrOffset(isV6), AddrLen(isV6);
    assert SrcAddr(a, isV6) == SrcAddr(b, isV6) && DstAddr(a, isV6) == DstAddr(b, isV6);
    forall p | at <= p < at + 2 * len
      ensures a[p] == b[p]
    {
      if p < at + len {
        assert a[p] == SrcAddr(a, isV6)[p - at] && b[p] == SrcAddr(b, isV6)[p - at];
      } else {
        assert a[p] == DstAddr(a, isV6)[p - at - len] && b[p] == DstAddr(b, isV6)[p - at - len];
      }
    }
  }

  lemma ShapeTransport(a: seq<byte>, b: seq<byte>, isV6: bool, tcp: bool, h: nat)
    requires MinIpHeader(isV6) + (if tcp then 20 else 8) <= h <= |a| && h <= |b|
    requires ShapeOf(a, isV6, tcp, h) == ShapeOf(b, isV6, tcp, h)
    ensures var iph := MinIpHeader(isV6);
      && (forall p :: iph <= p < iph + 4 ==> a[p] == b[p])
      && (tcp ==> forall p :: iph + 8 <= p < iph + 12 ==> a[p] == b[p])
      && (tcp ==> a[iph + 12] / 16 == b[iph + 12] / 16 && a[iph + 20..h] == b[iph + 20..h])
  {
    var iph := MinIpHeader(isV6);
    Same16(a, b, iph);
    Same16(a, b, iph + 2);
    if tcp {
      Same16(a, b, iph + 8);
      Same16(a, b, iph + 10);
    }
  }

  lemma Same16(a: seq<byte>, b: seq<byte>, at: nat)
    requires at + 2 <= |a| && at + 2 <= |b|
    ensures Get16(a, at) == Get16(b, at) <==> a[at] == b[at] && a[at + 1] == b[at + 1]
    ensures at + 4 <= |a| && at + 4 <= |b| ==>
      (Get32(a, at) == Get32(b, at) <==> Get16(a, at) == Get16(b, at) && Get16(a, at + 2) == Get16(b, at + 2))
  {
  }

  /**
   The fields by which flows are told apart are the same, byte for byte: version,
   protocol, both addresses, both ports, and for TCP the acknowledgement number.
   */
  predicate SameFlow(a: seq<byte>, b: seq<byte>) {
    && |a| >= 28 && |b| >= 28 && a[0] / 16 == b[0] / 16
    && if a[0] / 16 == 6 then
         && |a| >= 48 && |b| >= 48 && a[6] == b[6]
         && a[8..24] == b[8..24] && a[24..40] == b[24..40]
         && a[40..42] == b[40..42] && a[42..44] == b[42..44]
         && (a[6] == 6 ==> |a| >= 60 && |b| >= 60 && a[48..52] == b[48..52])
       else
         && a[9] == b[9]
         && a[12..16] == b[12..16] && a[16..20] == b[16..20]
         && a[20..22] == b[20..22] && a[22..24] == b[22..24]
         && (a[9] == 6 ==> |a| >= 40 && |b| >= 40 && a[28..32] == b[28..32])
  }

  /** A packet that reaches the tables has the key of its version and protocol. */
  lemma KeyBytes(pkt: seq<byte>)
    requires Admit(pkt, true).Some?
    ensures |pkt| >= 28
    ensures
      var key := Admit(pkt, true).value.key;
      && key.isV6 == (pkt[0] / 16 == 6) && (pkt[0] / 16 == 6 || pkt[0] / 16 == 4)
      && (if key.TcpKey? then |pkt| >= (if key.isV6 then 60 else 40) else |pkt| >= (if key.isV6 then 48 else 28))
      && (if key.isV6 then pkt[6] else pkt[9]) == (if key.TcpKey? then 6 else 17)
      && key == if key.TcpKey? then TcpFlow(pkt, if key.isV6 then 40 else 20, key.isV6)
                else UdpFlow(pkt, if key.isV6 then 40 else 20, key.isV6)
  {
    MemberShape(pkt);
    hide Admit, TcpFlow, UdpFlow;
  }

  /** Two packets that reach the tables are of one flow exactly when those fields are the same. */
  lemma KeysExactly(a: seq<byte>, b: seq<byte>)
    requires Admit(a, true).Some? && Admit(b, true).Some?
    ensures Admit(a, true).value.key == Admit(b, true).value.key <==> SameFlow(a, b)
  {
    KeyBytes(a);
    KeyBytes(b);
    var key, key' := Admit(a, true).value.key, Admit(b, true).value.key;
    hide Admit;
    if key.isV6 == key'.isV6 && key.TcpKey? == key'.TcpKey? {
      FlowFields(a, b, key.isV6);
      if key.TcpKey? {
        Window4(a, b, (if key.isV6 then 40 else 20) + 8);
      }
    }
  }

  lemma FlowFields(a: seq<byte>, b: seq<byte>, isV6: bool)
    requires |a| >= (if isV6 then 48 else 28) && |b| >= (if isV6 then 48 else 28)
    ensures UdpFlow(a, if isV6 then 40 else 20, isV6) == UdpFlow(b, if isV6 then 40 else 20, isV6)
      <==> if isV6 then
             && a[8..24] == b[8..24] && a[24..40] == b[24..40]
             && a[40..42] == b[40..42] && a[42..44] == b[42..44]
           else
             && a[12..16] == b[12..16] && a[16..20] == b[16..20]
             && a[20..22] == b[20..22] && a[22..24] == b[22..24]
  {
    var iph := if isV6 then 40 else 20;
    Window2(a, b, iph);
    Window2(a, b, iph + 2);
  }

  lemma Window4(a: seq<byte>, b: seq<byte>, at: nat)
    requires at + 4 <= |a| && at + 4 <= |b|
    ensures Get32(a, at) == Get32(b, at) <==> a[at..at + 4] == b[at..at + 4]
  {
    Window2(a, b, at);
    Window2(a, b, at + 2);
    assert a[at..at + 4] == a[at..at + 2] + a[at + 2..at + 4];
    assert b[at..at + 4] == b[at..at + 2] + b[at + 2..at + 4];
    Same16(a, b, at);
  }

  lemma Window2(a: seq<byte>, b: seq<byte>, at: nat)
    requires at + 2 <= |a| && at + 2 <= |b|
    ensures Get16(a, at) == Get16(b, at) <==> a[at..at + 2] == b[at..at + 2]
  {
    if a[at..at + 2] == b[at..at + 2] {
      assert a[at] == a[at..at + 2][0] && b[at] == b[at..at + 2][0];
      assert a[at + 1] == a[at..at + 2][1] && b[at + 1] == b[at..at + 2][1];
    }
  }
}
