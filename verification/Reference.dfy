/**
 What handleGRO is to do, on packets alone: which packets of a flow it puts
 together, in which order, without buffers, items or indices. A flow is a list of
 groups, and a group the list of its packets in stream order.
 */
module Reference {
  import opened Bytes
  import opened Packets
  import opened Gro
  import opened Coalescing
  import opened Headers
  import opened Batch

  /** Packet k of the batch is one that reaches a table. */
  ghost predicate Admitted(inp: seq<View>, offset: nat, k: nat) {
    k < |inp| && offset <= |inp[k].bytes| && Admit(Pkt(inp[k], offset), true).Some?
  }

  ghost predicate Grouped(inp: seq<View>, offset: nat, g: seq<nat>) {
    |g| > 0 && forall m :: 0 <= m < |g| ==> Admitted(inp, offset, g[m])
  }

  /** The number of payload bytes of packet k. */
  ghost function Size(inp: seq<View>, offset: nat, k: nat): nat
    requires Admitted(inp, offset, k)
  {
    InfoOf(inp, offset, k).gsoSize
  }

  ghost function TotalSize(inp: seq<View>, offset: nat, g: seq<nat>): nat
    requires forall m :: 0 <= m < |g| ==> Admitted(inp, offset, g[m])
  {
    if |g| == 0 then 0 else TotalSize(inp, offset, g[..|g| - 1]) + Size(inp, offset, g[|g| - 1])
  }

  /** The packet's own transport checksum verifies. */
  ghost predicate Intact(inp: seq<View>, offset: nat, k: nat)
    requires Admitted(inp, offset, k)
  {
    var info := InfoOf(inp, offset, k);
    AdmitFacts(Pkt(inp[k], offset), true);
    ChecksumOk(Pkt(inp[k], offset), if info.key.isV6 then 40 else 20, if info.key.TcpKey? then 6 else 17,
               info.key.isV6)
  }

  /** Two packets have headers of the same length that agree in every position that is compared. */
  ghost predicate HeadersMatch(inp: seq<View>, offset: nat, a: nat, b: nat)
    requires Admitted(inp, offset, a) && Admitted(inp, offset, b)
  {
    var info := InfoOf(inp, offset, b);
    && InfoOf(inp, offset, a).key == info.key && InfoOf(inp, offset, a).headerLen == info.headerLen
    && HeadersAgree(Pkt(inp[a], offset), Pkt(inp[b], offset), info.key.isV6, info.key.TcpKey?, info.headerLen)
  }

  /** The group and packet i fit in the backing array of the packet in front. */
  ghost predicate Room(inp: seq<View>, offset: nat, g: seq<nat>, i: nat, front: nat)
    requires Grouped(inp, offset, g) && Admitted(inp, offset, i) && front < |inp|
  {
    2 * offset + InfoOf(inp, offset, i).headerLen + TotalSize(inp, offset, g) + Size(inp, offset, i) <= inp[front].cap
  }

  /** All packets of the group but perhaps the last are as long as the first; here the last is too. */
  ghost predicate LastFull(inp: seq<View>, offset: nat, g: seq<nat>)
    requires Grouped(inp, offset, g)
  {
    Size(inp, offset, g[|g| - 1]) == Size(inp, offset, g[0])
  }

  /** Packet i continues the group: its sequence number is where the group's payload ends modulo 2^32. */
  ghost predicate ComesAfter(inp: seq<View>, offset: nat, g: seq<nat>, i: nat)
    requires Grouped(inp, offset, g) && Admitted(inp, offset, i)
  {
    var first, last, info := InfoOf(inp, offset, g[0]), InfoOf(inp, offset, g[|g| - 1]), InfoOf(inp, offset, i);
    && HeadersMatch(inp, offset, g[0], i)
    && info.seqNo == (first.seqNo + TotalSize(inp, offset, g)) % TWO32
    && LastFull(inp, offset, g) && info.gsoSize <= first.gsoSize && !last.pshSet
    && Room(inp, offset, g, i, g[0])
  }

  /** The group continues packet i. */
  ghost predicate ComesBefore(inp: seq<View>, offset: nat, g: seq<nat>, i: nat)
    requires Grouped(inp, offset, g) && Admitted(inp, offset, i)
  {
    var first, info := InfoOf(inp, offset, g[0]), InfoOf(inp, offset, i);
    && HeadersMatch(inp, offset, g[0], i)
    && (info.seqNo + info.gsoSize) % TWO32 == first.seqNo && !info.pshSet
    && (if |g| == 1 then first.gsoSize <= info.gsoSize else first.gsoSize == info.gsoSize)
    && Room(inp, offset, g, i, i)
  }

  datatype Placed = Placed(groups: seq<seq<nat>>, settled: bool)

  /**
   TCP: packet i is tried against the groups of its flow, last group first. A
   group it adjoins takes it; but if that group is a single packet with a bad
   checksum the group is given up, and if the packet's own checksum is bad the
   packet is.
   */
  ghost function Place(inp: seq<View>, offset: nat, gs: seq<seq<nat>>, i: nat): (r: Placed)
    requires Admitted(inp, offset, i) && forall p :: 0 <= p < |gs| ==> Grouped(inp, offset, gs[p])
    ensures forall p :: 0 <= p < |r.groups| ==> Grouped(inp, offset, r.groups[p])
  {
    if |gs| == 0 then Placed([], false)
    else
      var rest, g := gs[..|gs| - 1], gs[|gs| - 1];
      if !ComesAfter(inp, offset, g, i) && !ComesBefore(inp, offset, g, i) then
        var r := Place(inp, offset, rest, i);
        Placed(r.groups + [g], r.settled)
      else if |g| == 1 && !Intact(inp, offset, g[0]) then Place(inp, offset, rest, i)
      else if !Intact(inp, offset, i) then Placed(gs, true)
      else Placed(rest + [if ComesAfter(inp, offset, g, i) then g + [i] else [i] + g], true)
  }

  /** UDP: only the last group of the flow can take packet i, behind its other packets. */
  ghost predicate UdpTakes(inp: seq<View>, offset: nat, g: seq<nat>, i: nat)
    requires Grouped(inp, offset, g) && Admitted(inp, offset, i)
  {
    && HeadersMatch(inp, offset, g[0], i)
    && LastFull(inp, offset, g) && Size(inp, offset, i) <= Size(inp, offset, g[0])
    && Room(inp, offset, g, i, g[0])
    && Intact(inp, offset, g[0]) && Intact(inp, offset, i)
  }

  /** The groups of the packet's flow once packet i has come. */
  ghost function Arrive(inp: seq<View>, offset: nat, gs: seq<seq<nat>>, i: nat): (r: seq<seq<nat>>)
    requires Admitted(inp, offset, i) && forall p :: 0 <= p < |gs| ==> Grouped(inp, offset, gs[p])
    ensures forall p :: 0 <= p < |r| ==> Grouped(inp, offset, r[p])
  {
    if InfoOf(inp, offset, i).key.TcpKey? then
      var placed := Place(inp, offset, gs, i);
      if placed.settled then placed.groups else placed.groups + [[i]]
    else if |gs| > 0 && UdpTakes(inp, offset, gs[|gs| - 1], i) then gs[..|gs| - 1] + [gs[|gs| - 1] + [i]]
    else gs + [[i]]
  }

  /** The groups of a flow after the first n packets of the batch. */
  ghost function Groups(inp: seq<View>, offset: nat, canUDP: bool, key: FlowKey, n: nat): (r: seq<seq<nat>>)
    requires n <= |inp|
    ensures forall p :: 0 <= p < |r| ==> Grouped(inp, offset, r[p])
  {
    if n == 0 then []
    else
      var gs := Groups(inp, offset, canUDP, key, n - 1);
      if Arrives(inp, offset, canUDP, key, n - 1) then
        AdmitFacts(Pkt(inp[n - 1], offset), canUDP);
        Arrive(inp, offset, gs, n - 1)
      else gs
  }
}
