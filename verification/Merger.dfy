/** coalesceTCPPackets and coalesceUDPPackets over the batch of buffers, proved against Gro. */
module Merger {
  import opened Bytes
  import opened InternetChecksum
  import opened Packets
  import opened Gro
  import opened Slices
  import opened Buffers

  /** The packet and the item's buffer hold at least the item's headers, and are not the same buffer. */
  ghost predicate Mergeable(vs: seq<View>, i: nat, info: Info, item: GroItem, mode: CanCoalesce, offset: nat) {
    && i < |vs| && item.bufsIndex < |vs| && i != item.bufsIndex
    && mode != Unavailable && (item.UdpItem? ==> mode == Append)
    && item.iphLen == MinIpHeader(item.key.isV6) && (item.TcpItem? ==> item.tcphLen >= 20)
    && offset + item.HeaderLen() <= |vs[item.bufsIndex].bytes|
    && offset + item.HeaderLen() <= |vs[i].bytes|
  }

  /** The tests of coalesceTCPPackets and coalesceUDPPackets, in their order. */
  method MayCoalesce(e: Endian, mode: CanCoalesce, bufs: array<Slice>, i: nat, info: Info, item: GroItem, offset: nat,
                     ghost arrs: seq<array<byte>>, ghost vs: seq<View>)
    returns (result: CoalesceResult)
    requires Models(bufs, arrs, vs) && Mergeable(vs, i, info, item, mode, offset)
    ensures result == TryCoalesce(mode, vs[i], info, item, vs[item.bufsIndex], offset)
  {
    hide ChecksumOk, Models;
    ModelsAt(bufs, arrs, vs, i);
    ModelsAt(bufs, arrs, vs, item.bufsIndex);
    var j := item.bufsIndex;
    BytesFromView(bufs[i], offset, vs[i].bytes);
    BytesFromView(bufs[j], offset, vs[j].bytes);
    var pkt, target := BytesFrom(bufs[i], offset), BytesFrom(bufs[j], offset);
    var isV6 := item.key.isV6;
    var coalescedLen := |target| + |pkt| - item.HeaderLen();
    var headCap := if mode == Prepend then bufs[i].arr.Length else bufs[j].arr.Length;
    if headCap - offset - offset < coalescedLen {
      return InsufficientCap;
    }
    if mode == Prepend && info.pshSet {
      return PshEnding;
    }
    if item.numMerged == 0 {
      if item.UdpItem? && item.cSumKnownInvalid {
        return ItemInvalidCsum;
      }
      var itemValid := ChecksumValid(e, target, item.iphLen, item.Protocol(), isV6);
      if !itemValid {
        return ItemInvalidCsum;
      }
    }
    var pktValid := ChecksumValid(e, pkt, item.iphLen, item.Protocol(), isV6);
    return if pktValid then Success else PktInvalidCsum;
  }

  /** What a coalescing that passed its tests needs of the capacity. */
  lemma CapacityFits(mode: CanCoalesce, vs: seq<View>, i: nat, info: Info, item: GroItem, offset: nat)
    requires Mergeable(vs, i, info, item, mode, offset)
    requires TryCoalesce(mode, vs[i], info, item, vs[item.bufsIndex], offset) == Success
    ensures mode == Prepend ==> |vs[i].bytes| + |vs[item.bufsIndex].bytes| - offset - item.HeaderLen() <= vs[i].cap
    ensures mode == Append ==>
      |vs[item.bufsIndex].bytes| + |vs[i].bytes| - offset - item.HeaderLen() <= vs[item.bufsIndex].cap
  {
    hide ChecksumOk;
  }

  /** The payload of packet i goes to the end of the item's buffer; a PSH flag goes into its header first. */
  method AppendPacket(bufs: array<Slice>, i: nat, info: Info, item: GroItem, offset: nat, ghost arrs: seq<array<byte>>,
                      ghost vs: seq<View>)
    requires Models(bufs, arrs, vs) && Mergeable(vs, i, info, item, Append, offset)
    requires |vs[item.bufsIndex].bytes| + |vs[i].bytes| - offset - item.HeaderLen() <= vs[item.bufsIndex].cap
    modifies bufs, arrs
    ensures Models(bufs, arrs, MergedBufs(vs, i, info, item, Append, offset))
  {
    hide Models;
    ModelsAt(bufs, arrs, vs, i);
    ModelsAt(bufs, arrs, vs, item.bufsIndex);
    var j := item.bufsIndex;
    var headersLen := item.HeaderLen();
    BytesFromView(bufs[i], offset + headersLen, vs[i].bytes);
    var data := BytesFrom(bufs[i], offset + headersLen);
    ghost var vs1 := vs;
    if item.TcpItem? && info.pshSet {
      var at := offset + item.iphLen + 13;
      assert bufs[j].arr[at] == vs[j].bytes[at];
      var flags := SetPsh(bufs[j].arr[at]);
      Patch(bufs, j, at, [flags], arrs, vs);
      assert Overwrite(vs[j].bytes, at, [flags]) == WithPsh(vs[j].bytes, at);
      vs1 := vs[j := vs[j].(bytes := WithPsh(vs[j].bytes, at))];
    }
    Extend(bufs, j, data, arrs, vs1);
    assert vs1[j := vs1[j].(bytes := vs1[j].bytes + data)] == MergedBufs(vs, i, info, item, Append, offset);
  }

  /** The payload of the item's buffer goes to the end of packet i's, and the two buffers change places. */
  method PrependPacket(bufs: array<Slice>, i: nat, info: Info, item: GroItem, offset: nat, ghost arrs: seq<array<byte>>,
                       ghost vs: seq<View>)
    requires Models(bufs, arrs, vs) && Mergeable(vs, i, info, item, Prepend, offset)
    requires |vs[i].bytes| + |vs[item.bufsIndex].bytes| - offset - item.HeaderLen() <= vs[i].cap
    modifies bufs, arrs
    ensures Models(bufs, arrs, MergedBufs(vs, i, info, item, Prepend, offset))
  {
    hide Models;
    ModelsAt(bufs, arrs, vs, i);
    ModelsAt(bufs, arrs, vs, item.bufsIndex);
    var j := item.bufsIndex;
    var headersLen := item.HeaderLen();
    BytesFromView(bufs[j], offset + headersLen, vs[j].bytes);
    var data := BytesFrom(bufs[j], offset + headersLen);
    Extend(bufs, i, data, arrs, vs);
    ghost var vs1 := vs[i := vs[i].(bytes := vs[i].bytes + data)];
    Swap(bufs, i, j, arrs, vs1);
    assert vs1[i := vs1[j]][j := vs1[i]] == MergedBufs(vs, i, info, item, Prepend, offset);
  }

  /** coalesceTCPPackets and coalesceUDPPackets: all of the change, or none of it. */
  method CoalescePackets(e: Endian, mode: CanCoalesce, bufs: array<Slice>, i: nat, info: Info, item: GroItem,
                         offset: nat, ghost arrs: seq<array<byte>>, ghost vs: seq<View>)
    returns (result: CoalesceResult, item': GroItem)
    requires Models(bufs, arrs, vs) && Mergeable(vs, i, info, item, mode, offset)
    modifies bufs, arrs
    ensures result == TryCoalesce(mode, vs[i], info, item, vs[item.bufsIndex], offset)
    ensures result == Success ==>
      item' == MergedItem(mode, info, item) && Models(bufs, arrs, MergedBufs(vs, i, info, item, mode, offset))
    ensures result != Success ==> item' == item && unchanged(bufs) && unchanged(arrs)
  {
    hide Models, TryCoalesce, MergedBufs;
    result := MayCoalesce(e, mode, bufs, i, info, item, offset, arrs, vs);
    item' := item;
    if result == Success {
      CapacityFits(mode, vs, i, info, item, offset);
      if mode == Prepend {
        PrependPacket(bufs, i, info, item, offset, arrs, vs);
        item' := item'.(sentSeq := info.seqNo);
      } else {
        AppendPacket(bufs, i, info, item, offset, arrs, vs);
        if item.TcpItem? && info.pshSet {
          item' := item'.(pshSet := true);
        }
      }
      if item.TcpItem? && info.gsoSize > item.gsoSize {
        item' := item'.(gsoSize := info.gsoSize);
      }
      item' := item'.(numMerged := Low16(item'.numMerged + 1));
    }
  }
}
