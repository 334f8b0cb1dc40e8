/** What handleGRO guarantees about every batch it accepts. */
module GroTheorems {
  import opened Bytes
  import opened InternetChecksum
  import opened Packets
  import opened Virtio
  import opened Gso
  import opened Gro
  import opened Coalescing
  import opened Batch
  import opened BatchSteps
  import opened Dropping
  import opened Reference
  import opened Refinement
  import opened Accounting
  import opened RoundTrip

  lemma {:induction false} LoopAccepts(e: Endian, st: GroState, i: nat, offset: nat, canUDP: bool)
    requires Safe(st, offset) && i <= |st.bufs|
    requires forall j :: i <= j < |st.fate| ==> st.fate[j] == Pending
    ensures GroLoop(e, st, i, offset, canUDP).1
      <==> i == |st.bufs| || (HDR_LEN <= offset && forall j :: i <= j < |st.bufs| ==> offset < |st.bufs[j].bytes|)
    decreases |st.bufs| - i
  {
    hide Step, FlowSafe;
    if i < |st.bufs| && HDR_LEN <= offset < |st.bufs[i].bytes| {
      StepSafe(e, st, i, offset, canUDP);
      LoopAccepts(e, Step(e, st, i, offset, canUDP), i + 1, offset, canUDP);
    }
  }

  /** handleGRO accepts a batch exactly when the offset leaves room for a virtio header and every packet is longer. */
  lemma AcceptsExactly(e: Endian, inp: seq<View>, offset: int, canUDP: bool)
    requires |inp| <= IDEAL_BATCH_SIZE
    ensures HandleGro(e, inp, offset, canUDP).1
      <==> |inp| == 0 || (offset >= HDR_LEN && forall i :: 0 <= i < |inp| ==> offset < |inp[i].bytes|)
  {
    if |inp| > 0 && offset >= HDR_LEN {
      LoopAccepts(e, Initial(inp), 0, offset, canUDP);
    }
  }

  /** The state in which an accepted, non-empty batch leaves the loop, before accounting. */
  function Looped(e: Endian, inp: seq<View>, offset: nat, canUDP: bool): GroState
    requires |inp| <= IDEAL_BATCH_SIZE
  {
    GroLoop(e, Initial(inp), 0, offset, canUDP).0
  }

  ghost predicate Accepted(e: Endian, inp: seq<View>, offset: nat, canUDP: bool) {
    |inp| > 0 && BatchOk(inp, offset) && HandleGro(e, inp, offset, canUDP).1
  }

  lemma AcceptedInv(e: Endian, inp: seq<View>, offset: nat, canUDP: bool)
    requires Accepted(e, inp, offset, canUDP)
    ensures offset >= HDR_LEN && Inv(e, Looped(e, inp, offset, canUDP), inp, offset, canUDP, |inp|)
    ensures Safe(Looped(e, inp, offset, canUDP), offset)
    ensures HandleGro(e, inp, offset, canUDP).0 == Finish(e, Looped(e, inp, offset, canUDP), offset)
  {
    InitialInv(e, inp, offset, canUDP);
    LoopInv(e, Initial(inp), inp, offset, canUDP, 0);
  }

  /** Exactly which packets are deleted from a table, in the final state. */
  lemma DroppedWhenExposed(e: Endian, inp: seq<View>, offset: nat, canUDP: bool, j: nat)
    requires Accepted(e, inp, offset, canUDP) && j < |inp|
    ensures j < |Looped(e, inp, offset, canUDP).fate|
    ensures Looped(e, inp, offset, canUDP).fate[j] == Dropped <==> Exposed(e, inp, offset, canUDP, j)
  {
    AcceptsExactly(e, inp, offset, canUDP);
    hide HandleGro, Exposed, Safe;
    DroppedExactly(e, inp, offset, canUDP, j);
  }

  lemma {:induction false} WrittenOrder(fate: seq<Fate>, n: nat)
    requires n <= |fate|
    ensures forall p, q :: 0 <= p < q < |Written(fate, n)| ==> Written(fate, n)[p] < Written(fate, n)[q]
    ensures forall j :: j in Written(fate, n) <==> 0 <= j < n && !fate[j].Coalesced?
  {
    if n > 0 {
      WrittenOrder(fate, n - 1);
      var before := Written(fate, n - 1);
      assert forall p :: 0 <= p < |before| ==> before[p] in before;
    }
  }

  /**
   Packet conservation. The indices to write are increasing and are exactly
   those of packets not coalesced into another; every packet of the batch is
   carried by exactly one buffer that is written; and the buffers are the
   batch's own backing arrays, permuted. Every packet is left alone, held by an
   item of its flow, deleted from one, or coalesced into one that is held.
   */
  lemma Conservation(e: Endian, inp: seq<View>, offset: nat, canUDP: bool)
    requires Accepted(e, inp, offset, canUDP)
    ensures
      var st := HandleGro(e, inp, offset, canUDP).0;
      && |st.bufs| == |st.fate| == |st.origin| == |inp|
      && (forall p, q :: 0 <= p < q < |st.toWrite| ==> st.toWrite[p] < st.toWrite[q])
      && (forall j :: j in st.toWrite <==> 0 <= j < |inp| && !st.fate[j].Coalesced?)
      && PlacementOk(st)
      && (forall i :: 0 <= i < |inp| ==> Home(st.fate, i) in st.toWrite && Settled(st, i))
      && BackingOk(st, inp)
  {
    hide Safe, Accepted, HandleGro, Looped, Finish, PlacementOk, BackingOk, ItemsOk, StreamsOk, Settled;
    AcceptedInv(e, inp, offset, canUDP);
    var st0 := Looped(e, inp, offset, canUDP);
    var st := Finish(e, st0, offset);
    FinishKeeps(e, st0, offset);
    WrittenOrder(st0.fate, |inp|);
    BackingSame(st0, st, inp);
    PlacementSame(st0, st);
    HomesWritten(e, st0, inp, offset);
    AllSettled(e, st0, st, inp, offset);
  }

  /** What became of packet i is decided, and a packet that is held has an item in its flow. */
  ghost predicate Settled(st: GroState, i: nat)
    requires i < |st.fate|
  {
    match st.fate[i]
    case Pending => false
    case Held(key) => HeldAt(st, key, i)
    case Coalesced(into) => into < |st.fate| && st.fate[into].Held?
    case _ => true
  }

  lemma AllSettled(e: Endian, st: GroState, st': GroState, inp: seq<View>, offset: nat)
    requires PositionsOk(e, st, inp, offset, |inp|) && st'.fate == st.fate && st'.flows == st.flows
    ensures forall i :: 0 <= i < |inp| ==> Settled(st', i)
  {
    hide WithHeader, Corrupt;
    forall i | 0 <= i < |inp|
      ensures Settled(st', i)
    {
      assert PositionOk(e, st, inp, offset, |inp|, i);
    }
  }

  /** Accounting changes bytes only. */
  lemma FinishKeeps(e: Endian, st: GroState, offset: nat)
    requires Safe(st, offset) && HDR_LEN <= offset
    ensures
      var st' := Finish(e, st, offset);
      && st'.flows == st.flows && st'.toWrite == st.toWrite && st'.fate == st.fate && st'.origin == st.origin
      && |st'.bufs| == |st.bufs| == |st.fate| == |st.origin|
      && forall j :: 0 <= j < |st.bufs| ==>
           && st'.bufs[j].id == st.bufs[j].id && st'.bufs[j].cap == st.bufs[j].cap
           && (!st.fate[j].Held? ==> st'.bufs[j] == st.bufs[j])
  {
    hide AccountBytes;
  }

  lemma HomesWritten(e: Endian, st: GroState, inp: seq<View>, offset: nat)
    requires PositionsOk(e, st, inp, offset, |inp|) && st.toWrite == Written(st.fate, |inp|)
    ensures forall i :: 0 <= i < |inp| ==> Home(st.fate, i) in st.toWrite
  {
    hide WithHeader, Corrupt, HeldAt;
    WrittenOrder(st.fate, |inp|);
    forall i | 0 <= i < |inp|
      ensures Home(st.fate, i) in st.toWrite
    {
      assert PositionOk(e, st, inp, offset, |inp|, i);
    }
  }

  /** The frame that buffer j of the final state is written as. */
  function FrameOf(v: View, offset: nat): seq<byte>
    requires HDR_LEN <= offset <= |v.bytes|
  {
    v.bytes[offset - HDR_LEN..]
  }

  /** The bytes in front of the packet, as a virtio header, name no GSO type and no checksum to complete. */
  predicate Undemanding(bytes: seq<byte>, offset: nat) {
    HDR_LEN <= offset <= |bytes| && bytes[offset - HDR_LEN] % 2 == 0 && bytes[offset - HDR_LEN + 1] == GSO_NONE
  }

  /** Enough output buffers, each large enough for the packet it is to take. */
  ghost predicate RoomFor(inp: seq<View>, offset: nat, os: seq<nat>, outLens: seq<nat>, sizes: nat, outOffset: int) {
    && 0 < |os| <= |outLens| <= sizes && 0 <= outOffset
    && forall m :: 0 <= m < |os| ==> os[m] < |inp| && outOffset + |inp[os[m]].bytes| - offset <= outLens[m]
  }

  /** What reading the frame of buffer j delivers: the packets the buffer carries. */
  ghost predicate DeliversAll(st: GroState, inp: seq<View>, offset: nat, j: nat, outcome: Outcome) {
    && j < |st.fate| == |st.origin| == |st.bufs| && outcome.Delivered?
    && match st.fate[j]
       case Held(key) =>
         && key in st.flows
         && exists p :: (0 <= p < |st.flows[key]| && st.flows[key][p].bufsIndex == j
                         && DeliversItem(st, inp, offset, st.flows[key][p], outcome.packets))
       case _ =>
         && j < |inp| && offset <= |inp[j].bytes| && st.origin[j] == [j]
         && outcome.packets == [Pkt(inp[j], offset)]
  }

  /** A lone packet comes back unchanged, a coalesced item as the packets that went into it. */
  ghost predicate DeliversItem(st: GroState, inp: seq<View>, offset: nat, item: GroItem, packets: seq<seq<byte>>) {
    && item.bufsIndex < |st.origin| == |st.bufs| && offset <= |st.bufs[item.bufsIndex].bytes|
    && var os := st.origin[item.bufsIndex];
    if item.numMerged == 0 then
      os == [item.bufsIndex] && os[0] < |inp| && offset <= |inp[os[0]].bytes| && packets == [Pkt(inp[os[0]], offset)]
    else ReadsBack(packets, item, os, inp, offset)
  }

  /** Reading back the frame of an item. */
  lemma HeldReadsBack(e: Endian, st: GroState, st': GroState, inp: seq<View>, offset: nat, item: GroItem,
                      outLens: seq<nat>, sizes: nat, outOffset: int)
    requires ItemOk(st, inp, offset, item) && HDR_LEN <= offset
    requires RoomFor(inp, offset, st.origin[item.bufsIndex], outLens, sizes, outOffset)
    requires var bytes := st.bufs[item.bufsIndex].bytes;
      item.iphLen == MinIpHeader(item.key.isV6) && |bytes| >= offset + item.iphLen + CsumOffset(item) + 2
    requires st'.origin == st.origin && |st'.bufs| == |st.bufs|
    requires st'.bufs[item.bufsIndex].bytes == AccountBytes(e, item, st.bufs[item.bufsIndex].bytes, offset)
    ensures
      var outcome := Read(e, FrameOf(st'.bufs[item.bufsIndex], offset), outLens, sizes, outOffset);
      outcome.Delivered? && DeliversItem(st', inp, offset, item, outcome.packets)
  {
    hide Read, WithHeader, Encode, AccountPacket, ItemShapes, ItemPayloads, ItemHeader, ItemSequence, ReadsBack;
    var v, os := st.bufs[item.bufsIndex], st.origin[item.bufsIndex];
    if item.numMerged == 0 {
      assert os == [os[0]];
      PlainRoundTrip(e, v.bytes, offset, outLens, sizes, outOffset);
    } else {
      ItemRoundTrip(e, item, v, os, inp, offset, outLens, sizes, outOffset);
    }
  }

  /**
   Write, then read, for the whole batch: the frame of every index to write is
   read back as exactly the packets that the buffer carries, except where a packet
   is exposed and the bytes that came in front of it ask for something. With
   Conservation, every packet of the batch comes back once.
   */
  lemma WriteThenRead(e: Endian, inp: seq<View>, offset: nat, canUDP: bool, j: nat, outLens: seq<nat>, sizes: nat,
                      outOffset: int)
    requires Accepted(e, inp, offset, canUDP)
    requires j in HandleGro(e, inp, offset, canUDP).0.toWrite
    requires j < |inp|
    requires !Exposed(e, inp, offset, canUDP, j) || Undemanding(inp[j].bytes, offset)
    requires j < |HandleGro(e, inp, offset, canUDP).0.origin|
    requires RoomFor(inp, offset, HandleGro(e, inp, offset, canUDP).0.origin[j], outLens, sizes, outOffset)
    ensures
      var st := HandleGro(e, inp, offset, canUDP).0;
      && j < |st.bufs| && HDR_LEN <= offset <= |st.bufs[j].bytes|
      && DeliversAll(st, inp, offset, j, Read(e, FrameOf(st.bufs[j], offset), outLens, sizes, outOffset))
  {
    hide Accepted, HandleGro, Looped, Finish, WithHeader, Encode, Corrupt, StreamsOk, AccountBytes, Read, ItemOk,
         PlacementOk, BackingOk, RoomFor, DeliversItem, Safe, Exposed, Undemanding;
    AcceptedInv(e, inp, offset, canUDP);
    DroppedWhenExposed(e, inp, offset, canUDP, j);
    var st0 := Looped(e, inp, offset, canUDP);
    var st := Finish(e, st0, offset);
    FinishKeeps(e, st0, offset);
    WrittenOrder(st0.fate, |inp|);
    assert PositionOk(e, st0, inp, offset, |inp|, j);
    match st0.fate[j] {
      case Held(key) =>
        var p :| 0 <= p < |st0.flows[key]| && st0.flows[key][p].bufsIndex == j;
        var item := st0.flows[key][p];
        assert ItemOk(st0, inp, offset, item);
        FinishHeld(e, st0, offset, key, p);
        HeldReadsBack(e, st0, st, inp, offset, item, outLens, sizes, outOffset);
      case Noop =>
        NoopReadsBack(e, inp, offset, j, outLens, sizes, outOffset);
      case Dropped =>
        UndemandingReadsBack(e, inp, offset, j, outLens, sizes, outOffset);
      case _ =>
    }
  }

  /** A frame whose header asks for nothing is read as its packet, whatever else the header holds. */
  lemma UndemandingReadsBack(e: Endian, inp: seq<View>, offset: nat, j: nat, outLens: seq<nat>, sizes: nat,
                             outOffset: int)
    requires j < |inp| && Undemanding(inp[j].bytes, offset) && RoomFor(inp, offset, [j], outLens, sizes, outOffset)
    ensures HDR_LEN <= offset <= |inp[j].bytes|
    ensures Read(e, FrameOf(inp[j], offset), outLens, sizes, outOffset) == Delivered([Pkt(inp[j], offset)])
  {
    assert [j][0] == j;
    var frame := FrameOf(inp[j], offset);
    assert frame[HDR_LEN..] == Pkt(inp[j], offset);
  }

  lemma NoopReadsBack(e: Endian, inp: seq<View>, offset: nat, j: nat, outLens: seq<nat>, sizes: nat, outOffset: int)
    requires j < |inp| && HDR_LEN <= offset <= |inp[j].bytes| && RoomFor(inp, offset, [j], outLens, sizes, outOffset)
    ensures Read(e, WithHeader(inp[j].bytes, offset, Encode(e, ZERO))[offset - HDR_LEN..], outLens, sizes, outOffset)
         == Delivered([Pkt(inp[j], offset)])
  {
    assert [j][0] == j;
    PlainRoundTrip(e, inp[j].bytes, offset, outLens, sizes, outOffset);
  }

  /**
   Packets that GRO leaves alone keep their bytes from offset on, and the empty
   virtio header goes in front of them. An exposed packet is the exception: its
   buffer is written with whatever bytes were in front of the packet.
   */
  lemma SinglePacketsKeepBytes(e: Endian, inp: seq<View>, offset: nat, canUDP: bool, j: nat)
    requires Accepted(e, inp, offset, canUDP) && j < |inp|
    ensures
      var st := HandleGro(e, inp, offset, canUDP).0;
      && j < |st.bufs| == |st.fate| == |st.origin| && offset <= |inp[j].bytes| && offset >= HDR_LEN
      && (st.origin[j] == [j] ==>
           st.bufs[j] == if Exposed(e, inp, offset, canUDP, j) then inp[j]
                         else inp[j].(bytes := WithHeader(inp[j].bytes, offset, Encode(e, ZERO))))
  {
    hide Exposed, Accepted, HandleGro, Looped, Finish, WithHeader, Encode, Corrupt, StreamsOk, PlacementOk, BackingOk,
         Safe, ItemOk;
    AcceptedInv(e, inp, offset, canUDP);
    AcceptedLengths(e, inp, offset, canUDP);
    DroppedWhenExposed(e, inp, offset, canUDP, j);
    var st0 := Looped(e, inp, offset, canUDP);
    FinishKeeps(e, st0, offset);
    assert PositionOk(e, st0, inp, offset, |inp|, j);
    if st0.fate[j].Held? {
      var key := st0.fate[j].key;
      var p :| 0 <= p < |st0.flows[key]| && st0.flows[key][p].bufsIndex == j;
      assert ItemOk(st0, inp, offset, st0.flows[key][p]);
      FinishHeld(e, st0, offset, key, p);
      if st0.origin[j] == [j] {
        HeldAlone(st0, inp, offset, st0.flows[key][p]);
      }
    }
  }

  lemma AcceptedLengths(e: Endian, inp: seq<View>, offset: nat, canUDP: bool)
    requires Accepted(e, inp, offset, canUDP)
    ensures offset >= HDR_LEN && forall i :: 0 <= i < |inp| ==> offset < |inp[i].bytes|
  {
    AcceptsExactly(e, inp, offset, canUDP);
    hide HandleGro;
  }

  /** An item that carries its own packet only is that packet. */
  lemma HeldAlone(st: GroState, inp: seq<View>, offset: nat, item: GroItem)
    requires ItemOk(st, inp, offset, item) && st.origin[item.bufsIndex] == [item.bufsIndex]
    ensures item.numMerged == 0 && item.bufsIndex < |inp| && st.bufs[item.bufsIndex] == inp[item.bufsIndex]
  {
    hide ItemInv, ItemShapes, ItemPayloads, ItemHeader, ItemSequence;
    InvParts(item, st.bufs[item.bufsIndex], st.origin[item.bufsIndex], inp, offset);
    BasicsOf(item, st.bufs[item.bufsIndex], st.origin[item.bufsIndex], inp, offset);
    assert Member(inp, offset, item.key, item.HeaderLen(), st.origin[item.bufsIndex][0]);
  }

  /**
   The virtio header that buffer j is owed: that of its item if anything was
   merged into it, the empty one otherwise.
   */
  function OwedHeader(st: GroState, j: nat): Header
    requires j < |st.fate|
  {
    if st.fate[j].Held? then
      var items := FlowItems(st, st.fate[j].key);
      var p := IndexOf(items, j);
      if p < |items| && items[p].numMerged > 0 then HeaderFor(items[p]) else ZERO
    else ZERO
  }

  /** The header is in the bytes in front of the packet. */
  predicate HeaderAt(bytes: seq<byte>, offset: nat, header: seq<byte>) {
    HDR_LEN <= offset <= |bytes| && bytes[offset - HDR_LEN..offset] == header
  }

  lemma WithHeaderAt(bytes: seq<byte>, offset: nat, header: seq<byte>)
    requires |header| == HDR_LEN <= offset <= |bytes|
    ensures HeaderAt(WithHeader(bytes, offset, header), offset, header)
  {
  }

  lemma AccountedHeaderAt(e: Endian, item: GroItem, bytes: seq<byte>, offset: nat)
    requires item.iphLen == MinIpHeader(item.key.isV6)
    requires HDR_LEN <= offset && |bytes| >= offset + item.iphLen + CsumOffset(item) + 2
    ensures HeaderAt(AccountBytes(e, item, bytes, offset), offset,
                     Encode(e, if item.numMerged > 0 then HeaderFor(item) else ZERO))
  {
    hide WithHeader, Encode, HeaderFor, AccountPacket, HeaderAt;
    if item.numMerged > 0 {
      WithHeaderAt(bytes[..offset] + AccountPacket(item, bytes[offset..]), offset, Encode(e, HeaderFor(item)));
    } else {
      WithHeaderAt(bytes, offset, Encode(e, ZERO));
    }
  }

  /**
   Every index to write has the virtio header it is owed in front of its packet,
   exactly when the packet is not exposed, or came in behind that header already.
   An exposed packet is corrupt, and its buffer is as it came in.
   */
  lemma HeaderExactly(e: Endian, inp: seq<View>, offset: nat, canUDP: bool, j: nat)
    requires Accepted(e, inp, offset, canUDP) && j in HandleGro(e, inp, offset, canUDP).0.toWrite
    ensures
      var st := HandleGro(e, inp, offset, canUDP).0;
      && j < |inp| == |st.bufs| == |st.fate|
      && (HeaderAt(st.bufs[j].bytes, offset, Encode(e, OwedHeader(st, j)))
          <==> !Exposed(e, inp, offset, canUDP, j) || HeaderAt(inp[j].bytes, offset, Encode(e, ZERO)))
      && (Exposed(e, inp, offset, canUDP, j) ==> st.bufs[j] == inp[j] && Corrupt(inp, offset, j))
  {
    hide Accepted, HandleGro, Looped, Finish, HeaderAt, WithHeader, Encode, HeaderFor, AccountBytes, Corrupt, ItemsOk,
         StreamsOk, PlacementOk, BackingOk, Safe, Exposed;
    AcceptedInv(e, inp, offset, canUDP);
    var st0 := Looped(e, inp, offset, canUDP);
    FinishKeeps(e, st0, offset);
    WrittenOrder(st0.fate, |inp|);
    DroppedWhenExposed(e, inp, offset, canUDP, j);
    assert PositionOk(e, st0, inp, offset, |inp|, j);
    match st0.fate[j] {
      case Held(key) =>
        var p :| 0 <= p < |st0.flows[key]| && st0.flows[key][p].bufsIndex == j;
        FinishHeld(e, st0, offset, key, p);
        OnlyIndex(st0, offset, key, p);
        AccountedHeaderAt(e, st0.flows[key][p], st0.bufs[j].bytes, offset);
      case Noop =>
        WithHeaderAt(inp[j].bytes, offset, Encode(e, ZERO));
      case _ =>
    }
  }

  /** Packet i, which reaches a flow, is where the groups of that flow have it. */
  ghost predicate AsGrouped(st: GroState, inp: seq<View>, offset: nat, canUDP: bool, i: nat)
    requires Admitted(inp, offset, i) && i < |st.fate|
  {
    var key := InfoOf(inp, offset, i).key;
    var gs := Groups(inp, offset, canUDP, key, |inp|);
    && FateByGroups(st.fate[i], gs, key, i)
    && (i in st.toWrite <==> forall j :: InGroup(gs, i, j) ==> i == j)
    && forall j: nat, p: nat :: GroupHas(gs, p, i, j) ==> j < |st.origin| && st.origin[j] == gs[p]
  }

  /**
   handleGRO merges exactly what the reference puts together. Every group of the
   reference ends in the buffer of its earliest packet, in the group's order; a
   packet that reaches a flow is held or coalesced as its group says; one that is in
   no group was deleted if it is exposed, and is left alone otherwise.
   */
  lemma MergedExactly(e: Endian, inp: seq<View>, offset: nat, canUDP: bool, i: nat)
    requires Accepted(e, inp, offset, canUDP) && i < |inp|
    ensures
      var st := HandleGro(e, inp, offset, canUDP).0;
      && i < |st.fate| && Settled(st, i)
      && (st.fate[i] == Dropped <==> Exposed(e, inp, offset, canUDP, i))
      && if Admitted(inp, offset, i) then AsGrouped(st, inp, offset, canUDP, i) else st.fate[i] == Noop
  {
    hide HandleGro, Looped, Finish, Safe, Inv, Exposed, Admit, Before, PlacementOk, BackingOk, Accepted, AsGrouped;
    Conservation(e, inp, offset, canUDP);
    AcceptedBefore(e, inp, offset, canUDP);
    var st0 := Looped(e, inp, offset, canUDP);
    FinishKeeps(e, st0, offset);
    DroppedWhenExposed(e, inp, offset, canUDP, i);
    if Admitted(inp, offset, i) {
      GroupedInTheEnd(e, inp, offset, canUDP, i);
      assert AsGrouped(Finish(e, st0, offset), inp, offset, canUDP, i) by {
        SameGrouping(st0, Finish(e, st0, offset), inp, offset, canUDP, i);
      }
    } else {
      NotAdmitted(e, inp, offset, canUDP, i);
    }
  }

  lemma SameGrouping(st: GroState, st': GroState, inp: seq<View>, offset: nat, canUDP: bool, i: nat)
    requires Admitted(inp, offset, i) && i < |st.fate| && AsGrouped(st, inp, offset, canUDP, i)
    requires st'.fate == st.fate && st'.toWrite == st.toWrite && st'.origin == st.origin
    ensures AsGrouped(st', inp, offset, canUDP, i)
  {
    hide Groups, FateByGroups, InGroup, GroupHas, Admit;
  }

  lemma GroupedInTheEnd(e: Endian, inp: seq<View>, offset: nat, canUDP: bool, i: nat)
    requires Accepted(e, inp, offset, canUDP) && Admitted(inp, offset, i)
    ensures i < |Looped(e, inp, offset, canUDP).fate|
    ensures AsGrouped(Looped(e, inp, offset, canUDP), inp, offset, canUDP, i)
  {
    hide HandleGro, Looped, Finish, Safe, Inv, Admit, GroupHas, InGroup, Groups, Before, Accepted;
    AcceptedBefore(e, inp, offset, canUDP);
    var st := Looped(e, inp, offset, canUDP);
    FatesByGroups(e, inp, offset, canUDP, |inp|, i);
    var key := InfoOf(inp, offset, i).key;
    var gs := Groups(inp, offset, canUDP, key, |inp|);
    GroupsBefore(e, inp, offset, canUDP, |inp|, key);
    GroupIndex(gs, i);
    forall j: nat, p: nat | GroupHas(gs, p, i, j)
      ensures j < |st.origin| && p < |gs| && st.origin[j] == gs[p]
    {
      GroupFate(e, st, inp, offset, canUDP, |inp|, key, p, i, j);
    }
    WrittenUnlessCoalesced(e, st, inp, offset, canUDP, i);
    if st.fate[i].Coalesced? {
      assert InGroup(gs, i, st.fate[i].into);
    }
  }

  lemma WrittenUnlessCoalesced(e: Endian, st: GroState, inp: seq<View>, offset: nat, canUDP: bool, i: nat)
    requires Inv(e, st, inp, offset, canUDP, |inp|) && i < |inp|
    ensures i < |st.fate| && (i in st.toWrite <==> !st.fate[i].Coalesced?)
    ensures st.fate[i].Coalesced? ==> st.fate[i].into != i
  {
    hide Safe, ItemsOk, StreamsOk, PlacementOk, BackingOk, WithHeader, Corrupt, HeldAt;
    WrittenOrder(st.fate, |inp|);
    assert PositionOk(e, st, inp, offset, |inp|, i);
  }

  lemma GroupIndex(gs: seq<seq<nat>>, i: nat)
    ensures forall j, p: nat :: GroupHas(gs, p, i, j) ==> p < |gs|
  {
    hide Earliest;
  }

  /** The final state of the loop, before accounting. */
  lemma AcceptedBefore(e: Endian, inp: seq<View>, offset: nat, canUDP: bool)
    requires Accepted(e, inp, offset, canUDP)
    ensures Takeable(inp, offset)
    ensures Looped(e, inp, offset, canUDP) == Before(e, inp, offset, canUDP, |inp|)
    ensures Inv(e, Looped(e, inp, offset, canUDP), inp, offset, canUDP, |inp|)
    ensures Safe(Looped(e, inp, offset, canUDP), offset)
    ensures HandleGro(e, inp, offset, canUDP).0 == Finish(e, Looped(e, inp, offset, canUDP), offset)
  {
    AcceptsExactly(e, inp, offset, canUDP);
    AcceptedInv(e, inp, offset, canUDP);
    hide HandleGro, Inv, Safe, Finish;
    LoopPasses(e, inp, offset, canUDP, 0);
    assert Before(e, inp, offset, canUDP, 0) == Initial(inp);
  }

  lemma NotAdmitted(e: Endian, inp: seq<View>, offset: nat, canUDP: bool, i: nat)
    requires Accepted(e, inp, offset, canUDP) && i < |inp| && !Admitted(inp, offset, i)
    ensures i < |Looped(e, inp, offset, canUDP).fate| && Looped(e, inp, offset, canUDP).fate[i] == Noop
  {
    hide HandleGro, Looped, Finish, Safe, ItemsOk, PlacementOk, BackingOk, StreamsOk, Exposed, Admit, InGroup, Before,
         Accepted, WithHeader;
    AcceptedBefore(e, inp, offset, canUDP);
    var st := Looped(e, inp, offset, canUDP);
    assert PositionOk(e, st, inp, offset, |inp|, i);
    if st.fate[i].Held? || st.fate[i].Coalesced? {
      GroupsBefore(e, inp, offset, canUDP, |inp|, st.fate[Home(st.fate, i)].key);
      FateGroup(e, st, inp, offset, canUDP, |inp|, i);
      var j := Home(st.fate, i);
      GroupFateOf(e, st, inp, offset, canUDP, |inp|, st.fate[j].key, i, j);
    }
  }

  /** No corrupt packet is merged, and an item is deleted only because its own packet is corrupt. */
  lemma NoCorruptPacketMerged(e: Endian, inp: seq<View>, offset: nat, canUDP: bool, i: nat)
    requires Accepted(e, inp, offset, canUDP) && i < |inp| && Corrupt(inp, offset, i)
    ensures
      var st := HandleGro(e, inp, offset, canUDP).0;
      |st.fate| == |st.origin| == |inp| && !st.fate[i].Coalesced? && st.origin[i] == [i]
  {
    AcceptedInv(e, inp, offset, canUDP);
    var st := Looped(e, inp, offset, canUDP);
    hide HandleGro, Looped, WithHeader, Encode, StreamsOk, BackingOk, FlowSafe, ItemOk, Admit, Valid;
    assert PositionOk(e, st, inp, offset, |inp|, i);
    var j := Home(st.fate, i);
    assert i in st.origin[j];
    assert PositionOk(e, st, inp, offset, |inp|, j);
    if st.fate[j].Held? {
      var key := st.fate[j].key;
      var p :| 0 <= p < |st.flows[key]| && st.flows[key][p].bufsIndex == j;
      assert ItemOk(st, inp, offset, st.flows[key][p]);
      CorruptIsAlone(st, inp, offset, st.flows[key][p], i);
    }
  }
}
