/**
 Which packets handleGRO deletes from a table without merging them: those are
 written without a virtio header of their own.
 */
module Dropping {
  import opened Bytes
  import opened InternetChecksum
  import opened Packets
  import opened Virtio
  import opened Gro
  import opened Coalescing
  import opened Batch
  import opened BatchSteps
  import opened TcpScanning
  import opened Matching

  // ---------------------------------------------------------------- one scan

  /** The scan of the first n items comes as far as item p and deletes it. */
  ghost predicate Deletes(bufs: seq<View>, pkt: View, info: Info, items: seq<GroItem>, n: nat, p: nat, offset: nat)
    requires Scannable(bufs, pkt, info, items, offset) && n <= |items|
  {
    && p < n && VerdictAt(bufs, pkt, info, items, p, offset) == DropIt
    && forall q :: p < q < n ==> !Stops(VerdictAt(bufs, pkt, info, items, q, offset))
  }

  /** The scan deletes the item of packet j. */
  ghost predicate DeletesPacket(bufs: seq<View>, pkt: View, info: Info, items: seq<GroItem>, n: nat, j: nat,
                                offset: nat)
    requires Scannable(bufs, pkt, info, items, offset) && n <= |items|
  {
    exists p: nat :: p < n && items[p].bufsIndex == j && Deletes(bufs, pkt, info, items, n, p, offset)
  }

  /** What the verdict on item n - 1 means for the packets deleted, when that item is not. */
  lemma DeletesStep(bufs: seq<View>, pkt: View, info: Info, items: seq<GroItem>, n: nat, j: nat, offset: nat)
    requires Scannable(bufs, pkt, info, items, offset) && 0 < n <= |items|
    requires VerdictAt(bufs, pkt, info, items, n - 1, offset) != DropIt
    ensures DeletesPacket(bufs, pkt, info, items, n, j, offset)
      <==> !Stops(VerdictAt(bufs, pkt, info, items, n - 1, offset))
           && DeletesPacket(bufs, pkt, info, items, n - 1, j, offset)
  {
    hide Scannable, VerdictAt;
    forall p: nat | p < n - 1
      ensures Deletes(bufs, pkt, info, items, n, p, offset)
        <==> !Stops(VerdictAt(bufs, pkt, info, items, n - 1, offset))
             && Deletes(bufs, pkt, info, items, n - 1, p, offset)
    {
    }
    assert !Deletes(bufs, pkt, info, items, n, n - 1, offset);
    hide Deletes;
  }

  /** The same when item n - 1 is deleted: the scan goes on over the items before it. */
  lemma DeletesLast(bufs: seq<View>, pkt: View, info: Info, items: seq<GroItem>, n: nat, j: nat, offset: nat)
    requires Scannable(bufs, pkt, info, items, offset) && 0 < n <= |items|
    requires VerdictAt(bufs, pkt, info, items, n - 1, offset) == DropIt
    ensures Scannable(bufs, pkt, info, items[..n - 1] + items[n..], offset)
    ensures DeletesPacket(bufs, pkt, info, items, n, j, offset)
      <==> j == items[n - 1].bufsIndex
           || DeletesPacket(bufs, pkt, info, items[..n - 1] + items[n..], n - 1, j, offset)
  {
    hide Scannable, VerdictAt;
    var items' := items[..n - 1] + items[n..];
    DropScannable(bufs, pkt, info, items, n, offset);
    forall p: nat | p < n - 1
      ensures items'[p] == items[p]
      ensures VerdictAt(bufs, pkt, info, items', p, offset) == VerdictAt(bufs, pkt, info, items, p, offset)
    {
      SameVerdict(bufs, pkt, info, items, items', p, offset);
    }
    forall p: nat | p < n - 1
      ensures Deletes(bufs, pkt, info, items, n, p, offset) <==> Deletes(bufs, pkt, info, items', n - 1, p, offset)
    {
    }
    assert Deletes(bufs, pkt, info, items, n, n - 1, offset);
    hide Deletes;
  }

  lemma NothingDeleted(bufs: seq<View>, pkt: View, info: Info, items: seq<GroItem>, j: nat, offset: nat)
    requires Scannable(bufs, pkt, info, items, offset)
    ensures !DeletesPacket(bufs, pkt, info, items, 0, j, offset)
  {
  }

  /** What a scan does to the fates of packets, by its verdict on item n - 1. */
  lemma ScanFates(e: Endian, st: GroState, i: nat, info: Info, n: nat, offset: nat)
    requires Scanning(st, i, info, n, offset)
    ensures |TcpScan(e, st, i, info, n, offset).fate| == |st.fate| && i < |st.fate| && st.fate[i] == Pending
    ensures Scannable(st.bufs, st.bufs[i], info, st.flows[info.key], offset)
    ensures
      var items := st.flows[info.key];
      var fate := TcpScan(e, st, i, info, n, offset).fate;
      if n == 0 then fate[i].Held? && fate == st.fate[i := fate[i]]
      else
        Stops(VerdictAt(st.bufs, st.bufs[i], info, items, n - 1, offset)) ==>
          fate[i] != Dropped && fate == st.fate[i := fate[i]]
  {
    hide Scannable, Safe, Fresh, Admit, ExamineTcp, MergedItem, MergedBufs, WithHeader, DropItem, NewItem;
    ScanBounds(st, i, info, n, offset);
    PendingAt(st, i, offset);
    ScanSafe(e, st, i, info, n, offset);
    if n > 0 {
      ScanOnce(e, st, i, info, n, offset);
    }
  }

  /** Exactly which packets a scan of tcpGRO deletes from the table. */
  lemma {:induction false} DroppedByScan(e: Endian, st: GroState, i: nat, info: Info, n: nat, offset: nat, j: nat)
    requires Scanning(st, i, info, n, offset) && j < |st.fate|
    ensures Scannable(st.bufs, st.bufs[i], info, st.flows[info.key], offset)
    ensures |TcpScan(e, st, i, info, n, offset).fate| == |st.fate|
    ensures TcpScan(e, st, i, info, n, offset).fate[j] == Dropped
      <==> st.fate[j] == Dropped || DeletesPacket(st.bufs, st.bufs[i], info, st.flows[info.key], n, j, offset)
    decreases n
  {
    hide Scanning, Scannable, VerdictAt, TcpScan, DeletesPacket, Safe, Fresh, Admit;
    ScanFates(e, st, i, info, n, offset);
    ScanBounds(st, i, info, n, offset);
    var items := st.flows[info.key];
    if n == 0 {
      NothingDeleted(st.bufs, st.bufs[i], info, items, j, offset);
    } else {
      ScanOnce(e, st, i, info, n, offset);
      match VerdictAt(st.bufs, st.bufs[i], info, items, n - 1, offset)
      case Skip =>
        ScanAgain(st, i, info, n, offset);
        DroppedByScan(e, st, i, info, n - 1, offset, j);
        DeletesStep(st.bufs, st.bufs[i], info, items, n, j, offset);
      case DropIt =>
        ScanDrop(st, i, info, n, offset);
        DroppedByScan(e, DropItem(st, info.key, n - 1), i, info, n - 1, offset, j);
        DeletesLast(st.bufs, st.bufs[i], info, items, n, j, offset);
      case _ =>
        DeletesStep(st.bufs, st.bufs[i], info, items, n, j, offset);
    }
  }

  // ---------------------------------------------------------------- in terms of the packets

  /** Packets j and i were admitted to the same TCP flow and agree on every header field that must not vary. */
  ghost predicate Alike(inp: seq<View>, offset: nat, j: nat, i: nat) {
    && i < |inp| && offset <= |inp[i].bytes| && Admit(Pkt(inp[i], offset), true).Some?
    && var info := InfoOf(inp, offset, i);
    && info.key.TcpKey?
    && Member(inp, offset, info.key, info.headerLen, i) && Member(inp, offset, info.key, info.headerLen, j)
    && OriginalShape(inp, offset, info.key, info.headerLen, j)
       == OriginalShape(inp, offset, info.key, info.headerLen, i)
  }

  /**
   Packet i adjoins packet j, which it is like: it comes right behind j or right
   in front of it modulo 2^32, with sizes and PSH flags that allow the merge, and
   the buffer that would be in front has the capacity.
   */
  ghost predicate Adjoins(inp: seq<View>, offset: nat, j: nat, i: nat) {
    Alike(inp, offset, j, i) && AdjoinsAs(InfoOf(inp, offset, i), InfoOf(inp, offset, j), inp[i], inp[j])
  }

  /** The sizes, sequence numbers, PSH flags and capacities of two adjoining packets, the later one first. */
  predicate AdjoinsAs(info: Info, other: Info, v: View, lone: View) {
    var len := |lone.bytes| + |v.bytes| - info.headerLen;
    || (info.seqNo == (other.seqNo + other.gsoSize) % TWO32
        && info.gsoSize <= other.gsoSize && !other.pshSet && len <= lone.cap)
    || ((info.seqNo + info.gsoSize) % TWO32 == other.seqNo
        && other.gsoSize <= info.gsoSize && !info.pshSet && len <= v.cap)
  }

  /** The item takes packet i, or finds the packet's own checksum invalid. */
  ghost predicate Takes(item: GroItem, v: View, inp: seq<View>, i: nat, info: Info, offset: nat) {
    && Sound(item, v, offset) && item.TcpItem? && i < |inp|
    && Tries(item, v, inp, i, info, offset) && !LoneInvalid(item, v, offset)
  }

  /** A lone packet is tried exactly by the packets that adjoin it. */
  lemma LoneTries(item: GroItem, v: View, os: seq<nat>, inp: seq<View>, i: nat, info: Info, offset: nat)
    requires Offered(item, v, os, inp, i, info, offset) && item.TcpItem? && item.numMerged == 0
    ensures Sound(item, v, offset) && i < |inp|
    ensures Tries(item, v, inp, i, info, offset) <==> Adjoins(inp, offset, item.bufsIndex, i)
  {
    hide ItemInv, Admit, Alike, SameAsItem;
    OfferedFacts(item, v, os, inp, i, info, offset);
    LoneFacts(item, v, os, inp, offset);
    LoneAlike(item, v, os, inp, i, info, offset);
    var payload := v.bytes[offset + item.HeaderLen()..];
    assert |payload| == item.gsoSize && |payload| % item.gsoSize == 0;
  }

  lemma LoneAlike(item: GroItem, v: View, os: seq<nat>, inp: seq<View>, i: nat, info: Info, offset: nat)
    requires Offered(item, v, os, inp, i, info, offset) && item.TcpItem? && item.numMerged == 0
    ensures Sound(item, v, offset)
    ensures SameAsItem(item, v, inp, i, info, offset) <==> Alike(inp, offset, item.bufsIndex, i)
    ensures SameAsItem(item, v, inp, i, info, offset) ==> info.headerLen == item.HeaderLen()
  {
    hide ItemInv, Admit, ItemShape, OriginalShape;
    OfferedFacts(item, v, os, inp, i, info, offset);
    LoneFacts(item, v, os, inp, offset);
  }

  /** An item of one packet is that packet. */
  lemma LoneFacts(item: GroItem, v: View, os: seq<nat>, inp: seq<View>, offset: nat)
    requires ItemInv(item, v, os, inp, offset) && item.TcpItem? && item.numMerged == 0
    ensures Sound(item, v, offset) && Member(inp, offset, item.key, item.HeaderLen(), item.bufsIndex)
    ensures os == [item.bufsIndex] && v == inp[item.bufsIndex]
    ensures |v.bytes| == offset + item.HeaderLen() + item.gsoSize
    ensures ItemShape(item, v, offset) == OriginalShape(inp, offset, item.key, item.HeaderLen(), item.bufsIndex)
    ensures var info := InfoOf(inp, offset, item.bufsIndex);
      info.seqNo == item.sentSeq && info.pshSet == item.pshSet && info.gsoSize == item.gsoSize
    ensures LoneInvalid(item, v, offset) <==> Corrupt(inp, offset, item.bufsIndex)
  {
    hide ItemInv, ItemPayloads, ItemHeader, ShapeOf, Admit, ChecksumOk;
    InvParts(item, v, os, inp, offset);
    BasicsOf(item, v, os, inp, offset);
    assert os == [os[0]];
    AdmitFacts(Pkt(inp[os[0]], offset), true);
    assert InfoOf(inp, offset, os[0]).seqNo == (item.sentSeq + 0 * item.gsoSize) % TWO32;
  }

  // ---------------------------------------------------------------- one step

  /** Looking at packet i, the scan reaches the item of packet j, which i adjoins, and j's checksum fails. */
  ghost predicate Deleting(st: GroState, inp: seq<View>, offset: nat, canUDP: bool, i: nat, j: nat) {
    && i < |inp| && offset <= |inp[i].bytes| && Admit(Pkt(inp[i], offset), canUDP).Some?
    && Adjoins(inp, offset, j, i) && Corrupt(inp, offset, j)
    && exists p: nat :: Reaches(st, inp, offset, i, p) && FlowItems(st, InfoOf(inp, offset, i).key)[p].bufsIndex == j
  }

  /** No item of the flow behind item p takes packet i. */
  ghost predicate Reaches(st: GroState, inp: seq<View>, offset: nat, i: nat, p: nat) {
    && i < |inp| && offset <= |inp[i].bytes| && Admit(Pkt(inp[i], offset), true).Some?
    && var info := InfoOf(inp, offset, i);
    var items := FlowItems(st, info.key);
    && p < |items|
    && forall q :: p < q < |items| && items[q].bufsIndex < |st.bufs| ==>
         !Takes(items[q], st.bufs[items[q].bufsIndex], inp, i, info, offset)
  }

  /** Packet i, of a TCP flow that has items, is next. */
  ghost predicate Scans(e: Endian, st: GroState, inp: seq<View>, info: Info, offset: nat, canUDP: bool, i: nat) {
    && Inv(e, st, inp, offset, canUDP, i) && i < |inp| && HDR_LEN <= offset < |inp[i].bytes|
    && Admit(Pkt(inp[i], offset), canUDP) == Some(info)
    && info.key.TcpKey? && info.key in st.flows
  }

  lemma ScansFacts(e: Endian, st: GroState, inp: seq<View>, info: Info, offset: nat, canUDP: bool, i: nat)
    requires Scans(e, st, inp, info, offset, canUDP, i)
    ensures Scanning(st, i, info, |st.flows[info.key]|, offset)
    ensures i < |inp| == |st.bufs| == |st.fate| == |st.origin| && st.bufs[i] == inp[i] && offset <= |inp[i].bytes|
    ensures Admit(Pkt(inp[i], offset), true) == Some(info)
    ensures Scannable(st.bufs, inp[i], info, st.flows[info.key], offset)
  {
    hide PositionsOk, ItemsOk, StreamsOk, PlacementOk, BackingOk, FlowSafe;
    NextPacket(e, st, inp, offset, canUDP, i);
    AdmitFacts(Pkt(inp[i], offset), canUDP);
    hide Admit;
    ScanBounds(st, i, info, |st.flows[info.key]|, offset);
  }

  lemma ScansItem(e: Endian, st: GroState, inp: seq<View>, info: Info, offset: nat, canUDP: bool, i: nat, p: nat)
    requires Scans(e, st, inp, info, offset, canUDP, i) && p < |st.flows[info.key]|
    ensures var item := st.flows[info.key][p];
      && item.bufsIndex < |st.bufs| == |st.origin| == |inp| && item.bufsIndex < i && item.TcpItem?
      && Offered(item, st.bufs[item.bufsIndex], st.origin[item.bufsIndex], inp, i, info, offset)
  {
    hide PositionsOk, StreamsOk, PlacementOk, BackingOk, ItemInv, Admit;
    ScansFacts(e, st, inp, info, offset, canUDP, i);
    HeldIndex(st, offset, info.key, p);
    HeldNotCoalesced(e, st, inp, offset, i, info.key, p);
    assert ItemOk(st, inp, offset, st.flows[info.key][p]);
  }

  /** The packet that a merged item goes by has a valid checksum. */
  lemma MergedIsValid(e: Endian, st: GroState, inp: seq<View>, info: Info, offset: nat, canUDP: bool, i: nat, p: nat)
    requires Scans(e, st, inp, info, offset, canUDP, i) && p < |st.flows[info.key]|
    requires st.flows[info.key][p].numMerged > 0
    ensures !Corrupt(inp, offset, st.flows[info.key][p].bufsIndex)
  {
    hide Safe, PositionsOk, StreamsOk, BackingOk, ItemInv, Admit, Corrupt;
    var item := st.flows[info.key][p];
    ScansItem(e, st, inp, info, offset, canUDP, i, p);
    var j := item.bufsIndex;
    HeldIndex(st, offset, info.key, p);
    HeldNotCoalesced(e, st, inp, offset, i, info.key, p);
    assert Home(st.fate, j) == j;
    if Corrupt(inp, offset, j) {
      CorruptIsAlone(st, inp, offset, item, j);
      BasicsOf(item, st.bufs[j], st.origin[j], inp, offset);
    }
  }

  /** The verdict on item p, in terms of the packets. */
  lemma ItemVerdict(e: Endian, st: GroState, inp: seq<View>, info: Info, offset: nat, canUDP: bool, i: nat, p: nat)
    requires Scans(e, st, inp, info, offset, canUDP, i) && p < |st.flows[info.key]|
    ensures i < |inp| && Scannable(st.bufs, inp[i], info, st.flows[info.key], offset)
    ensures st.flows[info.key][p].bufsIndex < |st.bufs|
    ensures
      var items := st.flows[info.key];
      var j := items[p].bufsIndex;
      var verdict := VerdictAt(st.bufs, inp[i], info, items, p, offset);
      && (Stops(verdict) <==> Takes(items[p], st.bufs[j], inp, i, info, offset))
      && (verdict == DropIt <==> Adjoins(inp, offset, j, i) && Corrupt(inp, offset, j))
  {
    hide Scans, Scannable, ItemInv, Admit, ExamineTcp, Tries, Adjoins, Corrupt, ChecksumOk;
    ScansFacts(e, st, inp, info, offset, canUDP, i);
    ScansItem(e, st, inp, info, offset, canUDP, i, p);
    var item := st.flows[info.key][p];
    var v, os := st.bufs[item.bufsIndex], st.origin[item.bufsIndex];
    VerdictExactly(item, v, os, inp, i, info, offset);
    if item.numMerged == 0 {
      LoneTries(item, v, os, inp, i, info, offset);
      LoneFacts(item, v, os, inp, offset);
    } else {
      MergedIsValid(e, st, inp, info, offset, canUDP, i, p);
    }
  }

  /** The packets that the scan deletes, in terms of the packets. */
  lemma ScanDeletes(e: Endian, st: GroState, inp: seq<View>, info: Info, offset: nat, canUDP: bool, i: nat, j: nat)
    requires Scans(e, st, inp, info, offset, canUDP, i)
    ensures i < |inp| && Scannable(st.bufs, inp[i], info, st.flows[info.key], offset)
    ensures DeletesPacket(st.bufs, inp[i], info, st.flows[info.key], |st.flows[info.key]|, j, offset)
      <==> Deleting(st, inp, offset, canUDP, i, j)
  {
    hide Scans, Scanning, Scannable, Admit, Adjoins, Corrupt, Takes, VerdictAt;
    ScansFacts(e, st, inp, info, offset, canUDP, i);
    ScansAdmitted(e, st, inp, info, offset, canUDP, i);
    var items := st.flows[info.key];
    forall p: nat | p < |items|
      ensures items[p].bufsIndex < |st.bufs|
      ensures var verdict := VerdictAt(st.bufs, inp[i], info, items, p, offset);
        && (Stops(verdict) <==> Takes(items[p], st.bufs[items[p].bufsIndex], inp, i, info, offset))
        && (verdict == DropIt <==>
             Adjoins(inp, offset, items[p].bufsIndex, i) && Corrupt(inp, offset, items[p].bufsIndex))
    {
      ItemVerdict(e, st, inp, info, offset, canUDP, i, p);
    }
    hide Stops;
    forall p: nat | p < |items|
      ensures Deletes(st.bufs, inp[i], info, items, |items|, p, offset)
        <==> Reaches(st, inp, offset, i, p)
             && Adjoins(inp, offset, items[p].bufsIndex, i) && Corrupt(inp, offset, items[p].bufsIndex)
    {
    }
    hide Deletes;
    ReachesBound(st, inp, offset, i);
    hide Reaches;
  }

  lemma ReachesBound(st: GroState, inp: seq<View>, offset: nat, i: nat)
    requires i < |inp| && offset <= |inp[i].bytes| && Admit(Pkt(inp[i], offset), true).Some?
    ensures forall p: nat :: Reaches(st, inp, offset, i, p) ==> p < |FlowItems(st, InfoOf(inp, offset, i).key)|
  {
    hide Admit, Takes;
  }

  lemma ScansAdmitted(e: Endian, st: GroState, inp: seq<View>, info: Info, offset: nat, canUDP: bool, i: nat)
    requires Scans(e, st, inp, info, offset, canUDP, i)
    ensures i < |inp| && offset <= |inp[i].bytes| && Admit(Pkt(inp[i], offset), canUDP) == Some(info)
    ensures Admit(Pkt(inp[i], offset), true) == Some(info) && InfoOf(inp, offset, i) == info
    ensures info.key in st.flows && FlowItems(st, info.key) == st.flows[info.key]
  {
    hide Inv;
    AdmitFacts(Pkt(inp[i], offset), canUDP);
    hide Admit;
  }

  /** Steps without a scan delete nothing. */
  lemma NothingToDelete(st: GroState, inp: seq<View>, offset: nat, canUDP: bool, i: nat, j: nat)
    requires i < |inp| && offset <= |inp[i].bytes|
    requires var admitted := Admit(Pkt(inp[i], offset), canUDP);
      admitted.Some? ==> admitted.value.key.UdpKey? || admitted.value.key !in st.flows
    ensures !Deleting(st, inp, offset, canUDP, i, j)
  {
    hide Corrupt, AdjoinsAs, Takes, OriginalShape;
    AdmitFacts(Pkt(inp[i], offset), canUDP);
    hide Admit;
  }

  /** A step of handleGRO that is not a scan gives packet i its fate and no other packet one. */
  lemma StepFates(e: Endian, st: GroState, i: nat, offset: nat, canUDP: bool)
    requires Safe(st, offset) && Fresh(st, i, offset)
    requires var admitted := Admit(st.bufs[i].bytes[offset..], canUDP);
      admitted.Some? ==> admitted.value.key.UdpKey? || admitted.value.key !in st.flows
    ensures var fate := Step(e, st, i, offset, canUDP).fate;
      && i < |st.fate| == |fate| && st.fate[i] == Pending
      && fate[i] != Dropped && fate == st.fate[i := fate[i]]
  {
    hide Safe, Admit, UdpCanCoalesce, TryCoalesce, WithHeader, NewItem, MergedBufs, MergedItem;
    PendingAt(st, i, offset);
    StepSafe(e, st, i, offset, canUDP);
    AdmitFacts(st.bufs[i].bytes[offset..], canUDP);
    var admitted := Admit(st.bufs[i].bytes[offset..], canUDP);
    if admitted.Some? && admitted.value.key.UdpKey? && admitted.value.key in st.flows {
      UdpTarget(st, i, admitted.value, offset);
    }
  }

  /** Exactly which packets a step of handleGRO deletes from a table. */
  lemma DroppedByStep(e: Endian, st: GroState, inp: seq<View>, offset: nat, canUDP: bool, i: nat, j: nat)
    requires Inv(e, st, inp, offset, canUDP, i) && BatchOk(inp, offset)
    requires i < |inp| && j < |inp| && HDR_LEN <= offset < |inp[i].bytes|
    ensures Safe(st, offset) && Fresh(st, i, offset)
    ensures j < |st.fate| == |Step(e, st, i, offset, canUDP).fate|
    ensures Step(e, st, i, offset, canUDP).fate[j] == Dropped
      <==> st.fate[j] == Dropped || Deleting(st, inp, offset, canUDP, i, j)
  {
    hide PositionsOk, ItemsOk, StreamsOk, PlacementOk, BackingOk, BatchOk, FlowSafe, TcpScan, UdpStep, Insert,
         LeaveAlone, Deleting, DeletesPacket;
    NextPacket(e, st, inp, offset, canUDP, i);
    AdmitFacts(Pkt(inp[i], offset), canUDP);
    var admitted := Admit(Pkt(inp[i], offset), canUDP);
    hide Admit;
    if admitted.Some? && admitted.value.key.TcpKey? && admitted.value.key in st.flows {
      var info := admitted.value;
      ScansFacts(e, st, inp, info, offset, canUDP, i);
      ScanDeletes(e, st, inp, info, offset, canUDP, i, j);
      DroppedByScan(e, st, i, info, |st.flows[info.key]|, offset, j);
    } else {
      StepFates(e, st, i, offset, canUDP);
      NothingToDelete(st, inp, offset, canUDP, i, j);
    }
  }

  // ---------------------------------------------------------------- the whole batch

  /** A batch that handleGRO takes in full. */
  ghost predicate Takeable(inp: seq<View>, offset: nat) {
    BatchOk(inp, offset) && HDR_LEN <= offset && forall i :: 0 <= i < |inp| ==> offset < |inp[i].bytes|
  }

  /** The state in which handleGRO comes to packet n. */
  ghost function Before(e: Endian, inp: seq<View>, offset: nat, canUDP: bool, n: nat): (st: GroState)
    requires Takeable(inp, offset) && n <= |inp|
    ensures Inv(e, st, inp, offset, canUDP, n)
  {
    hide Inv, BatchOk, Step;
    if n == 0 then
      InitialInv(e, inp, offset, canUDP);
      Initial(inp)
    else
      var st := Before(e, inp, offset, canUDP, n - 1);
      StepInv(e, st, inp, offset, canUDP, n - 1);
      Step(e, st, n - 1, offset, canUDP)
  }

  /** The loop passes through exactly these states. */
  lemma {:induction false} LoopPasses(e: Endian, inp: seq<View>, offset: nat, canUDP: bool, n: nat)
    requires Takeable(inp, offset) && n <= |inp|
    ensures
      var st := Before(e, inp, offset, canUDP, n);
      && n <= |st.bufs| && Safe(st, offset) && (forall j :: n <= j < |st.fate| ==> st.fate[j] == Pending)
      && GroLoop(e, st, n, offset, canUDP) == (Before(e, inp, offset, canUDP, |inp|), true)
    decreases |inp| - n
  {
    hide Inv, BatchOk, Step, Safe, Before;
    var st := Before(e, inp, offset, canUDP, n);
    InvSafe(e, st, inp, offset, canUDP, n);
    LoopInv(e, st, inp, offset, canUDP, n);
    if n < |inp| {
      LoopPasses(e, inp, offset, canUDP, n + 1);
      NextPacket(e, st, inp, offset, canUDP, n);
      BeforeNext(e, inp, offset, canUDP, n);
    }
  }

  lemma BeforeNext(e: Endian, inp: seq<View>, offset: nat, canUDP: bool, n: nat)
    requires Takeable(inp, offset) && n < |inp|
    ensures
      var st := Before(e, inp, offset, canUDP, n);
      && Safe(st, offset) && Fresh(st, n, offset)
      && Before(e, inp, offset, canUDP, n + 1) == Step(e, st, n, offset, canUDP)
  {
    hide Inv, BatchOk, Step, Safe, Fresh;
    StepInv(e, Before(e, inp, offset, canUDP, n), inp, offset, canUDP, n);
  }

  /** When packet i is looked at, the item of packet j is deleted. */
  ghost predicate DeletedAt(e: Endian, inp: seq<View>, offset: nat, canUDP: bool, i: nat, j: nat)
    requires Takeable(inp, offset) && i < |inp|
  {
    Deleting(Before(e, inp, offset, canUDP, i), inp, offset, canUDP, i, j)
  }

  /**
   Packet j will be written without a virtio header of its own: its checksum
   fails, and some later packet adjoins it while no item behind it in its flow
   takes that packet first.
   */
  ghost predicate Exposed(e: Endian, inp: seq<View>, offset: nat, canUDP: bool, j: nat) {
    Takeable(inp, offset) && exists i: nat :: j < i < |inp| && DeletedAt(e, inp, offset, canUDP, i, j)
  }

  /** A packet deletes only the items of earlier packets. */
  lemma DeletesEarlier(e: Endian, st: GroState, inp: seq<View>, offset: nat, canUDP: bool, i: nat, j: nat)
    requires Inv(e, st, inp, offset, canUDP, i) && Deleting(st, inp, offset, canUDP, i, j)
    ensures j < i
  {
    hide Inv, Admit, Adjoins, Corrupt, Takes;
    var key := InfoOf(inp, offset, i).key;
    var p: nat :| Reaches(st, inp, offset, i, p) && FlowItems(st, key)[p].bufsIndex == j;
    InvPositions(e, st, inp, offset, canUDP, i);
    HeldNotCoalesced(e, st, inp, offset, i, key, p);
  }

  lemma InvPositions(e: Endian, st: GroState, inp: seq<View>, offset: nat, canUDP: bool, n: nat)
    requires Inv(e, st, inp, offset, canUDP, n)
    ensures Safe(st, offset) && PositionsOk(e, st, inp, offset, n) && |st.fate| == |inp|
  {
    hide Safe, PositionOk, ItemsOk, StreamsOk, PlacementOk, BackingOk;
  }

  /** Exactly which packets have been deleted before packet n. */
  lemma {:induction false} DroppedBefore(e: Endian, inp: seq<View>, offset: nat, canUDP: bool, n: nat, j: nat)
    requires Takeable(inp, offset) && n <= |inp| && j < |inp|
    ensures
      var st := Before(e, inp, offset, canUDP, n);
      && j < |st.fate|
      && (st.fate[j] == Dropped <==> exists i: nat :: j < i < n && DeletedAt(e, inp, offset, canUDP, i, j))
  {
    hide Inv, BatchOk, Step, Safe, Fresh, Deleting;
    if n > 0 {
      var st := Before(e, inp, offset, canUDP, n - 1);
      DroppedBefore(e, inp, offset, canUDP, n - 1, j);
      BeforeNext(e, inp, offset, canUDP, n - 1);
      DroppedByStep(e, st, inp, offset, canUDP, n - 1, j);
      if DeletedAt(e, inp, offset, canUDP, n - 1, j) {
        DeletesEarlier(e, st, inp, offset, canUDP, n - 1, j);
      }
    }
  }

  /** Exactly which packets of a batch handleGRO deletes from its tables. */
  lemma DroppedExactly(e: Endian, inp: seq<View>, offset: nat, canUDP: bool, j: nat)
    requires Takeable(inp, offset) && j < |inp|
    ensures Safe(Initial(inp), offset)
    ensures
      var (st, ok) := GroLoop(e, Initial(inp), 0, offset, canUDP);
      && ok && |st.fate| == |inp|
      && (st.fate[j] == Dropped <==> Exposed(e, inp, offset, canUDP, j))
  {
    hide Inv, BatchOk, Step, Safe, DeletedAt;
    LoopPasses(e, inp, offset, canUDP, 0);
    DroppedBefore(e, inp, offset, canUDP, |inp|, j);
    InvSafe(e, Before(e, inp, offset, canUDP, |inp|), inp, offset, canUDP, |inp|);
    InvPositions(e, Before(e, inp, offset, canUDP, |inp|), inp, offset, canUDP, |inp|);
    assert Before(e, inp, offset, canUDP, 0) == Initial(inp);
  }
}
