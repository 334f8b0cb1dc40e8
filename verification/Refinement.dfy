/** handleGRO, in place and with narrow arithmetic, puts together exactly the packets that the reference does. */
module Refinement {
  import opened Bytes
  import opened InternetChecksum
  import opened Segments
  import opened Packets
  import opened Virtio
  import opened Gro
  import opened Coalescing
  import opened Headers
  import opened Batch
  import opened BatchSteps
  import opened TcpScanning
  import opened Dropping
  import opened Matching
  import opened Reference

  // ---------------------------------------------------------------- an item and its group

  /** The last part is full exactly when the size divides the payload. */
  lemma LastPart(p: seq<byte>, size: nat)
    requires size > 0 && |p| > 0
    ensures |Split(p, size)| > 0
    ensures
      var parts := Split(p, size);
      && (|p| % size == 0 <==> |parts[|parts| - 1]| == size)
      && |parts[0]| == (if |parts| == 1 then |p| else size)
      && (|parts| - 1) * size + |parts[|parts| - 1]| == |p|
  {
    NonEmptySplit(p, size);
    var n := |Split(p, size)|;
    SplitAt(p, size, n - 1);
    SplitAt(p, size, 0);
    var r := |Split(p, size)[n - 1]|;
    if r == size {
      assert |p| == n * size + 0;
      DivisionUnique(|p|, size, n, 0);
    } else {
      DivisionUnique(|p|, size, n - 1, r);
    }
  }

  /** The payload of an item is as long as its packets' payloads together. */
  lemma {:induction false} PartialSize(item: GroItem, v: View, os: seq<nat>, inp: seq<View>, offset: nat, m: nat)
    requires ItemInv(item, v, os, inp, offset) && m < |os|
    requires Grouped(inp, offset, os)
    ensures TotalSize(inp, offset, os[..m]) == m * item.gsoSize
  {
    hide ItemInv, Admit, Grouped, Size;
    GroupedOf(inp, offset, os);
    if m > 0 {
      PartialSize(item, v, os, inp, offset, m - 1);
      assert os[..m][..m - 1] == os[..m - 1];
      ItemPart(item, v, os, inp, offset, m - 1);
      OneMoreTime(m - 1, item.gsoSize);
    } else {
      assert os[..0] == [];
    }
  }

  lemma OneMoreTime(m: nat, size: nat)
    ensures m * size + size == (m + 1) * size
  {
  }

  lemma GroupedOf(inp: seq<View>, offset: nat, os: seq<nat>)
    requires Grouped(inp, offset, os)
    ensures |os| > 0 && forall m :: 0 <= m < |os| ==> Admitted(inp, offset, os[m])
  {
  }

  /** Packet m of an item is as long as the item's segments, unless it is the last. */
  lemma ItemPart(item: GroItem, v: View, os: seq<nat>, inp: seq<View>, offset: nat, m: nat)
    requires ItemInv(item, v, os, inp, offset) && m < |os|
    ensures Admitted(inp, offset, os[m]) && offset + item.HeaderLen() < |v.bytes| && item.gsoSize > 0
    ensures
      var parts := Split(v.bytes[offset + item.HeaderLen()..], item.gsoSize);
      |parts| == |os| && Size(inp, offset, os[m]) == |parts[m]| && (m < |os| - 1 ==> |parts[m]| == item.gsoSize)
  {
    hide ItemShapes, ItemHeader, ItemSequence, ItemChecked, Admit, Split, ItemBasics;
    BasicsOf(item, v, os, inp, offset);
    assert Member(inp, offset, item.key, item.HeaderLen(), os[m]);
    var payload := v.bytes[offset + item.HeaderLen()..];
    assert PayloadsOf(inp, offset, item.key, item.HeaderLen(), os)[m]
        == PayloadOf(inp, offset, item.key, item.HeaderLen(), os[m]);
    SplitAt(payload, item.gsoSize, m);
  }

  /** An item of a flow, as the group of packets that it carries. */
  lemma ItemGroup(item: GroItem, v: View, os: seq<nat>, inp: seq<View>, offset: nat)
    requires ItemInv(item, v, os, inp, offset)
    ensures Grouped(inp, offset, os) && offset + item.HeaderLen() < |v.bytes| && item.gsoSize > 0
    ensures |os| == item.numMerged + 1
    ensures item.gsoSize == Size(inp, offset, os[0])
    ensures |v.bytes| == offset + item.HeaderLen() + TotalSize(inp, offset, os)
    ensures |v.bytes[offset + item.HeaderLen()..]| % item.gsoSize == 0 <==> LastFull(inp, offset, os)
  {
    hide ItemInv, Admit, Split;
    BasicsOf(item, v, os, inp, offset);
    var n := |os|;
    forall m | 0 <= m < n
      ensures Admitted(inp, offset, os[m])
    {
      ItemPart(item, v, os, inp, offset, m);
    }
    var payload := v.bytes[offset + item.HeaderLen()..];
    LastPart(payload, item.gsoSize);
    ItemPart(item, v, os, inp, offset, n - 1);
    ItemPart(item, v, os, inp, offset, 0);
    PartialSize(item, v, os, inp, offset, n - 1);
    if n == 1 {
      LoneSize(item, v, os, inp, offset);
    }
  }

  lemma LoneSize(item: GroItem, v: View, os: seq<nat>, inp: seq<View>, offset: nat)
    requires ItemInv(item, v, os, inp, offset) && |os| == 1
    ensures offset + item.HeaderLen() + item.gsoSize == |v.bytes|
    ensures os[0] == item.bufsIndex < |inp| && v == inp[os[0]]
  {
    hide ItemInv, ItemShapes, ItemPayloads, ItemHeader, ItemSequence;
    InvParts(item, v, os, inp, offset);
    BasicsOf(item, v, os, inp, offset);
    assert Member(inp, offset, item.key, item.HeaderLen(), os[0]);
  }

  /** The packet i is offered to an item whose buffer is the one that its first packet came in. */
  ghost predicate Fronted(item: GroItem, v: View, os: seq<nat>, inp: seq<View>, i: nat, info: Info, offset: nat) {
    && Offered(item, v, os, inp, i, info, offset)
    && |os| > 0 && os[0] < |inp| && v.cap == inp[os[0]].cap
  }

  lemma FrontedFacts(item: GroItem, v: View, os: seq<nat>, inp: seq<View>, i: nat, info: Info, offset: nat)
    requires Fronted(item, v, os, inp, i, info, offset)
    ensures Sound(item, v, offset) && Grouped(inp, offset, os) && Admitted(inp, offset, i)
    ensures InfoOf(inp, offset, i) == info && info.key == item.key && info.iphLen == item.iphLen
    ensures |inp[i].bytes| == offset + info.headerLen + info.gsoSize
  {
    hide ItemInv, Admit;
    OfferedInv(item, v, os, inp, i, info, offset);
    OfferedFacts(item, v, os, inp, i, info, offset);
    BasicsOf(item, v, os, inp, offset);
    ItemGroup(item, v, os, inp, offset);
    AdmitFacts(Pkt(inp[i], offset), true);
  }

  /** Agreement with the item is agreement with its first packet. */
  lemma SameAsFirst(item: GroItem, v: View, os: seq<nat>, inp: seq<View>, i: nat, info: Info, offset: nat)
    requires Fronted(item, v, os, inp, i, info, offset)
    ensures Sound(item, v, offset) && Grouped(inp, offset, os) && Admitted(inp, offset, i)
    ensures SameAsItem(item, v, inp, i, info, offset) <==> HeadersMatch(inp, offset, os[0], i)
    ensures SameAsItem(item, v, inp, i, info, offset) ==> info.headerLen == item.HeaderLen()
  {
    hide Fronted, ItemInv, ItemPayloads, ItemHeader, ItemSequence, ItemChecked, Admit, ShapeOf, HeadersAgree;
    FrontedFacts(item, v, os, inp, i, info, offset);
    FrontedInv(item, v, os, inp, i, info, offset);
    InvParts(item, v, os, inp, offset);
    BasicsOf(item, v, os, inp, offset);
    AdmitFacts(Pkt(inp[i], offset), true);
    assert Member(inp, offset, item.key, item.HeaderLen(), os[0]);
    assert OriginalShape(inp, offset, item.key, item.HeaderLen(), os[0]) == ItemShape(item, v, offset);
    AdmitFacts(Pkt(inp[os[0]], offset), true);
    if info.headerLen == item.HeaderLen() {
      assert Member(inp, offset, item.key, item.HeaderLen(), i);
      ShapeInBytes(Pkt(inp[os[0]], offset), Pkt(inp[i], offset), item.key.isV6, item.key.TcpKey?, item.HeaderLen());
    }
  }

  lemma FrontedInv(item: GroItem, v: View, os: seq<nat>, inp: seq<View>, i: nat, info: Info, offset: nat)
    requires Fronted(item, v, os, inp, i, info, offset)
    ensures ItemInv(item, v, os, inp, offset) && |os| > 0 && os[0] < |inp| && v.cap == inp[os[0]].cap
    ensures Offered(item, v, os, inp, i, info, offset) && i < |inp| && offset <= |inp[i].bytes|
    ensures Admit(Pkt(inp[i], offset), true) == Some(info) && info.key == item.key
  {
    hide ItemInv, Admit;
  }

  /** The sequence number and PSH flag that a TCP item keeps are those of its first and last packet. */
  lemma ItemEnds(item: GroItem, v: View, os: seq<nat>, inp: seq<View>, offset: nat)
    requires ItemInv(item, v, os, inp, offset) && item.TcpItem?
    ensures Grouped(inp, offset, os)
    ensures item.sentSeq == InfoOf(inp, offset, os[0]).seqNo
    ensures item.pshSet == InfoOf(inp, offset, os[|os| - 1]).pshSet
  {
    hide ItemInv, ItemShapes, ItemPayloads, ItemHeader, ItemChecked, Admit;
    ItemGroup(item, v, os, inp, offset);
    InvParts(item, v, os, inp, offset);
    BasicsOf(item, v, os, inp, offset);
    assert InfoOf(inp, offset, os[0]).seqNo == (item.sentSeq + 0 * item.gsoSize) % TWO32;
    assert Member(inp, offset, item.key, item.HeaderLen(), os[|os| - 1]);
  }

  /** The packets that a TCP item is tried with are those that its group adjoins. */
  lemma ItemTries(item: GroItem, v: View, os: seq<nat>, inp: seq<View>, i: nat, info: Info, offset: nat)
    requires Fronted(item, v, os, inp, i, info, offset) && item.TcpItem?
    ensures Sound(item, v, offset) && Grouped(inp, offset, os) && Admitted(inp, offset, i)
    ensures Tries(item, v, inp, i, info, offset) <==> ComesAfter(inp, offset, os, i) || ComesBefore(inp, offset, os, i)
    ensures Tries(item, v, inp, i, info, offset) ==>
      (Follows(item, v, inp, i, info, offset) <==> ComesAfter(inp, offset, os, i))
  {
    hide Fronted, ItemInv, Admit, SameAsItem, HeadersMatch, LastFull;
    FrontedFacts(item, v, os, inp, i, info, offset);
    FrontedInv(item, v, os, inp, i, info, offset);
    SameAsFirst(item, v, os, inp, i, info, offset);
    ItemGroup(item, v, os, inp, offset);
    ItemEnds(item, v, os, inp, offset);
    NeitherBoth(item, v, inp, i, info, offset, os);
  }

  /** A packet that comes before an item does not follow it. */
  lemma NeitherBoth(item: GroItem, v: View, inp: seq<View>, i: nat, info: Info, offset: nat, os: seq<nat>)
    requires Offered(item, v, os, inp, i, info, offset) && item.TcpItem?
    ensures Sound(item, v, offset)
    ensures !(Follows(item, v, inp, i, info, offset) && Precedes(item, v, inp, i, info, offset))
  {
    hide ItemInv, Admit, SameAsItem, TcpCanCoalesce;
    TcpExactly(item, v, os, inp, i, info, offset);
  }

  /** The checksum test on packet i as it came in. */
  lemma IntactIs(inp: seq<View>, offset: nat, k: nat)
    requires Admitted(inp, offset, k)
    ensures
      var info := InfoOf(inp, offset, k);
      && Member(inp, offset, info.key, info.headerLen, k)
      && info.iphLen == MinIpHeader(info.key.isV6) <= |Pkt(inp[k], offset)|
      && (Intact(inp, offset, k) <==> Valid(inp, offset, info.key, info.headerLen, k))
      && (Intact(inp, offset, k) <==>
           ChecksumOk(Pkt(inp[k], offset), info.iphLen, if info.key.TcpKey? then PROTO_TCP else PROTO_UDP,
                      info.key.isV6))
  {
    hide Admit, ChecksumOk;
    AdmitFacts(Pkt(inp[k], offset), true);
  }

  /** The packets of a merged item are intact, and a single one is the buffer's packet. */
  lemma ItemIntact(item: GroItem, v: View, os: seq<nat>, inp: seq<View>, offset: nat)
    requires ItemInv(item, v, os, inp, offset)
    ensures Sound(item, v, offset) && Grouped(inp, offset, os)
    ensures |os| > 1 ==> Intact(inp, offset, os[0])
    ensures |os| == 1 ==>
      (Intact(inp, offset, os[0]) <==> ChecksumOk(Pkt(v, offset), item.iphLen, item.Protocol(), item.key.isV6))
    ensures item.UdpItem? && item.cSumKnownInvalid ==> |os| == 1 && !Intact(inp, offset, os[0])
  {
    hide ItemInv, ItemShapes, ItemPayloads, ItemHeader, ItemSequence, Admit, ChecksumOk, Intact, Valid;
    InvParts(item, v, os, inp, offset);
    BasicsOf(item, v, os, inp, offset);
    ItemGroup(item, v, os, inp, offset);
    assert Member(inp, offset, item.key, item.HeaderLen(), os[0]);
    IntactIs(inp, offset, os[0]);
  }

  /** One turn of the scan, on the item's group. */
  lemma GroupVerdict(item: GroItem, v: View, os: seq<nat>, inp: seq<View>, i: nat, info: Info, offset: nat)
    requires Fronted(item, v, os, inp, i, info, offset) && item.TcpItem?
    ensures Comparable(v, info, item, offset) && Grouped(inp, offset, os) && Admitted(inp, offset, i)
    ensures Admit(Pkt(inp[i], offset), true) == Some(info)
    ensures ExamineTcp(inp[i], v, info, item, offset)
         == if !ComesAfter(inp, offset, os, i) && !ComesBefore(inp, offset, os, i) then Skip
            else if |os| == 1 && !Intact(inp, offset, os[0]) then DropIt
            else if !Intact(inp, offset, i) then Reject
            else Join(if ComesAfter(inp, offset, os, i) then Append else Prepend)
  {
    hide Fronted, ItemInv, Admit, ExamineTcp, Tries, Follows, ComesAfter, ComesBefore, Intact, ChecksumOk;
    FrontedFacts(item, v, os, inp, i, info, offset);
    FrontedInv(item, v, os, inp, i, info, offset);
    VerdictExactly(item, v, os, inp, i, info, offset);
    ItemTries(item, v, os, inp, i, info, offset);
    ItemIntact(item, v, os, inp, offset);
    ItemGroup(item, v, os, inp, offset);
    IntactIs(inp, offset, i);
  }

  /** A datagram is merged into the last item of its flow exactly when the item's group takes it. */
  lemma UdpGroupVerdict(item: GroItem, v: View, os: seq<nat>, inp: seq<View>, i: nat, info: Info, offset: nat)
    requires Fronted(item, v, os, inp, i, info, offset) && item.UdpItem?
    ensures Sound(item, v, offset) && Grouped(inp, offset, os) && Admitted(inp, offset, i)
    ensures item.iphLen == info.iphLen && info.headerLen == item.HeaderLen()
    ensures offset + item.HeaderLen() <= |inp[i].bytes|
    ensures UdpCanCoalesce(Pkt(inp[i], offset), info, item, Pkt(v, offset)) == Append
            && TryCoalesce(Append, inp[i], info, item, v, offset) == Success
      <==> UdpTakes(inp, offset, os, i)
  {
    hide Fronted, ItemInv, Admit, UdpCanCoalesce, SameAsItem, HeadersMatch, LastFull, Intact, ChecksumOk;
    FrontedFacts(item, v, os, inp, i, info, offset);
    FrontedInv(item, v, os, inp, i, info, offset);
    OfferedFacts(item, v, os, inp, i, info, offset);
    UdpExactly(item, v, os, inp, i, info, offset);
    SameAsFirst(item, v, os, inp, i, info, offset);
    ItemIntact(item, v, os, inp, offset);
    ItemGroup(item, v, os, inp, offset);
    IntactIs(inp, offset, i);
  }

  // ---------------------------------------------------------------- what each change does to the groups

  /** The buffer of an item is the one that its first packet came in, and the item goes by its earliest packet. */
  ghost predicate FrontAt(st: GroState, inp: seq<View>, j: nat) {
    && j < |st.bufs| == |st.origin| && |st.origin[j]| > 0
    && st.origin[j][0] < |inp| && st.bufs[j].id == st.origin[j][0]
    && forall m :: 0 <= m < |st.origin[j]| ==> j <= st.origin[j][m]
  }

  ghost predicate Fronts(st: GroState, inp: seq<View>) {
    forall j :: 0 <= j < |st.fate| && st.fate[j].Held? ==> FrontAt(st, inp, j)
  }

  /** The packets that the item carries. */
  function GroupOf(st: GroState, item: GroItem): seq<nat> {
    if item.bufsIndex < |st.origin| then st.origin[item.bufsIndex] else []
  }

  /** The groups that the items of a flow carry. */
  function Carried(st: GroState, key: FlowKey): (r: seq<seq<nat>>)
    ensures |r| == |FlowItems(st, key)|
    ensures forall p :: 0 <= p < |r| ==> r[p] == GroupOf(st, FlowItems(st, key)[p])
  {
    var items := FlowItems(st, key);
    seq(|items|, p requires 0 <= p < |items| => GroupOf(st, items[p]))
  }

  lemma LeaveAloneGroups(e: Endian, st: GroState, inp: seq<View>, i: nat, offset: nat)
    requires Fresh(st, i, offset) && Fronts(st, inp)
    ensures Fronts(LeaveAlone(e, st, i, offset), inp)
    ensures forall key :: Carried(LeaveAlone(e, st, i, offset), key) == Carried(st, key)
  {
    hide WithHeader;
    var st' := LeaveAlone(e, st, i, offset);
    forall j | 0 <= j < |st'.fate| && st'.fate[j].Held?
      ensures FrontAt(st', inp, j)
    {
      assert FrontAt(st, inp, j);
    }
  }

  lemma InsertGroups(st: GroState, inp: seq<View>, i: nat, info: Info, known: bool, offset: nat)
    requires Fresh(st, i, offset) && Fronts(st, inp) && i < TWO16
    requires |st.origin| == |st.bufs| == |inp| && st.origin[i] == [i] && st.bufs[i].id == i
    requires Admit(st.bufs[i].bytes[offset..], true) == Some(info)
    ensures Fronts(Insert(st, i, info, known, offset), inp)
    ensures
      var st' := Insert(st, i, info, known, offset);
      && Carried(st', info.key) == Carried(st, info.key) + [[i]]
      && forall key :: key != info.key ==> Carried(st', key) == Carried(st, key)
  {
    NewItemSafe(st.bufs[i].bytes[offset..], info, i, known);
    hide NewItem, Admit;
    var st' := Insert(st, i, info, known, offset);
    forall j | 0 <= j < |st'.fate| && st'.fate[j].Held?
      ensures FrontAt(st', inp, j)
    {
      assert j != i ==> FrontAt(st, inp, j);
    }
  }

  lemma DropGroups(st: GroState, inp: seq<View>, key: FlowKey, p: nat)
    requires key in st.flows && p < |st.flows[key]| && st.flows[key][p].bufsIndex < |st.fate|
    requires Fronts(st, inp)
    ensures Fronts(DropItem(st, key, p), inp)
    ensures
      var st' := DropItem(st, key, p);
      && p < |Carried(st, key)| && Carried(st', key) == Carried(st, key)[..p] + Carried(st, key)[p + 1..]
      && forall k :: k != key ==> Carried(st', k) == Carried(st, k)
  {
    var st' := DropItem(st, key, p);
    forall j | 0 <= j < |st'.fate| && st'.fate[j].Held?
      ensures FrontAt(st', inp, j)
    {
      assert FrontAt(st, inp, j);
    }
  }

  lemma MergeGroups(st: GroState, inp: seq<View>, i: nat, info: Info, p: nat, mode: CanCoalesce, offset: nat)
    requires Safe(st, offset) && Fresh(st, i, offset) && Fronts(st, inp) && mode != Unavailable
    requires |st.bufs| == |inp| && st.origin[i] == [i] && st.bufs[i].id == i
    requires info.key in st.flows && p < |st.flows[info.key]| && ItemSafe(st, offset, info.key, st.flows[info.key][p])
    requires offset + st.flows[info.key][p].HeaderLen() <= |st.bufs[i].bytes|
    ensures Fronts(MergeInto(st, i, info, p, mode, offset), inp)
    ensures
      var st', gs := MergeInto(st, i, info, p, mode, offset), Carried(st, info.key);
      && Carried(st', info.key) == gs[p := if mode == Prepend then [i] + gs[p] else gs[p] + [i]]
      && forall key :: key != info.key ==> Carried(st', key) == Carried(st, key)
  {
    hide MergedItem, Safe;
    MergeFronts(st, inp, i, info, p, mode, offset);
    var st' := MergeInto(st, i, info, p, mode, offset);
    assert MergedItem(mode, info, st.flows[info.key][p]).bufsIndex == st.flows[info.key][p].bufsIndex;
    OtherIndices(st, i, offset, info.key, p);
    hide MergedBufs;
    forall key
      ensures Carried(st', key)
           == if key == info.key then
                Carried(st, key)[p := if mode == Prepend then [i] + Carried(st, key)[p] else Carried(st, key)[p] + [i]]
              else Carried(st, key)
    {
    }
  }

  /** No other item uses the buffer of item p or of packet i. */
  lemma OtherIndices(st: GroState, i: nat, offset: nat, key: FlowKey, p: nat)
    requires Safe(st, offset) && Fresh(st, i, offset) && key in st.flows && p < |st.flows[key]|
    ensures |st.fate| == |st.origin| && st.flows[key][p].bufsIndex < i
    ensures forall k, q :: k in st.flows && 0 <= q < |st.flows[k]| && (k != key || q != p) ==>
      st.flows[k][q].bufsIndex != i && st.flows[k][q].bufsIndex != st.flows[key][p].bufsIndex
  {
    hide FlowSafe, ItemSafe;
    HeldIndex(st, offset, key, p);
    HeldBefore(st, i, offset, key, st.flows[key][p]);
    forall k, q | k in st.flows && 0 <= q < |st.flows[k]| && (k != key || q != p)
      ensures st.flows[k][q].bufsIndex != i && st.flows[k][q].bufsIndex != st.flows[key][p].bufsIndex
    {
      HeldIndex(st, offset, k, q);
      HeldBefore(st, i, offset, k, st.flows[k][q]);
      IndexApart(st, offset, key, p, k, q);
    }
  }

  lemma IndexApart(st: GroState, offset: nat, key: FlowKey, p: nat, k: FlowKey, q: nat)
    requires Safe(st, offset) && key in st.flows && p < |st.flows[key]| && k in st.flows && q < |st.flows[k]|
    requires k != key || q != p
    ensures st.flows[k][q].bufsIndex != st.flows[key][p].bufsIndex
  {
    HeldIndex(st, offset, key, p);
    HeldIndex(st, offset, k, q);
    assert FlowSafe(st, offset, key);
  }

  lemma MergeFronts(st: GroState, inp: seq<View>, i: nat, info: Info, p: nat, mode: CanCoalesce, offset: nat)
    requires |st.fate| == |st.bufs| == |st.origin| == |inp|
    requires Fresh(st, i, offset) && Fronts(st, inp) && mode != Unavailable
    requires st.origin[i] == [i] && st.bufs[i].id == i
    requires info.key in st.flows && p < |st.flows[info.key]| && ItemSafe(st, offset, info.key, st.flows[info.key][p])
    requires offset + st.flows[info.key][p].HeaderLen() <= |st.bufs[i].bytes|
    ensures Fronts(MergeInto(st, i, info, p, mode, offset), inp)
  {
    hide MergedItem;
    var st' := MergeInto(st, i, info, p, mode, offset);
    var item := st.flows[info.key][p];
    HeldBefore(st, i, offset, info.key, item);
    forall j | 0 <= j < |st'.fate| && st'.fate[j].Held?
      ensures FrontAt(st', inp, j)
    {
      assert FrontAt(st, inp, j);
    }
  }

  // ---------------------------------------------------------------- one packet

  /** Packet i, which reaches a flow, is next. */
  ghost predicate Coming(e: Endian, st: GroState, inp: seq<View>, info: Info, offset: nat, canUDP: bool, i: nat) {
    && Inv(e, st, inp, offset, canUDP, i) && Fronts(st, inp) && BatchOk(inp, offset)
    && i < |inp| && HDR_LEN <= offset < |inp[i].bytes|
    && Admit(Pkt(inp[i], offset), canUDP) == Some(info)
  }

  lemma ComingFacts(e: Endian, st: GroState, inp: seq<View>, info: Info, offset: nat, canUDP: bool, i: nat)
    requires Coming(e, st, inp, info, offset, canUDP, i)
    ensures Inv(e, st, inp, offset, canUDP, i) && Fronts(st, inp) && BatchOk(inp, offset)
    ensures Safe(st, offset) && Fresh(st, i, offset) && i < TWO16
    ensures i < |inp| == |st.bufs| == |st.fate| == |st.origin|
    ensures HDR_LEN <= offset < |inp[i].bytes| && st.bufs[i] == inp[i] && st.origin[i] == [i] && st.bufs[i].id == i
    ensures Admit(Pkt(inp[i], offset), canUDP) == Some(info)
    ensures Admit(st.bufs[i].bytes[offset..], true) == Some(info) && Admitted(inp, offset, i)
    ensures InfoOf(inp, offset, i) == info
  {
    hide PositionsOk, ItemsOk, StreamsOk, PlacementOk, BackingOk, FlowSafe, Fronts;
    NextPacket(e, st, inp, offset, canUDP, i);
    AdmitFacts(Pkt(inp[i], offset), canUDP);
    hide Admit;
  }

  /** Every item of the flow is offered the packet, and its buffer is its first packet's. */
  lemma ItemFronted(e: Endian, st: GroState, inp: seq<View>, info: Info, offset: nat, canUDP: bool, i: nat, p: nat)
    requires Coming(e, st, inp, info, offset, canUDP, i)
    requires info.key in st.flows && p < |st.flows[info.key]|
    ensures
      var item := st.flows[info.key][p];
      && item.bufsIndex < |st.bufs| == |st.origin| && (item.TcpItem? <==> info.key.TcpKey?)
      && |st.fate| == |st.bufs| && ItemSafe(st, offset, info.key, item)
      && Fronted(item, st.bufs[item.bufsIndex], st.origin[item.bufsIndex], inp, i, info, offset)
  {
    hide PositionsOk, StreamsOk, PlacementOk, ItemInv, Admit, Safe;
    ComingFacts(e, st, inp, info, offset, canUDP, i);
    HeldIndex(st, offset, info.key, p);
    assert ItemOk(st, inp, offset, st.flows[info.key][p]);
    assert FrontAt(st, inp, st.flows[info.key][p].bufsIndex);
  }

  /** What a flow carries are groups of admitted packets. */
  lemma CarriedGrouped(e: Endian, st: GroState, inp: seq<View>, offset: nat, canUDP: bool, n: nat, key: FlowKey)
    requires Inv(e, st, inp, offset, canUDP, n)
    ensures forall p :: 0 <= p < |Carried(st, key)| ==> Grouped(inp, offset, Carried(st, key)[p])
  {
    hide Safe, PositionsOk, StreamsOk, PlacementOk, BackingOk, ItemInv, Grouped;
    forall p | 0 <= p < |Carried(st, key)|
      ensures Grouped(inp, offset, Carried(st, key)[p])
    {
      var item := FlowItems(st, key)[p];
      assert ItemOk(st, inp, offset, item);
      ItemGroup(item, st.bufs[item.bufsIndex], st.origin[item.bufsIndex], inp, offset);
    }
  }

  /** The other flows carry what they carried, and items keep their buffers. */
  ghost predicate OthersStay(st: GroState, st': GroState, inp: seq<View>, key: FlowKey) {
    Fronts(st', inp) && forall k :: k != key ==> Carried(st', k) == Carried(st, k)
  }

  /** The groups after packet i was tried against the first n of them. */
  ghost function Outcome(inp: seq<View>, offset: nat, gs: seq<seq<nat>>, n: nat, i: nat): seq<seq<nat>>
    requires Admitted(inp, offset, i) && n <= |gs| && forall p :: 0 <= p < |gs| ==> Grouped(inp, offset, gs[p])
  {
    var placed := Place(inp, offset, gs[..n], i);
    placed.groups + gs[n..] + if placed.settled then [] else [[i]]
  }

  /** One turn of the reference. */
  lemma PlaceTurn(inp: seq<View>, offset: nat, gs: seq<seq<nat>>, n: nat, i: nat)
    requires Admitted(inp, offset, i) && 0 < n <= |gs|
    requires forall p :: 0 <= p < |gs| ==> Grouped(inp, offset, gs[p])
    ensures
      var g := gs[n - 1];
      var rest := gs[..n - 1] + gs[n..];
      Outcome(inp, offset, gs, n, i)
      == if !ComesAfter(inp, offset, g, i) && !ComesBefore(inp, offset, g, i) then Outcome(inp, offset, gs, n - 1, i)
         else if |g| == 1 && !Intact(inp, offset, g[0]) then Outcome(inp, offset, rest, n - 1, i)
         else if !Intact(inp, offset, i) then gs
         else gs[n - 1 := if ComesAfter(inp, offset, g, i) then g + [i] else [i] + g]
  {
    hide Admitted, Grouped, ComesAfter, ComesBefore, Intact;
    var g, rest := gs[n - 1], gs[..n - 1] + gs[n..];
    assert gs[..n][..n - 1] == gs[..n - 1] && gs[..n][n - 1] == g;
    assert rest[..n - 1] == gs[..n - 1] && rest[n - 1..] == gs[n..];
    assert gs[n - 1..] == [g] + gs[n..] && gs[..n] + gs[n..] == gs;
    var q := Place(inp, offset, gs[..n - 1], i);
    assert q.groups + ([g] + gs[n..]) == q.groups + [g] + gs[n..];
  }

  lemma PlaceNone(inp: seq<View>, offset: nat, gs: seq<seq<nat>>, i: nat)
    requires Admitted(inp, offset, i) && forall p :: 0 <= p < |gs| ==> Grouped(inp, offset, gs[p])
    ensures Outcome(inp, offset, gs, 0, i) == gs + [[i]]
  {
  }

  /** The scan of tcpGRO does to the items what the reference does to the groups. */
  lemma {:induction false} ScanGroups(e: Endian, st: GroState, inp: seq<View>, info: Info, offset: nat, canUDP: bool,
                                      i: nat, n: nat)
    requires Coming(e, st, inp, info, offset, canUDP, i)
    requires info.key.TcpKey? && info.key in st.flows && n <= |st.flows[info.key]|
    ensures Safe(st, offset) && Fresh(st, i, offset) && Admit(st.bufs[i].bytes[offset..], true) == Some(info)
    ensures Admitted(inp, offset, i) && n <= |Carried(st, info.key)|
    ensures forall p :: 0 <= p < |Carried(st, info.key)| ==> Grouped(inp, offset, Carried(st, info.key)[p])
    ensures
      var st' := TcpScan(e, st, i, info, n, offset);
      && OthersStay(st, st', inp, info.key)
      && Carried(st', info.key) == Outcome(inp, offset, Carried(st, info.key), n, i)
    decreases n
  {
    hide Coming, Safe, Fresh, Admit, TcpScan, Inv, BatchOk, Insert, DropItem, Grouped, Carried, Outcome, OthersStay,
         Fronts, ComesAfter, ComesBefore, Intact, VerdictAt, Scanning, Fronted, ItemSafe;
    ComingFacts(e, st, inp, info, offset, canUDP, i);
    CarriedGrouped(e, st, inp, offset, canUDP, i, info.key);
    CarriedLength(st, info.key);
    ComingScan(e, st, inp, info, offset, canUDP, i, n);
    ScanGoesOn(e, st, i, info, n, offset);
    var gs := Carried(st, info.key);
    if n == 0 {
      InsertGroups(st, inp, i, info, false, offset);
      PlaceNone(inp, offset, gs, i);
      Others(st, Insert(st, i, info, false, offset), inp, info.key);
    } else {
      VerdictOnGroup(e, st, inp, info, offset, canUDP, i, n - 1);
      PlaceTurn(inp, offset, gs, n, i);
      match VerdictAt(st.bufs, st.bufs[i], info, st.flows[info.key], n - 1, offset) {
        case Skip =>
          ScanGroups(e, st, inp, info, offset, canUDP, i, n - 1);
        case DropIt =>
          ScanDeletesItem(e, st, i, info, n, offset);
          var next := DropItem(st, info.key, n - 1);
          DropComing(e, st, inp, info, offset, canUDP, i, n - 1);
          ScanGroups(e, next, inp, info, offset, canUDP, i, n - 1);
          OthersTwice(st, next, TcpScan(e, next, i, info, n - 1, offset), inp, info.key);
        case _ =>
          StopGroups(e, st, inp, info, offset, canUDP, i, n);
      }
    }
  }

  /** The same where the scan ends at item n - 1. */
  lemma StopGroups(e: Endian, st: GroState, inp: seq<View>, info: Info, offset: nat, canUDP: bool, i: nat, n: nat)
    requires Coming(e, st, inp, info, offset, canUDP, i) && Scanning(st, i, info, n, offset)
    requires info.key.TcpKey? && info.key in st.flows && 0 < n <= |st.flows[info.key]|
    requires Scannable(st.bufs, st.bufs[i], info, st.flows[info.key], offset)
    requires Stops(VerdictAt(st.bufs, st.bufs[i], info, st.flows[info.key], n - 1, offset))
    ensures n <= |Carried(st, info.key)|
    ensures
      var st', gs := TcpScan(e, st, i, info, n, offset), Carried(st, info.key);
      var verdict := VerdictAt(st.bufs, st.bufs[i], info, st.flows[info.key], n - 1, offset);
      && OthersStay(st, st', inp, info.key)
      && Carried(st', info.key)
         == if verdict.Reject? then gs
            else gs[n - 1 := if verdict.mode == Prepend then [i] + gs[n - 1] else gs[n - 1] + [i]]
  {
    hide Coming, Safe, Fresh, Admit, TcpScan, Inv, BatchOk, LeaveAlone, MergeInto, Carried, OthersStay, Fronts,
         VerdictAt, Scanning, Fronted;
    ComingFacts(e, st, inp, info, offset, canUDP, i);
    CarriedLength(st, info.key);
    ItemFronted(e, st, inp, info, offset, canUDP, i, n - 1);
    ScanEnds(e, st, i, info, n, offset);
    var verdict := VerdictAt(st.bufs, st.bufs[i], info, st.flows[info.key], n - 1, offset);
    if verdict.Join? {
      JoinGroups(e, st, inp, info, offset, canUDP, i, n - 1, verdict.mode);
    } else {
      LeaveAloneGroups(e, st, inp, i, offset);
      Others(st, LeaveAlone(e, st, i, offset), inp, info.key);
    }
  }

  lemma ComingScan(e: Endian, st: GroState, inp: seq<View>, info: Info, offset: nat, canUDP: bool, i: nat, n: nat)
    requires Coming(e, st, inp, info, offset, canUDP, i)
    requires info.key.TcpKey? && info.key in st.flows && n <= |st.flows[info.key]|
    ensures Scanning(st, i, info, n, offset)
    ensures Scannable(st.bufs, st.bufs[i], info, st.flows[info.key], offset)
  {
    hide Coming, Safe, Fresh, Admit, Inv;
    ComingFacts(e, st, inp, info, offset, canUDP, i);
    ScanBounds(st, i, info, n, offset);
  }

  /** A scan of no items inserts the packet, and one that passes over or deletes item n - 1 goes on before it. */
  lemma ScanGoesOn(e: Endian, st: GroState, i: nat, info: Info, n: nat, offset: nat)
    requires Scanning(st, i, info, n, offset)
    ensures Scannable(st.bufs, st.bufs[i], info, st.flows[info.key], offset)
    ensures n == 0 ==> TcpScan(e, st, i, info, n, offset) == Insert(st, i, info, false, offset)
    ensures n > 0 && VerdictAt(st.bufs, st.bufs[i], info, st.flows[info.key], n - 1, offset) == Skip ==>
      TcpScan(e, st, i, info, n, offset) == TcpScan(e, st, i, info, n - 1, offset)
  {
    hide Scannable, Safe, Fresh, Admit, ExamineTcp, MergeInto, LeaveAlone, DropItem, Insert;
    ScanBounds(st, i, info, n, offset);
  }

  lemma ScanDeletesItem(e: Endian, st: GroState, i: nat, info: Info, n: nat, offset: nat)
    requires Scanning(st, i, info, n, offset) && n > 0
    requires Scannable(st.bufs, st.bufs[i], info, st.flows[info.key], offset)
    requires VerdictAt(st.bufs, st.bufs[i], info, st.flows[info.key], n - 1, offset) == DropIt
    ensures st.flows[info.key][n - 1].bufsIndex < |st.fate|
    ensures Scanning(DropItem(st, info.key, n - 1), i, info, n - 1, offset)
    ensures TcpScan(e, st, i, info, n, offset) == TcpScan(e, DropItem(st, info.key, n - 1), i, info, n - 1, offset)
  {
    hide Scannable, Safe, Fresh, Admit, ExamineTcp, MergeInto, LeaveAlone, DropItem, Insert;
    ScanDrop(st, i, info, n, offset);
  }

  /** A scan ends at an item that takes the packet or rejects it. */
  lemma ScanEnds(e: Endian, st: GroState, i: nat, info: Info, n: nat, offset: nat)
    requires Scanning(st, i, info, n, offset) && n > 0
    requires Scannable(st.bufs, st.bufs[i], info, st.flows[info.key], offset)
    requires |st.fate| == |st.bufs| == |st.origin| && ItemSafe(st, offset, info.key, st.flows[info.key][n - 1])
    ensures VerdictAt(st.bufs, st.bufs[i], info, st.flows[info.key], n - 1, offset) == Reject ==>
      TcpScan(e, st, i, info, n, offset) == LeaveAlone(e, st, i, offset)
    ensures
      var verdict := VerdictAt(st.bufs, st.bufs[i], info, st.flows[info.key], n - 1, offset);
      verdict.Join? ==>
        && verdict.mode != Unavailable && offset + st.flows[info.key][n - 1].HeaderLen() <= |st.bufs[i].bytes|
        && TcpScan(e, st, i, info, n, offset) == MergeInto(st, i, info, n - 1, verdict.mode, offset)
  {
    hide Scannable, Safe, Fresh, Admit, ExamineTcp, MergeInto, LeaveAlone, DropItem, Insert, ItemSafe;
    ScanItem(st, i, info, n - 1, offset);
  }

  lemma SafeLengths(st: GroState, offset: nat)
    requires Safe(st, offset)
    ensures |st.fate| == |st.bufs| == |st.origin|
  {
    hide FlowSafe;
  }

  /** A join has a mode, and the packet is longer than the item's headers. */
  lemma ScanItem(st: GroState, i: nat, info: Info, p: nat, offset: nat)
    requires Scanning(st, i, info, p + 1, offset)
    requires |st.fate| == |st.bufs| && ItemSafe(st, offset, info.key, st.flows[info.key][p])
    ensures i < |st.bufs| && offset <= |st.bufs[i].bytes| && Admit(st.bufs[i].bytes[offset..], true) == Some(info)
    ensures
      var item := st.flows[info.key][p];
      var verdict := ExamineTcp(st.bufs[i], st.bufs[item.bufsIndex], info, item, offset);
      verdict.Join? ==> verdict.mode != Unavailable && offset + item.HeaderLen() <= |st.bufs[i].bytes|
  {
    hide Safe, Admit, ExamineTcp, TcpCanCoalesce, TryCoalesce;
    var item := st.flows[info.key][p];
    ExamineParts(st.bufs[i], st.bufs[item.bufsIndex], info, item, offset);
  }

  /** The verdict of the scan on item p is that of the reference on its group. */
  lemma VerdictOnGroup(e: Endian, st: GroState, inp: seq<View>, info: Info, offset: nat, canUDP: bool, i: nat, p: nat)
    requires Coming(e, st, inp, info, offset, canUDP, i)
    requires info.key.TcpKey? && info.key in st.flows && p < |st.flows[info.key]|
    requires Scannable(st.bufs, st.bufs[i], info, st.flows[info.key], offset)
    ensures p < |Carried(st, info.key)| && Grouped(inp, offset, Carried(st, info.key)[p]) && Admitted(inp, offset, i)
    ensures
      var g := Carried(st, info.key)[p];
      VerdictAt(st.bufs, st.bufs[i], info, st.flows[info.key], p, offset)
      == if !ComesAfter(inp, offset, g, i) && !ComesBefore(inp, offset, g, i) then Skip
         else if |g| == 1 && !Intact(inp, offset, g[0]) then DropIt
         else if !Intact(inp, offset, i) then Reject
         else Join(if ComesAfter(inp, offset, g, i) then Append else Prepend)
  {
    hide Coming, Scannable, Safe, Fresh, Admit, ExamineTcp, Inv, ComesAfter, ComesBefore, Intact, Fronted, Carried;
    ComingFacts(e, st, inp, info, offset, canUDP, i);
    ItemFronted(e, st, inp, info, offset, canUDP, i, p);
    CarriedLength(st, info.key);
    var item := st.flows[info.key][p];
    GroupVerdict(item, st.bufs[item.bufsIndex], st.origin[item.bufsIndex], inp, i, info, offset);
  }

  lemma JoinGroups(e: Endian, st: GroState, inp: seq<View>, info: Info, offset: nat, canUDP: bool, i: nat, p: nat,
                   mode: CanCoalesce)
    requires Coming(e, st, inp, info, offset, canUDP, i) && mode != Unavailable
    requires info.key in st.flows && p < |st.flows[info.key]|
    requires |st.fate| == |st.bufs| == |st.origin| && ItemSafe(st, offset, info.key, st.flows[info.key][p])
    requires i < |st.bufs| && offset + st.flows[info.key][p].HeaderLen() <= |st.bufs[i].bytes|
    ensures
      var st', gs := MergeInto(st, i, info, p, mode, offset), Carried(st, info.key);
      && OthersStay(st, st', inp, info.key)
      && p < |gs| && Carried(st', info.key) == gs[p := if mode == Prepend then [i] + gs[p] else gs[p] + [i]]
  {
    hide Coming, Safe, Fresh, Admit, Inv, MergeInto, Carried, Fronts, ItemSafe;
    ComingFacts(e, st, inp, info, offset, canUDP, i);
    CarriedLength(st, info.key);
    MergeGroups(st, inp, i, info, p, mode, offset);
    Others(st, MergeInto(st, i, info, p, mode, offset), inp, info.key);
  }

  /** Deleting an item leaves the packet coming, and takes the item's group away. */
  lemma DropComing(e: Endian, st: GroState, inp: seq<View>, info: Info, offset: nat, canUDP: bool, i: nat, p: nat)
    requires Coming(e, st, inp, info, offset, canUDP, i) && Safe(st, offset) && Fresh(st, i, offset)
    requires info.key.TcpKey? && info.key in st.flows && p < |st.flows[info.key]|
    requires Admit(st.bufs[i].bytes[offset..], true) == Some(info)
    requires Scannable(st.bufs, st.bufs[i], info, st.flows[info.key], offset)
    requires VerdictAt(st.bufs, st.bufs[i], info, st.flows[info.key], p, offset) == DropIt
    ensures
      var next, gs := DropItem(st, info.key, p), Carried(st, info.key);
      && Coming(e, next, inp, info, offset, canUDP, i) && info.key in next.flows && p <= |next.flows[info.key]|
      && OthersStay(st, next, inp, info.key)
      && p < |gs| && Carried(next, info.key) == gs[..p] + gs[p + 1..]
  {
    hide Inv, Fresh, ItemSafe, Admit, ExamineTcp, Fronts, Carried, Safe, Fronted;
    ItemFronted(e, st, inp, info, offset, canUDP, i, p);
    DropInv(e, st, inp, info, offset, canUDP, i, p);
    ItemIndex(st, offset, info.key, st.flows[info.key][p]);
    DropGroups(st, inp, info.key, p);
  }

  lemma ItemIndex(st: GroState, offset: nat, key: FlowKey, item: GroItem)
    requires |st.fate| == |st.bufs| && ItemSafe(st, offset, key, item)
    ensures item.bufsIndex < |st.fate|
  {
  }

  lemma Others(st: GroState, st': GroState, inp: seq<View>, key: FlowKey)
    requires Fronts(st', inp) && forall k :: k != key ==> Carried(st', k) == Carried(st, k)
    ensures OthersStay(st, st', inp, key)
  {
  }

  lemma OthersTwice(st: GroState, next: GroState, st': GroState, inp: seq<View>, key: FlowKey)
    requires OthersStay(st, next, inp, key) && OthersStay(next, st', inp, key)
    ensures OthersStay(st, st', inp, key)
  {
    hide Carried, Fronts;
  }

  lemma CarriedLength(st: GroState, key: FlowKey)
    requires key in st.flows
    ensures |Carried(st, key)| == |st.flows[key]|
    ensures forall p :: 0 <= p < |st.flows[key]| ==> Carried(st, key)[p] == GroupOf(st, st.flows[key][p])
  {
  }

  /** udpGRO merges the datagram into the last item of its flow, or makes it an item of its own. */
  lemma UdpUnfolds(st: GroState, i: nat, info: Info, offset: nat)
    requires Safe(st, offset) && Fresh(st, i, offset)
    requires Admit(st.bufs[i].bytes[offset..], true) == Some(info) && info.key.UdpKey?
    ensures info.key !in st.flows ==> UdpStep(st, i, info, offset) == Insert(st, i, info, false, offset)
    ensures info.key in st.flows ==>
      var p := |st.flows[info.key]| - 1;
      && p >= 0 && |st.fate| == |st.bufs| == |st.origin| && ItemSafe(st, offset, info.key, st.flows[info.key][p])
      && var item := st.flows[info.key][p];
      && item.iphLen == info.iphLen && offset + item.HeaderLen() <= |st.bufs[i].bytes|
      && var target := st.bufs[item.bufsIndex];
      if UdpCanCoalesce(st.bufs[i].bytes[offset..], info, item, target.bytes[offset..]) == Append
         && TryCoalesce(Append, st.bufs[i], info, item, target, offset) == Success then
        UdpStep(st, i, info, offset) == MergeInto(st, i, info, p, Append, offset)
      else
        || UdpStep(st, i, info, offset) == Insert(st, i, info, false, offset)
        || UdpStep(st, i, info, offset) == Insert(st, i, info, true, offset)
  {
    hide Safe, Fresh, Admit, UdpCanCoalesce, TryCoalesce, Insert, MergeInto;
    SafeLengths(st, offset);
    if info.key in st.flows {
      UdpTarget(st, i, info, offset);
    }
  }

  /** A step of udpGRO does to the items what the reference does to the groups. */
  lemma UdpGroups(e: Endian, st: GroState, inp: seq<View>, info: Info, offset: nat, canUDP: bool, i: nat)
    requires Coming(e, st, inp, info, offset, canUDP, i) && info.key.UdpKey?
    ensures Safe(st, offset) && Fresh(st, i, offset) && Admit(st.bufs[i].bytes[offset..], true) == Some(info)
    ensures Admitted(inp, offset, i)
    ensures forall p :: 0 <= p < |Carried(st, info.key)| ==> Grouped(inp, offset, Carried(st, info.key)[p])
    ensures OthersStay(st, UdpStep(st, i, info, offset), inp, info.key)
    ensures Carried(UdpStep(st, i, info, offset), info.key) == Arrive(inp, offset, Carried(st, info.key), i)
  {
    hide Coming, Safe, Fresh, Admit, Inv, UdpStep, Insert, MergeInto, Carried, Fronts, OthersStay, UdpTakes, Arrive,
         UdpCanCoalesce, TryCoalesce, ItemSafe, Grouped, Fronted;
    ComingFacts(e, st, inp, info, offset, canUDP, i);
    CarriedGrouped(e, st, inp, offset, canUDP, i, info.key);
    UdpUnfolds(st, i, info, offset);
    ArriveUdp(inp, offset, Carried(st, info.key), i);
    InsertBoth(st, inp, info, offset, i);
    if info.key in st.flows {
      UdpJoinGroups(e, st, inp, info, offset, canUDP, i);
    } else {
      CarriedNothing(st, info.key);
    }
  }

  /** The last item of the datagram's flow, and what merging into it does. */
  lemma UdpJoinGroups(e: Endian, st: GroState, inp: seq<View>, info: Info, offset: nat, canUDP: bool, i: nat)
    requires Coming(e, st, inp, info, offset, canUDP, i) && info.key.UdpKey? && info.key in st.flows
    requires |st.flows[info.key]| > 0 && i < |st.bufs| && |st.fate| == |st.bufs| == |st.origin|
    requires var item := st.flows[info.key][|st.flows[info.key]| - 1];
      ItemSafe(st, offset, info.key, item) && offset + item.HeaderLen() <= |st.bufs[i].bytes|
      && item.iphLen == info.iphLen
    ensures
      var p, gs := |st.flows[info.key]| - 1, Carried(st, info.key);
      var item, st' := st.flows[info.key][p], MergeInto(st, i, info, p, Append, offset);
      && |gs| == p + 1 && Grouped(inp, offset, gs[p]) && Admitted(inp, offset, i)
      && OthersStay(st, st', inp, info.key) && Carried(st', info.key) == gs[p := gs[p] + [i]]
      && (UdpCanCoalesce(st.bufs[i].bytes[offset..], info, item, st.bufs[item.bufsIndex].bytes[offset..]) == Append
          && TryCoalesce(Append, st.bufs[i], info, item, st.bufs[item.bufsIndex], offset) == Success
          <==> UdpTakes(inp, offset, gs[p], i))
  {
    hide Coming, Safe, Fresh, Admit, Inv, MergeInto, Carried, Fronts, OthersStay, UdpTakes, UdpCanCoalesce, TryCoalesce,
         Grouped, Fronted;
    ComingFacts(e, st, inp, info, offset, canUDP, i);
    CarriedLength(st, info.key);
    var p := |st.flows[info.key]| - 1;
    ItemFronted(e, st, inp, info, offset, canUDP, i, p);
    var item := st.flows[info.key][p];
    UdpGroupVerdict(item, st.bufs[item.bufsIndex], st.origin[item.bufsIndex], inp, i, info, offset);
    JoinGroups(e, st, inp, info, offset, canUDP, i, p, Append);
  }

  lemma ArriveUdp(inp: seq<View>, offset: nat, gs: seq<seq<nat>>, i: nat)
    requires Admitted(inp, offset, i) && InfoOf(inp, offset, i).key.UdpKey?
    requires forall p :: 0 <= p < |gs| ==> Grouped(inp, offset, gs[p])
    ensures Arrive(inp, offset, gs, i)
         == if |gs| > 0 && UdpTakes(inp, offset, gs[|gs| - 1], i) then gs[|gs| - 1 := gs[|gs| - 1] + [i]]
            else gs + [[i]]
  {
    hide UdpTakes, Grouped, Admit, Place;
  }

  lemma CarriedNothing(st: GroState, key: FlowKey)
    requires key !in st.flows
    ensures Carried(st, key) == []
  {
  }

  lemma InsertBoth(st: GroState, inp: seq<View>, info: Info, offset: nat, i: nat)
    requires Fresh(st, i, offset) && Fronts(st, inp) && i < TWO16
    requires |st.origin| == |st.bufs| == |inp| && st.origin[i] == [i] && st.bufs[i].id == i
    requires Admit(st.bufs[i].bytes[offset..], true) == Some(info)
    ensures forall known ::
      var st' := Insert(st, i, info, known, offset);
      OthersStay(st, st', inp, info.key) && Carried(st', info.key) == Carried(st, info.key) + [[i]]
  {
    hide Admit, Insert, Carried, Fronts;
    forall known
      ensures
        var st' := Insert(st, i, info, known, offset);
        OthersStay(st, st', inp, info.key) && Carried(st', info.key) == Carried(st, info.key) + [[i]]
    {
      InsertGroups(st, inp, i, info, known, offset);
      Others(st, Insert(st, i, info, known, offset), inp, info.key);
    }
  }

  /** What a flow carries after packet i, by the reference. */
  ghost function Expected(st: GroState, inp: seq<View>, offset: nat, canUDP: bool, key: FlowKey, i: nat): seq<seq<nat>>
    requires i < |inp| && forall p :: 0 <= p < |Carried(st, key)| ==> Grouped(inp, offset, Carried(st, key)[p])
  {
    if Arrives(inp, offset, canUDP, key, i) then
      AdmitFacts(Pkt(inp[i], offset), canUDP);
      Arrive(inp, offset, Carried(st, key), i)
    else Carried(st, key)
  }

  /** A step of handleGRO does to every flow what the reference does. */
  lemma StepGroups(e: Endian, st: GroState, inp: seq<View>, offset: nat, canUDP: bool, i: nat, key: FlowKey)
    requires Inv(e, st, inp, offset, canUDP, i) && Fronts(st, inp) && BatchOk(inp, offset)
    requires i < |inp| && HDR_LEN <= offset < |inp[i].bytes|
    ensures Safe(st, offset) && Fresh(st, i, offset)
    ensures forall p :: 0 <= p < |Carried(st, key)| ==> Grouped(inp, offset, Carried(st, key)[p])
    ensures Fronts(Step(e, st, i, offset, canUDP), inp)
    ensures Carried(Step(e, st, i, offset, canUDP), key) == Expected(st, inp, offset, canUDP, key, i)
  {
    hide PositionsOk, ItemsOk, StreamsOk, PlacementOk, BackingOk, BatchOk, FlowSafe, TcpScan, UdpStep, Insert,
         LeaveAlone, Carried, Fronts, Arrive, Grouped;
    NextPacket(e, st, inp, offset, canUDP, i);
    CarriedGrouped(e, st, inp, offset, canUDP, i, key);
    AdmitFacts(Pkt(inp[i], offset), canUDP);
    var admitted := Admit(Pkt(inp[i], offset), canUDP);
    hide Admit;
    if admitted.None? {
      LeaveAloneGroups(e, st, inp, i, offset);
    } else {
      ArrivalGroups(e, st, inp, admitted.value, offset, canUDP, i);
    }
  }

  /** The same for the flow that the packet reaches, and no change to the others. */
  lemma ArrivalGroups(e: Endian, st: GroState, inp: seq<View>, info: Info, offset: nat, canUDP: bool, i: nat)
    requires Coming(e, st, inp, info, offset, canUDP, i)
    ensures Safe(st, offset) && Fresh(st, i, offset) && Admitted(inp, offset, i)
    ensures forall p :: 0 <= p < |Carried(st, info.key)| ==> Grouped(inp, offset, Carried(st, info.key)[p])
    ensures
      var st' := Step(e, st, i, offset, canUDP);
      && Fronts(st', inp) && (forall k :: k != info.key ==> Carried(st', k) == Carried(st, k))
      && Carried(st', info.key) == Arrive(inp, offset, Carried(st, info.key), i)
  {
    hide Coming, Safe, Fresh, Inv, TcpScan, UdpStep, Insert, Carried, Fronts, Arrive, Grouped, Place;
    ComingFacts(e, st, inp, info, offset, canUDP, i);
    CarriedGrouped(e, st, inp, offset, canUDP, i, info.key);
    hide Admit;
    if info.key.UdpKey? {
      UdpGroups(e, st, inp, info, offset, canUDP, i);
    } else if info.key !in st.flows {
      CarriedNothing(st, info.key);
      InsertBoth(st, inp, info, offset, i);
      ArriveFirst(inp, offset, i);
    } else {
      CarriedLength(st, info.key);
      ScanGroups(e, st, inp, info, offset, canUDP, i, |st.flows[info.key]|);
      ArriveTcp(inp, offset, Carried(st, info.key), i);
    }
  }

  lemma ArriveFirst(inp: seq<View>, offset: nat, i: nat)
    requires Admitted(inp, offset, i)
    ensures Arrive(inp, offset, [], i) == [[i]]
  {
  }

  lemma ArriveTcp(inp: seq<View>, offset: nat, gs: seq<seq<nat>>, i: nat)
    requires Admitted(inp, offset, i) && InfoOf(inp, offset, i).key.TcpKey?
    requires forall p :: 0 <= p < |gs| ==> Grouped(inp, offset, gs[p])
    ensures Arrive(inp, offset, gs, i) == Outcome(inp, offset, gs, |gs|, i)
  {
    hide Place, Grouped, Admit;
    assert gs[..|gs|] == gs && gs[|gs|..] == [];
  }

  // ---------------------------------------------------------------- the whole batch

  /** When handleGRO comes to packet n, every flow carries the groups of the reference. */
  lemma {:induction false} GroupsBefore(e: Endian, inp: seq<View>, offset: nat, canUDP: bool, n: nat, key: FlowKey)
    requires Takeable(inp, offset) && n <= |inp|
    ensures Fronts(Before(e, inp, offset, canUDP, n), inp)
    ensures Carried(Before(e, inp, offset, canUDP, n), key) == Groups(inp, offset, canUDP, key, n)
  {
    hide Inv, BatchOk, Step, Safe, Fresh, Arrive;
    if n > 0 {
      var st := Before(e, inp, offset, canUDP, n - 1);
      GroupsBefore(e, inp, offset, canUDP, n - 1, key);
      BeforeNext(e, inp, offset, canUDP, n - 1);
      StepGroups(e, st, inp, offset, canUDP, n - 1, key);
    } else {
      assert Before(e, inp, offset, canUDP, 0) == Initial(inp);
    }
  }

  /** The packet of the group that came first. */
  function Earliest(g: seq<nat>): (j: nat)
    requires |g| > 0
    ensures j in g && forall m :: 0 <= m < |g| ==> j <= g[m]
  {
    if |g| == 1 then g[0]
    else
      var j := Earliest(g[..|g| - 1]);
      assert j in g[..|g| - 1];
      if g[|g| - 1] < j then g[|g| - 1] else j
  }

  lemma EarliestIs(g: seq<nat>, j: nat)
    requires j in g && forall m :: 0 <= m < |g| ==> j <= g[m]
    ensures Earliest(g) == j
  {
  }

  /** The group with index p goes by packet j and has packet i in it. */
  predicate GroupHas(gs: seq<seq<nat>>, p: nat, i: nat, j: nat) {
    p < |gs| && |gs[p]| > 0 && i in gs[p] && Earliest(gs[p]) == j
  }

  /** Some group of the flow goes by packet j and has packet i in it. */
  ghost predicate InGroup(gs: seq<seq<nat>>, i: nat, j: nat) {
    exists p: nat :: GroupHas(gs, p, i, j)
  }

  /** The packets of a group share the fate of its item. */
  lemma GroupFate(e: Endian, st: GroState, inp: seq<View>, offset: nat, canUDP: bool, n: nat, key: FlowKey, p: nat,
                  i: nat, j: nat)
    requires Inv(e, st, inp, offset, canUDP, n) && Fronts(st, inp)
    requires GroupHas(Carried(st, key), p, i, j)
    ensures j < |st.fate| == |st.origin| && st.fate[j] == Held(key) && st.origin[j] == Carried(st, key)[p]
    ensures i < |st.fate| && (if i == j then st.fate[i] == Held(key) else st.fate[i] == Coalesced(j))
    ensures Admitted(inp, offset, i) && InfoOf(inp, offset, i).key == key
  {
    hide PositionsOk, ItemInv, StreamsOk, BackingOk, Safe, Admit, Earliest;
    var item := FlowItems(st, key)[p];
    HeldIndex(st, offset, key, p);
    var k := item.bufsIndex;
    assert ItemOk(st, inp, offset, item);
    assert FrontAt(st, inp, k);
    ItemOwn(st, offset, inp, item, key, i);
    PlacedAt(st, k, i);
    PlacedAt(st, k, k);
    EarliestIs(st.origin[k], k);
  }

  lemma ItemOwn(st: GroState, offset: nat, inp: seq<View>, item: GroItem, key: FlowKey, i: nat)
    requires ItemOk(st, inp, offset, item) && |st.fate| == |st.bufs| && ItemSafe(st, offset, key, item)
    requires i in st.origin[item.bufsIndex]
    ensures Admitted(inp, offset, i) && InfoOf(inp, offset, i).key == key
    ensures st.fate[item.bufsIndex] == Held(key)
  {
    hide ItemInv, Admit;
    BasicsOf(item, st.bufs[item.bufsIndex], st.origin[item.bufsIndex], inp, offset);
  }

  /** A packet is in the buffer that it has as its home, and in no other. */
  lemma PlacedAt(st: GroState, k: nat, i: nat)
    requires PlacementOk(st) && k < |st.origin| && st.fate[k].Held?
    ensures k in st.origin[k]
    ensures i in st.origin[k] ==> i < |st.fate| && if i == k then true else st.fate[i] == Coalesced(k)
  {
    assert Home(st.fate, k) == k;
    if i in st.origin[k] {
      var m :| 0 <= m < |st.origin[k]| && st.origin[k][m] == i;
      assert Carries(st, k, m);
    }
  }

  /** A packet that is held or coalesced is in a group of its flow. */
  lemma FateGroup(e: Endian, st: GroState, inp: seq<View>, offset: nat, canUDP: bool, n: nat, i: nat)
    requires Inv(e, st, inp, offset, canUDP, n) && Fronts(st, inp)
    requires i < |st.fate| && (st.fate[i].Held? || st.fate[i].Coalesced?)
    ensures Home(st.fate, i) < |st.fate| && st.fate[Home(st.fate, i)].Held?
    ensures InGroup(Carried(st, st.fate[Home(st.fate, i)].key), i, Home(st.fate, i))
  {
    hide ItemsOk, StreamsOk, BackingOk, Safe, Earliest, WithHeader, Corrupt;
    assert PositionOk(e, st, inp, offset, n, i);
    var j := Home(st.fate, i);
    assert PositionOk(e, st, inp, offset, n, j);
    var key := st.fate[j].key;
    var p: nat :| p < |st.flows[key]| && st.flows[key][p].bufsIndex == j;
    assert FrontAt(st, inp, j);
    PlacedAt(st, j, i);
    EarliestIs(st.origin[j], j);
    assert GroupHas(Carried(st, key), p, i, j);
  }

  /** What became of packet i, by the groups of its own flow: held if it is the earliest of a group, else coalesced. */
  ghost predicate FateByGroups(fate: Fate, gs: seq<seq<nat>>, key: FlowKey, i: nat) {
    forall j :: InGroup(gs, i, j) <==> if i == j then fate == Held(key) else fate == Coalesced(j)
  }

  /** The reference decides, for every packet that reaches a flow, whether it is merged and into which. */
  lemma FatesByGroups(e: Endian, inp: seq<View>, offset: nat, canUDP: bool, n: nat, i: nat)
    requires Takeable(inp, offset) && i < n <= |inp| && Admitted(inp, offset, i)
    ensures
      var st, key := Before(e, inp, offset, canUDP, n), InfoOf(inp, offset, i).key;
      i < |st.fate| && FateByGroups(st.fate[i], Groups(inp, offset, canUDP, key, n), key, i)
  {
    hide Inv, BatchOk, Before, Admit, InGroup, Groups;
    var st, key := Before(e, inp, offset, canUDP, n), InfoOf(inp, offset, i).key;
    InvPositions(e, st, inp, offset, canUDP, n);
    GroupsBefore(e, inp, offset, canUDP, n, key);
    forall j: nat
      ensures InGroup(Groups(inp, offset, canUDP, key, n), i, j)
        <==> if i == j then st.fate[i] == Held(key) else st.fate[i] == Coalesced(j)
    {
      if InGroup(Groups(inp, offset, canUDP, key, n), i, j) {
        GroupFateOf(e, st, inp, offset, canUDP, n, key, i, j);
      } else if if i == j then st.fate[i] == Held(key) else st.fate[i] == Coalesced(j) {
        FateGroup(e, st, inp, offset, canUDP, n, i);
        GroupsBefore(e, inp, offset, canUDP, n, st.fate[Home(st.fate, i)].key);
        GroupFateOf(e, st, inp, offset, canUDP, n, st.fate[Home(st.fate, i)].key, i, j);
      }
    }
  }

  lemma GroupFateOf(e: Endian, st: GroState, inp: seq<View>, offset: nat, canUDP: bool, n: nat, key: FlowKey, i: nat,
                    j: nat)
    requires Inv(e, st, inp, offset, canUDP, n) && Fronts(st, inp) && InGroup(Carried(st, key), i, j)
    ensures j < |st.fate| && i < |st.fate| && st.fate[j] == Held(key)
    ensures if i == j then st.fate[i] == Held(key) else st.fate[i] == Coalesced(j)
    ensures Admitted(inp, offset, i) && InfoOf(inp, offset, i).key == key
  {
    hide Inv, Admit, Fronts, Carried, GroupHas;
    var p: nat :| GroupHas(Carried(st, key), p, i, j);
    GroupFate(e, st, inp, offset, canUDP, n, key, p, i, j);
  }
}
