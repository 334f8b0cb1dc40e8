/** What the scan of a TCP flow, which deletes items as it goes, amounts to. */
module TcpScanning {
  import opened InternetChecksum
  import opened Gro

  /** Packet pkt can be compared with every item of the list. */
  ghost predicate Scannable(bufs: seq<View>, pkt: View, info: Info, items: seq<GroItem>, offset: nat) {
    && offset <= |pkt.bytes| && Admit(pkt.bytes[offset..], true) == Some(info)
    && forall p :: 0 <= p < |items| ==>
      items[p].bufsIndex < |bufs| && Comparable(bufs[items[p].bufsIndex], info, items[p], offset)
  }

  ghost function VerdictAt(bufs: seq<View>, pkt: View, info: Info, items: seq<GroItem>, p: nat, offset: nat): Verdict
    requires Scannable(bufs, pkt, info, items, offset) && p < |items|
  {
    ExamineTcp(pkt, bufs[items[p].bufsIndex], info, items[p], offset)
  }

  /** The scan ends at an item that takes the packet, or that finds the packet's own checksum invalid. */
  predicate Stops(verdict: Verdict) {
    verdict.Join? || verdict.Reject?
  }

  /** One past the last of the first n items at which the scan stops, or 0 when it stops at none. */
  ghost function StopAt(bufs: seq<View>, pkt: View, info: Info, items: seq<GroItem>, n: nat, offset: nat): (s: nat)
    requires Scannable(bufs, pkt, info, items, offset) && n <= |items|
    ensures s <= n
  {
    if n == 0 then 0
    else if Stops(VerdictAt(bufs, pkt, info, items, n - 1, offset)) then n
    else StopAt(bufs, pkt, info, items, n - 1, offset)
  }

  /** The items from lo to hi that the scan does not delete. */
  ghost function Kept(bufs: seq<View>, pkt: View, info: Info, items: seq<GroItem>, lo: nat, hi: nat,
                      offset: nat): seq<GroItem>
    requires Scannable(bufs, pkt, info, items, offset) && lo <= hi <= |items|
    decreases hi - lo
  {
    if lo == hi then []
    else
      Kept(bufs, pkt, info, items, lo, hi - 1, offset)
      + if VerdictAt(bufs, pkt, info, items, hi - 1, offset) == DropIt then [] else [items[hi - 1]]
  }

  lemma {:induction false} SamePrefix(bufs: seq<View>, pkt: View, info: Info, items: seq<GroItem>, items': seq<GroItem>,
                                      lo: nat, n: nat, offset: nat)
    requires Scannable(bufs, pkt, info, items, offset) && Scannable(bufs, pkt, info, items', offset)
    requires lo <= n <= |items| && n <= |items'| && items[..n] == items'[..n]
    ensures StopAt(bufs, pkt, info, items, n, offset) == StopAt(bufs, pkt, info, items', n, offset)
    ensures Kept(bufs, pkt, info, items, lo, n, offset) == Kept(bufs, pkt, info, items', lo, n, offset)
    decreases n
  {
    hide Scannable, ExamineTcp;
    if n > 0 {
      assert items[n - 1] == items[..n][n - 1] == items'[n - 1];
      assert items[..n - 1] == items[..n][..n - 1] == items'[..n - 1];
      SamePrefix(bufs, pkt, info, items, items', if lo == n then 0 else lo, n - 1, offset);
    }
  }

  /** What the scan of the first n items leaves of the flow's list, by the item it stops at. */
  ghost function Scanned(bufs: seq<View>, pkt: View, info: Info, items: seq<GroItem>, n: nat, offset: nat,
                         newItem: GroItem): seq<GroItem>
    requires Scannable(bufs, pkt, info, items, offset) && n <= |items|
  {
    var s := StopAt(bufs, pkt, info, items, n, offset);
    if s == 0 then Kept(bufs, pkt, info, items, 0, n, offset) + items[n..] + [newItem]
    else
      var verdict := VerdictAt(bufs, pkt, info, items, s - 1, offset);
      items[..s - 1]
      + [if verdict.Join? then MergedItem(verdict.mode, info, items[s - 1]) else items[s - 1]]
      + Kept(bufs, pkt, info, items, s, n, offset)
      + items[n..]
  }

  lemma ScannedSkip(bufs: seq<View>, pkt: View, info: Info, items: seq<GroItem>, n: nat, offset: nat, newItem: GroItem)
    requires Scannable(bufs, pkt, info, items, offset) && 0 < n <= |items|
    requires VerdictAt(bufs, pkt, info, items, n - 1, offset) == Skip
    ensures Scanned(bufs, pkt, info, items, n, offset, newItem)
         == Scanned(bufs, pkt, info, items, n - 1, offset, newItem)
  {
    hide Scannable, VerdictAt;
    assert items[n - 1..] == [items[n - 1]] + items[n..];
  }

  lemma ScannedDrop(bufs: seq<View>, pkt: View, info: Info, items: seq<GroItem>, n: nat, offset: nat, newItem: GroItem)
    requires Scannable(bufs, pkt, info, items, offset) && 0 < n <= |items|
    requires VerdictAt(bufs, pkt, info, items, n - 1, offset) == DropIt
    ensures Scannable(bufs, pkt, info, items[..n - 1] + items[n..], offset)
    ensures Scanned(bufs, pkt, info, items, n, offset, newItem)
         == Scanned(bufs, pkt, info, items[..n - 1] + items[n..], n - 1, offset, newItem)
  {
    hide Scannable, VerdictAt, MergedItem, Kept, StopAt;
    var items' := items[..n - 1] + items[n..];
    DropScannable(bufs, pkt, info, items, n, offset);
    assert items'[n - 1..] == items[n..] && items'[..n - 1] == items[..n - 1];
    var s := StopAt(bufs, pkt, info, items, n, offset);
    DropStep(bufs, pkt, info, items, n, s, offset);
    SamePrefix(bufs, pkt, info, items, items', s, n - 1, offset);
    if s > 0 {
      assert items'[s - 1] == items[s - 1] && items'[..s - 1] == items[..s - 1];
      SameVerdict(bufs, pkt, info, items, items', s - 1, offset);
    }
  }

  lemma DropScannable(bufs: seq<View>, pkt: View, info: Info, items: seq<GroItem>, n: nat, offset: nat)
    requires Scannable(bufs, pkt, info, items, offset) && 0 < n <= |items|
    ensures Scannable(bufs, pkt, info, items[..n - 1] + items[n..], offset)
  {
    hide Admit, Comparable;
  }

  lemma DropStep(bufs: seq<View>, pkt: View, info: Info, items: seq<GroItem>, n: nat, lo: nat, offset: nat)
    requires Scannable(bufs, pkt, info, items, offset) && 0 < n <= |items|
    requires VerdictAt(bufs, pkt, info, items, n - 1, offset) == DropIt
    ensures StopAt(bufs, pkt, info, items, n, offset) == StopAt(bufs, pkt, info, items, n - 1, offset) < n
    ensures lo < n ==> Kept(bufs, pkt, info, items, lo, n, offset) == Kept(bufs, pkt, info, items, lo, n - 1, offset)
  {
    hide Scannable, VerdictAt;
  }

  lemma SameVerdict(bufs: seq<View>, pkt: View, info: Info, items: seq<GroItem>, items': seq<GroItem>, p: nat,
                    offset: nat)
    requires Scannable(bufs, pkt, info, items, offset) && Scannable(bufs, pkt, info, items', offset)
    requires p < |items| && p < |items'| && items[p] == items'[p]
    ensures VerdictAt(bufs, pkt, info, items, p, offset) == VerdictAt(bufs, pkt, info, items', p, offset)
  {
    hide ExamineTcp, Admit, Comparable;
  }

  lemma ScannedStop(bufs: seq<View>, pkt: View, info: Info, items: seq<GroItem>, n: nat, offset: nat, newItem: GroItem)
    requires Scannable(bufs, pkt, info, items, offset) && 0 < n <= |items|
    requires Stops(VerdictAt(bufs, pkt, info, items, n - 1, offset))
    ensures
      var verdict := VerdictAt(bufs, pkt, info, items, n - 1, offset);
      Scanned(bufs, pkt, info, items, n, offset, newItem)
      == if verdict.Join? then items[n - 1 := MergedItem(verdict.mode, info, items[n - 1])] else items
  {
    hide Scannable, VerdictAt, MergedItem;
  }

  lemma ScannableFlow(st: GroState, i: nat, info: Info, offset: nat)
    requires Safe(st, offset) && Fresh(st, i, offset) && info.key.TcpKey? && info.key in st.flows
    requires Admit(st.bufs[i].bytes[offset..], true) == Some(info)
    ensures Scannable(st.bufs, st.bufs[i], info, st.flows[info.key], offset)
  {
    hide Admit;
    assert FlowSafe(st, offset, info.key);
    forall p | 0 <= p < |st.flows[info.key]|
      ensures ItemSafe(st, offset, info.key, st.flows[info.key][p])
    {
    }
  }

  /** The packet is one that the flow's items can be tried against. */
  ghost predicate Scanning(st: GroState, i: nat, info: Info, n: nat, offset: nat) {
    && Safe(st, offset) && Fresh(st, i, offset)
    && Admit(st.bufs[i].bytes[offset..], true) == Some(info) && info.key.TcpKey?
    && info.key in st.flows && n <= |st.flows[info.key]|
  }

  /** Deleting item n - 1 leaves the items before it to be tried. */
  lemma ScanDrop(st: GroState, i: nat, info: Info, n: nat, offset: nat)
    requires Scanning(st, i, info, n, offset) && n > 0
    ensures info.key in st.flows && n <= |st.flows[info.key]| && st.flows[info.key][n - 1].bufsIndex < |st.fate|
    ensures
      var next := DropItem(st, info.key, n - 1);
      && Scanning(next, i, info, n - 1, offset) && next.bufs == st.bufs
      && next.flows[info.key] == st.flows[info.key][..n - 1] + st.flows[info.key][n..]
  {
    DropSafe(st, offset, info.key, n - 1);
    hide Safe, FlowSafe, Admit, Fresh;
  }

  /** The scan, by its verdict on item n - 1. */
  lemma ScanOnce(e: Endian, st: GroState, i: nat, info: Info, n: nat, offset: nat)
    requires Scanning(st, i, info, n, offset) && n > 0
    ensures Scannable(st.bufs, st.bufs[i], info, st.flows[info.key], offset)
    ensures st.flows[info.key][n - 1].bufsIndex < |st.fate|
    ensures
      var items, next := st.flows[info.key], DropItem(st, info.key, n - 1);
      var result := TcpScan(e, st, i, info, n, offset);
      match VerdictAt(st.bufs, st.bufs[i], info, items, n - 1, offset)
      case Skip => result == TcpScan(e, st, i, info, n - 1, offset)
      case DropIt => Scanning(next, i, info, n - 1, offset) && result == TcpScan(e, next, i, info, n - 1, offset)
      case Reject => result.flows == st.flows
      case Join(mode) => result.flows == st.flows[info.key := items[n - 1 := MergedItem(mode, info, items[n - 1])]]
  {
    hide Scannable, Safe, Fresh, Admit, ExamineTcp, MergedItem, MergedBufs, WithHeader, DropItem, Insert;
    ScanBounds(st, i, info, n, offset);
    ScanDrop(st, i, info, n, offset);
  }

  /**
   The scan of tcpGRO, deletions and all, leaves the list that looking at every
   item once on the unchanged buffers prescribes: the packet joins the last item
   that takes it, the items deleted are those after it whose own checksum fails,
   and nothing else changes place.
   */
  lemma {:induction false} ScanExact(e: Endian, st: GroState, i: nat, info: Info, n: nat, offset: nat)
    requires Scanning(st, i, info, n, offset)
    ensures Scannable(st.bufs, st.bufs[i], info, st.flows[info.key], offset)
    ensures |st.bufs[i].bytes[offset..]| >= info.headerLen >= info.iphLen + 20
    ensures
      var pkt := st.bufs[i].bytes[offset..];
      info.key in TcpScan(e, st, i, info, n, offset).flows &&
      TcpScan(e, st, i, info, n, offset).flows[info.key]
      == Scanned(st.bufs, st.bufs[i], info, st.flows[info.key], n, offset, NewItem(pkt, info, i, false))
    decreases n
  {
    hide Scanning, Scannable, Scanned, VerdictAt, TcpScan, NewItem, MergedItem, Safe, Fresh, Admit, DropItem;
    ScanBounds(st, i, info, n, offset);
    var items := st.flows[info.key];
    var newItem := NewItem(st.bufs[i].bytes[offset..], info, i, false);
    if n == 0 {
      ScanNothing(e, st, i, info, offset);
    } else {
      ScanOnce(e, st, i, info, n, offset);
      match VerdictAt(st.bufs, st.bufs[i], info, items, n - 1, offset)
      case Skip =>
        ScanAgain(st, i, info, n, offset);
        ScanExact(e, st, i, info, n - 1, offset);
        ScannedSkip(st.bufs, st.bufs[i], info, items, n, offset, newItem);
      case DropIt =>
        var next := DropItem(st, info.key, n - 1);
        ScanDrop(st, i, info, n, offset);
        ScanExact(e, next, i, info, n - 1, offset);
        ScannedDrop(st.bufs, st.bufs[i], info, items, n, offset, newItem);
      case _ =>
        ScannedStop(st.bufs, st.bufs[i], info, items, n, offset, newItem);
    }
  }

  lemma ScanBounds(st: GroState, i: nat, info: Info, n: nat, offset: nat)
    requires Scanning(st, i, info, n, offset)
    ensures i < |st.bufs| <= IDEAL_BATCH_SIZE && info.key in st.flows && n <= |st.flows[info.key]|
    ensures offset <= |st.bufs[i].bytes|
    ensures Safe(st, offset) && Fresh(st, i, offset) && Admit(st.bufs[i].bytes[offset..], true) == Some(info)
    ensures info.key.TcpKey?
    ensures |st.bufs[i].bytes[offset..]| >= info.headerLen >= info.iphLen + 20
    ensures Scannable(st.bufs, st.bufs[i], info, st.flows[info.key], offset)
  {
    AdmitFacts(st.bufs[i].bytes[offset..], true);
    ScannableFlow(st, i, info, offset);
    hide FlowSafe, Admit, Scannable;
  }

  lemma ScanAgain(st: GroState, i: nat, info: Info, n: nat, offset: nat)
    requires Scanning(st, i, info, n, offset) && n > 0
    ensures Scanning(st, i, info, n - 1, offset)
  {
    hide Safe, Fresh, Admit;
  }

  lemma ScanNothing(e: Endian, st: GroState, i: nat, info: Info, offset: nat)
    requires Scanning(st, i, info, 0, offset)
    ensures Scannable(st.bufs, st.bufs[i], info, st.flows[info.key], offset)
    ensures |st.bufs[i].bytes[offset..]| >= info.headerLen >= info.iphLen + 20
    ensures
      var newItem := NewItem(st.bufs[i].bytes[offset..], info, i, false);
      && info.key in TcpScan(e, st, i, info, 0, offset).flows
      && TcpScan(e, st, i, info, 0, offset).flows[info.key]
         == Scanned(st.bufs, st.bufs[i], info, st.flows[info.key], 0, offset, newItem)
  {
    hide Safe, Fresh, Admit, Scannable, NewItem, Classify;
    ScanBounds(st, i, info, 0, offset);
    NewItemSafe(st.bufs[i].bytes[offset..], info, i, false);
  }
}
