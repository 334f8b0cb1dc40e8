/** tcpGRO and udpGRO over the batch of buffers and the flow tables, proved against Gro. */
module Writer {
  import opened Bytes
  import opened InternetChecksum
  import opened Packets
  import opened Virtio
  import opened Gro
  import opened Slices
  import opened Buffers
  import opened GroTables
  import opened Merger

  /** The flows of one of the two tables. */
  ghost function Part(flows: map<FlowKey, seq<GroItem>>, tcp: bool): map<FlowKey, seq<GroItem>> {
    map k | k in flows && k.TcpKey? == tcp :: flows[k]
  }

  ghost predicate TableHolds(table: GroTable, flows: map<FlowKey, seq<GroItem>>, tcp: bool)
    reads table, table.lists
  {
    table.Valid() && table.Items() == Part(flows, tcp)
  }

  lemma TableFacts(table: GroTable, flows: map<FlowKey, seq<GroItem>>, tcp: bool)
    requires TableHolds(table, flows, tcp)
    ensures table.Valid() && table.Sized() && table.Items() == Part(flows, tcp)
    ensures forall k :: k in table.itemsByFlow <==> k in flows && k.TcpKey? == tcp
    ensures forall k :: k in table.itemsByFlow ==> table.itemsByFlow[k].list in table.lists
    ensures forall k :: k in table.itemsByFlow ==>
      && table.itemsByFlow[k].len <= table.itemsByFlow[k].list.Length
      && table.itemsByFlow[k].list[..table.itemsByFlow[k].len] == flows[k]
    ensures |table.itemsByFlow| <= |flows|
  {
    hide Separate;
    assert table.itemsByFlow.Keys <= flows.Keys;
    SubsetCount(table.itemsByFlow.Keys, flows.Keys);
    forall k | k in table.itemsByFlow
      ensures table.itemsByFlow[k].list[..table.itemsByFlow[k].len] == flows[k]
    {
      assert table.Items()[k] == flows[k];
    }
  }

  lemma TableHas(table: GroTable, flows: map<FlowKey, seq<GroItem>>, key: FlowKey)
    requires TableHolds(table, flows, key.TcpKey?) && key in flows
    ensures key in table.itemsByFlow && table.itemsByFlow[key].len == |flows[key]|
  {
    TableFacts(table, flows, key.TcpKey?);
  }

  lemma TableKeys(table: GroTable, flows: map<FlowKey, seq<GroItem>>, tcp: bool)
    requires TableHolds(table, flows, tcp)
    ensures forall k :: k in table.itemsByFlow <==> k in flows && k.TcpKey? == tcp
  {
    TableFacts(table, flows, tcp);
  }

  lemma {:induction false} SubsetCount(a: set<FlowKey>, b: set<FlowKey>)
    requires a <= b
    ensures |a| <= |b|
    decreases a
  {
    if a != {} {
      var k :| k in a;
      SubsetCount(a - {k}, b - {k});
    }
  }

  /** Packet i has been admitted, and is to be tried against the table. */
  ghost predicate Ready(st: GroState, i: nat, info: Info, offset: nat) {
    && Safe(st, offset) && Fresh(st, i, offset) && |st.flows| <= i
    && Admit(st.bufs[i].bytes[offset..], true) == Some(info)
  }

  lemma {:induction false} IndexAtLeast(items: seq<GroItem>, p: nat)
    requires p < |items|
    requires forall q, r :: 0 <= q < r < |items| ==> items[q].bufsIndex < items[r].bufsIndex
    ensures items[p].bufsIndex >= p
  {
    if p > 0 {
      IndexAtLeast(items, p - 1);
    }
  }

  /** A flow has at most one item for each packet looked at. */
  lemma FlowRoom(st: GroState, i: nat, offset: nat, key: FlowKey)
    requires Safe(st, offset) && Fresh(st, i, offset) && key in st.flows
    ensures |st.flows[key]| <= i < IDEAL_BATCH_SIZE
  {
    assert FlowSafe(st, offset, key);
    var items := st.flows[key];
    if |items| > 0 {
      IndexAtLeast(items, |items| - 1);
      assert ItemSafe(st, offset, key, items[|items| - 1]);
    }
  }

  /**
   An item of the packet's flow can be compared with the packet, and merged with
   it when their headers are equally long.
   */
  lemma ItemReady(st: GroState, i: nat, info: Info, offset: nat, p: nat)
    requires Ready(st, i, info, offset) && info.key in st.flows && p < |st.flows[info.key]|
    ensures
      var item := st.flows[info.key][p];
      && ItemSafe(st, offset, info.key, item)
      && item.bufsIndex < |st.bufs| && item.bufsIndex != i
      && item.iphLen == info.iphLen
      && offset <= |st.bufs[i].bytes| && offset < |st.bufs[item.bufsIndex].bytes|
      && |st.bufs[i].bytes[offset..]| >= info.headerLen
      && (info.key.TcpKey? ==> Comparable(st.bufs[item.bufsIndex], info, item, offset))
      && (info.key.TcpKey? ==> info.headerLen >= info.iphLen + 20)
      && (info.key.UdpKey? ==> item.HeaderLen() == info.headerLen)
      && (item.HeaderLen() == info.headerLen ==>
           && Mergeable(st.bufs, i, info, item, Append, offset)
           && (item.TcpItem? ==> Mergeable(st.bufs, i, info, item, Prepend, offset)))
  {
    assert FlowSafe(st, offset, info.key);
    assert ItemSafe(st, offset, info.key, st.flows[info.key][p]);
    AdmitFacts(st.bufs[i].bytes[offset..], true);
    hide Admit;
  }

  lemma PartUpdate(flows: map<FlowKey, seq<GroItem>>, key: FlowKey, items: seq<GroItem>)
    ensures Part(flows[key := items], key.TcpKey?) == Part(flows, key.TcpKey?)[key := items]
    ensures Part(flows[key := items], !key.TcpKey?) == Part(flows, !key.TcpKey?)
  {
  }

  /** updateAt, in terms of the flows. */
  method UpdateItem(table: GroTable, item: GroItem, p: nat, ghost flows: map<FlowKey, seq<GroItem>>)
    requires TableHolds(table, flows, item.key.TcpKey?) && item.key in flows && p < |flows[item.key]|
    modifies table.lists
    ensures TableHolds(table, flows[item.key := flows[item.key][p := item]], item.key.TcpKey?)
    ensures table.itemsByFlow == old(table.itemsByFlow)
  {
    TableFacts(table, flows, item.key.TcpKey?);
    PartUpdate(flows, item.key, flows[item.key][p := item]);
    hide Separate;
    table.UpdateAt(item, p);
  }

  /** deleteAt, in terms of the flows. */
  method DeleteItem(table: GroTable, key: FlowKey, p: nat, ghost flows: map<FlowKey, seq<GroItem>>)
    requires TableHolds(table, flows, key.TcpKey?) && key in flows && p < |flows[key]|
    modifies table, table.lists
    ensures TableHolds(table, flows[key := flows[key][..p] + flows[key][p + 1..]], key.TcpKey?)
    ensures key in table.itemsByFlow && key in old(table.itemsByFlow)
    ensures table.itemsByFlow[key].list == old(table.itemsByFlow)[key].list
  {
    TableFacts(table, flows, key.TcpKey?);
    PartUpdate(flows, key, flows[key][..p] + flows[key][p + 1..]);
    hide Separate;
    table.DeleteAt(key, p);
  }

  /** insert, in terms of the flows. */
  method InsertItem(table: GroTable, item: GroItem, ghost st: GroState)
    requires TableHolds(table, st.flows, item.key.TcpKey?)
    requires |st.flows| < IDEAL_BATCH_SIZE && |FlowItems(st, item.key)| < IDEAL_BATCH_SIZE
    modifies table, table.lists
    ensures TableHolds(table, st.flows[item.key := FlowItems(st, item.key) + [item]], item.key.TcpKey?)
  {
    TableFacts(table, st.flows, item.key.TcpKey?);
    PartUpdate(st.flows, item.key, FlowItems(st, item.key) + [item]);
    hide Separate;
    ghost var grown := if item.key in table.Items() then table.Items()[item.key] + [item] else [item];
    assert grown == FlowItems(st, item.key) + [item];
    table.Insert(item);
  }

  /** What insert does to the flows, and that there is room for it. */
  lemma InsertFlows(st: GroState, i: nat, info: Info, known: bool, offset: nat)
    requires Ready(st, i, info, offset)
    ensures offset <= |st.bufs[i].bytes| && i < |st.bufs| == |st.fate|
    ensures
      var pkt := st.bufs[i].bytes[offset..];
      && |pkt| >= info.headerLen >= info.iphLen + 8 && (info.key.TcpKey? ==> info.headerLen >= info.iphLen + 20)
      && NewItem(pkt, info, i, known).key == info.key
      && Insert(st, i, info, known, offset).flows
            == st.flows[info.key := FlowItems(st, info.key) + [NewItem(pkt, info, i, known)]]
    ensures |st.flows| < IDEAL_BATCH_SIZE && |FlowItems(st, info.key)| < IDEAL_BATCH_SIZE
  {
    AdmitFacts(st.bufs[i].bytes[offset..], true);
    NewItemSafe(st.bufs[i].bytes[offset..], info, i, known);
    if info.key in st.flows {
      FlowRoom(st, i, offset, info.key);
    }
    hide Admit, NewItem;
  }

  /** insert: packet i becomes an item of its flow. */
  method InsertPacket(pkt: seq<byte>, info: Info, known: bool, i: nat, table: GroTable, offset: nat, ghost st: GroState)
    requires Ready(st, i, info, offset) && pkt == st.bufs[i].bytes[offset..]
    requires TableHolds(table, st.flows, info.key.TcpKey?)
    modifies table, table.lists
    ensures TableHolds(table, Insert(st, i, info, known, offset).flows, info.key.TcpKey?)
  {
    InsertFlows(st, i, info, known, offset);
    hide Ready, TableHolds, NewItem, Insert;
    var item := NewItem(pkt, info, i, known);
    InsertItem(table, item, st);
  }

  /** Item p of the packet's flow is to be examined. */
  ghost predicate Turnable(st: GroState, i: nat, info: Info, p: nat, offset: nat) {
    Ready(st, i, info, offset) && info.key.TcpKey? && info.key in st.flows && p < |st.flows[info.key]|
  }

  ghost function TurnVerdict(st: GroState, i: nat, info: Info, p: nat, offset: nat): Verdict
    requires Turnable(st, i, info, p, offset)
  {
    ItemReady(st, i, info, offset, p);
    var item := st.flows[info.key][p];
    ExamineTcp(st.bufs[i], st.bufs[item.bufsIndex], info, item, offset)
  }

  /** The state after one turn of the loop of tcpGRO. */
  ghost function AfterTurn(st: GroState, i: nat, info: Info, p: nat, verdict: Verdict, offset: nat): GroState
    requires Turnable(st, i, info, p, offset)
  {
    ItemReady(st, i, info, offset, p);
    match verdict
    case DropIt => DropItem(st, info.key, p)
    case Join(mode) =>
      if offset + st.flows[info.key][p].HeaderLen() <= |st.bufs[i].bytes| then MergeInto(st, i, info, p, mode,
          offset) else st
    case _ => st
  }

  /** The buffers and flows after a turn, by its verdict. */
  lemma TurnFacts(st: GroState, i: nat, info: Info, p: nat, offset: nat)
    requires Turnable(st, i, info, p, offset)
    ensures i < |st.bufs| && info.key.TcpKey? && info.key in st.flows && p < |st.flows[info.key]|
    ensures
      var item := st.flows[info.key][p];
      && item.key == info.key && item.TcpItem? && item.bufsIndex < |st.bufs|
      && item.iphLen == info.iphLen && item.tcphLen >= 20 && item.gsoSize > 0
      && offset <= |st.bufs[i].bytes| && offset + item.HeaderLen() <= |st.bufs[item.bufsIndex].bytes|
      && |st.bufs[i].bytes[offset..]| >= info.headerLen >= info.iphLen + 20
    ensures
      var item := st.flows[info.key][p];
      && AfterTurn(st, i, info, p, Skip, offset) == AfterTurn(st, i, info, p, Reject, offset) == st
      && AfterTurn(st, i, info, p, DropIt, offset).bufs == st.bufs
      && AfterTurn(st, i, info, p, DropIt, offset).flows
            == st.flows[info.key := st.flows[info.key][..p] + st.flows[info.key][p + 1..]]
  {
    ItemReady(st, i, info, offset, p);
    hide Ready, Mergeable;
  }

  lemma TurnVerdictIs(st: GroState, i: nat, info: Info, p: nat, offset: nat)
    requires Turnable(st, i, info, p, offset)
    ensures i < |st.bufs| && info.key.TcpKey? && info.key in st.flows && p < |st.flows[info.key]|
    ensures
      var item := st.flows[info.key][p];
      && item.TcpItem? && item.bufsIndex < |st.bufs| && item.iphLen == info.iphLen && item.tcphLen >= 20
      && item.gsoSize > 0
      && item.iphLen == MinIpHeader(item.key.isV6) && item.key == info.key
      && offset <= |st.bufs[i].bytes| && offset + item.HeaderLen() <= |st.bufs[item.bufsIndex].bytes|
      && |st.bufs[i].bytes[offset..]| >= info.headerLen >= info.iphLen + 20
      && var can := TcpCanCoalesce(st.bufs[i].bytes[offset..], info, item, st.bufs[item.bufsIndex].bytes[offset..]);
      if can == Unavailable then TurnVerdict(st, i, info, p, offset) == Skip
      else
        && Mergeable(st.bufs, i, info, item, can, offset) && offset + item.HeaderLen() <= |st.bufs[i].bytes|
        && TurnVerdict(st, i, info, p, offset)
           == VerdictOf(can, TryCoalesce(can, st.bufs[i], info, item, st.bufs[item.bufsIndex], offset))
        && AfterTurn(st, i, info, p, Join(can), offset).bufs == MergedBufs(st.bufs, i, info, item, can, offset)
        && AfterTurn(st, i, info, p, Join(can), offset).flows
           == st.flows[info.key := st.flows[info.key][p := MergedItem(can, info, item)]]
  {
    ItemReady(st, i, info, offset, p);
    var item := st.flows[info.key][p];
    ExamineParts(st.bufs[i], st.bufs[item.bufsIndex], info, item, offset);
    hide Ready, ExamineTcp, TcpCanCoalesce, TryCoalesce, MergedBufs, MergedItem, Admit;
  }

  /** The part of a turn that works on the buffers: the comparison, and the attempt to coalesce. */
  method TcpAttempt(e: Endian, bufs: array<Slice>, i: nat, info: Info, item: GroItem, offset: nat, ghost p: nat,
                    ghost arrs: seq<array<byte>>, ghost st: GroState)
    returns (verdict: Verdict, item': GroItem)
    requires Turnable(st, i, info, p, offset) && item == st.flows[info.key][p]
    requires Models(bufs, arrs, st.bufs)
    modifies bufs, arrs
    ensures verdict == TurnVerdict(st, i, info, p, offset)
    ensures Models(bufs, arrs, AfterTurn(st, i, info, p, verdict, offset).bufs)
    ensures if verdict.Join? then item' == MergedItem(verdict.mode, info, item)
            else item' == item && unchanged(bufs) && unchanged(arrs)
  {
    hide Turnable, TurnVerdict, AfterTurn, TcpCanCoalesce, TryCoalesce, Models, Mergeable, MergedBufs, MergedItem;
    TurnFacts(st, i, info, p, offset);
    TurnVerdictIs(st, i, info, p, offset);
    ModelsAt(bufs, arrs, st.bufs, i);
    ModelsAt(bufs, arrs, st.bufs, item.bufsIndex);
    BytesFromView(bufs[i], offset, st.bufs[i].bytes);
    BytesFromView(bufs[item.bufsIndex], offset, st.bufs[item.bufsIndex].bytes);
    var can := TcpCanCoalesce(BytesFrom(bufs[i], offset), info, item, BytesFrom(bufs[item.bufsIndex], offset));
    if can == Unavailable {
      return Skip, item;
    }
    var result;
    result, item' := CoalescePackets(e, can, bufs, i, info, item, offset, arrs, st.bufs);
    verdict := VerdictOf(can, result);
  }

  /** What a turn does to the flows. */
  lemma TurnFlows(st: GroState, i: nat, info: Info, p: nat, offset: nat)
    requires Turnable(st, i, info, p, offset)
    ensures info.key.TcpKey? && info.key in st.flows && p < |st.flows[info.key]|
    ensures st.flows[info.key][p].key == info.key
    ensures
      var verdict, items := TurnVerdict(st, i, info, p, offset), st.flows[info.key];
      AfterTurn(st, i, info, p, verdict, offset).flows
      == match verdict
         case Join(mode) => st.flows[info.key := items[p := MergedItem(mode, info, items[p])]]
         case DropIt => st.flows[info.key := items[..p] + items[p + 1..]]
         case _ => st.flows
  {
    TurnFacts(st, i, info, p, offset);
    TurnVerdictIs(st, i, info, p, offset);
    hide Turnable, TurnVerdict, AfterTurn, TcpCanCoalesce, TryCoalesce, Mergeable, MergedBufs, MergedItem;
  }

  /** One turn of the loop of tcpGRO: item p of the flow is examined, and changed as the outcome demands. */
  method TcpTurn(e: Endian, bufs: array<Slice>, i: nat, info: Info, item: GroItem, p: nat, table: GroTable, offset: nat,
                 ghost arrs: seq<array<byte>>, ghost st: GroState)
    returns (verdict: Verdict)
    requires Turnable(st, i, info, p, offset) && item == st.flows[info.key][p]
    requires Models(bufs, arrs, st.bufs) && TableHolds(table, st.flows, true)
    modifies bufs, arrs, table, table.lists
    ensures verdict == TurnVerdict(st, i, info, p, offset)
    ensures Models(bufs, arrs, AfterTurn(st, i, info, p, verdict, offset).bufs)
    ensures TableHolds(table, AfterTurn(st, i, info, p, verdict, offset).flows, true)
    ensures info.key in table.itemsByFlow && info.key in old(table.itemsByFlow)
    ensures table.itemsByFlow[info.key].list == old(table.itemsByFlow)[info.key].list
  {
    hide Turnable, TurnVerdict, AfterTurn, Models, MergedItem, TableHolds;
    TurnFlows(st, i, info, p, offset);
    TableHas(table, st.flows, info.key);
    var item';
    verdict, item' := TcpAttempt(e, bufs, i, info, item, offset, p, arrs, st);
    match verdict {
      case Join(_) => UpdateItem(table, item', p, st.flows);
      case DropIt => DeleteItem(table, item.key, p, st.flows);
      case _ =>
    }
  }

  datatype GroResult = ResultNoop | ResultInsert | ResultCoalesced

  /**
   Where tcpGRO or udpGRO leaves the batch: st' is the state it reached from st,
   want the state after the packet's step. A packet that is left alone has yet
   to get its header from handleGRO.
   */
  ghost predicate Reached(e: Endian, st: GroState, i: nat, offset: nat, tcp: bool, result: GroResult, st': GroState,
                          want: GroState) {
    && Part(st'.flows, !tcp) == Part(st.flows, !tcp)
    && |st'.flows| <= |st.flows| + 1
    && match result
       case ResultNoop =>
         && i < |st'.bufs| == |st'.fate| && HDR_LEN <= offset <= |st'.bufs[i].bytes|
         && st'.toWrite == st.toWrite && want == LeaveAlone(e, st', i, offset)
       case ResultInsert => want == st' && st'.toWrite == st.toWrite + [i]
       case ResultCoalesced => want == st' && st'.toWrite == st.toWrite
  }

  lemma KeysCount(flows: map<FlowKey, seq<GroItem>>, key: FlowKey, items: seq<GroItem>)
    ensures |flows[key := items]| == if key in flows then |flows| else |flows| + 1
  {
    assert flows[key := items].Keys == flows.Keys + {key};
    assert |flows[key := items].Keys| == |flows[key := items]| && |flows.Keys| == |flows|;
  }

  lemma InsertReached(e: Endian, st: GroState, i: nat, info: Info, known: bool, offset: nat)
    requires Ready(st, i, info, offset)
    ensures i < |st.bufs| == |st.fate| && offset <= |st.bufs[i].bytes|
    ensures Admit(st.bufs[i].bytes[offset..], true) == Some(info)
    ensures var st' := Insert(st, i, info, known, offset);
      Reached(e, st, i, offset, info.key.TcpKey?, ResultInsert, st', st') && st'.bufs == st.bufs
  {
    InsertFlows(st, i, info, known, offset);
    hide Admit, NewItem, Safe, Part;
    var item := NewItem(st.bufs[i].bytes[offset..], info, i, known);
    PartUpdate(st.flows, info.key, FlowItems(st, info.key) + [item]);
    KeysCount(st.flows, info.key, FlowItems(st, info.key) + [item]);
  }

  ghost function FullScan(e: Endian, st: GroState, i: nat, info: Info, offset: nat): GroState
    requires Ready(st, i, info, offset) && info.key.TcpKey? && info.key in st.flows
  {
    TcpScan(e, st, i, info, |st.flows[info.key]|, offset)
  }

  /** The scan that started from st has n items to go, and has come to cur. */
  ghost predicate ScanPoint(e: Endian, st: GroState, cur: GroState, i: nat, info: Info, n: nat, offset: nat) {
    && Ready(st, i, info, offset) && info.key.TcpKey? && info.key in st.flows
    && Ready(cur, i, info, offset) && info.key in cur.flows && n <= |cur.flows[info.key]|
    && cur.bufs == st.bufs && cur.toWrite == st.toWrite
    && Part(cur.flows, false) == Part(st.flows, false) && |cur.flows| == |st.flows|
    && TcpScan(e, cur, i, info, n, offset) == FullScan(e, st, i, info, offset)
  }

  /** A turn changes neither the other table's flows nor the list of packets to write. */
  lemma TurnRest(st: GroState, i: nat, info: Info, p: nat, offset: nat)
    requires Turnable(st, i, info, p, offset)
    ensures
      var next := AfterTurn(st, i, info, p, TurnVerdict(st, i, info, p, offset), offset);
      && Part(next.flows, false) == Part(st.flows, false) && |next.flows| == |st.flows|
      && next.toWrite == st.toWrite
  {
    TurnFlows(st, i, info, p, offset);
    hide TurnVerdict, Ready, MergedItem, MergedBufs, Part;
    var items := st.flows[info.key];
    var verdict := TurnVerdict(st, i, info, p, offset);
    if verdict.Join? {
      PartUpdate(st.flows, info.key, items[p := MergedItem(verdict.mode, info, items[p])]);
      KeysCount(st.flows, info.key, items[p := MergedItem(verdict.mode, info, items[p])]);
    } else {
      PartUpdate(st.flows, info.key, items[..p] + items[p + 1..]);
      KeysCount(st.flows, info.key, items[..p] + items[p + 1..]);
    }
  }

  /** After a turn that does not end the scan the packet is still to be tried, against the items before. */
  lemma TurnReady(e: Endian, st: GroState, i: nat, info: Info, p: nat, offset: nat)
    requires Turnable(st, i, info, p, offset)
    ensures
      var verdict := TurnVerdict(st, i, info, p, offset);
      var next := AfterTurn(st, i, info, p, verdict, offset);
      verdict == Skip || verdict == DropIt ==>
        Ready(next, i, info, offset) && info.key in next.flows && p <= |next.flows[info.key]| && next.bufs == st.bufs
  {
    TurnRest(st, i, info, p, offset);
    DropSafe(st, offset, info.key, p);
    hide TurnVerdict, Admit, Safe, FlowSafe, ItemSafe, DropItem, Mergeable, Comparable;
  }

  /** The scan in terms of its turns. */
  lemma ScanTurn(e: Endian, st: GroState, i: nat, info: Info, p: nat, offset: nat)
    requires Turnable(st, i, info, p, offset)
    ensures Ready(st, i, info, offset) && info.key.TcpKey? && info.key in st.flows && p + 1 <= |st.flows[info.key]|
    ensures
      var verdict := TurnVerdict(st, i, info, p, offset);
      var next := AfterTurn(st, i, info, p, verdict, offset);
      match verdict
      case Reject =>
        && i < |next.bufs| == |next.fate| && HDR_LEN <= offset <= |next.bufs[i].bytes|
        && TcpScan(e, st, i, info, p + 1, offset) == LeaveAlone(e, next, i, offset)
      case Join(_) => TcpScan(e, st, i, info, p + 1, offset) == next
      case _ =>
        && Ready(next, i, info, offset) && info.key in next.flows && p <= |next.flows[info.key]|
        && TcpScan(e, st, i, info, p + 1, offset) == TcpScan(e, next, i, info, p, offset)
  {
    TurnReady(e, st, i, info, p, offset);
    ItemReady(st, i, info, offset, p);
    TurnVerdictIs(st, i, info, p, offset);
    hide Admit, Safe, FlowSafe, ItemSafe, ExamineTcp, DropItem, MergeInto, LeaveAlone, Mergeable, Comparable,
         TcpCanCoalesce, TryCoalesce;
  }

  /** What each verdict means for the scan. */
  lemma ScanStep(e: Endian, st: GroState, cur: GroState, i: nat, info: Info, n: nat, offset: nat)
    requires ScanPoint(e, st, cur, i, info, n, offset) && n > 0
    ensures Ready(st, i, info, offset) && info.key.TcpKey? && info.key in st.flows
    ensures Turnable(cur, i, info, n - 1, offset)
    ensures
      var verdict := TurnVerdict(cur, i, info, n - 1, offset);
      var next := AfterTurn(cur, i, info, n - 1, verdict, offset);
      match verdict
      case Reject => Reached(e, st, i, offset, true, ResultNoop, next, FullScan(e, st, i, info, offset))
      case Join(_) => Reached(e, st, i, offset, true, ResultCoalesced, next, FullScan(e, st, i, info, offset))
      case _ => ScanPoint(e, st, next, i, info, n - 1, offset)
  {
    hide Ready, TurnVerdict, AfterTurn, FullScan, Part, LeaveAlone, TcpScan, ExamineTcp;
    ScanTurn(e, cur, i, info, n - 1, offset);
    TurnRest(cur, i, info, n - 1, offset);
    TurnReady(e, cur, i, info, n - 1, offset);
  }

  lemma ScanStart(e: Endian, st: GroState, i: nat, info: Info, offset: nat)
    requires Ready(st, i, info, offset) && info.key.TcpKey? && info.key in st.flows
    ensures ScanPoint(e, st, st, i, info, |st.flows[info.key]|, offset)
  {
    hide Ready, TcpScan, Part;
  }

  /** When no item is left to try, the packet becomes one. */
  lemma ScanEnd(e: Endian, st: GroState, cur: GroState, i: nat, info: Info, offset: nat)
    requires ScanPoint(e, st, cur, i, info, 0, offset)
    ensures Ready(st, i, info, offset) && info.key.TcpKey? && info.key in st.flows
    ensures Ready(cur, i, info, offset) && cur.bufs == st.bufs
    ensures i < |cur.bufs| == |cur.fate| && offset <= |cur.bufs[i].bytes|
    ensures Admit(cur.bufs[i].bytes[offset..], true) == Some(info)
    ensures Reached(e, st, i, offset, true, ResultInsert, Insert(cur, i, info, false, offset),
                    FullScan(e, st, i, info, offset))
    ensures Insert(cur, i, info, false, offset).bufs == cur.bufs
  {
    InsertReached(e, cur, i, info, false, offset);
    hide Insert, Part, Admit, Safe, Fresh;
  }

  lemma ScanItem(e: Endian, st: GroState, cur: GroState, i: nat, info: Info, n: nat, offset: nat, table: GroTable)
    requires ScanPoint(e, st, cur, i, info, n, offset) && n > 0 && TableHolds(table, cur.flows, true)
    ensures info.key in cur.flows && n <= |cur.flows[info.key]|
    ensures info.key in table.itemsByFlow && n <= table.itemsByFlow[info.key].list.Length
    ensures table.itemsByFlow[info.key].list[n - 1] == cur.flows[info.key][n - 1]
  {
    TableFacts(table, cur.flows, true);
    hide Ready, TcpScan, Part, TableHolds;
    var list := table.itemsByFlow[info.key];
    assert list.list[..list.len][n - 1] == cur.flows[info.key][n - 1];
  }

  /**
   The loop of tcpGRO. The slice of items is read once, before the loop; deleteAt
   moves items of its backing list while the loop runs, but none that is still
   to be examined.
   */
  method ScanFlow(e: Endian, pkt: seq<byte>, bufs: array<Slice>, i: nat, info: Info, table: GroTable, offset: nat,
                  ghost arrs: seq<array<byte>>, ghost st: GroState)
    returns (result: GroResult, ghost st': GroState)
    requires Ready(st, i, info, offset) && info.key.TcpKey? && info.key in st.flows
    requires pkt == st.bufs[i].bytes[offset..]
    requires Models(bufs, arrs, st.bufs) && TableHolds(table, st.flows, true)
    modifies bufs, arrs, table, table.lists
    ensures Models(bufs, arrs, st'.bufs) && TableHolds(table, st'.flows, true)
    ensures Reached(e, st, i, offset, true, result, st', FullScan(e, st, i, info, offset))
  {
    hide Ready, Models, TableHolds, ScanPoint, Turnable, TurnVerdict, AfterTurn, Reached, FullScan, Insert;
    ScanStart(e, st, i, info, offset);
    TableHas(table, st.flows, info.key);
    var items := table.itemsByFlow[info.key];
    var n := items.len;
    ghost var cur := st;
    while n > 0
      invariant ScanPoint(e, st, cur, i, info, n, offset)
      invariant Models(bufs, arrs, cur.bufs) && TableHolds(table, cur.flows, true)
      invariant info.key in table.itemsByFlow && table.itemsByFlow[info.key].list == items.list
    {
      ScanStep(e, st, cur, i, info, n, offset);
      ScanItem(e, st, cur, i, info, n, offset, table);
      var item := items.list[n - 1];
      var verdict := TcpTurn(e, bufs, i, info, item, n - 1, table, offset, arrs, cur);
      cur := AfterTurn(cur, i, info, n - 1, verdict, offset);
      match verdict {
        case Reject => return ResultNoop, cur;
        case Join(_) => return ResultCoalesced, cur;
        case _ =>
      }
      n := n - 1;
    }
    ScanEnd(e, st, cur, i, info, offset);
    InsertPacket(pkt, info, false, i, table, offset, cur);
    return ResultInsert, Insert(cur, i, info, false, offset);
  }

  /** A packet that GRO has a table for. */
  ghost predicate Untried(st: GroState, i: nat, offset: nat) {
    Safe(st, offset) && Fresh(st, i, offset) && |st.flows| <= i
  }

  /** tcpGRO. */
  method TcpGro(e: Endian, bufs: array<Slice>, offset: nat, i: nat, table: GroTable, isV6: bool, ghost canUDP: bool,
                ghost arrs: seq<array<byte>>, ghost st: GroState)
    returns (result: GroResult, ghost st': GroState)
    requires Untried(st, i, offset) && Safe(st, offset) && Fresh(st, i, offset)
    requires Classify(st.bufs[i].bytes[offset..], canUDP) == if isV6 then Tcp6 else Tcp4
    requires Models(bufs, arrs, st.bufs) && TableHolds(table, st.flows, true)
    modifies bufs, arrs, table, table.lists
    ensures Models(bufs, arrs, st'.bufs) && TableHolds(table, st'.flows, true)
    ensures Reached(e, st, i, offset, true, result, st', Step(e, st, i, offset, canUDP))
  {
    hide Untried, Safe, Fresh, Models, TableHolds, ParseTcp, Classify, Admit, Reached, Ready, FullScan, Insert, Step;
    TcpAdmission(e, st, i, offset, isV6, canUDP);
    ModelsAt(bufs, arrs, st.bufs, i);
    BytesFromView(bufs[i], offset, st.bufs[i].bytes);
    var pkt := BytesFrom(bufs[i], offset);
    var parsed := ParseTcp(pkt, isV6);
    if parsed.None? {
      return ResultNoop, st;
    }
    var info := parsed.value;
    TableKeys(table, st.flows, true);
    if info.key !in table.itemsByFlow {
      InsertPacket(pkt, info, false, i, table, offset, st);
      return ResultInsert, Insert(st, i, info, false, offset);
    }
    result, st' := ScanFlow(e, pkt, bufs, i, info, table, offset, arrs, st);
  }

  /** What the step of a TCP candidate is, by the checks of tcpGRO and the table. */
  lemma TcpAdmission(e: Endian, st: GroState, i: nat, offset: nat, isV6: bool, canUDP: bool)
    requires Safe(st, offset) && Fresh(st, i, offset) && Untried(st, i, offset)
    requires Classify(st.bufs[i].bytes[offset..], canUDP) == if isV6 then Tcp6 else Tcp4
    ensures i < |st.bufs| && offset <= |st.bufs[i].bytes|
    ensures Classify(st.bufs[i].bytes[offset..], true) == if isV6 then Tcp6 else Tcp4
    ensures
      var parsed := ParseTcp(st.bufs[i].bytes[offset..], isV6);
      match parsed
      case None => Reached(e, st, i, offset, true, ResultNoop, st, Step(e, st, i, offset, canUDP))
      case Some(info) =>
        && Ready(st, i, info, offset) && info.key.TcpKey?
        && |st.fate| == |st.bufs| && Admit(st.bufs[i].bytes[offset..], true) == Some(info)
        && (info.key !in st.flows ==>
             Reached(e, st, i, offset, true, ResultInsert, Insert(st, i, info, false, offset),
                     Step(e, st, i, offset, canUDP)))
        && Insert(st, i, info, false, offset).bufs == st.bufs
        && (info.key in st.flows ==> FullScan(e, st, i, info, offset) == Step(e, st, i, offset, canUDP))
  {
    AdmitFacts(st.bufs[i].bytes[offset..], canUDP);
    var parsed := ParseTcp(st.bufs[i].bytes[offset..], isV6);
    hide Safe, Reached, TcpScan, UdpStep, LeaveAlone;
    if parsed.Some? {
      InsertReached(e, st, i, parsed.value, false, offset);
    } else {
      LeftAlone(e, st, i, offset, true);
    }
  }

  lemma LeftAlone(e: Endian, st: GroState, i: nat, offset: nat, tcp: bool)
    requires Fresh(st, i, offset)
    ensures Reached(e, st, i, offset, tcp, ResultNoop, st, LeaveAlone(e, st, i, offset))
  {
    hide LeaveAlone, Part;
  }

  /** Joining the last item of a UDP flow. */
  lemma UdpMerged(e: Endian, st: GroState, i: nat, info: Info, offset: nat)
    requires Ready(st, i, info, offset) && info.key.UdpKey? && info.key in st.flows && |st.flows[info.key]| > 0
    ensures
      var p := |st.flows[info.key]| - 1;
      var item := st.flows[info.key][p];
      && |st.bufs| == |st.fate| == |st.origin| && ItemSafe(st, offset, info.key, item)
      && Mergeable(st.bufs, i, info, item, Append, offset)
      && var st' := MergeInto(st, i, info, p, Append, offset);
      && st'.bufs == MergedBufs(st.bufs, i, info, item, Append, offset)
      && st'.flows == st.flows[info.key := st.flows[info.key][p := MergedItem(Append, info, item)]]
      && Reached(e, st, i, offset, false, ResultCoalesced, st', st')
  {
    var p := |st.flows[info.key]| - 1;
    var items := st.flows[info.key];
    ItemReady(st, i, info, offset, p);
    hide Admit, MergedBufs, MergedItem, Part, Fresh, FlowSafe;
    PartUpdate(st.flows, info.key, items[p := MergedItem(Append, info, items[p])]);
    KeysCount(st.flows, info.key, items[p := MergedItem(Append, info, items[p])]);
  }

  /** Where the step of a datagram leads, by the answers about the last item of its flow. */
  ghost predicate UdpChoice(e: Endian, st: GroState, i: nat, info: Info, offset: nat, want: GroState)
    requires Ready(st, i, info, offset) && info.key.UdpKey? && info.key in st.flows && |st.flows[info.key]| > 0
  {
    UdpMerged(e, st, i, info, offset);
    var p := |st.flows[info.key]| - 1;
    var item := st.flows[info.key][p];
    var target := st.bufs[item.bufsIndex];
    var inserted := Insert(st, i, info, false, offset);
    if UdpCanCoalesce(st.bufs[i].bytes[offset..], info, item, target.bytes[offset..]) != Append then want == inserted
    else
      match TryCoalesce(Append, st.bufs[i], info, item, target, offset)
      case Success => want == MergeInto(st, i, info, p, Append, offset)
      case PktInvalidCsum => want == Insert(st, i, info, true, offset)
      case _ => want == inserted
  }

  lemma UdpParsed(pkt: seq<byte>, isV6: bool, canUDP: bool)
    requires Classify(pkt, canUDP) == if isV6 then Udp6 else Udp4
    ensures Classify(pkt, true) == if isV6 then Udp6 else Udp4
    ensures ParseUdp(pkt, isV6).Some? ==> ParseUdp(pkt, isV6).value.key.UdpKey?
    ensures Admit(pkt, canUDP) == Admit(pkt, true) == ParseUdp(pkt, isV6)
  {
  }

  /** What the step of a UDP candidate is, by the checks of udpGRO and the table. */
  lemma UdpAdmission(e: Endian, st: GroState, i: nat, offset: nat, isV6: bool, canUDP: bool)
    requires Safe(st, offset) && Fresh(st, i, offset) && Untried(st, i, offset)
    requires Classify(st.bufs[i].bytes[offset..], canUDP) == if isV6 then Udp6 else Udp4
    ensures i < |st.bufs| && offset <= |st.bufs[i].bytes|
    ensures Classify(st.bufs[i].bytes[offset..], true) == if isV6 then Udp6 else Udp4
    ensures
      var parsed := ParseUdp(st.bufs[i].bytes[offset..], isV6);
      match parsed
      case None => Reached(e, st, i, offset, false, ResultNoop, st, Step(e, st, i, offset, canUDP))
      case Some(info) =>
        && Ready(st, i, info, offset) && info.key.UdpKey?
        && |st.fate| == |st.bufs| && Admit(st.bufs[i].bytes[offset..], true) == Some(info)
        && (info.key !in st.flows ==> Insert(st, i, info, false, offset) == Step(e, st, i, offset, canUDP))
        && (info.key in st.flows ==>
             |st.flows[info.key]| > 0 && UdpChoice(e, st, i, info, offset, Step(e, st, i, offset, canUDP)))
  {
    hide Safe, Reached, LeaveAlone, Insert, MergeInto, TryCoalesce, UdpCanCoalesce, Part, ParseUdp, TcpScan;
    AdmitFacts(st.bufs[i].bytes[offset..], canUDP);
    var parsed := ParseUdp(st.bufs[i].bytes[offset..], isV6);
    if parsed.None? {
      LeftAlone(e, st, i, offset, false);
    } else {
      UdpParsed(st.bufs[i].bytes[offset..], isV6, canUDP);
      if parsed.value.key in st.flows {
        UdpTarget(st, i, parsed.value, offset);
      }
    }
  }

  /** The last item of a UDP flow, as the table holds it. */
  lemma LastItem(st: GroState, key: FlowKey, table: GroTable)
    requires TableHolds(table, st.flows, key.TcpKey?) && key in st.flows && |st.flows[key]| > 0
    ensures key in table.itemsByFlow
    ensures 0 < table.itemsByFlow[key].len == |st.flows[key]| <= table.itemsByFlow[key].list.Length
    ensures table.itemsByFlow[key].list[table.itemsByFlow[key].len - 1] == st.flows[key][|st.flows[key]| - 1]
  {
    TableFacts(table, st.flows, key.TcpKey?);
    hide TableHolds, Part;
    var items := table.itemsByFlow[key];
    assert items.list[..items.len][items.len - 1] == st.flows[key][|st.flows[key]| - 1];
  }

  /** The attempt of udpGRO to coalesce with the last item of the flow: all of a merge, or none of it. */
  method UdpAttempt(e: Endian, pkt: seq<byte>, bufs: array<Slice>, i: nat, info: Info, item: GroItem, offset: nat,
                    ghost arrs: seq<array<byte>>, ghost st: GroState, ghost want: GroState)
    returns (merged: bool, known: bool, item': GroItem)
    requires Ready(st, i, info, offset) && info.key.UdpKey? && info.key in st.flows && |st.flows[info.key]| > 0
    requires item == st.flows[info.key][|st.flows[info.key]| - 1] && pkt == st.bufs[i].bytes[offset..]
    requires UdpChoice(e, st, i, info, offset, want)
    requires Models(bufs, arrs, st.bufs)
    modifies bufs, arrs
    ensures merged ==>
      && Models(bufs, arrs, want.bufs) && item' == MergedItem(Append, info, item) && item'.key == info.key
      && want.flows == st.flows[info.key := st.flows[info.key][|st.flows[info.key]| - 1 := item']]
      && Reached(e, st, i, offset, false, ResultCoalesced, want, want)
    ensures !merged ==>
      && unchanged(bufs) && unchanged(arrs) && i < |st.bufs| == |st.fate|
      && offset <= |st.bufs[i].bytes| && Admit(st.bufs[i].bytes[offset..], true) == Some(info)
      && want == Insert(st, i, info, known, offset)
  {
    UdpMerged(e, st, i, info, offset);
    ItemReady(st, i, info, offset, |st.flows[info.key]| - 1);
    ModelsAt(bufs, arrs, st.bufs, item.bufsIndex);
    hide Safe, Fresh, Admit, Models, Mergeable, UdpCanCoalesce, TryCoalesce, Insert, MergeInto, MergedBufs, MergedItem,
         Reached, Part;
    known := false;
    item' := item;
    BytesFromView(bufs[item.bufsIndex], offset, st.bufs[item.bufsIndex].bytes);
    var can := UdpCanCoalesce(pkt, info, item, BytesFrom(bufs[item.bufsIndex], offset));
    if can != Append {
      return false, known, item';
    }
    var result;
    result, item' := CoalescePackets(e, Append, bufs, i, info, item, offset, arrs, st.bufs);
    merged := result == Success;
    known := result == PktInvalidCsum;
  }

  /** udpGRO. */
  method UdpGro(e: Endian, bufs: array<Slice>, offset: nat, i: nat, table: GroTable, isV6: bool, ghost canUDP: bool,
                ghost arrs: seq<array<byte>>, ghost st: GroState)
    returns (result: GroResult, ghost st': GroState)
    requires Untried(st, i, offset) && Safe(st, offset) && Fresh(st, i, offset)
    requires Classify(st.bufs[i].bytes[offset..], canUDP) == if isV6 then Udp6 else Udp4
    requires Models(bufs, arrs, st.bufs) && TableHolds(table, st.flows, false)
    modifies bufs, arrs, table, table.lists
    ensures Models(bufs, arrs, st'.bufs) && TableHolds(table, st'.flows, false)
    ensures Reached(e, st, i, offset, false, result, st', Step(e, st, i, offset, canUDP))
  {
    hide Untried, Safe, Fresh, Models, TableHolds, ParseUdp, Classify, Admit, Reached, Ready, UdpChoice, Insert, Step,
         MergedItem;
    UdpAdmission(e, st, i, offset, isV6, canUDP);
    ModelsAt(bufs, arrs, st.bufs, i);
    BytesFromView(bufs[i], offset, st.bufs[i].bytes);
    var pkt := BytesFrom(bufs[i], offset);
    var parsed := ParseUdp(pkt, isV6);
    if parsed.None? {
      return ResultNoop, st;
    }
    var info := parsed.value;
    ghost var want := Step(e, st, i, offset, canUDP);
    TableKeys(table, st.flows, false);
    var known := false;
    if info.key in table.itemsByFlow {
      LastItem(st, info.key, table);
      var items := table.itemsByFlow[info.key];
      var item := items.list[items.len - 1];
      var merged, item';
      merged, known, item' := UdpAttempt(e, pkt, bufs, i, info, item, offset, arrs, st, want);
      if merged {
        UpdateItem(table, item', items.len - 1, st.flows);
        return ResultCoalesced, want;
      }
    }
    InsertReached(e, st, i, info, known, offset);
    InsertPacket(pkt, info, known, i, table, offset, st);
    return ResultInsert, want;
  }
}
