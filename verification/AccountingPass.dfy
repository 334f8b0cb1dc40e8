/**
 The accounting passes of handleGRO: every item of a table, flow by flow in
 whatever order the map yields them. The result is Finish, whatever the order.
 */
module AccountingPass {
  import opened Bytes
  import opened InternetChecksum
  import opened Packets
  import opened Virtio
  import opened Gro
  import opened Accounting
  import opened Slices
  import opened Buffers
  import opened GroTables
  import opened Rewriter
  import opened Writer

  /** Buffer j belongs to an item of a finished flow, or to one of the first p items of the flow under way. */
  ghost predicate Passed(st: GroState, done: set<FlowKey>, key: FlowKey, p: nat, j: nat)
    requires j < |st.fate|
  {
    st.fate[j].Held? && (st.fate[j].key in done || (st.fate[j].key == key && IndexOf(FlowItems(st, key), j) < p))
  }

  /** The buffers part of the way through accounting. */
  ghost predicate Midway(e: Endian, st: GroState, offset: nat, vs: seq<View>, done: set<FlowKey>, key: FlowKey,
                         p: nat) {
    && Safe(st, offset) && HDR_LEN <= offset && |vs| == |st.bufs|
    && forall j :: 0 <= j < |vs| ==>
      vs[j] == if Passed(st, done, key, p, j) then FinishView(e, st, offset, j) else st.bufs[j]
  }

  /** The buffers when exactly the flows in done have been accounted for. */
  ghost predicate Between(e: Endian, st: GroState, offset: nat, vs: seq<View>, done: set<FlowKey>) {
    && Safe(st, offset) && HDR_LEN <= offset && |vs| == |st.bufs|
    && forall j :: 0 <= j < |vs| ==>
         vs[j] == if st.fate[j].Held? && st.fate[j].key in done then FinishView(e, st, offset, j) else st.bufs[j]
  }

  lemma FlowStart(e: Endian, st: GroState, offset: nat, vs: seq<View>, done: set<FlowKey>, key: FlowKey)
    requires Between(e, st, offset, vs, done)
    ensures Midway(e, st, offset, vs, done, key, 0)
  {
    hide FinishView, Safe;
  }

  lemma FlowEnd(e: Endian, st: GroState, offset: nat, vs: seq<View>, done: set<FlowKey>, key: FlowKey)
    requires Midway(e, st, offset, vs, done, key, |FlowItems(st, key)|)
    ensures Between(e, st, offset, vs, done + {key})
  {
    hide AccountBytes;
    forall j | 0 <= j < |vs| && st.fate[j] == Held(key) && IndexOf(FlowItems(st, key), j) == |FlowItems(st, key)|
      ensures FinishView(e, st, offset, j) == st.bufs[j]
    {
    }
    hide FinishView, Safe;
  }

  /** The buffers after the accounting of one item. */
  ghost function AfterItem(e: Endian, vs: seq<View>, item: GroItem, offset: nat): seq<View>
    requires item.bufsIndex < |vs| && item.iphLen == MinIpHeader(item.key.isV6) && HDR_LEN <= offset
    requires offset + item.iphLen + CsumOffset(item) + 2 <= |vs[item.bufsIndex].bytes|
  {
    var v := vs[item.bufsIndex];
    vs[item.bufsIndex := v.(bytes := AccountBytes(e, item, v.bytes, offset))]
  }

  /** Item p of the flow has not been accounted for yet, and its buffer holds all that accounting writes. */
  lemma ItemPending(e: Endian, st: GroState, offset: nat, vs: seq<View>, done: set<FlowKey>, key: FlowKey, p: nat)
    requires Midway(e, st, offset, vs, done, key, p) && key !in done && key in st.flows && p < |st.flows[key]|
    ensures
      var item := st.flows[key][p];
      && item.bufsIndex < |vs| && item.iphLen == MinIpHeader(item.key.isV6) && HDR_LEN <= offset
      && offset + item.iphLen + CsumOffset(item) + 2 <= |vs[item.bufsIndex].bytes|
      && Midway(e, st, offset, AfterItem(e, vs, item, offset), done, key, p + 1)
  {
    hide Safe, AccountBytes, FinishView;
    FinishHeld(e, st, offset, key, p);
    var items := st.flows[key];
    OnlyIndex(st, offset, key, p);
  }

  /** The accounting of one item, in its buffer. */
  method AccountAt(e: Endian, bufs: array<Slice>, item: GroItem, offset: nat, ghost arrs: seq<array<byte>>,
                   ghost vs: seq<View>)
    requires Models(bufs, arrs, vs) && item.bufsIndex < |vs|
    requires item.iphLen == MinIpHeader(item.key.isV6) && HDR_LEN <= offset
    requires offset + item.iphLen + CsumOffset(item) + 2 <= |vs[item.bufsIndex].bytes|
    modifies arrs
    ensures Models(bufs, arrs, AfterItem(e, vs, item, offset))
  {
    hide AccountBytes;
    var j := item.bufsIndex;
    ModelsAt(bufs, arrs, vs, j);
    var s := bufs[j];
    forall k | 0 <= k < |vs| && k != j
      ensures bufs[k].arr != s.arr
    {
      ModelsDistinct(bufs, arrs, vs, j, k);
    }
    AccountBuffer(e, s.arr, s.len, item, offset);
    ghost var vs' := AfterItem(e, vs, item, offset);
    forall k | 0 <= k < |vs|
      ensures SliceIs(bufs[k], arrs, vs'[k])
    {
      assert old(SliceIs(bufs[k], arrs, vs[k]));
    }
  }

  /** One flow of an accounting pass. */
  method AccountFlow(e: Endian, bufs: array<Slice>, items: ItemSlice, offset: nat, ghost key: FlowKey,
                     ghost done: set<FlowKey>, ghost arrs: seq<array<byte>>, ghost st: GroState, ghost vs0: seq<View>)
    returns (ghost vs: seq<View>)
    requires Models(bufs, arrs, vs0) && Between(e, st, offset, vs0, done) && key !in done && key in st.flows
    requires items.len <= items.list.Length && items.list[..items.len] == st.flows[key]
    modifies arrs
    ensures Models(bufs, arrs, vs) && Between(e, st, offset, vs, done + {key})
  {
    hide Models, Between, Midway, AccountBytes;
    vs := vs0;
    FlowStart(e, st, offset, vs, done, key);
    for p := 0 to items.len
      invariant Models(bufs, arrs, vs) && Midway(e, st, offset, vs, done, key, p)
      invariant items.list[..items.len] == st.flows[key]
    {
      ItemPending(e, st, offset, vs, done, key, p);
      var item := items.list[p];
      assert item == items.list[..items.len][p];
      AccountAt(e, bufs, item, offset, arrs, vs);
      vs := AfterItem(e, vs, item, offset);
    }
    FlowEnd(e, st, offset, vs, done, key);
  }

  lemma TableEntry(table: GroTable, flows: map<FlowKey, seq<GroItem>>, tcp: bool, key: FlowKey)
    requires TableHolds(table, flows, tcp) && key in table.itemsByFlow
    ensures key in flows && key.TcpKey? == tcp && table.itemsByFlow[key].list in table.lists
    ensures table.itemsByFlow[key].len <= table.itemsByFlow[key].list.Length
    ensures table.itemsByFlow[key].list[..table.itemsByFlow[key].len] == flows[key]
  {
    TableFacts(table, flows, tcp);
  }

  lemma TableKeySet(table: GroTable, flows: map<FlowKey, seq<GroItem>>, tcp: bool)
    requires TableHolds(table, flows, tcp)
    ensures table.itemsByFlow.Keys == Part(flows, tcp).Keys
  {
    TableKeys(table, flows, tcp);
  }

  /** applyTCPCoalesceAccounting and applyUDPCoalesceAccounting. */
  method ApplyCoalesceAccounting(e: Endian, bufs: array<Slice>, offset: nat, table: GroTable, ghost tcp: bool,
      ghost done0: set<FlowKey>, ghost arrs: seq<array<byte>>, ghost st: GroState, ghost vs0: seq<View>)
    returns (ghost vs: seq<View>)
    requires Models(bufs, arrs, vs0) && Between(e, st, offset, vs0, done0)
    requires TableHolds(table, st.flows, tcp) && forall k :: k in done0 ==> k.TcpKey? != tcp
    modifies arrs
    ensures Models(bufs, arrs, vs) && Between(e, st, offset, vs, done0 + Part(st.flows, tcp).Keys)
  {
    hide Models, Between, TableHolds, Part;
    TableKeySet(table, st.flows, tcp);
    vs := vs0;
    var keys := table.itemsByFlow.Keys;
    ghost var done := done0;
    while keys != {}
      invariant TableHolds(table, st.flows, tcp)
      invariant keys <= table.itemsByFlow.Keys && done == done0 + (table.itemsByFlow.Keys - keys)
      invariant Models(bufs, arrs, vs) && Between(e, st, offset, vs, done)
      decreases |keys|
    {
      var key :| key in keys;
      TableEntry(table, st.flows, tcp, key);
      vs := AccountFlow(e, bufs, table.itemsByFlow[key], offset, key, done, arrs, st, vs);
      keys := keys - {key};
      done := done + {key};
    }
    assert done == done0 + Part(st.flows, tcp).Keys;
  }

  /** With both tables accounted for, the buffers are those of Finish. */
  lemma BothPasses(e: Endian, st: GroState, offset: nat, vs: seq<View>)
    requires Between(e, st, offset, vs, Part(st.flows, true).Keys + Part(st.flows, false).Keys)
    ensures Safe(st, offset) && HDR_LEN <= offset && vs == Finish(e, st, offset).bufs
  {
    hide AccountBytes;
    forall j | 0 <= j < |vs|
      ensures vs[j] == FinishView(e, st, offset, j)
    {
      if st.fate[j].Held? && st.fate[j].key in st.flows {
        assert st.fate[j].key in Part(st.flows, true).Keys + Part(st.flows, false).Keys;
      }
    }
  }

  lemma NoPassYet(e: Endian, st: GroState, offset: nat)
    requires Safe(st, offset) && HDR_LEN <= offset
    ensures Between(e, st, offset, st.bufs, {})
  {
    hide FinishView;
  }
}
