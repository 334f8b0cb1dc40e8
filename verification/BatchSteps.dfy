/** Every step of handleGRO keeps the batch invariant. */
module BatchSteps {
  import opened Bytes
  import opened InternetChecksum
  import opened Packets
  import opened Virtio
  import opened Gro
  import opened Coalescing
  import opened Joining
  import opened Batch

  // ---------------------------------------------------------------- placement and backing arrays

  lemma PlacementSame(st: GroState, st': GroState)
    requires PlacementOk(st)
    requires st'.origin == st.origin && |st'.fate| == |st.fate|
    requires forall j :: 0 <= j < |st.fate| ==> Home(st'.fate, j) == Home(st.fate, j)
    ensures PlacementOk(st')
  {
    forall j, m | 0 <= j < |st'.origin| && 0 <= m < |st'.origin[j]|
      ensures Carries(st', j, m)
    {
      assert Carries(st, j, m);
    }
  }

  lemma BackingSame(st: GroState, st': GroState, inp: seq<View>)
    requires BackingOk(st, inp) && |st'.bufs| == |st.bufs|
    requires forall j :: 0 <= j < |st.bufs| ==> st'.bufs[j].id == st.bufs[j].id && st'.bufs[j].cap == st.bufs[j].cap
    ensures BackingOk(st', inp)
  {
  }

  /** Packet i moves from its own buffer to buffer j, before or after what j carries. */
  ghost predicate Moves(st: GroState, st': GroState, i: nat, j: nat, mode: CanCoalesce) {
    && PlacementOk(st) && i < |st.fate| && j < |st.fate| && i != j
    && st.fate[i] == Pending && st.origin[i] == [i] && !st.fate[j].Coalesced?
    && st'.fate == st.fate[i := Coalesced(j)]
    && |st'.origin| == |st.origin|
    && st'.origin[i] == [] && st'.origin[j] == Joined(mode, st.origin[j], i)
    && forall k :: 0 <= k < |st.origin| && k != i && k != j ==> st'.origin[k] == st.origin[k]
  }

  lemma MovesHome(st: GroState, st': GroState, i: nat, j: nat, mode: CanCoalesce, k: nat)
    requires Moves(st, st', i, j, mode) && k < |st.fate|
    ensures Home(st'.fate, k) < |st'.origin| && k in st'.origin[Home(st'.fate, k)]
  {
    var os, os' := st.origin[j], st'.origin[j];
    if k == i {
      assert i == os'[if mode == Prepend then 0 else |os|];
    } else {
      var home := Home(st.fate, k);
      assert k in st.origin[home] && home != i;
      if home == j {
        var m :| 0 <= m < |os| && os[m] == k;
        assert k == os'[if mode == Prepend then m + 1 else m];
      }
    }
  }

  lemma MovesCarries(st: GroState, st': GroState, i: nat, j: nat, mode: CanCoalesce, k: nat, m: nat)
    requires Moves(st, st', i, j, mode) && k < |st'.origin| && m < |st'.origin[k]|
    ensures Carries(st', k, m)
  {
    var os, os' := st.origin[j], st'.origin[j];
    if k != j {
      assert Carries(st, k, m);
      assert Home(st.fate, i) == i;
    } else if os'[m] != i {
      var m' := if mode == Prepend then m - 1 else m;
      assert os'[m] == os[m'] && Carries(st, j, m');
    }
  }

  lemma MovesDistinct(st: GroState, st': GroState, i: nat, j: nat, mode: CanCoalesce, m: nat, q: nat)
    requires Moves(st, st', i, j, mode) && m < q < |st'.origin[j]|
    ensures st'.origin[j][m] != st'.origin[j][q]
  {
    var os, os' := st.origin[j], st'.origin[j];
    forall x | 0 <= x < |os|
      ensures os[x] != i
    {
      assert Carries(st, j, x);
    }
    if mode == Prepend {
      assert os'[q] == os[q - 1] && (m > 0 ==> os'[m] == os[m - 1]);
    } else {
      assert os'[m] == os[m] && (q < |os| ==> os'[q] == os[q]);
    }
  }

  lemma PlacementMoves(st: GroState, st': GroState, i: nat, j: nat, mode: CanCoalesce)
    requires Moves(st, st', i, j, mode)
    ensures PlacementOk(st')
  {
    hide Carries, Home, Joined;
    forall k | 0 <= k < |st'.fate|
      ensures Home(st'.fate, k) < |st'.origin| && k in st'.origin[Home(st'.fate, k)]
    {
      MovesHome(st, st', i, j, mode, k);
    }
    forall k, m | 0 <= k < |st'.origin| && 0 <= m < |st'.origin[k]|
      ensures Carries(st', k, m)
    {
      MovesCarries(st, st', i, j, mode, k, m);
    }
    forall k, m, q | 0 <= k < |st'.origin| && 0 <= m < q < |st'.origin[k]|
      ensures st'.origin[k][m] != st'.origin[k][q]
    {
      if k == j {
        MovesDistinct(st, st', i, j, mode, m, q);
      }
    }
  }

  /** Exchanging two buffers, or growing one in its own array, keeps the permutation. */
  lemma BackingSwaps(st: GroState, st': GroState, inp: seq<View>, i: nat, j: nat, merged: View, mode: CanCoalesce)
    requires BackingOk(st, inp) && i < |inp| && j < |inp| && i != j
    requires st'.bufs == if mode == Prepend then st.bufs[i := st.bufs[j]][j := merged] else st.bufs[j := merged]
    requires var src := if mode == Prepend then st.bufs[i] else st.bufs[j]; merged.id == src.id && merged.cap == src.cap
    ensures BackingOk(st', inp)
  {
    forall a, b | 0 <= a < b < |inp|
      ensures st'.bufs[a].id != st'.bufs[b].id
    {
      var swap := mode == Prepend;
      var a' := if swap && a == i then j else if swap && a == j then i else a;
      var b' := if swap && b == i then j else if swap && b == j then i else b;
      assert st'.bufs[a].id == st.bufs[a'].id && st'.bufs[b].id == st.bufs[b'].id && a' != b';
      assert if a' < b' then st.bufs[a'].id != st.bufs[b'].id else st.bufs[b'].id != st.bufs[a'].id;
    }
  }

  // ---------------------------------------------------------------- UDP streams

  lemma ArrivalsSkip(inp: seq<View>, offset: nat, canUDP: bool, key: FlowKey, i: nat)
    requires i < |inp| && !Arrives(inp, offset, canUDP, key, i)
    ensures Arrivals(inp, offset, canUDP, key, i + 1) == Arrivals(inp, offset, canUDP, key, i)
  {
  }

  /** A flow whose items and their origins stay the same, and at which packet i does not arrive, keeps its stream. */
  lemma StreamSkips(st: GroState, st': GroState, inp: seq<View>, offset: nat, canUDP: bool, i: nat, key: FlowKey)
    requires i < |inp| && StreamOk(st, inp, offset, canUDP, i, key)
    requires !Arrives(inp, offset, canUDP, key, i)
    requires FlowItems(st', key) == FlowItems(st, key) && |st'.origin| == |st.origin|
    requires forall p :: 0 <= p < |FlowItems(st, key)| ==>
      var j := FlowItems(st, key)[p].bufsIndex; j < |st.origin| && st'.origin[j] == st.origin[j]
    ensures StreamOk(st', inp, offset, canUDP, i + 1, key)
  {
    ArrivalsSkip(inp, offset, canUDP, key, i);
    StreamUnchanged(FlowItems(st, key), st.origin, st'.origin);
  }

  /** Steps that touch no UDP flow keep every UDP stream. */
  lemma StreamsSkip(st: GroState, st': GroState, inp: seq<View>, offset: nat, canUDP: bool, i: nat)
    requires i < |inp| && StreamsOk(st, inp, offset, canUDP, i)
    requires Safe(st, offset)
    requires forall key: FlowKey :: key.UdpKey? ==> !Arrives(inp, offset, canUDP, key, i)
    requires forall key: FlowKey :: key.UdpKey? ==> FlowItems(st', key) == FlowItems(st, key)
    requires |st'.origin| == |st.origin|
    requires forall j :: 0 <= j < |st.fate| && st.fate[j].Held? && st.fate[j].key.UdpKey? ==>
      st'.origin[j] == st.origin[j]
    ensures StreamsOk(st', inp, offset, canUDP, i + 1)
  {
    forall key: FlowKey | key.UdpKey?
      ensures StreamOk(st', inp, offset, canUDP, i + 1, key)
    {
      assert StreamOk(st, inp, offset, canUDP, i, key);
      hide StreamOk;
      forall p | 0 <= p < |FlowItems(st, key)|
        ensures var j := FlowItems(st, key)[p].bufsIndex; j < |st.origin| && st'.origin[j] == st.origin[j]
      {
        assert FlowSafe(st, offset, key);
        assert ItemSafe(st, offset, key, st.flows[key][p]);
      }
      StreamSkips(st, st', inp, offset, canUDP, i, key);
    }
  }

  /** A datagram that becomes a new item extends its flow's stream at the end. */
  lemma StreamInserts(st: GroState, st': GroState, inp: seq<View>, offset: nat, canUDP: bool, i: nat, item: GroItem)
    requires i < |inp| && StreamOk(st, inp, offset, canUDP, i, item.key)
    requires Arrives(inp, offset, canUDP, item.key, i)
    requires FlowItems(st', item.key) == FlowItems(st, item.key) + [item]
    requires st'.origin == st.origin && item.bufsIndex == i < |st.origin| && st.origin[i] == [i]
    ensures StreamOk(st', inp, offset, canUDP, i + 1, item.key)
  {
    var items' := FlowItems(st', item.key);
    assert items'[..|items'| - 1] == FlowItems(st, item.key);
  }

  /** A datagram appended to the last item of its flow extends the flow's stream at the end. */
  lemma StreamAppends(st: GroState, st': GroState, inp: seq<View>, offset: nat, canUDP: bool, i: nat, key: FlowKey,
                      item: GroItem)
    requires i < |inp| && StreamOk(st, inp, offset, canUDP, i, key)
    requires Arrives(inp, offset, canUDP, key, i)
    requires var items := FlowItems(st, key);
      && |items| > 0 && FlowItems(st', key) == items[|items| - 1 := item]
      && item.bufsIndex == items[|items| - 1].bufsIndex < |st.origin|
    requires i < |st.origin| == |st'.origin| && st.origin[i] == [i]
    requires st'.origin[item.bufsIndex] == st.origin[item.bufsIndex] + [i]
    requires forall p :: 0 <= p < |FlowItems(st, key)| - 1 ==>
      var j := FlowItems(st, key)[p].bufsIndex; j < |st.origin| && st'.origin[j] == st.origin[j]
    ensures StreamOk(st', inp, offset, canUDP, i + 1, key)
  {
    var items, items' := FlowItems(st, key), FlowItems(st', key);
    assert items'[..|items'| - 1] == items[..|items| - 1];
    StreamUnchanged(items[..|items| - 1], st.origin, st'.origin);
  }

  // ---------------------------------------------------------------- what became of each packet

  lemma HeldIndex(st: GroState, offset: nat, key: FlowKey, p: nat)
    requires Safe(st, offset) && key in st.flows && p < |st.flows[key]|
    ensures ItemSafe(st, offset, key, st.flows[key][p])
  {
    assert FlowSafe(st, offset, key);
  }

  lemma LeaveAlonePositions(e: Endian, st: GroState, inp: seq<View>, offset: nat, i: nat)
    requires PositionsOk(e, st, inp, offset, i) && Fresh(st, i, offset)
    ensures PositionsOk(e, LeaveAlone(e, st, i, offset), inp, offset, i + 1)
  {
    hide WithHeader, Corrupt;
    var st' := LeaveAlone(e, st, i, offset);
    var n := i + 1;
    forall j | 0 <= j < |inp|
      ensures PositionOk(e, st', inp, offset, n, j)
    {
      assert PositionOk(e, st, inp, offset, i, j);
      assert forall key :: HeldAt(st, key, j) ==> HeldAt(st', key, j);
    }
  }

  lemma InsertPositions(e: Endian, st: GroState, inp: seq<View>, info: Info, known: bool, offset: nat, i: nat)
    requires PositionsOk(e, st, inp, offset, i) && Fresh(st, i, offset) && i < TWO16
    requires Admit(st.bufs[i].bytes[offset..], true) == Some(info)
    ensures PositionsOk(e, Insert(st, i, info, known, offset), inp, offset, i + 1)
  {
    var pkt := st.bufs[i].bytes[offset..];
    NewItemSafe(pkt, info, i, known);
    var item := NewItem(pkt, info, i, known);
    hide NewItem, Admit, WithHeader, Corrupt;
    var st' := Insert(st, i, info, known, offset);
    var before := FlowItems(st, info.key);
    assert st'.flows == st.flows[info.key := before + [item]];
    assert HeldAt(st', info.key, i) by {
      assert st'.flows[info.key][|before|].bufsIndex == i;
    }
    var n := i + 1;
    forall j | 0 <= j < |inp|
      ensures PositionOk(e, st', inp, offset, n, j)
    {
      assert PositionOk(e, st, inp, offset, i, j);
      forall key | HeldAt(st, key, j)
        ensures HeldAt(st', key, j)
      {
        var p :| 0 <= p < |st.flows[key]| && st.flows[key][p].bufsIndex == j;
        assert st'.flows[key][p] == st.flows[key][p];
      }
    }
  }

  lemma NothingJoined(st: GroState, j: nat)
    requires PlacementOk(st) && j < |st.fate| && st.origin[j] == [j] && !st.fate[j].Coalesced?
    ensures forall k :: 0 <= k < |st.fate| && st.fate[k].Coalesced? ==> st.fate[k].into != j
  {
    forall k | 0 <= k < |st.fate| && st.fate[k].Coalesced?
      ensures st.fate[k].into != j
    {
      assert k in st.origin[Home(st.fate, k)];
    }
  }

  /** Deleting an item whose packet is still alone in its buffer. */
  lemma DropKeepsHeld(st: GroState, key: FlowKey, p: nat, key': FlowKey, k: nat)
    requires key in st.flows && p < |st.flows[key]| && st.flows[key][p].bufsIndex < |st.fate|
    requires k != st.flows[key][p].bufsIndex && HeldAt(st, key', k)
    ensures HeldAt(DropItem(st, key, p), key', k)
  {
    var q :| 0 <= q < |st.flows[key']| && st.flows[key'][q].bufsIndex == k;
    var st' := DropItem(st, key, p);
    if key' == key {
      assert st'.flows[key][if q < p then q else q - 1] == st.flows[key][q];
    } else {
      assert st'.flows[key'][q] == st.flows[key'][q];
    }
  }

  lemma DropPositions(e: Endian, st: GroState, inp: seq<View>, offset: nat, i: nat, key: FlowKey, p: nat)
    requires PositionsOk(e, st, inp, offset, i) && PlacementOk(st) && Safe(st, offset)
    requires key in st.flows && p < |st.flows[key]|
    requires var j := st.flows[key][p].bufsIndex;
      j < |st.fate| && st.origin[j] == [j] && st.bufs[j] == inp[j] && Corrupt(inp, offset, j)
    ensures PositionsOk(e, DropItem(st, key, p), inp, offset, i)
  {
    hide WithHeader, Corrupt, HeldAt, PlacementOk, Safe;
    HeldIndex(st, offset, key, p);
    var j := st.flows[key][p].bufsIndex;
    var st' := DropItem(st, key, p);
    NothingJoined(st, j);
    assert PositionOk(e, st, inp, offset, i, j);
    forall k | 0 <= k < |inp|
      ensures PositionOk(e, st', inp, offset, i, k)
    {
      assert PositionOk(e, st, inp, offset, i, k);
      if k != j && st.fate[k].Held? {
        DropKeepsHeld(st, key, p, st.fate[k].key, k);
      }
    }
  }

  lemma MergePositions(e: Endian, st: GroState, inp: seq<View>, info: Info, offset: nat, i: nat, p: nat,
                       mode: CanCoalesce)
    requires PositionsOk(e, st, inp, offset, i) && Fresh(st, i, offset) && |st.origin| == |st.fate|
    requires info.key in st.flows && p < |st.flows[info.key]| && ItemSafe(st, offset, info.key, st.flows[info.key][p])
    requires offset + st.flows[info.key][p].HeaderLen() <= |st.bufs[i].bytes|
    ensures PositionsOk(e, MergeInto(st, i, info, p, mode, offset), inp, offset, i + 1)
  {
    hide WithHeader, Corrupt, MergedView;
    var st' := MergeInto(st, i, info, p, mode, offset);
    var items := st.flows[info.key];
    var j := items[p].bufsIndex;
    assert MergedItem(mode, info, items[p]).bufsIndex == j;
    hide MergedItem;
    var n := i + 1;
    forall k | 0 <= k < |inp|
      ensures PositionOk(e, st', inp, offset, n, k)
    {
      assert PositionOk(e, st, inp, offset, i, k);
      forall key | HeldAt(st, key, k)
        ensures HeldAt(st', key, k)
      {
        var q :| 0 <= q < |st.flows[key]| && st.flows[key][q].bufsIndex == k;
        assert st'.flows[key][q].bufsIndex == k;
      }
    }
  }

  // ---------------------------------------------------------------- items

  lemma ItemKept(st: GroState, st': GroState, inp: seq<View>, offset: nat, item: GroItem)
    requires ItemOk(st, inp, offset, item)
    requires |st'.bufs| == |st.bufs| && |st'.origin| == |st.origin|
    requires st'.bufs[item.bufsIndex] == st.bufs[item.bufsIndex]
    requires st'.origin[item.bufsIndex] == st.origin[item.bufsIndex]
    ensures ItemOk(st', inp, offset, item)
  {
    hide ItemInv;
  }

  lemma LeaveAloneItems(e: Endian, st: GroState, inp: seq<View>, offset: nat, i: nat)
    requires Safe(st, offset) && Fresh(st, i, offset) && ItemsOk(st, inp, offset)
    ensures ItemsOk(LeaveAlone(e, st, i, offset), inp, offset)
  {
    hide ItemOk, WithHeader;
    var st' := LeaveAlone(e, st, i, offset);
    forall key, p | key in st'.flows && 0 <= p < |st'.flows[key]|
      ensures ItemOk(st', inp, offset, st'.flows[key][p])
    {
      HeldIndex(st, offset, key, p);
      assert ItemOk(st, inp, offset, st.flows[key][p]);
      ItemKept(st, st', inp, offset, st.flows[key][p]);
    }
  }

  lemma InsertItems(st: GroState, inp: seq<View>, info: Info, known: bool, offset: nat, i: nat)
    requires Safe(st, offset) && Fresh(st, i, offset) && ItemsOk(st, inp, offset)
    requires |st.bufs| == |inp| && st.bufs[i] == inp[i] && st.origin[i] == [i]
    requires Admit(st.bufs[i].bytes[offset..], true) == Some(info)
    requires known ==>
      info.key.UdpKey? && Member(inp, offset, info.key, info.headerLen, i)
      && !Valid(inp, offset, info.key, info.headerLen, i)
    ensures ItemsOk(Insert(st, i, info, known, offset), inp, offset)
  {
    hide ItemInv;
    NewItemInv(inp, i, info, known, offset);
    var pkt := st.bufs[i].bytes[offset..];
    NewItemSafe(pkt, info, i, known);
    var item := NewItem(pkt, info, i, known);
    hide NewItem, Admit;
    var st' := Insert(st, i, info, known, offset);
    assert st'.flows == st.flows[info.key := FlowItems(st, info.key) + [item]];
    assert ItemOk(st', inp, offset, item);
    hide ItemOk;
    forall key, p | key in st'.flows && 0 <= p < |st'.flows[key]|
      ensures ItemOk(st', inp, offset, st'.flows[key][p])
    {
      if key in st.flows && p < |st.flows[key]| {
        HeldIndex(st, offset, key, p);
        assert ItemOk(st, inp, offset, st.flows[key][p]);
        ItemKept(st, st', inp, offset, st.flows[key][p]);
      }
    }
  }

  lemma DropItems(st: GroState, inp: seq<View>, offset: nat, key: FlowKey, p: nat)
    requires Safe(st, offset) && ItemsOk(st, inp, offset)
    requires key in st.flows && p < |st.flows[key]| && st.flows[key][p].bufsIndex < |st.fate|
    ensures ItemsOk(DropItem(st, key, p), inp, offset)
  {
    hide Safe, ItemInv;
    var st' := DropItem(st, key, p);
    forall key', q | key' in st'.flows && 0 <= q < |st'.flows[key']|
      ensures ItemOk(st', inp, offset, st'.flows[key'][q])
    {
      var was := if key' == key && q >= p then q + 1 else q;
      assert st'.flows[key'][q] == st.flows[key'][was];
      HeldIndex(st, offset, key', was);
      assert ItemOk(st, inp, offset, st.flows[key'][was]);
    }
  }

  lemma MergeItems(st: GroState, inp: seq<View>, info: Info, offset: nat, i: nat, p: nat, mode: CanCoalesce)
    requires Safe(st, offset) && Fresh(st, i, offset) && ItemsOk(st, inp, offset)
    requires |st.bufs| == |inp| && st.bufs[i] == inp[i] && st.origin[i] == [i]
    requires info.key in st.flows && p < |st.flows[info.key]| && ItemSafe(st, offset, info.key, st.flows[info.key][p])
    requires var item := st.flows[info.key][p];
      CanJoin(mode, item, st.bufs[item.bufsIndex], st.origin[item.bufsIndex], inp, i, info, offset)
    requires offset + st.flows[info.key][p].HeaderLen() <= |st.bufs[i].bytes|
    ensures ItemsOk(MergeInto(st, i, info, p, mode, offset), inp, offset)
  {
    hide CanJoin, ItemInv, MergedView;
    var item := st.flows[info.key][p];
    var j := item.bufsIndex;
    JoinInv(mode, item, st.bufs[j], st.origin[j], inp, i, info, offset);
    var st' := MergeInto(st, i, info, p, mode, offset);
    var item' := MergedItem(mode, info, item);
    assert item'.bufsIndex == j;
    hide MergedItem;
    assert st'.origin[j] == Joined(mode, st.origin[j], i);
    assert ItemOk(st', inp, offset, item');
    assert FlowSafe(st, offset, info.key);
    forall key, q | key in st'.flows && 0 <= q < |st'.flows[key]|
      ensures ItemOk(st', inp, offset, st'.flows[key][q])
    {
      if key != info.key || q != p {
        var other := st.flows[key][q];
        HeldIndex(st, offset, key, q);
        assert ItemOk(st, inp, offset, other);
        assert other.bufsIndex != i && other.bufsIndex != j;
        hide ItemOk;
        ItemKept(st, st', inp, offset, other);
      }
    }
  }

  // ---------------------------------------------------------------- whole steps

  /** Admission to a TCP flow, or none, is no arrival at a UDP flow. */
  lemma NoUdpArrival(inp: seq<View>, offset: nat, canUDP: bool, i: nat)
    requires i < |inp| && offset <= |inp[i].bytes|
    requires Admit(Pkt(inp[i], offset), canUDP).Some? ==> Admit(Pkt(inp[i], offset), canUDP).value.key.TcpKey?
    ensures forall key: FlowKey :: key.UdpKey? ==> !Arrives(inp, offset, canUDP, key, i)
  {
  }

  lemma NextPacket(e: Endian, st: GroState, inp: seq<View>, offset: nat, canUDP: bool, i: nat)
    requires Inv(e, st, inp, offset, canUDP, i) && i < |inp|
    requires HDR_LEN <= offset < |inp[i].bytes|
    ensures Fresh(st, i, offset) && st.bufs[i] == inp[i] && st.origin[i] == [i]
    ensures |st.bufs| == |inp| <= IDEAL_BATCH_SIZE
  {
    hide FlowSafe, ItemsOk, PlacementOk, BackingOk, StreamsOk, WithHeader, Corrupt;
    forall j | i <= j < |st.fate|
      ensures st.fate[j] == Pending && st.bufs[j] == inp[j] && st.origin[j] == [j]
    {
      assert PositionOk(e, st, inp, offset, i, j);
    }
  }

  lemma LeaveAloneInv(e: Endian, st: GroState, inp: seq<View>, offset: nat, canUDP: bool, i: nat)
    requires Inv(e, st, inp, offset, canUDP, i) && i < |inp| && HDR_LEN <= offset < |inp[i].bytes|
    requires Fresh(st, i, offset)
    requires Admit(Pkt(inp[i], offset), canUDP).Some? ==> Admit(Pkt(inp[i], offset), canUDP).value.key.TcpKey?
    ensures Inv(e, LeaveAlone(e, st, i, offset), inp, offset, canUDP, i + 1)
  {
    hide Safe, PositionsOk, ItemsOk, StreamsOk, PlacementOk, BackingOk, Admit, WithHeader, Arrives;
    NextPacket(e, st, inp, offset, canUDP, i);
    var st' := LeaveAlone(e, st, i, offset);
    LeaveAloneSafe(e, st, i, offset);
    LeaveAlonePositions(e, st, inp, offset, i);
    LeaveAloneItems(e, st, inp, offset, i);
    PlacementSame(st, st');
    BackingSame(st, st', inp);
    NoUdpArrival(inp, offset, canUDP, i);
    StreamsSkip(st, st', inp, offset, canUDP, i);
    WrittenUnchanged(st.fate, st'.fate, i);
  }

  lemma FlowCount(flows: map<FlowKey, seq<GroItem>>, key: FlowKey, items: seq<GroItem>)
    ensures |flows[key := items]| <= |flows| + 1
    ensures key in flows ==> |flows[key := items]| == |flows|
  {
    var flows' := flows[key := items];
    assert flows'.Keys == flows.Keys + {key};
    assert |flows'.Keys| == |flows'| && |flows.Keys| == |flows|;
  }

  lemma InsertStreams(st: GroState, inp: seq<View>, info: Info, known: bool, offset: nat, canUDP: bool, i: nat)
    requires Safe(st, offset) && Fresh(st, i, offset) && StreamsOk(st, inp, offset, canUDP, i)
    requires |st.bufs| == |inp| && st.bufs[i] == inp[i] && st.origin[i] == [i]
    requires Admit(st.bufs[i].bytes[offset..], true) == Some(info)
    requires Admit(st.bufs[i].bytes[offset..], canUDP) == Some(info)
    ensures StreamsOk(Insert(st, i, info, known, offset), inp, offset, canUDP, i + 1)
  {
    var pkt := st.bufs[i].bytes[offset..];
    NewItemSafe(pkt, info, i, known);
    var item := NewItem(pkt, info, i, known);
    hide NewItem;
    var st' := Insert(st, i, info, known, offset);
    assert st'.flows == st.flows[info.key := FlowItems(st, info.key) + [item]];
    assert Arrives(inp, offset, canUDP, info.key, i);
    hide Admit;
    forall key: FlowKey | key.UdpKey?
      ensures StreamOk(st', inp, offset, canUDP, i + 1, key)
    {
      assert StreamOk(st, inp, offset, canUDP, i, key);
      hide StreamOk;
      if key == info.key {
        StreamInserts(st, st', inp, offset, canUDP, i, item);
      } else {
        FlowIndices(st, offset, key);
        StreamSkips(st, st', inp, offset, canUDP, i, key);
      }
    }
  }

  lemma FlowIndices(st: GroState, offset: nat, key: FlowKey)
    requires Safe(st, offset)
    ensures forall p :: 0 <= p < |FlowItems(st, key)| ==>
      FlowItems(st, key)[p].bufsIndex < |st.fate| == |st.origin|
      && st.fate[FlowItems(st, key)[p].bufsIndex] == Held(key)
    ensures forall p, q :: 0 <= p < q < |FlowItems(st, key)| ==>
      FlowItems(st, key)[p].bufsIndex < FlowItems(st, key)[q].bufsIndex
  {
    if key in st.flows {
      assert FlowSafe(st, offset, key);
      forall p | 0 <= p < |FlowItems(st, key)|
        ensures FlowItems(st, key)[p].bufsIndex < |st.fate| && st.fate[FlowItems(st, key)[p].bufsIndex] == Held(key)
      {
        assert ItemSafe(st, offset, key, st.flows[key][p]);
      }
    }
  }

  lemma InsertInv(e: Endian, st: GroState, inp: seq<View>, info: Info, known: bool, offset: nat, canUDP: bool, i: nat)
    requires Inv(e, st, inp, offset, canUDP, i) && i < |inp| && HDR_LEN <= offset < |inp[i].bytes|
    requires Fresh(st, i, offset) && st.bufs[i] == inp[i]
    requires Admit(Pkt(inp[i], offset), canUDP) == Some(info)
    requires Admit(st.bufs[i].bytes[offset..], true) == Some(info)
    requires known ==>
      info.key.UdpKey? && Member(inp, offset, info.key, info.headerLen, i)
      && !Valid(inp, offset, info.key, info.headerLen, i)
    ensures Inv(e, Insert(st, i, info, known, offset), inp, offset, canUDP, i + 1)
  {
    hide Safe, PositionsOk, ItemsOk, StreamsOk, PlacementOk, BackingOk, Valid, Admit;
    NextPacket(e, st, inp, offset, canUDP, i);
    InsertSafe(st, i, info, known, offset);
    InsertPositions(e, st, inp, info, known, offset, i);
    InsertItems(st, inp, info, known, offset, i);
    InsertStreams(st, inp, info, known, offset, canUDP, i);
    NewItemSafe(st.bufs[i].bytes[offset..], info, i, known);
    var item := NewItem(st.bufs[i].bytes[offset..], info, i, known);
    hide NewItem;
    var st' := Insert(st, i, info, known, offset);
    PlacementSame(st, st');
    BackingSame(st, st', inp);
    WrittenUnchanged(st.fate, st'.fate, i);
    FlowCount(st.flows, info.key, FlowItems(st, info.key) + [item]);
  }

  /** An item is dropped only while it is a single packet, and only when that packet's own checksum fails. */
  lemma DropCause(st: GroState, inp: seq<View>, info: Info, offset: nat, i: nat, item: GroItem)
    requires |st.fate| == |st.bufs| == |st.origin| && Fresh(st, i, offset)
    requires Admit(st.bufs[i].bytes[offset..], true) == Some(info) && info.key.TcpKey?
    requires ItemSafe(st, offset, info.key, item) && ItemOk(st, inp, offset, item)
    requires ExamineTcp(st.bufs[i], st.bufs[item.bufsIndex], info, item, offset) == DropIt
    ensures st.origin[item.bufsIndex] == [item.bufsIndex]
    ensures item.bufsIndex < |inp| && st.bufs[item.bufsIndex] == inp[item.bufsIndex]
    ensures Corrupt(inp, offset, item.bufsIndex)
  {
    hide Admit, ExamineTcp, TcpCanCoalesce, ItemInv, ItemShapes, ItemPayloads, ItemHeader, ItemSequence, ChecksumOk;
    ExamineParts(st.bufs[i], st.bufs[item.bufsIndex], info, item, offset);
    InvParts(item, st.bufs[item.bufsIndex], st.origin[item.bufsIndex], inp, offset);
    assert Member(inp, offset, item.key, item.HeaderLen(), st.origin[item.bufsIndex][0]);
  }

  /** A packet whose checksum fails is alone in its item. */
  lemma CorruptIsAlone(st: GroState, inp: seq<View>, offset: nat, item: GroItem, i: nat)
    requires ItemOk(st, inp, offset, item) && i in st.origin[item.bufsIndex] && Corrupt(inp, offset, i)
    ensures i == item.bufsIndex && st.origin[item.bufsIndex] == [i]
  {
    hide ItemShapes, ItemPayloads, ItemHeader, ItemSequence, Admit, Valid;
    var os := st.origin[item.bufsIndex];
    var m :| 0 <= m < |os| && os[m] == i;
    assert Member(inp, offset, item.key, item.HeaderLen(), i);
    assert os == [os[0]];
  }

  /** The packets in an item are among those looked at. */
  lemma EarlierOrigin(e: Endian, st: GroState, inp: seq<View>, offset: nat, n: nat, key: FlowKey, p: nat)
    requires Safe(st, offset) && PositionsOk(e, st, inp, offset, n) && PlacementOk(st)
    requires key in st.flows && p < |st.flows[key]|
    ensures
      var j := st.flows[key][p].bufsIndex;
      j < |st.origin| && forall m :: 0 <= m < |st.origin[j]| ==> st.origin[j][m] < n
  {
    HeldIndex(st, offset, key, p);
    hide Safe, WithHeader, Corrupt, HeldAt;
    var j := st.flows[key][p].bufsIndex;
    assert PositionOk(e, st, inp, offset, n, j);
    forall m | 0 <= m < |st.origin[j]|
      ensures st.origin[j][m] < n
    {
      assert Carries(st, j, m);
      assert PositionOk(e, st, inp, offset, n, st.origin[j][m]);
    }
  }

  lemma CapBound(st: GroState, inp: seq<View>, offset: nat, j: nat)
    requires BatchOk(inp, offset) && BackingOk(st, inp) && j < |st.bufs|
    ensures st.bufs[j].cap <= MAX_UINT16 + 2 * offset
  {
  }

  /** A packet is merged only when every check for it has passed. */
  lemma JoinCause(st: GroState, inp: seq<View>, info: Info, offset: nat, i: nat, item: GroItem, mode: CanCoalesce)
    requires |st.fate| == |st.bufs| == |st.origin| && Fresh(st, i, offset)
    requires Admit(st.bufs[i].bytes[offset..], true) == Some(info) && info.key.TcpKey?
    requires ItemSafe(st, offset, info.key, item) && ItemOk(st, inp, offset, item)
    requires i < |inp| && st.bufs[i] == inp[i] && BatchOk(inp, offset) && BackingOk(st, inp)
    requires forall m :: 0 <= m < |st.origin[item.bufsIndex]| ==> st.origin[item.bufsIndex][m] < i
    requires ExamineTcp(st.bufs[i], st.bufs[item.bufsIndex], info, item, offset) == Join(mode)
    ensures CanJoin(mode, item, st.bufs[item.bufsIndex], st.origin[item.bufsIndex], inp, i, info, offset)
    ensures offset + item.HeaderLen() <= |st.bufs[i].bytes|
  {
    hide Admit, ItemInv, TryCoalesce, TcpCanCoalesce, ExamineTcp, BatchOk, BackingOk;
    ExamineParts(st.bufs[i], st.bufs[item.bufsIndex], info, item, offset);
    CapBound(st, inp, offset, item.bufsIndex);
    CapBound(st, inp, offset, i);
  }

  lemma DropInv(e: Endian, st: GroState, inp: seq<View>, info: Info, offset: nat, canUDP: bool, i: nat, p: nat)
    requires Inv(e, st, inp, offset, canUDP, i) && Fresh(st, i, offset)
    requires Admit(st.bufs[i].bytes[offset..], true) == Some(info) && info.key.TcpKey?
    requires info.key in st.flows && p < |st.flows[info.key]| && ItemSafe(st, offset, info.key, st.flows[info.key][p])
    requires ExamineTcp(st.bufs[i], st.bufs[st.flows[info.key][p].bufsIndex], info, st.flows[info.key][p], offset)
         == DropIt
    ensures Inv(e, DropItem(st, info.key, p), inp, offset, canUDP, i)
  {
    hide FlowSafe, ItemOk, ItemInv, Admit, ExamineTcp, WithHeader, Corrupt, PositionsOk, StreamsOk, PlacementOk,
         BackingOk;
    var items := st.flows[info.key];
    var item := items[p];
    assert ItemOk(st, inp, offset, item);
    DropPositionsFor(e, st, inp, info, offset, canUDP, i, p);
    DropItems(st, inp, offset, info.key, p);
    DropSafe(st, offset, info.key, p);
    var st' := DropItem(st, info.key, p);
    HeldNotCoalesced(e, st, inp, offset, i, info.key, p);
    PlacementSame(st, st');
    BackingSame(st, st', inp);
    WrittenUnchanged(st.fate, st'.fate, i);
    FlowCount(st.flows, info.key, items[..p] + items[p + 1..]);
    DropStreams(st, inp, offset, canUDP, i, info.key, p);
  }

  lemma HeldNotCoalesced(e: Endian, st: GroState, inp: seq<View>, offset: nat, n: nat, key: FlowKey, p: nat)
    requires Safe(st, offset) && PositionsOk(e, st, inp, offset, n)
    requires key in st.flows && p < |st.flows[key]|
    ensures st.flows[key][p].bufsIndex < n && st.fate[st.flows[key][p].bufsIndex] == Held(key)
    ensures forall j :: 0 <= j < |st.fate| ==> Home(DropItem(st, key, p).fate, j) == Home(st.fate, j)
  {
    hide WithHeader, Corrupt;
    HeldIndex(st, offset, key, p);
    assert PositionOk(e, st, inp, offset, n, st.flows[key][p].bufsIndex);
  }

  lemma DropPositionsFor(e: Endian, st: GroState, inp: seq<View>, info: Info, offset: nat, canUDP: bool, i: nat, p: nat)
    requires Inv(e, st, inp, offset, canUDP, i) && Fresh(st, i, offset)
    requires Admit(st.bufs[i].bytes[offset..], true) == Some(info) && info.key.TcpKey?
    requires info.key in st.flows && p < |st.flows[info.key]| && ItemSafe(st, offset, info.key, st.flows[info.key][p])
    requires ExamineTcp(st.bufs[i], st.bufs[st.flows[info.key][p].bufsIndex], info, st.flows[info.key][p], offset)
         == DropIt
    ensures PositionsOk(e, DropItem(st, info.key, p), inp, offset, i)
  {
    hide FlowSafe, ItemOk, ItemInv, Admit, ExamineTcp, WithHeader, Corrupt, StreamsOk, PlacementOk, BackingOk,
         PositionOk;
    var item := st.flows[info.key][p];
    assert ItemOk(st, inp, offset, item);
    DropCause(st, inp, info, offset, i, item);
    DropPositions(e, st, inp, offset, i, info.key, p);
  }

  lemma DropStreams(st: GroState, inp: seq<View>, offset: nat, canUDP: bool, n: nat, key: FlowKey, p: nat)
    requires StreamsOk(st, inp, offset, canUDP, n) && key.TcpKey?
    requires key in st.flows && p < |st.flows[key]| && st.flows[key][p].bufsIndex < |st.fate|
    ensures StreamsOk(DropItem(st, key, p), inp, offset, canUDP, n)
  {
    var st' := DropItem(st, key, p);
    forall k: FlowKey | k.UdpKey?
      ensures StreamOk(st', inp, offset, canUDP, n, k)
    {
      assert StreamOk(st, inp, offset, canUDP, n, k);
      assert FlowItems(st', k) == FlowItems(st, k);
    }
  }

  /** The parts of the invariant that do not depend on the protocol, after packet i joined item p. */
  lemma MergeCommon(e: Endian, st: GroState, inp: seq<View>, info: Info, offset: nat, canUDP: bool, i: nat, p: nat,
                    mode: CanCoalesce)
    requires Inv(e, st, inp, offset, canUDP, i) && i < |inp| && Fresh(st, i, offset)
    requires st.bufs[i] == inp[i] && st.origin[i] == [i]
    requires info.key in st.flows && p < |st.flows[info.key]| && ItemSafe(st, offset, info.key, st.flows[info.key][p])
    requires var item := st.flows[info.key][p];
      CanJoin(mode, item, st.bufs[item.bufsIndex], st.origin[item.bufsIndex], inp, i, info, offset)
    requires offset + st.flows[info.key][p].HeaderLen() <= |st.bufs[i].bytes| && mode != Unavailable
    requires StreamsOk(MergeInto(st, i, info, p, mode, offset), inp, offset, canUDP, i + 1)
    ensures Inv(e, MergeInto(st, i, info, p, mode, offset), inp, offset, canUDP, i + 1)
  {
    hide CanJoin, FlowSafe, ItemsOk, StreamsOk, PlacementOk, BackingOk, PositionOk, MergedView, MergedItem;
    MergeSafe(st, i, info, p, mode, offset);
    MergePositions(e, st, inp, info, offset, i, p, mode);
    MergeItems(st, inp, info, offset, i, p, mode);
    MergePlacement(e, st, inp, info, offset, i, p, mode);
    var st' := MergeInto(st, i, info, p, mode, offset);
    WrittenUnchanged(st.fate, st'.fate, i);
    FlowCount(st.flows, info.key, st'.flows[info.key]);
  }

  lemma MergePlacement(e: Endian, st: GroState, inp: seq<View>, info: Info, offset: nat, i: nat, p: nat,
                       mode: CanCoalesce)
    requires Safe(st, offset) && PositionsOk(e, st, inp, offset, i) && PlacementOk(st) && BackingOk(st, inp)
    requires i < |inp| && Fresh(st, i, offset) && st.origin[i] == [i]
    requires info.key in st.flows && p < |st.flows[info.key]| && ItemSafe(st, offset, info.key, st.flows[info.key][p])
    requires offset + st.flows[info.key][p].HeaderLen() <= |st.bufs[i].bytes| && mode != Unavailable
    ensures PlacementOk(MergeInto(st, i, info, p, mode, offset))
    ensures BackingOk(MergeInto(st, i, info, p, mode, offset), inp)
  {
    hide FlowSafe, WithHeader, Corrupt, HeldAt, MergedItem;
    var st' := MergeInto(st, i, info, p, mode, offset);
    var item := st.flows[info.key][p];
    var j := item.bufsIndex;
    var merged := MergedView(mode, st.bufs[i], info, item, st.bufs[j], offset);
    var src := if mode == Prepend then st.bufs[i] else st.bufs[j];
    assert merged.id == src.id && merged.cap == src.cap;
    hide MergedView, PlacementOk, BackingOk;
    BackingSwaps(st, st', inp, i, j, merged, mode);
    assert Moves(st, st', i, j, mode);
    PlacementMoves(st, st', i, j, mode);
  }

  lemma TcpMergeStreams(st: GroState, inp: seq<View>, info: Info, offset: nat, canUDP: bool, i: nat, p: nat,
                        mode: CanCoalesce)
    requires Safe(st, offset) && Fresh(st, i, offset) && StreamsOk(st, inp, offset, canUDP, i)
    requires i < |inp| && info.key.TcpKey?
    requires forall key: FlowKey :: key.UdpKey? ==> !Arrives(inp, offset, canUDP, key, i)
    requires info.key in st.flows && p < |st.flows[info.key]| && ItemSafe(st, offset, info.key, st.flows[info.key][p])
    requires offset + st.flows[info.key][p].HeaderLen() <= |st.bufs[i].bytes|
    ensures StreamsOk(MergeInto(st, i, info, p, mode, offset), inp, offset, canUDP, i + 1)
  {
    hide MergedView, MergedItem, FlowSafe, Arrives, StreamOk;
    StreamsSkip(st, MergeInto(st, i, info, p, mode, offset), inp, offset, canUDP, i);
  }

  /** What joining the last item of a flow does to the flows and to who carries which packet. */
  lemma MergeLast(st: GroState, i: nat, info: Info, offset: nat)
    requires Safe(st, offset) && i < |st.bufs| && info.key in st.flows && |st.flows[info.key]| > 0
    requires var p := |st.flows[info.key]| - 1;
      ItemSafe(st, offset, info.key, st.flows[info.key][p])
      && offset + st.flows[info.key][p].HeaderLen() <= |st.bufs[i].bytes|
    ensures
      var items := FlowItems(st, info.key);
      var p := |items| - 1;
      var item' := MergedItem(Append, info, items[p]);
      var st' := MergeInto(st, i, info, p, Append, offset);
      && FlowItems(st', info.key) == items[p := item']
      && (forall key :: key != info.key ==> FlowItems(st', key) == FlowItems(st, key))
      && item'.bufsIndex == items[p].bufsIndex < |st.origin|
      && st'.origin == st.origin[item'.bufsIndex := st.origin[item'.bufsIndex] + st.origin[i]][i := []]
  {
    hide FlowSafe, MergedItem, MergedBufs;
  }

  lemma UdpMergeStreams(st: GroState, inp: seq<View>, info: Info, offset: nat, canUDP: bool, i: nat)
    requires Safe(st, offset) && Fresh(st, i, offset) && StreamsOk(st, inp, offset, canUDP, i)
    requires i < |inp| && info.key.UdpKey? && st.origin[i] == [i] && |st.bufs| == |inp|
    requires offset <= |inp[i].bytes| && Admit(Pkt(inp[i], offset), canUDP) == Some(info)
    requires info.key in st.flows && |st.flows[info.key]| > 0
    requires var p := |st.flows[info.key]| - 1;
      ItemSafe(st, offset, info.key, st.flows[info.key][p])
      && offset + st.flows[info.key][p].HeaderLen() <= |st.bufs[i].bytes|
    ensures StreamsOk(MergeInto(st, i, info, |st.flows[info.key]| - 1, Append, offset), inp, offset, canUDP, i + 1)
  {
    hide Safe, Fresh, Admit, MergeInto, MergedItem, ItemSafe, Arrives, StreamOk;
    var p := |st.flows[info.key]| - 1;
    PendingAt(st, i, offset);
    MergeLast(st, i, info, offset);
    var st' := MergeInto(st, i, info, p, Append, offset);
    OneArrival(inp, offset, canUDP, i, info);
    forall key: FlowKey | key.UdpKey?
      ensures StreamOk(st', inp, offset, canUDP, i + 1, key)
    {
      assert StreamOk(st, inp, offset, canUDP, i, key);
      FlowIndices(st, offset, key);
      if key == info.key {
        StreamAppends(st, st', inp, offset, canUDP, i, key, MergedItem(Append, info, st.flows[info.key][p]));
      } else {
        FlowIndices(st, offset, info.key);
        StreamSkips(st, st', inp, offset, canUDP, i, key);
      }
    }
  }

  lemma PendingAt(st: GroState, i: nat, offset: nat)
    requires Safe(st, offset) && Fresh(st, i, offset)
    ensures i < |st.fate| == |st.origin| == |st.bufs| && st.fate[i] == Pending
  {
    hide FlowSafe;
  }

  lemma OneArrival(inp: seq<View>, offset: nat, canUDP: bool, i: nat, info: Info)
    requires i < |inp| && offset <= |inp[i].bytes| && Admit(Pkt(inp[i], offset), canUDP) == Some(info)
    ensures forall key :: Arrives(inp, offset, canUDP, key, i) <==> key == info.key
  {
    hide Admit;
  }

  /** Whatever the scan of a TCP flow decides, the invariant holds afterwards. */
  lemma {:induction false} ScanInv(e: Endian, st: GroState, inp: seq<View>, info: Info, offset: nat, canUDP: bool,
                                   i: nat, n: nat)
    requires Inv(e, st, inp, offset, canUDP, i) && i < |inp| && Fresh(st, i, offset) && BatchOk(inp, offset)
    requires st.bufs[i] == inp[i] && st.origin[i] == [i]
    requires Admit(st.bufs[i].bytes[offset..], true) == Some(info) && info.key.TcpKey?
    requires Admit(Pkt(inp[i], offset), canUDP) == Some(info)
    requires info.key in st.flows && n <= |st.flows[info.key]|
    ensures Inv(e, TcpScan(e, st, i, info, n, offset), inp, offset, canUDP, i + 1)
    decreases n
  {
    hide FlowSafe, ItemOk, ItemInv, Admit, ExamineTcp, PositionsOk, StreamsOk, PlacementOk, BackingOk, BatchOk, CanJoin;
    if n == 0 {
      InsertInv(e, st, inp, info, false, offset, canUDP, i);
    } else {
      var item := st.flows[info.key][n - 1];
      HeldIndex(st, offset, info.key, n - 1);
      assert ItemOk(st, inp, offset, item);
      NoUdpArrival(inp, offset, canUDP, i);
      match ExamineTcp(st.bufs[i], st.bufs[item.bufsIndex], info, item, offset)
      case Skip => ScanInv(e, st, inp, info, offset, canUDP, i, n - 1);
      case DropIt =>
        DropInv(e, st, inp, info, offset, canUDP, i, n - 1);
        DropSafe(st, offset, info.key, n - 1);
        ScanInv(e, DropItem(st, info.key, n - 1), inp, info, offset, canUDP, i, n - 1);
      case Reject => LeaveAloneInv(e, st, inp, offset, canUDP, i);
      case Join(mode) =>
        EarlierOrigin(e, st, inp, offset, i, info.key, n - 1);
        JoinCause(st, inp, info, offset, i, item, mode);
        JoinModes(mode, item, st.bufs[item.bufsIndex], st.origin[item.bufsIndex], inp, i, info, offset);
        TcpMergeStreams(st, inp, info, offset, canUDP, i, n - 1, mode);
        MergeCommon(e, st, inp, info, offset, canUDP, i, n - 1, mode);
    }
  }

  lemma UdpJoinCause(st: GroState, inp: seq<View>, info: Info, offset: nat, i: nat, item: GroItem)
    requires |st.fate| == |st.bufs| == |st.origin| && Fresh(st, i, offset)
    requires Admit(st.bufs[i].bytes[offset..], true) == Some(info) && info.key.UdpKey?
    requires ItemSafe(st, offset, info.key, item) && ItemOk(st, inp, offset, item)
    requires i < |inp| && st.bufs[i] == inp[i] && BatchOk(inp, offset) && BackingOk(st, inp)
    requires forall m :: 0 <= m < |st.origin[item.bufsIndex]| ==> st.origin[item.bufsIndex][m] < i
    requires item.iphLen == info.iphLen && offset + item.HeaderLen() <= |st.bufs[i].bytes|
    requires UdpCanCoalesce(Pkt(inp[i], offset), info, item, Pkt(st.bufs[item.bufsIndex], offset)) == Append
    ensures TryCoalesce(Append, st.bufs[i], info, item, st.bufs[item.bufsIndex], offset) == Success ==>
      CanJoin(Append, item, st.bufs[item.bufsIndex], st.origin[item.bufsIndex], inp, i, info, offset)
    ensures TryCoalesce(Append, st.bufs[i], info, item, st.bufs[item.bufsIndex], offset) == PktInvalidCsum ==>
      Member(inp, offset, info.key, info.headerLen, i) && !Valid(inp, offset, info.key, info.headerLen, i)
  {
    hide Admit, ItemInv, UdpCanCoalesce, BatchOk, BackingOk, ChecksumOk;
    AdmitFacts(st.bufs[i].bytes[offset..], true);
    CapBound(st, inp, offset, item.bufsIndex);
    CapBound(st, inp, offset, i);
    assert Member(inp, offset, info.key, info.headerLen, i);
  }

  /** The last item of a UDP flow exists and is in order. */
  lemma UdpLast(e: Endian, st: GroState, inp: seq<View>, info: Info, offset: nat, canUDP: bool, i: nat)
    requires Inv(e, st, inp, offset, canUDP, i) && info.key.UdpKey? && info.key in st.flows
    ensures Safe(st, offset) && BackingOk(st, inp) && |st.fate| == |st.bufs| == |st.origin|
    ensures |st.flows[info.key]| > 0
    ensures var item := st.flows[info.key][|st.flows[info.key]| - 1];
      ItemSafe(st, offset, info.key, item) && ItemOk(st, inp, offset, item)
  {
    hide ItemOk, PositionsOk, StreamsOk, PlacementOk, BackingOk;
    assert FlowSafe(st, offset, info.key);
    HeldIndex(st, offset, info.key, |st.flows[info.key]| - 1);
  }

  lemma UdpMergeInv(e: Endian, st: GroState, inp: seq<View>, info: Info, offset: nat, canUDP: bool, i: nat)
    requires Inv(e, st, inp, offset, canUDP, i) && i < |inp| && Fresh(st, i, offset)
    requires st.bufs[i] == inp[i] && st.origin[i] == [i] && |st.bufs| == |inp|
    requires info.key.UdpKey? && Admit(Pkt(inp[i], offset), canUDP) == Some(info)
    requires info.key in st.flows && |st.flows[info.key]| > 0
    requires var item := st.flows[info.key][|st.flows[info.key]| - 1];
      && ItemSafe(st, offset, info.key, item)
      && offset + item.HeaderLen() <= |st.bufs[i].bytes|
      && CanJoin(Append, item, st.bufs[item.bufsIndex], st.origin[item.bufsIndex], inp, i, info, offset)
    ensures Inv(e, MergeInto(st, i, info, |st.flows[info.key]| - 1, Append, offset), inp, offset, canUDP, i + 1)
  {
    hide Safe, ItemsOk, PositionsOk, StreamsOk, PlacementOk, BackingOk, CanJoin, Admit, MergeInto;
    UdpMergeStreams(st, inp, info, offset, canUDP, i);
    MergeCommon(e, st, inp, info, offset, canUDP, i, |st.flows[info.key]| - 1, Append);
  }

  /** A datagram that may follow the last item of its flow is appended to it, or becomes an item of its own. */
  lemma UdpFollowInv(e: Endian, st: GroState, inp: seq<View>, info: Info, offset: nat, canUDP: bool, i: nat,
                     item: GroItem)
    requires Inv(e, st, inp, offset, canUDP, i) && i < |inp| && Fresh(st, i, offset) && BatchOk(inp, offset)
    requires st.bufs[i] == inp[i] && st.origin[i] == [i]
    requires Admit(st.bufs[i].bytes[offset..], true) == Some(info) && Admit(Pkt(inp[i], offset), canUDP) == Some(info)
    requires info.key.UdpKey? && info.key in st.flows && |st.flows[info.key]| > 0
    requires item == st.flows[info.key][|st.flows[info.key]| - 1] && ItemSafe(st, offset, info.key, item)
    requires item.iphLen == info.iphLen && offset + item.HeaderLen() <= |st.bufs[i].bytes|
    requires UdpCanCoalesce(Pkt(inp[i], offset), info, item, Pkt(st.bufs[item.bufsIndex], offset)) == Append
    ensures var result := TryCoalesce(Append, st.bufs[i], info, item, st.bufs[item.bufsIndex], offset);
      && (result == Success ==>
            Inv(e, MergeInto(st, i, info, |st.flows[info.key]| - 1, Append, offset), inp, offset, canUDP, i + 1))
      && (result == PktInvalidCsum ==> Inv(e, Insert(st, i, info, true, offset), inp, offset, canUDP, i + 1))
  {
    hide ItemOk, Admit, BackingOk, BatchOk, CanJoin, Valid, Member, UdpCanCoalesce, TryCoalesce, Insert, MergeInto,
         Safe;
    UdpLast(e, st, inp, info, offset, canUDP, i);
    EarlierOrigin(e, st, inp, offset, i, info.key, |st.flows[info.key]| - 1);
    UdpJoinCause(st, inp, info, offset, i, item);
    InvSafe(e, st, inp, offset, canUDP, i);
    hide Inv;
    match TryCoalesce(Append, st.bufs[i], info, item, st.bufs[item.bufsIndex], offset)
    case Success => UdpMergeInv(e, st, inp, info, offset, canUDP, i);
    case PktInvalidCsum => InsertInv(e, st, inp, info, true, offset, canUDP, i);
    case _ =>
  }

  lemma UdpStepInv(e: Endian, st: GroState, inp: seq<View>, info: Info, offset: nat, canUDP: bool, i: nat)
    requires Safe(st, offset)
    requires Inv(e, st, inp, offset, canUDP, i) && i < |inp| && Fresh(st, i, offset) && BatchOk(inp, offset)
    requires st.bufs[i] == inp[i] && st.origin[i] == [i]
    requires Admit(st.bufs[i].bytes[offset..], true) == Some(info) && info.key.UdpKey?
    requires Admit(Pkt(inp[i], offset), canUDP) == Some(info)
    ensures Inv(e, UdpStep(st, i, info, offset), inp, offset, canUDP, i + 1)
  {
    hide Inv, ItemOk, Admit, BackingOk, BatchOk, UdpCanCoalesce, TryCoalesce, Insert, MergeInto, Safe;
    InsertInv(e, st, inp, info, false, offset, canUDP, i);
    if info.key in st.flows {
      UdpLast(e, st, inp, info, offset, canUDP, i);
      var item := st.flows[info.key][|st.flows[info.key]| - 1];
      UdpBounds(st.bufs[i], info, item, offset);
      if UdpCanCoalesce(Pkt(inp[i], offset), info, item, Pkt(st.bufs[item.bufsIndex], offset)) == Append {
        UdpFollowInv(e, st, inp, info, offset, canUDP, i, item);
      }
    }
  }

  lemma UdpBounds(v: View, info: Info, item: GroItem, offset: nat)
    requires offset <= |v.bytes| && Admit(v.bytes[offset..], true) == Some(info) && info.key.UdpKey?
    requires item.UdpItem? && item.iphLen == MinIpHeader(info.key.isV6)
    ensures item.iphLen == info.iphLen && offset + item.HeaderLen() <= |v.bytes|
  {
    AdmitFacts(v.bytes[offset..], true);
  }

  lemma InvSafe(e: Endian, st: GroState, inp: seq<View>, offset: nat, canUDP: bool, n: nat)
    requires Inv(e, st, inp, offset, canUDP, n)
    ensures Safe(st, offset) && |st.bufs| == |inp|
  {
    hide Safe, ItemsOk, StreamsOk, PlacementOk, BackingOk;
  }

  /** One packet more: the invariant of the batch is kept by every step of handleGRO. */
  lemma StepInv(e: Endian, st: GroState, inp: seq<View>, offset: nat, canUDP: bool, i: nat)
    requires Inv(e, st, inp, offset, canUDP, i) && BatchOk(inp, offset)
    requires i < |inp| && HDR_LEN <= offset < |inp[i].bytes|
    ensures Safe(st, offset) && Fresh(st, i, offset)
    ensures Inv(e, Step(e, st, i, offset, canUDP), inp, offset, canUDP, i + 1)
  {
    hide PositionsOk, ItemsOk, StreamsOk, PlacementOk, BackingOk, BatchOk, FlowSafe, TcpScan, UdpStep, Insert,
         LeaveAlone;
    NextPacket(e, st, inp, offset, canUDP, i);
    var pkt := Pkt(inp[i], offset);
    AdmitFacts(pkt, canUDP);
    var admitted := Admit(pkt, canUDP);
    hide Admit;
    if admitted.None? {
      LeaveAloneInv(e, st, inp, offset, canUDP, i);
    } else {
      var info := admitted.value;
      if info.key.UdpKey? {
        UdpStepInv(e, st, inp, info, offset, canUDP, i);
      } else if info.key !in st.flows {
        InsertInv(e, st, inp, info, false, offset, canUDP, i);
      } else {
        ScanInv(e, st, inp, info, offset, canUDP, i, |st.flows[info.key]|);
      }
    }
  }

  /**
   The whole loop: it ends with the invariant after every packet, or stops at the
   first packet too short for the offset with the invariant for those before it.
   */
  lemma {:induction false} LoopInv(e: Endian, st: GroState, inp: seq<View>, offset: nat, canUDP: bool, i: nat)
    requires Inv(e, st, inp, offset, canUDP, i) && BatchOk(inp, offset) && i <= |inp|
    ensures i <= |st.bufs| == |inp| && Safe(st, offset) && forall j :: i <= j < |st.fate| ==> st.fate[j] == Pending
    ensures
      var (st', ok) := GroLoop(e, st, i, offset, canUDP);
      && (ok ==> Inv(e, st', inp, offset, canUDP, |inp|))
      && (ok <==> (i < |inp| ==> offset >= HDR_LEN) && forall j :: i <= j < |inp| ==> offset < |inp[j].bytes|)
      && (!ok ==> exists n :: i <= n < |inp| && Inv(e, st', inp, offset, canUDP, n)
                              && (offset < HDR_LEN || offset >= |inp[n].bytes|))
    decreases |inp| - i
  {
    hide ItemsOk, StreamsOk, PlacementOk, BackingOk, BatchOk, FlowSafe, Step, WithHeader, Corrupt;
    forall j | i <= j < |st.fate|
      ensures st.fate[j] == Pending && st.bufs[j] == inp[j]
    {
      assert PositionOk(e, st, inp, offset, i, j);
    }
    if i < |inp| && HDR_LEN <= offset < |inp[i].bytes| {
      StepInv(e, st, inp, offset, canUDP, i);
      LoopInv(e, Step(e, st, i, offset, canUDP), inp, offset, canUDP, i + 1);
    }
  }
}
