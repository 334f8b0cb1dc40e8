/**
 The invariant of handleGRO over a whole batch: what became of every packet,
 which packets each buffer carries, and that every item keeps its own invariant.
 inp is the batch as it came in, and n packets have been looked at.
 */
module Batch {
  import opened InternetChecksum
  import opened Packets
  import opened Virtio
  import opened Gro
  import opened Coalescing

  /**
   What the code relies on without checking: at most 128 packets, each in a
   backing array of its own, and no capacity that would let a coalesced packet
   outgrow a 16-bit length.
   */
  ghost predicate BatchOk(inp: seq<View>, offset: nat) {
    && |inp| <= IDEAL_BATCH_SIZE
    && forall i :: 0 <= i < |inp| ==> inp[i].id == i && inp[i].cap <= MAX_UINT16 + 2 * offset
  }

  function Initial(inp: seq<View>): GroState {
    GroState(inp, map[], [], seq(|inp|, _ => Pending), seq(|inp|, j requires 0 <= j < |inp| => [j]))
  }

  ghost predicate HeldAt(st: GroState, key: FlowKey, j: nat) {
    key in st.flows && exists p :: 0 <= p < |st.flows[key]| && st.flows[key][p].bufsIndex == j
  }

  /** Packet j was admitted to a flow although its transport checksum does not verify. */
  ghost predicate Corrupt(inp: seq<View>, offset: nat, j: nat) {
    && j < |inp| && offset <= |inp[j].bytes| && Admit(Pkt(inp[j], offset), true).Some?
    && var info := Admit(Pkt(inp[j], offset), true).value;
    Member(inp, offset, info.key, info.headerLen, j) && !Valid(inp, offset, info.key, info.headerLen, j)
  }

  /** What buffer j holds, by the fate of packet j. */
  ghost predicate PositionOk(e: Endian, st: GroState, inp: seq<View>, offset: nat, n: nat, j: nat)
    requires |st.bufs| == |st.fate| == |st.origin| == |inp| && j < |inp|
  {
    match st.fate[j]
    case Pending => j >= n && st.bufs[j] == inp[j] && st.origin[j] == [j]
    case Noop =>
      && j < n && st.origin[j] == [j] && HDR_LEN <= offset <= |inp[j].bytes|
      && st.bufs[j] == inp[j].(bytes := WithHeader(inp[j].bytes, offset, Encode(e, ZERO)))
    case Held(key) => j < n && HeldAt(st, key, j)
    case Dropped => j < n && st.origin[j] == [j] && st.bufs[j] == inp[j] && Corrupt(inp, offset, j)
    case Coalesced(into) => j < n && st.origin[j] == [] && into < |st.fate| && st.fate[into].Held?
  }

  ghost predicate PositionsOk(e: Endian, st: GroState, inp: seq<View>, offset: nat, n: nat) {
    && |st.bufs| == |st.fate| == |st.origin| == |inp| && n <= |inp|
    && forall j :: 0 <= j < |inp| ==> PositionOk(e, st, inp, offset, n, j)
  }

  ghost predicate ItemOk(st: GroState, inp: seq<View>, offset: nat, item: GroItem) {
    && item.bufsIndex < |st.bufs| == |st.origin|
    && ItemInv(item, st.bufs[item.bufsIndex], st.origin[item.bufsIndex], inp, offset)
  }

  ghost predicate ItemsOk(st: GroState, inp: seq<View>, offset: nat) {
    forall key, p :: key in st.flows && 0 <= p < |st.flows[key]| ==> ItemOk(st, inp, offset, st.flows[key][p])
  }

  /** The buffer that carries packet i. */
  function Home(fate: seq<Fate>, i: nat): nat
    requires i < |fate|
  {
    if fate[i].Coalesced? then fate[i].into else i
  }

  ghost predicate Carries(st: GroState, j: nat, m: nat)
    requires j < |st.origin| && m < |st.origin[j]|
  {
    st.origin[j][m] < |st.fate| && Home(st.fate, st.origin[j][m]) == j
  }

  /** Every packet is carried by exactly one buffer, in exactly one place. */
  ghost predicate PlacementOk(st: GroState) {
    && |st.fate| == |st.origin|
    && (forall i :: 0 <= i < |st.fate| ==> Home(st.fate, i) < |st.origin| && i in st.origin[Home(st.fate, i)])
    && (forall j, m :: 0 <= j < |st.origin| && 0 <= m < |st.origin[j]| ==> Carries(st, j, m))
    && (forall j, m, q :: 0 <= j < |st.origin| && 0 <= m < q < |st.origin[j]| ==> st.origin[j][m] != st.origin[j][q])
  }

  /** The buffers are a permutation of the backing arrays of the batch. */
  ghost predicate BackingOk(st: GroState, inp: seq<View>) {
    && |st.bufs| == |inp|
    && (forall j :: 0 <= j < |inp| ==> st.bufs[j].id < |inp| && st.bufs[j].cap == inp[st.bufs[j].id].cap)
    && (forall j, k :: 0 <= j < k < |inp| ==> st.bufs[j].id != st.bufs[k].id)
  }

  /** The indices of the packets looked at that were not coalesced into another, in order. */
  function Written(fate: seq<Fate>, n: nat): seq<nat>
    requires n <= |fate|
  {
    if n == 0 then [] else Written(fate, n - 1) + if fate[n - 1].Coalesced? then [] else [n - 1]
  }

  /** The packets of a flow in the order its items carry them. */
  function Stream(items: seq<GroItem>, origin: seq<seq<nat>>): seq<nat> {
    if |items| == 0 then []
    else
      Stream(items[..|items| - 1], origin)
      + if items[|items| - 1].bufsIndex < |origin| then origin[items[|items| - 1].bufsIndex] else []
  }

  predicate Arrives(inp: seq<View>, offset: nat, canUDP: bool, key: FlowKey, i: nat)
    requires i < |inp|
  {
    && offset <= |inp[i].bytes|
    && Admit(Pkt(inp[i], offset), canUDP).Some?
    && Admit(Pkt(inp[i], offset), canUDP).value.key == key
  }

  /** The packets admitted to a flow among the first n of the batch, in order of arrival. */
  function Arrivals(inp: seq<View>, offset: nat, canUDP: bool, key: FlowKey, n: nat): seq<nat>
    requires n <= |inp|
  {
    if n == 0 then []
    else Arrivals(inp, offset, canUDP, key, n - 1) + if Arrives(inp, offset, canUDP, key, n - 1) then [n - 1] else []
  }

  /** A UDP flow carries exactly the datagrams admitted to it, in order of arrival. */
  ghost predicate StreamOk(st: GroState, inp: seq<View>, offset: nat, canUDP: bool, n: nat, key: FlowKey)
    requires n <= |inp|
  {
    Stream(FlowItems(st, key), st.origin) == Arrivals(inp, offset, canUDP, key, n)
  }

  ghost predicate StreamsOk(st: GroState, inp: seq<View>, offset: nat, canUDP: bool, n: nat) {
    n <= |inp| && forall key: FlowKey :: key.UdpKey? ==> StreamOk(st, inp, offset, canUDP, n, key)
  }

  ghost predicate Inv(e: Endian, st: GroState, inp: seq<View>, offset: nat, canUDP: bool, n: nat) {
    && Safe(st, offset)
    && PositionsOk(e, st, inp, offset, n)
    && ItemsOk(st, inp, offset)
    && PlacementOk(st)
    && BackingOk(st, inp)
    && st.toWrite == Written(st.fate, n)
    && StreamsOk(st, inp, offset, canUDP, n)
    && |st.flows| <= n
  }

  lemma InitialInv(e: Endian, inp: seq<View>, offset: nat, canUDP: bool)
    requires BatchOk(inp, offset)
    ensures Inv(e, Initial(inp), inp, offset, canUDP, 0)
  {
  }

  lemma {:induction false} WrittenUnchanged(fate: seq<Fate>, fate': seq<Fate>, n: nat)
    requires n <= |fate| <= |fate'|
    requires forall j :: 0 <= j < n ==> (fate[j].Coalesced? <==> fate'[j].Coalesced?)
    ensures Written(fate, n) == Written(fate', n)
  {
    if n > 0 {
      WrittenUnchanged(fate, fate', n - 1);
    }
  }

  lemma {:induction false} StreamUnchanged(items: seq<GroItem>, origin: seq<seq<nat>>, origin': seq<seq<nat>>)
    requires |origin| == |origin'|
    requires forall p :: 0 <= p < |items| && items[p].bufsIndex < |origin| ==>
      origin[items[p].bufsIndex] == origin'[items[p].bufsIndex]
    ensures Stream(items, origin) == Stream(items, origin')
  {
    if |items| > 0 {
      StreamUnchanged(items[..|items| - 1], origin, origin');
    }
  }
}
