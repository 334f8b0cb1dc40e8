/** Batches on which the write side does less than one would expect of it. */
module Counterexamples {
  import opened Bytes
  import opened OnesComplement
  import opened InternetChecksum
  import opened Packets
  import opened Virtio
  import opened Gro
  import opened Batch
  import opened Accounting
  import opened Writer
  import opened Handler
  import opened RoundTrip
  import opened GroTheorems

  /** A TCP/IPv4 packet with one byte of payload and zeros wherever the code does not look at a value. */
  function Tiny(sent: byte, flags: byte, csumHigh: byte, csumLow: byte): (r: seq<byte>)
    ensures |r| == 41
  {
    seq(41, k requires 0 <= k < 41 => TinyByte(k, sent, flags, csumHigh, csumLow))
  }

  function TinyByte(k: nat, sent: byte, flags: byte, csumHigh: byte, csumLow: byte): byte {
    match k
    case 0 => 0x45
    case 3 => 41
    case 8 => 64
    case 9 => PROTO_TCP
    case 27 => sent
    case 32 => 0x50
    case 33 => flags
    case 36 => csumHigh
    case 37 => csumLow
    case _ => 0
  }

  const NO_ADDR: seq<byte> := [0, 0, 0, 0]

  function TinyInfo(sent: byte, flags: byte): Info {
    Info(TcpKey(false, NO_ADDR, NO_ADDR, 0, 0, 0), 20, 40, 1, sent, flags != FLAG_ACK)
  }

  lemma TinyFields(sent: byte, flags: byte, csumHigh: byte, csumLow: byte)
    ensures
      var pkt := Tiny(sent, flags, csumHigh, csumLow);
      && pkt[0] == 0x45 && Get16(pkt, 2) == 41 && pkt[6] == 0 && pkt[7] == 0 && pkt[9] == PROTO_TCP
      && pkt[32] == 0x50 && pkt[33] == flags && Get32(pkt, 24) == sent
      && Get16(pkt, 20) == 0 && Get16(pkt, 22) == 0 && Get32(pkt, 28) == 0
      && SrcAddr(pkt, false) == NO_ADDR && DstAddr(pkt, false) == NO_ADDR
  {
    var pkt := Tiny(sent, flags, csumHigh, csumLow);
    assert pkt[12] == 0 && pkt[13] == 0 && pkt[14] == 0 && pkt[15] == 0;
    assert pkt[16] == 0 && pkt[17] == 0 && pkt[18] == 0 && pkt[19] == 0;
  }

  lemma TinyAdmitted(sent: byte, flags: byte, csumHigh: byte, csumLow: byte, canUDP: bool)
    requires flags == FLAG_ACK || flags == FLAG_ACK_PSH
    ensures Admit(Tiny(sent, flags, csumHigh, csumLow), canUDP) == Some(TinyInfo(sent, flags))
  {
    var pkt := Tiny(sent, flags, csumHigh, csumLow);
    TinyFields(sent, flags, csumHigh, csumLow);
    hide Tiny;
  }

  lemma TwoWords(a: byte, b: byte, c: byte, d: byte)
    ensures WordSum([a, b, c, d]) == 256 * (a + c) + b + d
  {
    var s := [a, b, c, d];
    assert s[2..] == [c, d] && s[2..][2..] == [];
    assert WordSum(s) == Get16(s, 0) + WordSum(s[2..]);
    assert WordSum(s[2..]) == Get16(s[2..], 0) + WordSum(s[2..][2..]);
  }

  lemma TinySum(sent: byte, flags: byte, csumHigh: byte, csumLow: byte)
    ensures WordSum(Tiny(sent, flags, csumHigh, csumLow)[20..])
         == 256 * (0x50 + csumHigh as int) + sent as int + flags as int + csumLow as int
  {
    var t := Tiny(sent, flags, csumHigh, csumLow)[20..];
    var a, b, c, d := [0, 0, 0, 0], [0, 0, 0, sent], [0x50, flags, 0, 0], [csumHigh, csumLow, 0, 0];
    assert t == a + (b + (a + (c + (d + [0]))));
    TwoWords(0, 0, 0, 0);
    TwoWords(0, 0, 0, sent);
    TwoWords(0x50, flags, 0, 0);
    TwoWords(csumHigh, csumLow, 0, 0);
    hide WordSum;
    WordSumConcat(a, b + (a + (c + (d + [0]))));
    WordSumConcat(b, a + (c + (d + [0])));
    WordSumConcat(a, c + (d + [0]));
    WordSumConcat(c, d + [0]);
    WordSumConcat(d, [0]);
    OneByte();
  }

  lemma OneByte()
    ensures WordSum([0]) == 0
  {
  }

  lemma TinyChecksum(sent: byte, flags: byte, csumHigh: byte, csumLow: byte)
    ensures ChecksumOk(Tiny(sent, flags, csumHigh, csumLow), 20, PROTO_TCP, false)
      <==> Norm(27 + 256 * (0x50 + csumHigh as int) + sent as int + flags as int + csumLow as int) == 65535
  {
    TinyFields(sent, flags, csumHigh, csumLow);
    TinySum(sent, flags, csumHigh, csumLow);
    TwoWords(0, 0, 0, 0);
    hide Tiny, WordSum, Norm;
  }

  const OFFSET := 10
  const STALE: seq<byte> := [1, 1, 1, 1, 1, 1, 1, 1, 1, 1]

  /** Two packets behind bytes left over from an earlier use of their buffers. */
  function Pair(a: seq<byte>, b: seq<byte>): (r: seq<View>)
    ensures |r| == 2
  {
    [View(0, 200, STALE + a), View(1, 200, STALE + b)]
  }

  const KEY := TcpKey(false, NO_ADDR, NO_ADDR, 0, 0, 0)

  function FirstItem(sent: byte, flags: byte): GroItem {
    TcpItem(KEY, 0, 0, 1, 20, sent, 20, flags == FLAG_ACK_PSH)
  }

  lemma TinyItem(sent: byte, flags: byte, csumHigh: byte, csumLow: byte)
    requires flags == FLAG_ACK || flags == FLAG_ACK_PSH
    ensures NewItem(Tiny(sent, flags, csumHigh, csumLow), TinyInfo(sent, flags), 0, false) == FirstItem(sent, flags)
    ensures TinyInfo(sent, flags).key == FirstItem(sent, flags).key == KEY
  {
    TinyFields(sent, flags, csumHigh, csumLow);
    hide Tiny;
  }

  /** The first packet of a pair becomes an item. */
  lemma FirstStep(e: Endian, sent: byte, flags: byte, csumHigh: byte, csumLow: byte, b: seq<byte>)
    requires flags == FLAG_ACK || flags == FLAG_ACK_PSH
    ensures
      var inp := Pair(Tiny(sent, flags, csumHigh, csumLow), b);
      && Safe(Initial(inp), OFFSET) && Fresh(Initial(inp), 0, OFFSET)
      && Step(e, Initial(inp), 0, OFFSET, true)
         == GroState(inp, map[KEY := [FirstItem(sent, flags)]], [0], [Held(KEY), Pending], [[0], [1]])
  {
    var a := Tiny(sent, flags, csumHigh, csumLow);
    var inp := Pair(a, b);
    assert inp[0].bytes[OFFSET..] == a;
    TinyAdmitted(sent, flags, csumHigh, csumLow, true);
    TinyFields(sent, flags, csumHigh, csumLow);
    TinyItem(sent, flags, csumHigh, csumLow);
    hide Tiny, Admit, Classify, UdpStep, TcpScan, LeaveAlone, NewItem, FirstItem, TinyInfo;
    assert [] + [FirstItem(sent, flags)] == [FirstItem(sent, flags)];
    assert Initial(inp).fate[0 := Held(KEY)] == [Held(KEY), Pending] && Initial(inp).origin == [[0], [1]];
  }

  /** What the comparison of the second packet with the first says. */
  lemma TinyCan(sent0: byte, flags0: byte, high0: byte, low0: byte, sent: byte, flags: byte, high: byte, low: byte)
    requires flags0 == FLAG_ACK || flags0 == FLAG_ACK_PSH
    requires flags == FLAG_ACK || flags == FLAG_ACK_PSH
    ensures
      TcpCanCoalesce(Tiny(sent, flags, high, low), TinyInfo(sent, flags), FirstItem(sent0, flags0),
                     Tiny(sent0, flags0, high0, low0))
      == if sent as int == sent0 as int + 1 then if flags0 == FLAG_ACK_PSH then Unavailable else Append
         else if sent as int + 1 == sent0 as int then if flags == FLAG_ACK_PSH then Unavailable else Prepend
         else Unavailable
  {
    var a, b := Tiny(sent, flags, high, low), Tiny(sent0, flags0, high0, low0);
    assert a[40..40] == b[40..40];
    assert IpHeadersCanCoalesce(a, b);
    hide Tiny, IpHeadersCanCoalesce;
  }

  lemma PairBytes(a: seq<byte>, b: seq<byte>)
    requires |a| == |b| == 41
    ensures Pair(a, b)[0].bytes[OFFSET..] == a && Pair(a, b)[1].bytes[OFFSET..] == b
    ensures |Pair(a, b)[0].bytes| == |Pair(a, b)[1].bytes| == OFFSET + 41
  {
  }

  lemma TinyTry(mode: CanCoalesce, info: Info, item: GroItem, a: seq<byte>, b: seq<byte>)
    requires |a| == |b| == 41 && (mode == Append || (mode == Prepend && !info.pshSet))
    requires item.TcpItem? && item.HeaderLen() == 40 && item.tcphLen == 20 && item.numMerged == 0 && !item.key.isV6
    ensures |Pair(a, b)[0].bytes| == |Pair(a, b)[1].bytes| == OFFSET + 41
    ensures TryCoalesce(mode, Pair(a, b)[1], info, item, Pair(a, b)[0], OFFSET)
         == if !ChecksumOk(a, 20, PROTO_TCP, false) then ItemInvalidCsum
            else if !ChecksumOk(b, 20, PROTO_TCP, false) then PktInvalidCsum
            else Success
  {
    hide ChecksumOk;
    PairBytes(a, b);
  }

  /** The verdict on the second packet of a pair. */
  lemma TinyVerdict(sent0: byte, flags0: byte, high0: byte, low0: byte, sent: byte, flags: byte, high: byte, low: byte)
    requires flags0 == FLAG_ACK || flags0 == FLAG_ACK_PSH
    requires flags == FLAG_ACK || flags == FLAG_ACK_PSH
    ensures
      var a, b := Tiny(sent0, flags0, high0, low0), Tiny(sent, flags, high, low);
      var can := TcpCanCoalesce(b, TinyInfo(sent, flags), FirstItem(sent0, flags0), a);
      var inp := Pair(a, b);
      && OFFSET <= |inp[1].bytes| && Admit(inp[1].bytes[OFFSET..], true) == Some(TinyInfo(sent, flags))
      && Comparable(inp[0], TinyInfo(sent, flags), FirstItem(sent0, flags0), OFFSET)
      && ExamineTcp(inp[1], inp[0], TinyInfo(sent, flags), FirstItem(sent0, flags0), OFFSET)
         == if can == Unavailable then Skip
            else if !ChecksumOk(a, 20, PROTO_TCP, false) then DropIt
            else if !ChecksumOk(b, 20, PROTO_TCP, false) then Reject
            else Join(can)
  {
    hide Tiny, Admit, TcpCanCoalesce, ChecksumOk, TryCoalesce, ExamineTcp, Pair;
    var a, b := Tiny(sent0, flags0, high0, low0), Tiny(sent, flags, high, low);
    PairBytes(a, b);
    TinyAdmitted(sent, flags, high, low, true);
    TinyCan(sent0, flags0, high0, low0, sent, flags, high, low);
    var can := TcpCanCoalesce(b, TinyInfo(sent, flags), FirstItem(sent0, flags0), a);
    var inp := Pair(a, b);
    ExamineParts(inp[1], inp[0], TinyInfo(sent, flags), FirstItem(sent0, flags0), OFFSET);
    if can != Unavailable {
      TinyTry(can, TinyInfo(sent, flags), FirstItem(sent0, flags0), a, b);
    }
  }

  /** The state after the first packet of a pair. */
  function AfterFirst(a: seq<byte>, b: seq<byte>, sent: byte, flags: byte): GroState {
    GroState(Pair(a, b), map[KEY := [FirstItem(sent, flags)]], [0], [Held(KEY), Pending], [[0], [1]])
  }

  /** A state that is not the first of the batch is ready for a packet that is admitted. */
  lemma ReadyAfter(e: Endian, inp: seq<View>, st: GroState, info: Info)
    requires |inp| == 2 && Safe(Initial(inp), OFFSET) && Fresh(Initial(inp), 0, OFFSET)
    requires st == Step(e, Initial(inp), 0, OFFSET, true) && |st.flows| == 1 && OFFSET < |inp[1].bytes|
    requires Admit(inp[1].bytes[OFFSET..], true) == Some(info)
    ensures Ready(st, 1, info, OFFSET)
  {
    hide Admit, Safe, Step;
    StepSafe(e, Initial(inp), 0, OFFSET, true);
    assert st.bufs[1] == inp[1] && st.fate[1] == Pending;
  }

  lemma SecondReady(e: Endian, sent0: byte, flags0: byte, high0: byte, low0: byte, sent: byte, flags: byte, high: byte,
                    low: byte)
    requires flags0 == FLAG_ACK || flags0 == FLAG_ACK_PSH
    requires flags == FLAG_ACK || flags == FLAG_ACK_PSH
    ensures
      var a, b := Tiny(sent0, flags0, high0, low0), Tiny(sent, flags, high, low);
      var st := AfterFirst(a, b, sent0, flags0);
      && Ready(st, 1, TinyInfo(sent, flags), OFFSET)
      && Safe(Initial(Pair(a, b)), OFFSET) && Fresh(Initial(Pair(a, b)), 0, OFFSET)
      && Step(e, Initial(Pair(a, b)), 0, OFFSET, true) == st
  {
    hide Tiny, Admit, Safe, Fresh, Step, FirstItem, Pair, Ready;
    var a, b := Tiny(sent0, flags0, high0, low0), Tiny(sent, flags, high, low);
    FirstStep(e, sent0, flags0, high0, low0, b);
    PairBytes(a, b);
    TinyAdmitted(sent, flags, high, low, true);
    OneFlow(FirstItem(sent0, flags0));
    ReadyAfter(e, Pair(a, b), AfterFirst(a, b, sent0, flags0), TinyInfo(sent, flags));
  }

  lemma OneFlow(item: GroItem)
    ensures |map[KEY := [item]]| == 1
  {
    assert map[KEY := [item]].Keys == {KEY};
    assert |map[KEY := [item]].Keys| == |map[KEY := [item]]|;
  }

  /** A packet whose flow has one item: the outcome is that of one turn. */
  lemma OneTurn(e: Endian, st: GroState, i: nat, info: Info, offset: nat)
    requires Turnable(st, i, info, 0, offset) && |st.flows[info.key]| == 1
    ensures Ready(st, i, info, offset) && Safe(st, offset) && Fresh(st, i, offset)
    ensures
      var next := AfterTurn(st, i, info, 0, TurnVerdict(st, i, info, 0, offset), offset);
      match TurnVerdict(st, i, info, 0, offset)
      case DropIt =>
        && Ready(next, i, info, offset)
        && Step(e, st, i, offset, true) == Insert(next, i, info, false, offset)
      case Join(_) => Step(e, st, i, offset, true) == next
      case _ => true
  {
    hide Admit, Safe, Fresh, TurnVerdict, AfterTurn, UdpStep, Insert, ExamineTcp;
    ScanTurn(e, st, i, info, 0, offset);
  }

  /** A pair goes through the loop in two steps. */
  lemma TwoSteps(e: Endian, inp: seq<View>, st1: GroState, st2: GroState)
    requires |inp| == 2 && Safe(Initial(inp), OFFSET) && Fresh(Initial(inp), 0, OFFSET)
    requires Step(e, Initial(inp), 0, OFFSET, true) == st1
    requires Safe(st1, OFFSET) && Fresh(st1, 1, OFFSET) && Step(e, st1, 1, OFFSET, true) == st2
    ensures Safe(st2, OFFSET) && HandleGro(e, inp, OFFSET, true) == (Finish(e, st2, OFFSET), true)
  {
    HandleGroCases(e, inp, OFFSET, true);
    StepSafe(e, Initial(inp), 0, OFFSET, true);
    StepSafe(e, st1, 1, OFFSET, true);
    hide Safe, Step, Finish, HandleGro;
    assert GroLoop(e, st2, 2, OFFSET, true) == (st2, true);
    assert GroLoop(e, st1, 1, OFFSET, true) == (st2, true);
    assert GroLoop(e, Initial(inp), 0, OFFSET, true) == (st2, true);
  }

  lemma FirstTurnVerdict(a: seq<byte>, b: seq<byte>, sent0: byte, flags0: byte, info: Info)
    requires Turnable(AfterFirst(a, b, sent0, flags0), 1, info, 0, OFFSET)
    ensures |Pair(a, b)| == 2 && OFFSET <= |Pair(a, b)[1].bytes|
    ensures Admit(Pair(a, b)[1].bytes[OFFSET..], true) == Some(info)
    ensures Comparable(Pair(a, b)[0], info, FirstItem(sent0, flags0), OFFSET)
    ensures TurnVerdict(AfterFirst(a, b, sent0, flags0), 1, info, 0, OFFSET)
         == ExamineTcp(Pair(a, b)[1], Pair(a, b)[0], info, FirstItem(sent0, flags0), OFFSET)
  {
    var st := AfterFirst(a, b, sent0, flags0);
    ItemReady(st, 1, info, OFFSET, 0);
    assert st.bufs[0] == Pair(a, b)[0] && st.bufs[1] == Pair(a, b)[1];
    assert st.flows[info.key][0] == FirstItem(sent0, flags0);
    hide Safe, Fresh, Admit, ExamineTcp, Pair, ItemSafe;
  }

  /** A turn that takes an item out of the table leaves its buffer as it is. */
  lemma DropTurn(st: GroState, i: nat, info: Info, p: nat, offset: nat)
    requires Turnable(st, i, info, p, offset)
    ensures info.key in st.flows && p < |st.flows[info.key]| && st.flows[info.key][p].bufsIndex < |st.fate|
    ensures
      var next := AfterTurn(st, i, info, p, DropIt, offset);
      next.bufs == st.bufs && next.toWrite == st.toWrite
      && next.fate == st.fate[st.flows[info.key][p].bufsIndex := Dropped]
  {
    ItemReady(st, i, info, offset, p);
    hide Admit, Fresh, FlowSafe;
  }

  lemma InsertFields(st: GroState, i: nat, info: Info, offset: nat)
    requires Ready(st, i, info, offset)
    ensures i < |st.bufs| == |st.fate| && offset <= |st.bufs[i].bytes|
    ensures Admit(st.bufs[i].bytes[offset..], true) == Some(info)
    ensures
      var next := Insert(st, i, info, false, offset);
      next.bufs == st.bufs && next.toWrite == st.toWrite + [i] && |next.fate| == |st.fate|
      && forall j :: 0 <= j < |st.fate| && j != i ==> next.fate[j] == st.fate[j]
  {
    hide Admit, Safe, NewItem;
  }

  /** A first packet that the second one finds invalid is written as it lies in its buffer. */
  lemma DroppedFirst(e: Endian, a: seq<byte>, b: seq<byte>, sent0: byte, flags0: byte, info: Info)
    requires Safe(Initial(Pair(a, b)), OFFSET) && Fresh(Initial(Pair(a, b)), 0, OFFSET)
    requires Step(e, Initial(Pair(a, b)), 0, OFFSET, true) == AfterFirst(a, b, sent0, flags0)
    requires Turnable(AfterFirst(a, b, sent0, flags0), 1, info, 0, OFFSET) && info.key == KEY
    requires TurnVerdict(AfterFirst(a, b, sent0, flags0), 1, info, 0, OFFSET) == DropIt
    ensures
      var (st, ok) := HandleGro(e, Pair(a, b), OFFSET, true);
      && ok && st.toWrite == [0, 1] && |st.fate| == |st.bufs| == 2 && st.fate[0] == Dropped
      && st.bufs[0] == Pair(a, b)[0]
  {
    hide Admit, Safe, Fresh, Ready, Turnable, Step, TurnVerdict, AfterTurn, Insert, Finish, HandleGro;
    var st1 := AfterFirst(a, b, sent0, flags0);
    OneTurn(e, st1, 1, info, OFFSET);
    DropTurn(st1, 1, info, 0, OFFSET);
    var next := AfterTurn(st1, 1, info, 0, DropIt, OFFSET);
    InsertFields(next, 1, info, OFFSET);
    var st2 := Insert(next, 1, info, false, OFFSET);
    TwoSteps(e, Pair(a, b), st1, st2);
    FinishKeeps(e, st2, OFFSET);
  }

  /**
   The packet in front has a bad checksum and is taken out of the table; it is
   still written, with whatever its buffer held where the virtio header belongs.
   */
  lemma DroppedWithoutHeader(e: Endian)
    ensures
      var inp := Pair(Tiny(0, FLAG_ACK, 0, 0), Tiny(1, FLAG_ACK, 0, 0));
      var (st, ok) := HandleGro(e, inp, OFFSET, true);
      && ok && st.toWrite == [0, 1] && |st.fate| == |st.bufs| == 2 && st.fate[0] == Dropped
      && |st.bufs[0].bytes| > OFFSET && st.bufs[0].bytes[..OFFSET] == STALE != Encode(e, ZERO)
  {
    hide Tiny, Admit, Safe, Fresh, Ready, Turnable, Step, ExamineTcp, ChecksumOk, TcpCanCoalesce, TurnVerdict,
         HandleGro, Comparable;
    var a, b := Tiny(0, FLAG_ACK, 0, 0), Tiny(1, FLAG_ACK, 0, 0);
    var info := TinyInfo(1, FLAG_ACK);
    SecondReady(e, 0, FLAG_ACK, 0, 0, 1, FLAG_ACK, 0, 0);
    TinyVerdict(0, FLAG_ACK, 0, 0, 1, FLAG_ACK, 0, 0);
    TinyCan(0, FLAG_ACK, 0, 0, 1, FLAG_ACK, 0, 0);
    TinyChecksum(0, FLAG_ACK, 0, 0);
    PairTurnable(a, b, 0, FLAG_ACK, info);
    FirstTurnVerdict(a, b, 0, FLAG_ACK, info);
    DroppedFirst(e, a, b, 0, FLAG_ACK, info);
    assert Encode(e, ZERO)[0] == 0;
  }

  lemma PairTurnable(a: seq<byte>, b: seq<byte>, sent0: byte, flags0: byte, info: Info)
    requires Ready(AfterFirst(a, b, sent0, flags0), 1, info, OFFSET) && info.key == KEY
    ensures Turnable(AfterFirst(a, b, sent0, flags0), 1, info, 0, OFFSET)
  {
    hide Ready;
  }

  lemma PairMerged(a: seq<byte>, b: seq<byte>, info: Info, item: GroItem)
    requires |a| == |b| == 41 && item.TcpItem? && item.HeaderLen() == 40 && item.tcphLen == 20 && item.bufsIndex == 0
    ensures |Pair(a, b)[0].bytes| == |Pair(a, b)[1].bytes| == OFFSET + 41
    ensures MergedBufs(Pair(a, b), 1, info, item, Prepend, OFFSET)
         == [View(1, 200, STALE + b + a[40..]), View(0, 200, STALE + a)]
  {
    PairBytes(a, b);
    assert Pair(a, b)[0].bytes[OFFSET + 40..] == a[40..];
  }

  lemma JoinedOrigin(st: GroState, i: nat, info: Info, p: nat, offset: nat)
    requires Turnable(st, i, info, p, offset) && TurnVerdict(st, i, info, p, offset) == Join(Prepend)
    ensures i < |st.origin| && info.key in st.flows && p < |st.flows[info.key]|
    ensures st.flows[info.key][p].bufsIndex < |st.origin|
    ensures
      var j := st.flows[info.key][p].bufsIndex;
      AfterTurn(st, i, info, p, Join(Prepend), offset).origin == st.origin[j := st.origin[i] + st.origin[j]][i := []]
  {
    TurnVerdictIs(st, i, info, p, offset);
    ItemReady(st, i, info, offset, p);
    hide Admit, Fresh, FlowSafe, TurnVerdict, MergedBufs, MergedItem, TcpCanCoalesce, TryCoalesce, ItemSafe;
  }

  /** A prepend puts the second packet of a pair in front. */
  lemma PrependTurn(a: seq<byte>, b: seq<byte>, sent0: byte, flags0: byte, info: Info)
    requires |a| == |b| == 41 && Turnable(AfterFirst(a, b, sent0, flags0), 1, info, 0, OFFSET) && info.key == KEY
    requires TurnVerdict(AfterFirst(a, b, sent0, flags0), 1, info, 0, OFFSET) == Join(Prepend)
    ensures
      var next := AfterTurn(AfterFirst(a, b, sent0, flags0), 1, info, 0, Join(Prepend), OFFSET);
      && next.flows == map[KEY := [MergedItem(Prepend, info, FirstItem(sent0, flags0))]]
      && next.bufs == [View(1, 200, STALE + b + a[40..]), View(0, 200, STALE + a)]
      && next.origin == [[1, 0], []]
  {
    hide Turnable, TurnVerdict, AfterTurn, MergedItem, MergedBufs, Pair, TcpCanCoalesce, TryCoalesce;
    var st := AfterFirst(a, b, sent0, flags0);
    TurnVerdictIs(st, 1, info, 0, OFFSET);
    JoinedOrigin(st, 1, info, 0, OFFSET);
    PairMerged(a, b, info, FirstItem(sent0, flags0));
    assert st.flows[KEY][0] == FirstItem(sent0, flags0);
    assert [FirstItem(sent0, flags0)][0 := MergedItem(Prepend, info, FirstItem(sent0, flags0))]
        == [MergedItem(Prepend, info, FirstItem(sent0, flags0))];
    assert [1] + [0] == [1, 0];
  }

  /** Accounting keeps the flags of the packet in front. */
  lemma AccountedFlags(e: Endian, item: GroItem, bytes: seq<byte>)
    requires item.TcpItem? && item.key == KEY && item.iphLen == 20 && item.tcphLen == 20 && item.numMerged > 0
    requires 0 < item.gsoSize <= MAX_UINT16
    requires OFFSET + 40 < |bytes| <= MAX_UINT16
    ensures AccountBytes(e, item, bytes, OFFSET)[OFFSET + 33] == bytes[OFFSET + 33]
  {
    AccountKeeps(item, bytes[OFFSET..]);
    hide AccountPacket, Encode, HeaderFor;
  }

  /**
   The packet in the table ends in PSH and another comes to go in front of it:
   the item remembers the flag, the header that will be written does not show it.
   */
  lemma PrependHidesPsh(e: Endian)
    ensures
      var inp := Pair(Tiny(1, FLAG_ACK_PSH, 0xAF, 0xCB), Tiny(0, FLAG_ACK, 0xAF, 0xD4));
      var (st, ok) := HandleGro(e, inp, OFFSET, true);
      && ok && KEY in st.flows && |st.flows[KEY]| == 1 && st.flows[KEY][0].TcpItem? && st.flows[KEY][0].pshSet
      && |st.origin| == |st.bufs| == 2 && st.origin[0] == [1, 0]
      && |st.bufs[0].bytes| == OFFSET + 42 && st.bufs[0].bytes[OFFSET + 33] == FLAG_ACK
  {
    hide Tiny, Admit, Safe, Fresh, Ready, Turnable, Step, ExamineTcp, ChecksumOk, TcpCanCoalesce, TurnVerdict,
         AfterTurn, HandleGro, Comparable, Finish, AccountBytes, Pair;
    var a, b := Tiny(1, FLAG_ACK_PSH, 0xAF, 0xCB), Tiny(0, FLAG_ACK, 0xAF, 0xD4);
    var info := TinyInfo(0, FLAG_ACK);
    SecondReady(e, 1, FLAG_ACK_PSH, 0xAF, 0xCB, 0, FLAG_ACK, 0xAF, 0xD4);
    TinyVerdict(1, FLAG_ACK_PSH, 0xAF, 0xCB, 0, FLAG_ACK, 0xAF, 0xD4);
    TinyCan(1, FLAG_ACK_PSH, 0xAF, 0xCB, 0, FLAG_ACK, 0xAF, 0xD4);
    TinyChecksum(1, FLAG_ACK_PSH, 0xAF, 0xCB);
    TinyChecksum(0, FLAG_ACK, 0xAF, 0xD4);
    TinyFields(0, FLAG_ACK, 0xAF, 0xD4);
    PairTurnable(a, b, 1, FLAG_ACK_PSH, info);
    FirstTurnVerdict(a, b, 1, FLAG_ACK_PSH, info);
    var st1 := AfterFirst(a, b, 1, FLAG_ACK_PSH);
    OneTurn(e, st1, 1, info, OFFSET);
    PrependTurn(a, b, 1, FLAG_ACK_PSH, info);
    var st2 := AfterTurn(st1, 1, info, 0, Join(Prepend), OFFSET);
    TwoSteps(e, Pair(a, b), st1, st2);
    FinishHeld(e, st2, OFFSET, KEY, 0);
    FinishKeeps(e, st2, OFFSET);
    var item := st2.flows[KEY][0];
    assert item == TcpItem(KEY, 0, 1, 1, 20, 0, 20, true);
    AccountedFlags(e, item, st2.bufs[0].bytes);
    assert (STALE + b + a[40..])[OFFSET + 33] == b[33];
  }
}
