/** handleGRO over the batch of buffers and both flow tables, proved against Accounting.HandleGro. */
module Handler {
  import opened Bytes
  import opened InternetChecksum
  import opened Virtio
  import opened Gro
  import opened Batch
  import opened Accounting
  import opened Slices
  import opened Buffers
  import opened GroTables
  import opened Writer
  import opened AccountingPass

  /** The buffers and the two tables hold what the state says. */
  ghost predicate Linked(bufs: array<Slice>, arrs: seq<array<byte>>, tcpTable: GroTable, udpTable: GroTable,
                         st: GroState)
    reads bufs, arrs, tcpTable, udpTable, tcpTable.lists, udpTable.lists
  {
    Models(bufs, arrs, st.bufs) && TableHolds(tcpTable, st.flows, true) && TableHolds(udpTable, st.flows, false)
  }

  /** The two tables share nothing. */
  ghost predicate Apart(tcpTable: GroTable, udpTable: GroTable) {
    tcpTable != udpTable && tcpTable.lists !! udpTable.lists
  }

  /** The outcome of a packet's evaluation, before a header is written for a packet that is left alone. */
  ghost predicate Settled(e: Endian, st: GroState, i: nat, offset: nat, result: GroResult, st': GroState,
                          want: GroState) {
    Reached(e, st, i, offset, true, result, st', want) || Reached(e, st, i, offset, false, result, st', want)
  }

  lemma PassedOver(e: Endian, st: GroState, i: nat, offset: nat, canUDP: bool)
    requires Safe(st, offset) && Fresh(st, i, offset) && Classify(st.bufs[i].bytes[offset..], canUDP) == NotCandidate
    ensures Settled(e, st, i, offset, ResultNoop, st, Step(e, st, i, offset, canUDP))
  {
    LeftAlone(e, st, i, offset, true);
    hide Reached, LeaveAlone, UdpStep, TcpScan, Insert;
  }

  lemma OtherTable(table: GroTable, e: Endian, st: GroState, i: nat, offset: nat, tcp: bool, result: GroResult,
                   st': GroState, want: GroState)
    requires Reached(e, st, i, offset, tcp, result, st', want) && TableHolds(table, st.flows, !tcp)
    ensures TableHolds(table, st'.flows, !tcp)
  {
    hide Part, LeaveAlone;
  }

  /** The switch of handleGRO over the kind of packet. */
  method Evaluate(e: Endian, bufs: array<Slice>, offset: nat, i: nat, tcpTable: GroTable, udpTable: GroTable,
                  canUDP: bool, ghost arrs: seq<array<byte>>, ghost st: GroState)
    returns (result: GroResult, ghost st': GroState)
    requires Untried(st, i, offset) && Safe(st, offset) && Fresh(st, i, offset)
    requires Linked(bufs, arrs, tcpTable, udpTable, st) && Apart(tcpTable, udpTable)
    modifies bufs, arrs, tcpTable, tcpTable.lists, udpTable, udpTable.lists
    ensures Linked(bufs, arrs, tcpTable, udpTable, st')
    ensures Settled(e, st, i, offset, result, st', Step(e, st, i, offset, canUDP))
  {
    hide Untried, Safe, Models, TableHolds, Classify, Reached, Step;
    ModelsAt(bufs, arrs, st.bufs, i);
    BytesFromView(bufs[i], offset, st.bufs[i].bytes);
    var kind := Classify(BytesFrom(bufs[i], offset), canUDP);
    match kind {
      case Tcp4 =>
        result, st' := TcpGro(e, bufs, offset, i, tcpTable, false, canUDP, arrs, st);
        OtherTable(udpTable, e, st, i, offset, true, result, st', Step(e, st, i, offset, canUDP));
      case Tcp6 =>
        result, st' := TcpGro(e, bufs, offset, i, tcpTable, true, canUDP, arrs, st);
        OtherTable(udpTable, e, st, i, offset, true, result, st', Step(e, st, i, offset, canUDP));
      case Udp4 =>
        result, st' := UdpGro(e, bufs, offset, i, udpTable, false, canUDP, arrs, st);
        OtherTable(tcpTable, e, st, i, offset, false, result, st', Step(e, st, i, offset, canUDP));
      case Udp6 =>
        result, st' := UdpGro(e, bufs, offset, i, udpTable, true, canUDP, arrs, st);
        OtherTable(tcpTable, e, st, i, offset, false, result, st', Step(e, st, i, offset, canUDP));
      case NotCandidate =>
        PassedOver(e, st, i, offset, canUDP);
        return ResultNoop, st;
    }
  }

  lemma SettledFacts(e: Endian, st: GroState, i: nat, offset: nat, result: GroResult, st': GroState, want: GroState)
    requires Settled(e, st, i, offset, result, st', want)
    ensures |want.flows| <= |st.flows| + 1
    ensures want.toWrite == if result == ResultCoalesced then st.toWrite else st.toWrite + [i]
    ensures result != ResultNoop ==> want == st'
    ensures result == ResultNoop ==>
      && i < |st'.bufs| && HDR_LEN <= offset <= |st'.bufs[i].bytes| && want.flows == st'.flows
      && want.bufs == st'.bufs[i := st'.bufs[i].(bytes := WithHeader(st'.bufs[i].bytes, offset, Encode(e, ZERO)))]
  {
    hide Part, WithHeader, Encode;
  }

  /** One turn of the loop of handleGRO, and whether packet i is to be written. */
  method GroTurn(e: Endian, bufs: array<Slice>, offset: nat, i: nat, tcpTable: GroTable, udpTable: GroTable,
                 canUDP: bool, ghost arrs: seq<array<byte>>, ghost st: GroState)
    returns (write: bool)
    requires Untried(st, i, offset) && Safe(st, offset) && Fresh(st, i, offset)
    requires Linked(bufs, arrs, tcpTable, udpTable, st) && Apart(tcpTable, udpTable)
    modifies bufs, arrs, tcpTable, tcpTable.lists, udpTable, udpTable.lists
    ensures Linked(bufs, arrs, tcpTable, udpTable, Step(e, st, i, offset, canUDP))
    ensures Step(e, st, i, offset, canUDP).toWrite == if write then st.toWrite + [i] else st.toWrite
    ensures |Step(e, st, i, offset, canUDP).flows| <= |st.flows| + 1
  {
    hide Untried, Safe, Fresh, Models, TableHolds, Settled, Step, WithHeader, Encode;
    var result;
    ghost var st';
    result, st' := Evaluate(e, bufs, offset, i, tcpTable, udpTable, canUDP, arrs, st);
    SettledFacts(e, st, i, offset, result, st', Step(e, st, i, offset, canUDP));
    if result == ResultNoop {
      WriteHeader(bufs, i, offset, Encode(e, ZERO), arrs, st'.bufs);
    }
    write := result != ResultCoalesced;
  }

  /** The loop over inp has come to packet i with state st. */
  ghost predicate LoopPoint(e: Endian, inp: seq<View>, st: GroState, i: nat, offset: nat, canUDP: bool) {
    && |inp| <= IDEAL_BATCH_SIZE && i <= |inp| == |st.bufs| && |st.flows| <= i
    && Safe(st, offset) && (forall j :: i <= j < |st.fate| ==> st.fate[j] == Pending)
    && GroLoop(e, st, i, offset, canUDP) == GroLoop(e, Initial(inp), 0, offset, canUDP)
  }

  lemma LoopStart(e: Endian, inp: seq<View>, offset: nat, canUDP: bool)
    requires |inp| <= IDEAL_BATCH_SIZE
    ensures LoopPoint(e, inp, Initial(inp), 0, offset, canUDP)
  {
    hide GroLoop;
  }

  /** A packet is evaluated when the offset fits it, and ends the loop with an error when it does not. */
  lemma LoopTurn(e: Endian, inp: seq<View>, st: GroState, i: nat, offset: nat, canUDP: bool)
    requires LoopPoint(e, inp, st, i, offset, canUDP)
    ensures |inp| <= IDEAL_BATCH_SIZE && i <= |inp| == |st.bufs|
    ensures i < |inp| && HDR_LEN <= offset < |st.bufs[i].bytes| ==>
      && Untried(st, i, offset) && Safe(st, offset) && Fresh(st, i, offset)
      && (|Step(e, st, i, offset, canUDP).flows| <= |st.flows| + 1 ==>
           LoopPoint(e, inp, Step(e, st, i, offset, canUDP), i + 1, offset, canUDP))
    ensures i < |inp| && !(HDR_LEN <= offset < |st.bufs[i].bytes|) ==>
      GroLoop(e, Initial(inp), 0, offset, canUDP) == (st, false)
    ensures i == |inp| ==> Safe(st, offset) && GroLoop(e, Initial(inp), 0, offset, canUDP) == (st, true)
  {
    if i < |inp| && HDR_LEN <= offset < |st.bufs[i].bytes| {
      StepSafe(e, st, i, offset, canUDP);
    }
    hide Safe, Step;
  }

  /** The loop of handleGRO. */
  method GroPass(e: Endian, bufs: array<Slice>, offset: nat, tcpTable: GroTable, udpTable: GroTable, canUDP: bool,
                 ghost arrs: seq<array<byte>>, ghost inp: seq<View>)
    returns (toWrite: seq<nat>, ok: bool, ghost st: GroState)
    requires |inp| <= IDEAL_BATCH_SIZE
    requires Linked(bufs, arrs, tcpTable, udpTable, Initial(inp)) && Apart(tcpTable, udpTable)
    modifies bufs, arrs, tcpTable, tcpTable.lists, udpTable, udpTable.lists
    ensures (st, ok) == GroLoop(e, Initial(inp), 0, offset, canUDP) && toWrite == st.toWrite
    ensures Linked(bufs, arrs, tcpTable, udpTable, st) && (ok ==> Safe(st, offset))
  {
    hide Linked, LoopPoint, Untried, Safe, Fresh, Step, GroLoop, Apart;
    toWrite := [];
    st := Initial(inp);
    LoopStart(e, inp, offset, canUDP);
    Sizes(bufs, arrs, tcpTable, udpTable, st);
    var i := 0;
    while i < bufs.Length
      invariant i <= bufs.Length == |inp| && LoopPoint(e, inp, st, i, offset, canUDP)
      invariant Linked(bufs, arrs, tcpTable, udpTable, st) && toWrite == st.toWrite
    {
      LoopTurn(e, inp, st, i, offset, canUDP);
      SizeAt(bufs, arrs, tcpTable, udpTable, st, i);
      if offset < HDR_LEN || offset > bufs[i].len - 1 {
        return toWrite, false, st;
      }
      var write := GroTurn(e, bufs, offset, i, tcpTable, udpTable, canUDP, arrs, st);
      if write {
        toWrite := toWrite + [i];
      }
      st := Step(e, st, i, offset, canUDP);
      i := i + 1;
    }
    LoopTurn(e, inp, st, i, offset, canUDP);
    return toWrite, true, st;
  }

  lemma Sizes(bufs: array<Slice>, arrs: seq<array<byte>>, tcpTable: GroTable, udpTable: GroTable, st: GroState)
    requires Linked(bufs, arrs, tcpTable, udpTable, st)
    ensures bufs.Length == |st.bufs|
  {
  }

  lemma SizeAt(bufs: array<Slice>, arrs: seq<array<byte>>, tcpTable: GroTable, udpTable: GroTable, st: GroState, i: nat)
    requires Linked(bufs, arrs, tcpTable, udpTable, st) && i < |st.bufs|
    ensures bufs.Length == |st.bufs| && bufs[i].len == |st.bufs[i].bytes|
  {
    ModelsAt(bufs, arrs, st.bufs, i);
  }

  /**
   handleGRO on empty tables. The indices, the error and every buffer are those of
   the specification, although maps are walked in an arbitrary order.
   */
  method HandleBatch(e: Endian, bufs: array<Slice>, offset: int, tcpTable: GroTable, udpTable: GroTable, canUDP: bool,
                     ghost arrs: seq<array<byte>>, ghost inp: seq<View>)
    returns (toWrite: seq<nat>, ok: bool)
    requires |inp| <= IDEAL_BATCH_SIZE && Models(bufs, arrs, inp)
    requires tcpTable.Valid() && tcpTable.Items() == map[] && udpTable.Valid() && udpTable.Items() == map[]
    requires Apart(tcpTable, udpTable)
    modifies bufs, arrs, tcpTable, tcpTable.lists, udpTable, udpTable.lists
    ensures tcpTable.Valid() && udpTable.Valid()
    ensures
      var (st, accepted) := HandleGro(e, inp, offset, canUDP);
      ok == accepted && toWrite == st.toWrite && Models(bufs, arrs, st.bufs)
  {
    hide Models, Apart, HandleGro, Finish, GroLoop, Separate, GroTable.Valid;
    HandleGroCases(e, inp, offset, canUDP);
    ModelsSize(bufs, arrs, inp);
    if bufs.Length == 0 {
      return [], true;
    }
    if offset < HDR_LEN {
      return [], false;
    }
    LinkedStart(bufs, arrs, tcpTable, udpTable, inp);
    ghost var st;
    toWrite, ok, st := GroPass(e, bufs, offset, tcpTable, udpTable, canUDP, arrs, inp);
    if ok {
      AccountBoth(e, bufs, offset, tcpTable, udpTable, arrs, st);
    }
  }

  lemma LinkedStart(bufs: array<Slice>, arrs: seq<array<byte>>, tcpTable: GroTable, udpTable: GroTable, inp: seq<View>)
    requires Models(bufs, arrs, inp)
    requires tcpTable.Valid() && tcpTable.Items() == map[] && udpTable.Valid() && udpTable.Items() == map[]
    ensures Linked(bufs, arrs, tcpTable, udpTable, Initial(inp))
  {
    hide Models, GroTable.Valid;
  }

  /** handleGRO in terms of its loop. */
  lemma HandleGroCases(e: Endian, inp: seq<View>, offset: int, canUDP: bool)
    requires |inp| <= IDEAL_BATCH_SIZE
    ensures |inp| == 0 ==> HandleGro(e, inp, offset, canUDP) == (Initial(inp), true)
    ensures |inp| > 0 && offset < HDR_LEN ==> HandleGro(e, inp, offset, canUDP) == (Initial(inp), false)
    ensures |inp| > 0 && offset >= HDR_LEN ==>
      var (st, ok) := GroLoop(e, Initial(inp), 0, offset, canUDP);
      if ok then Safe(st, offset) && HandleGro(e, inp, offset, canUDP) == (Finish(e, st, offset), true)
      else HandleGro(e, inp, offset, canUDP) == (st, false)
  {
    if |inp| > 0 && offset >= HDR_LEN {
      LoopSafe(e, Initial(inp), 0, offset, canUDP);
    }
    hide GroLoop;
  }

  /** Both accounting passes. */
  method AccountBoth(e: Endian, bufs: array<Slice>, offset: nat, tcpTable: GroTable, udpTable: GroTable,
                     ghost arrs: seq<array<byte>>, ghost st: GroState)
    requires Linked(bufs, arrs, tcpTable, udpTable, st) && Safe(st, offset) && HDR_LEN <= offset
    modifies arrs
    ensures Models(bufs, arrs, Finish(e, st, offset).bufs) && Finish(e, st, offset).toWrite == st.toWrite
    ensures tcpTable.Valid() && udpTable.Valid()
  {
    hide Models, Between, Safe, GroTable.Valid;
    NoPassYet(e, st, offset);
    ghost var vs := ApplyCoalesceAccounting(e, bufs, offset, tcpTable, true, {}, arrs, st, st.bufs);
    vs := ApplyCoalesceAccounting(e, bufs, offset, udpTable, false, {} + Part(st.flows, true).Keys, arrs, st, vs);
    assert {} + Part(st.flows, true).Keys + Part(st.flows, false).Keys
       == Part(st.flows, true).Keys + Part(st.flows, false).Keys;
    BothPasses(e, st, offset, vs);
  }

  lemma ModelsSize(bufs: array<Slice>, arrs: seq<array<byte>>, vs: seq<View>)
    requires Models(bufs, arrs, vs)
    ensures bufs.Length == |vs|
  {
  }
}
