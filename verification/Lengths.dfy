/** Every buffer that handleGRO has looked at still has bytes beyond the offset, whatever was merged or swapped. */
module Lengths {
  import opened InternetChecksum
  import opened Virtio
  import opened Gro
  import opened Batch
  import opened Accounting

  /** The first n buffers are longer than the offset, and only they are to be written, no more than n times in all. */
  ghost predicate Long(st: GroState, offset: nat, n: nat) {
    && |st.toWrite| <= n <= |st.bufs|
    && (forall j :: 0 <= j < n ==> offset < |st.bufs[j].bytes|)
    && (forall k :: 0 <= k < |st.toWrite| ==> st.toWrite[k] < n)
  }

  lemma LeaveAloneLong(e: Endian, st: GroState, i: nat, offset: nat)
    requires Long(st, offset, i) && Fresh(st, i, offset)
    ensures Long(LeaveAlone(e, st, i, offset), offset, i + 1)
  {
    hide WithHeader, Encode;
  }

  lemma InsertLong(st: GroState, i: nat, info: Info, known: bool, offset: nat)
    requires Long(st, offset, i) && Fresh(st, i, offset) && Admit(st.bufs[i].bytes[offset..], true) == Some(info)
    ensures Long(Insert(st, i, info, known, offset), offset, i + 1)
  {
    hide Admit, NewItem;
  }

  lemma MergeLong(st: GroState, i: nat, info: Info, p: nat, mode: CanCoalesce, offset: nat)
    requires Long(st, offset, i) && Fresh(st, i, offset) && |st.origin| == |st.bufs|
    requires info.key in st.flows && p < |st.flows[info.key]| && ItemSafe(st, offset, info.key, st.flows[info.key][p])
    requires offset + st.flows[info.key][p].HeaderLen() <= |st.bufs[i].bytes|
    ensures Long(MergeInto(st, i, info, p, mode, offset), offset, i + 1)
  {
    hide MergedItem;
    HeldBefore(st, i, offset, info.key, st.flows[info.key][p]);
  }

  lemma {:induction false} ScanLong(e: Endian, st: GroState, i: nat, info: Info, n: nat, offset: nat)
    requires Safe(st, offset) && Fresh(st, i, offset) && Long(st, offset, i)
    requires Admit(st.bufs[i].bytes[offset..], true) == Some(info) && info.key.TcpKey?
    requires info.key in st.flows && n <= |st.flows[info.key]|
    ensures Long(TcpScan(e, st, i, info, n, offset), offset, i + 1)
    decreases n
  {
    hide Admit, ExamineTcp, TcpCanCoalesce, TryCoalesce, Insert, LeaveAlone, MergeInto, FlowSafe, Long;
    if n == 0 {
      InsertLong(st, i, info, false, offset);
    } else {
      DropSafe(st, offset, info.key, n - 1);
      AdmitFacts(st.bufs[i].bytes[offset..], true);
      var item := st.flows[info.key][n - 1];
      ExamineParts(st.bufs[i], st.bufs[item.bufsIndex], info, item, offset);
      match ExamineTcp(st.bufs[i], st.bufs[item.bufsIndex], info, item, offset)
      case Skip => ScanLong(e, st, i, info, n - 1, offset);
      case DropIt =>
        DropLong(st, info.key, n - 1, offset, i);
        ScanLong(e, DropItem(st, info.key, n - 1), i, info, n - 1, offset);
      case Reject => LeaveAloneLong(e, st, i, offset);
      case Join(mode) => MergeLong(st, i, info, n - 1, mode, offset);
    }
  }

  lemma DropLong(st: GroState, key: FlowKey, p: nat, offset: nat, n: nat)
    requires Long(st, offset, n) && key in st.flows && p < |st.flows[key]| && st.flows[key][p].bufsIndex < |st.fate|
    ensures Long(DropItem(st, key, p), offset, n)
  {
  }

  lemma StepLong(e: Endian, st: GroState, i: nat, offset: nat, canUDP: bool)
    requires Safe(st, offset) && Fresh(st, i, offset) && Long(st, offset, i)
    ensures Long(Step(e, st, i, offset, canUDP), offset, i + 1)
  {
    hide Admit, Safe, TcpScan, Insert, LeaveAlone, MergeInto, UdpCanCoalesce, TryCoalesce, Long;
    var pkt := st.bufs[i].bytes[offset..];
    var admitted := Admit(pkt, canUDP);
    AdmitFacts(pkt, canUDP);
    if admitted.None? {
      LeaveAloneLong(e, st, i, offset);
    } else {
      var info := admitted.value;
      InsertLong(st, i, info, false, offset);
      InsertLong(st, i, info, true, offset);
      if info.key in st.flows {
        if info.key.UdpKey? {
          UdpTarget(st, i, info, offset);
          SafeSizes(st, offset);
          MergeLong(st, i, info, |st.flows[info.key]| - 1, Append, offset);
        } else {
          ScanLong(e, st, i, info, |st.flows[info.key]|, offset);
        }
      }
    }
  }

  lemma SafeSizes(st: GroState, offset: nat)
    requires Safe(st, offset)
    ensures |st.fate| == |st.bufs| == |st.origin|
  {
    hide FlowSafe;
  }

  lemma {:induction false} LoopLong(e: Endian, st: GroState, i: nat, offset: nat, canUDP: bool)
    requires Safe(st, offset) && i <= |st.bufs| && Long(st, offset, i)
    requires forall j :: i <= j < |st.fate| ==> st.fate[j] == Pending
    ensures |GroLoop(e, st, i, offset, canUDP).0.bufs| == |st.bufs|
    ensures GroLoop(e, st, i, offset, canUDP).1 ==>
      Long(GroLoop(e, st, i, offset, canUDP).0, offset, |GroLoop(e, st, i, offset, canUDP).0.bufs|)
    decreases |st.bufs| - i
  {
    SafeSizes(st, offset);
    if i < |st.bufs| && HDR_LEN <= offset < |st.bufs[i].bytes| {
      StepSafe(e, st, i, offset, canUDP);
      StepLong(e, st, i, offset, canUDP);
      hide Safe, Long, Step;
      LoopLong(e, Step(e, st, i, offset, canUDP), i + 1, offset, canUDP);
    }
  }

  /** Of an accepted batch, every buffer to write has a virtio header's room in front of a non-empty packet. */
  lemma AcceptedLong(e: Endian, inp: seq<View>, offset: int, canUDP: bool)
    requires |inp| <= IDEAL_BATCH_SIZE && HandleGro(e, inp, offset, canUDP).1
    ensures
      var st := HandleGro(e, inp, offset, canUDP).0;
      && |st.toWrite| <= |inp|
      && forall k :: 0 <= k < |st.toWrite| ==>
           st.toWrite[k] < |st.bufs| && HDR_LEN <= offset < |st.bufs[st.toWrite[k]].bytes|
  {
    if |inp| > 0 {
      LoopSafe(e, Initial(inp), 0, offset, canUDP);
      LoopLong(e, Initial(inp), 0, offset, canUDP);
      FinishLong(e, GroLoop(e, Initial(inp), 0, offset, canUDP).0, offset);
    }
  }

  lemma FinishLong(e: Endian, st: GroState, offset: nat)
    requires Safe(st, offset) && HDR_LEN <= offset && Long(st, offset, |st.bufs|)
    ensures Long(Finish(e, st, offset), offset, |Finish(e, st, offset).bufs|)
    ensures |Finish(e, st, offset).bufs| == |st.bufs|
  {
    hide AccountBytes;
    forall j | 0 <= j < |st.bufs|
      ensures |FinishView(e, st, offset, j).bytes| == |st.bufs[j].bytes|
    {
    }
  }
}
