/** The write side of the device: tables that live across calls to Write, and what each call hands to the file. */
module Device {
  import opened Bytes
  import opened InternetChecksum
  import opened Virtio
  import opened Gro
  import opened Accounting
  import opened Slices
  import opened Buffers
  import opened GroTables
  import opened Handler
  import opened Lengths

  /** Buffer j can be written from offset on. */
  ghost predicate Writable(vs: seq<View>, offset: int, j: nat) {
    j < |vs| && 0 <= offset <= |vs[j].bytes|
  }

  /** The frames are the buffers with the given indices, from offset on, in order. */
  ghost predicate Handed(frames: seq<seq<byte>>, vs: seq<View>, toWrite: seq<nat>, offset: int) {
    && |frames| == |toWrite|
    && forall k :: 0 <= k < |toWrite| ==>
         Writable(vs, offset, toWrite[k]) && frames[k] == vs[toWrite[k]].bytes[offset..]
  }

  /** What the file answers to one write. */
  datatype Answer = Accepts | Refuses(error: nat) | BadDescriptor

  /** What Write returns: a closed file discards the errors collected before. */
  datatype WriteResult = Wrote(written: nat, errors: seq<nat>) | Closed(written: nat) | InvalidOffset

  /** The first of n answers that is a bad descriptor, or n. */
  function FirstBad(answers: seq<Answer>, n: nat): (k: nat)
    requires n <= |answers|
    ensures k <= n && (k < n ==> answers[k] == BadDescriptor)
    ensures forall i :: 0 <= i < k ==> answers[i] != BadDescriptor
  {
    if n == 0 then 0
    else
      var k := FirstBad(answers, n - 1);
      if k < n - 1 || answers[n - 1] == BadDescriptor then k else n
  }

  /** The errors among the first n answers, in order. */
  function Refusals(answers: seq<Answer>, n: nat): seq<nat>
    requires n <= |answers|
  {
    if n == 0 then []
    else Refusals(answers, n - 1) + if answers[n - 1].Refuses? then [answers[n - 1].error] else []
  }

  /** The number of buffers that are handed to the file. */
  function Tried(answers: seq<Answer>, n: nat): nat
    requires n <= |answers|
  {
    var k := FirstBad(answers, n);
    if k < n then k + 1 else n
  }

  /** The result of handing over n buffers: what was not refused before the file turned out to be closed was written. */
  function Result(answers: seq<Answer>, n: nat): (r: WriteResult)
    requires n <= |answers|
  {
    var k := FirstBad(answers, n);
    RefusalsBound(answers, k);
    if k < n then Closed(k - |Refusals(answers, k)|)
    else Wrote(n - |Refusals(answers, n)|, Refusals(answers, n))
  }

  lemma {:induction false} RefusalsBound(answers: seq<Answer>, n: nat)
    requires n <= |answers|
    ensures |Refusals(answers, n)| <= n
  {
    if n > 0 {
      RefusalsBound(answers, n - 1);
    }
  }

  /** The number of accepted writes among the first n answers. */
  function Acceptances(answers: seq<Answer>, n: nat): nat
    requires n <= |answers|
  {
    if n == 0 then 0 else Acceptances(answers, n - 1) + if answers[n - 1].Accepts? then 1 else 0
  }

  /**
   The count returned is that of the writes accepted before the first bad
   descriptor, and without one every error is returned.
   */
  lemma ResultCounts(answers: seq<Answer>, n: nat)
    requires n <= |answers|
    ensures
      var k := FirstBad(answers, n);
      && (k < n ==> Result(answers, n) == Closed(Acceptances(answers, k)))
      && (k == n ==> Result(answers, n) == Wrote(Acceptances(answers, n), Refusals(answers, n)))
  {
    CountsAdd(answers, FirstBad(answers, n));
  }

  lemma {:induction false} CountsAdd(answers: seq<Answer>, n: nat)
    requires n <= |answers| && forall i :: 0 <= i < n ==> answers[i] != BadDescriptor
    ensures Acceptances(answers, n) + |Refusals(answers, n)| == n
  {
    if n > 0 {
      CountsAdd(answers, n - 1);
    }
  }

  lemma {:induction false} FirstBadLater(answers: seq<Answer>, k: nat, n: nat)
    requires k <= n <= |answers|
    requires FirstBad(answers, k) == k && (k < n ==> answers[k] == BadDescriptor)
    ensures FirstBad(answers, n) == k
    decreases n
  {
    if k < n {
      FirstBadLater(answers, k, n - 1);
    }
  }

  /** writeBatch: answers are what the file says to one write after the other, frames what it is given. */
  method WriteBatch(bufs: array<Slice>, toWrite: seq<nat>, offset: int, answers: seq<Answer>,
                    ghost arrs: seq<array<byte>>, ghost vs: seq<View>)
    returns (frames: seq<seq<byte>>, result: WriteResult)
    requires Models(bufs, arrs, vs) && |toWrite| <= |answers|
    requires forall k :: 0 <= k < |toWrite| ==> Writable(vs, offset, toWrite[k])
    ensures Handed(frames, vs, toWrite[..Tried(answers, |toWrite|)], offset)
    ensures result == Result(answers, |toWrite|)
  {
    hide Models;
    frames := [];
    var written, errors := 0, [];
    for k := 0 to |toWrite|
      invariant |frames| == k == FirstBad(answers, k)
      invariant forall m :: 0 <= m < k ==> frames[m] == vs[toWrite[m]].bytes[offset..]
      invariant errors == Refusals(answers, k) && written == k - |errors|
    {
      assert Writable(vs, offset, toWrite[k]);
      ModelsAt(bufs, arrs, vs, toWrite[k]);
      BytesFromView(bufs[toWrite[k]], offset, vs[toWrite[k]].bytes);
      frames := frames + [BytesFrom(bufs[toWrite[k]], offset)];
      match answers[k] {
        case BadDescriptor =>
          FirstBadLater(answers, k, |toWrite|);
          return frames, Closed(written);
        case Refuses(error) => errors := errors + [error];
        case Accepts => written := written + 1;
      }
    }
    result := Wrote(written, errors);
  }

  lemma WritableFrames(e: Endian, inp: seq<View>, offset: int, canUDP: bool)
    requires |inp| <= IDEAL_BATCH_SIZE && HandleGro(e, inp, offset, canUDP).1
    ensures
      var st := HandleGro(e, inp, offset, canUDP).0;
      && |st.toWrite| <= |inp|
      && forall k :: 0 <= k < |st.toWrite| ==> Writable(st.bufs, offset - HDR_LEN, st.toWrite[k])
  {
    hide HandleGro;
    AcceptedLong(e, inp, offset, canUDP);
  }

  /** An empty table with its 128 lists in the pool. */
  ghost predicate Empty(table: GroTable)
    reads table, table.lists
  {
    table.Valid() && table.Items() == map[] && |table.itemsPool| == IDEAL_BATCH_SIZE
  }

  class NativeTun {
    const endian: Endian
    const vnetHdr: bool
    const udpGSO: bool
    const tcpGROTable: GroTable
    const udpGROTable: GroTable
    var toWrite: seq<nat>

    /** Between calls both tables are empty, with all 128 lists in their pools. */
    ghost predicate Idle()
      reads tcpGROTable, udpGROTable, tcpGROTable.lists, udpGROTable.lists
    {
      Apart(tcpGROTable, udpGROTable) && Empty(tcpGROTable) && Empty(udpGROTable)
    }

    constructor (endian: Endian, vnetHdr: bool, udpGSO: bool)
      ensures Idle() && fresh(tcpGROTable) && fresh(udpGROTable) && fresh(tcpGROTable.lists) && fresh(udpGROTable.lists)
      ensures this.endian == endian && this.vnetHdr == vnetHdr && this.udpGSO == udpGSO
    {
      this.endian, this.vnetHdr, this.udpGSO := endian, vnetHdr, udpGSO;
      toWrite := [];
      tcpGROTable := new GroTable();
      udpGROTable := new GroTable();
    }

    /** The deferred part of Write: both tables are reset, whatever the batch left in them. */
    method ResetTables()
      requires Apart(tcpGROTable, udpGROTable) && tcpGROTable.Valid() && udpGROTable.Valid()
      modifies tcpGROTable, udpGROTable
      ensures Idle()
    {
      hide GroTable.Valid;
      tcpGROTable.Reset();
      udpGROTable.Reset();
    }

    /**
     Write: answers are what the file says to one write after the other, frames
     what it is given. Every return, with an error or without, leaves the tables as
     empty as it found them.
     */
    method Write(bufs: array<Slice>, offset: int, answers: seq<Answer>, ghost arrs: seq<array<byte>>,
                 ghost inp: seq<View>)
      returns (frames: seq<seq<byte>>, result: WriteResult)
      requires Idle() && Models(bufs, arrs, inp) && |inp| <= IDEAL_BATCH_SIZE && |inp| <= |answers|
      requires !vnetHdr ==> forall i :: 0 <= i < |inp| ==> Writable(inp, offset, i)
      modifies this, bufs, arrs, tcpGROTable, udpGROTable, tcpGROTable.lists, udpGROTable.lists
      ensures Idle()
      ensures vnetHdr ==>
        var (st, accepted) := HandleGro(endian, inp, offset, udpGSO);
        && toWrite == st.toWrite && Models(bufs, arrs, st.bufs)
        && if accepted then
             && |toWrite| <= |answers| && result == Result(answers, |toWrite|)
             && Handed(frames, st.bufs, toWrite[..Tried(answers, |toWrite|)], offset - HDR_LEN)
           else frames == [] && result == InvalidOffset
      ensures !vnetHdr ==>
        && toWrite == seq(|inp|, i => i) && Models(bufs, arrs, inp)
        && result == Result(answers, |inp|)
        && Handed(frames, inp, toWrite[..Tried(answers, |inp|)], offset)
    {
      hide Models, GroTable.Valid, HandleGro, Handed, Writable;
      frames := [];
      if vnetHdr {
        var ok;
        toWrite, ok := HandleBatch(endian, bufs, offset, tcpGROTable, udpGROTable, udpGSO, arrs, inp);
        if ok {
          WritableFrames(endian, inp, offset, udpGSO);
          frames, result := WriteBatch(bufs, toWrite, offset - HDR_LEN, answers, arrs,
                                       HandleGro(endian, inp, offset, udpGSO).0.bufs);
        } else {
          result := InvalidOffset;
        }
      } else {
        ModelsSize(bufs, arrs, inp);
        toWrite := seq(bufs.Length, i => i);
        frames, result := WriteBatch(bufs, toWrite, offset, answers, arrs, inp);
      }
      ResetTables();
    }
  }
}
