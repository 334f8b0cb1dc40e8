/** When the PSH flag of a coalesced packet is visible to the reader. */
module PshFlag {
  import opened Bytes
  import opened Gro
  import opened Coalescing
  import opened Joining

  /** The TCP flags of the packet in front of an item. */
  function FrontFlags(item: GroItem, v: View, offset: nat): byte
    requires offset + item.iphLen + 13 < |v.bytes|
  {
    v.bytes[offset + item.iphLen + 13]
  }

  /**
   After a coalescing, the header in front shows the PSH flag that the item
   records exactly when the packet was appended, or the item had no PSH.
   Prepending to an item that ends in PSH hides the flag from the reader.
   */
  lemma PshShown(mode: CanCoalesce, item: GroItem, v: View, os: seq<nat>, inp: seq<View>, i: nat, info: Info,
                 offset: nat)
    requires CanJoin(mode, item, v, os, inp, i, info, offset) && item.TcpItem?
    ensures offset + item.HeaderLen() <= |v.bytes| && i < |inp| && offset + item.HeaderLen() <= |inp[i].bytes|
    ensures item.tcphLen >= 20
    ensures
      var item' := MergedItem(mode, info, item);
      var v' := MergedView(mode, inp[i], info, item, v, offset);
      && item'.TcpItem? && offset + item'.iphLen + 13 < |v'.bytes|
      && ((FrontFlags(item', v', offset) == FLAG_ACK_PSH <==> item'.pshSet) <==> mode == Append || !item.pshSet)
  {
    hide CanJoin, ItemInv, ItemBasics, ItemShapes, ItemPayloads, ItemHeader, ItemSequence, ItemChecked, Admit, Member,
         MergedItem, MergedView, SetPsh, Low16, Low32, ArrivedLast;
    JoinBounds(mode, item, v, os, inp, i, info, offset);
    BasicsOf(item, v, os, inp, offset);
    JoinModes(mode, item, v, os, inp, i, info, offset);
    CountBound(item, v, os, inp, offset);
    MergedFields(mode, info, item);
    MergedBytes(mode, inp[i], info, item, v, offset);
    JoinHeader(mode, item, v, os, inp, i, info, offset);
    JoinLater(mode, item, v, os, inp, i, info, offset);
    JoinedLast(mode, os, i);
    var item', v' := MergedItem(mode, info, item), MergedView(mode, inp[i], info, item, v, offset);
    HeaderFlags(item', v', Joined(mode, os, i), inp, offset);
    if mode == Append {
      assert !item.pshSet by {
        AppendFacts(item, v, os, inp, i, info, offset);
      }
    }
  }

  /** The last packet in stream order is still the last to have arrived exactly after an append. */
  lemma JoinedLast(mode: CanCoalesce, os: seq<nat>, i: nat)
    requires |os| > 0 && forall m :: 0 <= m < |os| ==> os[m] < i
    ensures ArrivedLast(Joined(mode, os, i)) <==> mode != Prepend
  {
    var os' := Joined(mode, os, i);
    if mode == Prepend {
      assert os'[0] == i && os'[|os'| - 1] == os[|os| - 1] < i;
    } else {
      assert forall m :: 0 <= m < |os'| - 1 ==> os'[m] == os[m];
    }
  }

  lemma HeaderFlags(item: GroItem, v: View, os: seq<nat>, inp: seq<View>, offset: nat)
    requires item.TcpItem? && ItemBasics(item, v, os, inp, offset) && ItemHeader(item, v, os, inp, offset)
    ensures FrontFlags(item, v, offset) == FLAG_ACK_PSH <==> item.pshSet && ArrivedLast(os)
  {
    hide Member;
  }
}
