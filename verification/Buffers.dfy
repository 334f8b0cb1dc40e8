/**
 The batch of buffers that the write side works on: an array of slices, each
 with a backing array of its own. vs is what the array stands for, and arrs the
 backing arrays as the caller passed them.
 */
module Buffers {
  import opened Bytes
  import opened Virtio
  import opened Gro
  import opened Slices

  ghost predicate SliceIs(s: Slice, arrs: seq<array<byte>>, v: View)
    requires s.len <= s.arr.Length
    reads s.arr
  {
    && v.id < |arrs| && s.arr == arrs[v.id]
    && v.cap == s.arr.Length
    && v.bytes == s.arr[..s.len]
  }

  ghost predicate Distinct(arrs: seq<array<byte>>) {
    forall a, b :: 0 <= a < b < |arrs| ==> arrs[a] != arrs[b]
  }

  ghost predicate DistinctIds(vs: seq<View>) {
    forall j, k :: 0 <= j < k < |vs| ==> vs[j].id != vs[k].id
  }

  ghost predicate Models(bufs: array<Slice>, arrs: seq<array<byte>>, vs: seq<View>)
    reads bufs, arrs
  {
    && bufs.Length == |vs| && Distinct(arrs) && DistinctIds(vs)
    && (forall j :: 0 <= j < |vs| ==> bufs[j].arr in arrs && bufs[j].len <= bufs[j].arr.Length)
    && (forall j :: 0 <= j < |vs| ==> SliceIs(bufs[j], arrs, vs[j]))
  }

  lemma ModelsAt(bufs: array<Slice>, arrs: seq<array<byte>>, vs: seq<View>, j: nat)
    requires Models(bufs, arrs, vs) && j < |vs|
    ensures bufs.Length == |vs| && bufs[j].arr in arrs
    ensures bufs[j].len <= bufs[j].arr.Length && bufs[j].arr.Length == vs[j].cap
    ensures bufs[j].arr[..bufs[j].len] == vs[j].bytes && |vs[j].bytes| == bufs[j].len
  {
  }

  /** Two positions never share a backing array. */
  lemma ModelsDistinct(bufs: array<Slice>, arrs: seq<array<byte>>, vs: seq<View>, j: nat, k: nat)
    requires Models(bufs, arrs, vs) && j < |vs| && k < |vs| && j != k
    ensures bufs[j].arr != bufs[k].arr
  {
    assert SliceIs(bufs[j], arrs, vs[j]) && SliceIs(bufs[k], arrs, vs[k]);
    assert vs[j].id != vs[k].id;
  }

  /**
   The visible length of a buffer grows by the bytes of src, within its
   capacity: append(bufs[j], make([]byte, n)...) and the copy that follows.
   */
  method Extend(bufs: array<Slice>, j: nat, src: seq<byte>, ghost arrs: seq<array<byte>>, ghost vs: seq<View>)
    requires Models(bufs, arrs, vs) && j < |vs|
    requires |vs[j].bytes| + |src| <= vs[j].cap
    modifies bufs, arrs
    ensures Models(bufs, arrs, vs[j := vs[j].(bytes := vs[j].bytes + src)])
  {
    ModelsAt(bufs, arrs, vs, j);
    var s := bufs[j];
    forall k | 0 <= k < |vs| && k != j
      ensures bufs[k].arr != s.arr
    {
      ModelsDistinct(bufs, arrs, vs, j, k);
    }
    CopyInto(s.arr, s.len, src);
    bufs[j] := Slice(s.arr, s.len + |src|);
    ghost var vs' := vs[j := vs[j].(bytes := vs[j].bytes + src)];
    assert s.arr[..s.len + |src|] == vs[j].bytes + src;
    forall k | 0 <= k < |vs|
      ensures SliceIs(bufs[k], arrs, vs'[k])
    {
      assert old(SliceIs(bufs[k], arrs, vs[k]));
    }
  }

  /** Overwrites a part of the visible bytes of a buffer. */
  method Patch(bufs: array<Slice>, j: nat, at: nat, src: seq<byte>, ghost arrs: seq<array<byte>>, ghost vs: seq<View>)
    requires Models(bufs, arrs, vs) && j < |vs|
    requires at + |src| <= |vs[j].bytes|
    modifies arrs
    ensures bufs[..] == old(bufs[..])
    ensures Models(bufs, arrs, vs[j := vs[j].(bytes := Overwrite(vs[j].bytes, at, src))])
  {
    ModelsAt(bufs, arrs, vs, j);
    var s := bufs[j];
    forall k | 0 <= k < |vs| && k != j
      ensures bufs[k].arr != s.arr
    {
      ModelsDistinct(bufs, arrs, vs, j, k);
    }
    CopyInto(s.arr, at, src);
    ghost var vs' := vs[j := vs[j].(bytes := Overwrite(vs[j].bytes, at, src))];
    assert s.arr[..s.len] == Overwrite(vs[j].bytes, at, src);
    forall k | 0 <= k < |vs|
      ensures SliceIs(bufs[k], arrs, vs'[k])
    {
      assert old(SliceIs(bufs[k], arrs, vs[k]));
    }
  }

  /** bufs[i], bufs[j] = bufs[j], bufs[i]. */
  method Swap(bufs: array<Slice>, i: nat, j: nat, ghost arrs: seq<array<byte>>, ghost vs: seq<View>)
    requires Models(bufs, arrs, vs) && i < |vs| && j < |vs| && i != j
    modifies bufs
    ensures Models(bufs, arrs, vs[i := vs[j]][j := vs[i]])
  {
    bufs[i], bufs[j] := bufs[j], bufs[i];
    ghost var vs' := vs[i := vs[j]][j := vs[i]];
    forall k | 0 <= k < |vs|
      ensures bufs[k].arr in arrs && bufs[k].len <= bufs[k].arr.Length && SliceIs(bufs[k], arrs, vs'[k])
    {
      ghost var from := if k == i then j else if k == j then i else k;
      assert old(SliceIs(bufs[from], arrs, vs[from]));
    }
  }

  /** hdr.encode(bufs[j][offset-virtioNetHdrLen:]). */
  method WriteHeader(bufs: array<Slice>, j: nat, offset: nat, header: seq<byte>, ghost arrs: seq<array<byte>>,
                     ghost vs: seq<View>)
    requires Models(bufs, arrs, vs) && j < |vs| && |header| == HDR_LEN <= offset <= |vs[j].bytes|
    modifies arrs
    ensures bufs[..] == old(bufs[..])
    ensures Models(bufs, arrs, vs[j := vs[j].(bytes := WithHeader(vs[j].bytes, offset, header))])
  {
    Patch(bufs, j, offset - HDR_LEN, header, arrs, vs);
  }
}
