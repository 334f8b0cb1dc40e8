/**
 Byte slices as the source passes them: a backing array and a visible length.
 Slices start at the beginning of their arrays, so an array's length is the capacity.
 */
module Slices {
  import opened Bytes

  datatype Slice = Slice(arr: array<byte>, len: nat)

  /** The visible bytes from offset on: s[offset:]. */
  function BytesFrom(s: Slice, offset: nat): (r: seq<byte>)
    requires offset <= s.len <= s.arr.Length
    reads s.arr
    ensures |r| == s.len - offset
  {
    s.arr[offset..s.len]
  }

  lemma BytesFromView(s: Slice, offset: nat, bytes: seq<byte>)
    requires offset <= s.len <= s.arr.Length && s.arr[..s.len] == bytes
    ensures BytesFrom(s, offset) == bytes[offset..]
  {
  }

  /** copy(dst[at:], src). */
  method CopyInto(dst: array<byte>, at: nat, src: seq<byte>)
    requires at + |src| <= dst.Length
    modifies dst
    ensures dst[..] == Overwrite(old(dst[..]), at, src)
  {
    for i := 0 to |src|
      invariant forall k :: 0 <= k < i ==> dst[at + k] == src[k]
      invariant forall k :: 0 <= k < dst.Length && !(at <= k < at + i) ==> dst[k] == old(dst[k])
    {
      dst[at + i] := src[i];
    }
    ghost var want := Overwrite(old(dst[..]), at, src);
    forall k | 0 <= k < dst.Length
      ensures dst[k] == want[k]
    {
      if at <= k < at + |src| {
        assert want[k] == want[at..at + |src|][k - at];
      }
    }
  }

  /**
   s is s0 with a window at base that reads pre + cur + post. Writes inside the
   window are described by what they do to cur.
   */
  ghost predicate Window(s: seq<byte>, s0: seq<byte>, base: nat, pre: seq<byte>, cur: seq<byte>, post: seq<byte>) {
    && base + |pre| + |cur| + |post| <= |s0|
    && s == Overwrite(s0, base, pre + cur + post)
  }

  lemma WindowSize(s: seq<byte>, s0: seq<byte>, base: nat, pre: seq<byte>, cur: seq<byte>, post: seq<byte>)
    requires Window(s, s0, base, pre, cur, post)
    ensures |s| == |s0| && base + |pre| + |cur| + |post| <= |s0|
    ensures s[base + |pre|..base + |pre| + |cur|] == cur
  {
  }

  lemma WindowPut(s: seq<byte>, s0: seq<byte>, base: nat, pre: seq<byte>, cur: seq<byte>, post: seq<byte>, k: nat,
                  v: byte)
    requires Window(s, s0, base, pre, cur, post) && k < |cur|
    ensures base + |pre| + k < |s|
    ensures Window(s[base + |pre| + k := v], s0, base, pre, cur[k := v], post)
  {
    assert (pre + cur + post)[|pre| + k := v] == pre + cur[k := v] + post;
  }

  lemma WindowCopy(s: seq<byte>, s0: seq<byte>, base: nat, pre: seq<byte>, cur: seq<byte>, post: seq<byte>,
                   src: seq<byte>)
    requires Window(s, s0, base, pre, cur, post) && |src| == |cur|
    ensures base + |pre| + |src| <= |s|
    ensures Window(Overwrite(s, base + |pre|, src), s0, base, pre, src, post)
  {
  }

  lemma WindowRegroup(s: seq<byte>, s0: seq<byte>, base: nat, pre: seq<byte>, cur: seq<byte>, post: seq<byte>,
                      pre': seq<byte>, cur': seq<byte>, post': seq<byte>)
    requires Window(s, s0, base, pre, cur, post)
    requires pre' + cur' + post' == pre + cur + post
    ensures Window(s, s0, base, pre', cur', post')
  {
    assert |pre' + cur' + post'| == |pre + cur + post|;
  }

  /** Any part of an array is a window on itself. */
  lemma WindowOpen(s: seq<byte>, base: nat, n: nat)
    requires base + n <= |s|
    ensures Window(s, s, base, [], s[base..base + n], [])
  {
    assert [] + s[base..base + n] + [] == s[base..base + n];
  }

  lemma WindowClose(s: seq<byte>, s0: seq<byte>, base: nat, w: seq<byte>)
    requires Window(s, s0, base, [], w, [])
    ensures base + |w| <= |s0| && s == Overwrite(s0, base, w)
  {
    assert [] + w + [] == w;
  }

  method PutByte(dst: array<byte>, start: nat, k: nat, v: byte, ghost s0: seq<byte>, ghost base: nat,
                 ghost pre: seq<byte>, ghost cur: seq<byte>, ghost post: seq<byte>)
    requires Window(dst[..], s0, base, pre, cur, post) && start == base + |pre| && k < |cur|
    modifies dst
    ensures Window(dst[..], s0, base, pre, cur[k := v], post)
  {
    hide Window;
    WindowPut(dst[..], s0, base, pre, cur, post, k, v);
    ghost var before := dst[..];
    dst[start + k] := v;
    assert dst[..] == before[start + k := v];
  }

  /** binary.BigEndian.PutUint16. */
  method PutField(dst: array<byte>, start: nat, k: nat, v: nat, ghost s0: seq<byte>, ghost base: nat,
                  ghost pre: seq<byte>, ghost cur: seq<byte>, ghost post: seq<byte>)
    requires Window(dst[..], s0, base, pre, cur, post) && start == base + |pre| && k + 2 <= |cur| && v < TWO16
    modifies dst
    ensures Window(dst[..], s0, base, pre, Put16(cur, k, v), post)
  {
    hide Window;
    PutByte(dst, start, k, v / 256, s0, base, pre, cur, post);
    PutByte(dst, start, k + 1, v % 256, s0, base, pre, cur[k := v / 256], post);
  }

  /** binary.BigEndian.PutUint32. */
  method PutField32(dst: array<byte>, start: nat, k: nat, v: nat, ghost s0: seq<byte>, ghost base: nat,
                    ghost pre: seq<byte>, ghost cur: seq<byte>, ghost post: seq<byte>)
    requires Window(dst[..], s0, base, pre, cur, post) && start == base + |pre| && k + 4 <= |cur| && v < TWO32
    modifies dst
    ensures Window(dst[..], s0, base, pre, Put32(cur, k, v), post)
  {
    hide Window, Put16;
    PutField(dst, start, k, v / TWO16, s0, base, pre, cur, post);
    PutField(dst, start, k + 2, v % TWO16, s0, base, pre, Put16(cur, k, v / TWO16), post);
  }

  /** copy over a part of a window. */
  method CopyField(dst: array<byte>, start: nat, src: seq<byte>, ghost s0: seq<byte>, ghost base: nat,
                   ghost pre: seq<byte>, ghost cur: seq<byte>, ghost post: seq<byte>)
    requires Window(dst[..], s0, base, pre, cur, post) && start == base + |pre| && |src| == |cur|
    modifies dst
    ensures Window(dst[..], s0, base, pre, src, post)
  {
    hide Window;
    WindowCopy(dst[..], s0, base, pre, cur, post, src);
    CopyInto(dst, start, src);
  }
}
