/** Bytes, and the fixed-width big-endian fields of packet headers. */
module Bytes {
  type byte = b: int | 0 <= b < 256

  const TWO16 := 0x1_0000
  const TWO32 := 0x1_0000_0000
  const TWO64 := 0x1_0000_0000_0000_0000

  /** The conversion uint16(x): keeps the low 16 bits. */
  function Low16(x: int): (r: nat)
    ensures r < TWO16
    ensures 0 <= x < TWO16 ==> r == x
  {
    x % TWO16
  }

  /** The conversion uint32(x). */
  function Low32(x: int): (r: nat)
    ensures r < TWO32
    ensures 0 <= x < TWO32 ==> r == x
  {
    x % TWO32
  }

  function Get16(s: seq<byte>, at: nat): (v: nat)
    requires at + 2 <= |s|
    ensures v < TWO16
  {
    256 * (s[at] as int) + s[at + 1] as int
  }

  function Put16(s: seq<byte>, at: nat, v: nat): (r: seq<byte>)
    requires at + 2 <= |s| && v < TWO16
    ensures |r| == |s| && Get16(r, at) == v
    ensures forall i :: 0 <= i < |s| && i != at && i != at + 1 ==> r[i] == s[i]
  {
    s[at := v / 256][at + 1 := v % 256]
  }

  function Get32(s: seq<byte>, at: nat): (v: nat)
    requires at + 4 <= |s|
    ensures v < TWO32
  {
    TWO16 * Get16(s, at) + Get16(s, at + 2)
  }

  function Put32(s: seq<byte>, at: nat, v: nat): (r: seq<byte>)
    requires at + 4 <= |s| && v < TWO32
    ensures |r| == |s| && Get32(r, at) == v
    ensures forall i :: 0 <= i < |s| && !(at <= i < at + 4) ==> r[i] == s[i]
  {
    Put16(Put16(s, at, v / TWO16), at + 2, v % TWO16)
  }

  /** Writing one 16-bit field leaves the fields beside it alone. */
  lemma Put16Keeps(s: seq<byte>, at: nat, v: nat, other: nat)
    requires at + 2 <= |s| && v < TWO16
    ensures other + 2 <= |s| && (other + 2 <= at || at + 2 <= other) ==>
      Get16(Put16(s, at, v), other) == Get16(s, other)
    ensures other + 4 <= |s| && (other + 4 <= at || at + 2 <= other) ==>
      Get32(Put16(s, at, v), other) == Get32(s, other)
  {
    hide Put16;
  }

  lemma Put32Keeps(s: seq<byte>, at: nat, v: nat, other: nat)
    requires at + 4 <= |s| && v < TWO32
    ensures other + 2 <= |s| && (other + 2 <= at || at + 4 <= other) ==>
      Get16(Put32(s, at, v), other) == Get16(s, other)
  {
    hide Put32;
  }

  /** Fields seen through a window of s. */
  lemma GetWindow(s: seq<byte>, lo: nat, hi: nat, at: nat)
    requires lo <= hi <= |s|
    ensures at + 2 <= hi - lo ==> Get16(s[lo..hi], at) == Get16(s, lo + at)
    ensures at + 4 <= hi - lo ==> Get32(s[lo..hi], at) == Get32(s, lo + at)
  {
  }

  lemma GetSuffix(s: seq<byte>, lo: nat, at: nat)
    requires lo <= |s|
    ensures lo + at + 2 <= |s| ==> Get16(s[lo..], at) == Get16(s, lo + at)
    ensures lo + at + 4 <= |s| ==> Get32(s[lo..], at) == Get32(s, lo + at)
  {
  }

  /** s with the bytes from at on replaced by src: copy(s[at:], src) when src fits. */
  function Overwrite(s: seq<byte>, at: nat, src: seq<byte>): (r: seq<byte>)
    requires at + |src| <= |s|
    ensures |r| == |s|
    ensures r[at..at + |src|] == src
    ensures forall i :: 0 <= i < |s| && !(at <= i < at + |src|) ==> r[i] == s[i]
  {
    s[..at] + src + s[at + |src|..]
  }
}
