/**
 The 16-bit one's-complement sum of RFC 1071 (section 1), as a plain sum of
 big-endian 16-bit words in unbounded arithmetic followed by folding.
 */
module OnesComplement {
  import opened Bytes

  /** The sum of the big-endian 16-bit words of s; an odd last byte is padded with a zero byte. */
  function WordSum(s: seq<byte>): nat {
    if |s| == 0 then 0
    else if |s| == 1 then 256 * (s[0] as int)
    else Get16(s, 0) + WordSum(s[2..])
  }

  /** The sum of the bytes of s, each with the weight that its position in its word gives it. */
  function WeightSum(s: seq<byte>): nat {
    if |s| == 0 then 0
    else WeightSum(s[..|s| - 1]) + if |s| % 2 == 1 then 256 * (s[|s| - 1] as int) else s[|s| - 1] as int
  }

  /** Every byte is counted once: 256 times at even positions, an odd last one included, and once at odd ones. */
  lemma {:induction false} WordSumWeights(s: seq<byte>)
    ensures WordSum(s) == WeightSum(s)
    decreases |s|
  {
    if |s| >= 2 {
      var n := if |s| % 2 == 0 then |s| - 2 else |s| - 1;
      var front, back := s[..n], s[n..];
      assert s == front + back && n % 2 == 0 && 1 <= |back| <= 2;
      WordSumConcat(front, back);
      WordSumWeights(front);
      if |back| == 2 {
        assert back[2..] == [] && s[..|s| - 1][..|s| - 2] == front;
      } else {
        assert s[..|s| - 1] == front;
      }
    } else if |s| == 1 {
      assert s[..0] == [];
    }
  }

  /** One end-around fold of a wide sum. */
  function Fold(x: nat): nat {
    x / TWO16 + x % TWO16
  }

  /** Folding until the sum fits in 16 bits (section 4.1 of RFC 1071). */
  function FoldAll(x: nat): nat
    decreases x
  {
    if x < TWO16 then x else FoldAll(Fold(x))
  }

  /** The reference checksum: add every word to initial, then fold until nothing is left to carry. */
  function Reference(s: seq<byte>, initial: nat): nat {
    FoldAll(initial + WordSum(s))
  }

  /** The 16-bit number that FoldAll reaches: x modulo 65535, with 65535 and not 0 for a non-zero x. */
  function Norm(x: nat): nat {
    if x == 0 then 0 else (x - 1) % 65535 + 1
  }

  function Times65535(k: int): int {
    65535 * k
  }

  /** a and b are congruent modulo 65535. */
  ghost predicate Congruent(a: int, b: int) {
    exists k :: a - b == Times65535(k)
  }

  lemma Congruence(a: int, b: int, k: int)
    requires a - b == 65535 * k
    ensures Congruent(a, b)
  {
    assert a - b == Times65535(k);
  }

  lemma CongruentTrans(a: int, b: int, c: int)
    requires Congruent(a, b) && Congruent(b, c)
    ensures Congruent(a, c)
  {
    var k :| a - b == Times65535(k);
    var l :| b - c == Times65535(l);
    Congruence(a, c, k + l);
  }

  lemma CongruentSym(a: int, b: int)
    requires Congruent(a, b)
    ensures Congruent(b, a)
  {
    var k :| a - b == Times65535(k);
    Congruence(b, a, -k);
  }

  lemma CongruentAdd(a: int, b: int, c: int, d: int)
    requires Congruent(a, b) && Congruent(c, d)
    ensures Congruent(a + c, b + d)
  {
    var k :| a - b == Times65535(k);
    var l :| c - d == Times65535(l);
    Congruence(a + c, b + d, k + l);
  }

  lemma FoldKeeps(x: nat)
    ensures Congruent(Fold(x), x)
    ensures Fold(x) == 0 <==> x == 0
    ensures Fold(x) <= x
  {
    var q := x / TWO16;
    assert x == TWO16 * q + x % TWO16;
    Congruence(Fold(x), x, -q);
  }

  /** Norm is decided by the residue and by whether the number is zero. */
  lemma NormUnique(x: nat, y: nat)
    requires Congruent(x, y)
    requires x == 0 <==> y == 0
    ensures Norm(x) == Norm(y)
  {
    var k :| x - y == Times65535(k);
    if x != 0 {
      assert x - 1 == (y - 1) + 65535 * k;
    }
  }

  lemma NormOf(x: nat)
    ensures Norm(x) < TWO16
    ensures Congruent(Norm(x), x)
    ensures Norm(x) == 0 <==> x == 0
  {
    if x == 0 {
      Congruence(0, 0, 0);
    } else {
      Congruence(Norm(x), x, -((x - 1) / 65535));
    }
  }

  /** FoldAll terminates in the canonical 16-bit representative. */
  lemma {:induction false} FoldAllIsNorm(x: nat)
    ensures FoldAll(x) == Norm(x)
    decreases x
  {
    if x >= TWO16 {
      FoldKeeps(x);
      FoldAllIsNorm(Fold(x));
      NormUnique(Fold(x), x);
    }
  }

  /** A partial sum may be folded before more is added. */
  lemma NormAbsorbs(x: nat, y: nat)
    ensures Norm(Norm(x) + y) == Norm(x + y)
  {
    NormOf(x);
    Congruence(y, y, 0);
    CongruentAdd(Norm(x), x, y, y);
    NormUnique(Norm(x) + y, x + y);
  }

  /** The receiver's test: the sum is all ones exactly when it is a non-zero multiple of 65535. */
  lemma NormIsOnes(x: nat)
    ensures Norm(x) == 65535 <==> x != 0 && x % 65535 == 0
  {
  }

  lemma {:induction false} WordSumConcat(a: seq<byte>, b: seq<byte>)
    requires |a| % 2 == 0
    ensures WordSum(a + b) == WordSum(a) + WordSum(b)
    decreases |a|
  {
    if |a| == 0 {
      assert a + b == b;
    } else {
      assert (a + b)[2..] == a[2..] + b;
      assert (a + b)[0] == a[0] && (a + b)[1] == a[1];
      WordSumConcat(a[2..], b);
    }
  }

  /** Changing one byte changes the sum by that byte's weight in its word. */
  lemma {:induction false} WordSumUpdate(s: seq<byte>, i: nat, v: byte)
    requires i < |s|
    ensures i % 2 == 0 ==> WordSum(s[i := v]) == WordSum(s) + 256 * (v as int) - 256 * (s[i] as int)
    ensures i % 2 == 1 ==> WordSum(s[i := v]) == WordSum(s) + v as int - s[i] as int
    decreases |s|
  {
    if i >= 2 {
      assert s[i := v][2..] == s[2..][i - 2 := v];
      assert s[2..][i - 2] == s[i];
      WordSumUpdate(s[2..], i - 2, v);
    } else if |s| >= 2 {
      assert s[i := v][2..] == s[2..];
    }
  }

  lemma WordSumUpdate2(s: seq<byte>, at: nat, hi: byte, lo: byte)
    requires at + 2 <= |s|
    ensures at % 2 == 0 ==>
      WordSum(s[at := hi][at + 1 := lo]) == WordSum(s) + 256 * (hi as int) + lo as int - Get16(s, at)
    ensures at % 2 == 1 ==>
      WordSum(s[at := hi][at + 1 := lo])
      == WordSum(s) + hi as int + 256 * (lo as int) - (s[at] as int + 256 * (s[at + 1] as int))
  {
    WordSumUpdate(s, at, hi);
    WordSumUpdate(s[at := hi], at + 1, lo);
    assert s[at := hi][at + 1] == s[at + 1];
    if at % 2 == 0 {
      assert (at + 1) % 2 == 1;
    } else {
      assert (at + 1) % 2 == 0;
    }
  }

  /** Writing a 16-bit field: at an even offset its value is a word; at an odd one its two bytes swap weights. */
  lemma WordSumPut16(s: seq<byte>, at: nat, v: nat)
    requires at + 2 <= |s| && v < TWO16
    ensures at % 2 == 0 ==> WordSum(Put16(s, at, v)) == WordSum(s) + v - Get16(s, at)
    ensures at % 2 == 1 ==>
      WordSum(Put16(s, at, v)) == WordSum(s) + (v / 256 + 256 * (v % 256)) - (s[at] as int + 256 * (s[at + 1] as int))
  {
    WordSumUpdate2(s, at, v / 256, v % 256);
  }

  /** A field computed as the complement of the sum with the field zeroed makes the whole sum all ones. */
  lemma ComplementVerifies(s: seq<byte>, at: nat, extra: nat)
    requires at + 2 <= |s| && at % 2 == 0
    requires Get16(s, at) == 0
    ensures
      var c := 65535 - Norm(extra + WordSum(s));
      0 <= c < TWO16 && Norm(extra + WordSum(Put16(s, at, c))) == 65535
  {
    var total := extra + WordSum(s);
    NormOf(total);
    var c := 65535 - Norm(total);
    WordSumPut16(s, at, c);
    var sum := extra + WordSum(Put16(s, at, c));
    assert sum == total + 65535 - Norm(total) > 0;
    var k :| Norm(total) - total == Times65535(k);
    assert sum == 65535 * (1 - k);
    NormIsOnes(sum);
  }

  /** The sum of the pseudo-header of RFC 9293 section 3.1 and RFC 8200 section 8.1. */
  function PseudoSum(protocol: byte, srcAddr: seq<byte>, dstAddr: seq<byte>, totalLen: nat): nat {
    WordSum(srcAddr) + WordSum(dstAddr) + protocol + totalLen
  }

  /**
   The bytes of the pseudo-header: addresses, zero, protocol and length for IPv4
   (section 3.1 of RFC 9293); addresses, length, zeros and next header for IPv6
   (section 8.1 of RFC 8200).
   */
  function PseudoHeader(src: seq<byte>, dst: seq<byte>, protocol: byte, len: nat, isV6: bool): seq<byte>
    requires len < TWO16
  {
    if isV6 then src + dst + [0, 0, len / 256, len % 256] + [0, 0, 0, protocol]
    else src + dst + [0, protocol] + [len / 256, len % 256]
  }

  lemma WordSum2(a: byte, b: byte)
    ensures WordSum([a, b]) == 256 * (a as int) + b as int
  {
    assert [a, b][2..] == [];
  }

  lemma WordSum4(a: byte, b: byte, c: byte, d: byte)
    ensures WordSum([a, b, c, d]) == 256 * (a as int) + b as int + 256 * (c as int) + d as int
  {
    assert [a, b, c, d] == [a, b] + [c, d];
    WordSumConcat([a, b], [c, d]);
    WordSum2(a, b);
    WordSum2(c, d);
  }

  /** The sum that the code starts from is that of the pseudo-header's bytes. */
  lemma PseudoHeaderSum(src: seq<byte>, dst: seq<byte>, protocol: byte, len: nat, isV6: bool)
    requires |src| == |dst| == (if isV6 then 16 else 4) && len < TWO16
    ensures PseudoSum(protocol, src, dst, len) == WordSum(PseudoHeader(src, dst, protocol, len, isV6))
  {
    hide WordSum;
    WordSumConcat(src, dst);
    if isV6 {
      WordSumConcat(src + dst, [0, 0, len / 256, len % 256]);
      WordSumConcat(src + dst + [0, 0, len / 256, len % 256], [0, 0, 0, protocol]);
      WordSum4(0, 0, len / 256, len % 256);
      WordSum4(0, 0, 0, protocol);
    } else {
      WordSumConcat(src + dst, [0, protocol]);
      WordSumConcat(src + dst + [0, protocol], [len / 256, len % 256]);
      WordSum2(0, protocol);
      WordSum2(len / 256, len % 256);
    }
  }
}
