/**
 The 64-bit, native-endian checksum loop and its folds (checksum.go), proved
 equal to the 16-bit big-endian reference of RFC 1071. The byte order of the
 machine is a parameter.
 */
module InternetChecksum {
  import opened Bytes
  import opened OnesComplement

  datatype Endian = Little | Big

  function Pow256(n: nat): nat {
    if n == 0 then 1 else 256 * Pow256(n - 1)
  }

  /** The number that the bytes of b spell, least significant byte first. */
  function LittleValue(b: seq<byte>): nat {
    if |b| == 0 then 0 else b[0] as int + 256 * LittleValue(b[1..])
  }

  /** The number that the bytes of b spell, most significant byte first. */
  function BigValue(b: seq<byte>): nat {
    if |b| == 0 then 0 else 256 * BigValue(b[..|b| - 1]) + b[|b| - 1] as int
  }

  /** binary.NativeEndian.Uint16, Uint32 and Uint64, by the width of b. */
  function Native(e: Endian, b: seq<byte>): nat {
    if e == Little then LittleValue(b) else BigValue(b)
  }

  function ToLittle(x: nat, n: nat): (b: seq<byte>)
    ensures |b| == n
  {
    if n == 0 then [] else [x % 256] + ToLittle(x / 256, n - 1)
  }

  function ToBig(x: nat, n: nat): (b: seq<byte>)
    ensures |b| == n
  {
    if n == 0 then [] else ToBig(x / 256, n - 1) + [x % 256]
  }

  /** binary.NativeEndian.PutUint64 and PutUint16, by the width n. */
  function ToNative(e: Endian, x: nat, n: nat): (b: seq<byte>)
    ensures |b| == n
  {
    if e == Little then ToLittle(x, n) else ToBig(x, n)
  }

  lemma {:induction false} LittleBound(b: seq<byte>)
    ensures LittleValue(b) < Pow256(|b|)
  {
    if |b| > 0 {
      LittleBound(b[1..]);
    }
  }

  lemma {:induction false} BigBound(b: seq<byte>)
    ensures BigValue(b) < Pow256(|b|)
  {
    if |b| > 0 {
      BigBound(b[..|b| - 1]);
    }
  }

  lemma NativeBound(e: Endian, b: seq<byte>)
    requires |b| == 2 || |b| == 4 || |b| == 8
    ensures Native(e, b) < TWO64
  {
    LittleBound(b);
    BigBound(b);
    assert Pow256(2) == 65536;
    assert Pow256(4) == 65536 * 65536;
    assert Pow256(6) == 65536 * 65536 * 65536;
    assert Pow256(8) == TWO64;
  }

  lemma {:induction false} LittleRoundTrip(x: nat, n: nat)
    requires x < Pow256(n)
    ensures LittleValue(ToLittle(x, n)) == x
  {
    if n > 0 {
      LittleRoundTrip(x / 256, n - 1);
    }
  }

  lemma {:induction false} BigRoundTrip(x: nat, n: nat)
    requires x < Pow256(n)
    ensures BigValue(ToBig(x, n)) == x
  {
    if n > 0 {
      BigRoundTrip(x / 256, n - 1);
      assert ToBig(x, n)[..n - 1] == ToBig(x / 256, n - 1);
    }
  }

  /** Writing a number in the machine's byte order and reading it back gives the number. */
  lemma NativeRoundTrip(e: Endian, x: nat, n: nat)
    requires x < Pow256(n)
    ensures Native(e, ToNative(e, x, n)) == x
  {
    LittleRoundTrip(x, n);
    BigRoundTrip(x, n);
  }

  /** Read least significant byte first, every 16-bit word is off by a factor of 256 modulo 65535. */
  lemma {:induction false} LittleIsScaledSum(b: seq<byte>)
    requires |b| % 2 == 0
    ensures Congruent(256 * LittleValue(b), WordSum(b))
    ensures LittleValue(b) == 0 <==> WordSum(b) == 0
    decreases |b|
  {
    if |b| > 0 {
      var t := b[2..];
      LittleIsScaledSum(t);
      assert b[1..][1..] == t;
      assert LittleValue(b) == b[0] as int + 256 * (b[1] as int + 256 * LittleValue(t));
      var k :| 256 * LittleValue(t) - WordSum(t) == Times65535(k);
      Congruence(256 * LittleValue(b), WordSum(b), k + b[1] as int + 256 * LittleValue(t));
    } else {
      Congruence(0, 0, 0);
    }
  }

  /** Read most significant byte first, a number is congruent to the sum of its 16-bit words. */
  lemma {:induction false} BigIsSum(b: seq<byte>)
    requires |b| % 2 == 0
    ensures Congruent(BigValue(b), WordSum(b))
    ensures BigValue(b) == 0 <==> WordSum(b) == 0
    decreases |b|
  {
    if |b| > 0 {
      var n := |b|;
      var t := b[..n - 2];
      BigIsSum(t);
      assert b == t + b[n - 2..];
      WordSumConcat(t, b[n - 2..]);
      assert WordSum(b[n - 2..]) == Get16(b, n - 2);
      assert b[..n - 1][..n - 2] == t;
      assert BigValue(b[..n - 1]) == 256 * BigValue(t) + b[n - 2] as int;
      var k :| BigValue(t) - WordSum(t) == Times65535(k);
      Congruence(BigValue(b), WordSum(b), k + BigValue(t));
    } else {
      Congruence(0, 0, 0);
    }
  }

  /** What a native accumulator stands for, as a big-endian sum. */
  function Scale(e: Endian, x: nat): nat {
    if e == Little then 256 * x else x
  }

  lemma NativeIsSum(e: Endian, b: seq<byte>)
    requires |b| % 2 == 0
    ensures Congruent(Scale(e, Native(e, b)), WordSum(b))
    ensures Native(e, b) == 0 <==> WordSum(b) == 0
  {
    LittleIsScaledSum(b);
    BigIsSum(b);
  }

  /** bits.Add64. */
  function Add64(x: nat, y: nat, carry: nat): (nat, nat) {
    ((x + y + carry) % TWO64, (x + y + carry) / TWO64)
  }

  /**
   The accumulator and its pending carry stand for total: congruent to it
   modulo 65535, zero only when it is, and with room for the carry.
   */
  ghost predicate Represents(e: Endian, ac: nat, carry: nat, total: nat) {
    && ac < TWO64 && carry <= 1
    && (carry == 1 ==> ac <= TWO64 - 2)
    && Congruent(Scale(e, ac + carry), total)
    && (ac + carry == 0 <==> total == 0)
  }

  /** Dropping a carry of 2^64 and adding 1 back keeps the residue, because 65535 divides 2^64 - 1. */
  lemma CongruentSum(e: Endian, a: nat, b: nat, c: nat, x: nat, y: nat)
    requires Congruent(Scale(e, a), x) && Congruent(Scale(e, b), y)
    requires a + b - c == TWO64 - 1 || a + b == c
    ensures Congruent(Scale(e, c), x + y)
  {
    CongruentAdd(Scale(e, a), x, Scale(e, b), y);
    var m := if a + b == c then 0 else if e == Little then 256 * 0x1_0001_0001_0001 else 0x1_0001_0001_0001;
    assert Scale(e, c) - (Scale(e, a) + Scale(e, b)) == -65535 * m;
    Congruence(Scale(e, c), Scale(e, a) + Scale(e, b), -m);
    CongruentTrans(Scale(e, c), Scale(e, a) + Scale(e, b), x + y);
  }

  /** One Add64 of a chain: the carry never exceeds what a later carry can still absorb. */
  lemma AddWordStep(e: Endian, ac: nat, carry: nat, total: nat, w: seq<byte>)
    requires Represents(e, ac, carry, total)
    requires |w| == 2 || |w| == 4 || |w| == 8
    ensures
      var (ac', carry') := Add64(ac, Native(e, w), carry);
      Represents(e, ac', carry', total + WordSum(w))
  {
    NativeBound(e, w);
    NativeIsSum(e, w);
    var v := Native(e, w);
    var (ac', carry') := Add64(ac, v, carry);
    assert ac' + TWO64 * carry' == ac + v + carry;
    CongruentSum(e, ac + carry, v, ac' + carry', total, WordSum(w));
  }

  /** Adds the word of the given width at b[at..], extending the sum over b by that word. */
  method AddWord(e: Endian, ac: nat, b: seq<byte>, at: nat, width: nat, carry: nat, ghost total: nat)
    returns (ac': nat, carry': nat)
    requires width == 2 || width == 4 || width == 8
    requires at % 2 == 0 && at + width <= |b|
    requires Represents(e, ac, carry, total + WordSum(b[..at]))
    ensures Represents(e, ac', carry', total + WordSum(b[..at + width]))
  {
    var w := b[at..at + width];
    AddWordStep(e, ac, carry, total + WordSum(b[..at]), w);
    assert b[..at + width] == b[..at] + w;
    WordSumConcat(b[..at], w);
    var r := Add64(ac, Native(e, w), carry);
    ac', carry' := r.0, r.1;
  }

  lemma SkipPrefix(b: seq<byte>, n: nat)
    requires n % 2 == 0 && n <= |b|
    ensures WordSum(b) == WordSum(b[..n]) + WordSum(b[n..])
  {
    assert b == b[..n] + b[n..];
    WordSumConcat(b[..n], b[n..]);
  }

  /** The accumulator, with what rest still adds, stands for goal. */
  ghost predicate Stands(e: Endian, ac: nat, rest: seq<byte>, goal: nat) {
    WordSum(rest) <= goal && Represents(e, ac, 0, goal - WordSum(rest))
  }

  /** The end of a chain: the carry is added in without wrapping, and the first n bytes are done. */
  lemma EndChain(e: Endian, ac: nat, carry: nat, b: seq<byte>, n: nat, goal: nat)
    requires n % 2 == 0 && n <= |b| && WordSum(b) <= goal
    requires Represents(e, ac, carry, goal - WordSum(b) + WordSum(b[..n]))
    ensures ac + carry < TWO64
    ensures Stands(e, ac + carry, b[n..], goal)
  {
    SkipPrefix(b, n);
  }

  /** initial in native order on entry, and the accumulator in big-endian order on return. */
  function SwapToBig(e: Endian, x: nat): nat {
    BigValue(ToNative(e, x, 8))
  }

  lemma SwapIsScale(e: Endian, x: nat)
    requires x < TWO64
    ensures SwapToBig(e, x) < TWO64
    ensures Congruent(SwapToBig(e, x), Scale(e, x))
    ensures Congruent(Scale(e, SwapToBig(e, x)), x)
    ensures SwapToBig(e, x) == 0 <==> x == 0
  {
    var b := ToNative(e, x, 8);
    NativeBound(Big, b);
    assert Pow256(6) == 65536 * 65536 * 65536;
    assert Pow256(8) == TWO64;
    NativeRoundTrip(e, x, 8);
    NativeIsSum(e, b);
    BigIsSum(b);
    SwapResidues(e, x, BigValue(b), WordSum(b));
  }

  lemma SwapResidues(e: Endian, x: nat, r: nat, sum: nat)
    requires Congruent(Scale(e, x), sum) && Congruent(r, sum)
    ensures Congruent(r, Scale(e, x))
    ensures Congruent(Scale(e, r), x)
  {
    CongruentSym(Scale(e, x), sum);
    CongruentTrans(r, sum, Scale(e, x));
    if e == Little {
      var k :| r - 256 * x == Times65535(k);
      Congruence(256 * r, x, 256 * k + x);
    }
  }

  /**
   One unrolled block of checksumNoFold: n bytes of b, added width bytes at a
   time in one carry chain that starts without a carry and ends by adding it in.
   */
  method AddBlock(e: Endian, ac: nat, b: seq<byte>, n: nat, width: nat, ghost goal: nat) returns (ac': nat)
    requires (width == 8 && n % 8 == 0) || (width == n && (n == 2 || n == 4))
    requires n <= |b|
    requires Stands(e, ac, b, goal)
    ensures Stands(e, ac', b[n..], goal)
  {
    var at, carry: nat := 0, 0;
    ac' := ac;
    ghost var done := goal - WordSum(b);
    assert b[..0] == [];
    assert Represents(e, ac, 0, done + WordSum(b[..0]));
    assert Represents(e, ac, 0, done + WordSum(b[..n])) ==> ac + 0 < TWO64;
    hide WordSum, Represents, Congruent;
    while at < n
      invariant at <= n && if width == 8 then at % 8 == 0 else at == 0 || at == n
      invariant Represents(e, ac', carry, done + WordSum(b[..at]))
    {
      ac', carry := AddWord(e, ac', b, at, width, carry, done);
      at := at + width;
    }
    EndChain(e, ac', carry, b, n, goal);
    ac' := ac' + carry;
  }

  lemma StartStands(e: Endian, initial: nat, data: seq<byte>)
    requires initial < TWO64
    ensures Stands(e, SwapToBig(e, initial), data, initial + WordSum(data))
  {
    SwapIsScale(e, initial);
  }

  /**
   checksumNoFold: the sum of initial and of the words of data, kept in 64 bits
   with end-around carries. It is zero only for a zero initial and all-zero data.
   */
  method ChecksumNoFold(e: Endian, data: seq<byte>, initial: nat) returns (r: nat)
    requires initial < TWO64
    ensures r < TWO64
    ensures Congruent(r, initial + WordSum(data))
    ensures r == 0 <==> initial + WordSum(data) == 0
  {
    var ac: nat := SwapToBig(e, initial);
    StartStands(e, initial, data);
    var b := data;
    ghost var goal := initial + WordSum(data);
    hide WordSum, SwapToBig, Represents, Congruent;
    while |b| >= 128
      invariant Stands(e, ac, b, goal)
      decreases |b|
    {
      ac := AddBlock(e, ac, b, 128, 8, goal);
      b := b[128..];
    }
    r := ChecksumTail(e, ac, b, goal);
  }

  /** checksumNoFold after its loop: fewer than 128 bytes are left. */
  method ChecksumTail(e: Endian, start: nat, data: seq<byte>, ghost goal: nat) returns (r: nat)
    requires |data| < 128
    requires Stands(e, start, data, goal)
    ensures r < TWO64
    ensures Congruent(r, goal)
    ensures r == 0 <==> goal == 0
  {
    var ac, b := start, data;
    if |b| >= 64 {
      ac := AddBlock(e, ac, b, 64, 8, goal);
      b := b[64..];
    }
    if |b| >= 32 {
      ac := AddBlock(e, ac, b, 32, 8, goal);
      b := b[32..];
    }
    if |b| >= 16 {
      ac := AddBlock(e, ac, b, 16, 8, goal);
      b := b[16..];
    }
    r := ChecksumLast(e, ac, b, goal);
  }

  /** The end of checksumNoFold: fewer than 16 bytes are left, then the byte order changes. */
  method ChecksumLast(e: Endian, start: nat, data: seq<byte>, ghost goal: nat) returns (r: nat)
    requires |data| < 16
    requires Stands(e, start, data, goal)
    ensures r < TWO64
    ensures Congruent(r, goal)
    ensures r == 0 <==> goal == 0
  {
    var ac, b := start, data;
    if |b| >= 8 {
      ac := AddBlock(e, ac, b, 8, 8, goal);
      b := b[8..];
    }
    if |b| >= 4 {
      ac := AddBlock(e, ac, b, 4, 4, goal);
      b := b[4..];
    }
    if |b| >= 2 {
      ac := AddBlock(e, ac, b, 2, 2, goal);
      b := b[2..];
    }
    r := LastByte(e, ac, b, goal);
  }

  /** The end of checksumNoFold: an odd last byte padded with a zero, and the change of byte order. */
  method LastByte(e: Endian, ac: nat, b: seq<byte>, ghost goal: nat) returns (r: nat)
    requires |b| <= 1
    requires Stands(e, ac, b, goal)
    ensures r < TWO64
    ensures Congruent(r, goal)
    ensures r == 0 <==> goal == 0
  {
    var total: nat := ac;
    if |b| == 1 {
      SingleWord(b[0], 0);
      total := AddBlock(e, ac, [b[0], 0], 2, 2, goal);
    }
    r := SwapToBig(e, total);
    SwapIsScale(e, total);
    CongruentTrans(r, Scale(e, total), goal);
  }

  /** Four folds take every 64-bit value into 16 bits. */
  lemma FourFoldsSuffice(x: nat)
    requires x < TWO64
    ensures Fold(Fold(Fold(Fold(x)))) < TWO16
    ensures Fold(Fold(Fold(Fold(x)))) == Norm(x)
  {
    var x1, x2, x3, x4 := Fold(x), Fold(Fold(x)), Fold(Fold(Fold(x))), Fold(Fold(Fold(Fold(x))));
    FoldKeeps(x);
    FoldKeeps(x1);
    FoldKeeps(x2);
    FoldKeeps(x3);
    assert x1 <= 0x1_0000_0000_0000 + 0xFFFE;
    assert x2 <= 0x1_0000_0000 + 0xFFFE;
    assert x3 <= 0x1_FFFE;
    assert x4 < TWO16;
    CongruentTrans(x2, x1, x);
    CongruentTrans(x3, x2, x);
    CongruentTrans(x4, x3, x);
    NormUnique(x4, x);
  }

  /** Three folds are not enough. */
  lemma ThreeFoldsDoNotSuffice()
    ensures Fold(Fold(Fold(0xFFFF_0000_FFFF_0000))) >= TWO16
  {
  }

  lemma FoldsReach(x: nat, total: nat)
    requires x < TWO64 && Congruent(x, total) && (x == 0 <==> total == 0)
    ensures Fold(Fold(Fold(Fold(x)))) == FoldAll(total) == Norm(total) < TWO16
  {
    FourFoldsSuffice(x);
    NormUnique(x, total);
    FoldAllIsNorm(total);
  }

  /** checksum: equal, for every input and either byte order, to the 16-bit reference. */
  method Checksum(e: Endian, data: seq<byte>, initial: nat) returns (r: nat)
    requires initial < TWO64
    ensures r == Reference(data, initial)
    ensures r == Norm(initial + WordSum(data)) < TWO16
  {
    var ac := ChecksumNoFold(e, data, initial);
    FoldsReach(ac, initial + WordSum(data));
    hide *;
    ac := Fold(ac);
    ac := Fold(ac);
    ac := Fold(ac);
    ac := Fold(ac);
    r := Low16(ac);
  }

  /** pseudoHeaderChecksumNoFold: four chained sums that add up to the pseudo-header's. */
  method PseudoHeaderChecksumNoFold(e: Endian, protocol: byte, srcAddr: seq<byte>, dstAddr: seq<byte>, totalLen: nat)
    returns (sum: nat)
    requires totalLen < TWO16
    ensures sum < TWO64
    ensures Congruent(sum, PseudoSum(protocol, srcAddr, dstAddr, totalLen))
    ensures sum == 0 <==> PseudoSum(protocol, srcAddr, dstAddr, totalLen) == 0
    ensures |srcAddr| == |dstAddr| == 4 ==>
      Congruent(sum, WordSum(srcAddr + dstAddr + [0, protocol] + [totalLen / 256, totalLen % 256]))
    ensures |srcAddr| == |dstAddr| == 16 ==>
      Congruent(sum, WordSum(srcAddr + dstAddr + [0, 0, totalLen / 256, totalLen % 256] + [0, 0, 0, protocol]))
  {
    sum := ChecksumNoFold(e, srcAddr, 0);
    ghost var total: nat := WordSum(srcAddr);
    sum := ExtendSum(e, dstAddr, sum, total);
    total := total + WordSum(dstAddr);
    SingleWord(0, protocol);
    sum := ExtendSum(e, [0, protocol], sum, total);
    total := total + protocol;
    var tmp := Put16([0, 0], 0, totalLen);
    SingleWord(tmp[0], tmp[1]);
    assert tmp == [tmp[0], tmp[1]] && WordSum(tmp) == totalLen;
    sum := ExtendSum(e, tmp, sum, total);
    if |srcAddr| == |dstAddr| == 4 {
      PseudoHeaderSum(srcAddr, dstAddr, protocol, totalLen, false);
    } else if |srcAddr| == |dstAddr| == 16 {
      PseudoHeaderSum(srcAddr, dstAddr, protocol, totalLen, true);
    }
  }

  lemma SingleWord(hi: byte, lo: byte)
    ensures WordSum([hi, lo]) == 256 * (hi as int) + lo as int
  {
    assert [hi, lo][2..] == [];
  }

  /** ChecksumNoFold continued from a sum that already stands for total. */
  method ExtendSum(e: Endian, data: seq<byte>, sum: nat, ghost total: nat) returns (r: nat)
    requires sum < TWO64
    requires Congruent(sum, total) && (sum == 0 <==> total == 0)
    ensures r < TWO64
    ensures Congruent(r, total + WordSum(data))
    ensures r == 0 <==> total + WordSum(data) == 0
  {
    r := ChecksumNoFold(e, data, sum);
    Congruence(WordSum(data), WordSum(data), 0);
    CongruentAdd(sum, total, WordSum(data), WordSum(data));
    CongruentTrans(r, sum + WordSum(data), total + WordSum(data));
  }

  /** A checksum started from a no-fold sum continues that sum. */
  lemma ChainedChecksum(sum: nat, expected: nat, data: seq<byte>)
    requires Congruent(sum, expected) && (sum == 0 <==> expected == 0)
    ensures Norm(sum + WordSum(data)) == Norm(expected + WordSum(data))
  {
    Congruence(WordSum(data), WordSum(data), 0);
    CongruentAdd(sum, expected, WordSum(data), WordSum(data));
    NormUnique(sum + WordSum(data), expected + WordSum(data));
  }
}
