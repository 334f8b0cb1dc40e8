/**
 Cutting a payload into segments of a given size, all full except perhaps the
 last one. Both halves of the offload engine are described by it: coalescing
 keeps an item's payload cut this way, and gsoSplit cuts it.
 */
module Segments {
  import opened Bytes

  function Split(p: seq<byte>, size: nat): (r: seq<seq<byte>>)
    requires size > 0
    decreases |p|
  {
    if |p| == 0 then []
    else if |p| <= size then [p]
    else [p[..size]] + Split(p[size..], size)
  }

  function Concat(parts: seq<seq<byte>>): seq<byte> {
    if |parts| == 0 then [] else parts[0] + Concat(parts[1..])
  }

  /** The segment count as validateGSOSplit computes it: a quotient, plus one for a remainder. */
  function Count(len: nat, size: nat): nat
    requires size > 0
  {
    len / size + if len % size != 0 then 1 else 0
  }

  /** Quotient and remainder of a variable divisor are the only pair that fits. */
  lemma DivisionUnique(n: int, d: nat, q: int, r: nat)
    requires d > 0 && n == q * d + r && r < d
    ensures n / d == q && n % d == r
  {
    var q', r' := n / d, n % d;
    assert n == q' * d + r' && 0 <= r' < d;
    if q' > q {
      assert (q' - q) * d >= d by { MulAtLeast(q' - q, d); }
    } else if q' < q {
      assert (q - q') * d >= d by { MulAtLeast(q - q', d); }
    }
  }

  lemma MulAtLeast(k: int, d: nat)
    requires k >= 1
    ensures k * d >= d
  {
    assert k * d == (k - 1) * d + d;
    assert (k - 1) * d >= 0;
  }

  lemma DivisionStep(n: nat, d: nat)
    requires n >= d > 0
    ensures n / d == (n - d) / d + 1
    ensures n % d == (n - d) % d
  {
    var m := n - d;
    assert m == (m / d) * d + m % d;
    assert n == (m / d + 1) * d + m % d;
    DivisionUnique(n, d, m / d + 1, m % d);
  }

  lemma SmallDivision(n: nat, d: nat)
    requires n < d
    ensures n / d == 0 && n % d == n
  {
    DivisionUnique(n, d, 0, n);
  }

  /** Split yields ceil(|p| / size) parts. */
  lemma {:induction false} SplitCount(p: seq<byte>, size: nat)
    requires size > 0
    ensures |Split(p, size)| == Count(|p|, size)
    decreases |p|
  {
    if |p| < size {
      SmallDivision(|p|, size);
    } else if |p| == size {
      DivisionUnique(size, size, 1, 0);
    } else {
      DivisionStep(|p|, size);
      SplitCount(p[size..], size);
    }
  }

  /** Part m is the window of p that starts at m * size; every part but the last is full, and none is empty. */
  lemma {:induction false} SplitAt(p: seq<byte>, size: nat, m: nat)
    requires size > 0 && m < |Split(p, size)|
    ensures 0 <= m * size < |p|
    ensures
      var end := if m + 1 < |Split(p, size)| then m * size + size else |p|;
      m * size < end <= |p| && end - m * size <= size && Split(p, size)[m] == p[m * size..end]
    decreases |p|
  {
    if |p| > size {
      if m > 0 {
        var q := p[size..];
        SplitAt(q, size, m - 1);
        assert m * size == (m - 1) * size + size;
        var end := if m < |Split(q, size)| then (m - 1) * size + size else |q|;
        assert Split(p, size)[m] == Split(q, size)[m - 1];
        assert q[(m - 1) * size..end] == p[m * size..end + size];
      } else {
        SplitCount(p[size..], size);
        NonEmptySplit(p[size..], size);
      }
    } else {
      assert m == 0;
    }
  }

  lemma NonEmptySplit(p: seq<byte>, size: nat)
    requires size > 0 && |p| > 0
    ensures |Split(p, size)| > 0
  {
  }

  /** Nothing is lost, duplicated or reordered by cutting. */
  lemma {:induction false} ConcatSplit(p: seq<byte>, size: nat)
    requires size > 0
    ensures Concat(Split(p, size)) == p
    decreases |p|
  {
    if |p| == 0 {
    } else if |p| <= size {
      assert Split(p, size)[1..] == [];
    } else {
      var rest := Split(p[size..], size);
      assert Split(p, size) == [p[..size]] + rest;
      ConcatSplit(p[size..], size);
      hide Split;
      assert ([p[..size]] + rest)[1..] == rest;
      assert p[..size] + p[size..] == p;
    }
  }

  /** After a payload of only full parts, one more part of at most the same size follows as a part of its own. */
  lemma {:induction false} SplitAppend(p: seq<byte>, x: seq<byte>, size: nat)
    requires size > 0 && |p| % size == 0 && 0 < |x| <= size
    ensures Split(p + x, size) == Split(p, size) + [x]
    decreases |p|
  {
    if |p| == 0 {
      assert p + x == x;
    } else {
      if |p| < size {
        SmallDivision(|p|, size);
        assert false;
      }
      DivisionStep(|p|, size);
      assert (p + x)[..size] == p[..size];
      assert (p + x)[size..] == p[size..] + x;
      SplitAppend(p[size..], x, size);
      if |p| == size {
        assert p[size..] == [];
      }
    }
  }

  /** A full part put in front of a non-empty payload becomes its first part. */
  lemma SplitPrepend(x: seq<byte>, p: seq<byte>, size: nat)
    requires size > 0 && |x| == size && |p| > 0
    ensures Split(x + p, size) == [x] + Split(p, size)
  {
    assert (x + p)[..size] == x;
    assert (x + p)[size..] == p;
  }

  /** A payload that ends on a part boundary holds exactly its count of full parts. */
  lemma FullParts(p: seq<byte>, size: nat)
    requires size > 0 && |p| % size == 0
    ensures |p| == |Split(p, size)| * size
  {
    SplitCount(p, size);
    assert |p| == (|p| / size) * size + |p| % size;
  }

  /** No part is empty, so there are at most as many parts as bytes. */
  lemma {:induction false} PartsAtMostBytes(p: seq<byte>, size: nat)
    requires size > 0
    ensures |Split(p, size)| <= |p|
    decreases |p|
  {
    if |p| > size {
      PartsAtMostBytes(p[size..], size);
    }
  }

  /** A larger part put in front of a single smaller one. */
  lemma SplitPair(x: seq<byte>, y: seq<byte>)
    requires 0 < |y| <= |x|
    ensures Split(x + y, |x|) == [x, y]
  {
    SplitPrepend(x, y, |x|);
  }
}
