/** Bit operations on unsigned machine words, by recursion from the low bit, and packed
    bitmaps over words of any width. Every bitmap of the kernel is one of these: bytes in
    the page, slab, filesystem and fsck bitmaps, 64-bit words in the run-queue index. */
module Bits {

  function Pow2(n: nat): (r: nat)
    ensures r >= 1
  {
    if n == 0 then 1 else 2 * Pow2(n - 1)
  }

  lemma Pow2Of32()
    ensures Pow2(32) == 0x1_0000_0000
  {
    assert Pow2(8) == 256;
    assert Pow2(16) == 0x1_0000;
    assert Pow2(24) == 0x100_0000;
  }

  predicate Bit(w: nat, k: nat) {
    if k == 0 then w % 2 == 1 else Bit(w / 2, k - 1)
  }

  /** Bit k has the weight Pow2(k). */
  lemma {:induction false} BitIsDigit(w: nat, k: nat)
    ensures Bit(w, k) <==> w / Pow2(k) % 2 == 1
  {
    if k > 0 {
      BitIsDigit(w / 2, k - 1);
      DivTwice(w, 2, Pow2(k - 1));
    }
  }

  /** Dividing twice is dividing by the product. */
  lemma DivTwice(n: nat, w: nat, k: nat)
    requires w > 0 && k > 0
    ensures w * k > 0 && n / w / k == n / (w * k)
  {
    var q, r := n / w, n % w;
    var a, b := q / k, q % k;
    Regroup(w, k, a, b);
    AtMost(w, b, k - 1);
    Nested(n, w, k, q, r, a, b);
  }

  lemma Nested(n: nat, w: nat, k: nat, q: nat, r: nat, a: nat, b: nat)
    requires n == w * q + r && r < w && q == k * a + b && w * q == w * k * a + w * b && w * b + w <= w * k
    ensures w * k > 0 && n / (w * k) == a
  {
    QuotientIs(n, w * k, a, w * b + r);
  }

  lemma Regroup(w: nat, k: nat, a: nat, b: nat)
    ensures w * (k * a + b) == w * k * a + w * b
  {
  }

  lemma AtMost(w: nat, b: nat, c: nat)
    requires b <= c
    ensures w * b <= w * c && w * (c + 1) == w * c + w && (w > 0 ==> w * (c + 1) > 0)
  {
  }

  lemma QuotientIs(x: nat, d: nat, q: nat, r: nat)
    requires d > 0 && x == d * q + r && r < d
    ensures x / d == q && x % d == r
  {
    var y := x / d - q;
    assert d * (x / d) == d * q + d * y;
    assert y >= 1 ==> d * y >= d;
    assert y <= -1 ==> d * y + d <= 0;
  }

  /** w | (1 << k) */
  function SetBit(w: nat, k: nat): nat {
    if k == 0 then (if w % 2 == 1 then w else w + 1)
    else 2 * SetBit(w / 2, k - 1) + w % 2
  }

  /** w & ~(1 << k) */
  function ClearBit(w: nat, k: nat): nat {
    if k == 0 then (if w % 2 == 1 then w - 1 else w)
    else 2 * ClearBit(w / 2, k - 1) + w % 2
  }

  /** Exclusive or of the low n bits. */
  function XorBits(a: nat, b: nat, n: nat): (r: nat)
    ensures r < Pow2(n)
  {
    if n == 0 then 0 else 2 * XorBits(a / 2, b / 2, n - 1) + (a + b) % 2
  }

  /** And of the low n bits. */
  function AndBits(a: nat, b: nat, n: nat): (r: nat)
    ensures r < Pow2(n)
  {
    if n == 0 then 0 else 2 * AndBits(a / 2, b / 2, n - 1) + a % 2 * (b % 2)
  }

  lemma {:induction false} BitAfterSet(w: nat, k: nat, j: nat)
    ensures Bit(SetBit(w, k), j) == (j == k || Bit(w, j))
  {
    if k > 0 {
      assert SetBit(w, k) / 2 == SetBit(w / 2, k - 1);
      if j > 0 { BitAfterSet(w / 2, k - 1, j - 1); }
    } else if j > 0 {
      assert SetBit(w, 0) / 2 == w / 2;
    }
  }

  lemma {:induction false} BitAfterClear(w: nat, k: nat, j: nat)
    ensures Bit(ClearBit(w, k), j) == (j != k && Bit(w, j))
  {
    if k > 0 {
      assert ClearBit(w, k) / 2 == ClearBit(w / 2, k - 1);
      if j > 0 { BitAfterClear(w / 2, k - 1, j - 1); }
    } else if j > 0 {
      assert ClearBit(w, 0) / 2 == w / 2;
    }
  }

  lemma {:induction false} BitOfXor(a: nat, b: nat, n: nat, j: nat)
    requires j < n
    ensures Bit(XorBits(a, b, n), j) == (Bit(a, j) != Bit(b, j))
  {
    var x := XorBits(a, b, n);
    assert x / 2 == XorBits(a / 2, b / 2, n - 1) && x % 2 == (a + b) % 2;
    if j > 0 { BitOfXor(a / 2, b / 2, n - 1, j - 1); }
  }

  lemma {:induction false} BitOfAnd(a: nat, b: nat, n: nat, j: nat)
    requires j < n
    ensures Bit(AndBits(a, b, n), j) == (Bit(a, j) && Bit(b, j))
  {
    var x := AndBits(a, b, n);
    assert a % 2 * (b % 2) == if a % 2 == 1 && b % 2 == 1 then 1 else 0;
    assert x / 2 == AndBits(a / 2, b / 2, n - 1) && x % 2 == a % 2 * (b % 2);
    if j > 0 { BitOfAnd(a / 2, b / 2, n - 1, j - 1); }
  }

  /** The complement within n bits. */
  lemma {:induction false} BitOfNot(a: nat, n: nat, j: nat)
    requires a < Pow2(n) && j < n
    ensures Bit(Pow2(n) - 1 - a, j) == !Bit(a, j)
  {
    var b := Pow2(n) - 1 - a;
    assert Pow2(n) == 2 * Pow2(n - 1);
    assert b / 2 == Pow2(n - 1) - 1 - a / 2 && b % 2 == 1 - a % 2;
    if j > 0 { BitOfNot(a / 2, n - 1, j - 1); }
  }

  /** Setting a bit above a number adds its weight. */
  lemma {:induction false} SetAbove(w: nat, k: nat)
    requires w < Pow2(k)
    ensures SetBit(w, k) == w + Pow2(k) && !Bit(w, k)
  {
    if k > 0 { SetAbove(w / 2, k - 1); }
  }

  lemma {:induction false} UpdateBound(w: nat, k: nat, n: nat)
    requires w < Pow2(n) && k < n
    ensures SetBit(w, k) < Pow2(n) && ClearBit(w, k) < Pow2(n)
  {
    if k > 0 { UpdateBound(w / 2, k - 1, n - 1); }
  }

  lemma {:induction false} ZeroHasNoBits(k: nat)
    ensures !Bit(0, k)
  {
    if k > 0 { ZeroHasNoBits(k - 1); }
  }

  /** A number with another put above its n low bits. */
  lemma {:induction false} JoinedBit(x: nat, y: nat, n: nat, j: nat)
    requires x < Pow2(n)
    ensures Bit(x + Pow2(n) * y, j) == if j < n then Bit(x, j) else Bit(y, j - n)
  {
    if n > 0 {
      HalfJoined(x, y, Pow2(n - 1), Pow2(n));
      if j > 0 { JoinedBit(x / 2, y, n - 1, j - 1); }
    }
  }

  lemma HalfJoined(x: nat, y: nat, p: nat, q: nat)
    requires q == 2 * p
    ensures (x + q * y) / 2 == x / 2 + p * y && (x + q * y) % 2 == x % 2
  {
    assert q * y == 2 * (p * y);
  }

  /** Two different numbers of n bits differ in some bit. */
  lemma {:induction false} DifferInBit(a: nat, b: nat, n: nat) returns (j: nat)
    requires a < Pow2(n) && b < Pow2(n) && a != b
    ensures j < n && Bit(a, j) != Bit(b, j)
  {
    if a % 2 != b % 2 { return 0; }
    assert a / 2 != b / 2;
    j := DifferInBit(a / 2, b / 2, n - 1);
    j := j + 1;
  }

  /** 63 - clz(w): the index of the most significant set bit. */
  function Highest(w: nat): (r: nat)
    requires w > 0
  {
    if w / 2 == 0 then 0 else 1 + Highest(w / 2)
  }

  lemma {:induction false} HighestIsHighest(w: nat, j: nat)
    requires w > 0
    ensures Bit(w, Highest(w))
    ensures j > Highest(w) ==> !Bit(w, j)
  {
    if w / 2 > 0 {
      HighestIsHighest(w / 2, if j > 0 then j - 1 else 0);
    } else if j > 0 {
      ZeroHasNoBits(j - 1);
    }
  }

  lemma {:induction false} HighestBound(w: nat, n: nat)
    requires 0 < w < Pow2(n)
    ensures Highest(w) < n
  {
    if w / 2 > 0 { HighestBound(w / 2, n - 1); }
  }

  // ----- Packed bitmaps -----

  /** Bit i of a bitmap packed `width` bits to the word. */
  predicate Test(bm: seq<nat>, width: nat, i: nat)
    requires width > 0
  {
    i / width < |bm| && Bit(bm[i / width], i % width)
  }

  function Mark(bm: seq<nat>, width: nat, i: nat): (r: seq<nat>)
    requires width > 0 && i / width < |bm|
    ensures |r| == |bm|
  {
    bm[i / width := SetBit(bm[i / width], i % width)]
  }

  function Unmark(bm: seq<nat>, width: nat, i: nat): (r: seq<nat>)
    requires width > 0 && i / width < |bm|
    ensures |r| == |bm|
  {
    bm[i / width := ClearBit(bm[i / width], i % width)]
  }

  lemma SameCell(width: nat, i: nat, j: nat)
    requires width > 0
    ensures i == j <==> i / width == j / width && i % width == j % width
  {
    assert i == width * (i / width) + i % width;
    assert j == width * (j / width) + j % width;
  }

  /** Setting one bit changes that bit and no other. */
  lemma TestAfterMark(bm: seq<nat>, width: nat, i: nat, j: nat)
    requires width > 0 && i / width < |bm|
    ensures Test(Mark(bm, width, i), width, j) == (j == i || Test(bm, width, j))
  {
    SameCell(width, i, j);
    var cell, at := j / width, j % width;
    if i / width == cell { BitAfterSet(bm[cell], i % width, at); }
  }

  /** Clearing one bit changes that bit and no other. */
  lemma TestAfterUnmark(bm: seq<nat>, width: nat, i: nat, j: nat)
    requires width > 0 && i / width < |bm|
    ensures Test(Unmark(bm, width, i), width, j) == (j != i && Test(bm, width, j))
  {
    SameCell(width, i, j);
    var cell, at := j / width, j % width;
    if i / width == cell { BitAfterClear(bm[cell], i % width, at); }
  }
}
