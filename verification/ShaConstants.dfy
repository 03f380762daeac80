/** The constants of sections 4.2.2 and 5.3.3 of FIPS 180-4: the first 32 bits of the fractional parts of
    the cube roots of the first sixty-four primes, and of the square roots of the first eight. */
module ShaConstants {
  import opened Bits
  import opened Sha256

  const TWO32 := 0x1_0000_0000

  // ----- Primes -----

  ghost predicate IsPrime(n: nat) {
    n >= 2 && forall d :: 2 <= d < n ==> n % d != 0
  }

  predicate Divided(n: nat) {
    n % 2 == 0 || n % 3 == 0 || n % 5 == 0 || n % 7 == 0 || n % 11 == 0 || n % 13 == 0 || n % 17 == 0
  }

  predicate Sieved(n: nat) {
    n in {2, 3, 5, 7, 11, 13, 17} || !Divided(n)
  }

  /** A divisor of a factor divides the product. */
  lemma Carries(n: nat, x: nat, y: nat, d: nat)
    requires n == x * y && d > 0 && x % d == 0
    ensures n % d == 0
  {
    var z := x / d;
    assert x == d * z && d * z * y == d * (z * y);
    QuotientIs(n, d, z * y, 0);
  }

  /** A product whose first factor is at most 18 is divided by one of the primes up to 17. */
  lemma SmallFactor(n: nat, x: nat, y: nat)
    requires n == x * y && 2 <= x <= 18
    ensures Divided(n)
  {
    var d := if x % 2 == 0 then 2 else if x % 3 == 0 then 3 else if x % 5 == 0 then 5 else x;
    Carries(n, x, y, d);
    assert d == 2 || d == 3 || d == 5 || d == 7 || d == 11 || d == 13 || d == 17;
  }

  lemma FactorsSmall(n: nat, d: nat)
    requires 2 <= d < n < 361 && n % d == 0
    ensures Divided(n)
  {
    var e := n / d;
    assert n == d * e && e >= 2;
    if d <= 18 {
      SmallFactor(n, d, e);
    } else {
      if e >= 19 { AtMost(d, 19, e); }
      SmallFactor(n, e, d);
    }
  }

  /** Below 19 * 19 the sieve by the primes up to 17 leaves exactly the primes. */
  lemma SieveIsPrime(n: nat)
    requires 2 <= n < 361
    ensures IsPrime(n) <==> Sieved(n)
  {
    if Divided(n) {
      var d := if n % 2 == 0 then 2 else if n % 3 == 0 then 3 else if n % 5 == 0 then 5 else if n % 7 == 0 then 7
        else if n % 11 == 0 then 11 else if n % 13 == 0 then 13 else 17;
      assert n % d == 0;
    } else {
      forall d | 2 <= d < n ensures n % d != 0 {
        if n % d == 0 { FactorsSmall(n, d); }
      }
    }
  }

  /** Prime q comes next after p. */
  ghost predicate NextPrime(p: nat, q: nat) {
    p < q && IsPrime(q) && forall n: nat :: p < n < q ==> !IsPrime(n)
  }

  /** Every number from n up to q is divided, and q is not. */
  predicate Gap(n: nat, q: nat)
    decreases q - n
  {
    if n >= q then n == q && !Divided(q) else Divided(n) && Gap(n + 1, q)
  }

  lemma {:induction false} GapIsNext(n: nat, q: nat)
    requires 17 < n <= q < 361 && Gap(n, q)
    ensures NextPrime(n - 1, q)
    decreases q - n
  {
    SieveIsPrime(n);
    if n < q { GapIsNext(n + 1, q); }
  }

  lemma FirstPrimes()
    ensures NextPrime(0, 2) && NextPrime(2, 3) && NextPrime(3, 5) && NextPrime(5, 7)
    ensures NextPrime(7, 11) && NextPrime(11, 13) && NextPrime(13, 17) && NextPrime(17, 19)
  {
    SmallPrimes();
    TeenPrimes();
    GapIsNext(18, 19);
  }

  lemma SmallPrimes()
    ensures NextPrime(0, 2) && NextPrime(2, 3) && NextPrime(3, 5) && NextPrime(5, 7) && NextPrime(7, 11)
  {
    SieveIsPrime(2);
    SieveIsPrime(3);
    SieveIsPrime(4);
    SieveIsPrime(5);
    SieveIsPrime(6);
    SieveIsPrime(7);
    SieveIsPrime(8);
    SieveIsPrime(9);
    SieveIsPrime(10);
    SieveIsPrime(11);
  }

  lemma TeenPrimes()
    ensures NextPrime(11, 13) && NextPrime(13, 17)
  {
    SieveIsPrime(12);
    SieveIsPrime(13);
    SieveIsPrime(14);
    SieveIsPrime(15);
    SieveIsPrime(16);
    SieveIsPrime(17);
  }

  lemma Primes1()
    ensures NextPrime(19, 23) && NextPrime(23, 29) && NextPrime(29, 31) && NextPrime(31, 37)
    ensures NextPrime(37, 41) && NextPrime(41, 43) && NextPrime(43, 47) && NextPrime(47, 53)
  {
    GapIsNext(20, 23);
    GapIsNext(24, 29);
    GapIsNext(30, 31);
    GapIsNext(32, 37);
    GapIsNext(38, 41);
    GapIsNext(42, 43);
    GapIsNext(44, 47);
    GapIsNext(48, 53);
  }

  lemma Primes2()
    ensures NextPrime(53, 59) && NextPrime(59, 61) && NextPrime(61, 67) && NextPrime(67, 71)
    ensures NextPrime(71, 73) && NextPrime(73, 79) && NextPrime(79, 83) && NextPrime(83, 89)
  {
    GapIsNext(54, 59);
    GapIsNext(60, 61);
    GapIsNext(62, 67);
    GapIsNext(68, 71);
    GapIsNext(72, 73);
    GapIsNext(74, 79);
    GapIsNext(80, 83);
    GapIsNext(84, 89);
  }

  lemma Primes3()
    ensures NextPrime(89, 97) && NextPrime(97, 101) && NextPrime(101, 103) && NextPrime(103, 107)
    ensures NextPrime(107, 109) && NextPrime(109, 113) && NextPrime(113, 127) && NextPrime(127, 131)
  {
    GapIsNext(90, 97);
    GapIsNext(98, 101);
    GapIsNext(102, 103);
    GapIsNext(104, 107);
    GapIsNext(108, 109);
    GapIsNext(110, 113);
    GapIsNext(114, 127);
    GapIsNext(128, 131);
  }

  lemma Primes4()
    ensures NextPrime(131, 137) && NextPrime(137, 139) && NextPrime(139, 149) && NextPrime(149, 151)
    ensures NextPrime(151, 157) && NextPrime(157, 163) && NextPrime(163, 167) && NextPrime(167, 173)
  {
    GapIsNext(132, 137);
    GapIsNext(138, 139);
    GapIsNext(140, 149);
    GapIsNext(150, 151);
    GapIsNext(152, 157);
    GapIsNext(158, 163);
    GapIsNext(164, 167);
    GapIsNext(168, 173);
  }

  lemma Primes5()
    ensures NextPrime(173, 179) && NextPrime(179, 181) && NextPrime(181, 191) && NextPrime(191, 193)
    ensures NextPrime(193, 197) && NextPrime(197, 199) && NextPrime(199, 211) && NextPrime(211, 223)
  {
    GapIsNext(174, 179);
    GapIsNext(180, 181);
    GapIsNext(182, 191);
    GapIsNext(192, 193);
    GapIsNext(194, 197);
    GapIsNext(198, 199);
    GapIsNext(200, 211);
    GapIsNext(212, 223);
  }

  lemma Primes6()
    ensures NextPrime(223, 227) && NextPrime(227, 229) && NextPrime(229, 233) && NextPrime(233, 239)
    ensures NextPrime(239, 241) && NextPrime(241, 251) && NextPrime(251, 257) && NextPrime(257, 263)
  {
    GapIsNext(224, 227);
    GapIsNext(228, 229);
    GapIsNext(230, 233);
    GapIsNext(234, 239);
    GapIsNext(240, 241);
    GapIsNext(242, 251);
    GapIsNext(252, 257);
    GapIsNext(258, 263);
  }

  lemma Primes7()
    ensures NextPrime(263, 269) && NextPrime(269, 271) && NextPrime(271, 277) && NextPrime(277, 281)
    ensures NextPrime(281, 283) && NextPrime(283, 293) && NextPrime(293, 307) && NextPrime(307, 311)
  {
    GapIsNext(264, 269);
    GapIsNext(270, 271);
    GapIsNext(272, 277);
    GapIsNext(278, 281);
    GapIsNext(282, 283);
    GapIsNext(284, 293);
    GapIsNext(294, 307);
    GapIsNext(308, 311);
  }

  // ----- Roots -----

  function Cube(x: nat): nat { x * x * x }

  /** k is the first 32 bits of the fractional part of the cube root of p, whose integer part is r. */
  ghost predicate CubeRootBits(p: nat, r: nat, k: nat) {
    && k < TWO32 && Cube(r) <= p < Cube(r + 1)
    && Cube(r * TWO32 + k) <= p * TWO32 * TWO32 * TWO32 < Cube(r * TWO32 + k + 1)
  }

  lemma Roots0()
    ensures CubeRootBits(2, 1, K(0)) && CubeRootBits(3, 1, K(1)) && CubeRootBits(5, 1, K(2))
    ensures CubeRootBits(7, 1, K(3)) && CubeRootBits(11, 2, K(4)) && CubeRootBits(13, 2, K(5))
    ensures CubeRootBits(17, 2, K(6)) && CubeRootBits(19, 2, K(7)) && CubeRootBits(23, 2, K(8))
    ensures CubeRootBits(29, 3, K(9)) && CubeRootBits(31, 3, K(10)) && CubeRootBits(37, 3, K(11))
    ensures CubeRootBits(41, 3, K(12)) && CubeRootBits(43, 3, K(13)) && CubeRootBits(47, 3, K(14))
    ensures CubeRootBits(53, 3, K(15))
  {
  }

  lemma Roots1()
    ensures CubeRootBits(59, 3, K(16)) && CubeRootBits(61, 3, K(17)) && CubeRootBits(67, 4, K(18))
    ensures CubeRootBits(71, 4, K(19)) && CubeRootBits(73, 4, K(20)) && CubeRootBits(79, 4, K(21))
    ensures CubeRootBits(83, 4, K(22)) && CubeRootBits(89, 4, K(23)) && CubeRootBits(97, 4, K(24))
    ensures CubeRootBits(101, 4, K(25)) && CubeRootBits(103, 4, K(26)) && CubeRootBits(107, 4, K(27))
    ensures CubeRootBits(109, 4, K(28)) && CubeRootBits(113, 4, K(29)) && CubeRootBits(127, 5, K(30))
    ensures CubeRootBits(131, 5, K(31))
  {
  }

  lemma Roots2()
    ensures CubeRootBits(137, 5, K(32)) && CubeRootBits(139, 5, K(33)) && CubeRootBits(149, 5, K(34))
    ensures CubeRootBits(151, 5, K(35)) && CubeRootBits(157, 5, K(36)) && CubeRootBits(163, 5, K(37))
    ensures CubeRootBits(167, 5, K(38)) && CubeRootBits(173, 5, K(39)) && CubeRootBits(179, 5, K(40))
    ensures CubeRootBits(181, 5, K(41)) && CubeRootBits(191, 5, K(42)) && CubeRootBits(193, 5, K(43))
    ensures CubeRootBits(197, 5, K(44)) && CubeRootBits(199, 5, K(45)) && CubeRootBits(211, 5, K(46))
    ensures CubeRootBits(223, 6, K(47))
  {
  }

  lemma Roots3()
    ensures CubeRootBits(227, 6, K(48)) && CubeRootBits(229, 6, K(49)) && CubeRootBits(233, 6, K(50))
    ensures CubeRootBits(239, 6, K(51)) && CubeRootBits(241, 6, K(52)) && CubeRootBits(251, 6, K(53))
    ensures CubeRootBits(257, 6, K(54)) && CubeRootBits(263, 6, K(55)) && CubeRootBits(269, 6, K(56))
    ensures CubeRootBits(271, 6, K(57)) && CubeRootBits(277, 6, K(58)) && CubeRootBits(281, 6, K(59))
    ensures CubeRootBits(283, 6, K(60)) && CubeRootBits(293, 6, K(61)) && CubeRootBits(307, 6, K(62))
    ensures CubeRootBits(311, 6, K(63))
  {
  }

  /** h is the first 32 bits of the fractional part of the square root of p, whose integer part is r. */
  ghost predicate SquareRootBits(p: nat, r: nat, h: nat) {
    && h < TWO32 && r * r <= p < (r + 1) * (r + 1)
    && (r * TWO32 + h) * (r * TWO32 + h) <= p * TWO32 * TWO32 < (r * TWO32 + h + 1) * (r * TWO32 + h + 1)
  }

  /** The initial hash value belongs to the first eight primes. */
  lemma InitialValue()
    ensures SquareRootBits(2, 1, Initial()[0]) && SquareRootBits(3, 1, Initial()[1])
    ensures SquareRootBits(5, 2, Initial()[2]) && SquareRootBits(7, 2, Initial()[3])
    ensures SquareRootBits(11, 3, Initial()[4]) && SquareRootBits(13, 3, Initial()[5])
    ensures SquareRootBits(17, 4, Initial()[6]) && SquareRootBits(19, 4, Initial()[7])
  {
  }
}
