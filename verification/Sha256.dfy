/** SHA-256 as section 6.2 of FIPS 180-4 defines it: padding, message schedule, rounds, and a
    fold of the compression function over 64-byte blocks. */
module Sha256 {
  import opened Bits

  const BLOCK := 64
  const LEN_LIMIT := 0x1_0000_0000_0000_0000

  const WORD_LIMIT := 0x1_0000_0000

  type byte = x: int | 0 <= x < 256
  type word = x: int | 0 <= x < WORD_LIMIT
  type Block = s: seq<byte> | |s| == BLOCK witness seq(BLOCK, _ => 0)
  type Words = s: seq<word> | |s| == 8 witness seq(8, _ => 0)

  /** 32, kept abstract. */
  function WordBits(): (n: nat)
    ensures n == 32 && Pow2(n) == WORD_LIMIT
  {
    Pow2Of32();
    32
  }

  function Xor(x: word, y: word): word { XorBits(x, y, WordBits()) }
  function And(x: word, y: word): word { AndBits(x, y, WordBits()) }
  function Not(x: word): word { WORD_LIMIT - 1 - x }
  function Add(x: word, y: word): word { (x + y) % WORD_LIMIT }

  /** x >> n */
  function Shr(x: word, n: nat): word {
    if n == 0 then x else Shr(x / 2, n - 1)
  }

  /** Rotation to the right, one bit at a time. */
  function Rotr(x: word, n: nat): word
    decreases n
  {
    if n == 0 then x else Rotr(x / 2 + x % 2 * 0x8000_0000, n - 1)
  }

  lemma {:induction false} ShrBit(x: word, n: nat, j: nat)
    ensures Bit(Shr(x, n), j) == Bit(x, j + n)
    decreases n
  {
    if n > 0 { ShrBit(x / 2, n - 1, j); }
  }

  /** The rotation of section 3.2: bit j of the result is bit j + n, modulo 32. */
  lemma {:induction false} RotrBit(x: word, n: nat, j: nat)
    requires n <= 32 && j < 32
    ensures Bit(Rotr(x, n), j) == Bit(x, if j + n < 32 then j + n else j + n - 32)
    decreases n
  {
    if n > 0 {
      var y: word := x / 2 + x % 2 * 0x8000_0000;
      RotrBit(y, n - 1, j);
      var i := if j + n - 1 < 32 then j + n - 1 else j + n - 1 - 32;
      RotateOnce(x, i);
    }
  }

  lemma RotateOnce(x: word, i: nat)
    requires i < 32
    ensures Bit(x / 2 + x % 2 * 0x8000_0000, i) == Bit(x, if i == 31 then 0 else i + 1)
  {
    assert Pow2(31) == 0x8000_0000 by { Pow2Of32(); }
    SetAbove(x / 2, 31);
    BitAfterSet(x / 2, 31, i);
  }

  function Ch(x: word, y: word, z: word): word { Xor(And(x, y), And(Not(x), z)) }
  function Maj(x: word, y: word, z: word): word { Xor(Xor(And(x, y), And(x, z)), And(y, z)) }
  function Ep0(x: word): word { Xor(Xor(Rotr(x, 2), Rotr(x, 13)), Rotr(x, 22)) }
  function Ep1(x: word): word { Xor(Xor(Rotr(x, 6), Rotr(x, 11)), Rotr(x, 25)) }
  function Sig0(x: word): word { Xor(Xor(Rotr(x, 7), Rotr(x, 18)), Shr(x, 3)) }
  function Sig1(x: word): word { Xor(Xor(Rotr(x, 17), Rotr(x, 19)), Shr(x, 10)) }

  lemma XorBit(x: word, y: word, j: nat)
    requires j < 32
    ensures Bit(Xor(x, y), j) == (Bit(x, j) != Bit(y, j))
  {
    BitOfXor(x, y, WordBits(), j);
  }

  lemma AndBit(x: word, y: word, j: nat)
    requires j < 32
    ensures Bit(And(x, y), j) == (Bit(x, j) && Bit(y, j))
  {
    BitOfAnd(x, y, WordBits(), j);
  }

  lemma NotBit(x: word, j: nat)
    requires j < 32
    ensures Bit(Not(x), j) == !Bit(x, j)
  {
    assert Pow2(WordBits()) == WORD_LIMIT;
    BitOfNot(x, WordBits(), j);
  }

  /** Ch of section 4.1.2 takes each bit from y where x has a one and from z where it has a zero. */
  lemma ChBit(x: word, y: word, z: word, j: nat)
    requires j < 32
    ensures Bit(Ch(x, y, z), j) == if Bit(x, j) then Bit(y, j) else Bit(z, j)
  {
    NotBit(x, j);
    AndBit(x, y, j);
    AndBit(Not(x), z, j);
    XorBit(And(x, y), And(Not(x), z), j);
  }

  /** Maj has the bit that at least two of its arguments have. */
  lemma MajBit(x: word, y: word, z: word, j: nat)
    requires j < 32
    ensures Bit(Maj(x, y, z), j) == if Bit(x, j) == Bit(y, j) then Bit(x, j) else Bit(z, j)
  {
    AndBit(x, y, j);
    AndBit(x, z, j);
    AndBit(y, z, j);
    XorBit(And(x, y), And(x, z), j);
    XorBit(Xor(And(x, y), And(x, z)), And(y, z), j);
  }

  /** Bit j of a word rotated by n. */
  predicate Turned(x: word, n: nat, j: nat) {
    Bit(x, if j + n < 32 then j + n else j + n - 32)
  }

  lemma RotrsBit(x: word, a: nat, b: nat, c: nat, j: nat)
    requires a <= 32 && b <= 32 && c <= 32 && j < 32
    ensures Bit(Xor(Xor(Rotr(x, a), Rotr(x, b)), Rotr(x, c)), j) ==
      ((Turned(x, a, j) != Turned(x, b, j)) != Turned(x, c, j))
  {
    RotrBit(x, a, j);
    RotrBit(x, b, j);
    RotrBit(x, c, j);
    XorBit(Rotr(x, a), Rotr(x, b), j);
    XorBit(Xor(Rotr(x, a), Rotr(x, b)), Rotr(x, c), j);
  }

  lemma RotrsShiftBit(x: word, a: nat, b: nat, c: nat, j: nat)
    requires a <= 32 && b <= 32 && j < 32
    ensures Bit(Xor(Xor(Rotr(x, a), Rotr(x, b)), Shr(x, c)), j) ==
      ((Turned(x, a, j) != Turned(x, b, j)) != Bit(x, j + c))
  {
    RotrBit(x, a, j);
    RotrBit(x, b, j);
    ShrBit(x, c, j);
    XorBit(Rotr(x, a), Rotr(x, b), j);
    XorBit(Xor(Rotr(x, a), Rotr(x, b)), Shr(x, c), j);
  }

  /** The four sigma functions of section 4.1.2, bit by bit. */
  lemma SigmaBits(x: word, j: nat)
    requires j < 32
    ensures Bit(Ep0(x), j) == ((Turned(x, 2, j) != Turned(x, 13, j)) != Turned(x, 22, j))
    ensures Bit(Ep1(x), j) == ((Turned(x, 6, j) != Turned(x, 11, j)) != Turned(x, 25, j))
    ensures Bit(Sig0(x), j) == ((Turned(x, 7, j) != Turned(x, 18, j)) != Bit(x, j + 3))
    ensures Bit(Sig1(x), j) == ((Turned(x, 17, j) != Turned(x, 19, j)) != Bit(x, j + 10))
  {
    RotrsBit(x, 2, 13, 22, j);
    RotrsBit(x, 6, 11, 25, j);
    SmallSigmaBits(x, j);
  }

  lemma SmallSigmaBits(x: word, j: nat)
    requires j < 32
    ensures Bit(Sig0(x), j) == ((Turned(x, 7, j) != Turned(x, 18, j)) != Bit(x, j + 3))
    ensures Bit(Sig1(x), j) == ((Turned(x, 17, j) != Turned(x, 19, j)) != Bit(x, j + 10))
  {
    RotrsShiftBit(x, 7, 18, 3, j);
    RotrsShiftBit(x, 17, 19, 10, j);
  }

  /** The round constants of section 4.2.2. */
  function K(i: nat): word
    requires i < 64
  {
    if i < 8 then [0x428a2f98, 0x71374491, 0xb5c0fbcf, 0xe9b5dba5, 0x3956c25b, 0x59f111f1, 0x923f82a4, 0xab1c5ed5][i]
    else if i < 16 then [0xd807aa98, 0x12835b01, 0x243185be, 0x550c7dc3, 0x72be5d74, 0x80deb1fe, 0x9bdc06a7,
      0xc19bf174][i - 8]
    else if i < 24 then [0xe49b69c1, 0xefbe4786, 0x0fc19dc6, 0x240ca1cc, 0x2de92c6f, 0x4a7484aa, 0x5cb0a9dc,
      0x76f988da][i - 16]
    else if i < 32 then [0x983e5152, 0xa831c66d, 0xb00327c8, 0xbf597fc7, 0xc6e00bf3, 0xd5a79147, 0x06ca6351,
      0x14292967][i - 24]
    else if i < 40 then [0x27b70a85, 0x2e1b2138, 0x4d2c6dfc, 0x53380d13, 0x650a7354, 0x766a0abb, 0x81c2c92e,
      0x92722c85][i - 32]
    else if i < 48 then [0xa2bfe8a1, 0xa81a664b, 0xc24b8b70, 0xc76c51a3, 0xd192e819, 0xd6990624, 0xf40e3585,
      0x106aa070][i - 40]
    else if i < 56 then [0x19a4c116, 0x1e376c08, 0x2748774c, 0x34b0bcb5, 0x391c0cb3, 0x4ed8aa4a, 0x5b9cca4f,
      0x682e6ff3][i - 48]
    else [0x748f82ee, 0x78a5636f, 0x84c87814, 0x8cc70208, 0x90befffa, 0xa4506ceb, 0xbef9a3f7, 0xc67178f2][i - 56]
  }

  function Initial(): Words {
    [0x6a09e667, 0xbb67ae85, 0x3c6ef372, 0xa54ff53a, 0x510e527f, 0x9b05688c, 0x1f83d9ab, 0x5be0cd19]
  }

  /** Big-endian word i of a block. */
  function WordAt(b: Block, i: nat): word
    requires i < 16
  {
    var b0: int, b1: int, b2: int, b3: int := b[4 * i], b[4 * i + 1], b[4 * i + 2], b[4 * i + 3];
    0x100_0000 * b0 + 0x1_0000 * b1 + 0x100 * b2 + b3
  }

  /** The next schedule word from the previous sixteen. */
  function Extend(w: seq<word>, t: nat): word
    requires 16 <= t <= |w|
  {
    Add(Add(Add(Sig1(w[t - 2]), w[t - 7]), Sig0(w[t - 15])), w[t - 16])
  }

  /** The first n words of the message schedule. */
  function Schedule(b: Block, n: nat): (w: seq<word>)
    ensures |w| == n
  {
    if n == 0 then []
    else
      var w := Schedule(b, n - 1);
      w + [if n <= 16 then WordAt(b, n - 1) else Extend(w, n - 1)]
  }

  /** One round on the working variables a to h. */
  function Round(v: Words, k: word, w: word): Words {
    var t1 := Add(Add(Add(Add(v[7], Ep1(v[4])), Ch(v[4], v[5], v[6])), k), w);
    var t2 := Add(Ep0(v[0]), Maj(v[0], v[1], v[2]));
    [Add(t1, t2), v[0], v[1], v[2], Add(v[3], t1), v[4], v[5], v[6]]
  }

  function Rounds(v: Words, w: seq<word>, n: nat): Words
    requires n <= 64 && |w| == 64
  {
    if n == 0 then v else Round(Rounds(v, w, n - 1), K(n - 1), w[n - 1])
  }

  function AddWords(x: Words, y: Words): Words {
    [Add(x[0], y[0]), Add(x[1], y[1]), Add(x[2], y[2]), Add(x[3], y[3]),
     Add(x[4], y[4]), Add(x[5], y[5]), Add(x[6], y[6]), Add(x[7], y[7])]
  }

  function Compress(h: Words, b: Block): Words {
    var w := Schedule(b, |b|);
    AddWords(h, Rounds(h, w, |w|))
  }

  /** The compression function over consecutive blocks. */
  function Fold(h: Words, m: seq<byte>): Words
    requires |m| % BLOCK == 0
    decreases |m|
  {
    if m == [] then h
    else
      var last: Block := m[|m| - BLOCK..];
      Compress(Fold(h, m[..|m| - BLOCK]), last)
  }

  // ----- Padding, section 5.1.1 -----

  /** The number of zero bytes between the 0x80 byte and the length. */
  function Zeros(n: nat): (k: nat)
    ensures k < BLOCK && (n + 1 + k) % BLOCK == 56
  {
    (119 - n % BLOCK) % BLOCK
  }

  /** Section 5.1.1 asks for the least such number. */
  lemma ZerosIsLeast(n: nat, k: nat)
    requires (n + 1 + k) % BLOCK == 56
    ensures Zeros(n) <= k
  {
  }

  function ZeroBytes(k: nat): (s: seq<byte>)
    ensures |s| == k
  {
    seq(k, _ => 0)
  }

  /** Byte i, from the most significant, of a 64-bit length. */
  function LengthByte(bits: nat, i: nat): byte
    requires i < 8
  {
    var d := [0x100_0000_0000_0000, 0x1_0000_0000_0000, 0x100_0000_0000, 0x1_0000_0000, 0x100_0000, 0x1_0000, 0x100,
      1][i];
    bits / d % 256
  }

  function LengthBytes(bits: nat): (s: seq<byte>)
    ensures |s| == 8
  {
    seq(8, i requires 0 <= i < 8 => LengthByte(bits, i))
  }

  /** The length in bits of n bytes, modulo 2 to the 64. */
  function BitCount(n: nat): nat {
    8 * n % LEN_LIMIT
  }

  lemma PaddedLength(n: nat)
    ensures (n + 1 + Zeros(n) + 8) % BLOCK == 0
  {
  }

  function Pad(m: seq<byte>): (p: seq<byte>)
    ensures |p| % BLOCK == 0
  {
    PaddedLength(|m|);
    m + [0x80] + ZeroBytes(Zeros(|m|)) + LengthBytes(BitCount(|m|))
  }

  function Digest(h: Words): (s: seq<byte>)
    ensures |s| == 32
  {
    seq(32, i requires 0 <= i < 32 => WordByte(h[i / 4], i % 4))
  }

  /** Byte j of a word, the most significant first. */
  function WordByte(w: word, j: nat): byte
    requires j < 4
  {
    if j == 0 then w / 0x100_0000
    else if j == 1 then w / 0x1_0000 % 0x100
    else if j == 2 then w / 0x100 % 0x100
    else w % 0x100
  }

  /** The hash of a message. */
  function Hash(m: seq<byte>): seq<byte> {
    Digest(Fold(Initial(), Pad(m)))
  }
}
