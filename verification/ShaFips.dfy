/** What the functions of Sha256 mean: the words of section 3.1 of FIPS 180-4, the padding of section
    5.1.1, and the computation of section 6.2.2 stated as equations modulo 2 to the 32. */
module ShaFips {
  import opened Bits
  import opened Sha256
  import opened ShaStream

  // ----- Words and bytes -----

  /** The number that bytes form, the most significant first. */
  function BigEndian(s: seq<byte>): nat {
    if s == [] then 0 else 256 * BigEndian(s[..|s| - 1]) + s[|s| - 1]
  }

  function Four(a: int, b: int, c: int, d: int): int {
    0x100_0000 * a + 0x1_0000 * b + 0x100 * c + d
  }

  lemma {:induction false} FourBytes(s: seq<byte>)
    requires |s| == 4
    ensures BigEndian(s) == Four(s[0], s[1], s[2], s[3])
  {
    var a: int, b: int, c: int := s[0], s[1], s[2];
    assert s[..3][..2] == s[..2] && s[..2][..1] == s[..1] && s[..1][..0] == [];
    assert BigEndian(s[..1]) == a;
    assert BigEndian(s[..2]) == 256 * a + b;
    assert BigEndian(s[..3]) == 256 * (256 * a + b) + c;
  }

  /** Word i of a block is bytes 4 * i to 4 * i + 3. */
  lemma WordIsBytes(b: Block, i: nat)
    requires i < 16
    ensures WordAt(b, i) == BigEndian(b[4 * i..4 * i + 4])
  {
    FourBytes(b[4 * i..4 * i + 4]);
  }

  /** The digest is the eight words, each with its most significant byte first. */
  lemma DigestWord(h: Words, i: nat)
    requires i < 8
    ensures BigEndian(Digest(h)[4 * i..4 * i + 4]) == h[i]
  {
    var s := Digest(h)[4 * i..4 * i + 4];
    assert s[0] == WordByte(h[i], 0) && s[1] == WordByte(h[i], 1);
    assert s[2] == WordByte(h[i], 2) && s[3] == WordByte(h[i], 3);
    FourBytes(s);
    WordOfBytes(h[i]);
  }

  lemma WordOfBytes(w: word)
    ensures Four(WordByte(w, 0), WordByte(w, 1), WordByte(w, 2), WordByte(w, 3)) == w
  {
    var a: int, b: int, c: int := w / 0x100, w / 0x1_0000, w / 0x100_0000;
    assert w == 0x100 * a + WordByte(w, 3);
    assert a == 0x100 * b + WordByte(w, 2);
    assert b == 0x100 * c + WordByte(w, 1);
  }

  // ----- Padding -----

  lemma {:induction false} BigEndianConcat(a: seq<byte>, x: byte)
    ensures BigEndian(a + [x]) == 256 * BigEndian(a) + x
  {
    assert (a + [x])[..|a|] == a;
  }

  /** The first i bytes of a length are its value without the lower bytes. */
  lemma {:induction false} LengthValue(bits: nat)
    requires bits < LEN_LIMIT
    ensures BigEndian(LengthBytes(bits)) == bits
  {
    var s := LengthBytes(bits);
    LengthPrefix(bits, 8);
    assert s[..8] == s;
  }

  /** The weight of the bytes after the first i. */
  function Weight(i: nat): nat
    requires i <= 8
  {
    [0x1_0000_0000_0000_0000, 0x100_0000_0000_0000, 0x1_0000_0000_0000, 0x100_0000_0000, 0x1_0000_0000,
     0x100_0000, 0x1_0000, 0x100, 1][i]
  }

  lemma {:induction false} LengthPrefix(bits: nat, i: nat)
    requires bits < LEN_LIMIT && i <= 8
    ensures BigEndian(LengthBytes(bits)[..i]) == bits / Weight(i)
    decreases i
  {
    var s := LengthBytes(bits);
    if i > 0 {
      LengthPrefix(bits, i - 1);
      assert s[..i] == s[..i - 1] + [s[i - 1]];
      BigEndianConcat(s[..i - 1], s[i - 1]);
      assert s[i - 1] == bits / Weight(i) % 256;
      assert Weight(i - 1) == 256 * Weight(i);
      NextByte(bits, Weight(i));
    }
  }

  lemma NextByte(n: nat, w: nat)
    requires w > 0
    ensures 256 * (n / (256 * w)) + n / w % 256 == n / w
  {
    DivTwice(n, w, 256);
    assert w * 256 == 256 * w;
  }

  /** Section 5.1.1: the message, a one bit, the least number of zero bits, and the length of the message
      in bits as a 64-bit number. */
  lemma PadIs(m: seq<byte>)
    ensures var p := Pad(m);
      && |p| % BLOCK == 0 && |m| + 9 <= |p| < |m| + 9 + BLOCK
      && p[..|m|] == m && p[|m|] == 0x80 && (forall i :: |m| < i < |p| - 8 ==> p[i] == 0)
      && BigEndian(p[|p| - 8..]) == 8 * |m| % 0x1_0000_0000_0000_0000
  {
    var p := Pad(m);
    assert p[|p| - 8..] == LengthBytes(BitCount(|m|));
    LengthValue(BitCount(|m|));
  }

  // ----- The message schedule -----

  /** x is y modulo 2 to the 32. */
  predicate Congruent(x: int, y: int) {
    (x - y) % WORD_LIMIT == 0
  }

  lemma AddIs(x: word, y: word, s: int)
    requires Congruent(s, x)
    ensures Congruent(s + y, Add(x, y))
  {
  }

  /** A word is the one number below 2 to the 32 in its class. */
  lemma WordIsOne(x: int, a: word, b: word)
    requires Congruent(x, a) && Congruent(x, b)
    ensures a == b
  {
  }

  function Sum4(a: int, b: int, c: int, d: int): int { a + b + c + d }

  function Sum5(a: int, b: int, c: int, d: int, e: int): int { a + b + c + d + e }

  lemma FourAdded(a: word, b: word, c: word, d: word)
    ensures Congruent(Sum4(a, b, c, d), Add(Add(Add(a, b), c), d))
  {
    AddIs(a, b, a);
    AddIs(Add(a, b), c, a as int + b);
    AddIs(Add(Add(a, b), c), d, a as int + b + c);
  }

  lemma FiveAdded(a: word, b: word, c: word, d: word, e: word)
    ensures Congruent(Sum5(a, b, c, d, e), Add(Add(Add(Add(a, b), c), d), e))
  {
    FourAdded(a, b, c, d);
    AddIs(Add(Add(Add(a, b), c), d), e, Sum4(a, b, c, d));
  }

  lemma ExtendIs(w: seq<word>, t: nat)
    requires 16 <= t <= |w|
    ensures Congruent(Sum4(Sig1(w[t - 2]), w[t - 7], Sig0(w[t - 15]), w[t - 16]), Extend(w, t))
  {
    FourAdded(Sig1(w[t - 2]), w[t - 7], Sig0(w[t - 15]), w[t - 16]);
  }

  /** Word t of the schedule follows from the block and the words before it. */
  ghost predicate WordOk(b: Block, w: seq<word>, t: nat)
    requires t < |w|
  {
    if t < 16 then w[t] == BigEndian(b[4 * t..4 * t + 4])
    else Congruent(Sum4(Sig1(w[t - 2]), w[t - 7], Sig0(w[t - 15]), w[t - 16]), w[t])
  }

  /** Step 1 of section 6.2.2. */
  ghost predicate IsSchedule(b: Block, w: seq<word>) {
    forall t: nat {:trigger WordOk(b, w, t)} :: t < |w| ==> WordOk(b, w, t)
  }

  lemma {:induction false} ScheduleIs(b: Block, n: nat)
    ensures IsSchedule(b, Schedule(b, n))
  {
    if n > 0 {
      ScheduleIs(b, n - 1);
      var w, x := Schedule(b, n - 1), Schedule(b, n);
      forall t: nat | t < n ensures WordOk(b, x, t) { ScheduleWord(b, w, x, t); }
    }
  }

  lemma ScheduleWord(b: Block, w: seq<word>, x: seq<word>, t: nat)
    requires t < |x| == |w| + 1 && IsSchedule(b, w)
    requires x == w + [if |w| < 16 then WordAt(b, |w|) else Extend(w, |w|)]
    ensures WordOk(b, x, t)
  {
    if t < |w| {
      assert WordOk(b, w, t);
    } else if t < 16 {
      WordIsBytes(b, t);
    } else {
      ExtendIs(w, t);
    }
  }

  /** The block determines its schedule. */
  lemma {:induction false} ScheduleIsOne(b: Block, w: seq<word>, x: seq<word>, t: nat)
    requires |w| == |x| && IsSchedule(b, w) && IsSchedule(b, x) && t < |w|
    ensures w[t] == x[t]
    decreases t
  {
    assert WordOk(b, w, t) && WordOk(b, x, t);
    if t >= 16 {
      ScheduleIsOne(b, w, x, t - 2);
      ScheduleIsOne(b, w, x, t - 7);
      ScheduleIsOne(b, w, x, t - 15);
      ScheduleIsOne(b, w, x, t - 16);
      WordIsOne(Sum4(Sig1(w[t - 2]), w[t - 7], Sig0(w[t - 15]), w[t - 16]), w[t], x[t]);
    }
  }

  // ----- The rounds -----

  /** The two temporary words of step 3 of section 6.2.2, before reduction. */
  function T1(v: Words, k: word, w: word): int {
    Sum5(v[7], Ep1(v[4]), Ch(v[4], v[5], v[6]), k, w)
  }

  function T2(v: Words): int {
    Ep0(v[0]) as int + Maj(v[0], v[1], v[2])
  }

  /** Step 3: b, c, d, f, g and h take over their neighbours; e becomes d + T1 and a becomes T1 + T2. */
  predicate IsRound(v: Words, k: word, w: word, r: Words) {
    IsStep(v, T1(v, k, w), T2(v), r)
  }

  predicate IsStep(v: Words, t1: int, t2: int, r: Words) {
    && r[1] == v[0] && r[2] == v[1] && r[3] == v[2] && r[5] == v[4] && r[6] == v[5] && r[7] == v[6]
    && Congruent(v[3] + t1, r[4]) && Congruent(t1 + t2, r[0])
  }

  lemma CongruentSum(x: int, y: int, a: word, b: word)
    requires Congruent(x, a) && Congruent(y, b)
    ensures Congruent(x + y, Add(a, b))
  {
  }

  lemma {:induction false} RoundIs(v: Words, k: word, w: word)
    ensures IsRound(v, k, w, Round(v, k, w))
  {
    TempsAre(v, k, w);
    var t1 := Add(Add(Add(Add(v[7], Ep1(v[4])), Ch(v[4], v[5], v[6])), k), w);
    var t2 := Add(Ep0(v[0]), Maj(v[0], v[1], v[2]));
    var r := Round(v, k, w);
    assert r[0] == Add(t1, t2) && r[4] == Add(v[3], t1);
    Mixed(v[3], T1(v, k, w), T2(v), t1, t2, r[0], r[4]);
  }

  lemma Mixed(d: word, s1: int, s2: int, t1: word, t2: word, a: word, e: word)
    requires Congruent(s1, t1) && Congruent(s2, t2) && a == Add(t1, t2) && e == Add(d, t1)
    ensures Congruent(d + s1, e) && Congruent(s1 + s2, a)
  {
    CongruentSum(s1, s2, t1, t2);
    CongruentSum(d, s1, d, t1);
  }

  lemma {:induction false} TempsAre(v: Words, k: word, w: word)
    ensures Congruent(T1(v, k, w), Add(Add(Add(Add(v[7], Ep1(v[4])), Ch(v[4], v[5], v[6])), k), w))
    ensures Congruent(T2(v), Add(Ep0(v[0]), Maj(v[0], v[1], v[2])))
  {
    FiveAdded(v[7], Ep1(v[4]), Ch(v[4], v[5], v[6]), k, w);
    CongruentSum(Ep0(v[0]), Maj(v[0], v[1], v[2]), Ep0(v[0]), Maj(v[0], v[1], v[2]));
  }

  lemma RoundIsOne(v: Words, k: word, w: word, r: Words)
    requires IsRound(v, k, w, r)
    ensures r == Round(v, k, w)
  {
    RoundIs(v, k, w);
    StepIsOne(v, T1(v, k, w), T2(v), r, Round(v, k, w));
  }

  lemma StepIsOne(v: Words, t1: int, t2: int, r: Words, q: Words)
    requires IsStep(v, t1, t2, r) && IsStep(v, t1, t2, q)
    ensures r == q
  {
    WordIsOne(v[3] + t1, r[4], q[4]);
    WordIsOne(t1 + t2, r[0], q[0]);
    SameWords(r, q);
  }

  /** A round loses nothing: for a given constant and word the old variables follow from the new. */
  lemma {:induction false} RoundInjective(u: Words, v: Words, k: word, w: word, r: Words)
    requires IsRound(u, k, w, r) && IsRound(v, k, w, r)
    ensures u == v
  {
    if SameButTwo(u, v) { SameTemps(u, v, k, w, Sum4(Ep1(u[4]), Ch(u[4], u[5], u[6]), k, w)); }
    StepInjective(u, v, T1(u, k, w), T1(v, k, w), T2(u), T2(v), r);
  }

  /** All variables but d and h. */
  predicate SameButTwo(u: Words, v: Words) {
    u[0] == v[0] && u[1] == v[1] && u[2] == v[2] && u[4] == v[4] && u[5] == v[5] && u[6] == v[6]
  }

  lemma StepInjective(u: Words, v: Words, t: int, t': int, m: int, m': int, r: Words)
    requires IsStep(u, t, m, r) && IsStep(v, t', m', r)
    requires SameButTwo(u, v) ==> t - u[7] == t' - v[7] && m == m'
    ensures u == v
  {
    LastTwo(u[3], u[7], v[3], v[7], t - u[7], t, t', m, m', r[4], r[0]);
    SameWords(u, v);
  }

  lemma SameTemps(u: Words, v: Words, k: word, w: word, rest: int)
    requires SameButTwo(u, v)
    requires rest == Sum4(Ep1(u[4]), Ch(u[4], u[5], u[6]), k, w)
    ensures T1(u, k, w) == u[7] + rest && T1(v, k, w) == v[7] + rest && T2(u) == T2(v)
  {
  }

  lemma SameWords(u: Words, v: Words)
    requires u[0] == v[0] && u[1] == v[1] && u[2] == v[2] && u[3] == v[3]
    requires u[4] == v[4] && u[5] == v[5] && u[6] == v[6] && u[7] == v[7]
    ensures u == v
  {
  }

  lemma LastTwo(d: int, h: int, d': int, h': int, rest: int, t: int, t': int, m: int, m': int, e: int, a: int)
    requires 0 <= d < WORD_LIMIT && 0 <= h < WORD_LIMIT && 0 <= d' < WORD_LIMIT && 0 <= h' < WORD_LIMIT
    requires t == h + rest && t' == h' + rest && m == m'
    requires Congruent(d + t, e) && Congruent(d' + t', e) && Congruent(t + m, a) && Congruent(t' + m', a)
    ensures h == h' && d == d'
  {
    WordIsOne(a - rest - m, h, h');
    WordIsOne(e - h - rest, d, d');
  }

  /** The variables before and after each of the rounds. */
  ghost predicate AreRounds(vs: seq<Words>, w: seq<word>) {
    |w| <= 64 && |vs| == |w| + 1 && forall t {:trigger w[t]} :: 0 <= t < |w| ==> IsRound(vs[t], K(t), w[t], vs[t + 1])
  }

  lemma {:induction false} RoundsAre(vs: seq<Words>, w: seq<word>, n: nat)
    requires |w| == 64 && AreRounds(vs, w) && n <= |w|
    ensures vs[n] == Rounds(vs[0], w, n)
  {
    if n > 0 {
      RoundsAre(vs, w, n - 1);
      RoundIsOne(vs[n - 1], K(n - 1), w[n - 1], vs[n]);
    }
  }

  lemma {:induction false} RoundsExist(v: Words, w: seq<word>, n: nat) returns (vs: seq<Words>)
    requires |w| == 64 && n <= |w|
    ensures AreRounds(vs, w[..n]) && vs[0] == v && vs[n] == Rounds(v, w, n)
  {
    if n == 0 { return [v]; }
    var us := RoundsExist(v, w, n - 1);
    var r := Round(us[n - 1], K(n - 1), w[n - 1]);
    vs := us + [r];
    RoundIs(us[n - 1], K(n - 1), w[n - 1]);
    forall t | 0 <= t < n ensures IsRound(vs[t], K(t), w[..n][t], vs[t + 1]) {
      if t < n - 1 { assert w[..n - 1][t] == w[t]; }
    }
  }

  // ----- The compression function -----

  /** Step 4: the variables are added to the hash value. */
  ghost predicate AreAdded(h: Words, r: Words, x: Words) {
    forall i {:trigger x[i]} :: 0 <= i < 8 ==> Congruent(Plus(h[i], r[i]), x[i])
  }

  function Plus(a: int, b: int): int { a + b }

  lemma AddedAre(h: Words, r: Words)
    ensures AreAdded(h, r, AddWords(h, r))
  {
    forall i | 0 <= i < 8 ensures Congruent(Plus(h[i], r[i]), AddWords(h, r)[i]) {
      AddedAt(h, r, i);
      CongruentSum(h[i], r[i], h[i], r[i]);
    }
  }

  lemma AddedAt(h: Words, r: Words, i: nat)
    requires i < 8
    ensures AddWords(h, r)[i] == Add(h[i], r[i])
  {
  }

  lemma AddedIsOne(h: Words, r: Words, x: Words, y: Words)
    requires AreAdded(h, r, x) && AreAdded(h, r, y)
    ensures x == y
  {
    forall i | 0 <= i < 8 ensures x[i] == y[i] { WordIsOne(Plus(h[i], r[i]), x[i], y[i]); }
  }

  /** Steps 1 to 4 of section 6.2.2: x is the hash value after block b from h. */
  ghost predicate IsCompression(h: Words, b: Block, x: Words) {
    exists w: seq<word>, vs: seq<Words> :: Steps(h, b, w, vs, x)
  }

  ghost predicate Steps(h: Words, b: Block, w: seq<word>, vs: seq<Words>, x: Words) {
    |w| == |b| && IsSchedule(b, w) && AreRounds(vs, w) && vs[0] == h && AreAdded(h, vs[|w|], x)
  }

  lemma {:induction false} CompressSteps(h: Words, b: Block)
    ensures IsCompression(h, b, Compress(h, b))
  {
    var w := Schedule(b, |b|);
    ScheduleIs(b, |b|);
    var vs := RoundsExist(h, w, |w|);
    assert w[..|w|] == w;
    AddedAre(h, vs[|w|]);
    assert Steps(h, b, w, vs, Compress(h, b));
  }

  /** The compression function is the one of the standard, and the only one. */
  lemma {:induction false} CompressIs(h: Words, b: Block, x: Words)
    ensures IsCompression(h, b, x) <==> x == Compress(h, b)
  {
    CompressSteps(h, b);
    if IsCompression(h, b, x) {
      var w: seq<word>, vs: seq<Words> :| Steps(h, b, w, vs, x);
      StepsAreOne(h, b, w, vs, x);
    }
  }

  lemma {:induction false} StepsAreOne(h: Words, b: Block, w: seq<word>, vs: seq<Words>, x: Words)
    requires Steps(h, b, w, vs, x)
    ensures x == Compress(h, b)
  {
    var s := Schedule(b, |b|);
    ScheduleIs(b, |b|);
    forall t: nat | t < |w| ensures w[t] == s[t] { ScheduleIsOne(b, w, s, t); }
    assert w == s;
    RoundsAre(vs, w, |w|);
    AddedAre(h, vs[|w|]);
    AddedIsOne(h, vs[|w|], x, AddWords(h, vs[|w|]));
  }

  // ----- The hash -----

  function BlockOf(p: seq<byte>, i: nat): (b: Block)
    requires BLOCK * i + BLOCK <= |p|
  {
    p[BLOCK * i..BLOCK * i + BLOCK]
  }

  /** The hash values before and after each block of p. */
  ghost predicate IsChain(hs: seq<Words>, p: seq<byte>) {
    && |hs| > 0 && |p| == BLOCK * (|hs| - 1)
    && forall i {:trigger BlockOf(p, i)} :: 0 <= i < |hs| - 1 ==> IsCompression(hs[i], BlockOf(p, i), hs[i + 1])
  }

  lemma {:induction false} PrefixSplits(p: seq<byte>, n: nat, m: nat)
    requires m == n + BLOCK <= |p|
    ensures p[..m] == p[..n] + p[n..m]
  {
  }

  lemma {:induction false} ChainIs(hs: seq<Words>, p: seq<byte>, i: nat, n: nat)
    requires IsChain(hs, p) && i < |hs| && n == BLOCK * i
    ensures n <= |p| && |p[..n]| % BLOCK == 0 && hs[i] == Fold(hs[0], p[..n])
    decreases i
  {
    if i == 0 {
      assert p[..n] == [];
    } else {
      var j, m := i - 1, n - BLOCK;
      ChainIs(hs, p, j, m);
      assert IsCompression(hs[j], BlockOf(p, j), hs[j + 1]);
      NextBlock(hs[0], p, j, m, n, hs[j], hs[i]);
    }
  }

  lemma {:induction false} NextBlock(h: Words, p: seq<byte>, j: nat, m: nat, n: nat, g: Words, x: Words)
    requires m == BLOCK * j && n == m + BLOCK <= |p| && |p[..m]| % BLOCK == 0 && g == Fold(h, p[..m])
    requires IsCompression(g, BlockOf(p, j), x)
    ensures |p[..n]| % BLOCK == 0 && x == Fold(h, p[..n])
  {
    PrefixSplits(p, m, n);
    FoldOn(h, p[..m], BlockOf(p, j), p[..n], g, x);
  }

  lemma {:induction false} FoldOn(h: Words, a: seq<byte>, b: Block, q: seq<byte>, g: Words, x: Words)
    requires |a| % BLOCK == 0 && q == a + b && g == Fold(h, a) && IsCompression(g, b, x)
    ensures |q| % BLOCK == 0 && x == Fold(h, q)
  {
    CompressIs(g, b, x);
    FoldNext(h, a, b);
  }

  lemma {:induction false} ChainExists(h: Words, p: seq<byte>, i: nat, n: nat) returns (hs: seq<Words>)
    requires n == BLOCK * i <= |p|
    ensures IsChain(hs, p[..n]) && |hs| == i + 1 && hs[0] == h
    decreases i
  {
    if i == 0 {
      assert p[..n] == [];
      return [h];
    }
    var gs := ChainExists(h, p, i - 1, n - BLOCK);
    hs := ChainGrows(p, n - BLOCK, n, gs);
  }

  lemma {:induction false} ChainGrows(p: seq<byte>, m: nat, n: nat, gs: seq<Words>) returns (hs: seq<Words>)
    requires |gs| > 0 && m == BLOCK * (|gs| - 1) && n == m + BLOCK <= |p| && IsChain(gs, p[..m])
    ensures IsChain(hs, p[..n]) && |hs| == |gs| + 1 && hs[0] == gs[0]
  {
    hs := gs + [Compress(gs[|gs| - 1], BlockOf(p, |gs| - 1))];
    forall k | 0 <= k < |gs| ensures IsCompression(hs[k], BlockOf(p[..n], k), hs[k + 1]) {
      ChainStep(p, k, n, m, gs, hs);
    }
  }

  lemma ChainStep(p: seq<byte>, k: nat, n: nat, m: nat, gs: seq<Words>, hs: seq<Words>)
    requires |gs| > 0 && m == BLOCK * (|gs| - 1) && n == m + BLOCK <= |p| && IsChain(gs, p[..m]) && k < |gs|
    requires hs == gs + [Compress(gs[|gs| - 1], BlockOf(p, |gs| - 1))]
    ensures IsCompression(hs[k], BlockOf(p[..n], k), hs[k + 1])
  {
    assert BlockOf(p[..n], k) == BlockOf(p, k);
    if k < |gs| - 1 {
      assert BlockOf(p[..m], k) == BlockOf(p, k);
    } else {
      CompressSteps(gs[k], BlockOf(p, k));
    }
  }

  /** d is the digest of m: the words of the last hash value of the padded message, each with its most
      significant byte first. */
  ghost predicate IsDigest(m: seq<byte>, d: seq<byte>) {
    exists hs: seq<Words> :: IsChain(hs, Pad(m)) && hs[0] == Initial() && HasBytes(hs[|hs| - 1], d)
  }

  ghost predicate HasBytes(h: Words, d: seq<byte>) {
    |d| == 32 && forall i {:trigger h[i]} :: 0 <= i < 8 ==> BigEndian(d[4 * i..4 * i + 4]) == h[i]
  }

  lemma {:induction false} ChainEnd(m: seq<byte>, p: seq<byte>, hs: seq<Words>)
    requires p == Pad(m) && IsChain(hs, p) && hs[0] == Initial()
    ensures hs[|hs| - 1] == Fold(Initial(), p)
  {
    ChainIs(hs, p, |hs| - 1, |p|);
    assert p[..|p|] == p;
  }

  lemma BytesOfWord(s: seq<byte>, j: nat)
    requires |s| == 4 && j < 4
    ensures BigEndian(s) < WORD_LIMIT && WordByte(BigEndian(s), j) == s[j]
  {
    FourBytes(s);
    ByteOfFour(s[0], s[1], s[2], s[3]);
  }

  lemma ByteOfFour(a: byte, b: byte, c: byte, d: byte)
    ensures 0 <= Four(a, b, c, d) < WORD_LIMIT
    ensures WordByte(Four(a, b, c, d), 0) == a && WordByte(Four(a, b, c, d), 1) == b
    ensures WordByte(Four(a, b, c, d), 2) == c && WordByte(Four(a, b, c, d), 3) == d
  {
    var w := Four(a, b, c, d);
    QuotientIs(w, 0x100, Four(0, a, b, c), d);
    QuotientIs(w, 0x1_0000, Four(0, 0, a, b), Four(0, 0, c, d));
    QuotientIs(w, 0x100_0000, a, Four(0, b, c, d));
    QuotientIs(Four(0, a, b, c), 0x100, Four(0, 0, a, b), c);
    QuotientIs(Four(0, 0, a, b), 0x100, a, b);
  }

  /** The words determine the bytes. */
  lemma BytesAreOne(h: Words, d: seq<byte>)
    requires HasBytes(h, d)
    ensures d == Digest(h)
  {
    forall i | 0 <= i < 32 ensures d[i] == Digest(h)[i] {
      var k, j := i / 4, i % 4;
      var s := d[4 * k..4 * k + 4];
      assert h[k] == BigEndian(s) && d[i] == s[j];
      BytesOfWord(s, j);
    }
  }

  lemma DigestHasBytes(h: Words)
    ensures HasBytes(h, Digest(h))
  {
    forall j | 0 <= j < 8 ensures BigEndian(Digest(h)[4 * j..4 * j + 4]) == h[j] { DigestWord(h, j); }
  }

  /** The hash of a message is the digest that the standard defines, and the only one. */
  lemma {:induction false} HashIs(m: seq<byte>, d: seq<byte>)
    ensures IsDigest(m, d) <==> d == Hash(m)
  {
    var p := Pad(m);
    var i := |p| / BLOCK;
    var hs := ChainExists(Initial(), p, i, BLOCK * i);
    assert p[..BLOCK * i] == p;
    ChainEnd(m, p, hs);
    DigestHasBytes(hs[|hs| - 1]);
    if IsDigest(m, d) {
      var gs: seq<Words> :| IsChain(gs, p) && gs[0] == Initial() && HasBytes(gs[|gs| - 1], d);
      ChainEnd(m, p, gs);
      BytesAreOne(gs[|gs| - 1], d);
    }
  }
}
