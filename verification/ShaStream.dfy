/** The streaming hash: a context with a 64-byte buffer that is filled byte by byte, and its
    equality with hashing the whole message at once. */
module ShaStream {
  import opened Seqs
  import opened Sha256

  lemma FoldNext(h: Words, m: seq<byte>, b: Block)
    requires |m| % BLOCK == 0
    ensures (|m + b|) % BLOCK == 0 && Fold(h, m + b) == Compress(Fold(h, m), b)
  {
    ConcatParts(m, b);
  }

  lemma ScheduleNext(b: Block, n: nat)
    ensures Schedule(b, n + 1) == Schedule(b, n) + [if n < 16 then WordAt(b, n) else Extend(Schedule(b, n), n)]
  {
  }

  /** The message schedule, computed in place. */
  method ComputeSchedule(b: Block) returns (m: array<word>)
    ensures fresh(m) && m.Length == 64 && m[..] == Schedule(b, |b|)
  {
    m := new word[64];
    assert m[..0] == [];
    for i := 0 to 16
      invariant m[..i] == Schedule(b, i)
    {
      m[i] := WordAt(b, i);
      ScheduleNext(b, i);
      assert m[..i + 1] == m[..i] + [m[i]];
    }
    for i := 16 to 64
      invariant m[..i] == Schedule(b, i)
    {
      ghost var w := m[..i];
      assert w[i - 2] == m[i - 2] && w[i - 7] == m[i - 7] && w[i - 15] == m[i - 15] && w[i - 16] == m[i - 16];
      m[i] := Extend(m[..], i);
      ScheduleNext(b, i);
      assert m[..i + 1] == w + [m[i]];
    }
    assert m[..64] == m[..];
  }

  /** sha256_transform */
  method Transform(state: Words, b: Block) returns (r: Words)
    ensures r == Compress(state, b)
  {
    var m := ComputeSchedule(b);
    ghost var w := m[..];
    var v := state;
    for i := 0 to 64
      invariant v == Rounds(state, w, i) && m[..] == w
    {
      v := Step(v, K(i), m[i]);
    }
    r := AddWords(state, v);
  }

  /** The rotation of the working variables. */
  method Step(v: Words, k: word, w: word) returns (r: Words)
    ensures r == Round(v, k, w)
  {
    var a, b, c, d, e, f, g, h := v[0], v[1], v[2], v[3], v[4], v[5], v[6], v[7];
    var t1 := Add(Add(Add(Add(h, Ep1(e)), Ch(e, f, g)), k), w);
    var t2 := Add(Ep0(a), Maj(a, b, c));
    h := g;
    g := f;
    f := e;
    e := Add(d, t1);
    d := c;
    c := b;
    b := a;
    a := Add(t1, t2);
    r := [a, b, c, d, e, f, g, h];
  }

  // ----- The context -----

  class Context {
    const data: array<byte>
    var datalen: nat
    var bitlen: nat
    var state: Words
    ghost var folded: seq<byte>

    /** Whole blocks are folded into the state and counted; the rest is buffered. */
    ghost predicate Valid()
      reads this, data
    {
      && data.Length == BLOCK && datalen < BLOCK && |folded| % BLOCK == 0
      && state == Fold(Initial(), folded) && bitlen == BitCount(|folded|)
    }

    /** The message fed so far. */
    ghost function Message(): seq<byte>
      requires Valid()
      reads this, data
    {
      folded + data[..datalen]
    }

    /** sha256_init */
    constructor ()
      ensures Valid() && fresh(data) && Message() == []
    {
      data := new byte[BLOCK];
      datalen, bitlen, state, folded := 0, 0, Initial(), [];
    }

    /** One byte of sha256_update. */
    method Feed(b: byte)
      requires Valid()
      modifies this, data
      ensures Valid() && Message() == old(Message()) + [b]
    {
      data[datalen] := b;
      datalen := datalen + 1;
      assert data[..datalen] == old(data[..datalen]) + [b];
      FeedAssoc(folded, old(data[..datalen]), [b]);
      if datalen == BLOCK {
        assert data[..BLOCK] == data[..];
        Absorb();
        datalen := 0;
        assert data[..0] == [];
      }
    }

    /** Fold a full buffer into the state. */
    method FoldBuffer()
      requires data.Length == BLOCK && |folded| % BLOCK == 0 && state == Fold(Initial(), folded)
      modifies this`state, this`folded
      ensures folded == old(folded) + data[..] && |folded| % BLOCK == 0 && state == Fold(Initial(), folded)
    {
      FoldNext(Initial(), folded, data[..]);
      state := Transform(state, data[..]);
      folded := folded + data[..];
    }

    /** The full-buffer branch of sha256_update. */
    method Absorb()
      requires data.Length == BLOCK && |folded| % BLOCK == 0
      requires state == Fold(Initial(), folded) && bitlen == BitCount(|folded|)
      modifies this`state, this`bitlen, this`folded
      ensures folded == old(folded) + data[..] && |folded| % BLOCK == 0
      ensures state == Fold(Initial(), folded) && bitlen == BitCount(|folded|)
    {
      WrapLater(|folded|, BLOCK);
      bitlen := (bitlen + 8 * BLOCK) % LEN_LIMIT;
      assert bitlen == BitCount(|folded| + BLOCK);
      FoldBuffer();
    }

    /** The padding of sha256_final: a 0x80 byte and zeros up to the length field, with one block
        more when fewer than eight bytes are left for it. */
    method PadBuffer()
      requires Valid()
      modifies data, this`state, this`folded
      ensures data.Length == BLOCK && |folded| % BLOCK == 0 && state == Fold(Initial(), folded)
      ensures folded + data[..56] == old(Message()) + [0x80] + ZeroBytes(Zeros(|old(Message())|))
    {
      ghost var m := Message();
      var i := PutMark();
      if i > 56 {
        PadTwo(i, m);
      } else {
        PadOne(i, m);
      }
    }

    /** The 0x80 byte after the message. */
    method PutMark() returns (i: nat)
      requires Valid()
      modifies data
      ensures i == datalen + 1 <= data.Length && folded + data[..i] == old(Message()) + [0x80]
    {
      i := datalen;
      data[i] := 0x80;
      i := i + 1;
      assert data[..i] == old(data[..datalen]) + [0x80];
      FeedAssoc(folded, old(data[..datalen]), [0x80]);
    }

    /** There is room for the length: zeros up to it. */
    method PadOne(i: nat, ghost m: seq<byte>)
      requires data.Length == BLOCK && 0 < i <= 56 && |folded| % BLOCK == 0 && folded + data[..i] == m + [0x80]
      modifies data
      ensures folded + data[..56] == m + [0x80] + ZeroBytes(Zeros(|m|))
    {
      ghost var p := data[..i];
      Fill(i, 56);
      OneBlock(m, folded, p, i);
    }

    /** There is none: this block is filled up and the next one starts with zeros. */
    method PadTwo(i: nat, ghost m: seq<byte>)
      requires data.Length == BLOCK && 56 < i <= BLOCK && |folded| % BLOCK == 0 && folded + data[..i] == m + [0x80]
      requires state == Fold(Initial(), folded)
      modifies data, this`state, this`folded
      ensures data.Length == BLOCK && |folded| % BLOCK == 0 && state == Fold(Initial(), folded)
      ensures folded + data[..56] == m + [0x80] + ZeroBytes(Zeros(|m|))
    {
      ghost var f, p := folded, data[..i];
      Fill(i, BLOCK);
      assert data[..BLOCK] == data[..];
      FoldBuffer();
      Fill(0, 56);
      TwoBlocks(m, f, p, i);
    }

    method Fill(from: nat, to: nat)
      requires from <= to <= data.Length
      modifies data
      ensures data[..to] == old(data[..from]) + ZeroBytes(to - from)
    {
      var i := from;
      while i < to
        invariant from <= i <= to && data[..i] == old(data[..from]) + ZeroBytes(i - from)
      {
        data[i] := 0;
        i := i + 1;
      }
    }

    /** The eight bytes of the length. */
    method PutLength(bits: nat)
      requires data.Length == BLOCK
      modifies data
      ensures data[..] == old(data[..56]) + LengthBytes(bits)
    {
      data[63] := LengthByte(bits, 7);
      data[62] := LengthByte(bits, 6);
      data[61] := LengthByte(bits, 5);
      data[60] := LengthByte(bits, 4);
      data[59] := LengthByte(bits, 3);
      data[58] := LengthByte(bits, 2);
      data[57] := LengthByte(bits, 1);
      data[56] := LengthByte(bits, 0);
      assert data[..56] == old(data[..56]);
      EightBytes(data[56..], bits);
      assert data[..] == data[..56] + data[56..];
    }

    /** The last block of sha256_final: afterwards the padded message is folded in. */
    method LastBlock()
      requires Valid()
      modifies this, data
      ensures |folded| % BLOCK == 0 && folded == Pad(old(Message())) && state == Fold(Initial(), folded)
    {
      ghost var m := Message();
      var bits := datalen * 8;
      WrapLater(|folded|, datalen);
      ghost var total := BitCount(|m|);
      assert (bitlen + bits) % LEN_LIMIT == total;
      PadBuffer();
      ghost var head := data[..56];
      PadParts(m, folded, head);
      ghost var f := folded;
      bitlen := (bitlen + bits) % LEN_LIMIT;
      PutLength(bitlen);
      assert data[..] == head + LengthBytes(total);
      ghost var last := data[..];
      assert f + last == Pad(m);
      FoldBuffer();
      assert folded == f + last;
    }

    /** sha256_final: the digest of the message fed so far. */
    method Final() returns (hash: seq<byte>)
      requires Valid()
      modifies this, data
      ensures hash == Hash(old(Message()))
    {
      LastBlock();
      hash := Digest(state);
    }

    /** sha256_update appends to the message. */
    method Update(bytes: seq<byte>)
      requires Valid()
      modifies this, data
      ensures Valid() && Message() == old(Message()) + bytes
    {
      ghost var was := Message();
      for i := 0 to |bytes|
        invariant Valid() && Message() == was + bytes[..i]
      {
        Feed(bytes[i]);
        AppendNext(was, bytes, i);
      }
      assert bytes[..|bytes|] == bytes;
    }
  }

  /** The wrap of the 64-bit counter may be taken at every step or once at the end. */
  lemma WrapLater(n: nat, k: nat)
    ensures (BitCount(n) + 8 * k) % LEN_LIMIT == BitCount(n + k)
  {
  }

  lemma FeedAssoc(a: seq<byte>, b: seq<byte>, c: seq<byte>)
    ensures a + (b + c) == a + b + c && a + b + c + [] == a + b + c
  {
  }

  lemma EightBytes(s: seq<byte>, bits: nat)
    requires |s| == 8
    requires s[0] == LengthByte(bits, 0) && s[1] == LengthByte(bits, 1) && s[2] == LengthByte(bits, 2) &&
      s[3] == LengthByte(bits, 3)
    requires s[4] == LengthByte(bits, 4) && s[5] == LengthByte(bits, 5) && s[6] == LengthByte(bits, 6) &&
      s[7] == LengthByte(bits, 7)
    ensures s == LengthBytes(bits)
  {
  }

  lemma PadParts(m: seq<byte>, f: seq<byte>, head: seq<byte>)
    requires f + head == m + [0x80] + ZeroBytes(Zeros(|m|))
    ensures f + (head + LengthBytes(BitCount(|m|))) == Pad(m)
  {
    FeedAssoc(f, head, LengthBytes(BitCount(|m|)));
  }

  lemma ZeroConcat(a: nat, b: nat)
    ensures ZeroBytes(a) + ZeroBytes(b) == ZeroBytes(a + b)
  {
  }

  /** k bytes of the buffer are in use, the last of them the 0x80 byte. */
  lemma OneBlock(m: seq<byte>, f: seq<byte>, p: seq<byte>, k: nat)
    requires |f| % BLOCK == 0 && 0 < |p| == k <= 56 && f + p == m + [0x80]
    ensures f + (p + ZeroBytes(56 - k)) == m + [0x80] + ZeroBytes(Zeros(|m|))
  {
    ZerosFor(|f|, |m|, k);
    FeedAssoc(f, p, ZeroBytes(56 - k));
  }

  lemma ZerosFor(f: nat, m: nat, k: nat)
    requires f % BLOCK == 0 && 0 < k <= BLOCK && f + k == m + 1
    ensures Zeros(m) == if k <= 56 then 56 - k else 120 - k
  {
    assert m % BLOCK == k - 1;
  }

  lemma TwoBlocks(m: seq<byte>, f: seq<byte>, p: seq<byte>, k: nat)
    requires |f| % BLOCK == 0 && 56 < |p| == k <= BLOCK && f + p == m + [0x80]
    ensures f + (p + ZeroBytes(BLOCK - k)) + ([] + ZeroBytes(56)) == m + [0x80] + ZeroBytes(Zeros(|m|))
  {
    ZerosFor(|f|, |m|, k);
    ZeroConcat(BLOCK - k, 56);
    FeedAssoc(f, p, ZeroBytes(BLOCK - k));
    FeedAssoc(f + p, ZeroBytes(BLOCK - k), ZeroBytes(56));
    assert [] + ZeroBytes(56) == ZeroBytes(56);
  }

  lemma AppendNext(a: seq<byte>, b: seq<byte>, i: nat)
    requires i < |b|
    ensures a + b[..i] + [b[i]] == a + b[..i + 1]
  {
  }

  /** Any split of a message into updates gives the hash of the whole. */
  method HashParts(parts: seq<seq<byte>>) returns (hash: seq<byte>)
    ensures hash == Hash(Joined(parts))
  {
    var ctx := new Context();
    for i := 0 to |parts|
      invariant ctx.Valid() && fresh(ctx) && fresh(ctx.data) && ctx.Message() == Joined(parts[..i])
    {
      ctx.Update(parts[i]);
      assert parts[..i + 1][..i] == parts[..i];
    }
    assert parts[..|parts|] == parts;
    hash := ctx.Final();
  }

  function Joined(parts: seq<seq<byte>>): seq<byte> {
    if parts == [] then [] else Joined(parts[..|parts| - 1]) + parts[|parts| - 1]
  }

  /** The one-shot hash. */
  method HashOnce(bytes: seq<byte>) returns (hash: seq<byte>)
    ensures hash == Hash(bytes)
  {
    var ctx := new Context();
    ctx.Update(bytes);
    assert [] + bytes == bytes;
    hash := ctx.Final();
  }
}
