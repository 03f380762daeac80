/** The pipe: a 4096-byte ring under a lock, read and written in chunks by any number of
    readers and writers, against an unbounded queue of bytes. */
module Pipe {

  const SIZE := 4096

  type byte = x: int | 0 <= x < 256

  /** Position p advanced by n places around the ring. */
  function Adv(p: nat, n: nat): nat {
    if p + n < SIZE then p + n else p + n - SIZE
  }

  lemma AdvIsMod(p: nat, n: nat)
    requires p < SIZE && n <= SIZE
    ensures Adv(p, n) == (p + n) % SIZE
  {
  }

  /** From position `pos` on, the ring holds the bytes of c in order. */
  ghost predicate Holds(ring: seq<byte>, pos: nat, c: seq<byte>) {
    && |ring| == SIZE && pos < SIZE && |c| <= SIZE
    && forall i {:trigger c[i]} :: 0 <= i < |c| ==> ring[Adv(pos, i)] == c[i]
  }

  lemma HoldsRest(ring: seq<byte>, pos: nat, c: seq<byte>)
    requires Holds(ring, pos, c) && c != []
    ensures ring[pos] == c[0] && Holds(ring, Adv(pos, 1), c[1..])
  {
    assert ring[Adv(pos, 0)] == c[0];
    forall i | 0 <= i < |c| - 1 ensures ring[Adv(Adv(pos, 1), i)] == c[1..][i] {
      assert c[1..][i] == c[i + 1] && Adv(Adv(pos, 1), i) == Adv(pos, i + 1);
    }
  }

  lemma HoldsMore(ring: seq<byte>, pos: nat, c: seq<byte>, b: byte)
    requires Holds(ring, pos, c) && |c| < SIZE
    ensures Holds(ring[Adv(pos, |c|) := b], pos, c + [b])
  {
    var c' := c + [b];
    forall i | 0 <= i < |c'| ensures ring[Adv(pos, |c|) := b][Adv(pos, i)] == c'[i] {
      if i < |c| { assert c'[i] == c[i] && Adv(pos, i) != Adv(pos, |c|); }
    }
  }

  lemma SplitQueue(d: seq<byte>, p: seq<byte>, k: nat)
    requires k <= |p|
    ensures d + p[..k] + p[k..] == d + p
  {
    assert p == p[..k] + p[k..];
  }

  lemma NextByte(p: seq<byte>, i: nat)
    requires i < |p|
    ensures p[i..] != [] && p[i..][0] == p[i] && p[i..][1..] == p[i + 1..] && p[..i + 1] == p[..i] + [p[i]]
  {
  }

  lemma MoreBytes(p: seq<byte>, data: seq<byte>, i: nat)
    requires i < |data|
    ensures p + data[..i] + [data[i]] == p + data[..i + 1]
  {
  }

  class Ring {
    const buf: array<byte>
    var readPos: nat
    var writePos: nat
    var count: nat
    var readClosed: bool
    var writeClosed: bool
    ghost var accepted: seq<byte>
    ghost var delivered: seq<byte>
    ghost var pending: seq<byte>

    /** The bytes accepted are those delivered followed by those in the ring. */
    ghost predicate Valid()
      reads this, buf
    {
      && buf.Length == SIZE && Holds(buf[..], readPos, pending)
      && count == |pending| && writePos == (readPos + count) % SIZE
      && accepted == delivered + pending
    }

    constructor ()
      ensures Valid() && fresh(buf) && accepted == delivered == [] && !readClosed && !writeClosed
    {
      buf := new byte[SIZE];
      readPos, writePos, count, readClosed, writeClosed := 0, 0, 0, false, false;
      accepted, delivered, pending := [], [], [];
    }

    /** The critical section of pipe_read: up to `want` bytes leave the ring, oldest first. */
    method ReadChunk(want: nat) returns (out: seq<byte>)
      requires Valid()
      modifies this
      ensures Valid() && accepted == old(accepted) && delivered == old(delivered) + out
      ensures readClosed == old(readClosed) && writeClosed == old(writeClosed)
      ensures |out| == if want < old(count) then want else old(count)
    {
      if count == 0 { return []; }
      var chunk := if want > count then count else want;
      ghost var p := pending;
      AdvIsMod(readPos, count);
      out := CopyOut(chunk);
      count := count - chunk;
      delivered, pending := delivered + out, p[chunk..];
      SplitQueue(old(delivered), p, chunk);
      AdvIsMod(readPos, count);
    }

    method CopyOut(chunk: nat) returns (out: seq<byte>)
      requires buf.Length == SIZE && Holds(buf[..], readPos, pending) && chunk <= |pending|
      modifies this`readPos
      ensures out == pending[..chunk] && readPos == Adv(old(readPos), chunk)
      ensures Holds(buf[..], readPos, pending[chunk..])
    {
      out := [];
      assert pending[0..] == pending;
      for i := 0 to chunk
        invariant out == pending[..i] && readPos == Adv(old(readPos), i)
        invariant Holds(buf[..], readPos, pending[i..])
      {
        NextByte(pending, i);
        HoldsRest(buf[..], readPos, pending[i..]);
        AdvIsMod(readPos, 1);
        out := out + [buf[readPos]];
        readPos := (readPos + 1) % SIZE;
      }
    }

    /** The critical section of pipe_write: as many bytes enter the ring as fit, none once the
        read end is closed. */
    method WriteChunk(data: seq<byte>) returns (n: nat)
      requires Valid()
      modifies this, buf
      ensures Valid() && delivered == old(delivered) && n <= |data| && accepted == old(accepted) + data[..n]
      ensures readClosed == old(readClosed) && writeClosed == old(writeClosed)
      ensures n == if readClosed then 0 else if |data| < SIZE - old(count) then |data| else SIZE - old(count)
    {
      if readClosed || count >= SIZE { return 0; }
      var space := SIZE - count;
      var chunk := if |data| > space then space else |data|;
      AdvIsMod(readPos, count);
      CopyIn(data, chunk);
      count := count + chunk;
      accepted, pending := accepted + data[..chunk], pending + data[..chunk];
      AdvIsMod(readPos, count);
      return chunk;
    }

    method CopyIn(data: seq<byte>, chunk: nat)
      requires buf.Length == SIZE && Holds(buf[..], readPos, pending) && chunk <= |data| && |pending| + chunk <= SIZE
      requires writePos == Adv(readPos, |pending|)
      modifies this`writePos, buf
      ensures writePos == Adv(readPos, |pending| + chunk) && Holds(buf[..], readPos, pending + data[..chunk])
    {
      assert pending + data[..0] == pending;
      for i := 0 to chunk
        invariant Holds(buf[..], readPos, pending + data[..i]) && writePos == Adv(readPos, |pending| + i)
      {
        HoldsMore(buf[..], readPos, pending + data[..i], data[i]);
        MoreBytes(pending, data, i);
        AdvIsMod(writePos, 1);
        buf[writePos] := data[i];
        writePos := (writePos + 1) % SIZE;
      }
    }

    method CloseRead()
      requires Valid()
      modifies this`readClosed
      ensures Valid() && readClosed && accepted == old(accepted) && delivered == old(delivered)
    {
      readClosed := true;
    }

    method CloseWrite()
      requires Valid()
      modifies this`writeClosed
      ensures Valid() && writeClosed && accepted == old(accepted) && delivered == old(delivered)
    {
      writeClosed := true;
    }
  }

  // ----- Interleavings -----

  /** One critical section by some reader or writer. */
  datatype Op = DoRead(want: nat) | DoWrite(data: seq<byte>) | DoCloseRead | DoCloseWrite

  /** What a section did: the bytes a read returned, the number of bytes a write took. */
  datatype Effect = Got(bytes: seq<byte>) | Took(n: nat) | Closed

  /** The bytes writers put in, in the order of the sections. */
  function Accepted(ops: seq<Op>, effects: seq<Effect>): seq<byte>
    requires |ops| == |effects|
  {
    if ops == [] then []
    else
      var k := |ops| - 1;
      Accepted(ops[..k], effects[..k]) +
      if ops[k].DoWrite? && effects[k].Took? && effects[k].n <= |ops[k].data| then ops[k].data[..effects[k].n] else []
  }

  /** The bytes readers got out, in the order of the sections. */
  function Delivered(effects: seq<Effect>): seq<byte> {
    if effects == [] then []
    else
      var k := |effects| - 1;
      Delivered(effects[..k]) + if effects[k].Got? then effects[k].bytes else []
  }

  function Min(a: int, b: int): int {
    if a < b then a else b
  }

  /** What a section must answer when `held` bytes are in the pipe: a read gets as many as it wants
      and are there, a write gives as many as it has and fit, and none once the read end is closed. */
  predicate Answers(op: Op, e: Effect, held: int, closed: bool) {
    match op
    case DoRead(want) => e.Got? && |e.bytes| == Min(want, held)
    case DoWrite(data) => e.Took? && e.n == if closed then 0 else Min(|data|, SIZE - held)
    case _ => e == Closed
  }

  /** The bytes put in and not yet got out after the first i sections. */
  function Held(ops: seq<Op>, effects: seq<Effect>, i: nat): int
    requires i <= |ops| == |effects|
  {
    |Accepted(ops[..i], effects[..i])| - |Delivered(effects[..i])|
  }

  /** Section i answers as it must, and what has been got out is the start of what was put in. */
  ghost predicate SectionOk(ops: seq<Op>, effects: seq<Effect>, i: nat)
    requires i < |ops| == |effects|
  {
    && Answers(ops[i], effects[i], Held(ops, effects, i), DoCloseRead in ops[..i])
    && Delivered(effects[..i + 1]) <= Accepted(ops[..i + 1], effects[..i + 1])
  }

  /** A section says the same of a longer run. */
  lemma SectionStays(ops: seq<Op>, effects: seq<Effect>, e: Effect, n: nat, i: nat)
    requires i < n == |effects| < |ops| && SectionOk(ops[..n], effects, i)
    ensures SectionOk(ops[..n + 1], effects + [e], i)
  {
    assert ops[..n][..i] == ops[..n + 1][..i] && ops[..n][..i + 1] == ops[..n + 1][..i + 1];
    assert effects[..i] == (effects + [e])[..i] && effects[..i + 1] == (effects + [e])[..i + 1];
  }

  method RunOne(r: Ring, op: Op) returns (e: Effect)
    requires r.Valid()
    modifies r, r.buf
    ensures r.Valid() && r.readClosed == (old(r.readClosed) || op.DoCloseRead?)
    ensures Answers(op, e, |old(r.accepted)| - |old(r.delivered)|, old(r.readClosed))
    ensures r.accepted == old(r.accepted) +
      if op.DoWrite? && e.Took? && e.n <= |op.data| then op.data[..e.n] else []
    ensures r.delivered == old(r.delivered) + if e.Got? then e.bytes else []
  {
    assert r.count == |r.accepted| - |r.delivered|;
    match op
    case DoRead(want) =>
      var out := r.ReadChunk(want);
      e := Got(out);
    case DoWrite(data) =>
      var n := r.WriteChunk(data);
      e := Took(n);
    case DoCloseRead =>
      r.CloseRead();
      e := Closed;
    case DoCloseWrite =>
      r.CloseWrite();
      e := Closed;
  }

  /** Every section answers as it must. */
  ghost predicate RunOk(ops: seq<Op>, effects: seq<Effect>) {
    |effects| == |ops| && forall i :: 0 <= i < |ops| ==> SectionOk(ops, effects, i)
  }

  /** One more section. */
  lemma SumsNext(ops: seq<Op>, effects: seq<Effect>, e: Effect, n: nat)
    requires n == |effects| < |ops|
    ensures Accepted(ops[..n + 1], effects + [e]) == Accepted(ops[..n], effects) +
      if ops[n].DoWrite? && e.Took? && e.n <= |ops[n].data| then ops[n].data[..e.n] else []
    ensures Delivered(effects + [e]) == Delivered(effects) + if e.Got? then e.bytes else []
    ensures DoCloseRead in ops[..n + 1] <==> DoCloseRead in ops[..n] || ops[n].DoCloseRead?
  {
    assert ops[..n + 1] == ops[..n] + [ops[n]];
    assert ops[..n + 1][..n] == ops[..n] && (effects + [e])[..n] == effects;
  }

  lemma RunNext(ops: seq<Op>, effects: seq<Effect>, e: Effect, n: nat)
    requires n == |effects| < |ops| && RunOk(ops[..n], effects)
    requires Answers(ops[n], e, |Accepted(ops[..n], effects)| - |Delivered(effects)|, DoCloseRead in ops[..n])
    requires Delivered(effects + [e]) <= Accepted(ops[..n + 1], effects + [e])
    ensures RunOk(ops[..n + 1], effects + [e])
  {
    var ops', effects' := ops[..n + 1], effects + [e];
    forall i | 0 <= i < n + 1 ensures SectionOk(ops', effects', i) {
      if i < n {
        SectionStays(ops, effects, e, n, i);
      } else {
        assert ops'[..n] == ops[..n] && effects'[..n] == effects && ops'[..n + 1] == ops' &&
          effects'[..n + 1] == effects';
      }
    }
  }

  /** First in, first out. Whatever the interleaving of sections, every section moves exactly the
      bytes it must, the bytes readers got are at every point the start of the bytes writers put
      in, and at most 4096 bytes are in between. */
  method RunAll(ops: seq<Op>) returns (effects: seq<Effect>)
    ensures |effects| == |ops| && RunOk(ops, effects)
    ensures Delivered(effects) <= Accepted(ops, effects) && |Accepted(ops, effects)| <= |Delivered(effects)| + SIZE
  {
    var r := new Ring();
    effects := [];
    for n := 0 to |ops|
      invariant r.Valid() && fresh(r) && fresh(r.buf) && |effects| == n && r.readClosed == (DoCloseRead in ops[..n])
      invariant r.accepted == Accepted(ops[..n], effects) && r.delivered == Delivered(effects)
      invariant RunOk(ops[..n], effects)
    {
      var e := RunOne(r, ops[n]);
      SumsNext(ops, effects, e, n);
      RunNext(ops, effects, e, n);
      effects := effects + [e];
    }
    assert ops[..|ops|] == ops;
  }
}
