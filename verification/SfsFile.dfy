/** sfs_vfs_read and sfs_vfs_write against a file as a byte sequence, across the three
    pointer levels. */
module SfsFile {
  import opened Seqs
  import opened SfsTree
  import opened SfsAlloc

  /** File sizes and offsets are 32-bit. */
  // The size field has 32 bits, the file block number of an offset too.
  const SIZE_LIMIT := 0x1_0000_0000
  const OFFSET_LIMIT := SIZE_LIMIT * BLOCK_SIZE

  /** The block that holds a position of a file, 0 in a hole. */
  function BlockAt(d: Disk, ino: Inode, pos: nat): nat
    requires InodeOk(ino)
  {
    if pos / BLOCK_SIZE < MAX_BLOCKS then SlotVal(d, ino, SlotOf(pos / BLOCK_SIZE)) else 0
  }

  /** Byte o of block b; the null block reads as zeros. */
  function Raw(d: Disk, b: nat, o: nat): byte
    requires o < BLOCK_SIZE
  {
    if 0 < b < |d.blocks| then d.blocks[b][o] else 0
  }

  /** The byte a file shows at a position; holes read as zero. */
  function FileByte(d: Disk, ino: Inode, pos: nat): byte
    requires InodeOk(ino)
  {
    Raw(d, BlockAt(d, ino, pos), pos % BLOCK_SIZE)
  }

  function Content(d: Disk, ino: Inode): (c: seq<byte>)
    requires InodeOk(ino)
    ensures |c| == ino.size && forall p :: 0 <= p < |c| ==> c[p] == FileByte(d, ino, p)
  {
    seq(ino.size, p requires 0 <= p < ino.size => FileByte(d, ino, p))
  }

  /** Every block that holds one of the first len bytes is mapped. */
  ghost predicate HoleFree(d: Disk, ino: Inode, len: nat)
    requires InodeOk(ino)
  {
    forall fb: nat :: fb * BLOCK_SIZE < len ==> fb < MAX_BLOCKS && SlotVal(d, ino, SlotOf(fb)) != 0
  }

  function Splice(c: seq<byte>, off: nat, data: seq<byte>): seq<byte>
    requires off <= |c|
  {
    c[..off] + data + if off + |data| <= |c| then c[off + |data|..] else []
  }

  // ----- Read -----

  /** sfs_read_block_data: the clamp compares the offset inside the block with the file size,
      and never fires for a caller that stays within the file. */
  method ReadBlockData(d: Disk, size: nat, b: nat, blockOff: nat, count: nat) returns (out: seq<byte>)
    requires b < |d.blocks| && blockOff + count <= BLOCK_SIZE && blockOff + count <= size
    ensures out == d.blocks[b][blockOff..blockOff + count]
  {
    var copy := count;
    if blockOff + copy > size { copy := size - blockOff; }
    out := d.blocks[b][blockOff..blockOff + copy];
  }

  lemma PositionSplit(p: nat)
    ensures p == p / BLOCK_SIZE * BLOCK_SIZE + p % BLOCK_SIZE
  {
  }

  lemma SameBlock(pos: nat, i: nat)
    requires pos % BLOCK_SIZE + i < BLOCK_SIZE
    ensures (pos + i) / BLOCK_SIZE == pos / BLOCK_SIZE && (pos + i) % BLOCK_SIZE == pos % BLOCK_SIZE + i
  {
  }

  /** The part of a read that falls in one block. */
  method ReadChunk(d: Disk, ino: Inode, pos: nat, chunk: nat) returns (piece: seq<byte>)
    requires InodeOk(ino) && pos % BLOCK_SIZE + chunk <= BLOCK_SIZE && pos + chunk <= ino.size
    requires pos / BLOCK_SIZE < MAX_BLOCKS ==> SlotVal(d, ino, SlotOf(pos / BLOCK_SIZE)) < |d.blocks|
    ensures |piece| == chunk && forall i :: 0 <= i < chunk ==> piece[i] == FileByte(d, ino, pos + i)
  {
    var fileBlock, blockOff := pos / BLOCK_SIZE, pos % BLOCK_SIZE;
    var phys := if fileBlock < MAX_BLOCKS then SlotVal(d, ino, SlotOf(fileBlock)) else 0;
    if phys == 0 {
      piece := seq(chunk, _ => 0);
    } else {
      PositionSplit(pos);
      piece := ReadBlockData(d, ino.size, phys, blockOff, chunk);
    }
    forall i | 0 <= i < chunk ensures piece[i] == FileByte(d, ino, pos + i) {
      SameBlock(pos, i);
    }
  }

  lemma SlotInStore(d: Disk, inodes: seq<Inode>, owner: Owner, n: nat, fb: nat)
    requires Sound(d, inodes, owner) && n < |inodes| && fb < MAX_BLOCKS
    ensures SlotVal(d, inodes[n], SlotOf(fb)) < |d.blocks|
  {
    assert Owned(d, owner, n, SlotOf(fb), SlotVal(d, inodes[n], SlotOf(fb)));
  }

  /** sfs_vfs_read returns exactly the requested slice of the file. */
  method Read(fs: Sfs, n: nat, count: nat, offset: nat) returns (buf: seq<byte>)
    requires fs.Valid() && n < |fs.inodes|
    ensures var c := Content(fs.disk, fs.inodes[n]);
      buf == if offset >= |c| then [] else c[offset..if offset + count <= |c| then offset + count else |c|]
  {
    var d, ino := fs.disk, fs.inodes[n];
    var remain := if ino.size > offset then ino.size - offset else 0;
    var cnt := if count > remain then remain else count;
    buf := [];
    var done := 0;
    while done < cnt
      invariant done == |buf| <= cnt
      invariant forall i :: 0 <= i < done ==> buf[i] == FileByte(d, ino, offset + i)
    {
      var chunk := BLOCK_SIZE - (offset + done) % BLOCK_SIZE;
      if chunk > cnt - done { chunk := cnt - done; }
      ghost var fb := (offset + done) / BLOCK_SIZE;
      if fb < MAX_BLOCKS { SlotInStore(d, fs.inodes, fs.owner, n, fb); }
      var piece := ReadChunk(d, ino, offset + done, chunk);
      forall i | 0 <= i < done + chunk ensures (buf + piece)[i] == FileByte(d, ino, offset + i) {
        if i >= done { assert offset + i == offset + done + (i - done); }
      }
      buf := buf + piece;
      done := done + chunk;
    }
    ghost var c := Content(d, ino);
    assert forall i :: 0 <= i < cnt ==> buf[i] == c[offset + i];
  }

  // ----- Write -----

  function Patch(old_: Block, off: nat, data: seq<byte>): (r: Block)
    requires off + |data| <= BLOCK_SIZE
    ensures forall i :: 0 <= i < BLOCK_SIZE ==> r[i] == if off <= i < off + |data| then data[i - off] else old_[i]
  {
    old_[..off] + data + old_[off + |data|..]
  }

  function PatchDisk(d: Disk, b: nat, off: nat, data: seq<byte>): Disk
    requires b < |d.blocks| && off + |data| <= BLOCK_SIZE
  {
    d.(blocks := d.blocks[b := Patch(d.blocks[b], off, data)])
  }

  /** Rewriting part of one data block changes those bytes of that file and nothing else. */
  lemma PatchChangesByte(d: Disk, inodes: seq<Inode>, owner: Owner, n: nat, fb: nat, off: nat, data: seq<byte>, m: nat,
                         pos: nat)
    requires Sound(d, inodes, owner) && n < |inodes| && m < |inodes| && fb < MAX_BLOCKS
    requires SlotVal(d, inodes[n], SlotOf(fb)) != 0 && off + |data| <= BLOCK_SIZE
    ensures var b := SlotVal(d, inodes[n], SlotOf(fb));
      && b < |d.blocks|
      && FileByte(PatchDisk(d, b, off, data), inodes[m], pos) ==
        if m == n && pos / BLOCK_SIZE == fb && off <= pos % BLOCK_SIZE < off + |data| then data[pos % BLOCK_SIZE - off]
        else FileByte(d, inodes[m], pos)
  {
    var b := SlotVal(d, inodes[n], SlotOf(fb));
    WriteLeaf(d, inodes, owner, n, SlotOf(fb), d.blocks[0]);
    assert Owned(d, owner, n, SlotOf(fb), b);
    WriteLeaf(d, inodes, owner, n, SlotOf(fb), Patch(d.blocks[b], off, data));
    var k := pos / BLOCK_SIZE;
    if k < MAX_BLOCKS {
      FileBlockSlot(k);
      FileBlockSlot(fb);
      assert Owned(d, owner, m, SlotOf(k), SlotVal(d, inodes[m], SlotOf(k)));
    }
  }

  lemma SoundAfterLeafWrite(d: Disk, inodes: seq<Inode>, owner: Owner, n: nat, s: Slot, data: Block)
    requires Sound(d, inodes, owner) && n < |inodes| && SlotOk(s) && IsLeaf(s)
    requires 0 < SlotVal(d, inodes[n], s) < |d.blocks|
    ensures Sound(d.(blocks := d.blocks[SlotVal(d, inodes[n], s) := data]), inodes, owner)
  {
    WriteLeaf(d, inodes, owner, n, s, data);
    var e := d.(blocks := d.blocks[SlotVal(d, inodes[n], s) := data]);
    forall m, t | 0 <= m < |inodes| && SlotOk(t) ensures Owned(e, owner, m, t, SlotVal(e, inodes[m], t)) {
      assert Owned(d, owner, m, t, SlotVal(d, inodes[m], t));
    }
  }

  function Max(a: nat, b: nat): nat {
    if a < b then b else a
  }

  /** The chunk is the part of the buffer that starts at done. */
  ghost predicate IsPiece(buf: seq<byte>, done: nat, chunk: seq<byte>) {
    done + |chunk| <= |buf| && chunk == buf[done..done + |chunk|]
  }

  /** Pointers that were set stay, and only those of inode n are filled. */
  ghost predicate OnlyGrows(d0: Disk, inodes0: seq<Inode>, d: Disk, inodes: seq<Inode>, n: nat)
    requires InodesOk(inodes0) && InodesOk(inodes) && |inodes| == |inodes0|
  {
    forall m, t {:trigger SlotVal(d, inodes[m], t)} {:trigger SlotVal(d0, inodes0[m], t)} ::
      0 <= m < |inodes| && SlotOk(t) && (m != n || SlotVal(d0, inodes0[m], t) != 0) ==>
        SlotVal(d, inodes[m], t) == SlotVal(d0, inodes0[m], t)
  }

  /** Unused blocks hold what they held. */
  ghost predicate UnusedSame(d0: Disk, d: Disk) {
    |d.blocks| == |d0.blocks| && forall c: nat {:trigger d.blocks[c]} :: c < |d.blocks| && !Used(d, c) ==>
      d.blocks[c] == d0.blocks[c]
  }

  /** No block is released, and every new pointer leads to a block that was unused. */
  ghost predicate TakesUnused(d0: Disk, inodes0: seq<Inode>, d: Disk, inodes: seq<Inode>)
    requires InodesOk(inodes0) && InodesOk(inodes) && |inodes| == |inodes0|
  {
    && (forall c: nat {:trigger Used(d, c)} :: Used(d0, c) ==> Used(d, c))
    && forall m, t {:trigger SlotVal(d, inodes[m], t)} ::
        0 <= m < |inodes| && SlotOk(t) && SlotVal(d, inodes[m], t) != SlotVal(d0, inodes0[m], t) ==>
         !Used(d0, SlotVal(d, inodes[m], t))
  }

  lemma TakesOn(d0: Disk, inodes0: seq<Inode>, d: Disk, inodes: seq<Inode>, e: Disk, inodes': seq<Inode>)
    requires InodesOk(inodes0) && InodesOk(inodes) && InodesOk(inodes') && |inodes0| == |inodes| == |inodes'|
    requires TakesUnused(d0, inodes0, d, inodes) && Fresh(d, inodes, e, inodes')
    ensures TakesUnused(d0, inodes0, e, inodes')
  {
    forall c: nat | Used(d0, c) ensures Used(e, c) { assert Used(d, c); }
    forall m, t | 0 <= m < |inodes| && SlotOk(t) && SlotVal(e, inodes'[m], t) != SlotVal(d0, inodes0[m], t)
      ensures !Used(d0, SlotVal(e, inodes'[m], t))
    {
      var v := SlotVal(e, inodes'[m], t);
      if v != SlotVal(d, inodes[m], t) { assert !Used(d, v); }
    }
  }

  /** Every block that received some of the first `done` bytes is mapped. */
  ghost predicate Reached(d: Disk, ino: Inode, offset: nat, done: nat)
    requires InodeOk(ino)
  {
    done > 0 ==>
      && offset + done <= MAX_BLOCKS * BLOCK_SIZE
      && forall fb: nat :: offset / BLOCK_SIZE <= fb && fb * BLOCK_SIZE < offset + done ==>
        fb < MAX_BLOCKS && SlotVal(d, ino, SlotOf(fb)) != 0
  }

  /** What a position of file m must show: a byte of the buffer, or what the block now mapped there
      held when the write began. */
  function Shows(d0: Disk, d: Disk, ino: Inode, mine: bool, offset: nat, buf: seq<byte>, done: nat, pos: nat): byte
    requires InodeOk(ino) && done <= |buf|
  {
    if mine && offset <= pos < offset + done then buf[pos - offset] else Raw(d0, BlockAt(d, ino, pos), pos % BLOCK_SIZE)
  }

  /** Progress of a write. */
  ghost predicate Written(d0: Disk, inodes0: seq<Inode>, d: Disk, inodes: seq<Inode>, n: nat, offset: nat,
                          buf: seq<byte>, done: nat)
    requires InodesOk(inodes0) && InodesOk(inodes) && |inodes| == |inodes0| && n < |inodes| && done <= |buf|
  {
    && SameShape(d0, inodes0, d, inodes) && OnlyGrows(d0, inodes0, d, inodes, n) && UnusedSame(d0, d)
    && Reached(d, inodes[n], offset, done) && TakesUnused(d0, inodes0, d, inodes)
    && forall m, pos {:trigger FileByte(d, inodes[m], pos)} :: 0 <= m < |inodes| && 0 <= pos ==>
          FileByte(d, inodes[m], pos) == Shows(d0, d, inodes[m], m == n, offset, buf, done, pos)
  }

  lemma ReachedAt(d: Disk, ino: Inode, offset: nat, done: nat, pos: nat)
    requires InodeOk(ino) && Reached(d, ino, offset, done) && offset <= pos < offset + done
    ensures BlockAt(d, ino, pos) != 0
  {
    PositionSplit(pos);
    PositionSplit(offset);
    assert offset / BLOCK_SIZE <= pos / BLOCK_SIZE;
  }

  /** A data block of the tree is no index block of it. */
  lemma LeafNotIndex(d: Disk, inodes: seq<Inode>, owner: Owner, m: nat, t: Slot)
    requires Sound(d, inodes, owner) && m < |inodes| && SlotOk(t) && IsLeaf(t) && SlotVal(d, inodes[m], t) != 0
    ensures !IsIndexBlock(d, inodes, SlotVal(d, inodes[m], t))
  {
    var v := SlotVal(d, inodes[m], t);
    assert Owned(d, owner, m, t, v);
    forall k, u | 0 <= k < |inodes| && SlotOk(u) && IndexSlot(u) ensures SlotVal(d, inodes[k], u) != v {
      assert Owned(d, owner, k, u, SlotVal(d, inodes[k], u));
    }
  }

  lemma IndexIsUsed(d: Disk, inodes: seq<Inode>, owner: Owner, c: nat)
    requires Sound(d, inodes, owner) && IsIndexBlock(d, inodes, c)
    ensures Used(d, c)
  {
    var m, t :| 0 <= m < |inodes| && SlotOk(t) && IndexSlot(t) && SlotVal(d, inodes[m], t) == c;
    assert Owned(d, owner, m, t, SlotVal(d, inodes[m], t));
  }

  /** Growing the tree writes no data block: each shows what it held before. */
  lemma ExtendKeepsRaw(d: Disk, inodes: seq<Inode>, e: Disk, inodes': seq<Inode>, owner': Owner, m: nat, pos: nat)
    requires InodesOk(inodes) && Sound(e, inodes', owner') && |inodes'| == |inodes| && m < |inodes| &&
      Fresh(d, inodes, e, inodes')
    ensures FileByte(e, inodes'[m], pos) == Raw(d, BlockAt(e, inodes'[m], pos), pos % BLOCK_SIZE)
  {
    var k, v := pos / BLOCK_SIZE, BlockAt(e, inodes'[m], pos);
    if k < MAX_BLOCKS && v != 0 {
      FileBlockSlot(k);
      LeafNotIndex(e, inodes', owner', m, SlotOf(k));
      if v < |e.blocks| { assert e.blocks[v] == d.blocks[v]; }
    }
  }

  lemma UnusedAfterExtend(d0: Disk, d: Disk, inodes: seq<Inode>, e: Disk, inodes': seq<Inode>, owner': Owner)
    requires InodesOk(inodes) && Sound(e, inodes', owner') && |inodes'| == |inodes| && Fresh(d, inodes, e, inodes') &&
      UnusedSame(d0, d)
    ensures UnusedSame(d0, e)
  {
    forall c: nat | c < |e.blocks| && !Used(e, c) ensures e.blocks[c] == d0.blocks[c] {
      if IsIndexBlock(e, inodes', c) { IndexIsUsed(e, inodes', owner', c); }
      assert e.blocks[c] == d.blocks[c] && !Used(d, c);
    }
  }

  /** What a position shows after growth, told from the start of the write. */
  lemma ShowsAfterExtend(d0: Disk, inodes0: seq<Inode>, d: Disk, inodes: seq<Inode>, owner: Owner, e: Disk,
                         inodes': seq<Inode>, owner': Owner,
                         n: nat, fb: nat, offset: nat, buf: seq<byte>, done: nat, m: nat, pos: nat)
    requires InodesOk(inodes0) && |inodes0| == |inodes| == |inodes'| && n < |inodes| && m < |inodes| &&
      fb < MAX_BLOCKS && done <= |buf|
    requires Sound(d, inodes, owner) && Sound(e, inodes', owner') && OnlyFilled(d, inodes, e, inodes', n, fb) &&
      Fresh(d, inodes, e, inodes')
    requires Written(d0, inodes0, d, inodes, n, offset, buf, done)
    ensures FileByte(e, inodes'[m], pos) == Shows(d0, e, inodes'[m], m == n, offset, buf, done, pos)
  {
    ExtendKeepsRaw(d, inodes, e, inodes', owner', m, pos);
    var v, w := BlockAt(e, inodes'[m], pos), BlockAt(d, inodes[m], pos);
    assert FileByte(d, inodes[m], pos) == Shows(d0, d, inodes[m], m == n, offset, buf, done, pos);
    if w != 0 {
      assert v == w;
    } else {
      if m == n && offset <= pos < offset + done { ReachedAt(d, inodes[n], offset, done, pos); }
      if v != 0 {
        assert !Used(d, v);
        if v < |d.blocks| { assert d.blocks[v] == d0.blocks[v]; }
      }
    }
  }

  /** Allocating the block keeps the progress made so far. */
  lemma WrittenAfterExtend(d0: Disk, inodes0: seq<Inode>, d: Disk, inodes: seq<Inode>, owner: Owner, e: Disk,
                           inodes': seq<Inode>, owner': Owner,
                           n: nat, fb: nat, offset: nat, buf: seq<byte>, done: nat)
    requires InodesOk(inodes0) && |inodes0| == |inodes| == |inodes'| && n < |inodes| && fb < MAX_BLOCKS && done <= |buf|
    requires Sound(d, inodes, owner) && Sound(e, inodes', owner') && Extends(d, inodes, e, inodes', n, fb)
    requires Written(d0, inodes0, d, inodes, n, offset, buf, done)
    ensures Written(d0, inodes0, e, inodes', n, offset, buf, done)
  {
    UnusedAfterExtend(d0, d, inodes, e, inodes', owner');
    forall m, pos | 0 <= m < |inodes| && 0 <= pos
      ensures FileByte(e, inodes'[m], pos) == Shows(d0, e, inodes'[m], m == n, offset, buf, done, pos)
    {
      ShowsAfterExtend(d0, inodes0, d, inodes, owner, e, inodes', owner', n, fb, offset, buf, done, m, pos);
    }
    GrowsOn(d0, inodes0, d, inodes, e, inodes', n, fb);
    TakesOn(d0, inodes0, d, inodes, e, inodes');
    ReachedStays(d, inodes, e, inodes', n, fb, offset, done);
  }

  lemma GrowsOn(d0: Disk, inodes0: seq<Inode>, d: Disk, inodes: seq<Inode>, e: Disk, inodes': seq<Inode>, n: nat,
                fb: nat)
    requires InodesOk(inodes0) && InodesOk(inodes) && InodesOk(inodes') && |inodes0| == |inodes| == |inodes'| &&
      n < |inodes| && fb < MAX_BLOCKS
    requires OnlyGrows(d0, inodes0, d, inodes, n) && OnlyFilled(d, inodes, e, inodes', n, fb)
    ensures OnlyGrows(d0, inodes0, e, inodes', n)
  {
    forall m, t | 0 <= m < |inodes| && SlotOk(t) && (m != n || SlotVal(d0, inodes0[m], t) != 0)
      ensures SlotVal(e, inodes'[m], t) == SlotVal(d0, inodes0[m], t)
    {
      assert SlotVal(d, inodes[m], t) == SlotVal(d0, inodes0[m], t);
    }
  }

  lemma ReachedStays(d: Disk, inodes: seq<Inode>, e: Disk, inodes': seq<Inode>, n: nat, fb: nat, offset: nat, done: nat)
    requires InodesOk(inodes) && InodesOk(inodes') && |inodes| == |inodes'| && n < |inodes| && fb < MAX_BLOCKS
    requires OnlyFilled(d, inodes, e, inodes', n, fb) && Reached(d, inodes[n], offset, done)
    ensures Reached(e, inodes'[n], offset, done)
  {
    forall k: nat | done > 0 && offset / BLOCK_SIZE <= k && k * BLOCK_SIZE < offset + done
      ensures k < MAX_BLOCKS && SlotVal(e, inodes'[n], SlotOf(k)) != 0
    {
      assert SlotVal(d, inodes[n], SlotOf(k)) != 0;
    }
  }

  /** The next chunk can be stored: the block it falls in is mapped. */
  ghost predicate CanStore(d: Disk, inodes: seq<Inode>, n: nat, at: nat, chunk: seq<byte>)
    requires InodesOk(inodes) && n < |inodes|
  {
    at / BLOCK_SIZE < MAX_BLOCKS && SlotVal(d, inodes[n], SlotOf(at / BLOCK_SIZE)) != 0 &&
      at % BLOCK_SIZE + |chunk| <= BLOCK_SIZE
  }

  /** Whether a position lies in the stored chunk, told block by block and told by position. */
  lemma InChunk(at: nat, k: nat, pos: nat)
    requires at % BLOCK_SIZE + k <= BLOCK_SIZE
    ensures (pos / BLOCK_SIZE == at / BLOCK_SIZE && at % BLOCK_SIZE <= pos % BLOCK_SIZE < at % BLOCK_SIZE + k) <==>
      at <= pos < at + k
    ensures at <= pos < at + k ==> pos % BLOCK_SIZE - at % BLOCK_SIZE == pos - at
  {
    PositionSplit(at);
    PositionSplit(pos);
    if at <= pos < at + k { SameBlock(at, pos - at); }
  }

  lemma PatchKeepsPointers(d: Disk, inodes: seq<Inode>, owner: Owner, n: nat, at: nat, chunk: seq<byte>, b: nat)
    requires n < |inodes| && Sound(d, inodes, owner) && CanStore(d, inodes, n, at, chunk)
    requires b == SlotVal(d, inodes[n], SlotOf(at / BLOCK_SIZE)) < |d.blocks|
    ensures var e := PatchDisk(d, b, at % BLOCK_SIZE, chunk);
      && (forall m, t :: 0 <= m < |inodes| && SlotOk(t) ==> SlotVal(e, inodes[m], t) == SlotVal(d, inodes[m], t))
      && Used(d, b) && b > 0
  {
    WriteLeaf(d, inodes, owner, n, SlotOf(at / BLOCK_SIZE), Patch(d.blocks[b], at % BLOCK_SIZE, chunk));
    assert Owned(d, owner, n, SlotOf(at / BLOCK_SIZE), SlotVal(d, inodes[n], SlotOf(at / BLOCK_SIZE)));
  }

  lemma ShowsAfterPatch(d0: Disk, inodes0: seq<Inode>, d: Disk, inodes: seq<Inode>, owner: Owner,
                        n: nat, offset: nat, buf: seq<byte>, done: nat, chunk: seq<byte>, b: nat, m: nat, pos: nat)
    requires InodesOk(inodes0) && |inodes0| == |inodes| && n < |inodes| && m < |inodes| && Sound(d, inodes, owner)
    requires IsPiece(buf, done, chunk) && CanStore(d, inodes, n, offset + done, chunk)
    requires Written(d0, inodes0, d, inodes, n, offset, buf, done)
    requires b == SlotVal(d, inodes[n], SlotOf((offset + done) / BLOCK_SIZE)) < |d.blocks|
    ensures var e := PatchDisk(d, b, (offset + done) % BLOCK_SIZE, chunk);
      FileByte(e, inodes[m], pos) == Shows(d0, e, inodes[m], m == n, offset, buf, done + |chunk|, pos)
  {
    var at := offset + done;
    PatchChangesByte(d, inodes, owner, n, at / BLOCK_SIZE, at % BLOCK_SIZE, chunk, m, pos);
    PatchKeepsPointers(d, inodes, owner, n, at, chunk, b);
    InChunk(at, |chunk|, pos);
    assert FileByte(d, inodes[m], pos) == Shows(d0, d, inodes[m], m == n, offset, buf, done, pos);
    var e := PatchDisk(d, b, at % BLOCK_SIZE, chunk);
    assert BlockAt(e, inodes[m], pos) == BlockAt(d, inodes[m], pos);
  }

  lemma ReachedMore(d: Disk, ino: Inode, e: Disk, offset: nat, done: nat, k: nat)
    requires InodeOk(ino) && Reached(d, ino, offset, done) && (offset + done) / BLOCK_SIZE < MAX_BLOCKS
    requires SlotVal(d, ino, SlotOf((offset + done) / BLOCK_SIZE)) != 0 &&
      (offset + done) % BLOCK_SIZE + k <= BLOCK_SIZE
    requires forall t :: SlotOk(t) ==> SlotVal(e, ino, t) == SlotVal(d, ino, t)
    ensures Reached(e, ino, offset, done + k)
  {
    var at := offset + done;
    PositionSplit(at);
    forall fb: nat | done + k > 0 && offset / BLOCK_SIZE <= fb && fb * BLOCK_SIZE < at + k
      ensures fb < MAX_BLOCKS && SlotVal(e, ino, SlotOf(fb)) != 0
    {
      if done == 0 || fb * BLOCK_SIZE >= at { assert fb == at / BLOCK_SIZE; }
    }
  }

  /** Storing the next chunk extends the progress by it. */
  lemma WrittenAfterPatch(d0: Disk, inodes0: seq<Inode>, d: Disk, inodes: seq<Inode>, owner: Owner,
                          n: nat, offset: nat, buf: seq<byte>, done: nat, chunk: seq<byte>, b: nat, at: nat, e: Disk,
                            more: nat)
    requires InodesOk(inodes0) && |inodes0| == |inodes| && n < |inodes| && Sound(d, inodes, owner)
    requires IsPiece(buf, done, chunk) && at == offset + done && CanStore(d, inodes, n, at, chunk) &&
      more == done + |chunk|
    requires Written(d0, inodes0, d, inodes, n, offset, buf, done)
    requires b == SlotVal(d, inodes[n], SlotOf(at / BLOCK_SIZE)) < |d.blocks| &&
      e == PatchDisk(d, b, at % BLOCK_SIZE, chunk)
    ensures Written(d0, inodes0, e, inodes, n, offset, buf, more)
  {
    PatchKeepsPointers(d, inodes, owner, n, offset + done, chunk, b);
    forall m, pos | 0 <= m < |inodes| && 0 <= pos
      ensures FileByte(e, inodes[m], pos) == Shows(d0, e, inodes[m], m == n, offset, buf, done + |chunk|, pos)
    {
      ShowsAfterPatch(d0, inodes0, d, inodes, owner, n, offset, buf, done, chunk, b, m, pos);
    }
    ReachedMore(d, inodes[n], e, offset, done, |chunk|);
    forall m, t | 0 <= m < |inodes| && SlotOk(t) && (m != n || SlotVal(d0, inodes0[m], t) != 0)
      ensures SlotVal(e, inodes[m], t) == SlotVal(d0, inodes0[m], t)
    {
      assert SlotVal(e, inodes[m], t) == SlotVal(d, inodes[m], t);
    }
    forall m, t | 0 <= m < |inodes| && SlotOk(t) && SlotVal(e, inodes[m], t) != SlotVal(d0, inodes0[m], t)
      ensures !Used(d0, SlotVal(e, inodes[m], t))
    {
      assert SlotVal(e, inodes[m], t) == SlotVal(d, inodes[m], t);
    }
    forall c: nat | Used(d0, c) ensures Used(e, c) { assert Used(d, c); }
    forall c: nat | c < |e.blocks| && !Used(e, c)
      ensures e.blocks[c] == d0.blocks[c]
    {
      assert !Used(d, c) && d.blocks[c] == d0.blocks[c];
    }
  }

  /** sfs_write_block_data: a partial write first reads the block it lands in. */
  method WriteBlockData(fs: Sfs, b: nat, off: nat, data: seq<byte>)
    requires b < |fs.disk.blocks| && off + |data| <= BLOCK_SIZE
    modifies fs`disk
    ensures fs.disk == PatchDisk(old(fs.disk), b, off, data)
  {
    var tmp := ZeroBlock();
    if |data| < BLOCK_SIZE { tmp := fs.disk.blocks[b]; }
    assert Patch(tmp, off, data) == Patch(fs.disk.blocks[b], off, data);
    fs.disk := fs.disk.(blocks := fs.disk.blocks[b := Patch(tmp, off, data)]);
  }

  // ----- What a write needs -----

  /** The pointers consulted for a file block, as a set. */
  function Path(fb: nat): (p: set<Slot>)
    requires fb < MAX_BLOCKS
    ensures forall t :: t in p <==> OnPath(fb, t)
    ensures forall t :: t in p ==> SlotOk(t)
  {
    var leaf := SlotOf(fb);
    set t | t in {leaf, if Indexed(leaf) then Parent(leaf) else leaf, DInd} && OnPath(fb, t)
  }

  /** The slot itself if it is null. */
  function NullAt(d: Disk, ino: Inode, t: Slot): (s: set<Slot>)
    requires SlotOk(t) && InodeOk(ino)
    ensures |s| == Null(d, ino, t) && s <= {t} && (t in s <==> SlotVal(d, ino, t) == 0)
  {
    if SlotVal(d, ino, t) == 0 then {t} else {}
  }

  /** The null pointers on the path of a file block. */
  function NullsOn(d: Disk, ino: Inode, fb: nat): set<Slot>
    requires fb < MAX_BLOCKS && InodeOk(ino)
  {
    set t | t in Path(fb) && SlotVal(d, ino, t) == 0
  }

  /** The same, level by level. */
  function NullLevels(d: Disk, ino: Inode, fb: nat): set<Slot>
    requires fb < MAX_BLOCKS && InodeOk(ino)
  {
    var leaf := SlotOf(fb);
    NullAt(d, ino, leaf) + (if Indexed(leaf) then NullAt(d, ino, Parent(leaf)) else {})
    + (if leaf.DIndLeaf? then NullAt(d, ino, DInd) else {})
  }

  lemma NullsByLevel(d: Disk, ino: Inode, fb: nat)
    requires fb < MAX_BLOCKS && InodeOk(ino)
    ensures NullsOn(d, ino, fb) == NullLevels(d, ino, fb)
  {
    forall t ensures t in NullsOn(d, ino, fb) <==> t in NullLevels(d, ino, fb) {}
  }

  lemma NullsCount(d: Disk, ino: Inode, fb: nat)
    requires fb < MAX_BLOCKS && InodeOk(ino)
    ensures |NullsOn(d, ino, fb)| == Missing(d, ino, fb)
  {
    NullsByLevel(d, ino, fb);
    var leaf := SlotOf(fb);
    DisjointSizes(NullAt(d, ino, leaf), if Indexed(leaf) then NullAt(d, ino, Parent(leaf)) else {},
      if leaf.DIndLeaf? then NullAt(d, ino, DInd) else {});
  }

  lemma DisjointSizes(a: set<Slot>, b: set<Slot>, c: set<Slot>)
    requires a !! b && a !! c && b !! c
    ensures |a + b + c| == |a| + |b| + |c|
  {
  }

  /** The pointers consulted for the file blocks lo to hi - 1. */
  function Paths(lo: nat, hi: nat): (p: set<Slot>)
    requires hi <= MAX_BLOCKS
    ensures forall t :: t in p ==> SlotOk(t)
  {
    set fb: nat, t | lo <= fb < hi && t in Path(fb) :: t
  }

  lemma PathsFirst(lo: nat, hi: nat)
    requires lo < hi <= MAX_BLOCKS
    ensures Paths(lo, hi) == Path(lo) + Paths(lo + 1, hi)
  {
  }

  /** Those of them that are null. */
  function NullRange(d: Disk, ino: Inode, lo: nat, hi: nat): set<Slot>
    requires hi <= MAX_BLOCKS && InodeOk(ino)
  {
    set t | t in Paths(lo, hi) && SlotVal(d, ino, t) == 0
  }

  /** Exactly the pointers on the path of fb have been filled. */
  ghost predicate PathFilled(d: Disk, ino: Inode, e: Disk, ino': Inode, fb: nat)
    requires fb < MAX_BLOCKS && InodeOk(ino) && InodeOk(ino')
  {
    forall t {:trigger SlotVal(e, ino', t)} {:trigger SlotVal(d, ino, t)} :: SlotOk(t) ==>
      (SlotVal(e, ino', t) == 0 <==> SlotVal(d, ino, t) == 0 && !OnPath(fb, t))
  }

  lemma SizeOfRest(all: set<Slot>, a: set<Slot>, rest: set<Slot>)
    requires a !! rest && forall t :: t in all <==> t in a || t in rest
    ensures |all| == |a| + |rest|
  {
    assert all == a + rest;
  }

  /** The first file block past those a write touches. */
  function EndBlock(offset: nat, count: nat): (hi: nat)
    ensures hi <= MAX_BLOCKS
  {
    if count == 0 then 0
    else if (offset + count - 1) / BLOCK_SIZE < MAX_BLOCKS then (offset + count - 1) / BLOCK_SIZE + 1 else MAX_BLOCKS
  }

  /** The bytes of a write that fall in the block of position pos. */
  function ChunkAt(pos: nat, left: nat): (c: nat)
    ensures c <= left && pos % BLOCK_SIZE + c <= BLOCK_SIZE && (left > 0 ==> c > 0)
  {
    if BLOCK_SIZE - pos % BLOCK_SIZE > left then left else BLOCK_SIZE - pos % BLOCK_SIZE
  }

  /** A write goes on at a block boundary. */
  predicate Aligned(offset: nat, done: nat) {
    done == 0 || (offset + done) % BLOCK_SIZE == 0
  }

  /** The blocks touched so far and one chunk later. */
  lemma Spans(offset: nat, count: nat, done: nat, fb: nat, end: nat)
    requires done < count && Aligned(offset, done)
    requires fb == (offset + done) / BLOCK_SIZE && end == done + ChunkAt(offset + done, count - done)
    ensures done < end <= count && (end == count || Aligned(offset, end)) &&
      (offset + done) % BLOCK_SIZE + end - done <= BLOCK_SIZE
    ensures if done == 0 then fb == offset / BLOCK_SIZE else EndBlock(offset, done) == if fb < MAX_BLOCKS then fb
      else MAX_BLOCKS
    ensures offset / BLOCK_SIZE <= fb
    ensures fb < MAX_BLOCKS ==> EndBlock(offset, end) == fb + 1 <= EndBlock(offset, count)
    ensures fb >= MAX_BLOCKS ==> EndBlock(offset, count) == MAX_BLOCKS && offset + count > MAX_BLOCKS * BLOCK_SIZE
  {
    var at, chunk := offset + done, end - done;
    PositionSplit(at);
    if done > 0 { assert (at - 1) / BLOCK_SIZE + 1 == at / BLOCK_SIZE; }
    SameBlock(at, chunk - 1);
    if end < count { assert at + chunk == (at / BLOCK_SIZE + 1) * BLOCK_SIZE; }
    assert (offset + count - 1) / BLOCK_SIZE >= at / BLOCK_SIZE;
  }

  /** The number of blocks a write needs: the null pointers on the paths of the file blocks it
      touches, data and index blocks alike. A write that only touches mapped blocks needs none. */
  function Need(d: Disk, ino: Inode, offset: nat, count: nat): nat
    requires InodeOk(ino)
  {
    |NullRange(d, ino, offset / BLOCK_SIZE, EndBlock(offset, count))|
  }

  /** The next chunk of a write finds its block. */
  predicate Fits(d: Disk, ino: Inode, offset: nat, count: nat, done: nat)
    requires InodeOk(ino) && done <= count
  {
    && (offset + done) / BLOCK_SIZE < MAX_BLOCKS
    && Need(d, ino, offset, done + ChunkAt(offset + done, count - done)) <= ClearBits(d)
  }

  lemma FitsIff(d: Disk, ino: Inode, offset: nat, count: nat, done: nat, fb: nat, end: nat, lo: nat, next: nat)
    requires InodeOk(ino) && done < count && Aligned(offset, done) && lo == offset / BLOCK_SIZE
    requires fb == (offset + done) / BLOCK_SIZE < MAX_BLOCKS && end == done + ChunkAt(offset + done, count - done) &&
      next == fb + 1
    ensures Fits(d, ino, offset, count, done) <==> |NullRange(d, ino, lo, next)| <= ClearBits(d)
  {
    Spans(offset, count, done, fb, end);
  }

  /** How much of a write is accepted once `done` bytes are: chunk by chunk, as long as the file can
      be that large and as many bits are clear as the blocks touched so far need. */
  function Accepted(d: Disk, ino: Inode, offset: nat, count: nat, done: nat): (r: nat)
    requires InodeOk(ino)
    ensures done <= count ==> done <= r <= count
    decreases count - done
  {
    if done < count && Fits(d, ino, offset, count, done) then
      Accepted(d, ino, offset, count, done + ChunkAt(offset + done, count - done))
    else done
  }

  /** What mapping file block fb does to pointers and counts; `ok` says that it succeeded. */
  ghost predicate BlockMapped(d: Disk, inodes: seq<Inode>, e: Disk, inodes': seq<Inode>, n: nat, fb: nat, ok: bool)
    requires InodesOk(inodes) && InodesOk(inodes') && |inodes| == |inodes'| && n < |inodes| && fb < MAX_BLOCKS
  {
    var m := Missing(d, inodes[n], fb);
    var taken := if ok then m else ClearBits(d);
    && (ok <==> ClearBits(d) >= m) && Took(d, e, taken)
    && (ok ==> PathFilled(d, inodes[n], e, inodes'[n], fb))
    && (Contained(e, inodes') <==> Contained(d, inodes) && taken <= FreeBits(d))
    && FirstTaken(d, e, taken) && LeafMapped(d, inodes[n], e, inodes'[n], fb, ok)
  }

  /** Of the data pointers only that of fb is filled, with the last of the blocks first fit takes. */
  ghost predicate LeafMapped(d: Disk, ino: Inode, e: Disk, ino': Inode, fb: nat, ok: bool)
    requires InodeOk(ino) && InodeOk(ino') && fb < MAX_BLOCKS
  {
    forall k: nat {:trigger LeafIs(d, ino, e, ino', fb, ok, k)} :: k < MAX_BLOCKS ==> LeafIs(d, ino, e, ino', fb, ok, k)
  }

  ghost predicate LeafIs(d: Disk, ino: Inode, e: Disk, ino': Inode, fb: nat, ok: bool, k: nat)
    requires InodeOk(ino) && InodeOk(ino') && fb < MAX_BLOCKS && k < MAX_BLOCKS
  {
    var v, w := SlotVal(d, ino, SlotOf(k)), SlotVal(e, ino', SlotOf(k));
    if k == fb && v == 0 && ok then Missing(d, ino, fb) > 0 && IsNth(d, w, Missing(d, ino, fb) - 1) else w == v
  }

  lemma LeafByExtend(d: Disk, inodes: seq<Inode>, e: Disk, inodes': seq<Inode>, n: nat, fb: nat, ok: bool)
    requires InodesOk(inodes) && InodesOk(inodes') && |inodes| == |inodes'| && n < |inodes| && fb < MAX_BLOCKS
    requires OnlyFilled(d, inodes, e, inodes', n, fb)
    requires !ok ==> SlotVal(e, inodes'[n], SlotOf(fb)) == 0
    requires ok && SlotVal(d, inodes[n], SlotOf(fb)) == 0 ==>
      Missing(d, inodes[n], fb) > 0 && IsNth(d, SlotVal(e, inodes'[n], SlotOf(fb)), Missing(d, inodes[n], fb) - 1)
    ensures LeafMapped(d, inodes[n], e, inodes'[n], fb, ok)
  {
    forall k: nat | k < MAX_BLOCKS ensures LeafIs(d, inodes[n], e, inodes'[n], fb, ok, k) {
      FileBlockSlot(k);
      FileBlockSlot(fb);
      assert SlotVal(e, inodes'[n], SlotOf(k)) == SlotVal(e, inodes'[n], SlotOf(k));
    }
  }

  // ----- Which blocks a write takes -----

  /** Exactly the pointers consulted for the blocks lo to hi - 1 have been filled. */
  ghost predicate RangeFilled(d: Disk, ino: Inode, e: Disk, ino': Inode, lo: nat, hi: nat)
    requires hi <= MAX_BLOCKS && InodeOk(ino) && InodeOk(ino')
  {
    forall t {:trigger SlotVal(e, ino', t)} {:trigger SlotVal(d, ino, t)} :: SlotOk(t) ==>
      (SlotVal(e, ino', t) == 0 <==> SlotVal(d, ino, t) == 0 && t !in Paths(lo, hi))
  }

  /** How many unused blocks first fit takes before the data block of k, when the file blocks from
      lo on are mapped in order: those for the null pointers up to it. */
  function Rank(d: Disk, ino: Inode, lo: nat, k: nat): (r: nat)
    requires InodeOk(ino) && lo <= k < MAX_BLOCKS && SlotVal(d, ino, SlotOf(k)) == 0
    ensures r + 1 == |NullRange(d, ino, lo, k + 1)|
  {
    assert SlotOf(k) in Path(k) && SlotOf(k) in Paths(lo, k + 1) && SlotOf(k) in NullRange(d, ino, lo, k + 1);
    |NullRange(d, ino, lo, k + 1)| - 1
  }

  /** Block v is what the data pointer of file block k must be once the blocks lo to hi - 1 have been
      mapped in order: as before, or the unused block that first fit had come to by then. */
  ghost predicate Assigned(d: Disk, ino: Inode, lo: nat, hi: nat, k: nat, v: nat)
    requires InodeOk(ino) && k < MAX_BLOCKS
  {
    var u := SlotVal(d, ino, SlotOf(k));
    if u == 0 && lo <= k < hi then IsNth(d, v, Rank(d, ino, lo, k)) else v == u
  }

  ghost predicate Leaves(d: Disk, ino: Inode, e: Disk, ino': Inode, lo: nat, hi: nat)
    requires InodeOk(ino) && InodeOk(ino')
  {
    forall k: nat {:trigger Assigned(d, ino, lo, hi, k, SlotVal(e, ino', SlotOf(k)))} :: k < MAX_BLOCKS ==>
      Assigned(d, ino, lo, hi, k, SlotVal(e, ino', SlotOf(k)))
  }

  /** The blocks lo to hi - 1 have been mapped with the first `taken` unused blocks. */
  ghost predicate Assignment(d: Disk, ino: Inode, e: Disk, ino': Inode, lo: nat, hi: nat, taken: nat)
    requires hi <= MAX_BLOCKS && InodeOk(ino) && InodeOk(ino')
  {
    && FirstTaken(d, e, taken) && taken == |NullRange(d, ino, lo, hi)|
    && RangeFilled(d, ino, e, ino', lo, hi) && Leaves(d, ino, e, ino', lo, hi)
  }

  lemma PathsLast(lo: nat, hi: nat)
    requires lo <= hi < MAX_BLOCKS
    ensures Paths(lo, hi + 1) == Paths(lo, hi) + Path(hi)
  {
  }

  /** The pointers of one more block: those null before and those it still misses. */
  lemma RangeGrows(d0: Disk, ino0: Inode, d: Disk, ino: Inode, lo: nat, fb: nat)
    requires InodeOk(ino0) && InodeOk(ino) && lo <= fb < MAX_BLOCKS && RangeFilled(d0, ino0, d, ino, lo, fb)
    ensures |NullRange(d0, ino0, lo, fb + 1)| == |NullRange(d0, ino0, lo, fb)| + Missing(d, ino, fb)
  {
    NullsCount(d, ino, fb);
    PathsLast(lo, fb);
    SizeOfRest(NullRange(d0, ino0, lo, fb + 1), NullRange(d0, ino0, lo, fb), NullsOn(d, ino, fb));
  }

  lemma FilledOneMore(d0: Disk, ino0: Inode, d: Disk, ino: Inode, e: Disk, ino': Inode, lo: nat, fb: nat)
    requires InodeOk(ino0) && InodeOk(ino) && InodeOk(ino') && lo <= fb < MAX_BLOCKS
    requires RangeFilled(d0, ino0, d, ino, lo, fb) && PathFilled(d, ino, e, ino', fb)
    ensures RangeFilled(d0, ino0, e, ino', lo, fb + 1)
  {
    PathsLast(lo, fb);
    forall t | SlotOk(t) ensures SlotVal(e, ino', t) == 0 <==> SlotVal(d0, ino0, t) == 0 && t !in Paths(lo, fb + 1) {
      assert SlotVal(d, ino, t) == 0 <==> SlotVal(d0, ino0, t) == 0 && t !in Paths(lo, fb);
      assert SlotVal(e, ino', t) == 0 <==> SlotVal(d, ino, t) == 0 && !OnPath(fb, t);
    }
  }

  lemma LeafOneMore(d0: Disk, ino0: Inode, d: Disk, ino: Inode, e: Disk, ino': Inode, lo: nat, fb: nat, taken: nat)
    requires InodeOk(ino0) && InodeOk(ino) && InodeOk(ino') && lo <= fb < MAX_BLOCKS
    requires FirstTaken(d0, d, taken) && LeafMapped(d, ino, e, ino', fb, true)
    requires Assigned(d0, ino0, lo, fb, fb, SlotVal(d, ino, SlotOf(fb)))
    requires |NullRange(d0, ino0, lo, fb + 1)| == taken + Missing(d, ino, fb)
    ensures Assigned(d0, ino0, lo, fb + 1, fb, SlotVal(e, ino', SlotOf(fb)))
  {
    assert LeafIs(d, ino, e, ino', fb, true, fb);
    if SlotVal(d, ino, SlotOf(fb)) == 0 {
      NthBefore(d0, d, taken, SlotVal(e, ino', SlotOf(fb)), Missing(d, ino, fb) - 1);
    }
  }

  lemma LeavesOneMore(d0: Disk, ino0: Inode, d: Disk, ino: Inode, e: Disk, ino': Inode, lo: nat, fb: nat, taken: nat,
                      ok: bool)
    requires InodeOk(ino0) && InodeOk(ino) && InodeOk(ino') && lo <= fb < MAX_BLOCKS
    requires FirstTaken(d0, d, taken) && Leaves(d0, ino0, d, ino, lo, fb) && LeafMapped(d, ino, e, ino', fb, ok)
    requires ok ==> |NullRange(d0, ino0, lo, fb + 1)| == taken + Missing(d, ino, fb)
    ensures Leaves(d0, ino0, e, ino', lo, if ok then fb + 1 else fb)
  {
    forall k: nat | k < MAX_BLOCKS
      ensures Assigned(d0, ino0, lo, if ok then fb + 1 else fb, k, SlotVal(e, ino', SlotOf(k)))
    {
      assert Assigned(d0, ino0, lo, fb, k, SlotVal(d, ino, SlotOf(k))) && LeafIs(d, ino, e, ino', fb, ok, k);
      if k == fb && ok {
        LeafOneMore(d0, ino0, d, ino, e, ino', lo, fb, taken);
      } else {
        assert SlotVal(e, ino', SlotOf(k)) == SlotVal(d, ino, SlotOf(k));
      }
    }
  }

  lemma AssignStep(d0: Disk, ino0: Inode, d: Disk, ino: Inode, e: Disk, ino': Inode, lo: nat, fb: nat, taken: nat,
                   ok: bool)
    requires InodeOk(ino0) && InodeOk(ino) && InodeOk(ino') && lo <= fb < MAX_BLOCKS
    requires Assignment(d0, ino0, d, ino, lo, fb, taken) && LeafMapped(d, ino, e, ino', fb, ok)
    requires ok ==> FirstTaken(d, e, Missing(d, ino, fb)) && PathFilled(d, ino, e, ino', fb)
    ensures |NullRange(d0, ino0, lo, fb + 1)| == taken + Missing(d, ino, fb)
    ensures ok ==> Assignment(d0, ino0, e, ino', lo, fb + 1, taken + Missing(d, ino, fb))
    ensures !ok ==> Leaves(d0, ino0, e, ino', lo, fb)
  {
    RangeGrows(d0, ino0, d, ino, lo, fb);
    LeavesOneMore(d0, ino0, d, ino, e, ino', lo, fb, taken, ok);
    if ok {
      FilledOneMore(d0, ino0, d, ino, e, ino', lo, fb);
      FirstTakenTrans(d0, d, e, taken, Missing(d, ino, fb));
    }
  }

  /** The account of a write once the file blocks lo to hi - 1 are mapped. */
  ghost predicate Account(d0: Disk, inodes0: seq<Inode>, d: Disk, inodes: seq<Inode>, n: nat, lo: nat, hi: nat)
    requires InodesOk(inodes0) && InodesOk(inodes) && |inodes| == |inodes0| && n < |inodes| && hi <= MAX_BLOCKS
  {
    var taken := |NullRange(d0, inodes0[n], lo, hi)|;
    && Took(d0, d, taken) && Assignment(d0, inodes0[n], d, inodes[n], lo, hi, taken)
    && (Contained(d, inodes) <==> Contained(d0, inodes0) && taken <= FreeBits(d0))
  }

  /** The account of a write that has taken every clear bit and stopped before block hi. */
  ghost predicate Exhausted(d0: Disk, inodes0: seq<Inode>, d: Disk, inodes: seq<Inode>, n: nat, lo: nat, hi: nat)
    requires InodesOk(inodes0) && InodesOk(inodes) && |inodes| == |inodes0| && n < |inodes|
  {
    && Took(d0, d, ClearBits(d0)) && Leaves(d0, inodes0[n], d, inodes[n], lo, hi)
    && (Contained(d, inodes) <==> Contained(d0, inodes0) && ClearBits(d0) <= FreeBits(d0))
  }

  /** The account after one more file block, or the final one when it could not be mapped. */
  lemma AccountStep(d0: Disk, inodes0: seq<Inode>, d: Disk, inodes: seq<Inode>, e: Disk, inodes': seq<Inode>,
                    n: nat, lo: nat, fb: nat, next: nat, ok: bool)
    requires InodesOk(inodes0) && InodesOk(inodes) && InodesOk(inodes') && |inodes0| == |inodes| == |inodes'| &&
      n < |inodes|
    requires lo <= fb < MAX_BLOCKS && next == fb + 1
    requires Account(d0, inodes0, d, inodes, n, lo, fb) && BlockMapped(d, inodes, e, inodes', n, fb, ok)
    ensures ok <==> |NullRange(d0, inodes0[n], lo, next)| <= ClearBits(d0)
    ensures ok ==> Account(d0, inodes0, e, inodes', n, lo, next)
    ensures !ok ==> Exhausted(d0, inodes0, e, inodes', n, lo, fb)
  {
    AssignStep(d0, inodes0[n], d, inodes[n], e, inodes'[n], lo, fb, |NullRange(d0, inodes0[n], lo, fb)|, ok);
  }

  /** Before the first block nothing has been taken, wherever it lies. */
  lemma AccountEmpty(d0: Disk, inodes0: seq<Inode>, d: Disk, inodes: seq<Inode>, n: nat, lo: nat, hi: nat)
    requires InodesOk(inodes0) && InodesOk(inodes) && |inodes| == |inodes0| && n < |inodes| && hi <= lo &&
      hi <= MAX_BLOCKS
    requires Account(d0, inodes0, d, inodes, n, lo, 0)
    ensures Account(d0, inodes0, d, inodes, n, lo, hi)
  {
    assert Paths(lo, hi) == Paths(lo, 0);
    assert NullRange(d0, inodes0[n], lo, hi) == NullRange(d0, inodes0[n], lo, 0);
    forall k: nat | k < MAX_BLOCKS ensures Assigned(d0, inodes0[n], lo, hi, k, SlotVal(d, inodes[n], SlotOf(k))) {
      assert Assigned(d0, inodes0[n], lo, 0, k, SlotVal(d, inodes[n], SlotOf(k)));
    }
  }

  lemma NeedGrows(d: Disk, ino: Inode, lo: nat, j: nat, k: nat)
    requires InodeOk(ino) && j <= k <= MAX_BLOCKS
    ensures |NullRange(d, ino, lo, j)| <= |NullRange(d, ino, lo, k)|
  {
    SubsetSize(NullRange(d, ino, lo, j), NullRange(d, ino, lo, k));
  }

  lemma SubsetSize(a: set<Slot>, b: set<Slot>)
    requires a <= b
    ensures |a| <= |b|
  {
    assert b == a + (b - a);
  }

  method MapBlock(fs: Sfs, n: nat, fb: nat, ghost offset: nat, ghost buf: seq<byte>, ghost done: nat, ghost d0: Disk,
                  ghost inodes0: seq<Inode>)
    returns (phys: int)
    requires fs.Valid() && n < |fs.inodes| && fb < MAX_BLOCKS
    requires InodesOk(inodes0) && |inodes0| == |fs.inodes| && done <= |buf| &&
      Written(d0, inodes0, fs.disk, fs.inodes, n, offset, buf, done)
    modifies fs
    ensures fs.Valid() && |fs.inodes| == |old(fs.inodes)| && fs.inodes[n].size == old(fs.inodes)[n].size
    ensures Written(d0, inodes0, fs.disk, fs.inodes, n, offset, buf, done)
    ensures BlockMapped(old(fs.disk), old(fs.inodes), fs.disk, fs.inodes, n, fb, phys >= 0)
    ensures phys >= 0 ==> phys == SlotVal(fs.disk, fs.inodes[n], SlotOf(fb)) && 0 < phys < |fs.disk.blocks|
  {
    ghost var d, inodes, owner := fs.disk, fs.inodes, fs.owner;
    PaddedIff(d);
    phys := GetBlock(fs, n, fb, true);
    WrittenAfterExtend(d0, inodes0, d, inodes, owner, fs.disk, fs.inodes, fs.owner, n, fb, offset, buf, done);
    if phys >= 0 { FilledByExtend(d, inodes, fs.disk, fs.inodes, n, fb); }
    MappedNeedsNothing(d, inodes[n], fb);
    LeafByExtend(d, inodes, fs.disk, fs.inodes, n, fb, phys >= 0);
  }

  method StoreChunk(fs: Sfs, n: nat, phys: nat, chunk: seq<byte>, ghost offset: nat, pos: nat, ghost buf: seq<byte>,
                    ghost done: nat,
                    ghost d0: Disk, ghost inodes0: seq<Inode>, ghost d: Disk, ghost inodes: seq<Inode>)
    requires pos == offset + done && fs.Valid() && n < |fs.inodes| && pos / BLOCK_SIZE < MAX_BLOCKS
    requires InodesOk(inodes0) && |inodes0| == |fs.inodes| == |inodes| && InodesOk(inodes)
    requires IsPiece(buf, done, chunk) && pos % BLOCK_SIZE + |chunk| <= BLOCK_SIZE
    requires Written(d0, inodes0, fs.disk, fs.inodes, n, offset, buf, done)
    requires BlockMapped(d, inodes, fs.disk, fs.inodes, n, pos / BLOCK_SIZE, true)
    requires phys == SlotVal(fs.disk, fs.inodes[n], SlotOf(pos / BLOCK_SIZE)) && 0 < phys < |fs.disk.blocks|
    modifies fs`disk
    ensures fs.Valid() && Written(d0, inodes0, fs.disk, fs.inodes, n, offset, buf, done + |chunk|)
    ensures BlockMapped(d, inodes, fs.disk, fs.inodes, n, pos / BLOCK_SIZE, true)
  {
    ghost var e, f, more := fs.disk, PatchDisk(fs.disk, phys, pos % BLOCK_SIZE, chunk), done + |chunk|;
    WrittenAfterPatch(d0, inodes0, e, fs.inodes, fs.owner, n, offset, buf, done, chunk, phys, pos, f, more);
    PatchSound(d, inodes, e, fs.inodes, fs.owner, n, pos / BLOCK_SIZE, pos % BLOCK_SIZE, chunk, phys);
    WriteBlockData(fs, phys, pos % BLOCK_SIZE, chunk);
    assert fs.disk == f;
  }

  lemma PatchSound(d: Disk, inodes: seq<Inode>, e: Disk, inodes': seq<Inode>, owner: Owner, n: nat, fb: nat, at: nat,
                   chunk: seq<byte>, b: nat)
    requires InodesOk(inodes) && Sound(e, inodes', owner) && |inodes| == |inodes'| && n < |inodes| && fb < MAX_BLOCKS
    requires BlockMapped(d, inodes, e, inodes', n, fb, true) && at + |chunk| <= BLOCK_SIZE
    requires b == SlotVal(e, inodes'[n], SlotOf(fb)) && 0 < b < |e.blocks|
    ensures Sound(PatchDisk(e, b, at, chunk), inodes', owner)
    ensures BlockMapped(d, inodes, PatchDisk(e, b, at, chunk), inodes', n, fb, true)
  {
    SoundAfterLeafWrite(e, inodes', owner, n, SlotOf(fb), Patch(e.blocks[b], at, chunk));
    MappedAfterLeaf(d, inodes, e, inodes', owner, n, fb, Patch(e.blocks[b], at, chunk));
  }

  lemma MappedAfterLeaf(d: Disk, inodes: seq<Inode>, e: Disk, inodes': seq<Inode>, owner: Owner, n: nat, fb: nat,
                        data: Block)
    requires InodesOk(inodes) && Sound(e, inodes', owner) && |inodes| == |inodes'| && n < |inodes| && fb < MAX_BLOCKS
    requires BlockMapped(d, inodes, e, inodes', n, fb, true) && 0 < SlotVal(e, inodes'[n], SlotOf(fb)) < |e.blocks|
    ensures BlockMapped(d, inodes, e.(blocks := e.blocks[SlotVal(e, inodes'[n], SlotOf(fb)) := data]), inodes', n, fb,
      true)
  {
    LeafWriteKeepsPointers(e, inodes', owner, n, SlotOf(fb), data);
    var f := e.(blocks := e.blocks[SlotVal(e, inodes'[n], SlotOf(fb)) := data]);
    forall t | SlotOk(t) ensures SlotVal(f, inodes'[n], t) == 0 <==> SlotVal(d, inodes[n], t) == 0 && !OnPath(fb, t) {
      assert SlotVal(f, inodes'[n], t) == SlotVal(e, inodes'[n], t);
    }
    forall k: nat | k < MAX_BLOCKS ensures LeafIs(d, inodes[n], f, inodes'[n], fb, true, k) {
      assert LeafIs(d, inodes[n], e, inodes'[n], fb, true, k);
      assert SlotVal(f, inodes'[n], SlotOf(k)) == SlotVal(e, inodes'[n], SlotOf(k));
    }
  }

  /** One turn of the write loop: map the block, then store the chunk. Returns false when no
      block could be mapped, because the file is as large as it can be or no bit is clear. */
  method WriteChunk(fs: Sfs, n: nat, chunk: seq<byte>, ghost offset: nat, pos: nat, fb: nat, ghost buf: seq<byte>,
                    done: nat,
                    ghost d0: Disk, ghost inodes0: seq<Inode>)
    returns (ok: bool, now: nat)
    requires pos == offset + done && fb == pos / BLOCK_SIZE && fs.Valid() && n < |fs.inodes|
    requires InodesOk(inodes0) && |inodes0| == |fs.inodes| && IsPiece(buf, done, chunk)
    requires Written(d0, inodes0, fs.disk, fs.inodes, n, offset, buf, done)
    requires pos % BLOCK_SIZE + |chunk| <= BLOCK_SIZE
    modifies fs
    ensures fs.Valid() && |fs.inodes| == |old(fs.inodes)|
    ensures now == (if ok then done + |chunk| else done) &&
      Written(d0, inodes0, fs.disk, fs.inodes, n, offset, buf, now)
    ensures fb >= MAX_BLOCKS ==> !ok && fs.disk == old(fs.disk) && fs.inodes == old(fs.inodes)
    ensures fb < MAX_BLOCKS ==>
      BlockMapped(old(fs.disk), old(fs.inodes), fs.disk, fs.inodes, n, fb, ok)
  {
    if fb >= MAX_BLOCKS { return false, done; }
    ghost var d, inodes := fs.disk, fs.inodes;
    var phys := MapBlock(fs, n, fb, offset, buf, done, d0, inodes0);
    if phys < 0 { return false, done; }
    StoreChunk(fs, n, phys, chunk, offset, pos, buf, done, d0, inodes0, d, inodes);
    return true, done + |chunk|;
  }

  lemma FilledByExtend(d: Disk, inodes: seq<Inode>, e: Disk, inodes': seq<Inode>, n: nat, fb: nat)
    requires InodesOk(inodes) && InodesOk(inodes') && |inodes| == |inodes'| && n < |inodes| && fb < MAX_BLOCKS
    requires OnlyFilled(d, inodes, e, inodes', n, fb) && SlotVal(e, inodes'[n], SlotOf(fb)) != 0
    ensures PathFilled(d, inodes[n], e, inodes'[n], fb)
  {
    MappedNeedsNothing(e, inodes'[n], fb);
    forall t | SlotOk(t) ensures SlotVal(e, inodes'[n], t) == 0 <==> SlotVal(d, inodes[n], t) == 0 && !OnPath(fb, t) {
      assert SlotVal(e, inodes'[n], t) == SlotVal(e, inodes'[n], t);
    }
  }

  /** Data written to a data block leaves every pointer and both counts alone. */
  lemma LeafWriteKeepsPointers(d: Disk, inodes: seq<Inode>, owner: Owner, n: nat, s: Slot, data: Block)
    requires Sound(d, inodes, owner) && n < |inodes| && SlotOk(s) && IsLeaf(s)
    requires 0 < SlotVal(d, inodes[n], s) < |d.blocks|
    ensures var e := d.(blocks := d.blocks[SlotVal(d, inodes[n], s) := data]);
      && (forall t :: SlotOk(t) ==> SlotVal(e, inodes[n], t) == SlotVal(d, inodes[n], t))
      && (Contained(e, inodes) <==> Contained(d, inodes)) && FreeBits(e) == FreeBits(d) && ClearBits(e) == ClearBits(d)
  {
    WriteLeaf(d, inodes, owner, n, s, data);
    var e := d.(blocks := d.blocks[SlotVal(d, inodes[n], s) := data]);
    if Contained(d, inodes) {
      forall m, t | 0 <= m < |inodes| && SlotOk(t)
        ensures SlotVal(e, inodes[m], t) == 0 || InData(e, SlotVal(e, inodes[m], t))
      {
        assert SlotVal(d, inodes[m], t) == 0 || InData(d, SlotVal(d, inodes[m], t));
      }
    }
    if Contained(e, inodes) {
      forall m, t | 0 <= m < |inodes| && SlotOk(t)
        ensures SlotVal(d, inodes[m], t) == 0 || InData(d, SlotVal(d, inodes[m], t))
      {
        assert SlotVal(e, inodes[m], t) == 0 || InData(e, SlotVal(e, inodes[m], t));
      }
    }
  }

  /** The size field takes no part in the block map. */
  lemma ResizeKeepsTree(d: Disk, inodes: seq<Inode>, owner: Owner, n: nat, size: nat)
    requires Sound(d, inodes, owner) && n < |inodes|
    ensures Sound(d, inodes[n := inodes[n].(size := size)], owner)
    ensures forall pos: nat :: FileByte(d, inodes[n].(size := size), pos) == FileByte(d, inodes[n], pos)
    ensures Contained(d, inodes[n := inodes[n].(size := size)]) <==> Contained(d, inodes)
  {
    var js := inodes[n := inodes[n].(size := size)];
    forall m, t | 0 <= m < |js| && SlotOk(t) ensures SlotVal(d, js[m], t) == SlotVal(d, inodes[m], t) {}
    forall m, t | 0 <= m < |js| && SlotOk(t) ensures Owned(d, owner, m, t, SlotVal(d, js[m], t)) {
      assert SlotVal(d, js[m], t) == SlotVal(d, inodes[m], t);
      assert Owned(d, owner, m, t, SlotVal(d, inodes[m], t));
    }
  }

  /** What the blocks now mapped in a file held at the start of the write. */
  function Shown(d0: Disk, d: Disk, ino: Inode): (c: seq<byte>)
    requires InodeOk(ino)
    ensures |c| == ino.size && forall p :: 0 <= p < |c| ==> c[p] == Raw(d0, BlockAt(d, ino, p), p % BLOCK_SIZE)
  {
    seq(ino.size, p requires 0 <= p < ino.size => Raw(d0, BlockAt(d, ino, p), p % BLOCK_SIZE))
  }

  /** The file grown to len bytes by zeros. */
  function Extended(c: seq<byte>, len: nat): (r: seq<byte>)
    requires |c| <= len
    ensures |r| == len && forall p :: 0 <= p < len ==> r[p] == if p < |c| then c[p] else 0
  {
    seq(len, p requires 0 <= p < len => if p < |c| then c[p] else 0)
  }

  /** Outside the bytes written, whatever the old file did not show, in a hole or past its end, is
      zero in the block now mapped there. */
  ghost predicate NothingStale(d0: Disk, ino0: Inode, d: Disk, ino: Inode, offset: nat, done: nat)
    requires InodeOk(ino0) && InodeOk(ino)
  {
    forall p: nat {:trigger BlockAt(d, ino, p)} ::
      p < ino.size && !(offset <= p < offset + done) && (p >= ino0.size || BlockAt(d0, ino0, p) == 0) ==>
      Raw(d0, BlockAt(d, ino, p), p % BLOCK_SIZE) == 0
  }

  lemma ResizedBlock(d: Disk, ino: Inode, size: nat, p: nat)
    requires InodeOk(ino)
    ensures BlockAt(d, ino.(size := size), p) == BlockAt(d, ino, p)
  {
  }

  /** What a finished write means for the files as byte sequences. */
  lemma WrittenContent(d0: Disk, inodes0: seq<Inode>, d: Disk, inodes: seq<Inode>, n: nat, offset: nat, buf: seq<byte>,
                       done: nat, ino: Inode)
    requires InodesOk(inodes0) && InodesOk(inodes) && |inodes| == |inodes0| && n < |inodes| && done <= |buf|
    requires Written(d0, inodes0, d, inodes, n, offset, buf, done)
    requires ino == inodes[n].(size := Max(inodes[n].size, offset + done))
    ensures Content(d, ino) == Splice(Shown(d0, d, ino), offset, buf[..done])
    ensures forall m :: 0 <= m < |inodes| && m != n ==> Content(d, inodes[m]) == Content(d0, inodes0[m])
  {
    forall p | 0 <= p < ino.size ensures Content(d, ino)[p] == Splice(Shown(d0, d, ino), offset, buf[..done])[p] {
      ResizedBlock(d, inodes[n], ino.size, p);
      assert FileByte(d, inodes[n], p) == Shows(d0, d, inodes[n], true, offset, buf, done, p);
    }
    forall m | 0 <= m < |inodes| && m != n ensures Content(d, inodes[m]) == Content(d0, inodes0[m]) {
      forall p | 0 <= p < inodes[m].size ensures Content(d, inodes[m])[p] == Content(d0, inodes0[m])[p] {
        OtherByte(d0, inodes0, d, inodes, n, offset, buf, done, m, p);
      }
    }
  }

  lemma OtherByte(d0: Disk, inodes0: seq<Inode>, d: Disk, inodes: seq<Inode>, n: nat, offset: nat, buf: seq<byte>,
                  done: nat, m: nat, p: nat)
    requires InodesOk(inodes0) && InodesOk(inodes) && |inodes| == |inodes0| && n < |inodes| && done <= |buf| &&
      m < |inodes| && m != n
    requires Written(d0, inodes0, d, inodes, n, offset, buf, done)
    ensures FileByte(d, inodes[m], p) == FileByte(d0, inodes0[m], p)
  {
    assert FileByte(d, inodes[m], p) == Shows(d0, d, inodes[m], false, offset, buf, done, p);
    assert BlockAt(d, inodes[m], p) == BlockAt(d0, inodes0[m], p);
  }

  /** The old bytes, grown by zeros, with the accepted bytes spliced in: that is the new file exactly
      if nothing stale shows. */
  lemma SpliceIff(d0: Disk, ino0: Inode, d: Disk, ino: Inode, offset: nat, data: seq<byte>)
    requires InodeOk(ino0) && InodeOk(ino) && ino0.size <= ino.size && offset + |data| <= ino.size
    requires forall p: nat :: BlockAt(d0, ino0, p) != 0 ==> BlockAt(d, ino, p) == BlockAt(d0, ino0, p)
    ensures Splice(Shown(d0, d, ino), offset, data) == Splice(Extended(Content(d0, ino0), ino.size), offset, data)
      <==> NothingStale(d0, ino0, d, ino, offset, |data|)
  {
    var a, b := Shown(d0, d, ino), Extended(Content(d0, ino0), ino.size);
    SplicesIff(a, b, offset, data);
    forall p: nat | p < ino.size && !(offset <= p < offset + |data|)
      ensures a[p] == b[p] <==>
        (p >= ino0.size || BlockAt(d0, ino0, p) == 0 ==> Raw(d0, BlockAt(d, ino, p), p % BLOCK_SIZE) == 0)
    {
      ShownByte(d0, ino0, d, ino, p);
    }
  }

  /** What a position showed and shows, when a block mapped before is still mapped there. */
  lemma ShownByte(d0: Disk, ino0: Inode, d: Disk, ino: Inode, p: nat)
    requires InodeOk(ino0) && InodeOk(ino) && ino0.size <= ino.size && p < ino.size
    requires BlockAt(d0, ino0, p) != 0 ==> BlockAt(d, ino, p) == BlockAt(d0, ino0, p)
    ensures Shown(d0, d, ino)[p] == Extended(Content(d0, ino0), ino.size)[p] <==>
      (p >= ino0.size || BlockAt(d0, ino0, p) == 0 ==> Raw(d0, BlockAt(d, ino, p), p % BLOCK_SIZE) == 0)
  {
  }

  /** Two sequences with the same bytes spliced in are equal if they agree everywhere else. */
  lemma SplicesIff(a: seq<byte>, b: seq<byte>, offset: nat, data: seq<byte>)
    requires |a| == |b| && offset + |data| <= |a|
    ensures Splice(a, offset, data) == Splice(b, offset, data) <==>
      forall p :: 0 <= p < |a| && !(offset <= p < offset + |data|) ==> a[p] == b[p]
  {
    var x, y := Splice(a, offset, data), Splice(b, offset, data);
    assert |x| == |y| == |a|;
    forall p | 0 <= p < |a|
      ensures x[p] == if offset <= p < offset + |data| then data[p - offset] else a[p]
      ensures y[p] == if offset <= p < offset + |data| then data[p - offset] else b[p]
    {
    }
    if x == y {
      forall p | 0 <= p < |a| && !(offset <= p < offset + |data|) ensures a[p] == b[p] { assert x[p] == y[p]; }
    }
  }

  /** A file without holes, written at an offset inside it or at its end, shows nothing stale. */
  lemma NoHolesNothingStale(d0: Disk, ino0: Inode, d: Disk, ino: Inode, offset: nat, done: nat)
    requires InodeOk(ino0) && InodeOk(ino) && offset <= ino0.size && HoleFree(d0, ino0, ino0.size)
    requires ino.size == Max(ino0.size, offset + done)
    ensures NothingStale(d0, ino0, d, ino, offset, done)
  {
    forall p: nat | p < ino0.size ensures BlockAt(d0, ino0, p) != 0 { PositionSplit(p); }
  }

  // ----- When a write is a splice, told before it -----

  /** The block that first fit will give file block k, if any is left for it. */
  function Given(d: Disk, ino: Inode, lo: nat, k: nat): nat
    requires InodeOk(ino) && lo <= k < MAX_BLOCKS && SlotVal(d, ino, SlotOf(k)) == 0
  {
    if Rank(d, ino, lo, k) < ClearBits(d) then NthClear(d, Rank(d, ino, lo, k)) else 0
  }

  /** Between the end of the file and the offset, the blocks mapped hold zeros. */
  ghost predicate GapClean(d: Disk, ino: Inode, offset: nat)
    requires InodeOk(ino)
  {
    forall p: nat {:trigger BlockAt(d, ino, p)} :: ino.size <= p < offset ==>
      Raw(d, BlockAt(d, ino, p), p % BLOCK_SIZE) == 0
  }

  /** If the first block the write touches is unmapped, the block it will be given holds zeros before
      the offset. */
  ghost predicate HeadClean(d: Disk, ino: Inode, offset: nat)
    requires InodeOk(ino)
  {
    var first := offset / BLOCK_SIZE;
    first < MAX_BLOCKS && SlotVal(d, ino, SlotOf(first)) == 0 ==>
      forall o: nat :: o < offset % BLOCK_SIZE ==> Raw(d, Given(d, ino, first, first), o) == 0
  }

  /** If the last block the write touches is unmapped, the block it will be given holds zeros after
      the bytes written, as far as the file goes. */
  ghost predicate TailClean(d: Disk, ino: Inode, offset: nat, done: nat)
    requires InodeOk(ino) && done > 0
  {
    var first, last := offset / BLOCK_SIZE, (offset + done - 1) / BLOCK_SIZE;
    last < MAX_BLOCKS && SlotVal(d, ino, SlotOf(last)) == 0 ==>
      forall o: nat :: (offset + done - 1) % BLOCK_SIZE < o < BLOCK_SIZE && last * BLOCK_SIZE + o < ino.size ==>
        Raw(d, Given(d, ino, first, last), o) == 0
  }

  /** The state before a write of `count` bytes in which it will be a splice. */
  ghost predicate WillSplice(d: Disk, ino: Inode, offset: nat, count: nat)
    requires InodeOk(ino)
  {
    var done := Accepted(d, ino, offset, count, 0);
    GapClean(d, ino, offset) && (done > 0 ==> HeadClean(d, ino, offset) && TailClean(d, ino, offset, done))
  }

  /** The block at a position after the write: the one first fit gave, or the one before. */
  lemma BlockAfter(d0: Disk, ino0: Inode, d: Disk, ino: Inode, offset: nat, done: nat, p: nat)
    requires InodeOk(ino0) && InodeOk(ino) && Leaves(d0, ino0, d, ino, offset / BLOCK_SIZE, EndBlock(offset, done))
    requires Need(d0, ino0, offset, done) <= ClearBits(d0)
    ensures var k := p / BLOCK_SIZE;
      BlockAt(d, ino, p) ==
        if BlockAt(d0, ino0, p) == 0 &&
          offset / BLOCK_SIZE <= k < EndBlock(offset, done) then Given(d0, ino0, offset / BLOCK_SIZE, k)
        else BlockAt(d0, ino0, p)
  {
    var k, lo, hi := p / BLOCK_SIZE, offset / BLOCK_SIZE, EndBlock(offset, done);
    if k < MAX_BLOCKS {
      var v := SlotVal(d, ino, SlotOf(k));
      assert Assigned(d0, ino0, lo, hi, k, v);
      if BlockAt(d0, ino0, p) == 0 && lo <= k < hi {
        NeedGrows(d0, ino0, lo, k + 1, hi);
        NthUnique(d0, v, NthClear(d0, Rank(d0, ino0, lo, k)), Rank(d0, ino0, lo, k));
      }
    }
  }

  /** The blocks touched: the first holds the offset, the last the last byte. */
  lemma Touched(offset: nat, done: nat, p: nat)
    requires 0 < done && offset + done <= MAX_BLOCKS * BLOCK_SIZE
    ensures EndBlock(offset, done) == (offset + done - 1) / BLOCK_SIZE + 1
    ensures p < offset && offset / BLOCK_SIZE <= p / BLOCK_SIZE ==>
      p / BLOCK_SIZE == offset / BLOCK_SIZE && p % BLOCK_SIZE < offset % BLOCK_SIZE
    ensures p >= offset + done && p / BLOCK_SIZE < EndBlock(offset, done) ==>
      p / BLOCK_SIZE == (offset + done - 1) / BLOCK_SIZE && (offset + done - 1) % BLOCK_SIZE < p % BLOCK_SIZE
    ensures offset / BLOCK_SIZE <= (offset + done - 1) / BLOCK_SIZE
  {
    PositionSplit(offset);
    PositionSplit(p);
    PositionSplit(offset + done - 1);
  }

  lemma WillSpliceNothingStale(d0: Disk, ino0: Inode, d: Disk, ino: Inode, offset: nat, done: nat, p: nat)
    requires InodeOk(ino0) && InodeOk(ino) && Leaves(d0, ino0, d, ino, offset / BLOCK_SIZE, EndBlock(offset, done))
    requires Need(d0, ino0, offset, done) <= ClearBits(d0) && (done > 0 ==> offset + done <= MAX_BLOCKS * BLOCK_SIZE)
    requires GapClean(d0, ino0, offset) &&
      (done > 0 ==> HeadClean(d0, ino0, offset) && TailClean(d0, ino0, offset, done))
    requires ino.size == Max(ino0.size, offset + done)
    requires p < ino.size && !(offset <= p < offset + done) && (p >= ino0.size || BlockAt(d0, ino0, p) == 0)
    ensures Raw(d0, BlockAt(d, ino, p), p % BLOCK_SIZE) == 0
  {
    BlockAfter(d0, ino0, d, ino, offset, done, p);
    PositionSplit(p);
    if done > 0 { Touched(offset, done, p); }
  }

  lemma NothingStaleGap(d0: Disk, ino0: Inode, d: Disk, ino: Inode, offset: nat, done: nat)
    requires InodeOk(ino0) && InodeOk(ino) && Leaves(d0, ino0, d, ino, offset / BLOCK_SIZE, EndBlock(offset, done))
    requires Need(d0, ino0, offset, done) <= ClearBits(d0) && ino.size == Max(ino0.size, offset + done)
    requires NothingStale(d0, ino0, d, ino, offset, done)
    ensures GapClean(d0, ino0, offset)
  {
    forall p: nat | ino0.size <= p < offset ensures Raw(d0, BlockAt(d0, ino0, p), p % BLOCK_SIZE) == 0 {
      BlockAfter(d0, ino0, d, ino, offset, done, p);
      assert Raw(d0, BlockAt(d, ino, p), p % BLOCK_SIZE) == 0;
    }
  }

  lemma InBlock(k: nat, o: nat)
    requires o < BLOCK_SIZE
    ensures (k * BLOCK_SIZE + o) / BLOCK_SIZE == k && (k * BLOCK_SIZE + o) % BLOCK_SIZE == o
  {
  }

  lemma NothingStaleEnds(d0: Disk, ino0: Inode, d: Disk, ino: Inode, offset: nat, done: nat)
    requires InodeOk(ino0) && InodeOk(ino) && Leaves(d0, ino0, d, ino, offset / BLOCK_SIZE, EndBlock(offset, done))
    requires Need(d0, ino0, offset, done) <= ClearBits(d0) && ino.size == Max(ino0.size, offset + done)
    requires 0 < done && offset + done <= MAX_BLOCKS * BLOCK_SIZE && NothingStale(d0, ino0, d, ino, offset, done)
    ensures HeadClean(d0, ino0, offset) && TailClean(d0, ino0, offset, done)
  {
    var first, last := offset / BLOCK_SIZE, (offset + done - 1) / BLOCK_SIZE;
    Touched(offset, done, 0);
    PositionSplit(offset);
    PositionSplit(offset + done - 1);
    if SlotVal(d0, ino0, SlotOf(first)) == 0 {
      forall o: nat | o < offset % BLOCK_SIZE ensures Raw(d0, Given(d0, ino0, first, first), o) == 0 {
        StaleAt(d0, ino0, d, ino, offset, done, first, o);
      }
    }
    if SlotVal(d0, ino0, SlotOf(last)) == 0 {
      forall o: nat | (offset + done - 1) % BLOCK_SIZE < o < BLOCK_SIZE && last * BLOCK_SIZE + o < ino0.size
        ensures Raw(d0, Given(d0, ino0, first, last), o) == 0
      {
        StaleAt(d0, ino0, d, ino, offset, done, last, o);
      }
    }
  }

  lemma StaleAt(d0: Disk, ino0: Inode, d: Disk, ino: Inode, offset: nat, done: nat, k: nat, o: nat)
    requires InodeOk(ino0) && InodeOk(ino) && Leaves(d0, ino0, d, ino, offset / BLOCK_SIZE, EndBlock(offset, done))
    requires Need(d0, ino0, offset, done) <= ClearBits(d0) && NothingStale(d0, ino0, d, ino, offset, done)
    requires k < MAX_BLOCKS && offset / BLOCK_SIZE <= k < EndBlock(offset, done) && SlotVal(d0, ino0, SlotOf(k)) == 0 &&
      o < BLOCK_SIZE
    requires var p := k * BLOCK_SIZE + o; p < ino.size && !(offset <= p < offset + done)
    ensures Raw(d0, Given(d0, ino0, offset / BLOCK_SIZE, k), o) == 0
  {
    var p := k * BLOCK_SIZE + o;
    InBlock(k, o);
    BlockAfter(d0, ino0, d, ino, offset, done, p);
    assert Raw(d0, BlockAt(d, ino, p), p % BLOCK_SIZE) == 0;
  }

  lemma {:induction false} AcceptedFits(d: Disk, ino: Inode, offset: nat, count: nat, done: nat)
    requires InodeOk(ino) && done <= count && Need(d, ino, offset, done) <= ClearBits(d)
    ensures Need(d, ino, offset, Accepted(d, ino, offset, count, done)) <= ClearBits(d)
    decreases count - done
  {
    if done < count && Fits(d, ino, offset, count, done) {
      AcceptedFits(d, ino, offset, count, done + ChunkAt(offset + done, count - done));
    }
  }

  /** What shows afterwards is decided by the state before. */
  lemma StaleIff(d0: Disk, ino0: Inode, d: Disk, ino: Inode, offset: nat, count: nat, done: nat)
    requires InodeOk(ino0) && InodeOk(ino) && done == Accepted(d0, ino0, offset, count, 0)
    requires Leaves(d0, ino0, d, ino, offset / BLOCK_SIZE, EndBlock(offset, done))
    requires (done > 0 ==> offset + done <= MAX_BLOCKS * BLOCK_SIZE) && ino.size == Max(ino0.size, offset + done)
    ensures NothingStale(d0, ino0, d, ino, offset, done) <==> WillSplice(d0, ino0, offset, count)
  {
    assert NullRange(d0, ino0, offset / BLOCK_SIZE, 0) == {};
    AcceptedFits(d0, ino0, offset, count, 0);
    if NothingStale(d0, ino0, d, ino, offset, done) {
      NothingStaleGap(d0, ino0, d, ino, offset, done);
      if done > 0 { NothingStaleEnds(d0, ino0, d, ino, offset, done); }
    }
    if WillSplice(d0, ino0, offset, count) {
      forall p: nat | p < ino.size && !(offset <= p < offset + done) && (p >= ino0.size || BlockAt(d0, ino0, p) == 0)
        ensures Raw(d0, BlockAt(d, ino, p), p % BLOCK_SIZE) == 0
      {
        WillSpliceNothingStale(d0, ino0, d, ino, offset, done, p);
      }
    }
  }

  lemma HoleFreeAfter(d0: Disk, inodes0: seq<Inode>, d: Disk, inodes: seq<Inode>, n: nat, offset: nat, buf: seq<byte>,
                      done: nat)
    requires InodesOk(inodes0) && InodesOk(inodes) && |inodes| == |inodes0| && n < |inodes| && done <= |buf|
    requires Written(d0, inodes0, d, inodes, n, offset, buf, done)
    requires offset <= inodes0[n].size && HoleFree(d0, inodes0[n], inodes0[n].size)
    ensures HoleFree(d, inodes[n], Max(inodes[n].size, offset + done))
  {
    forall fb: nat | fb * BLOCK_SIZE < Max(inodes[n].size, offset + done)
      ensures fb < MAX_BLOCKS && SlotVal(d, inodes[n], SlotOf(fb)) != 0
    {
      if fb * BLOCK_SIZE < inodes0[n].size {
        assert SlotVal(d0, inodes0[n], SlotOf(fb)) != 0;
      } else {
        PositionSplit(offset);
        assert offset / BLOCK_SIZE <= fb;
      }
    }
  }

  lemma WrittenStart(d: Disk, inodes: seq<Inode>, n: nat, offset: nat, buf: seq<byte>)
    requires InodesOk(inodes) && n < |inodes|
    ensures Written(d, inodes, d, inodes, n, offset, buf, 0)
  {
  }

  /** What the whole loop does to the counts, whatever it accepted. */
  ghost predicate WriteTook(d0: Disk, inodes0: seq<Inode>, d: Disk, inodes: seq<Inode>, need: nat)
    requires InodesOk(inodes0) && InodesOk(inodes)
  {
    var taken := if need <= ClearBits(d0) then need else ClearBits(d0);
    Took(d0, d, taken) && (Contained(d, inodes) <==> Contained(d0, inodes0) && taken <= FreeBits(d0))
  }

  /** The write is over: what it took, and which blocks it mapped for the bytes it accepted. */
  ghost predicate Finished(d0: Disk, inodes0: seq<Inode>, d: Disk, inodes: seq<Inode>, n: nat, offset: nat, count: nat,
                           done: nat)
    requires InodesOk(inodes0) && InodesOk(inodes) && |inodes| == |inodes0| && n < |inodes|
  {
    && WriteTook(d0, inodes0, d, inodes, Need(d0, inodes0[n], offset, count))
    && Leaves(d0, inodes0[n], d, inodes[n], offset / BLOCK_SIZE, EndBlock(offset, done))
  }

  /** The account of a write of which `done` bytes are in place. */
  ghost predicate Progress(d0: Disk, inodes0: seq<Inode>, d: Disk, inodes: seq<Inode>, n: nat, offset: nat, done: nat)
    requires InodesOk(inodes0) && InodesOk(inodes) && |inodes| == |inodes0| && n < |inodes|
  {
    Account(d0, inodes0, d, inodes, n, offset / BLOCK_SIZE, EndBlock(offset, done))
  }

  /** The loop of a write, before the size field is brought up to date. */
  method WriteLoop(fs: Sfs, n: nat, buf: seq<byte>, offset: nat, ghost d0: Disk,
                   ghost inodes0: seq<Inode>) returns (done: nat)
    requires fs.Valid() && n < |fs.inodes| && InodesOk(inodes0) && |inodes0| == |fs.inodes|
    requires Written(d0, inodes0, fs.disk, fs.inodes, n, offset, buf, 0)
    requires Progress(d0, inodes0, fs.disk, fs.inodes, n, offset, 0)
    modifies fs
    ensures fs.Valid() && |fs.inodes| == |old(fs.inodes)| && done <= |buf|
    ensures Written(d0, inodes0, fs.disk, fs.inodes, n, offset, buf, done)
    ensures Finished(d0, inodes0, fs.disk, fs.inodes, n, offset, |buf|, done)
    ensures done == Accepted(d0, inodes0[n], offset, |buf|, 0)
    ensures offset / BLOCK_SIZE >= MAX_BLOCKS ==> done == 0 && fs.disk == old(fs.disk) && fs.inodes == old(fs.inodes)
    ensures done == |buf| <==>
      |buf| == 0 || (Need(d0, inodes0[n], offset, |buf|) <= ClearBits(d0) && offset + |buf| <= MAX_BLOCKS * BLOCK_SIZE)
  {
    done := 0;
    while done < |buf|
      invariant fs.Valid() && |fs.inodes| == |inodes0| && done <= |buf| && (done == |buf| || Aligned(offset, done))
      invariant Written(d0, inodes0, fs.disk, fs.inodes, n, offset, buf, done)
      invariant Progress(d0, inodes0, fs.disk, fs.inodes, n, offset, done)
      invariant Accepted(d0, inodes0[n], offset, |buf|, done) == Accepted(d0, inodes0[n], offset, |buf|, 0)
      invariant offset / BLOCK_SIZE >= MAX_BLOCKS ==>
        done == 0 && fs.disk == old(fs.disk) && fs.inodes == old(fs.inodes)
    {
      var before := done;
      done := WriteStep(fs, n, buf, offset, done, d0, inodes0);
      if done == before { return; }
    }
    AllWritten(d0, inodes0, fs.disk, fs.inodes, n, offset, buf);
  }

  lemma AccountStart(d: Disk, inodes: seq<Inode>, n: nat, offset: nat)
    requires InodesOk(inodes) && n < |inodes|
    ensures Progress(d, inodes, d, inodes, n, offset, 0)
  {
    assert Paths(offset / BLOCK_SIZE, 0) == {};
    assert NullRange(d, inodes[n], offset / BLOCK_SIZE, 0) == {};
  }

  /** Once every byte is in place the file has room for them and the needed blocks are taken. */
  lemma AllWritten(d0: Disk, inodes0: seq<Inode>, d: Disk, inodes: seq<Inode>, n: nat, offset: nat, buf: seq<byte>)
    requires InodesOk(inodes0) && InodesOk(inodes) && |inodes| == |inodes0| && n < |inodes|
    requires Written(d0, inodes0, d, inodes, n, offset, buf, |buf|) &&
      Progress(d0, inodes0, d, inodes, n, offset, |buf|)
    ensures Finished(d0, inodes0, d, inodes, n, offset, |buf|, |buf|) &&
      Need(d0, inodes0[n], offset, |buf|) <= ClearBits(d0)
    ensures |buf| == 0 || offset + |buf| <= MAX_BLOCKS * BLOCK_SIZE
  {
  }

  /** A turn of the loop together with its account. */
  method WriteTurn(fs: Sfs, n: nat, buf: seq<byte>, offset: nat, done: nat, end: nat, fb: nat,
                   ghost d0: Disk, ghost inodes0: seq<Inode>, ghost lo: nat, ghost next: nat)
    returns (ok: bool, now: nat)
    requires fs.Valid() && n < |fs.inodes| && done <= end <= |buf|
    requires InodesOk(inodes0) && |inodes0| == |fs.inodes|
    requires Written(d0, inodes0, fs.disk, fs.inodes, n, offset, buf, done)
    requires fb == (offset + done) / BLOCK_SIZE < MAX_BLOCKS && lo <= fb && next == fb + 1
    requires (offset + done) % BLOCK_SIZE + end - done <= BLOCK_SIZE
    requires Account(d0, inodes0, fs.disk, fs.inodes, n, lo, fb)
    modifies fs
    ensures fs.Valid() && |fs.inodes| == |old(fs.inodes)|
    ensures now == (if ok then end else done) && Written(d0, inodes0, fs.disk, fs.inodes, n, offset, buf, now)
    ensures ok <==> |NullRange(d0, inodes0[n], lo, next)| <= ClearBits(d0)
    ensures ok ==> Account(d0, inodes0, fs.disk, fs.inodes, n, lo, next)
    ensures !ok ==> Exhausted(d0, inodes0, fs.disk, fs.inodes, n, lo, fb)
  {
    ghost var d, inodes := fs.disk, fs.inodes;
    var piece := buf[done..end];
    assert |piece| == end - done;
    ok, now := WriteChunk(fs, n, piece, offset, offset + done, fb, buf, done, d0, inodes0);
    AccountStep(d0, inodes0, d, inodes, fs.disk, fs.inodes, n, lo, fb, next, ok);
  }

  /** The turn at `done`: how long the chunk is and where the next one starts. */
  method WriteStep(fs: Sfs, n: nat, buf: seq<byte>, offset: nat, done: nat, ghost d0: Disk, ghost inodes0: seq<Inode>)
    returns (now: nat)
    requires fs.Valid() && n < |fs.inodes| && done < |buf| && Aligned(offset, done)
    requires InodesOk(inodes0) && |inodes0| == |fs.inodes|
    requires Written(d0, inodes0, fs.disk, fs.inodes, n, offset, buf, done)
    requires Progress(d0, inodes0, fs.disk, fs.inodes, n, offset, done)
    modifies fs
    ensures fs.Valid() && |fs.inodes| == |old(fs.inodes)| && done <= now <= |buf|
    ensures Written(d0, inodes0, fs.disk, fs.inodes, n, offset, buf, now)
    ensures now > done ==>
      (now == |buf| || Aligned(offset, now)) && Progress(d0, inodes0, fs.disk, fs.inodes, n, offset, now)
    ensures now == done ==>
      && Finished(d0, inodes0, fs.disk, fs.inodes, n, offset, |buf|, done)
      && (Need(d0, inodes0[n], offset, |buf|) > ClearBits(d0) || offset + |buf| > MAX_BLOCKS * BLOCK_SIZE)
    ensures now == if Fits(d0, inodes0[n], offset, |buf|, done) then done + ChunkAt(offset + done, |buf| - done)
      else done
    ensures (offset + done) / BLOCK_SIZE >= MAX_BLOCKS ==> fs.disk == old(fs.disk) && fs.inodes == old(fs.inodes)
  {
    var fileBlock := (offset + done) / BLOCK_SIZE;
    var end := done + ChunkAt(offset + done, |buf| - done);
    ghost var lo, next := offset / BLOCK_SIZE, EndBlock(offset, end);
    Spans(offset, |buf|, done, fileBlock, end);
    if fileBlock >= MAX_BLOCKS {
      StopAtLimit(d0, inodes0, fs.disk, fs.inodes, n, offset, |buf|, done);
      return done;
    }
    FitsIff(d0, inodes0[n], offset, |buf|, done, fileBlock, end, lo, next);
    if done == 0 { AccountEmpty(d0, inodes0, fs.disk, fs.inodes, n, lo, fileBlock); }
    now := WriteInside(fs, n, buf, offset, done, end, fileBlock, d0, inodes0, lo, next);
  }

  /** The turn below the size limit. */
  method WriteInside(fs: Sfs, n: nat, buf: seq<byte>, offset: nat, done: nat, end: nat, fb: nat,
                     ghost d0: Disk, ghost inodes0: seq<Inode>, ghost lo: nat, ghost next: nat)
    returns (now: nat)
    requires fs.Valid() && n < |fs.inodes| && done < end <= |buf| && Aligned(offset, done)
    requires InodesOk(inodes0) && |inodes0| == |fs.inodes|
    requires Written(d0, inodes0, fs.disk, fs.inodes, n, offset, buf, done)
    requires fb == (offset + done) / BLOCK_SIZE < MAX_BLOCKS && lo == offset / BLOCK_SIZE <= fb && next == fb + 1
    requires (offset + done) % BLOCK_SIZE + end - done <= BLOCK_SIZE
    requires Account(d0, inodes0, fs.disk, fs.inodes, n, lo, fb)
    modifies fs
    ensures fs.Valid() && |fs.inodes| == |old(fs.inodes)|
    ensures now == if |NullRange(d0, inodes0[n], lo, next)| <= ClearBits(d0) then end else done
    ensures Written(d0, inodes0, fs.disk, fs.inodes, n, offset, buf, now)
    ensures now == end ==> Account(d0, inodes0, fs.disk, fs.inodes, n, lo, next)
    ensures now == done ==>
      Finished(d0, inodes0, fs.disk, fs.inodes, n, offset, |buf|, done) &&
        Need(d0, inodes0[n], offset, |buf|) > ClearBits(d0)
  {
    var ok;
    ok, now := WriteTurn(fs, n, buf, offset, done, end, fb, d0, inodes0, lo, next);
    if !ok { StopExhausted(d0, inodes0, fs.disk, fs.inodes, n, offset, |buf|, done, fb); }
  }

  lemma StopAtLimit(d0: Disk, inodes0: seq<Inode>, d: Disk, inodes: seq<Inode>, n: nat, offset: nat, count: nat,
                    done: nat)
    requires InodesOk(inodes0) && InodesOk(inodes) && |inodes| == |inodes0| && n < |inodes|
    requires done < count && Aligned(offset, done) && (offset + done) / BLOCK_SIZE >= MAX_BLOCKS
    requires Progress(d0, inodes0, d, inodes, n, offset, done)
    ensures Finished(d0, inodes0, d, inodes, n, offset, count, done)
  {
    Spans(offset, count, done, (offset + done) / BLOCK_SIZE, done + ChunkAt(offset + done, count - done));
    if done == 0 { AccountEmpty(d0, inodes0, d, inodes, n, offset / BLOCK_SIZE, MAX_BLOCKS); }
  }

  lemma StopExhausted(d0: Disk, inodes0: seq<Inode>, d: Disk, inodes: seq<Inode>, n: nat, offset: nat, count: nat,
                      done: nat, fb: nat)
    requires InodesOk(inodes0) && InodesOk(inodes) && |inodes| == |inodes0| && n < |inodes|
    requires done < count && Aligned(offset, done) && fb == (offset + done) / BLOCK_SIZE < MAX_BLOCKS
    requires |NullRange(d0, inodes0[n], offset / BLOCK_SIZE, fb + 1)| > ClearBits(d0)
    requires Exhausted(d0, inodes0, d, inodes, n, offset / BLOCK_SIZE, fb)
    ensures Finished(d0, inodes0, d, inodes, n, offset, count, done) &&
      Need(d0, inodes0[n], offset, count) > ClearBits(d0)
  {
    Spans(offset, count, done, fb, done + ChunkAt(offset + done, count - done));
    NeedGrows(d0, inodes0[n], offset / BLOCK_SIZE, fb + 1, EndBlock(offset, count));
    LeavesEnd(d0, inodes0[n], d, inodes[n], offset / BLOCK_SIZE, fb, EndBlock(offset, done));
  }

  /** A range that is empty may end anywhere before its start. */
  lemma LeavesEnd(d: Disk, ino: Inode, e: Disk, ino': Inode, lo: nat, fb: nat, hi: nat)
    requires InodeOk(ino) && InodeOk(ino') && Leaves(d, ino, e, ino', lo, fb) && (hi == fb || (fb == lo && hi <= lo))
    ensures Leaves(d, ino, e, ino', lo, hi)
  {
    forall k: nat | k < MAX_BLOCKS ensures Assigned(d, ino, lo, hi, k, SlotVal(e, ino', SlotOf(k))) {
      assert Assigned(d, ino, lo, fb, k, SlotVal(e, ino', SlotOf(k)));
    }
  }

  lemma ResizedHoleFree(d: Disk, ino: Inode, size: nat)
    requires InodeOk(ino) && HoleFree(d, ino, size)
    ensures HoleFree(d, ino.(size := size), size)
  {
    forall fb: nat | fb * BLOCK_SIZE < size
      ensures fb < MAX_BLOCKS && SlotVal(d, ino.(size := size), SlotOf(fb)) != 0
    {
      assert SlotVal(d, ino.(size := size), SlotOf(fb)) == SlotVal(d, ino, SlotOf(fb));
    }
  }

  /** The size field after a write that reached position `end`: 32 bits of it. */
  function SizeAfter(size: nat, end: nat): nat {
    if end > size then end % SIZE_LIMIT else size
  }

  /** The file after a write as a function of the one before: grown by zeros, the bytes spliced in. */
  function Spliced(d: Disk, ino: Inode, offset: nat, data: seq<byte>): (c: seq<byte>)
    requires InodeOk(ino)
    ensures |c| == Max(ino.size, offset + |data|)
  {
    Splice(Extended(Content(d, ino), Max(ino.size, offset + |data|)), offset, data)
  }

  /** sfs_vfs_write, for every file and store and every offset the size field can hold. Which bytes
      are accepted and which block each file block then has is fixed by the state before. The
      accepted prefix of the buffer is in place and every other position shows what the block now
      mapped there held before; every other file keeps its bytes. This is the old file, grown by
      zeros, with the prefix spliced in, exactly if the state before is as WillSplice says, and that
      is so for a file without holes written inside it or at its end. All of the buffer is accepted
      exactly when the file can be that large and as many bits are clear as the write needs blocks.
      Every pointer stays in the data area exactly when that has the needed blocks free or nothing
      past it is. */
  method Write(fs: Sfs, n: nat, buf: seq<byte>, offset: nat) returns (done: nat)
    requires fs.Valid() && n < |fs.inodes| && offset < SIZE_LIMIT && offset + |buf| < OFFSET_LIMIT
    modifies fs
    ensures fs.Valid() && |fs.inodes| == |old(fs.inodes)|
    ensures done == Accepted(old(fs.disk), old(fs.inodes)[n], offset, |buf|, 0) <= |buf|
    ensures fs.inodes[n].size == Max(old(fs.inodes)[n].size, offset + done)
    ensures Leaves(old(fs.disk), old(fs.inodes)[n], fs.disk, fs.inodes[n], offset / BLOCK_SIZE, EndBlock(offset, done))
    ensures Content(fs.disk, fs.inodes[n]) == Splice(Shown(old(fs.disk), fs.disk, fs.inodes[n]), offset, buf[..done])
    ensures |fs.disk.blocks| == |old(fs.disk).blocks| && Reached(fs.disk, fs.inodes[n], offset, done)
    ensures BlocksTaken(old(fs.disk), old(fs.inodes)[n], fs.disk, fs.inodes[n])
    ensures Content(fs.disk, fs.inodes[n]) == Spliced(old(fs.disk), old(fs.inodes)[n], offset, buf[..done])
      <==> WillSplice(old(fs.disk), old(fs.inodes)[n], offset, |buf|)
    ensures offset <= old(fs.inodes)[n].size && HoleFree(old(fs.disk), old(fs.inodes)[n], old(fs.inodes)[n].size) ==>
      && WillSplice(old(fs.disk), old(fs.inodes)[n], offset, |buf|)
      && Content(fs.disk, fs.inodes[n]) == Splice(Content(old(fs.disk), old(fs.inodes)[n]), offset, buf[..done])
      && HoleFree(fs.disk, fs.inodes[n], fs.inodes[n].size)
    ensures forall m :: 0 <= m < |fs.inodes| && m != n ==>
      Content(fs.disk, fs.inodes[m]) == Content(old(fs.disk), old(fs.inodes)[m])
    ensures var need := Need(old(fs.disk), old(fs.inodes)[n], offset, |buf|);
      && (done == |buf| <==>
          |buf| == 0 || (need <= ClearBits(old(fs.disk)) && offset + |buf| <= MAX_BLOCKS * BLOCK_SIZE))
      && Took(old(fs.disk), fs.disk, if need <= ClearBits(old(fs.disk)) then need else ClearBits(old(fs.disk)))
      && (Contained(fs.disk, fs.inodes) <==>
            Contained(old(fs.disk), old(fs.inodes)) && (need <= FreeBits(old(fs.disk)) || Padded(old(fs.disk))))
  {
    ghost var d0, inodes0 := fs.disk, fs.inodes;
    PaddedIff(d0);
    WrittenStart(d0, inodes0, n, offset, buf);
    AccountStart(d0, inodes0, n, offset);
    done := WriteLoop(fs, n, buf, offset, d0, inodes0);
    var newSize := SizeAfter(fs.inodes[n].size, offset + done);
    SizeFits(fs.disk, fs.inodes[n], offset, done);
    ghost var d, inodes := fs.disk, fs.inodes;
    SetSize(fs, n, newSize);
    WriteMeaning(d0, inodes0, d, inodes, n, offset, buf, done, fs.inodes[n]);
  }

  lemma SizeFits(d: Disk, ino: Inode, offset: nat, done: nat)
    requires InodeOk(ino) && offset < SIZE_LIMIT && Reached(d, ino, offset, done)
    ensures SizeAfter(ino.size, offset + done) == Max(ino.size, offset + done)
  {
  }

  /** sfs_vfs_write from offset 4 GiB on: no byte is accepted and no block changes, but the size
      field becomes the low 32 bits of the offset, so that the file may even get shorter. */
  method WriteFar(fs: Sfs, n: nat, buf: seq<byte>, offset: nat) returns (done: nat)
    requires fs.Valid() && n < |fs.inodes| && SIZE_LIMIT <= offset && offset + |buf| < OFFSET_LIMIT
    modifies fs
    ensures fs.Valid() && done == 0 && fs.disk == old(fs.disk)
    ensures fs.inodes == old(fs.inodes)[n := old(fs.inodes)[n].(size := SizeAfter(old(fs.inodes)[n].size, offset))]
  {
    done := FarLoop(fs, n, buf, offset);
    SetSize(fs, n, SizeAfter(fs.inodes[n].size, offset + done));
  }

  /** The loop past the largest file stops at its first turn. */
  method FarLoop(fs: Sfs, n: nat, buf: seq<byte>, offset: nat) returns (done: nat)
    requires fs.Valid() && n < |fs.inodes| && offset / BLOCK_SIZE >= MAX_BLOCKS
    modifies fs
    ensures fs.Valid() && done == 0 && fs.disk == old(fs.disk) && fs.inodes == old(fs.inodes)
  {
    WrittenStart(fs.disk, fs.inodes, n, offset, buf);
    AccountStart(fs.disk, fs.inodes, n, offset);
    done := WriteLoop(fs, n, buf, offset, fs.disk, fs.inodes);
  }

  /** Only the size field of one file changes. */
  method SetSize(fs: Sfs, n: nat, size: nat)
    requires fs.Valid() && n < |fs.inodes|
    modifies fs
    ensures fs.Valid() && fs.disk == old(fs.disk) && fs.inodes == old(fs.inodes)[n := old(fs.inodes)[n].(size := size)]
    ensures Contained(fs.disk, fs.inodes) <==> Contained(old(fs.disk), old(fs.inodes))
  {
    ResizeKeepsTree(fs.disk, fs.inodes, fs.owner, n, size);
    fs.inodes := fs.inodes[n := fs.inodes[n].(size := size)];
  }

  /** Blocks newly mapped in a file were unused. */
  ghost predicate BlocksTaken(d0: Disk, ino0: Inode, d: Disk, ino: Inode)
    requires InodeOk(ino0) && InodeOk(ino)
  {
    forall p: nat {:trigger BlockAt(d, ino, p)} :: BlockAt(d, ino, p) != BlockAt(d0, ino0, p) ==>
      !Used(d0, BlockAt(d, ino, p))
  }

  lemma Resized(d0: Disk, inodes0: seq<Inode>, d: Disk, inodes: seq<Inode>, n: nat, offset: nat, done: nat, ino: Inode)
    requires InodesOk(inodes0) && InodesOk(inodes) && |inodes| == |inodes0| && n < |inodes| && InodeOk(ino)
    requires Reached(d, inodes[n], offset, done) && TakesUnused(d0, inodes0, d, inodes) &&
      ino == inodes[n].(size := ino.size)
    ensures Reached(d, ino, offset, done) && BlocksTaken(d0, inodes0[n], d, ino)
    ensures forall lo, hi :: Leaves(d0, inodes0[n], d, inodes[n], lo, hi) ==> Leaves(d0, inodes0[n], d, ino, lo, hi)
  {
    forall lo, hi | Leaves(d0, inodes0[n], d, inodes[n], lo, hi) ensures Leaves(d0, inodes0[n], d, ino, lo, hi) {
      forall k: nat | k < MAX_BLOCKS ensures Assigned(d0, inodes0[n], lo, hi, k, SlotVal(d, ino, SlotOf(k))) {
        assert Assigned(d0, inodes0[n], lo, hi, k, SlotVal(d, inodes[n], SlotOf(k)));
      }
    }
    forall fb: nat | done > 0 && offset / BLOCK_SIZE <= fb && fb * BLOCK_SIZE < offset + done
      ensures fb < MAX_BLOCKS && SlotVal(d, ino, SlotOf(fb)) != 0
    {
      assert SlotVal(d, ino, SlotOf(fb)) == SlotVal(d, inodes[n], SlotOf(fb));
    }
    forall p: nat | BlockAt(d, ino, p) != BlockAt(d0, inodes0[n], p) ensures !Used(d0, BlockAt(d, ino, p)) {
      assert BlockAt(d, ino, p) == BlockAt(d, inodes[n], p);
    }
  }

  /** One byte written at offset 1 of an empty file, on a store whose unused blocks hold ones: the
      file then shows a one before it. */
  method StaleByte(fs: Sfs, n: nat, x: byte) returns (done: nat)
    requires fs.Valid() && n < |fs.inodes| && fs.inodes[n].size == 0 && fs.inodes[n].direct[0] == 0 &&
      ClearBits(fs.disk) > 0
    requires forall c: nat :: 0 < c < |fs.disk.blocks| && !Used(fs.disk, c) ==> fs.disk.blocks[c][0] == 1
    modifies fs
    ensures fs.Valid() && |fs.inodes| == |old(fs.inodes)| && Content(fs.disk, fs.inodes[n]) == [1, x]
    ensures !WillSplice(old(fs.disk), old(fs.inodes)[n], 1, 1)
  {
    OneBlockNeed(fs.disk, fs.inodes[n]);
    ghost var d0, ino0 := fs.disk, fs.inodes[n];
    done := Write(fs, n, [x], 1);
    assert done == 1 && [x][..1] == [x];
    assert SlotVal(fs.disk, fs.inodes[n], SlotOf(0)) != 0 && BlockAt(d0, ino0, 0) == 0;
    ghost var b := BlockAt(fs.disk, fs.inodes[n], 0);
    assert b != 0 && !Used(d0, b);
    SlotInStore(fs.disk, fs.inodes, fs.owner, n, 0);
    assert Shown(d0, fs.disk, fs.inodes[n])[0] == 1;
    assert Spliced(d0, ino0, 1, [x])[0] == 0;
  }

  lemma OneBlockNeed(d: Disk, ino: Inode)
    requires InodeOk(ino) && ino.direct[0] == 0
    ensures Need(d, ino, 1, 1) == 1
  {
    assert EndBlock(1, 1) == 1 && 1 / BLOCK_SIZE == 0;
    assert SlotOf(0) == Direct(0) && Path(0) == {Direct(0)};
    PathsFirst(0, 1);
    assert Paths(1, 1) == {};
    assert NullRange(d, ino, 0, 1) == {Direct(0)};
  }

  lemma WriteMeaning(d0: Disk, inodes0: seq<Inode>, d: Disk, inodes: seq<Inode>, n: nat, offset: nat, buf: seq<byte>,
                     done: nat, ino: Inode)
    requires InodesOk(inodes0) && InodesOk(inodes) && |inodes| == |inodes0| && n < |inodes| && done <= |buf|
    requires Written(d0, inodes0, d, inodes, n, offset, buf, done) &&
      ino == inodes[n].(size := Max(inodes[n].size, offset + done))
    requires done == Accepted(d0, inodes0[n], offset, |buf|, 0)
    requires Leaves(d0, inodes0[n], d, inodes[n], offset / BLOCK_SIZE, EndBlock(offset, done))
    ensures ino.size == Max(inodes0[n].size, offset + done)
    ensures Leaves(d0, inodes0[n], d, ino, offset / BLOCK_SIZE, EndBlock(offset, done))
    ensures Content(d, ino) == Splice(Shown(d0, d, ino), offset, buf[..done])
    ensures |d.blocks| == |d0.blocks| && Reached(d, ino, offset, done) && BlocksTaken(d0, inodes0[n], d, ino)
    ensures Content(d, ino) == Spliced(d0, inodes0[n], offset, buf[..done]) <==>
      WillSplice(d0, inodes0[n], offset, |buf|)
    ensures offset <= inodes0[n].size && HoleFree(d0, inodes0[n], inodes0[n].size) ==>
      && WillSplice(d0, inodes0[n], offset, |buf|)
      && Content(d, ino) == Splice(Content(d0, inodes0[n]), offset, buf[..done]) && HoleFree(d, ino, ino.size)
    ensures forall m :: 0 <= m < |inodes| && m != n ==> Content(d, inodes[m]) == Content(d0, inodes0[m])
  {
    WrittenContent(d0, inodes0, d, inodes, n, offset, buf, done, ino);
    Resized(d0, inodes0, d, inodes, n, offset, done, ino);
    forall p: nat | BlockAt(d0, inodes0[n], p) != 0 ensures BlockAt(d, ino, p) == BlockAt(d0, inodes0[n], p) {
      ResizedBlock(d, inodes[n], ino.size, p);
    }
    SpliceIff(d0, inodes0[n], d, ino, offset, buf[..done]);
    StaleIff(d0, inodes0[n], d, ino, offset, |buf|, done);
    if offset <= inodes0[n].size && HoleFree(d0, inodes0[n], inodes0[n].size) {
      NoHolesNothingStale(d0, inodes0[n], d, ino, offset, done);
      HoleFreeAfter(d0, inodes0, d, inodes, n, offset, buf, done);
      ResizedHoleFree(d, inodes[n], ino.size);
      SpliceOfExtended(Content(d0, inodes0[n]), ino.size, offset, buf[..done]);
    }
  }

  lemma SpliceOfExtended(c: seq<byte>, len: nat, offset: nat, data: seq<byte>)
    requires offset <= |c| && len == Max(|c|, offset + |data|)
    ensures Splice(Extended(c, len), offset, data) == Splice(c, offset, data)
  {
  }
}
