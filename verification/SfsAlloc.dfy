/** Block allocation and the block map: sfs_bmap_alloc, sfs_bmap_free, sfs_alloc_block,
    sfs_free_block and sfs_inode_get_block over all three pointer levels. */
module SfsAlloc {
  import opened Bits
  import opened SfsTree

  // ----- Counting free blocks -----

  function CountClear(bm: seq<nat>, k: nat): nat {
    if k == 0 then 0 else CountClear(bm, k - 1) + if Test(bm, 8, k - 1) then 0 else 1
  }

  /** The free blocks of the data area. */
  function FreeBits(d: Disk): nat {
    CountClear(d.bmap, d.totalData)
  }

  /** All clear bits, those past the end of the data area included. */
  function ClearBits(d: Disk): nat {
    CountClear(d.bmap, 8 * |d.bmap|)
  }

  lemma {:induction false} CountMono(bm: seq<nat>, j: nat, k: nat)
    requires j <= k
    ensures CountClear(bm, j) <= CountClear(bm, k)
    ensures CountClear(bm, j) == CountClear(bm, k) <==> forall i: nat :: j <= i < k ==> Test(bm, 8, i)
    decreases k
  {
    if j < k { CountMono(bm, j, k - 1); }
  }

  lemma {:induction false} CountAfterMark(bm: seq<nat>, i: nat, k: nat)
    requires i / 8 < |bm| && !Test(bm, 8, i)
    ensures CountClear(Mark(bm, 8, i), k) == CountClear(bm, k) - if i < k then 1 else 0
  {
    if k > 0 {
      CountAfterMark(bm, i, k - 1);
      TestAfterMark(bm, 8, i, k - 1);
    }
  }

  lemma {:induction false} CountZeroIff(bm: seq<nat>, k: nat)
    ensures CountClear(bm, k) == 0 <==> forall i: nat :: i < k ==> Test(bm, 8, i)
  {
    if k > 0 { CountZeroIff(bm, k - 1); }
  }

  /** Bits of the last bitmap block past the end of the data area are all set. */
  ghost predicate Padded(d: Disk) {
    forall i: nat :: d.totalData <= i < 8 * |d.bmap| ==> Test(d.bmap, 8, i)
  }

  /** The data area holds all the clear bits exactly when the padding is set. */
  lemma PaddedIff(d: Disk)
    requires DiskOk(d)
    ensures FreeBits(d) <= ClearBits(d) && (Padded(d) <==> FreeBits(d) == ClearBits(d))
  {
    CountMono(d.bmap, d.totalData, 8 * |d.bmap|);
  }

  /** First fit lands inside the data area exactly when a data block is free. */
  lemma FirstFitInRange(d: Disk, idx: nat)
    requires !Test(d.bmap, 8, idx) && forall i: nat :: i < idx ==> Test(d.bmap, 8, i)
    ensures idx < d.totalData <==> FreeBits(d) > 0
  {
    CountZeroIff(d.bmap, d.totalData);
  }

  // ----- Which blocks first fit takes -----

  function Minus(a: nat, b: nat): nat {
    if a < b then 0 else a - b
  }

  /** Block b is unused, with exactly k unused blocks before it. */
  predicate IsNth(d: Disk, b: nat, k: nat) {
    InMap(d, b) && !Used(d, b) && CountClear(d.bmap, b - d.dataStart) == k
  }

  /** The bits set in e are those set in d and the first k clear ones. */
  ghost predicate FirstTaken(d: Disk, e: Disk, k: nat) {
    && |e.bmap| == |d.bmap| && e.dataStart == d.dataStart
    && forall i: nat {:trigger Test(e.bmap, 8, i)} :: i < 8 * |d.bmap| ==>
      (Test(e.bmap, 8, i) <==> Test(d.bmap, 8, i) || CountClear(d.bmap, i) < k)
  }

  lemma {:induction false} CountAfterTaken(d: Disk, e: Disk, k: nat, i: nat)
    requires FirstTaken(d, e, k) && i <= 8 * |d.bmap|
    ensures CountClear(e.bmap, i) == Minus(CountClear(d.bmap, i), k)
  {
    if i > 0 { CountAfterTaken(d, e, k, i - 1); }
  }

  lemma FirstTakenTrans(d: Disk, e: Disk, f: Disk, a: nat, b: nat)
    requires FirstTaken(d, e, a) && FirstTaken(e, f, b)
    ensures FirstTaken(d, f, a + b)
  {
    forall i: nat | i < 8 * |d.bmap|
      ensures Test(f.bmap, 8, i) <==> Test(d.bmap, 8, i) || CountClear(d.bmap, i) < a + b
    {
      CountAfterTaken(d, e, a, i);
      assert Test(e.bmap, 8, i) <==> Test(d.bmap, 8, i) || CountClear(d.bmap, i) < a;
    }
  }

  /** The k-th unused block once a have been taken was the (a + k)-th before. */
  lemma NthBefore(d: Disk, e: Disk, a: nat, b: nat, k: nat)
    requires FirstTaken(d, e, a) && IsNth(e, b, k)
    ensures IsNth(d, b, a + k)
  {
    CountAfterTaken(d, e, a, b - d.dataStart);
    assert !Test(e.bmap, 8, b - d.dataStart);
  }

  lemma NthUnique(d: Disk, b: nat, c: nat, k: nat)
    requires IsNth(d, b, k) && IsNth(d, c, k)
    ensures b == c
  {
    if b < c {
      CountMono(d.bmap, b - d.dataStart + 1, c - d.dataStart);
    } else if c < b {
      CountMono(d.bmap, c - d.dataStart + 1, b - d.dataStart);
    }
  }

  /** The k-th unused block, counted from 0. */
  function NthClear(d: Disk, k: nat): (b: nat)
    requires k < ClearBits(d)
    ensures IsNth(d, b, k)
  {
    NthFrom(d, k, 8 * |d.bmap|)
  }

  function NthFrom(d: Disk, k: nat, i: nat): (b: nat)
    requires k < CountClear(d.bmap, i) && i <= 8 * |d.bmap|
    ensures IsNth(d, b, k)
    decreases i
  {
    if k < CountClear(d.bmap, i - 1) then NthFrom(d, k, i - 1) else d.dataStart + i - 1
  }

  /** First fit takes the first. */
  lemma FirstFitTakes(d: Disk, b: nat)
    requires InMap(d, b) && !Used(d, b) && forall i: nat :: i < b - d.dataStart ==> Test(d.bmap, 8, i)
    ensures IsNth(d, b, 0) && FirstTaken(d, d.(bmap := Mark(d.bmap, 8, b - d.dataStart)), 1)
  {
    var idx := b - d.dataStart;
    CountZeroIff(d.bmap, idx);
    forall i: nat | i < 8 * |d.bmap|
      ensures Test(Mark(d.bmap, 8, idx), 8, i) <==> Test(d.bmap, 8, i) || CountClear(d.bmap, i) < 1
    {
      TestAfterMark(d.bmap, 8, idx, i);
      if i < idx { CountMono(d.bmap, i, idx); }
      if i > idx { CountMono(d.bmap, idx + 1, i); }
    }
  }

  // ----- The mounted filesystem -----

  class Sfs {
    var disk: Disk
    var inodes: seq<Inode>
    ghost var owner: Owner

    ghost predicate Valid()
      reads this
    {
      Sound(disk, inodes, owner)
    }

    constructor (d: Disk, inodes: seq<Inode>, ghost owner: Owner)
      requires Sound(d, inodes, owner)
      ensures disk == d && this.inodes == inodes && this.owner == owner && Valid()
    {
      disk, this.inodes, this.owner := d, inodes, owner;
    }
  }

  /** sfs_bmap_alloc: the first clear bit, over whole bitmap blocks. */
  method BmapAlloc(fs: Sfs) returns (idx: int)
    requires DiskOk(fs.disk)
    modifies fs`disk
    ensures idx < 0 ==> fs.disk == old(fs.disk) && forall i: nat :: i < 8 * |fs.disk.bmap| ==> Test(fs.disk.bmap, 8, i)
    ensures idx >= 0 ==>
      && idx < 8 * |old(fs.disk).bmap| && !Test(old(fs.disk).bmap, 8, idx)
      && (forall i: nat :: i < idx ==> Test(old(fs.disk).bmap, 8, i))
      && fs.disk == old(fs.disk).(bmap := Mark(old(fs.disk).bmap, 8, idx))
  {
    var bm := fs.disk.bmap;
    for b := 0 to |bm| / BLOCK_SIZE
      invariant forall i: nat :: i < b * BLOCK_SIZE * 8 ==> Test(bm, 8, i)
    {
      for i := 0 to BLOCK_SIZE * 8
        invariant forall k: nat :: k < b * BLOCK_SIZE * 8 + i ==> Test(bm, 8, k)
      {
        var entry := b * BLOCK_SIZE * 8 + i;
        assert entry / 8 == b * BLOCK_SIZE + i / 8 < |bm|;
        if !Test(bm, 8, entry) {
          fs.disk := fs.disk.(bmap := Mark(bm, 8, entry));
          return entry;
        }
      }
    }
    assert |bm| == |bm| / BLOCK_SIZE * BLOCK_SIZE;
    return -1;
  }

  /** sfs_alloc_block: fails only when no bit at all is clear, and stays in the data area exactly
      when a bit there is. */
  method AllocBlock(fs: Sfs) returns (b: int)
    requires DiskOk(fs.disk)
    modifies fs`disk
    ensures b < 0 <==> ClearBits(old(fs.disk)) == 0
    ensures b < 0 ==> fs.disk == old(fs.disk)
    ensures b >= 0 ==>
      && InMap(old(fs.disk), b) && !Used(old(fs.disk), b)
      && fs.disk == old(fs.disk).(bmap := Mark(old(fs.disk).bmap, 8, b - old(fs.disk).dataStart))
      && (InData(old(fs.disk), b) <==> FreeBits(old(fs.disk)) > 0)
      && IsNth(old(fs.disk), b, 0) && FirstTaken(old(fs.disk), fs.disk, 1)
  {
    ghost var d := fs.disk;
    var idx := BmapAlloc(fs);
    CountZeroIff(d.bmap, 8 * |d.bmap|);
    if idx < 0 { return -1; }
    FirstFitInRange(d, idx);
    FirstFitTakes(d, d.dataStart + idx);
    return fs.disk.dataStart + idx;
  }

  /** sfs_free_block: the block's bit is clear, every other bit is as it was. */
  method FreeBlock(fs: Sfs, b: nat)
    requires DiskOk(fs.disk) && b < fs.disk.dataStart + 8 * |fs.disk.bmap|
    modifies fs`disk
    ensures fs.disk == old(fs.disk).(bmap := fs.disk.bmap) && |fs.disk.bmap| == |old(fs.disk).bmap|
    ensures forall c: nat :: Used(fs.disk, c) <==> Used(old(fs.disk), c) && c != b
    ensures b < old(fs.disk).dataStart ==> fs.disk == old(fs.disk)
    ensures b >= old(fs.disk).dataStart ==> fs.disk.bmap == Unmark(old(fs.disk).bmap, 8, b - old(fs.disk).dataStart)
  {
    if b < fs.disk.dataStart { return; }
    var idx := b - fs.disk.dataStart;
    ghost var d := fs.disk;
    fs.disk := fs.disk.(bmap := Unmark(fs.disk.bmap, 8, idx));
    forall c: nat | InMap(d, c) ensures Used(fs.disk, c) <==> Used(d, c) && c != b {
      TestAfterUnmark(d.bmap, 8, idx, c - d.dataStart);
    }
  }

  // ----- Growing the tree by one block -----

  /** Data blocks in use keep their contents. */
  ghost predicate KeepsData(d: Disk, inodes: seq<Inode>, e: Disk)
    requires InodesOk(inodes)
  {
    && |e.blocks| == |d.blocks|
    && forall m, t {:trigger SlotVal(d, inodes[m], t)} ::
      0 <= m < |inodes| && SlotOk(t) && IsLeaf(t) && 0 < SlotVal(d, inodes[m], t) < |d.blocks| ==>
        e.blocks[SlotVal(d, inodes[m], t)] == d.blocks[SlotVal(d, inodes[m], t)]
  }

  predicate SameShape(d: Disk, inodes: seq<Inode>, e: Disk, inodes': seq<Inode>) {
    && d.dataStart == e.dataStart && d.totalData == e.totalData && |inodes| == |inodes'|
    && |d.bmap| == |e.bmap|
    && forall m :: 0 <= m < |inodes| ==> inodes[m].size == inodes'[m].size && inodes[m].kind == inodes'[m].kind
  }

  /** What taking one bit does to the two counts. */
  lemma CountsAfterMark(d: Disk, b: nat)
    requires DiskOk(d) && InMap(d, b) && !Used(d, b)
    ensures var e := d.(bmap := Mark(d.bmap, 8, b - d.dataStart));
      ClearBits(e) == ClearBits(d) - 1 && FreeBits(e) == FreeBits(d) - if InData(d, b) then 1 else 0
  {
    CountAfterMark(d.bmap, b - d.dataStart, 8 * |d.bmap|);
    CountAfterMark(d.bmap, b - d.dataStart, d.totalData);
  }

  /** Setting a bit keeps soundness, and every pointer, and leaves the new block unreferenced. */
  lemma SoundAfterMark(d: Disk, inodes: seq<Inode>, owner: Owner, b: nat)
    requires Sound(d, inodes, owner) && InMap(d, b) && !Used(d, b)
    ensures var e := d.(bmap := Mark(d.bmap, 8, b - d.dataStart));
      && Sound(e, inodes, owner) && Used(e, b) && Unreferenced(e, inodes, b)
      && forall m, t :: 0 <= m < |inodes| && SlotOk(t) ==> SlotVal(e, inodes[m], t) == SlotVal(d, inodes[m], t)
  {
    var i := b - d.dataStart;
    var e := d.(bmap := Mark(d.bmap, 8, i));
    TestAfterMark(d.bmap, 8, i, i);
    ClearMeansUnreferenced(d, inodes, owner, b);
    forall m, t | 0 <= m < |inodes| && SlotOk(t)
      ensures SlotVal(e, inodes[m], t) == SlotVal(d, inodes[m], t)
      ensures Owned(e, owner, m, t, SlotVal(e, inodes[m], t)) && SlotVal(e, inodes[m], t) != b
    {
      var v := SlotVal(d, inodes[m], t);
      assert SlotVal(e, inodes[m], t) == v;
      assert Owned(d, owner, m, t, v);
      if v != 0 { TestAfterMark(d.bmap, 8, i, v - d.dataStart); }
    }
  }

  /** A fresh index block is zeroed; nothing refers to it yet. */
  lemma SoundAfterZero(d: Disk, inodes: seq<Inode>, owner: Owner, b: nat)
    requires Sound(d, inodes, owner) && InMap(d, b) && Unreferenced(d, inodes, b)
    ensures var e := d.(blocks := d.blocks[b := ZeroBlock()]);
      && Sound(e, inodes, owner) && Unreferenced(e, inodes, b) && KeepsData(d, inodes, e)
      && forall m, t :: 0 <= m < |inodes| && SlotOk(t) ==> SlotVal(e, inodes[m], t) == SlotVal(d, inodes[m], t)
  {
    var e := d.(blocks := d.blocks[b := ZeroBlock()]);
    WriteUnreferenced(d, inodes, b, ZeroBlock());
    forall m, t | 0 <= m < |inodes| && SlotOk(t)
      ensures Owned(e, owner, m, t, SlotVal(e, inodes[m], t)) && SlotVal(e, inodes[m], t) != b
    {
      assert Owned(d, owner, m, t, SlotVal(d, inodes[m], t));
      assert SlotVal(d, inodes[m], t) != b;
    }
  }

  /** The index block a pointer is stored in holds no file data. */
  lemma StoreKeepsData(d: Disk, inodes: seq<Inode>, owner: Owner, n: nat, slot: Slot, v: nat)
    requires Sound(d, inodes, owner) && n < |inodes| && SlotOk(slot) && Indexed(slot) && v < PTR_LIMIT
    requires 0 < SlotVal(d, inodes[n], Parent(slot)) < |d.blocks|
    ensures KeepsData(d, inodes, StorePtr(d, SlotVal(d, inodes[n], Parent(slot)), Index(slot), v))
  {
    var p := SlotVal(d, inodes[n], Parent(slot));
    assert Owned(d, owner, n, Parent(slot), p);
    forall m, t | 0 <= m < |inodes| && SlotOk(t) && IsLeaf(t) && 0 < SlotVal(d, inodes[m], t) < |d.blocks|
      ensures SlotVal(d, inodes[m], t) != p
    {
      assert Owned(d, owner, m, t, SlotVal(d, inodes[m], t));
    }
  }

  predicate IndexSlot(s: Slot) {
    s.Ind? || s.DInd? || s.DIndPtr?
  }

  /** Block c is an index block of some inode. */
  ghost predicate IsIndexBlock(d: Disk, inodes: seq<Inode>, c: nat)
    requires InodesOk(inodes)
  {
    && c != 0
    && exists m, t {:trigger SlotVal(d, inodes[m], t)} ::
      0 <= m < |inodes| && SlotOk(t) && IndexSlot(t) && SlotVal(d, inodes[m], t) == c
  }

  /** Only blocks that were unused are hung into the tree, no block is released, and only index
      blocks are written: a new data block holds what that block held before. */
  ghost predicate Fresh(d: Disk, inodes: seq<Inode>, e: Disk, inodes': seq<Inode>)
    requires InodesOk(inodes) && InodesOk(inodes') && |inodes| == |inodes'|
  {
    && |e.blocks| == |d.blocks|
    && (forall c: nat {:trigger Used(e, c)} :: Used(d, c) ==> Used(e, c))
    && (forall m, t {:trigger SlotVal(e, inodes'[m], t)} ::
          0 <= m < |inodes| && SlotOk(t) && SlotVal(e, inodes'[m], t) != SlotVal(d, inodes[m], t) ==>
            !Used(d, SlotVal(e, inodes'[m], t)))
    && (forall c: nat {:trigger e.blocks[c]} :: c < |d.blocks| && e.blocks[c] != d.blocks[c] ==>
        IsIndexBlock(e, inodes', c))
  }

  /** One step of growth: exactly one null pointer of inode n became an allocated block. */
  ghost predicate Grown(d: Disk, inodes: seq<Inode>, e: Disk, inodes': seq<Inode>, n: nat, slot: Slot)
    requires InodesOk(inodes) && InodesOk(inodes') && |inodes| == |inodes'| && SlotOk(slot) && n < |inodes|
  {
    && SameShape(d, inodes, e, inodes') && KeepsData(d, inodes, e)
    && SlotVal(e, inodes'[n], slot) != 0
    && OnlySlotChanged(d, inodes, e, inodes', n, slot, SlotVal(e, inodes'[n], slot))
    && ClearBits(e) + 1 == ClearBits(d) && FreeBits(e) == Minus(FreeBits(d), 1)
    && (InData(e, SlotVal(e, inodes'[n], slot)) <==> FreeBits(d) > 0)
    && Fresh(d, inodes, e, inodes')
    && IsNth(d, SlotVal(e, inodes'[n], slot), 0) && FirstTaken(d, e, 1)
  }

  /** The store once block b is marked and, for an index block, zeroed. */
  function Prepared(d: Disk, slot: Slot, b: nat): Disk
    requires DiskOk(d) && InMap(d, b)
  {
    var d1 := d.(bmap := Mark(d.bmap, 8, b - d.dataStart));
    if IndexSlot(slot) then d1.(blocks := d1.blocks[b := ZeroBlock()]) else d1
  }

  ghost predicate SameSlots(d: Disk, e: Disk, inodes: seq<Inode>)
    requires InodesOk(inodes)
  {
    forall m, t {:trigger SlotVal(e, inodes[m], t)} {:trigger SlotVal(d, inodes[m], t)} ::
      0 <= m < |inodes| && SlotOk(t) ==> SlotVal(e, inodes[m], t) == SlotVal(d, inodes[m], t)
  }

  lemma PreparedEffect(d: Disk, inodes: seq<Inode>, owner: Owner, slot: Slot, b: nat)
    requires Sound(d, inodes, owner) && InMap(d, b) && !Used(d, b)
    ensures var e := Prepared(d, slot, b);
      && Sound(e, inodes, owner) && Used(e, b) && Unreferenced(e, inodes, b)
      && SameSlots(d, e, inodes) && KeepsData(d, inodes, e)
      && (IndexSlot(slot) ==> e.blocks[b] == ZeroBlock())
  {
    SoundAfterMark(d, inodes, owner, b);
    var d1 := d.(bmap := Mark(d.bmap, 8, b - d.dataStart));
    if IndexSlot(slot) { SoundAfterZero(d1, inodes, owner, b); }
  }

  lemma KeepsDataTrans(d: Disk, inodes: seq<Inode>, e: Disk, f: Disk)
    requires InodesOk(inodes) && KeepsData(d, inodes, e) && KeepsData(e, inodes, f) && SameSlots(d, e, inodes)
    ensures KeepsData(d, inodes, f)
  {
    forall m, t | 0 <= m < |inodes| && SlotOk(t) && IsLeaf(t) && 0 < SlotVal(d, inodes[m], t) < |d.blocks|
      ensures f.blocks[SlotVal(d, inodes[m], t)] == d.blocks[SlotVal(d, inodes[m], t)]
    {
      assert SlotVal(e, inodes[m], t) == SlotVal(d, inodes[m], t);
    }
  }

  /** Hanging the prepared block into its slot. */
  lemma HangEffect(d: Disk, inodes: seq<Inode>, owner: Owner, n: nat, slot: Slot, b: nat)
    requires Sound(d, inodes, owner) && n < |inodes| && SlotOk(slot)
    requires SlotVal(d, inodes[n], slot) == 0
    requires Indexed(slot) ==> SlotVal(d, inodes[n], Parent(slot)) != 0
    requires Used(d, b) && Unreferenced(d, inodes, b) && (IndexSlot(slot) ==> d.blocks[b] == ZeroBlock())
    ensures Indexed(slot) ==>
      var p := SlotVal(d, inodes[n], Parent(slot));
      && p < |d.blocks| && p != b
      && var e := StorePtr(d, p, Index(slot), b);
      && Sound(e, inodes, owner[b := (n, slot)]) && OnlySlotChanged(d, inodes, e, inodes, n, slot, b)
      && KeepsData(d, inodes, e)
    ensures !Indexed(slot) ==>
      var inodes' := inodes[n := WithSlot(inodes[n], slot, b)];
      && Sound(d, inodes', owner[b := (n, slot)]) && OnlySlotChanged(d, inodes, d, inodes', n, slot, b)
  {
    if Indexed(slot) {
      var p := SlotVal(d, inodes[n], Parent(slot));
      StorePtrEffect(d, inodes, owner, n, slot, b);
      StoreKeepsData(d, inodes, owner, n, slot, b);
      SoundAfterStore(d, inodes, owner, StorePtr(d, p, Index(slot), b), inodes, n, slot, b);
    } else {
      StoreInode(d, inodes, n, slot, b);
      SoundAfterStore(d, inodes, owner, d, inodes[n := WithSlot(inodes[n], slot, b)], n, slot, b);
    }
  }

  lemma FreshFrom(d: Disk, inodes: seq<Inode>, e: Disk, f: Disk, inodes': seq<Inode>, n: nat, slot: Slot, b: nat)
    requires InodesOk(inodes) && InodesOk(inodes') && |inodes| == |inodes'| && n < |inodes| && SlotOk(slot)
    requires DiskOk(d) && InMap(d, b) && !Used(d, b) && e == Prepared(d, slot, b) && SameSlots(d, e, inodes)
    requires OnlySlotChanged(e, inodes, f, inodes', n, slot, b)
    requires f.bmap == e.bmap && f.dataStart == e.dataStart && |f.blocks| == |e.blocks|
    requires forall c: nat :: c < |e.blocks| && f.blocks[c] != e.blocks[c] ==>
      Indexed(slot) && 0 != c == SlotVal(e, inodes[n], Parent(slot))
    ensures Fresh(d, inodes, f, inodes')
  {
    forall c: nat | Used(d, c) ensures Used(f, c) { TestAfterMark(d.bmap, 8, b - d.dataStart, c - d.dataStart); }
    forall m, t | 0 <= m < |inodes| && SlotOk(t)
      ensures SlotVal(f, inodes'[m], t) == if m == n && t == slot then b else SlotVal(d, inodes[m], t)
    {
      assert SlotVal(e, inodes[m], t) == SlotVal(d, inodes[m], t);
    }
    forall c: nat | c < |d.blocks| && f.blocks[c] != d.blocks[c] ensures IsIndexBlock(f, inodes', c) {
      if f.blocks[c] != e.blocks[c] {
        assert SlotVal(f, inodes'[n], Parent(slot)) == SlotVal(e, inodes[n], Parent(slot));
      } else {
        assert c == b && SlotVal(f, inodes'[n], slot) == c;
      }
    }
  }

  lemma GrownFrom(d: Disk, inodes: seq<Inode>, e: Disk, f: Disk, inodes': seq<Inode>, n: nat, slot: Slot, b: nat)
    requires InodesOk(inodes) && InodesOk(inodes') && |inodes| == |inodes'| && n < |inodes| && SlotOk(slot)
    requires DiskOk(d) && IsNth(d, b, 0) && (InData(d, b) <==> FreeBits(d) > 0)
    requires FirstTaken(d, d.(bmap := Mark(d.bmap, 8, b - d.dataStart)), 1)
    requires e == Prepared(d, slot, b) && SameSlots(d, e, inodes) && KeepsData(d, inodes, e)
    requires KeepsData(e, inodes, f) && OnlySlotChanged(e, inodes, f, inodes', n, slot, b)
    requires f.bmap == e.bmap && SameShape(e, inodes, f, inodes') && |f.blocks| == |e.blocks|
    requires forall c: nat :: c < |e.blocks| && f.blocks[c] != e.blocks[c] ==>
      Indexed(slot) && 0 != c == SlotVal(e, inodes[n], Parent(slot))
    ensures Grown(d, inodes, f, inodes', n, slot)
  {
    FreshFrom(d, inodes, e, f, inodes', n, slot, b);
    KeepsDataTrans(d, inodes, e, f);
    CountsAfterMark(d, b);
    assert SlotVal(f, inodes'[n], slot) == b;
    forall m, t | 0 <= m < |inodes| && SlotOk(t)
      ensures SlotVal(f, inodes'[m], t) == if m == n && t == slot then b else SlotVal(d, inodes[m], t)
    {
      assert SlotVal(e, inodes[m], t) == SlotVal(d, inodes[m], t);
    }
  }

  /** What hanging the first unused block into an indexed slot leaves. */
  lemma HungIndexed(d: Disk, inodes: seq<Inode>, owner: Owner, n: nat, slot: Slot, b: nat, p: nat, f: Disk)
    requires Sound(d, inodes, owner) && n < |inodes| && SlotOk(slot) && Indexed(slot)
    requires IsNth(d, b, 0) && (InData(d, b) <==> FreeBits(d) > 0)
    requires FirstTaken(d, d.(bmap := Mark(d.bmap, 8, b - d.dataStart)), 1)
    requires SlotVal(d, inodes[n], slot) == 0 && p == SlotVal(d, inodes[n], Parent(slot)) != 0
    requires p < |d.blocks| && f == StorePtr(Prepared(d, slot, b), p, Index(slot), b)
    ensures Sound(f, inodes, owner[b := (n, slot)]) && Grown(d, inodes, f, inodes, n, slot)
  {
    var e := Prepared(d, slot, b);
    PreparedEffect(d, inodes, owner, slot, b);
    assert SlotVal(e, inodes[n], slot) == SlotVal(d, inodes[n], slot);
    assert SlotVal(e, inodes[n], Parent(slot)) == p;
    HangEffect(e, inodes, owner, n, slot, b);
    GrownFrom(d, inodes, e, f, inodes, n, slot, b);
  }

  /** The same for a pointer in the inode. */
  lemma HungInode(d: Disk, inodes: seq<Inode>, owner: Owner, n: nat, slot: Slot, b: nat, e: Disk, inodes': seq<Inode>)
    requires Sound(d, inodes, owner) && n < |inodes| && SlotOk(slot) && !Indexed(slot)
    requires IsNth(d, b, 0) && (InData(d, b) <==> FreeBits(d) > 0)
    requires FirstTaken(d, d.(bmap := Mark(d.bmap, 8, b - d.dataStart)), 1)
    requires SlotVal(d, inodes[n], slot) == 0
    requires e == Prepared(d, slot, b) && inodes' == inodes[n := WithSlot(inodes[n], slot, b)]
    ensures Sound(e, inodes', owner[b := (n, slot)]) && Grown(d, inodes, e, inodes', n, slot)
  {
    PreparedEffect(d, inodes, owner, slot, b);
    assert SlotVal(e, inodes[n], slot) == SlotVal(d, inodes[n], slot);
    HangEffect(e, inodes, owner, n, slot, b);
    GrownFrom(d, inodes, e, e, inodes', n, slot, b);
  }

  lemma ParentInStore(d: Disk, inodes: seq<Inode>, owner: Owner, n: nat, slot: Slot, b: nat)
    requires Sound(d, inodes, owner) && n < |inodes| && SlotOk(slot) && Indexed(slot) && InMap(d, b) && !Used(d, b)
    requires SlotVal(d, inodes[n], Parent(slot)) != 0
    ensures SlotVal(d, inodes[n], Parent(slot)) < |d.blocks| && SlotVal(d, inodes[n], Parent(slot)) != b
    ensures SlotVal(d.(bmap := Mark(d.bmap, 8, b - d.dataStart)), inodes[n], Parent(slot)) ==
      SlotVal(d, inodes[n], Parent(slot))
  {
    assert Owned(d, owner, n, Parent(slot), SlotVal(d, inodes[n], Parent(slot)));
    SoundAfterMark(d, inodes, owner, b);
  }

  /** Store the pointer to the fresh block b, then zero b if it is to be an index block. */
  method Hang(fs: Sfs, n: nat, slot: Slot, b: nat, ghost d: Disk)
    requires Sound(d, fs.inodes, fs.owner) && n < |fs.inodes| && SlotOk(slot)
    requires InMap(d, b) && !Used(d, b) && fs.disk == d.(bmap := Mark(d.bmap, 8, b - d.dataStart))
    requires (InData(d, b) <==> FreeBits(d) > 0) && IsNth(d, b, 0) && FirstTaken(d, fs.disk, 1)
    requires SlotVal(d, fs.inodes[n], slot) == 0
    requires Indexed(slot) ==> SlotVal(d, fs.inodes[n], Parent(slot)) != 0
    modifies fs
    ensures fs.Valid() && |fs.inodes| == |old(fs.inodes)|
    ensures Grown(d, old(fs.inodes), fs.disk, fs.inodes, n, slot)
  {
    if Indexed(slot) { HangIndexed(fs, n, slot, b, d); } else { HangInode(fs, n, slot, b, d); }
  }

  method HangIndexed(fs: Sfs, n: nat, slot: Slot, b: nat, ghost d: Disk)
    requires Sound(d, fs.inodes, fs.owner) && n < |fs.inodes| && SlotOk(slot) && Indexed(slot)
    requires InMap(d, b) && !Used(d, b) && fs.disk == d.(bmap := Mark(d.bmap, 8, b - d.dataStart))
    requires (InData(d, b) <==> FreeBits(d) > 0) && IsNth(d, b, 0) && FirstTaken(d, fs.disk, 1)
    requires SlotVal(d, fs.inodes[n], slot) == 0 && SlotVal(d, fs.inodes[n], Parent(slot)) != 0
    modifies fs
    ensures fs.Valid() && fs.inodes == old(fs.inodes) && Grown(d, fs.inodes, fs.disk, fs.inodes, n, slot)
  {
    ghost var inodes, owner := fs.inodes, fs.owner;
    ParentInStore(d, inodes, owner, n, slot, b);
    var p := SlotVal(fs.disk, fs.inodes[n], Parent(slot));
    StoreAndZero(fs, p, Index(slot), b, slot.DIndPtr?);
    ghost var f := fs.disk;
    assert f == StorePtr(Prepared(d, slot, b), p, Index(slot), b);
    fs.owner := fs.owner[b := (n, slot)];
    HungIndexed(d, inodes, owner, n, slot, b, p, f);
  }

  /** Write the pointer to b into index block p, then clear b if it is an index block itself. */
  method StoreAndZero(fs: Sfs, p: nat, i: nat, b: nat, index: bool)
    requires p < |fs.disk.blocks| && b < |fs.disk.blocks| && b != p && i < PTRS && b < PTR_LIMIT
    modifies fs`disk
    ensures fs.disk == StorePtr(if index then old(fs.disk).(blocks := old(fs.disk).blocks[b := ZeroBlock()])
      else old(fs.disk), p, i, b)
  {
    StoreThenZero(fs.disk, p, i, b);
    fs.disk := StorePtr(fs.disk, p, i, b);
    if index {
      fs.disk := fs.disk.(blocks := fs.disk.blocks[b := ZeroBlock()]);
    }
  }

  /** The order of the pointer write and the zeroing does not matter. */
  lemma StoreThenZero(d: Disk, p: nat, i: nat, b: nat)
    requires p < |d.blocks| && b < |d.blocks| && b != p && i < PTRS && b < PTR_LIMIT
    ensures var e := StorePtr(d, p, i, b);
      e.(blocks := e.blocks[b := ZeroBlock()]) == StorePtr(d.(blocks := d.blocks[b := ZeroBlock()]), p, i, b)
  {
  }

  method HangInode(fs: Sfs, n: nat, slot: Slot, b: nat, ghost d: Disk)
    requires Sound(d, fs.inodes, fs.owner) && n < |fs.inodes| && SlotOk(slot) && !Indexed(slot)
    requires InMap(d, b) && !Used(d, b) && fs.disk == d.(bmap := Mark(d.bmap, 8, b - d.dataStart))
    requires (InData(d, b) <==> FreeBits(d) > 0) && IsNth(d, b, 0) && FirstTaken(d, fs.disk, 1)
    requires SlotVal(d, fs.inodes[n], slot) == 0
    modifies fs
    ensures fs.Valid() && |fs.inodes| == |old(fs.inodes)|
    ensures Grown(d, old(fs.inodes), fs.disk, fs.inodes, n, slot)
  {
    ghost var e, js := Prepared(d, slot, b), fs.inodes[n := WithSlot(fs.inodes[n], slot, b)];
    HungInode(d, fs.inodes, fs.owner, n, slot, b, e, js);
    fs.inodes := fs.inodes[n := WithSlot(fs.inodes[n], slot, b)];
    if !slot.Direct? {
      fs.disk := fs.disk.(blocks := fs.disk.blocks[b := ZeroBlock()]);
    }
    assert fs.disk == e;
    fs.owner := fs.owner[b := (n, slot)];
  }

  /** Allocate a block and hang it into `slot`. */
  method Grow(fs: Sfs, n: nat, slot: Slot) returns (ok: bool)
    requires fs.Valid() && n < |fs.inodes| && SlotOk(slot)
    requires SlotVal(fs.disk, fs.inodes[n], slot) == 0
    requires Indexed(slot) ==> SlotVal(fs.disk, fs.inodes[n], Parent(slot)) != 0
    modifies fs
    ensures fs.Valid() && |fs.inodes| == |old(fs.inodes)|
    ensures ok <==> ClearBits(old(fs.disk)) > 0
    ensures !ok ==> fs.disk == old(fs.disk) && fs.inodes == old(fs.inodes)
    ensures ok ==> Grown(old(fs.disk), old(fs.inodes), fs.disk, fs.inodes, n, slot)
  {
    ghost var d := fs.disk;
    var b := AllocBlock(fs);
    if b < 0 { return false; }
    Hang(fs, n, slot, b, d);
    return true;
  }

  // ----- sfs_inode_get_block -----

  /** The pointers consulted for a file block: the leaf and the index blocks above it. */
  predicate OnPath(fb: nat, t: Slot)
    requires fb < MAX_BLOCKS
  {
    var leaf := SlotOf(fb);
    t == leaf || (Indexed(leaf) && t == Parent(leaf)) || (leaf.DIndLeaf? && t == DInd)
  }

  function Null(d: Disk, ino: Inode, s: Slot): nat
    requires SlotOk(s) && InodeOk(ino)
  {
    if SlotVal(d, ino, s) == 0 then 1 else 0
  }

  /** How many blocks a file block still needs: its data block and missing index blocks. */
  function Missing(d: Disk, ino: Inode, fb: nat): nat
    requires fb < MAX_BLOCKS && InodeOk(ino)
  {
    var leaf := SlotOf(fb);
    Null(d, ino, leaf) + (if Indexed(leaf) then Null(d, ino, Parent(leaf)) else 0)
    + (if leaf.DIndLeaf? then Null(d, ino, DInd) else 0)
  }

  /** Every pointer that changed leads into the data area. */
  ghost predicate NewInData(d: Disk, inodes: seq<Inode>, e: Disk, inodes': seq<Inode>)
    requires InodesOk(inodes) && InodesOk(inodes') && |inodes| == |inodes'|
  {
    forall m, t {:trigger SlotVal(e, inodes'[m], t)} :: 0 <= m < |inodes| && SlotOk(t) ==>
      SlotVal(e, inodes'[m], t) == SlotVal(d, inodes[m], t) || InData(e, SlotVal(e, inodes'[m], t))
  }

  /** The counts after a number of blocks has been taken, the free ones of the data area first. */
  predicate Took(d: Disk, e: Disk, taken: nat) {
    ClearBits(e) + taken == ClearBits(d) && FreeBits(e) == Minus(FreeBits(d), taken)
  }

  /** Growth on the path of file block fb: every pointer that was set stays, only null pointers of
      the path are filled, each with one block taken; and the new pointers stay in the data area
      exactly when no more blocks were taken than it had free. */
  ghost predicate Extends(d: Disk, inodes: seq<Inode>, e: Disk, inodes': seq<Inode>, n: nat, fb: nat)
    requires InodesOk(inodes) && InodesOk(inodes') && |inodes| == |inodes'| && n < |inodes| && fb < MAX_BLOCKS
  {
    && SameShape(d, inodes, e, inodes') && KeepsData(d, inodes, e)
    && Missing(e, inodes'[n], fb) <= Missing(d, inodes[n], fb)
    && Took(d, e, Missing(d, inodes[n], fb) - Missing(e, inodes'[n], fb))
    && (NewInData(d, inodes, e, inodes') <==> Missing(d, inodes[n], fb) - Missing(e, inodes'[n], fb) <= FreeBits(d))
    && OnlyFilled(d, inodes, e, inodes', n, fb) && Fresh(d, inodes, e, inodes')
    && FirstTaken(d, e, Missing(d, inodes[n], fb) - Missing(e, inodes'[n], fb))
  }

  ghost predicate OnlyFilled(d: Disk, inodes: seq<Inode>, e: Disk, inodes': seq<Inode>, n: nat, fb: nat)
    requires InodesOk(inodes) && InodesOk(inodes') && |inodes| == |inodes'| && n < |inodes| && fb < MAX_BLOCKS
  {
    forall m, t {:trigger SlotVal(e, inodes'[m], t)} {:trigger SlotVal(d, inodes[m], t)} ::
      0 <= m < |inodes| && SlotOk(t) ==>
        var a, b := SlotVal(d, inodes[m], t), SlotVal(e, inodes'[m], t);
        (a != 0 ==> b == a) && (b != a ==> m == n && OnPath(fb, t))
  }

  lemma ExtendsRefl(d: Disk, inodes: seq<Inode>, n: nat, fb: nat)
    requires InodesOk(inodes) && n < |inodes| && fb < MAX_BLOCKS
    ensures Extends(d, inodes, d, inodes, n, fb)
  {
  }

  lemma GrownExtends(d: Disk, inodes: seq<Inode>, e: Disk, inodes': seq<Inode>, n: nat, slot: Slot, fb: nat)
    requires InodesOk(inodes) && InodesOk(inodes') && |inodes| == |inodes'| && n < |inodes|
    requires fb < MAX_BLOCKS && SlotOk(slot) && OnPath(fb, slot)
    requires SlotVal(d, inodes[n], slot) == 0 && Grown(d, inodes, e, inodes', n, slot)
    ensures Extends(d, inodes, e, inodes', n, fb)
  {
    var leaf := SlotOf(fb);
    assert SlotVal(e, inodes'[n], leaf) == if leaf == slot then SlotVal(e, inodes'[n], slot)
      else SlotVal(d, inodes[n], leaf);
    if Indexed(leaf) {
      var p := Parent(leaf);
      assert SlotVal(e, inodes'[n], p) == if p == slot then SlotVal(e, inodes'[n], slot) else SlotVal(d, inodes[n], p);
    }
    if leaf.DIndLeaf? {
      assert SlotVal(e, inodes'[n], DInd) == if DInd == slot then SlotVal(e, inodes'[n], slot)
        else SlotVal(d, inodes[n], DInd);
    }
    assert OnlyFilled(d, inodes, e, inodes', n, fb);
    assert SlotVal(e, inodes'[n], slot) != SlotVal(d, inodes[n], slot);
  }

  lemma NewInDataTrans(d: Disk, inodes: seq<Inode>, e: Disk, inodes': seq<Inode>, f: Disk, inodes'': seq<Inode>, n: nat,
                       fb: nat)
    requires InodesOk(inodes) && InodesOk(inodes') && InodesOk(inodes'')
    requires |inodes| == |inodes'| == |inodes''| && n < |inodes| && fb < MAX_BLOCKS
    requires SameShape(d, inodes, e, inodes') && SameShape(e, inodes', f, inodes'')
    requires OnlyFilled(d, inodes, e, inodes', n, fb) && OnlyFilled(e, inodes', f, inodes'', n, fb)
    ensures OnlyFilled(d, inodes, f, inodes'', n, fb)
    ensures NewInData(d, inodes, f, inodes'') <==>
      NewInData(d, inodes, e, inodes') && NewInData(e, inodes', f, inodes'')
  {
    forall m, t | 0 <= m < |inodes| && SlotOk(t)
      ensures var a, b, c := SlotVal(d, inodes[m], t), SlotVal(e, inodes'[m], t), SlotVal(f, inodes''[m], t);
        && (a != 0 ==> c == b == a) && (b != 0 ==> c == b) && (c != a ==> m == n && OnPath(fb, t))
    {
      assert SlotVal(e, inodes'[m], t) == SlotVal(e, inodes'[m], t);
    }
    if NewInData(d, inodes, f, inodes'') {
      forall m, t | 0 <= m < |inodes| && SlotOk(t)
        ensures SlotVal(e, inodes'[m], t) == SlotVal(d, inodes[m], t) || InData(e, SlotVal(e, inodes'[m], t))
      {
        assert SlotVal(f, inodes''[m], t) == SlotVal(d, inodes[m], t) || InData(f, SlotVal(f, inodes''[m], t));
      }
      forall m, t | 0 <= m < |inodes| && SlotOk(t)
        ensures SlotVal(f, inodes''[m], t) == SlotVal(e, inodes'[m], t) || InData(f, SlotVal(f, inodes''[m], t))
      {
        assert SlotVal(f, inodes''[m], t) == SlotVal(d, inodes[m], t) || InData(f, SlotVal(f, inodes''[m], t));
      }
    }
    if NewInData(d, inodes, e, inodes') && NewInData(e, inodes', f, inodes'') {
      forall m, t | 0 <= m < |inodes| && SlotOk(t)
        ensures SlotVal(f, inodes''[m], t) == SlotVal(d, inodes[m], t) || InData(f, SlotVal(f, inodes''[m], t))
      {
        assert SlotVal(e, inodes'[m], t) == SlotVal(d, inodes[m], t) || InData(e, SlotVal(e, inodes'[m], t));
      }
    }
  }

  lemma KeepsDataOver(d: Disk, inodes: seq<Inode>, e: Disk, inodes': seq<Inode>, f: Disk, n: nat, fb: nat)
    requires InodesOk(inodes) && InodesOk(inodes') && |inodes| == |inodes'| && n < |inodes| && fb < MAX_BLOCKS
    requires KeepsData(d, inodes, e) && KeepsData(e, inodes', f) && OnlyFilled(d, inodes, e, inodes', n, fb)
    ensures KeepsData(d, inodes, f)
  {
    forall m, t | 0 <= m < |inodes| && SlotOk(t) && IsLeaf(t) && 0 < SlotVal(d, inodes[m], t) < |d.blocks|
      ensures f.blocks[SlotVal(d, inodes[m], t)] == d.blocks[SlotVal(d, inodes[m], t)]
    {
      assert SlotVal(e, inodes'[m], t) == SlotVal(d, inodes[m], t);
    }
  }

  lemma ExtendsTrans(d: Disk, inodes: seq<Inode>, e: Disk, inodes': seq<Inode>, f: Disk, inodes'': seq<Inode>, n: nat,
                     fb: nat)
    requires InodesOk(inodes) && InodesOk(inodes') && InodesOk(inodes'')
    requires |inodes| == |inodes'| == |inodes''| && n < |inodes| && fb < MAX_BLOCKS
    requires Extends(d, inodes, e, inodes', n, fb) && Extends(e, inodes', f, inodes'', n, fb)
    ensures Extends(d, inodes, f, inodes'', n, fb)
  {
    NewInDataTrans(d, inodes, e, inodes', f, inodes'', n, fb);
    KeepsDataOver(d, inodes, e, inodes', f, n, fb);
    FreshTrans(d, inodes, e, inodes', f, inodes'', n, fb);
    FirstTakenTrans(d, e, f, Missing(d, inodes[n], fb) - Missing(e, inodes'[n], fb),
      Missing(e, inodes'[n], fb) - Missing(f, inodes''[n], fb));
  }

  lemma IndexStays(d: Disk, inodes: seq<Inode>, e: Disk, inodes': seq<Inode>, n: nat, fb: nat, m: nat, t: Slot, c: nat)
    requires InodesOk(inodes) && InodesOk(inodes') && |inodes| == |inodes'| && n < |inodes| && m < |inodes| &&
      fb < MAX_BLOCKS
    requires OnlyFilled(d, inodes, e, inodes', n, fb) && SlotOk(t) && IndexSlot(t) && SlotVal(d, inodes[m], t) == c != 0
    ensures IsIndexBlock(e, inodes', c)
  {
    assert SlotVal(e, inodes'[m], t) == c;
  }

  lemma FreshTrans(d: Disk, inodes: seq<Inode>, e: Disk, inodes': seq<Inode>, f: Disk, inodes'': seq<Inode>, n: nat,
                   fb: nat)
    requires InodesOk(inodes) && InodesOk(inodes') && InodesOk(inodes'')
    requires |inodes| == |inodes'| == |inodes''| && n < |inodes| && fb < MAX_BLOCKS
    requires Fresh(d, inodes, e, inodes') && Fresh(e, inodes', f, inodes'') &&
      OnlyFilled(e, inodes', f, inodes'', n, fb)
    ensures Fresh(d, inodes, f, inodes'')
  {
    forall c: nat | Used(d, c) ensures Used(f, c) { assert Used(e, c); }
    forall m, t | 0 <= m < |inodes| && SlotOk(t) && SlotVal(f, inodes''[m], t) != SlotVal(d, inodes[m], t)
      ensures !Used(d, SlotVal(f, inodes''[m], t))
    {
      var v := SlotVal(f, inodes''[m], t);
      if v == SlotVal(e, inodes'[m], t) { assert !Used(d, SlotVal(e, inodes'[m], t)); } else { assert !Used(e, v); }
    }
    forall c: nat | c < |d.blocks| && f.blocks[c] != d.blocks[c] ensures IsIndexBlock(f, inodes'', c) {
      if f.blocks[c] == e.blocks[c] {
        assert IsIndexBlock(e, inodes', c);
        var m, t :| 0 <= m < |inodes| && SlotOk(t) && IndexSlot(t) && SlotVal(e, inodes'[m], t) == c;
        IndexStays(e, inodes', f, inodes'', n, fb, m, t, c);
      }
    }
  }

  /** One level of the walk: follow the pointer, or fill it when asked to create. */
  method Ensure(fs: Sfs, n: nat, slot: Slot, create: bool, ghost fb: nat) returns (ok: bool)
    requires fs.Valid() && n < |fs.inodes| && SlotOk(slot) && fb < MAX_BLOCKS && OnPath(fb, slot)
    requires Indexed(slot) ==> SlotVal(fs.disk, fs.inodes[n], Parent(slot)) != 0
    modifies fs
    ensures fs.Valid() && |fs.inodes| == |old(fs.inodes)|
    ensures Extends(old(fs.disk), old(fs.inodes), fs.disk, fs.inodes, n, fb)
    ensures ok <==> SlotVal(fs.disk, fs.inodes[n], slot) != 0
    ensures !ok || !create ==> fs.disk == old(fs.disk) && fs.inodes == old(fs.inodes)
    ensures create && !ok ==> ClearBits(fs.disk) == 0
    ensures forall t :: SlotOk(t) && t != slot ==>
      SlotVal(fs.disk, fs.inodes[n], t) == SlotVal(old(fs.disk), old(fs.inodes)[n], t)
    ensures ok && SlotVal(old(fs.disk), old(fs.inodes)[n], slot) == 0 ==>
      && (InData(fs.disk, SlotVal(fs.disk, fs.inodes[n], slot)) <==> FreeBits(old(fs.disk)) > 0)
      && IsNth(old(fs.disk), SlotVal(fs.disk, fs.inodes[n], slot), 0)
  {
    ghost var d, inodes := fs.disk, fs.inodes;
    ExtendsRefl(d, inodes, n, fb);
    if SlotVal(fs.disk, fs.inodes[n], slot) != 0 { return true; }
    if !create { return false; }
    ok := Grow(fs, n, slot);
    if ok { GrownExtends(d, inodes, fs.disk, fs.inodes, n, slot, fb); }
  }

  /** A file block that is mapped needs nothing more; one that is not needs its data block. */
  lemma MappedNeedsNothing(d: Disk, ino: Inode, fb: nat)
    requires InodeOk(ino) && fb < MAX_BLOCKS
    ensures SlotVal(d, ino, SlotOf(fb)) != 0 <==> Missing(d, ino, fb) == 0
  {
  }

  /** The index blocks above a file block, from the top down. */
  method EnsureIndex(fs: Sfs, n: nat, leaf: Slot, create: bool, ghost fb: nat) returns (ok: bool)
    requires fs.Valid() && n < |fs.inodes| && fb < MAX_BLOCKS && leaf == SlotOf(fb) && Indexed(leaf)
    modifies fs
    ensures fs.Valid() && |fs.inodes| == |old(fs.inodes)|
    ensures Extends(old(fs.disk), old(fs.inodes), fs.disk, fs.inodes, n, fb)
    ensures ok ==> SlotVal(fs.disk, fs.inodes[n], Parent(leaf)) != 0
    ensures !ok ==> SlotVal(fs.disk, fs.inodes[n], leaf) == 0
    ensures SlotVal(old(fs.disk), old(fs.inodes)[n], leaf) == 0 ==> SlotVal(fs.disk, fs.inodes[n], leaf) == 0
    ensures !create ==> fs.disk == old(fs.disk) && fs.inodes == old(fs.inodes)
    ensures create && !ok ==> ClearBits(fs.disk) == 0
  {
    ghost var d, inodes := fs.disk, fs.inodes;
    if leaf.DIndLeaf? {
      ok := Ensure(fs, n, DInd, create, fb);
      if !ok { return; }
    } else {
      ExtendsRefl(d, inodes, n, fb);
    }
    ghost var e, js := fs.disk, fs.inodes;
    ok := Ensure(fs, n, Parent(leaf), create, fb);
    ExtendsTrans(d, inodes, e, js, fs.disk, fs.inodes, n, fb);
  }

  /** sfs_inode_get_block, for every store and every file block. With `create` it keeps the tree
      free of sharing and leaves every existing pointer of every inode as it was. It fails exactly
      when fewer bits are clear than blocks are missing. The block it returns is in the data area,
      and no pointer leads past it, exactly when the data area has the missing blocks free or
      nothing past it is. */
  method GetBlock(fs: Sfs, n: nat, fb: nat, create: bool) returns (r: int)
    requires fs.Valid() && n < |fs.inodes|
    modifies fs
    ensures fs.Valid() && |fs.inodes| == |old(fs.inodes)|
    ensures fb >= MAX_BLOCKS ==> r < 0 && fs.disk == old(fs.disk) && fs.inodes == old(fs.inodes)
    ensures fb < MAX_BLOCKS ==> Extends(old(fs.disk), old(fs.inodes), fs.disk, fs.inodes, n, fb)
    ensures fb < MAX_BLOCKS && r >= 0 ==> r == SlotVal(fs.disk, fs.inodes[n], SlotOf(fb)) && Used(fs.disk, r)
    ensures fb < MAX_BLOCKS && r < 0 ==> SlotVal(fs.disk, fs.inodes[n], SlotOf(fb)) == 0
    ensures !create ==> fs.disk == old(fs.disk) && fs.inodes == old(fs.inodes)
    ensures create && fb < MAX_BLOCKS ==>
      var m := Missing(old(fs.disk), old(fs.inodes)[n], fb);
      && (r >= 0 <==> ClearBits(old(fs.disk)) >= m)
      && Took(old(fs.disk), fs.disk, if r >= 0 then m else ClearBits(old(fs.disk)))
      && (r >= 0 && m > 0 ==> (InData(fs.disk, r) <==> FreeBits(old(fs.disk)) >= m) && IsNth(old(fs.disk), r, m - 1))
      && (Contained(fs.disk, fs.inodes) <==>
            Contained(old(fs.disk), old(fs.inodes)) && (FreeBits(old(fs.disk)) >= m || Padded(old(fs.disk))))
  {
    if fb >= MAX_BLOCKS { return -1; }
    ghost var d, inodes := fs.disk, fs.inodes;
    MappedNeedsNothing(d, inodes[n], fb);
    r := Walk(fs, n, fb, create);
    MappedNeedsNothing(fs.disk, fs.inodes[n], fb);
    if create {
      PaddedIff(d);
      ContainedIff(d, inodes, fs.disk, fs.inodes);
    }
  }

  lemma ContainedIff(d: Disk, inodes: seq<Inode>, e: Disk, inodes': seq<Inode>)
    requires InodesOk(inodes) && InodesOk(inodes') && |inodes| == |inodes'| && SameShape(d, inodes, e, inodes')
    requires forall m, t :: 0 <= m < |inodes| && SlotOk(t) && SlotVal(d, inodes[m], t) != 0 ==>
      SlotVal(e, inodes'[m], t) == SlotVal(d, inodes[m], t)
    ensures Contained(e, inodes') <==> Contained(d, inodes) && NewInData(d, inodes, e, inodes')
  {
    if Contained(e, inodes') {
      forall m, t | 0 <= m < |inodes| && SlotOk(t)
        ensures SlotVal(d, inodes[m], t) == 0 || InData(d, SlotVal(d, inodes[m], t))
      {
        assert SlotVal(e, inodes'[m], t) == 0 || InData(e, SlotVal(e, inodes'[m], t));
      }
    }
    if Contained(d, inodes) && NewInData(d, inodes, e, inodes') {
      forall m, t | 0 <= m < |inodes| && SlotOk(t)
        ensures SlotVal(e, inodes'[m], t) == 0 || InData(e, SlotVal(e, inodes'[m], t))
      {
        assert SlotVal(d, inodes[m], t) == 0 || InData(d, SlotVal(d, inodes[m], t));
      }
    }
  }

  /** The walk from the inode down to the data block. */
  method Walk(fs: Sfs, n: nat, fb: nat, create: bool) returns (r: int)
    requires fs.Valid() && n < |fs.inodes| && fb < MAX_BLOCKS
    modifies fs
    ensures fs.Valid() && |fs.inodes| == |old(fs.inodes)|
    ensures Extends(old(fs.disk), old(fs.inodes), fs.disk, fs.inodes, n, fb)
    ensures r >= 0 ==> r == SlotVal(fs.disk, fs.inodes[n], SlotOf(fb)) && r > 0 && Used(fs.disk, r)
    ensures r < 0 ==> SlotVal(fs.disk, fs.inodes[n], SlotOf(fb)) == 0 && (create ==> ClearBits(fs.disk) == 0)
    ensures !create ==> fs.disk == old(fs.disk) && fs.inodes == old(fs.inodes)
    ensures r >= 0 && SlotVal(old(fs.disk), old(fs.inodes)[n], SlotOf(fb)) == 0 ==>
      && (InData(fs.disk, r) <==> FreeBits(old(fs.disk)) >= Missing(old(fs.disk), old(fs.inodes)[n], fb))
      && IsNth(old(fs.disk), r, Missing(old(fs.disk), old(fs.inodes)[n], fb) - 1)
  {
    ghost var d, inodes := fs.disk, fs.inodes;
    var leaf := SlotOf(fb);
    var ok := true;
    if Indexed(leaf) {
      ok := EnsureIndex(fs, n, leaf, create, fb);
      if !ok { return -1; }
    } else {
      ExtendsRefl(d, inodes, n, fb);
    }
    r := WalkLeaf(fs, n, fb, create, d, inodes);
  }

  /** The last step of the walk, below index blocks that are all in place. */
  method WalkLeaf(fs: Sfs, n: nat, fb: nat, create: bool, ghost d: Disk, ghost inodes: seq<Inode>) returns (r: int)
    requires fs.Valid() && n < |fs.inodes| && fb < MAX_BLOCKS && InodesOk(inodes) && |inodes| == |fs.inodes|
    requires Extends(d, inodes, fs.disk, fs.inodes, n, fb)
    requires Indexed(SlotOf(fb)) ==> SlotVal(fs.disk, fs.inodes[n], Parent(SlotOf(fb))) != 0
    requires SlotVal(d, inodes[n], SlotOf(fb)) == 0 ==> SlotVal(fs.disk, fs.inodes[n], SlotOf(fb)) == 0
    modifies fs
    ensures fs.Valid() && |fs.inodes| == |old(fs.inodes)| && Extends(d, inodes, fs.disk, fs.inodes, n, fb)
    ensures r >= 0 ==> r == SlotVal(fs.disk, fs.inodes[n], SlotOf(fb)) && r > 0 && Used(fs.disk, r)
    ensures r < 0 ==> SlotVal(fs.disk, fs.inodes[n], SlotOf(fb)) == 0 && (create ==> ClearBits(fs.disk) == 0)
    ensures !create ==> fs.disk == old(fs.disk) && fs.inodes == old(fs.inodes)
    ensures r >= 0 && SlotVal(d, inodes[n], SlotOf(fb)) == 0 ==>
      (InData(fs.disk, r) <==> FreeBits(d) >= Missing(d, inodes[n], fb)) && IsNth(d, r, Missing(d, inodes[n], fb) - 1)
  {
    ghost var e, js, leaf := fs.disk, fs.inodes, SlotOf(fb);
    var ok := Ensure(fs, n, SlotOf(fb), create, fb);
    ExtendsTrans(d, inodes, e, js, fs.disk, fs.inodes, n, fb);
    if !ok { return -1; }
    r := SlotVal(fs.disk, fs.inodes[n], SlotOf(fb));
    assert Owned(fs.disk, fs.owner, n, leaf, SlotVal(fs.disk, fs.inodes[n], leaf));
    if SlotVal(d, inodes[n], leaf) == 0 {
      LastMissing(e, js[n], fb);
      NthBefore(d, e, Missing(d, inodes[n], fb) - 1, r, 0);
    }
  }

  /** Below a full set of index blocks only the data block is missing. */
  lemma LastMissing(d: Disk, ino: Inode, fb: nat)
    requires InodeOk(ino) && fb < MAX_BLOCKS && SlotVal(d, ino, SlotOf(fb)) == 0
    requires Indexed(SlotOf(fb)) ==> SlotVal(d, ino, Parent(SlotOf(fb))) != 0
    ensures Missing(d, ino, fb) == 1
  {
  }

  /** The past-the-end case: a formatted store leaves the bits after the data area clear, so
      once every data block is taken the scan hands out a block beyond the end, which on a
      real disk is the first sector of the journal. */
  lemma FullStoreAllocatesPastEnd()
    ensures var d := Disk(1, 1, seq(BLOCK_SIZE, i => if i == 0 then 1 else 0),
      seq(1 + 8 * BLOCK_SIZE, _ => ZeroBlock()));
      && DiskOk(d) && FreeBits(d) == 0 && !Padded(d)
      && Test(d.bmap, 8, 0) && !Test(d.bmap, 8, 1) && !InData(d, d.dataStart + 1)
  {
    var d := Disk(1, 1, seq(BLOCK_SIZE, i => if i == 0 then 1 else 0), seq(1 + 8 * BLOCK_SIZE, _ => ZeroBlock()));
    assert d.bmap[0] == 1;
    assert Test(d.bmap, 8, 0);
    assert !Bit(1, 1);
    assert 1 / 8 == 0 && 1 % 8 == 1 && !Test(d.bmap, 8, 1);
    assert CountClear(d.bmap, 1) == CountClear(d.bmap, 0);
  }
}
