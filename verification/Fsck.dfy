/** The bitmap passes of the filesystem checker: fsck_scan_inodes marks every block an
    allocated inode reaches, fsck_check_bitmap compares and repairs a bitmap, and sfs_fsck
    runs both over the block bitmap and the inode bitmap. */
module Fsck {
  import opened Bits
  import opened SfsTree

  const TYPE_FREE := 0
  const TYPE_SYMLINK := 3

  /** A volume as the checker sees it. Nothing is assumed about the pointers. */
  class Volume {
    var disk: Disk
    var inodeMap: seq<nat>
    const inodes: seq<Inode>

    constructor (d: Disk, inodeMap: seq<nat>, inodes: seq<Inode>)
      ensures disk == d && this.inodeMap == inodeMap && this.inodes == inodes
    {
      disk, this.inodeMap, this.inodes := d, inodeMap, inodes;
    }

    predicate Ok()
      reads this
    {
      && InodesOk(inodes)
      && VolumeOk(disk)
      && BitmapFits(disk.bmap, disk.totalData)
      && BitmapFits(inodeMap, |inodes|)
    }
  }

  predicate VolumeOk(d: Disk) {
    0 < d.dataStart && d.dataStart + d.totalData <= |d.blocks|
  }

  function Blocks(total: nat): nat {
    (total + BLOCK_SIZE * 8 - 1) / (BLOCK_SIZE * 8)
  }

  predicate BitmapFits(bm: seq<nat>, total: nat) {
    Blocks(total) * BLOCK_SIZE <= |bm|
  }

  /** The inodes whose blocks count: allocated in the inode bitmap and of a valid type. */
  predicate Live(inodeMap: seq<nat>, inodes: seq<Inode>, n: nat) {
    n < |inodes| && Test(inodeMap, 8, n) && 1 <= inodes[n].kind <= TYPE_SYMLINK
  }

  // ----- What the scan reaches -----

  /** Leaves under a second-level index block outside the data area are not followed. */
  predicate Scanned(d: Disk, ino: Inode, s: Slot)
    requires InodeOk(ino)
  {
    SlotOk(s) && (s.DIndLeaf? ==> InData(d, SlotVal(d, ino, DIndPtr(s.i))))
  }

  ghost predicate Reaches(d: Disk, ino: Inode, b: nat)
    requires InodeOk(ino)
  {
    exists s :: Scanned(d, ino, s) && SlotVal(d, ino, s) == b
  }

  /** Block b is reached from an allocated inode of a valid type. */
  ghost predicate Referenced(d: Disk, inodeMap: seq<nat>, inodes: seq<Inode>, b: nat)
    requires InodesOk(inodes)
  {
    exists n: nat :: Live(inodeMap, inodes, n) && Reaches(d, inodes[n], b)
  }

  /** The order in which the scan visits the slots of one inode. */
  function Rank(s: Slot): nat {
    match s
    case Direct(i) => i
    case Ind => DIRECT
    case IndPtr(i) => DIRECT + 1 + i
    case DInd => DIND_START + 1
    case DIndPtr(i) => DIND_START + 2 + (PTRS + 1) * i
    case DIndLeaf(i, j) => DIND_START + 3 + (PTRS + 1) * i + j
  }

  const RANKS := DIND_START + 2 + (PTRS + 1) * PTRS

  lemma RankInjective(s: Slot, t: Slot)
    requires SlotOk(s) && SlotOk(t) && Rank(s) == Rank(t)
    ensures s == t
  {
  }

  lemma RankBound(s: Slot)
    requires SlotOk(s)
    ensures Rank(s) < RANKS
  {
  }

  /** The walk meets the blocks of a file in their order in the file. */
  lemma WalkInFileOrder(a: nat, b: nat)
    requires a < b < MAX_BLOCKS
    ensures Rank(SlotOf(a)) < Rank(SlotOf(b))
  {
    if a >= DIND_START {
      var x, y := a - DIND_START, b - DIND_START;
      assert x == PTRS * (x / PTRS) + x % PTRS && y == PTRS * (y / PTRS) + y % PTRS;
      assert x / PTRS <= y / PTRS;
    }
  }

  ghost predicate ReachesBelow(d: Disk, ino: Inode, b: nat, k: nat)
    requires InodeOk(ino)
  {
    exists s :: Scanned(d, ino, s) && Rank(s) < k && SlotVal(d, ino, s) == b
  }

  /** The used-block bitmap after the slots of rank below k have been visited. */
  ghost predicate Visited(d: Disk, ino: Inode, was: seq<nat>, used: seq<nat>, k: nat)
    requires InodeOk(ino)
  {
    && |used| == |was|
    && forall i: nat :: i < d.totalData ==>
         (Test(used, 8, i) <==> Test(was, 8, i) || ReachesBelow(d, ino, d.dataStart + i, k))
  }

  /** Mark the block a pointer names, if it names one. */
  function MarkPtr(d: Disk, used: seq<nat>, v: nat): (r: seq<nat>)
    requires (d.totalData + 7) / 8 <= |used|
    ensures |r| == |used|
  {
    if v != 0 && InData(d, v) then Mark(used, 8, v - d.dataStart) else used
  }

  lemma VisitSlot(d: Disk, ino: Inode, was: seq<nat>, used: seq<nat>, s: Slot)
    requires InodeOk(ino) && VolumeOk(d) && (d.totalData + 7) / 8 <= |used|
    requires Scanned(d, ino, s) && Visited(d, ino, was, used, Rank(s))
    ensures Visited(d, ino, was, MarkPtr(d, used, SlotVal(d, ino, s)), Rank(s) + 1)
  {
    var v := SlotVal(d, ino, s);
    forall i: nat | i < d.totalData
      ensures Test(MarkPtr(d, used, v), 8, i) <==> Test(was, 8, i) || ReachesBelow(d, ino, d.dataStart + i, Rank(s) + 1)
    {
      var b := d.dataStart + i;
      if v != 0 && InData(d, v) { TestAfterMark(used, 8, v - d.dataStart, i); }
      if ReachesBelow(d, ino, b, Rank(s) + 1) && v != b {
        var t :| Scanned(d, ino, t) && Rank(t) < Rank(s) + 1 && SlotVal(d, ino, t) == b;
        if Rank(t) == Rank(s) { RankInjective(s, t); }
        assert ReachesBelow(d, ino, b, Rank(s));
      }
    }
  }

  /** Slots that hold no pointer, or are not followed, add nothing. */
  lemma SkipSlots(d: Disk, ino: Inode, was: seq<nat>, used: seq<nat>, k: nat, l: nat)
    requires InodeOk(ino) && VolumeOk(d) && Visited(d, ino, was, used, k) && k <= l
    requires forall s :: Scanned(d, ino, s) && k <= Rank(s) < l ==> SlotVal(d, ino, s) == 0
    ensures Visited(d, ino, was, used, l)
  {
    forall b: nat | 0 < b
      ensures ReachesBelow(d, ino, b, l) ==> ReachesBelow(d, ino, b, k)
      ensures ReachesBelow(d, ino, b, k) ==> ReachesBelow(d, ino, b, l)
    {
    }
  }

  // ----- The scan of one inode -----

  method MarkBlock(used: array<nat>, d: Disk, v: nat)
    requires (d.totalData + 7) / 8 <= used.Length
    modifies used
    ensures used[..] == MarkPtr(d, old(used[..]), v)
  {
    if v == 0 { return; }
    if v < d.dataStart || v >= d.dataStart + d.totalData { return; }
    var idx := v - d.dataStart;
    used[idx / 8] := SetBit(used[idx / 8], idx % 8);
  }

  method ScanDirect(used: array<nat>, d: Disk, ino: Inode)
    requires InodeOk(ino) && VolumeOk(d) && (d.totalData + 7) / 8 <= used.Length
    modifies used
    ensures Visited(d, ino, old(used[..]), used[..], DIRECT)
  {
    ghost var was := used[..];
    SkipSlots(d, ino, was, was, 0, 0);
    for i := 0 to DIRECT
      invariant Visited(d, ino, was, used[..], i)
    {
      VisitSlot(d, ino, was, used[..], Slot.Direct(i));
      MarkBlock(used, d, ino.direct[i]);
    }
  }

  method ScanIndirect(used: array<nat>, d: Disk, ino: Inode, ghost was: seq<nat>)
    requires InodeOk(ino) && VolumeOk(d) && (d.totalData + 7) / 8 <= used.Length
    requires Visited(d, ino, was, used[..], DIRECT)
    modifies used
    ensures Visited(d, ino, was, used[..], DIND_START + 1)
  {
    if ino.indirect == 0 {
      SkipSlots(d, ino, was, used[..], DIRECT, DIND_START + 1);
      return;
    }
    VisitSlot(d, ino, was, used[..], Slot.Ind);
    MarkBlock(used, d, ino.indirect);
    for i := 0 to PTRS
      invariant Visited(d, ino, was, used[..], DIRECT + 1 + i)
    {
      VisitSlot(d, ino, was, used[..], Slot.IndPtr(i));
      MarkBlock(used, d, PtrAt(d, ino.indirect, i));
    }
  }

  /** One second-level index block and its leaves. */
  method ScanLevel(used: array<nat>, d: Disk, ino: Inode, i: nat, ghost was: seq<nat>)
    requires InodeOk(ino) && VolumeOk(d) && (d.totalData + 7) / 8 <= used.Length && i < PTRS
    requires Visited(d, ino, was, used[..], Rank(Slot.DIndPtr(i)))
    modifies used
    ensures Visited(d, ino, was, used[..], Rank(Slot.DIndPtr(i + 1)))
  {
    var p := PtrAt(d, ino.dindirect, i);
    VisitSlot(d, ino, was, used[..], Slot.DIndPtr(i));
    MarkBlock(used, d, p);
    if !(p != 0 && InData(d, p)) {
      SkipSlots(d, ino, was, used[..], Rank(Slot.DIndPtr(i)) + 1, Rank(Slot.DIndPtr(i + 1)));
      return;
    }
    ScanLeaves(used, d, ino, i, p, was);
  }

  /** The leaves under the second-level index block p. */
  method ScanLeaves(used: array<nat>, d: Disk, ino: Inode, i: nat, p: nat, ghost was: seq<nat>)
    requires InodeOk(ino) && VolumeOk(d) && (d.totalData + 7) / 8 <= used.Length && i < PTRS
    requires p == SlotVal(d, ino, Slot.DIndPtr(i)) && p != 0 && InData(d, p)
    requires Visited(d, ino, was, used[..], Rank(Slot.DIndPtr(i)) + 1)
    modifies used
    ensures Visited(d, ino, was, used[..], Rank(Slot.DIndPtr(i + 1)))
  {
    for j := 0 to PTRS
      invariant Visited(d, ino, was, used[..], Rank(Slot.DIndLeaf(i, j)))
    {
      VisitSlot(d, ino, was, used[..], Slot.DIndLeaf(i, j));
      MarkBlock(used, d, PtrAt(d, p, j));
    }
  }

  method ScanDouble(used: array<nat>, d: Disk, ino: Inode, ghost was: seq<nat>)
    requires InodeOk(ino) && VolumeOk(d) && (d.totalData + 7) / 8 <= used.Length
    requires Visited(d, ino, was, used[..], DIND_START + 1)
    modifies used
    ensures Visited(d, ino, was, used[..], RANKS)
  {
    if ino.dindirect == 0 {
      SkipSlots(d, ino, was, used[..], DIND_START + 1, RANKS);
      return;
    }
    VisitSlot(d, ino, was, used[..], Slot.DInd);
    MarkBlock(used, d, ino.dindirect);
    for i := 0 to PTRS
      invariant Visited(d, ino, was, used[..], Rank(Slot.DIndPtr(i)))
    {
      ScanLevel(used, d, ino, i, was);
    }
  }

  /** One inode's walk marks exactly the data blocks it reaches. */
  method ScanInode(used: array<nat>, d: Disk, ino: Inode)
    requires InodeOk(ino) && VolumeOk(d) && (d.totalData + 7) / 8 <= used.Length
    modifies used
    ensures forall i: nat :: i < d.totalData ==>
      (Test(used[..], 8, i) <==> Test(old(used[..]), 8, i) || Reaches(d, ino, d.dataStart + i))
  {
    ghost var was := used[..];
    ScanDirect(used, d, ino);
    ScanIndirect(used, d, ino, was);
    ScanDouble(used, d, ino, was);
    forall b: nat ensures ReachesBelow(d, ino, b, RANKS) <==> Reaches(d, ino, b) {
      if Reaches(d, ino, b) {
        var s :| Scanned(d, ino, s) && SlotVal(d, ino, s) == b;
        RankBound(s);
        assert ReachesBelow(d, ino, b, RANKS);
      }
    }
  }

  // ----- The scan of all inodes -----

  ghost predicate ReferencedBelow(d: Disk, inodeMap: seq<nat>, inodes: seq<Inode>, b: nat, k: nat)
    requires InodesOk(inodes)
  {
    exists n: nat :: n < k && Live(inodeMap, inodes, n) && Reaches(d, inodes[n], b)
  }

  /** The rebuilt bitmaps say which blocks are referenced and which inodes are live. */
  ghost predicate Found(d: Disk, inodeMap: seq<nat>, inodes: seq<Inode>, blockUsed: seq<nat>, inodeUsed: seq<nat>)
    requires InodesOk(inodes)
  {
    && (forall i: nat :: i < d.totalData ==>
         (Test(blockUsed, 8, i) <==> Referenced(d, inodeMap, inodes, d.dataStart + i)))
    && (forall n: nat :: n < |inodes| ==> (Test(inodeUsed, 8, n) <==> Live(inodeMap, inodes, n)))
  }

  /** fsck_scan_inodes: the bitmaps that ought to be on disk. */
  method ScanInodes(d: Disk, inodeMap: seq<nat>, inodes: seq<Inode>, blockUsed: array<nat>, inodeUsed: array<nat>)
    requires InodesOk(inodes) && VolumeOk(d) && BitmapFits(inodeMap, |inodes|)
    requires blockUsed != inodeUsed
    requires blockUsed.Length == (d.totalData + 7) / 8 && inodeUsed.Length == (|inodes| + 7) / 8
    requires forall i: nat :: !Test(blockUsed[..], 8, i) && !Test(inodeUsed[..], 8, i)
    modifies blockUsed, inodeUsed
    ensures Found(d, inodeMap, inodes, blockUsed[..], inodeUsed[..])
  {
    for inum := 0 to |inodes|
      invariant forall i: nat :: i < d.totalData ==>
        (Test(blockUsed[..], 8, i) <==> ReferencedBelow(d, inodeMap, inodes, d.dataStart + i, inum))
      invariant forall n: nat :: Test(inodeUsed[..], 8, n) <==> n < inum && Live(inodeMap, inodes, n)
    {
      var free := !Test(inodeMap, 8, inum);
      if inodes[inum].kind == TYPE_FREE || free || inodes[inum].kind > TYPE_SYMLINK {
        assert !Live(inodeMap, inodes, inum);
        continue;
      }
      assert Live(inodeMap, inodes, inum);
      ghost var was := inodeUsed[..];
      inodeUsed[inum / 8] := SetBit(inodeUsed[inum / 8], inum % 8);
      assert inodeUsed[..] == Mark(was, 8, inum);
      forall n: nat ensures Test(inodeUsed[..], 8, n) == (n == inum || Test(was, 8, n)) {
        TestAfterMark(was, 8, inum, n);
      }
      ScanInode(blockUsed, d, inodes[inum]);
    }
  }

  // ----- Comparing and repairing a bitmap -----

  /** The number of entries below k on which two bitmaps disagree. */
  function Mismatches(bm: seq<nat>, should: seq<nat>, k: nat): nat {
    if k == 0 then 0
    else Mismatches(bm, should, k - 1) + if Test(bm, 8, k - 1) != Test(should, 8, k - 1) then 1 else 0
  }

  lemma {:induction false} MismatchesZeroIff(bm: seq<nat>, should: seq<nat>, k: nat)
    ensures Mismatches(bm, should, k) == 0 <==> forall i: nat :: i < k ==> Test(bm, 8, i) == Test(should, 8, i)
  {
    if k > 0 { MismatchesZeroIff(bm, should, k - 1); }
  }

  /** Bit i of the bitmap block b is bit b * 4096 + i of the bitmap. */
  lemma BlockBit(bm: seq<nat>, b: nat, i: nat)
    requires (b + 1) * BLOCK_SIZE <= |bm| && i < BLOCK_SIZE * 8
    ensures Test(bm[b * BLOCK_SIZE..(b + 1) * BLOCK_SIZE], 8, i) == Test(bm, 8, b * BLOCK_SIZE * 8 + i)
  {
    assert (b * BLOCK_SIZE * 8 + i) / 8 == b * BLOCK_SIZE + i / 8;
  }

  function Min(a: nat, b: nat): nat {
    if a < b then a else b
  }

  /** Bit i of a bitmap once the entries below k have been compared, and mended if asked. */
  predicate Wanted(was: seq<nat>, should: seq<nat>, repair: bool, k: nat, i: nat) {
    if repair && i < k then Test(should, 8, i) else Test(was, 8, i)
  }

  ghost predicate BitChecked(buf: seq<nat>, out: seq<nat>, i: nat, shouldSet: bool, repair: bool) {
    && |out| == |buf|
    && forall j: nat :: Test(out, 8, j) == if repair && j == i then shouldSet else Test(buf, 8, j)
  }

  method CheckBit(buf: seq<nat>, i: nat, shouldSet: bool, repair: bool) returns (out: seq<nat>, errors: nat)
    requires i / 8 < |buf|
    ensures BitChecked(buf, out, i, shouldSet, repair)
    ensures errors == if Test(buf, 8, i) != shouldSet then 1 else 0
    ensures !repair || errors == 0 ==> out == buf
  {
    out, errors := buf, 0;
    var diskSet := Test(buf, 8, i);
    if diskSet && !shouldSet {
      errors := 1;
      if repair { out := Unmark(buf, 8, i); }
    } else if !diskSet && shouldSet {
      errors := 1;
      if repair { out := Mark(buf, 8, i); }
    }
    forall j: nat ensures Test(out, 8, j) == if repair && j == i then shouldSet else Test(buf, 8, j) {
      TestAfterUnmark(buf, 8, i, j);
      TestAfterMark(buf, 8, i, j);
    }
  }

  ghost predicate BlockChecked(bm: seq<nat>, b: nat, buf: seq<nat>, should: seq<nat>, repair: bool, k: nat) {
    && |buf| == BLOCK_SIZE
    && forall j: nat :: j < BLOCK_SIZE * 8 ==> Test(buf, 8, j) == Wanted(bm, should, repair, k, b * BLOCK_SIZE * 8 + j)
  }

  lemma BlockStart(bm: seq<nat>, b: nat, should: seq<nat>, repair: bool)
    requires (b + 1) * BLOCK_SIZE <= |bm|
    ensures BlockChecked(bm, b, bm[b * BLOCK_SIZE..(b + 1) * BLOCK_SIZE], should, repair, b * BLOCK_SIZE * 8)
  {
    var disk := bm[b * BLOCK_SIZE..(b + 1) * BLOCK_SIZE];
    forall j: nat | j < BLOCK_SIZE * 8 ensures Test(disk, 8, j) == Test(bm, 8, b * BLOCK_SIZE * 8 + j) {
      BlockBit(bm, b, j);
    }
  }

  lemma BlockStep(bm: seq<nat>, b: nat, buf: seq<nat>, out: seq<nat>, should: seq<nat>, repair: bool, i: nat)
    requires BlockChecked(bm, b, buf, should, repair, b * BLOCK_SIZE * 8 + i)
    requires BitChecked(buf, out, i, Test(should, 8, b * BLOCK_SIZE * 8 + i), repair)
    ensures BlockChecked(bm, b, out, should, repair, b * BLOCK_SIZE * 8 + i + 1)
  {
  }

  /** The entries of bitmap block b below the total. */
  ghost predicate Counted(bm: seq<nat>, b: nat, should: seq<nat>, total: nat, i: nat, errors: nat) {
    var base := b * BLOCK_SIZE * 8;
    if base < total then base + i <= total && Mismatches(bm, should, base + i) == Mismatches(bm, should, base) + errors
    else i == 0 && errors == 0
  }

  lemma CountStep(bm: seq<nat>, b: nat, buf: seq<nat>, should: seq<nat>, repair: bool, total: nat, i: nat, errors: nat)
    requires BlockChecked(bm, b, buf, should, repair, b * BLOCK_SIZE * 8 + i)
    requires i < BLOCK_SIZE * 8 && b * BLOCK_SIZE * 8 + i < total && Counted(bm, b, should, total, i, errors)
    ensures Counted(bm, b, should, total, i + 1,
      errors + if Test(buf, 8, i) != Test(should, 8, b * BLOCK_SIZE * 8 + i) then 1 else 0)
  {
    assert Test(buf, 8, i) == Wanted(bm, should, repair, b * BLOCK_SIZE * 8 + i, b * BLOCK_SIZE * 8 + i);
  }

  lemma CountEnd(bm: seq<nat>, b: nat, should: seq<nat>, total: nat, i: nat, errors: nat)
    requires Counted(bm, b, should, total, i, errors)
    requires i == BLOCK_SIZE * 8 || b * BLOCK_SIZE * 8 + i >= total
    requires i <= BLOCK_SIZE * 8
    ensures Mismatches(bm, should, Min((b + 1) * BLOCK_SIZE * 8, total)) ==
      Mismatches(bm, should, Min(b * BLOCK_SIZE * 8, total)) + errors
  {
    if b * BLOCK_SIZE * 8 < total { assert Min((b + 1) * BLOCK_SIZE * 8, total) == b * BLOCK_SIZE * 8 + i; }
  }

  /** The pass over one bitmap block. */
  method CheckBlock(bm: seq<nat>, b: nat, total: nat, should: seq<nat>, repair: bool)
    returns (buf: seq<nat>, errors: nat)
    requires (b + 1) * BLOCK_SIZE <= |bm|
    ensures BlockChecked(bm, b, buf, should, repair, Min((b + 1) * BLOCK_SIZE * 8, total))
    ensures Mismatches(bm, should, Min((b + 1) * BLOCK_SIZE * 8, total)) ==
      Mismatches(bm, should, Min(b * BLOCK_SIZE * 8, total)) + errors
    ensures !repair || errors == 0 ==> buf == bm[b * BLOCK_SIZE..(b + 1) * BLOCK_SIZE]
  {
    var disk := bm[b * BLOCK_SIZE..(b + 1) * BLOCK_SIZE];
    var base := b * BLOCK_SIZE * 8;
    buf, errors := disk, 0;
    var i := 0;
    BlockStart(bm, b, should, repair);
    while i < BLOCK_SIZE * 8 && base + i < total
      invariant i <= BLOCK_SIZE * 8
      invariant BlockChecked(bm, b, buf, should, repair, base + i)
      invariant Counted(bm, b, should, total, i, errors)
      invariant !repair || errors == 0 ==> buf == disk
    {
      var out, e := CheckBit(buf, i, Test(should, 8, base + i), repair);
      BlockStep(bm, b, buf, out, should, repair, i);
      CountStep(bm, b, buf, should, repair, total, i, errors);
      buf, errors := out, errors + e;
      i := i + 1;
    }
    CountEnd(bm, b, should, total, i, errors);
  }

  ghost predicate Checked(bm: seq<nat>, out: seq<nat>, should: seq<nat>, repair: bool, k: nat) {
    && |out| == |bm|
    && forall i: nat :: Test(out, 8, i) == Wanted(bm, should, repair, k, i)
  }

  lemma WrittenBlock(was: seq<nat>, out: seq<nat>, bm: seq<nat>, buf: seq<nat>, b: nat, total: nat, should: seq<nat>,
                     repair: bool)
    requires (b + 1) * BLOCK_SIZE <= |bm| == |was| && |buf| == BLOCK_SIZE
    requires out == was[..b * BLOCK_SIZE] + buf + was[(b + 1) * BLOCK_SIZE..]
    requires was[b * BLOCK_SIZE..] == bm[b * BLOCK_SIZE..]
    requires Checked(bm, was, should, repair, Min(b * BLOCK_SIZE * 8, total))
    requires BlockChecked(bm, b, buf, should, repair, Min((b + 1) * BLOCK_SIZE * 8, total))
    ensures out[(b + 1) * BLOCK_SIZE..] == bm[(b + 1) * BLOCK_SIZE..]
    ensures Checked(bm, out, should, repair, Min((b + 1) * BLOCK_SIZE * 8, total))
  {
    assert out[(b + 1) * BLOCK_SIZE..] == was[(b + 1) * BLOCK_SIZE..] == was[b * BLOCK_SIZE..][BLOCK_SIZE..];
    assert bm[(b + 1) * BLOCK_SIZE..] == bm[b * BLOCK_SIZE..][BLOCK_SIZE..];
    forall i: nat
      ensures Test(out, 8, i) == Wanted(bm, should, repair, Min((b + 1) * BLOCK_SIZE * 8, total), i)
    {
      var base := b * BLOCK_SIZE * 8;
      if base <= i < base + BLOCK_SIZE * 8 {
        assert out[b * BLOCK_SIZE..(b + 1) * BLOCK_SIZE] == buf;
        BlockBit(out, b, i - base);
      } else {
        assert Test(out, 8, i) == Test(was, 8, i);
      }
    }
  }

  /** fsck_check_bitmap counts exactly the entries that differ and, when repairing, leaves
      every entry below the total as it should be and every bit above it alone. */
  method CheckBitmap(bm: seq<nat>, total: nat, should: seq<nat>, repair: bool) returns (out: seq<nat>, errors: nat)
    requires BitmapFits(bm, total)
    ensures Checked(bm, out, should, repair, total)
    ensures errors == Mismatches(bm, should, total)
    ensures !repair || errors == 0 ==> out == bm
  {
    out, errors := bm, 0;
    for b := 0 to Blocks(total)
      invariant Checked(bm, out, should, repair, Min(b * BLOCK_SIZE * 8, total))
      invariant out[b * BLOCK_SIZE..] == bm[b * BLOCK_SIZE..]
      invariant errors == Mismatches(bm, should, Min(b * BLOCK_SIZE * 8, total))
      invariant !repair || errors == 0 ==> out == bm
    {
      var buf, e := CheckBlock(bm, b, total, should, repair);
      errors := errors + e;
      out := WriteChecked(bm, out, b, buf, errors, total, should, repair);
    }
  }

  /** The checked block goes back to disk if anything was found and is to be mended. */
  method WriteChecked(bm: seq<nat>, was: seq<nat>, b: nat, buf: seq<nat>, errors: nat, total: nat, should: seq<nat>,
                      repair: bool) returns (out: seq<nat>)
    requires (b + 1) * BLOCK_SIZE <= |bm| == |was| && |buf| == BLOCK_SIZE
    requires was[b * BLOCK_SIZE..] == bm[b * BLOCK_SIZE..]
    requires Checked(bm, was, should, repair, Min(b * BLOCK_SIZE * 8, total))
    requires BlockChecked(bm, b, buf, should, repair, Min((b + 1) * BLOCK_SIZE * 8, total))
    requires !repair || errors == 0 ==> was == bm && buf == bm[b * BLOCK_SIZE..(b + 1) * BLOCK_SIZE]
    ensures |out| == |bm| && out[(b + 1) * BLOCK_SIZE..] == bm[(b + 1) * BLOCK_SIZE..]
    ensures Checked(bm, out, should, repair, Min((b + 1) * BLOCK_SIZE * 8, total))
    ensures !repair || errors == 0 ==> out == bm
  {
    out := was;
    if errors > 0 && repair {
      out := was[..b * BLOCK_SIZE] + buf + was[(b + 1) * BLOCK_SIZE..];
    } else {
      assert out == was[..b * BLOCK_SIZE] + buf + was[(b + 1) * BLOCK_SIZE..];
    }
    WrittenBlock(was, out, bm, buf, b, total, should, repair);
  }

  // ----- The two passes -----

  /** What a repairing run leaves. */
  ghost predicate Repaired(d: Disk, inodeMap: seq<nat>, d': Disk, inodeMap': seq<nat>, inodes: seq<Inode>)
    requires InodesOk(inodes)
  {
    && d' == d.(bmap := d'.bmap)
    && |d'.bmap| == |d.bmap| && |inodeMap'| == |inodeMap|
    && (forall i: nat :: i < d.totalData ==>
         (Test(d'.bmap, 8, i) <==> Referenced(d, inodeMap, inodes, d.dataStart + i)))
    && (forall i: nat :: i >= d.totalData ==> Test(d'.bmap, 8, i) == Test(d.bmap, 8, i))
    && (forall n: nat :: n < |inodes| ==> (Test(inodeMap', 8, n) <==> Live(inodeMap, inodes, n)))
    && (forall n: nat :: n >= |inodes| ==> Test(inodeMap', 8, n) == Test(inodeMap, 8, n))
  }

  /** Both bitmaps already say what the inodes say. */
  ghost predicate Clean(d: Disk, inodeMap: seq<nat>, inodes: seq<Inode>)
    requires InodesOk(inodes)
  {
    && (forall i: nat :: i < d.totalData ==>
         (Test(d.bmap, 8, i) <==> Referenced(d, inodeMap, inodes, d.dataStart + i)))
    && (forall n: nat :: n < |inodes| ==> (Test(inodeMap, 8, n) <==> Live(inodeMap, inodes, n)))
  }

  lemma ErrorsMeanUnclean(d: Disk, inodeMap: seq<nat>, inodes: seq<Inode>, blockUsed: seq<nat>, inodeUsed: seq<nat>)
    requires InodesOk(inodes) && Found(d, inodeMap, inodes, blockUsed, inodeUsed)
    ensures Mismatches(d.bmap, blockUsed, d.totalData) + Mismatches(inodeMap, inodeUsed, |inodes|) == 0 <==>
      Clean(d, inodeMap, inodes)
  {
    MismatchesZeroIff(d.bmap, blockUsed, d.totalData);
    MismatchesZeroIff(inodeMap, inodeUsed, |inodes|);
  }

  /** The bitmap passes of sfs_fsck. No error is reported exactly when the volume is clean. */
  method CheckVolume(v: Volume, repair: bool) returns (errors: nat)
    requires v.Ok()
    modifies v
    ensures v.Ok()
    ensures errors == 0 <==> Clean(old(v.disk), old(v.inodeMap), v.inodes)
    ensures repair ==> Repaired(old(v.disk), old(v.inodeMap), v.disk, v.inodeMap, v.inodes)
    ensures repair ==> Clean(v.disk, v.inodeMap, v.inodes)
    ensures !repair || errors == 0 ==> v.disk == old(v.disk) && v.inodeMap == old(v.inodeMap)
  {
    var d, m := v.disk, v.inodeMap;
    var blockUsed := new nat[(d.totalData + 7) / 8](_ => 0);
    var inodeUsed := new nat[(|v.inodes| + 7) / 8](_ => 0);
    forall i: nat ensures !Test(blockUsed[..], 8, i) && !Test(inodeUsed[..], 8, i) { ZeroHasNoBits(i % 8); }
    ScanInodes(d, m, v.inodes, blockUsed, inodeUsed);
    var bmap, e1 := CheckBitmap(d.bmap, d.totalData, blockUsed[..], repair);
    v.disk := d.(bmap := bmap);
    var newMap, e2 := CheckBitmap(m, |v.inodes|, inodeUsed[..], repair);
    v.inodeMap := newMap;
    ErrorsMeanUnclean(d, m, v.inodes, blockUsed[..], inodeUsed[..]);
    if repair { RepairedIsClean(d, m, v.disk, v.inodeMap, v.inodes); }
    return e1 + e2;
  }

  /** The pointers a walk sees do not depend on the bitmaps. */
  lemma ReachIgnoresBitmap(d: Disk, d': Disk, ino: Inode, b: nat)
    requires InodeOk(ino) && d' == d.(bmap := d'.bmap)
    ensures Reaches(d', ino, b) <==> Reaches(d, ino, b)
  {
    forall s | SlotOk(s)
      ensures SlotVal(d', ino, s) == SlotVal(d, ino, s) && Scanned(d', ino, s) == Scanned(d, ino, s)
    {
    }
  }

  /** Clearing the bits of dead inodes makes no further inode dead, so one repair is enough. */
  lemma RepairedIsClean(d: Disk, inodeMap: seq<nat>, d': Disk, inodeMap': seq<nat>, inodes: seq<Inode>)
    requires InodesOk(inodes) && Repaired(d, inodeMap, d', inodeMap', inodes)
    ensures Clean(d', inodeMap', inodes)
  {
    forall n: nat ensures Live(inodeMap', inodes, n) <==> Live(inodeMap, inodes, n) {
    }
    forall b: nat ensures Referenced(d', inodeMap', inodes, b) <==> Referenced(d, inodeMap, inodes, b) {
      forall n: nat | n < |inodes| ensures Reaches(d', inodes[n], b) <==> Reaches(d, inodes[n], b) {
        ReachIgnoresBitmap(d, d', inodes[n], b);
      }
    }
  }

  /** A repair keeps the inode bits of files (1), directories (2) and symbolic links (3), clears
      those of free inodes and of any other kind, and marks every data block a kept inode
      reaches. */
  lemma KindsKept(d: Disk, inodeMap: seq<nat>, d': Disk, inodeMap': seq<nat>, inodes: seq<Inode>, n: nat, s: Slot)
    requires InodesOk(inodes) && Repaired(d, inodeMap, d', inodeMap', inodes) && n < |inodes| && SlotOk(s)
    ensures Test(inodeMap', 8, n) <==> Test(inodeMap, 8, n) && inodes[n].kind in {1, 2, 3}
    ensures
      var b := SlotVal(d, inodes[n], s);
      Test(inodeMap', 8, n) && Scanned(d, inodes[n], s) && InData(d, b) ==> Test(d'.bmap, 8, b - d.dataStart)
  {
    var b := SlotVal(d, inodes[n], s);
    if Test(inodeMap', 8, n) && Scanned(d, inodes[n], s) && InData(d, b) {
      assert Live(inodeMap, inodes, n) && Reaches(d, inodes[n], b);
      assert Referenced(d, inodeMap, inodes, d.dataStart + (b - d.dataStart));
    }
  }

  /** A second repairing run finds nothing and changes nothing. */
  method RepairTwice(v: Volume) returns (first: nat, second: nat)
    requires v.Ok()
    modifies v
    ensures second == 0
    ensures Repaired(old(v.disk), old(v.inodeMap), v.disk, v.inodeMap, v.inodes)
  {
    first := CheckVolume(v, true);
    second := CheckVolume(v, true);
  }

  // ----- What repair restores -----

  /** Pointers in range, none shared, and none left in dead inodes: soundness without the bitmap. */
  ghost predicate Unshared(d: Disk, inodeMap: seq<nat>, inodes: seq<Inode>, owner: Owner)
    requires InodesOk(inodes)
  {
    forall n, s {:trigger SlotVal(d, inodes[n], s)} :: 0 <= n < |inodes| && SlotOk(s) ==>
      var v := SlotVal(d, inodes[n], s);
      v == 0 || (Live(inodeMap, inodes, n) && InData(d, v) && v in owner && owner[v] == (n, s))
  }

  /** Whatever the bitmap held, repair restores the filesystem's invariant on an unshared tree. */
  lemma RepairRestoresSound(d: Disk, inodeMap: seq<nat>, d': Disk, inodeMap': seq<nat>, inodes: seq<Inode>,
                            owner: Owner)
    requires InodesOk(inodes) && DiskOk(d) && Repaired(d, inodeMap, d', inodeMap', inodes)
    requires Unshared(d, inodeMap, inodes, owner)
    ensures Sound(d', inodes, owner)
  {
    forall n, s | 0 <= n < |inodes| && SlotOk(s)
      ensures Owned(d', owner, n, s, SlotVal(d', inodes[n], s))
    {
      var v := SlotVal(d, inodes[n], s);
      assert SlotVal(d', inodes[n], s) == v;
      if v != 0 {
        if s.DIndLeaf? { assert SlotVal(d, inodes[n], DIndPtr(s.i)) != 0; }
        assert Scanned(d, inodes[n], s);
        assert Reaches(d, inodes[n], v);
        assert Referenced(d, inodeMap, inodes, d.dataStart + (v - d.dataStart));
      }
    }
  }

  /** On a sound volume the checker can only find leaks: no block in use has a clear bit. */
  lemma SoundOnlyLeaks(d: Disk, inodeMap: seq<nat>, inodes: seq<Inode>, owner: Owner, i: nat)
    requires Sound(d, inodes, owner) && i < d.totalData
    requires Referenced(d, inodeMap, inodes, d.dataStart + i)
    ensures Test(d.bmap, 8, i)
  {
    var n: nat :| Live(inodeMap, inodes, n) && Reaches(d, inodes[n], d.dataStart + i);
    var s :| Scanned(d, inodes[n], s) && SlotVal(d, inodes[n], s) == d.dataStart + i;
    var b := SlotVal(d, inodes[n], s);
    assert Owned(d, owner, n, s, b);
    assert Used(d, b) && b - d.dataStart == i;
  }
}
