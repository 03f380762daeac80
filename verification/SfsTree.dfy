/** The filesystem's block map as data: a store of 512-byte blocks with an allocation
    bitmap, inodes with 12 direct, one indirect and one double-indirect pointer, and every
    pointer of a file's tree named by a slot. */
module SfsTree {
  import opened Bits

  const BLOCK_SIZE := 512
  const DIRECT := 12
  const PTRS := 128
  const DIND_START := 140
  const MAX_BLOCKS := 16524
  const PTR_LIMIT := 0x1_0000_0000

  type byte = x: int | 0 <= x < 256
  type Block = s: seq<byte> | |s| == BLOCK_SIZE witness seq(BLOCK_SIZE, _ => 0)

  function ZeroBlock(): Block {
    seq(BLOCK_SIZE, _ => 0)
  }

  /** The i-th little-endian 32-bit pointer of an index block. */
  function Ptr(b: Block, i: nat): (v: nat)
    requires i < PTRS
    ensures v < PTR_LIMIT
  {
    var b0: int, b1: int, b2: int, b3: int := b[4 * i], b[4 * i + 1], b[4 * i + 2], b[4 * i + 3];
    b0 + 0x100 * b1 + 0x1_0000 * b2 + 0x100_0000 * b3
  }

  /** The byte order of a pointer: its bits are those of its four bytes, lowest byte first. */
  lemma PtrBit(b: Block, i: nat, j: nat)
    requires i < PTRS && j < 32
    ensures Bit(Ptr(b, i), j) == Bit(b[4 * i + j / 8], j % 8)
  {
    var b0: int, b1: int, b2: int, b3: int := b[4 * i], b[4 * i + 1], b[4 * i + 2], b[4 * i + 3];
    assert Pow2(8) == 0x100;
    var r2 := b2 + 0x100 * b3;
    var r1 := b1 + 0x100 * r2;
    assert Ptr(b, i) == b0 + 0x100 * r1;
    JoinedBit(b0, r1, 8, j);
    if j >= 8 { JoinedBit(b1, r2, 8, j - 8); }
    if j >= 16 { JoinedBit(b2, b3, 8, j - 16); }
  }

  function SetPtr(b: Block, i: nat, v: nat): Block
    requires i < PTRS && v < PTR_LIMIT
  {
    b[4 * i := v % 0x100][4 * i + 1 := v / 0x100 % 0x100][4 * i + 2 := v / 0x1_0000 % 0x100]
     [4 * i + 3 := v / 0x100_0000]
  }

  /** A stored pointer reads back, and no other pointer of the block changes. */
  lemma PtrAfterSet(b: Block, i: nat, v: nat, j: nat)
    requires i < PTRS && j < PTRS && v < PTR_LIMIT
    ensures Ptr(SetPtr(b, i, v), j) == if i == j then v else Ptr(b, j)
  {
    if i == j {
      assert v == v % 0x100 + 0x100 * (v / 0x100);
      assert v / 0x100 == v / 0x100 % 0x100 + 0x100 * (v / 0x1_0000);
      assert v / 0x1_0000 == v / 0x1_0000 % 0x100 + 0x100 * (v / 0x100_0000);
    }
  }

  lemma ZeroBlockPtr(j: nat)
    requires j < PTRS
    ensures Ptr(ZeroBlock(), j) == 0
  {
  }

  datatype Inode = Inode(kind: nat, size: nat, direct: seq<nat>, indirect: nat, dindirect: nat)

  /** The block store. Block number b is tracked by bit b - dataStart of the bitmap. The bitmap
      fills whole blocks, so it also tracks blocks past the end of the data area; on a disk
      those are the journal's. */
  datatype Disk = Disk(dataStart: nat, totalData: nat, bmap: seq<nat>, blocks: seq<Block>)

  predicate DiskOk(d: Disk) {
    && 0 < d.dataStart
    && d.totalData <= 8 * |d.bmap|
    && d.dataStart + 8 * |d.bmap| <= |d.blocks| < PTR_LIMIT
    && |d.bmap| % BLOCK_SIZE == 0
  }

  predicate InData(d: Disk, b: nat) {
    d.dataStart <= b < d.dataStart + d.totalData
  }

  /** The blocks the bitmap has a bit for. */
  predicate InMap(d: Disk, b: nat) {
    d.dataStart <= b < d.dataStart + 8 * |d.bmap|
  }

  predicate Used(d: Disk, b: nat) {
    InMap(d, b) && Test(d.bmap, 8, b - d.dataStart)
  }

  // ----- Slots -----

  datatype Slot =
    | Direct(i: nat)
    | Ind
    | DInd
    | IndPtr(i: nat)
    | DIndPtr(i: nat)
    | DIndLeaf(i: nat, j: nat)

  predicate SlotOk(s: Slot) {
    match s
    case Direct(i) => i < DIRECT
    case IndPtr(i) => i < PTRS
    case DIndPtr(i) => i < PTRS
    case DIndLeaf(i, j) => i < PTRS && j < PTRS
    case _ => true
  }

  /** The slot of a file block. */
  function SlotOf(fb: nat): (s: Slot)
    requires fb < MAX_BLOCKS
    ensures SlotOk(s) && IsLeaf(s)
  {
    if fb < DIRECT then Direct(fb)
    else if fb < DIND_START then IndPtr(fb - DIRECT)
    else DIndLeaf((fb - DIND_START) / PTRS, (fb - DIND_START) % PTRS)
  }

  predicate IsLeaf(s: Slot) {
    s.Direct? || s.IndPtr? || s.DIndLeaf?
  }

  /** The file block of a leaf slot. */
  function FileBlock(s: Slot): (fb: nat)
    requires SlotOk(s) && IsLeaf(s)
  {
    match s
    case Direct(i) => i
    case IndPtr(i) => DIRECT + i
    case DIndLeaf(i, j) => DIND_START + PTRS * i + j
  }

  /** Leaf slots and file blocks are in bijection. */
  lemma SlotFileBlock(s: Slot)
    requires SlotOk(s) && IsLeaf(s)
    ensures FileBlock(s) < MAX_BLOCKS && SlotOf(FileBlock(s)) == s
  {
    if s.DIndLeaf? {
      var k := PTRS * s.i + s.j;
      assert k / PTRS == s.i && k % PTRS == s.j;
    }
  }

  lemma FileBlockSlot(fb: nat)
    requires fb < MAX_BLOCKS
    ensures FileBlock(SlotOf(fb)) == fb
  {
  }

  function PtrAt(d: Disk, b: nat, i: nat): (v: nat)
    requires i < PTRS
    ensures v < PTR_LIMIT
  {
    if 0 < b < |d.blocks| then Ptr(d.blocks[b], i) else 0
  }

  /** The pointer a slot holds; zero is the null pointer. */
  function SlotVal(d: Disk, ino: Inode, s: Slot): nat
    requires SlotOk(s) && |ino.direct| == DIRECT
  {
    match s
    case Direct(i) => ino.direct[i]
    case Ind => ino.indirect
    case DInd => ino.dindirect
    case IndPtr(i) => PtrAt(d, ino.indirect, i)
    case DIndPtr(i) => PtrAt(d, ino.dindirect, i)
    case DIndLeaf(i, j) => PtrAt(d, PtrAt(d, ino.dindirect, i), j)
  }

  /** The index block a pointer slot lives in. */
  function Parent(s: Slot): (p: Slot)
    requires SlotOk(s) && (s.IndPtr? || s.DIndPtr? || s.DIndLeaf?)
    ensures SlotOk(p)
  {
    match s
    case IndPtr(_) => Ind
    case DIndPtr(_) => DInd
    case DIndLeaf(i, _) => DIndPtr(i)
  }

  function Index(s: Slot): (i: nat)
    requires SlotOk(s) && (s.IndPtr? || s.DIndPtr? || s.DIndLeaf?)
    ensures i < PTRS
  {
    match s
    case IndPtr(i) => i
    case DIndPtr(i) => i
    case DIndLeaf(_, j) => j
  }

  // ----- No sharing -----

  predicate InodeOk(ino: Inode) {
    |ino.direct| == DIRECT
  }

  predicate InodesOk(inodes: seq<Inode>) {
    forall n :: 0 <= n < |inodes| ==> InodeOk(inodes[n])
  }

  type Owner = map<nat, (nat, Slot)>

  predicate Owned(d: Disk, owner: Owner, n: nat, s: Slot, v: nat) {
    v == 0 || (Used(d, v) && v in owner && owner[v] == (n, s))
  }

  /** Every pointer of every inode is null, or an allocated block that belongs to that pointer
      alone. */
  ghost predicate Sound(d: Disk, inodes: seq<Inode>, owner: Owner) {
    && DiskOk(d) && InodesOk(inodes)
    && forall n, s {:trigger SlotVal(d, inodes[n], s)} :: 0 <= n < |inodes| && SlotOk(s) ==>
         Owned(d, owner, n, s, SlotVal(d, inodes[n], s))
  }

  /** No pointer leads past the end of the data area. */
  ghost predicate Contained(d: Disk, inodes: seq<Inode>)
    requires InodesOk(inodes)
  {
    forall n, s {:trigger SlotVal(d, inodes[n], s)} :: 0 <= n < |inodes| && SlotOk(s) ==>
      SlotVal(d, inodes[n], s) == 0 || InData(d, SlotVal(d, inodes[n], s))
  }

  /** Soundness says no block is reachable twice: not from two inodes, not from two levels,
      not from two positions. */
  lemma NoSharing(d: Disk, inodes: seq<Inode>, owner: Owner, n: nat, s: Slot, m: nat, t: Slot)
    requires Sound(d, inodes, owner) && n < |inodes| && m < |inodes| && SlotOk(s) && SlotOk(t)
    requires SlotVal(d, inodes[n], s) == SlotVal(d, inodes[m], t) != 0
    ensures n == m && s == t
  {
    assert Owned(d, owner, n, s, SlotVal(d, inodes[n], s));
    assert Owned(d, owner, m, t, SlotVal(d, inodes[m], t));
  }

  /** A block no pointer refers to. */
  ghost predicate Unreferenced(d: Disk, inodes: seq<Inode>, b: nat)
    requires InodesOk(inodes)
  {
    forall n, s {:trigger SlotVal(d, inodes[n], s)} :: 0 <= n < |inodes| && SlotOk(s) ==> SlotVal(d, inodes[n], s) != b
  }

  lemma ClearMeansUnreferenced(d: Disk, inodes: seq<Inode>, owner: Owner, b: nat)
    requires Sound(d, inodes, owner) && b != 0 && !Used(d, b)
    ensures Unreferenced(d, inodes, b)
  {
    forall n, s | 0 <= n < |inodes| && SlotOk(s) ensures SlotVal(d, inodes[n], s) != b {
      assert Owned(d, owner, n, s, SlotVal(d, inodes[n], s));
    }
  }

  /** Writing a block that no pointer refers to changes no pointer. */
  lemma WriteUnreferenced(d: Disk, inodes: seq<Inode>, b: nat, data: Block)
    requires InodesOk(inodes) && Unreferenced(d, inodes, b) && b < |d.blocks|
    ensures forall n, s :: 0 <= n < |inodes| && SlotOk(s) ==>
      SlotVal(d.(blocks := d.blocks[b := data]), inodes[n], s) == SlotVal(d, inodes[n], s)
  {
    var e := d.(blocks := d.blocks[b := data]);
    forall n, s | 0 <= n < |inodes| && SlotOk(s) ensures SlotVal(e, inodes[n], s) == SlotVal(d, inodes[n], s) {
      assert SlotVal(d, inodes[n], Ind) != b && SlotVal(d, inodes[n], DInd) != b;
      if s.DIndLeaf? { assert SlotVal(d, inodes[n], DIndPtr(s.i)) != b; }
    }
  }

  /** Writing a data block changes no pointer. */
  lemma WriteLeaf(d: Disk, inodes: seq<Inode>, owner: Owner, n: nat, s: Slot, data: Block)
    requires Sound(d, inodes, owner) && n < |inodes| && SlotOk(s) && IsLeaf(s)
    requires SlotVal(d, inodes[n], s) != 0
    ensures var b := SlotVal(d, inodes[n], s);
      && b < |d.blocks|
      && forall m, t :: 0 <= m < |inodes| && SlotOk(t) ==>
        SlotVal(d.(blocks := d.blocks[b := data]), inodes[m], t) == SlotVal(d, inodes[m], t)
  {
    var b := SlotVal(d, inodes[n], s);
    assert Owned(d, owner, n, s, b);
    var e := d.(blocks := d.blocks[b := data]);
    forall m, t | 0 <= m < |inodes| && SlotOk(t) ensures SlotVal(e, inodes[m], t) == SlotVal(d, inodes[m], t) {
      assert Owned(d, owner, m, Ind, SlotVal(d, inodes[m], Ind));
      assert Owned(d, owner, m, DInd, SlotVal(d, inodes[m], DInd));
      if t.DIndLeaf? { assert Owned(d, owner, m, DIndPtr(t.i), SlotVal(d, inodes[m], DIndPtr(t.i))); }
    }
  }

  /** What storing pointer v into slot `slot` of inode n does to every slot of every inode. */
  ghost predicate OnlySlotChanged(d: Disk, inodes: seq<Inode>, e: Disk, inodes': seq<Inode>, n: nat, slot: Slot, v: nat)
    requires InodesOk(inodes) && InodesOk(inodes') && |inodes| == |inodes'|
  {
    forall m, t {:trigger SlotVal(e, inodes'[m], t)} {:trigger SlotVal(d, inodes[m], t)} ::
      0 <= m < |inodes| && SlotOk(t) ==>
      SlotVal(e, inodes'[m], t) == if m == n && t == slot then v else SlotVal(d, inodes[m], t)
  }

  predicate Indexed(s: Slot) {
    s.IndPtr? || s.DIndPtr? || s.DIndLeaf?
  }

  /** The store with pointer v written into an index block. */
  function StorePtr(d: Disk, p: nat, i: nat, v: nat): Disk
    requires p < |d.blocks| && i < PTRS && v < PTR_LIMIT
  {
    d.(blocks := d.blocks[p := SetPtr(d.blocks[p], i, v)])
  }

  lemma PtrAtAfterStore(d: Disk, p: nat, i: nat, v: nat, b: nat, j: nat)
    requires 0 < p < |d.blocks| && i < PTRS && v < PTR_LIMIT && j < PTRS
    ensures PtrAt(StorePtr(d, p, i, v), b, j) == if b == p && j == i then v else PtrAt(d, b, j)
  {
    PtrAfterSet(d.blocks[p], i, v, j);
  }

  /** Hanging an unreferenced block into an empty pointer of an index block. A block that will
      itself be an index block must read as all null pointers. */
  lemma StorePtrEffect(d: Disk, inodes: seq<Inode>, owner: Owner, n: nat, slot: Slot, v: nat)
    requires Sound(d, inodes, owner) && n < |inodes| && SlotOk(slot) && Indexed(slot)
    requires SlotVal(d, inodes[n], Parent(slot)) != 0 && SlotVal(d, inodes[n], slot) == 0
    requires 0 < v < |d.blocks| && Unreferenced(d, inodes, v)
    requires slot.DIndPtr? ==> d.blocks[v] == ZeroBlock()
    ensures var p := SlotVal(d, inodes[n], Parent(slot));
      p < |d.blocks| && p != v && OnlySlotChanged(d, inodes, StorePtr(d, p, Index(slot), v), inodes, n, slot, v)
  {
    var p := SlotVal(d, inodes[n], Parent(slot));
    assert Owned(d, owner, n, Parent(slot), p);
    var e := StorePtr(d, p, Index(slot), v);
    forall m, t | 0 <= m < |inodes| && SlotOk(t)
      ensures SlotVal(e, inodes[m], t) == if m == n && t == slot then v else SlotVal(d, inodes[m], t)
    {
      if Indexed(t) {
        var q := SlotVal(d, inodes[m], Parent(t));
        assert Owned(d, owner, m, Parent(t), q);
        PtrAtAfterStore(d, p, Index(slot), v, q, Index(t));
        if t.DIndLeaf? {
          assert Owned(d, owner, m, DInd, SlotVal(d, inodes[m], DInd));
          PtrAtAfterStore(d, p, Index(slot), v, inodes[m].dindirect, t.i);
          PtrAtAfterStore(d, p, Index(slot), v, v, t.j);
          ZeroBlockPtr(t.j);
        }
      }
    }
  }

  /** Hanging an unreferenced block into an empty pointer of the inode itself. */
  function WithSlot(ino: Inode, slot: Slot, v: nat): Inode
    requires InodeOk(ino) && SlotOk(slot) && (slot.Direct? || slot.Ind? || slot.DInd?)
  {
    match slot
    case Direct(i) => ino.(direct := ino.direct[i := v])
    case Ind => ino.(indirect := v)
    case DInd => ino.(dindirect := v)
  }

  lemma StoreInode(d: Disk, inodes: seq<Inode>, n: nat, slot: Slot, v: nat)
    requires InodesOk(inodes) && n < |inodes| && SlotOk(slot)
    requires slot.Direct? || slot.Ind? || slot.DInd?
    requires SlotVal(d, inodes[n], slot) == 0 && 0 < v < |d.blocks|
    requires !slot.Direct? ==> d.blocks[v] == ZeroBlock()
    ensures InodesOk(inodes[n := WithSlot(inodes[n], slot, v)])
    ensures OnlySlotChanged(d, inodes, d, inodes[n := WithSlot(inodes[n], slot, v)], n, slot, v)
  {
    var inodes' := inodes[n := WithSlot(inodes[n], slot, v)];
    forall m, t | 0 <= m < |inodes| && SlotOk(t)
      ensures SlotVal(d, inodes'[m], t) == if m == n && t == slot then v else SlotVal(d, inodes[m], t)
    {
      if t.IndPtr? || t.DIndPtr? {
        ZeroBlockPtr(t.i);
      } else if t.DIndLeaf? {
        ZeroBlockPtr(t.i);
      }
    }
  }

  /** Soundness after one pointer has been filled with a block whose bit is set. */
  lemma SoundAfterStore(d: Disk, inodes: seq<Inode>, owner: Owner, e: Disk, inodes': seq<Inode>, n: nat, slot: Slot,
                        v: nat)
    requires Sound(d, inodes, owner) && n < |inodes| && SlotOk(slot)
    requires |inodes'| == |inodes| && InodesOk(inodes') && DiskOk(e)
    requires e.bmap == d.bmap && e.dataStart == d.dataStart && e.totalData == d.totalData
    requires OnlySlotChanged(d, inodes, e, inodes', n, slot, v)
    requires Unreferenced(d, inodes, v) && Used(d, v)
    ensures Sound(e, inodes', owner[v := (n, slot)])
  {
    forall m, t | 0 <= m < |inodes'| && SlotOk(t)
      ensures Owned(e, owner[v := (n, slot)], m, t, SlotVal(e, inodes'[m], t))
    {
      assert SlotVal(d, inodes[m], t) != v;
      assert Owned(d, owner, m, t, SlotVal(d, inodes[m], t));
    }
  }
}
