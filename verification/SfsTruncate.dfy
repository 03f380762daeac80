/** sfs_vfs_truncate: cutting a file's three-level block tree at a new end, freeing exactly
    what is no longer referenced. */
module SfsTruncate {
  import opened Bits
  import opened SfsTree
  import opened SfsAlloc
  import opened SfsFile

  /** The bitmap bits of exactly the blocks in `gone` have been cleared. */
  ghost predicate Cleared(d: Disk, e: Disk, gone: set<nat>) {
    && e.dataStart == d.dataStart && e.totalData == d.totalData && |e.bmap| == |d.bmap|
    && forall i: nat {:trigger Test(e.bmap, 8, i)} ::
      Test(e.bmap, 8, i) == (Test(d.bmap, 8, i) && d.dataStart + i !in gone)
  }

  lemma ClearedStep(d: Disk, e: Disk, gone: set<nat>, b: nat)
    requires DiskOk(e) && Cleared(d, e, gone) && InMap(e, b)
    ensures Cleared(d, e.(bmap := Unmark(e.bmap, 8, b - e.dataStart)), gone + {b})
  {
    var f := e.(bmap := Unmark(e.bmap, 8, b - e.dataStart));
    forall i: nat ensures Test(f.bmap, 8, i) == (Test(d.bmap, 8, i) && d.dataStart + i !in gone + {b}) {
      TestAfterUnmark(e.bmap, 8, b - e.dataStart, i);
    }
  }

  lemma ClearedTrans(d: Disk, e: Disk, f: Disk, g: set<nat>, h: set<nat>)
    requires Cleared(d, e, g) && Cleared(e, f, h)
    ensures Cleared(d, f, g + h)
  {
    forall i: nat ensures Test(f.bmap, 8, i) == (Test(d.bmap, 8, i) && d.dataStart + i !in g + h) {
      assert Test(e.bmap, 8, i) == (Test(d.bmap, 8, i) && d.dataStart + i !in g);
    }
  }

  /** The blocks an index block points to from position k on. */
  function TailPtrs(b: Block, k: nat): set<nat> {
    set j | k <= j < PTRS && Ptr(b, j) != 0 :: Ptr(b, j)
  }

  predicate PtrsInMap(d: Disk, b: Block) {
    forall j :: 0 <= j < PTRS ==> Ptr(b, j) == 0 || InMap(d, Ptr(b, j))
  }

  /** `c` is `b` with every pointer from position k on nulled. */
  predicate IsCut(c: Block, b: Block, k: nat) {
    forall j :: 0 <= j < PTRS ==> Ptr(c, j) == if j < k then Ptr(b, j) else 0
  }

  predicate HeadEmpty(b: Block, k: nat) {
    forall j :: 0 <= j < k && j < PTRS ==> Ptr(b, j) == 0
  }

  /** An index block cut at position k is dropped: nothing before the cut is its business, or
      something was freed and nothing is left. */
  ghost predicate Goes(b: Block, k: nat) {
    k == 0 || (TailPtrs(b, k) != {} && HeadEmpty(b, k))
  }

  function Clamp(nb: nat, start: nat): nat {
    if nb <= start then 0 else if nb - start >= PTRS then PTRS else nb - start
  }

  /** The pointers from k up to i. */
  function TailUpTo(b: Block, k: nat, i: nat): set<nat>
    requires i <= PTRS
  {
    set j | k <= j < i && Ptr(b, j) != 0 :: Ptr(b, j)
  }

  lemma TailNext(b: Block, k: nat, i: nat)
    requires i < PTRS
    ensures TailUpTo(b, k, i + 1) == TailUpTo(b, k, i) + if k <= i && Ptr(b, i) != 0 then {Ptr(b, i)} else {}
  {
  }

  /** The pointers from k up to i have been cleared. */
  ghost predicate CutUpTo(out: Block, buf: Block, k: nat, i: nat) {
    forall j :: 0 <= j < PTRS ==> Ptr(out, j) == if j < k || j >= i then Ptr(buf, j) else 0
  }

  lemma CutNext(out: Block, buf: Block, k: nat, i: nat)
    requires k <= i < PTRS && CutUpTo(out, buf, k, i)
    ensures CutUpTo(SetPtr(out, i, 0), buf, k, i + 1)
  {
    forall j | 0 <= j < PTRS ensures Ptr(SetPtr(out, i, 0), j) == if j < k || j >= i + 1 then Ptr(buf, j) else 0 {
      PtrAfterSet(out, i, 0, j);
    }
  }

  /** Free one block and null its pointer. */
  method CutEntry(fs: Sfs, block: Block, i: nat, ghost buf: Block, ghost k: nat, ghost d: Disk,
                  ghost gone: set<nat>) returns (out: Block)
    requires DiskOk(fs.disk) && k <= i < PTRS && CutUpTo(block, buf, k, i) && Ptr(buf, i) != 0 &&
      InMap(fs.disk, Ptr(buf, i))
    requires fs.disk.blocks == d.blocks && Cleared(d, fs.disk, gone)
    modifies fs`disk
    ensures DiskOk(fs.disk) && fs.disk.blocks == d.blocks && Cleared(d, fs.disk, gone + {Ptr(buf, i)})
    ensures CutUpTo(out, buf, k, i + 1)
  {
    var v := Ptr(block, i);
    ClearedStep(d, fs.disk, gone, v);
    FreeBlock(fs, v);
    CutNext(block, buf, k, i);
    out := SetPtr(block, i, 0);
  }

  /** The pointer loop shared by every level: free and null what lies from position k on,
      count what is kept and what is freed. */
  method CutIndex(fs: Sfs, buf: Block, k: nat) returns (out: Block, kept: nat, freed: nat)
    requires DiskOk(fs.disk) && PtrsInMap(fs.disk, buf)
    modifies fs`disk
    ensures DiskOk(fs.disk) && fs.disk.blocks == old(fs.disk).blocks
    ensures Cleared(old(fs.disk), fs.disk, TailPtrs(buf, k))
    ensures IsCut(out, buf, k)
    ensures kept == 0 <==> HeadEmpty(buf, k)
    ensures freed == 0 <==> TailPtrs(buf, k) == {}
    ensures freed == 0 ==> out == buf
  {
    ghost var d := fs.disk;
    out, kept, freed := buf, 0, 0;
    ghost var gone := TailUpTo(buf, k, 0);
    for i := 0 to PTRS
      invariant DiskOk(fs.disk) && fs.disk.blocks == d.blocks && Cleared(d, fs.disk, gone)
      invariant gone == TailUpTo(buf, k, i)
      invariant CutUpTo(out, buf, k, i)
      invariant kept == 0 <==> forall j :: 0 <= j < k && j < i ==> Ptr(buf, j) == 0
      invariant freed == 0 <==> gone == {}
      invariant freed == 0 ==> out == buf
    {
      TailNext(buf, k, i);
      var v := Ptr(buf, i);
      if v != 0 {
        if i < k {
          kept := kept + 1;
        } else {
          out := CutEntry(fs, out, i, buf, k, d, gone);
          gone := gone + {v};
          freed := freed + 1;
        }
      }
    }
  }

  /** sfs_free_indirect_chain */
  method FreeChain(fs: Sfs, b: nat)
    requires DiskOk(fs.disk) && InMap(fs.disk, b) && PtrsInMap(fs.disk, fs.disk.blocks[b])
    modifies fs`disk
    ensures DiskOk(fs.disk) && fs.disk.blocks == old(fs.disk).blocks
    ensures Cleared(old(fs.disk), fs.disk, TailPtrs(fs.disk.blocks[b], 0) + {b})
  {
    ghost var d := fs.disk;
    var _, _, _ := CutIndex(fs, fs.disk.blocks[b], 0);
    ClearedStep(d, fs.disk, TailPtrs(d.blocks[b], 0), b);
    FreeBlock(fs, b);
  }

  // ----- One index block -----

  function LevelGone(d: Disk, b: nat, x: nat, k: nat): set<nat>
    requires b < |d.blocks|
  {
    TailPtrs(d.blocks[b], k) + if x == 0 then {b} else {}
  }

  /** Index block b has been cut at position k; x is what now stands for it, b or null. */
  ghost predicate LevelCut(d: Disk, e: Disk, b: nat, x: nat, k: nat) {
    && InMap(d, b) && b < |d.blocks| && |e.blocks| == |d.blocks| && (x == b || x == 0)
    && (forall c :: 0 <= c < |d.blocks| && c != b ==> e.blocks[c] == d.blocks[c])
    && (x != 0 ==> IsCut(e.blocks[b], d.blocks[b], k))
    && (x == 0 <==> Goes(d.blocks[b], k))
    && Cleared(d, e, LevelGone(d, b, x, k))
  }

  lemma CutAtEnd(b: Block)
    ensures TailPtrs(b, PTRS) == {} && IsCut(b, b, PTRS)
  {
  }

  lemma NoTailMeansCut(b: Block, k: nat)
    requires TailPtrs(b, k) == {}
    ensures IsCut(b, b, k)
  {
    forall j | k <= j < PTRS ensures Ptr(b, j) == 0 {
      var v := Ptr(b, j);
      assert v != 0 <==> v in TailPtrs(b, k);
    }
  }

  lemma ClearedNone(d: Disk)
    ensures Cleared(d, d, {})
  {
  }

  /** Cut the index block b, whose first pointer serves file block `start`, at file block nb. */
  method CutLevel(fs: Sfs, b: nat, nb: nat, start: nat) returns (x: nat, changed: bool)
    requires DiskOk(fs.disk) && InMap(fs.disk, b) && PtrsInMap(fs.disk, fs.disk.blocks[b])
    modifies fs`disk
    ensures DiskOk(fs.disk) && LevelCut(old(fs.disk), fs.disk, b, x, Clamp(nb, start))
    ensures !changed ==> x == b
  {
    ghost var d := fs.disk;
    ghost var k := Clamp(nb, start);
    if nb >= start + PTRS {
      CutAtEnd(d.blocks[b]);
      ClearedNone(d);
      return b, false;
    }
    if nb <= start {
      FreeChain(fs, b);
      return 0, true;
    }
    var out, kept, freed := CutIndex(fs, fs.disk.blocks[b], nb - start);
    if freed == 0 {
      NoTailMeansCut(d.blocks[b], k);
      return b, false;
    }
    if kept == 0 {
      ClearedStep(d, fs.disk, TailPtrs(d.blocks[b], k), b);
      FreeBlock(fs, b);
      return 0, true;
    }
    fs.disk := fs.disk.(blocks := fs.disk.blocks[b := out]);
    return b, true;
  }

  // ----- The double-indirect level -----

  function StartOf(i: nat): nat {
    DIND_START + PTRS * i
  }

  /** The pointers of the double-indirect block name distinct index blocks, none of them itself. */
  ghost predicate Distinct(d: Disk, dind: nat)
    requires dind < |d.blocks|
  {
    && (forall i, j :: 0 <= i < j < PTRS && Ptr(d.blocks[dind], i) != 0 ==>
        Ptr(d.blocks[dind], i) != Ptr(d.blocks[dind], j))
    && (forall i :: 0 <= i < PTRS ==> Ptr(d.blocks[dind], i) != dind)
    && (forall i :: 0 <= i < PTRS && Ptr(d.blocks[dind], i) != 0 ==>
          InMap(d, Ptr(d.blocks[dind], i)) && Ptr(d.blocks[dind], i) < |d.blocks|
          && PtrsInMap(d, d.blocks[Ptr(d.blocks[dind], i)]))
  }

  /** What is freed below the first |xs| pointers of the double-indirect block, when xs stand for them now. */
  function DoubleGone(d: Disk, root: Block, xs: seq<nat>, nb: nat): set<nat>
    requires |xs| <= PTRS
  {
    if xs == [] then {}
    else
      var i := |xs| - 1;
      var q := Ptr(root, i);
      DoubleGone(d, root, xs[..i], nb)
      + if 0 < q < |d.blocks| then LevelGone(d, q, xs[i], Clamp(nb, StartOf(i))) else {}
  }

  /** Entry i of the double-indirect block has been dealt with; x stands for it now. */
  ghost predicate EntryCut(d: Disk, e: Disk, q: nat, x: nat, k: nat) {
    && |e.blocks| == |d.blocks|
    && (q == 0 ==> x == 0)
    && (0 < q < |d.blocks| ==>
      && (x == q || x == 0)
      && (x != 0 ==> IsCut(e.blocks[q], d.blocks[q], k))
      && (x == 0 <==> Goes(d.blocks[q], k)))
  }

  ghost predicate PartlyCut(d: Disk, e: Disk, dind: nat, xs: seq<nat>, nb: nat)
    requires dind < |d.blocks| && |xs| <= PTRS
  {
    var root := d.blocks[dind];
    && |e.blocks| == |d.blocks|
    && (forall i :: 0 <= i < |xs| ==> EntryCut(d, e, Ptr(root, i), xs[i], Clamp(nb, StartOf(i))))
    && (forall i {:trigger Ptr(root, i)} :: |xs| <= i < PTRS && Ptr(root, i) < |d.blocks| ==>
          e.blocks[Ptr(root, i)] == d.blocks[Ptr(root, i)])
    && (forall c {:trigger e.blocks[c]} :: 0 <= c < |d.blocks| && (forall i :: 0 <= i < PTRS ==> Ptr(root, i) != c) ==>
          e.blocks[c] == d.blocks[c])
    && Cleared(d, e, DoubleGone(d, root, xs, nb))
  }

  lemma LevelCutFrom(d: Disk, e: Disk, f: Disk, q: nat, x: nat, k: nat)
    requires q < |d.blocks| && |e.blocks| == |d.blocks| && e.blocks[q] == d.blocks[q]
    requires LevelCut(e, f, q, x, k)
    ensures LevelGone(e, q, x, k) == LevelGone(d, q, x, k) && EntryCut(d, f, q, x, k)
  {
  }

  /** Dealing with one more entry. */
  lemma PartlyCutStep(d: Disk, e: Disk, f: Disk, dind: nat, xs: seq<nat>, nb: nat, x: nat)
    requires DiskOk(d) && dind < |d.blocks| && Distinct(d, dind) && |xs| < PTRS
    requires PartlyCut(d, e, dind, xs, nb)
    requires var q := Ptr(d.blocks[dind], |xs|);
      if q == 0 then f == e && x == 0 else LevelCut(e, f, q, x, Clamp(nb, StartOf(|xs|)))
    ensures PartlyCut(d, f, dind, xs + [x], nb)
  {
    var root, n := d.blocks[dind], |xs|;
    var q, k := Ptr(root, n), Clamp(nb, StartOf(n));
    var ys := xs + [x];
    assert ys[..n] == xs;
    if q != 0 {
      LevelCutFrom(d, e, f, q, x, k);
      ClearedTrans(d, e, f, DoubleGone(d, root, xs, nb), LevelGone(d, q, x, k));
    } else {
      assert DoubleGone(d, root, ys, nb) == DoubleGone(d, root, xs, nb) + {};
    }
    forall i | 0 <= i < |ys| ensures EntryCut(d, f, Ptr(root, i), ys[i], Clamp(nb, StartOf(i))) {
      if i < n {
        assert EntryCut(d, e, Ptr(root, i), xs[i], Clamp(nb, StartOf(i)));
        assert Ptr(root, i) != 0 ==> Ptr(root, i) != q;
      }
    }
    forall i | |ys| <= i < PTRS && Ptr(root, i) < |d.blocks|
      ensures f.blocks[Ptr(root, i)] == d.blocks[Ptr(root, i)]
    {
      assert q != 0 ==> q != Ptr(root, i);
      assert e.blocks[Ptr(root, i)] == d.blocks[Ptr(root, i)];
    }
    forall c | 0 <= c < |d.blocks| && (forall i :: 0 <= i < PTRS ==> Ptr(root, i) != c)
      ensures f.blocks[c] == d.blocks[c]
    {
      assert Ptr(root, n) != c;
      assert e.blocks[c] == d.blocks[c];
    }
  }

  lemma PartlyCutStart(d: Disk, dind: nat, nb: nat)
    requires dind < |d.blocks|
    ensures PartlyCut(d, d, dind, [], nb)
  {
    ClearedNone(d);
  }

  predicate AllNull(xs: seq<nat>) {
    forall i :: 0 <= i < |xs| ==> xs[i] == 0
  }

  /** The double-indirect block is dropped: the cut is before it, or it had pointers and xs, which
      stand for them now, are all null. */
  ghost predicate RootGoes(root: Block, xs: seq<nat>, nb: nat) {
    nb <= DIND_START || (!HeadEmpty(root, PTRS) && AllNull(xs))
  }

  /** The whole double-indirect tree has been cut; x stands for its root, xs for the root's pointers. */
  ghost predicate DoubleCut(d: Disk, e: Disk, dind: nat, x: nat, xs: seq<nat>, nb: nat) {
    && dind < |d.blocks| && |xs| == PTRS && |e.blocks| == |d.blocks| && (x == dind || x == 0)
    && var root := d.blocks[dind];
    && (forall i :: 0 <= i < PTRS ==> EntryCut(d, e, Ptr(root, i), xs[i], Clamp(nb, StartOf(i))))
    && (forall c {:trigger e.blocks[c]} ::
          0 <= c < |d.blocks| && c != dind && (forall i :: 0 <= i < PTRS ==> Ptr(root, i) != c) ==>
            e.blocks[c] == d.blocks[c])
    && (x != 0 ==> forall i :: 0 <= i < PTRS ==> Ptr(e.blocks[dind], i) == xs[i])
    && (x == 0 <==> RootGoes(root, xs, nb)) && (x == 0 ==> AllNull(xs))
    && Cleared(d, e, DoubleGone(d, root, xs, nb) + if x == 0 then {dind} else {})
  }

  /** Nothing of the tree is kept: free every chain, then the root. */
  method CutDoubleAll(fs: Sfs, dind: nat, nb: nat) returns (ghost xs: seq<nat>)
    requires DiskOk(fs.disk) && InMap(fs.disk, dind) && Distinct(fs.disk, dind) && nb <= DIND_START
    modifies fs`disk
    ensures DiskOk(fs.disk) && DoubleCut(old(fs.disk), fs.disk, dind, 0, xs, nb)
  {
    ghost var d := fs.disk;
    var root := fs.disk.blocks[dind];
    xs := [];
    PartlyCutStart(d, dind, nb);
    for i := 0 to PTRS
      invariant DiskOk(fs.disk) && |xs| == i && PartlyCut(d, fs.disk, dind, xs, nb)
      invariant fs.disk.dataStart == d.dataStart && fs.disk.totalData == d.totalData
      invariant forall j :: 0 <= j < i ==> xs[j] == 0
    {
      ghost var e := fs.disk;
      var q := Ptr(root, i);
      if q != 0 {
        assert e.blocks[q] == d.blocks[q];
        FreeChain(fs, q);
        assert LevelCut(e, fs.disk, q, 0, Clamp(nb, StartOf(i)));
      }
      PartlyCutStep(d, e, fs.disk, dind, xs, nb, 0);
      xs := xs + [0];
    }
    ClearedStep(d, fs.disk, DoubleGone(d, root, xs, nb), dind);
    FreeBlock(fs, dind);
  }

  /** Write the rebuilt root back, or free it when nothing hangs from it any more. */
  method StoreRoot(fs: Sfs, dind: nat, dibuf: Block, ghost d: Disk, ghost xs: seq<nat>, ghost nb: nat) returns (x: nat)
    requires DiskOk(d) && DiskOk(fs.disk) && InMap(fs.disk, dind) && |xs| == PTRS
    requires dind < |d.blocks| && PartlyCut(d, fs.disk, dind, xs, nb) && Distinct(d, dind)
    requires forall j :: 0 <= j < PTRS ==> Ptr(dibuf, j) == xs[j]
    requires nb > DIND_START && !HeadEmpty(d.blocks[dind], PTRS)
    modifies fs`disk
    ensures DiskOk(fs.disk) && DoubleCut(d, fs.disk, dind, x, xs, nb)
  {
    var allZero := IsNullBlock(dibuf);
    assert allZero <==> AllNull(xs);
    if allZero {
      ClearedStep(d, fs.disk, DoubleGone(d, d.blocks[dind], xs, nb), dind);
      FreeBlock(fs, dind);
      return 0;
    }
    RootStored(d, fs.disk, dind, dibuf, xs, nb);
    fs.disk := fs.disk.(blocks := fs.disk.blocks[dind := dibuf]);
    return dind;
  }

  method IsNullBlock(b: Block) returns (yes: bool)
    ensures yes <==> HeadEmpty(b, PTRS)
  {
    yes := true;
    for i := 0 to PTRS
      invariant yes <==> forall j :: 0 <= j < i ==> Ptr(b, j) == 0
    {
      if Ptr(b, i) != 0 { yes := false; }
    }
  }

  lemma RootStored(d: Disk, e: Disk, dind: nat, dibuf: Block, xs: seq<nat>, nb: nat)
    requires DiskOk(d) && 0 < dind < |d.blocks| && |xs| == PTRS && PartlyCut(d, e, dind, xs, nb) && Distinct(d, dind)
    requires forall j :: 0 <= j < PTRS ==> Ptr(dibuf, j) == xs[j]
    requires nb > DIND_START && !AllNull(xs)
    ensures DoubleCut(d, e.(blocks := e.blocks[dind := dibuf]), dind, dind, xs, nb)
  {
    var root, f := d.blocks[dind], e.(blocks := e.blocks[dind := dibuf]);
    forall i | 0 <= i < PTRS ensures EntryCut(d, f, Ptr(root, i), xs[i], Clamp(nb, StartOf(i))) {
      assert EntryCut(d, e, Ptr(root, i), xs[i], Clamp(nb, StartOf(i)));
    }
    assert DoubleGone(d, root, xs, nb) + {} == DoubleGone(d, root, xs, nb);
  }

  lemma UnchangedRoot(d: Disk, e: Disk, dind: nat, xs: seq<nat>, nb: nat)
    requires DiskOk(d) && dind < |d.blocks| && |xs| == PTRS && PartlyCut(d, e, dind, xs, nb) && Distinct(d, dind)
    requires forall j :: 0 <= j < PTRS ==> Ptr(d.blocks[dind], j) == xs[j]
    requires dind != 0 && nb > DIND_START
    ensures DoubleCut(d, e, dind, dind, xs, nb)
  {
    assert e.blocks[dind] == d.blocks[dind];
    assert AllNull(xs) ==> HeadEmpty(d.blocks[dind], PTRS) by {
      if AllNull(xs) {
        forall j | 0 <= j < PTRS ensures Ptr(d.blocks[dind], j) == 0 { assert xs[j] == 0; }
      }
    }
    assert DoubleGone(d, d.blocks[dind], xs, nb) + {} == DoubleGone(d, d.blocks[dind], xs, nb);
  }

  lemma NulledEntry(b: Block, i: nat)
    requires i < PTRS
    ensures forall j :: 0 <= j < PTRS ==> Ptr(SetPtr(b, i, 0), j) == if j == i then 0 else Ptr(b, j)
  {
    forall j | 0 <= j < PTRS ensures Ptr(SetPtr(b, i, 0), j) == if j == i then 0 else Ptr(b, j) {
      PtrAfterSet(b, i, 0, j);
    }
  }

  /** The cut runs through the tree: rebuild the root in memory, then write or free it. */
  method CutDoublePart(fs: Sfs, dind: nat, nb: nat) returns (x: nat, ghost xs: seq<nat>)
    requires DiskOk(fs.disk) && InMap(fs.disk, dind) && Distinct(fs.disk, dind) && nb > DIND_START
    modifies fs`disk
    ensures DiskOk(fs.disk) && DoubleCut(old(fs.disk), fs.disk, dind, x, xs, nb)
  {
    ghost var d := fs.disk;
    var root := fs.disk.blocks[dind];
    var dibuf := root;
    var changed := false;
    xs := [];
    PartlyCutStart(d, dind, nb);
    for i := 0 to PTRS
      invariant DiskOk(fs.disk) && |xs| == i && PartlyCut(d, fs.disk, dind, xs, nb)
      invariant fs.disk.dataStart == d.dataStart && fs.disk.totalData == d.totalData
      invariant forall j :: 0 <= j < PTRS ==> Ptr(dibuf, j) == if j < i then xs[j] else Ptr(root, j)
      invariant if changed then !HeadEmpty(root, PTRS) else dibuf == root
    {
      ghost var e := fs.disk;
      var q := Ptr(root, i);
      var y := q;
      if q != 0 {
        assert e.blocks[q] == d.blocks[q];
        var ch;
        y, ch := CutLevel(fs, q, nb, StartOf(i));
        if y == 0 {
          NulledEntry(dibuf, i);
          dibuf := SetPtr(dibuf, i, 0);
        }
        changed := changed || ch;
      }
      PartlyCutStep(d, e, fs.disk, dind, xs, nb, y);
      xs := xs + [y];
    }
    x := dind;
    if changed {
      x := StoreRoot(fs, dind, dibuf, d, xs, nb);
    } else {
      UnchangedRoot(d, fs.disk, dind, xs, nb);
    }
  }

  // ----- Direct pointers -----

  function DirectGone(ino: Inode, nb: nat, ob: nat): set<nat>
    requires InodeOk(ino)
  {
    set i | nb <= i < ob && i < DIRECT && ino.direct[i] != 0 :: ino.direct[i]
  }

  method CutDirect(fs: Sfs, n: nat, nb: nat, ob: nat)
    requires DiskOk(fs.disk) && InodesOk(fs.inodes) && n < |fs.inodes|
    requires forall i :: 0 <= i < DIRECT ==> fs.inodes[n].direct[i] == 0 || InMap(fs.disk, fs.inodes[n].direct[i])
    modifies fs`disk, fs`inodes
    ensures DiskOk(fs.disk) && fs.disk.blocks == old(fs.disk).blocks
    ensures Cleared(old(fs.disk), fs.disk, DirectGone(old(fs.inodes)[n], nb, ob))
    ensures |fs.inodes| == |old(fs.inodes)| && InodesOk(fs.inodes)
    ensures fs.inodes == old(fs.inodes)[n := old(fs.inodes)[n].(direct := fs.inodes[n].direct)]
    ensures forall i :: 0 <= i < DIRECT ==>
      fs.inodes[n].direct[i] == if nb <= i < ob then 0 else old(fs.inodes)[n].direct[i]
  {
    ghost var d, inodes := fs.disk, fs.inodes;
    var b := nb;
    ghost var gone := {};
    while b < ob && b < DIRECT
      invariant nb <= b
      invariant DiskOk(fs.disk) && fs.disk.blocks == d.blocks && Cleared(d, fs.disk, gone)
      invariant gone == set i | nb <= i < ob && i < DIRECT && i < b && inodes[n].direct[i] != 0 :: inodes[n].direct[i]
      invariant |fs.inodes| == |inodes| && InodesOk(fs.inodes)
      invariant fs.inodes == inodes[n := inodes[n].(direct := fs.inodes[n].direct)]
      invariant forall i :: 0 <= i < DIRECT ==>
        fs.inodes[n].direct[i] == if nb <= i < ob && i < b then 0 else inodes[n].direct[i]
    {
      var v := fs.inodes[n].direct[b];
      if v != 0 {
        ClearedStep(d, fs.disk, gone, v);
        FreeBlock(fs, v);
        gone := gone + {v};
        fs.inodes := fs.inodes[n := fs.inodes[n].(direct := fs.inodes[n].direct[b := 0])];
      }
      b := b + 1;
    }
    assert gone == DirectGone(inodes[n], nb, ob);
  }

  // ----- Putting the levels together -----

  /** What the three phases did, in terms of the store d and inode ino they started from. */
  ghost predicate TreeCut(d: Disk, ino: Inode, e: Disk, ino': Inode, nb: nat, ob: nat, xs: seq<nat>)
    requires InodeOk(ino) && InodeOk(ino')
  {
    && |e.blocks| == |d.blocks| && |xs| == PTRS
    && (forall i :: 0 <= i < DIRECT ==> ino'.direct[i] == if nb <= i < ob then 0 else ino.direct[i])
    && (ino.indirect == 0 ==> ino'.indirect == 0)
    && (0 < ino.indirect < |d.blocks| ==>
      && EntryCut(d, e, ino.indirect, ino'.indirect, Clamp(nb, DIRECT)))
    && (ino.dindirect == 0 ==> ino'.dindirect == 0 && forall i :: 0 <= i < PTRS ==> xs[i] == 0)
    && (0 < ino.dindirect < |d.blocks| ==>
      && (ino'.dindirect == ino.dindirect || ino'.dindirect == 0)
      && (forall i :: 0 <= i < PTRS ==>
            EntryCut(d, e, Ptr(d.blocks[ino.dindirect], i), xs[i], Clamp(nb, StartOf(i))))
      && (ino'.dindirect != 0 ==> forall i :: 0 <= i < PTRS ==> Ptr(e.blocks[ino.dindirect], i) == xs[i])
      && (ino'.dindirect == 0 <==> RootGoes(d.blocks[ino.dindirect], xs, nb)) && (ino'.dindirect == 0 ==> AllNull(xs)))
  }

  /** The data pointers a truncation to nb blocks keeps: those before the cut, and the direct
      ones past the recorded end of ob blocks, where the direct loop stops. */
  predicate Kept(t: Slot, nb: nat, ob: nat)
    requires SlotOk(t) && IsLeaf(t)
  {
    FileBlock(t) < nb || (t.Direct? && ob <= t.i)
  }

  /** The first file block whose path goes through the single-indirect block, or through the i-th
      index block of the double-indirect one. */
  function FirstBelow(t: Slot): nat
    requires t.Ind? || t.DIndPtr?
  {
    if t.Ind? then DIRECT else StartOf(t.i)
  }

  function ChildOf(t: Slot, j: nat): (u: Slot)
    requires SlotOk(t) && (t.Ind? || t.DIndPtr?) && j < PTRS
    ensures SlotOk(u) && IsLeaf(u) && FileBlock(u) == FirstBelow(t) + j
  {
    if t.Ind? then IndPtr(j) else DIndLeaf(t.i, j)
  }

  /** A truncation to nb blocks drops this index block: its range starts at or past the cut, or one
      of its blocks is past the cut and none before it. */
  ghost predicate IndexGoes(d: Disk, ino: Inode, t: Slot, nb: nat)
    requires InodeOk(ino) && SlotOk(t) && (t.Ind? || t.DIndPtr?)
  {
    || nb <= FirstBelow(t)
    || ((exists j: nat :: j < PTRS && FirstBelow(t) + j >= nb && SlotVal(d, ino, ChildOf(t, j)) != 0)
        && (forall j: nat :: j < PTRS && FirstBelow(t) + j < nb ==> SlotVal(d, ino, ChildOf(t, j)) == 0))
  }

  /** A truncation drops the double-indirect block: its range starts at or past the cut, or it has
      index blocks and every one of them is dropped. */
  ghost predicate DoubleGoes(d: Disk, ino: Inode, nb: nat)
    requires InodeOk(ino)
  {
    || nb <= DIND_START
    || ((exists i: nat :: i < PTRS && SlotVal(d, ino, DIndPtr(i)) != 0)
        && (forall i: nat :: i < PTRS && SlotVal(d, ino, DIndPtr(i)) != 0 ==> IndexGoes(d, ino, DIndPtr(i), nb)))
  }

  /** Whether a truncation to nb of ob blocks leaves a pointer as it is; otherwise it is null. */
  ghost predicate Stays(d: Disk, ino: Inode, t: Slot, nb: nat, ob: nat)
    requires InodeOk(ino) && SlotOk(t)
  {
    if IsLeaf(t) then Kept(t, nb, ob)
    else if t.DInd? then !DoubleGoes(d, ino, nb)
    else !IndexGoes(d, ino, t, nb)
  }

  /** Every pointer is now what it was, or null, and which of the two, told from the state before. */
  ghost predicate CutSlots(d: Disk, ino: Inode, e: Disk, ino': Inode, nb: nat, ob: nat)
    requires InodeOk(ino) && InodeOk(ino')
  {
    forall t {:trigger SlotVal(e, ino', t)} {:trigger SlotVal(d, ino, t)} :: SlotOk(t) ==>
      SlotVal(e, ino', t) == if Stays(d, ino, t, nb, ob) then SlotVal(d, ino, t) else 0
  }

  lemma GoesIff(d: Disk, ino: Inode, t: Slot, nb: nat, q: nat)
    requires InodeOk(ino) && SlotOk(t) && (t.Ind? || t.DIndPtr?) && q == SlotVal(d, ino, t) && 0 < q < |d.blocks|
    ensures IndexGoes(d, ino, t, nb) <==> Goes(d.blocks[q], Clamp(nb, FirstBelow(t)))
  {
    var b, k := d.blocks[q], Clamp(nb, FirstBelow(t));
    forall j: nat | j < PTRS ensures SlotVal(d, ino, ChildOf(t, j)) == Ptr(b, j) {}
    if IndexGoes(d, ino, t, nb) && k > 0 {
      var j: nat :| j < PTRS && FirstBelow(t) + j >= nb && SlotVal(d, ino, ChildOf(t, j)) != 0;
      assert Ptr(b, j) in TailPtrs(b, k);
      forall i | 0 <= i < k && i < PTRS ensures Ptr(b, i) == 0 { assert SlotVal(d, ino, ChildOf(t, i)) == 0; }
    }
    if Goes(b, k) && k > 0 {
      var v :| v in TailPtrs(b, k);
      var j: nat :| k <= j < PTRS && Ptr(b, j) == v && v != 0;
      assert SlotVal(d, ino, ChildOf(t, j)) != 0;
    }
  }

  /** The double-indirect block, by its entries xs after the cut. */
  lemma DoubleGoesIff(d: Disk, ino: Inode, e: Disk, nb: nat, xs: seq<nat>)
    requires InodeOk(ino) && 0 < ino.dindirect < |d.blocks| && |xs| == PTRS
    requires forall i :: 0 <= i < PTRS ==> Ptr(d.blocks[ino.dindirect], i) < |d.blocks|
    requires forall i :: 0 <= i < PTRS ==> EntryCut(d, e, Ptr(d.blocks[ino.dindirect], i), xs[i], Clamp(nb, StartOf(i)))
    ensures DoubleGoes(d, ino, nb) <==> RootGoes(d.blocks[ino.dindirect], xs, nb)
  {
    var root := d.blocks[ino.dindirect];
    forall i: nat | i < PTRS
      ensures SlotVal(d, ino, DIndPtr(i)) == Ptr(root, i)
      ensures xs[i] == 0 <==> (SlotVal(d, ino, DIndPtr(i)) != 0 ==> IndexGoes(d, ino, DIndPtr(i), nb))
    {
      assert EntryCut(d, e, Ptr(root, i), xs[i], Clamp(nb, StartOf(i)));
      if Ptr(root, i) != 0 { GoesIff(d, ino, DIndPtr(i), nb, Ptr(root, i)); }
    }
    assert HeadEmpty(root, PTRS) <==> forall i: nat :: i < PTRS ==> SlotVal(d, ino, DIndPtr(i)) == 0;
  }

  lemma TreeCutSlots(d: Disk, inodes: seq<Inode>, owner: Owner, n: nat, e: Disk, ino': Inode, nb: nat, ob: nat,
                     xs: seq<nat>)
    requires Sound(d, inodes, owner) && n < |inodes| && InodeOk(ino') && TreeCut(d, inodes[n], e, ino', nb, ob, xs)
    ensures CutSlots(d, inodes[n], e, ino', nb, ob)
    ensures forall i :: 0 <= i < PTRS ==> SlotVal(e, ino', DIndPtr(i)) == xs[i]
  {
    var ino := inodes[n];
    assert Owned(d, owner, n, Ind, SlotVal(d, inodes[n], Ind));
    assert Owned(d, owner, n, DInd, SlotVal(d, inodes[n], DInd));
    forall t | SlotOk(t)
      ensures SlotVal(e, ino', t) == if Stays(d, ino, t, nb, ob) then SlotVal(d, ino, t) else 0
      ensures t.DIndPtr? ==> SlotVal(e, ino', t) == xs[t.i]
    {
      if t.DIndPtr? || t.DIndLeaf? {
        DoubleSlots(d, inodes, owner, n, e, ino', nb, ob, xs, t);
      } else if t.DInd? {
        RootSlot(d, inodes, owner, n, e, ino', nb, ob, xs);
      } else {
        TopSlots(d, inodes, owner, n, e, ino', nb, ob, xs, t);
      }
    }
    forall i | 0 <= i < PTRS ensures SlotVal(e, ino', DIndPtr(i)) == xs[i] {
      assert SlotOk(DIndPtr(i));
    }
  }

  lemma TopSlots(d: Disk, inodes: seq<Inode>, owner: Owner, n: nat, e: Disk, ino': Inode, nb: nat, ob: nat,
                 xs: seq<nat>, t: Slot)
    requires Sound(d, inodes, owner) && n < |inodes| && InodeOk(ino') && TreeCut(d, inodes[n], e, ino', nb, ob, xs)
    requires SlotOk(t) && (t.Direct? || t.Ind? || t.IndPtr?)
    ensures SlotVal(e, ino', t) == if Stays(d, inodes[n], t, nb, ob) then SlotVal(d, inodes[n], t) else 0
  {
    var ino := inodes[n];
    assert Owned(d, owner, n, Ind, SlotVal(d, inodes[n], Ind));
    if ino.indirect != 0 {
      GoesIff(d, ino, Ind, nb, ino.indirect);
      assert t.IndPtr? ==> SlotVal(d, ino, t) == Ptr(d.blocks[ino.indirect], t.i);
    }
  }

  lemma DoubleSlots(d: Disk, inodes: seq<Inode>, owner: Owner, n: nat, e: Disk, ino': Inode, nb: nat, ob: nat,
                    xs: seq<nat>, t: Slot)
    requires Sound(d, inodes, owner) && n < |inodes| && InodeOk(ino') && TreeCut(d, inodes[n], e, ino', nb, ob, xs)
    requires SlotOk(t) && (t.DIndPtr? || t.DIndLeaf?)
    ensures SlotVal(e, ino', t) == if Stays(d, inodes[n], t, nb, ob) then SlotVal(d, inodes[n], t) else 0
    ensures SlotVal(e, ino', DIndPtr(t.i)) == xs[t.i]
  {
    var ino := inodes[n];
    assert Owned(d, owner, n, DInd, SlotVal(d, inodes[n], DInd));
    assert Owned(d, owner, n, DIndPtr(t.i), SlotVal(d, inodes[n], DIndPtr(t.i)));
    if ino.dindirect != 0 {
      var q := Ptr(d.blocks[ino.dindirect], t.i);
      assert q == SlotVal(d, ino, DIndPtr(t.i));
      assert EntryCut(d, e, q, xs[t.i], Clamp(nb, StartOf(t.i)));
      if q != 0 { GoesIff(d, ino, DIndPtr(t.i), nb, q); }
    }
  }

  lemma RootSlot(d: Disk, inodes: seq<Inode>, owner: Owner, n: nat, e: Disk, ino': Inode, nb: nat, ob: nat,
                 xs: seq<nat>)
    requires Sound(d, inodes, owner) && n < |inodes| && InodeOk(ino') && TreeCut(d, inodes[n], e, ino', nb, ob, xs)
    ensures ino'.dindirect == if DoubleGoes(d, inodes[n], nb) then 0 else inodes[n].dindirect
  {
    var ino := inodes[n];
    assert Owned(d, owner, n, DInd, SlotVal(d, inodes[n], DInd));
    if ino.dindirect != 0 {
      forall i | 0 <= i < PTRS ensures Ptr(d.blocks[ino.dindirect], i) < |d.blocks| {
        assert Owned(d, owner, n, DIndPtr(i), SlotVal(d, inodes[n], DIndPtr(i)));
      }
      DoubleGoesIff(d, ino, e, nb, xs);
    }
  }

  // ----- Exactly what is freed -----

  /** Block v was referenced before and its pointer is null now. */
  ghost predicate Dropped(d: Disk, ino: Inode, e: Disk, ino': Inode, v: nat)
    requires InodeOk(ino) && InodeOk(ino')
  {
    v != 0 && exists t :: SlotOk(t) && SlotVal(d, ino, t) == v && SlotVal(e, ino', t) == 0
  }

  lemma {:induction false} DoubleGoneHas(d: Disk, root: Block, xs: seq<nat>, nb: nat, i: nat, v: nat)
    requires i < |xs| <= PTRS && 0 < Ptr(root, i) < |d.blocks|
    requires v in LevelGone(d, Ptr(root, i), xs[i], Clamp(nb, StartOf(i)))
    ensures v in DoubleGone(d, root, xs, nb)
  {
    if i < |xs| - 1 { DoubleGoneHas(d, root, xs[..|xs| - 1], nb, i, v); }
  }

  lemma {:induction false} DoubleGoneFrom(d: Disk, root: Block, xs: seq<nat>, nb: nat, v: nat) returns (i: nat)
    requires |xs| <= PTRS && v in DoubleGone(d, root, xs, nb)
    ensures i < |xs| && 0 < Ptr(root, i) < |d.blocks|
    ensures v in LevelGone(d, Ptr(root, i), xs[i], Clamp(nb, StartOf(i)))
  {
    var k := |xs| - 1;
    if v in DoubleGone(d, root, xs[..k], nb) {
      i := DoubleGoneFrom(d, root, xs[..k], nb, v);
    } else {
      i := k;
    }
  }

  function IndGone(d: Disk, ino: Inode, x: nat, nb: nat): set<nat> {
    if 0 < ino.indirect < |d.blocks| then LevelGone(d, ino.indirect, x, Clamp(nb, DIRECT)) else {}
  }

  function DIndGone(d: Disk, ino: Inode, x: nat, xs: seq<nat>, nb: nat): set<nat>
    requires |xs| <= PTRS
  {
    if 0 < ino.dindirect < |d.blocks| then
      DoubleGone(d, d.blocks[ino.dindirect], xs, nb) + if x == 0 then {ino.dindirect} else {}
    else {}
  }

  /** All that the three phases free. */
  function AllGone(d: Disk, ino: Inode, ino': Inode, nb: nat, ob: nat, xs: seq<nat>): set<nat>
    requires InodeOk(ino) && |xs| <= PTRS
  {
    DirectGone(ino, nb, ob) + IndGone(d, ino, ino'.indirect, nb) + DIndGone(d, ino, ino'.dindirect, xs, nb)
  }

  lemma DirectDropped(d: Disk, ino: Inode, e: Disk, ino': Inode, nb: nat, ob: nat, v: nat)
    requires InodeOk(ino) && InodeOk(ino') && CutSlots(d, ino, e, ino', nb, ob) && v in DirectGone(ino, nb, ob)
    ensures Dropped(d, ino, e, ino', v)
  {
    var i :| nb <= i < ob && i < DIRECT && ino.direct[i] != 0 && ino.direct[i] == v;
    assert SlotVal(d, ino, Direct(i)) == v && SlotVal(e, ino', Direct(i)) == 0;
  }

  lemma IndirectDropped(d: Disk, ino: Inode, e: Disk, ino': Inode, nb: nat, ob: nat, xs: seq<nat>, v: nat)
    requires InodeOk(ino) && InodeOk(ino') && CutSlots(d, ino, e, ino', nb, ob) && TreeCut(d, ino, e, ino', nb, ob, xs)
    requires v in IndGone(d, ino, ino'.indirect, nb)
    ensures Dropped(d, ino, e, ino', v)
  {
    var t := Ind;
    if v in TailPtrs(d.blocks[ino.indirect], Clamp(nb, DIRECT)) {
      var j :| Clamp(nb, DIRECT) <= j < PTRS && Ptr(d.blocks[ino.indirect], j) != 0 &&
        Ptr(d.blocks[ino.indirect], j) == v;
      t := IndPtr(j);
    }
    assert SlotOk(t) && SlotVal(d, ino, t) == v && SlotVal(e, ino', t) == 0;
  }

  lemma DoubleDropped(d: Disk, ino: Inode, e: Disk, ino': Inode, nb: nat, ob: nat, xs: seq<nat>, v: nat)
    requires InodeOk(ino) && InodeOk(ino') && CutSlots(d, ino, e, ino', nb, ob) && |xs| == PTRS
    requires forall i :: 0 <= i < PTRS ==> SlotVal(e, ino', DIndPtr(i)) == xs[i]
    requires v in DIndGone(d, ino, ino'.dindirect, xs, nb)
    ensures Dropped(d, ino, e, ino', v)
  {
    var t := DInd;
    if v in DoubleGone(d, d.blocks[ino.dindirect], xs, nb) {
      var i := DoubleGoneFrom(d, d.blocks[ino.dindirect], xs, nb, v);
      var q := Ptr(d.blocks[ino.dindirect], i);
      t := DIndPtr(i);
      if v in TailPtrs(d.blocks[q], Clamp(nb, StartOf(i))) {
        var j :| Clamp(nb, StartOf(i)) <= j < PTRS && Ptr(d.blocks[q], j) != 0 && Ptr(d.blocks[q], j) == v;
        t := DIndLeaf(i, j);
      }
    }
    assert SlotOk(t) && SlotVal(d, ino, t) == v && SlotVal(e, ino', t) == 0;
  }

  /** Everything freed was referenced and no longer is. */
  lemma GoneIsDropped(d: Disk, inodes: seq<Inode>, owner: Owner, n: nat, e: Disk, ino': Inode, nb: nat, ob: nat,
                      xs: seq<nat>, v: nat)
    requires Sound(d, inodes, owner) && n < |inodes| && InodeOk(ino') && TreeCut(d, inodes[n], e, ino', nb, ob, xs)
    requires v in AllGone(d, inodes[n], ino', nb, ob, xs)
    ensures Dropped(d, inodes[n], e, ino', v)
  {
    TreeCutSlots(d, inodes, owner, n, e, ino', nb, ob, xs);
    if v in DirectGone(inodes[n], nb, ob) {
      DirectDropped(d, inodes[n], e, ino', nb, ob, v);
    } else if v in IndGone(d, inodes[n], ino'.indirect, nb) {
      IndirectDropped(d, inodes[n], e, ino', nb, ob, xs, v);
    } else {
      DoubleDropped(d, inodes[n], e, ino', nb, ob, xs, v);
    }
  }

  /** Everything no longer referenced is freed. */
  lemma DroppedIsGone(d: Disk, inodes: seq<Inode>, owner: Owner, n: nat, e: Disk, ino': Inode, nb: nat, ob: nat,
                      xs: seq<nat>, t: Slot)
    requires Sound(d, inodes, owner) && n < |inodes| && InodeOk(ino') && TreeCut(d, inodes[n], e, ino', nb, ob, xs)
    requires SlotOk(t) && SlotVal(d, inodes[n], t) != 0 && SlotVal(e, ino', t) == 0
    ensures SlotVal(d, inodes[n], t) in
      AllGone(d, inodes[n], ino', nb, ob, xs)
  {
    var ino, v := inodes[n], SlotVal(d, inodes[n], t);
    TreeCutSlots(d, inodes, owner, n, e, ino', nb, ob, xs);
    assert Owned(d, owner, n, Ind, SlotVal(d, inodes[n], Ind));
    assert Owned(d, owner, n, DInd, SlotVal(d, inodes[n], DInd));
    match t
    case Direct(i) =>
      assert v in DirectGone(ino, nb, ob);
    case Ind =>
      assert v in IndGone(d, ino, ino'.indirect, nb);
    case IndPtr(i) =>
      assert v in TailPtrs(d.blocks[ino.indirect], Clamp(nb, DIRECT));
    case DInd =>
      assert v in DIndGone(d, ino, ino'.dindirect, xs, nb);
    case DIndPtr(i) =>
      assert Owned(d, owner, n, DIndPtr(i), SlotVal(d, inodes[n], DIndPtr(i)));
      DoubleGoneHas(d, d.blocks[ino.dindirect], xs, nb, i, v);
    case DIndLeaf(i, j) =>
      assert Owned(d, owner, n, DIndPtr(i), SlotVal(d, inodes[n], DIndPtr(i)));
      assert v in TailPtrs(d.blocks[Ptr(d.blocks[ino.dindirect], i)], Clamp(nb, StartOf(i)));
      DoubleGoneHas(d, d.blocks[ino.dindirect], xs, nb, i, v);
  }

  // ----- Frame and soundness -----

  /** Only the index blocks of the truncated file were rewritten. */
  ghost predicate OnlyIndexBlocks(d: Disk, ino: Inode, e: Disk)
    requires InodeOk(ino)
  {
    && |e.blocks| == |d.blocks|
    && forall c {:trigger e.blocks[c]} ::
      (0 <= c < |d.blocks| && c != ino.indirect && c != ino.dindirect
       && (forall i :: 0 <= i < PTRS ==> SlotVal(d, ino, DIndPtr(i)) != c)) ==> e.blocks[c] == d.blocks[c]
  }

  lemma FrameAt(d: Disk, inodes: seq<Inode>, owner: Owner, n: nat, e: Disk, m: nat, t: Slot)
    requires Sound(d, inodes, owner) && n < |inodes| && m < |inodes| && OnlyIndexBlocks(d, inodes[n], e)
    requires SlotOk(t) && (m != n || IsLeaf(t)) && SlotVal(d, inodes[m], t) != 0
    ensures SlotVal(d, inodes[m], t) < |d.blocks|
    ensures e.blocks[SlotVal(d, inodes[m], t)] == d.blocks[SlotVal(d, inodes[m], t)]
  {
    var v := SlotVal(d, inodes[m], t);
    assert Owned(d, owner, m, t, v);
    assert Owned(d, owner, n, Ind, SlotVal(d, inodes[n], Ind));
    assert Owned(d, owner, n, DInd, SlotVal(d, inodes[n], DInd));
    forall i | 0 <= i < PTRS ensures SlotVal(d, inodes[n], DIndPtr(i)) != v {
      assert Owned(d, owner, n, DIndPtr(i), SlotVal(d, inodes[n], DIndPtr(i)));
    }
  }

  lemma FrameOthers(d: Disk, inodes: seq<Inode>, owner: Owner, n: nat, e: Disk)
    requires Sound(d, inodes, owner) && n < |inodes| && OnlyIndexBlocks(d, inodes[n], e)
    ensures KeepsData(d, inodes, e)
    ensures forall m, t :: 0 <= m < |inodes| && m != n && SlotOk(t) ==>
      SlotVal(e, inodes[m], t) == SlotVal(d, inodes[m], t)
  {
    forall m, t | 0 <= m < |inodes| && SlotOk(t) && IsLeaf(t) && 0 < SlotVal(d, inodes[m], t) < |d.blocks|
      ensures e.blocks[SlotVal(d, inodes[m], t)] == d.blocks[SlotVal(d, inodes[m], t)]
    {
      FrameAt(d, inodes, owner, n, e, m, t);
    }
    forall m, t | 0 <= m < |inodes| && m != n && SlotOk(t)
      ensures SlotVal(e, inodes[m], t) == SlotVal(d, inodes[m], t)
    {
      if SlotVal(d, inodes[m], Ind) != 0 { FrameAt(d, inodes, owner, n, e, m, Ind); }
      if SlotVal(d, inodes[m], DInd) != 0 { FrameAt(d, inodes, owner, n, e, m, DInd); }
      if t.DIndLeaf? && SlotVal(d, inodes[m], DIndPtr(t.i)) != 0 { FrameAt(d, inodes, owner, n, e, m, DIndPtr(t.i)); }
    }
  }

  lemma KeptIsNotDropped(d: Disk, inodes: seq<Inode>, owner: Owner, n: nat, e: Disk, ino': Inode, m: nat, t: Slot,
                         v: nat)
    requires Sound(d, inodes, owner) && n < |inodes| && m < |inodes| && InodeOk(ino') && SlotOk(t)
    requires v == SlotVal(d, inodes[m], t) != 0 && (m == n ==> SlotVal(e, ino', t) != 0)
    ensures !Dropped(d, inodes[n], e, ino', v)
  {
    forall u | SlotOk(u) && SlotVal(d, inodes[n], u) == v ensures m == n && t == u {
      NoSharing(d, inodes, owner, m, t, n, u);
    }
  }

  /** A pointer that survives the cut keeps its bit, because only blocks whose own pointer
      became null were freed. */
  lemma OwnedAfterCut(d: Disk, inodes: seq<Inode>, owner: Owner, n: nat, e: Disk, ino': Inode, gone: set<nat>, m: nat,
                      t: Slot, v: nat)
    requires Sound(d, inodes, owner) && n < |inodes| && m < |inodes| && InodeOk(ino') && SlotOk(t)
    requires Cleared(d, e, gone) && forall u :: u in gone ==> Dropped(d, inodes[n], e, ino', u)
    requires v == SlotVal(d, inodes[m], t) != 0 && (m == n ==> SlotVal(e, ino', t) != 0)
    ensures Owned(e, owner, m, t, v)
  {
    assert Owned(d, owner, m, t, SlotVal(d, inodes[m], t));
    KeptIsNotDropped(d, inodes, owner, n, e, ino', m, t, v);
    assert Test(e.bmap, 8, v - e.dataStart) == (Test(d.bmap, 8, v - d.dataStart) && v !in gone);
  }

  /** The cut tree is sound. */
  lemma SoundAfterCut(d: Disk, inodes: seq<Inode>, owner: Owner, n: nat, e: Disk, ino': Inode, nb: nat, ob: nat,
                      gone: set<nat>)
    requires Sound(d, inodes, owner) && n < |inodes| && InodeOk(ino') && DiskOk(e)
    requires OnlyIndexBlocks(d, inodes[n], e) && CutSlots(d, inodes[n], e, ino', nb, ob) && Cleared(d, e, gone)
    requires forall v :: v in gone ==> Dropped(d, inodes[n], e, ino', v)
    ensures Sound(e, inodes[n := ino'], owner)
  {
    FrameOthers(d, inodes, owner, n, e);
    var js := inodes[n := ino'];
    forall m, t | 0 <= m < |js| && SlotOk(t) ensures Owned(e, owner, m, t, SlotVal(e, js[m], t)) {
      var v := SlotVal(e, js[m], t);
      if v != 0 {
        assert v == SlotVal(d, inodes[m], t);
        OwnedAfterCut(d, inodes, owner, n, e, ino', gone, m, t, v);
      }
    }
  }

  // ----- sfs_vfs_truncate -----

  lemma {:induction false} DoubleGoneSame(d: Disk, e: Disk, root: Block, xs: seq<nat>, nb: nat)
    requires |xs| <= PTRS && |d.blocks| == |e.blocks|
    requires forall i :: 0 <= i < PTRS && 0 < Ptr(root, i) < |d.blocks| ==>
      d.blocks[Ptr(root, i)] == e.blocks[Ptr(root, i)]
    ensures DoubleGone(d, root, xs, nb) == DoubleGone(e, root, xs, nb)
  {
    if xs != [] { DoubleGoneSame(d, e, root, xs[..|xs| - 1], nb); }
  }

  /** The index blocks of a sound file are distinct, in range, and point into the data area. */
  lemma IndexBlocksApart(d: Disk, inodes: seq<Inode>, owner: Owner, n: nat)
    requires Sound(d, inodes, owner) && n < |inodes|
    ensures forall i :: 0 <= i < DIRECT ==> inodes[n].direct[i] == 0 || InMap(d, inodes[n].direct[i])
    ensures var ind := inodes[n].indirect;
      ind != 0 ==> InMap(d, ind) && PtrsInMap(d, d.blocks[ind]) && ind != inodes[n].dindirect
    ensures var dind := inodes[n].dindirect;
      dind != 0 ==>
        && InMap(d, dind) && Distinct(d, dind)
        && (inodes[n].indirect != 0 ==> forall i :: 0 <= i < PTRS ==> Ptr(d.blocks[dind], i) != inodes[n].indirect)
  {
    var ino := inodes[n];
    forall t | SlotOk(t) ensures Owned(d, owner, n, t, SlotVal(d, inodes[n], t)) {
    }
    forall i | 0 <= i < DIRECT ensures ino.direct[i] == 0 || InMap(d, ino.direct[i]) {
      assert Owned(d, owner, n, Direct(i), SlotVal(d, inodes[n], Direct(i)));
    }
    assert Owned(d, owner, n, Ind, SlotVal(d, inodes[n], Ind));
    assert Owned(d, owner, n, DInd, SlotVal(d, inodes[n], DInd));
    if ino.indirect != 0 {
      forall j | 0 <= j < PTRS ensures Ptr(d.blocks[ino.indirect], j) == 0 || InMap(d, Ptr(d.blocks[ino.indirect], j)) {
        assert Owned(d, owner, n, IndPtr(j), SlotVal(d, inodes[n], IndPtr(j)));
      }
    }
    if ino.dindirect != 0 {
      forall i | 0 <= i < PTRS
        ensures var q := Ptr(d.blocks[ino.dindirect], i); Owned(d, owner, n, DIndPtr(i), q)
      {
        assert Owned(d, owner, n, DIndPtr(i), SlotVal(d, inodes[n], DIndPtr(i)));
      }
      forall i | 0 <= i < PTRS && Ptr(d.blocks[ino.dindirect], i) != 0
        ensures PtrsInMap(d, d.blocks[Ptr(d.blocks[ino.dindirect], i)])
      {
        forall j | 0 <= j < PTRS
          ensures var v := Ptr(d.blocks[Ptr(d.blocks[ino.dindirect], i)], j); v == 0 || InMap(d, v)
        {
          assert Owned(d, owner, n, DIndLeaf(i, j), SlotVal(d, inodes[n], DIndLeaf(i, j)));
        }
      }
    }
  }

  /** Phase 2: the single-indirect level. */
  method CutIndirect(fs: Sfs, n: nat, nb: nat)
    requires DiskOk(fs.disk) && InodesOk(fs.inodes) && n < |fs.inodes|
    requires fs.inodes[n].indirect != 0 ==>
      InMap(fs.disk, fs.inodes[n].indirect) && PtrsInMap(fs.disk, fs.disk.blocks[fs.inodes[n].indirect])
    modifies fs`disk, fs`inodes
    ensures DiskOk(fs.disk) && |fs.inodes| == |old(fs.inodes)| && InodesOk(fs.inodes)
    ensures fs.inodes == old(fs.inodes)[n := old(fs.inodes)[n].(indirect := fs.inodes[n].indirect)]
    ensures var ind := old(fs.inodes)[n].indirect;
      if ind == 0 then fs.disk == old(fs.disk) && fs.inodes[n].indirect == 0
      else LevelCut(old(fs.disk), fs.disk, ind, fs.inodes[n].indirect, Clamp(nb, DIRECT))
  {
    var ind := fs.inodes[n].indirect;
    if ind == 0 { return; }
    var x, _ := CutLevel(fs, ind, nb, DIRECT);
    fs.inodes := fs.inodes[n := fs.inodes[n].(indirect := x)];
  }

  /** Phase 3: the double-indirect level. */
  method CutDouble(fs: Sfs, n: nat, nb: nat) returns (ghost xs: seq<nat>)
    requires DiskOk(fs.disk) && InodesOk(fs.inodes) && n < |fs.inodes|
    requires fs.inodes[n].dindirect != 0 ==>
      InMap(fs.disk, fs.inodes[n].dindirect) && Distinct(fs.disk, fs.inodes[n].dindirect)
    modifies fs`disk, fs`inodes
    ensures DiskOk(fs.disk) && |fs.inodes| == |old(fs.inodes)| && InodesOk(fs.inodes)
    ensures fs.inodes == old(fs.inodes)[n := old(fs.inodes)[n].(dindirect := fs.inodes[n].dindirect)]
    ensures |xs| == PTRS
    ensures var dind := old(fs.inodes)[n].dindirect;
      if dind == 0 then
        fs.disk == old(fs.disk) && fs.inodes[n].dindirect == 0 && forall i :: 0 <= i < PTRS ==> xs[i] == 0
      else DoubleCut(old(fs.disk), fs.disk, dind, fs.inodes[n].dindirect, xs, nb)
  {
    var dind := fs.inodes[n].dindirect;
    if dind == 0 {
      xs := seq(PTRS, _ => 0);
      return;
    }
    var x := 0;
    if nb <= DIND_START {
      xs := CutDoubleAll(fs, dind, nb);
    } else {
      x, xs := CutDoublePart(fs, dind, nb);
    }
    fs.inodes := fs.inodes[n := fs.inodes[n].(dindirect := x)];
  }

  /** The third phase, told from the store the truncation started with. */
  lemma LiftDouble(d: Disk, e: Disk, f: Disk, dind: nat, x: nat, xs: seq<nat>, nb: nat)
    requires DoubleCut(e, f, dind, x, xs, nb) && |d.blocks| == |e.blocks| && d.blocks[dind] == e.blocks[dind]
    requires forall i :: 0 <= i < PTRS && 0 < Ptr(d.blocks[dind], i) < |d.blocks| ==>
      d.blocks[Ptr(d.blocks[dind], i)] == e.blocks[Ptr(d.blocks[dind], i)]
    ensures forall i :: 0 <= i < PTRS ==> EntryCut(d, f, Ptr(d.blocks[dind], i), xs[i], Clamp(nb, StartOf(i)))
    ensures DoubleGone(e, d.blocks[dind], xs, nb) == DoubleGone(d, d.blocks[dind], xs, nb)
  {
    DoubleGoneSame(d, e, d.blocks[dind], xs, nb);
    forall i | 0 <= i < PTRS ensures EntryCut(d, f, Ptr(d.blocks[dind], i), xs[i], Clamp(nb, StartOf(i))) {
      assert EntryCut(e, f, Ptr(e.blocks[dind], i), xs[i], Clamp(nb, StartOf(i)));
    }
  }

  /** What each of the three phases leaves behind: d1, d2 and d3 are the stores after them. */
  ghost predicate Phases(d0: Disk, ino: Inode, d1: Disk, d2: Disk, d3: Disk, ino': Inode, nb: nat, ob: nat,
                         xs: seq<nat>)
    requires InodeOk(ino) && InodeOk(ino') && |xs| == PTRS
  {
    && (forall i :: 0 <= i < DIRECT ==> ino'.direct[i] == if nb <= i < ob then 0 else ino.direct[i])
    && d1.blocks == d0.blocks && Cleared(d0, d1, DirectGone(ino, nb, ob))
    && (if ino.indirect == 0 then d2 == d1 && ino'.indirect == 0
        else LevelCut(d1, d2, ino.indirect, ino'.indirect, Clamp(nb, DIRECT)))
    && (if ino.dindirect == 0 then d3 == d2 && ino'.dindirect == 0 && forall i :: 0 <= i < PTRS ==> xs[i] == 0
        else DoubleCut(d2, d3, ino.dindirect, ino'.dindirect, xs, nb))
  }

  /** The three phases together cut the tree, touch only its index blocks, and clear exactly
      the bits of what they dropped. */
  lemma PhasesCutTree(d0: Disk, inodes: seq<Inode>, owner: Owner, n: nat, d1: Disk, d2: Disk, d3: Disk, ino': Inode,
                      nb: nat, ob: nat, xs: seq<nat>)
    requires Sound(d0, inodes, owner) && n < |inodes| && InodeOk(ino') && |xs| == PTRS
    requires Phases(d0, inodes[n], d1, d2, d3, ino', nb, ob, xs)
    ensures TreeCut(d0, inodes[n], d3, ino', nb, ob, xs) && OnlyIndexBlocks(d0, inodes[n], d3)
    ensures Cleared(d0, d3, AllGone(d0, inodes[n], ino', nb, ob, xs))
  {
    var ino := inodes[n];
    IndexBlocksApart(d0, inodes, owner, n);
    var g1, g2 := DirectGone(ino, nb, ob), IndGone(d0, ino, ino'.indirect, nb);
    assert Cleared(d0, d2, g1 + g2) by {
      if ino.indirect == 0 { assert g1 + {} == g1; } else { ClearedTrans(d0, d1, d2, g1, g2); }
    }
    if ino.dindirect == 0 {
      assert g1 + g2 + {} == g1 + g2;
    } else {
      LiftDouble(d0, d2, d3, ino.dindirect, ino'.dindirect, xs, nb);
      ClearedTrans(d0, d2, d3, g1 + g2, DIndGone(d0, ino, ino'.dindirect, xs, nb));
    }
    forall c | (0 <= c < |d0.blocks| && c != ino.indirect && c != ino.dindirect
                && (forall i :: 0 <= i < PTRS ==> SlotVal(d0, ino, DIndPtr(i)) != c))
      ensures d3.blocks[c] == d0.blocks[c]
    {
      assert d2.blocks[c] == d0.blocks[c];
      if ino.dindirect != 0 {
        forall i | 0 <= i < PTRS ensures Ptr(d2.blocks[ino.dindirect], i) != c {
          assert SlotVal(d0, ino, DIndPtr(i)) != c;
        }
      }
    }
    if ino.indirect != 0 && ino.dindirect != 0 {
      assert d3.blocks[ino.indirect] == d2.blocks[ino.indirect];
    }
  }

  /** What truncation promises about the file system before (d, inodes) and after (e, inodes'). */
  ghost predicate Truncated(d: Disk, inodes: seq<Inode>, e: Disk, inodes': seq<Inode>, n: nat, nb: nat, ob: nat)
    requires InodesOk(inodes) && InodesOk(inodes') && |inodes'| == |inodes| && n < |inodes|
  {
    && CutSlots(d, inodes[n], e, inodes'[n], nb, ob)
    && KeepsData(d, inodes, e)
    && e.dataStart == d.dataStart && e.totalData == d.totalData
    && (forall m :: 0 <= m < |inodes| && m != n ==> inodes'[m] == inodes[m])
    && (forall m, t :: 0 <= m < |inodes| && m != n && SlotOk(t) ==>
        SlotVal(e, inodes[m], t) == SlotVal(d, inodes[m], t))
    && (forall b: nat :: Used(e, b) <==> Used(d, b) && !Dropped(d, inodes[n], e, inodes'[n], b))
  }

  lemma ExactlyFreed(d: Disk, ino: Inode, e: Disk, ino': Inode, gone: set<nat>)
    requires InodeOk(ino) && InodeOk(ino') && DiskOk(d) && Cleared(d, e, gone)
    requires forall v :: v in gone <==> Dropped(d, ino, e, ino', v)
    ensures forall b: nat :: Used(e, b) <==> Used(d, b) && !Dropped(d, ino, e, ino', b)
  {
    forall b: nat ensures Used(e, b) <==> Used(d, b) && !Dropped(d, ino, e, ino', b) {
      if InMap(d, b) {
        assert Test(e.bmap, 8, b - d.dataStart) == (Test(d.bmap, 8, b - d.dataStart) && b !in gone);
      }
    }
  }

  lemma GoneIffDropped(d0: Disk, inodes: seq<Inode>, owner: Owner, n: nat, e: Disk, ino': Inode, nb: nat, ob: nat,
                       xs: seq<nat>, v: nat)
    requires Sound(d0, inodes, owner) && n < |inodes| && InodeOk(ino') && |xs| == PTRS && DiskOk(e)
    requires TreeCut(d0, inodes[n], e, ino', nb, ob, xs) && OnlyIndexBlocks(d0, inodes[n], e)
    ensures v in AllGone(d0, inodes[n], ino', nb, ob, xs)
      <==> Dropped(d0, inodes[n], e, ino', v)
  {
    if v in AllGone(d0, inodes[n], ino', nb, ob, xs) {
      GoneIsDropped(d0, inodes, owner, n, e, ino', nb, ob, xs, v);
    }
    if Dropped(d0, inodes[n], e, ino', v) {
      var t :| SlotOk(t) && SlotVal(d0, inodes[n], t) == v && SlotVal(e, ino', t) == 0;
      DroppedIsGone(d0, inodes, owner, n, e, ino', nb, ob, xs, t);
    }
  }

  lemma PhasesTruncate(d0: Disk, inodes: seq<Inode>, owner: Owner, n: nat, e: Disk, ino': Inode, nb: nat, ob: nat,
                       xs: seq<nat>)
    requires Sound(d0, inodes, owner) && n < |inodes| && InodeOk(ino') && |xs| == PTRS && DiskOk(e)
    requires TreeCut(d0, inodes[n], e, ino', nb, ob, xs) && OnlyIndexBlocks(d0, inodes[n], e)
    requires Cleared(d0, e, AllGone(d0, inodes[n], ino', nb, ob, xs))
    ensures Sound(e, inodes[n := ino'], owner) && Truncated(d0, inodes, e, inodes[n := ino'], n, nb, ob)
  {
    var gone := AllGone(d0, inodes[n], ino', nb, ob, xs);
    forall v ensures v in gone <==> Dropped(d0, inodes[n], e, ino', v) {
      GoneIffDropped(d0, inodes, owner, n, e, ino', nb, ob, xs, v);
    }
    TreeCutSlots(d0, inodes, owner, n, e, ino', nb, ob, xs);
    CutIsTruncation(d0, inodes, owner, n, e, ino', nb, ob, gone);
  }

  /** A cut that frees exactly what it drops is what truncation promises. */
  lemma CutIsTruncation(d: Disk, inodes: seq<Inode>, owner: Owner, n: nat, e: Disk, ino': Inode, nb: nat, ob: nat,
                        gone: set<nat>)
    requires Sound(d, inodes, owner) && n < |inodes| && InodeOk(ino') && DiskOk(e)
    requires OnlyIndexBlocks(d, inodes[n], e) && CutSlots(d, inodes[n], e, ino', nb, ob) && Cleared(d, e, gone)
    requires forall v :: v in gone <==> Dropped(d, inodes[n], e, ino', v)
    ensures Sound(e, inodes[n := ino'], owner) && Truncated(d, inodes, e, inodes[n := ino'], n, nb, ob)
  {
    SoundAfterCut(d, inodes, owner, n, e, ino', nb, ob, gone);
    FrameOthers(d, inodes, owner, n, e);
    ExactlyFreed(d, inodes[n], e, ino', gone);
  }

  function BlocksFor(size: nat): nat {
    (size + BLOCK_SIZE - 1) / BLOCK_SIZE
  }

  lemma TruncatedContent(d: Disk, inodes: seq<Inode>, owner: Owner, e: Disk, inodes': seq<Inode>, n: nat, size: nat)
    requires Sound(d, inodes, owner) && InodesOk(inodes') && |inodes'| == |inodes| && n < |inodes|
    requires size < inodes[n].size && Truncated(d, inodes, e, inodes', n, BlocksFor(size), BlocksFor(inodes[n].size)) &&
      inodes'[n].size == size
    ensures Content(e, inodes'[n]) == Content(d, inodes[n])[..size]
    ensures forall m :: 0 <= m < |inodes| && m != n ==> Content(e, inodes'[m]) == Content(d, inodes[m])
  {
    forall m, p | 0 <= m < |inodes| && 0 <= p && (m == n ==> p < size)
      ensures FileByte(e, inodes'[m], p) == FileByte(d, inodes[m], p)
    {
      var fb := p / BLOCK_SIZE;
      if fb < MAX_BLOCKS {
        var t := SlotOf(fb);
        FileBlockSlot(fb);
        assert m == n ==> fb < BlocksFor(size);
        assert SlotVal(e, inodes'[m], t) == SlotVal(d, inodes[m], t);
      }
    }
  }

  /** No file block from nb on is mapped. */
  ghost predicate NothingFrom(d: Disk, ino: Inode, nb: nat)
    requires InodeOk(ino)
  {
    forall t {:trigger SlotVal(d, ino, t)} :: SlotOk(t) && IsLeaf(t) && FileBlock(t) >= nb ==> SlotVal(d, ino, t) == 0
  }

  /** No direct pointer from the ob-th on is set. */
  ghost predicate NoDirectFrom(ino: Inode, ob: nat)
    requires InodeOk(ino)
  {
    forall i :: ob <= i < DIRECT ==> ino.direct[i] == 0
  }

  lemma NothingLeft(d: Disk, ino: Inode, e: Disk, ino': Inode, nb: nat, ob: nat)
    requires InodeOk(ino) && InodeOk(ino') && nb <= ob && CutSlots(d, ino, e, ino', nb, ob)
    ensures NothingFrom(e, ino', nb) <==> NoDirectFrom(ino, ob)
  {
    if NothingFrom(e, ino', nb) {
      forall i | ob <= i < DIRECT ensures ino.direct[i] == 0 {
        assert SlotVal(e, ino', Direct(i)) == SlotVal(d, ino, Direct(i));
      }
    }
    if NoDirectFrom(ino, ob) {
      forall t | SlotOk(t) && IsLeaf(t) && FileBlock(t) >= nb ensures SlotVal(e, ino', t) == 0 {
        assert t.Direct? ==> SlotVal(d, ino, t) == ino.direct[t.i];
      }
    }
  }

  /** The three phases with the new size stored keep everything truncation promises. */
  lemma PhasesDone(d0: Disk, inodes: seq<Inode>, owner: Owner, n: nat, d1: Disk, d2: Disk, d3: Disk, ino': Inode,
                   size: nat, xs: seq<nat>)
    requires Sound(d0, inodes, owner) && n < |inodes| && InodeOk(ino') && |xs| == PTRS && DiskOk(d3)
    requires size < inodes[n].size && ino'.size == size
    requires var nb, ob := BlocksFor(size),
      BlocksFor(inodes[n].size); Phases(d0, inodes[n], d1, d2, d3, ino', nb, ob, xs)
    ensures var nb, ob, js := BlocksFor(size), BlocksFor(inodes[n].size), inodes[n := ino'];
      && Sound(d3, js, owner) && Truncated(d0, inodes, d3, js, n, nb, ob)
      && Content(d3, ino') == Content(d0, inodes[n])[..size]
      && (forall m :: 0 <= m < |inodes| && m != n ==> Content(d3, js[m]) == Content(d0, inodes[m]))
      && (NothingFrom(d3, ino', nb) <==> NoDirectFrom(inodes[n], ob))
  {
    var nb, ob := BlocksFor(size), BlocksFor(inodes[n].size);
    PhasesCutTree(d0, inodes, owner, n, d1, d2, d3, ino', nb, ob, xs);
    PhasesTruncate(d0, inodes, owner, n, d3, ino', nb, ob, xs);
    TruncatedContent(d0, inodes, owner, d3, inodes[n := ino'], n, size);
    NothingLeft(d0, inodes[n], d3, ino', nb, ob);
  }

  /** The three levels, one after the other. */
  method CutPhases(fs: Sfs, n: nat, nb: nat, ob: nat) returns (ghost d1: Disk, ghost d2: Disk, ghost xs: seq<nat>)
    requires fs.Valid() && n < |fs.inodes|
    modifies fs`disk, fs`inodes
    ensures DiskOk(fs.disk) && |fs.inodes| == |old(fs.inodes)| && InodesOk(fs.inodes) && |xs| == PTRS
    ensures fs.inodes == old(fs.inodes)[n := fs.inodes[n]]
    ensures Phases(old(fs.disk), old(fs.inodes)[n], d1, d2, fs.disk, fs.inodes[n], nb, ob, xs)
  {
    ghost var d, inodes, owner := fs.disk, fs.inodes, fs.owner;
    IndexBlocksApart(d, inodes, owner, n);
    CutDirect(fs, n, nb, ob);
    d1 := fs.disk;
    CutIndirect(fs, n, nb);
    d2 := fs.disk;
    DistinctStays(d, inodes, owner, n, d1, d2, nb, fs.inodes[n].indirect);
    xs := CutDouble(fs, n, nb);
  }

  /** sfs_vfs_truncate. A smaller size keeps the mapping of every file block before the new end,
      unmaps every one from there to the old end and every indexed one beyond, drops the index
      blocks that CutSlots names and no other, and clears the bitmap bits of precisely the blocks
      whose pointer became null; the file becomes the prefix of its old bytes and no other file
      changes. Nothing stays mapped past the new end exactly when no direct pointer was set past the
      old one. */
  method Truncate(fs: Sfs, n: nat, size: nat)
    requires fs.Valid() && n < |fs.inodes|
    modifies fs
    ensures fs.Valid() && |fs.inodes| == |old(fs.inodes)|
    ensures size >= old(fs.inodes)[n].size ==> fs.disk == old(fs.disk) && fs.inodes == old(fs.inodes)
    ensures size < old(fs.inodes)[n].size ==>
      && fs.inodes[n].size == size
      && Truncated(old(fs.disk), old(fs.inodes), fs.disk, fs.inodes, n, BlocksFor(size),
          BlocksFor(old(fs.inodes)[n].size))
      && Content(fs.disk, fs.inodes[n]) == Content(old(fs.disk), old(fs.inodes)[n])[..size]
      && forall m :: 0 <= m < |fs.inodes| && m != n ==>
        Content(fs.disk, fs.inodes[m]) == Content(old(fs.disk), old(fs.inodes)[m])
    ensures size < old(fs.inodes)[n].size ==>
      (NothingFrom(fs.disk, fs.inodes[n], BlocksFor(size)) <==>
        NoDirectFrom(old(fs.inodes)[n], BlocksFor(old(fs.inodes)[n].size)))
  {
    if size >= fs.inodes[n].size { return; }
    ghost var d, inodes, owner := fs.disk, fs.inodes, fs.owner;
    ghost var d1, d2, xs := CutPhases(fs, n, BlocksFor(size), BlocksFor(fs.inodes[n].size));
    fs.inodes := fs.inodes[n := fs.inodes[n].(size := size)];
    assert fs.inodes == inodes[n := fs.inodes[n]];
    PhasesDone(d, inodes, owner, n, d1, d2, fs.disk, fs.inodes[n], size, xs);
  }

  /** Cutting the single-indirect level leaves the double-indirect tree as it was. */
  lemma DistinctStays(d: Disk, inodes: seq<Inode>, owner: Owner, n: nat, d1: Disk, d2: Disk, nb: nat, x: nat)
    requires Sound(d, inodes, owner) && n < |inodes| && d1.blocks == d.blocks
    requires d1.dataStart == d.dataStart && d1.totalData == d.totalData && |d1.bmap| == |d.bmap|
    requires if inodes[n].indirect == 0 then d2 == d1 else LevelCut(d1, d2, inodes[n].indirect, x, Clamp(nb, DIRECT))
    ensures inodes[n].dindirect != 0 ==>
      InMap(d2, inodes[n].dindirect) && inodes[n].dindirect < |d2.blocks| && Distinct(d2, inodes[n].dindirect)
  {
    IndexBlocksApart(d, inodes, owner, n);
  }

  // ----- A file with a pointer past its end -----

  /** Blocks 1 and 2 are in use. */
  function LooseStore(): Disk {
    Disk(1, 8, seq(BLOCK_SIZE, i => if i == 0 then 3 else 0), seq(1 + 8 * BLOCK_SIZE, _ => ZeroBlock()))
  }

  /** A file of one byte that has two direct pointers set, as a write leaves it whose second block
      was mapped and then could not be stored. */
  function LooseFile(): (ino: Inode)
    ensures InodeOk(ino)
  {
    Inode(1, 1, seq(DIRECT, i => if i == 0 then 1 else if i == 1 then 2 else 0), 0, 0)
  }

  lemma LooseStoreSound()
    ensures Sound(LooseStore(), [LooseFile()], map[1 := (0, Direct(0)), 2 := (0, Direct(1))])
    ensures !NoDirectFrom(LooseFile(), BlocksFor(LooseFile().size))
  {
    var d, ino, owner := LooseStore(), LooseFile(), map[1 := (0, Direct(0)), 2 := (0, Direct(1))];
    assert d.bmap[0] == 3;
    assert Bit(3, 0) && Bit(3, 1);
    assert Used(d, 1) && Used(d, 2);
    forall n, s | 0 <= n < 1 && SlotOk(s) ensures Owned(d, owner, n, s, SlotVal(d, [ino][n], s)) {}
    assert BlocksFor(1) == 1 && ino.direct[1] == 2;
  }

  /** Cut to nothing, the file still has block 2, whose bit stays set. */
  method LooseFileCut() returns (fs: Sfs)
    ensures fs.Valid() && |fs.inodes| == 1 && fs.inodes[0].size == 0
    ensures fs.inodes[0].direct[1] == 2 && Used(fs.disk, 2) && !NothingFrom(fs.disk, fs.inodes[0], 0)
  {
    LooseStoreSound();
    fs := new Sfs(LooseStore(), [LooseFile()], map[1 := (0, Direct(0)), 2 := (0, Direct(1))]);
    Truncate(fs, 0, 0);
    assert BlocksFor(1) == 1 && BlocksFor(0) == 0;
    assert SlotVal(fs.disk, fs.inodes[0], Direct(1)) == 2;
    assert Owned(fs.disk, fs.owner, 0, Direct(1), SlotVal(fs.disk, fs.inodes[0], Direct(1)));
  }
}
