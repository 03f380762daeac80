/** kmalloc and kfree for slab-sized objects, the magazines, and heap compaction. */
module Slab {
  import opened Bits
  import opened Seqs
  import opened SlabPool

  ghost function HeldSet(place: Places): set<Obj> {
    set o | o in place && place[o] == Held
  }

  /** Any two objects in clients' hands occupy different bytes. */
  lemma LiveObjectsDisjoint(h: Heap, place: Places, o: Obj, q: Obj)
    requires Inv(h, place) && o in HeldSet(place) && q in HeldSet(place) && o != q
    ensures o.0 in h.pages && q.0 in h.pages && h.pages[o.0].cls < CLASSES && h.pages[q.0].cls < CLASSES
    ensures var k, m := h.pages[o.0].cls, h.pages[q.0].cls;
      Addr(o, k) + Size(k) <= Addr(q, m) || Addr(q, m) + Size(m) <= Addr(o, k)
  {
    assert ObjOk(h.pages, h.mags, place, o) && ObjOk(h.pages, h.mags, place, q);
    assert PageOk(o.0, h.pages[o.0], place) && PageOk(q.0, h.pages[q.0], place);
    NoOverlap(o, h.pages[o.0].cls, q, h.pages[q.0].cls);
  }

  lemma SizeIsPower(k: nat)
    requires k < CLASSES
    ensures Size(k) == Pow2(k + MIN_SHIFT)
  {
    assert Pow2(4) == 16;
    assert Pow2(5) == 32;
    assert Pow2(6) == 64;
    assert Pow2(7) == 128;
    assert Pow2(8) == 256;
    assert Pow2(9) == 512;
    assert Pow2(10) == 1024;
  }

  lemma {:induction false} Pow2Grows(a: nat, b: nat)
    requires a <= b
    ensures Pow2(a) <= Pow2(b)
    decreases b
  {
    if a < b { Pow2Grows(a, b - 1); }
  }

  /** slab_index: the smallest class that fits, or -1 when none does. */
  method SlabIndex(size: nat) returns (k: int)
    ensures -1 <= k < CLASSES
    ensures k >= 0 ==> size <= Size(k) && (k > 0 ==> Size(k - 1) < size)
    ensures k < 0 <==> size > 1024
  {
    var n := if size < 16 then 16 else size;
    var idx := 0;
    SizeIsPower(0);
    SizeIsPower(6);
    while Pow2(idx + MIN_SHIFT) < n
      invariant idx > 0 ==> Pow2(idx - 1 + MIN_SHIFT) < n
      decreases n - Pow2(idx + MIN_SHIFT)
    {
      idx := idx + 1;
    }
    if idx >= CLASSES {
      Pow2Grows(10, idx - 1 + MIN_SHIFT);
      return -1;
    }
    SizeIsPower(idx);
    Pow2Grows(idx + MIN_SHIFT, 10);
    if idx > 0 { SizeIsPower(idx - 1); }
    return idx;
  }

  /** The heap as if magazine k of CPU c held l. */
  function WithMag(h: Heap, c: nat, k: nat, l: seq<nat>): (r: Heap)
    requires c < |h.mags| && k < |h.mags[c]|
  {
    h.(mags := SetMag(h.mags, c, k, l))
  }

  lemma SameMag(mags: seq<seq<seq<nat>>>, c: nat, k: nat, a: seq<nat>, b: seq<nat>)
    requires c < |mags| && k < |mags[c]|
    ensures SetMag(SetMag(mags, c, k, a), c, k, b) == SetMag(mags, c, k, b)
    ensures SetMag(mags, c, k, mags[c][k]) == mags
  {
    assert mags[c][k := a][k := b] == mags[c][k := b];
    assert mags[c := mags[c][k := a]][c := mags[c][k := b]] == mags[c := mags[c][k := b]];
    assert mags[c][k := mags[c][k]] == mags[c];
  }

  lemma PlaceTwice(place: Places, o: Obj, a: Place, b: Place)
    ensures place[o := a][o := b] == place[o := b]
  {
  }

  lemma HeldFrame(place: Places, o: Obj, to: Place)
    requires (o in place ==> place[o] != Held) && to != Held
    ensures HeldSet(place[o := to]) == HeldSet(place)
  {
  }

  /** A magazine entry that a flush loop has not reached yet. */
  lemma FlushEntry(h: Heap, place: Places, c: nat, k: nat, l: seq<nat>, keep: nat, i: nat)
    requires c < |h.mags| && k < CLASSES == |h.mags[c]| && keep <= i < |l|
    requires Inv(WithMag(h, c, k, l[..keep] + l[i..]), place)
    ensures var o := ObjOf(l[i], k);
      && o in place && place[o] == Mag(c, k) && o.0 in h.pages && h.pages[o.0].cls == k &&
          o.1 < h.pages[o.0].total == Total(k)
      && |h.pages[o.0].bits| == MAX_OBJS / 8
  {
    var v := WithMag(h, c, k, l[..keep] + l[i..]);
    assert v.mags[c][k][keep] == l[i];
    MagEntry(v, place, c, k, keep);
  }

  /** One round of a flush loop: entry i of l, of which the first `keep` stay. */
  lemma FlushStep(h: Heap, place: Places, c: nat, k: nat, l: seq<nat>, keep: nat, i: nat, o: Obj)
    requires c < |h.mags| && k < CLASSES == |h.mags[c]| && keep <= i < |l| && o == ObjOf(l[i], k)
    requires Inv(WithMag(h, c, k, l[..keep] + l[i..]), place)
    requires o.0 in h.pages && o.1 / 8 < |h.pages[o.0].bits| && h.pages[o.0].cls == k
    ensures Inv(WithMag(SetHeap(h, o, true), c, k, l[..keep] + l[i + 1..]), place[o := Free])
  {
    var rest, next := l[..keep] + l[i..], l[..keep] + l[i + 1..];
    var v := WithMag(h, c, k, rest);
    NextRest(l, keep, i);
    assert v.mags[c][k] == rest;
    MagDropInv(v, place, c, k, keep);
    SameMag(h.mags, c, k, rest, next);
    var mid := WithMag(h, c, k, next);
    assert v.(mags := SetMag(v.mags, c, k, next)) == mid;
    SetHeapInv(mid, place[o := Held], o, true);
    PlaceTwice(place, o, Held, Free);
    assert SetHeap(mid, o, true) == WithMag(SetHeap(h, o, true), c, k, next);
  }

  /** Object o of class k, at address ptr and in nobody's hands before, is the one object
      clients have gained. */
  ghost predicate Granted(h: Heap, place: Places, place': Places, o: Obj, k: nat, ptr: nat) {
    && k < CLASSES && o.0 in h.pages && h.pages[o.0].cls == k && ptr == Addr(o, k)
    && o !in HeldSet(place) && HeldSet(place') == HeldSet(place) + {o}
  }

  ghost predicate SameClasses(pages: map<nat, SlabPage>, pages': map<nat, SlabPage>) {
    pages'.Keys == pages.Keys && forall pg :: pg in pages ==> pages'[pg].cls == pages[pg].cls
  }

  /** The slab pages are those before and `more`; none has changed its class. */
  ghost predicate Grown(pages: map<nat, SlabPage>, pages': map<nat, SlabPage>, more: set<nat>) {
    pages'.Keys == pages.Keys + more && forall pg :: pg in pages ==> pages'[pg].cls == pages[pg].cls
  }

  /** Some slab pages are gone, those in l, each once; none of the others has changed its class. */
  ghost predicate Reduced(pages: map<nat, SlabPage>, pages': map<nat, SlabPage>, l: seq<nat>) {
    && NoDup(l) && (forall pg :: pg in l <==> pg in pages && pg !in pages')
    && forall pg :: pg in pages' ==> pg in pages && pages'[pg].cls == pages[pg].cls
  }

  lemma ReducedMore(a: map<nat, SlabPage>, b: map<nat, SlabPage>, l: seq<nat>, pg: nat)
    requires Reduced(a, b, l) && pg in b
    ensures Reduced(a, b - {pg}, l + [pg])
  {
    assert pg !in l;
    forall q ensures q in l + [pg] <==> q in a && q !in b - {pg} {}
  }

  lemma ReducedOn(a: map<nat, SlabPage>, b: map<nat, SlabPage>, c: map<nat, SlabPage>, l: seq<nat>, more: seq<nat>)
    requires Reduced(a, b, l) && Reduced(b, c, more)
    ensures Reduced(a, c, l + more)
  {
    var all := l + more;
    forall i, j | 0 <= i < j < |all| ensures all[i] != all[j] {
      if i < |l| <= j { assert l[i] in l && more[j - |l|] in more; }
    }
    forall q ensures q in all <==> q in a && q !in c {}
  }

  lemma NewPageGrown(h: Heap, pg: nat, page: SlabPage)
    requires pg !in h.pages && page.cls < |h.slabs|
    ensures Grown(h.pages, NewPage(h, pg, page).pages, {pg})
  {
  }

  /** The pages that a request has taken into use. */
  ghost function PageTaken(taken: bool, pg: nat): set<nat> {
    if taken then {pg} else {}
  }

  /** A client holds object o of class k at address ptr. */
  ghost predicate Holds(h: Heap, place: Places, o: Obj, k: nat, ptr: nat) {
    k < CLASSES && o in place && place[o] == Held && o.0 in h.pages && h.pages[o.0].cls == k && ptr == Addr(o, k)
  }

  predicate NoMags(mags: seq<seq<nat>>) {
    |mags| == CLASSES && forall k :: 0 <= k < CLASSES ==> mags[k] == []
  }

  /** Only pages of class k have gone; the others are as before. */
  ghost predicate Shrunk(h: Heap, h': Heap, k: nat) {
    && |h'.slabs| == |h.slabs| == CLASSES && k < CLASSES
    && (forall m :: 0 <= m < CLASSES && m != k ==> h'.slabs[m] == h.slabs[m])
    && (forall pg :: pg in h'.pages ==> pg in h.pages && h'.pages[pg] == h.pages[pg])
    && (forall pg :: pg in h.pages && h.pages[pg].cls != k ==> pg in h'.pages)
  }

  /** Every page of class k has an object that is not free. */
  ghost predicate InUse(h: Heap, k: nat) {
    forall pg :: pg in h.pages && h.pages[pg].cls == k ==> h.pages[pg].free < h.pages[pg].total
  }

  lemma ShrinkKeepsUse(h: Heap, h': Heap, k: nat, m: nat)
    requires Shrunk(h, h', k) && InUse(h, m)
    ensures InUse(h', m)
  {
  }

  lemma ShrinkMore(h0: Heap, h: Heap, k: nat, i: nat)
    requires Shrunk(h0, h, k) && i < |h.slabs[k]| && h.bytes >= PAGE_SIZE
    requires h.slabs[k][i] in h.pages && h.pages[h.slabs[k][i]].cls == k
    ensures Shrunk(h0, DropPage(h, k, i), k)
  {
  }

  /** The first i pages of class k have an object that is not free. */
  ghost predicate UsedBelow(h: Heap, k: nat, i: nat) {
    k < |h.slabs| && i <= |h.slabs[k]| && forall j :: 0 <= j < i ==> UsedPage(h.pages, h.slabs[k][j])
  }

  predicate UsedPage(pages: map<nat, SlabPage>, pg: nat) {
    pg in pages && pages[pg].free < pages[pg].total
  }

  lemma UsedAfterDrop(h: Heap, k: nat, i: nat)
    requires UsedBelow(h, k, i) && i < |h.slabs[k]| && h.bytes >= PAGE_SIZE
    requires h.slabs[k][i] in h.pages && h.pages[h.slabs[k][i]].free == h.pages[h.slabs[k][i]].total
    ensures UsedBelow(DropPage(h, k, i), k, i)
  {
    var r := DropPage(h, k, i);
    forall j | 0 <= j < i ensures UsedPage(r.pages, r.slabs[k][j]) {
      assert UsedPage(h.pages, h.slabs[k][j]);
    }
  }

  lemma PageAt(h: Heap, place: Places, k: nat, i: nat)
    requires Inv(h, place) && k < CLASSES && i < |h.slabs[k]|
    ensures var pg := h.slabs[k][i];
      pg in h.pages && h.pages[pg].cls == k && 0 < h.pages[pg].total && h.pages[pg].free <= h.pages[pg].total
  {
    var pg := h.slabs[k][i];
    assert SlabOk(h.slabs[k], h.pages, k) && pg in h.slabs[k];
    assert PageOk(pg, h.pages[pg], place);
  }

  lemma HeldWithoutPage(place: Places, pg: nat)
    requires forall o :: o in place && o.0 == pg ==> place[o] == Free
    ensures HeldSet(WithoutPage(place, pg)) == HeldSet(place)
  {
  }

  /** With the magazines empty, a page not wholly free holds an object in a client's hands. */
  lemma PagesHoldLive(h: Heap, place: Places)
    requires Inv(h, place) && forall c :: 0 <= c < |h.mags| ==> NoMags(h.mags[c])
    requires forall k :: 0 <= k < CLASSES ==> InUse(h, k)
    ensures forall pg :: pg in h.pages <==> exists o :: o in HeldSet(place) && o.0 == pg
  {
    forall pg | pg in h.pages ensures exists o :: o in HeldSet(place) && o.0 == pg {
      var page := h.pages[pg];
      assert PageOk(pg, page, place) && InUse(h, page.cls);
      CountFull(page.bits, page.total);
      var i: nat :| i < page.total && !Test(page.bits, 8, i);
      var o: Obj := (pg, i);
      assert ObjOk(h.pages, h.mags, place, o);
      NotInMag(h, place, o);
      assert o in HeldSet(place);
    }
    forall o | o in HeldSet(place) ensures o.0 in h.pages { assert ObjOk(h.pages, h.mags, place, o); }
  }

  lemma NotInMag(h: Heap, place: Places, o: Obj)
    requires Inv(h, place) && o in place && forall c :: 0 <= c < |h.mags| ==> NoMags(h.mags[c])
    ensures !place[o].Mag?
  {
    assert ObjOk(h.pages, h.mags, place, o) && PageOk(o.0, h.pages[o.0], place);
    forall c, k | 0 <= c < |h.mags| && 0 <= k < CLASSES ensures !InMag(place, o, c, k) {
      assert MagOk(h.mags[c][k], place, c, k) && NoMags(h.mags[c]);
    }
    assert place[o].Mag? ==> InMag(place, o, place[o].cpu, place[o].cls);
  }

  ghost predicate NoneFree(place: Places, pg: nat, n: nat) {
    forall i: nat :: i < n ==> (pg, i) in place && place[(pg, i)] != Free
  }

  lemma FreshObjects(h: Heap, place: Places, pg: nat, n: nat)
    requires Inv(h, place) && pg !in h.pages && n > 0
    ensures HeldSet(WithFree(place, pg, n)) == HeldSet(place)
    ensures (pg, 0) in WithFree(place, pg, n) && WithFree(place, pg, n)[(pg, 0)] == Free
  {
    forall o | o in place ensures o.0 != pg { assert ObjOk(h.pages, h.mags, place, o); }
    FreshPlaces(place, pg, n);
  }

  lemma FreshPlaces(place: Places, pg: nat, n: nat)
    requires n > 0 && forall o :: o in place ==> o.0 != pg
    ensures HeldSet(WithFree(place, pg, n)) == HeldSet(place)
    ensures (pg, 0) in WithFree(place, pg, n) && WithFree(place, pg, n)[(pg, 0)] == Free
  {
  }

  lemma {:induction false} SumAllEmpty(slabs: seq<seq<nat>>)
    requires forall k :: 0 <= k < |slabs| ==> slabs[k] == []
    ensures SumAll(slabs, map[]) == 0
    decreases |slabs|
  {
    if slabs != [] { SumAllEmpty(slabs[..|slabs| - 1]); }
  }

  lemma AllOnes(i: nat)
    requires i < 8
    ensures Bit(0xFF, i)
  {
    assert Bit(0xFF, 0) && Bit(0x7F, 0) && Bit(0x3F, 0) && Bit(0x1F, 0) && Bit(0x0F, 0) && Bit(0x07, 0) &&
      Bit(0x03, 0) && Bit(0x01, 0);
    assert Bit(0x03, 1) && Bit(0x07, 2) && Bit(0x0F, 3) && Bit(0x1F, 4) && Bit(0x3F, 5) && Bit(0x7F, 6) && Bit(0xFF, 7);
    assert Bit(0x07, 1) && Bit(0x0F, 2) && Bit(0x1F, 3) && Bit(0x3F, 4) && Bit(0x7F, 5) && Bit(0xFF, 6);
    assert Bit(0x0F, 1) && Bit(0x1F, 2) && Bit(0x3F, 3) && Bit(0x7F, 4) && Bit(0xFF, 5);
    assert Bit(0x1F, 1) && Bit(0x3F, 2) && Bit(0x7F, 3) && Bit(0xFF, 4);
    assert Bit(0x3F, 1) && Bit(0x7F, 2) && Bit(0xFF, 3);
    assert Bit(0x7F, 1) && Bit(0xFF, 2);
    assert Bit(0xFF, 1);
  }

  /** Object q is a free object of class k. */
  ghost predicate FreeIn(h: Heap, place: Places, k: nat, q: Obj) {
    q in place && place[q] == Free && q.0 in h.pages && h.pages[q.0].cls == k
  }

  /** Some page of class k has a free object. */
  ghost predicate HasFree(h: Heap, place: Places, k: nat) {
    exists q :: FreeIn(h, place, k, q)
  }

  /** The first free object of class k: on the first page of the class that has one, the one with
      the lowest slot. */
  ghost predicate FirstFree(h: Heap, place: Places, k: nat, o: Obj) {
    && FreeIn(h, place, k, o) && k < CLASSES == |h.slabs|
    && exists n :: (0 <= n < |h.slabs[k]| && h.slabs[k][n] == o.0 && NoneFree(place, o.0, o.1)
      && forall m :: 0 <= m < n ==> NoneFree(place, h.slabs[k][m], Total(k)))
  }

  /** There is only one such object. */
  lemma FirstFreeOne(h: Heap, place: Places, k: nat, o: Obj, q: Obj)
    requires Inv(h, place) && k < CLASSES && FirstFree(h, place, k, o) && FirstFree(h, place, k, q)
    ensures o == q
  {
    var l := h.slabs[k];
    var n :| 0 <= n < |l| && l[n] == o.0 && NoneFree(place, o.0, o.1)
      && forall m :: 0 <= m < n ==> NoneFree(place, l[m], Total(k));
    var i :| 0 <= i < |l| && l[i] == q.0 && NoneFree(place, q.0, q.1)
      && forall m :: 0 <= m < i ==> NoneFree(place, l[m], Total(k));
    assert ObjOk(h.pages, h.mags, place, o) && PageOk(o.0, h.pages[o.0], place);
    assert ObjOk(h.pages, h.mags, place, q) && PageOk(q.0, h.pages[q.0], place);
    assert (o.0, o.1) == o && (q.0, q.1) == q;
    var t := Total(k);
    assert !(n < i && NoneFree(place, o.0, t)) && !(i < n && NoneFree(place, q.0, t));
  }

  /** Where a request on CPU c for an object of class k is served from: the newest entry of the
      CPU's magazine, else the first free object, else the first slot of the fresh page. */
  ghost predicate ServedFrom(h: Heap, place: Places, c: nat, k: nat, newPage: nat, o: Obj, ptr: nat)
    requires c < |h.mags| && k < |h.mags[c]|
  {
    var l := h.mags[c][k];
    if l != [] then ptr == l[|l| - 1]
    else if HasFree(h, place, k) then FirstFree(h, place, k, o) else o == (newPage, 0)
  }

  /** The CPU's magazine after the request. */
  function Popped(l: seq<nat>): seq<nat> {
    if l == [] then [] else l[..|l| - 1]
  }

  /** The magazine after an address is given back: the older half stays if there was no room. */
  function Returned(l: seq<nat>, ptr: nat): seq<nat> {
    (if |l| < MAG_SIZE then l else l[..|l| / 2]) + [ptr]
  }

  class Kmalloc {
    var h: Heap
    ghost var place: Places

    ghost predicate Valid()
      reads this
    {
      Inv(h, place)
    }

    /** kmalloc_init */
    constructor (cpus: nat)
      ensures Valid() && place == map[] && h.pages == map[] && |h.mags| == cpus
    {
      h := Heap(map[], seq(CLASSES, _ => []), seq(cpus, _ => seq(CLASSES, _ => [])), 0, 0);
      place := map[];
      new;
      SumAllEmpty(h.slabs);
    }

    /** One round of a flush loop. */
    method FlushOne(c: nat, k: nat, l: seq<nat>, keep: nat, i: nat)
      requires c < |h.mags| && k < CLASSES == |h.mags[c]| && keep <= i < |l|
      requires Inv(WithMag(h, c, k, l[..keep] + l[i..]), place)
      modifies this
      ensures h.mags == old(h).mags && h.slabs == old(h).slabs && SameClasses(old(h).pages, h.pages)
      ensures Inv(WithMag(h, c, k, l[..keep] + l[i + 1..]), place)
      ensures HeldSet(place) == HeldSet(old(place))
    {
      FlushEntry(h, place, c, k, l, keep, i);
      var o: Obj := ObjOf(l[i], k);
      FlushStep(h, place, c, k, l, keep, i, o);
      HeldFrame(place, o, Free);
      if o.1 < h.pages[o.0].total {
        h := SetHeap(h, o, true);
      }
      place := place[o := Free];
    }

    /** kmag_flush (keep = 0) and kmag_flush_half: entries from `keep` on go back to their pages. */
    method Flush(c: nat, k: nat, keep: nat)
      requires Valid() && c < |h.mags| && k < CLASSES && keep <= |h.mags[c][k]|
      modifies this
      ensures Valid() && HeldSet(place) == HeldSet(old(place))
      ensures h.mags == SetMag(old(h).mags, c, k, old(h).mags[c][k][..keep])
      ensures h.slabs == old(h).slabs && SameClasses(old(h).pages, h.pages)
    {
      var l := h.mags[c][k];
      SplitAt(l, keep);
      SameMag(h.mags, c, k, l, l);
      assert WithMag(h, c, k, l) == h;
      for i := keep to |l|
        invariant h.mags == old(h).mags && h.slabs == old(h).slabs && SameClasses(old(h).pages, h.pages)
        invariant Inv(WithMag(h, c, k, l[..keep] + l[i..]), place)
        invariant HeldSet(place) == HeldSet(old(place))
      {
        FlushOne(c, k, l, keep, i);
      }
      NoRest(l, keep);
      h := h.(mags := SetMag(h.mags, c, k, l[..keep]));
    }

    /** The magazine section of kmalloc. */
    method MagTake(c: nat, k: nat) returns (ptr: nat, ghost o: Obj)
      requires Valid() && c < |h.mags| && k < CLASSES
      modifies this
      ensures Valid()
      ensures ptr == 0 <==> old(h).mags[c][k] == []
      ensures ptr == 0 ==> h == old(h) && place == old(place)
      ensures ptr != 0 ==> Granted(h, old(place), place, o, k, ptr) && h.slabs == old(h).slabs
      ensures h.pages == old(h).pages && |h.mags| == |old(h).mags|
      ensures h.mags == SetMag(old(h).mags, c, k, Popped(old(h).mags[c][k]))
      ensures ptr != 0 ==> ptr == old(h).mags[c][k][|old(h).mags[c][k]| - 1]
    {
      var n := |h.mags[c][k]|;
      SameMag(h.mags, c, k, [], []);
      o := (0, 0);
      if n == 0 { return 0, o; }
      MagEntry(h, place, c, k, n - 1);
      MagDropInv(h, place, c, k, n - 1);
      ptr := h.mags[c][k][n - 1];
      o := ObjOf(ptr, k);
      assert RemoveAt(h.mags[c][k], n - 1) == h.mags[c][k][..n - 1];
      h := h.(mags := SetMag(h.mags, c, k, h.mags[c][k][..n - 1]));
      place := place[o := Held];
    }

    /** The walk over a class's pages for the first free object. */
    method FindFree(k: nat) returns (found: bool, o: Obj)
      requires Valid() && k < CLASSES
      ensures found ==> o.0 in h.pages && h.pages[o.0].cls == k && o in place && place[o] == Free
      ensures found <==> HasFree(h, place, k)
      ensures found ==> FirstFree(h, place, k, o)
    {
      ghost var l := h.slabs[k];
      assert SlabOk(l, h.pages, k);
      for n := 0 to |h.slabs[k]|
        invariant forall m :: 0 <= m < n ==> NoneFree(place, l[m], Total(k))
      {
        var pg := h.slabs[k][n];
        assert pg in l;
        var page := h.pages[pg];
        assert PageOk(pg, page, place);
        for i := 0 to page.total
          invariant forall j: nat :: j < i ==> !Test(page.bits, 8, j)
        {
          if Test(page.bits, 8, i) {
            assert FreeIn(h, place, k, (pg, i));
            assert NoneFree(place, pg, i) && h.slabs[k][n] == pg;
            return true, (pg, i);
          }
        }
      }
      forall q | q in place && place[q] == Free ensures !FreeIn(h, place, k, q) {
        assert ObjOk(h.pages, h.mags, place, q) && PageOk(q.0, h.pages[q.0], place);
        assert q == (q.0, q.1) && (q.0 in l ==> NoneFree(place, q.0, Total(k)));
      }
      return false, (0, 0);
    }

    /** Take a free object out of its page's bitmap. */
    method TakeFree(o: Obj)
      requires Valid() && o in place && place[o] == Free
      modifies this
      ensures Valid() && place == old(place)[o := Held] && h.mags == old(h).mags
      ensures o.0 in h.pages && SameClasses(old(h).pages, h.pages)
    {
      SetHeapInv(h, place, o, false);
      h := SetHeap(h, o, false);
      place := place[o := Held];
    }

    /** The bitmap of a fresh slab page: the first `total` bits set. */
    method FreshBits(total: nat) returns (bits: seq<nat>)
      requires total <= MAX_OBJS
      ensures |bits| == MAX_OBJS / 8 && forall i: nat :: i < MAX_OBJS ==> (Test(bits, 8, i) <==> i < total)
    {
      bits := seq(MAX_OBJS / 8, _ => 0xFF);
      forall i: nat | i < MAX_OBJS ensures Test(bits, 8, i) { AllOnes(i % 8); }
      for i := total to MAX_OBJS
        invariant |bits| == MAX_OBJS / 8
        invariant forall j: nat :: j < MAX_OBJS ==> (Test(bits, 8, j) <==> j < total || j >= i)
      {
        ghost var was := bits;
        bits := Unmark(bits, 8, i);
        forall j: nat ensures Test(bits, 8, j) == (j != i && Test(was, 8, j)) { TestAfterUnmark(was, 8, i, j); }
      }
    }

    /** slab_new_page on a page from the page allocator. */
    method NewSlab(k: nat, pg: nat)
      requires Valid() && k < CLASSES && pg !in h.pages
      modifies this
      ensures Valid() && pg in h.pages && h.pages[pg].cls == k
      ensures Grown(old(h).pages, h.pages, {pg}) && h.mags == old(h).mags
      ensures (pg, 0) in place && place[(pg, 0)] == Free && HeldSet(place) == HeldSet(old(place))
    {
      var bits := FreshBits(Total(k));
      var page := SlabPage(k, Total(k), Total(k), bits);
      AddPage(pg, page);
    }

    /** Link a page whose objects are all free. */
    method AddPage(pg: nat, page: SlabPage)
      requires Valid() && pg !in h.pages && IsFreshPage(page)
      modifies this
      ensures Valid() && pg in h.pages && h.pages[pg].cls == page.cls
      ensures Grown(old(h).pages, h.pages, {pg}) && h.mags == old(h).mags
      ensures (pg, 0) in place && place[(pg, 0)] == Free && HeldSet(place) == HeldSet(old(place))
    {
      NewPageInv(h, place, pg, page);
      FreshObjects(h, place, pg, page.total);
      NewPageGrown(h, pg, page);
      h := NewPage(h, pg, page);
      place := WithFree(place, pg, page.total);
    }

    /** kmalloc past the magazines: a free object of the class, from a fresh page if need be. */
    method AllocHeap(k: nat, newPage: nat) returns (ptr: nat, ghost o: Obj)
      requires Valid() && k < CLASSES && newPage !in h.pages
      modifies this
      ensures Valid() && (ptr == 0 <==> newPage == 0 && !HasFree(old(h), old(place), k))
      ensures ptr == 0 ==> h == old(h) && place == old(place)
      ensures ptr != 0 ==> Granted(h, old(place), place, o, k, ptr)
      ensures ptr != 0 ==>
        if HasFree(old(h), old(place), k) then FirstFree(old(h), old(place), k, o) else o == (newPage, 0)
      ensures h.mags == old(h).mags
      ensures Grown(old(h).pages, h.pages, PageTaken(newPage != 0 && !HasFree(old(h), old(place), k), newPage))
    {
      o := (0, 0);
      var found, obj := FindFree(k);
      if found {
        ptr := GrantFree(obj, k);
        o := obj;
        return;
      }
      if newPage == 0 { return 0, o; }
      NewSlab(k, newPage);
      ptr := GrantFree((newPage, 0), k);
      o := (newPage, 0);
    }

    /** Hand a free object out. */
    method GrantFree(o: Obj, k: nat) returns (ptr: nat)
      requires Valid() && FreeIn(h, place, k, o) && k < CLASSES
      modifies this
      ensures Valid() && ptr != 0 && Granted(h, old(place), place, o, k, ptr)
      ensures h.mags == old(h).mags && SameClasses(old(h).pages, h.pages)
    {
      TakeFree(o);
      ptr := Addr(o, k);
      assert HeldSet(place) == HeldSet(old(place)) + {o};
    }

    /** kmalloc for a slab-sized request: the object is of the smallest class that fits, was in
        nobody's hands, and no other object changes hands. `newPage` is the page the page allocator
        offers, 0 if it has none; a request fails exactly then, if this CPU's magazine of the class is
        empty and no page of the class has a free object. */
    method Alloc(c: nat, size: nat, newPage: nat) returns (ptr: nat, ghost o: Obj, ghost k: nat)
      requires Valid() && c < |h.mags| && size <= 1024 && newPage !in h.pages
      modifies this
      ensures Valid() && k < CLASSES && (size > 0 ==> size <= Size(k) && (k > 0 ==> Size(k - 1) < size))
      ensures ptr == 0 <==> size == 0 || (newPage == 0 && old(h).mags[c][k] == [] && !HasFree(old(h), old(place), k))
      ensures ptr != 0 ==> Granted(h, old(place), place, o, k, ptr)
      ensures ptr == 0 ==> h == old(h) && place == old(place)
      ensures ptr != 0 ==> ServedFrom(old(h), old(place), c, k, newPage, o, ptr)
      ensures h.mags == if size == 0 then old(h).mags else SetMag(old(h).mags, c, k, Popped(old(h).mags[c][k]))
      ensures |h.mags| == |old(h).mags|
      ensures Grown(old(h).pages, h.pages,
        PageTaken(size > 0 && newPage != 0 && old(h).mags[c][k] == [] && !HasFree(old(h), old(place), k), newPage))
    {
      o, k := (0, 0), 0;
      if size == 0 { return 0, o, k; }
      var idx := SlabIndex(size);
      k := idx;
      ptr, o := MagTake(c, idx);
      if ptr == 0 { ptr, o := AllocHeap(idx, newPage); }
    }

    /** The magazine section of kfree. */
    method MagPut(c: nat, ptr: nat, k: nat, ghost o: Obj) returns (ok: bool)
      requires Valid() && c < |h.mags| && Holds(h, place, o, k, ptr)
      modifies this
      ensures Valid() && h.pages == old(h).pages && |h.mags| == |old(h).mags|
      ensures ok <==> |old(h).mags[c][k]| < MAG_SIZE
      ensures ok ==> place == old(place)[o := Mag(c, k)]
      ensures ok ==> h == WithMag(old(h), c, k, old(h).mags[c][k] + [ptr])
      ensures !ok ==> h == old(h) && place == old(place)
    {
      if |h.mags[c][k]| < MAG_SIZE {
        MagPushInv(h, place, c, o);
        h := h.(mags := SetMag(h.mags, c, k, h.mags[c][k] + [ptr]));
        place := place[o := Mag(c, k)];
        return true;
      }
      return false;
    }

    /** kfree of an object the client holds: exactly that object leaves clients' hands. */
    method Release(c: nat, ptr: nat, ghost o: Obj)
      requires Valid() && c < |h.mags|
      requires ptr != 0 ==>
        o in place && place[o] == Held && o.0 in h.pages && h.pages[o.0].cls < CLASSES &&
          ptr == Addr(o, h.pages[o.0].cls)
      modifies this
      ensures Valid()
      ensures HeldSet(place) == HeldSet(old(place)) - if ptr != 0 then {o} else {}
      ensures SameClasses(old(h).pages, h.pages) && |h.mags| == |old(h).mags|
      ensures ptr == 0 ==> h == old(h)
      ensures ptr != 0 ==>
        var k := old(h).pages[o.0].cls;
        h.mags == SetMag(old(h).mags, c, k, Returned(old(h).mags[c][k], ptr))
    {
      if ptr == 0 { return; }
      assert ObjOk(h.pages, h.mags, place, o) && PageOk(o.0, h.pages[o.0], place);
      PointerRoundTrip(o, h.pages[o.0].cls);
      var pg := ptr / PAGE_SIZE;
      var k := h.pages[pg].cls;
      var ok := MagPut(c, ptr, k, o);
      if ok { return; }
      ghost var l := h.mags[c][k];
      Flush(c, k, |h.mags[c][k]| / 2);
      assert o in HeldSet(place);
      ok := MagPut(c, ptr, k, o);
      SameMag(old(h).mags, c, k, l[..|l| / 2], Returned(l, ptr));
    }

    /** kmag_flush_one_cpu */
    method FlushCpu(c: nat)
      requires Valid() && c < |h.mags|
      modifies this
      ensures Valid() && HeldSet(place) == HeldSet(old(place)) && |h.mags| == |old(h).mags|
      ensures h.slabs == old(h).slabs && SameClasses(old(h).pages, h.pages)
      ensures NoMags(h.mags[c]) && forall d :: 0 <= d < |h.mags| && d != c ==> h.mags[d] == old(h).mags[d]
    {
      for k := 0 to CLASSES
        invariant Valid() && HeldSet(place) == HeldSet(old(place)) && |h.mags| == |old(h).mags|
        invariant h.slabs == old(h).slabs && SameClasses(old(h).pages, h.pages)
        invariant forall m :: 0 <= m < k ==> h.mags[c][m] == []
        invariant forall d :: 0 <= d < |h.mags| && d != c ==> h.mags[d] == old(h).mags[d]
      {
        if |h.mags[c][k]| > 0 { Flush(c, k, 0); }
      }
    }

    /** kmag_flush_all */
    method FlushAll()
      requires Valid()
      modifies this
      ensures Valid() && HeldSet(place) == HeldSet(old(place)) && |h.mags| == |old(h).mags|
      ensures h.slabs == old(h).slabs && SameClasses(old(h).pages, h.pages)
      ensures forall c :: 0 <= c < |h.mags| ==> NoMags(h.mags[c])
    {
      for c := 0 to |h.mags|
        invariant Valid() && HeldSet(place) == HeldSet(old(place)) && |h.mags| == |old(h).mags|
        invariant h.slabs == old(h).slabs && SameClasses(old(h).pages, h.pages)
        invariant forall d :: 0 <= d < c ==> NoMags(h.mags[d])
      {
        FlushCpu(c);
      }
    }

    /** Return a page with no object in use to the page allocator. */
    method DropEmpty(k: nat, i: nat)
      requires Valid() && k < CLASSES && i < |h.slabs[k]|
      requires h.slabs[k][i] in h.pages && h.pages[h.slabs[k][i]].free == h.pages[h.slabs[k][i]].total
      modifies this
      ensures Valid() && HeldSet(place) == HeldSet(old(place))
      ensures old(h).bytes >= PAGE_SIZE && h == DropPage(old(h), k, i) && |h.pages| + 1 == |old(h).pages|
    {
      var pg := h.slabs[k][i];
      DropPageInv(h, place, k, i);
      PageCount(h.pages, pg, h.pages[pg]);
      HeldWithoutPage(place, pg);
      h := DropPage(h, k, i);
      place := WithoutPage(place, pg);
    }

    /** The walk of kmalloc_compact over one class. */
    method CompactClass(k: nat) returns (freed: nat, gone: seq<nat>)
      requires Valid() && k < CLASSES
      modifies this
      ensures Valid() && HeldSet(place) == HeldSet(old(place)) && h.mags == old(h).mags
      ensures Shrunk(old(h), h, k) && freed + |h.pages| == |old(h).pages|
      ensures InUse(h, k) && Reduced(old(h).pages, h.pages, gone)
    {
      freed, gone := 0, [];
      var i := 0;
      assert SlabOk(h.slabs[k], h.pages, k);
      while i < |h.slabs[k]|
        invariant Valid() && HeldSet(place) == HeldSet(old(place)) && h.mags == old(h).mags
        invariant Shrunk(old(h), h, k) && freed + |h.pages| == |old(h).pages| && i <= |h.slabs[k]|
        invariant UsedBelow(h, k, i) && Reduced(old(h).pages, h.pages, gone)
        decreases |h.slabs[k]| - i
      {
        var pg := h.slabs[k][i];
        PageAt(h, place, k, i);
        if h.pages[pg].free == h.pages[pg].total && h.pages[pg].total > 0 {
          ghost var was := h;
          DropEmpty(k, i);
          ShrinkMore(old(h), was, k, i);
          UsedAfterDrop(was, k, i);
          ReducedMore(old(h).pages, was.pages, gone, pg);
          freed, gone := freed + 1, gone + [pg];
        } else {
          i := i + 1;
        }
      }
    }

    /** kmalloc_compact: afterwards a page is a slab page exactly if it holds an object in a
        client's hands, and no such object has been touched. `gone` are the pages given back. */
    method Compact() returns (freed: nat, gone: seq<nat>)
      requires Valid()
      modifies this
      ensures Valid() && HeldSet(place) == HeldSet(old(place))
      ensures forall pg :: pg in h.pages <==> exists o :: o in HeldSet(place) && o.0 == pg
      ensures freed + |h.pages| == |old(h).pages|
      ensures Reduced(old(h).pages, h.pages, gone) && |h.mags| == |old(h).mags|
    {
      FlushAll();
      freed, gone := 0, [];
      assert |h.pages| == |h.pages.Keys| && |old(h).pages| == |old(h).pages.Keys|;
      for k := 0 to CLASSES
        invariant Valid() && HeldSet(place) == HeldSet(old(place))
        invariant forall c :: 0 <= c < |h.mags| ==> NoMags(h.mags[c])
        invariant freed + |h.pages| == |old(h).pages|
        invariant Reduced(old(h).pages, h.pages, gone) && |h.mags| == |old(h).mags|
        invariant forall m :: 0 <= m < k ==> InUse(h, m)
      {
        ghost var was := h;
        var n, more := CompactClass(k);
        forall m | 0 <= m < k ensures InUse(h, m) { ShrinkKeepsUse(was, h, k, m); }
        ReducedOn(old(h).pages, was.pages, h.pages, gone, more);
        freed, gone := freed + n, gone + more;
      }
      PagesHoldLive(h, place);
    }
  }
}
