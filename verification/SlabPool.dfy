/** The slab allocator's state: slab pages with a bitmap of free objects, seven size classes,
    and per-CPU magazines of freed objects. Pages are named by their number; an object is a
    page and a slot; a pointer is an address. */
module SlabPool {
  import opened Bits
  import opened Seqs

  const PAGE_SIZE := 4096
  const MAX_OBJS := 128
  /** The size of the page header's fields, rounded up to their alignment, and of its bitmap. */
  const FIELDS := 24
  const BITMAP := 16
  const HEADER := FIELDS + BITMAP
  const MIN_SHIFT := 4
  const CLASSES := 7
  const MAG_SIZE := 8

  /** Bytes per object of a size class. */
  function Size(k: nat): (r: nat)
    requires k < CLASSES
    ensures 16 <= r <= 1024
  {
    [16, 32, 64, 128, 256, 512, 1024][k]
  }

  /** Objects per page of a size class. */
  function Total(k: nat): (r: nat)
    requires k < CLASSES
    ensures 0 < r <= MAX_OBJS
  {
    var n := (PAGE_SIZE - HEADER) / Size(k);
    if n > MAX_OBJS then MAX_OBJS else if n < 1 then 1 else n
  }

  type Obj = (nat, nat)

  function Addr(o: Obj, k: nat): nat
    requires k < CLASSES
  {
    PAGE_SIZE * o.0 + HEADER + o.1 * Size(k)
  }

  /** The page a pointer lies in, and its slot there. */
  function ObjOf(ptr: nat, k: nat): Obj
    requires k < CLASSES
  {
    (ptr / PAGE_SIZE, if ptr % PAGE_SIZE >= HEADER then (ptr % PAGE_SIZE - HEADER) / Size(k) else 0)
  }

  /** Objects fit behind the header, and a pointer finds its object again. */
  lemma PointerRoundTrip(o: Obj, k: nat)
    requires k < CLASSES && o.1 < Total(k)
    ensures HEADER + o.1 * Size(k) + Size(k) <= PAGE_SIZE
    ensures Addr(o, k) / PAGE_SIZE == o.0 && ObjOf(Addr(o, k), k) == o
  {
    var off := HEADER + o.1 * Size(k);
    SlotFits(o.1, k);
    assert Addr(o, k) == PAGE_SIZE * o.0 + off;
    assert Addr(o, k) / PAGE_SIZE == o.0 && Addr(o, k) % PAGE_SIZE == off;
  }

  lemma SlotFits(i: nat, k: nat)
    requires k < CLASSES && i < Total(k)
    ensures HEADER + i * Size(k) + Size(k) <= PAGE_SIZE
    ensures i * Size(k) / Size(k) == i
  {
    if k == 0 {} else if k == 1 {} else if k == 2 {} else if k == 3 {} else if k == 4 {} else if k == 5 {} else {}
  }

  /** Two different objects never share a byte. */
  lemma NoOverlap(o: Obj, k: nat, q: Obj, m: nat)
    requires k < CLASSES && m < CLASSES && o.1 < Total(k) && q.1 < Total(m) && o != q
    requires o.0 == q.0 ==> k == m
    ensures Addr(o, k) + Size(k) <= Addr(q, m) || Addr(q, m) + Size(m) <= Addr(o, k)
  {
    SlotFits(o.1, k);
    SlotFits(q.1, m);
    if o.0 == q.0 {
      if o.1 < q.1 {
        SlotsApart(o.1, q.1, k);
      } else {
        SlotsApart(q.1, o.1, k);
      }
    }
  }

  lemma SlotsApart(i: nat, j: nat, k: nat)
    requires k < CLASSES && i < j
    ensures i * Size(k) + Size(k) <= j * Size(k)
  {
    assert (i + 1) * Size(k) <= j * Size(k);
  }

  // ----- The page header -----

  /** The fields of a slab page's header, and the bytes of the bitmap behind them. */
  datatype Field = NextPage | MagicWord | FreeCount | TotalCount | Shift | BitmapByte(i: nat)

  predicate FieldOk(f: Field) {
    f.BitmapByte? ==> f.i < BITMAP
  }

  /** Where a field lies in its page. */
  function Offset(f: Field): nat {
    match f
    case NextPage => 0
    case MagicWord => 8
    case FreeCount => 12
    case TotalCount => 14
    case Shift => 16
    case BitmapByte(i) => FIELDS + i
  }

  function Width(f: Field): nat {
    match f
    case NextPage => 8
    case MagicWord => 4
    case FreeCount => 2
    case TotalCount => 2
    case Shift => 1
    case BitmapByte(_) => 1
  }

  /** No two fields of a header share a byte, and each lies at a multiple of its width. */
  lemma FieldsApart(f: Field, g: Field)
    requires FieldOk(f) && FieldOk(g) && f != g
    ensures Offset(f) + Width(f) <= Offset(g) || Offset(g) + Width(g) <= Offset(f)
    ensures Offset(f) % Width(f) == 0
  {
  }

  /** No object, of any page and class, shares a byte with the header of any page. */
  lemma HeaderApart(o: Obj, k: nat, pg: nat, f: Field)
    requires k < CLASSES && o.1 < Total(k) && FieldOk(f)
    ensures var at := PAGE_SIZE * pg + Offset(f);
      at + Width(f) <= Addr(o, k) || Addr(o, k) + Size(k) <= at
  {
    SlotFits(o.1, k);
    if pg <= o.0 {
      assert PAGE_SIZE * pg <= PAGE_SIZE * o.0 && 0 <= o.1 * Size(k);
    } else {
      assert PAGE_SIZE * (o.0 + 1) <= PAGE_SIZE * pg;
    }
  }

  /** A page has as many objects as fit behind the header and have a bit in the bitmap. */
  lemma TotalIsMost(k: nat, n: nat)
    requires k < CLASSES
    ensures n <= Total(k) <==> HEADER + n * Size(k) <= PAGE_SIZE && n <= 8 * BITMAP
  {
    if k == 0 {} else if k == 1 {} else if k == 2 {} else if k == 3 {} else if k == 4 {} else if k == 5 {} else {}
  }

  // ----- State -----

  datatype SlabPage = SlabPage(cls: nat, total: nat, free: nat, bits: seq<nat>)

  datatype Heap = Heap(pages: map<nat, SlabPage>, slabs: seq<seq<nat>>, mags: seq<seq<seq<nat>>>, used: int, bytes: nat)

  /** Every object is free in its page's bitmap, in a magazine, or held by a client. */
  datatype Place = Free | Mag(cpu: nat, cls: nat) | Held

  type Places = map<Obj, Place>

  /** The number of free bits below n. */
  function CountSet(bits: seq<nat>, n: nat): (r: nat)
    ensures r <= n
  {
    if n == 0 then 0 else CountSet(bits, n - 1) + if Test(bits, 8, n - 1) then 1 else 0
  }

  lemma {:induction false} CountAfterPut(bits: seq<nat>, i: nat, n: nat)
    requires i / 8 < |bits|
    ensures !Test(bits, 8, i) ==> CountSet(Mark(bits, 8, i), n) == CountSet(bits, n) + if i < n then 1 else 0
    ensures Test(bits, 8, i) ==> CountSet(Unmark(bits, 8, i), n) == CountSet(bits, n) - if i < n then 1 else 0
  {
    if n > 0 {
      CountAfterPut(bits, i, n - 1);
      TestAfterMark(bits, 8, i, n - 1);
      TestAfterUnmark(bits, 8, i, n - 1);
    }
  }

  lemma {:induction false} CountFull(bits: seq<nat>, n: nat)
    ensures CountSet(bits, n) == n <==> forall i: nat :: i < n ==> Test(bits, 8, i)
  {
    if n > 0 { CountFull(bits, n - 1); }
  }

  ghost predicate PageOk(pg: nat, page: SlabPage, place: Places) {
    && page.cls < CLASSES && page.total == Total(page.cls) && |page.bits| == MAX_OBJS / 8
    && page.free == CountSet(page.bits, page.total)
    && forall i: nat :: i < page.total ==> (pg, i) in place && (Test(page.bits, 8, i) <==> place[(pg, i)] == Free)
  }

  ghost predicate AllPagesOk(pages: map<nat, SlabPage>, place: Places) {
    forall pg {:trigger PageOk(pg, pages[pg], place)} :: pg in pages ==> PageOk(pg, pages[pg], place)
  }

  /** The objects are those of the slab pages, and one in a magazine is of the magazine's class. */
  ghost predicate ObjsOk(pages: map<nat, SlabPage>, mags: seq<seq<seq<nat>>>, place: Places) {
    forall o {:trigger ObjOk(pages, mags, place, o)} :: o in place ==> ObjOk(pages, mags, place, o)
  }

  predicate ObjOk(pages: map<nat, SlabPage>, mags: seq<seq<seq<nat>>>, place: Places, o: Obj)
    requires o in place
  {
    && o.0 in pages && o.1 < pages[o.0].total
    && (place[o].Mag? ==> place[o].cpu < |mags| && place[o].cls == pages[o.0].cls)
  }

  predicate InMag(place: Places, o: Obj, c: nat, k: nat) {
    o in place && place[o] == Mag(c, k)
  }

  ghost predicate SlabOk(l: seq<nat>, pages: map<nat, SlabPage>, k: nat) {
    NoDup(l) && forall pg :: pg in l <==> pg in pages && pages[pg].cls == k
  }

  /** A magazine holds the pointers of exactly the objects placed there, each once. */
  ghost predicate MagOk(l: seq<nat>, place: Places, c: nat, k: nat)
    requires k < CLASSES
  {
    && NoDup(l) && |l| <= MAG_SIZE
    && (forall i :: 0 <= i < |l| ==> InMag(place, ObjOf(l[i], k), c, k) && l[i] == Addr(ObjOf(l[i], k), k))
    && (forall o: Obj {:trigger InMag(place, o, c, k)} :: InMag(place, o, c, k) ==> Addr(o, k) in l)
  }

  /** Bytes of a page that are not free. */
  function UsedOf(page: SlabPage): int {
    if page.cls < CLASSES then (page.total - page.free) * Size(page.cls) else 0
  }

  function SumUsed(l: seq<nat>, pages: map<nat, SlabPage>): int
    requires forall i :: 0 <= i < |l| ==> l[i] in pages
  {
    if l == [] then 0 else SumUsed(l[..|l| - 1], pages) + UsedOf(pages[l[|l| - 1]])
  }

  predicate Rooted(slabs: seq<seq<nat>>, pages: map<nat, SlabPage>) {
    forall k, i :: 0 <= k < |slabs| && 0 <= i < |slabs[k]| ==> slabs[k][i] in pages
  }

  function SumAll(slabs: seq<seq<nat>>, pages: map<nat, SlabPage>): int
    requires Rooted(slabs, pages)
  {
    if slabs == [] then 0 else SumAll(slabs[..|slabs| - 1], pages) + SumUsed(slabs[|slabs| - 1], pages)
  }

  ghost predicate MagsOk(mags: seq<seq<seq<nat>>>, place: Places) {
    && (forall c :: 0 <= c < |mags| ==> |mags[c]| == CLASSES)
    && (forall c, k :: 0 <= c < |mags| && 0 <= k < CLASSES ==> MagOk(mags[c][k], place, c, k))
  }

  ghost predicate SlabsOk(slabs: seq<seq<nat>>, pages: map<nat, SlabPage>) {
    |slabs| == CLASSES && forall k :: 0 <= k < CLASSES ==> SlabOk(slabs[k], pages, k)
  }

  /** The allocator's invariant. */
  ghost predicate Inv(h: Heap, place: Places) {
    && SlabsOk(h.slabs, h.pages) && MagsOk(h.mags, place) && ObjsOk(h.pages, h.mags, place)
    && AllPagesOk(h.pages, place) && Accounts(h)
  }

  /** The byte counters: what is not free, and whole pages. */
  predicate Accounts(h: Heap) {
    Rooted(h.slabs, h.pages) && h.used == SumAll(h.slabs, h.pages) && h.bytes == PAGE_SIZE * |h.pages|
  }

  // ----- Sums -----

  lemma {:induction false} SumUsedUpdate(l: seq<nat>, pages: map<nat, SlabPage>, pg: nat, page: SlabPage)
    requires NoDup(l) && pg in pages && forall i :: 0 <= i < |l| ==> l[i] in pages
    ensures SumUsed(l, pages[pg := page]) == SumUsed(l, pages) + if pg in l then UsedOf(page) - UsedOf(pages[pg]) else 0
    decreases |l|
  {
    if l != [] {
      assert l == l[..|l| - 1] + [l[|l| - 1]];
      SumUsedUpdate(l[..|l| - 1], pages, pg, page);
    }
  }

  lemma {:induction false} SumAllUpdate(slabs: seq<seq<nat>>, pages: map<nat, SlabPage>, pg: nat, page: SlabPage,
                                        n: nat)
    requires |slabs| == CLASSES && SlabsOk(slabs, pages) && Rooted(slabs, pages) && pg in pages && n <= CLASSES
    ensures Rooted(slabs[..n], pages) && Rooted(slabs[..n], pages[pg := page])
    ensures SumAll(slabs[..n], pages[pg := page]) ==
      SumAll(slabs[..n], pages) + if pages[pg].cls < n then UsedOf(page) - UsedOf(pages[pg]) else 0
    decreases n
  {
    if n > 0 {
      SumAllUpdate(slabs, pages, pg, page, n - 1);
      assert slabs[..n][..n - 1] == slabs[..n - 1];
      assert SlabOk(slabs[n - 1], pages, n - 1);
      SumUsedUpdate(slabs[n - 1], pages, pg, page);
    }
  }

  // ----- Magazines -----

  ghost predicate SlotsFit(place: Places, c: nat, k: nat)
    requires k < CLASSES
  {
    forall o: Obj {:trigger InMag(place, o, c, k)} :: InMag(place, o, c, k) ==> o.1 < Total(k)
  }

  lemma MagRemove(l: seq<nat>, place: Places, c: nat, k: nat, i: nat, to: Place)
    requires k < CLASSES && MagOk(l, place, c, k) && SlotsFit(place, c, k) && i < |l| && to != Mag(c, k)
    ensures MagOk(RemoveAt(l, i), place[ObjOf(l[i], k) := to], c, k)
  {
    var o, place' := ObjOf(l[i], k), place[ObjOf(l[i], k) := to];
    forall q: Obj | InMag(place', q, c, k) ensures Addr(q, k) in RemoveAt(l, i) {
      assert InMag(place, q, c, k);
      PointerRoundTrip(q, k);
      MembersAfterRemove(l, i, Addr(q, k));
    }
  }

  lemma MagSnoc(l: seq<nat>, place: Places, c: nat, k: nat, o: Obj)
    requires k < CLASSES && MagOk(l, place, c, k) && o in place && place[o] != Mag(c, k) && o.1 < Total(k) &&
      |l| < MAG_SIZE
    ensures MagOk(l + [Addr(o, k)], place[o := Mag(c, k)], c, k)
  {
    PointerRoundTrip(o, k);
    var l', place' := l + [Addr(o, k)], place[o := Mag(c, k)];
    forall q: Obj | InMag(place', q, c, k) ensures Addr(q, k) in l' {
      if q != o { assert InMag(place, q, c, k); } else { assert l'[|l|] == Addr(o, k); }
    }
  }

  lemma MagFrame(l: seq<nat>, place: Places, c: nat, k: nat, o: Obj, to: Place)
    requires k < CLASSES && MagOk(l, place, c, k) && (o in place ==> place[o] != Mag(c, k)) && to != Mag(c, k)
    ensures MagOk(l, place[o := to], c, k)
  {
    forall q: Obj | InMag(place[o := to], q, c, k) ensures Addr(q, k) in l { assert InMag(place, q, c, k); }
  }

  function SetMag(mags: seq<seq<seq<nat>>>, c: nat, k: nat, l: seq<nat>): (r: seq<seq<seq<nat>>>)
    requires c < |mags| && k < |mags[c]|
    ensures |r| == |mags| && (forall d :: 0 <= d < |mags| ==> |r[d]| == |mags[d]|)
    ensures forall d, m :: 0 <= d < |mags| && 0 <= m < |mags[d]| ==>
      r[d][m] == if d == c && m == k then l else mags[d][m]
  {
    mags[c := mags[c][k := l]]
  }

  /** An object outside the magazines keeps every magazine intact when it moves elsewhere. */
  lemma MagsFrame(mags: seq<seq<seq<nat>>>, place: Places, o: Obj, to: Place)
    requires MagsOk(mags, place) && (o in place ==> !place[o].Mag?) && !to.Mag?
    ensures MagsOk(mags, place[o := to])
  {
    forall c, k | 0 <= c < |mags| && 0 <= k < CLASSES ensures MagOk(mags[c][k], place[o := to], c, k) {
      MagFrame(mags[c][k], place, c, k, o, to);
    }
  }

  /** Moving an object into or out of one magazine leaves the pages' accounts alone. */
  lemma PagesFrame(pages: map<nat, SlabPage>, place: Places, o: Obj, to: Place)
    requires AllPagesOk(pages, place) && o in place && place[o] != Free && to != Free
    ensures AllPagesOk(pages, place[o := to])
  {
    forall pg | pg in pages ensures PageOk(pg, pages[pg], place[o := to]) { assert PageOk(pg, pages[pg], place); }
  }

  lemma ObjsFrame(pages: map<nat, SlabPage>, mags: seq<seq<seq<nat>>>, mags': seq<seq<seq<nat>>>, place: Places, o: Obj,
                  to: Place)
    requires ObjsOk(pages, mags, place) && o in place && |mags'| == |mags|
    requires to.Mag? ==> to.cpu < |mags| && o.0 in pages && to.cls == pages[o.0].cls
    ensures ObjsOk(pages, mags', place[o := to])
  {
    var place' := place[o := to];
    forall q | q in place' ensures ObjOk(pages, mags', place', q) { assert ObjOk(pages, mags, place, q); }
  }

  lemma MagPushInv(h: Heap, place: Places, c: nat, o: Obj)
    requires Inv(h, place) && c < |h.mags| && o in place && place[o] == Held && o.0 in h.pages &&
      h.pages[o.0].cls < CLASSES
    requires |h.mags[c][h.pages[o.0].cls]| < MAG_SIZE
    ensures var k := h.pages[o.0].cls;
      && PageOk(o.0, h.pages[o.0], place) && o.1 < Total(k)
      && Inv(h.(mags := SetMag(h.mags, c, k, h.mags[c][k] + [Addr(o, k)])), place[o := Mag(c, k)])
  {
    var k := h.pages[o.0].cls;
    assert PageOk(o.0, h.pages[o.0], place) && ObjOk(h.pages, h.mags, place, o);
    var place' := place[o := Mag(c, k)];
    var mags' := SetMag(h.mags, c, k, h.mags[c][k] + [Addr(o, k)]);
    forall d, m | 0 <= d < |mags'| && 0 <= m < CLASSES ensures MagOk(mags'[d][m], place', d, m) {
      assert MagOk(h.mags[d][m], place, d, m);
      if d == c && m == k {
        MagSnoc(h.mags[c][k], place, c, k, o);
      } else {
        MagFrame(h.mags[d][m], place, d, m, o, Mag(c, k));
      }
    }
    PagesFrame(h.pages, place, o, Mag(c, k));
    ObjsFrame(h.pages, h.mags, mags', place, o, Mag(c, k));
  }

  lemma MagEntry(h: Heap, place: Places, c: nat, k: nat, i: nat)
    requires Inv(h, place) && c < |h.mags| && k < CLASSES && i < |h.mags[c][k]|
    ensures var o := ObjOf(h.mags[c][k][i], k);
      && o in place && place[o] == Mag(c, k) && h.mags[c][k][i] == Addr(o, k)
      && o.0 in h.pages && h.pages[o.0].cls == k && h.pages[o.0].total == Total(k) && o.1 < Total(k)
      && PageOk(o.0, h.pages[o.0], place) && SlotsFit(place, c, k)
  {
    assert MagOk(h.mags[c][k], place, c, k);
    var o := ObjOf(h.mags[c][k][i], k);
    assert InMag(place, o, c, k) && ObjOk(h.pages, h.mags, place, o);
    assert PageOk(o.0, h.pages[o.0], place);
    forall q: Obj | InMag(place, q, c, k) ensures q.1 < Total(k) {
      assert ObjOk(h.pages, h.mags, place, q);
      assert PageOk(q.0, h.pages[q.0], place);
    }
  }

  lemma MagDropInv(h: Heap, place: Places, c: nat, k: nat, i: nat)
    requires Inv(h, place) && c < |h.mags| && k < CLASSES && i < |h.mags[c][k]|
    ensures var o := ObjOf(h.mags[c][k][i], k);
      o in place && place[o] == Mag(c, k) &&
        Inv(h.(mags := SetMag(h.mags, c, k, RemoveAt(h.mags[c][k], i))), place[o := Held])
  {
    MagEntry(h, place, c, k, i);
    var l := h.mags[c][k];
    var o := ObjOf(l[i], k);
    var place', mags' := place[o := Held], SetMag(h.mags, c, k, RemoveAt(l, i));
    forall d, m | 0 <= d < |mags'| && 0 <= m < CLASSES ensures MagOk(mags'[d][m], place', d, m) {
      assert MagOk(h.mags[d][m], place, d, m);
      if d == c && m == k { MagRemove(l, place, c, k, i, Held); } else { MagFrame(h.mags[d][m], place, d, m, o, Held); }
    }
    PagesFrame(h.pages, place, o, Held);
    ObjsFrame(h.pages, h.mags, mags', place, o, Held);
  }

  // ----- Bitmaps -----

  /** The page with slot i put back (free) or taken. */
  function SetSlot(page: SlabPage, i: nat, isFree: bool): (r: SlabPage)
    requires i / 8 < |page.bits| && (isFree || page.free > 0)
  {
    if isFree then page.(bits := Mark(page.bits, 8, i), free := page.free + 1)
    else page.(bits := Unmark(page.bits, 8, i), free := page.free - 1)
  }

  function Delta(isFree: bool, k: nat): int
    requires k < CLASSES
  {
    var s: int := Size(k);
    if isFree then -s else s
  }

  /** The heap with one slot of one page taken or put back. */
  function SetHeap(h: Heap, o: Obj, isFree: bool): (r: Heap)
    requires o.0 in h.pages && o.1 / 8 < |h.pages[o.0].bits| && (isFree || h.pages[o.0].free > 0) &&
      h.pages[o.0].cls < CLASSES
  {
    var page := h.pages[o.0];
    h.(pages := h.pages[o.0 := SetSlot(page, o.1, isFree)],
       used := h.used + Delta(isFree, page.cls))
  }

  lemma SetSlotOk(o: Obj, page: SlabPage, place: Places, isFree: bool)
    requires PageOk(o.0, page, place) && o.1 < page.total && (place[o] == Free) != isFree
    ensures isFree || page.free > 0
    ensures PageOk(o.0, SetSlot(page, o.1, isFree), place[o := if isFree then Free else Held])
    ensures UsedOf(SetSlot(page, o.1, isFree)) == UsedOf(page) + Delta(isFree, page.cls)
  {
    CountAfterPut(page.bits, o.1, page.total);
    if !isFree { CountPositive(page.bits, o.1, page.total); }
    var page' := SetSlot(page, o.1, isFree);
    forall i: nat | i < page.total
      ensures Test(page'.bits, 8, i) == if i == o.1 then isFree else Test(page.bits, 8, i)
    {
      TestAfterMark(page.bits, 8, o.1, i);
      TestAfterUnmark(page.bits, 8, o.1, i);
    }
    assert (page'.total - page'.free) == (page.total - page.free) + if isFree then -1 else 1;
    Distribute(page.total - page.free, if isFree then -1 else 1, Size(page.cls));
  }

  lemma Distribute(a: int, b: int, s: int)
    ensures (a + b) * s == a * s + b * s
  {
  }

  lemma {:induction false} CountPositive(bits: seq<nat>, i: nat, n: nat)
    requires i < n && Test(bits, 8, i)
    ensures CountSet(bits, n) > 0
  {
    if i < n - 1 { CountPositive(bits, i, n - 1); }
  }

  lemma PagesAfter(pages: map<nat, SlabPage>, place: Places, o: Obj, page: SlabPage, to: Place)
    requires AllPagesOk(pages, place) && o in place && PageOk(o.0, page, place[o := to])
    ensures AllPagesOk(pages[o.0 := page], place[o := to])
  {
    var pages' := pages[o.0 := page];
    forall pg | pg in pages' ensures PageOk(pg, pages'[pg], place[o := to]) {
      if pg != o.0 { assert PageOk(pg, pages[pg], place); }
    }
  }

  lemma ObjsAfter(pages: map<nat, SlabPage>, mags: seq<seq<seq<nat>>>, place: Places, pg: nat, page: SlabPage)
    requires ObjsOk(pages, mags, place) && pg in pages && page.cls == pages[pg].cls && page.total == pages[pg].total
    ensures ObjsOk(pages[pg := page], mags, place)
  {
    forall q | q in place ensures ObjOk(pages[pg := page], mags, place, q) { assert ObjOk(pages, mags, place, q); }
  }

  lemma SlabsAfter(slabs: seq<seq<nat>>, pages: map<nat, SlabPage>, pg: nat, page: SlabPage)
    requires SlabsOk(slabs, pages) && pg in pages && page.cls == pages[pg].cls
    ensures SlabsOk(slabs, pages[pg := page])
  {
    forall k | 0 <= k < CLASSES ensures SlabOk(slabs[k], pages[pg := page], k) { assert SlabOk(slabs[k], pages, k); }
  }

  lemma AccountsAfter(h: Heap, pg: nat, page: SlabPage, used: int)
    requires SlabsOk(h.slabs, h.pages) && Accounts(h) && pg in h.pages && page.cls == h.pages[pg].cls
    requires used == h.used + UsedOf(page) - UsedOf(h.pages[pg]) && page.cls < CLASSES
    ensures Accounts(h.(pages := h.pages[pg := page], used := used))
  {
    SumAllUpdate(h.slabs, h.pages, pg, page, CLASSES);
    assert h.slabs[..CLASSES] == h.slabs;
    assert h.pages[pg := page].Keys == h.pages.Keys;
    assert |h.pages[pg := page]| == |h.pages[pg := page].Keys|;
    assert |h.pages| == |h.pages.Keys|;
  }

  /** Taking a free object out of its page's bitmap, or putting a held one back. */
  lemma SetHeapInv(h: Heap, place: Places, o: Obj, isFree: bool)
    requires Inv(h, place) && o in place && (if isFree then place[o] == Held else place[o] == Free)
    ensures o.0 in h.pages && PageOk(o.0, h.pages[o.0], place) && o.1 < h.pages[o.0].total &&
      (isFree || h.pages[o.0].free > 0)
    ensures Inv(SetHeap(h, o, isFree), place[o := if isFree then Free else Held])
  {
    var to := if isFree then Free else Held;
    assert ObjOk(h.pages, h.mags, place, o);
    assert PageOk(o.0, h.pages[o.0], place);
    SetSlotOk(o, h.pages[o.0], place, isFree);
    var r := SetHeap(h, o, isFree);
    var page := r.pages[o.0];
    MagsFrame(h.mags, place, o, to);
    PagesAfter(h.pages, place, o, page, to);
    SlabsAfter(h.slabs, h.pages, o.0, page);
    ObjsFrame(h.pages, h.mags, h.mags, place, o, to);
    ObjsAfter(h.pages, h.mags, place[o := to], o.0, page);
    AccountsAfter(h, o.0, page, r.used);
    assert r == h.(pages := h.pages[o.0 := page], used := r.used);
  }

  // ----- Pages that come and go -----

  lemma {:induction false} SumUsedAgree(l: seq<nat>, pages: map<nat, SlabPage>, other: map<nat, SlabPage>)
    requires forall i :: 0 <= i < |l| ==> l[i] in pages && l[i] in other && pages[l[i]] == other[l[i]]
    ensures SumUsed(l, pages) == SumUsed(l, other)
    decreases |l|
  {
    if l != [] { SumUsedAgree(l[..|l| - 1], pages, other); }
  }

  lemma {:induction false} SumAllAgree(slabs: seq<seq<nat>>, pages: map<nat, SlabPage>, other: map<nat, SlabPage>)
    requires Rooted(slabs, pages) && Rooted(slabs, other)
    requires forall k, i :: 0 <= k < |slabs| && 0 <= i < |slabs[k]| ==> pages[slabs[k][i]] == other[slabs[k][i]]
    ensures SumAll(slabs, pages) == SumAll(slabs, other)
    decreases |slabs|
  {
    if slabs != [] {
      SumAllAgree(slabs[..|slabs| - 1], pages, other);
      SumUsedAgree(slabs[|slabs| - 1], pages, other);
    }
  }

  lemma {:induction false} SumAllSet(slabs: seq<seq<nat>>, pages: map<nat, SlabPage>, k: nat, l: seq<nat>)
    requires Rooted(slabs, pages) && k < |slabs| && Rooted(slabs[k := l], pages)
    requires forall i :: 0 <= i < |l| ==> l[i] in pages
    ensures SumAll(slabs[k := l], pages) == SumAll(slabs, pages) - SumUsed(slabs[k], pages) + SumUsed(l, pages)
    decreases |slabs|
  {
    var n := |slabs| - 1;
    if k == n {
      assert slabs[k := l][..n] == slabs[..n];
    } else {
      assert slabs[k := l][..n] == slabs[..n][k := l];
      SumAllSet(slabs[..n], pages, k, l);
    }
  }

  lemma {:induction false} SumUsedRemove(l: seq<nat>, pages: map<nat, SlabPage>, i: nat)
    requires i < |l| && forall j :: 0 <= j < |l| ==> l[j] in pages
    ensures SumUsed(RemoveAt(l, i), pages) == SumUsed(l, pages) - UsedOf(pages[l[i]])
    decreases |l|
  {
    var n := |l| - 1;
    if i == n {
      assert RemoveAt(l, i) == l[..n];
    } else {
      SumUsedRemove(l[..n], pages, i);
      assert RemoveAt(l, i)[..n - 1] == RemoveAt(l[..n], i);
    }
  }

  function NewPage(h: Heap, pg: nat, page: SlabPage): (r: Heap)
    requires page.cls < |h.slabs|
  {
    h.(pages := h.pages[pg := page], slabs := h.slabs[page.cls := [pg] + h.slabs[page.cls]], bytes :=
      h.bytes + PAGE_SIZE)
  }

  ghost function WithFree(place: Places, pg: nat, n: nat): Places {
    place + map i: nat | i < n :: (pg, i) := Free
  }

  /** A page whose objects are all free, and whose bits say so. */
  predicate IsFreshPage(page: SlabPage) {
    && page.cls < CLASSES && page.total == page.free == Total(page.cls) && |page.bits| == MAX_OBJS / 8
    && forall i: nat :: i < page.total ==> Test(page.bits, 8, i)
  }

  lemma NewPageSlabs(slabs: seq<seq<nat>>, pages: map<nat, SlabPage>, pg: nat, page: SlabPage)
    requires SlabsOk(slabs, pages) && pg !in pages && page.cls < CLASSES
    ensures SlabsOk(slabs[page.cls := [pg] + slabs[page.cls]], pages[pg := page])
  {
    var slabs', pages' := slabs[page.cls := [pg] + slabs[page.cls]], pages[pg := page];
    forall k | 0 <= k < CLASSES ensures SlabOk(slabs'[k], pages', k) { assert SlabOk(slabs[k], pages, k); }
  }

  lemma SlabsRooted(slabs: seq<seq<nat>>, pages: map<nat, SlabPage>)
    requires SlabsOk(slabs, pages)
    ensures Rooted(slabs, pages)
  {
    forall k, i | 0 <= k < |slabs| && 0 <= i < |slabs[k]| ensures slabs[k][i] in pages {
      assert SlabOk(slabs[k], pages, k) && slabs[k][i] in slabs[k];
    }
  }

  lemma PageCount(pages: map<nat, SlabPage>, pg: nat, page: SlabPage)
    ensures pg !in pages ==> |pages[pg := page]| == |pages| + 1
    ensures pg in pages ==> |pages| > 0 && |pages - {pg}| == |pages| - 1
  {
    if pg !in pages {
      assert pages[pg := page].Keys == pages.Keys + {pg};
      assert |pages[pg := page]| == |pages[pg := page].Keys| && |pages| == |pages.Keys|;
    } else {
      assert (pages - {pg}).Keys == pages.Keys - {pg};
      assert |pages - {pg}| == |(pages - {pg}).Keys| && |pages| == |pages.Keys|;
    }
  }

  lemma EmptyUsesNothing(page: SlabPage)
    requires page.free == page.total
    ensures UsedOf(page) == 0
  {
  }

  lemma NewPageAccounts(h: Heap, pg: nat, page: SlabPage)
    requires SlabsOk(h.slabs, h.pages) && Accounts(h) && pg !in h.pages && IsFreshPage(page)
    requires SlabsOk(NewPage(h, pg, page).slabs, NewPage(h, pg, page).pages)
    ensures Accounts(NewPage(h, pg, page))
  {
    var r := NewPage(h, pg, page);
    SlabsRooted(r.slabs, r.pages);
    PageCount(h.pages, pg, page);
    NewPageUses(h.slabs, h.pages, pg, page, r.slabs, r.pages);
  }

  /** A fresh page adds nothing to the bytes in use. */
  lemma NewPageUses(slabs: seq<seq<nat>>, pages: map<nat, SlabPage>, pg: nat, page: SlabPage, slabs': seq<seq<nat>>,
                    pages': map<nat, SlabPage>)
    requires SlabsOk(slabs, pages) && Rooted(slabs, pages) && pg !in pages && IsFreshPage(page) &&
      pages' == pages[pg := page]
    requires slabs' == slabs[page.cls := [pg] + slabs[page.cls]] && SlabsOk(slabs', pages') && Rooted(slabs', pages')
    ensures SumAll(slabs', pages') == SumAll(slabs, pages)
  {
    var l := [pg] + slabs[page.cls];
    SumAllAgree(slabs, pages, pages');
    SumAllSet(slabs, pages', page.cls, l);
    SumUsedRemove(l, pages', 0);
    assert RemoveAt(l, 0) == slabs[page.cls];
    EmptyUsesNothing(page);
  }

  /** Magazines depend only on the objects placed in them. */
  lemma MagsAgree(mags: seq<seq<seq<nat>>>, place: Places, place': Places)
    requires MagsOk(mags, place)
    requires forall o :: o in place && place[o].Mag? ==> o in place' && place'[o] == place[o]
    requires forall o :: o in place' && place'[o].Mag? ==> o in place && place[o] == place'[o]
    ensures MagsOk(mags, place')
  {
    forall c, k | 0 <= c < |mags| && 0 <= k < CLASSES ensures MagOk(mags[c][k], place', c, k) {
      assert MagOk(mags[c][k], place, c, k);
      forall o: Obj | InMag(place', o, c, k) ensures Addr(o, k) in mags[c][k] { assert InMag(place, o, c, k); }
    }
  }

  lemma NewPageInv(h: Heap, place: Places, pg: nat, page: SlabPage)
    requires Inv(h, place) && pg !in h.pages && IsFreshPage(page)
    ensures Inv(NewPage(h, pg, page), WithFree(place, pg, page.total))
  {
    var r, place' := NewPage(h, pg, page), WithFree(place, pg, page.total);
    NewPageSlabs(h.slabs, h.pages, pg, page);
    NewPageAccounts(h, pg, page);
    NewPageObjs(h.pages, h.mags, place, pg, page);
    MagsAgree(h.mags, place, place');
  }

  lemma FreshPageOk(pg: nat, page: SlabPage, place: Places)
    requires IsFreshPage(page)
    ensures PageOk(pg, page, WithFree(place, pg, page.total))
  {
    CountFull(page.bits, page.total);
    var place' := WithFree(place, pg, page.total);
    forall i: nat | i < page.total ensures (pg, i) in place' && place'[(pg, i)] == Free {}
  }

  lemma NewPageObjs(pages: map<nat, SlabPage>, mags: seq<seq<seq<nat>>>, place: Places, pg: nat, page: SlabPage)
    requires AllPagesOk(pages, place) && ObjsOk(pages, mags, place) && pg !in pages && IsFreshPage(page)
    ensures AllPagesOk(pages[pg := page], WithFree(place, pg, page.total))
    ensures ObjsOk(pages[pg := page], mags, WithFree(place, pg, page.total))
    ensures forall o :: o in place ==> o.0 != pg
  {
    var pages', place' := pages[pg := page], WithFree(place, pg, page.total);
    FreshPageOk(pg, page, place);
    forall o | o in place ensures o.0 != pg { assert ObjOk(pages, mags, place, o); }
    forall q | q in pages' ensures PageOk(q, pages'[q], place') {
      if q != pg { assert PageOk(q, pages[q], place); }
    }
    forall o | o in place' ensures ObjOk(pages', mags, place', o) {
      if o in place { assert ObjOk(pages, mags, place, o); }
    }
  }

  function DropPage(h: Heap, k: nat, i: nat): (r: Heap)
    requires k < |h.slabs| && i < |h.slabs[k]| && h.bytes >= PAGE_SIZE
  {
    h.(pages := h.pages - {h.slabs[k][i]}, slabs := h.slabs[k := RemoveAt(h.slabs[k], i)], bytes := h.bytes - PAGE_SIZE)
  }

  ghost function WithoutPage(place: Places, pg: nat): Places {
    map o | o in place && o.0 != pg :: place[o]
  }

  lemma DropPageSlabs(slabs: seq<seq<nat>>, pages: map<nat, SlabPage>, k: nat, i: nat)
    requires SlabsOk(slabs, pages) && k < CLASSES && i < |slabs[k]|
    ensures SlabsOk(slabs[k := RemoveAt(slabs[k], i)], pages - {slabs[k][i]})
  {
    var pg := slabs[k][i];
    var slabs', pages' := slabs[k := RemoveAt(slabs[k], i)], pages - {pg};
    assert SlabOk(slabs[k], pages, k) && pg in slabs[k];
    forall m | 0 <= m < CLASSES ensures SlabOk(slabs'[m], pages', m) {
      assert SlabOk(slabs[m], pages, m);
      if m == k {
        forall q: nat ensures q in slabs'[k] <==> q in slabs[k] && q != pg { MembersAfterRemove(slabs[k], i, q); }
      }
    }
  }

  lemma DropPageAccounts(h: Heap, k: nat, i: nat)
    requires SlabsOk(h.slabs, h.pages) && Accounts(h) && k < CLASSES && i < |h.slabs[k]|
    requires h.pages[h.slabs[k][i]].free == h.pages[h.slabs[k][i]].total
    ensures h.bytes >= PAGE_SIZE && Accounts(DropPage(h, k, i))
  {
    var pg, l := h.slabs[k][i], RemoveAt(h.slabs[k], i);
    PageCount(h.pages, pg, h.pages[pg]);
    EmptyUsesNothing(h.pages[pg]);
    var r := DropPage(h, k, i);
    DropPageSlabs(h.slabs, h.pages, k, i);
    SlabsRooted(r.slabs, r.pages);
    assert r.slabs[k] == l;
    SumUsedRemove(h.slabs[k], h.pages, i);
    SumAllSet(h.slabs, h.pages, k, l);
    SumAllAgree(r.slabs, h.pages, r.pages);
  }

  /** Returning a page whose objects are all free loses no object in use. */
  lemma DropPageInv(h: Heap, place: Places, k: nat, i: nat)
    requires Inv(h, place) && k < CLASSES && i < |h.slabs[k]|
    requires h.pages[h.slabs[k][i]].free == h.pages[h.slabs[k][i]].total
    ensures h.bytes >= PAGE_SIZE
    ensures forall o :: o in place && o.0 == h.slabs[k][i] ==> place[o] == Free
    ensures Inv(DropPage(h, k, i), WithoutPage(place, h.slabs[k][i]))
  {
    var pg := h.slabs[k][i];
    DropPageAccounts(h, k, i);
    DropPageSlabs(h.slabs, h.pages, k, i);
    DropPageObjs(h.pages, h.mags, place, pg);
    MagsAgree(h.mags, place, WithoutPage(place, pg));
  }

  lemma DropPageObjs(pages: map<nat, SlabPage>, mags: seq<seq<seq<nat>>>, place: Places, pg: nat)
    requires AllPagesOk(pages, place) && ObjsOk(pages, mags, place) && pg in pages && pages[pg].free == pages[pg].total
    ensures forall o :: o in place && o.0 == pg ==> place[o] == Free
    ensures AllPagesOk(pages - {pg}, WithoutPage(place, pg)) && ObjsOk(pages - {pg}, mags, WithoutPage(place, pg))
  {
    assert PageOk(pg, pages[pg], place);
    CountFull(pages[pg].bits, pages[pg].total);
    var pages', place' := pages - {pg}, WithoutPage(place, pg);
    forall q | q in pages' ensures PageOk(q, pages'[q], place') { assert PageOk(q, pages[q], place); }
    forall o | o in place && o.0 == pg
      ensures place[o] == Free
    {
      assert ObjOk(pages, mags, place, o) && o == (pg, o.1);
    }
    forall o | o in place' ensures ObjOk(pages', mags, place', o) { assert ObjOk(pages, mags, place, o); }
  }
}
