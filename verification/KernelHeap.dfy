/** kmalloc and kfree as a whole: small requests from slab pages, large ones from runs of pages,
    both taken from and given back to the page allocator. */
module KernelHeap {
  import opened Seqs
  import opened SlabPool
  import opened Slab
  import opened AllocatorRuns
  import PagePool
  import Pmm

  /** The word before a large block, which holds its number of pages. */
  const WORD := 8
  /** kfree takes a larger number for a corrupt word. */
  const MOST_PAGES := 0x10_0000

  /** What a client can hold. */
  datatype Item = Small(o: Obj) | Large(first: nat, pages: nat)

  ghost function Items(place: Places, big: map<nat, nat>): set<Item> {
    (set o | o in HeldSet(place) :: Small(o)) + set f | f in big :: Large(f, big[f])
  }

  ghost predicate IsItem(place: Places, big: map<nat, nat>, item: Item) {
    match item
    case Small(o) => o in HeldSet(place)
    case Large(f, n) => f in big && big[f] == n
  }

  lemma ItemsAre(place: Places, big: map<nat, nat>, item: Item)
    ensures item in Items(place, big) <==> IsItem(place, big, item)
  {
  }

  /** The client that has `item` knows it by this address. */
  ghost predicate At(h: Heap, place: Places, big: map<nat, nat>, item: Item, ptr: nat) {
    match item
    case Small(o) => o.0 in h.pages && h.pages[o.0].cls < CLASSES && Holds(h, place, o, h.pages[o.0].cls, ptr)
    case Large(f, n) => f in big && big[f] == n && ptr == f * PAGE_SIZE + WORD
  }

  /** The number of bytes a client may use from there. */
  function Length(h: Heap, item: Item): nat {
    match item
    case Small(o) => if o.0 in h.pages && h.pages[o.0].cls < CLASSES then Size(h.pages[o.0].cls) else 0
    case Large(_, n) => if n > 0 then n * PAGE_SIZE - WORD else 0
  }

  function PagesFor(size: nat): (n: nat)
    ensures n > 0 && size + WORD <= n * PAGE_SIZE < size + WORD + PAGE_SIZE
  {
    (size + WORD + PAGE_SIZE - 1) / PAGE_SIZE
  }

  // ----- Slab pages and large blocks among the pages held -----

  function Span(f: nat, n: nat): (s: set<nat>)
    ensures forall p: nat :: p in s <==> f <= p < f + n
  {
    SpanIs(f, n);
    Members(Pages(f, n))
  }

  lemma SpanIs(f: nat, n: nat)
    ensures NoDup(Pages(f, n)) && forall p: nat :: p in Members(Pages(f, n)) <==> f <= p < f + n
  {
    forall p: nat | f <= p < f + n ensures p in Members(Pages(f, n)) {
      assert Pages(f, n)[p - f] == p;
    }
  }

  /** Large block f lies in held pages of its own. */
  ghost predicate BlockOk(held: set<nat>, slabs: set<nat>, big: map<nat, nat>, f: nat)
    requires f in big
  {
    && big[f] > 0 && Span(f, big[f]) <= held && Span(f, big[f]) !! slabs
    && forall g :: g in big && g != f ==> Span(f, big[f]) !! Span(g, big[g])
  }

  ghost predicate Linked(held: set<nat>, slabs: set<nat>, big: map<nat, nat>) {
    slabs <= held && forall f {:trigger BlockOk(held, slabs, big, f)} :: f in big ==> BlockOk(held, slabs, big, f)
  }

  /** A run of free pages becomes a large block. */
  lemma LinkBlock(held: set<nat>, slabs: set<nat>, big: map<nat, nat>, f: nat, n: nat)
    requires Linked(held, slabs, big) && n > 0 && Span(f, n) !! held
    ensures f !in big && Linked(held + Span(f, n), slabs, big[f := n])
  {
    assert f in Span(f, n);
    forall g | g in big ensures g in held { assert BlockOk(held, slabs, big, g) && g in Span(g, big[g]); }
    var held', big' := held + Span(f, n), big[f := n];
    forall g | g in big' ensures BlockOk(held', slabs, big', g) {
      if g != f { assert BlockOk(held, slabs, big, g); }
      forall x | x in big' && x != g ensures Span(g, big'[g]) !! Span(x, big'[x]) {
        if x != f { assert BlockOk(held, slabs, big, x); }
      }
    }
  }

  /** A free page becomes a slab page. */
  lemma LinkSlab(held: set<nat>, slabs: set<nat>, big: map<nat, nat>, p: nat)
    requires Linked(held, slabs, big) && p !in held
    ensures p !in slabs && Linked(held + {p}, slabs, big) && Linked(held + {p}, slabs + {p}, big)
  {
    forall g | g in big ensures BlockOk(held + {p}, slabs, big, g) && BlockOk(held + {p}, slabs + {p}, big, g) {
      assert BlockOk(held, slabs, big, g);
    }
  }

  /** Slab pages go back. */
  lemma UnlinkSlabs(held: set<nat>, slabs: set<nat>, big: map<nat, nat>, gone: set<nat>)
    requires Linked(held, slabs, big) && gone <= slabs
    ensures Linked(held - gone, slabs - gone, big)
  {
    forall g | g in big ensures BlockOk(held - gone, slabs - gone, big, g) {
      assert BlockOk(held, slabs, big, g);
    }
  }

  /** A large block goes back. */
  lemma UnlinkBlock(held: set<nat>, slabs: set<nat>, big: map<nat, nat>, f: nat)
    requires Linked(held, slabs, big) && f in big
    ensures Linked(held - Span(f, big[f]), slabs, big - {f})
  {
    var held', big' := held - Span(f, big[f]), big - {f};
    assert BlockOk(held, slabs, big, f);
    forall g | g in big' ensures BlockOk(held', slabs, big', g) {
      assert BlockOk(held, slabs, big, g);
    }
  }

  // ----- No two items share a byte -----

  lemma SmallInPage(h: Heap, place: Places, o: Obj)
    requires Inv(h, place) && o in HeldSet(place)
    ensures o.0 in h.pages && h.pages[o.0].cls < CLASSES
    ensures var k := h.pages[o.0].cls;
      o.0 * PAGE_SIZE <= Addr(o, k) && Addr(o, k) + Size(k) <= (o.0 + 1) * PAGE_SIZE
  {
    assert ObjOk(h.pages, h.mags, place, o) && PageOk(o.0, h.pages[o.0], place);
    PointerRoundTrip(o, h.pages[o.0].cls);
  }

  ghost predicate Apart(a: nat, n: nat, b: nat, m: nat) {
    a + n <= b || b + m <= a
  }

  lemma SmallAndLarge(h: Heap, place: Places, big: map<nat, nat>, held: set<nat>, o: Obj, f: nat, ptr: nat, qtr: nat)
    requires Inv(h, place) && Linked(held, h.pages.Keys, big) && o in HeldSet(place) && f in big
    requires At(h, place, big, Small(o), ptr) && At(h, place, big, Large(f, big[f]), qtr)
    ensures Apart(ptr, Length(h, Small(o)), qtr, Length(h, Large(f, big[f])))
  {
    SmallInPage(h, place, o);
    assert BlockOk(held, h.pages.Keys, big, f);
    assert o.0 !in Span(f, big[f]);
    if o.0 < f {
      assert (o.0 + 1) * PAGE_SIZE <= f * PAGE_SIZE;
    } else {
      assert (f + big[f]) * PAGE_SIZE <= o.0 * PAGE_SIZE;
    }
  }

  lemma TwoLarge(h: Heap, place: Places, big: map<nat, nat>, held: set<nat>, f: nat, g: nat, ptr: nat, qtr: nat)
    requires Linked(held, h.pages.Keys, big) && f in big && g in big && f != g
    requires At(h, place, big, Large(f, big[f]), ptr) && At(h, place, big, Large(g, big[g]), qtr)
    ensures Apart(ptr, Length(h, Large(f, big[f])), qtr, Length(h, Large(g, big[g])))
  {
    assert BlockOk(held, h.pages.Keys, big, f) && BlockOk(held, h.pages.Keys, big, g);
    assert f in Span(f, big[f]) && g in Span(g, big[g]);
    if f < g {
      assert (f + big[f]) * PAGE_SIZE <= g * PAGE_SIZE;
    } else {
      assert (g + big[g]) * PAGE_SIZE <= f * PAGE_SIZE;
    }
  }

  /** Two different items in clients' hands, small or large, occupy different bytes. */
  lemma ItemsApart(h: Heap, place: Places, big: map<nat, nat>, held: set<nat>, a: Item, b: Item, ptr: nat, qtr: nat)
    requires Inv(h, place) && Linked(held, h.pages.Keys, big) && a != b
    requires a in Items(place, big) && b in Items(place, big) && At(h, place, big, a, ptr) && At(h, place, big, b, qtr)
    ensures Apart(ptr, Length(h, a), qtr, Length(h, b))
  {
    if a.Small? && b.Small? {
      LiveObjectsDisjoint(h, place, a.o, b.o);
    } else if a.Small? {
      SmallAndLarge(h, place, big, held, a.o, b.first, ptr, qtr);
    } else if b.Small? {
      SmallAndLarge(h, place, big, held, b.o, a.first, qtr, ptr);
    } else {
      TwoLarge(h, place, big, held, a.first, b.first, ptr, qtr);
    }
  }

  // ----- What stays -----

  /** A page that is a slab page before and after has the same class. */
  ghost predicate ClassesKept(pages: map<nat, SlabPage>, pages': map<nat, SlabPage>) {
    forall pg :: pg in pages && pg in pages' ==> pages'[pg].cls == pages[pg].cls
  }

  /** An item that stays in a client's hands keeps its address. */
  lemma AddressStays(h: Heap, place: Places, big: map<nat, nat>, h': Heap, place': Places, big': map<nat, nat>,
                     item: Item, ptr: nat)
    requires At(h, place, big, item, ptr) && ClassesKept(h.pages, h'.pages) && Inv(h', place') &&
      item in Items(place', big')
    ensures At(h', place', big', item, ptr)
  {
    if item.Small? { assert ObjOk(h'.pages, h'.mags, place', item.o); }
  }

  lemma AtIsHeld(h: Heap, place: Places, big: map<nat, nat>, item: Item, ptr: nat)
    requires At(h, place, big, item, ptr)
    ensures item in Items(place, big) && ptr != 0
  {
    if item.Small? { assert item.o in HeldSet(place); }
  }

  lemma SmallGained(place: Places, place': Places, big: map<nat, nat>, o: Obj)
    requires o !in HeldSet(place) && HeldSet(place') == HeldSet(place) + {o}
    ensures Small(o) !in Items(place, big) && Items(place', big) == Items(place, big) + {Small(o)}
  {
  }

  lemma SmallLost(place: Places, place': Places, big: map<nat, nat>, o: Obj)
    requires HeldSet(place') == HeldSet(place) - {o}
    ensures Items(place', big) == Items(place, big) - {Small(o)}
  {
  }

  lemma LargeGained(place: Places, big: map<nat, nat>, f: nat, n: nat)
    requires f !in big
    ensures Large(f, n) !in Items(place, big) && Items(place, big[f := n]) == Items(place, big) + {Large(f, n)}
  {
    forall x ensures x in Items(place, big[f := n]) <==> x in Items(place, big) + {Large(f, n)} {
      ItemsAre(place, big, x);
      ItemsAre(place, big[f := n], x);
    }
  }

  lemma LargeLost(place: Places, big: map<nat, nat>, f: nat)
    requires f in big
    ensures Items(place, big - {f}) == Items(place, big) - {Large(f, big[f])}
  {
    forall x ensures x in Items(place, big - {f}) <==> x in Items(place, big) - {Large(f, big[f])} {
      ItemsAre(place, big, x);
      ItemsAre(place, big - {f}, x);
    }
  }

  lemma SameItems(place: Places, place': Places, big: map<nat, nat>)
    requires HeldSet(place') == HeldSet(place)
    ensures Items(place', big) == Items(place, big)
  {
  }

  // ----- The calls -----

  predicate FitsClass(size: nat, k: nat) {
    k < CLASSES && size <= Size(k) && (k > 0 ==> Size(k - 1) < size)
  }

  /** The smallest class of objects that hold `size` bytes. */
  function ClassOf(size: nat): (k: nat)
    requires size <= 1024
    ensures FitsClass(size, k)
  {
    if size <= 16 then 0 else if size <= 32 then 1 else if size <= 64 then 2 else if size <= 128 then 3
    else if size <= 256 then 4 else if size <= 512 then 5 else 6
  }

  lemma ClassIs(size: nat, k: nat)
    requires size <= 1024 && FitsClass(size, k)
    ensures k == ClassOf(size)
  {
    var j := ClassOf(size);
    if k < j { SizesGrow(k, j - 1); }
    if j < k { SizesGrow(j, k - 1); }
  }

  lemma SizesGrow(a: nat, b: nat)
    requires a <= b < CLASSES
    ensures Size(a) <= Size(b)
  {
  }

  ghost predicate HasRun(place: seq<PagePool.Place>, n: nat) {
    exists w :: Pmm.FreeRun(place, w, n)
  }

  /** No memory for a request: no run of free pages that is long enough, or, for a small one, nothing
      in the CPU's magazine, no free object of the class, and no free page. */
  ghost predicate NoRoom(h: Heap, place: Places, pages: seq<PagePool.Place>, c: nat, size: nat)
    requires c < |h.mags| && (size <= 1024 ==> |h.mags[c]| == CLASSES)
  {
    if size > 1024 then !HasRun(pages, PagesFor(size))
    else var k := ClassOf(size); h.mags[c][k] == [] && !HasFree(h, place, k) && !HasRun(pages, 1)
  }

  class Memory {
    const m: Pmm.Pages
    const km: Kmalloc
    /** The number of pages each large block has in its first word. */
    var big: map<nat, nat>

    ghost predicate Valid()
      reads this, m, km
    {
      m.Valid() && km.Valid() && Linked(HeldPages(m.place), km.h.pages.Keys, big)
    }

    ghost function Held(): set<Item>
      reads this, km
    {
      Items(km.place, big)
    }

    constructor (m: Pmm.Pages, cpus: nat)
      requires m.Valid()
      ensures Valid() && this.m == m && fresh(km) && Held() == {} && |km.h.mags| == cpus
    {
      this.m := m;
      km := new Kmalloc(cpus);
      big := map[];
    }

    /** Sizes that no call changes. */
    ghost predicate SameShape(mags: seq<seq<seq<nat>>>, pool: PagePool.Pool)
      reads m, km
    {
      |km.h.mags| == |mags| && Pmm.SameSizes(pool, m.pool)
    }

    /** pmm_free_pages for the pages of l. */
    method GiveBack(cpu: nat, l: seq<nat>)
      requires m.Valid() && cpu < |m.pool.caches| && NoDup(l) && Members(l) <= HeldPages(m.place)
      modifies m
      ensures m.Valid() && Pmm.SameSizes(old(m.pool), m.pool)
      ensures HeldPages(m.place) == HeldPages(old(m.place)) - Members(l)
    {
      for i := 0 to |l|
        invariant m.Valid() && Pmm.SameSizes(old(m.pool), m.pool)
        invariant HeldPages(m.place) == HeldPages(old(m.place)) - Members(l[..i])
      {
        ghost var was := m.place;
        assert l[i] in Members(l) && l[i] !in Members(l[..i]) && l[i] in HeldPages(was);
        PageOfAddress(l[i]);
        m.FreePage(cpu, l[i] * PAGE_SIZE);
        HeldLost(was, m.place, l[i], cpu);
        assert Members(l[..i + 1]) == Members(l[..i]) + {l[i]};
      }
      assert l[..|l|] == l;
    }

    /** kmalloc above the largest object: a run of pages, whose first word tells how many. */
    method MallocLarge(size: nat, thread: nat) returns (ptr: nat, ghost item: Item)
      requires Valid() && size > 1024 && thread != PagePool.CACHE
      modifies this`big, m
      ensures Valid() && Pmm.SameSizes(old(m.pool), m.pool)
      ensures ptr == 0 <==> !HasRun(old(m.place), PagesFor(size))
      ensures ptr == 0 ==> big == old(big)
      ensures ptr != 0 ==>
        && item.Large? && item.pages == PagesFor(size) && item.first !in old(big) &&
            big == old(big)[item.first := item.pages]
        && ptr == item.first * PAGE_SIZE + WORD
    {
      var pages := PagesFor(size);
      item := Large(0, 0);
      var first := m.AllocPages(pages, thread);
      if first == 0 {
        HeldSame(old(m.place), m.place);
        return 0, item;
      }
      HeldRun(old(m.place), m.place, first, pages);
      LinkBlock(HeldPages(old(m.place)), km.h.pages.Keys, big, first, pages);
      big := big[first := pages];
      item := Large(first, pages);
      ptr := first * PAGE_SIZE + WORD;
    }

    /** One page from the page allocator. */
    method TakePage(thread: nat) returns (pg: nat)
      requires Valid() && thread != PagePool.CACHE
      modifies m
      ensures Valid() && Pmm.SameSizes(old(m.pool), m.pool)
      ensures pg == 0 <==> !HasRun(old(m.place), 1)
      ensures pg != 0 ==> pg !in km.h.pages && Linked(HeldPages(m.place), km.h.pages.Keys + {pg}, big)
    {
      pg := m.AllocPages(1, thread);
      if pg == 0 {
        HeldSame(old(m.place), m.place);
        return;
      }
      HeldRun(old(m.place), m.place, pg, 1);
      OnePage(pg);
      LinkSlab(HeldPages(old(m.place)), km.h.pages.Keys, big, pg);
    }

    /** kmalloc for a slab-sized request, with a page from the page allocator if need be. */
    method MallocSmall(c: nat, size: nat, thread: nat) returns (ptr: nat, ghost o: Obj)
      requires Valid() && c < |km.h.mags| && 0 < size <= 1024 && thread != PagePool.CACHE
      modifies m, km
      ensures Valid() && SameShape(old(km.h).mags, old(m.pool)) && ClassesKept(old(km.h).pages, km.h.pages)
      ensures |old(km.h).mags[c]| == CLASSES && (ptr == 0 <==> NoRoom(old(km.h), old(km.place), old(m.place), c, size))
      ensures ptr == 0 ==> km.h == old(km.h) && km.place == old(km.place)
      ensures ptr != 0 ==> Granted(km.h, old(km.place), km.place, o, ClassOf(size), ptr)
    {
      ptr, o := FromSlabs(c, size);
      if ptr != 0 { return; }
      var pg := TakePage(thread);
      if pg == 0 { return; }
      ptr, o := FromPage(c, size, pg);
    }

    method FromSlabs(c: nat, size: nat) returns (ptr: nat, ghost o: Obj)
      requires Valid() && c < |km.h.mags| && 0 < size <= 1024
      modifies km
      ensures Valid() && |km.h.mags| == |old(km.h).mags| && SameClasses(old(km.h).pages, km.h.pages)
      ensures |old(km.h).mags[c]| == CLASSES
      ensures ptr == 0 <==> old(km.h).mags[c][ClassOf(size)] == [] && !HasFree(old(km.h), old(km.place), ClassOf(size))
      ensures ptr == 0 ==> km.h == old(km.h) && km.place == old(km.place)
      ensures ptr != 0 ==> Granted(km.h, old(km.place), km.place, o, ClassOf(size), ptr)
    {
      ghost var k;
      ptr, o, k := km.Alloc(c, size, 0);
      ClassIs(size, k);
      assert km.h.pages.Keys == old(km.h).pages.Keys;
    }

    method FromPage(c: nat, size: nat, pg: nat) returns (ptr: nat, ghost o: Obj)
      requires m.Valid() && km.Valid() && c < |km.h.mags| && 0 < size <= 1024 && pg != 0 && pg !in km.h.pages
      requires |km.h.mags[c]| == CLASSES && km.h.mags[c][ClassOf(size)] == [] && !HasFree(km.h, km.place, ClassOf(size))
      requires Linked(HeldPages(m.place), km.h.pages.Keys + {pg}, big)
      modifies km
      ensures Valid() && |km.h.mags| == |old(km.h).mags| && ClassesKept(old(km.h).pages, km.h.pages)
      ensures ptr != 0 && Granted(km.h, old(km.place), km.place, o, ClassOf(size), ptr)
    {
      ghost var k;
      ptr, o, k := km.Alloc(c, size, pg);
      ClassIs(size, k);
      assert km.h.pages.Keys == old(km.h).pages.Keys + {pg};
    }

    /** kmalloc, for every size. The item granted was in nobody's hands, is as long as asked, and no
        other item changes hands; a request fails exactly if it is for nothing or there is no room. */
    method Malloc(c: nat, size: nat, thread: nat) returns (ptr: nat, ghost item: Item)
      requires Valid() && c < |km.h.mags| && thread != PagePool.CACHE
      modifies this`big, m, km
      ensures Valid() && SameShape(old(km.h).mags, old(m.pool)) && ClassesKept(old(km.h).pages, km.h.pages)
      ensures |old(km.h).mags[c]| == CLASSES
      ensures ptr == 0 <==> size == 0 || NoRoom(old(km.h), old(km.place), old(m.place), c, size)
      ensures ptr == 0 ==> Held() == old(Held())
      ensures ptr != 0 ==> Gains(old(Held()), Held(), km.h, km.place, big, item, ptr, size)
    {
      item := Large(0, 0);
      if size == 0 { return 0, item; }
      if size > 1024 {
        ptr, item := MallocLarge(size, thread);
        if ptr != 0 { LargeGained(km.place, old(big), item.first, item.pages); }
      } else {
        ptr, item := MallocSlab(c, size, thread);
      }
    }

    method MallocSlab(c: nat, size: nat, thread: nat) returns (ptr: nat, ghost item: Item)
      requires Valid() && c < |km.h.mags| && 0 < size <= 1024 && thread != PagePool.CACHE
      modifies m, km
      ensures Valid() && SameShape(old(km.h).mags, old(m.pool)) && ClassesKept(old(km.h).pages, km.h.pages)
      ensures |old(km.h).mags[c]| == CLASSES && (ptr == 0 <==> NoRoom(old(km.h), old(km.place), old(m.place), c, size))
      ensures ptr == 0 ==> Held() == old(Held())
      ensures ptr != 0 ==> Gains(old(Held()), Held(), km.h, km.place, big, item, ptr, size)
    {
      ghost var o;
      ptr, o := MallocSmall(c, size, thread);
      item := Small(o);
      if ptr != 0 { SmallGains(km.h, old(km.place), km.place, big, o, ptr, size); }
    }

    /** kfree of a large block: its pages go back one by one. A first word above 2 to the 20 is taken
        for a corrupt one and nothing happens. */
    method FreeLarge(c: nat, f: nat)
      requires Valid() && c < |m.pool.caches| && f in big
      modifies this`big, m
      ensures Valid() && Pmm.SameSizes(old(m.pool), m.pool)
      ensures old(big)[f] <= MOST_PAGES ==>
        big == old(big) - {f} && HeldPages(m.place) == HeldPages(old(m.place)) - Span(f, old(big)[f])
      ensures old(big)[f] > MOST_PAGES ==> big == old(big) && m.place == old(m.place)
    {
      ghost var held := HeldPages(m.place);
      assert BlockOk(held, km.h.pages.Keys, big, f);
      var pages := big[f];
      if pages == 0 || pages > MOST_PAGES { return; }
      UnlinkBlock(held, km.h.pages.Keys, big, f);
      SpanIs(f, pages);
      GiveBack(c, Pages(f, pages));
      big := big - {f};
    }

    /** kfree by the client that has the item: exactly that item leaves clients' hands, unless it is a
        block of more than 2 to the 20 pages; that one is never given back. */
    method Free(c: nat, ptr: nat, ghost item: Item)
      requires Valid() && c < |km.h.mags| && c < |m.pool.caches| && (ptr != 0 ==> At(km.h, km.place, big, item, ptr))
      modifies this`big, m, km
      ensures Valid() && SameShape(old(km.h).mags, old(m.pool)) && ClassesKept(old(km.h).pages, km.h.pages)
      ensures Held() == old(Held()) - if ptr != 0 && (item.Large? ==> item.pages <= MOST_PAGES) then {item} else {}
    {
      if ptr == 0 { return; }
      var pg := ptr / PAGE_SIZE;
      AddressPage(km.h, km.place, big, HeldPages(m.place), item, ptr);
      if pg in km.h.pages {
        km.Release(c, ptr, item.o);
        SmallLost(old(km.place), km.place, big, item.o);
      } else {
        LargeLost(km.place, big, pg);
        FreeLarge(c, pg);
      }
    }

    /** kmag_flush_one_cpu */
    method FlushMags(c: nat)
      requires Valid() && c < |km.h.mags|
      modifies km
      ensures Valid() && |km.h.mags| == |old(km.h).mags| && ClassesKept(old(km.h).pages, km.h.pages) &&
        Held() == old(Held())
      ensures NoMags(km.h.mags[c])
    {
      km.FlushCpu(c);
      SameItems(old(km.place), km.place, big);
    }

    /** kmalloc_compact: every page without an object in a client's hands goes back to the page
        allocator, and no item changes hands. */
    method Compact(c: nat) returns (freed: nat)
      requires Valid() && c < |m.pool.caches|
      modifies m, km
      ensures Valid() && SameShape(old(km.h).mags, old(m.pool)) && ClassesKept(old(km.h).pages, km.h.pages) &&
        Held() == old(Held())
      ensures forall pg :: pg in km.h.pages <==> exists o :: o in HeldSet(km.place) && o.0 == pg
      ensures HeldPages(m.place) == HeldPages(old(m.place)) - (old(km.h).pages.Keys - km.h.pages.Keys)
      ensures freed + |km.h.pages| == |old(km.h).pages|
    {
      var gone;
      freed, gone := km.Compact();
      SameItems(old(km.place), km.place, big);
      assert Members(gone) == old(km.h).pages.Keys - km.h.pages.Keys;
      UnlinkSlabs(HeldPages(m.place), old(km.h).pages.Keys, big, Members(gone));
      assert old(km.h).pages.Keys - Members(gone) == km.h.pages.Keys;
      GiveBack(c, gone);
    }
  }

  /** The client gains `item`, which was in nobody's hands and is as long as asked. */
  ghost predicate Gains(held: set<Item>, held': set<Item>, h: Heap, place: Places, big: map<nat, nat>, item: Item,
                        ptr: nat, size: nat) {
    && item !in held && held' == held + {item} && At(h, place, big, item, ptr)
    && size <= Length(h, item) && (item.Small? <==> size <= 1024)
  }

  lemma SmallGains(h: Heap, place: Places, place': Places, big: map<nat, nat>, o: Obj, ptr: nat, size: nat)
    requires 0 < size <= 1024 && Granted(h, place, place', o, ClassOf(size), ptr)
    ensures Gains(Items(place, big), Items(place', big), h, place', big, Small(o), ptr, size)
  {
    SmallGained(place, place', big, o);
    assert o in HeldSet(place');
  }

  lemma OnePage(pg: nat)
    ensures Members(Pages(pg, 1)) == {pg}
  {
    SpanIs(pg, 1);
  }

  /** The page of an address tells the two kinds of items apart. */
  lemma AddressPage(h: Heap, place: Places, big: map<nat, nat>, held: set<nat>, item: Item, ptr: nat)
    requires Inv(h, place) && Linked(held, h.pages.Keys, big) && At(h, place, big, item, ptr)
    ensures item.Small? <==> ptr / PAGE_SIZE in h.pages
    ensures item.Large? ==> ptr / PAGE_SIZE == item.first
  {
    match item
    case Small(o) =>
      assert ObjOk(h.pages, h.mags, place, o) && PageOk(o.0, h.pages[o.0], place);
      PointerRoundTrip(o, h.pages[o.0].cls);
    case Large(f, n) =>
      assert BlockOk(held, h.pages.Keys, big, f) && f in Span(f, n);
  }
}
