/** The page allocator's state: a used bitmap, an owner array, per-node free lists and
    per-CPU caches, and the place every page has in them. Pages are named by their index. */
module PagePool {
  import opened Bits
  import opened Seqs

  const UNSET := 0
  const CACHE := 0xFFFF_FFFF_FFFF_FFFF
  const CACHE_SIZE := 32
  const PAGE_SIZE := 4096

  datatype Pool = Pool(bitmap: seq<nat>, owner: seq<nat>, lists: seq<seq<nat>>, caches: seq<seq<nat>>,
    counts: seq<nat>, free: nat)

  /** Every page is on a node's list, in a CPU's cache, held by a client, or reserved at boot. */
  datatype Place = Listed(node: nat) | Cached(cpu: nat) | Held | Reserved

  // ----- Lists of distinct pages -----

  /** The list holds exactly the pages of that place, each once. */
  ghost predicate BagOk(l: seq<nat>, place: seq<Place>, tag: Place) {
    NoDup(l) && forall p: nat :: p in l <==> p < |place| && place[p] == tag
  }

  lemma BagRemove(l: seq<nat>, place: seq<Place>, tag: Place, i: nat, to: Place)
    requires BagOk(l, place, tag) && i < |l| && to != tag
    ensures l[i] < |place| && BagOk(RemoveAt(l, i), place[l[i] := to], tag)
  {
    assert l[i] in l;
    var r := RemoveAt(l, i);
    forall p: nat ensures p in r <==> p in l && p != l[i] { MembersAfterRemove(l, i, p); }
  }

  lemma BagCons(l: seq<nat>, place: seq<Place>, tag: Place, p: nat)
    requires BagOk(l, place, tag) && p < |place| && place[p] != tag
    ensures BagOk([p] + l, place[p := tag], tag)
  {
  }

  lemma BagSnoc(l: seq<nat>, place: seq<Place>, tag: Place, p: nat)
    requires BagOk(l, place, tag) && p < |place| && place[p] != tag
    ensures BagOk(l + [p], place[p := tag], tag)
  {
  }

  lemma BagFrame(l: seq<nat>, place: seq<Place>, tag: Place, p: nat, to: Place)
    requires BagOk(l, place, tag) && p < |place| && place[p] != tag && to != tag
    ensures BagOk(l, place[p := to], tag)
  {
  }

  // ----- Flags -----

  /** What the bitmap and the owner array say about a page in each place. */
  predicate FlagsOk(used: bool, owner: nat, place: Place) {
    match place
    case Listed(_) => !used && owner == UNSET
    case Cached(_) => used && owner == CACHE
    case _ => used && owner != CACHE
  }

  ghost predicate PagesOk(bitmap: seq<nat>, owner: seq<nat>, place: seq<Place>) {
    && |owner| == |place| <= 8 * |bitmap|
    && forall p: nat :: p < |place| ==> FlagsOk(Test(bitmap, 8, p), owner[p], place[p])
  }

  function PutBit(bitmap: seq<nat>, p: nat, used: bool): (r: seq<nat>)
    requires p < 8 * |bitmap|
    ensures |r| == |bitmap|
  {
    if used then Mark(bitmap, 8, p) else Unmark(bitmap, 8, p)
  }

  lemma FlagsUpdate(bitmap: seq<nat>, owner: seq<nat>, place: seq<Place>, p: nat, used: bool, o: nat, to: Place)
    requires PagesOk(bitmap, owner, place) && p < |place| && FlagsOk(used, o, to)
    ensures PagesOk(PutBit(bitmap, p, used), owner[p := o], place[p := to])
  {
    forall q: nat | q < |place|
      ensures Test(PutBit(bitmap, p, used), 8, q) == if q == p then used else Test(bitmap, 8, q)
    {
      TestAfterMark(bitmap, 8, p, q);
      TestAfterUnmark(bitmap, 8, p, q);
    }
  }

  /** A bit that already has its value may be left alone. */
  lemma OwnerUpdate(bitmap: seq<nat>, owner: seq<nat>, place: seq<Place>, p: nat, o: nat, to: Place)
    requires PagesOk(bitmap, owner, place) && p < |place| && FlagsOk(Test(bitmap, 8, p), o, to)
    ensures PagesOk(bitmap, owner[p := o], place[p := to])
  {
  }

  // ----- The invariant -----

  function Sum(counts: seq<nat>): nat {
    if counts == [] then 0 else Sum(counts[..|counts| - 1]) + counts[|counts| - 1]
  }

  lemma {:induction false} SumUpdate(counts: seq<nat>, n: nat, v: nat)
    requires n < |counts|
    ensures Sum(counts[n := v]) == Sum(counts) - counts[n] + v
    ensures Sum(counts) >= counts[n]
    decreases |counts|
  {
    var m := |counts| - 1;
    if n == m {
      assert counts[n := v][..m] == counts[..m];
    } else {
      assert counts[n := v][..m] == counts[..m][n := v];
      SumUpdate(counts[..m], n, v);
    }
  }

  predicate Counted(pool: Pool) {
    && |pool.counts| == |pool.lists|
    && (forall n :: 0 <= n < |pool.lists| ==> pool.counts[n] == |pool.lists[n]|)
    && pool.free == Sum(pool.counts)
  }

  ghost predicate BagsOk(pool: Pool, place: seq<Place>) {
    && (forall n :: 0 <= n < |pool.lists| ==> BagOk(pool.lists[n], place, Listed(n)))
    && (forall c :: 0 <= c < |pool.caches| ==> BagOk(pool.caches[c], place, Cached(c)))
  }

  predicate PlacesExist(pool: Pool, place: seq<Place>) {
    forall p :: 0 <= p < |place| ==>
      (place[p].Listed? ==> place[p].node < |pool.lists|) && (place[p].Cached? ==> place[p].cpu < |pool.caches|)
  }

  /** The partition: lists, caches, clients and boot each have their own pages, and the bitmap
      and the owner array say which. Page 0 is reserved, so 0 can stand for no page. */
  ghost predicate Inv(pool: Pool, place: seq<Place>) {
    && BagsOk(pool, place) && PlacesExist(pool, place) && Counted(pool)
    && PagesOk(pool.bitmap, pool.owner, place)
    && |place| > 0 && place[0] == Reserved
    && (forall c :: 0 <= c < |pool.caches| ==> |pool.caches[c]| <= CACHE_SIZE)
  }

  /** No page is in two places at once. */
  lemma PlacesDisjoint(pool: Pool, place: seq<Place>, p: nat, n: nat, m: nat, c: nat, d: nat)
    requires Inv(pool, place) && n < |pool.lists| && m < |pool.lists| && c < |pool.caches| && d < |pool.caches|
    ensures p in pool.lists[n] ==> p !in pool.caches[c] && (p in pool.lists[m] ==> n == m)
    ensures p in pool.caches[c] && p in pool.caches[d] ==> c == d
    ensures p in pool.lists[n] || p in pool.caches[c] ==> p < |place| && place[p] != Held && place[p] != Reserved
  {
    assert BagOk(pool.lists[n], place, Listed(n)) && BagOk(pool.lists[m], place, Listed(m));
    assert BagOk(pool.caches[c], place, Cached(c)) && BagOk(pool.caches[d], place, Cached(d));
  }

  // ----- Moves of one page -----

  /** Off the front of a node's list. */
  function TakeList(pool: Pool, n: nat, o: nat): (r: Pool)
    requires n < |pool.lists| == |pool.counts| && pool.lists[n] != [] && pool.counts[n] > 0 && pool.free > 0
    requires pool.lists[n][0] < |pool.owner| <= 8 * |pool.bitmap|
  {
    var p := pool.lists[n][0];
    pool.(lists := pool.lists[n := pool.lists[n][1..]], counts := pool.counts[n := pool.counts[n] - 1],
          free := pool.free - 1, bitmap := Mark(pool.bitmap, 8, p), owner := pool.owner[p := o])
  }

  /** Onto the front of a node's list. */
  function PutList(pool: Pool, n: nat, p: nat): (r: Pool)
    requires n < |pool.lists| == |pool.counts| && p < |pool.owner| <= 8 * |pool.bitmap|
  {
    pool.(lists := pool.lists[n := [p] + pool.lists[n]], counts := pool.counts[n := pool.counts[n] + 1],
          free := pool.free + 1, bitmap := Unmark(pool.bitmap, 8, p), owner := pool.owner[p := UNSET])
  }

  /** Out of a cache, at any position. */
  function DropCache(pool: Pool, c: nat, i: nat): (r: Pool)
    requires c < |pool.caches| && i < |pool.caches[c]|
  {
    pool.(caches := pool.caches[c := RemoveAt(pool.caches[c], i)])
  }

  /** Onto the end of a cache. */
  function PutCache(pool: Pool, c: nat, p: nat): (r: Pool)
    requires c < |pool.caches| && p < |pool.owner|
  {
    pool.(caches := pool.caches[c := pool.caches[c] + [p]], owner := pool.owner[p := CACHE])
  }

  lemma HeadFacts(pool: Pool, place: seq<Place>, n: nat)
    requires Inv(pool, place) && n < |pool.lists| && pool.lists[n] != []
    ensures var p := pool.lists[n][0];
      && 0 < p < |place| == |pool.owner| && place[p] == Listed(n) && pool.counts[n] > 0 && pool.free > 0
      && !Test(pool.bitmap, 8, p) && pool.owner[p] == UNSET
  {
    var p := pool.lists[n][0];
    assert BagOk(pool.lists[n], place, Listed(n)) && p in pool.lists[n];
    SumUpdate(pool.counts, n, 0);
    assert FlagsOk(Test(pool.bitmap, 8, p), pool.owner[p], place[p]);
  }

  lemma TakeListInv(pool: Pool, place: seq<Place>, n: nat, o: nat)
    requires Inv(pool, place) && n < |pool.lists| && pool.lists[n] != [] && o != CACHE
    ensures var p := pool.lists[n][0];
      && 0 < p < |place| == |pool.owner| && place[p] == Listed(n) && pool.counts[n] > 0 && pool.free > 0
      && Inv(TakeList(pool, n, o), place[p := Held])
  {
    HeadFacts(pool, place, n);
    var p := pool.lists[n][0];
    var r, place' := TakeList(pool, n, o), place[p := Held];
    SumUpdate(pool.counts, n, pool.counts[n] - 1);
    FlagsUpdate(pool.bitmap, pool.owner, place, p, true, o, Held);
    assert pool.lists[n][1..] == RemoveAt(pool.lists[n], 0);
    BagRemove(pool.lists[n], place, Listed(n), 0, Held);
    forall m | 0 <= m < |r.lists| ensures BagOk(r.lists[m], place', Listed(m)) {
      if m != n { BagFrame(pool.lists[m], place, Listed(m), p, Held); }
    }
    forall c | 0 <= c < |r.caches| ensures BagOk(r.caches[c], place', Cached(c)) {
      BagFrame(pool.caches[c], place, Cached(c), p, Held);
    }
  }

  lemma PutListInv(pool: Pool, place: seq<Place>, n: nat, p: nat)
    requires Inv(pool, place) && n < |pool.lists| && 0 < p < |place| && place[p] == Held
    ensures Inv(PutList(pool, n, p), place[p := Listed(n)])
  {
    var r, place' := PutList(pool, n, p), place[p := Listed(n)];
    SumUpdate(pool.counts, n, pool.counts[n] + 1);
    FlagsUpdate(pool.bitmap, pool.owner, place, p, false, UNSET, Listed(n));
    forall m | 0 <= m < |r.lists| ensures BagOk(r.lists[m], place', Listed(m)) {
      if m == n {
        BagCons(pool.lists[n], place, Listed(n), p);
      } else {
        BagFrame(pool.lists[m], place, Listed(m), p, Listed(n));
      }
    }
    forall c | 0 <= c < |r.caches| ensures BagOk(r.caches[c], place', Cached(c)) {
      BagFrame(pool.caches[c], place, Cached(c), p, Listed(n));
    }
  }

  lemma PutCacheInv(pool: Pool, place: seq<Place>, c: nat, p: nat)
    requires Inv(pool, place) && c < |pool.caches| && |pool.caches[c]| < CACHE_SIZE && 0 < p < |place| &&
      place[p] == Held
    ensures Inv(PutCache(pool, c, p), place[p := Cached(c)])
  {
    var r, place' := PutCache(pool, c, p), place[p := Cached(c)];
    OwnerUpdate(pool.bitmap, pool.owner, place, p, CACHE, Cached(c));
    forall m | 0 <= m < |r.lists| ensures BagOk(r.lists[m], place', Listed(m)) {
      BagFrame(pool.lists[m], place, Listed(m), p, Cached(c));
    }
    forall d | 0 <= d < |r.caches| ensures BagOk(r.caches[d], place', Cached(d)) {
      if d == c {
        BagSnoc(pool.caches[c], place, Cached(c), p);
      } else {
        BagFrame(pool.caches[d], place, Cached(d), p, Cached(c));
      }
    }
  }

  lemma CacheFacts(pool: Pool, place: seq<Place>, c: nat, i: nat)
    requires Inv(pool, place) && c < |pool.caches| && i < |pool.caches[c]|
    ensures var p := pool.caches[c][i];
      0 < p < |place| == |pool.owner| && place[p] == Cached(c) && Test(pool.bitmap, 8, p) && pool.owner[p] == CACHE
  {
    var p := pool.caches[c][i];
    assert BagOk(pool.caches[c], place, Cached(c)) && p in pool.caches[c];
    assert FlagsOk(Test(pool.bitmap, 8, p), pool.owner[p], place[p]);
  }

  lemma DropCacheInv(pool: Pool, place: seq<Place>, c: nat, i: nat, o: nat)
    requires Inv(pool, place) && c < |pool.caches| && i < |pool.caches[c]| && o != CACHE
    ensures var p := pool.caches[c][i];
      && 0 < p < |place| == |pool.owner| && place[p] == Cached(c)
      && Inv(DropCache(pool, c, i).(owner := pool.owner[p := o]), place[p := Held])
  {
    CacheFacts(pool, place, c, i);
    var p := pool.caches[c][i];
    var r, place' := DropCache(pool, c, i).(owner := pool.owner[p := o]), place[p := Held];
    OwnerUpdate(pool.bitmap, pool.owner, place, p, o, Held);
    forall m | 0 <= m < |r.lists| ensures BagOk(r.lists[m], place', Listed(m)) {
      BagFrame(pool.lists[m], place, Listed(m), p, Held);
    }
    forall d | 0 <= d < |r.caches| ensures BagOk(r.caches[d], place', Cached(d)) {
      if d == c {
        BagRemove(pool.caches[c], place, Cached(c), i, Held);
      } else {
        BagFrame(pool.caches[d], place, Cached(d), p, Held);
      }
    }
  }

  /** One page from a cache to a list. */
  lemma FlushOneInv(pool: Pool, place: seq<Place>, c: nat, i: nat, n: nat)
    requires Inv(pool, place) && c < |pool.caches| && i < |pool.caches[c]| && n < |pool.lists|
    ensures var p := pool.caches[c][i];
      && 0 < p < |place| == |pool.owner| && place[p] == Cached(c)
      && Inv(PutList(DropCache(pool, c, i), n, p), place[p := Listed(n)])
  {
    DropCacheInv(pool, place, c, i, UNSET);
    var p := pool.caches[c][i];
    var mid := DropCache(pool, c, i).(owner := pool.owner[p := UNSET]);
    PutListInv(mid, place[p := Held], n, p);
    assert pool.owner[p := UNSET][p := UNSET] == pool.owner[p := UNSET];
    assert PutList(mid, n, p) == PutList(DropCache(pool, c, i), n, p);
    assert place[p := Held][p := Listed(n)] == place[p := Listed(n)];
  }

  /** One page from a list to a cache. */
  lemma RefillOneInv(pool: Pool, place: seq<Place>, n: nat, c: nat)
    requires Inv(pool, place) && n < |pool.lists| && pool.lists[n] != [] && c < |pool.caches| &&
      |pool.caches[c]| < CACHE_SIZE
    ensures var p := pool.lists[n][0];
      && 0 < p < |place| == |pool.owner| && place[p] == Listed(n) && pool.counts[n] > 0 && pool.free > 0
      && Inv(PutCache(TakeList(pool, n, CACHE), c, p), place[p := Cached(c)])
  {
    TakeListInv(pool, place, n, UNSET);
    var p := pool.lists[n][0];
    var mid := TakeList(pool, n, UNSET);
    PutCacheInv(mid, place[p := Held], c, p);
    assert pool.owner[p := UNSET][p := CACHE] == pool.owner[p := CACHE][p := CACHE];
    assert PutCache(mid, c, p) == PutCache(TakeList(pool, n, CACHE), c, p);
    assert place[p := Held][p := Cached(c)] == place[p := Cached(c)];
  }

  /** One page from a cache to another. */
  lemma StealOneInv(pool: Pool, place: seq<Place>, c: nat, i: nat, d: nat)
    requires Inv(pool, place) && c < |pool.caches| && i < |pool.caches[c]| && d < |pool.caches| && c != d
    requires |pool.caches[d]| < CACHE_SIZE
    ensures var p := pool.caches[c][i];
      && 0 < p < |place| == |pool.owner| && place[p] == Cached(c)
      && Inv(PutCache(DropCache(pool, c, i), d, p), place[p := Cached(d)])
  {
    DropCacheInv(pool, place, c, i, UNSET);
    var p := pool.caches[c][i];
    var mid := DropCache(pool, c, i).(owner := pool.owner[p := UNSET]);
    PutCacheInv(mid, place[p := Held], d, p);
    assert pool.owner[p := UNSET][p := CACHE] == pool.owner[p := CACHE];
    assert PutCache(mid, d, p) == PutCache(DropCache(pool, c, i), d, p);
    assert place[p := Held][p := Cached(d)] == place[p := Cached(d)];
  }

  /** The pool as if cache c held l: while a loop copies pages out of a cache, the array still
      shows them. */
  function WithCache(pool: Pool, c: nat, l: seq<nat>): (r: Pool)
    requires c < |pool.caches|
  {
    pool.(caches := pool.caches[c := l])
  }

  lemma EntryFacts(pool: Pool, place: seq<Place>, c: nat, l: seq<nat>, keep: nat, i: nat)
    requires c < |pool.caches| && keep <= i < |l| && Inv(WithCache(pool, c, l[..keep] + l[i..]), place)
    ensures 0 < l[i] < |place| == |pool.owner| && place[l[i]] == Cached(c) && pool.owner[l[i]] == CACHE
  {
    var v := WithCache(pool, c, l[..keep] + l[i..]);
    assert v.caches[c][keep] == l[i];
    CacheFacts(v, place, c, keep);
  }

  /** One round of a flush loop: entry i of l, of which the first `keep` stay. */
  lemma FlushStep(pool: Pool, place: seq<Place>, c: nat, l: seq<nat>, keep: nat, i: nat, n: nat)
    requires c < |pool.caches| && keep <= i < |l| && n < |pool.lists|
    requires Inv(WithCache(pool, c, l[..keep] + l[i..]), place)
    ensures 0 < l[i] < |place| == |pool.owner| && place[l[i]] == Cached(c) && pool.owner[l[i]] == CACHE
    ensures Inv(WithCache(PutList(pool, n, l[i]), c, l[..keep] + l[i + 1..]), place[l[i] := Listed(n)])
  {
    var v := WithCache(pool, c, l[..keep] + l[i..]);
    assert v.caches[c][keep] == l[i];
    EntryFacts(pool, place, c, l, keep, i);
    FlushOneInv(v, place, c, keep, n);
    assert RemoveAt(v.caches[c], keep) == l[..keep] + l[i + 1..];
    assert WithCache(PutList(pool, n, l[i]), c, l[..keep] + l[i + 1..]) == PutList(DropCache(v, c, keep), n, l[i]);
  }

  /** One round of the stealing loop. */
  lemma StealStep(pool: Pool, place: seq<Place>, c: nat, d: nat, l: seq<nat>, keep: nat, i: nat)
    requires c < |pool.caches| && d < |pool.caches| && c != d && keep <= i < |l| && |pool.caches[d]| < CACHE_SIZE
    requires Inv(WithCache(pool, c, l[..keep] + l[i..]), place)
    ensures 0 < l[i] < |place| == |pool.owner| && place[l[i]] == Cached(c)
    ensures Inv(WithCache(PutCache(pool, d, l[i]), c, l[..keep] + l[i + 1..]), place[l[i] := Cached(d)])
  {
    var v := WithCache(pool, c, l[..keep] + l[i..]);
    assert v.caches[c][keep] == l[i];
    EntryFacts(pool, place, c, l, keep, i);
    StealOneInv(v, place, c, keep, d);
    assert RemoveAt(v.caches[c], keep) == l[..keep] + l[i + 1..];
    assert WithCache(PutCache(pool, d, l[i]), c, l[..keep] + l[i + 1..]) == PutCache(DropCache(v, c, keep), d, l[i]);
  }

  // ----- Ranges of pages -----

  /** A list without the pages of [lo, hi). */
  function Filter(l: seq<nat>, lo: nat, hi: nat): (r: seq<nat>)
    ensures |r| <= |l|
  {
    if l == [] then []
    else if lo <= l[|l| - 1] < hi then Filter(l[..|l| - 1], lo, hi)
    else Filter(l[..|l| - 1], lo, hi) + [l[|l| - 1]]
  }

  ghost function HoldRange(place: seq<Place>, lo: nat, hi: nat): (r: seq<Place>)
    ensures |r| == |place|
  {
    seq(|place|, p requires 0 <= p < |place| => if lo <= p < hi then Held else place[p])
  }

  lemma {:induction false} FilterMembers(l: seq<nat>, lo: nat, hi: nat, p: nat)
    ensures p in Filter(l, lo, hi) <==> p in l && !(lo <= p < hi)
    decreases |l|
  {
    if l != [] {
      FilterMembers(l[..|l| - 1], lo, hi, p);
      assert l == l[..|l| - 1] + [l[|l| - 1]];
    }
  }

  lemma {:induction false} FilterNoDup(l: seq<nat>, lo: nat, hi: nat)
    requires NoDup(l)
    ensures NoDup(Filter(l, lo, hi))
    decreases |l|
  {
    if l != [] {
      var x := l[|l| - 1];
      FilterNoDup(l[..|l| - 1], lo, hi);
      FilterMembers(l[..|l| - 1], lo, hi, x);
    }
  }

  lemma BagFilter(l: seq<nat>, place: seq<Place>, tag: Place, lo: nat, hi: nat)
    requires BagOk(l, place, tag) && tag != Held
    ensures BagOk(Filter(l, lo, hi), HoldRange(place, lo, hi), tag)
  {
    FilterNoDup(l, lo, hi);
    forall p: nat ensures p in Filter(l, lo, hi) <==> p in l && !(lo <= p < hi) { FilterMembers(l, lo, hi, p); }
  }

  /** The allocation of a range of listed pages: every list loses them, the bitmap and the
      owner array gain them. */
  lemma RangeInv(pool: Pool, place: seq<Place>, lo: nat, hi: nat, r: Pool, o: nat)
    requires Inv(pool, place) && lo <= hi <= |place| && o != CACHE
    requires forall p :: lo <= p < hi ==> place[p].Listed?
    requires |r.lists| == |pool.lists| && r.caches == pool.caches && Counted(r)
    requires forall n :: 0 <= n < |r.lists| ==> r.lists[n] == Filter(pool.lists[n], lo, hi)
    requires |r.bitmap| == |pool.bitmap| && |r.owner| == |pool.owner|
    requires forall p: nat :: p < |place| ==> Test(r.bitmap, 8, p) == (lo <= p < hi || Test(pool.bitmap, 8, p))
    requires forall p: nat :: p < |place| ==> r.owner[p] == if lo <= p < hi then o else pool.owner[p]
    ensures Inv(r, HoldRange(place, lo, hi))
  {
    var place' := HoldRange(place, lo, hi);
    forall n | 0 <= n < |r.lists| ensures BagOk(r.lists[n], place', Listed(n)) {
      BagFilter(pool.lists[n], place, Listed(n), lo, hi);
    }
    forall c | 0 <= c < |r.caches| ensures BagOk(r.caches[c], place', Cached(c)) {
      assert BagOk(pool.caches[c], place, Cached(c));
    }
    forall p: nat | p < |place| ensures FlagsOk(Test(r.bitmap, 8, p), r.owner[p], place'[p]) {
      assert FlagsOk(Test(pool.bitmap, 8, p), pool.owner[p], place[p]);
    }
  }
}
