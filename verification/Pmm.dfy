/** The page allocator's operations. Every method up to the public calls is one section under
    the cache lock or the global lock; `halted` is the kernel's stop on a detected corruption. */
module Pmm {
  import opened Bits
  import opened Seqs
  import opened PagePool

  /** The pages clients hold, and the reserved ones, are untouched. */
  ghost predicate SameHeld(place: seq<Place>, place': seq<Place>) {
    && |place'| == |place|
    && forall p :: 0 <= p < |place| ==>
        (place'[p] == Held <==> place[p] == Held) && (place'[p] == Reserved <==> place[p] == Reserved)
  }

  /** Entries keep to i - 1 of l are now on the list of their own node; every other page is where
      it was. */
  ghost predicate Flushed(place: seq<Place>, place': seq<Place>, l: seq<nat>, keep: nat, i: nat, nodeOf: seq<nat>)
    requires keep <= i <= |l|
  {
    && |place'| == |place| == |nodeOf|
    && forall p {:trigger place'[p]} :: 0 <= p < |place| ==>
        place'[p] == if p in l[keep..i] then Listed(nodeOf[p]) else place[p]
  }

  lemma FlushNext(place: seq<Place>, place': seq<Place>, l: seq<nat>, keep: nat, i: nat, nodeOf: seq<nat>)
    requires keep <= i < |l| && Flushed(place, place', l, keep, i, nodeOf) && l[i] < |place|
    ensures Flushed(place, place'[l[i] := Listed(nodeOf[l[i]])], l, keep, i + 1, nodeOf)
  {
    assert l[keep..i + 1] == l[keep..i] + [l[i]];
  }

  /** A list after the pages of l have been put on its front, one after the other, those of node n only:
      the last one comes first. */
  function Pushed(list: seq<nat>, l: seq<nat>, nodeOf: seq<nat>, n: nat): seq<nat> {
    if l == [] then list
    else
      var p, rest := l[|l| - 1], Pushed(list, l[..|l| - 1], nodeOf, n);
      if p < |nodeOf| && nodeOf[p] == n then [p] + rest else rest
  }

  ghost predicate ListsPushed(lists: seq<seq<nat>>, lists': seq<seq<nat>>, l: seq<nat>, nodeOf: seq<nat>) {
    |lists'| == |lists| && forall n :: 0 <= n < |lists| ==> lists'[n] == Pushed(lists[n], l, nodeOf, n)
  }

  lemma {:induction false} PushedNext(lists: seq<seq<nat>>, lists': seq<seq<nat>>, l: seq<nat>, keep: nat, i: nat,
                                      nodeOf: seq<nat>)
    requires keep <= i < |l| && l[i] < |nodeOf| && nodeOf[l[i]] < |lists|
    requires ListsPushed(lists, lists', l[keep..i], nodeOf)
    ensures var nd := nodeOf[l[i]];
      ListsPushed(lists, lists'[nd := [l[i]] + lists'[nd]], l[keep..i + 1], nodeOf)
  {
    assert l[keep..i + 1][..i - keep] == l[keep..i] && l[keep..i + 1][i - keep] == l[i];
  }

  /** The order in which a list is taken after a flush: the pages flushed last first, then the old list. */
  lemma {:induction false} PushedOrder(list: seq<nat>, l: seq<nat>, nodeOf: seq<nat>, n: nat, i: nat, j: nat)
    requires forall k :: 0 <= k < |l| ==> l[k] < |nodeOf| && nodeOf[l[k]] == n
    ensures |Pushed(list, l, nodeOf, n)| == |l| + |list|
    ensures i < |l| ==> Pushed(list, l, nodeOf, n)[|l| - 1 - i] == l[i]
    ensures j < |list| ==> Pushed(list, l, nodeOf, n)[|l| + j] == list[j]
  {
    if l != [] {
      var m := |l| - 1;
      PushedOrder(list, l[..m], nodeOf, n, i, j);
    }
  }

  lemma FreeMove(place: seq<Place>, place': seq<Place>, p: nat, to: Place)
    requires SameHeld(place, place') && IsFree(place', p) && (to.Listed? || to.Cached?)
    ensures SameHeld(place, place'[p := to])
  {
  }

  /** How many pages a refill moves. */
  function RefillCount(cached: nat, listed: nat): (n: nat)
    requires cached <= CACHE_SIZE
    ensures n <= listed
  {
    if listed < CACHE_SIZE - cached then listed else CACHE_SIZE - cached
  }

  lemma RefillNext(c: seq<nat>, l: seq<nat>, n: nat)
    requires n <= |l|
    ensures n < |l| ==>
      l[n..] != [] && l[n..][0] == l[n] && l[n..][1..] == l[n + 1..] && c + l[..n] + [l[n]] == c + l[..n + 1]
  {
  }

  /** A page that is neither held nor reserved. */
  predicate IsFree(place: seq<Place>, p: nat) {
    p < |place| && (place[p].Listed? || place[p].Cached?)
  }

  /** Page p, free before, is the one page clients have gained. */
  ghost predicate Granted(place: seq<Place>, place': seq<Place>, p: nat) {
    p > 0 && IsFree(place, p) && SameHeld(place[p := Held], place')
  }

  lemma GrantAfterMove(a: seq<Place>, b: seq<Place>, c: seq<Place>, p: nat)
    requires SameHeld(a, b) && Granted(b, c, p)
    ensures Granted(a, c, p)
  {
  }

  lemma MoveAfterGrant(a: seq<Place>, b: seq<Place>, c: seq<Place>, p: nat)
    requires Granted(a, b, p) && SameHeld(b, c)
    ensures Granted(a, c, p)
  {
  }

  /** The bits of the n pages from `first` are clear. */
  predicate ClearRun(bitmap: seq<nat>, first: nat, n: nat) {
    forall p: nat :: first <= p < first + n ==> !Test(bitmap, 8, p)
  }

  /** The n pages from `first` exist and are free. */
  predicate FreeRun(place: seq<Place>, first: nat, n: nat) {
    first + n <= |place| && forall p: nat :: first <= p < first + n ==> IsFree(place, p)
  }

  /** Once the caches are empty, runs of clear bits are runs of free pages, all of them listed. */
  lemma RunsAgree(was: seq<Place>, pool: Pool, place: seq<Place>)
    requires Inv(pool, place) && SameHeld(was, place)
    requires forall c :: 0 <= c < |pool.caches| ==> pool.caches[c] == []
    ensures forall p: nat :: p < |place| ==> (!Test(pool.bitmap, 8, p) <==> place[p].Listed?)
    ensures forall p: nat :: p < |place| ==> (!Test(pool.bitmap, 8, p) <==> IsFree(was, p))
    ensures forall w: nat, n: nat :: w + n <= |place| ==> (ClearRun(pool.bitmap, w, n) <==> FreeRun(was, w, n))
  {
    forall c | 0 <= c < |pool.caches| ensures forall p: nat :: p < |place| ==> place[p] != Cached(c) {
      assert BagOk(pool.caches[c], place, Cached(c));
    }
    forall p: nat | p < |place|
      ensures !Test(pool.bitmap, 8, p) <==> place[p].Listed?
      ensures !Test(pool.bitmap, 8, p) <==> IsFree(was, p)
    {
      assert FlagsOk(Test(pool.bitmap, 8, p), pool.owner[p], place[p]);
    }
  }

  /** The walk along one list, with a pointer to the link to overwrite. */
  method DropRange(list: seq<nat>, lo: nat, hi: nat) returns (l: seq<nat>, dropped: nat)
    ensures l == Filter(list, lo, hi) && dropped + |l| == |list|
  {
    l, dropped := list, 0;
    var i := 0;
    ghost var k := 0;
    assert list == Filter(list[..0], lo, hi) + list[0..];
    while i < |l|
      invariant k == i + dropped <= |list| && i == |Filter(list[..k], lo, hi)|
      invariant l == Filter(list[..k], lo, hi) + list[k..]
      decreases |list| - k
    {
      FilterStep(list, lo, hi, k, l);
      if lo <= l[i] < hi {
        l := RemoveAt(l, i);
        dropped := dropped + 1;
      } else {
        i := i + 1;
      }
      k := k + 1;
    }
    assert list[..k] == list && list[k..] == [];
  }

  /** One entry of the walk. */
  lemma FilterStep(list: seq<nat>, lo: nat, hi: nat, k: nat, l: seq<nat>)
    requires k <= |list| && l == Filter(list[..k], lo, hi) + list[k..] && |Filter(list[..k], lo, hi)| < |l|
    ensures k < |list|
    ensures var f, g := Filter(list[..k], lo, hi), Filter(list[..k + 1], lo, hi);
      && l[|f|] == list[k]
      && (if lo <= list[k] < hi then |g| == |f| && RemoveAt(l, |f|) == g + list[k + 1..]
          else |g| == |f| + 1 && l == g + list[k + 1..])
  {
    var f, g := Filter(list[..k], lo, hi), Filter(list[..k + 1], lo, hi);
    assert list[..k + 1][..k] == list[..k];
    assert g == if lo <= list[k] < hi then f else f + [list[k]];
    assert list[k..] == [list[k]] + list[k + 1..];
    if lo <= list[k] < hi { assert RemoveAt(f + list[k..], |f|) == f + list[k + 1..]; }
  }

  function CompareAndSwap(owner: seq<nat>, p: nat, expected: nat, value: nat): seq<nat>
    requires p < |owner|
  {
    if owner[p] == expected then owner[p := value] else owner
  }

  function PageIf(claimed: bool, p: nat): nat {
    if claimed then p else 0
  }

  /** As many caches and node lists as before. */
  predicate SameSizes(pool: Pool, pool': Pool) {
    |pool'.caches| == |pool.caches| && |pool'.lists| == |pool.lists|
  }

  predicate NoneListed(lists: seq<seq<nat>>) {
    forall n :: 0 <= n < |lists| ==> lists[n] == []
  }

  /** The CPU whose cache the k-th attempt to steal goes for. */
  function Victim(k: nat, n: nat): nat {
    if k < n then k else k - n
  }

  /** The first m attempts to steal find a cache locked or with at most one page. */
  ghost predicate NothingToSteal(caches: seq<seq<nat>>, cpu: nat, busy: seq<bool>, m: nat) {
    && m <= |busy| && m <= 2 * |caches|
    && forall k {:trigger busy[k]} :: 0 <= k < m && Victim(k, |caches|) != cpu && !busy[k] ==>
        |caches[Victim(k, |caches|)]| <= 1
  }

  // ----- Where a page comes from -----

  /** List k is one of the first `nodes`, not the own one, and has a page. */
  predicate Candidate(lists: seq<seq<nat>>, here: int, nodes: nat, k: int) {
    0 <= k < nodes && k < |lists| && k != here && lists[k] != []
  }

  lemma CandidateNext(lists: seq<seq<nat>>, here: int, n: nat, m: nat)
    requires m == n + 1 <= |lists|
    ensures forall k {:trigger Candidate(lists, here, m, k)} ::
      Candidate(lists, here, m, k) == (Candidate(lists, here, n, k) || (k == n && n != here && lists[n] != []))
  {
  }

  /** List n is the first of the nearest candidates. */
  ghost predicate Nearest(lists: seq<seq<nat>>, here: int, nodes: nat, distance: seq<nat>, n: int)
    requires nodes <= |distance|
  {
    && Candidate(lists, here, nodes, n)
    && forall k {:trigger Candidate(lists, here, nodes, k)} :: Candidate(lists, here, nodes, k) ==>
      distance[n] <= distance[k] && (k < n ==> distance[n] < distance[k])
  }

  /** List n is the first with a page; -1 says that none has. */
  ghost predicate FirstListed(lists: seq<seq<nat>>, n: int) {
    if n < 0 then n == -1 && NoneListed(lists)
    else n < |lists| && lists[n] != [] && forall k :: 0 <= k < n ==> lists[k] == []
  }

  /** The list that a page is taken from: the own node's, else the nearest one's, else the first. */
  ghost predicate Chosen(lists: seq<seq<nat>>, here: int, nodes: nat, distance: seq<nat>, n: int)
    requires nodes <= |distance|
  {
    if 0 <= here < |lists| && lists[here] != [] then n == here
    else if exists k :: Candidate(lists, here, nodes, k) then Nearest(lists, here, nodes, distance, n)
    else FirstListed(lists, n)
  }

  /** There is one such list. */
  lemma ChosenOne(lists: seq<seq<nat>>, here: int, nodes: nat, distance: seq<nat>, n: int, m: int)
    requires nodes <= |distance| && Chosen(lists, here, nodes, distance, n) && Chosen(lists, here, nodes, distance, m)
    ensures n == m && (n >= 0 ==> n < |lists| && lists[n] != []) && (n < 0 <==> NoneListed(lists))
  {
  }

  /** The list that the cache is refilled from: without node information the first with a page. */
  ghost predicate RefillList(lists: seq<seq<nat>>, numa: bool, here: int, nodes: nat, distance: seq<nat>, n: int)
    requires nodes <= |distance|
  {
    if numa then Chosen(lists, if here < 0 then 0 else here, nodes, distance, n) else FirstListed(lists, n)
  }

  /** As many pages as fit have gone from list n to the end of the cache, if n is a list. */
  ghost predicate Refilled(lists: seq<seq<nat>>, caches: seq<seq<nat>>, cpu: nat, n: int,
                           lists': seq<seq<nat>>, caches': seq<seq<nat>>)
    requires cpu < |caches| && |caches[cpu]| <= CACHE_SIZE && n < |lists|
  {
    if n < 0 then lists' == lists && caches' == caches
    else
      var k := RefillCount(|caches[cpu]|, |lists[n]|);
      caches' == caches[cpu := caches[cpu] + lists[n][..k]] && lists' == lists[n := lists[n][k..]]
  }

  /** The k-th attempt is the first to find a cache it can take pages from. */
  ghost predicate FirstRich(caches: seq<seq<nat>>, cpu: nat, busy: seq<bool>, k: nat) {
    && k < |busy| && k < 2 * |caches| && Victim(k, |caches|) != cpu && !busy[k] && |caches[Victim(k, |caches|)]| > 1
    && NothingToSteal(caches, cpu, busy, k)
  }

  /** The caches of all CPUs but two are as before. */
  predicate OthersKept(caches: seq<seq<nat>>, caches': seq<seq<nat>>, a: nat, b: nat) {
    |caches'| == |caches| && forall c :: 0 <= c < |caches| && c != a && c != b ==> caches'[c] == caches[c]
  }

  /** The page is the newest of cache v; the others of its newer half are now ours. */
  ghost predicate Robbed(caches: seq<seq<nat>>, cpu: nat, v: nat, caches': seq<seq<nat>>, p: nat)
    requires v < |caches|
  {
    var l := caches[v];
    var room := if |l| / 2 < CACHE_SIZE then |l| / 2 else CACHE_SIZE;
    && cpu < |caches'| == |caches| && |l| > 1 && p == l[|l| - 1]
    && caches'[v] == l[..|l| - room] && caches'[cpu] == l[|l| - room..|l| - 1] && OthersKept(caches, caches', cpu, v)
  }

  lemma NothingMore(caches: seq<seq<nat>>, cpu: nat, busy: seq<bool>, m: nat, next: nat)
    requires NothingToSteal(caches, cpu, busy, m) && m < |busy| && m < 2 * |caches| && next == m + 1
    requires Victim(m, |caches|) == cpu || busy[m] || |caches[Victim(m, |caches|)]| <= 1
    ensures NothingToSteal(caches, cpu, busy, next)
  {
  }

  /** Where pmm_alloc_page finds its page: the newest of the own cache; else the head of the chosen
      list n, with a refill of the cache from list r after it; else the newest of the first cache it can
      steal from; else none. */
  ghost predicate Served(pool: Pool, pool': Pool, cpu: nat, numa: bool, here: int, nodes: nat, distance: seq<nat>,
                         busy: seq<bool>, p: nat, n: int, r: int, k: nat)
    requires cpu < |pool.caches| && nodes <= |distance| && |busy| == 2 * |pool.caches|
  {
    var c := pool.caches[cpu];
    if c != [] then p == c[|c| - 1] && pool'.caches == pool.caches[cpu := c[..|c| - 1]] && pool'.lists == pool.lists
    else if !NoneListed(pool.lists) then
      && Chosen(pool.lists, here, nodes, distance, n) && 0 <= n < |pool.lists| && pool.lists[n] != []
      && p == pool.lists[n][0]
      && var rest := pool.lists[n := pool.lists[n][1..]];
      && RefillList(rest, numa, here, nodes, distance, r) && r < |rest|
      && Refilled(rest, pool.caches, cpu, r, pool'.lists, pool'.caches)
    else if !NothingToSteal(pool.caches, cpu, busy, |busy|) then
      FirstRich(pool.caches, cpu, busy, k) && Robbed(pool.caches, cpu, Victim(k, |pool.caches|), pool'.caches, p)
      && pool'.lists == pool.lists
    else p == 0 && pool' == pool
  }

  /** Page p, the head of list n, has been taken off it for the thread. */
  ghost predicate Taken(pool: Pool, n: int, thread: nat, pool': Pool, p: nat) {
    && 0 <= n < |pool.lists| && pool.lists[n] != [] && p == pool.lists[n][0]
    && pool'.lists == pool.lists[n := pool.lists[n][1..]] && p < |pool'.owner| && pool'.owner[p] == thread
  }

  /** Where a freed page goes: to the end of the cache, after the newer half of a full cache has gone to
      the lists. */
  ghost predicate FreedTo(pool: Pool, place: seq<Place>, pool': Pool, place': seq<Place>, cpu: nat, p: nat,
                          nodeOf: seq<nat>)
    requires cpu < |pool.caches| && p < |place|
  {
    var c := pool.caches[cpu];
    if |c| < CACHE_SIZE then
      pool'.caches == pool.caches[cpu := c + [p]] && pool'.lists == pool.lists && place' == place[p := Cached(cpu)]
    else
      && pool'.caches == pool.caches[cpu := c[..|c| / 2] + [p]] &&
          ListsPushed(pool.lists, pool'.lists, c[|c| / 2..], nodeOf)
      && exists mid :: Flushed(place, mid, c, |c| / 2, |c|, nodeOf) && p < |mid| && place' == mid[p := Cached(cpu)]
  }

  /** Held pages keep their owner. */
  ghost predicate OwnersKept(pool: Pool, place: seq<Place>, pool': Pool) {
    && |pool'.owner| == |pool.owner|
    && forall q :: 0 <= q < |place| && q < |pool.owner| && place[q] == Held ==> pool'.owner[q] == pool.owner[q]
  }

  class Pages {
    var pool: Pool
    var halted: bool
    ghost var place: seq<Place>
    const nodeOf: seq<nat>

    ghost predicate Valid()
      reads this
    {
      && Inv(pool, place) && !halted && |nodeOf| == |place| && |pool.lists| > 0
      && forall p :: 0 <= p < |nodeOf| ==> nodeOf[p] < |pool.lists|
    }

    constructor (pool: Pool, nodeOf: seq<nat>, ghost place: seq<Place>)
      requires Inv(pool, place) && |nodeOf| == |place| && |pool.lists| > 0
      requires forall p :: 0 <= p < |nodeOf| ==> nodeOf[p] < |pool.lists|
      ensures Valid() && this.pool == pool && this.place == place
    {
      this.pool, this.place, this.nodeOf, halted := pool, place, nodeOf, false;
    }

    /** owner_set: a page that two different threads own stops the kernel. */
    method OwnerSet(p: nat, o: nat)
      modifies this`pool, this`halted
      ensures p < |old(pool).owner| ==> pool == old(pool).(owner := old(pool).owner[p := o])
      ensures p >= |old(pool).owner| ==> pool == old(pool)
      ensures p < |old(pool).owner| ==>
        (old(pool).owner[p] in {UNSET, CACHE, o} || o in {UNSET, CACHE} ==> halted == old(halted))
    {
      if p >= |pool.owner| { return; }
      var was := pool.owner[p];
      pool := pool.(owner := pool.owner[p := o]);
      halted := halted || (was != UNSET && was != CACHE && o != UNSET && o != CACHE && was != o);
    }

    /** cache_try_pop. The stop on a clear bit and the compare-and-swap failure cannot happen. */
    method TryPop(cpu: nat, thread: nat) returns (p: nat)
      requires Valid() && cpu < |pool.caches| && thread != CACHE
      modifies this
      ensures Valid() && pool.lists == old(pool).lists && |pool.caches| == |old(pool).caches|
      ensures p == 0 <==> old(pool).caches[cpu] == []
      ensures p == 0 ==> pool == old(pool) && place == old(place)
      ensures p != 0 ==> Granted(old(place), place, p) && p == old(pool).caches[cpu][|old(pool).caches[cpu]| - 1]
      ensures p != 0 ==>
        && pool.caches == old(pool).caches[cpu := old(pool).caches[cpu][..|old(pool).caches[cpu]| - 1]]
        && p < |old(pool).owner| && pool.owner == old(pool).owner[p := thread]
    {
      var n := |pool.caches[cpu]|;
      if n == 0 { return 0; }
      CacheFacts(pool, place, cpu, n - 1);
      DropCacheInv(pool, place, cpu, n - 1, thread);
      assert RemoveAt(pool.caches[cpu], n - 1) == pool.caches[cpu][..n - 1];
      p := pool.caches[cpu][n - 1];
      pool := pool.(caches := pool.caches[cpu := pool.caches[cpu][..n - 1]]);
      halted := halted || !Test(pool.bitmap, 8, p);
      var claimed := pool.owner[p] == CACHE;
      pool := pool.(owner := CompareAndSwap(pool.owner, p, CACHE, thread));
      place := place[p := Held];
      p := PageIf(claimed, p);
    }

    /** cache_try_push of a held page. It fails only on a full cache. */
    method TryPush(cpu: nat, p: nat) returns (ok: bool)
      requires Valid() && cpu < |pool.caches| && 0 < p < |place| && place[p] == Held
      modifies this
      ensures Valid() && pool.lists == old(pool).lists && |pool.caches| == |old(pool).caches|
      ensures ok <==> |old(pool).caches[cpu]| < CACHE_SIZE
      ensures !ok ==> pool == old(pool) && place == old(place)
      ensures ok ==>
        place == old(place)[p := Cached(cpu)] && pool.caches == old(pool).caches[cpu := old(pool).caches[cpu] + [p]]
    {
      var n := |pool.caches[cpu]|;
      assert BagOk(pool.caches[cpu], place, Cached(cpu));
      for i := 0 to n
        invariant forall j :: 0 <= j < i ==> pool.caches[cpu][j] != p
      {
        assert pool.caches[cpu][i] in pool.caches[cpu];
        if pool.caches[cpu][i] == p { return true; }
      }
      if n >= CACHE_SIZE { return false; }
      assert FlagsOk(Test(pool.bitmap, 8, p), pool.owner[p], place[p]);
      PutCacheInv(pool, place, cpu, p);
      halted := halted || pool.owner[p] == CACHE;
      pool := pool.(owner := CompareAndSwap(pool.owner, p, pool.owner[p], CACHE));
      pool := pool.(caches := pool.caches[cpu := pool.caches[cpu] + [p]]);
      place := place[p := Cached(cpu)];
      return true;
    }

    /** Put a page on the front of its node's list: the body of every flush loop. */
    method ListPage(p: nat)
      requires p < |pool.owner| <= 8 * |pool.bitmap| && |nodeOf| == |pool.owner|
      requires nodeOf[p] < |pool.lists| == |pool.counts| && pool.owner[p] in {UNSET, CACHE}
      modifies this`pool, this`halted
      ensures pool == PutList(old(pool), nodeOf[p], p) && halted == old(halted)
    {
      pool := pool.(bitmap := Unmark(pool.bitmap, 8, p));
      OwnerSet(p, UNSET);
      var nd := nodeOf[p];
      pool := pool.(counts := pool.counts[nd := pool.counts[nd] + 1], free := pool.free + 1);
      pool := pool.(lists := pool.lists[nd := [p] + pool.lists[nd]]);
    }

    /** Flush the entries of a cache from position `keep` on to the node lists. */
    method FlushFrom(cpu: nat, keep: nat)
      requires Valid() && cpu < |pool.caches| && keep <= |pool.caches[cpu]|
      modifies this
      ensures SameSizes(old(pool), pool)
      ensures Valid() && SameHeld(old(place), place)
      ensures pool.caches == old(pool).caches[cpu := old(pool).caches[cpu][..keep]]
      ensures Flushed(old(place), place, old(pool).caches[cpu], keep, |old(pool).caches[cpu]|, nodeOf)
      ensures ListsPushed(old(pool).lists, pool.lists, old(pool).caches[cpu][keep..], nodeOf)
    {
      var l := pool.caches[cpu];
      SplitAt(l, keep);
      assert WithCache(pool, cpu, l) == pool;
      FlushLoop(cpu, l, keep);
      pool := pool.(caches := pool.caches[cpu := l[..keep]]);
    }

    method FlushLoop(cpu: nat, l: seq<nat>, keep: nat)
      requires !halted && cpu < |pool.caches| && pool.caches[cpu] == l && keep <= |l| && |nodeOf| == |place|
      requires forall q :: 0 <= q < |nodeOf| ==> nodeOf[q] < |pool.lists|
      requires Inv(WithCache(pool, cpu, l[..keep] + l[keep..]), place)
      modifies this
      ensures !halted && pool.caches == old(pool).caches && |pool.lists| == |old(pool).lists|
      ensures Inv(WithCache(pool, cpu, l[..keep]), place) && SameHeld(old(place), place)
      ensures Flushed(old(place), place, l, keep, |l|, nodeOf)
      ensures ListsPushed(old(pool).lists, pool.lists, l[keep..], nodeOf)
    {
      for i := keep to |l|
        invariant !halted && pool.caches == old(pool).caches && |pool.lists| == |old(pool).lists|
        invariant Inv(WithCache(pool, cpu, l[..keep] + l[i..]), place)
        invariant SameHeld(old(place), place) && Flushed(old(place), place, l, keep, i, nodeOf)
        invariant ListsPushed(old(pool).lists, pool.lists, l[keep..i], nodeOf)
      {
        FlushEntry(cpu, l, keep, i, old(place), old(pool).lists);
      }
      NoRest(l, keep);
      assert l[keep..|l|] == l[keep..];
    }

    /** One entry of a cache goes to the list of its node. */
    method FlushEntry(cpu: nat, l: seq<nat>, keep: nat, i: nat, ghost was: seq<Place>, ghost lists0: seq<seq<nat>>)
      requires !halted && cpu < |pool.caches| && pool.caches[cpu] == l && keep <= i < |l| && |nodeOf| == |place|
      requires forall q :: 0 <= q < |nodeOf| ==> nodeOf[q] < |pool.lists|
      requires Inv(WithCache(pool, cpu, l[..keep] + l[i..]), place)
      requires SameHeld(was, place) && Flushed(was, place, l, keep, i, nodeOf)
      requires ListsPushed(lists0, pool.lists, l[keep..i], nodeOf)
      modifies this
      ensures !halted && pool.caches == old(pool).caches && |pool.lists| == |old(pool).lists|
      ensures Inv(WithCache(pool, cpu, l[..keep] + l[i + 1..]), place)
      ensures SameHeld(was, place) && Flushed(was, place, l, keep, i + 1, nodeOf)
      ensures ListsPushed(lists0, pool.lists, l[keep..i + 1], nodeOf)
    {
      var p := l[i];
      EntryFacts(pool, place, cpu, l, keep, i);
      FlushStep(pool, place, cpu, l, keep, i, nodeOf[p]);
      FreeMove(was, place, p, Listed(nodeOf[p]));
      FlushNext(was, place, l, keep, i, nodeOf);
      PushedNext(lists0, pool.lists, l, keep, i, nodeOf);
      ListPage(p);
      place := place[p := Listed(nodeOf[p])];
    }

    /** cache_flush_half keeps the older half. */
    method FlushHalf(cpu: nat)
      requires Valid() && cpu < |pool.caches|
      modifies this
      ensures SameSizes(old(pool), pool)
      ensures Valid() && SameHeld(old(place), place)
      ensures pool.caches == old(pool).caches[cpu := old(pool).caches[cpu][..|old(pool).caches[cpu]| / 2]]
      ensures var l := old(pool).caches[cpu];
        Flushed(old(place), place, l, |l| / 2, |l|, nodeOf) &&
          ListsPushed(old(pool).lists, pool.lists, l[|l| / 2..], nodeOf)
    {
      FlushFrom(cpu, |pool.caches[cpu]| / 2);
    }

    /** pmm_flush_cpu_cache */
    method FlushCpu(cpu: nat)
      requires Valid()
      modifies this
      ensures SameSizes(old(pool), pool)
      ensures Valid() && SameHeld(old(place), place)
      ensures cpu < |old(pool).caches| ==> pool.caches == old(pool).caches[cpu := []]
      ensures cpu >= |old(pool).caches| ==> pool == old(pool)
    {
      if cpu >= |pool.caches| { return; }
      FlushFrom(cpu, 0);
    }

    /** One round of the refill loop: the head of a list goes to the end of a cache. */
    method RefillOne(cpu: nat, src: nat)
      requires Valid() && cpu < |pool.caches| && src < |pool.lists| && pool.lists[src] != [] &&
        |pool.caches[cpu]| < CACHE_SIZE
      modifies this
      ensures Valid() && (forall a :: SameHeld(a, old(place)) ==> SameHeld(a, place))
      ensures pool.caches == old(pool).caches[cpu := old(pool).caches[cpu] + [old(pool).lists[src][0]]]
      ensures pool.lists == old(pool).lists[src := old(pool).lists[src][1..]]
      ensures OwnersKept(old(pool), old(place), pool)
    {
      HeadFacts(pool, place, src);
      RefillOneInv(pool, place, src, cpu);
      var p := pool.lists[src][0];
      forall a | SameHeld(a, place) ensures SameHeld(a, place[p := Cached(cpu)]) { FreeMove(a, place, p, Cached(cpu)); }
      ghost var was := pool;
      pool := pool.(lists := pool.lists[src := pool.lists[src][1..]]);
      pool := pool.(counts := pool.counts[src := pool.counts[src] - 1], free := pool.free - 1);
      pool := pool.(bitmap := Mark(pool.bitmap, 8, p));
      OwnerSet(p, CACHE);
      pool := pool.(caches := pool.caches[cpu := pool.caches[cpu] + [p]]);
      place := place[p := Cached(cpu)];
      assert pool == PutCache(TakeList(was, src, CACHE), cpu, p) by {
        assert was.owner[p := CACHE][p := CACHE] == was.owner[p := CACHE];
      }
    }

    /** cache_refill from node `src`, which the caller has picked; negative when all lists are empty. */
    method Refill(cpu: nat, src: int)
      requires Valid() && cpu < |pool.caches| && src < |pool.lists|
      modifies this
      ensures SameSizes(old(pool), pool)
      ensures Valid() && SameHeld(old(place), place) && OwnersKept(old(pool), old(place), pool)
      ensures src < 0 ==> pool == old(pool) && place == old(place)
      ensures Refilled(old(pool).lists, old(pool).caches, cpu, src, pool.lists, pool.caches)
    {
      if src < 0 { return; }
      var count, iter := |pool.caches[cpu]|, CACHE_SIZE;
      ghost var c0, l0, n := pool.caches[cpu], pool.lists[src], 0;
      assert c0 + l0[..0] == c0;
      while pool.lists[src] != [] && count < CACHE_SIZE && iter > 0
        invariant Valid() && |pool.lists| == |old(pool).lists| && |pool.caches| == |old(pool).caches|
        invariant count == |pool.caches[cpu]| && SameHeld(old(place), place) && OwnersKept(old(pool), old(place), pool)
        invariant n <= |l0| && count == |c0| + n && iter == CACHE_SIZE - n
        invariant pool.caches == old(pool).caches[cpu := c0 + l0[..n]] && pool.lists == old(pool).lists[src := l0[n..]]
        decreases iter
      {
        RefillNext(c0, l0, n);
        RefillOne(cpu, src);
        count, iter, n := count + 1, iter - 1, n + 1;
      }
    }

    /** cache_steal: up to half of the victim's cache moves to the end of ours. */
    method Steal(cpu: nat, victim: nat, busy: bool) returns (room: nat)
      requires Valid() && cpu < |pool.caches| && victim < |pool.caches|
      modifies this
      ensures SameSizes(old(pool), pool)
      ensures Valid() && SameHeld(old(place), place) && pool.lists == old(pool).lists
      ensures |pool.caches| == |old(pool).caches| && room <= |pool.caches[cpu]|
      ensures |pool.caches[cpu]| == |old(pool).caches[cpu]| + room
      ensures room == 0 ==> pool == old(pool) && place == old(place)
      ensures room == 0 <==>
        victim == cpu || busy || |old(pool).caches[victim]| <= 1 || |old(pool).caches[cpu]| == CACHE_SIZE
      ensures room > 0 ==>
        var l, mine := old(pool).caches[victim], old(pool).caches[cpu];
        && victim != cpu && room == (if CACHE_SIZE - |mine| > |l| / 2 then |l| / 2 else CACHE_SIZE - |mine|)
        && pool.caches[victim] == l[..|l| - room] && pool.caches[cpu] == mine + l[|l| - room..]
        && OthersKept(old(pool).caches, pool.caches, cpu, victim)
    {
      if victim == cpu || busy { return 0; }
      var l, mine := pool.caches[victim], pool.caches[cpu];
      var n := |l|;
      var steal := n / 2;
      if steal == 0 { return 0; }
      room := CACHE_SIZE - |mine|;
      if room > steal { room := steal; }
      StealSome(cpu, victim, n - room);
    }

    /** What the victim has from position `keep` on moves to the end of our cache. */
    method StealSome(cpu: nat, victim: nat, keep: nat)
      requires Valid() && cpu < |pool.caches| && victim < |pool.caches| && cpu != victim &&
        keep <= |pool.caches[victim]|
      requires |pool.caches[cpu]| + |pool.caches[victim]| - keep <= CACHE_SIZE
      modifies this
      ensures Valid() && SameHeld(old(place), place) && pool.lists == old(pool).lists &&
        |pool.caches| == |old(pool).caches|
      ensures pool.caches[victim] == old(pool).caches[victim][..keep]
      ensures pool.caches[cpu] == old(pool).caches[cpu] + old(pool).caches[victim][keep..]
      ensures OthersKept(old(pool).caches, pool.caches, cpu, victim)
      ensures keep == |old(pool).caches[victim]| ==> pool == old(pool) && place == old(place)
    {
      var l := pool.caches[victim];
      SplitAt(l, keep);
      assert WithCache(pool, victim, l) == pool;
      pool := pool.(caches := pool.caches[victim := l[..keep]]);
      StealLoop(cpu, victim, l, keep);
      NoRest(l, keep);
      assert WithCache(pool, victim, l[..keep]) == pool;
    }

    /** The copying loop of cache_steal, once the victim's count has been cut to `keep`. */
    method StealLoop(cpu: nat, victim: nat, l: seq<nat>, keep: nat)
      requires cpu < |pool.caches| && victim < |pool.caches| && cpu != victim && keep <= |l|
      requires pool.caches[victim] == l[..keep] && |pool.caches[cpu]| + |l| - keep <= CACHE_SIZE
      requires Inv(WithCache(pool, victim, l[..keep] + l[keep..]), place)
      modifies this`pool, this`place
      ensures pool.lists == old(pool).lists && |pool.caches| == |old(pool).caches|
      ensures pool.caches[victim] == l[..keep] && pool.caches[cpu] == old(pool).caches[cpu] + l[keep..]
      ensures keep == |l| ==> pool == old(pool) && place == old(place)
      ensures OthersKept(old(pool).caches, pool.caches, cpu, victim)
      ensures Inv(WithCache(pool, victim, l[..keep] + l[|l|..]), place) && SameHeld(old(place), place)
    {
      for i := keep to |l|
        invariant pool.lists == old(pool).lists && |pool.caches| == |old(pool).caches|
        invariant pool.caches[victim] == l[..keep] && pool.caches[cpu] == old(pool).caches[cpu] + l[keep..i]
        invariant i == keep ==> pool == old(pool) && place == old(place)
        invariant OthersKept(old(pool).caches, pool.caches, cpu, victim)
        invariant Inv(WithCache(pool, victim, l[..keep] + l[i..]), place) && SameHeld(old(place), place)
      {
        GrowSlice(old(pool).caches[cpu], l, keep, i);
        StealEntry(cpu, victim, l, keep, i, old(place));
      }
      assert l[keep..|l|] == l[keep..];
    }

    /** One entry moves from the victim's cache to this one. */
    method StealEntry(cpu: nat, victim: nat, l: seq<nat>, keep: nat, i: nat, ghost was: seq<Place>)
      requires cpu < |pool.caches| && victim < |pool.caches| && cpu != victim && keep <= i < |l| &&
        |pool.caches[cpu]| < CACHE_SIZE
      requires Inv(WithCache(pool, victim, l[..keep] + l[i..]), place) && SameHeld(was, place)
      modifies this`pool, this`place
      ensures l[i] < |old(pool).owner| && pool == PutCache(old(pool), cpu, l[i])
      ensures Inv(WithCache(pool, victim, l[..keep] + l[i + 1..]), place) && SameHeld(was, place)
    {
      var p := l[i];
      StealStep(pool, place, victim, cpu, l, keep, i);
      FreeMove(was, place, p, Cached(cpu));
      pool := pool.(caches := pool.caches[cpu := pool.caches[cpu] + [p]]);
      pool := pool.(owner := pool.owner[p := CACHE]);
      place := place[p := Cached(cpu)];
      assert pool == PutCache(old(pool), cpu, p);
    }

    /** pop_from_node. None of its three stops can happen. */
    method PopNode(node: int, thread: nat) returns (p: nat)
      requires Valid() && thread != CACHE
      modifies this
      ensures Valid() && pool.caches == old(pool).caches && |pool.lists| == |old(pool).lists|
      ensures p == 0 <==> (node < 0 || node >= |old(pool).lists| || old(pool).lists[node] == [])
      ensures p == 0 ==> pool == old(pool) && place == old(place)
      ensures p != 0 ==> Granted(old(place), place, p) && p == old(pool).lists[node][0]
      ensures p != 0 ==>
        && pool.lists == old(pool).lists[node := old(pool).lists[node][1..]]
        && p < |old(pool).owner| && pool.owner == old(pool).owner[p := thread]
    {
      if node < 0 || node >= |pool.lists| { return 0; }
      if pool.lists[node] == [] { return 0; }
      HeadFacts(pool, place, node);
      TakeListInv(pool, place, node, thread);
      p := pool.lists[node][0];
      halted := halted || p >= |pool.owner| || Test(pool.bitmap, 8, p);
      pool := pool.(lists := pool.lists[node := pool.lists[node][1..]]);
      pool := pool.(counts := pool.counts[node := pool.counts[node] - 1], free := pool.free - 1);
      pool := pool.(bitmap := Mark(pool.bitmap, 8, p));
      OwnerSet(p, thread);
      place := place[p := Held];
    }

    // ----- Single pages -----

    /** The non-empty node nearest to `here`, by the distance table. */
    method NearestNode(here: int, nodes: nat, distance: seq<nat>) returns (best: int)
      requires nodes <= |pool.lists| && nodes <= |distance|
      ensures best < 0 ==> best == -1 && forall k :: !Candidate(pool.lists, here, nodes, k)
      ensures best >= 0 ==> Nearest(pool.lists, here, nodes, distance, best)
    {
      best := -1;
      for n := 0 to nodes
        invariant -1 <= best
        invariant best < 0 ==> forall k :: !Candidate(pool.lists, here, n, k)
        invariant best >= 0 ==> Nearest(pool.lists, here, n, distance, best)
      {
        CandidateNext(pool.lists, here, n, n + 1);
        if n == here || pool.lists[n] == [] { continue; }
        if best < 0 || distance[n] < distance[best] { best := n; }
      }
    }

    method FirstList() returns (n: int)
      ensures FirstListed(pool.lists, n)
    {
      n := 0;
      while n < |pool.lists|
        invariant 0 <= n <= |pool.lists| && forall k :: 0 <= k < n ==> pool.lists[k] == []
      {
        if pool.lists[n] != [] { return; }
        n := n + 1;
      }
      return -1;
    }

    /** pick_refill_node */
    method RefillNode(numa: bool, here: int, nodes: nat, distance: seq<nat>) returns (n: int)
      requires nodes <= |pool.lists| && nodes <= |distance|
      ensures RefillList(pool.lists, numa, here, nodes, distance, n) && n < |pool.lists|
    {
      if !numa {
        n := FirstList();
        return;
      }
      var mine := if here < 0 then 0 else here;
      if mine < |pool.lists| && pool.lists[mine] != [] { return mine; }
      n := NearestNode(mine, nodes, distance);
      if n < 0 { n := FirstList(); }
    }

    /** The three passes over the node lists. */
    method TakeAny(here: int, nodes: nat, distance: seq<nat>, thread: nat) returns (p: nat, ghost n: int)
      requires Valid() && thread != CACHE && nodes <= |pool.lists| && nodes <= |distance|
      modifies this
      ensures Valid() && pool.caches == old(pool).caches && |pool.lists| == |old(pool).lists|
      ensures Chosen(old(pool).lists, here, nodes, distance, n)
      ensures p == 0 <==> NoneListed(old(pool).lists)
      ensures p == 0 ==> pool == old(pool) && place == old(place)
      ensures p != 0 ==> Granted(old(place), place, p) && Taken(old(pool), n, thread, pool, p)
    {
      n := here;
      p := PopNode(here, thread);
      if p != 0 { return; }
      var best := NearestNode(here, nodes, distance);
      n := best;
      if best >= 0 {
        p := PopNode(best, thread);
        return;
      }
      var i := 0;
      while i < |pool.lists| && p == 0
        invariant i <= |pool.lists| && p == 0 && Valid() && pool == old(pool) && place == old(place)
        invariant forall m :: 0 <= m < i ==> pool.lists[m] == []
      {
        p := PopNode(i, thread);
        n := i;
        if p != 0 { return; }
        i := i + 1;
      }
      n := -1;
    }

    /** Two rounds of stealing from the other CPUs, each followed by a pop. From an empty cache it
        fails exactly if no attempt finds a cache with two pages or more. */
    method StealAndPop(cpu: nat, thread: nat, busy: seq<bool>) returns (p: nat, ghost at: nat)
      requires Valid() && cpu < |pool.caches| && thread != CACHE && |busy| == 2 * |pool.caches|
      modifies this
      ensures SameSizes(old(pool), pool) && pool.lists == old(pool).lists
      ensures Valid()
      ensures p == 0 ==> SameHeld(old(place), place)
      ensures p != 0 ==> Granted(old(place), place, p) && p < |pool.owner| && pool.owner[p] == thread
      ensures old(pool).caches[cpu] == [] ==>
        && (p == 0 <==> NothingToSteal(old(pool).caches, cpu, busy, |busy|))
        && (p == 0 ==> pool == old(pool) && place == old(place))
        && (p != 0 ==> FirstRich(old(pool).caches, cpu, busy, at))
        && (p != 0 ==> Robbed(old(pool).caches, cpu, Victim(at, |old(pool).caches|), pool.caches, p))
    {
      var n := |pool.caches|;
      var k := 0;
      p, at := 0, 0;
      while k < 2 * n
        invariant k <= 2 * n && Valid() && SameSizes(old(pool), pool) && pool.lists == old(pool).lists
        invariant p == 0 && SameHeld(old(place), place)
        invariant old(pool).caches[cpu] == [] ==>
          pool == old(pool) && place == old(place) && NothingToSteal(old(pool).caches, cpu, busy, k)
      {
        var victim := Victim(k, n);
        if victim != cpu {
          p := StealOne(cpu, victim, busy[k], thread, old(place));
          at := k;
          if p != 0 { return; }
        }
        if old(pool).caches[cpu] == [] { NothingMore(old(pool).caches, cpu, busy, k, k + 1); }
        k := k + 1;
      }
    }

    /** Steal from one CPU, then pop if that gave anything. */
    method StealOne(cpu: nat, victim: nat, busy: bool, thread: nat, ghost was: seq<Place>) returns (p: nat)
      requires Valid() && cpu < |pool.caches| && victim < |pool.caches| && victim != cpu && thread != CACHE
      requires SameHeld(was, place)
      modifies this
      ensures Valid() && SameSizes(old(pool), pool) && pool.lists == old(pool).lists
      ensures p == 0 ==> pool == old(pool) && place == old(place)
      ensures p != 0 ==> Granted(was, place, p) && p < |pool.owner| && pool.owner[p] == thread
      ensures old(pool).caches[cpu] == [] ==> (p == 0 <==> busy || |old(pool).caches[victim]| <= 1)
      ensures old(pool).caches[cpu] == [] && p != 0 ==> Robbed(old(pool).caches, cpu, victim, pool.caches, p)
    {
      var room := Steal(cpu, victim, busy);
      if room == 0 { return 0; }
      ghost var mid := place;
      ghost var l := old(pool).caches[victim];
      assert old(pool).caches[cpu] == [] ==> pool.caches[cpu] == l[|l| - room..];
      p := TryPop(cpu, thread);
      GrantAfterMove(was, mid, place, p);
    }

    /** pmm_alloc_page: a page nobody held, from where Served says, owned by the thread, or none. It fails
        exactly if this CPU's cache and every list are empty and no attempt to steal finds another cache
        unlocked with two pages or more: a single page in another CPU's cache is out of reach. */
    method AllocPage(cpu: nat, thread: nat, numa: bool, here: int, nodes: nat, distance: seq<nat>, busy: seq<bool>)
      returns (p: nat, ghost n: int, ghost r: int, ghost k: nat)
      requires Valid() && cpu < |pool.caches| && thread != CACHE && nodes <= |pool.lists| && nodes <= |distance|
      requires |busy| == 2 * |pool.caches|
      modifies this
      ensures SameSizes(old(pool), pool)
      ensures Valid()
      ensures Served(old(pool), pool, cpu, numa, here, nodes, distance, busy, p, n, r, k)
      ensures p != 0 ==> Granted(old(place), place, p) && p < |pool.owner| && pool.owner[p] == thread
      ensures p == 0 <==>
        && old(pool).caches[cpu] == [] && NoneListed(old(pool).lists)
        && NothingToSteal(old(pool).caches, cpu, busy, |busy|)
      ensures p == 0 ==> pool == old(pool) && place == old(place)
    {
      n, r, k := -1, -1, 0;
      p := TryPop(cpu, thread);
      if p != 0 { return; }
      p, n := TakeAny(here, nodes, distance, thread);
      if p == 0 {
        p, k := StealAndPop(cpu, thread, busy);
        return;
      }
      ghost var mid := place;
      var src := RefillNode(numa, here, nodes, distance);
      r := src;
      Refill(cpu, src);
      MoveAfterGrant(old(place), mid, place, p);
    }

    /** pmm_free_page by a client that holds the page. */
    method FreePage(cpu: nat, addr: nat)
      requires Valid() && cpu < |pool.caches|
      requires addr == 0 || addr % PAGE_SIZE != 0 || (addr / PAGE_SIZE < |place| && place[addr / PAGE_SIZE] == Held)
      modifies this
      ensures SameSizes(old(pool), pool)
      ensures Valid() && |pool.caches| == |old(pool).caches|
      ensures addr == 0 || addr % PAGE_SIZE != 0 ==> pool == old(pool) && place == old(place)
      ensures addr != 0 && addr % PAGE_SIZE == 0 ==>
        && |place| == |old(place)| && IsFree(place, addr / PAGE_SIZE)
        && SameHeld(old(place)[addr / PAGE_SIZE := Cached(cpu)], place)
        && FreedTo(old(pool), old(place), pool, place, cpu, addr / PAGE_SIZE, nodeOf)
    {
      if addr == 0 || addr % PAGE_SIZE != 0 { return; }
      var p := addr / PAGE_SIZE;
      var ok := TryPush(cpu, p);
      if ok { return; }
      if p >= |pool.owner| { return; }
      assert FlagsOk(Test(pool.bitmap, 8, p), pool.owner[p], place[p]);
      if !Test(pool.bitmap, 8, p) { return; }
      FlushHalf(cpu);
      PushOrList(cpu, p);
    }

    /** The end of the slow path of pmm_free_page, whatever has happened to the cache meanwhile. */
    method PushOrList(cpu: nat, p: nat)
      requires Valid() && cpu < |pool.caches| && 0 < p < |place| && place[p] == Held
      modifies this
      ensures SameSizes(old(pool), pool)
      ensures Valid() && |pool.caches| == |old(pool).caches|
      ensures place == old(place)[p := if |old(pool).caches[cpu]| < CACHE_SIZE then Cached(cpu) else Listed(nodeOf[p])]
      ensures if |old(pool).caches[cpu]| < CACHE_SIZE then
          pool.caches == old(pool).caches[cpu := old(pool).caches[cpu] + [p]] && pool.lists == old(pool).lists
        else
          pool.caches == old(pool).caches &&
            pool.lists == old(pool).lists[nodeOf[p] := [p] + old(pool).lists[nodeOf[p]]]
    {
      ghost var was := pool;
      assert FlagsOk(Test(pool.bitmap, 8, p), pool.owner[p], place[p]);
      halted := halted || pool.owner[p] == CACHE;
      pool := pool.(owner := CompareAndSwap(pool.owner, p, pool.owner[p], CACHE));
      if |pool.caches[cpu]| >= CACHE_SIZE {
        PutListInv(was, place, nodeOf[p], p);
        ListPage(p);
        place := place[p := Listed(nodeOf[p])];
        assert was.owner[p := CACHE][p := UNSET] == was.owner[p := UNSET];
        assert pool == PutList(was, nodeOf[p], p);
        return;
      }
      PutCacheInv(was, place, cpu, p);
      pool := pool.(caches := pool.caches[cpu := pool.caches[cpu] + [p]]);
      place := place[p := Cached(cpu)];
    }

    // ----- Contiguous ranges -----

    method FlushAll()
      requires Valid()
      modifies this
      ensures SameSizes(old(pool), pool)
      ensures Valid() && SameHeld(old(place), place)
      ensures forall c :: 0 <= c < |pool.caches| ==> pool.caches[c] == []
    {
      for cpu := 0 to |pool.caches|
        invariant Valid() && SameHeld(old(place), place) && SameSizes(old(pool), pool)
        invariant forall c :: 0 <= c < cpu ==> pool.caches[c] == []
      {
        FlushFrom(cpu, 0);
      }
    }

    /** The scan for the first run of `count` clear bits. */
    method Scan(count: nat) returns (first: nat, found: nat)
      requires count > 0 && |pool.owner| <= 8 * |pool.bitmap|
      ensures found <= count
      ensures found == count ==> first + count <= |pool.owner| && ClearRun(pool.bitmap, first, count)
      ensures found == count ==> forall w: nat :: w < first ==> !ClearRun(pool.bitmap, w, count)
      ensures found < count ==> forall w: nat :: w + count <= |pool.owner| ==> !ClearRun(pool.bitmap, w, count)
    {
      first, found := 0, 0;
      var i := 0;
      while i < |pool.owner| && found < count
        invariant i <= |pool.owner| && found <= count && found <= i
        invariant found > 0 ==> first == i - found
        invariant ClearRun(pool.bitmap, i - found, found)
        invariant found < i && found < count ==> Test(pool.bitmap, 8, i - found - 1)
        invariant forall w: nat :: w + count <= i && (w + count < i || found < count) ==>
          !ClearRun(pool.bitmap, w, count)
      {
        ghost var f := found;
        if !Test(pool.bitmap, 8, i) {
          if found == 0 { first := i; }
          found := found + 1;
        } else {
          found := 0;
        }
        i := i + 1;
        if found < count && i >= count {
          assert Test(pool.bitmap, 8, i - found - 1);
          assert !ClearRun(pool.bitmap, i - count, count);
        }
      }
    }

    /** remove_from_node_lists, one list. */
    method RemoveFromList(n: nat, first: nat, count: nat)
      requires n < |pool.lists| && Counted(pool)
      modifies this`pool
      ensures Counted(pool)
      ensures pool == old(pool).(lists := pool.lists, counts := pool.counts, free := pool.free)
      ensures pool.lists == old(pool).lists[n := Filter(old(pool).lists[n], first, first + count)]
    {
      var l, dropped := DropRange(pool.lists[n], first, first + count);
      SumUpdate(pool.counts, n, |l|);
      pool := pool.(lists := pool.lists[n := l], counts := pool.counts[n := pool.counts[n] - dropped],
        free := pool.free - dropped);
    }

    /** Set the bits and the owner of a range of unowned pages. */
    method MarkRange(first: nat, count: nat, thread: nat)
      requires first + count <= |pool.owner| <= 8 * |pool.bitmap| && thread != CACHE
      requires forall p: nat :: first <= p < first + count ==> pool.owner[p] == UNSET
      modifies this`pool, this`halted
      ensures halted == old(halted) && pool == old(pool).(bitmap := pool.bitmap, owner := pool.owner)
      ensures |pool.bitmap| == |old(pool).bitmap| && |pool.owner| == |old(pool).owner|
      ensures forall p: nat :: Test(pool.bitmap, 8, p) == (first <= p < first + count || Test(old(pool).bitmap, 8, p))
      ensures forall p: nat :: p < |pool.owner| ==>
        pool.owner[p] == if first <= p < first + count then thread else old(pool).owner[p]
    {
      ghost var was := pool;
      for j := 0 to count
        invariant pool == was.(bitmap := pool.bitmap, owner := pool.owner) && halted == old(halted)
        invariant |pool.bitmap| == |was.bitmap| && |pool.owner| == |was.owner|
        invariant forall p: nat :: Test(pool.bitmap, 8, p) == (first <= p < first + j || Test(was.bitmap, 8, p))
        invariant forall p: nat :: p < |was.owner| ==>
          pool.owner[p] == if first <= p < first + j then thread else was.owner[p]
      {
        ghost var bm := pool.bitmap;
        pool := pool.(bitmap := Mark(pool.bitmap, 8, first + j));
        OwnerSet(first + j, thread);
        forall p: nat
          ensures Test(pool.bitmap, 8, p) == (p == first + j || Test(bm, 8, p))
        {
          TestAfterMark(bm, 8, first + j, p);
        }
      }
    }

    /** remove_from_node_lists */
    method RemoveFromLists(first: nat, count: nat)
      requires Counted(pool)
      modifies this`pool
      ensures Counted(pool) && |pool.lists| == |old(pool).lists|
      ensures pool == old(pool).(lists := pool.lists, counts := pool.counts, free := pool.free)
      ensures forall n :: 0 <= n < |pool.lists| ==> pool.lists[n] == Filter(old(pool).lists[n], first, first + count)
    {
      for n := 0 to |pool.lists|
        invariant Counted(pool) && |pool.lists| == |old(pool).lists|
        invariant pool == old(pool).(lists := pool.lists, counts := pool.counts, free := pool.free)
        invariant forall m :: 0 <= m < n ==> pool.lists[m] == Filter(old(pool).lists[m], first, first + count)
        invariant forall m :: n <= m < |pool.lists| ==> pool.lists[m] == old(pool).lists[m]
      {
        RemoveFromList(n, first, count);
      }
    }

    /** Claim a scanned range for the thread: mark it and take it off every list. */
    method ClaimRange(first: nat, count: nat, thread: nat)
      requires Valid() && thread != CACHE && first + count <= |place|
      requires forall p: nat :: first <= p < first + count ==> place[p].Listed?
      modifies this
      ensures SameSizes(old(pool), pool)
      ensures Valid() && place == HoldRange(old(place), first, first + count)
      ensures |pool.owner| == |old(pool).owner| && first + count <= |pool.owner|
      ensures forall p: nat :: first <= p < first + count ==> pool.owner[p] == thread
    {
      ghost var was := pool;
      forall p: nat | first <= p < first + count ensures pool.owner[p] == UNSET {
        assert FlagsOk(Test(pool.bitmap, 8, p), pool.owner[p], place[p]);
      }
      MarkRange(first, count, thread);
      RemoveFromLists(first, count);
      RangeInv(was, place, first, first + count, pool, thread);
      place := HoldRange(place, first, first + count);
    }

    /** pmm_alloc_pages: the first run of pages nobody held, or 0 exactly when there is no such run. */
    method AllocPages(count: nat, thread: nat) returns (first: nat)
      requires Valid() && thread != CACHE
      modifies this
      ensures SameSizes(old(pool), pool)
      ensures Valid()
      ensures first != 0 <==> count > 0 && exists w :: FreeRun(old(place), w, count)
      ensures first != 0 ==>
        FreeRun(old(place), first, count) && SameHeld(HoldRange(old(place), first, first + count), place)
      ensures first != 0 ==>
        && (forall w: nat :: w < first ==> !FreeRun(old(place), w, count)) && first + count <= |pool.owner|
        && (forall p: nat :: first <= p < first + count ==> pool.owner[p] == thread)
      ensures first == 0 ==> SameHeld(old(place), place)
    {
      if count == 0 { return 0; }
      FlushAll();
      var found;
      first, found := Scan(count);
      RunsAgree(old(place), pool, place);
      if found < count { return 0; }
      ghost var mid := place;
      assert ClearRun(pool.bitmap, first, count);
      assert FreeRun(old(place), first, count);
      ClaimRange(first, count, thread);
      assert mid[0] == Reserved;
    }
  }
}
