/** The page allocator over whole sequences of requests by their clients:
    what is handed out was in nobody's hands, what is given back leaves them, and nothing is handed
    out twice without having been given back in between. */
module AllocatorRuns {
  import opened Seqs
  import Pmm
  import PagePool

  /** What a request did to the set of things in clients' hands. */
  datatype Event<T(==)> = Got(items: set<T>) | Gave(item: T) | Nothing

  predicate Step<T>(held: set<T>, held': set<T>, e: Event<T>) {
    match e
    case Got(items) => items !! held && held' == held + items
    case Gave(item) => item in held && held' == held - {item}
    case Nothing => held' == held
  }

  ghost predicate Run<T>(held: seq<set<T>>, events: seq<Event<T>>) {
    |held| == |events| + 1 && forall i :: 0 <= i < |events| ==> Step(held[i], held[i + 1], events[i])
  }

  lemma {:induction false} StaysHeld<T>(held: seq<set<T>>, events: seq<Event<T>>, i: nat, j: nat, x: T)
    requires Run(held, events) && i <= j < |held| && x in held[i] && forall k :: i <= k < j ==> events[k] != Gave(x)
    ensures x in held[j]
    decreases j
  {
    if i < j {
      StaysHeld(held, events, i, j - 1, x);
      assert Step(held[j - 1], held[j - 1 + 1], events[j - 1]);
    }
  }

  /** Nothing is handed out twice unless it was given back in between. */
  lemma NoDoubleGrant<T>(held: seq<set<T>>, events: seq<Event<T>>, i: nat, j: nat, x: T)
    requires Run(held, events) && i < j < |events|
    requires events[i].Got? && events[j].Got? && x in events[i].items && x in events[j].items
    ensures exists k :: i < k < j && events[k] == Gave(x)
  {
    assert Step(held[i], held[i + 1], events[i]) && Step(held[j], held[j + 1], events[j]);
    if forall k :: i < k < j ==> events[k] != Gave(x) { StaysHeld(held, events, i + 1, j, x); }
  }

  // ----- Pages -----

  /** A request to the page allocator. Give returns the k-th page, counted around, of those that
      this run has been granted and not yet returned. */
  datatype PageOp =
    | Take(cpu: nat, thread: nat, numa: bool, here: int, nodes: nat, distance: seq<nat>, busy: seq<bool>)
    | TakeRun(count: nat, thread: nat)
    | Give(cpu: nat, k: nat)
    | Flush(cpu: nat)

  predicate PageOpOk(op: PageOp, caches: nat, lists: nat) {
    match op
    case Take(cpu, thread, numa, here, nodes, distance, busy) =>
      && cpu < caches && thread != PagePool.CACHE && nodes <= lists && nodes <= |distance|
      && |busy| == 2 * caches
    case TakeRun(_, thread) => thread != PagePool.CACHE
    case Give(cpu, _) => cpu < caches
    case Flush(_) => true
  }

  /** The allocator, where every page is, and the pages this run holds. */
  datatype PageState = PageState(pool: PagePool.Pool, place: seq<PagePool.Place>, mine: seq<nat>)

  function Pages(first: nat, count: nat): (r: seq<nat>)
    ensures |r| == count && forall i :: 0 <= i < count ==> r[i] == first + i
  {
    seq(count, i requires 0 <= i < count => first + i)
  }

  function Members(l: seq<nat>): set<nat> {
    set x | x in l
  }

  ghost function HeldPages(place: seq<PagePool.Place>): set<nat> {
    set p: nat | p < |place| && place[p] == PagePool.Held
  }

  /** What a request must lead to. One page is refused exactly if the CPU's own cache and every list
      is empty and there is nothing to steal, and a run of pages exactly if there is none; a page
      given back is the one named. */
  ghost predicate Answers(s: PageState, s': PageState, op: PageOp, e: Event<nat>) {
    match op
    case Take(cpu, _, _, _, _, _, busy) =>
      && (e == Nothing <==>
            && Pmm.NoneListed(s.pool.lists) && (cpu < |s.pool.caches| ==> s.pool.caches[cpu] == [])
            && Pmm.NothingToSteal(s.pool.caches, cpu, busy, |busy|))
      && if e == Nothing then s'.mine == s.mine
      else |s'.mine| == |s.mine| + 1 && s'.mine == s.mine + [s'.mine[|s.mine|]] && e == Got({s'.mine[|s.mine|]})
    case TakeRun(count, _) =>
      if count > 0 && exists w :: Pmm.FreeRun(s.place, w, count) then
        exists first :: s'.mine == s.mine + Pages(first, count) && e == Got(Members(Pages(first, count)))
      else e == Nothing && s'.mine == s.mine
    case Give(_, k) =>
      if s.mine == [] then e == Nothing && s'.mine == []
      else e == Gave(s.mine[k % |s.mine|]) && s'.mine == RemoveAt(s.mine, k % |s.mine|)
    case Flush(cpu) =>
      e == Nothing && s'.mine == s.mine && (cpu < |s'.pool.caches| ==> s'.pool.caches[cpu] == [])
  }

  ghost predicate PageStep(s: PageState, s': PageState, op: PageOp, e: Event<nat>) {
    Answers(s, s', op, e) && Step(HeldPages(s.place), HeldPages(s'.place), e)
  }

  /** The pages a run holds are in clients' hands, each once. */
  ghost predicate Mine(place: seq<PagePool.Place>, mine: seq<nat>) {
    NoDup(mine) && (forall i :: 0 <= i < |mine| ==> mine[i] > 0) && forall p :: p in mine ==> p in HeldPages(place)
  }

  lemma HeldSame(place: seq<PagePool.Place>, place': seq<PagePool.Place>)
    requires Pmm.SameHeld(place, place')
    ensures HeldPages(place') == HeldPages(place)
  {
  }

  lemma HeldGained(place: seq<PagePool.Place>, place': seq<PagePool.Place>, p: nat)
    requires Pmm.Granted(place, place', p)
    ensures p !in HeldPages(place) && HeldPages(place') == HeldPages(place) + {p}
  {
  }

  lemma HeldRun(place: seq<PagePool.Place>, place': seq<PagePool.Place>, first: nat, count: nat)
    requires Pmm.FreeRun(place, first, count) && Pmm.SameHeld(PagePool.HoldRange(place, first, first + count), place')
    ensures Members(Pages(first, count)) !! HeldPages(place)
    ensures HeldPages(place') == HeldPages(place) + Members(Pages(first, count))
  {
    forall p | p in Members(Pages(first, count)) ensures first <= p < first + count && p !in HeldPages(place) {
      assert Pmm.IsFree(place, p);
    }
    forall p: nat | first <= p < first + count ensures p in Members(Pages(first, count)) {
      assert Pages(first, count)[p - first] == p;
    }
  }

  lemma HeldLost(place: seq<PagePool.Place>, place': seq<PagePool.Place>, p: nat, cpu: nat)
    requires p < |place| && Pmm.SameHeld(place[p := PagePool.Cached(cpu)], place')
    ensures HeldPages(place') == HeldPages(place) - {p}
  {
  }

  lemma MineGrows(place: seq<PagePool.Place>, place': seq<PagePool.Place>, mine: seq<nat>, more: seq<nat>)
    requires Mine(place, mine) && NoDup(more) && (forall i :: 0 <= i < |more| ==> more[i] > 0)
    requires Members(more) !! HeldPages(place) && HeldPages(place') == HeldPages(place) + Members(more)
    ensures Mine(place', mine + more)
  {
    var l := mine + more;
    forall i, j | 0 <= i < j < |l| ensures l[i] != l[j] {
      if i < |mine| <= j { assert mine[i] in HeldPages(place) && more[j - |mine|] in Members(more); }
    }
  }

  lemma MineShrinks(place: seq<PagePool.Place>, place': seq<PagePool.Place>, mine: seq<nat>, i: nat)
    requires Mine(place, mine) && i < |mine| && HeldPages(place') == HeldPages(place) - {mine[i]}
    ensures Mine(place', RemoveAt(mine, i))
  {
    var l := RemoveAt(mine, i);
    forall p | p in l ensures p in HeldPages(place') { MembersAfterRemove(mine, i, p); }
  }

  ghost function Snapshot(m: Pmm.Pages, mine: seq<nat>): PageState
    reads m
  {
    PageState(m.pool, m.place, mine)
  }

  method TakePage(m: Pmm.Pages, op: PageOp, mine: seq<nat>) returns (mine': seq<nat>, ghost e: Event<nat>)
    requires m.Valid() && op.Take? && PageOpOk(op, |m.pool.caches|, |m.pool.lists|) && Mine(m.place, mine)
    modifies m
    ensures m.Valid() && Pmm.SameSizes(old(m.pool), m.pool) && Mine(m.place, mine')
    ensures PageStep(old(Snapshot(m, mine)), Snapshot(m, mine'), op, e)
  {
    var p, n, r, k := m.AllocPage(op.cpu, op.thread, op.numa, op.here, op.nodes, op.distance, op.busy);
    if p == 0 {
      HeldSame(old(m.place), m.place);
      return mine, Nothing;
    }
    HeldGained(old(m.place), m.place, p);
    assert Members([p]) == {p};
    MineGrows(old(m.place), m.place, mine, [p]);
    return mine + [p], Got({p});
  }

  method TakePages(m: Pmm.Pages, op: PageOp, mine: seq<nat>) returns (mine': seq<nat>, ghost e: Event<nat>)
    requires m.Valid() && op.TakeRun? && PageOpOk(op, |m.pool.caches|, |m.pool.lists|) && Mine(m.place, mine)
    modifies m
    ensures m.Valid() && Pmm.SameSizes(old(m.pool), m.pool) && Mine(m.place, mine')
    ensures PageStep(old(Snapshot(m, mine)), Snapshot(m, mine'), op, e)
  {
    var first := m.AllocPages(op.count, op.thread);
    if first == 0 {
      HeldSame(old(m.place), m.place);
      return mine, Nothing;
    }
    var run := Pages(first, op.count);
    HeldRun(old(m.place), m.place, first, op.count);
    MineGrows(old(m.place), m.place, mine, run);
    assert Pmm.FreeRun(old(m.place), first, op.count) && mine + run == mine + Pages(first, op.count);
    return mine + run, Got(Members(run));
  }

  lemma PageOfAddress(p: nat)
    ensures p * PagePool.PAGE_SIZE % PagePool.PAGE_SIZE == 0 && p * PagePool.PAGE_SIZE / PagePool.PAGE_SIZE == p
  {
  }

  method GivePage(m: Pmm.Pages, op: PageOp, mine: seq<nat>) returns (mine': seq<nat>, ghost e: Event<nat>)
    requires m.Valid() && op.Give? && PageOpOk(op, |m.pool.caches|, |m.pool.lists|) && Mine(m.place, mine)
    modifies m
    ensures m.Valid() && Pmm.SameSizes(old(m.pool), m.pool) && Mine(m.place, mine')
    ensures PageStep(old(Snapshot(m, mine)), Snapshot(m, mine'), op, e)
  {
    if mine == [] { return mine, Nothing; }
    var i := op.k % |mine|;
    var p := mine[i];
    assert p in HeldPages(m.place);
    PageOfAddress(p);
    m.FreePage(op.cpu, p * PagePool.PAGE_SIZE);
    HeldLost(old(m.place), m.place, p, op.cpu);
    MineShrinks(old(m.place), m.place, mine, i);
    return RemoveAt(mine, i), Gave(p);
  }

  method FlushPages(m: Pmm.Pages, op: PageOp, mine: seq<nat>) returns (ghost e: Event<nat>)
    requires m.Valid() && op.Flush? && Mine(m.place, mine)
    modifies m
    ensures m.Valid() && Pmm.SameSizes(old(m.pool), m.pool) && Mine(m.place, mine)
    ensures PageStep(old(Snapshot(m, mine)), Snapshot(m, mine), op, e)
  {
    m.FlushCpu(op.cpu);
    HeldSame(old(m.place), m.place);
    return Nothing;
  }

  method PageRequest(m: Pmm.Pages, op: PageOp, mine: seq<nat>) returns (mine': seq<nat>, ghost e: Event<nat>)
    requires m.Valid() && PageOpOk(op, |m.pool.caches|, |m.pool.lists|) && Mine(m.place, mine)
    modifies m
    ensures m.Valid() && Pmm.SameSizes(old(m.pool), m.pool) && Mine(m.place, mine')
    ensures PageStep(old(Snapshot(m, mine)), Snapshot(m, mine'), op, e)
  {
    match op
    case Take(_, _, _, _, _, _, _) => mine', e := TakePage(m, op, mine);
    case TakeRun(_, _) => mine', e := TakePages(m, op, mine);
    case Give(_, _) => mine', e := GivePage(m, op, mine);
    case Flush(_) => e := FlushPages(m, op, mine); mine' := mine;
  }

  /** The sets of pages in clients' hands along a run. */
  ghost function HeldAlong(states: seq<PageState>): (r: seq<set<nat>>)
    ensures |r| == |states| && forall i :: 0 <= i < |states| ==> r[i] == HeldPages(states[i].place)
  {
    seq(|states|, i requires 0 <= i < |states| => HeldPages(states[i].place))
  }

  /** Every sequence of requests, whatever pages they name, keeps the allocator sound and does at each
      request exactly what it must; the pages in clients' hands follow the grants and returns. */
  method RunPages(m: Pmm.Pages, ops: seq<PageOp>) returns (mine: seq<nat>, ghost states: seq<PageState>,
                                                           ghost events: seq<Event<nat>>)
    requires m.Valid() && forall i :: 0 <= i < |ops| ==> PageOpOk(ops[i], |m.pool.caches|, |m.pool.lists|)
    modifies m
    ensures m.Valid() && |states| == |ops| + 1 && |events| == |ops|
    ensures states[0] == old(Snapshot(m, [])) && states[|ops|] == Snapshot(m, mine)
    ensures forall i :: 0 <= i < |ops| ==> PageStep(states[i], states[i + 1], ops[i], events[i])
    ensures Run(HeldAlong(states), events)
  {
    mine, states, events := [], [Snapshot(m, [])], [];
    for n := 0 to |ops|
      invariant m.Valid() && Pmm.SameSizes(old(m.pool), m.pool) && Mine(m.place, mine)
      invariant |states| == n + 1 && |events| == n && states[0] == old(Snapshot(m, [])) &&
        states[n] == Snapshot(m, mine)
      invariant forall i :: 0 <= i < n ==> PageStep(states[i], states[i + 1], ops[i], events[i])
    {
      ghost var e;
      mine, e := PageRequest(m, ops[n], mine);
      states, events := states + [Snapshot(m, mine)], events + [e];
    }
    RunHolds(states, ops, events);
  }

  lemma RunHolds(states: seq<PageState>, ops: seq<PageOp>, events: seq<Event<nat>>)
    requires |states| == |ops| + 1 && |events| == |ops|
    requires forall i :: 0 <= i < |ops| ==> PageStep(states[i], states[i + 1], ops[i], events[i])
    ensures Run(HeldAlong(states), events)
  {
    var held := HeldAlong(states);
    forall i | 0 <= i < |events| ensures Step(held[i], held[i + 1], events[i]) {
      assert PageStep(states[i], states[i + 1], ops[i], events[i]);
    }
  }
}
