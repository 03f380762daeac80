/** The kernel heap over whole sequences of calls by its clients. */
module HeapRuns {
  import opened Seqs
  import opened SlabPool
  import opened Slab
  import opened AllocatorRuns
  import opened KernelHeap
  import PagePool
  import Pmm

  /** A call. Give frees the k-th address, counted around, of those that this run has been granted and
      not yet given back. */
  datatype HeapOp =
    | Get(cpu: nat, size: nat, thread: nat)
    | Give(cpu: nat, k: nat)
    | FlushCpu(cpu: nat)
    | Tidy(cpu: nat)

  predicate OpOk(op: HeapOp, cpus: nat) {
    op.cpu < cpus && (op.Get? ==> op.thread != PagePool.CACHE)
  }

  /** Everything a call can change, and the addresses the run has with the items behind them. */
  datatype HeapState = HeapState(pages: seq<PagePool.Place>, h: Heap, place: Places, big: map<nat, nat>, mine: seq<nat>,
                                 items: seq<Item>)

  ghost predicate Mine(h: Heap, place: Places, big: map<nat, nat>, mine: seq<nat>, items: seq<Item>) {
    |mine| == |items| && NoDup(items) && forall i :: 0 <= i < |mine| ==> At(h, place, big, items[i], mine[i])
  }

  /** What a call must lead to. */
  ghost predicate Answers(s: HeapState, s': HeapState, op: HeapOp, e: Event<Item>) {
    match op
    case Get(cpu, size, _) =>
      && cpu < |s.h.mags| && |s.h.mags[cpu]| == CLASSES &&
          (e == Nothing <==> size == 0 || NoRoom(s.h, s.place, s.pages, cpu, size))
      && (if e == Nothing then s'.mine == s.mine && s'.items == s.items
          else exists ptr, item ::
            && e == Got({item}) && s'.mine == s.mine + [ptr] && s'.items == s.items + [item]
            && size <= Length(s'.h, item) && At(s'.h, s'.place, s'.big, item, ptr))
    case Give(_, k) =>
      if s.items == [] then e == Nothing && s'.mine == [] && s'.items == []
      else
        var i := k % |s.items|;
        && |s.mine| == |s.items| && e == (if Returns(s.items[i]) then Gave(s.items[i]) else Nothing)
        && s'.mine == RemoveAt(s.mine, i) && s'.items == RemoveAt(s.items, i)
    case FlushCpu(cpu) =>
      e == Nothing && s'.mine == s.mine && s'.items == s.items && cpu < |s'.h.mags| && NoMags(s'.h.mags[cpu])
    case Tidy(_) =>
      && e == Nothing && s'.mine == s.mine && s'.items == s.items
      && (forall pg :: pg in s'.h.pages <==> exists o :: o in HeldSet(s'.place) && o.0 == pg)
      && HeldPages(s'.pages) == HeldPages(s.pages) - (s.h.pages.Keys - s'.h.pages.Keys)
  }

  /** kfree takes the item back. */
  predicate Returns(item: Item) {
    item.Large? ==> item.pages <= MOST_PAGES
  }

  ghost predicate HeapStep(s: HeapState, s': HeapState, op: HeapOp, e: Event<Item>) {
    Answers(s, s', op, e) && Step(Items(s.place, s.big), Items(s'.place, s'.big), e)
  }

  // ----- The addresses the run has -----

  lemma MineKept(h: Heap, place: Places, big: map<nat, nat>, h': Heap, place': Places, big': map<nat, nat>,
                 mine: seq<nat>, items: seq<Item>)
    requires Mine(h, place, big, mine, items) && ClassesKept(h.pages, h'.pages) && Inv(h', place')
    requires forall i :: 0 <= i < |items| ==> items[i] in Items(place', big')
    ensures Mine(h', place', big', mine, items)
  {
    forall i | 0 <= i < |mine| ensures At(h', place', big', items[i], mine[i]) {
      AddressStays(h, place, big, h', place', big', items[i], mine[i]);
    }
  }

  lemma MineHeld(h: Heap, place: Places, big: map<nat, nat>, mine: seq<nat>, items: seq<Item>)
    requires Mine(h, place, big, mine, items)
    ensures forall i :: 0 <= i < |items| ==> items[i] in Items(place, big)
    ensures forall i :: 0 <= i < |mine| ==> mine[i] != 0
  {
    forall i | 0 <= i < |items| ensures items[i] in Items(place, big) && mine[i] != 0 {
      AtIsHeld(h, place, big, items[i], mine[i]);
    }
  }

  lemma MineGrows(h: Heap, place: Places, big: map<nat, nat>, mine: seq<nat>, items: seq<Item>, ptr: nat, item: Item)
    requires Mine(h, place, big, mine, items) && At(h, place, big, item, ptr) && item !in items
    ensures Mine(h, place, big, mine + [ptr], items + [item])
  {
  }

  lemma MineShrinks(h: Heap, place: Places, big: map<nat, nat>, h': Heap, place': Places, big': map<nat, nat>,
                    mine: seq<nat>, items: seq<Item>, i: nat)
    requires Mine(h, place, big, mine, items) && i < |items| && ClassesKept(h.pages, h'.pages) && Inv(h', place')
    requires Items(place, big) - {items[i]} <= Items(place', big')
    ensures Mine(h', place', big', RemoveAt(mine, i), RemoveAt(items, i))
  {
    var l, r := RemoveAt(mine, i), RemoveAt(items, i);
    MineHeld(h, place, big, mine, items);
    forall j | 0 <= j < |l| ensures At(h', place', big', r[j], l[j]) {
      var n := if j < i then j else j + 1;
      assert r[j] == items[n] && l[j] == mine[n] && items[n] != items[i];
      AddressStays(h, place, big, h', place', big', items[n], mine[n]);
    }
  }

  ghost function Snapshot(x: Memory, mine: seq<nat>, items: seq<Item>): HeapState
    reads x, x.m, x.km
  {
    HeapState(x.m.place, x.km.h, x.km.place, x.big, mine, items)
  }

  /** The run may go on. */
  ghost predicate Going(x: Memory, cpus: nat, mine: seq<nat>, items: seq<Item>)
    reads x, x.m, x.km
  {
    x.Valid() && |x.km.h.mags| == |x.m.pool.caches| == cpus && Mine(x.km.h, x.km.place, x.big, mine, items)
  }

  method GetItem(x: Memory, op: HeapOp, cpus: nat, mine: seq<nat>, ghost items: seq<Item>)
    returns (mine': seq<nat>, ghost items': seq<Item>, ghost e: Event<Item>)
    requires op.Get? && OpOk(op, cpus) && Going(x, cpus, mine, items)
    modifies x, x.m, x.km
    ensures Going(x, cpus, mine', items') && HeapStep(old(Snapshot(x, mine, items)), Snapshot(x, mine', items'), op, e)
  {
    MineHeld(x.km.h, x.km.place, x.big, mine, items);
    var ptr: nat;
    ghost var item;
    ptr, item := x.Malloc(op.cpu, op.size, op.thread);
    MineKept(old(x.km.h), old(x.km.place), old(x.big), x.km.h, x.km.place, x.big, mine, items);
    if ptr == 0 { return mine, items, Nothing; }
    MineGrows(x.km.h, x.km.place, x.big, mine, items, ptr, item);
    mine', items', e := mine + [ptr], items + [item], Got({item});
  }

  method GiveItem(x: Memory, op: HeapOp, cpus: nat, mine: seq<nat>, ghost items: seq<Item>)
    returns (mine': seq<nat>, ghost items': seq<Item>, ghost e: Event<Item>)
    requires op.Give? && OpOk(op, cpus) && Going(x, cpus, mine, items)
    modifies x, x.m, x.km
    ensures Going(x, cpus, mine', items') && HeapStep(old(Snapshot(x, mine, items)), Snapshot(x, mine', items'), op, e)
  {
    if mine == [] { return mine, items, Nothing; }
    MineHeld(x.km.h, x.km.place, x.big, mine, items);
    var i := op.k % |mine|;
    x.Free(op.cpu, mine[i], items[i]);
    MineShrinks(old(x.km.h), old(x.km.place), old(x.big), x.km.h, x.km.place, x.big, mine, items, i);
    mine', items' := RemoveAt(mine, i), RemoveAt(items, i);
    e := if Returns(items[i]) then Gave(items[i]) else Nothing;
  }

  method FlushOrTidy(x: Memory, op: HeapOp, cpus: nat, mine: seq<nat>, ghost items: seq<Item>)
    requires (op.FlushCpu? || op.Tidy?) && OpOk(op, cpus) && Going(x, cpus, mine, items)
    modifies x, x.m, x.km
    ensures Going(x, cpus, mine, items) &&
      HeapStep(old(Snapshot(x, mine, items)), Snapshot(x, mine, items), op, Nothing)
  {
    MineHeld(x.km.h, x.km.place, x.big, mine, items);
    if op.FlushCpu? {
      x.FlushMags(op.cpu);
    } else {
      var freed := x.Compact(op.cpu);
    }
    MineKept(old(x.km.h), old(x.km.place), old(x.big), x.km.h, x.km.place, x.big, mine, items);
  }

  method HeapRequest(x: Memory, op: HeapOp, cpus: nat, mine: seq<nat>, ghost items: seq<Item>)
    returns (mine': seq<nat>, ghost items': seq<Item>, ghost e: Event<Item>)
    requires OpOk(op, cpus) && Going(x, cpus, mine, items)
    modifies x, x.m, x.km
    ensures Going(x, cpus, mine', items') && HeapStep(old(Snapshot(x, mine, items)), Snapshot(x, mine', items'), op, e)
  {
    if op.Get? {
      mine', items', e := GetItem(x, op, cpus, mine, items);
    } else if op.Give? {
      mine', items', e := GiveItem(x, op, cpus, mine, items);
    } else {
      FlushOrTidy(x, op, cpus, mine, items);
      mine', items', e := mine, items, Nothing;
    }
  }

  // ----- Whole runs -----

  ghost function ItemsAlong(states: seq<HeapState>): (r: seq<set<Item>>)
    ensures |r| == |states| && forall i :: 0 <= i < |states| ==> r[i] == Items(states[i].place, states[i].big)
  {
    seq(|states|, i requires 0 <= i < |states| => Items(states[i].place, states[i].big))
  }

  /** Every sequence of calls on every CPU, of every size, keeps both allocators sound, does at each
      call exactly what it must, and follows its grants and returns: so nothing is granted twice
      unless it was given back in between. */
  method RunHeap(x: Memory, ops: seq<HeapOp>, cpus: nat)
    returns (mine: seq<nat>, ghost states: seq<HeapState>, ghost events: seq<Event<Item>>)
    requires x.Valid() && |x.km.h.mags| == |x.m.pool.caches| == cpus && forall i :: 0 <= i < |ops| ==>
      OpOk(ops[i], cpus)
    modifies x, x.m, x.km
    ensures x.Valid() && |states| == |ops| + 1 && |events| == |ops|
    ensures states[0] == old(Snapshot(x, [], [])) && states[|ops|] == Snapshot(x, mine, states[|ops|].items)
    ensures forall i :: 0 <= i < |ops| ==> HeapStep(states[i], states[i + 1], ops[i], events[i])
    ensures Run(ItemsAlong(states), events) && NeverTwice(events)
  {
    ghost var items := [];
    mine, states, events := [], [Snapshot(x, [], [])], [];
    for n := 0 to |ops|
      invariant Going(x, cpus, mine, items)
      invariant |states| == n + 1 && |events| == n && states[0] == old(Snapshot(x, [], [])) &&
        states[n] == Snapshot(x, mine, items)
      invariant forall i :: 0 <= i < n ==> HeapStep(states[i], states[i + 1], ops[i], events[i])
    {
      ghost var e;
      mine, items, e := HeapRequest(x, ops[n], cpus, mine, items);
      states, events := states + [Snapshot(x, mine, items)], events + [e];
    }
    HeapRunHolds(states, ops, events);
    NoItemTwice(ItemsAlong(states), events);
  }

  lemma HeapRunHolds(states: seq<HeapState>, ops: seq<HeapOp>, events: seq<Event<Item>>)
    requires |states| == |ops| + 1 && |events| == |ops|
    requires forall i :: 0 <= i < |ops| ==> HeapStep(states[i], states[i + 1], ops[i], events[i])
    ensures Run(ItemsAlong(states), events)
  {
    var held := ItemsAlong(states);
    forall i | 0 <= i < |events| ensures Step(held[i], held[i + 1], events[i]) {
      assert HeapStep(states[i], states[i + 1], ops[i], events[i]);
    }
  }

  /** Item x is among those granted by event i. */
  predicate Grants(events: seq<Event<Item>>, i: nat, x: Item) {
    i < |events| && events[i].Got? && x in events[i].items
  }

  ghost predicate GivenBetween(events: seq<Event<Item>>, i: nat, j: nat, x: Item) {
    exists k :: i < k < j && k < |events| && events[k] == Gave(x)
  }

  ghost predicate NeverTwice(events: seq<Event<Item>>) {
    forall i: nat, j: nat, x :: i < j && Grants(events, i, x) && Grants(events, j, x) ==> GivenBetween(events, i, j, x)
  }

  lemma NoItemTwice(held: seq<set<Item>>, events: seq<Event<Item>>)
    requires Run(held, events)
    ensures NeverTwice(events)
  {
    forall i: nat, j: nat, x | i < j && Grants(events, i, x) && Grants(events, j, x)
      ensures GivenBetween(events, i, j, x)
    {
      NoDoubleGrant(held, events, i, j, x);
    }
  }
}
