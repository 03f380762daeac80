/** The scheduler's run-queue operations, each a section under the queue lock: add, remove, find
    the highest level, take its head, and steal. The operations built from them are in Balance. */
module Scheduler {
  import opened Bits
  import opened Seqs
  import opened RunQueue

  /** The threads on some queue. */
  ghost function QueuedSet(pos: seq<int>): set<nat> {
    set t: nat | t < |pos| && pos[t] >= 0
  }

  ghost predicate Inv(threads: seq<Thread>, cpus: seq<Pcp>, lists: Lists, pos: seq<int>, c: int, hole: int) {
    && Links(threads, lists, pos) && Accounts(cpus, lists, c, hole)
    && forall t :: 0 <= t < |threads| ==> threads[t].priority < LEVELS
  }

  /** The CPUs after thread t has been taken out. */
  function UnlinkCpus(threads: seq<Thread>, cpus: seq<Pcp>, t: nat): (r: seq<Pcp>)
    requires t < |threads| && threads[t].cpuQueue < |cpus| && threads[t].priority < LEVELS
    requires var pcp := cpus[threads[t].cpuQueue];
      Shaped(pcp) && pcp.counts[threads[t].priority] > 0 && pcp.total > 0
    ensures |r| == |cpus|
  {
    var c := threads[t].cpuQueue;
    cpus[c := UnlinkPcp(cpus[c], threads[t].priority, threads[t].prev, threads[t].next)]
  }

  lemma InvAfterUnlink(threads: seq<Thread>, cpus: seq<Pcp>, lists: Lists, pos: seq<int>, t: nat)
    requires t < |threads| && Queued(threads, pos, t)
    requires Inv(threads, cpus, lists, pos, threads[t].cpuQueue, threads[t].priority)
    ensures threads[t].prev < |threads| && threads[t].next < |threads|
    ensures threads[t].cpuQueue < |cpus|
    ensures var pcp := cpus[threads[t].cpuQueue];
      Shaped(pcp) && pcp.counts[threads[t].priority] > 0 && pcp.total > 0
    ensures Inv(UnlinkThread(threads, t), UnlinkCpus(threads, cpus, t), UnlinkLists(threads, lists, pos, t),
      UnlinkPos(threads, pos, t), threads[t].cpuQueue, threads[t].priority)
  {
    NeighboursInRange(threads, lists, pos, t);
    UnlinkKeepsLinks(threads, lists, pos, t);
    var c, p := threads[t].cpuQueue, threads[t].priority;
    var l := lists[c][p];
    forall j | 0 <= j < |l| ensures l[j] != 0 { assert NodeOk(threads, lists, pos, c, p, j); }
    assert Counted(cpus[c], lists[c]);
    UnlinkKeepsCounts(cpus[c], lists[c], p, pos[t], threads[t].prev, threads[t].next);
    var lists' := UnlinkLists(threads, lists, pos, t);
    assert lists'[c] == lists[c][p := RemoveAt(l, pos[t])];
    UnlinkAccounts(cpus, lists, lists', c, p, UnlinkCpus(threads, cpus, t));
    var threads' := UnlinkThread(threads, t);
    forall u | 0 <= u < |threads| ensures threads'[u].priority == threads[u].priority {}
  }

  /** Only the counters of CPU c change. */
  lemma UnlinkAccounts(cpus: seq<Pcp>, lists: Lists, lists': Lists, c: nat, p: nat, cpus': seq<Pcp>)
    requires Accounts(cpus, lists, c, p) && c < |cpus| == |cpus'| && |lists'| == |lists|
    requires Counted(cpus'[c], lists'[c]) && Indexed(cpus'[c], lists'[c], p)
    requires forall d :: 0 <= d < |cpus| && d != c ==> cpus'[d] == cpus[d] && lists'[d] == lists[d]
    ensures Accounts(cpus', lists', c, p)
  {
    forall d | 0 <= d < |cpus'|
      ensures Counted(cpus'[d], lists'[d]) && Indexed(cpus'[d], lists'[d], if d == c then p else -1)
    {
      if d != c { assert Counted(cpus[d], lists[d]) && Indexed(cpus[d], lists[d], -1); }
    }
  }

  lemma InvAfterAppend(threads: seq<Thread>, cpus: seq<Pcp>, lists: Lists, pos: seq<int>, t: nat, c: nat, c0: int,
                       hole: int)
    requires Inv(threads, cpus, lists, pos, c0, hole) && Appendable(threads, lists, pos, t, c)
    ensures Shaped(cpus[c]) && cpus[c].tails[threads[t].priority] == Last(lists[c][threads[t].priority]) < |threads|
    ensures var p := threads[t].priority;
      Inv(AppendThread(threads, t, cpus[c].tails[p], c), cpus[c := AppendPcp(cpus[c], p, t)],
        AppendLists(threads, lists, t, c), pos[t := |lists[c][p]|], c0, hole)
  {
    AppendKeepsLinks(threads, lists, pos, t, c);
    var p := threads[t].priority;
    var l := lists[c][p];
    assert LevelOk(cpus[c], lists[c], p);
    forall j | 0 <= j < |l| ensures l[j] != 0 { assert NodeOk(threads, lists, pos, c, p, j); }
    AppendKeepsCounts(cpus[c], lists[c], p, t, if c == c0 then hole else -1);
    var lists' := AppendLists(threads, lists, t, c);
    assert lists'[c] == lists[c][p := l + [t]];
    forall d | 0 <= d < |cpus| && d != c ensures lists'[d] == lists[d] {}
  }

  /** Clearing the index bit of an emptied level, or keeping that of a level still in use. */
  lemma InvAfterClear(threads: seq<Thread>, cpus: seq<Pcp>, lists: Lists, pos: seq<int>, c: nat, p: nat)
    requires Inv(threads, cpus, lists, pos, c, p) && c < |cpus| && p < LEVELS
    ensures Shaped(cpus[c]) && |lists[c]| == LEVELS && LevelOk(cpus[c], lists[c], p)
    ensures lists[c][p] == [] ==>
      Inv(threads, cpus[c := cpus[c].(bitmap := Unmark(cpus[c].bitmap, 64, p))], lists, pos, -1, -1)
    ensures lists[c][p] != [] && Test(cpus[c].bitmap, 64, p) ==> Inv(threads, cpus, lists, pos, -1, -1)
  {
    assert Counted(cpus[c], lists[c]);
    ClearKeepsCounts(cpus[c], lists[c], p);
  }

  /** Threads whose links alone may differ. */
  ghost predicate SameButLinks(threads: seq<Thread>, threads': seq<Thread>) {
    && |threads'| == |threads|
    && forall u :: 0 <= u < |threads| ==>
         threads'[u] == threads[u].(next := threads'[u].next, prev := threads'[u].prev)
  }

  /** Thread t has left its queue, and nothing else has happened to any queue. */
  ghost predicate Left(threads: seq<Thread>, lists: Lists, pos: seq<int>, threads': seq<Thread>, lists': Lists,
                       pos': seq<int>, t: nat)
    requires Links(threads, lists, pos) && Queued(threads, pos, t)
  {
    && lists' == UnlinkLists(threads, lists, pos, t)
    && QueuedSet(pos') == QueuedSet(pos) - {t}
    && |pos'| == |pos| && SameButLinks(threads, threads')
  }

  /** Thread t has joined the end of a queue on CPU c, and nothing else has happened to any queue. */
  ghost predicate Joined(threads: seq<Thread>, lists: Lists, pos: seq<int>, threads': seq<Thread>, lists': Lists,
                         pos': seq<int>, t: nat, c: nat)
    requires ListsOk(lists) && t < |threads| && c < |lists| && threads[t].priority < LEVELS
  {
    && lists' == AppendLists(threads, lists, t, c)
    && QueuedSet(pos') == QueuedSet(pos) + {t}
    && |pos'| == |pos| && SameButLinks(threads[t := threads[t].(cpuQueue := c, state := Ready)], threads')
  }

  lemma UnlinkedLeft(threads: seq<Thread>, lists: Lists, pos: seq<int>, t: nat)
    requires Links(threads, lists, pos) && Queued(threads, pos, t)
    requires threads[t].prev < |threads| && threads[t].next < |threads|
    ensures Left(threads, lists, pos, UnlinkThread(threads, t), UnlinkLists(threads, lists, pos, t),
      UnlinkPos(threads, pos, t), t)
  {
    var pos' := UnlinkPos(threads, pos, t);
    forall u: nat ensures u in QueuedSet(pos') <==> u in QueuedSet(pos) && u != t {
    }
  }

  lemma AppendedJoins(threads: seq<Thread>, cpus: seq<Pcp>, lists: Lists, pos: seq<int>, t: nat, c: nat, tail: nat,
                      p: nat)
    requires Appendable(threads, lists, pos, t, c) && ListsOk(lists) && tail < |threads| && p == threads[t].priority
    requires c < |cpus| && Shaped(cpus[c])
    ensures Joined(threads, lists, pos, AppendThread(threads, t, tail, c), AppendLists(threads, lists, t, c),
      pos[t := |lists[c][p]|], t, c)
    ensures Idles(cpus[c := AppendPcp(cpus[c], p, t)]) == Idles(cpus)
  {
  }

  ghost function Idles(cpus: seq<Pcp>): seq<nat> {
    seq(|cpus|, c requires 0 <= c < |cpus| => cpus[c].idle)
  }

  ghost predicate SameBitmaps(cpus: seq<Pcp>, cpus': seq<Pcp>) {
    && |cpus'| == |cpus|
    && forall c :: 0 <= c < |cpus| ==> cpus'[c].bitmap == cpus[c].bitmap && cpus'[c].idle == cpus[c].idle
  }

  /** Level p is the highest with a queued thread; -1 says there is none. */
  ghost predicate IsHighest(ls: seq<seq<nat>>, p: int)
    requires |ls| == LEVELS && -1 <= p < LEVELS
  {
    (p >= 0 ==> ls[p] != []) && forall q :: p < q < LEVELS ==> ls[q] == []
  }

  /** Thread t heads the highest queue of a CPU and is not its idle thread. */
  ghost predicate StolenFrom(ls: seq<seq<nat>>, idle: nat, t: nat) {
    |ls| == LEVELS && t != idle && exists p :: 0 <= p < LEVELS && IsHighest(ls, p) && ls[p][0] == t
  }

  function EmptyPcp(idle: nat): Pcp {
    var zeros := seq(LEVELS, p => 0);
    Pcp(zeros, zeros, zeros, [0, 0, 0, 0], 0, idle)
  }

  lemma EmptyPcpOk(idle: nat)
    ensures var ls: seq<seq<nat>> := seq(LEVELS, p => []);
      Counted(EmptyPcp(idle), ls) && Indexed(EmptyPcp(idle), ls, -1)
  {
    var ls: seq<seq<nat>> := seq(LEVELS, p => []);
    SumLenZeroIff(ls);
    forall p: nat | p < LEVELS ensures !Test([0, 0, 0, 0], 64, p) { ZeroHasNoBits(p % 64); }
  }

  /** CPU c has nothing that CPU `self` may steal: it is that CPU, its queues are empty, or the
      head of its highest queue is its idle thread or may not run there. */
  ghost predicate NoLoot(threads: seq<Thread>, lists: Lists, cpus: seq<Pcp>, c: nat, self: nat) {
    c < |lists| && c < |cpus| && |lists[c]| == LEVELS &&
    (c == self || forall p :: 0 <= p < LEVELS && IsHighest(lists[c], p) ==>
      var t := lists[c][p][0];
      t == cpus[c].idle || (t < |threads| && !Bit(threads[t].affinity, self)))
  }

  /** Thread t is what CPU `self` would steal from CPU c. */
  ghost predicate IsLoot(threads: seq<Thread>, lists: Lists, cpus: seq<Pcp>, c: nat, self: nat, t: nat) {
    && c < |lists| && c < |cpus| && c != self && StolenFrom(lists[c], cpus[c].idle, t)
    && t < |threads| && Bit(threads[t].affinity, self)
  }

  /** The CPU that the i-th attempt to steal goes for: round from the next one. */
  function Target(self: nat, i: nat, n: nat): nat
    requires n > 0
  {
    (self + 1 + i) % n
  }

  /** The CPUs before the i-th attempt are locked or have nothing. */
  ghost predicate NoneBefore(threads: seq<Thread>, lists: Lists, cpus: seq<Pcp>, self: nat, busy: seq<bool>, i: nat)
    requires |busy| == |cpus|
  {
    forall k {:trigger busy[k]} :: 0 <= k < i && k < |cpus| && !busy[k] ==>
      NoLoot(threads, lists, cpus, Target(self, k, |cpus|), self)
  }

  /** The i-th attempt is the first to find an unlocked CPU with something to steal, and that is t. */
  ghost predicate FirstLoot(threads: seq<Thread>, lists: Lists, cpus: seq<Pcp>, self: nat, busy: seq<bool>, i: nat,
                            t: nat)
    requires |busy| == |cpus|
  {
    && i + 1 < |cpus| && !busy[i] && IsLoot(threads, lists, cpus, Target(self, i, |cpus|), self, t)
    && NoneBefore(threads, lists, cpus, self, busy, i)
  }

  /** What a CPU gets when it steals: nothing if every other CPU is locked or has nothing for it. */
  ghost predicate Steals(threads: seq<Thread>, lists: Lists, cpus: seq<Pcp>, self: nat, busy: seq<bool>, t: nat)
    requires |busy| == |cpus| > 0
  {
    if t == 0 then NoneBefore(threads, lists, cpus, self, busy, |cpus| - 1)
    else exists i :: FirstLoot(threads, lists, cpus, self, busy, i, t)
  }

  lemma LootIsOne(threads: seq<Thread>, lists: Lists, cpus: seq<Pcp>, c: nat, self: nat, t: nat, u: nat)
    requires IsLoot(threads, lists, cpus, c, self, t)
    ensures !NoLoot(threads, lists, cpus, c, self) && (IsLoot(threads, lists, cpus, c, self, u) ==> u == t)
  {
    var p :| 0 <= p < LEVELS && IsHighest(lists[c], p) && lists[c][p][0] == t;
    forall q | 0 <= q < LEVELS && IsHighest(lists[c], q) ensures q == p {}
  }

  /** The queues and the locks determine what is stolen. */
  lemma StealsOne(threads: seq<Thread>, lists: Lists, cpus: seq<Pcp>, self: nat, busy: seq<bool>, t: nat, u: nat)
    requires |busy| == |cpus| > 0
    requires Steals(threads, lists, cpus, self, busy, t) && Steals(threads, lists, cpus, self, busy, u)
    ensures t == u
  {
    if t != 0 {
      var i :| FirstLoot(threads, lists, cpus, self, busy, i, t);
      LootIsOne(threads, lists, cpus, Target(self, i, |cpus|), self, t, u);
      if u != 0 {
        var j :| FirstLoot(threads, lists, cpus, self, busy, j, u);
        LootIsOne(threads, lists, cpus, Target(self, j, |cpus|), self, u, t);
      }
    }
  }

  lemma BitOfWord(bm: seq<nat>, i: nat, q: nat)
    requires i < |bm| && 64 * i <= q < 64 * i + 64
    ensures Test(bm, 64, q) == Bit(bm[i], q - 64 * i)
  {
    assert q / 64 == i && q % 64 == q - 64 * i;
  }

  /** The highest set bit of a bitmap word is the highest non-empty level of those it covers. */
  lemma HighestOfWord(pcp: Pcp, ls: seq<seq<nat>>, i: nat)
    requires Shaped(pcp) && |ls| == LEVELS && Indexed(pcp, ls, -1) && i < 4 && 0 < pcp.bitmap[i] &&
      Highest(pcp.bitmap[i]) < 64
    ensures ls[64 * i + Highest(pcp.bitmap[i])] != []
    ensures forall q :: 64 * i + Highest(pcp.bitmap[i]) < q < 64 * i + 64 ==> ls[q] == []
  {
    var w := pcp.bitmap[i];
    var top := 64 * i + Highest(w);
    HighestIsHighest(w, 0);
    BitOfWord(pcp.bitmap, i, top);
    forall q | top < q < 64 * i + 64 ensures ls[q] == [] {
      HighestIsHighest(w, q - 64 * i);
      BitOfWord(pcp.bitmap, i, q);
    }
  }

  lemma EmptyWord(pcp: Pcp, ls: seq<seq<nat>>, i: nat)
    requires Shaped(pcp) && |ls| == LEVELS && Indexed(pcp, ls, -1) && i < 4 && pcp.bitmap[i] == 0
    ensures forall q :: 64 * i <= q < 64 * i + 64 ==> ls[q] == []
  {
    forall q | 64 * i <= q < 64 * i + 64 ensures ls[q] == [] {
      ZeroHasNoBits(q - 64 * i);
      BitOfWord(pcp.bitmap, i, q);
    }
  }

  class RunQueues {
    var threads: seq<Thread>
    var cpus: seq<Pcp>
    ghost var lists: Lists
    ghost var pos: seq<int>

    ghost predicate Valid()
      reads this
    {
      Inv(threads, cpus, lists, pos, -1, -1)
    }

    /** Zeroed per-CPU data and threads that are on no queue. */
    constructor (threads: seq<Thread>, idles: seq<nat>)
      requires |threads| > 0
      requires forall t :: 0 <= t < |threads| ==>
        threads[t].next == 0 && threads[t].prev == 0 && threads[t].priority < LEVELS
      ensures Valid() && QueuedSet(pos) == {} && this.threads == threads && Idles(cpus) == idles
    {
      this.threads := threads;
      cpus := seq(|idles|, c requires 0 <= c < |idles| => EmptyPcp(idles[c]));
      lists := seq(|idles|, c => seq(LEVELS, p => []));
      pos := seq(|threads|, t => -1);
      new;
      forall c | 0 <= c < |cpus| ensures Counted(cpus[c], lists[c]) && Indexed(cpus[c], lists[c], -1) {
        EmptyPcpOk(idles[c]);
        assert lists[c] == seq(LEVELS, p => []);
      }
    }

    /** The pointer surgery that takes a thread out of its list, and the counters. The bitmap
        is left to the caller. */
    method Detach(t: nat)
      requires t < |threads| && threads[t].prev < |threads| && threads[t].next < |threads|
      requires threads[t].cpuQueue < |cpus| && threads[t].priority < LEVELS
      requires var pcp := cpus[threads[t].cpuQueue];
        Shaped(pcp) && pcp.counts[threads[t].priority] > 0 && pcp.total > 0
      modifies this`threads, this`cpus
      ensures threads == UnlinkThread(old(threads), t)
      ensures cpus == UnlinkCpus(old(threads), old(cpus), t)
    {
      var c, p := threads[t].cpuQueue, threads[t].priority;
      var prev, next := threads[t].prev, threads[t].next;
      if prev != 0 {
        threads := threads[prev := threads[prev].(next := next)];
      } else {
        cpus := cpus[c := cpus[c].(heads := cpus[c].heads[p := next])];
      }
      if next != 0 {
        threads := threads[next := threads[next].(prev := prev)];
      } else {
        cpus := cpus[c := cpus[c].(tails := cpus[c].tails[p := prev])];
      }
      cpus := cpus[c := cpus[c].(counts := cpus[c].counts[p := cpus[c].counts[p] - 1], total := cpus[c].total - 1)];
      threads := threads[t := threads[t].(next := 0, prev := 0)];
    }

    method Unlink(t: nat)
      requires t < |threads| && Queued(threads, pos, t)
      requires Inv(threads, cpus, lists, pos, threads[t].cpuQueue, threads[t].priority)
      modifies this
      ensures Left(old(threads), old(lists), old(pos), threads, lists, pos, t)
      ensures Inv(threads, cpus, lists, pos, old(threads[t].cpuQueue), old(threads[t].priority))
      ensures SameBitmaps(old(cpus), cpus)
    {
      InvAfterUnlink(threads, cpus, lists, pos, t);
      UnlinkedLeft(threads, lists, pos, t);
      lists, pos := UnlinkLists(threads, lists, pos, t), UnlinkPos(threads, pos, t);
      Detach(t);
    }

    /** Clear the index bit of a level that has become empty. */
    method ClearIfEmpty(c: nat, p: nat)
      requires Inv(threads, cpus, lists, pos, c, p) && c < |cpus| && p < LEVELS
      requires lists[c][p] != [] ==> Test(cpus[c].bitmap, 64, p)
      modifies this`cpus
      ensures Valid() && Idles(cpus) == Idles(old(cpus))
    {
      InvAfterClear(threads, cpus, lists, pos, c, p);
      if cpus[c].counts[p] == 0 {
        cpus := cpus[c := cpus[c].(bitmap := Unmark(cpus[c].bitmap, 64, p))];
      }
    }

    /** Put a thread at the end of its priority's queue on CPU c. */
    method Append(t: nat, c: nat, ghost c0: int, ghost hole: int)
      requires Inv(threads, cpus, lists, pos, c0, hole) && Appendable(threads, lists, pos, t, c)
      modifies this
      ensures Inv(threads, cpus, lists, pos, c0, hole)
      ensures Joined(old(threads), old(lists), old(pos), threads, lists, pos, t, c)
      ensures Idles(cpus) == Idles(old(cpus))
    {
      InvAfterAppend(threads, cpus, lists, pos, t, c, c0, hole);
      var p := threads[t].priority;
      AppendedJoins(threads, cpus, lists, pos, t, c, cpus[c].tails[p], p);
      lists, pos := AppendLists(threads, lists, t, c), pos[t := |lists[c][p]|];
      Attach(t, c);
    }

    method Attach(t: nat, c: nat)
      requires t < |threads| && c < |cpus| && threads[t].priority < LEVELS
      requires Shaped(cpus[c]) && cpus[c].tails[threads[t].priority] < |threads|
      modifies this`threads, this`cpus
      ensures threads == AppendThread(old(threads), t, old(cpus[c].tails[threads[t].priority]), c)
      ensures cpus == old(cpus)[c := AppendPcp(old(cpus[c]), old(threads[t].priority), t)]
    {
      var p := threads[t].priority;
      var tail := cpus[c].tails[p];
      if tail != 0 {
        threads := threads[tail := threads[tail].(next := t)];
      } else {
        cpus := cpus[c := cpus[c].(heads := cpus[c].heads[p := t], bitmap := Mark(cpus[c].bitmap, 64, p))];
      }
      threads := threads[t := threads[t].(prev := tail, next := 0)];
      cpus := cpus[c := cpus[c].(tails := cpus[c].tails[p := t], counts := cpus[c].counts[p := cpus[c].counts[p] + 1],
        total := cpus[c].total + 1)];
      threads := threads[t := threads[t].(cpuQueue := c, state := Ready)];
    }

    /** sched_add_thread_to_cpu_locked */
    method Add(t: nat, c: nat)
      requires Valid() && t < |threads| && !Queued(threads, pos, t)
      modifies this
      ensures Valid() && Idles(cpus) == Idles(old(cpus))
      ensures 0 < t && c < |cpus| ==> Joined(old(threads), old(lists), old(pos), threads, lists, pos, t, c)
      ensures t == 0 || c >= |cpus| ==>
        threads == old(threads) && cpus == old(cpus) && lists == old(lists) && pos == old(pos)
    {
      if t == 0 || threads[t].priority > MAX_PRIO { return; }
      if c >= |cpus| { return; }
      Append(t, c, -1, -1);
    }

    /** sched_remove_thread_locked: takes out a queued thread and leaves any other alone. */
    method Remove(t: nat)
      requires Valid() && t < |threads|
      modifies this
      ensures Valid() && Idles(cpus) == Idles(old(cpus))
      ensures old(Queued(threads, pos, t)) ==> Left(old(threads), old(lists), old(pos), threads, lists, pos, t)
      ensures !old(Queued(threads, pos, t)) ==>
        threads == old(threads) && cpus == old(cpus) && lists == old(lists) && pos == old(pos)
    {
      NeighboursInRange(threads, lists, pos, t);
      if t == 0 { return; }
      var c := threads[t].cpuQueue;
      if c >= |cpus| { return; }
      var p := threads[t].priority;
      assert LevelOk(cpus[c], lists[c], p);
      var head := cpus[c].heads[p];
      assert PlaceOk(threads, lists, pos, t);
      if lists[c][p] != [] { assert NodeOk(threads, lists, pos, c, p, 0); }
      if threads[t].prev == 0 && threads[t].next == 0 && head != t {
        return;
      }
      Unlink(t);
      ClearIfEmpty(c, p);
    }

    /** bitmap_find_highest is a linear scan: the highest level whose queue is not empty. */
    method FindHighest(c: nat) returns (p: int)
      requires Valid() && c < |cpus|
      ensures -1 <= p < LEVELS && IsHighest(lists[c], p)
    {
      var i := 3;
      assert Counted(cpus[c], lists[c]) && Indexed(cpus[c], lists[c], -1);
      while i >= 0
        invariant -1 <= i <= 3
        invariant forall q :: 64 * (i + 1) <= q < LEVELS ==> lists[c][q] == []
      {
        var w := cpus[c].bitmap[i];
        if w != 0 {
          HighestBound(w, 64);
          HighestOfWord(cpus[c], lists[c], i);
          return i * 64 + Highest(w);
        }
        EmptyWord(cpus[c], lists[c], i);
        i := i - 1;
      }
      return -1;
    }

    /** The dequeue of pick_next and sched_steal_thread: the head leaves its queue. */
    method TakeHead(c: nat, p: nat) returns (t: nat)
      requires Valid() && c < |cpus| && p < LEVELS && lists[c][p] != []
      modifies this
      ensures Valid() && Idles(cpus) == Idles(old(cpus))
      ensures t == old(lists[c][p][0]) && old(Queued(threads, pos, t))
      ensures Left(old(threads), old(lists), old(pos), threads, lists, pos, t)
    {
      assert LevelOk(cpus[c], lists[c], p);
      assert NodeOk(threads, lists, pos, c, p, 0);
      t := cpus[c].heads[p];
      InvAfterUnlink(threads, cpus, lists, pos, t);
      UnlinkedLeft(threads, lists, pos, t);
      lists, pos := UnlinkLists(threads, lists, pos, t), UnlinkPos(threads, pos, t);
      DetachHead(c, p);
      ClearIfEmpty(c, p);
    }

    method DetachHead(c: nat, p: nat)
      requires c < |cpus| && p < LEVELS && Shaped(cpus[c]) && cpus[c].heads[p] < |threads|
      requires cpus[c].counts[p] > 0 && cpus[c].total > 0
      requires var th := threads[cpus[c].heads[p]];
        th.next < |threads| && th.prev == 0 && th.cpuQueue == c && th.priority == p
      modifies this`threads, this`cpus
      ensures threads == UnlinkThread(old(threads), old(cpus[c].heads[p]))
      ensures cpus == UnlinkCpus(old(threads), old(cpus), old(cpus[c].heads[p]))
    {
      var t := cpus[c].heads[p];
      var next := threads[t].next;
      if next != 0 {
        cpus := cpus[c := cpus[c].(heads := cpus[c].heads[p := next])];
        threads := threads[next := threads[next].(prev := 0)];
      } else {
        cpus := cpus[c := cpus[c].(heads := cpus[c].heads[p := 0], tails := cpus[c].tails[p := 0])];
      }
      cpus := cpus[c := cpus[c].(counts := cpus[c].counts[p := cpus[c].counts[p] - 1], total := cpus[c].total - 1)];
      threads := threads[t := threads[t].(next := 0, prev := 0)];
    }

    /** Change fields of a thread other than its links; its place only if it has none. */
    method Edit(t: nat, th: Thread)
      requires Valid() && t < |threads| && th.next == threads[t].next && th.prev == threads[t].prev
      requires th.priority < LEVELS
      requires Queued(threads, pos, t) ==>
        th.priority == threads[t].priority && th.cpuQueue == threads[t].cpuQueue && th.state == threads[t].state
      modifies this`threads
      ensures Valid() && threads == old(threads)[t := th]
    {
      EditKeepsLinks(threads, lists, pos, t, th);
      threads := threads[t := th];
    }

    /** One locked section of sched_steal_thread. */
    method StealFrom(self: nat, target: nat) returns (t: nat)
      requires Valid() && self < |cpus| && target < |cpus| && target != self
      modifies this
      ensures Valid() && Idles(cpus) == Idles(old(cpus))
      ensures t == 0 ==> threads == old(threads) && cpus == old(cpus) && lists == old(lists) && pos == old(pos)
      ensures t == 0 ==> NoLoot(threads, lists, cpus, target, self)
      ensures t != 0 ==> StolenFrom(old(lists[target]), old(cpus[target].idle), t)
      ensures t != 0 ==> old(Queued(threads, pos, t)) && Bit(old(threads[t].affinity), self)
      ensures t != 0 ==> lists == UnlinkLists(old(threads), old(lists), old(pos), t) && lists[self] == old(lists[self])
      ensures t != 0 ==> QueuedSet(pos) == QueuedSet(old(pos)) - {t} && |threads| == |old(threads)|
      ensures t != 0 ==> SameButLinks(old(threads)[t := old(threads[t]).(cpuQueue := self)], threads)
    {
      var p := FindHighest(target);
      assert forall q :: 0 <= q < LEVELS && IsHighest(lists[target], q) ==> q == p;
      if p < 0 { return 0; }
      assert LevelOk(cpus[target], lists[target], p);
      assert NodeOk(threads, lists, pos, target, p, 0);
      t := cpus[target].heads[p];
      if t == 0 || t == cpus[target].idle { return 0; }
      if !Bit(threads[t].affinity, self) { return 0; }
      t := TakeFor(self, target, p);
    }

    /** The head of one queue leaves it, bound for this CPU. */
    method TakeFor(self: nat, target: nat, p: nat) returns (t: nat)
      requires Valid() && self < |cpus| && target < |cpus| && target != self && p < LEVELS && lists[target][p] != []
      modifies this
      ensures Valid() && Idles(cpus) == Idles(old(cpus))
      ensures t == old(lists[target][p][0]) && old(Queued(threads, pos, t)) && t < |old(threads)|
      ensures lists == UnlinkLists(old(threads), old(lists), old(pos), t) && |lists| == |old(lists)| &&
        lists[self] == old(lists[self])
      ensures QueuedSet(pos) == QueuedSet(old(pos)) - {t} && |threads| == |old(threads)|
      ensures SameButLinks(old(threads)[t := old(threads[t]).(cpuQueue := self)], threads)
    {
      assert NodeOk(threads, lists, pos, target, p, 0);
      t := TakeHead(target, p);
      Edit(t, threads[t].(cpuQueue := self));
    }

    /** sched_steal_thread: `busy[i]` says that the i-th attempt to take the queue lock fails.
        The stolen thread is the head of another CPU's highest queue, may run here, and has left
        every queue; nothing else has moved. */
    method Steal(self: nat, busy: seq<bool>) returns (t: nat, ghost from: nat)
      requires Valid() && self < |cpus| && |busy| == |cpus|
      modifies this
      ensures Valid() && Idles(cpus) == Idles(old(cpus))
      ensures t == 0 ==> threads == old(threads) && cpus == old(cpus) && lists == old(lists) && pos == old(pos)
      ensures Steals(old(threads), old(lists), old(cpus), self, busy, t)
      ensures t != 0 ==> IsLoot(old(threads), old(lists), old(cpus), from, self, t)
      ensures t != 0 ==> old(Queued(threads, pos, t)) && Bit(old(threads[t].affinity), self)
      ensures t != 0 ==> lists == UnlinkLists(old(threads), old(lists), old(pos), t) && lists[self] == old(lists[self])
      ensures t != 0 ==> QueuedSet(pos) == QueuedSet(old(pos)) - {t} && |threads| == |old(threads)|
      ensures t != 0 ==> SameButLinks(old(threads)[t := old(threads[t]).(cpuQueue := self)], threads)
    {
      from := 0;
      if |cpus| < 2 { return 0, from; }
      for i := 0 to |cpus| - 1
        invariant Valid()
        invariant threads == old(threads) && cpus == old(cpus) && lists == old(lists) && pos == old(pos)
        invariant NoneBefore(threads, lists, cpus, self, busy, i)
      {
        var target := Target(self, i, |cpus|);
        if target == self || busy[i] { continue; }
        t := StealFrom(self, target);
        if t != 0 {
          assert FirstLoot(old(threads), old(lists), old(cpus), self, busy, i, t);
          return t, target;
        }
      }
      return 0, from;
    }
  }
}
