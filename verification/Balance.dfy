/** Scheduler operations that move threads between queues: picking with stealing, load
    balancing, aging, priority changes and CPU migration. */
module Balance {
  import opened Bits
  import opened Seqs
  import opened RunQueue
  import opened Scheduler

  const STEAL_ABOVE := 150

  /** Weakening: an intact index is an index with a hole anywhere. */
  lemma AnyHole(rq: RunQueues, c: int, p: int)
    requires rq.Valid()
    ensures Inv(rq.threads, rq.cpus, rq.lists, rq.pos, c, p)
  {
  }

  /** The CPU a thread is placed on: the current one if it is allowed or none is, else the first
      allowed one. */
  ghost predicate Chosen(affinity: nat, n: nat, self: nat, c: nat) {
    && c < n
    && (Bit(affinity, self) ==> c == self)
    && (Bit(affinity, c) || (c == self && forall d :: 0 <= d < n ==> !Bit(affinity, d)))
    && (c != self ==> forall d :: 0 <= d < c ==> !Bit(affinity, d))
  }

  /** sched_add_thread: the first CPU the affinity mask allows, the current one if it does. */
  method AddThread(rq: RunQueues, self: nat, t: nat)
    requires rq.Valid() && t < |rq.threads| && !Queued(rq.threads, rq.pos, t) && self < |rq.cpus|
    modifies rq
    ensures rq.Valid() && Idles(rq.cpus) == Idles(old(rq.cpus))
    ensures t == 0 ==> rq.lists == old(rq.lists) && rq.pos == old(rq.pos) && rq.threads == old(rq.threads)
    ensures t > 0 ==>
      exists c :: (Chosen(old(rq.threads[t].affinity), |rq.cpus|, self, c) &&
        Joined(old(rq.threads), old(rq.lists), old(rq.pos), rq.threads, rq.lists, rq.pos, t, c))
  {
    if t == 0 { return; }
    var c := self;
    var mask := rq.threads[t].affinity;
    if mask == 0 {
      forall d | 0 <= d < |rq.cpus| ensures !Bit(mask, d) { ZeroHasNoBits(d); }
    }
    if mask != 0 && !Bit(mask, self) {
      var d := 0;
      while d < |rq.cpus| && !Bit(mask, d)
        invariant 0 <= d <= |rq.cpus|
        invariant forall e :: 0 <= e < d ==> !Bit(mask, e)
      {
        d := d + 1;
      }
      if d < |rq.cpus| { c := d; }
    }
    rq.Add(t, c);
  }

  /** All that the queues hold. */
  datatype Queues = Queues(threads: seq<Thread>, cpus: seq<Pcp>, lists: Lists, pos: seq<int>)

  ghost function Now(rq: RunQueues): Queues
    reads rq
  {
    Queues(rq.threads, rq.cpus, rq.lists, rq.pos)
  }

  ghost predicate StealsIn(v: Queues, self: nat, busy: seq<bool>, t: nat)
    requires |busy| == |v.cpus| > 0
  {
    Steals(v.threads, v.lists, v.cpus, self, busy, t)
  }

  /** Conservation: one queued thread, and only that one, has left the queues; or none has and
      the idle thread runs. */
  ghost predicate Picked(pos: seq<int>, pos': seq<int>, t: nat, idle: nat) {
    || (t == idle && QueuedSet(pos') == QueuedSet(pos))
    || (t in QueuedSet(pos) && QueuedSet(pos') == QueuedSet(pos) - {t})
  }

  /** The stolen thread, or the idle thread if there is none to steal. */
  ghost predicate StolenOrIdle(v: Queues, self: nat, busy: seq<bool>, t: nat)
    requires self < |v.cpus| == |busy|
  {
    exists s: nat :: StealsIn(v, self, busy, s) && t == if s != 0 then s else v.cpus[self].idle
  }

  method StealOrIdle(rq: RunQueues, self: nat, busy: seq<bool>) returns (t: nat)
    requires rq.Valid() && self < |rq.cpus| == |busy|
    modifies rq
    ensures rq.Valid() && Picked(old(rq.pos), rq.pos, t, old(rq.cpus[self].idle))
    ensures StolenOrIdle(old(Now(rq)), self, busy, t)
  {
    var s, from := rq.Steal(self, busy);
    assert old(rq.cpus[self].idle) == Idles(old(rq.cpus))[self] == rq.cpus[self].idle;
    assert StealsIn(old(Now(rq)), self, busy, s);
    return if s != 0 then s else rq.cpus[self].idle;
  }

  /** Every queue has only grown at its end. */
  ghost predicate Longer(ls: seq<seq<nat>>, ls': seq<seq<nat>>) {
    |ls'| == |ls| && forall p :: 0 <= p < |ls| ==> ls[p] <= ls'[p]
  }

  lemma AppendLonger(threads: seq<Thread>, lists: Lists, t: nat, c: nat, self: nat)
    requires ListsOk(lists) && t < |threads| && c < |lists| && threads[t].priority < LEVELS && self < |lists|
    ensures Longer(lists[self], AppendLists(threads, lists, t, c)[self])
  {
  }

  /** Thread s, stolen and not wanted, is at the end of its queue on this CPU; nothing else has moved. */
  ghost predicate PutHere(v: Queues, v': Queues, self: nat, s: nat) {
    && Links(v.threads, v.lists, v.pos) && Queued(v.threads, v.pos, s) && self < |v.lists| && self < |v'.lists|
    && s < |v.threads| && v.threads[s].priority < LEVELS
    && v'.lists == AppendLists(v.threads, UnlinkLists(v.threads, v.lists, v.pos, s), s, self)
    && Longer(v.lists[self], v'.lists[self])
    && QueuedSet(v'.pos) == QueuedSet(v.pos) && Idles(v'.cpus) == Idles(v.cpus)
    && SameButLinks(v.threads[s := v.threads[s].(cpuQueue := self, state := Ready)], v'.threads)
  }

  /** What a CPU whose best level is p does before it looks at its own queues: s is what it steals. It
      keeps s, returned as t, only if the number of s is below p. */
  ghost predicate Lured(v: Queues, v': Queues, self: nat, p: nat, busy: seq<bool>, s: nat, t: nat)
    requires self < |v.cpus| == |busy|
  {
    && StealsIn(v, self, busy, s)
    && (s == 0 ==> t == 0 && v' == v)
    && (s != 0 ==> s < |v.threads|)
    && (s != 0 && v.threads[s].priority < p ==> t == s && QueuedSet(v'.pos) == QueuedSet(v.pos) - {s})
    && (s != 0 && v.threads[s].priority >= p ==> t == 0 && PutHere(v, v', self, s))
  }

  /** Proactive stealing: a stolen thread that is not wanted goes to the end of its local queue. */
  method StealBelow(rq: RunQueues, self: nat, p: nat, busy: seq<bool>) returns (t: nat, ghost s: nat)
    requires rq.Valid() && self < |rq.cpus| == |busy|
    modifies rq
    ensures rq.Valid() && Idles(rq.cpus) == Idles(old(rq.cpus)) && |rq.cpus| == |old(rq.cpus)|
    ensures Lured(old(Now(rq)), Now(rq), self, p, busy, s, t)
    ensures t != 0 ==> t in QueuedSet(old(rq.pos))
  {
    ghost var v := Now(rq);
    var x, from := rq.Steal(self, busy);
    s := x;
    if x == 0 { return 0, 0; }
    if rq.threads[x].priority < p { return x, x; }
    assert x !in QueuedSet(rq.pos);
    ghost var w := Now(rq);
    PutBack(rq, self, x);
    StolenPutHere(v, w, Now(rq), self, x);
    return 0, x;
  }

  lemma StolenPutHere(v: Queues, w: Queues, v': Queues, self: nat, s: nat)
    requires Links(v.threads, v.lists, v.pos) && Queued(v.threads, v.pos, s) && self < |v.lists| && s < |v.threads|
    requires v.threads[s].priority < LEVELS && w.lists == UnlinkLists(v.threads, v.lists, v.pos, s)
    requires self < |w.lists| && w.lists[self] == v.lists[self] && ListsOk(w.lists)
    requires QueuedSet(w.pos) == QueuedSet(v.pos) - {s} && s in QueuedSet(v.pos)
    requires SameButLinks(v.threads[s := v.threads[s].(cpuQueue := self)], w.threads)
    requires Joined(w.threads, w.lists, w.pos, v'.threads, v'.lists, v'.pos, s, self) && Idles(v'.cpus) == Idles(v.cpus)
    ensures PutHere(v, v', self, s)
  {
    AppendLonger(w.threads, w.lists, s, self, self);
  }

  /** A thread just stolen joins a queue again: the local one, since it may run here. */
  method PutBack(rq: RunQueues, self: nat, t: nat)
    requires rq.Valid() && 0 < t < |rq.threads| && !Queued(rq.threads, rq.pos, t) && self < |rq.cpus|
    requires Bit(rq.threads[t].affinity, self)
    modifies rq
    ensures rq.Valid() && Idles(rq.cpus) == Idles(old(rq.cpus)) && |rq.cpus| == |old(rq.cpus)|
    ensures Joined(old(rq.threads), old(rq.lists), old(rq.pos), rq.threads, rq.lists, rq.pos, t, self)
  {
    AddThread(rq, self, t);
  }

  /** The answer of the section under the lock at level p, when the queues are v. */
  ghost predicate LocalAnswer(v: Queues, self: nat, p: nat, locked: bool, again: seq<bool>, t: nat)
    requires self < |v.cpus| == |again| && self < |v.lists| && |v.lists[self]| == LEVELS && p < LEVELS
  {
    if locked || v.lists[self][p] == [] || v.lists[self][p][0] == v.cpus[self].idle then StolenOrIdle(v, self, again, t)
    else t == v.lists[self][p][0]
  }

  ghost predicate AtLevel(v: Queues, self: nat, p: int, locked: bool, again: seq<bool>, t: nat) {
    && self < |v.cpus| == |again| && self < |v.lists| && |v.lists[self]| == LEVELS && 0 <= p < LEVELS
    && LocalAnswer(v, self, p, locked, again, t)
  }

  /** What pick_next answers from the queues v, with p its highest level in use, if any, and s the thread
      it steals first. The queues are `mid` when it comes to its own. */
  ghost predicate Answer(v: Queues, self: nat, p: int, locked: bool, busy: seq<bool>, again: seq<bool>,
                         s: nat, mid: Queues, t: nat)
    requires self < |v.cpus| == |busy|
  {
    if p < 0 then StolenOrIdle(v, self, busy, t)
    else if p <= STEAL_ABOVE || |v.cpus| == 1 then AtLevel(v, self, p, locked, again, t)
    else LuredAnswer(v, self, p, locked, busy, again, s, mid, t)
  }

  ghost predicate LuredAnswer(v: Queues, self: nat, p: nat, locked: bool, busy: seq<bool>, again: seq<bool>,
                              s: nat, mid: Queues, t: nat)
    requires self < |v.cpus| == |busy|
  {
    || (t != 0 && Lured(v, mid, self, p, busy, s, t))
    || (Lured(v, mid, self, p, busy, s, 0) && AtLevel(mid, self, p, locked, again, t))
  }

  /** pick_next. `busy`, `again` and `locked` say which attempts to take the queue lock fail. */
  method Pick(rq: RunQueues, self: nat, locked: bool, busy: seq<bool>, again: seq<bool>)
    returns (t: nat, ghost p: int, ghost s: nat, ghost mid: Queues)
    requires rq.Valid() && self < |rq.cpus| == |busy| == |again|
    modifies rq
    ensures rq.Valid() && Picked(old(rq.pos), rq.pos, t, old(rq.cpus[self].idle))
    ensures -1 <= p < LEVELS && IsHighest(old(rq.lists[self]), p)
    ensures Answer(old(Now(rq)), self, p, locked, busy, again, s, mid, t)
  {
    var level := rq.FindHighest(self);
    p, s, mid := level, 0, Now(rq);
    if level < 0 {
      t := StealOrIdle(rq, self, busy);
    } else if level > STEAL_ABOVE && |rq.cpus| > 1 {
      t, s, mid := PickLured(rq, self, level, locked, busy, again);
    } else {
      t := PickLocal(rq, self, level, locked, again);
    }
  }

  method PickLured(rq: RunQueues, self: nat, p: nat, locked: bool, busy: seq<bool>, again: seq<bool>)
    returns (t: nat, ghost s: nat, ghost mid: Queues)
    requires rq.Valid() && self < |rq.cpus| == |busy| == |again| && p < LEVELS
    modifies rq
    ensures rq.Valid() && Picked(old(rq.pos), rq.pos, t, old(rq.cpus[self].idle))
    ensures LuredAnswer(old(Now(rq)), self, p, locked, busy, again, s, mid, t)
  {
    t, s := StealBelow(rq, self, p, busy);
    mid := Now(rq);
    if t != 0 { return; }
    assert mid.cpus[self].idle == Idles(mid.cpus)[self] == Idles(old(rq.cpus))[self];
    t := PickLocal(rq, self, p, locked, again);
  }

  /** With the lock free and a thread here that is not the idle one, the answer is the head of the
      highest local queue, or above level 150 the thread stolen first, of a lower number. */
  lemma HeadOrStolen(v: Queues, self: nat, p: int, busy: seq<bool>, again: seq<bool>, s: nat, mid: Queues, t: nat)
    requires self < |v.cpus| == |v.lists| == |busy| && |v.lists[self]| == LEVELS && 0 <= p < LEVELS
    requires Answer(v, self, p, false, busy, again, s, mid, t) && v.lists[self][p] != []
    requires v.lists[self][p][0] != v.cpus[self].idle
    ensures t == v.lists[self][p][0] || (p > STEAL_ABOVE && t == s && s < |v.threads| && v.threads[s].priority < p)
  {
    if p > STEAL_ABOVE && |v.cpus| > 1 && s != 0 && s < |v.threads| && v.threads[s].priority >= p {
      assert Idles(v.cpus)[self] == v.cpus[self].idle;
      assert |Idles(mid.cpus)| == |mid.cpus| && (self < |mid.cpus| ==> Idles(mid.cpus)[self] == mid.cpus[self].idle);
    }
  }

  /** The section of pick_next under the queue lock, at the level found before it was taken. */
  method PickLocal(rq: RunQueues, self: nat, p: nat, locked: bool, again: seq<bool>) returns (t: nat)
    requires rq.Valid() && self < |rq.cpus| == |again| && p < LEVELS
    modifies rq
    ensures rq.Valid() && Picked(old(rq.pos), rq.pos, t, old(rq.cpus[self].idle))
    ensures LocalAnswer(old(Now(rq)), self, p, locked, again, t)
  {
    assert LevelOk(rq.cpus[self], rq.lists[self], p);
    if rq.lists[self][p] != [] { assert NodeOk(rq.threads, rq.lists, rq.pos, self, p, 0); }
    if locked || rq.cpus[self].heads[p] == 0 || rq.cpus[self].heads[p] == rq.cpus[self].idle {
      t := StealOrIdle(rq, self, again);
      return;
    }
    t := rq.TakeHead(self, p);
  }

  // ----- Load balancing -----

  /** The sum over all CPUs of the squared number of queued threads. */
  ghost function Imbalance(lists: Lists): nat {
    if lists == [] then 0 else Imbalance(lists[..|lists| - 1]) + Square(SumLen(lists[|lists| - 1]))
  }

  /** The square as a sum of odd numbers. */
  function Square(n: nat): nat {
    if n == 0 then 0 else Square(n - 1) + 2 * n - 1
  }

  lemma {:induction false} SquareIsProduct(n: nat)
    ensures Square(n) == n * n
  {
    if n > 0 {
      SquareIsProduct(n - 1);
      assert (n - 1) * (n - 1) == n * n - 2 * n + 1;
    }
  }

  /** With q[c] threads queued on CPU c, the imbalance is the sum of q[c] * q[c]. */
  function SumOfSquares(q: seq<nat>): nat {
    if q == [] then 0 else SumOfSquares(q[..|q| - 1]) + q[|q| - 1] * q[|q| - 1]
  }

  lemma {:induction false} ImbalanceIsSquares(lists: Lists, q: seq<nat>)
    requires |q| == |lists| && forall c :: 0 <= c < |lists| ==> q[c] == SumLen(lists[c])
    ensures Imbalance(lists) == SumOfSquares(q)
    decreases |q|
  {
    if lists != [] {
      var n := |lists| - 1;
      ImbalanceIsSquares(lists[..n], q[..n]);
      SquareIsProduct(q[n]);
    }
  }

  lemma {:induction false} ImbalanceUpdate(lists: Lists, c: nat, ls: seq<seq<nat>>)
    requires c < |lists|
    ensures Imbalance(lists[c := ls]) ==
      Imbalance(lists) - Square(SumLen(lists[c])) + Square(SumLen(ls))
    decreases |lists|
  {
    var n := |lists| - 1;
    if c == n {
      assert lists[c := ls][..n] == lists[..n];
    } else {
      assert lists[c := ls][..n] == lists[..n][c := ls];
      ImbalanceUpdate(lists[..n], c, ls);
    }
  }

  /** The lists after entry i of level p on CPU c has moved to the end of level p on CPU d. */
  ghost function MoveLists(lists: Lists, c: nat, d: nat, p: nat, i: nat): (r: Lists)
    requires ListsOk(lists) && c < |lists| && d < |lists| && p < LEVELS && i < |lists[c][p]|
    ensures ListsOk(r) && |r| == |lists|
  {
    var a := SetList(lists, c, p, RemoveAt(lists[c][p], i));
    SetList(a, d, p, a[d][p] + [lists[c][p][i]])
  }

  /** Moving one thread to a CPU at least three threads shorter lowers the imbalance. */
  lemma {:induction false} MoveLowersImbalance(lists: Lists, c: nat, d: nat, p: nat, i: nat)
    requires ListsOk(lists) && c < |lists| && d < |lists| && c != d && p < LEVELS && i < |lists[c][p]|
    requires SumLen(lists[d]) + 2 < SumLen(lists[c])
    ensures Imbalance(MoveLists(lists, c, d, p, i)) < Imbalance(lists)
  {
    MoveSums(lists, c, d, p, i);
    ImbalanceDrop(lists, MoveLists(lists, c, d, p, i), c, d);
  }

  lemma {:induction false} ImbalanceDrop(lists: Lists, r: Lists, c: nat, d: nat)
    requires c < |lists| == |r| && d < |lists| && c != d && r == lists[c := r[c]][d := r[d]]
    requires SumLen(r[c]) == SumLen(lists[c]) - 1 && SumLen(r[d]) == SumLen(lists[d]) + 1
    requires SumLen(lists[d]) + 2 < SumLen(lists[c])
    ensures Imbalance(r) < Imbalance(lists)
  {
    ImbalanceUpdateTwo(lists, c, r[c], d, r[d]);
    SquaresShrink(SumLen(lists[c]), SumLen(lists[d]), SumLen(r[c]), SumLen(r[d]));
  }

  lemma MoveSums(lists: Lists, c: nat, d: nat, p: nat, i: nat)
    requires ListsOk(lists) && c < |lists| && d < |lists| && c != d && p < LEVELS && i < |lists[c][p]|
    ensures var r := MoveLists(lists, c, d, p, i);
      && r == lists[c := r[c]][d := r[d]]
      && SumLen(r[c]) == SumLen(lists[c]) - 1 && SumLen(r[d]) == SumLen(lists[d]) + 1
  {
    var r, t := MoveLists(lists, c, d, p, i), lists[c][p][i];
    var a, b := lists[c][p := RemoveAt(lists[c][p], i)], lists[d][p := lists[d][p] + [t]];
    SumLenUpdate(lists[c], p, RemoveAt(lists[c][p], i));
    SumLenUpdate(lists[d], p, lists[d][p] + [t]);
    assert r[c] == a && r[d] == b;
  }

  lemma {:induction false} ImbalanceUpdateTwo(lists: Lists, c: nat, a: seq<seq<nat>>, d: nat, b: seq<seq<nat>>)
    requires c < |lists| && d < |lists| && c != d
    ensures Imbalance(lists[c := a][d := b]) ==
      Imbalance(lists) - Square(SumLen(lists[c])) + Square(SumLen(a)) - Square(SumLen(lists[d])) + Square(SumLen(b))
  {
    ImbalanceUpdate(lists, c, a);
    ImbalanceUpdate(lists[c := a], d, b);
  }

  lemma {:induction false} SquaresShrink(x: nat, y: nat, x': nat, y': nat)
    requires y + 2 < x && x' == x - 1 && y' == y + 1
    ensures Square(x') + Square(y') < Square(x) + Square(y)
  {
  }

  /** One push that moved a thread. */
  ghost predicate PushMove(lists: Lists, lists': Lists) {
    && ListsOk(lists)
    && exists c, d, p, i ::
         && 0 <= c < |lists| && 0 <= d < |lists| && c != d && 0 <= p < LEVELS && 0 <= i < |lists[c][p]|
         && SumLen(lists[d]) + 2 < SumLen(lists[c]) && lists' == MoveLists(lists, c, d, p, i)
  }

  /** With no arrivals, pushes stop: no run of pushes is longer than the initial imbalance. */
  lemma {:induction false} PushesStop(run: seq<Lists>)
    requires |run| > 0 && forall k :: 0 <= k < |run| - 1 ==> PushMove(run[k], run[k + 1])
    ensures |run| - 1 + Imbalance(run[|run| - 1]) <= Imbalance(run[0])
    decreases |run|
  {
    if |run| > 1 {
      var lists := run[0];
      assert PushMove(run[0], run[0 + 1]);
      var c, d, p, i :| 0 <= c < |lists| && 0 <= d < |lists| && c != d && 0 <= p < LEVELS && 0 <= i < |lists[c][p]|
        && SumLen(lists[d]) + 2 < SumLen(lists[c]) && run[1] == MoveLists(lists, c, d, p, i);
      MoveLowersImbalance(lists, c, d, p, i);
      forall k | 0 <= k < |run| - 2 ensures PushMove(run[1..][k], run[1..][k + 1]) {
        assert PushMove(run[k + 1], run[k + 1 + 1]);
      }
      PushesStop(run[1..]);
    }
  }

  /** The least loaded CPU, other than this one, that thread t may run on. */
  method BestTarget(rq: RunQueues, self: nat, t: nat) returns (best: int, load: nat)
    requires t < |rq.threads|
    ensures best < 0 ==> load == 0xFFFF_FFFF
    ensures best >= 0 ==>
      best < |rq.cpus| && best != self && Bit(rq.threads[t].affinity, best) && load == rq.cpus[best].total < 0xFFFF_FFFF
    ensures forall i :: 0 <= i < |rq.cpus| && i != self && Bit(rq.threads[t].affinity, i) ==> load <= rq.cpus[i].total
  {
    best, load := -1, 0xFFFF_FFFF;
    for i := 0 to |rq.cpus|
      invariant best < 0 ==> load == 0xFFFF_FFFF
      invariant best >= 0 ==>
        best < i && best != self && Bit(rq.threads[t].affinity, best) && load == rq.cpus[best].total < 0xFFFF_FFFF
      invariant forall j :: 0 <= j < i && j != self && Bit(rq.threads[t].affinity, j) ==> load <= rq.cpus[j].total
    {
      if i == self || !Bit(rq.threads[t].affinity, i) { continue; }
      if rq.cpus[i].total < load {
        best, load := i, rq.cpus[i].total;
      }
    }
  }

  /** No other CPU that thread t may run on is at least three threads shorter. */
  ghost predicate Stuck(threads: seq<Thread>, cpus: seq<Pcp>, self: nat, t: nat) {
    t < |threads| && self < |cpus| && forall i :: 0 <= i < |cpus| && i != self && Bit(threads[t].affinity, i) ==>
      cpus[self].total <= cpus[i].total + 2 || cpus[i].total >= 0xFFFF_FFFF
  }

  lemma OnlyHere(affinity: nat, self: nat)
    requires ClearBit(affinity, self) == 0
    ensures forall i: nat :: i != self ==> !Bit(affinity, i)
  {
    forall i: nat | i != self ensures !Bit(affinity, i) {
      BitAfterClear(affinity, self, i);
      ZeroHasNoBits(i);
    }
  }

  /** Where thread t can go, or -1 if nowhere. */
  method TargetFor(rq: RunQueues, self: nat, t: nat) returns (best: int)
    requires t < |rq.threads| && self < |rq.cpus|
    ensures best < 0 <==> Stuck(rq.threads, rq.cpus, self, t)
    ensures best >= 0 ==>
      && best < |rq.cpus| && best != self && Bit(rq.threads[t].affinity, best)
      && rq.cpus[best].total + 2 < rq.cpus[self].total
  {
    if ClearBit(rq.threads[t].affinity, self) == 0 {
      OnlyHere(rq.threads[t].affinity, self);
      return -1;
    }
    var load;
    best, load := BestTarget(rq, self, t);
    if best < 0 || load + 2 >= rq.cpus[self].total { return -1; }
  }

  /** No thread of queue l can go elsewhere. */
  ghost predicate AllStuck(threads: seq<Thread>, cpus: seq<Pcp>, self: nat, l: seq<nat>) {
    forall j :: 0 <= j < |l| ==> Stuck(threads, cpus, self, l[j])
  }

  /** Entry k of l is its first thread that can. */
  ghost predicate FirstMovable(threads: seq<Thread>, cpus: seq<Pcp>, self: nat, l: seq<nat>, k: nat) {
    k < |l| && !Stuck(threads, cpus, self, l[k]) && forall j :: 0 <= j < k ==> Stuck(threads, cpus, self, l[j])
  }

  /** Walk one queue for the first thread that may move to a CPU at least three threads shorter. */
  method FindMovable(rq: RunQueues, self: nat, p: nat) returns (t: nat, target: nat, ghost k: nat)
    requires rq.Valid() && self < |rq.cpus| && p < LEVELS
    ensures t != 0 ==>
      && k < |rq.lists[self][p]| && rq.lists[self][p][k] == t < |rq.threads|
      && target < |rq.cpus| && target != self && Bit(rq.threads[t].affinity, target)
      && rq.cpus[target].total + 2 < rq.cpus[self].total
    ensures t == 0 <==> AllStuck(rq.threads, rq.cpus, self, rq.lists[self][p])
    ensures t != 0 ==> FirstMovable(rq.threads, rq.cpus, self, rq.lists[self][p], k)
  {
    assert LevelOk(rq.cpus[self], rq.lists[self], p);
    ghost var l := rq.lists[self][p];
    forall j | 0 <= j < |l| ensures 0 < l[j] < |rq.threads| { assert NodeOk(rq.threads, rq.lists, rq.pos, self, p, j); }
    var ct := rq.cpus[self].heads[p];
    k := 0;
    while ct != 0
      invariant k <= |l| && ct == if k < |l| then l[k] else 0
      invariant forall j :: 0 <= j < k ==> Stuck(rq.threads, rq.cpus, self, l[j])
      decreases |l| - k
    {
      assert NodeOk(rq.threads, rq.lists, rq.pos, self, p, k);
      var best := TargetFor(rq, self, ct);
      if best >= 0 { return ct, best, k; }
      ct := rq.threads[ct].next;
      k := k + 1;
    }
    return 0, 0, k;
  }

  /** The number of threads queued on all CPUs. */
  function SumTotals(cpus: seq<Pcp>): nat {
    if cpus == [] then 0 else SumTotals(cpus[..|cpus| - 1]) + cpus[|cpus| - 1].total
  }

  method AverageLoad(cpus: seq<Pcp>) returns (avg: nat)
    requires |cpus| > 0
    ensures avg == SumTotals(cpus) / |cpus|
  {
    var total := 0;
    for i := 0 to |cpus|
      invariant total == SumTotals(cpus[..i])
    {
      assert cpus[..i + 1][..i] == cpus[..i];
      total := total + cpus[i].total;
    }
    assert cpus[..|cpus|] == cpus;
    avg := total / |cpus|;
  }

  /** This CPU is at least three threads above the average. */
  ghost predicate Overloaded(cpus: seq<Pcp>, self: nat)
    requires self < |cpus|
  {
    |cpus| >= 2 && cpus[self].total > 1 && cpus[self].total > SumTotals(cpus) / |cpus| + 2
  }

  method IsOverloaded(cpus: seq<Pcp>, self: nat) returns (over: bool)
    requires self < |cpus|
    ensures over <==> Overloaded(cpus, self)
  {
    if |cpus| < 2 { return false; }
    if cpus[self].total <= 1 { return false; }
    var avg := AverageLoad(cpus);
    over := cpus[self].total > avg + 2;
  }

  /** A push moves nothing: the CPU is not overloaded, its lock is taken, or no thread of its highest
      queue can go elsewhere. */
  ghost predicate NothingToPush(threads: seq<Thread>, cpus: seq<Pcp>, lists: Lists, self: nat, locked: bool)
    requires self < |cpus| == |lists| && ListsOk(lists)
  {
    || !Overloaded(cpus, self) || locked
    || forall p :: 0 <= p < LEVELS && IsHighest(lists[self], p) ==> AllStuck(threads, cpus, self, lists[self][p])
  }

  lemma NothingIff(threads: seq<Thread>, cpus: seq<Pcp>, lists: Lists, self: nat, locked: bool, p: int)
    requires self < |cpus| == |lists| && ListsOk(lists) && -1 <= p < LEVELS && IsHighest(lists[self], p)
    ensures NothingToPush(threads, cpus, lists, self, locked) <==>
      !Overloaded(cpus, self) || locked || p < 0 || AllStuck(threads, cpus, self, lists[self][p])
  {
    forall q | 0 <= q < LEVELS && IsHighest(lists[self], q) ensures q == p {}
  }

  /** The highest level in use, found by its count. */
  method HighestCounted(rq: RunQueues, self: nat) returns (low: int)
    requires rq.Valid() && self < |rq.cpus|
    ensures -1 <= low < LEVELS && IsHighest(rq.lists[self], low)
  {
    assert Counted(rq.cpus[self], rq.lists[self]);
    low := -1;
    var p := MAX_PRIO;
    while p >= 0 && low < 0
      invariant -1 <= p <= MAX_PRIO && -1 <= low <= MAX_PRIO && (low < 0 || low == p + 1)
      invariant forall q :: p < q < LEVELS && q != low ==> rq.lists[self][q] == []
      invariant low >= 0 ==> rq.lists[self][low] != []
    {
      assert LevelOk(rq.cpus[self], rq.lists[self], p);
      if rq.cpus[self].counts[p] > 0 { low := p; }
      p := p - 1;
    }
  }

  /** sched_balance_push: moves at most one thread, to a CPU its mask allows, and only when that
      lowers the imbalance; it moves none exactly if there is nothing to push. */
  method Push(rq: RunQueues, self: nat, locked: bool) returns (t: nat, ghost target: nat, ghost level: nat,
                                                               ghost k: nat)
    requires rq.Valid() && self < |rq.cpus|
    modifies rq
    ensures rq.Valid()
    ensures t == 0 <==> NothingToPush(old(rq.threads), old(rq.cpus), old(rq.lists), self, locked)
    ensures t == 0 ==>
      rq.threads == old(rq.threads) && rq.cpus == old(rq.cpus) && rq.lists == old(rq.lists) && rq.pos == old(rq.pos)
    ensures t != 0 ==>
      && level < LEVELS && IsHighest(old(rq.lists[self]), level)
      && Moved(old(rq.threads), old(rq.lists), old(rq.pos), rq.threads, rq.lists, rq.pos, self, level, t, target, k)
      && FirstMovable(old(rq.threads), old(rq.cpus), self, old(rq.lists[self][level]), k)
    ensures t != 0 ==> PushMove(old(rq.lists), rq.lists) && Imbalance(rq.lists) < Imbalance(old(rq.lists))
  {
    t, target, level, k := 0, 0, 0, 0;
    var over := IsOverloaded(rq.cpus, self);
    if !over || locked { return; }
    var low := HighestCounted(rq, self);
    NothingIff(rq.threads, rq.cpus, rq.lists, self, locked, low);
    if low < 0 { return; }
    t, target, k := PushFrom(rq, self, low);
    level := low;
  }

  /** Thread t, entry k of level p on this CPU, has moved to the end of that level on CPU target. */
  ghost predicate Moved(threads: seq<Thread>, lists: Lists, pos: seq<int>, threads': seq<Thread>, lists': Lists,
                        pos': seq<int>,
                        self: nat, p: nat, t: nat, target: nat, k: nat)
  {
    && ListsOk(lists) && self < |lists| && target < |lists| && target != self && p < LEVELS && k < |lists[self][p]|
    && t == lists[self][p][k] < |threads| && Bit(threads[t].affinity, target)
    && lists' == MoveLists(lists, self, target, p, k) && QueuedSet(pos') == QueuedSet(pos)
    && SameButLinks(threads[t := threads[t].(cpuQueue := target)], threads')
  }

  /** The first thread of one queue that can go elsewhere goes. */
  method PushFrom(rq: RunQueues, self: nat, p: nat) returns (t: nat, ghost target: nat, ghost k: nat)
    requires rq.Valid() && self < |rq.cpus| && p < LEVELS
    modifies rq
    ensures rq.Valid()
    ensures t == 0 <==> AllStuck(old(rq.threads), old(rq.cpus), self, old(rq.lists[self][p]))
    ensures t == 0 ==>
      rq.threads == old(rq.threads) && rq.cpus == old(rq.cpus) && rq.lists == old(rq.lists) && rq.pos == old(rq.pos)
    ensures t != 0 ==>
      Moved(old(rq.threads), old(rq.lists), old(rq.pos), rq.threads, rq.lists, rq.pos, self, p, t, target, k)
    ensures t != 0 ==> FirstMovable(old(rq.threads), old(rq.cpus), self, old(rq.lists[self][p]), k)
    ensures t != 0 ==> PushMove(old(rq.lists), rq.lists) && Imbalance(rq.lists) < Imbalance(old(rq.lists))
  {
    var to;
    t, to, k := FindMovable(rq, self, p);
    target := to;
    if t == 0 { return; }
    PushThread(rq, self, p, t, to, k);
  }

  /** Move a thread to a CPU at least three threads shorter. */
  method PushThread(rq: RunQueues, self: nat, p: nat, t: nat, to: nat, ghost k: nat)
    requires rq.Valid() && self < |rq.cpus| && to < |rq.cpus| && self != to && p < LEVELS
    requires k < |rq.lists[self][p]| && rq.lists[self][p][k] == t < |rq.threads| && Bit(rq.threads[t].affinity, to)
    requires rq.cpus[to].total + 2 < rq.cpus[self].total
    modifies rq
    ensures rq.Valid()
    ensures Moved(old(rq.threads), old(rq.lists), old(rq.pos), rq.threads, rq.lists, rq.pos, self, p, t, to, k)
    ensures PushMove(old(rq.lists), rq.lists) && Imbalance(rq.lists) < Imbalance(old(rq.lists))
  {
    assert Counted(rq.cpus[self], rq.lists[self]) && Counted(rq.cpus[to], rq.lists[to]);
    MoveOne(rq, self, to, p, t, k);
    PushLowers(old(rq.lists), rq.lists, self, to, p, k);
  }

  lemma {:induction false} PushLowers(lists: Lists, r: Lists, c: nat, d: nat, p: nat, i: nat)
    requires ListsOk(lists) && c < |lists| && d < |lists| && c != d && p < LEVELS && i < |lists[c][p]|
    requires SumLen(lists[d]) + 2 < SumLen(lists[c]) && r == MoveLists(lists, c, d, p, i)
    ensures PushMove(lists, r) && Imbalance(r) < Imbalance(lists)
  {
    MoveLowersImbalance(lists, c, d, p, i);
  }

  /** Dequeue from one CPU and enqueue on another. */
  method MoveOne(rq: RunQueues, c: nat, d: nat, p: nat, t: nat, ghost k: nat)
    requires rq.Valid() && c < |rq.cpus| && d < |rq.cpus| && c != d && p < LEVELS
    requires k < |rq.lists[c][p]| && rq.lists[c][p][k] == t < |rq.threads|
    modifies rq
    ensures rq.Valid()
    ensures rq.lists == MoveLists(old(rq.lists), c, d, p, k) && QueuedSet(rq.pos) == QueuedSet(old(rq.pos))
    ensures SameButLinks(old(rq.threads)[t := old(rq.threads[t]).(cpuQueue := d)], rq.threads)
  {
    assert NodeOk(rq.threads, rq.lists, rq.pos, c, p, k);
    AnyHole(rq, c, p);
    ghost var threads, lists, pos := rq.threads, rq.lists, rq.pos;
    rq.Unlink(t);
    rq.ClearIfEmpty(c, p);
    assert t !in QueuedSet(rq.pos);
    ghost var mid, mpos := rq.threads, rq.pos;
    rq.Append(t, d, -1, -1);
    LeftThenJoined(threads, pos, mid, mpos, rq.threads, rq.pos, t, d);
  }

  lemma LeftThenJoined(threads: seq<Thread>, pos: seq<int>, mid: seq<Thread>, mpos: seq<int>, threads': seq<Thread>,
                       pos': seq<int>, t: nat, c: nat)
    requires t < |threads| && threads[t].state == Ready && t in QueuedSet(pos)
    requires QueuedSet(mpos) == QueuedSet(pos) - {t} && SameButLinks(threads, mid)
    requires QueuedSet(pos') == QueuedSet(mpos) + {t} &&
      SameButLinks(mid[t := mid[t].(cpuQueue := c, state := Ready)], threads')
    ensures QueuedSet(pos') == QueuedSet(pos) && SameButLinks(threads[t := threads[t].(cpuQueue := c)], threads')
  {
  }

  // ----- Aging and priority changes -----

  /** Requeue a ready thread on the current CPU with a new priority. */
  method Requeue(rq: RunQueues, self: nat, t: nat, priority: nat, base: nat)
    requires rq.Valid() && self < |rq.cpus| && 0 < t < |rq.threads| && priority < LEVELS
    modifies rq
    ensures rq.Valid() && |rq.threads| == |old(rq.threads)| && |rq.cpus| == |old(rq.cpus)|
    ensures QueuedSet(rq.pos) == QueuedSet(old(rq.pos)) + {t}
    ensures rq.lists[self][priority] != [] && Last(rq.lists[self][priority]) == t
    ensures SameButLinks(old(rq.threads)[t := old(rq.threads[t]).(priority := priority, basePriority := base,
      cpuQueue := self, state := Ready)], rq.threads)
  {
    ghost var threads := rq.threads;
    rq.Remove(t);
    assert t !in QueuedSet(rq.pos);
    ghost var mid := rq.threads;
    rq.Edit(t, rq.threads[t].(priority := priority, basePriority := base));
    ghost var edited := rq.threads;
    rq.Add(t, self);
    EditedBetween(threads, mid, edited, rq.threads, t, priority, base, self);
  }

  lemma EditedBetween(threads: seq<Thread>, mid: seq<Thread>, edited: seq<Thread>, threads': seq<Thread>, t: nat,
                      priority: nat, base: nat, c: nat)
    requires t < |threads| && SameButLinks(threads, mid)
    requires edited == mid[t := mid[t].(priority := priority, basePriority := base)]
    requires SameButLinks(edited[t := edited[t].(cpuQueue := c, state := Ready)], threads')
    ensures SameButLinks(threads[t :=
      threads[t].(priority := priority, basePriority := base, cpuQueue := c, state := Ready)], threads')
  {
  }

  /** sched_set_priority: no thread leaves the queues, and only a ready one can join them. */
  method SetPriority(rq: RunQueues, self: nat, t: nat, priority: int)
    requires rq.Valid() && self < |rq.cpus| && t < |rq.threads|
    modifies rq
    ensures rq.Valid()
    ensures QueuedSet(rq.pos) == QueuedSet(old(rq.pos)) +
      if t != 0 && 0 <= priority <= MAX_PRIO && old(rq.threads[t].state) == Ready then {t} else {}
    ensures 0 < t && 0 <= priority <= MAX_PRIO ==>
      |rq.threads| == |old(rq.threads)| && rq.threads[t].priority == rq.threads[t].basePriority == priority
    ensures 0 < t && 0 <= priority <= MAX_PRIO && old(rq.threads[t].state) == Ready ==>
      |rq.cpus| == |old(rq.cpus)| && Last(rq.lists[self][priority]) == t
    ensures !(0 < t && 0 <= priority <= MAX_PRIO && old(rq.threads[t].state) == Ready) ==> rq.lists == old(rq.lists)
    ensures |rq.threads| == |old(rq.threads)| && forall u :: 0 <= u < |rq.threads| && u != t ==>
      rq.threads[u] == old(rq.threads[u]).(next := rq.threads[u].next, prev := rq.threads[u].prev)
  {
    if t == 0 || priority < 0 || priority > MAX_PRIO { return; }
    if rq.threads[t].state == Ready {
      Requeue(rq, self, t, priority, priority);
    } else {
      assert Queued(rq.threads, rq.pos, t) ==> PlaceOk(rq.threads, rq.lists, rq.pos, t);
      NeighboursInRange(rq.threads, rq.lists, rq.pos, t);
      rq.Edit(t, rq.threads[t].(priority := priority, basePriority := priority));
    }
  }

  predicate Boosts(th: Thread) {
    th.state == Ready && th.age + 1 >= AGING_INTERVAL && th.priority < MAX_PRIO
  }

  /** A thread an aging pass has visited: exactly the ready threads that have waited long
      enough gain one priority and start waiting anew. */
  predicate AgedTo(th: Thread, th': Thread) {
    && th'.state == th.state && th'.affinity == th.affinity && th'.basePriority == th.basePriority
    && th'.priority == (if Boosts(th) then th.priority + 1 else th.priority)
    && th'.age == (if Boosts(th) then 0 else if th.state == Ready then th.age + 1 else th.age)
  }

  /** The effect of an aging pass over the first k entries of the thread list. */
  ghost predicate Aged(threads: seq<Thread>, threads': seq<Thread>, all: seq<nat>, k: nat, idle: nat)
    requires k <= |all|
  {
    && |threads'| == |threads|
    && forall u {:trigger threads'[u]} :: 0 <= u < |threads| ==>
         if u in all[..k] && u != idle then AgedTo(threads[u], threads'[u])
         else threads'[u] == threads[u].(next := threads'[u].next, prev := threads'[u].prev)
  }

  /** The threads among the first k of a list that an aging pass boosts. */
  ghost function BoostedOf(threads: seq<Thread>, all: seq<nat>, k: nat, idle: nat): set<nat>
    requires k <= |all|
  {
    set u: nat | u in all[..k] && u != idle && u < |threads| && Boosts(threads[u])
  }

  lemma BoostedNext(threads: seq<Thread>, all: seq<nat>, k: nat, idle: nat)
    requires k < |all| && all[k] < |threads|
    ensures BoostedOf(threads, all, k + 1, idle) ==
      BoostedOf(threads, all, k, idle) + if all[k] != idle && Boosts(threads[all[k]]) then {all[k]} else {}
  {
    assert all[..k + 1] == all[..k] + [all[k]];
  }

  method AgeThread(rq: RunQueues, self: nat, t: nat)
    requires rq.Valid() && self < |rq.cpus| && 0 < t < |rq.threads|
    modifies rq
    ensures rq.Valid() && |rq.threads| == |old(rq.threads)| && |rq.cpus| == |old(rq.cpus)|
    ensures AgedTo(old(rq.threads[t]), rq.threads[t])
    ensures SameButLinks(old(rq.threads)[t := rq.threads[t]], rq.threads)
    ensures QueuedSet(rq.pos) == QueuedSet(old(rq.pos)) + if Boosts(old(rq.threads[t])) then {t} else {}
  {
    if rq.threads[t].state == Ready {
      rq.Edit(t, rq.threads[t].(age := rq.threads[t].age + 1));
      if rq.threads[t].age >= AGING_INTERVAL && rq.threads[t].priority < MAX_PRIO {
        Requeue(rq, self, t, rq.threads[t].priority + 1, rq.threads[t].basePriority);
        rq.Edit(t, rq.threads[t].(age := 0));
      }
    }
  }

  /** The aging pass of the timer tick over the list of all threads. No queued thread is lost, and
      exactly the boosted ones are queued afterwards whether or not they were before. */
  method Age(rq: RunQueues, self: nat, all: seq<nat>, idle: nat)
    requires rq.Valid() && self < |rq.cpus|
    requires forall k :: 0 <= k < |all| ==> 0 < all[k] < |rq.threads|
    requires forall j, k :: 0 <= j < k < |all| ==> all[j] != all[k]
    modifies rq
    ensures rq.Valid() && Aged(old(rq.threads), rq.threads, all, |all|, idle)
    ensures |rq.cpus| == |old(rq.cpus)|
    ensures QueuedSet(rq.pos) == QueuedSet(old(rq.pos)) + BoostedOf(old(rq.threads), all, |all|, idle)
  {
    ghost var boosted := {};
    for k := 0 to |all|
      invariant rq.Valid() && |rq.cpus| == |old(rq.cpus)| && Aged(old(rq.threads), rq.threads, all, k, idle)
      invariant boosted == BoostedOf(old(rq.threads), all, k, idle) &&
        QueuedSet(rq.pos) == QueuedSet(old(rq.pos)) + boosted
    {
      var t := all[k];
      ghost var mid := rq.threads;
      assert t !in all[..k];
      BoostedNext(old(rq.threads), all, k, idle);
      assert Boosts(mid[t]) == Boosts(old(rq.threads)[t]);
      boosted := boosted + if t != idle && Boosts(mid[t]) then {t} else {};
      if t != idle {
        AgeThread(rq, self, t);
      }
      AgedNext(old(rq.threads), mid, rq.threads, all, k, idle);
    }
  }

  lemma AgedNext(threads: seq<Thread>, mid: seq<Thread>, threads': seq<Thread>, all: seq<nat>, k: nat, idle: nat)
    requires k < |all| && all[k] < |threads| && all[k] !in all[..k] && Aged(threads, mid, all, k, idle) &&
      |threads'| == |threads|
    requires if all[k] == idle then threads' == mid
      else AgedTo(mid[all[k]], threads'[all[k]]) && SameButLinks(mid[all[k] := threads'[all[k]]], threads')
    ensures Aged(threads, threads', all, k + 1, idle)
  {
    assert all[..k + 1] == all[..k] + [all[k]];
    forall u | 0 <= u < |threads|
      ensures if u in all[..k + 1] && u != idle then AgedTo(threads[u], threads'[u])
        else threads'[u] == threads[u].(next := threads'[u].next, prev := threads'[u].prev)
    {
      assert mid[u] == mid[u];
    }
  }

  // ----- A picked thread that is queued again -----

  /** A thread taken from its queue is still marked ready, so a priority change that comes before it
      runs puts it on a queue again. */
  method PickedThenRaised(rq: RunQueues, self: nat, c: nat, p: nat, priority: nat) returns (t: nat)
    requires rq.Valid() && self < |rq.cpus| && c < |rq.cpus| && p < LEVELS && rq.lists[c][p] != [] &&
      priority <= MAX_PRIO
    modifies rq
    ensures rq.Valid() && t == old(rq.lists[c][p][0]) && |rq.cpus| == |old(rq.cpus)|
    ensures t in QueuedSet(rq.pos) && QueuedSet(rq.pos) == QueuedSet(old(rq.pos)) && Last(rq.lists[self][priority]) == t
  {
    assert NodeOk(rq.threads, rq.lists, rq.pos, c, p, 0);
    t := rq.TakeHead(c, p);
    assert t !in QueuedSet(rq.pos);
    SetPriority(rq, self, t, priority);
  }

  /** The same with an aging pass that boosts it. */
  method PickedThenAged(rq: RunQueues, self: nat, c: nat, p: nat, idle: nat) returns (t: nat)
    requires rq.Valid() && self < |rq.cpus| && c < |rq.cpus| && p < MAX_PRIO && rq.lists[c][p] != []
    requires var h := rq.lists[c][p][0]; h != idle && h < |rq.threads| && rq.threads[h].age + 1 >= AGING_INTERVAL
    modifies rq
    ensures rq.Valid() && t == old(rq.lists[c][p][0]) && t in QueuedSet(rq.pos) &&
      QueuedSet(rq.pos) == QueuedSet(old(rq.pos))
  {
    assert NodeOk(rq.threads, rq.lists, rq.pos, c, p, 0);
    t := rq.TakeHead(c, p);
    assert t !in QueuedSet(rq.pos);
    assert Boosts(rq.threads[t]) && [t][..1] == [t];
    Age(rq, self, [t], idle);
  }

  // ----- Migration -----

  /** Levels below p of CPU c have been emptied behind the same levels of CPU d. */
  ghost predicate MigratedBelow(was: Lists, lists: Lists, c: nat, d: nat, p: nat)
    requires ListsOk(was) && ListsOk(lists) && |lists| == |was| && c < |was| && d < |was| && c != d
  {
    forall e, q :: 0 <= e < |was| && 0 <= q < LEVELS ==>
      lists[e][q] == MigratedList(was, c, d, p, e, q)
  }

  ghost function MigratedList(was: Lists, c: nat, d: nat, p: nat, e: nat, q: nat): seq<nat>
    requires ListsOk(was) && c < |was| && d < |was| && e < |was| && q < LEVELS
  {
    if q >= p then was[e][q] else if e == c then [] else if e == d then was[d][q] + was[c][q] else was[e][q]
  }

  /** Level p after its first k entries have moved from CPU c to CPU d. */
  ghost function PartMoved(was: Lists, c: nat, d: nat, p: nat, k: nat): (r: Lists)
    requires ListsOk(was) && c < |was| && d < |was| && c != d && p < LEVELS && k <= |was[c][p]|
    ensures ListsOk(r) && |r| == |was|
  {
    SetList(SetList(was, c, p, was[c][p][k..]), d, p, was[d][p] + was[c][p][..k])
  }

  lemma PartMovedStep(was: Lists, c: nat, d: nat, p: nat, k: nat)
    requires ListsOk(was) && c < |was| && d < |was| && c != d && p < LEVELS && k < |was[c][p]|
    ensures PartMoved(was, c, d, p, k + 1) == MoveLists(PartMoved(was, c, d, p, k), c, d, p, 0)
  {
    var l, a := was[c][p], PartMoved(was, c, d, p, k);
    assert RemoveAt(l[k..], 0) == l[k + 1..];
    assert was[d][p] + l[..k] + [l[k]] == was[d][p] + l[..k + 1];
    assert a[c][p] == l[k..] && a[d][p] == was[d][p] + l[..k];
    var x, y := PartMoved(was, c, d, p, k + 1), MoveLists(a, c, d, p, 0);
    forall e | 0 <= e < |was| ensures x[e] == y[e] {
      forall q | 0 <= q < LEVELS ensures x[e][q] == y[e][q] {}
    }
  }

  lemma PartMovedStart(was: Lists, c: nat, d: nat, p: nat)
    requires ListsOk(was) && c < |was| && d < |was| && c != d && p < LEVELS
    ensures PartMoved(was, c, d, p, 0) == was
  {
    var x := PartMoved(was, c, d, p, 0);
    forall e | 0 <= e < |was| ensures x[e] == was[e] {
      forall q | 0 <= q < LEVELS ensures x[e][q] == was[e][q] {}
    }
  }

  /** One step of the migration: the head t of level p moves; its successor is next. */
  method MigrateHead(rq: RunQueues, c: nat, d: nat, p: nat, t: nat) returns (next: nat)
    requires Inv(rq.threads, rq.cpus, rq.lists, rq.pos, c, p)
    requires c < |rq.cpus| && d < |rq.cpus| && c != d && p < LEVELS
    requires rq.lists[c][p] != [] && t == rq.lists[c][p][0]
    modifies rq
    ensures Inv(rq.threads, rq.cpus, rq.lists, rq.pos, c, p) && |rq.cpus| == |old(rq.cpus)|
    ensures rq.lists == MoveLists(old(rq.lists), c, d, p, 0)
    ensures QueuedSet(rq.pos) == QueuedSet(old(rq.pos))
    ensures next == First(rq.lists[c][p])
  {
    assert NodeOk(rq.threads, rq.lists, rq.pos, c, p, 0);
    next := rq.threads[t].next;
    rq.Unlink(t);
    assert t !in QueuedSet(rq.pos);
    rq.Append(t, d, c, p);
  }

  lemma HeadOf(rq: RunQueues, c: nat, p: nat, c0: int, hole: int)
    requires Inv(rq.threads, rq.cpus, rq.lists, rq.pos, c0, hole) && c < |rq.cpus| && p < LEVELS
    ensures Shaped(rq.cpus[c]) && rq.cpus[c].heads[p] == First(rq.lists[c][p])
    ensures First(rq.lists[c][p]) == 0 <==> rq.lists[c][p] == []
  {
    assert LevelOk(rq.cpus[c], rq.lists[c], p);
    if rq.lists[c][p] != [] { assert NodeOk(rq.threads, rq.lists, rq.pos, c, p, 0); }
  }

  /** The inner loop of sched_migrate_cpu. */
  method MigrateLevel(rq: RunQueues, c: nat, d: nat, p: nat) returns (n: nat)
    requires rq.Valid() && c < |rq.cpus| && d < |rq.cpus| && c != d && p < LEVELS
    modifies rq
    ensures rq.Valid() && |rq.cpus| == |old(rq.cpus)|
    ensures n == |old(rq.lists[c][p])|
    ensures rq.lists == PartMoved(old(rq.lists), c, d, p, n)
    ensures QueuedSet(rq.pos) == QueuedSet(old(rq.pos))
  {
    ghost var was := rq.lists;
    AnyHole(rq, c, p);
    n := 0;
    HeadOf(rq, c, p, c, p);
    PartMovedStart(was, c, d, p);
    var t := rq.cpus[c].heads[p];
    while t != 0
      invariant Inv(rq.threads, rq.cpus, rq.lists, rq.pos, c, p) && |rq.cpus| == |old(rq.cpus)|
      invariant n <= |was[c][p]| && rq.lists == PartMoved(was, c, d, p, n)
      invariant t == First(rq.lists[c][p]) && QueuedSet(rq.pos) == QueuedSet(old(rq.pos))
      decreases |was[c][p]| - n
    {
      HeadOf(rq, c, p, c, p);
      PartMovedStep(was, c, d, p, n);
      t := MigrateHead(rq, c, d, p, t);
      n := n + 1;
    }
    HeadOf(rq, c, p, c, p);
    InvAfterClear(rq.threads, rq.cpus, rq.lists, rq.pos, c, p);
    if rq.cpus[c].heads[p] == 0 {
      rq.cpus := rq.cpus[c := rq.cpus[c].(bitmap := Unmark(rq.cpus[c].bitmap, 64, p))];
    }
  }

  lemma MigratedStep(was: Lists, lists: Lists, c: nat, d: nat, p: nat)
    requires ListsOk(was) && ListsOk(lists) && |lists| == |was| && c < |was| && d < |was| && c != d && p < LEVELS
    requires MigratedBelow(was, lists, c, d, p)
    ensures MigratedBelow(was, PartMoved(lists, c, d, p, |lists[c][p]|), c, d, p + 1)
  {
    var l := lists[c][p];
    assert lists[c][p] == was[c][p] && lists[d][p] == was[d][p];
    assert l[|l|..] == [] && l[..|l|] == l;
    var r := PartMoved(lists, c, d, p, |l|);
    forall e, q | 0 <= e < |was| && 0 <= q < LEVELS ensures r[e][q] == MigratedList(was, c, d, p + 1, e, q) {
      assert lists[e][q] == MigratedList(was, c, d, p, e, q);
    }
  }

  lemma SumLenSnoc(ls: seq<seq<nat>>, p: nat)
    requires p < |ls|
    ensures SumLen(ls[..p + 1]) == SumLen(ls[..p]) + |ls[p]|
  {
    assert ls[..p + 1][..p] == ls[..p];
  }

  /** sched_migrate_cpu: every queue of CPU c ends up, in order, behind the queue of the same
      priority on CPU d; no other queue changes and every queued thread stays queued. */
  method Migrate(rq: RunQueues, c: nat, d: nat) returns (migrated: nat)
    requires rq.Valid() && c < |rq.cpus| && d < |rq.cpus|
    modifies rq
    ensures rq.Valid()
    ensures c == d ==> migrated == 0 && rq.lists == old(rq.lists)
    ensures c != d ==> |rq.lists| == |old(rq.lists)| && MigratedBelow(old(rq.lists), rq.lists, c, d, LEVELS)
    ensures c != d ==> migrated == SumLen(old(rq.lists[c]))
    ensures QueuedSet(rq.pos) == QueuedSet(old(rq.pos))
  {
    if c == d { return 0; }
    migrated := 0;
    ghost var was := rq.lists;
    for p := 0 to LEVELS
      invariant rq.Valid() && |rq.cpus| == |old(rq.cpus)|
      invariant |rq.lists| == |was| && MigratedBelow(was, rq.lists, c, d, p)
      invariant migrated == SumLen(was[c][..p]) && QueuedSet(rq.pos) == QueuedSet(old(rq.pos))
    {
      MigratedStep(was, rq.lists, c, d, p);
      assert rq.lists[c][p] == was[c][p];
      SumLenSnoc(was[c], p);
      var n := MigrateLevel(rq, c, d, p);
      migrated := migrated + n;
    }
    assert was[c][..LEVELS] == was[c];
  }

  // ----- The kernel's own check -----

  /** sched_validate_rq walks every queue and finds as many threads as the counter declares;
      neither its cycle test nor its count test can fire. */
  method ValidateQueue(rq: RunQueues, c: nat, p: nat) returns (walked: nat, cycle: bool)
    requires rq.Valid() && c < |rq.cpus| && p < LEVELS
    ensures !cycle && Shaped(rq.cpus[c]) && walked == rq.cpus[c].counts[p]
  {
    HeadOf(rq, c, p, -1, -1);
    assert LevelOk(rq.cpus[c], rq.lists[c], p);
    ghost var l := rq.lists[c][p];
    var declared := rq.cpus[c].counts[p];
    var t := rq.cpus[c].heads[p];
    walked, cycle := 0, false;
    forall j | 0 <= j < |l| ensures l[j] != 0 { assert NodeOk(rq.threads, rq.lists, rq.pos, c, p, j); }
    while t != 0
      invariant walked <= |l| && !cycle && t == if walked < |l| then l[walked] else 0
      decreases |l| - walked
    {
      assert NodeOk(rq.threads, rq.lists, rq.pos, c, p, walked);
      walked := walked + 1;
      if walked > declared + 64 { return walked, true; }
      t := rq.threads[t].next;
    }
  }
}
