/** The per-CPU run queues: 256 priorities to a CPU, each an intrusive doubly linked list
    of threads, with a bitmap index and redundant counters. Threads are numbered from 1;
    thread 0 is the null pointer. */
module RunQueue {
  import opened Bits
  import opened Seqs

  const LEVELS := 256
  const MAX_PRIO := 255
  const AGING_INTERVAL := 20

  datatype ThreadState = Created | Ready | Running | Blocked | Sleeping | Zombie | Terminated

  datatype Thread = Thread(next: nat, prev: nat, priority: nat, basePriority: nat, cpuQueue: nat,
    affinity: nat, state: ThreadState, age: nat)

  datatype Pcp = Pcp(heads: seq<nat>, tails: seq<nat>, counts: seq<nat>, bitmap: seq<nat>, total: nat, idle: nat)

  /** The abstract queues: lists[c][p] is the queue of priority p on CPU c. */
  type Lists = seq<seq<seq<nat>>>

  predicate ListsOk(lists: Lists) {
    forall c :: 0 <= c < |lists| ==> |lists[c]| == LEVELS
  }

  // ----- Links -----

  /** Entry i of the queue of priority p on CPU c is linked to its neighbours, knows its
      place, and agrees with its own priority and CPU. */
  predicate NodeOk(threads: seq<Thread>, lists: Lists, pos: seq<int>, c: nat, p: nat, i: nat)
    requires ListsOk(lists) && c < |lists| && p < LEVELS && i < |lists[c][p]| && |pos| == |threads|
  {
    var l := lists[c][p];
    var t := l[i];
    && 0 < t < |threads| && pos[t] == i
    && threads[t].cpuQueue == c && threads[t].priority == p && threads[t].state == Ready
    && threads[t].prev == (if i == 0 then 0 else l[i - 1])
    && threads[t].next == (if i == |l| - 1 then 0 else l[i + 1])
  }

  /** A thread's recorded place holds it; a thread with no place has no links. */
  predicate PlaceOk(threads: seq<Thread>, lists: Lists, pos: seq<int>, t: nat)
    requires ListsOk(lists) && t < |threads| == |pos|
  {
    var th := threads[t];
    && (pos[t] < 0 ==> th.prev == 0 && th.next == 0)
    && (pos[t] >= 0 ==>
          && th.cpuQueue < |lists| && th.priority < LEVELS && pos[t] < |lists[th.cpuQueue][th.priority]|
          && lists[th.cpuQueue][th.priority][pos[t]] == t)
  }

  ghost predicate Links(threads: seq<Thread>, lists: Lists, pos: seq<int>) {
    && ListsOk(lists) && |pos| == |threads| > 0 && pos[0] < 0
    && (forall c, p, i {:trigger NodeOk(threads, lists, pos, c, p, i)} ::
         0 <= c < |lists| && 0 <= p < LEVELS && 0 <= i < |lists[c][p]| ==> NodeOk(threads, lists, pos, c, p, i))
    && (forall t {:trigger PlaceOk(threads, lists, pos, t)} :: 0 <= t < |threads| ==> PlaceOk(threads, lists, pos, t))
  }

  /** Each queued thread stands at exactly one place of exactly one queue. */
  lemma OnePlace(threads: seq<Thread>, lists: Lists, pos: seq<int>, c: nat, p: nat, i: nat, d: nat, q: nat, j: nat)
    requires Links(threads, lists, pos)
    requires c < |lists| && p < LEVELS && i < |lists[c][p]|
    requires d < |lists| && q < LEVELS && j < |lists[d][q]|
    requires lists[c][p][i] == lists[d][q][j]
    ensures c == d && p == q && i == j
  {
    assert NodeOk(threads, lists, pos, c, p, i) && NodeOk(threads, lists, pos, d, q, j);
  }

  function SetList(lists: Lists, c: nat, p: nat, l: seq<nat>): (r: Lists)
    requires ListsOk(lists) && c < |lists| && p < LEVELS
    ensures ListsOk(r) && |r| == |lists|
    ensures forall d, q :: 0 <= d < |lists| && 0 <= q < LEVELS ==>
      r[d][q] == if d == c && q == p then l else lists[d][q]
  {
    lists[c := lists[c][p := l]]
  }

  /** The threads after t has been taken out of its list. */
  function UnlinkThread(threads: seq<Thread>, t: nat): (r: seq<Thread>)
    requires t < |threads| && threads[t].prev < |threads| && threads[t].next < |threads|
    ensures |r| == |threads|
  {
    var prev, next := threads[t].prev, threads[t].next;
    var a := if prev != 0 then threads[prev := threads[prev].(next := next)] else threads;
    var b := if next != 0 then a[next := a[next].(prev := prev)] else a;
    b[t := b[t].(next := 0, prev := 0)]
  }

  ghost function UnlinkPos(threads: seq<Thread>, pos: seq<int>, t: nat): (r: seq<int>)
    requires t < |threads| == |pos|
    ensures |r| == |pos|
  {
    seq(|pos|, u requires 0 <= u < |pos| =>
      if u == t then -1
      else if threads[u].cpuQueue == threads[t].cpuQueue && threads[u].priority == threads[t].priority &&
        pos[u] > pos[t]
      then pos[u] - 1 else pos[u])
  }

  ghost predicate Queued(threads: seq<Thread>, pos: seq<int>, t: nat) {
    t < |threads| && t < |pos| && pos[t] >= 0
  }

  ghost function UnlinkLists(threads: seq<Thread>, lists: Lists, pos: seq<int>, t: nat): (r: Lists)
    requires Links(threads, lists, pos) && Queued(threads, pos, t)
    ensures ListsOk(r) && |r| == |lists|
  {
    assert PlaceOk(threads, lists, pos, t);
    var c, p := threads[t].cpuQueue, threads[t].priority;
    SetList(lists, c, p, RemoveAt(lists[c][p], pos[t]))
  }

  lemma NeighboursInRange(threads: seq<Thread>, lists: Lists, pos: seq<int>, t: nat)
    requires Links(threads, lists, pos) && t < |threads|
    ensures threads[t].prev < |threads| && threads[t].next < |threads|
    ensures Queued(threads, pos, t) ==>
      var c, p := threads[t].cpuQueue, threads[t].priority;
      && c < |lists| && p < LEVELS && pos[t] < |lists[c][p]| && lists[c][p][pos[t]] == t && t > 0
      && NodeOk(threads, lists, pos, c, p, pos[t])
      && (pos[t] > 0 ==> NodeOk(threads, lists, pos, c, p, pos[t] - 1))
      && (pos[t] < |lists[c][p]| - 1 ==> NodeOk(threads, lists, pos, c, p, pos[t] + 1))
  {
    assert PlaceOk(threads, lists, pos, t);
    if pos[t] >= 0 {
      var c, p := threads[t].cpuQueue, threads[t].priority;
      assert NodeOk(threads, lists, pos, c, p, pos[t]);
      if pos[t] > 0 { assert NodeOk(threads, lists, pos, c, p, pos[t] - 1); }
      if pos[t] < |lists[c][p]| - 1 { assert NodeOk(threads, lists, pos, c, p, pos[t] + 1); }
    }
  }

  /** What the unlinking does to every other thread: only its two neighbours change, one link each. */
  lemma UnlinkEffect(threads: seq<Thread>, lists: Lists, pos: seq<int>, t: nat, u: nat)
    requires Links(threads, lists, pos) && Queued(threads, pos, t) && Queued(threads, pos, u) && u != t
    requires threads[t].prev < |threads| && threads[t].next < |threads|
    ensures var same := threads[u].cpuQueue == threads[t].cpuQueue && threads[u].priority == threads[t].priority;
      UnlinkThread(threads, t)[u] == threads[u].(
        next := if same && pos[u] == pos[t] - 1 then threads[t].next else threads[u].next,
        prev := if same && pos[u] == pos[t] + 1 then threads[t].prev else threads[u].prev)
  {
    NeighboursInRange(threads, lists, pos, t);
    NeighboursInRange(threads, lists, pos, u);
  }

  /** A node of the queue that t leaves. */
  lemma UnlinkNodeHere(threads: seq<Thread>, lists: Lists, pos: seq<int>, t: nat, c: nat, p: nat, i: nat)
    requires Links(threads, lists, pos) && Queued(threads, pos, t)
    requires threads[t].prev < |threads| && threads[t].next < |threads|
    requires c == threads[t].cpuQueue < |lists| && p == threads[t].priority < LEVELS
    requires i < |UnlinkLists(threads, lists, pos, t)[c][p]|
    ensures NodeOk(UnlinkThread(threads, t), UnlinkLists(threads, lists, pos, t), UnlinkPos(threads, pos, t), c, p, i)
  {
    NeighboursInRange(threads, lists, pos, t);
    var j := if i >= pos[t] then i + 1 else i;
    assert NodeOk(threads, lists, pos, c, p, j);
    var l, u := UnlinkLists(threads, lists, pos, t)[c][p], lists[c][p][j];
    assert l[i] == u && u != t;
    UnlinkEffect(threads, lists, pos, t, u);
    var v := UnlinkThread(threads, t)[u];
    assert UnlinkPos(threads, pos, t)[u] == i;
    assert v.prev == (if i == 0 then 0 else l[i - 1]);
    assert v.next == (if i == |l| - 1 then 0 else l[i + 1]);
  }

  lemma UnlinkNode(threads: seq<Thread>, lists: Lists, pos: seq<int>, t: nat, c: nat, p: nat, i: nat)
    requires Links(threads, lists, pos) && Queued(threads, pos, t)
    requires threads[t].prev < |threads| && threads[t].next < |threads|
    requires c < |lists| && p < LEVELS && i < |UnlinkLists(threads, lists, pos, t)[c][p]|
    ensures NodeOk(UnlinkThread(threads, t), UnlinkLists(threads, lists, pos, t), UnlinkPos(threads, pos, t), c, p, i)
  {
    if c == threads[t].cpuQueue && p == threads[t].priority {
      UnlinkNodeHere(threads, lists, pos, t, c, p, i);
    } else {
      NeighboursInRange(threads, lists, pos, t);
      assert NodeOk(threads, lists, pos, c, p, i);
      var u := lists[c][p][i];
      assert UnlinkLists(threads, lists, pos, t)[c][p] == lists[c][p] && u != t;
      UnlinkEffect(threads, lists, pos, t, u);
      assert UnlinkThread(threads, t)[u] == threads[u] && UnlinkPos(threads, pos, t)[u] == i;
    }
  }

  /** Taking a queued thread out of the middle, the front or the end of its list keeps every link. */
  lemma UnlinkKeepsLinks(threads: seq<Thread>, lists: Lists, pos: seq<int>, t: nat)
    requires Links(threads, lists, pos) && Queued(threads, pos, t)
    ensures threads[t].prev < |threads| && threads[t].next < |threads|
    ensures Links(UnlinkThread(threads, t), UnlinkLists(threads, lists, pos, t), UnlinkPos(threads, pos, t))
  {
    NeighboursInRange(threads, lists, pos, t);
    var threads', lists', pos' := UnlinkThread(threads, t), UnlinkLists(threads, lists, pos, t),
      UnlinkPos(threads, pos, t);
    forall c, p, i | 0 <= c < |lists'| && 0 <= p < LEVELS && 0 <= i < |lists'[c][p]|
      ensures NodeOk(threads', lists', pos', c, p, i)
    {
      UnlinkNode(threads, lists, pos, t, c, p, i);
    }
    forall u | 0 <= u < |threads'| ensures PlaceOk(threads', lists', pos', u) {
      assert PlaceOk(threads, lists, pos, u) && PlaceOk(threads, lists, pos, t);
      NeighboursInRange(threads, lists, pos, u);
    }
  }

  /** The threads after t has been put behind `tail`. */
  function AppendThread(threads: seq<Thread>, t: nat, tail: nat, c: nat): (r: seq<Thread>)
    requires t < |threads| && tail < |threads|
    ensures |r| == |threads|
  {
    var a := if tail != 0 then threads[tail := threads[tail].(next := t)] else threads;
    a[t := a[t].(prev := tail, next := 0, cpuQueue := c, state := Ready)]
  }

  function Last(l: seq<nat>): nat {
    if l == [] then 0 else l[|l| - 1]
  }

  function First(l: seq<nat>): nat {
    if l == [] then 0 else l[0]
  }

  ghost predicate Appendable(threads: seq<Thread>, lists: Lists, pos: seq<int>, t: nat, c: nat) {
    && Links(threads, lists, pos) && 0 < t < |threads| && !Queued(threads, pos, t)
    && c < |lists| && threads[t].priority < LEVELS
  }

  ghost function AppendLists(threads: seq<Thread>, lists: Lists, t: nat, c: nat): (r: Lists)
    requires ListsOk(lists) && t < |threads| && c < |lists| && threads[t].priority < LEVELS
    ensures ListsOk(r) && |r| == |lists|
  {
    var p := threads[t].priority;
    SetList(lists, c, p, lists[c][p] + [t])
  }

  lemma AppendNode(threads: seq<Thread>, lists: Lists, pos: seq<int>, t: nat, c: nat, d: nat, q: nat, i: nat)
    requires Appendable(threads, lists, pos, t, c)
    requires Last(lists[c][threads[t].priority]) < |threads|
    requires d < |lists| && q < LEVELS && i < |AppendLists(threads, lists, t, c)[d][q]|
    ensures var l := lists[c][threads[t].priority];
      NodeOk(AppendThread(threads, t, Last(l), c), AppendLists(threads, lists, t, c), pos[t := |l|], d, q, i)
  {
    var p := threads[t].priority;
    var l := lists[c][p];
    if |l| > 0 { assert NodeOk(threads, lists, pos, c, p, |l| - 1); }
    if !(d == c && q == p && i == |l|) {
      assert NodeOk(threads, lists, pos, d, q, i);
      var u := lists[d][q][i];
      assert u != t;
      assert AppendLists(threads, lists, t, c)[d][q][i] == u;
      assert AppendThread(threads, t, Last(l), c)[u] ==
        if |l| > 0 && u == Last(l) then threads[u].(next := t) else threads[u];
    }
  }

  /** Putting an unqueued thread at the end of a list keeps every link. */
  lemma AppendKeepsLinks(threads: seq<Thread>, lists: Lists, pos: seq<int>, t: nat, c: nat)
    requires Appendable(threads, lists, pos, t, c)
    ensures var l := lists[c][threads[t].priority];
      && Last(l) < |threads|
      && Links(AppendThread(threads, t, Last(l), c), AppendLists(threads, lists, t, c), pos[t := |l|])
  {
    var p := threads[t].priority;
    var l := lists[c][p];
    if |l| > 0 { assert NodeOk(threads, lists, pos, c, p, |l| - 1); }
    var threads', lists', pos' := AppendThread(threads, t, Last(l), c), AppendLists(threads, lists, t, c),
      pos[t := |l|];
    forall d, q, i | 0 <= d < |lists'| && 0 <= q < LEVELS && 0 <= i < |lists'[d][q]|
      ensures NodeOk(threads', lists', pos', d, q, i)
    {
      AppendNode(threads, lists, pos, t, c, d, q, i);
    }
    forall u | 0 <= u < |threads'| ensures PlaceOk(threads', lists', pos', u) {
      assert PlaceOk(threads, lists, pos, u);
    }
  }

  /** A thread on no queue may change in any way that leaves its links alone. */
  lemma EditKeepsLinks(threads: seq<Thread>, lists: Lists, pos: seq<int>, t: nat, th: Thread)
    requires Links(threads, lists, pos) && t < |threads|
    requires th.next == threads[t].next && th.prev == threads[t].prev
    requires Queued(threads, pos, t) ==>
      th.priority == threads[t].priority && th.cpuQueue == threads[t].cpuQueue && th.state == threads[t].state
    ensures Links(threads[t := th], lists, pos)
  {
    var threads' := threads[t := th];
    forall c, p, i | 0 <= c < |lists| && 0 <= p < LEVELS && 0 <= i < |lists[c][p]|
      ensures NodeOk(threads', lists, pos, c, p, i)
    {
      assert NodeOk(threads, lists, pos, c, p, i);
    }
    forall u | 0 <= u < |threads'| ensures PlaceOk(threads', lists, pos, u) {
      assert PlaceOk(threads, lists, pos, u);
    }
  }

  // ----- Counters -----

  function SumLen(ls: seq<seq<nat>>): nat {
    if ls == [] then 0 else SumLen(ls[..|ls| - 1]) + |ls[|ls| - 1]|
  }

  lemma {:induction false} SumLenUpdate(ls: seq<seq<nat>>, p: nat, l: seq<nat>)
    requires p < |ls|
    ensures SumLen(ls[p := l]) == SumLen(ls) - |ls[p]| + |l|
    decreases |ls|
  {
    var n := |ls| - 1;
    if p == n {
      assert ls[p := l][..n] == ls[..n];
    } else {
      assert ls[p := l][..n] == ls[..n][p := l];
      SumLenUpdate(ls[..n], p, l);
    }
  }

  lemma {:induction false} SumLenZeroIff(ls: seq<seq<nat>>)
    ensures SumLen(ls) == 0 <==> forall p :: 0 <= p < |ls| ==> ls[p] == []
    decreases |ls|
  {
    if ls != [] {
      SumLenZeroIff(ls[..|ls| - 1]);
      assert forall p :: 0 <= p < |ls| - 1 ==> ls[..|ls| - 1][p] == ls[p];
    }
  }

  predicate LevelOk(pcp: Pcp, ls: seq<seq<nat>>, p: nat)
    requires p < |ls| && p < |pcp.heads| && p < |pcp.tails| && p < |pcp.counts|
  {
    pcp.heads[p] == First(ls[p]) && pcp.tails[p] == Last(ls[p]) && pcp.counts[p] == |ls[p]|
  }

  predicate Shaped(pcp: Pcp) {
    && |pcp.heads| == |pcp.tails| == |pcp.counts| == LEVELS
    && |pcp.bitmap| == 4
    && forall w :: 0 <= w < 4 ==> pcp.bitmap[w] < Pow2(64)
  }

  ghost predicate Counted(pcp: Pcp, ls: seq<seq<nat>>) {
    && Shaped(pcp) && |ls| == LEVELS
    && (forall p :: 0 <= p < LEVELS ==> LevelOk(pcp, ls, p))
    && pcp.total == SumLen(ls)
  }

  /** The bitmap index agrees with the queues, except perhaps at level `hole`. */
  ghost predicate Indexed(pcp: Pcp, ls: seq<seq<nat>>, hole: int)
    requires Shaped(pcp) && |ls| == LEVELS
  {
    forall p: nat :: p < LEVELS && p != hole ==> (Test(pcp.bitmap, 64, p) <==> ls[p] != [])
  }

  ghost predicate Accounts(cpus: seq<Pcp>, lists: Lists, c0: int, hole: int) {
    && |cpus| == |lists|
    && forall c :: 0 <= c < |cpus| ==>
        Counted(cpus[c], lists[c]) && Indexed(cpus[c], lists[c], if c == c0 then hole else -1)
  }

  function UnlinkPcp(pcp: Pcp, p: nat, prev: nat, next: nat): (r: Pcp)
    requires Shaped(pcp) && p < LEVELS && pcp.counts[p] > 0 && pcp.total > 0
    ensures Shaped(r)
  {
    pcp.(heads := if prev != 0 then pcp.heads else pcp.heads[p := next],
         tails := if next != 0 then pcp.tails else pcp.tails[p := prev],
         counts := pcp.counts[p := pcp.counts[p] - 1], total := pcp.total - 1)
  }

  lemma UnlinkKeepsCounts(pcp: Pcp, ls: seq<seq<nat>>, p: nat, i: nat, prev: nat, next: nat)
    requires Counted(pcp, ls) && p < LEVELS && i < |ls[p]|
    requires prev == if i == 0 then 0 else ls[p][i - 1]
    requires next == if i == |ls[p]| - 1 then 0 else ls[p][i + 1]
    requires forall j :: 0 <= j < |ls[p]| ==> ls[p][j] != 0
    ensures pcp.counts[p] > 0 && pcp.total > 0
    ensures Counted(UnlinkPcp(pcp, p, prev, next), ls[p := RemoveAt(ls[p], i)])
    ensures Indexed(pcp, ls, p) ==> Indexed(UnlinkPcp(pcp, p, prev, next), ls[p := RemoveAt(ls[p], i)], p)
  {
    assert LevelOk(pcp, ls, p);
    SumLenUpdate(ls, p, RemoveAt(ls[p], i));
    SumLenUpdate(ls, p, []);
    var r, ls' := UnlinkPcp(pcp, p, prev, next), ls[p := RemoveAt(ls[p], i)];
    forall q | 0 <= q < LEVELS ensures LevelOk(r, ls', q) {
      assert LevelOk(pcp, ls, q);
    }
  }

  function AppendPcp(pcp: Pcp, p: nat, t: nat): (r: Pcp)
    requires Shaped(pcp) && p < LEVELS
  {
    var a := if pcp.tails[p] != 0 then pcp
             else pcp.(heads := pcp.heads[p := t], bitmap := Mark(pcp.bitmap, 64, p));
    a.(tails := a.tails[p := t], counts := a.counts[p := a.counts[p] + 1], total := a.total + 1)
  }

  lemma MarkBounded(bm: seq<nat>, p: nat, n: nat)
    requires n == 64 && p / n < |bm| && forall w :: 0 <= w < |bm| ==> bm[w] < Pow2(n)
    ensures forall w :: 0 <= w < |bm| ==> Mark(bm, n, p)[w] < Pow2(n)
  {
    UpdateBound(bm[p / n], p % n, n);
  }

  lemma {:induction false} AppendKeepsCounts(pcp: Pcp, ls: seq<seq<nat>>, p: nat, t: nat, hole: int)
    requires Counted(pcp, ls) && Indexed(pcp, ls, hole) && p < LEVELS && t != 0
    requires forall j :: 0 <= j < |ls[p]| ==> ls[p][j] != 0
    ensures Counted(AppendPcp(pcp, p, t), ls[p := ls[p] + [t]])
    ensures Indexed(AppendPcp(pcp, p, t), ls[p := ls[p] + [t]], hole)
  {
    AppendCounted(pcp, ls, p, t);
    assert LevelOk(pcp, ls, p);
    var r, ls' := AppendPcp(pcp, p, t), ls[p := ls[p] + [t]];
    forall q: nat | q < LEVELS && q != hole ensures Test(r.bitmap, 64, q) <==> ls'[q] != [] {
      TestAfterMark(pcp.bitmap, 64, p, q);
    }
  }

  lemma {:induction false} AppendCounted(pcp: Pcp, ls: seq<seq<nat>>, p: nat, t: nat)
    requires Counted(pcp, ls) && p < LEVELS && t != 0
    requires forall j :: 0 <= j < |ls[p]| ==> ls[p][j] != 0
    ensures Counted(AppendPcp(pcp, p, t), ls[p := ls[p] + [t]])
  {
    assert LevelOk(pcp, ls, p);
    SumLenUpdate(ls, p, ls[p] + [t]);
    var r, ls' := AppendPcp(pcp, p, t), ls[p := ls[p] + [t]];
    assert Shaped(r) by { MarkBounded(pcp.bitmap, p, 64); }
    assert r.total == SumLen(ls');
    forall q | 0 <= q < LEVELS ensures LevelOk(r, ls', q) {
      assert LevelOk(pcp, ls, q);
    }
  }

  lemma ClearKeepsCounts(pcp: Pcp, ls: seq<seq<nat>>, p: nat)
    requires Counted(pcp, ls) && Indexed(pcp, ls, p) && p < LEVELS
    ensures Counted(pcp.(bitmap := Unmark(pcp.bitmap, 64, p)), ls)
    ensures ls[p] == [] ==> Indexed(pcp.(bitmap := Unmark(pcp.bitmap, 64, p)), ls, -1)
  {
    UpdateBound(pcp.bitmap[p / 64], p % 64, 64);
    var r := pcp.(bitmap := Unmark(pcp.bitmap, 64, p));
    forall q | 0 <= q < LEVELS ensures LevelOk(r, ls, q) {
      assert LevelOk(pcp, ls, q);
    }
    forall q: nat | q < LEVELS && q != -1 && ls[p] == [] ensures Test(r.bitmap, 64, q) <==> ls[q] != [] {
      TestAfterUnmark(pcp.bitmap, 64, p, q);
    }
  }
}
