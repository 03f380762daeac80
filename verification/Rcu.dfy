/** The grace-period protocol as a transition system. Callbacks are numbered in the order of
    their call_rcu. The read and the write of rcu_quiescent_state are separate steps, several
    of which may be under way on one CPU, and the kthread polls one counter at a time. */
module Rcu {

  /** rcu_quiescent_state between reading the grace-period counter and writing it back. */
  datatype Snap = Snap(cpu: nat, value: nat)

  /** The kthread: asleep; about to record its own quiescent state; about to look at CPU i;
      running the callbacks of a finished grace period. */
  datatype Kthread = Asleep | Own | Poll(i: nat) | Running

  datatype State = State(
    calls: nat,
    pending: seq<nat>,
    inFlight: seq<nat>,
    running: seq<nat>,
    executed: seq<nat>,
    gp: nat,
    qs: seq<nat>,
    snaps: seq<Snap>,
    kthread: Kthread,
    home: nat)

  datatype Step =
    | Call
    | QsRead(c: nat)
    | QsWrite(k: nat)
    | Start
    | OwnQs
    | Look
    | Collect
    | Execute
    | Sleep

  predicate Shaped(s: State) {
    s.home < |s.qs| && forall k :: 0 <= k < |s.snaps| ==> s.snaps[k].cpu < |s.qs|
  }

  predicate Enabled(s: State, step: Step) {
    match step
    case Call => true
    case QsRead(c) => c < |s.qs|
    case QsWrite(k) => k < |s.snaps|
    case Start => s.kthread == Asleep && s.pending != []
    case OwnQs => s.kthread == Own
    case Look => s.kthread.Poll? && s.kthread.i < |s.qs|
    case Collect => s.kthread.Poll? && s.kthread.i == |s.qs|
    case Execute => s.kthread == Running && s.running != []
    case Sleep => s.kthread == Running && s.running == []
  }

  function Do(s: State, step: Step): State
    requires Shaped(s) && Enabled(s, step)
  {
    match step
    case Call => s.(pending := [s.calls] + s.pending, calls := s.calls + 1)
    case QsRead(c) => s.(snaps := s.snaps + [Snap(c, s.gp)])
    case QsWrite(k) =>
      s.(qs := s.qs[s.snaps[k].cpu := s.snaps[k].value], snaps := s.snaps[..k] + s.snaps[k + 1..])
    case Start => s.(inFlight := s.pending, pending := [], gp := s.gp + 1, kthread := Own)
    case OwnQs => s.(qs := s.qs[s.home := s.gp], kthread := Poll(0))
    case Look => s.(kthread := if s.qs[s.kthread.i] < s.gp then Poll(0) else Poll(s.kthread.i + 1))
    case Collect => s.(running := s.inFlight, inFlight := [], kthread := Running)
    case Execute => s.(executed := s.executed + [s.running[0]], running := s.running[1..])
    case Sleep => s.(kthread := Asleep)
  }

  predicate Init(s: State) {
    && s.calls == 0 && s.pending == s.inFlight == s.running == s.executed == [] && s.snaps == []
    && s.gp == 0 && s.kthread == Asleep && s.home < |s.qs|
    && forall c :: 0 <= c < |s.qs| ==> s.qs[c] == 0
  }

  /** A run: any interleaving of the CPUs' steps and the kthread's. */
  ghost predicate IsRun(states: seq<State>, steps: seq<Step>) {
    && |states| == |steps| + 1 && Init(states[0])
    && forall i {:trigger Follows(states, steps, i)} :: 0 <= i < |steps| ==> Follows(states, steps, i)
  }

  /** Step i is enabled and leads from state i to the next. */
  predicate Follows(states: seq<State>, steps: seq<Step>, i: nat)
    requires i < |steps| && |states| == |steps| + 1
  {
    Shaped(states[i]) && Enabled(states[i], steps[i]) && states[i + 1] == Do(states[i], steps[i])
  }

  // ----- Quiescent states of a run -----

  /** Step j of the run is a quiescent state of CPU c: it reads the counter in
      rcu_quiescent_state, or it is the kthread's own. */
  predicate Quiescent(s: State, step: Step, c: nat) {
    step == QsRead(c) || (step == OwnQs && s.home == c)
  }

  /** Before step n, CPU c passed a quiescent state when callback cb was already enqueued. */
  ghost predicate Passed(states: seq<State>, steps: seq<Step>, n: nat, cb: nat, c: nat)
    requires |states| == |steps| + 1
  {
    exists j :: 0 <= j < n && j < |steps| && Quiescent(states[j], steps[j], c) && cb < states[j].calls
  }

  ghost predicate AllPassed(states: seq<State>, steps: seq<Step>, n: nat, cbs: seq<nat>, c: nat)
    requires |states| == |steps| + 1
  {
    forall i :: 0 <= i < |cbs| ==> Passed(states, steps, n, cbs[i], c)
  }

  predicate Known(s: State, cbs: seq<nat>) {
    forall i :: 0 <= i < |cbs| ==> cbs[i] < s.calls
  }

  /** The callbacks of the grace period in progress. */
  function Batch(s: State): seq<nat> {
    s.inFlight + s.running
  }

  /** The protocol's invariant, with P the CPUs that have been quiescent since the grace period
      began. A counter that has caught up, or is about to, vouches for its CPU. */
  ghost predicate Inv(s: State, P: set<nat>) {
    && Shaped(s) && Known(s, s.pending) && Known(s, s.inFlight) && Known(s, s.running)
    && (s.kthread == Asleep ==> s.inFlight == s.running == [])
    && (s.kthread == Own || s.kthread.Poll? ==> s.running == [])
    && (s.kthread == Running ==> s.inFlight == [] && forall c :: 0 <= c < |s.qs| ==> c in P)
    && (forall k :: 0 <= k < |s.snaps| ==>
        s.snaps[k].value <= s.gp && (s.snaps[k].value == s.gp ==> s.snaps[k].cpu in P))
    && (forall c :: 0 <= c < |s.qs| ==> s.qs[c] <= s.gp && (s.qs[c] == s.gp ==> c in P))
    && (s.kthread.Poll? ==> s.kthread.i <= |s.qs| && forall c :: 0 <= c < s.kthread.i ==> c in P)
  }

  function Since(s: State, P: set<nat>, step: Step): set<nat> {
    match step
    case Start => {}
    case QsRead(c) => P + {c}
    case OwnQs => P + {s.home}
    case _ => P
  }

  lemma StepKeepsInv(s: State, P: set<nat>, step: Step)
    requires Inv(s, P) && Enabled(s, step)
    ensures Inv(Do(s, step), Since(s, P, step))
  {
    if step.QsWrite? {
      QsWriteKeepsInv(s, P, step);
    } else if step.QsRead? {
      QsReadKeepsInv(s, P, step);
    }
  }

  lemma QsReadKeepsInv(s: State, P: set<nat>, step: Step)
    requires Inv(s, P) && Enabled(s, step) && step.QsRead?
    ensures Inv(Do(s, step), Since(s, P, step))
  {
    var s' := Do(s, step);
    assert forall k :: 0 <= k < |s'.snaps| ==> s'.snaps[k] == if k < |s.snaps| then s.snaps[k] else Snap(step.c, s.gp);
  }

  lemma QsWriteKeepsInv(s: State, P: set<nat>, step: Step)
    requires Inv(s, P) && Enabled(s, step) && step.QsWrite?
    ensures Inv(Do(s, step), Since(s, P, step))
  {
    var s' := Do(s, step);
    assert forall k :: 0 <= k < |s'.snaps| ==> s'.snaps[k] == s.snaps[if k < step.k then k else k + 1];
  }

  /** P is justified by the run: each of its CPUs was quiescent after every callback of the
      batch had been enqueued. */
  ghost predicate Justified(states: seq<State>, steps: seq<Step>, n: nat, P: set<nat>)
    requires |states| == |steps| + 1 && n < |states|
  {
    forall c :: c in P ==> AllPassed(states, steps, n, Batch(states[n]), c)
  }

  lemma PassedStays(states: seq<State>, steps: seq<Step>, n: nat, cbs: seq<nat>, cbs': seq<nat>, c: nat)
    requires |states| == |steps| + 1 && AllPassed(states, steps, n, cbs, c)
    requires forall i :: 0 <= i < |cbs'| ==> cbs'[i] in cbs
    ensures AllPassed(states, steps, n + 1, cbs', c)
  {
    forall i | 0 <= i < |cbs'| ensures Passed(states, steps, n + 1, cbs'[i], c) {
      var k :| 0 <= k < |cbs| && cbs[k] == cbs'[i];
      assert Passed(states, steps, n, cbs[k], c);
    }
  }

  lemma PassedNow(states: seq<State>, steps: seq<Step>, n: nat, cbs: seq<nat>, c: nat)
    requires |states| == |steps| + 1 && n < |steps| && Known(states[n], cbs) && Quiescent(states[n], steps[n], c)
    ensures AllPassed(states, steps, n + 1, cbs, c)
  {
    forall i | 0 <= i < |cbs| ensures Passed(states, steps, n + 1, cbs[i], c) {
      assert cbs[i] < states[n].calls;
    }
  }

  lemma StepKeepsJustified(states: seq<State>, steps: seq<Step>, n: nat, P: set<nat>)
    requires IsRun(states, steps) && n < |steps| && Inv(states[n], P) && Justified(states, steps, n, P)
    ensures Justified(states, steps, n + 1, Since(states[n], P, steps[n]))
  {
    var s, step, s' := states[n], steps[n], states[n + 1];
    assert Follows(states, steps, n);
    forall c | c in Since(s, P, step) ensures AllPassed(states, steps, n + 1, Batch(s'), c) {
      if Quiescent(s, step, c) {
        PassedNow(states, steps, n, Batch(s'), c);
      } else {
        PassedStays(states, steps, n, Batch(s), Batch(s'), c);
      }
    }
  }

  lemma {:induction false} RunKeepsInv(states: seq<State>, steps: seq<Step>, n: nat) returns (P: set<nat>)
    requires IsRun(states, steps) && n < |states|
    ensures Inv(states[n], P) && Justified(states, steps, n, P)
  {
    if n == 0 {
      P := set c {:trigger states[0].qs[c]} | 0 <= c < |states[0].qs|;
      assert Batch(states[0]) == [];
    } else {
      var Q := RunKeepsInv(states, steps, n - 1);
      assert Follows(states, steps, n - 1);
      StepKeepsInv(states[n - 1], Q, steps[n - 1]);
      StepKeepsJustified(states, steps, n - 1, Q);
      P := Since(states[n - 1], Q, steps[n - 1]);
    }
  }

  /** A callback in the system was put there by a call_rcu step. */
  lemma {:induction false} CallHappened(states: seq<State>, steps: seq<Step>, n: nat, cb: nat)
    requires IsRun(states, steps) && n < |states| && cb < states[n].calls
    ensures exists i :: 0 <= i < n && steps[i] == Call && states[i].calls == cb
  {
    assert Follows(states, steps, n - 1);
    if cb < states[n - 1].calls { CallHappened(states, steps, n - 1, cb); }
  }

  /** The grace period. Whenever a callback runs, every CPU has passed a quiescent state after
      the call_rcu that enqueued it. */
  lemma GracePeriod(states: seq<State>, steps: seq<Step>, n: nat, c: nat)
    requires IsRun(states, steps) && n < |steps| && steps[n] == Execute && c < |states[n].qs|
    ensures states[n].running != []
    ensures exists i, j :: (0 <= i < j < n && steps[i] == Call && states[i].calls == states[n].running[0]
      && Quiescent(states[j], steps[j], c))
  {
    var P := RunKeepsInv(states, steps, n);
    var s := states[n];
    assert Follows(states, steps, n);
    assert AllPassed(states, steps, n, Batch(s), c) && Batch(s)[0] == s.running[0];
    assert Passed(states, steps, n, Batch(s)[0], c);
    var j :| 0 <= j < n && Quiescent(states[j], steps[j], c) && s.running[0] < states[j].calls;
    CallHappened(states, steps, j, s.running[0]);
  }

  // ----- Conservation -----

  /** How often a callback occurs in the four lists. */
  ghost function Count(s: State, cb: nat): nat {
    multiset(s.pending)[cb] + multiset(s.inFlight)[cb] + multiset(s.running)[cb] + multiset(s.executed)[cb]
  }

  ghost predicate Once(s: State) {
    forall cb: nat :: Count(s, cb) == if cb < s.calls then 1 else 0
  }

  lemma StepKeepsOnce(s: State, step: Step)
    requires Shaped(s) && Enabled(s, step) && Once(s) && (step == Start ==> s.inFlight == [])
    requires step == Collect ==> s.running == []
    ensures Once(Do(s, step))
  {
    var s' := Do(s, step);
    if step == Call {
      assert multiset(s'.pending) == multiset{s.calls} + multiset(s.pending);
    } else if step == Execute {
      assert s.running == [s.running[0]] + s.running[1..];
      assert multiset(s.running) == multiset{s.running[0]} + multiset(s'.running);
      assert multiset(s'.executed) == multiset(s.executed) + multiset{s.running[0]};
    }
    forall cb: nat ensures Count(s', cb) == if cb < s'.calls then 1 else 0 {
      assert Count(s, cb) == if cb < s.calls then 1 else 0;
    }
  }

  /** Every enqueued callback is, at every point of every run, in exactly one of the four
      lists and there once; so it runs at most once. */
  lemma {:induction false} ExactlyOnce(states: seq<State>, steps: seq<Step>, n: nat)
    requires IsRun(states, steps) && n < |states|
    ensures Once(states[n])
  {
    if n > 0 {
      ExactlyOnce(states, steps, n - 1);
      var P := RunKeepsInv(states, steps, n - 1);
      assert Follows(states, steps, n - 1);
      StepKeepsOnce(states[n - 1], steps[n - 1]);
    }
  }

  /** No two Execute steps of a run execute the same callback. */
  lemma RunsAtMostOnce(states: seq<State>, steps: seq<Step>, i: nat, j: nat)
    requires IsRun(states, steps) && i < j < |steps| && steps[i] == steps[j] == Execute
    ensures states[i].running != [] && states[j].running != []
    ensures states[i].running[0] != states[j].running[0]
  {
    assert Follows(states, steps, i) && Follows(states, steps, j);
    var cb := states[i].running[0];
    assert Follows(states, steps, i);
    assert states[i + 1].executed[|states[i].executed|] == cb;
    ExecutedStays(states, steps, i + 1, j, cb);
    ExactlyOnce(states, steps, j);
    if states[j].running[0] == cb {
      TwicePresent(states[j], cb);
    }
  }

  lemma {:induction false} ExecutedStays(states: seq<State>, steps: seq<Step>, i: nat, j: nat, cb: nat)
    requires IsRun(states, steps) && i <= j < |states| && cb in states[i].executed
    ensures cb in states[j].executed
    decreases j
  {
    if i < j {
      ExecutedStays(states, steps, i, j - 1, cb);
      assert Follows(states, steps, j - 1);
    }
  }

  lemma TwicePresent(s: State, cb: nat)
    requires cb in s.running && cb in s.executed
    ensures !Once(s)
  {
    assert multiset(s.running)[cb] >= 1 && multiset(s.executed)[cb] >= 1;
    assert Count(s, cb) >= 2;
  }

  // ----- No callback is ever stuck -----

  /** The steps take s to u, each enabled in its turn. */
  predicate Leads(s: State, steps: seq<Step>, u: State)
    decreases |steps|
  {
    if steps == [] then s == u
    else Shaped(s) && Enabled(s, steps[0]) && Leads(Do(s, steps[0]), steps[1..], u)
  }

  lemma {:induction false} LeadsOn(s: State, a: seq<Step>, u: State, b: seq<Step>, v: State)
    requires Leads(s, a, u) && Leads(u, b, v)
    ensures Leads(s, a + b, v)
    decreases |a|
  {
    if a == [] {
      assert a + b == b;
    } else {
      LeadsOn(Do(s, a[0]), a[1..], u, b, v);
      assert (a + b)[0] == a[0] && (a + b)[1..] == a[1..] + b;
    }
  }

  lemma LeadsOne(s: State, step: Step)
    requires Shaped(s) && Enabled(s, step)
    ensures Leads(s, [step], Do(s, step))
  {
    assert [step][1..] == [];
    assert Leads(Do(s, step), [], Do(s, step));
  }

  /** CPU c can always record the current grace period. */
  lemma CatchUp(s: State, c: nat) returns (steps: seq<Step>)
    requires Shaped(s) && c < |s.qs|
    ensures Leads(s, steps, s.(qs := s.qs[c := s.gp]))
  {
    var k := |s.snaps|;
    var m := Do(s, QsRead(c));
    LeadsOne(s, QsRead(c));
    LeadsOne(m, QsWrite(k));
    assert m.snaps[..k] + m.snaps[k + 1..] == s.snaps;
    assert Do(m, QsWrite(k)) == s.(qs := s.qs[c := s.gp]);
    steps := [QsRead(c)] + [QsWrite(k)];
    LeadsOn(s, [QsRead(c)], m, [QsWrite(k)], s.(qs := s.qs[c := s.gp]));
  }

  /** The counters once the first n CPUs have caught up. */
  function CaughtUp(s: State, n: nat): (r: State)
    requires n <= |s.qs|
    ensures |r.qs| == |s.qs| && forall c :: 0 <= c < |s.qs| ==> r.qs[c] == if c < n then s.gp else s.qs[c]
  {
    s.(qs := seq(|s.qs|, c requires 0 <= c < |s.qs| => if c < n then s.gp else s.qs[c]))
  }

  lemma {:induction false} AllCatchUp(s: State, n: nat) returns (steps: seq<Step>)
    requires Shaped(s) && n <= |s.qs|
    ensures Leads(s, steps, CaughtUp(s, n))
    decreases n
  {
    if n == 0 {
      assert CaughtUp(s, 0).qs == s.qs;
      return [];
    }
    var a := AllCatchUp(s, n - 1);
    var m := CaughtUp(s, n - 1);
    var b := CatchUp(m, n - 1);
    assert m.qs[n - 1 := m.gp] == CaughtUp(s, n).qs;
    LeadsOn(s, a, m, b, CaughtUp(s, n));
    return a + b;
  }

  /** With every counter caught up the poll runs to its end. */
  lemma {:induction false} PollToEnd(s: State) returns (steps: seq<Step>)
    requires Shaped(s) && s.kthread.Poll? && s.kthread.i <= |s.qs| && forall c :: 0 <= c < |s.qs| ==> s.qs[c] == s.gp
    ensures Leads(s, steps, s.(kthread := Poll(|s.qs|)))
    decreases |s.qs| - s.kthread.i
  {
    if s.kthread.i == |s.qs| { return []; }
    LeadsOne(s, Look);
    var b := PollToEnd(Do(s, Look));
    LeadsOn(s, [Look], Do(s, Look), b, s.(kthread := Poll(|s.qs|)));
    return [Look] + b;
  }

  /** A grace period in progress can end: its callbacks are then running. */
  lemma EndGrace(s: State) returns (steps: seq<Step>, u: State)
    requires Shaped(s) && (s.kthread == Own || (s.kthread.Poll? && s.kthread.i <= |s.qs|))
    ensures Leads(s, steps, u) && Shaped(u) && u.kthread == Running
    ensures u.running == s.inFlight && u.inFlight == [] && u.pending == s.pending && u.executed == s.executed
  {
    var a, m := [], s;
    if s.kthread == Own {
      a, m := [OwnQs], Do(s, OwnQs);
      LeadsOne(s, OwnQs);
    }
    var b := AllCatchUp(m, |m.qs|);
    var n := CaughtUp(m, |m.qs|);
    LeadsOn(s, a, m, b, n);
    var c := PollToEnd(n);
    var e := n.(kthread := Poll(|n.qs|));
    LeadsOn(s, a + b, n, c, e);
    LeadsOne(e, Collect);
    u := Do(e, Collect);
    LeadsOn(s, a + b + c, e, [Collect], u);
    steps := a + b + c + [Collect];
  }

  /** Running callbacks can all be executed. */
  lemma {:induction false} Drain(s: State) returns (steps: seq<Step>)
    requires Shaped(s) && s.kthread == Running
    ensures Leads(s, steps, s.(executed := s.executed + s.running, running := [], kthread := Asleep))
    decreases |s.running|
  {
    if s.running == [] {
      LeadsOne(s, Sleep);
      assert s.executed + [] == s.executed;
      return [Sleep];
    }
    LeadsOne(s, Execute);
    var m := Do(s, Execute);
    var b := Drain(m);
    assert s.running == [s.running[0]] + s.running[1..];
    assert m.executed + m.running == s.executed + s.running;
    LeadsOn(s, [Execute], m, b, s.(executed := s.executed + s.running, running := [], kthread := Asleep));
    return [Execute] + b;
  }

  /** The kthread can always get back to sleep, with everything collected executed. */
  lemma Settle(s: State, P: set<nat>) returns (steps: seq<Step>, u: State)
    requires Inv(s, P)
    ensures Leads(s, steps, u) && Shaped(u) && u.kthread == Asleep && u.pending == s.pending
    ensures u.executed == s.executed + s.running + s.inFlight
  {
    if s.kthread == Asleep {
      assert s.executed + [] + [] == s.executed;
      return [], s;
    }
    var a, m := [], s;
    if s.kthread != Running { a, m := EndGrace(s); }
    var b := Drain(m);
    u := m.(executed := m.executed + m.running, running := [], kthread := Asleep);
    LeadsOn(s, a, m, b, u);
    assert s.executed + [] + s.inFlight == s.executed + s.inFlight &&
      s.executed + s.running + [] == s.executed + s.running;
    steps := a + b;
  }

  /** From sleep the pending callbacks can all be executed. */
  lemma RunPending(s: State) returns (steps: seq<Step>, u: State)
    requires Shaped(s) && s.kthread == Asleep && s.pending != []
    ensures Leads(s, steps, u) && u.executed == s.executed + s.pending
  {
    var m := Do(s, Start);
    LeadsOne(s, Start);
    var b, n := EndGrace(m);
    LeadsOn(s, [Start], m, b, n);
    var c := Drain(n);
    u := n.(executed := n.executed + n.running, running := [], kthread := Asleep);
    LeadsOn(s, [Start] + b, n, c, u);
    steps := [Start] + b + c;
  }

  /** At every point of every run, every callback that has been enqueued has been executed or
      can be: some continuation executes it. */
  lemma NeverStuck(states: seq<State>, steps: seq<Step>, n: nat, cb: nat)
    requires IsRun(states, steps) && n < |states| && cb < states[n].calls
    ensures exists more, u :: Leads(states[n], more, u) && cb in u.executed
  {
    var s := states[n];
    ExactlyOnce(states, steps, n);
    assert Count(s, cb) == 1;
    var P := RunKeepsInv(states, steps, n);
    var a, u := Settle(s, P);
    if cb in s.pending {
      var b, v := RunPending(u);
      LeadsOn(s, a, u, b, v);
    }
  }

  // ----- The order of execution -----

  /** Every callback of a was enqueued after every one of b. */
  predicate Newer(a: seq<nat>, b: seq<nat>) {
    forall i, j :: 0 <= i < |a| && 0 <= j < |b| ==> b[j] < a[i]
  }

  predicate NewestFirst(l: seq<nat>) {
    forall i, j :: 0 <= i < j < |l| ==> l[j] < l[i]
  }

  predicate Ordered(s: State) {
    && NewestFirst(s.pending) && NewestFirst(s.inFlight) && NewestFirst(s.running)
    && Newer(s.pending, s.inFlight) && Newer(s.pending, s.running)
  }

  lemma StepKeepsOrder(s: State, P: set<nat>, step: Step)
    requires Inv(s, P) && Enabled(s, step) && Ordered(s)
    ensures Ordered(Do(s, step))
  {
    if step == Call {
      var l := [s.calls] + s.pending;
      forall i, j | 0 <= i < j < |l| ensures l[j] < l[i] { assert l[j] == s.pending[j - 1]; }
    }
  }

  /** The list that call_rcu prepends to keeps every list newest first, at every point of every run. */
  lemma {:induction false} RunKeepsOrder(states: seq<State>, steps: seq<Step>, n: nat)
    requires IsRun(states, steps) && n < |states|
    ensures Ordered(states[n])
  {
    if n > 0 {
      RunKeepsOrder(states, steps, n - 1);
      var P := RunKeepsInv(states, steps, n - 1);
      assert Follows(states, steps, n - 1);
      StepKeepsOrder(states[n - 1], P, steps[n - 1]);
    }
  }

  /** What is still to come after callback x was executed in grace period gp: in that grace
      period only older callbacks, and in later ones only newer callbacks. */
  predicate After(s: State, x: nat, gp: nat) {
    && gp <= s.gp && x < s.calls && Newer(s.pending, [x])
    && if s.gp == gp then (s.kthread == Asleep || s.kthread == Running) && s.inFlight == [] && Newer([x], s.running)
       else Newer(s.inFlight, [x]) && Newer(s.running, [x])
  }

  lemma ExecuteAfter(s: State, P: set<nat>)
    requires Inv(s, P) && Ordered(s) && Enabled(s, Execute)
    ensures After(Do(s, Execute), s.running[0], s.gp)
  {
  }

  lemma StepKeepsAfter(s: State, P: set<nat>, step: Step, x: nat, gp: nat)
    requires Inv(s, P) && Enabled(s, step) && After(s, x, gp)
    ensures After(Do(s, step), x, gp)
  {
  }

  lemma {:induction false} RunKeepsAfter(states: seq<State>, steps: seq<Step>, i: nat, j: nat)
    requires IsRun(states, steps) && i < j < |states| && steps[i] == Execute
    ensures states[i].running != [] && After(states[j], states[i].running[0], states[i].gp)
    decreases j
  {
    assert Follows(states, steps, i) && Follows(states, steps, j - 1);
    var P := RunKeepsInv(states, steps, j - 1);
    if j == i + 1 {
      RunKeepsOrder(states, steps, i);
      ExecuteAfter(states[i], P);
    } else {
      RunKeepsAfter(states, steps, i, j - 1);
      StepKeepsAfter(states[j - 1], P, steps[j - 1], states[i].running[0], states[i].gp);
    }
  }

  /** The callbacks of one grace period run newest first, and those of an earlier grace period
      are all older than those of a later one: of two callbacks, the one executed first was
      enqueued later exactly if both were executed in the same grace period. */
  lemma ExecutionOrder(states: seq<State>, steps: seq<Step>, i: nat, j: nat)
    requires IsRun(states, steps) && i < j < |steps| && steps[i] == steps[j] == Execute
    ensures states[i].running != [] && states[j].running != []
    ensures states[i].running[0] > states[j].running[0] <==> states[i].gp == states[j].gp
    ensures states[i].running[0] < states[j].running[0] <==> states[i].gp < states[j].gp
  {
    assert Follows(states, steps, j);
    RunKeepsAfter(states, steps, i, j);
    var x := [states[i].running[0]];
    assert x[0] == states[i].running[0];
  }

  /** call_rcu is possible at every point of every run: the run can go on with one, after which
      a callback that no list held before is the first of the pending ones. */
  lemma CallAnyTime(states: seq<State>, steps: seq<Step>, n: nat) returns (u: State)
    requires IsRun(states, steps) && n < |states|
    ensures IsRun(states[..n + 1] + [u], steps[..n] + [Call])
    ensures |u.pending| == |states[n].pending| + 1 && u.pending[1..] == states[n].pending
    ensures Count(states[n], u.pending[0]) == 0 && Count(u, u.pending[0]) == 1
    ensures u == states[n].(pending := u.pending, calls := u.calls)
  {
    var s := states[n];
    var P := RunKeepsInv(states, steps, n);
    u := Do(s, Call);
    var states', steps' := states[..n + 1] + [u], steps[..n] + [Call];
    forall i | 0 <= i < |steps'| ensures Follows(states', steps', i) {
      if i < n { assert Follows(states, steps, i); }
    }
    ExactlyOnce(states, steps, n);
    assert Count(s, s.calls) == 0;
    ExactlyOnce(states', steps', n + 1);
    assert Count(u, s.calls) == 1;
  }
}
