/** Thread retirement as a transition system over any number of CPUs and threads. A thread
    that exits becomes a zombie, is published in its CPU's retiring slot, switches away, and
    is only then finalised, by whatever runs next on that CPU; the reaper frees finalised
    threads. `stack[c]` is the stack CPU c is really executing on. */
module Retirement {

  datatype Option<T> = None | Some(value: T)

  datatype LifeState = Unused | Ready | Running | Blocked | Zombie | Terminated | Reaped

  /** Where a thread will continue: in the trampoline, in the middle of its code, or in
      thread_exit after it has finalised the CPU's slot. */
  datatype Progress = Fresh | Live | Exiting

  datatype Thread = Thread(state: LifeState, progress: Progress, waiting: bool, idle: bool)

  /** What a CPU is doing: running with interrupts on; in thread_exit with the thread a zombie;
      in thread_exit with the zombie published; or just back in schedule() from a switch. */
  datatype Phase = Run | Dying | Published | Landing

  datatype Cpu = Cpu(phase: Phase, current: nat, stack: nat, slot: Option<nat>, idle: nat)

  datatype State = State(threads: seq<Thread>, cpus: seq<Cpu>)

  datatype Step =
    | Create(t: nat)
    | ExitFinalise(c: nat)
    | ExitZombie(c: nat)
    | ExitPublish(c: nat, next: nat)
    | Switch(c: nat)
    | Land(c: nat)
    | Schedule(c: nat, next: nat, block: bool)
    | IdleFinalise(c: nat)
    | Wake(t: nat)
    | Kill(t: nat)
    | Reap(t: nat)

  function SetState(s: State, t: nat, st: LifeState): State
    requires t < |s.threads|
  {
    s.(threads := s.threads[t := s.threads[t].(state := st)])
  }

  predicate Shaped(s: State) {
    forall c :: 0 <= c < |s.cpus| ==>
      var cpu := s.cpus[c];
      && cpu.current < |s.threads| && cpu.stack < |s.threads| && cpu.idle < |s.threads|
      && (cpu.slot.Some? ==> cpu.slot.value < |s.threads|)
  }

  /** sched_finalize_retiring on CPU c. */
  function Finalise(s: State, c: nat): State
    requires c < |s.cpus| && Shaped(s)
  {
    var cpu := s.cpus[c];
    if cpu.slot.None? then s
    else SetState(s.(cpus := s.cpus[c := cpu.(slot := None)]), cpu.slot.value, Terminated)
  }

  /** The threads pick_next can return: a ready one, or the CPU's idle thread. */
  predicate Eligible(s: State, c: nat, next: nat)
    requires c < |s.cpus|
  {
    && next < |s.threads| && next != s.cpus[c].current
    && (s.threads[next].state == Ready || next == s.cpus[c].idle)
  }

  predicate Enabled(s: State, step: Step)
    requires Shaped(s)
  {
    match step
    case Create(t) => t < |s.threads| && s.threads[t].state == Unused
    case ExitFinalise(c) =>
      && c < |s.cpus| && s.cpus[c].phase == Run
      && s.threads[s.cpus[c].current].progress == Live && !s.threads[s.cpus[c].current].idle
    case ExitZombie(c) =>
      c < |s.cpus| && s.cpus[c].phase == Run && s.threads[s.cpus[c].current].progress == Exiting
    case ExitPublish(c, next) => c < |s.cpus| && s.cpus[c].phase == Dying && Eligible(s, c, next)
    case Switch(c) => c < |s.cpus| && s.cpus[c].phase == Published
    case Land(c) => c < |s.cpus| && s.cpus[c].phase == Landing
    case Schedule(c, next, block) =>
      && c < |s.cpus| && s.cpus[c].phase == Run && Eligible(s, c, next)
      && (block ==> s.threads[s.cpus[c].current].progress == Live && !s.threads[s.cpus[c].current].idle)
    case IdleFinalise(c) => c < |s.cpus| && s.cpus[c].phase == Run && s.cpus[c].current == s.cpus[c].idle
    case Wake(t) => t < |s.threads| && s.threads[t].waiting
    case Kill(t) => t < |s.threads| && s.threads[t].state != Unused && s.threads[t].state != Reaped
    case Reap(t) => t < |s.threads| && s.threads[t].state == Terminated
  }

  /** The thread that goes off the CPU in schedule(): requeued if it was running, parked on a
      wait queue if it blocks, otherwise left as it is. */
  function Leave(th: Thread, block: bool): Thread {
    if block then th.(state := Blocked, waiting := true)
    else if th.state == Running && !th.idle then th.(state := Ready)
    else th
  }

  /** Arriving on a stack: a fresh thread starts in the trampoline, any other one returns into
      schedule() and has the finalisation before it. */
  function Arrive(s: State, c: nat, next: nat): State
    requires c < |s.cpus| && next < |s.threads|
  {
    var isNew := s.threads[next].progress == Fresh;
    State(if isNew then s.threads[next := s.threads[next].(progress := Live)] else s.threads,
      s.cpus[c := s.cpus[c].(stack := next, phase := if isNew then Run else Landing)])
  }

  function Do(s: State, step: Step): State
    requires Shaped(s) && Enabled(s, step)
  {
    match step
    case Create(t) => s.(threads := s.threads[t := Thread(Ready, Fresh, false, false)])
    case ExitFinalise(c) =>
      var f := Finalise(s, c);
      var t := f.cpus[c].current;
      f.(threads := f.threads[t := f.threads[t].(progress := Exiting)])
    case ExitZombie(c) =>
      var t := s.cpus[c].current;
      SetState(s.(cpus := s.cpus[c := s.cpus[c].(phase := Dying)]), t, Zombie)
    case ExitPublish(c, next) =>
      var cpu := s.cpus[c];
      SetState(s.(cpus := s.cpus[c := cpu.(slot := Some(cpu.current), current := next, phase := Published)]), next,
        Running)
    case Switch(c) => Arrive(s, c, s.cpus[c].current)
    case Land(c) =>
      var f := Finalise(s, c);
      f.(cpus := f.cpus[c := f.cpus[c].(phase := Run)])
    case Schedule(c, next, block) =>
      var cur := s.cpus[c].current;
      var a := s.(threads := s.threads[cur := Leave(s.threads[cur], block)],
                  cpus := s.cpus[c := s.cpus[c].(current := next)]);
      Arrive(SetState(a, next, Running), c, next)
    case IdleFinalise(c) => Finalise(s, c)
    case Wake(t) => s.(threads := s.threads[t := s.threads[t].(state := Ready, waiting := false)])
    case Kill(t) => SetState(s, t, Zombie)
    case Reap(t) => SetState(s, t, Reaped)
  }

  // ----- The invariant -----

  /** Where a thread is: on no CPU, current on CPU c, published by CPU c but still on its own
      stack, or published by CPU c and off its stack. */
  datatype Place = Off | At(c: nat) | Leaving(c: nat) | Retired(c: nat)

  predicate ThreadOk(th: Thread, p: Place) {
    && (th.state in {Unused, Ready, Terminated, Reaped} ==> p == Off)
    && (th.state in {Unused, Ready, Terminated, Reaped} ==> !th.waiting)
    && (th.waiting ==> p == Off && !th.idle)
    && (th.idle ==> (p.Off? || p.At?) && th.state !in {Unused, Ready, Terminated, Reaped} && th.progress != Exiting)
    && (th.progress == Fresh ==> p.Off? || p.At?)
    && (th.state == Running && !th.idle ==> p.At?)
    && (th.state == Blocked ==> th.waiting)
    && (p.Leaving? || p.Retired? ==> th.state == Zombie)
  }

  predicate CpuOk(s: State, place: seq<Place>, c: nat)
    requires Shaped(s) && |place| == |s.threads| && c < |s.cpus|
  {
    var cpu := s.cpus[c];
    && place[cpu.current] == At(c)
    && (cpu.phase != Published ==> cpu.stack == cpu.current && s.threads[cpu.current].progress != Fresh)
    && (cpu.phase == Published ==> cpu.slot == Some(cpu.stack) && place[cpu.stack] == Leaving(c))
    && (cpu.slot.Some? && cpu.phase != Published ==> place[cpu.slot.value] == Retired(c))
    && (cpu.phase == Dying ==>
        cpu.slot == None && !s.threads[cpu.current].idle && s.threads[cpu.current].state == Zombie)
    && (cpu.phase == Run && s.threads[cpu.current].progress == Exiting ==> cpu.slot == None)
    && s.threads[cpu.idle].idle && (place[cpu.idle] == Off || place[cpu.idle] == At(c))
  }

  /** A place is held by one thread. */
  predicate PlaceOk(s: State, t: nat, p: Place) {
    match p
    case Off => true
    case At(c) => c < |s.cpus| && s.cpus[c].current == t
    case Leaving(c) => c < |s.cpus| && s.cpus[c].phase == Published && s.cpus[c].stack == t
    case Retired(c) => c < |s.cpus| && s.cpus[c].phase != Published && s.cpus[c].slot == Some(t)
  }

  predicate OwnIdles(s: State) {
    forall c, d :: 0 <= c < d < |s.cpus| ==> s.cpus[c].idle != s.cpus[d].idle
  }

  ghost predicate Inv(s: State, place: seq<Place>) {
    && Shaped(s) && |place| == |s.threads| && OwnIdles(s)
    && (forall t :: 0 <= t < |s.threads| ==> ThreadOk(s.threads[t], place[t]) && PlaceOk(s, t, place[t]))
    && (forall c :: 0 <= c < |s.cpus| ==> CpuOk(s, place, c))
  }

  /** A thread that is finalised or freed is on no CPU's stack. */
  ghost predicate Safe(s: State) {
    forall c :: 0 <= c < |s.cpus| ==>
      s.cpus[c].stack < |s.threads| && s.threads[s.cpus[c].stack].state !in {Terminated, Reaped}
  }

  lemma InvIsSafe(s: State, place: seq<Place>)
    requires Inv(s, place)
    ensures Safe(s)
  {
    forall c | 0 <= c < |s.cpus| ensures s.threads[s.cpus[c].stack].state !in {Terminated, Reaped} {
      assert CpuOk(s, place, c);
      assert ThreadOk(s.threads[s.cpus[c].stack], place[s.cpus[c].stack]);
    }
  }

  /** How a step moves threads between places. */
  function Moved(s: State, place: seq<Place>, step: Step): (r: seq<Place>)
    requires Shaped(s) && Enabled(s, step) && |place| == |s.threads|
    ensures |r| == |place|
  {
    match step
    case ExitFinalise(c) => Vacated(s, place, c)
    case IdleFinalise(c) => Vacated(s, place, c)
    case Land(c) => Vacated(s, place, c)
    case ExitPublish(c, next) => place[s.cpus[c].current := Leaving(c)][next := At(c)]
    case Switch(c) => place[s.cpus[c].stack := Retired(c)]
    case Schedule(c, next, _) => place[s.cpus[c].current := Off][next := At(c)]
    case _ => place
  }

  function Vacated(s: State, place: seq<Place>, c: nat): (r: seq<Place>)
    requires Shaped(s) && c < |s.cpus| && |place| == |s.threads|
    ensures |r| == |place|
  {
    if s.cpus[c].slot.Some? then place[s.cpus[c].slot.value := Off] else place
  }

  lemma FinaliseKeepsThread(s: State, place: seq<Place>, c: nat, t: nat)
    requires Inv(s, place) && c < |s.cpus| && s.cpus[c].phase != Published && s.cpus[c].slot.Some? && t < |s.threads|
    ensures var s', p := Finalise(s, c), Vacated(s, place, c)[t];
      ThreadOk(s'.threads[t], p) && PlaceOk(s', t, p)
  {
    var r := s.cpus[c].slot.value;
    assert CpuOk(s, place, c) && ThreadOk(s.threads[r], place[r]);
    assert ThreadOk(s.threads[t], place[t]) && PlaceOk(s, t, place[t]);
  }

  lemma FinaliseKeepsInv(s: State, place: seq<Place>, c: nat)
    requires Inv(s, place) && c < |s.cpus| && s.cpus[c].phase != Published
    ensures Inv(Finalise(s, c), Vacated(s, place, c))
    ensures Finalise(s, c).cpus[c].slot == None
  {
    if s.cpus[c].slot.Some? {
      var s', place' := Finalise(s, c), Vacated(s, place, c);
      assert CpuOk(s, place, c);
      forall t | 0 <= t < |s'.threads| ensures ThreadOk(s'.threads[t], place'[t]) && PlaceOk(s', t, place'[t]) {
        FinaliseKeepsThread(s, place, c, t);
      }
      forall d | 0 <= d < |s'.cpus| ensures CpuOk(s', place', d) { assert CpuOk(s, place, d); }
    }
  }

  lemma PublishFacts(s: State, place: seq<Place>, c: nat, next: nat)
    requires Inv(s, place) && Enabled(s, ExitPublish(c, next))
    ensures var leaver := s.cpus[c].current;
      && CpuOk(s, place, c) && PlaceOk(s, next, place[next]) && ThreadOk(s.threads[next], place[next]) &&
          place[next] == Off
      && PlaceOk(s, leaver, place[leaver]) && ThreadOk(s.threads[leaver], place[leaver])
  {
    assert CpuOk(s, place, c) && PlaceOk(s, next, place[next]) && ThreadOk(s.threads[next], place[next]);
  }

  lemma PublishKeepsThread(s: State, place: seq<Place>, c: nat, next: nat, t: nat)
    requires Inv(s, place) && Enabled(s, ExitPublish(c, next)) && t < |s.threads|
    ensures var s' := Do(s, ExitPublish(c, next));
      && |s'.threads| == |s.threads| && ThreadOk(s'.threads[t], Moved(s, place, ExitPublish(c, next))[t])
      && PlaceOk(s', t, Moved(s, place, ExitPublish(c, next))[t])
  {
    PublishFacts(s, place, c, next);
    assert ThreadOk(s.threads[t], place[t]) && PlaceOk(s, t, place[t]);
  }

  lemma PublishKeepsCpu(s: State, place: seq<Place>, c: nat, next: nat, d: nat)
    requires Inv(s, place) && Enabled(s, ExitPublish(c, next)) && d < |s.cpus| && Shaped(Do(s, ExitPublish(c, next)))
    ensures |Do(s, ExitPublish(c, next)).cpus| == |s.cpus|
    ensures CpuOk(Do(s, ExitPublish(c, next)), Moved(s, place, ExitPublish(c, next)), d)
  {
    PublishFacts(s, place, c, next);
    assert CpuOk(s, place, d);
  }

  lemma PublishKeepsInv(s: State, place: seq<Place>, c: nat, next: nat)
    requires Inv(s, place) && Enabled(s, ExitPublish(c, next))
    ensures Inv(Do(s, ExitPublish(c, next)), Moved(s, place, ExitPublish(c, next)))
  {
    var s', place' := Do(s, ExitPublish(c, next)), Moved(s, place, ExitPublish(c, next));
    forall t | 0 <= t < |s'.threads| ensures ThreadOk(s'.threads[t], place'[t]) && PlaceOk(s', t, place'[t]) {
      PublishKeepsThread(s, place, c, next, t);
    }
    forall d | 0 <= d < |s'.cpus| ensures CpuOk(s', place', d) { PublishKeepsCpu(s, place, c, next, d); }
  }

  lemma SwitchKeepsThread(s: State, place: seq<Place>, c: nat, t: nat)
    requires Inv(s, place) && Enabled(s, Switch(c)) && t < |s.threads|
    ensures var s' := Do(s, Switch(c));
      |s'.threads| == |s.threads| && ThreadOk(s'.threads[t], Moved(s, place, Switch(c))[t]) &&
        PlaceOk(s', t, Moved(s, place, Switch(c))[t])
  {
    var next, gone := s.cpus[c].current, s.cpus[c].stack;
    assert CpuOk(s, place, c) && ThreadOk(s.threads[next], place[next]) && ThreadOk(s.threads[gone], place[gone]);
    assert ThreadOk(s.threads[t], place[t]) && PlaceOk(s, t, place[t]);
  }

  lemma SwitchKeepsCpu(s: State, place: seq<Place>, c: nat, d: nat)
    requires Inv(s, place) && Enabled(s, Switch(c)) && d < |s.cpus| && Shaped(Do(s, Switch(c)))
    ensures |Do(s, Switch(c)).cpus| == |s.cpus| && CpuOk(Do(s, Switch(c)), Moved(s, place, Switch(c)), d)
  {
    assert CpuOk(s, place, c) && CpuOk(s, place, d);
    var next, gone := s.cpus[c].current, s.cpus[c].stack;
    assert ThreadOk(s.threads[next], place[next]) && ThreadOk(s.threads[gone], place[gone]);
  }

  lemma SwitchKeepsInv(s: State, place: seq<Place>, c: nat)
    requires Inv(s, place) && Enabled(s, Switch(c))
    ensures Inv(Do(s, Switch(c)), Moved(s, place, Switch(c)))
  {
    var s', place' := Do(s, Switch(c)), Moved(s, place, Switch(c));
    forall t | 0 <= t < |s'.threads|
      ensures ThreadOk(s'.threads[t], place'[t]) && PlaceOk(s', t, place'[t])
    {
      SwitchKeepsThread(s, place, c, t);
    }
    forall d | 0 <= d < |s'.cpus| ensures CpuOk(s', place', d) { SwitchKeepsCpu(s, place, c, d); }
  }

  lemma ScheduleKeepsThread(s: State, place: seq<Place>, step: Step, t: nat)
    requires Inv(s, place) && step.Schedule? && Enabled(s, step) && t < |s.threads|
    ensures var s' := Do(s, step);
      ThreadOk(s'.threads[t], Moved(s, place, step)[t]) && PlaceOk(s', t, Moved(s, place, step)[t])
  {
    var cur := s.cpus[step.c].current;
    assert CpuOk(s, place, step.c) && ThreadOk(s.threads[cur], place[cur]);
    assert ThreadOk(s.threads[t], place[t]) && PlaceOk(s, t, place[t]);
  }

  lemma ScheduleKeepsCpu(s: State, place: seq<Place>, step: Step, d: nat)
    requires Inv(s, place) && step.Schedule? && Enabled(s, step) && d < |s.cpus|
    requires Shaped(Do(s, step))
    ensures CpuOk(Do(s, step), Moved(s, place, step), d)
  {
    var cur, next := s.cpus[step.c].current, step.next;
    assert CpuOk(s, place, step.c) && CpuOk(s, place, d);
    assert PlaceOk(s, next, place[next]) && ThreadOk(s.threads[next], place[next]);
    assert place[next] == Off && place[cur] == At(step.c);
  }

  lemma ScheduleKeepsInv(s: State, place: seq<Place>, step: Step)
    requires Inv(s, place) && step.Schedule? && Enabled(s, step)
    ensures Inv(Do(s, step), Moved(s, place, step))
  {
    var s', place' := Do(s, step), Moved(s, place, step);
    forall t | 0 <= t < |s'.threads| ensures ThreadOk(s'.threads[t], place'[t]) && PlaceOk(s', t, place'[t]) {
      ScheduleKeepsThread(s, place, step, t);
    }
    forall d | 0 <= d < |s'.cpus| ensures CpuOk(s', place', d) { ScheduleKeepsCpu(s, place, step, d); }
  }

  /** Steps that only change one thread, on or off its CPU. */
  lemma ThreadStepKeepsInv(s: State, place: seq<Place>, step: Step)
    requires Inv(s, place) && Enabled(s, step)
    requires step.Create? || step.ExitZombie? || step.Wake? || step.Kill? || step.Reap?
    ensures Inv(Do(s, step), place)
  {
    var s' := Do(s, step);
    var t := if step.ExitZombie? then s.cpus[step.c].current else step.t;
    if step.ExitZombie? { assert CpuOk(s, place, step.c); }
    assert ThreadOk(s.threads[t], place[t]);
    forall u | 0 <= u < |s'.threads| ensures ThreadOk(s'.threads[u], place[u]) && PlaceOk(s', u, place[u]) {
      assert ThreadOk(s.threads[u], place[u]) && PlaceOk(s, u, place[u]);
    }
    forall d | 0 <= d < |s'.cpus| ensures CpuOk(s', place, d) { assert CpuOk(s, place, d); }
  }

  lemma FinaliseStepKeepsCpu(s: State, place: seq<Place>, step: Step, f: State, place': seq<Place>, d: nat)
    requires Inv(s, place) && Enabled(s, step) && (step.ExitFinalise? || step.Land? || step.IdleFinalise?)
    requires f == Finalise(s, step.c) && place' == Moved(s, place, step) && Inv(f, place') && d < |f.cpus| &&
      Shaped(Do(s, step))
    ensures |Do(s, step).cpus| == |f.cpus| && CpuOk(Do(s, step), place', d)
  {
    assert CpuOk(s, place, step.c) && CpuOk(f, place', d);
  }

  lemma FinaliseStepKeepsThread(s: State, place: seq<Place>, step: Step, f: State, place': seq<Place>, t: nat)
    requires Inv(s, place) && Enabled(s, step) && (step.ExitFinalise? || step.Land? || step.IdleFinalise?)
    requires f == Finalise(s, step.c) && place' == Moved(s, place, step) && Inv(f, place') && t < |f.threads|
    requires f.cpus[step.c].slot == None && f.cpus[step.c].phase != Published
    ensures |Do(s, step).threads| == |f.threads|
    ensures ThreadOk(Do(s, step).threads[t], place'[t]) && PlaceOk(Do(s, step), t, place'[t])
  {
    assert ThreadOk(f.threads[t], place'[t]) && PlaceOk(f, t, place'[t]);
  }

  lemma FinaliseStepKeepsInv(s: State, place: seq<Place>, step: Step)
    requires Inv(s, place) && Enabled(s, step) && (step.ExitFinalise? || step.Land? || step.IdleFinalise?)
    ensures Inv(Do(s, step), Moved(s, place, step))
  {
    var c := step.c;
    assert CpuOk(s, place, c);
    FinaliseKeepsInv(s, place, c);
    var f, s', place' := Finalise(s, c), Do(s, step), Moved(s, place, step);
    forall t | 0 <= t < |s'.threads| ensures ThreadOk(s'.threads[t], place'[t]) && PlaceOk(s', t, place'[t]) {
      FinaliseStepKeepsThread(s, place, step, f, place', t);
    }
    forall d | 0 <= d < |s'.cpus| ensures CpuOk(s', place', d) { FinaliseStepKeepsCpu(s, place, step, f, place', d); }
  }

  lemma StepKeepsInv(s: State, place: seq<Place>, step: Step)
    requires Inv(s, place) && Enabled(s, step)
    ensures Inv(Do(s, step), Moved(s, place, step))
  {
    match step
    case ExitPublish(c, next) => PublishKeepsInv(s, place, c, next);
    case Switch(c) => SwitchKeepsInv(s, place, c);
    case Schedule(_, _, _) => ScheduleKeepsInv(s, place, step);
    case Create(_) => ThreadStepKeepsInv(s, place, step);
    case ExitZombie(_) => ThreadStepKeepsInv(s, place, step);
    case Wake(_) => ThreadStepKeepsInv(s, place, step);
    case Kill(_) => ThreadStepKeepsInv(s, place, step);
    case Reap(_) => ThreadStepKeepsInv(s, place, step);
    case _ => FinaliseStepKeepsInv(s, place, step);
  }

  // ----- Runs -----

  /** The start: each CPU runs its own idle thread and every other thread is unused. */
  ghost predicate Init(s: State, place: seq<Place>) {
    && Shaped(s) && |place| == |s.threads|
    && (forall c :: 0 <= c < |s.cpus| ==>
         var cpu := s.cpus[c];
         && cpu == Cpu(Run, cpu.idle, cpu.idle, None, cpu.idle)
         && s.threads[cpu.idle] == Thread(Running, Live, false, true) && place[cpu.idle] == At(c))
    && (forall t :: 0 <= t < |s.threads| && !s.threads[t].idle ==>
         s.threads[t] == Thread(Unused, Fresh, false, false) && place[t] == Off)
    && (forall t :: 0 <= t < |s.threads| && s.threads[t].idle ==>
         place[t].At? && place[t].c < |s.cpus| && s.cpus[place[t].c].idle == t)
  }

  lemma InitIsInv(s: State, place: seq<Place>)
    requires Init(s, place)
    ensures Inv(s, place)
  {
    forall t | 0 <= t < |s.threads| ensures ThreadOk(s.threads[t], place[t]) && PlaceOk(s, t, place[t]) {
      if s.threads[t].idle { assert s.cpus[place[t].c].idle == t; }
    }
  }

  /** A run: any interleaving of enabled steps. */
  ghost predicate IsRun(states: seq<State>, steps: seq<Step>) {
    && |states| == |steps| + 1
    && (exists place :: Init(states[0], place))
    && forall i {:trigger Follows(states, steps, i)} :: 0 <= i < |steps| ==> Follows(states, steps, i)
  }

  /** Step i is enabled and leads from state i to the next. */
  predicate Follows(states: seq<State>, steps: seq<Step>, i: nat)
    requires i < |steps| && |states| == |steps| + 1
  {
    Shaped(states[i]) && Enabled(states[i], steps[i]) && states[i + 1] == Do(states[i], steps[i])
  }

  lemma {:induction false} RunKeepsInv(states: seq<State>, steps: seq<Step>, n: nat)
    requires IsRun(states, steps) && n < |states|
    ensures exists place :: Inv(states[n], place)
    decreases n
  {
    if n == 0 {
      var place :| Init(states[0], place);
      InitIsInv(states[0], place);
    } else {
      RunKeepsInv(states, steps, n - 1);
      var place :| Inv(states[n - 1], place);
      assert Follows(states, steps, n - 1);
      StepKeepsInv(states[n - 1], place, steps[n - 1]);
    }
  }

  /** Retirement safety. At every point of every run, no CPU is on the stack of a thread that
      has been finalised or reaped. */
  lemma NeverReapedOnStack(states: seq<State>, steps: seq<Step>, n: nat)
    requires IsRun(states, steps) && n < |states|
    ensures Safe(states[n])
  {
    RunKeepsInv(states, steps, n);
    var place :| Inv(states[n], place);
    InvIsSafe(states[n], place);
  }

  /** A published thread stays in its slot until the step that finalises it, and publishing
      always finds the slot empty. */
  lemma SlotNeverOverwritten(states: seq<State>, steps: seq<Step>, n: nat, c: nat)
    requires IsRun(states, steps) && n < |steps| && c < |states[n].cpus|
    ensures |states[n + 1].cpus| == |states[n].cpus|
    ensures steps[n].ExitPublish? && steps[n].c == c ==> states[n].cpus[c].slot == None
    ensures states[n].cpus[c].slot.Some? ==>
      var t := states[n].cpus[c].slot.value;
      || states[n + 1].cpus[c].slot == Some(t)
      || (states[n + 1].cpus[c].slot == None && t < |states[n + 1].threads| &&
          states[n + 1].threads[t].state == Terminated)
  {
    RunKeepsInv(states, steps, n);
    var place :| Inv(states[n], place);
    assert CpuOk(states[n], place, c);
    assert Follows(states, steps, n);
  }

  /** A reaped thread stays reaped, so it is reaped once. */
  lemma ReapedForGood(s: State, step: Step, t: nat, place: seq<Place>)
    requires Inv(s, place) && Enabled(s, step) && t < |s.threads| && s.threads[t].state == Reaped
    ensures t < |Do(s, step).threads| && Do(s, step).threads[t].state == Reaped && step != Reap(t)
  {
    assert ThreadOk(s.threads[t], place[t]);
    if step.ExitFinalise? || step.Land? || step.IdleFinalise? || step.ExitZombie? || step.Schedule? ||
      step.ExitPublish? {
      assert CpuOk(s, place, step.c);
    }
  }

  // ----- A run that retires a thread -----

  /** Before anything happens: n CPUs on their idle threads and m unused threads. */
  function Start(n: nat, m: nat): (s: State)
    ensures |s.threads| == n + m && |s.cpus| == n
    ensures forall t :: 0 <= t < n + m ==>
      s.threads[t] == if t < n then Thread(Running, Live, false, true) else Thread(Unused, Fresh, false, false)
    ensures forall c: nat :: c < n ==> s.cpus[c] == Cpu(Run, c, c, None, c)
  {
    State(seq(n + m, t requires 0 <= t < n + m =>
            if t < n then Thread(Running, Live, false, true) else Thread(Unused, Fresh, false, false)),
          seq(n, c requires 0 <= c < n => Cpu(Run, c, c, None, c)))
  }

  /** Some run ends in s. */
  ghost predicate Reachable(s: State) {
    exists states: seq<State>, steps: seq<Step> :: IsRun(states, steps) && states[|steps|] == s
  }

  /** Runs exist for every number of CPUs and threads. */
  lemma StartReachable(n: nat, m: nat)
    ensures Reachable(Start(n, m))
  {
    var s := Start(n, m);
    var states, steps: seq<Step> := [s], [];
    var place := seq(n + m, t requires 0 <= t < n + m => if t < n then At(t) else Off);
    forall t | 0 <= t < n + m ensures s.threads[t].idle <==> t < n {}
    assert Init(states[0], place);
    assert IsRun(states, steps) && states[|steps|] == s;
  }

  lemma StepReachable(s: State, step: Step)
    requires Reachable(s) && Shaped(s) && Enabled(s, step)
    ensures Reachable(Do(s, step))
  {
    var states: seq<State>, steps: seq<Step> :| IsRun(states, steps) && states[|steps|] == s;
    var states', steps' := states + [Do(s, step)], steps + [step];
    var place :| Init(states[0], place);
    assert Init(states'[0], place);
    forall i | 0 <= i < |steps'| ensures Follows(states', steps', i) {
      if i < |steps| { assert Follows(states, steps, i); }
    }
    assert IsRun(states', steps') && states'[|steps'|] == Do(s, step);
  }

  /** One CPU, its idle thread, and one more thread. */
  function Pair(th: Thread, phase: Phase, current: nat, stack: nat, slot: Option<nat>): State {
    State([Thread(Running, Live, false, true), th], [Cpu(phase, current, stack, slot, 0)])
  }

  lemma ThreadCreated()
    ensures Reachable(Pair(Thread(Ready, Fresh, false, false), Run, 0, 0, None))
  {
    StartReachable(1, 1);
    var s := Pair(Thread(Unused, Fresh, false, false), Run, 0, 0, None);
    assert Start(1, 1) == s;
    StepReachable(s, Create(1));
    assert Do(s, Create(1)) == Pair(Thread(Ready, Fresh, false, false), Run, 0, 0, None);
  }

  lemma ThreadStarts()
    ensures Reachable(Pair(Thread(Running, Live, false, false), Run, 1, 1, None))
  {
    ThreadCreated();
    var s := Pair(Thread(Ready, Fresh, false, false), Run, 0, 0, None);
    StepReachable(s, Schedule(0, 1, false));
    assert Do(s, Schedule(0, 1, false)) == Pair(Thread(Running, Live, false, false), Run, 1, 1, None);
  }

  lemma ThreadExits()
    ensures Reachable(Pair(Thread(Running, Exiting, false, false), Run, 1, 1, None))
  {
    ThreadStarts();
    var s := Pair(Thread(Running, Live, false, false), Run, 1, 1, None);
    StepReachable(s, ExitFinalise(0));
    assert Do(s, ExitFinalise(0)) == Pair(Thread(Running, Exiting, false, false), Run, 1, 1, None);
  }

  lemma ThreadDies()
    ensures Reachable(Pair(Thread(Zombie, Exiting, false, false), Dying, 1, 1, None))
  {
    ThreadExits();
    var s := Pair(Thread(Running, Exiting, false, false), Run, 1, 1, None);
    StepReachable(s, ExitZombie(0));
    assert Do(s, ExitZombie(0)) == Pair(Thread(Zombie, Exiting, false, false), Dying, 1, 1, None);
  }

  lemma ThreadLeaves()
    ensures Reachable(Pair(Thread(Zombie, Exiting, false, false), Landing, 0, 0, Some(1)))
  {
    ThreadDies();
    var s := Pair(Thread(Zombie, Exiting, false, false), Dying, 1, 1, None);
    StepReachable(s, ExitPublish(0, 0));
    var r := Pair(Thread(Zombie, Exiting, false, false), Published, 0, 1, Some(1));
    assert Do(s, ExitPublish(0, 0)) == r;
    StepReachable(r, Switch(0));
    assert Do(r, Switch(0)) == Pair(Thread(Zombie, Exiting, false, false), Landing, 0, 0, Some(1));
  }

  /** The protocol completes: the CPU creates the thread, runs it, sees it exit, switches back to
      its idle thread, finalises it and reaps it. */
  lemma ThreadCanBeReaped()
    ensures Reachable(Pair(Thread(Reaped, Exiting, false, false), Run, 0, 0, None))
  {
    ThreadLeaves();
    var s := Pair(Thread(Zombie, Exiting, false, false), Landing, 0, 0, Some(1));
    StepReachable(s, Land(0));
    var r := Pair(Thread(Terminated, Exiting, false, false), Run, 0, 0, None);
    assert Do(s, Land(0)) == r;
    StepReachable(r, Reap(1));
    assert Do(r, Reap(1)) == Pair(Thread(Reaped, Exiting, false, false), Run, 0, 0, None);
  }
}
