/** The life of a thread under the retirement protocol, told thread by thread: what each step does to
    its state, where a thread that is alive can be, and that it can always be run, exit and be reaped. */
module ThreadLife {
  import opened Retirement

  // ----- What a step does to one thread -----

  /** Thread t is current on CPU c. */
  predicate Current(s: State, c: nat, t: nat) {
    c < |s.cpus| && s.cpus[c].current == t
  }

  /** The step finalises the thread in some CPU's slot, and that is t. */
  predicate Finalises(s: State, step: Step, t: nat) {
    (step.ExitFinalise? || step.Land? || step.IdleFinalise?) && step.c < |s.cpus| && s.cpus[step.c].slot == Some(t)
  }

  /** The state of thread t after a step: it starts ready, runs when a CPU chooses it, is ready again
      when it is preempted and blocked when it waits, is ready when woken, a zombie when it exits or is
      killed, terminated when its CPU has left its stack, and reaped after that. */
  function StateAfter(s: State, step: Step, t: nat): LifeState
    requires t < |s.threads|
  {
    if step == Create(t) || step == Wake(t) then Ready
    else if (step.Schedule? || step.ExitPublish?) && step.next == t then Running
    else if step.Schedule? && Current(s, step.c, t) && step.block then Blocked
    else if step.Schedule? && Current(s, step.c, t) && s.threads[t].state == Running && !s.threads[t].idle then Ready
    else if step == Kill(t) || (step.ExitZombie? && Current(s, step.c, t)) then Zombie
    else if Finalises(s, step, t) then Terminated
    else if step == Reap(t) then Reaped
    else s.threads[t].state
  }

  /** A thread waits from the step in which it blocks to the one that wakes it. */
  predicate WaitsAfter(s: State, step: Step, t: nat)
    requires t < |s.threads|
  {
    if step == Wake(t) || step == Create(t) then false
    else s.threads[t].waiting || (step.Schedule? && step.block && Current(s, step.c, t))
  }

  /** Thread t is after the step as these say. */
  ghost predicate Told(s: State, step: Step, t: nat, s': State)
    requires t < |s.threads|
  {
    && |s'.threads| == |s.threads| && |s'.cpus| == |s.cpus|
    && s'.threads[t].state == StateAfter(s, step, t) && s'.threads[t].waiting == WaitsAfter(s, step, t)
    && s'.threads[t].idle == s.threads[t].idle
  }

  lemma SwitchEffect(s: State, place: seq<Place>, step: Step, t: nat)
    requires Inv(s, place) && Enabled(s, step) && t < |s.threads|
    requires step.Schedule? || step.ExitPublish? || step.Switch?
    ensures Told(s, step, t, Do(s, step))
  {
    assert ThreadOk(s.threads[t], place[t]) && CpuOk(s, place, step.c);
  }

  lemma FinaliseEffect(s: State, place: seq<Place>, step: Step, t: nat)
    requires Inv(s, place) && Enabled(s, step) && t < |s.threads|
    requires step.ExitFinalise? || step.Land? || step.IdleFinalise?
    ensures Told(s, step, t, Do(s, step))
  {
    assert ThreadOk(s.threads[t], place[t]) && CpuOk(s, place, step.c);
  }

  lemma StepEffect(s: State, place: seq<Place>, step: Step, t: nat)
    requires Inv(s, place) && Enabled(s, step) && t < |s.threads|
    ensures Told(s, step, t, Do(s, step))
  {
    if step.Schedule? || step.ExitPublish? || step.Switch? {
      SwitchEffect(s, place, step, t);
    } else if step.ExitFinalise? || step.Land? || step.IdleFinalise? {
      FinaliseEffect(s, place, step, t);
    }
  }

  /** A CPU changes its thread only when it schedules or leaves a dying thread. */
  lemma CurrentAfter(s: State, place: seq<Place>, step: Step, c: nat)
    requires Inv(s, place) && Enabled(s, step) && c < |s.cpus|
    ensures |Do(s, step).cpus| == |s.cpus|
    ensures Do(s, step).cpus[c].current ==
      if (step.Schedule? || step.ExitPublish?) && step.c == c then step.next else s.cpus[c].current
  {
  }

  // ----- Where a living thread is -----

  predicate Alive(th: Thread) {
    !th.idle && th.state !in {Unused, Zombie, Terminated, Reaped}
  }

  /** At every point of every run a living thread is current on some CPU and running, ready, or waiting
      to be woken. */
  lemma AliveSomewhere(states: seq<State>, steps: seq<Step>, n: nat, t: nat)
    requires IsRun(states, steps) && n < |states| && t < |states[n].threads| && Alive(states[n].threads[t])
    ensures var s := states[n];
      || (s.threads[t].state == Running && exists c :: Current(s, c, t))
      || (s.threads[t].state == Ready && forall c :: !Current(s, c, t))
      || (s.threads[t].state == Blocked && s.threads[t].waiting && forall c :: !Current(s, c, t))
  {
    RunKeepsInv(states, steps, n);
    var place :| Inv(states[n], place);
    AlivePlace(states[n], place, t);
  }

  lemma AlivePlace(s: State, place: seq<Place>, t: nat)
    requires Inv(s, place) && t < |s.threads| && Alive(s.threads[t])
    ensures s.threads[t].state == Running ==> place[t].At? && Current(s, place[t].c, t)
    ensures s.threads[t].state != Running ==> place[t] == Off && forall c :: !Current(s, c, t)
    ensures s.threads[t].state in {Running, Ready, Blocked}
  {
    assert ThreadOk(s.threads[t], place[t]) && PlaceOk(s, t, place[t]);
    forall c: nat | Current(s, c, t) ensures place[t] == At(c) { assert CpuOk(s, place, c); }
  }

  // ----- What can still happen -----

  /** A run from one state to another. */
  ghost predicate Path(states: seq<State>, steps: seq<Step>, s: State, u: State) {
    && |states| == |steps| + 1 && states[0] == s && states[|steps|] == u
    && forall i {:trigger Follows(states, steps, i)} :: 0 <= i < |steps| ==> Follows(states, steps, i)
  }

  /** From s some steps lead to u. */
  ghost predicate Can(s: State, u: State) {
    exists states, steps :: Path(states, steps, s, u)
  }

  lemma CanStay(s: State)
    ensures Can(s, s)
  {
    var states, steps: seq<Step> := [s], [];
    assert Path(states, steps, s, s);
  }

  lemma CanStep(s: State, u: State, step: Step)
    requires Can(s, u) && Shaped(u) && Enabled(u, step)
    ensures Can(s, Do(u, step))
  {
    var states, steps :| Path(states, steps, s, u);
    var states', steps' := states + [Do(u, step)], steps + [step];
    forall i | 0 <= i < |steps'| ensures Follows(states', steps', i) {
      if i < |steps| { assert Follows(states, steps, i); }
    }
    assert Path(states', steps', s, Do(u, step));
  }

  /** What settling one CPU leaves alone. */
  ghost predicate Undisturbed(s: State, u: State, c: nat) {
    && |u.threads| == |s.threads| && |u.cpus| == |s.cpus| && c < |s.cpus|
    && u.cpus[c].current == s.cpus[c].current && u.cpus[c].idle == s.cpus[c].idle
    && forall t :: 0 <= t < |s.threads| && s.threads[t].state != Zombie ==>
      u.threads[t] == s.threads[t].(progress := u.threads[t].progress)
  }

  lemma SwitchUndisturbed(s: State, place: seq<Place>, c: nat)
    requires Inv(s, place) && Enabled(s, Switch(c))
    ensures Undisturbed(s, Do(s, Switch(c)), c) && Do(s, Switch(c)).cpus[c].phase in {Run, Landing}
  {
    assert CpuOk(s, place, c);
  }

  lemma LandUndisturbed(s: State, place: seq<Place>, c: nat)
    requires Inv(s, place) && Enabled(s, Land(c))
    ensures Undisturbed(s, Do(s, Land(c)), c) && Do(s, Land(c)).cpus[c].phase == Run
  {
    assert CpuOk(s, place, c);
    if s.cpus[c].slot.Some? { assert ThreadOk(s.threads[s.cpus[c].slot.value], place[s.cpus[c].slot.value]); }
  }

  /** A CPU that is not in the middle of an exit can finish its switch and be in its thread's code. */
  lemma Settles(s0: State, s: State, place: seq<Place>, c: nat) returns (u: State, p: seq<Place>)
    requires Can(s0, s) && Inv(s, place) && c < |s.cpus| && s.cpus[c].phase != Dying
    ensures Can(s0, u) && Inv(u, p) && Undisturbed(s, u, c) && u.cpus[c].phase == Run
  {
    u, p := s, place;
    if u.cpus[c].phase == Published {
      SwitchUndisturbed(u, p, c);
      u, p := Next(s0, u, p, Switch(c));
    }
    if u.cpus[c].phase == Landing {
      LandUndisturbed(u, p, c);
      u, p := Next(s0, u, p, Land(c));
    }
  }

  lemma Next(s0: State, s: State, place: seq<Place>, step: Step) returns (u: State, p: seq<Place>)
    requires Can(s0, s) && Inv(s, place) && Enabled(s, step)
    ensures u == Do(s, step) && p == Moved(s, place, step) && Can(s0, u) && Inv(u, p)
  {
    u, p := Do(s, step), Moved(s, place, step);
    CanStep(s0, s, step);
    StepKeepsInv(s, place, step);
  }

  /** A ready thread can be made current on any CPU. */
  lemma ReadyRuns(s0: State, s: State, place: seq<Place>, t: nat, c: nat) returns (u: State, p: seq<Place>)
    requires Can(s0, s) && Inv(s, place) && t < |s.threads| && s.threads[t].state == Ready && c < |s.cpus|
    ensures Can(s0, u) && Inv(u, p) && |u.threads| == |s.threads| && |u.cpus| == |s.cpus| && u.cpus[c].current == t
    ensures u.threads[t].state == Running && u.threads[t].idle == s.threads[t].idle
  {
    assert ThreadOk(s.threads[t], place[t]);
    assert CpuOk(s, place, c);
    if s.cpus[c].phase == Dying {
      StepEffect(s, place, ExitPublish(c, t), t);
      u, p := Next(s0, s, place, ExitPublish(c, t));
    } else {
      var m, q := Settles(s0, s, place, c);
      StepEffect(m, q, Schedule(c, t, false), t);
      u, p := Next(s0, m, q, Schedule(c, t, false));
    }
  }

  /** A living thread can be made current: one that waits is woken first. */
  lemma AliveRuns(s0: State, s: State, place: seq<Place>, t: nat) returns (u: State, p: seq<Place>, c: nat)
    requires Can(s0, s) && Inv(s, place) && t < |s.threads| && Alive(s.threads[t]) && |s.cpus| > 0
    ensures Can(s0, u) && Inv(u, p) && t < |u.threads| && Current(u, c, t) && u.threads[t].state == Running
    ensures !u.threads[t].idle
  {
    AlivePlace(s, place, t);
    u, p := s, place;
    if s.threads[t].state == Running { return u, p, place[t].c; }
    if s.threads[t].state == Blocked {
      assert ThreadOk(s.threads[t], place[t]);
      StepEffect(s, place, Wake(t), t);
      u, p := Next(s0, s, place, Wake(t));
    }
    c := 0;
    u, p := ReadyRuns(s0, u, p, t, c);
  }

  /** No thread is ever lost: at every point of every run, each living thread can be made current by
      some continuation. */
  lemma NeverLost(states: seq<State>, steps: seq<Step>, n: nat, t: nat)
    requires IsRun(states, steps) && n < |states| && |states[n].cpus| > 0
    requires t < |states[n].threads| && Alive(states[n].threads[t])
    ensures exists u, c :: Can(states[n], u) && Current(u, c, t) && t < |u.threads| && u.threads[t].state == Running
  {
    RunKeepsInv(states, steps, n);
    var place :| Inv(states[n], place);
    CanStay(states[n]);
    var u, _, c := AliveRuns(states[n], states[n], place, t);
    assert Can(states[n], u) && Current(u, c, t);
  }

  /** No CPU is ever stuck: it can always take a step of its own, if only to its idle thread. */
  lemma CpuNeverStuck(states: seq<State>, steps: seq<Step>, n: nat, c: nat)
    requires IsRun(states, steps) && n < |states| && c < |states[n].cpus|
    ensures Shaped(states[n])
    ensures var s := states[n];
      match s.cpus[c].phase
      case Run => Enabled(s, if s.cpus[c].current == s.cpus[c].idle then IdleFinalise(c)
        else Schedule(c, s.cpus[c].idle, false))
      case Dying => Enabled(s, ExitPublish(c, s.cpus[c].idle))
      case Published => Enabled(s, Switch(c))
      case Landing => Enabled(s, Land(c))
  {
    RunKeepsInv(states, steps, n);
    var place :| Inv(states[n], place);
    assert CpuOk(states[n], place, c);
  }

  // ----- Every living thread can exit and be reaped -----

  /** The current thread of a CPU can leave it for the idle thread. */
  lemma Exits(s0: State, s: State, place: seq<Place>, t: nat, c: nat) returns (u: State, p: seq<Place>)
    requires Can(s0, s) && Inv(s, place) && c < |s.cpus| && s.cpus[c].phase == Run && s.cpus[c].current == t
    requires !s.threads[t].idle
    ensures Can(s0, u) && Inv(u, p) && c < |u.cpus| && |u.threads| == |s.threads|
    ensures u.cpus[c].phase == Published && u.cpus[c].slot == Some(t) && u.cpus[c].current == u.cpus[c].idle
  {
    assert CpuOk(s, place, c);
    u, p := s, place;
    if u.threads[t].progress == Live { u, p := Next(s0, u, p, ExitFinalise(c)); }
    assert CpuOk(u, p, c);
    u, p := Next(s0, u, p, ExitZombie(c));
    assert CpuOk(u, p, c);
    u, p := Next(s0, u, p, ExitPublish(c, u.cpus[c].idle));
  }

  /** A published thread can be finalised and reaped. */
  lemma Retires(s0: State, s: State, place: seq<Place>, t: nat, c: nat) returns (u: State)
    requires Can(s0, s) && Inv(s, place) && c < |s.cpus| && s.cpus[c].phase == Published && s.cpus[c].slot == Some(t)
    requires s.cpus[c].current == s.cpus[c].idle && t < |s.threads|
    ensures Can(s0, u) && t < |u.threads| && u.threads[t].state == Reaped
  {
    assert CpuOk(s, place, c);
    var m, p := Next(s0, s, place, Switch(c));
    assert CpuOk(m, p, c);
    var step := if m.cpus[c].phase == Landing then Land(c) else IdleFinalise(c);
    StepEffect(m, p, step, t);
    m, p := Next(s0, m, p, step);
    StepEffect(m, p, Reap(t), t);
    m, p := Next(s0, m, p, Reap(t));
    u := m;
  }

  /** At every point of every run, each living thread can be run to its exit, finalised by the CPU it
      left, and reaped. */
  lemma CanBeReaped(states: seq<State>, steps: seq<Step>, n: nat, t: nat)
    requires IsRun(states, steps) && n < |states| && |states[n].cpus| > 0
    requires t < |states[n].threads| && Alive(states[n].threads[t])
    ensures exists u :: Can(states[n], u) && t < |u.threads| && u.threads[t].state == Reaped
  {
    var s := states[n];
    RunKeepsInv(states, steps, n);
    var place :| Inv(s, place);
    CanStay(s);
    var m, p, c := AliveRuns(s, s, place, t);
    assert CpuOk(m, p, c);
    m, p := Settles(s, m, p, c);
    m, p := Exits(s, m, p, t, c);
    var u := Retires(s, m, p, t, c);
  }
}
