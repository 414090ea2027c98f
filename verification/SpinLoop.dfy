/** The loop of `spin` over the actual objects: one machine, one set of timers,
    any number of extra event sources. */
module SpinLoop {
  import opened Bytes
  import opened Machine
  import opened Timers
  import opened TimerDevices
  import Ssi
  import opened SsiDevice
  import opened Spin

  function EventStates(es: seq<SsiDma>): (r: seq<Ssi.State>)
    reads es
    ensures |r| == |es|
    ensures forall i :: 0 <= i < |es| ==> r[i] == es[i].Current()
  {
    if es == [] then [] else [es[0].Current()] + EventStates(es[1..])
  }

  predicate ValidEvents(m: Cpu, es: seq<SsiDma>) {
    && (forall i, j :: 0 <= i < j < |es| ==> es[i] != es[j])
    && forall i :: 0 <= i < |es| ==> es[i].m == m
  }

  /** The world the objects make up. */
  function WorldOf(t: TimerSet, es: seq<SsiDma>): World
    reads t.m, t.sources, es
  {
    World(t.m.State(), States(t.sources), EventStates(es))
  }

  lemma ValidSet(t: TimerSet, es: seq<SsiDma>)
    requires t.Valid()
    ensures ValidWorld(WorldOf(t, es))
  {
  }

  /** The event half of the loop's head. */
  method StepEvents(es: seq<SsiDma>, clock: nat, n0: nat) returns (n: nat)
    requires n0 >= 1 && forall i, j :: 0 <= i < j < |es| ==> es[i] != es[j]
    modifies es
    ensures forall i :: 0 <= i < |es| ==> es[i].Current() == Ssi.StepOf(old(es[i].Current()), clock).0
    ensures n == LeastEventStep(old(EventStates(es)), clock, n0, |es|)
  {
    hide Ssi.StepOf, LeastEventStep, SsiDma.Current, EventStates;
    ghost var olds := EventStates(es);
    n := n0;
    LeastEventStepNext(olds, clock, n0, 0);
    for i := 0 to |es|
      invariant forall j :: 0 <= j < i ==> es[j].Current() == Ssi.StepOf(olds[j], clock).0
      invariant forall j :: i <= j < |es| ==> es[j].Current() == olds[j]
      invariant n == LeastEventStep(olds, clock, n0, i)
    {
      LeastEventStepNext(olds, clock, n0, i + 1);
      var e := es[i].Step(clock);
      if e.Some? {
        n := Min(n, e.value);
      }
    }
  }

  lemma LeastEventStepNext(events: seq<Ssi.State>, done: nat, n: nat, k: nat)
    requires k <= |events| && n >= 1
    ensures k == 0 ==> LeastEventStep(events, done, n, k) == n
    ensures k > 0 ==>
              var m, e := LeastEventStep(events, done, n, k - 1), Ssi.StepOf(events[k - 1], done).1;
              LeastEventStep(events, done, n, k) == if e.None? then m else Min(m, e.value)
  {
    hide Ssi.StepOf;
  }

  /** The head of the loop. */
  method StepWorld(t: TimerSet, es: seq<SsiDma>, clock: nat) returns (n: nat)
    requires t.Valid() && ValidEvents(t.m, es)
    modifies t.sources, es
    ensures ValidWorld(old(WorldOf(t, es)))
    ensures (WorldOf(t, es), n) == Stepped(old(WorldOf(t, es)), clock)
  {
    hide Ssi.StepOf, StepAll, LeastEventStep, Stepped, States, EventStates, Cpu.State, ValidWorld, ValidSources, SsiDma.Current,
         TimerSource.State;
    ghost var w := WorldOf(t, es);
    ValidSet(t, es);
    n := t.Step(clock);
    n := StepEvents(es, clock, n);
    SteppedIs(w, clock, EventStates(es));
  }

  /** One hook, on the timers. */
  method FireTimers(t: TimerSet, h: Hook)
    requires t.Valid()
    modifies t.sources
    ensures forall i :: 0 <= i < |t.sources| ==> t.sources[i].State() == TimerHook(old(t.sources[i].State()), h)
  {
    hide ArmWritten;
    for i := 0 to |t.sources|
      invariant forall j :: 0 <= j < i ==> t.sources[j].State() == TimerHook(old(t.sources[j].State()), h)
      invariant forall j :: i <= j < |t.sources| ==> t.sources[j].State() == old(t.sources[j].State())
    {
      if h.DtimWrite? {
        t.sources[i].OnWrite(h.ch);
      }
    }
  }

  method FireEvent(e: SsiDma, h: Hook)
    modifies e
    ensures e.Current() == SsiHook(old(e.Current()), h)
  {
    hide Ssi.OnSerq, Ssi.OnCint, Ssi.OnForce, Ssi.OnForceTaken;
    match h
    case DtimWrite(_) =>
    case SerqWrite(size, value) => e.WriteSerq(size, value);
    case CintWrite(size, value) => e.WriteCint(size, value);
    case ForceWrite(asserted) => e.SetForce(asserted);
    case ForceTaken => e.ForceWasTaken();
  }

  /** One hook, on the event sources. */
  method FireEvents(es: seq<SsiDma>, h: Hook)
    requires forall i, j :: 0 <= i < j < |es| ==> es[i] != es[j]
    modifies es
    ensures forall i :: 0 <= i < |es| ==> es[i].Current() == SsiHook(old(es[i].Current()), h)
  {
    hide SsiHook;
    for i := 0 to |es|
      invariant forall j :: 0 <= j < i ==> es[j].Current() == SsiHook(old(es[j].Current()), h)
      invariant forall j :: i <= j < |es| ==> es[j].Current() == old(es[j].Current())
    {
      FireEvent(es[i], h);
    }
  }

  /** The guest's run: its state, then every hook in the order they fired. */
  method ApplyRun(t: TimerSet, es: seq<SsiDma>, ran: Ran)
    requires t.Valid() && ValidEvents(t.m, es)
    modifies t.m, t.sources, es
    ensures WorldOf(t, es) == AfterRun(old(WorldOf(t, es)), ran)
  {
    hide SsiHook, TimerHook, SsiHooks, TimerHooks, AfterRun, States, EventStates, Cpu.State, TimerSource.State,
         SsiDma.Current;
    ghost var w := WorldOf(t, es);
    t.m.Become(ran.guest);
    forall i | 0 <= i < |w.sources|
      ensures TimerHooks(w.sources[i], ran.hooks[..0]) == w.sources[i]
    {
      TimerHooksStep(w.sources[i], ran.hooks, 0);
    }
    forall i | 0 <= i < |w.events|
      ensures SsiHooks(w.events[i], ran.hooks[..0]) == w.events[i]
    {
      SsiHooksStep(w.events[i], ran.hooks, 0);
    }
    for k := 0 to |ran.hooks|
      invariant t.m.State() == ran.guest
      invariant forall i :: 0 <= i < |t.sources| ==> t.sources[i].State() == TimerHooks(w.sources[i], ran.hooks[..k])
      invariant forall i :: 0 <= i < |es| ==> es[i].Current() == SsiHooks(w.events[i], ran.hooks[..k])
    {
      forall i | 0 <= i < |w.sources|
        ensures TimerHooks(w.sources[i], ran.hooks[..k + 1]) ==
                TimerHook(TimerHooks(w.sources[i], ran.hooks[..k]), ran.hooks[k])
      {
        TimerHooksStep(w.sources[i], ran.hooks, k);
      }
      forall i | 0 <= i < |w.events|
        ensures SsiHooks(w.events[i], ran.hooks[..k + 1]) == SsiHook(SsiHooks(w.events[i], ran.hooks[..k]), ran.hooks[k])
      {
        SsiHooksStep(w.events[i], ran.hooks, k);
      }
      FireTimers(t, ran.hooks[k]);
      FireEvents(es, ran.hooks[k]);
    }
    assert ran.hooks[..|ran.hooks|] == ran.hooks;
    AfterRunIs(w, ran, WorldOf(t, es));
  }

  /** The event half of the loop's tail. */
  method ServiceEvents(m: Cpu, es: seq<SsiDma>, clock: nat) returns (fault: Option<Ssi.SsiFault>)
    requires ValidEvents(m, es)
    modifies m, es
    ensures var r := ServeEvents(old(m.State()), old(EventStates(es)), clock);
            if r.Ok? then fault.None? && (m.State(), EventStates(es)) == r.value else fault == Some(r.error)
  {
    hide Ssi.ServiceOf, ServeEvents, EventStates, Cpu.State, SsiDma.Current;
    ghost var olds := EventStates(es);
    ghost var r := ServeEvents(m.State(), olds, clock);
    assert olds[0..] == olds;
    for i := 0 to |es|
      invariant forall j :: i <= j < |es| ==> es[j].Current() == olds[j]
      invariant var q := ServeEvents(m.State(), olds[i..], clock);
                if r.Err? then q.Err? && q.error == r.error
                else q.Ok? && q.value.0 == r.value.0 && q.value.1 == r.value.1[i..] &&
                     forall j :: 0 <= j < i ==> es[j].Current() == r.value.1[j]
    {
      ServeEventsFirst(m.State(), olds, clock, i);
      fault := es[i].Service(clock);
      if fault.Some? {
        return;
      }
      if r.Ok? {
        assert r.value.1[i..][0] == r.value.1[i] && r.value.1[i..][1..] == r.value.1[i + 1..];
      }
    }
    ServeEventsFirst(m.State(), olds, clock, |es|);
    if r.Ok? {
      assert EventStates(es) == r.value.1;
    }
    return None;
  }

  /** The tail of the loop. */
  method ServeWorld(t: TimerSet, es: seq<SsiDma>, clock: nat) returns (fault: Option<Ssi.SsiFault>)
    requires t.Valid() && ValidEvents(t.m, es)
    modifies t.m, t.sources, es
    ensures ValidWorld(old(WorldOf(t, es)))
    ensures var r := Served(old(WorldOf(t, es)), clock);
            if r.Ok? then fault.None? && WorldOf(t, es) == r.value else fault == Some(r.error)
  {
    hide ServeEvents, ServiceAll, AllNow, States, EventStates, Cpu.State, TimerSource.State, SsiDma.Current, Served, ValidWorld,
         ValidSources, ValidEvents;
    ValidSet(t, es);
    ghost var w := WorldOf(t, es);
    t.SetNow(clock);
    fault := ServiceEvents(t.m, es, clock);
    ServedIs(w, clock);
    if fault.None? {
      t.Service(clock);
    }
  }

  /** The tail of the loop in two passes. */
  lemma ServedIs(w: World, clock: nat)
    requires ValidWorld(w)
    ensures var r := ServeEvents(w.guest, w.events, clock);
            Served(w, clock) ==
              if r.Err? then Err(r.error)
              else
                var p := ServiceAll(r.value.0, AllNow(w.sources, clock), clock);
                Ok(World(p.guest, p.sources, r.value.1))
  {
    hide ServeEvents, ServiceAll;
  }

  /** One turn of the loop: the instructions credited, or why the run stops. */
  method TakeTurn(t: TimerSet, es: seq<SsiDma>, exec: Exec, clock: nat) returns (n: nat, stop: Option<Stop>)
    requires t.Valid() && ValidEvents(t.m, es)
    modifies t.m, t.sources, es
    ensures ValidWorld(old(WorldOf(t, es)))
    ensures var b := Turn(exec, old(WorldOf(t, es)), clock);
            stop == b.stop && (stop.None? ==> WorldOf(t, es) == b.world && clock + n == b.clock)
  {
    hide Stepped, Served, AfterRun, States, EventStates, ValidWorld, Turn, WorldOf, ValidEvents, TimerSet.Valid;
    ValidSet(t, es);
    PcIs(t, es);
    TurnIs(exec, WorldOf(t, es), clock);
    if t.m.pc == 0 {
      return 0, Some(PcZero);
    }
    n := StepWorld(t, es, clock);
    var ran := exec(WorldOf(t, es), n);
    ApplyRun(t, es, ran);
    if ran.failed {
      return 0, Some(Failed);
    }
    if ran.halted.Some? {
      return 0, Some(Unhandled(ran.halted.value));
    }
    if ran.guest.pc == 0 {
      return 0, Some(PcZero);
    }
    var fault := ServeWorld(t, es, clock + n);
    if fault.Some? {
      return 0, Some(Faulted(fault.value));
    }
    return n, None;
  }

  lemma PcIs(t: TimerSet, es: seq<SsiDma>)
    ensures WorldOf(t, es).guest.pc == t.m.pc
  {
    hide States, EventStates;
  }

  /** A turn, stage by stage. */
  lemma TurnIs(exec: Exec, w: World, clock: nat)
    requires ValidWorld(w)
    ensures var (w1, n) := Stepped(w, clock);
            var ran := exec(w1, n);
            var w2 := AfterRun(w1, ran);
            ValidWorld(w2) &&
            var served := Served(w2, clock + n);
            Turn(exec, w, clock) ==
              if w.guest.pc == 0 then Boundary(w, clock, Some(PcZero))
              else if ran.failed then Boundary(w2, clock, Some(Failed))
              else if ran.halted.Some? then Boundary(w2, clock, Some(Unhandled(ran.halted.value)))
              else if ran.guest.pc == 0 then Boundary(w2, clock, Some(PcZero))
              else if served.Err? then Boundary(w2, clock, Some(Faulted(served.error)))
              else Boundary(served.value, clock + n, None)
  {
    hide Stepped, Served, AfterRun, ValidWorld;
    var (w1, n) := Stepped(w, clock);
    AfterRunValid(w1, exec(w1, n));
  }

  /** `spin` with a budget: resume the timers' own clock, take turns until the
      budget is spent or the run stops. Returns the instructions credited. */
  method SpinFor(t: TimerSet, es: seq<SsiDma>, exec: Exec, instrs: nat) returns (done: nat, stop: Option<Stop>)
    requires t.Valid() && ValidEvents(t.m, es)
    modifies t.m, t.sources, es
    ensures ValidWorld(old(WorldOf(t, es)))
    ensures var base := old(t.sources[0].now);
            var r := RunTo(exec, Boundary(old(WorldOf(t, es)), base, None), base + instrs);
            base + done == r.clock && stop == r.stop && (stop.None? ==> WorldOf(t, es) == r.world)
  {
    hide Turn, RunTo, WorldOf, ValidWorld;
    ValidSet(t, es);
    var base := t.sources[0].now;
    ghost var r := RunTo(exec, Boundary(WorldOf(t, es), base, None), base + instrs);
    done := 0;
    while done < instrs
      invariant ValidWorld(WorldOf(t, es))
      invariant RunTo(exec, Boundary(WorldOf(t, es), base + done, None), base + instrs) == r
      decreases instrs - done
    {
      RunToStep(exec, WorldOf(t, es), base + done, base + instrs);
      var n, halt := TakeTurn(t, es, exec, base + done);
      ValidSet(t, es);
      if halt.Some? {
        return done, halt;
      }
      done := done + n;
    }
    RunToStep(exec, WorldOf(t, es), base + done, base + instrs);
    return done, None;
  }
}
