/** `spin` in emu/longrun.py, timer-stepped and counted: run to the next
    deadline, then service every source, until the budget is spent. */
module Spin {
  import opened Bytes
  import opened Machine
  import opened Timers
  import opened TimerDevices
  import Ssi
  import opened SsiDevice

  /** Everything a boundary can see or change. */
  datatype World = World(guest: Guest, sources: seq<Source>, events: seq<Ssi.State>)

  /** A hook that fired while the guest ran. */
  datatype Hook =
    | DtimWrite(ch: nat)
    | SerqWrite(size: nat, value: nat)
    | CintWrite(size: nat, value: nat)
    | ForceWrite(asserted: bool)
    | ForceTaken

  /** What running the guest for some instructions did: its new state, the hooks
      that fired, and whether it stopped on an unhandled vector or an error. */
  datatype Ran = Ran(guest: Guest, hooks: seq<Hook>, halted: Option<nat>, failed: bool)

  /** The guest processor: any deterministic function of the world and a count. */
  type Exec = (World, nat) -> Ran

  datatype Stop = PcZero | Unhandled(vec: nat) | Failed | Faulted(fault: Ssi.SsiFault)

  predicate ValidWorld(w: World) {
    w.sources != [] && ValidSources(w.sources)
  }

  // ---- Hooks --------------------------------------------------------------

  function SsiHook(s: Ssi.State, h: Hook): Ssi.State {
    match h
    case DtimWrite(_) => s
    case SerqWrite(size, value) => Ssi.OnSerq(s, size, value)
    case CintWrite(size, value) => Ssi.OnCint(s, size, value)
    case ForceWrite(asserted) => Ssi.OnForce(s, asserted)
    case ForceTaken => Ssi.OnForceTaken(s)
  }

  function TimerHook(s: Source, h: Hook): (r: Source)
    ensures SameSetup(r, s) && r.next == s.next && r.fired == s.fired && r.missed == s.missed && r.now == s.now
  {
    if h.DtimWrite? then ArmWritten(s, h.ch) else s
  }

  function SsiHooks(s: Ssi.State, hooks: seq<Hook>): Ssi.State {
    if hooks == [] then s else SsiHook(SsiHooks(s, hooks[..|hooks| - 1]), hooks[|hooks| - 1])
  }

  function TimerHooks(s: Source, hooks: seq<Hook>): (r: Source)
    ensures SameSetup(r, s) && r.next == s.next && r.fired == s.fired && r.missed == s.missed && r.now == s.now
  {
    if hooks == [] then s else TimerHook(TimerHooks(s, hooks[..|hooks| - 1]), hooks[|hooks| - 1])
  }

  /** The world after the guest ran: its own state, and every hook in order. */
  function AfterRun(w: World, ran: Ran): (r: World)
    ensures |r.sources| == |w.sources| && |r.events| == |w.events|
  {
    World(ran.guest,
          seq(|w.sources|, i requires 0 <= i < |w.sources| => TimerHooks(w.sources[i], ran.hooks)),
          seq(|w.events|, i requires 0 <= i < |w.events| => SsiHooks(w.events[i], ran.hooks)))
  }

  // ---- One boundary -------------------------------------------------------

  /** The least of `n` and the steps of the first `k` events. */
  function LeastEventStep(events: seq<Ssi.State>, done: nat, n: nat, k: nat): (r: nat)
    requires k <= |events| && n >= 1
    ensures 1 <= r <= n
  {
    if k == 0 then n
    else
      var m := LeastEventStep(events, done, n, k - 1);
      match Ssi.StepOf(events[k - 1], done).1
      case None => m
      case Some(e) => Min(m, e)
  }

  /** The head of the loop: every source and event steps, the least count wins. */
  function Stepped(w: World, clock: nat): (r: (World, nat))
    requires ValidWorld(w)
    ensures r.1 >= 1 && r.0.guest == w.guest && |r.0.sources| == |w.sources| && |r.0.events| == |w.events|
    ensures ValidWorld(r.0)
  {
    hide Timers.StepOf, LeastStep, Ssi.StepOf;
    var (sources, n) := StepAll(w.guest, w.sources, clock);
    (World(w.guest, sources,
           seq(|w.events|, i requires 0 <= i < |w.events| => Ssi.StepOf(w.events[i], clock).0)),
     LeastEventStep(w.events, clock, n, |w.events|))
  }

  /** The events service in order, on one machine. */
  function ServeEvents(g: Guest, events: seq<Ssi.State>, done: nat): (r: Result<(Guest, seq<Ssi.State>), Ssi.SsiFault>)
    ensures r.Ok? ==> |r.value.1| == |events|
    decreases |events|
  {
    if events == [] then Ok((g, []))
    else
      hide Ssi.ServiceOf;
      var moved :- Ssi.ServiceOf(g, events[0], done);
      var (g1, rest) :- ServeEvents(moved.guest, events[1..], done);
      Ok((g1, [moved.ssi] + rest))
  }

  /** The tail of the loop: the clock moves, events and then timers are served. */
  function Served(w: World, clock: nat): (r: Result<World, Ssi.SsiFault>)
    requires ValidWorld(w)
    ensures r.Ok? ==> ValidWorld(r.value) && |r.value.sources| == |w.sources| && |r.value.events| == |w.events|
  {
    hide ServeEvents, ServiceAll;
    var sources := AllNow(w.sources, clock);
    var (g, events) :- ServeEvents(w.guest, w.events, clock);
    var pass := ServiceAll(g, sources, clock);
    Ok(World(pass.guest, pass.sources, events))
  }

  /** A boundary: the world, the clock, and why the run stopped, if it did. */
  datatype Boundary = Boundary(world: World, clock: nat, stop: Option<Stop>)

  /** One turn of the loop. A stop leaves the clock where it was. */
  function Turn(exec: Exec, w: World, clock: nat): (b: Boundary)
    requires ValidWorld(w)
    ensures ValidWorld(b.world) || b.stop.Some?
    ensures b.stop.None? ==> b.clock > clock
    ensures b.stop.Some? ==> b.clock == clock
  {
    if w.guest.pc == 0 then Boundary(w, clock, Some(PcZero))
    else
      hide Stepped, Served, AfterRun;
      var (w1, n) := Stepped(w, clock);
      var ran := exec(w1, n);
      var w2 := AfterRun(w1, ran);
      if ran.failed then Boundary(w2, clock, Some(Failed))
      else if ran.halted.Some? then Boundary(w2, clock, Some(Unhandled(ran.halted.value)))
      else if ran.guest.pc == 0 then Boundary(w2, clock, Some(PcZero))
      else
        AfterRunValid(w1, ran);
        match Served(w2, clock + n)
        case Err(e) => Boundary(w2, clock, Some(Faulted(e)))
        case Ok(w3) => Boundary(w3, clock + n, None)
  }

  lemma AfterRunValid(w: World, ran: Ran)
    requires ValidWorld(w)
    ensures ValidWorld(AfterRun(w, ran))
  {
  }

  /** Turns until the clock reaches `target` or the run stops. */
  function RunTo(exec: Exec, b: Boundary, target: nat): (r: Boundary)
    requires b.stop.None? ==> ValidWorld(b.world)
    ensures r.stop.None? ==> ValidWorld(r.world)
    decreases target - b.clock, if b.stop.None? then 1 else 0
  {
    if b.stop.Some? || b.clock >= target then b
    else RunTo(exec, Turn(exec, b.world, b.clock), target)
  }

  lemma TimerHooksStep(s: Source, hooks: seq<Hook>, k: nat)
    requires k <= |hooks|
    ensures TimerHooks(s, hooks[..0]) == s
    ensures k < |hooks| ==> TimerHooks(s, hooks[..k + 1]) == TimerHook(TimerHooks(s, hooks[..k]), hooks[k])
  {
    hide TimerHook;
    if k < |hooks| {
      assert hooks[..k + 1][..k] == hooks[..k];
    }
  }

  lemma SsiHooksStep(e: Ssi.State, hooks: seq<Hook>, k: nat)
    requires k <= |hooks|
    ensures SsiHooks(e, hooks[..0]) == e
    ensures k < |hooks| ==> SsiHooks(e, hooks[..k + 1]) == SsiHook(SsiHooks(e, hooks[..k]), hooks[k])
  {
    hide SsiHook;
    if k < |hooks| {
      assert hooks[..k + 1][..k] == hooks[..k];
    }
  }

  lemma AfterRunIs(w: World, ran: Ran, w1: World)
    requires w1.guest == ran.guest && |w1.sources| == |w.sources| && |w1.events| == |w.events|
    requires forall i :: 0 <= i < |w.sources| ==> w1.sources[i] == TimerHooks(w.sources[i], ran.hooks)
    requires forall i :: 0 <= i < |w.events| ==> w1.events[i] == SsiHooks(w.events[i], ran.hooks)
    ensures w1 == AfterRun(w, ran)
  {
    hide TimerHooks, SsiHooks;
    assert w1.sources == AfterRun(w, ran).sources && w1.events == AfterRun(w, ran).events;
  }

  lemma SteppedIs(w: World, clock: nat, events: seq<Ssi.State>)
    requires ValidWorld(w) && |events| == |w.events|
    requires forall i :: 0 <= i < |events| ==> events[i] == Ssi.StepOf(w.events[i], clock).0
    ensures var (sources, n) := StepAll(w.guest, w.sources, clock);
            Stepped(w, clock) == (World(w.guest, sources, events), LeastEventStep(w.events, clock, n, |w.events|))
  {
    hide StepAll, Ssi.StepOf, LeastEventStep;
    assert Stepped(w, clock).0.events == events;
  }

  /** Serving the first event and then the rest. */
  lemma ServeEventsFirst(g: Guest, events: seq<Ssi.State>, done: nat, i: nat)
    requires i <= |events|
    ensures i == |events| ==> ServeEvents(g, events[i..], done) == Ok((g, []))
    ensures i < |events| ==>
              var moved := Ssi.ServiceOf(g, events[i], done);
              ServeEvents(g, events[i..], done) ==
                if moved.Err? then Err(moved.error)
                else
                  var rest := ServeEvents(moved.value.guest, events[i + 1..], done);
                  if rest.Err? then rest else Ok((rest.value.0, [moved.value.ssi] + rest.value.1))
  {
    hide Ssi.ServiceOf;
    if i < |events| {
      assert events[i..][0] == events[i] && events[i..][1..] == events[i + 1..];
    }
  }

  /** One more turn of a run that goes on. */
  lemma RunToStep(exec: Exec, w: World, clock: nat, target: nat)
    requires ValidWorld(w)
    ensures clock >= target ==> RunTo(exec, Boundary(w, clock, None), target) == Boundary(w, clock, None)
    ensures clock < target ==>
              var b := Turn(exec, w, clock);
              RunTo(exec, Boundary(w, clock, None), target) == (if b.stop.Some? then b else RunTo(exec, b, target))
  {
    hide Turn, ValidWorld;
  }
}
