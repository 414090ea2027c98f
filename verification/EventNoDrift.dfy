/** The request cadence of the serial interface over a whole run: requests fall
    due on one grid, whatever the guest writes and whoever else is served. */
module EventNoDrift {
  import opened Bytes
  import opened Machine
  import opened Timers
  import Ssi
  import opened Spin
  import NoDrift

  /** What one service or register write never changes of a running cadence. */
  predicate Keeps(a: Ssi.State, b: Ssi.State) {
    && a.period == b.period
    && a.next == b.next
    && a.requests == b.requests
    && b.enabled <= a.enabled
  }

  // ---- One source of events -----------------------------------------------

  lemma {:induction false} HooksKeep(s: Ssi.State, hooks: seq<Hook>)
    requires s.next.Some?
    ensures Keeps(SsiHooks(s, hooks), s)
  {
    hide SsiHook;
    if hooks == [] {
    } else {
      var init := hooks[..|hooks| - 1];
      HooksKeep(s, init);
      HookKeeps(SsiHooks(s, init), hooks[|hooks| - 1]);
    }
  }

  lemma HookKeeps(s: Ssi.State, h: Hook)
    requires s.next.Some?
    ensures Keeps(SsiHook(s, h), s)
  {
    hide Bit;
  }

  lemma MajorKeeps(g: Guest, s: Ssi.State, ch: nat, source: u32, dest: u32, biter: u16)
    ensures var r := Ssi.MajorLoop(g, s, ch, source, dest, biter); r.Ok? ==> Keeps(r.value.1, s)
  {
    hide Bit, Load16, Load32, StoreBytes, LoadBytes, Ssi.Write16, Ssi.Write32, Ssi.Signed, Ssi.Counted,
         Ssi.Reloaded, Ssi.RaisesInterrupt;
  }

  lemma SentKeeps(s: Ssi.State, captured: seq<byte>)
    ensures Keeps(Ssi.CountSent(s, captured), s)
  {
    hide Ssi.Crc32;
  }

  lemma MinorKeeps(g: Guest, s: Ssi.State, ch: nat, capture: bool)
    ensures var r := Ssi.RunMinor(g, s, ch, capture); r.Ok? ==> Keeps(r.value.ssi, s)
  {
    hide Bit, Ssi.Walk, Ssi.Captured, Load16, Load32, Ssi.Write16, Ssi.Write32, Ssi.Signed, Ssi.RaisesInterrupt,
         Ssi.MajorLoop, Ssi.CountSent;
    forall captured {
      SentKeeps(s, captured);
    }
    forall g1, s1, source, dest, biter {
      MajorKeeps(g1, s1, ch, source, dest, biter);
    }
  }

  /** A service runs a request exactly when one is due, and moves the next one on. */
  lemma ServiceCadence(g: Guest, s: Ssi.State, done: nat)
    requires s.next.Some?
    ensures var r := Ssi.ServiceOf(g, s, done);
            r.Ok? ==>
              var s1 := r.value.ssi;
              s1.period == s.period && s.enabled <= s1.enabled &&
              if s.next.value <= done as real
              then s1.next == Some(Advanced(s.next.value, s.period, done)) && s1.requests == s.requests + 1
              else s1.next == s.next && s1.requests == s.requests
  {
    hide Ssi.RunMinor, Advanced, Level, HasHandler, Entered, Ipl;
    if s.next.value <= done as real {
      var s1 := s.(now := done).(requests := s.requests + 1);
      MinorKeeps(g, s1, Ssi.RX_CHAN, false);
      var rx := Ssi.RunMinor(g, s1, Ssi.RX_CHAN, false);
      if rx.Ok? {
        MinorKeeps(rx.value.guest, rx.value.ssi, Ssi.TX_CHAN, true);
      }
    }
  }

  lemma StepCadence(s: Ssi.State, done: nat)
    requires s.next.Some? && s.enabled != {} && s.next.value > done as real
    ensures var (s1, n) := Ssi.StepOf(s, done);
            Keeps(s1, s) && n.Some? && (done + n.value) as real < s.next.value + 1.0
  {
    NoDrift.CeilBounds(s.next.value - done as real);
    NoDrift.CeilMonotone(s.next.value - done as real, s.next.value - done as real);
    hide Ceil;
  }

  // ---- One turn -----------------------------------------------------------

  lemma {:induction false} LeastEventBelow(events: seq<Ssi.State>, done: nat, n: nat, k: nat, i: nat)
    requires i < k <= |events| && n >= 1
    ensures var e := Ssi.StepOf(events[i], done).1; e.Some? ==> LeastEventStep(events, done, n, k) <= e.value
    decreases k
  {
    hide Ssi.StepOf;
    if i == k - 1 {
    } else {
      LeastEventBelow(events, done, n, k - 1, i);
    }
  }

  /** Every source of events is served once, at some state of the guest. */
  lemma {:induction false} ServedOnce(g: Guest, events: seq<Ssi.State>, done: nat, i: nat) returns (at: Guest)
    requires i < |events| && ServeEvents(g, events, done).Ok?
    ensures var r := Ssi.ServiceOf(at, events[i], done);
            r.Ok? && ServeEvents(g, events, done).value.1[i] == r.value.ssi
    decreases i
  {
    hide Ssi.ServiceOf;
    var moved := Ssi.ServiceOf(g, events[0], done);
    if i == 0 {
      at := g;
    } else {
      at := ServedOnce(moved.value.guest, events[1..], done, i - 1);
    }
  }

  /** Up to the services of a turn the cadence is untouched, and the turn does
      not step past the instruction the request is due at. */
  lemma UntilEvents(exec: Exec, w: World, clock: nat, i: nat)
    requires ValidWorld(w) && i < |w.events|
    requires var s := w.events[i]; s.next.Some? && s.enabled != {} && s.next.value > clock as real
    ensures var (w2, n) := NoDrift.RanWorld(exec, w, clock);
            |w2.events| == |w.events| && Keeps(w2.events[i], w.events[i]) &&
            (clock + n) as real < w.events[i].next.value + 1.0
  {
    hide StepOf, LeastStep, LeastEventStep, Ssi.StepOf, TimerHooks, SsiHooks, StepAll;
    var s := w.events[i];
    StepCadence(s, clock);
    LeastEventBelow(w.events, clock, StepAll(w.guest, w.sources, clock).1, |w.events|, i);
    var (w1, n) := Stepped(w, clock);
    HooksKeep(w1.events[i], exec(w1, n).hooks);
  }

  lemma EventsOfTurn(exec: Exec, w: World, clock: nat)
    requires ValidWorld(w) && Turn(exec, w, clock).stop.None?
    ensures var b := Turn(exec, w, clock);
            var (w2, n) := NoDrift.RanWorld(exec, w, clock);
            b.clock == clock + n &&
            ServeEvents(w2.guest, w2.events, b.clock).Ok? &&
            b.world.events == ServeEvents(w2.guest, w2.events, b.clock).value.1
  {
    hide Stepped, AfterRun, ServeEvents, ServiceAll;
  }

  /** One turn: the request stays until it falls due, falls due less than one
      instruction late, runs exactly once and moves on by one period. */
  lemma EventTurn(exec: Exec, w: World, clock: nat, i: nat)
    requires ValidWorld(w) && i < |w.events| && Turn(exec, w, clock).stop.None?
    requires var s := w.events[i]; s.next.Some? && s.enabled != {} && s.next.value > clock as real && s.period >= 1.0
    ensures var b, s := Turn(exec, w, clock), w.events[i];
            i < |b.world.events| &&
            var s1 := b.world.events[i];
            s1.period == s.period && s.enabled <= s1.enabled && s1.next.Some? &&
            if (b.clock as real) < s.next.value then s1.next == s.next && s1.requests == s.requests
            else s1.next.value == s.next.value + s.period && s1.requests == s.requests + 1 &&
                 b.clock as real < s.next.value + 1.0
  {
    hide NoDrift.RanWorld, Turn, ServeEvents, Ssi.ServiceOf, ValidWorld;
    UntilEvents(exec, w, clock, i);
    EventsOfTurn(exec, w, clock);
    var (w2, n) := NoDrift.RanWorld(exec, w, clock);
    var at := ServedOnce(w2.guest, w2.events, clock + n, i);
    ServiceCadence(at, w2.events[i], clock + n);
  }

  // ---- The whole run ------------------------------------------------------

  /** The cadence is armed on the grid, `k` requests after `t0`. */
  predicate OnGrid(w: World, clock: nat, i: nat, t0: real, p: real, k: nat) {
    && i < |w.events|
    && w.events[i].enabled != {}
    && w.events[i].period == p
    && w.events[i].next == Some(NoDrift.Grid(t0, p, k + 1))
    && (k > 0 ==> NoDrift.Grid(t0, p, k) <= clock as real)
    && (clock as real) < NoDrift.Grid(t0, p, k + 1)
  }

  lemma {:induction false} RequestsFrom(exec: Exec, w: World, clock: nat, target: nat, i: nat, t0: real, p: real, k: nat)
    returns (k1: nat)
    requires ValidWorld(w) && p >= 1.0 && OnGrid(w, clock, i, t0, p, k)
    requires RunTo(exec, Boundary(w, clock, None), target).stop.None?
    ensures var r := RunTo(exec, Boundary(w, clock, None), target);
            k <= k1 && OnGrid(r.world, r.clock, i, t0, p, k1) &&
            r.world.events[i].requests == w.events[i].requests + (k1 - k)
    decreases target - clock
  {
    hide Turn, ValidWorld, NoDrift.Grid, RunTo;
    RunToStep(exec, w, clock, target);
    if clock >= target {
      k1 := k;
    } else {
      EventTurn(exec, w, clock, i);
      NoDrift.GridStep(t0, p, k);
      NoDrift.GridStep(t0, p, k + 1);
      NoDrift.TurnMoves(exec, w, clock);
      var b := Turn(exec, w, clock);
      k1 := RequestsFrom(exec, b.world, b.clock, target, i, t0, p,
                         if (b.clock as real) < w.events[i].next.value then k else k + 1);
    }
  }

  /** Main result: from any boundary where the next request lies ahead, the
      number of requests run by a later boundary is the elapsed time on the
      request grid divided by the period, rounded down. */
  lemma RequestsDoNotDrift(exec: Exec, w: World, clock: nat, target: nat, i: nat)
    requires ValidWorld(w) && i < |w.events|
    requires var s := w.events[i]; s.enabled != {} && s.period >= 1.0 && s.next.Some? && clock as real < s.next.value
    requires RunTo(exec, Boundary(w, clock, None), target).stop.None?
    ensures var r, s := RunTo(exec, Boundary(w, clock, None), target), w.events[i];
            i < |r.world.events| &&
            r.world.events[i].requests - s.requests
              == Max(0, ((r.clock as real - (s.next.value - s.period)) / s.period).Floor)
  {
    hide *;
    var s := w.events[i];
    var t0 := s.next.value - s.period;
    GridStarts(w, clock, i);
    var k := RequestsFrom(exec, w, clock, target, i, t0, s.period, 0);
    var r := RunTo(exec, Boundary(w, clock, None), target);
    GridQuotient(r.world, r.clock, i, t0, s.period, k);
  }

  lemma GridStarts(w: World, clock: nat, i: nat)
    requires i < |w.events|
    requires var s := w.events[i]; s.enabled != {} && s.next.Some? && clock as real < s.next.value
    ensures OnGrid(w, clock, i, w.events[i].next.value - w.events[i].period, w.events[i].period, 0)
  {
  }

  lemma GridQuotient(w: World, clock: nat, i: nat, t0: real, p: real, k: nat)
    requires OnGrid(w, clock, i, t0, p, k) && p > 0.0
    ensures i < |w.events| && Max(0, ((clock as real - t0) / p).Floor) == k
  {
    var x := clock as real - t0;
    if k > 0 {
      NoDrift.QuotientFloor(x, p, k);
    } else {
      assert x / p * p == x;
      NoDrift.ScaledLess(x / p, 1.0, p);
    }
  }
}
