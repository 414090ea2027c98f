/** What one visit of a channel can do, and why every boundary of the scheduler is
    a deadline. */
module Deadlines {
  import opened Bytes
  import opened Machine
  import opened Timers
  import Ssi
  import opened Spin
  import NoDrift
  import SpinTheorems

  // ---- One visit ----------------------------------------------------------

  /** A visit, case by case: a timer that is off forgets its deadline, so that it
      starts afresh when it comes back; one that runs without a deadline gets one a
      period ahead and no tick; one not yet due waits; and one that is due moves to
      the next deadline ahead, one period on, or a period from now if that is past
      too, so that a backlog is dropped and never chased. */
  lemma VisitCases(g: Guest, s: Source, ch: nat, done: nat)
    requires ch < 4
    ensures var v, p, d := Serve(g, s, ch, done), Period(g, s.kind, ch, s.ips), NextOf(s, ch);
            var n := NextOf(v.source, ch);
            var due := p.Some? && d.Some? && d.value <= done as real;
            (p.None? ==> n == None) &&
            (p.Some? && d.None? ==> n == Some(done as real + p.value)) &&
            (p.Some? && d.Some? && !due ==> n == d) &&
            (due && d.value + p.value > done as real ==> n == Some(d.value + p.value)) &&
            (due && d.value + p.value <= done as real ==> n == Some(done as real + p.value)) &&
            (due && p.value > 0.0 ==> done as real < n.value <= done as real + p.value) &&
            (!due ==> v.guest == g && v.outcome == Quiet && v.source.fired == s.fired && v.source.missed == s.missed)
  {
    hide Period, Delivered;
    if Period(g, s.kind, ch, s.ips).Some? && ch in s.next {
      DeliveredNext(g, s.kind, ch, Advanced(s.next[ch], Period(g, s.kind, ch, s.ips).value, done));
    }
  }

  lemma DeliveredNext(g: Guest, kind: Kind, ch: nat, next: real)
    requires ch < 4
    ensures Delivered(g, kind, ch, next).next == Some(next)
  {
    hide Level, HasHandler, Entered, Ipl, Signalled;
  }

  /** While held a source is inert: no deadline, no tick, no register touched. */
  lemma HeldIsInert(g: Guest, s: Source, done: nat)
    requires s.held && ValidChannels(s.channels)
    ensures DeadlineOf(g, s, done) == (s, None) && ServiceOf(g, s, done) == Pass(g, s, [])
  {
  }

  /** A step takes at least one instruction and never more than the budget. */
  lemma StepWithinBudget(g: Guest, s: Source, done: nat, remaining: nat)
    requires remaining >= 1
    ensures 1 <= StepOf(g, s, done, Some(remaining)).1 <= remaining
  {
    hide DeadlineOf;
  }

  // ---- Boundaries are deadlines -------------------------------------------

  /** Some channel of the source, armed, is due by `at`. */
  ghost predicate SomeDue(s: Source, at: nat) {
    exists ch :: ch in s.channels && ch in s.next && s.next[ch] <= at as real
  }

  lemma {:induction false} DeadlineAttained(g: Guest, s: Source, chans: seq<nat>, done: nat, best: Option<real>)
    ensures var (s1, d) := DeadlineOver(g, s, chans, done, best);
            d.Some? ==> d == best || exists ch :: ch in chans && ch in s1.next && s1.next[ch] == d.value
    decreases |chans|
  {
    hide Period;
    if chans == [] {
    } else {
      var c := chans[0];
      var s1 := Armed(g, s, c, done);
      var b1 := if c in s1.next then Earlier(best, s1.next[c]) else best;
      DeadlineAttained(g, s1, chans[1..], done, b1);
      var (s2, d) := DeadlineOver(g, s1, chans[1..], done, b1);
      if c in s1.next {
        var p := Period(g, s.kind, c, s.ips).value;
        NoDrift.DeadlineKeeps(g, s1, chans[1..], done, b1, c, p);
      }
    }
  }

  /** What a source's step stops at: a deadline that is due then, or nothing, in
      which case it is the idle step or, held, the step after a recorded write. */
  lemma StepIsDue(g: Guest, s: Source, done: nat)
    requires s.arm <= (set c | c in s.channels)
    ensures var (s1, n) := StepOf(g, s, done, None);
            SomeDue(s1, done + n) || n == IDLE_STEP || (s.held && n == ARM_STEP)
  {
    hide DeadlineOver, Ceil;
    SpinTheorems.ArmShortensOnlyHeld(g, s, done);
    if !s.held {
      DeadlineAttained(g, s, s.channels, done, None);
      var (s1, d) := DeadlineOf(g, s, done);
      if d.Some? {
        NoDrift.CeilBounds(d.value - done as real);
      }
    }
  }

  lemma {:induction false} LeastAttained(g: Guest, ss: seq<Source>, done: nat, k: nat) returns (i: nat)
    requires 1 <= k <= |ss|
    ensures i < k && LeastStep(g, ss, done, k) == StepOf(g, ss[i], done, None).1
    decreases k
  {
    hide StepOf;
    if k == 1 {
      i := 0;
    } else {
      i := LeastAttained(g, ss, done, k - 1);
      if StepOf(g, ss[k - 1], done, None).1 <= LeastStep(g, ss, done, k - 1) {
        i := k - 1;
      }
    }
  }

  lemma {:induction false} LeastEventAttained(events: seq<Ssi.State>, done: nat, n: nat, k: nat) returns (i: nat)
    requires k <= |events| && n >= 1
    ensures var r := LeastEventStep(events, done, n, k);
            r == n || (i < k && Ssi.StepOf(events[i], done).1 == Some(r))
    decreases k
  {
    hide Ssi.StepOf;
    i := 0;
    if k == 0 {
    } else {
      i := LeastEventAttained(events, done, n, k - 1);
      var e := Ssi.StepOf(events[k - 1], done).1;
      if e.Some? && e.value <= LeastEventStep(events, done, n, k - 1) {
        i := k - 1;
      }
    }
  }

  lemma EventStepIsDue(s: Ssi.State, done: nat)
    ensures var (s1, n) := Ssi.StepOf(s, done);
            n.Some? <==> s.enabled != {}
    ensures var (s1, n) := Ssi.StepOf(s, done);
            n.Some? ==> s1.next.Some? && s1.next.value <= (done + n.value) as real &&
                        s1.next == (if s.next.Some? then s.next else Some(done as real + s.period))
  {
    var (s1, n) := Ssi.StepOf(s, done);
    if n.Some? {
      NoDrift.CeilBounds(s1.next.value - done as real);
    }
    hide Ceil;
  }

  /** Every recorded write is of a watched channel. */
  predicate ArmsWatched(w: World) {
    forall i :: 0 <= i < |w.sources| ==> w.sources[i].arm <= (set c | c in w.sources[i].channels)
  }

  /** Main result: the scheduler stops at deadlines only. After every step some
      channel of some source, or some request of the serial interface, is due,
      unless nothing is armed at all (the idle step) or a held source has just
      been written to. */
  lemma EveryBoundaryIsADeadline(w: World, clock: nat)
    requires ValidWorld(w) && ArmsWatched(w)
    ensures var (w1, n) := Stepped(w, clock);
            (exists i :: 0 <= i < |w1.sources| && SomeDue(w1.sources[i], clock + n)) ||
            (exists i :: 0 <= i < |w1.events| && w1.events[i].next.Some? && w1.events[i].next.value <= (clock + n) as real) ||
            n == IDLE_STEP ||
            (n == ARM_STEP && exists i :: 0 <= i < |w.sources| && w.sources[i].held)
  {
    hide StepOf, LeastStep, LeastEventStep, Ssi.StepOf, SomeDue;
    var (w1, n) := Stepped(w, clock);
    var n0 := StepAll(w.guest, w.sources, clock).1;
    var e := LeastEventAttained(w.events, clock, n0, |w.events|);
    if n == n0 {
      var i := LeastAttained(w.guest, w.sources, clock, |w.sources|);
      StepIsDue(w.guest, w.sources[i], clock);
      assert w1.sources[i] == StepOf(w.guest, w.sources[i], clock, None).0;
    } else {
      EventStepIsDue(w.events[e], clock);
      assert w1.events[e] == Ssi.StepOf(w.events[e], clock).0;
    }
  }

  // ---- Hooks --------------------------------------------------------------

  /** The hooks of a run reach the serial interface in the order they fired. */
  lemma {:induction false} HooksInOrder(s: Ssi.State, a: seq<Hook>, b: seq<Hook>)
    ensures SsiHooks(s, a + b) == SsiHooks(SsiHooks(s, a), b)
    decreases |b|
  {
    hide SsiHook;
    if b == [] {
      assert a + b == a;
    } else {
      var init := b[..|b| - 1];
      assert (a + b)[..|a + b| - 1] == a + init;
      HooksInOrder(s, a, init);
    }
  }
}
