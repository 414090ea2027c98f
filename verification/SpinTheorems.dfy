/** Splitting a budget over several `spin` calls, with or without saving and
    restoring the timers in between, visits the same boundaries as one call. */
module SpinTheorems {
  import opened Bytes
  import opened Machine
  import opened Timers
  import Ssi
  import opened Spin

  /** The boundaries a run to `target` visits, in order. */
  function Trace(exec: Exec, b: Boundary, target: nat): seq<Boundary>
    requires b.stop.None? ==> ValidWorld(b.world)
    decreases target - b.clock, if b.stop.None? then 1 else 0
  {
    if b.stop.Some? || b.clock >= target then []
    else
      hide Turn, ValidWorld;
      [Turn(exec, b.world, b.clock)] + Trace(exec, Turn(exec, b.world, b.clock), target)
  }

  lemma {:induction false} RunToIsLast(exec: Exec, b: Boundary, target: nat)
    requires b.stop.None? ==> ValidWorld(b.world)
    ensures var t := Trace(exec, b, target);
            RunTo(exec, b, target) == if t == [] then b else t[|t| - 1]
    decreases target - b.clock, if b.stop.None? then 1 else 0
  {
    hide Turn, ValidWorld;
    if b.stop.Some? || b.clock >= target {
    } else {
      RunToIsLast(exec, Turn(exec, b.world, b.clock), target);
    }
  }

  /** Running to one target and on to a later one is running to the later one. */
  lemma {:induction false} RunToCompose(exec: Exec, b: Boundary, t1: nat, t2: nat)
    requires b.stop.None? ==> ValidWorld(b.world)
    requires t1 <= t2
    ensures RunTo(exec, RunTo(exec, b, t1), t2) == RunTo(exec, b, t2)
    ensures Trace(exec, b, t2) == Trace(exec, b, t1) + Trace(exec, RunTo(exec, b, t1), t2)
    decreases t1 - b.clock, if b.stop.None? then 1 else 0
  {
    hide Turn, ValidWorld;
    if b.stop.Some? || b.clock >= t1 {
    } else {
      RunToCompose(exec, Turn(exec, b.world, b.clock), t1, t2);
    }
  }

  /** A call overshoots its target by less than its last step. */
  lemma {:induction false} Overshoot(exec: Exec, b: Boundary, target: nat)
    requires b.stop.None? ==> ValidWorld(b.world)
    requires Trace(exec, b, target) != []
    ensures var t := Trace(exec, b, target);
            var before := if |t| == 1 then b.clock else t[|t| - 2].clock;
            before < target && (t[|t| - 1].stop.None? ==> target <= t[|t| - 1].clock)
    decreases target - b.clock, if b.stop.None? then 1 else 0
  {
    hide Turn, ValidWorld;
    var next := Turn(exec, b.world, b.clock);
    if Trace(exec, next, target) != [] {
      Overshoot(exec, next, target);
    }
  }

  // ---- The timers' own clock ----------------------------------------------

  predicate NowIs(w: World, clock: nat) {
    forall i :: 0 <= i < |w.sources| ==> w.sources[i].now == clock
  }

  /** A `Pits` records no armed channels. */
  predicate ArmsOnlyDtims(w: World) {
    forall i :: 0 <= i < |w.sources| ==> w.sources[i].kind.Pit? ==> w.sources[i].arm == {}
  }

  lemma {:induction false} ServiceAllKeeps(g: Guest, ss: seq<Source>, done: nat)
    requires ValidSources(ss)
    ensures forall i :: 0 <= i < |ss| ==>
              ServiceAll(g, ss, done).sources[i].now == ss[i].now && ServiceAll(g, ss, done).sources[i].arm == ss[i].arm
    decreases |ss|
  {
    hide ServiceOf;
    if ss == [] {
    } else {
      var p := ServiceOf(g, ss[0], done);
      ServiceAllKeeps(p.guest, ss[1..], done);
    }
  }

  lemma {:induction false} DeadlineArm(g: Guest, s: Source, chans: seq<nat>, done: nat, best: Option<real>)
    ensures DeadlineOver(g, s, chans, done, best).0.arm == s.arm - (set c | c in chans)
    decreases |chans|
  {
    hide Period;
    if chans == [] {
    } else {
      var s1 := Armed(g, s, chans[0], done);
      DeadlineArm(g, s1, chans[1..], done, if chans[0] in s1.next then Earlier(best, s1.next[chans[0]]) else best);
      assert (set c | c in chans) == {chans[0]} + (set c | c in chans[1..]);
    }
  }

  lemma {:induction false} HooksArm(s: Source, hooks: seq<Hook>)
    requires s.kind.Pit? ==> s.arm == {}
    ensures s.kind.Pit? ==> TimerHooks(s, hooks).arm == {}
    ensures s.arm <= (set c | c in s.channels) ==> TimerHooks(s, hooks).arm <= (set c | c in s.channels)
    decreases |hooks|
  {
    if hooks == [] {
    } else {
      HooksArm(s, hooks[..|hooks| - 1]);
    }
  }

  lemma StepArm(g: Guest, s: Source, done: nat)
    requires s.kind.Pit? ==> s.arm == {}
    ensures s.kind.Pit? ==> StepOf(g, s, done, None).0.arm == {}
  {
    hide DeadlineOver, Ceil;
    if !s.held {
      DeadlineArm(g, s, s.channels, done, None);
    }
  }

  /** Recorded guest writes shorten a step only while the source is held:
      looking at the deadline forgets them before the step is chosen. */
  lemma ArmShortensOnlyHeld(g: Guest, s: Source, done: nat)
    requires s.arm <= (set c | c in s.channels)
    ensures !s.held ==>
              var (s1, d) := DeadlineOf(g, s, done);
              s1.arm == {} &&
              StepOf(g, s, done, None).1 == if d.Some? then Max(1, Ceil(d.value - done as real)) else IDLE_STEP
    ensures s.held ==> StepOf(g, s, done, None).1 == if s.arm != {} then ARM_STEP else IDLE_STEP
  {
    hide DeadlineOver, Ceil;
    if !s.held {
      DeadlineArm(g, s, s.channels, done, None);
    }
  }

  /** After a turn that goes on, every source's clock is the boundary's clock. */
  lemma TurnKeepsClock(exec: Exec, w: World, clock: nat)
    requires ValidWorld(w) && ArmsOnlyDtims(w)
    ensures var b := Turn(exec, w, clock);
            b.stop.None? ==> NowIs(b.world, b.clock) && ArmsOnlyDtims(b.world)
  {
    hide StepOf, LeastStep, LeastEventStep, Ssi.StepOf, ServeEvents, ServiceAll, TimerHooks, SsiHooks;
    var b := Turn(exec, w, clock);
    if b.stop.None? {
      var (w1, n) := Stepped(w, clock);
      forall i | 0 <= i < |w.sources|
        ensures w1.sources[i].kind.Pit? ==> w1.sources[i].arm == {}
      {
        StepArm(w.guest, w.sources[i], clock);
      }
      var ran := exec(w1, n);
      forall i | 0 <= i < |w1.sources|
        ensures w1.sources[i].kind.Pit? ==> TimerHooks(w1.sources[i], ran.hooks).arm == {}
      {
        HooksArm(w1.sources[i], ran.hooks);
      }
      var w2 := AfterRun(w1, ran);
      AfterRunValid(w1, ran);
      var r := ServeEvents(w2.guest, w2.events, clock + n);
      ServiceAllKeeps(r.value.0, AllNow(w2.sources, clock + n), clock + n);
    }
  }

  lemma {:induction false} RunToKeepsClock(exec: Exec, w: World, clock: nat, target: nat)
    requires ValidWorld(w) && NowIs(w, clock) && ArmsOnlyDtims(w)
    ensures var r := RunTo(exec, Boundary(w, clock, None), target);
            r.stop.None? ==> ValidWorld(r.world) && NowIs(r.world, r.clock) && ArmsOnlyDtims(r.world)
    decreases target - clock
  {
    hide Turn, NowIs, ArmsOnlyDtims, ValidWorld;
    if clock >= target {
    } else {
      TurnKeepsClock(exec, w, clock);
      var b := Turn(exec, w, clock);
      if b.stop.None? {
        RunToKeepsClock(exec, b.world, b.clock, target);
      }
    }
  }

  // ---- Checkpoints --------------------------------------------------------

  /** `checkpoint_state` of one source; only a `Dtims` records its armed channels. */
  datatype Saved = Saved(
    kind: Kind, channels: seq<nat>, ips: real, next: map<nat, real>, now: nat, held: bool,
    fired: map<nat, nat>, missed: map<nat, nat>, arm: set<nat>)

  function Save(s: Source): Saved {
    Saved(s.kind, s.channels, s.ips, s.next, s.now, s.held, s.fired, s.missed, if s.kind.Dtim? then s.arm else {})
  }

  /** `restore_timers` for one source: construct it afresh, without touching the
      guest's registers, and load the saved state. */
  function Restore(saved: Saved): Source {
    var made := Source(saved.kind, saved.channels, saved.ips, saved.held, map[], map[], map[], {}, 0);
    made.(next := saved.next, now := saved.now, held := saved.held, fired := saved.fired, missed := saved.missed,
           arm := if saved.kind.Dtim? then saved.arm else made.arm)
  }

  /** The world with its timers saved and restored. */
  function Checkpointed(w: World): (r: World)
    ensures ValidWorld(w) ==> ValidWorld(r)
  {
    w.(sources := seq(|w.sources|, i requires 0 <= i < |w.sources| => Restore(Save(w.sources[i]))))
  }

  lemma CheckpointedSame(w: World)
    requires ArmsOnlyDtims(w)
    ensures Checkpointed(w) == w
  {
    assert Checkpointed(w).sources == w.sources;
  }

  // ---- Several calls ------------------------------------------------------

  /** One `spin` call: it resumes from the timers' own clock. */
  function Call(exec: Exec, w: World, budget: nat): (r: Boundary)
    requires ValidWorld(w)
    ensures r.stop.None? ==> ValidWorld(r.world)
  {
    var now := w.sources[0].now;
    RunTo(exec, Boundary(w, now, None), now + budget)
  }

  /** Successive calls, the timers saved and restored before each if `save`;
      a call that stops is the last. */
  function Calls(exec: Exec, w: World, budgets: seq<nat>, save: bool): (r: Boundary)
    requires ValidWorld(w)
    decreases |budgets|
  {
    if budgets == [] then Boundary(w, w.sources[0].now, None)
    else
      hide RunTo;
      var r := Call(exec, w, budgets[0]);
      if r.stop.Some? then r
      else
        var w1 := if save then Checkpointed(r.world) else r.world;
        Calls(exec, w1, budgets[1..], save)
  }

  /** The boundaries successive calls visit, in order, the timers saved and
      restored before each if `save`. */
  function CallsTrace(exec: Exec, w: World, budgets: seq<nat>, save: bool): seq<Boundary>
    requires ValidWorld(w)
    decreases |budgets|
  {
    if budgets == [] then []
    else
      hide RunTo, Trace;
      var now := w.sources[0].now;
      var r := Call(exec, w, budgets[0]);
      Trace(exec, Boundary(w, now, None), now + budgets[0]) +
        if r.stop.Some? then [] else CallsTrace(exec, if save then Checkpointed(r.world) else r.world, budgets[1..], save)
  }

  /** Any list of calls is one call with some budget: it ends at the same
      boundary after visiting the same ones. */
  lemma {:induction false} CallsAreOneCall(exec: Exec, w: World, budgets: seq<nat>, save: bool) returns (target: nat)
    requires ValidWorld(w) && NowIs(w, w.sources[0].now) && ArmsOnlyDtims(w)
    ensures target >= w.sources[0].now
    ensures var start := Boundary(w, w.sources[0].now, None);
            Calls(exec, w, budgets, save) == RunTo(exec, start, target) &&
            CallsTrace(exec, w, budgets, save) == Trace(exec, start, target)
    decreases |budgets|
  {
    hide RunTo, Trace, Checkpointed, Turn;
    var now := w.sources[0].now;
    var start := Boundary(w, now, None);
    RunToEnds(exec, start, now);
    if budgets == [] {
      target := now;
    } else {
      var t1 := now + budgets[0];
      var r := Call(exec, w, budgets[0]);
      RunToKeepsClock(exec, w, now, t1);
      if r.stop.Some? {
        target := t1;
      } else {
        CheckpointedSame(r.world);
        var t2 := CallsAreOneCall(exec, r.world, budgets[1..], save);
        RunToReaches(exec, start, t1);
        target := if t2 < t1 then t1 else t2;
        RunToEnds(exec, r, t1);
        RunToCompose(exec, start, t1, target);
      }
    }
  }

  lemma RunToEnds(exec: Exec, b: Boundary, target: nat)
    requires b.stop.None? ==> ValidWorld(b.world)
    ensures b.clock >= target || b.stop.Some? ==> RunTo(exec, b, target) == b && Trace(exec, b, target) == []
  {
    hide Turn, ValidWorld;
  }

  lemma {:induction false} RunToReaches(exec: Exec, b: Boundary, target: nat)
    requires b.stop.None? ==> ValidWorld(b.world)
    ensures var r := RunTo(exec, b, target); r.stop.None? ==> r.clock >= target
    decreases target - b.clock, if b.stop.None? then 1 else 0
  {
    hide Turn, ValidWorld;
    if b.stop.Some? || b.clock >= target {
    } else {
      RunToReaches(exec, Turn(exec, b.world, b.clock), target);
    }
  }

  /** Main result: however a budget is split, and whether or not the timers are
      saved and restored in between, the boundaries visited are a prefix of a
      single call's, or extend them. */
  lemma BudgetSplitInvariance(exec: Exec, w: World, budgets: seq<nat>, budget: nat, save: bool)
    requires ValidWorld(w) && NowIs(w, w.sources[0].now) && ArmsOnlyDtims(w)
    ensures var single := Trace(exec, Boundary(w, w.sources[0].now, None), w.sources[0].now + budget);
            CallsTrace(exec, w, budgets, save) <= single || single <= CallsTrace(exec, w, budgets, save)
    ensures CallsTrace(exec, w, budgets, save) == CallsTrace(exec, w, budgets, !save)
    ensures Calls(exec, w, budgets, save) == Calls(exec, w, budgets, !save)
  {
    hide RunTo, Trace, Turn, Calls, CallsTrace;
    var start := Boundary(w, w.sources[0].now, None);
    var t1 := CallsAreOneCall(exec, w, budgets, save);
    var t2 := w.sources[0].now + budget;
    if t1 <= t2 {
      RunToCompose(exec, start, t1, t2);
    } else {
      RunToCompose(exec, start, t2, t1);
    }
    SavingChangesNothing(exec, w, budgets);
  }

  /** Saving and restoring the timers between calls changes no boundary. */
  lemma {:induction false} SavingChangesNothing(exec: Exec, w: World, budgets: seq<nat>)
    requires ValidWorld(w) && NowIs(w, w.sources[0].now) && ArmsOnlyDtims(w)
    ensures Calls(exec, w, budgets, true) == Calls(exec, w, budgets, false)
    ensures CallsTrace(exec, w, budgets, true) == CallsTrace(exec, w, budgets, false)
    decreases |budgets|
  {
    hide RunTo, Trace, Checkpointed, Turn;
    if budgets == [] {
    } else {
      var now := w.sources[0].now;
      var r := Call(exec, w, budgets[0]);
      RunToKeepsClock(exec, w, now, now + budgets[0]);
      if r.stop.None? {
        CheckpointedSame(r.world);
        SavingChangesNothing(exec, r.world, budgets[1..]);
      }
    }
  }
}
