/** No drift and no skipped deadline: whatever the other channels, sources and
    the guest do, the ticks of a channel with fixed registers fall due on its own
    grid, each less than one instruction late. */
module NoDrift {
  import opened Bytes
  import opened Machine
  import opened Timers
  import Ssi
  import opened Spin

  // ---- One channel in one pass --------------------------------------------

  predicate DistinctChannels(chans: seq<nat>) {
    forall i, j :: 0 <= i < j < |chans| ==> chans[i] != chans[j]
  }

  /** Two states of a source that agree on everything about one channel. */
  predicate AgreeOn(a: Source, b: Source, ch: nat) {
    && SameSetup(a, b)
    && (ch in a.next <==> ch in b.next)
    && (ch in a.next ==> a.next[ch] == b.next[ch])
    && Count(a.fired, ch) == Count(b.fired, ch)
    && Count(a.missed, ch) == Count(b.missed, ch)
  }

  lemma ServeOthers(g: Guest, s: Source, ch: nat, done: nat, other: nat)
    requires ch < 4 && ch != other
    ensures AgreeOn(Serve(g, s, ch, done).source, s, other)
  {
    hide TickOf;
  }

  lemma ServeAgrees(g: Guest, s: Source, s2: Source, ch: nat, done: nat)
    requires ch < 4 && AgreeOn(s, s2, ch)
    ensures var v, v2 := Serve(g, s, ch, done), Serve(g, s2, ch, done);
            v.guest == v2.guest && v.outcome == v2.outcome && AgreeOn(v.source, v2.source, ch)
  {
    hide TickOf;
  }

  /** The guest as a pass reaches position `j`. */
  function VisitGuest(g: Guest, s: Source, chans: seq<nat>, done: nat, j: nat): Guest
    requires ValidChannels(chans) && j < |chans|
    decreases j
  {
    if j == 0 then g
    else
      hide Serve;
      var v := Serve(g, s, chans[0], done);
      VisitGuest(v.guest, v.source, chans[1..], done, j - 1)
  }

  lemma {:induction false} PassOthers(g: Guest, s: Source, chans: seq<nat>, done: nat, other: nat)
    requires ValidChannels(chans) && other !in chans
    ensures AgreeOn(ServiceOver(g, s, chans, done).source, s, other)
    decreases |chans|
  {
    hide Serve;
    if chans == [] {
    } else {
      var v := Serve(g, s, chans[0], done);
      ServeOthers(g, s, chans[0], done, other);
      PassOthers(v.guest, v.source, chans[1..], done, other);
    }
  }

  /** A pass does to one of its channels what serving that channel does, at the
      guest state in which the pass reaches it. */
  lemma {:induction false} PassChannel(g: Guest, s: Source, chans: seq<nat>, done: nat, j: nat)
    requires ValidChannels(chans) && DistinctChannels(chans) && j < |chans|
    ensures var v := Serve(VisitGuest(g, s, chans, done, j), s, chans[j], done);
            AgreeOn(ServiceOver(g, s, chans, done).source, v.source, chans[j]) &&
            ServiceOver(g, s, chans, done).log[j] == v.outcome
    decreases j
  {
    hide Serve;
    var v := Serve(g, s, chans[0], done);
    if j == 0 {
      PassOthers(v.guest, v.source, chans[1..], done, chans[0]);
    } else {
      PassChannel(v.guest, v.source, chans[1..], done, j - 1);
      ServeOthers(g, s, chans[0], done, chans[j]);
      ServeAgrees(VisitGuest(g, s, chans, done, j), v.source, s, chans[j], done);
    }
  }

  // ---- One channel in one step --------------------------------------------

  lemma {:induction false} DeadlineKeeps(g: Guest, s: Source, chans: seq<nat>, done: nat, best: Option<real>, ch: nat, p: real)
    requires Period(g, s.kind, ch, s.ips) == Some(p) && ch in s.next
    ensures var (s1, d) := DeadlineOver(g, s, chans, done, best);
            ch in s1.next && s1.next[ch] == s.next[ch] &&
            (best.Some? ==> d.Some? && d.value <= best.value) &&
            (ch in chans ==> d.Some? && d.value <= s.next[ch])
    decreases |chans|
  {
    hide Period;
    if chans == [] {
    } else {
      var s1 := Armed(g, s, chans[0], done);
      DeadlineKeeps(g, s1, chans[1..], done, if chans[0] in s1.next then Earlier(best, s1.next[chans[0]]) else best, ch, p);
    }
  }

  lemma CeilBounds(x: real)
    ensures x <= Ceil(x) as real < x + 1.0
  {
  }

  /** The source steps no further than the instruction its channel is due at. */
  lemma StepReaches(g: Guest, s: Source, done: nat, ch: nat, p: real)
    requires !s.held && ch in s.channels
    requires Period(g, s.kind, ch, s.ips) == Some(p) && ch in s.next && s.next[ch] > done as real
    ensures var (s1, n) := StepOf(g, s, done, None);
            ch in s1.next && s1.next[ch] == s.next[ch] && (done + n) as real < s.next[ch] + 1.0
  {
    hide Period, DeadlineOver, Ceil;
    DeadlineKeeps(g, s, s.channels, done, None, ch, p);
    var (s1, d) := DeadlineOf(g, s, done);
    CeilBounds(d.value - done as real);
    CeilBounds(s.next[ch] - done as real);
    CeilMonotone(d.value - done as real, s.next[ch] - done as real);
  }

  lemma CeilMonotone(x: real, y: real)
    requires x <= y
    ensures Ceil(x) <= Ceil(y)
    ensures y > 0.0 ==> Ceil(y) >= 1
  {
    CeilBounds(x);
    CeilBounds(y);
  }

  lemma {:induction false} LeastBelow(g: Guest, ss: seq<Source>, done: nat, k: nat, i: nat)
    requires 1 <= k <= |ss| && i < k
    ensures LeastStep(g, ss, done, k) <= StepOf(g, ss[i], done, None).1
    decreases k
  {
    hide StepOf;
    if i == k - 1 {
    } else {
      LeastBelow(g, ss, done, k - 1, i);
    }
  }

  // ---- One channel in one turn --------------------------------------------

  /** The guest as `Timers.service` reaches source `i`. */
  function ReachGuest(g: Guest, ss: seq<Source>, done: nat, i: nat): Guest
    requires ValidSources(ss) && i < |ss|
    decreases i
  {
    if i == 0 then g
    else
      hide ServiceOf;
      ReachGuest(ServiceOf(g, ss[0], done).guest, ss[1..], done, i - 1)
  }

  lemma {:induction false} AllPasses(g: Guest, ss: seq<Source>, done: nat, i: nat)
    requires ValidSources(ss) && i < |ss|
    ensures ServiceAll(g, ss, done).sources[i] == ServiceOf(ReachGuest(g, ss, done, i), ss[i], done).source
    decreases i
  {
    hide ServiceOf, ServiceAll, ReachGuest;
    FirstPass(g, ss, done, i);
    if i == 0 {
    } else {
      AllPasses(ServiceOf(g, ss[0], done).guest, ss[1..], done, i - 1);
    }
  }

  /** The first source is served first, and the rest where it left the machine. */
  lemma FirstPass(g: Guest, ss: seq<Source>, done: nat, i: nat)
    requires ValidSources(ss) && i < |ss|
    ensures var p := ServiceOf(g, ss[0], done);
            if i == 0 then ReachGuest(g, ss, done, i) == g && ServiceAll(g, ss, done).sources[0] == p.source
            else ReachGuest(g, ss, done, i) == ReachGuest(p.guest, ss[1..], done, i - 1) &&
                 ServiceAll(g, ss, done).sources[i] == ServiceAll(p.guest, ss[1..], done).sources[i - 1]
  {
    hide ServiceOf, ServiceAll;
    SourcesFirst(g, ss, done);
  }

  lemma SourcesFirst(g: Guest, ss: seq<Source>, done: nat)
    requires ValidSources(ss) && ss != []
    ensures var p := ServiceOf(g, ss[0], done);
            ServiceAll(g, ss, done).sources == [p.source] + ServiceAll(p.guest, ss[1..], done).sources
  {
    hide ServiceOf;
  }

  /** The world after the guest's run in a turn, and the instructions it ran. */
  function RanWorld(exec: Exec, w: World, clock: nat): (r: (World, nat))
    requires ValidWorld(w)
    ensures ValidWorld(r.0) && r.1 >= 1
  {
    hide Stepped, AfterRun, ValidWorld;
    var (w1, n) := Stepped(w, clock);
    AfterRunValid(w1, exec(w1, n));
    (AfterRun(w1, exec(w1, n)), n)
  }

  /** The guest as the timers' service begins, once the events are served. */
  function ServiceGuest(exec: Exec, w: World, clock: nat): Guest
    requires ValidWorld(w)
  {
    hide RanWorld, ServeEvents, ValidWorld;
    var (w2, n) := RanWorld(exec, w, clock);
    match ServeEvents(w2.guest, w2.events, clock + n)
    case Ok((g, _)) => g
    case Err(_) => w2.guest
  }

  /** The sources as the timers' service begins. */
  function ServiceSources(exec: Exec, w: World, clock: nat): (ss: seq<Source>)
    requires ValidWorld(w)
    ensures ValidSources(ss) && ss != []
  {
    hide RanWorld;
    var (w2, n) := RanWorld(exec, w, clock);
    AllNow(w2.sources, clock + n)
  }

  /** A turn that goes on, in these terms. */
  lemma TurnIs(exec: Exec, w: World, clock: nat)
    requires ValidWorld(w) && Turn(exec, w, clock).stop.None?
    ensures var b, n := Turn(exec, w, clock), RanWorld(exec, w, clock).1;
            b.clock == clock + n &&
            b.world.sources == ServiceAll(ServiceGuest(exec, w, clock), ServiceSources(exec, w, clock), b.clock).sources
  {
    hide Stepped, AfterRun, ServeEvents, ServiceAll;
    var (w1, n) := Stepped(w, clock);
    AfterRunValid(w1, exec(w1, n));
  }

  /** In this turn the registers of channel `j` of source `i` give the period
      `p`, both when the step is planned and when service reaches the channel. */
  ghost predicate Steady(exec: Exec, w: World, clock: nat, i: nat, j: nat, p: real)
    requires ValidWorld(w)
  {
    hide Reached, Period;
    && i < |w.sources|
    && j < |w.sources[i].channels|
    && !w.sources[i].held
    && DistinctChannels(w.sources[i].channels)
    && var ch, kind, ips := w.sources[i].channels[j], w.sources[i].kind, w.sources[i].ips;
       Period(w.guest, kind, ch, ips) == Some(p) && Period(Reached(exec, w, clock, i, j), kind, ch, ips) == Some(p)
  }

  /** The guest as service reaches channel `j` of source `i` in this turn. */
  function Reached(exec: Exec, w: World, clock: nat, i: nat, j: nat): Guest
    requires ValidWorld(w)
  {
    hide ServiceSources, ServiceGuest, RanWorld;
    var ss, g, now := ServiceSources(exec, w, clock), ServiceGuest(exec, w, clock), clock + RanWorld(exec, w, clock).1;
    if i < |ss| && j < |ss[i].channels| then VisitGuest(ReachGuest(g, ss, now, i), ss[i], ss[i].channels, now, j) else g
  }

  /** In this turn the channel's handler exists when service reaches it. */
  predicate Handled(exec: Exec, w: World, clock: nat, i: nat, j: nat)
    requires ValidWorld(w)
  {
    hide Reached;
    i < |w.sources| && j < |w.sources[i].channels| &&
    var kind, ch := w.sources[i].kind, w.sources[i].channels[j];
    HasHandler(Signalled(Reached(exec, w, clock, i, j), kind, ch), Vector(kind, ch))
  }

  /** Deliveries counted on a channel, taken or missed. */
  function Counted(s: Source, ch: nat): nat {
    Count(s.fired, ch) + Count(s.missed, ch)
  }

  /** Nothing before the timers' service touches an armed deadline. */
  lemma UntilService(exec: Exec, w: World, clock: nat, i: nat, ch: nat, p: real)
    requires ValidWorld(w) && i < |w.sources|
    requires !w.sources[i].held && ch in w.sources[i].channels
    requires Period(w.guest, w.sources[i].kind, ch, w.sources[i].ips) == Some(p)
    requires ch in w.sources[i].next && w.sources[i].next[ch] > clock as real
    ensures var ss, now := ServiceSources(exec, w, clock), clock + RanWorld(exec, w, clock).1;
            i < |ss| && SameSetup(ss[i], w.sources[i]) && AgreeOn(ss[i], w.sources[i], ch) &&
            now as real < w.sources[i].next[ch] + 1.0
  {
    hide Period, StepOf, LeastStep, LeastEventStep, Ssi.StepOf, TimerHooks, SsiHooks;
    var s := w.sources[i];
    StepReaches(w.guest, s, clock, ch, p);
    LeastBelow(w.guest, w.sources, clock, |w.sources|, i);
    var (w1, n) := Stepped(w, clock);
    assert w1.sources[i] == StepOf(w.guest, s, clock, None).0;
    assert ServiceSources(exec, w, clock)[i] == TimerHooks(w1.sources[i], exec(w1, n).hooks).(now := clock + n);
  }

  /** What a turn does to a channel is one visit of it, at the guest state in
      which service reaches it. */
  lemma TurnServes(exec: Exec, w: World, clock: nat, i: nat, j: nat)
    requires ValidWorld(w) && Turn(exec, w, clock).stop.None?
    requires i < |w.sources| && j < |w.sources[i].channels| && !w.sources[i].held && DistinctChannels(w.sources[i].channels)
    requires i < |ServiceSources(exec, w, clock)| && SameSetup(ServiceSources(exec, w, clock)[i], w.sources[i])
    ensures var ss, b, ch := ServiceSources(exec, w, clock), Turn(exec, w, clock), w.sources[i].channels[j];
            b.clock == clock + RanWorld(exec, w, clock).1 && i < |b.world.sources| &&
            AgreeOn(b.world.sources[i], Serve(Reached(exec, w, clock, i, j), ss[i], ch, b.clock).source, ch)
  {
    hide ServiceSources, ServiceGuest, RanWorld, Turn, ServiceAll, Serve;
    TurnIs(exec, w, clock);
    var ss, g, now := ServiceSources(exec, w, clock), ServiceGuest(exec, w, clock), clock + RanWorld(exec, w, clock).1;
    AllPasses(g, ss, now, i);
    PassChannel(ReachGuest(g, ss, now, i), ss[i], ss[i].channels, now, j);
  }

  /** One turn of a steady channel: its deadline stays until it falls due, falls
      due less than one instruction late, and then moves by exactly one period;
      the tick is counted once, unless its handler is missing. */
  lemma SteadyTurn(exec: Exec, w: World, clock: nat, i: nat, j: nat, p: real)
    requires ValidWorld(w) && Turn(exec, w, clock).stop.None? && Steady(exec, w, clock, i, j, p) && p >= 1.0
    requires var s := w.sources[i]; s.channels[j] in s.next && s.next[s.channels[j]] > clock as real
    ensures var ch, b := w.sources[i].channels[j], Turn(exec, w, clock);
            i < |b.world.sources| &&
            var s, s1 := w.sources[i], b.world.sources[i];
            SameSetup(s1, s) && ch in s1.next && s1.next[ch] > b.clock as real &&
            if (b.clock as real) < s.next[ch] then s1.next[ch] == s.next[ch] && Counted(s1, ch) == Counted(s, ch)
            else s1.next[ch] == s.next[ch] + p && b.clock as real < s.next[ch] + 1.0 &&
                 Counted(s1, ch) <= Counted(s, ch) + 1 && Counted(s, ch) <= Counted(s1, ch) &&
                 (Handled(exec, w, clock, i, j) ==> Counted(s1, ch) == Counted(s, ch) + 1)
  {
    hide Period, ServiceSources, RanWorld, Turn, Level, HasHandler, Entered, Signalled, Serve, Reached;
    UntilService(exec, w, clock, i, w.sources[i].channels[j], p);
    TurnServes(exec, w, clock, i, j);
    SteadyTick(Reached(exec, w, clock, i, j), ServiceSources(exec, w, clock)[i], w.sources[i].channels[j],
               clock + RanWorld(exec, w, clock).1, p);
  }

  lemma SteadyTick(g: Guest, s: Source, ch: nat, now: nat, p: real)
    requires ch < 4 && Period(g, s.kind, ch, s.ips) == Some(p) && p >= 1.0
    requires ch in s.next && now as real < s.next[ch] + 1.0
    ensures var s1 := Serve(g, s, ch, now).source;
            SameSetup(s1, s) && ch in s1.next && s1.next[ch] > now as real &&
            if (now as real) < s.next[ch] then s1.next[ch] == s.next[ch] && Counted(s1, ch) == Counted(s, ch)
            else s1.next[ch] == s.next[ch] + p && Counted(s, ch) <= Counted(s1, ch) <= Counted(s, ch) + 1 &&
                 (HasHandler(Signalled(g, s.kind, ch), Vector(s.kind, ch)) ==> Counted(s1, ch) == Counted(s, ch) + 1)
  {
    hide Period, Level, HasHandler, Entered, Signalled;
  }

  // ---- The whole run ------------------------------------------------------

  /** Every turn up to the target goes on and is steady for the channel. */
  ghost predicate SteadyRun(exec: Exec, w: World, clock: nat, target: nat, i: nat, j: nat, p: real)
    requires ValidWorld(w)
    decreases target - clock
  {
    hide Turn, Steady, ValidWorld;
    clock < target ==>
      var b := Turn(exec, w, clock);
      b.stop.None? && Steady(exec, w, clock, i, j, p) && SteadyRun(exec, b.world, b.clock, target, i, j, p)
  }

  /** Whenever service reaches the channel up to the target, its handler exists. */
  ghost predicate HandledRun(exec: Exec, w: World, clock: nat, target: nat, i: nat, j: nat)
    requires ValidWorld(w)
    decreases target - clock
  {
    hide Turn, Handled, ValidWorld;
    clock < target ==>
      var b := Turn(exec, w, clock);
      b.stop.None? && Handled(exec, w, clock, i, j) && HandledRun(exec, b.world, b.clock, target, i, j)
  }

  /** This turn's service finds the deadline of channel `ch` passed. */
  predicate DueIn(exec: Exec, w: World, clock: nat, i: nat, ch: nat)
    requires ValidWorld(w)
  {
    hide Turn, ServiceSources, ValidWorld;
    var ss, b := ServiceSources(exec, w, clock), Turn(exec, w, clock);
    i < |ss| && NextOf(ss[i], ch).Some? && NextOf(ss[i], ch).value <= b.clock as real
  }

  /** How often service found the deadline of channel `ch` passed. */
  function DueTicks(exec: Exec, w: World, clock: nat, target: nat, i: nat, ch: nat): nat
    requires ValidWorld(w)
    decreases target - clock
  {
    hide Turn, DueIn, ValidWorld;
    if clock >= target then 0
    else
      var b := Turn(exec, w, clock);
      if b.stop.Some? then 0
      else (if DueIn(exec, w, clock, i, ch) then 1 else 0) + DueTicks(exec, b.world, b.clock, target, i, ch)
  }

  /** The instant of the channel's tick number `k` after `t0`. */
  function Grid(t0: real, p: real, k: nat): real {
    t0 + k as real * p
  }

  lemma GridStep(t0: real, p: real, k: nat)
    ensures Grid(t0, p, k + 1) == Grid(t0, p, k) + p
  {
    assert (k + 1) as real * p == k as real * p + p;
  }

  /** Source `i`'s channel `j` is armed on the grid, `k` ticks after `t0`. */
  predicate OnGrid(w: World, clock: nat, i: nat, j: nat, t0: real, p: real, k: nat) {
    && i < |w.sources|
    && j < |w.sources[i].channels|
    && NextOf(w.sources[i], w.sources[i].channels[j]) == Some(Grid(t0, p, k + 1))
    && Grid(t0, p, k) <= clock as real < Grid(t0, p, k + 1)
  }

  lemma SteadyTurnOnGrid(exec: Exec, w: World, clock: nat, i: nat, j: nat, t0: real, p: real, k: nat)
    requires ValidWorld(w) && Turn(exec, w, clock).stop.None? && Steady(exec, w, clock, i, j, p) && p >= 1.0
    requires OnGrid(w, clock, i, j, t0, p, k)
    ensures var b := Turn(exec, w, clock);
            i < |b.world.sources| && SameSetup(b.world.sources[i], w.sources[i]) &&
            var ch := w.sources[i].channels[j];
            var due := if DueIn(exec, w, clock, i, ch) then 1 else 0;
            var counted := Counted(b.world.sources[i], ch) - Counted(w.sources[i], ch);
            OnGrid(b.world, b.clock, i, j, t0, p, k + due) && 0 <= counted <= due &&
            (Handled(exec, w, clock, i, j) ==> counted == due) &&
            (due == 1 ==> b.clock as real < Grid(t0, p, k + 1) + 1.0)
  {
    hide Turn, Steady, ValidWorld, Grid, Handled, Counted, ServiceSources, RanWorld;
    UntilServiceSteady(exec, w, clock, i, j, p);
    SteadyTurn(exec, w, clock, i, j, p);
    GridStep(t0, p, k);
    GridStep(t0, p, k + 1);
    TurnMoves(exec, w, clock);
  }

  lemma UntilServiceSteady(exec: Exec, w: World, clock: nat, i: nat, j: nat, p: real)
    requires ValidWorld(w) && Steady(exec, w, clock, i, j, p)
    requires var s := w.sources[i]; s.channels[j] in s.next && s.next[s.channels[j]] > clock as real
    ensures var ss := ServiceSources(exec, w, clock);
            i < |ss| && AgreeOn(ss[i], w.sources[i], w.sources[i].channels[j])
  {
    hide Period, ServiceSources, RanWorld, Reached, AgreeOn, ValidWorld;
    UntilService(exec, w, clock, i, w.sources[i].channels[j], p);
  }

  lemma TurnMoves(exec: Exec, w: World, clock: nat)
    requires ValidWorld(w) && Turn(exec, w, clock).stop.None?
    ensures Turn(exec, w, clock).clock > clock
  {
    hide Turn, ValidWorld;
  }

  /** No drift: a channel armed `k` periods after `t0` is, at every later
      boundary, armed exactly as many periods after `t0` as ticks have come due.
      Each was counted at most once, and exactly once when handlers exist. */
  lemma {:induction false} NoDriftFrom(exec: Exec, w: World, clock: nat, target: nat, i: nat, j: nat, t0: real, p: real, k: nat)
    returns (k1: nat)
    requires ValidWorld(w) && p >= 1.0 && OnGrid(w, clock, i, j, t0, p, k)
    requires SteadyRun(exec, w, clock, target, i, j, p)
    ensures var r := RunTo(exec, Boundary(w, clock, None), target);
            var ch := w.sources[i].channels[j];
            r.stop.None? && OnGrid(r.world, r.clock, i, j, t0, p, k1) &&
            k1 == k + DueTicks(exec, w, clock, target, i, ch) &&
            r.world.sources[i].channels == w.sources[i].channels &&
            var counted := Counted(r.world.sources[i], ch) - Counted(w.sources[i], ch);
            0 <= counted <= k1 - k && (HandledRun(exec, w, clock, target, i, j) ==> counted == k1 - k)
    decreases target - clock
  {
    hide Turn, Steady, ValidWorld, Grid, Counted, Handled, DueIn;
    RunToStep(exec, w, clock, target);
    if clock >= target {
      k1 := k;
    } else {
      SteadyTurnOnGrid(exec, w, clock, i, j, t0, p, k);
      var b := Turn(exec, w, clock);
      var due := if DueIn(exec, w, clock, i, w.sources[i].channels[j]) then 1 else 0;
      k1 := NoDriftFrom(exec, b.world, b.clock, target, i, j, t0, p, k + due);
    }
  }

  lemma ScaledLess(a: real, b: real, p: real)
    requires p > 0.0
    ensures a < b <==> a * p < b * p
  {
    assert (b - a) * p == b * p - a * p;
    assert b - a > 0.0 <==> (b - a) * p > 0.0;
  }

  lemma QuotientFloor(x: real, p: real, k: nat)
    requires p > 0.0 && k as real * p <= x < (k + 1) as real * p
    ensures (x / p).Floor == k
  {
    var q := x / p;
    assert q * p == x;
    ScaledLess(q, k as real, p);
    ScaledLess(q, (k + 1) as real, p);
  }

  /** Main result, in closed form: armed at `t0`, the channel has had exactly
      floor((clock - t0) / p) ticks come due at every boundary. */
  lemma NoDrift(exec: Exec, w: World, clock: nat, target: nat, i: nat, j: nat, t0: real, p: real)
    requires ValidWorld(w) && p >= 1.0 && OnGrid(w, clock, i, j, t0, p, 0)
    requires SteadyRun(exec, w, clock, target, i, j, p)
    ensures var r := RunTo(exec, Boundary(w, clock, None), target);
            var ch := w.sources[i].channels[j];
            var due := DueTicks(exec, w, clock, target, i, ch);
            r.stop.None? && due == ((r.clock as real - t0) / p).Floor &&
            i < |r.world.sources| &&
            var counted := Counted(r.world.sources[i], ch) - Counted(w.sources[i], ch);
            counted <= due && (HandledRun(exec, w, clock, target, i, j) ==> counted == due)
  {
    hide RunTo, DueTicks, SteadyRun, HandledRun, Counted;
    var k := NoDriftFrom(exec, w, clock, target, i, j, t0, p, 0);
    var r := RunTo(exec, Boundary(w, clock, None), target);
    QuotientFloor(r.clock as real - t0, p, k);
  }

  // ---- Arming -------------------------------------------------------------

  /** The world with one channel armed a period ahead. */
  function WithArmed(w: World, clock: nat, i: nat, j: nat, p: real): (r: World)
    requires ValidWorld(w) && i < |w.sources| && j < |w.sources[i].channels|
    ensures ValidWorld(r)
  {
    var s := w.sources[i];
    w.(sources := w.sources[i := s.(next := s.next[s.channels[j] := clock as real + p])])
  }

  lemma ArmedArms(g: Guest, s: Source, s2: Source, c: nat, done: nat, ch: nat, p: real)
    requires Period(g, s.kind, ch, s.ips) == Some(p) && ch !in s.next
    requires s2 == s.(next := s.next[ch := done as real + p])
    ensures var a, a2 := Armed(g, s, c, done), Armed(g, s2, c, done);
            if c == ch then a2 == a
            else a.kind == s.kind && a.ips == s.ips && ch !in a.next && (c in a2.next <==> c in a.next) &&
                 (c in a.next ==> a2.next[c] == a.next[c]) && a2 == a.(next := a.next[ch := done as real + p])
  {
    hide Period;
    if c != ch {
      var q := Period(g, s.kind, c, s.ips);
      UpdateApart(s.next, ch, done as real + p, c, if q.Some? then done as real + q.value else 0.0);
    }
  }

  /** Updates of two different keys can be exchanged. */
  lemma UpdateApart(m: map<nat, real>, a: nat, x: real, b: nat, y: real)
    requires a != b
    ensures m[a := x][b := y] == m[b := y][a := x]
    ensures m[a := x] - {b} == (m - {b})[a := x]
  {
  }

  lemma {:induction false} DeadlineArms(g: Guest, s: Source, s2: Source, chans: seq<nat>, done: nat, best: Option<real>, ch: nat, p: real)
    requires Period(g, s.kind, ch, s.ips) == Some(p) && ch !in s.next && ch in chans
    requires s2 == s.(next := s.next[ch := done as real + p])
    ensures DeadlineOver(g, s2, chans, done, best) == DeadlineOver(g, s, chans, done, best)
    decreases |chans|
  {
    hide Armed, Earlier, Period;
    var c := chans[0];
    var a, a2 := Armed(g, s, c, done), Armed(g, s2, c, done);
    ArmedArms(g, s, s2, c, done, ch, p);
    if c != ch {
      DeadlineArms(g, a, a2, chans[1..], done, if c in a.next then Earlier(best, a.next[c]) else best, ch, p);
    }
  }

  lemma StepArms(g: Guest, s: Source, s2: Source, done: nat, ch: nat, p: real)
    requires Period(g, s.kind, ch, s.ips) == Some(p) && ch !in s.next && ch in s.channels && !s.held
    requires s2 == s.(next := s.next[ch := done as real + p])
    ensures StepOf(g, s2, done, None) == StepOf(g, s, done, None)
  {
    hide Period, DeadlineOver, Ceil;
    DeadlineArms(g, s, s2, s.channels, done, None, ch, p);
  }

  lemma {:induction false} LeastSame(g: Guest, a: seq<Source>, b: seq<Source>, done: nat, k: nat)
    requires 1 <= k <= |a| == |b|
    requires forall i :: 0 <= i < |a| ==> StepOf(g, a[i], done, None) == StepOf(g, b[i], done, None)
    ensures LeastStep(g, a, done, k) == LeastStep(g, b, done, k)
    decreases k
  {
    hide StepOf;
    if k <= 1 {
    } else {
      LeastSame(g, a, b, done, k - 1);
    }
  }

  /** The step at the head of a turn arms an unarmed running channel one period
      ahead, exactly as if it had been armed at the boundary. */
  lemma SteppedArms(w: World, clock: nat, i: nat, j: nat, p: real)
    requires ValidWorld(w) && i < |w.sources| && j < |w.sources[i].channels| && !w.sources[i].held
    requires var s := w.sources[i]; s.channels[j] !in s.next && Period(w.guest, s.kind, s.channels[j], s.ips) == Some(p)
    ensures Stepped(WithArmed(w, clock, i, j, p), clock) == Stepped(w, clock)
  {
    hide StepOf, Period, LeastStep, LeastEventStep, Ssi.StepOf;
    var w2 := WithArmed(w, clock, i, j, p);
    StepArms(w.guest, w.sources[i], w2.sources[i], clock, w.sources[i].channels[j], p);
    LeastSame(w.guest, w2.sources, w.sources, clock, |w.sources|);
    assert StepAll(w.guest, w2.sources, clock).0 == StepAll(w.guest, w.sources, clock).0;
    assert Stepped(w2, clock).0.events == Stepped(w, clock).0.events;
  }

  lemma TurnArms(exec: Exec, w: World, clock: nat, i: nat, j: nat, p: real)
    requires ValidWorld(w) && Turn(exec, w, clock).stop.None? && Steady(exec, w, clock, i, j, p)
    requires w.sources[i].channels[j] !in w.sources[i].next
    ensures var w2 := WithArmed(w, clock, i, j, p);
            Turn(exec, w2, clock) == Turn(exec, w, clock) && Steady(exec, w2, clock, i, j, p) &&
            (Handled(exec, w2, clock, i, j) <==> Handled(exec, w, clock, i, j)) &&
            DueIn(exec, w2, clock, i, w.sources[i].channels[j]) == DueIn(exec, w, clock, i, w.sources[i].channels[j])
  {
    hide Stepped, Served, AfterRun, Period;
    SteppedArms(w, clock, i, j, p);
  }

  lemma SteadyRunStarts(exec: Exec, w: World, clock: nat, target: nat, i: nat, j: nat, p: real)
    requires ValidWorld(w) && clock < target && SteadyRun(exec, w, clock, target, i, j, p)
    ensures Turn(exec, w, clock).stop.None? && Steady(exec, w, clock, i, j, p)
    ensures i < |w.sources| && j < |w.sources[i].channels|
  {
    hide Turn, ValidWorld, Reached;
  }

  /** Two worlds whose first turns agree have the same steady runs and counts. */
  lemma RunsAgree(exec: Exec, w: World, w2: World, clock: nat, target: nat, i: nat, j: nat, p: real)
    requires ValidWorld(w) && ValidWorld(w2) && clock < target && i < |w.sources| && j < |w.sources[i].channels|
    requires Turn(exec, w2, clock) == Turn(exec, w, clock) && Steady(exec, w, clock, i, j, p) && Steady(exec, w2, clock, i, j, p)
    requires Handled(exec, w2, clock, i, j) <==> Handled(exec, w, clock, i, j)
    requires DueIn(exec, w2, clock, i, w.sources[i].channels[j]) == DueIn(exec, w, clock, i, w.sources[i].channels[j])
    ensures RunTo(exec, Boundary(w2, clock, None), target) == RunTo(exec, Boundary(w, clock, None), target)
    ensures SteadyRun(exec, w2, clock, target, i, j, p) <==> SteadyRun(exec, w, clock, target, i, j, p)
    ensures HandledRun(exec, w2, clock, target, i, j) <==> HandledRun(exec, w, clock, target, i, j)
    ensures var ch := w.sources[i].channels[j];
            DueTicks(exec, w2, clock, target, i, ch) == DueTicks(exec, w, clock, target, i, ch)
  {
    hide Turn, Steady, Handled, DueIn, ValidWorld, RunTo;
    RunToStep(exec, w, clock, target);
    RunToStep(exec, w2, clock, target);
  }

  /** Main result from the moment of arming: a channel found running and unarmed
      at a boundary has, at every later boundary, had exactly
      floor((clock - t0) / p) ticks come due, `t0` being that first boundary. */
  lemma NoDriftSinceArming(exec: Exec, w: World, t0: nat, target: nat, i: nat, j: nat, p: real)
    requires ValidWorld(w) && i < |w.sources| && j < |w.sources[i].channels|
    requires p >= 1.0 && t0 < target && SteadyRun(exec, w, t0, target, i, j, p)
    requires w.sources[i].channels[j] !in w.sources[i].next
    ensures var r := RunTo(exec, Boundary(w, t0, None), target);
            var ch := w.sources[i].channels[j];
            var due := DueTicks(exec, w, t0, target, i, ch);
            r.stop.None? && due == ((r.clock - t0) as real / p).Floor &&
            i < |r.world.sources| &&
            var counted := Counted(r.world.sources[i], ch) - Counted(w.sources[i], ch);
            counted <= due && (HandledRun(exec, w, t0, target, i, j) ==> counted == due)
  {
    hide *;
    SteadyRunStarts(exec, w, t0, target, i, j, p);
    TurnArms(exec, w, t0, i, j, p);
    var w2 := WithArmed(w, t0, i, j, p);
    RunsAgree(exec, w, w2, t0, target, i, j, p);
    ArmedOnGrid(w, t0, i, j, p);
    NoDrift(exec, w2, t0, target, i, j, t0 as real, p);
  }

  lemma ArmedOnGrid(w: World, t0: nat, i: nat, j: nat, p: real)
    requires ValidWorld(w) && i < |w.sources| && j < |w.sources[i].channels| && p >= 1.0
    ensures var w2 := WithArmed(w, t0, i, j, p);
            OnGrid(w2, t0, i, j, t0 as real, p, 0) && SameSetup(w2.sources[i], w.sources[i]) &&
            Counted(w2.sources[i], w.sources[i].channels[j]) == Counted(w.sources[i], w.sources[i].channels[j])
  {
    assert Grid(t0 as real, p, 1) == t0 as real + p;
  }
}
