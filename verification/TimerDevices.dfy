/** `Pits`, `Dtims` and `Timers` as the objects they are, proved against the
    functions of module Timers. One class serves for both kinds of source, which
    differ in their registers and in the DMA timers' event bit. */
module TimerDevices {
  import opened Bytes
  import opened Machine
  import opened Timers

  class TimerSource {
    const m: Cpu
    const kind: Kind
    const channels: seq<nat>
    const ips: real
    var held: bool
    var next: map<nat, real>
    var fired: map<nat, nat>
    var missed: map<nat, nat>
    var arm: set<nat>
    var now: nat

    function State(): Source
      reads this
    {
      Source(kind, channels, ips, held, next, fired, missed, arm, now)
    }

    /** A fresh source that leaves the guest's registers alone. */
    constructor (m: Cpu, kind: Kind, channels: seq<nat>, ips: real, hold: bool)
      ensures this.m == m && State() == Source(kind, channels, ips, hold, map[], map[], map[], {}, 0)
    {
      this.m, this.kind, this.channels, this.ips := m, kind, channels, ips;
      held, next, fired, missed, arm, now := hold, map[], map[], map[], {}, 0;
    }

    /** `release` */
    method Release()
      modifies this`held
      ensures State() == old(State()).(held := false)
    {
      held := false;
    }

    /** The write hook on a DMA timer's registers. */
    method OnWrite(ch: nat)
      modifies this`arm
      ensures State() == ArmWritten(old(State()), ch)
    {
      if kind.Dtim? && ch in channels {
        arm := arm + {ch};
      }
    }

    /** One turn of the loop in `deadline`. */
    method ArmChannel(ch: nat, done: nat)
      modifies this`next, this`arm
      ensures State() == Armed(m.State(), old(State()), ch, done)
    {
      hide Period, Cpu.State;
      var p := Period(m.State(), kind, ch, ips);
      arm := arm - {ch};
      if p.None? {
        next := next - {ch};
      } else if ch !in next {
        next := next[ch := done as real + p.value];
      }
    }

    /** `deadline` */
    method Deadline(done: nat) returns (best: Option<real>)
      modifies this`next, this`arm
      ensures (State(), best) == DeadlineOf(m.State(), old(State()), done)
    {
      hide Period, Armed, DeadlineOver, Cpu.State;
      best := None;
      if held {
        return;
      }
      assert channels[0..] == channels;
      for i := 0 to |channels|
        invariant State().channels == channels
        invariant DeadlineOver(m.State(), State(), channels[i..], done, best) ==
                  DeadlineOver(m.State(), old(State()), channels, done, None)
      {
        var ch := channels[i];
        DeadlineFirst(m.State(), State(), channels, done, best, i);
        ArmChannel(ch, done);
        if ch in next && (best.None? || next[ch] < best.value) {
          best := Some(next[ch]);
        }
      }
      DeadlineFirst(m.State(), State(), channels, done, best, |channels|);
    }

    /** `step` */
    method Step(done: nat, remaining: Option<nat>) returns (n: nat)
      modifies this`next, this`arm
      ensures (State(), n) == StepOf(m.State(), old(State()), done, remaining)
    {
      hide DeadlineOf, Period, Ceil;
      var d := Deadline(done);
      var k := IDLE_STEP;
      if d.Some? {
        k := Max(1, Ceil(d.value - done as real));
      }
      if d.None? && remaining.Some? {
        k := remaining.value;
      }
      if arm != {} {
        k := Min(k, ARM_STEP);
      }
      if remaining.Some? {
        k := Min(k, remaining.value);
      }
      n := Max(1, k);
    }

    /** The due branch of the loop in `service`: the deadline has advanced. */
    method DeliverTick(ch: nat, d: real)
      requires ch < 4 && ch in next && next[ch] == d
      modifies this`fired, this`missed, m
      ensures var t := Delivered(old(m.State()), kind, ch, d);
              m.State() == t.guest && State() == Recorded(old(State()), ch, t.next, t.outcome)
    {
      hide Level, Signalled, Entered, HasHandler, Ipl;
      var g := Signalled(m.State(), kind, ch);
      m.Become(g);
      assert next[ch := d] == next;
      var vec := Vector(kind, ch);
      var level := Level(m.State(), vec, true);
      if level.None? || Ipl(m.sr) >= level.value {
        missed := missed[ch := Count(missed, ch) + 1];
        return;
      }
      var taken := m.RaiseVector(vec, level.value);
      if taken {
        fired := fired[ch := Count(fired, ch) + 1];
      }
    }

    /** One turn of the loop in `service`. */
    method ServeChannel(ch: nat, done: nat)
      requires ch < 4
      modifies this`next, this`fired, this`missed, m
      ensures var v := Serve(old(m.State()), old(State()), ch, done);
              m.State() == v.guest && State() == v.source
    {
      hide Period, Delivered;
      var p := Period(m.State(), kind, ch, ips);
      if p.None? {
        next := next - {ch};
        return;
      }
      if ch !in next {
        next := next[ch := done as real + p.value];
        return;
      }
      if (done as real) < next[ch] {
        assert next[ch := next[ch]] == next;
        return;
      }
      ghost var before := next;
      var d := next[ch] + p.value;
      if d <= done as real {
        d := done as real + p.value;
      }
      next := next[ch := d];
      DeliverTick(ch, d);
      assert before[ch := d] == next;
    }

    /** `service` */
    method Service(done: nat)
      requires ValidChannels(channels)
      modifies this`next, this`fired, this`missed, m
      ensures var p := ServiceOf(old(m.State()), old(State()), done);
              m.State() == p.guest && State() == p.source
    {
      hide Serve;
      if held {
        return;
      }
      ghost var p := ServiceOver(m.State(), State(), channels, done);
      assert channels[0..] == channels;
      for i := 0 to |channels|
        invariant var r := ServiceOver(m.State(), State(), channels[i..], done);
                  r.guest == p.guest && r.source == p.source
      {
        assert channels[i..][0] == channels[i] && channels[i..][1..] == channels[i + 1..];
        ServeChannel(channels[i], done);
      }
    }
  }

  // ---- Timers -------------------------------------------------------------

  function States(ss: seq<TimerSource>): (r: seq<Source>)
    reads ss
    ensures |r| == |ss|
    ensures forall i :: 0 <= i < |ss| ==> r[i] == ss[i].State()
  {
    if ss == [] then [] else [ss[0].State()] + States(ss[1..])
  }

  predicate Distinct(ss: seq<TimerSource>) {
    forall i, j :: 0 <= i < j < |ss| ==> ss[i] != ss[j]
  }

  class TimerSet {
    const m: Cpu
    const sources: seq<TimerSource>

    predicate Valid() {
      && sources != []
      && Distinct(sources)
      && forall i :: 0 <= i < |sources| ==> sources[i].m == m && ValidChannels(sources[i].channels)
    }

    constructor (m: Cpu, sources: seq<TimerSource>)
      ensures this.m == m && this.sources == sources
    {
      this.m, this.sources := m, sources;
    }

    /** The `now` property's setter. */
    method SetNow(now: nat)
      requires Valid()
      modifies sources
      ensures States(sources) == AllNow(old(States(sources)), now)
    {
      for i := 0 to |sources|
        invariant forall j :: 0 <= j < i ==> sources[j].State() == old(sources[j].State()).(now := now)
        invariant forall j :: i <= j < |sources| ==> sources[j].State() == old(sources[j].State())
      {
        sources[i].now := now;
      }
    }

    /** `Timers.step`, as `spin` calls it. */
    method Step(done: nat) returns (n: nat)
      requires Valid()
      modifies sources
      ensures (States(sources), n) == StepAll(m.State(), old(States(sources)), done)
    {
      hide StepOf, StepAll, LeastStep, States, Cpu.State, TimerSource.State;
      ghost var g, olds := m.State(), States(sources);
      LeastStepNext(g, olds, done, 1);
      n := sources[0].Step(done, None);
      for i := 1 to |sources|
        invariant forall j :: 0 <= j < i ==> sources[j].State() == StepOf(g, olds[j], done, None).0
        invariant forall j :: i <= j < |sources| ==> sources[j].State() == olds[j]
        invariant n == LeastStep(g, olds, done, i)
      {
        LeastStepNext(g, olds, done, i + 1);
        var k := sources[i].Step(done, None);
        n := Min(n, k);
      }
      StepAllIs(g, olds, done, States(sources));
    }

    lemma StatesValid()
      requires Valid()
      ensures ValidSources(States(sources))
    {
    }

    /** `Timers.service` */
    method Service(done: nat)
      requires Valid()
      modifies sources, m
      ensures ValidSources(old(States(sources)))
      ensures var p := ServiceAll(old(m.State()), old(States(sources)), done);
              m.State() == p.guest && States(sources) == p.sources
    {
      hide ServiceOf, ServiceAll, States, Cpu.State, TimerSource.State;
      ghost var olds := States(sources);
      StatesValid();
      ghost var p := ServiceAll(m.State(), olds, done);
      assert olds[0..] == olds && p.sources[0..] == p.sources;
      for i := 0 to |sources|
        invariant forall j :: 0 <= j < i ==> sources[j].State() == p.sources[j]
        invariant forall j :: i <= j < |sources| ==> sources[j].State() == olds[j]
        invariant var r := ServiceAll(m.State(), olds[i..], done);
                  r.guest == p.guest && r.sources == p.sources[i..]
      {
        ServiceAllFirst(m.State(), olds, done, i, p.sources);
        sources[i].Service(done);
      }
      ServiceAllEnds(m.State(), olds, done);
    }
  }

  /** `ServiceAll` from source `i` on is that source and then the rest. */
  lemma ServiceAllFirst(g: Guest, ss: seq<Source>, done: nat, i: nat, after: seq<Source>)
    requires ValidSources(ss) && i < |ss| == |after|
    requires ServiceAll(g, ss[i..], done).sources == after[i..]
    ensures var p := ServiceOf(g, ss[i], done);
            var r, rest := ServiceAll(g, ss[i..], done), ServiceAll(p.guest, ss[i + 1..], done);
            r.guest == rest.guest && p.source == after[i] && rest.sources == after[i + 1..]
  {
    hide ServiceOf;
    assert ss[i..][0] == ss[i] && ss[i..][1..] == ss[i + 1..];
    assert after[i..][0] == after[i] && after[i..][1..] == after[i + 1..];
  }

  lemma ServiceAllEnds(g: Guest, ss: seq<Source>, done: nat)
    requires ValidSources(ss)
    ensures ServiceAll(g, ss[|ss|..], done).guest == g
  {
  }

  /** `DeadlineOver` from channel `i` on is that channel and then the rest. */
  lemma DeadlineFirst(g: Guest, s: Source, chans: seq<nat>, done: nat, best: Option<real>, i: nat)
    requires i <= |chans|
    ensures DeadlineOver(g, s, chans[i..], done, best) ==
            if i == |chans| then (s, best)
            else
              var s1 := Armed(g, s, chans[i], done);
              DeadlineOver(g, s1, chans[i + 1..], done, if chans[i] in s1.next then Earlier(best, s1.next[chans[i]]) else best)
  {
    hide Armed;
    if i < |chans| {
      assert chans[i..][0] == chans[i] && chans[i..][1..] == chans[i + 1..];
    }
  }
}
