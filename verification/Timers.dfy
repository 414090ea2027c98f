/** The programmable interval timers (emu/pit.py), the DMA timers (emu/dtim.py)
    and their union `Timers`: deadlines on an instruction-count clock, and
    delivery under the interrupt mask. Periods are exact rationals. */
module Timers {
  import opened Bytes
  import opened Machine

  datatype Kind = Pit | Dtim

  const F_BUS := 132_000_000.0
  const IDLE_STEP := 1_000_000
  const ARM_STEP := 256

  /** The state of one `Pits` or `Dtims`. `arm` stays empty in a `Pits`. */
  datatype Source = Source(
    kind: Kind, channels: seq<nat>, ips: real, held: bool,
    next: map<nat, real>,
    fired: map<nat, nat>, missed: map<nat, nat>,
    arm: set<nat>, now: nat)

  /** Two states of one source: what no operation changes. */
  predicate SameSetup(a: Source, b: Source) {
    a.kind == b.kind && a.channels == b.channels && a.ips == b.ips && a.held == b.held
  }

  function Base(kind: Kind, ch: nat): int {
    (match kind case Pit => 0xFC08_0000 case Dtim => 0xFC07_0000) + 0x4000 * ch
  }

  function Vector(kind: Kind, ch: nat): nat {
    (match kind case Pit => 205 case Dtim => 96) + ch
  }

  /** The address of a DMA timer's event register. */
  function Dter(ch: nat): int {
    Base(Dtim, ch) + 3
  }

  /** `(x >> k) & 1` */
  predicate Bit(x: nat, k: nat) {
    x / Pow2(k) % 2 == 1
  }

  /** Instructions that pass in so many cycles of the bus. */
  function InstructionsIn(cycles: int, ips: real): real {
    cycles as real / F_BUS * ips
  }

  function PitPeriod(pcsr: u16, pmr: u16, ips: real): Option<real> {
    if !Bit(pcsr, 0) || !Bit(pcsr, 3) then None
    else Some(InstructionsIn(Pow2(pcsr / 0x100 % 0x10 + 1) * (pmr + 1), ips))
  }

  function DtimPeriod(dtmr: u16, dtxmr: byte, dtrr: u32, ips: real): Option<real> {
    var clk := dtmr / 2 % 4;
    if !Bit(dtmr, 0) || !Bit(dtmr, 4) || Bit(dtxmr, 7) || clk == 0 || clk == 3 then None
    else
      var div := if clk == 1 then 1 else 16;
      Some(InstructionsIn((dtrr + 1) * (dtmr / 0x100 % 0x100 + 1) * div, ips))
  }

  /** `period`: instructions between interrupts, or none while the timer is off. */
  function Period(g: Guest, kind: Kind, ch: nat, ips: real): Option<real> {
    var b := Base(kind, ch);
    match kind
    case Pit => PitPeriod(Load16(g.mem, b), Load16(g.mem, b + 2), ips)
    case Dtim => DtimPeriod(Load16(g.mem, b), Load(g.mem, b + 2), Load32(g.mem, b + 4), ips)
  }

  function Ceil(x: real): int {
    -((-x).Floor)
  }

  function Count(m: map<nat, nat>, ch: nat): nat {
    if ch in m then m[ch] else 0
  }

  // ---- Deadlines ----------------------------------------------------------

  function Earlier(best: Option<real>, d: real): Option<real> {
    if best.None? || d < best.value then Some(d) else best
  }

  /** One turn of the loop in `deadline`: arm the channel, or disarm it. */
  function Armed(g: Guest, s: Source, ch: nat, done: nat): (r: Source)
    ensures SameSetup(r, s) && r.fired == s.fired && r.missed == s.missed && r.now == s.now
  {
    var s1 := s.(arm := s.arm - {ch});
    match Period(g, s.kind, ch, s.ips)
    case None => s1.(next := s1.next - {ch})
    case Some(p) => if ch in s1.next then s1 else s1.(next := s1.next[ch := done as real + p])
  }

  /** `deadline` over the channels `chans`. */
  function DeadlineOver(g: Guest, s: Source, chans: seq<nat>, done: nat, best: Option<real>): (r: (Source, Option<real>))
    ensures SameSetup(r.0, s) && r.0.fired == s.fired && r.0.missed == s.missed && r.0.now == s.now
    decreases |chans|
  {
    if chans == [] then (s, best)
    else
      hide Period;
      var s1 := Armed(g, s, chans[0], done);
      DeadlineOver(g, s1, chans[1..], done,
                   if chans[0] in s1.next then Earlier(best, s1.next[chans[0]]) else best)
  }

  function DeadlineOf(g: Guest, s: Source, done: nat): (r: (Source, Option<real>))
    ensures SameSetup(r.0, s) && r.0.fired == s.fired && r.0.missed == s.missed && r.0.now == s.now
  {
    if s.held then (s, None) else DeadlineOver(g, s, s.channels, done, None)
  }

  /** `step`: instructions to run before the next `service` is due. */
  function StepOf(g: Guest, s: Source, done: nat, remaining: Option<nat>): (r: (Source, nat))
    ensures r.1 >= 1
    ensures SameSetup(r.0, s) && r.0.fired == s.fired && r.0.missed == s.missed && r.0.now == s.now
  {
    hide DeadlineOver;
    var (s1, d) := DeadlineOf(g, s, done);
    var n0 := match d case None => IDLE_STEP case Some(t) => Max(1, Ceil(t - done as real));
    var n1 := if d.None? && remaining.Some? then remaining.value else n0;
    var n2 := if s1.arm != {} then Min(n1, ARM_STEP) else n1;
    var n3 := if remaining.Some? then Min(n2, remaining.value) else n2;
    (s1, Max(1, n3))
  }

  function Max(a: int, b: int): int {
    if a > b then a else b
  }

  // ---- Service ------------------------------------------------------------

  /** What a pass found at one channel. */
  datatype Outcome = Quiet | Missed | NoHandler | Taken(level: nat)

  datatype Visit = Visit(guest: Guest, source: Source, outcome: Outcome)

  /** The deadline after one that came due, dropping a backlog. */
  function Advanced(d: real, p: real, done: nat): real {
    if d + p <= done as real then done as real + p else d + p
  }

  /** A DMA timer that comes due sets its REF event bit. */
  function Signalled(g: Guest, kind: Kind, ch: nat): Guest {
    match kind
    case Pit => g
    case Dtim =>
      var dter: int := Load(g.mem, Dter(ch));
      g.(mem := g.mem[Dter(ch) := if Bit(dter, 1) then dter else dter + 2])
  }

  function NextOf(s: Source, ch: nat): Option<real> {
    if ch in s.next then Some(s.next[ch]) else None
  }

  /** What serving one channel does to the machine and to its deadline. */
  datatype Tick = Tick(guest: Guest, next: Option<real>, outcome: Outcome)

  /** A tick that has come due: set the event bit, then deliver or miss it. */
  function Delivered(g: Guest, kind: Kind, ch: nat, next: real): Tick
    requires ch < 4
  {
    var g1 := Signalled(g, kind, ch);
    var vec := Vector(kind, ch);
    var level := Level(g1, vec, true);
    if level.None? || Ipl(g1.sr) >= level.value then Tick(g1, Some(next), Missed)
    else if !HasHandler(g1, vec) then Tick(g1, Some(next), NoHandler)
    else Tick(Entered(g1, vec, level.value), Some(next), Taken(level.value))
  }

  function TickOf(g: Guest, kind: Kind, ch: nat, ips: real, next: Option<real>, done: nat): Tick
    requires ch < 4
  {
    match Period(g, kind, ch, ips)
    case None => Tick(g, None, Quiet)
    case Some(p) =>
      if next.None? then Tick(g, Some(done as real + p), Quiet)
      else if (done as real) < next.value then Tick(g, next, Quiet)
      else Delivered(g, kind, ch, Advanced(next.value, p, done))
  }

  /** The source with a tick's deadline and outcome recorded. */
  function Recorded(s: Source, ch: nat, next: Option<real>, outcome: Outcome): (r: Source)
    ensures SameSetup(r, s) && r.arm == s.arm && r.now == s.now
  {
    s.(next := if next.Some? then s.next[ch := next.value] else s.next - {ch},
       fired := if outcome.Taken? then s.fired[ch := Count(s.fired, ch) + 1] else s.fired,
       missed := if outcome.Missed? then s.missed[ch := Count(s.missed, ch) + 1] else s.missed)
  }

  /** One turn of the loop in `service`. */
  function Serve(g: Guest, s: Source, ch: nat, done: nat): (r: Visit)
    requires ch < 4
    ensures SameSetup(r.source, s) && r.source.arm == s.arm && r.source.now == s.now
  {
    hide TickOf;
    var t := TickOf(g, s.kind, ch, s.ips, NextOf(s, ch), done);
    Visit(t.guest, Recorded(s, ch, t.next, t.outcome), t.outcome)
  }

  datatype Pass = Pass(guest: Guest, source: Source, log: seq<Outcome>)

  predicate ValidChannels(chans: seq<nat>) {
    forall i :: 0 <= i < |chans| ==> chans[i] < 4
  }

  /** `service` over the channels `chans`, in order. */
  function ServiceOver(g: Guest, s: Source, chans: seq<nat>, done: nat): (r: Pass)
    requires ValidChannels(chans)
    ensures |r.log| == |chans|
    ensures SameSetup(r.source, s) && r.source.arm == s.arm && r.source.now == s.now
    decreases |chans|
  {
    if chans == [] then Pass(g, s, [])
    else
      hide Serve;
      var v := Serve(g, s, chans[0], done);
      var rest := ServiceOver(v.guest, v.source, chans[1..], done);
      Pass(rest.guest, rest.source, [v.outcome] + rest.log)
  }

  function ServiceOf(g: Guest, s: Source, done: nat): (r: Pass)
    requires ValidChannels(s.channels)
    ensures SameSetup(r.source, s) && r.source.arm == s.arm && r.source.now == s.now
  {
    hide ServiceOver;
    if s.held then Pass(g, s, []) else ServiceOver(g, s, s.channels, done)
  }

  // ---- Several sources ----------------------------------------------------

  predicate ValidSources(ss: seq<Source>) {
    forall i :: 0 <= i < |ss| ==> ValidChannels(ss[i].channels)
  }

  /** The least step of the first `k` sources. */
  function LeastStep(g: Guest, ss: seq<Source>, done: nat, k: nat): (n: nat)
    requires 1 <= k <= |ss|
    ensures n >= 1
  {
    var n := StepOf(g, ss[k - 1], done, None).1;
    if k == 1 then n else Min(LeastStep(g, ss, done, k - 1), n)
  }

  /** `Timers.step`: every source steps, and the least result wins. */
  function StepAll(g: Guest, ss: seq<Source>, done: nat): (r: (seq<Source>, nat))
    requires ss != []
    ensures |r.0| == |ss| && r.1 >= 1
    ensures forall i :: 0 <= i < |ss| ==> r.0[i] == StepOf(g, ss[i], done, None).0
  {
    hide StepOf;
    (seq(|ss|, i requires 0 <= i < |ss| => StepOf(g, ss[i], done, None).0), LeastStep(g, ss, done, |ss|))
  }

  lemma StepAllIs(g: Guest, ss: seq<Source>, done: nat, after: seq<Source>)
    requires ss != [] && |after| == |ss|
    requires forall i :: 0 <= i < |ss| ==> after[i] == StepOf(g, ss[i], done, None).0
    ensures StepAll(g, ss, done) == (after, LeastStep(g, ss, done, |ss|))
  {
    hide StepOf, LeastStep;
    var r := StepAll(g, ss, done).0;
    assert r == after;
  }

  lemma LeastStepNext(g: Guest, ss: seq<Source>, done: nat, k: nat)
    requires 1 <= k <= |ss|
    ensures var n := StepOf(g, ss[k - 1], done, None).1;
            LeastStep(g, ss, done, k) == if k == 1 then n else Min(LeastStep(g, ss, done, k - 1), n)
  {
    hide StepOf;
  }

  datatype FullPass = FullPass(guest: Guest, sources: seq<Source>, log: seq<Outcome>)

  /** `Timers.service`: the sources in order, on one machine. */
  function ServiceAll(g: Guest, ss: seq<Source>, done: nat): (r: FullPass)
    requires ValidSources(ss)
    ensures |r.sources| == |ss|
    ensures forall i :: 0 <= i < |ss| ==> SameSetup(r.sources[i], ss[i])
    decreases |ss|
  {
    hide ServiceOf;
    if ss == [] then FullPass(g, [], [])
    else
      var p := ServiceOf(g, ss[0], done);
      var rest := ServiceAll(p.guest, ss[1..], done);
      FullPass(rest.guest, [p.source] + rest.sources, p.log + rest.log)
  }

  /** A guest write to channel `ch` of the DMA timers, as the write hook records it. */
  function ArmWritten(s: Source, ch: nat): Source {
    if s.kind.Dtim? && ch in s.channels then s.(arm := s.arm + {ch}) else s
  }

  function AllNow(ss: seq<Source>, now: nat): (r: seq<Source>)
    ensures |r| == |ss|
  {
    seq(|ss|, i requires 0 <= i < |ss| => ss[i].(now := now))
  }
}
