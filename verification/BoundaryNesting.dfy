/** Interrupt nesting at a whole boundary of the scheduler: the serial interface's
    deliveries and the timers' together still stack at most seven frames. */
module BoundaryNesting {
  import opened Bytes
  import opened Machine
  import opened Timers
  import Ssi
  import opened Spin
  import opened Nesting
  import SsiTheorems

  // ---- What a minor loop touches ------------------------------------------

  predicate InDescriptor(ch: nat, x: int) {
    Ssi.Tcd(ch) <= x < Ssi.Tcd(ch) + 0x20
  }

  /** The two guests differ in the descriptor of channel `ch` only. */
  ghost predicate OnlyDescriptor(g: Guest, g1: Guest, ch: nat) {
    && g1 == g.(mem := g1.mem)
    && forall x :: !InDescriptor(ch, x) ==> Load(g1.mem, x) == Load(g.mem, x)
  }

  lemma OnlyDescriptorTwice(g: Guest, g1: Guest, g2: Guest, ch: nat)
    requires OnlyDescriptor(g, g1, ch) && OnlyDescriptor(g1, g2, ch)
    ensures OnlyDescriptor(g, g2, ch)
  {
    hide Load;
  }

  lemma WriteOnly(g: Guest, ch: nat, off: nat, v: u32, h: u16)
    ensures off + 4 <= 0x20 ==> OnlyDescriptor(g, Ssi.Write32(g, Ssi.Tcd(ch) + off, v), ch)
    ensures off + 2 <= 0x20 ==> OnlyDescriptor(g, Ssi.Write16(g, Ssi.Tcd(ch) + off, h), ch)
  {
    hide Load, Bytes32, Bytes16;
  }

  lemma GatherOnly(g: Guest, s: Ssi.State, ch: nat)
    ensures var r := Ssi.Gathered(g, s, ch); r.Ok? ==> OnlyDescriptor(g, r.value.0, ch)
  {
    hide Load, Load32;
  }

  lemma MajorOnly(g: Guest, s: Ssi.State, ch: nat, source: u32, dest: u32, biter: u16)
    ensures var r := Ssi.MajorLoop(g, s, ch, source, dest, biter); r.Ok? ==> OnlyDescriptor(g, r.value.0, ch)
  {
    hide Load, Load16, Load32, Ssi.Gathered, Ssi.Write32, Ssi.Write16, Ssi.Signed, Timers.Bit, Ssi.Counted,
         Ssi.RaisesInterrupt, OnlyDescriptor;
    var t := Ssi.Tcd(ch);
    var source1 := (source + Ssi.Signed(Load32(g.mem, t + Ssi.SLAST), 0x8000_0000)) % WORD;
    var g1 := Ssi.Write32(g, t + Ssi.SADDR, source1);
    var dest1 := (dest + Ssi.Signed(Load32(g1.mem, t + Ssi.DLAST), 0x8000_0000)) % WORD;
    var g2 := Ssi.Write32(g1, t + Ssi.DADDR, dest1);
    WriteOnly(g, ch, Ssi.SADDR, source1, 0);
    GatherOnly(g1, s.(majorLoops := Ssi.Counted(s.majorLoops, ch)), ch);
    WriteOnly(g1, ch, Ssi.DADDR, dest1, 0);
    WriteOnly(g2, ch, Ssi.CITER, 0, biter);
    OnlyDescriptorTwice(g1, g2, Ssi.Write16(g2, t + Ssi.CITER, biter), ch);
    forall after | OnlyDescriptor(g1, after, ch)
      ensures OnlyDescriptor(g, after, ch)
    {
      OnlyDescriptorTwice(g, g1, after, ch);
    }
  }

  lemma MinorOnly(g: Guest, s: Ssi.State, ch: nat, capture: bool)
    ensures var r := Ssi.RunMinor(g, s, ch, capture); r.Ok? ==> OnlyDescriptor(g, r.value.guest, ch)
  {
    SameDescriptor(g, ch);
    hide Load, Load16, Load32, Ssi.Walk, Ssi.Captured, Ssi.Write32, Ssi.Write16, Ssi.Signed, Ssi.MajorLoop,
         Ssi.CountSent, Ssi.RaisesInterrupt, OnlyDescriptor;
    var t := Ssi.Tcd(ch);
    var r, citer := Ssi.RunMinor(g, s, ch, capture), Load16(g.mem, t + Ssi.CITER);
    if r.Ok? && SsiTheorems.Runs(g, s, ch) {
      var words := Load32(g.mem, t + Ssi.NBYTES) / 4;
      var source := Ssi.Walk(Load32(g.mem, t + Ssi.SADDR), Ssi.Signed(Load16(g.mem, t + Ssi.SOFF), 0x8000), words);
      var dest := Ssi.Walk(Load32(g.mem, t + Ssi.DADDR), Ssi.Signed(Load16(g.mem, t + Ssi.DOFF), 0x8000), words);
      var g2 := Ssi.WrittenBack(g, ch, source, dest, citer - 1);
      WrittenBackOnly(g, ch, source, dest, citer - 1);
      if citer == 1 {
        SsiTheorems.LastMinor(g, s, ch, capture, source, dest);
        var s2, biter := Ssi.CountSent(s, r.value.captured), Load16(g.mem, t + Ssi.BITER);
        MajorOnly(g2, s2, ch, source, dest, biter);
        OnlyDescriptorTwice(g, g2, r.value.guest, ch);
      }
    }
  }

  lemma SameDescriptor(g: Guest, ch: nat)
    ensures OnlyDescriptor(g, g, ch)
  {
  }

  lemma WrittenBackOnly(g: Guest, ch: nat, source: u32, dest: u32, citer: u16)
    ensures OnlyDescriptor(g, Ssi.WrittenBack(g, ch, source, dest, citer), ch)
  {
    hide OnlyDescriptor, Ssi.Write32, Ssi.Write16;
    var t := Ssi.Tcd(ch);
    var g1 := Ssi.Write32(g, t + Ssi.SADDR, source);
    var g2 := Ssi.Write32(g1, t + Ssi.DADDR, dest);
    WriteOnly(g, ch, Ssi.SADDR, source, 0);
    WriteOnly(g1, ch, Ssi.DADDR, dest, 0);
    WriteOnly(g2, ch, Ssi.CITER, 0, citer);
    OnlyDescriptorTwice(g, g1, g2, ch);
    OnlyDescriptorTwice(g, g2, Ssi.Write16(g2, t + Ssi.CITER, citer), ch);
  }

  // ---- One source of events -----------------------------------------------

  lemma NestMinor(orig: Guest, g: Guest, saved: seq<Saved>, levels: seq<nat>, s: Ssi.State, ch: nat, capture: bool)
    requires Nest(orig, g, saved, levels) && (ch == Ssi.RX_CHAN || ch == Ssi.TX_CHAN)
    ensures var r := Ssi.RunMinor(g, s, ch, capture); r.Ok? ==> Nest(orig, r.value.guest, saved, levels)
  {
    hide Ssi.RunMinor, Stacked, Ipl, Load, ClearOfRegisters;
    MinorOnly(g, s, ch, capture);
    var r := Ssi.RunMinor(g, s, ch, capture);
    if r.Ok? && ClearOfRegisters(orig.a7) {
      ClearOfDescriptor(orig.a7, ch);
      StackedKept(g.mem, r.value.guest.mem, g.a7, saved);
    }
  }

  lemma ClearOfDescriptor(sp: int, ch: nat)
    requires ClearOfRegisters(sp) && (ch == Ssi.RX_CHAN || ch == Ssi.TX_CHAN)
    ensures forall x :: InDescriptor(ch, x) ==> x < sp - 7 * FRAME_SIZE || x >= sp
  {
    forall x | InDescriptor(ch, x)
      ensures x < sp - 7 * FRAME_SIZE || x >= sp
    {
      assert ServiceRegister(x);
    }
  }

  lemma NestDelivered(orig: Guest, g: Guest, saved: seq<Saved>, levels: seq<nat>, s: Ssi.State)
    returns (saved1: seq<Saved>, levels1: seq<nat>)
    requires Nest(orig, g, saved, levels)
    ensures var (g1, s1) := Ssi.Deliver170(g, s);
            var (g2, s2) := Ssi.Deliver191(g1, s1);
            Nest(orig, g2, saved1, levels1) && s2.vector170 >= s.vector170 && s2.vector191 >= s.vector191 &&
            |levels1| == |levels| + (s2.vector170 - s.vector170) + (s2.vector191 - s.vector191)
  {
    hide Nest, Level, HasHandler, Entered, Ipl;
    var (g1, s1) := Ssi.Deliver170(g, s);
    saved1, levels1 := saved, levels;
    if s1.vector170 > s.vector170 {
      var level := Level(g, Ssi.TX_VECTOR, true).value;
      NestEntered(orig, g, saved1, levels1, Ssi.TX_VECTOR, level);
      saved1, levels1 := [Saved(g.sr, g.pc)] + saved1, levels1 + [level];
    }
    var s2 := Ssi.Deliver191(g1, s1).1;
    if s2.vector191 > s1.vector191 {
      var level := Level(g1, Ssi.FORCE_VECTOR, false).value;
      NestEntered(orig, g1, saved1, levels1, Ssi.FORCE_VECTOR, level);
      saved1, levels1 := [Saved(g1.sr, g1.pc)] + saved1, levels1 + [level];
    }
  }

  /** Deliveries between two states of one source of events. */
  function Delivered(before: Ssi.State, after: Ssi.State): int {
    (after.vector170 - before.vector170) + (after.vector191 - before.vector191)
  }

  lemma NestRequest(orig: Guest, g: Guest, saved: seq<Saved>, levels: seq<nat>, s: Ssi.State, done: nat)
    requires Nest(orig, g, saved, levels) && Ssi.RequestDue(s, done)
    ensures var r := Ssi.Request(g, s, done);
            r.Ok? ==> Nest(orig, r.value.guest, saved, levels) && Delivered(s, r.value.ssi) == 0
  {
    hide Nest, Ssi.RunMinor, Advanced;
    var s1 := s.(requests := s.requests + 1);
    NestMinor(orig, g, saved, levels, s1, Ssi.RX_CHAN, false);
    SsiTheorems.MinorLatches(g, s1, Ssi.RX_CHAN, false);
    var rx := Ssi.RunMinor(g, s1, Ssi.RX_CHAN, false);
    if rx.Ok? {
      NestMinor(orig, rx.value.guest, saved, levels, rx.value.ssi, Ssi.TX_CHAN, true);
      SsiTheorems.MinorLatches(rx.value.guest, rx.value.ssi, Ssi.TX_CHAN, true);
    }
  }

  lemma NestService(orig: Guest, g: Guest, saved: seq<Saved>, levels: seq<nat>, s: Ssi.State, done: nat)
    returns (saved1: seq<Saved>, levels1: seq<nat>)
    requires Nest(orig, g, saved, levels) && Ssi.ServiceOf(g, s, done).Ok?
    ensures var r := Ssi.ServiceOf(g, s, done).value;
            Nest(orig, r.guest, saved1, levels1) && |levels1| == |levels| + Delivered(s, r.ssi)
  {
    hide Nest, Ssi.Request, Ssi.Deliver170, Ssi.Deliver191;
    var s1 := s.(now := done);
    var at, mid := g, s1;
    if Ssi.RequestDue(s1, done) {
      NestRequest(orig, g, saved, levels, s1, done);
      at, mid := Ssi.Request(g, s1, done).value.guest, Ssi.Request(g, s1, done).value.ssi;
    }
    saved1, levels1 := NestDelivered(orig, at, saved, levels, mid);
  }

  // ---- The whole boundary -------------------------------------------------

  /** Deliveries between two states of all the sources of events. */
  function AllDelivered(before: seq<Ssi.State>, after: seq<Ssi.State>): int
    requires |before| == |after|
  {
    if before == [] then 0 else Delivered(before[0], after[0]) + AllDelivered(before[1..], after[1..])
  }

  lemma {:induction false} NestEvents(orig: Guest, g: Guest, saved: seq<Saved>, levels: seq<nat>, events: seq<Ssi.State>, done: nat)
    returns (saved1: seq<Saved>, levels1: seq<nat>)
    requires Nest(orig, g, saved, levels) && ServeEvents(g, events, done).Ok?
    ensures var r := ServeEvents(g, events, done).value;
            Nest(orig, r.0, saved1, levels1) && |levels1| == |levels| + AllDelivered(events, r.1)
    decreases |events|
  {
    hide Nest, Ssi.ServiceOf, Delivered;
    if events == [] {
      saved1, levels1 := saved, levels;
    } else {
      var moved := Ssi.ServiceOf(g, events[0], done).value;
      saved1, levels1 := NestService(orig, g, saved, levels, events[0], done);
      saved1, levels1 := NestEvents(orig, moved.guest, saved1, levels1, events[1..], done);
      var rest := ServeEvents(moved.guest, events[1..], done).value;
      assert ([moved.ssi] + rest.1)[1..] == rest.1;
    }
  }

  /** The frames pushed at one boundary: the events' deliveries and the timers'. */
  function FramesAt(w: World, clock: nat): int
    requires ValidWorld(w) && Served(w, clock).Ok?
  {
    var (g, events) := ServeEvents(w.guest, w.events, clock).value;
    AllDelivered(w.events, events) + |Takes(ServiceAll(g, AllNow(w.sources, clock), clock).log)|
  }

  /** Main result: at one boundary of the scheduler no more frames are pushed than
      there are levels above the mask, over all sources together, and as many
      returns as frames restore program counter, status register and stack
      pointer, each needing only the frames that are still stacked then. */
  lemma BoundaryNests(w: World, clock: nat, mems: seq<Mem>)
    requires ValidWorld(w) && Served(w, clock).Ok?
    ensures var g, g1, n := w.guest, Served(w, clock).value.guest, FramesAt(w, clock);
            0 <= n <= 7 - Ipl(g.sr) && g1.a7 == g.a7 - FRAME_SIZE * n &&
            (|mems| == n && ClearOfRegisters(g.a7) && FramesKept(g1, g.a7, mems) ==>
               var r := Unwound(g1, mems); r.pc == g.pc && r.sr == g.sr && r.a7 == g.a7)
  {
    hide Ipl, ServiceAll, ServeEvents, Takes, Unwound, Stacked, FramesKept, ClearOfRegisters, AllDelivered;
    var g := w.guest;
    NestStarts(g);
    var saved, levels := NestEvents(g, g, [], [], w.events, clock);
    var (mid, _) := ServeEvents(g, w.events, clock).value;
    var p := ServiceAll(mid, AllNow(w.sources, clock), clock);
    saved := NestAll(g, mid, saved, levels, AllNow(w.sources, clock), clock);
    if |mems| == |saved| && ClearOfRegisters(g.a7) && FramesKept(p.guest, g.a7, mems) {
      UnwindKept(p.guest, mems, saved);
    }
  }
}
