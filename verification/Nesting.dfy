/** Interrupt nesting: one pass of `Timers.service` stacks at most seven frames,
    each at a higher level than the last, and as many returns undo them. */
module Nesting {
  import opened Bytes
  import opened Machine
  import opened Timers
  import Ssi
  import NoDrift

  /** The levels of the interrupts taken, in order. */
  function Takes(log: seq<Outcome>): seq<nat> {
    if log == [] then []
    else (if log[0].Taken? then [log[0].level] else []) + Takes(log[1..])
  }

  lemma {:induction false} TakesConcat(a: seq<Outcome>, b: seq<Outcome>)
    ensures Takes(a + b) == Takes(a) + Takes(b)
    decreases |a|
  {
    if a == [] {
      assert a + b == b;
    } else {
      var first := if a[0].Taken? then [a[0].level] else [];
      assert (a + b)[0] == a[0] && (a + b)[1..] == a[1..] + b;
      TakesConcat(a[1..], b);
      ConcatAssoc(first, Takes(a[1..]), Takes(b));
    }
  }

  predicate Ascending(s: seq<nat>) {
    forall i, j :: 0 <= i < j < |s| ==> s[i] < s[j]
  }

  // ---- The stack of interrupted states ------------------------------------

  /** What a frame keeps of the code it interrupted. */
  datatype Saved = Saved(sr: u16, pc: u32)

  /** Memory from `sp` up holds a frame for each saved state, innermost first. */
  predicate Stacked(m: Mem, sp: int, saved: seq<Saved>) {
    forall k :: 0 <= k < |saved| ==>
      Load16(m, sp + FRAME_SIZE * k + 2) == saved[k].sr && Load32(m, sp + FRAME_SIZE * k + 4) == saved[k].pc
  }

  /** The register is one the services write: a DMA timer's event register or
      one of the two channel descriptors. */
  predicate ServiceRegister(x: int) {
    || (exists ch :: 0 <= ch < 4 && Dter(ch) == x)
    || Ssi.Tcd(Ssi.RX_CHAN) <= x < Ssi.Tcd(Ssi.RX_CHAN) + 0x20
    || Ssi.Tcd(Ssi.TX_CHAN) <= x < Ssi.Tcd(Ssi.TX_CHAN) + 0x20
  }

  /** No such register lies where services that start at `sp` may push frames. */
  predicate ClearOfRegisters(sp: int) {
    forall x :: sp - 7 * FRAME_SIZE <= x < sp ==> !ServiceRegister(x)
  }

  /** From `orig` interrupts of these levels were taken, in this order, and `g`
      is where the last one left the machine; the frames are still in memory if
      no register lies among them. */
  predicate Nest(orig: Guest, g: Guest, saved: seq<Saved>, levels: seq<nat>) {
    && |levels| == |saved|
    && g.a7 == orig.a7 - FRAME_SIZE * |saved|
    && (ClearOfRegisters(orig.a7) ==> Stacked(g.mem, g.a7, saved))
    && Ascending(levels)
    && (forall i :: 0 <= i < |levels| ==> Ipl(orig.sr) < levels[i] <= Ipl(g.sr))
    && Ipl(g.sr) >= Ipl(orig.sr) + |levels|
    && if saved == [] then g.pc == orig.pc && g.sr == orig.sr
       else saved[|saved| - 1] == Saved(orig.sr, orig.pc)
  }

  lemma StackedKept(m: Mem, n: Mem, sp: int, saved: seq<Saved>)
    requires Stacked(m, sp, saved)
    requires forall x :: sp <= x < sp + FRAME_SIZE * |saved| ==> Load(n, x) == Load(m, x)
    ensures Stacked(n, sp, saved)
  {
    hide Load, Load16, Load32;
    forall k | 0 <= k < |saved|
      ensures Load16(n, sp + FRAME_SIZE * k + 2) == saved[k].sr && Load32(n, sp + FRAME_SIZE * k + 4) == saved[k].pc
    {
      LoadsAgree(m, n, sp + FRAME_SIZE * k + 2, 2);
      LoadsAgree(m, n, sp + FRAME_SIZE * k + 4, 4);
    }
  }

  /** Taking one more interrupt, or only setting an event bit. */
  lemma NestSignalled(orig: Guest, g: Guest, saved: seq<Saved>, levels: seq<nat>, kind: Kind, ch: nat)
    requires Nest(orig, g, saved, levels) && ch < 4
    ensures Nest(orig, Signalled(g, kind, ch), saved, levels)
  {
    hide Stacked, Ipl, Bit;
    assert ServiceRegister(Dter(ch));
    hide Dter;
    var g1 := Signalled(g, kind, ch);
    if ClearOfRegisters(orig.a7) {
      StackedKept(g.mem, g1.mem, g.a7, saved);
    }
  }

  lemma NestEntered(orig: Guest, g: Guest, saved: seq<Saved>, levels: seq<nat>, vec: nat, level: nat)
    requires Nest(orig, g, saved, levels) && vec < 0x400 && Ipl(g.sr) < level <= 7
    ensures Nest(orig, Entered(g, vec, level), [Saved(g.sr, g.pc)] + saved, levels + [level])
  {
    hide Stacked, Ipl, Supervisor, WithIpl, Handler, Load, ClearOfRegisters;
    var g1 := Entered(g, vec, level);
    IplOfEntry(g.sr, level);
    PushedFrame(g, vec, level);
    PushedAbove(g, vec, level);
    if ClearOfRegisters(orig.a7) {
      StackedKept(g.mem, g1.mem, g.a7, saved);
      StackedMore(g1.mem, g1.a7, Saved(g.sr, g.pc), saved);
    }
  }

  lemma StackedMore(m: Mem, sp: int, top: Saved, saved: seq<Saved>)
    requires Load16(m, sp + 2) == top.sr && Load32(m, sp + 4) == top.pc
    requires Stacked(m, sp + FRAME_SIZE, saved)
    ensures Stacked(m, sp, [top] + saved)
  {
    hide Load16, Load32;
    forall k | 0 <= k < |saved| + 1
      ensures Load16(m, sp + FRAME_SIZE * k + 2) == ([top] + saved)[k].sr
      ensures Load32(m, sp + FRAME_SIZE * k + 4) == ([top] + saved)[k].pc
    {
      if k > 0 {
        var j := k - 1;
        assert sp + FRAME_SIZE + FRAME_SIZE * j == sp + FRAME_SIZE * k;
        assert ([top] + saved)[k] == saved[j];
      }
    }
  }

  lemma PushedFrame(g: Guest, vec: nat, level: nat)
    requires vec < 0x400 && level <= 7
    ensures var g1 := Entered(g, vec, level); Load16(g1.mem, g1.a7 + 2) == g.sr && Load32(g1.mem, g1.a7 + 4) == g.pc
  {
    hide Supervisor, WithIpl, Load16, Load32, StoreBytes, Frame, Handler;
    EnterReturn(g, vec, level, Entered(g, vec, level));
  }

  lemma PushedAbove(g: Guest, vec: nat, level: nat)
    requires vec < 0x400 && level <= 7
    ensures forall x :: x >= g.a7 ==> Load(Entered(g, vec, level).mem, x) == Load(g.mem, x)
  {
    hide Frame, Load;
  }

  /** Serving one channel takes at most one interrupt, above every one before. */
  lemma NestServed(orig: Guest, g: Guest, saved: seq<Saved>, levels: seq<nat>, s: Source, ch: nat, done: nat)
    requires Nest(orig, g, saved, levels) && ch < 4
    ensures var v, sig := Serve(g, s, ch, done), Signalled(g, s.kind, ch);
            if v.outcome.Taken? then Nest(orig, v.guest, [Saved(sig.sr, sig.pc)] + saved, levels + [v.outcome.level])
            else Nest(orig, v.guest, saved, levels)
  {
    hide Nest, Period, Level, HasHandler, Entered, Signalled, Ipl, Advanced, ClearOfRegisters;
    NestSignalled(orig, g, saved, levels, s.kind, ch);
    var v, sig := Serve(g, s, ch, done), Signalled(g, s.kind, ch);
    if v.outcome.Taken? {
      NestEntered(orig, sig, saved, levels, Vector(s.kind, ch), v.outcome.level);
    }
  }

  lemma {:induction false} NestOver(orig: Guest, g: Guest, saved: seq<Saved>, levels: seq<nat>, s: Source, chans: seq<nat>, done: nat)
    returns (saved1: seq<Saved>)
    requires Nest(orig, g, saved, levels) && ValidChannels(chans)
    ensures var p := ServiceOver(g, s, chans, done); Nest(orig, p.guest, saved1, levels + Takes(p.log))
    decreases |chans|
  {
    hide Nest, Serve, ClearOfRegisters;
    if chans == [] {
      saved1 := saved;
      assert levels + [] == levels;
    } else {
      var v := Serve(g, s, chans[0], done);
      NestServed(orig, g, saved, levels, s, chans[0], done);
      var sig := Signalled(g, s.kind, chans[0]);
      var took := if v.outcome.Taken? then [v.outcome.level] else [];
      assert levels + [] == levels;
      saved1 := NestOver(orig, v.guest, if v.outcome.Taken? then [Saved(sig.sr, sig.pc)] + saved else saved, levels + took, v.source, chans[1..], done);
      var rest := ServiceOver(v.guest, v.source, chans[1..], done);
      TakesFirst(v.outcome, rest.log);
      ConcatAssoc(levels, took, Takes(rest.log));
    }
  }

  lemma TakesFirst(o: Outcome, log: seq<Outcome>)
    ensures Takes([o] + log) == (if o.Taken? then [o.level] else []) + Takes(log)
  {
    assert ([o] + log)[1..] == log;
  }

  lemma {:induction false} NestAll(orig: Guest, g: Guest, saved: seq<Saved>, levels: seq<nat>, ss: seq<Source>, done: nat)
    returns (saved1: seq<Saved>)
    requires Nest(orig, g, saved, levels) && ValidSources(ss)
    ensures var p := ServiceAll(g, ss, done); Nest(orig, p.guest, saved1, levels + Takes(p.log))
    decreases |ss|
  {
    hide Nest, ServiceOver, Takes, ClearOfRegisters;
    if ss == [] {
      saved1 := saved;
      NoTakes();
      assert levels + [] == levels;
    } else {
      var s := ss[0];
      var p := ServiceOf(g, s, done);
      var mid := saved;
      if s.held {
        NoTakes();
        assert levels + [] == levels;
      } else {
        mid := NestOver(orig, g, saved, levels, s, s.channels, done);
      }
      saved1 := NestAll(orig, p.guest, mid, levels + Takes(p.log), ss[1..], done);
      var rest := ServiceAll(p.guest, ss[1..], done);
      TakesConcat(p.log, rest.log);
      ConcatAssoc(levels, Takes(p.log), Takes(rest.log));
    }
  }

  lemma NoTakes()
    ensures Takes([]) == []
  {
  }

  // ---- Main results -------------------------------------------------------

  lemma NestStarts(g: Guest)
    ensures Nest(g, g, [], [])
  {
    hide Ipl;
  }

  /** In one pass over all the timers the levels of the interrupts taken strictly
      increase above the mask it began with, so no more frames are pushed than
      there are levels above it, and the stack pointer moves by exactly those. */
  lemma NestingIsBounded(g: Guest, ss: seq<Source>, done: nat)
    requires ValidSources(ss)
    ensures var p := ServiceAll(g, ss, done);
            var levels := Takes(p.log);
            Ascending(levels) && |levels| <= 7 - Ipl(g.sr) &&
            (forall i :: 0 <= i < |levels| ==> Ipl(g.sr) < levels[i] <= 7) &&
            p.guest.a7 == g.a7 - FRAME_SIZE * |levels|
  {
    hide Ipl, Stacked, ServiceAll, Takes, ClearOfRegisters;
    NestStarts(g);
    var saved := NestAll(g, g, [], [], ss, done);
    var levels := Takes(ServiceAll(g, ss, done).log);
    assert [] + levels == levels;
  }

  /** One `rte` for each memory, memory being what the handlers left by then. */
  function Unwound(g: Guest, mems: seq<Mem>): Guest
    decreases |mems|
  {
    if mems == [] then g else
      hide Returned;
      Unwound(Returned(g.(mem := mems[0])), mems[1..])
  }

  /** When return number `i` runs, the frames it and the returns after it take
      are still there; what is below, popped frames included, may be anything. */
  ghost predicate FramesKept(g: Guest, top: int, mems: seq<Mem>) {
    forall i, x :: 0 <= i < |mems| && g.a7 + FRAME_SIZE * i <= x < top ==> Load(mems[i], x) == Load(g.mem, x)
  }

  lemma {:induction false} UnwindStack(g: Guest, mems: seq<Mem>, saved: seq<Saved>)
    requires |mems| == |saved|
    requires forall i :: 0 <= i < |mems| ==> Stacked(mems[i], g.a7 + FRAME_SIZE * i, saved[i..])
    ensures var r := Unwound(g, mems);
            r.a7 == g.a7 + FRAME_SIZE * |saved| &&
            if saved == [] then r == g else Saved(r.sr, r.pc) == saved[|saved| - 1]
    decreases |mems|
  {
    hide Load16, Load32, Stacked;
    if saved == [] {
    } else {
      var g1 := Returned(g.(mem := mems[0]));
      assert saved[0..] == saved && Stacked(mems[0], g.a7 + FRAME_SIZE * 0, saved[0..]);
      StackedTop(mems[0], g.a7, saved);
      forall i | 0 <= i < |mems| - 1
        ensures Stacked(mems[1..][i], g1.a7 + FRAME_SIZE * i, saved[1..][i..])
      {
        var j := i + 1;
        assert mems[1..][i] == mems[j] && saved[1..][i..] == saved[j..];
        assert Stacked(mems[j], g.a7 + FRAME_SIZE * j, saved[j..]);
      }
      UnwindStack(g1, mems[1..], saved[1..]);
    }
  }

  /** The frames above the first `i` are stacked where those end. */
  lemma StackedFrom(m: Mem, sp: int, saved: seq<Saved>, i: nat)
    requires Stacked(m, sp, saved) && i <= |saved|
    ensures Stacked(m, sp + FRAME_SIZE * i, saved[i..])
  {
    hide Load16, Load32;
    var rest := saved[i..];
    forall k | 0 <= k < |rest|
      ensures Load16(m, sp + FRAME_SIZE * i + FRAME_SIZE * k + 2) == rest[k].sr
      ensures Load32(m, sp + FRAME_SIZE * i + FRAME_SIZE * k + 4) == rest[k].pc
    {
      var j := i + k;
      assert sp + FRAME_SIZE * j == sp + FRAME_SIZE * i + FRAME_SIZE * k;
      assert rest[k] == saved[j];
    }
  }

  /** Kept frames unwind to the state the first of them interrupted. */
  lemma UnwindKept(g: Guest, mems: seq<Mem>, saved: seq<Saved>)
    requires Stacked(g.mem, g.a7, saved) && |mems| == |saved|
    requires FramesKept(g, g.a7 + FRAME_SIZE * |saved|, mems)
    ensures var r := Unwound(g, mems);
            r.a7 == g.a7 + FRAME_SIZE * |saved| &&
            if saved == [] then r == g else Saved(r.sr, r.pc) == saved[|saved| - 1]
  {
    hide Load, Stacked, Unwound;
    forall i | 0 <= i < |mems|
      ensures Stacked(mems[i], g.a7 + FRAME_SIZE * i, saved[i..])
    {
      StackedFrom(g.mem, g.a7, saved, i);
      StackedKept(g.mem, mems[i], g.a7 + FRAME_SIZE * i, saved[i..]);
    }
    UnwindStack(g, mems, saved);
  }

  lemma StackedTop(m: Mem, sp: int, saved: seq<Saved>)
    requires Stacked(m, sp, saved) && saved != []
    ensures Load16(m, sp + 2) == saved[0].sr && Load32(m, sp + 4) == saved[0].pc
  {
    hide Load16, Load32;
    assert Load16(m, sp + FRAME_SIZE * 0 + 2) == saved[0].sr;
  }

  /** After a pass, as many returns as interrupts were taken restore the program
      counter, status register and stack pointer. Each return only needs the
      frames that are still stacked then: a handler may use the memory below
      them, and so the bytes of frames already popped, as it likes. */
  lemma ReturnsUnwindThePass(g: Guest, ss: seq<Source>, done: nat, mems: seq<Mem>)
    requires ValidSources(ss) && ClearOfRegisters(g.a7)
    requires |mems| == |Takes(ServiceAll(g, ss, done).log)|
    requires FramesKept(ServiceAll(g, ss, done).guest, g.a7, mems)
    ensures var r := Unwound(ServiceAll(g, ss, done).guest, mems);
            r.pc == g.pc && r.sr == g.sr && r.a7 == g.a7
  {
    hide Ipl, ServiceAll, Takes, Unwound, Stacked, FramesKept, ClearOfRegisters;
    NestStarts(g);
    var saved := NestAll(g, g, [], [], ss, done);
    var p := ServiceAll(g, ss, done);
    assert [] + Takes(p.log) == Takes(p.log);
    UnwindKept(p.guest, mems, saved);
  }

  // ---- Ties ---------------------------------------------------------------

  /** A pass never lowers the mask. */
  lemma ServeRaises(g: Guest, s: Source, ch: nat, done: nat)
    requires ch < 4
    ensures var v := Serve(g, s, ch, done);
            Ipl(v.guest.sr) >= Ipl(g.sr) && (v.outcome.Taken? ==> Ipl(v.guest.sr) == v.outcome.level)
  {
    hide Period, Level, HasHandler, Handler, Ipl, Advanced, Supervisor, WithIpl;
    var v, sig := Serve(g, s, ch, done), Signalled(g, s.kind, ch);
    if v.outcome.Taken? {
      IplOfEntry(sig.sr, v.outcome.level);
    }
  }

  lemma {:induction false} VisitRaises(g: Guest, s: Source, chans: seq<nat>, done: nat, j: nat)
    requires ValidChannels(chans) && j < |chans|
    ensures Ipl(NoDrift.VisitGuest(g, s, chans, done, j).sr) >= Ipl(g.sr)
    decreases j
  {
    hide Serve, Ipl;
    if j == 0 {
    } else {
      var v := Serve(g, s, chans[0], done);
      ServeRaises(g, s, chans[0], done);
      VisitRaises(v.guest, v.source, chans[1..], done, j - 1);
    }
  }

  /** The mask a later channel is served under is at least the level of every
      interrupt taken before it in the pass. */
  lemma {:induction false} TakenMasksLater(g: Guest, s: Source, chans: seq<nat>, done: nat, i: nat, j: nat)
    requires ValidChannels(chans) && i < j < |chans|
    requires ServiceOver(g, s, chans, done).log[i].Taken?
    ensures Ipl(NoDrift.VisitGuest(g, s, chans, done, j).sr) >= ServiceOver(g, s, chans, done).log[i].level
    decreases i
  {
    hide Serve, Ipl;
    var v := Serve(g, s, chans[0], done);
    if i == 0 {
      ServeRaises(g, s, chans[0], done);
      VisitRaises(v.guest, v.source, chans[1..], done, j - 1);
    } else {
      TakenMasksLater(v.guest, v.source, chans[1..], done, i - 1, j - 1);
    }
  }

  /** The channel is due in this pass, and its vector's level is `level`. */
  predicate DueAt(at: Guest, s: Source, ch: nat, done: nat, level: nat) {
    && Period(at, s.kind, ch, s.ips).Some?
    && NextOf(s, ch).Some? && NextOf(s, ch).value <= done as real
    && Level(Signalled(at, s.kind, ch), Vector(s.kind, ch), true) == Some(level)
  }

  /** A tie goes to the earlier channel: once one interrupt was taken, a later
      channel that is due at no higher a level is missed, and counted so once. */
  lemma TieIsMissed(g: Guest, s: Source, chans: seq<nat>, done: nat, i: nat, j: nat, level: nat)
    requires ValidChannels(chans) && NoDrift.DistinctChannels(chans) && i < j < |chans|
    requires DueAt(NoDrift.VisitGuest(g, s, chans, done, j), s, chans[j], done, level)
    requires var o := ServiceOver(g, s, chans, done).log[i]; o.Taken? && level <= o.level
    ensures var p := ServiceOver(g, s, chans, done);
            p.log[j] == Missed && Count(p.source.missed, chans[j]) == Count(s.missed, chans[j]) + 1 &&
            Count(p.source.fired, chans[j]) == Count(s.fired, chans[j])
  {
    hide ServiceOver, NoDrift.VisitGuest, DueAt, Ipl, NoDrift.DistinctChannels, Serve;
    TakenMasksLater(g, s, chans, done, i, j);
    NoDrift.PassChannel(g, s, chans, done, j);
    MaskedIsMissed(NoDrift.VisitGuest(g, s, chans, done, j), s, chans[j], done, level);
  }

  lemma MaskedIsMissed(g: Guest, s: Source, ch: nat, done: nat, level: nat)
    requires ch < 4 && DueAt(g, s, ch, done, level) && Ipl(g.sr) >= level
    ensures var v := Serve(g, s, ch, done);
            v.outcome == Missed && Count(v.source.missed, ch) == Count(s.missed, ch) + 1 &&
            Count(v.source.fired, ch) == Count(s.fired, ch)
  {
    hide Period, Level, HasHandler, Ipl, Advanced;
  }

  lemma {:induction false} OverRaises(g: Guest, s: Source, chans: seq<nat>, done: nat)
    requires ValidChannels(chans)
    ensures var p := ServiceOver(g, s, chans, done);
            Ipl(p.guest.sr) >= Ipl(g.sr) &&
            forall k :: 0 <= k < |p.log| && p.log[k].Taken? ==> Ipl(p.guest.sr) >= p.log[k].level
    decreases |chans|
  {
    hide Serve, Ipl;
    if chans == [] {
    } else {
      var v := Serve(g, s, chans[0], done);
      ServeRaises(g, s, chans[0], done);
      OverRaises(v.guest, v.source, chans[1..], done);
    }
  }

  lemma {:induction false} ReachRaises(g: Guest, ss: seq<Source>, done: nat, i: nat)
    requires ValidSources(ss) && i < |ss|
    ensures Ipl(NoDrift.ReachGuest(g, ss, done, i).sr) >= Ipl(g.sr)
    decreases i
  {
    hide ServiceOver, Ipl;
    if i == 0 {
    } else {
      OverRaises(g, ss[0], ss[0].channels, done);
      ReachRaises(ServiceOf(g, ss[0], done).guest, ss[1..], done, i - 1);
    }
  }

  lemma {:induction false} TakenMasksLaterSources(g: Guest, ss: seq<Source>, done: nat, i1: nat, k: nat, i2: nat)
    requires ValidSources(ss) && i1 < i2 < |ss|
    requires var log := ServiceOf(NoDrift.ReachGuest(g, ss, done, i1), ss[i1], done).log; k < |log| && log[k].Taken?
    ensures Ipl(NoDrift.ReachGuest(g, ss, done, i2).sr)
              >= ServiceOf(NoDrift.ReachGuest(g, ss, done, i1), ss[i1], done).log[k].level
    decreases i1
  {
    hide ServiceOver, Ipl;
    var p := ServiceOf(g, ss[0], done);
    if i1 == 0 {
      OverRaises(g, ss[0], ss[0].channels, done);
      ReachRaises(p.guest, ss[1..], done, i2 - 1);
    } else {
      TakenMasksLaterSources(p.guest, ss[1..], done, i1 - 1, k, i2 - 1);
    }
  }

  /** The same between sources: an interrupt taken for source `i1` masks a channel
      of a later source that is due at no higher a level. */
  lemma TieBetweenSources(g: Guest, ss: seq<Source>, done: nat, i1: nat, k: nat, i2: nat, j: nat, level: nat)
    requires ValidSources(ss) && i1 < i2 < |ss| && !ss[i2].held && NoDrift.DistinctChannels(ss[i2].channels)
    requires var log := ServiceOf(NoDrift.ReachGuest(g, ss, done, i1), ss[i1], done).log;
             k < |log| && log[k].Taken? && level <= log[k].level
    requires j < |ss[i2].channels|
    requires DueAt(NoDrift.VisitGuest(NoDrift.ReachGuest(g, ss, done, i2), ss[i2], ss[i2].channels, done, j),
                   ss[i2], ss[i2].channels[j], done, level)
    ensures var s1, ch := ServiceAll(g, ss, done).sources[i2], ss[i2].channels[j];
            Count(s1.missed, ch) == Count(ss[i2].missed, ch) + 1 && Count(s1.fired, ch) == Count(ss[i2].fired, ch)
  {
    hide ServiceOver, ServiceAll, NoDrift.VisitGuest, NoDrift.ReachGuest, DueAt, Ipl, NoDrift.DistinctChannels, Serve;
    var s, g2 := ss[i2], NoDrift.ReachGuest(g, ss, done, i2);
    TakenMasksLaterSources(g, ss, done, i1, k, i2);
    NoDrift.AllPasses(g, ss, done, i2);
    VisitRaises(g2, s, s.channels, done, j);
    NoDrift.PassChannel(g2, s, s.channels, done, j);
    MaskedIsMissed(NoDrift.VisitGuest(g2, s, s.channels, done, j), s, s.channels[j], done, level);
  }

  // ---- Counting -----------------------------------------------------------

  /** A pass counts a tick that has come due exactly once, as taken or as missed,
      unless the level allows it and its handler is missing; it counts nothing
      on a channel that is off, not yet armed or not yet due. */
  lemma PassCountsOnce(g: Guest, s: Source, chans: seq<nat>, done: nat, j: nat)
    requires ValidChannels(chans) && NoDrift.DistinctChannels(chans) && j < |chans|
    ensures var ch := chans[j];
            var at := NoDrift.VisitGuest(g, s, chans, done, j);
            var due := Period(at, s.kind, ch, s.ips).Some? && NextOf(s, ch).Some? && NextOf(s, ch).value <= done as real;
            var vec, sig := Vector(s.kind, ch), Signalled(at, s.kind, ch);
            var level := Level(sig, vec, true);
            var lost := level.Some? && level.value > Ipl(sig.sr) && !HasHandler(sig, vec);
            NoDrift.Counted(ServiceOver(g, s, chans, done).source, ch)
              == NoDrift.Counted(s, ch) + if due && !lost then 1 else 0
  {
    hide ServiceOver, NoDrift.VisitGuest, Period, Level, HasHandler, Ipl, Advanced, Entered, Signalled;
    NoDrift.PassChannel(g, s, chans, done, j);
  }
}
