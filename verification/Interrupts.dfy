/** What the registers decide, at their addresses: the timers' rates, the mask and
    level bits of the interrupt controllers, the outcome of a tick that has come
    due, and the state in which a handler starts. */
module Interrupts {
  import opened Bytes
  import opened Machine
  import opened Timers
  import Ssi
  import NoDrift

  // ---- Rates --------------------------------------------------------------

  /** Bus cycles between a PIT's interrupts: the modulus plus one, times two for the
      prescaler field and each step of it. */
  function PitCycles(field: nat, modulus: nat): nat {
    2 * Pow2(field % 0x10) * (modulus + 1)
  }

  /** And a DMA timer's: the reference plus one, times the prescaler plus one, times
      16 when the clock field is 10. */
  function DtimCycles(prescaler: nat, mode: nat, reference: nat): nat {
    (reference + 1) * (prescaler + 1) * (if mode / 2 % 4 == 2 then 16 else 1)
  }

  lemma PitRegisters(pcsr: u16, field: nat, control: nat, pmr: u16, ips: real)
    requires field < 0x100 && control < 0x100 && pcsr == field * 0x100 + control
    ensures PitPeriod(pcsr, pmr, ips) ==
              if control % 2 == 1 && control / 8 % 2 == 1 then Some(InstructionsIn(PitCycles(field, pmr), ips)) else None
  {
    HighByte(field, control);
    LowBits(pcsr);
    Pow2Next(field % 0x10);
    hide Bit, Pow2, InstructionsIn;
  }

  lemma DtimRegisters(dtmr: u16, prescaler: nat, mode: nat, dtxmr: byte, dtrr: u32, ips: real)
    requires prescaler < 0x100 && mode < 0x100 && dtmr == prescaler * 0x100 + mode
    ensures var clock := mode / 2 % 4;
            DtimPeriod(dtmr, dtxmr, dtrr, ips) ==
              if mode % 2 == 1 && mode / 0x10 % 2 == 1 && dtxmr < 0x80 && (clock == 1 || clock == 2)
              then Some(InstructionsIn(DtimCycles(prescaler, mode, dtrr), ips)) else None
  {
    hide Bit, InstructionsIn, DtimCycles, DtimPeriod;
    DtimModes(dtmr, prescaler, mode);
    TopBit(dtxmr);
    DtimCyclesAre(prescaler, mode, dtrr);
    DtimPeriodIs(dtmr, dtxmr, dtrr, ips, prescaler, mode / 2 % 4);
  }

  lemma DtimModes(dtmr: u16, prescaler: nat, mode: nat)
    requires prescaler < 0x100 && mode < 0x100 && dtmr == prescaler * 0x100 + mode
    ensures dtmr / 0x100 % 0x100 == prescaler && dtmr / 2 % 4 == mode / 2 % 4
    ensures Bit(dtmr, 0) <==> mode % 2 == 1
    ensures Bit(dtmr, 4) <==> mode / 0x10 % 2 == 1
  {
    HighByte(prescaler, mode);
    LowBits(dtmr);
    hide Bit;
  }

  lemma TopBit(b: byte)
    ensures Bit(b, 7) <==> b >= 0x80
  {
    LowBits(b);
    hide Bit;
  }

  lemma DtimPeriodIs(dtmr: u16, dtxmr: byte, dtrr: u32, ips: real, prescaler: nat, clock: nat)
    requires dtmr / 0x100 % 0x100 == prescaler && dtmr / 2 % 4 == clock < 4
    ensures DtimPeriod(dtmr, dtxmr, dtrr, ips) ==
              if Bit(dtmr, 0) && Bit(dtmr, 4) && !Bit(dtxmr, 7) && (clock == 1 || clock == 2)
              then Some(InstructionsIn((dtrr + 1) * (prescaler + 1) * (if clock == 2 then 16 else 1), ips)) else None
  {
    hide Bit, InstructionsIn;
  }

  lemma DtimCyclesAre(prescaler: nat, mode: nat, reference: nat)
    ensures var clock := mode / 2 % 4;
            DtimCycles(prescaler, mode, reference) == (reference + 1) * (prescaler + 1) * (if clock == 2 then 16 else 1)
  {
  }

  /** A PIT runs while bits 0 and 3 of its second byte are set, at so many cycles of
      a 132 MHz bus. */
  lemma PitRate(g: Guest, ch: nat, ips: real)
    requires ch < 4
    ensures var b := 0xFC08_0000 + 0x4000 * ch;
            var field: int, control: int, modulus: int := Load(g.mem, b), Load(g.mem, b + 1), Load16(g.mem, b + 2);
            var p := Period(g, Pit, ch, ips);
            (p.Some? <==> control % 2 == 1 && control / 8 % 2 == 1) &&
            (p.Some? ==> p.value * 132_000_000.0 == PitCycles(field, modulus) as real * ips)
  {
    var b := 0xFC08_0000 + 0x4000 * ch;
    HalfwordIs(g.mem, b);
    hide Load, Load16, PitPeriod, PitCycles, InstructionsIn;
    PitRegisters(Load16(g.mem, b), Load(g.mem, b), Load(g.mem, b + 1), Load16(g.mem, b + 2), ips);
    Rate(PitCycles(Load(g.mem, b), Load16(g.mem, b + 2)), ips);
  }

  /** A DMA timer runs while bits 0 and 4 of its mode byte are set, bit 7 of its
      extended mode is clear and its clock field is 01 or 10. */
  lemma DtimRate(g: Guest, ch: nat, ips: real)
    requires ch < 4
    ensures var b := 0xFC07_0000 + 0x4000 * ch;
            var prescaler: int, mode: int, extended: int := Load(g.mem, b), Load(g.mem, b + 1), Load(g.mem, b + 2);
            var clock, reference: int := mode / 2 % 4, Load32(g.mem, b + 4);
            var p := Period(g, Dtim, ch, ips);
            (p.Some? <==> mode % 2 == 1 && mode / 0x10 % 2 == 1 && extended < 0x80 && (clock == 1 || clock == 2)) &&
            (p.Some? ==> p.value * 132_000_000.0 == DtimCycles(prescaler, mode, reference) as real * ips)
  {
    var b := 0xFC07_0000 + 0x4000 * ch;
    HalfwordIs(g.mem, b);
    hide Load, Load16, Load32, DtimPeriod, DtimCycles, InstructionsIn;
    DtimRegisters(Load16(g.mem, b), Load(g.mem, b), Load(g.mem, b + 1), Load(g.mem, b + 2), Load32(g.mem, b + 4), ips);
    Rate(DtimCycles(Load(g.mem, b), Load(g.mem, b + 1), Load32(g.mem, b + 4)), ips);
  }

  /** Two rates the firmware programs, `ips` instructions to the second: DTIM3 with
      reference 0x43238 ticks just below 30 Hz, and PIT0, as the context switcher
      arms it with 0x053F, every 20 ms exactly. */
  lemma FirmwareRates(g: Guest, ips: real)
    requires ips > 0.0
    ensures Load(g.mem, 0xFC07_C000) == 0x00 && Load(g.mem, 0xFC07_C001) == 0x1D && Load(g.mem, 0xFC07_C002) == 0 &&
            Load32(g.mem, 0xFC07_C004) == 0x4_3238 ==>
              Period(g, Dtim, 3, ips).Some? && 29.99 * Period(g, Dtim, 3, ips).value < ips < 30.0 * Period(g, Dtim, 3, ips).value
    ensures Load(g.mem, 0xFC08_0000) == 0x05 && Load(g.mem, 0xFC08_0001) == 0x3F && Load16(g.mem, 0xFC08_0002) == 0xA121 ==>
              Period(g, Pit, 0, ips).Some? && 50.0 * Period(g, Pit, 0, ips).value == ips
  {
    hide Load, Load16, Load32, Period, PitCycles, DtimCycles;
    DtimRate(g, 3, ips);
    PitRate(g, 0, ips);
    KnownCycles();
  }

  lemma KnownCycles()
    ensures DtimCycles(0x00, 0x1D, 0x4_3238) == 4_400_016 && PitCycles(0x05, 0xA121) == 2_640_000
  {
    Powers();
    hide Pow2;
  }

  lemma HalfwordIs(m: Mem, a: int)
    ensures Load16(m, a) == Load(m, a) as int * 0x100 + Load(m, a + 1) as int
  {
    hide Load;
  }

  /** The bits tested, by division. */
  lemma LowBits(w: nat)
    ensures Bit(w, 0) <==> w % 2 == 1
    ensures Bit(w, 1) <==> w / 2 % 2 == 1
    ensures Bit(w, 3) <==> w / 8 % 2 == 1
    ensures Bit(w, 4) <==> w / 0x10 % 2 == 1
    ensures Bit(w, 7) <==> w / 0x80 % 2 == 1
  {
    Powers();
    hide Pow2;
  }

  lemma Rate(cycles: nat, ips: real)
    ensures InstructionsIn(cycles, ips) * 132_000_000.0 == cycles as real * ips
  {
  }

  /** A halfword by its bytes. */
  lemma HighByte(hi: nat, lo: nat)
    requires hi < 0x100 && lo < 0x100
    ensures var w := hi * 0x100 + lo;
            w / 0x100 == hi && w % 2 == lo % 2 && w / 2 % 4 == lo / 2 % 4 && w / 8 % 2 == lo / 8 % 2 && w / 0x10 % 2 == lo / 0x10 % 2
  {
    var w := hi * 0x100 + lo;
    DivModUnique(w, 0x100, hi, lo);
    DivModUnique(w, 2, 0x80 * hi + lo / 2, lo % 2);
    DivModUnique(w / 2, 4, 0x20 * hi + lo / 2 / 4, lo / 2 % 4);
    DivModUnique(w, 8, 0x20 * hi + lo / 8, lo % 8);
    DivModUnique(w / 8, 2, 0x10 * hi + lo / 8 / 2, lo / 8 % 2);
    DivModUnique(w, 0x10, 0x10 * hi + lo / 0x10, lo % 0x10);
    DivModUnique(w / 0x10, 2, 8 * hi + lo / 0x10 / 2, lo / 0x10 % 2);
  }

  // ---- Mask and level -----------------------------------------------------

  /** What a controller answers for a source: its level, the low three bits of its
      byte at `icr`, unless that is zero or bit `mask` of the word at `imr` is set. */
  function Answer(m: Mem, icr: int, imr: int, mask: nat): Option<nat> {
    var level := Load(m, icr) % 8;
    if level == 0 || Bit(Load32(m, imr), mask) then None else Some(level)
  }

  lemma PitLevel(g: Guest, ch: nat)
    requires ch < 4
    ensures Level(g, 205 + ch, true) == Answer(g.mem, 0xFC05_004D + ch, 0xFC05_000C, 13 + ch)
  {
    hide Load, Load32, Pow2;
  }

  lemma DtimLevel(g: Guest, ch: nat)
    requires ch < 4
    ensures Level(g, 96 + ch, true) == Answer(g.mem, 0xFC04_8060 + ch, 0xFC04_8008, ch)
  {
    hide Load, Load32, Pow2;
  }

  lemma TransmitLevel(g: Guest)
    ensures Level(g, 170, true) == Answer(g.mem, 0xFC04_C06A, 0xFC04_C008, 10)
  {
    hide Load, Load32, Pow2;
  }

  /** The forced interrupt passes the mask by. */
  lemma ForceLevel(g: Guest)
    ensures var level := Load(g.mem, 0xFC04_C07F) % 8; Level(g, 191, false) == if level == 0 then None else Some(level)
  {
    hide Load, Load32, Pow2;
  }

  /** A handler, by its entry in the vector table at 0x4000_0000. */
  function HandlerAt(m: Mem, vec: nat): u32 {
    Load32(m, 0x4000_0000 + 4 * vec)
  }

  // ---- A tick that has come due -------------------------------------------

  /** What becomes of an interrupt at the mask `ipl`, by what the controller and the
      vector table hold: missed, lost for want of a handler, or taken. */
  function Fate(answer: Option<nat>, handler: u32, ipl: nat): Outcome {
    if answer.None? || answer.value <= ipl then Missed
    else if handler == 0 || handler >= 0x4800_0000 then NoHandler
    else Taken(answer.value)
  }

  /** What a due tick does: the event bit of a DMA timer set, then its fate; one
      count for a taken or missed tick, and a taken one's handler starts. */
  lemma DueFate(g: Guest, s: Source, ch: nat, done: nat)
    requires ch < 4 && Period(g, s.kind, ch, s.ips).Some?
    requires NextOf(s, ch).Some? && NextOf(s, ch).value <= done as real
    ensures var v, sig, vec := Serve(g, s, ch, done), Signalled(g, s.kind, ch), Vector(s.kind, ch);
            v.outcome == Fate(Level(sig, vec, true), HandlerAt(sig.mem, vec), Ipl(g.sr)) &&
            Count(v.source.fired, ch) == Count(s.fired, ch) + (if v.outcome.Taken? then 1 else 0) &&
            Count(v.source.missed, ch) == Count(s.missed, ch) + (if v.outcome.Missed? then 1 else 0) &&
            v.guest == if v.outcome.Taken? then Entered(sig, vec, v.outcome.level) else sig
  {
    hide Period, Level, Load32, Load, Ipl, Entered, Advanced;
  }

  /** PIT `ch`, due: the mask is bit 13 + ch of the word at 0xFC05_000C, and the
      level the low three bits of the byte at 0xFC05_004D + ch. */
  lemma PitTick(g: Guest, s: Source, ch: nat, done: nat)
    requires s.kind.Pit? && ch < 4 && Period(g, Pit, ch, s.ips).Some?
    requires NextOf(s, ch).Some? && NextOf(s, ch).value <= done as real
    ensures var v := Serve(g, s, ch, done);
            var answer, handler := Answer(g.mem, 0xFC05_004D + ch, 0xFC05_000C, 13 + ch), HandlerAt(g.mem, 205 + ch);
            v.outcome == Fate(answer, handler, Ipl(g.sr)) &&
            Count(v.source.fired, ch) == Count(s.fired, ch) + (if v.outcome.Taken? then 1 else 0) &&
            Count(v.source.missed, ch) == Count(s.missed, ch) + (if v.outcome.Missed? then 1 else 0) &&
            if v.outcome.Taken? then v.guest.pc == handler && Ipl(v.guest.sr) == answer.value else v.guest == g
  {
    hide Period, Level, Load32, Load, Ipl, Answer, Serve, Supervisor, WithIpl;
    DueFate(g, s, ch, done);
    PitLevel(g, ch);
    if Serve(g, s, ch, done).outcome.Taken? {
      TakenLevel(g, s, ch, done);
    }
  }

  lemma TakenLevel(g: Guest, s: Source, ch: nat, done: nat)
    requires ch < 4 && Serve(g, s, ch, done).outcome.Taken?
    ensures Serve(g, s, ch, done).outcome.level <= 7
    ensures Ipl(Serve(g, s, ch, done).guest.sr) == Serve(g, s, ch, done).outcome.level
  {
    hide Period, Level, Load32, Load, Ipl, Advanced, Supervisor, WithIpl, HasHandler, Handler;
    IplOfEntry(g.sr, Serve(g, s, ch, done).outcome.level);
  }

  /** Setting an event bit leaves every other byte as it was. */
  lemma SignalledLoads(g: Guest, ch: nat)
    requires ch < 4
    ensures var sig, dter := Signalled(g, Dtim, ch), 0xFC07_0003 + 0x4000 * ch;
            sig == g.(mem := sig.mem) && Ipl(sig.sr) == Ipl(g.sr) &&
            forall x :: Load(sig.mem, x) ==
              if x != dter || Load(g.mem, dter) / 2 % 2 == 1 then Load(g.mem, x) else Load(g.mem, dter) + 2
  {
    var dter := 0xFC07_0003 + 0x4000 * ch;
    assert Dter(ch) == dter;
    LowBits(Load(g.mem, dter));
    hide Bit, Ipl, Dter;
  }

  lemma SignalledRegisters(g: Guest, ch: nat)
    requires ch < 4
    ensures var sig := Signalled(g, Dtim, ch);
            Answer(sig.mem, 0xFC04_8060 + ch, 0xFC04_8008, ch) == Answer(g.mem, 0xFC04_8060 + ch, 0xFC04_8008, ch) &&
            HandlerAt(sig.mem, 96 + ch) == HandlerAt(g.mem, 96 + ch)
  {
    hide Load, Load32, Bit, Signalled;
    SignalledLoads(g, ch);
    var sig := Signalled(g, Dtim, ch);
    LoadsAgree(g.mem, sig.mem, 0xFC04_8008, 4);
    LoadsAgree(g.mem, sig.mem, 0x4000_0000 + 4 * (96 + ch), 4);
  }

  /** DTIM `ch`, due: the mask is bit `ch` of the word at 0xFC04_8008, and the level
      the low three bits of the byte at 0xFC04_8060 + ch; whatever becomes of the
      tick, bit 1 of the event register at 0xFC07_0003 + 0x4000 * ch is set, and no
      other byte changes but those of a frame. */
  lemma DtimTick(g: Guest, s: Source, ch: nat, done: nat)
    requires s.kind.Dtim? && ch < 4 && Period(g, Dtim, ch, s.ips).Some?
    requires NextOf(s, ch).Some? && NextOf(s, ch).value <= done as real
    ensures var v := Serve(g, s, ch, done);
            var answer, handler := Answer(g.mem, 0xFC04_8060 + ch, 0xFC04_8008, ch), HandlerAt(g.mem, 96 + ch);
            var dter := 0xFC07_0003 + 0x4000 * ch;
            var event: int := Load(g.mem, dter);
            v.outcome == Fate(answer, handler, Ipl(g.sr)) &&
            Count(v.source.fired, ch) == Count(s.fired, ch) + (if v.outcome.Taken? then 1 else 0) &&
            Count(v.source.missed, ch) == Count(s.missed, ch) + (if v.outcome.Missed? then 1 else 0) &&
            (forall x :: x < g.a7 - 8 || x >= g.a7 || !v.outcome.Taken? ==>
               Load(v.guest.mem, x) == if x == dter && event / 2 % 2 == 0 then event + 2 else Load(g.mem, x)) &&
            (if v.outcome.Taken? then v.guest.pc == handler && Ipl(v.guest.sr) == answer.value
             else v.guest.pc == g.pc && v.guest.sr == g.sr && v.guest.a7 == g.a7)
  {
    hide Period, Level, Load32, Load, Ipl, Answer, Serve, Supervisor, WithIpl, Signalled, HandlerAt;
    DueFate(g, s, ch, done);
    SignalledLoads(g, ch);
    var sig := Signalled(g, Dtim, ch);
    DtimLevel(sig, ch);
    SignalledRegisters(g, ch);
    var v := Serve(g, s, ch, done);
    if v.outcome.Taken? {
      TakenLevel(g, s, ch, done);
      EntryIs(sig, 96 + ch, v.outcome.level);
    }
  }

  // ---- Entry --------------------------------------------------------------

  /** A handler starts with the supervisor bit set, the mask at its level, every
      other bit of the status register as it was, and the program counter its entry
      in the vector table; eight bytes below the old stack pointer, and nowhere
      else, memory holds format 4 with the vector, the old status and the old
      program counter. */
  lemma EntryIs(g: Guest, vec: nat, level: nat)
    requires vec < 0x400 && level <= 7
    ensures var e := Entered(g, vec, level);
            e.pc == HandlerAt(g.mem, vec) && e.a7 == g.a7 - 8 && e.regs == g.regs &&
            Load16(e.mem, g.a7 - 8) == 0x4000 + 4 * vec && Load16(e.mem, g.a7 - 6) == g.sr && Load32(e.mem, g.a7 - 4) == g.pc &&
            (forall x :: x < g.a7 - 8 || x >= g.a7 ==> Load(e.mem, x) == Load(g.mem, x))
    ensures var sr: nat, prior: nat := Entered(g, vec, level).sr, g.sr;
            sr / 0x4000 == prior / 0x4000 && sr / 0x2000 % 2 == 1 && sr / 0x800 % 4 == prior / 0x800 % 4 &&
            sr / 0x100 % 8 == level && sr % 0x100 == prior % 0x100
  {
    hide *;
    EntryStart(g, vec, level);
    EntryMemory(g, vec, level);
    StatusParts(g.sr, level);
    FormatWord(g, vec, level);
  }

  lemma EntryStart(g: Guest, vec: nat, level: nat)
    requires vec < 0x400 && level <= 7
    ensures var e := Entered(g, vec, level);
            e.pc == HandlerAt(g.mem, vec) && e.a7 == g.a7 - 8 && e.regs == g.regs && e.sr == WithIpl(Supervisor(g.sr), level)
  {
    hide Load32, Supervisor, WithIpl, StoreBytes, Frame;
  }

  lemma EntryMemory(g: Guest, vec: nat, level: nat)
    requires vec < 0x400 && level <= 7
    ensures var m := Entered(g, vec, level).mem;
            Load16(m, g.a7 - 6) == g.sr && Load32(m, g.a7 - 4) == g.pc &&
            forall x :: x < g.a7 - 8 || x >= g.a7 ==> Load(m, x) == Load(g.mem, x)
  {
    hide Load, Load16, Load32, Frame, Supervisor, WithIpl;
    EnterReturn(g, vec, level, Entered(g, vec, level));
  }

  lemma FormatWord(g: Guest, vec: nat, level: nat)
    requires vec < 0x400 && level <= 7
    ensures Load16(Entered(g, vec, level).mem, g.a7 - 8) == 0x4000 + 4 * vec
  {
    StoredFrame(g, vec, level);
    hide Load, Load16, Entered;
    var m, w := Entered(g, vec, level).mem, 0x4000 + 4 * vec;
    assert Frame(g, vec)[0] == Bytes16(w)[0] && Frame(g, vec)[1] == Bytes16(w)[1];
    assert Load(m, g.a7 - 8) == Frame(g, vec)[0] && Load(m, g.a7 - 7) == Frame(g, vec)[1];
    Load16Stored(m, g.a7 - 8, w);
  }

  lemma StatusParts(sr: u16, level: nat)
    requires level <= 7
    ensures var after: nat, prior: nat := WithIpl(Supervisor(sr), level), sr;
            after / 0x4000 == prior / 0x4000 && after / 0x2000 % 2 == 1 && after / 0x800 % 4 == prior / 0x800 % 4 &&
            after / 0x100 % 8 == level && after % 0x100 == prior % 0x100
  {
    var top, mid, ipl, low := sr / 0x4000, sr / 0x800 % 4, sr / 0x100 % 8, sr % 0x100;
    hide Supervisor, WithIpl, Status;
    SupervisorIs(sr);
    WithIplIs(Supervisor(sr), top, mid, ipl, low, level);
    StatusFrom(top, 1, mid, level, low);
  }

  lemma SupervisorIs(sr: u16)
    ensures Supervisor(sr) == Status(sr / 0x4000, 1, sr / 0x800 % 4, sr / 0x100 % 8, sr % 0x100)
  {
    StatusIs(sr);
  }

  lemma WithIplIs(sr: u16, top: nat, mid: nat, ipl: nat, low: nat, level: nat)
    requires mid < 4 && ipl < 8 && low < 0x100 && level <= 7 && sr == Status(top, 1, mid, ipl, low)
    ensures WithIpl(sr, level) == Status(top, 1, mid, level, low)
  {
    StatusFrom(top, 1, mid, ipl, low);
  }

  /** The fields a status register is made of. */
  function Status(top: nat, super: nat, mid: nat, ipl: nat, low: nat): nat {
    0x4000 * top + 0x2000 * super + 0x800 * mid + 0x100 * ipl + low
  }

  lemma StatusIs(sr: nat)
    ensures sr == Status(sr / 0x4000, sr / 0x2000 % 2, sr / 0x800 % 4, sr / 0x100 % 8, sr % 0x100)
  {
    assert sr / 0x2000 / 2 == sr / 0x4000;
    assert sr / 0x800 / 4 == sr / 0x2000;
    assert sr / 0x100 / 8 == sr / 0x800;
  }

  lemma StatusFrom(top: nat, super: nat, mid: nat, ipl: nat, low: nat)
    requires super < 2 && mid < 4 && ipl < 8 && low < 0x100
    ensures var sr := Status(top, super, mid, ipl, low);
            sr / 0x4000 == top && sr / 0x2000 % 2 == super && sr / 0x800 % 4 == mid && sr / 0x100 % 8 == ipl && sr % 0x100 == low
  {
    var sr := Status(top, super, mid, ipl, low);
    DivModUnique(sr, 0x100, 0x40 * top + 0x20 * super + 8 * mid + ipl, low);
    DivModUnique(sr / 0x100, 8, 8 * top + 4 * super + mid, ipl);
    DivModUnique(sr, 0x800, 8 * top + 4 * super + mid, 0x100 * ipl + low);
    DivModUnique(sr / 0x800, 4, 2 * top + super, mid);
    DivModUnique(sr, 0x2000, 2 * top + super, 0x800 * mid + 0x100 * ipl + low);
    DivModUnique(sr / 0x2000, 2, top, super);
    DivModUnique(sr, 0x4000, top, 0x2000 * super + 0x800 * mid + 0x100 * ipl + low);
  }

  // ---- The serial interface's two vectors ---------------------------------

  /** Vector 170, asserted and owed: taken exactly when bit 10 of the word at
      0xFC04_C008 is clear, the low three bits of the byte at 0xFC04_C06A exceed
      the mask and it has a handler. */
  lemma TransmitInterrupt(g: Guest, s: Ssi.State)
    ensures var (g1, s1) := Ssi.Deliver170(g, s);
            var fate := Fate(Answer(g.mem, 0xFC04_C06A, 0xFC04_C008, 10), HandlerAt(g.mem, 170), Ipl(g.sr));
            if s.int50Asserted && !s.int50Delivered && fate.Taken?
            then g1 == Entered(g, 170, fate.level) && s1 == s.(int50Delivered := true, vector170 := s.vector170 + 1)
            else g1 == g && s1 == s
  {
    hide Load, Load32, Ipl, Answer, Level, Supervisor, WithIpl, StoreBytes, Frame;
    TransmitLevel(g);
  }

  /** Vector 191 likewise, by the byte at 0xFC04_C07F and no mask bit. */
  lemma ForcedInterrupt(g: Guest, s: Ssi.State)
    ensures var (g1, s1) := Ssi.Deliver191(g, s);
            var level := Load(g.mem, 0xFC04_C07F) % 8;
            var fate := Fate(if level == 0 then None else Some(level), HandlerAt(g.mem, 191), Ipl(g.sr));
            if s.forceAsserted && !s.forceDelivered && fate.Taken?
            then g1 == Entered(g, 191, fate.level) && s1 == s.(forceDelivered := true, vector191 := s.vector191 + 1)
            else g1 == g && s1 == s
  {
    hide Load, Load32, Ipl, Level, Supervisor, WithIpl, StoreBytes, Frame;
    ForceLevel(g);
  }

  /** On the other route the mask compared is the one saved two bytes above the
      stack pointer. */
  lemma ForcedAtReturn(g: Guest, s: Ssi.State)
    ensures var (g1, s1) := Ssi.OnForceRte(g, s);
            var level, ipl := Load(g.mem, 0xFC04_C07F) % 8, Load16(g.mem, g.a7 + 2) / 0x100 % 8;
            var fate := Fate(if level == 0 then None else Some(level), HandlerAt(g.mem, 191), ipl);
            if s.forceAsserted && !s.forceDelivered && fate.Taken?
            then g1 == Entered(g, 191, fate.level) && s1 == s.(forceDelivered := true, vector191 := s.vector191 + 1)
            else g1 == g && s1 == s
  {
    hide Load, Load16, Load32, Level, Supervisor, WithIpl, StoreBytes, Frame;
    ForceLevel(g);
  }
}
