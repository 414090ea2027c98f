/** `Ssi0Dma` as the object it is, proved against the functions of module Ssi. */
module SsiDevice {
  import opened Bytes
  import opened Machine
  import Timers
  import opened Ssi

  /** The end of a major loop, stage by stage. */
  lemma MajorLoopIs(g: Guest, s: State, ch: nat, source: u32, dest: u32, biter: u16)
    ensures var csr := Load16(g.mem, Tcd(ch) + CSR);
            var g1 := Write32(g, Tcd(ch) + SADDR, (source + Signed(Load32(g.mem, Tcd(ch) + SLAST), 0x8000_0000)) % WORD);
            var s1 := s.(majorLoops := Counted(s.majorLoops, ch));
            var r := if Timers.Bit(csr, 4) then Gathered(g1, s1, ch) else Ok((Reloaded(g1, ch, dest, biter), s1));
            MajorLoop(g, s, ch, source, dest, biter) ==
              if r.Err? then Err(r.error)
              else Ok((r.value.0, if ch == TX_CHAN && Timers.Bit(csr, 1) then r.value.1.(int50Asserted := true, int50Delivered := false)
                                  else r.value.1))
  {
    hide Load16, Load32, Signed, Gathered, Reloaded, Counted, Timers.Bit;
  }

  /** A request is a receive and then a transmit minor loop. */
  lemma RequestIs(g: Guest, s: State, done: nat)
    requires RequestDue(s, done)
    ensures var rx := RunMinor(g, s.(requests := s.requests + 1), RX_CHAN, false);
            Request(g, s, done) ==
              if rx.Err? then Err(rx.error)
              else
                var tx := RunMinor(rx.value.guest, rx.value.ssi, TX_CHAN, true);
                if tx.Err? then Err(tx.error)
                else Ok(tx.value.(ssi := tx.value.ssi.(next := Some(Timers.Advanced(s.next.value, s.period, done)))))
  {
    hide RunMinor, Timers.Advanced;
  }

  class SsiDma {
    const m: Cpu
    const period: real
    var now: nat
    var next: Option<real>
    var enabled: set<nat>
    var int50Asserted: bool
    var int50Delivered: bool
    var forceAsserted: bool
    var forceDelivered: bool
    var requests: nat
    var majorLoops: map<nat, nat>
    var scatterGathers: map<nat, nat>
    var txBytes: nat
    var txCrc: nat
    var vector170: nat
    var vector191: nat

    function Current(): State
      reads this
    {
      State(period, now, next, enabled, int50Asserted, int50Delivered, forceAsserted, forceDelivered,
            requests, majorLoops, scatterGathers, txBytes, txCrc, vector170, vector191)
    }

    constructor (m: Cpu, period: real)
      ensures this.m == m
      ensures Current() == State(period, 0, None, {}, false, false, false, false, 0, map[], map[], 0, 0, 0, 0)
    {
      this.m, this.period := m, period;
      now, next, enabled := 0, None, {};
      int50Asserted, int50Delivered, forceAsserted, forceDelivered := false, false, false, false;
      requests, majorLoops, scatterGathers := 0, map[], map[];
      txBytes, txCrc, vector170, vector191 := 0, 0, 0, 0;
    }

    /** `step` with no budget. */
    method Step(done: nat) returns (n: Option<nat>)
      modifies this`now, this`next
      ensures (Current(), n) == StepOf(old(Current()), done)
    {
      now := done;
      if enabled == {} {
        return None;
      }
      if next.None? {
        next := Some(done as real + period);
      }
      n := Some(Timers.Max(1, Timers.Ceil(next.value - done as real)));
    }

    /** The transfer loop of `_run_minor`. */
    method Transfer(capture: bool, source0: u32, soff: int, dest0: u32, doff: int, n: nat)
      returns (source: u32, dest: u32, captured: seq<byte>)
      ensures source == Walk(source0, soff, n) && dest == Walk(dest0, doff, n)
      ensures captured == if capture then Captured(m.mem, source0, soff, n) else []
    {
      source, dest, captured := source0, dest0, [];
      for i := 0 to n
        invariant source == Walk(source0, soff, i) && dest == Walk(dest0, doff, i)
        invariant captured == if capture then Captured(m.mem, source0, soff, i) else []
      {
        if capture {
          captured := captured + LoadBytes(m.mem, source, 4);
        }
        source := (source + soff) % WORD;
        dest := (dest + doff) % WORD;
      }
    }

    /** The scatter/gather branch at the end of `_run_minor`. */
    method Gather(ch: nat) returns (fault: Option<SsiFault>)
      modifies this`scatterGathers, m
      ensures var r := Gathered(old(m.State()), old(Current()), ch);
              if r.Ok? then fault.None? && (m.State(), Current()) == r.value
              else fault == Some(r.error)
    {
      hide Load, Load32, StoreBytes, LoadBytes;
      var pointer := Load32(m.mem, Tcd(ch) + DLAST);
      if pointer % 0x20 != 0 {
        return Some(Misaligned);
      }
      m.mem := StoreBytes(m.mem, Tcd(ch), LoadBytes(m.mem, pointer, 0x20));
      scatterGathers := Counted(scatterGathers, ch);
      return None;
    }

    /** The other branch: the last destination adjustment and CITER reloaded. */
    method Reload(ch: nat, dest: u32, biter: u16)
      modifies m`mem
      ensures m.State() == Reloaded(old(m.State()), ch, dest, biter)
    {
      hide Load, Load32, Bytes16, Bytes32, StoreBytes, Signed;
      var t := Tcd(ch);
      var dest1 := (dest + Signed(Load32(m.mem, t + DLAST), 0x8000_0000)) % WORD;
      m.mem := StoreBytes(m.mem, t + DADDR, Bytes32(dest1));
      m.mem := StoreBytes(m.mem, t + CITER, Bytes16(biter));
    }

    /** The end of `_run_minor`, once CITER has reached zero. */
    method FinishMajor(ch: nat, source: u32, dest: u32, biter: u16) returns (fault: Option<SsiFault>)
      modifies this`int50Asserted, this`int50Delivered, this`majorLoops, this`scatterGathers, m
      ensures var r := MajorLoop(old(m.State()), old(Current()), ch, source, dest, biter);
              if r.Ok? then fault.None? && (m.State(), Current()) == r.value
              else fault == Some(r.error)
    {
      hide Load, Load16, Load32, Bytes32, StoreBytes, Signed, Gathered, Reloaded, Counted, Timers.Bit, MajorLoop;
      MajorLoopIs(m.State(), Current(), ch, source, dest, biter);
      var t := Tcd(ch);
      var csr := Load16(m.mem, t + CSR);
      var source1 := (source + Signed(Load32(m.mem, t + SLAST), 0x8000_0000)) % WORD;
      m.mem := StoreBytes(m.mem, t + SADDR, Bytes32(source1));
      majorLoops := Counted(majorLoops, ch);
      if Timers.Bit(csr, 4) {
        fault := Gather(ch);
        if fault.Some? {
          return;
        }
      } else {
        Reload(ch, dest, biter);
      }
      if ch == TX_CHAN && Timers.Bit(csr, 1) {
        int50Asserted := true;
        int50Delivered := false;
      }
      return None;
    }

    /** What `_run_minor` writes once its words have moved. */
    method WriteBack(ch: nat, source: u32, dest: u32, citer: u16, captured: seq<byte>)
      modifies this`txBytes, this`txCrc, m`mem
      ensures m.State() == WrittenBack(old(m.State()), ch, source, dest, citer)
      ensures Current() == CountSent(old(Current()), captured)
    {
      hide Load, Bytes16, Bytes32, StoreBytes, Crc32;
      var t := Tcd(ch);
      m.mem := StoreBytes(m.mem, t + SADDR, Bytes32(source));
      m.mem := StoreBytes(m.mem, t + DADDR, Bytes32(dest));
      m.mem := StoreBytes(m.mem, t + CITER, Bytes16(citer));
      if captured != [] {
        txBytes := txBytes + |captured|;
        txCrc := Crc32(captured, txCrc);
      }
    }

    /** `_run_minor` */
    method RunMinorLoop(ch: nat, capture: bool) returns (fault: Option<SsiFault>)
      modifies this`int50Asserted, this`int50Delivered, this`majorLoops, this`scatterGathers,
               this`txBytes, this`txCrc, m
      ensures var r := RunMinor(old(m.State()), old(Current()), ch, capture);
              if r.Ok? then fault.None? && m.State() == r.value.guest && Current() == r.value.ssi
              else fault == Some(r.error)
    {
      hide Load, Load16, Load32, Signed, Walk, Captured, MajorLoop, CountSent, WrittenBack;
      if ch !in enabled {
        return None;
      }
      var t := Tcd(ch);
      var citer := Load16(m.mem, t + CITER);
      var biter := Load16(m.mem, t + BITER);
      if citer >= 0x8000 || biter >= 0x8000 {
        return Some(LinkedCount);
      }
      if citer == 0 {
        return None;
      }
      var attr := Load16(m.mem, t + ATTR);
      if attr % 8 != 2 || attr / 0x100 % 8 != 2 {
        return Some(UnsupportedSize);
      }
      var nbytes := Load32(m.mem, t + NBYTES);
      if nbytes == 0 || nbytes % 4 != 0 {
        return Some(BadByteCount);
      }
      var soff := Signed(Load16(m.mem, t + SOFF), 0x8000);
      var doff := Signed(Load16(m.mem, t + DOFF), 0x8000);
      var source, dest, captured := Transfer(capture, Load32(m.mem, t + SADDR), soff, Load32(m.mem, t + DADDR), doff, nbytes / 4);
      WriteBack(ch, source, dest, citer - 1, captured);
      if citer != 1 {
        return None;
      }
      fault := FinishMajor(ch, source, dest, biter);
    }

    method DeliverVector170()
      modifies this`int50Delivered, this`vector170, m
      ensures (m.State(), Current()) == Deliver170(old(m.State()), old(Current()))
    {
      hide Level, Entered, Handler, Ipl;
      if !int50Asserted || int50Delivered {
        return;
      }
      var level := Level(m.State(), TX_VECTOR, true);
      if level.None? || Ipl(m.sr) >= level.value {
        return;
      }
      var taken := m.RaiseVector(TX_VECTOR, level.value);
      if taken {
        int50Delivered := true;
        vector170 := vector170 + 1;
      }
    }

    method DeliverVector191()
      modifies this`forceDelivered, this`vector191, m
      ensures (m.State(), Current()) == Deliver191(old(m.State()), old(Current()))
    {
      hide Level, Entered, Handler, Ipl;
      if !forceAsserted || forceDelivered {
        return;
      }
      var level := Level(m.State(), FORCE_VECTOR, false);
      if level.None? || Ipl(m.sr) >= level.value {
        return;
      }
      var taken := m.RaiseVector(FORCE_VECTOR, level.value);
      if taken {
        forceDelivered := true;
        vector191 := vector191 + 1;
      }
    }

    /** The request at the head of `service`. */
    method RunRequest(done: nat) returns (fault: Option<SsiFault>)
      requires RequestDue(Current(), done)
      modifies this, m
      ensures var r := Request(old(m.State()), old(Current()), done);
              if r.Ok? then fault.None? && m.State() == r.value.guest && Current() == r.value.ssi
              else fault == Some(r.error)
    {
      hide RunMinor, Request, Timers.Advanced, Cpu.State;
      RequestIs(m.State(), Current(), done);
      requests := requests + 1;
      fault := RunMinorLoop(RX_CHAN, false);
      if fault.Some? {
        return;
      }
      fault := RunMinorLoop(TX_CHAN, true);
      if fault.Some? {
        return;
      }
      MoveOn(done);
    }

    /** The next request one period on, a backlog dropped. */
    method MoveOn(done: nat)
      requires next.Some?
      modifies this`next
      ensures next == Some(Timers.Advanced(old(next).value, period, done))
    {
      var d := next.value + period;
      if d <= done as real {
        d := done as real + period;
      }
      next := Some(d);
    }

    /** `service` */
    method Service(done: nat) returns (fault: Option<SsiFault>)
      modifies this, m
      ensures var r := ServiceOf(old(m.State()), old(Current()), done);
              if r.Ok? then fault.None? && m.State() == r.value.guest && Current() == r.value.ssi
              else fault == Some(r.error)
    {
      hide Request, Deliver170, Deliver191;
      now := done;
      if next.Some? && done as real >= next.value {
        fault := RunRequest(done);
        if fault.Some? {
          return;
        }
      }
      DeliverVector170();
      DeliverVector191();
      return None;
    }

    method WriteSerq(size: nat, value: nat)
      modifies this`enabled, this`next
      ensures Current() == OnSerq(old(Current()), size, value)
    {
      if size != 1 || Timers.Bit(value, 7) {
        return;
      }
      var chans: set<nat> := {value % 0x40};
      if Timers.Bit(value, 6) {
        chans := {RX_CHAN, TX_CHAN};
      }
      enabled := enabled + chans * {RX_CHAN, TX_CHAN};
      if enabled != {} && next.None? {
        next := Some(now as real + period);
      }
    }

    method WriteCint(size: nat, value: nat)
      modifies this`int50Asserted, this`int50Delivered
      ensures Current() == OnCint(old(Current()), size, value)
    {
      if size == 1 && (Timers.Bit(value, 6) || value % 0x40 == TX_CHAN) {
        int50Asserted := false;
        int50Delivered := false;
      }
    }

    /** The latch part of `_on_intfrch1`. */
    method SetForce(asserted: bool)
      modifies this`forceAsserted, this`forceDelivered
      ensures Current() == OnForce(old(Current()), asserted)
    {
      if asserted && !forceAsserted {
        forceDelivered := false;
      }
      forceAsserted := asserted;
      if !asserted {
        forceDelivered := false;
      }
    }

    method WriteIntfrch1(current: seq<byte>, offset: nat, value: seq<byte>)
      requires |current| == 4 && offset < 4
      modifies this`forceAsserted, this`forceDelivered
      ensures Current() == OnIntfrch1(old(Current()), current, offset, value)
    {
      SetForce(Bit31(Spliced(current, offset, value)));
    }

    /** The latch part of `_on_force_rte`, once the vector was taken. */
    method ForceWasTaken()
      modifies this`forceDelivered, this`vector191
      ensures Current() == OnForceTaken(old(Current()))
    {
      if forceAsserted && !forceDelivered {
        forceDelivered := true;
        vector191 := vector191 + 1;
      }
    }

    method ReachForceRte()
      modifies this`forceDelivered, this`vector191, m
      ensures (m.State(), Current()) == OnForceRte(old(m.State()), old(Current()))
    {
      hide Level, Entered, Handler, Ipl, Load16;
      if !forceAsserted || forceDelivered {
        return;
      }
      var level := Level(m.State(), FORCE_VECTOR, false);
      if level.None? {
        return;
      }
      var saved := Load16(m.mem, m.a7 + 2);
      if Ipl(saved) < level.value {
        var taken := m.RaiseVector(FORCE_VECTOR, level.value);
        if taken {
          forceDelivered := true;
          vector191 := vector191 + 1;
        }
      }
    }
  }
}
