/** What holds of the serial interface over every interleaving of register
    writes, forced returns and services: each latch delivers once per assertion,
    the transmit record describes what was sent, and addresses walk in closed form. */
module SsiTheorems {
  import opened Bytes
  import opened Machine
  import Timers
  import opened Ssi

  // ---- Interleavings ------------------------------------------------------

  /** Anything that happens to the request source. The guest of each event is
      arbitrary, so it may do what it likes in between. */
  datatype Op =
    | Stepping(done: nat)
    | Service(guest: Guest, done: nat)
    | Serq(size: nat, value: nat)
    | Cint(size: nat, value: nat)
    | Intfrch1(current: seq<byte>, offset: nat, written: seq<byte>)
    | ForceRte(at: Guest)

  predicate ValidOp(op: Op) {
    op.Intfrch1? ==> |op.current| == 4 && op.offset < 4
  }

  predicate ValidOps(ops: seq<Op>) {
    forall i :: 0 <= i < |ops| ==> ValidOp(ops[i])
  }

  /** What one event did: the new state, the transmit interrupts it asserted, the
      rising edges of the force bit, and the bytes sent. */
  datatype Effect = Effect(ssi: State, asserted: nat, rising: nat, sent: seq<byte>)

  function Do(s: State, op: Op): Result<Effect, SsiFault>
    requires ValidOp(op)
  {
    match op
    case Stepping(done) => Ok(Effect(StepOf(s, done).0, 0, 0, []))
    case Service(g, done) =>
      var moved :- ServiceOf(g, s, done);
      Ok(Effect(moved.ssi, if moved.interrupt then 1 else 0, 0, moved.captured))
    case Serq(size, value) => Ok(Effect(OnSerq(s, size, value), 0, 0, []))
    case Cint(size, value) => Ok(Effect(OnCint(s, size, value), 0, 0, []))
    case Intfrch1(current, offset, written) =>
      var now := Bit31(Spliced(current, offset, written));
      Ok(Effect(OnIntfrch1(s, current, offset, written), 0, if now && !s.forceAsserted then 1 else 0, []))
    case ForceRte(at) => Ok(Effect(OnForceRte(at, s).1, 0, 0, []))
  }

  /** A whole interleaving, up to a fault. */
  function DoAll(s: State, ops: seq<Op>): Result<Effect, SsiFault>
    requires ValidOps(ops)
    decreases |ops|
  {
    if ops == [] then Ok(Effect(s, 0, 0, []))
    else
      hide Do;
      var first :- Do(s, ops[0]);
      var rest :- DoAll(first.ssi, ops[1..]);
      Ok(Effect(rest.ssi, first.asserted + rest.asserted, first.rising + rest.rising, first.sent + rest.sent))
  }

  /** A delivery the latch still owes. */
  function Owed(asserted: bool, delivered: bool): nat {
    if asserted && !delivered then 1 else 0
  }

  // ---- One event ----------------------------------------------------------

  /** The parts of the state the latches and the transmit record are made of. */
  predicate SameLatches(a: State, b: State) {
    && a.int50Asserted == b.int50Asserted && a.int50Delivered == b.int50Delivered && a.vector170 == b.vector170
    && a.forceAsserted == b.forceAsserted && a.forceDelivered == b.forceDelivered && a.vector191 == b.vector191
  }

  predicate SameForce(a: State, b: State) {
    a.forceAsserted == b.forceAsserted && a.forceDelivered == b.forceDelivered && a.vector191 == b.vector191
  }

  predicate SameSent(a: State, b: State) {
    a.txBytes == b.txBytes && a.txCrc == b.txCrc
  }

  /** `b` has sent `sent` more than `a`. */
  predicate Sent(a: State, b: State, sent: seq<byte>) {
    b.txBytes == a.txBytes + |sent| && b.txCrc == Crc32(sent, a.txCrc)
  }

  /** A major loop's end: a new assertion replaces the latch, and nothing is delivered. */
  predicate Asserts(a: State, b: State, interrupt: bool) {
    && SameForce(a, b) && b.vector170 == a.vector170
    && if interrupt then b.int50Asserted && !b.int50Delivered
       else b.int50Asserted == a.int50Asserted && b.int50Delivered == a.int50Delivered
  }

  lemma MajorLatches(g: Guest, s: State, ch: nat, source: u32, dest: u32, biter: u16)
    ensures var r := MajorLoop(g, s, ch, source, dest, biter);
            r.Ok? ==> Asserts(s, r.value.1, RaisesInterrupt(g, ch)) && SameSent(s, r.value.1)
  {
    hide Timers.Bit, Load16, Load32, StoreBytes, LoadBytes, Write16, Write32, Signed, Counted, Reloaded,
         RaisesInterrupt;
  }

  lemma SentLatches(s: State, captured: seq<byte>)
    ensures SameLatches(CountSent(s, captured), s) && Sent(s, CountSent(s, captured), captured)
  {
    CrcContinues([], [], s.txCrc);
    hide Crc32;
  }

  lemma MinorLatches(g: Guest, s: State, ch: nat, capture: bool)
    ensures var r := RunMinor(g, s, ch, capture);
            r.Ok? ==>
              Asserts(s, r.value.ssi, r.value.interrupt) && Sent(s, r.value.ssi, r.value.captured) &&
              (!capture ==> r.value.captured == []) && (ch != TX_CHAN ==> !r.value.interrupt)
  {
    CrcContinues([], [], s.txCrc);
    hide Timers.Bit, Walk, Captured, Load16, Load32, Write16, Write32, Signed, MajorLoop, CountSent, Crc32;
    forall captured {
      SentLatches(s, captured);
    }
    forall g1, s1, source, dest, biter {
      MajorLatches(g1, s1, ch, source, dest, biter);
    }
  }

  /** The request of one service: at most one assertion, and all it sent counted. */
  lemma RequestLatches(g: Guest, s: State, done: nat)
    requires RequestDue(s, done)
    ensures var r := Request(g, s, done);
            r.Ok? ==> Asserts(s, r.value.ssi, r.value.interrupt) && Sent(s, r.value.ssi, r.value.captured)
  {
    CrcContinues([], [], s.txCrc);
    hide RunMinor, Crc32, Timers.Advanced;
    var s1 := s.(requests := s.requests + 1);
    MinorLatches(g, s1, RX_CHAN, false);
    var rx := RunMinor(g, s1, RX_CHAN, false);
    if rx.Ok? {
      MinorLatches(rx.value.guest, rx.value.ssi, TX_CHAN, true);
    }
  }

  /** Neither latch gains more than it was asserted, and all that was sent counts. */
  predicate Accounted(s: State, e: Effect) {
    && e.ssi.vector170 >= s.vector170 && e.ssi.vector191 >= s.vector191
    && e.ssi.vector170 + Owed(e.ssi.int50Asserted, e.ssi.int50Delivered)
         <= s.vector170 + Owed(s.int50Asserted, s.int50Delivered) + e.asserted
    && e.ssi.vector191 + Owed(e.ssi.forceAsserted, e.ssi.forceDelivered)
         <= s.vector191 + Owed(s.forceAsserted, s.forceDelivered) + e.rising
    && Sent(s, e.ssi, e.sent)
  }

  lemma DeliveriesAccounted(g: Guest, s: State, asserted: nat, rising: nat, sent: seq<byte>, s0: State)
    requires Accounted(s0, Effect(s, asserted, rising, sent))
    ensures Accounted(s0, Effect(Deliver170(g, s).1, asserted, rising, sent))
    ensures Accounted(s0, Effect(Deliver191(g, s).1, asserted, rising, sent))
  {
    hide Level, HasHandler, Entered, Ipl, Crc32;
  }

  lemma ServiceAccounted(g: Guest, s: State, done: nat)
    ensures var r := ServiceOf(g, s, done);
            r.Ok? ==>
              Accounted(s, Effect(r.value.ssi, if r.value.interrupt then 1 else 0, 0, r.value.captured))
  {
    CrcContinues([], [], s.txCrc);
    hide Request, Deliver170, Deliver191, Crc32;
    var s1 := s.(now := done);
    var moved := if RequestDue(s1, done) then Request(g, s1, done) else Ok(Moved(g, s1, [], false));
    if RequestDue(s1, done) {
      RequestLatches(g, s1, done);
    }
    if moved.Ok? {
      var asserted := if moved.value.interrupt then 1 else 0;
      assert Accounted(s, Effect(moved.value.ssi, asserted, 0, moved.value.captured));
      DeliveriesAccounted(moved.value.guest, moved.value.ssi, asserted, 0, moved.value.captured, s);
      var (g2, s2) := Deliver170(moved.value.guest, moved.value.ssi);
      DeliveriesAccounted(g2, s2, asserted, 0, moved.value.captured, s);
    }
  }

  lemma NothingSent(s: State, s1: State)
    requires SameSent(s, s1)
    ensures Sent(s, s1, [])
  {
    CrcContinues([], [], s.txCrc);
    hide Crc32;
  }

  /** Nothing is delivered and nothing more is owed. */
  lemma QuietAccounted(s: State, s1: State)
    requires SameForce(s, s1) && SameSent(s, s1) && s1.vector170 == s.vector170
    requires Owed(s1.int50Asserted, s1.int50Delivered) <= Owed(s.int50Asserted, s.int50Delivered)
    ensures Accounted(s, Effect(s1, 0, 0, []))
  {
    hide Sent;
    NothingSent(s, s1);
  }

  /** Stepping, enabling and clearing never deliver and never assert. */
  lemma StepQuiet(s: State, done: nat)
    ensures Accounted(s, Effect(StepOf(s, done).0, 0, 0, []))
  {
    hide Accounted, Timers.Ceil;
    QuietAccounted(s, StepOf(s, done).0);
  }

  lemma SerqQuiet(s: State, size: nat, value: nat)
    ensures Accounted(s, Effect(OnSerq(s, size, value), 0, 0, []))
  {
    hide Accounted, Timers.Bit;
    QuietAccounted(s, OnSerq(s, size, value));
  }

  lemma CintQuiet(s: State, size: nat, value: nat)
    ensures Accounted(s, Effect(OnCint(s, size, value), 0, 0, []))
  {
    hide Accounted, Timers.Bit;
    QuietAccounted(s, OnCint(s, size, value));
  }

  /** A write to the force register owes one delivery at a rising edge only. */
  lemma ForceAccounted(s: State, current: seq<byte>, offset: nat, written: seq<byte>)
    requires |current| == 4 && offset < 4
    ensures var e := Do(s, Intfrch1(current, offset, written)); e.Ok? && Accounted(s, e.value)
  {
    hide Sent, Bit31, Spliced;
    NothingSent(s, OnIntfrch1(s, current, offset, written));
  }

  lemma RteAccounted(s: State, at: Guest)
    ensures var e := Do(s, ForceRte(at)); e.Ok? && Accounted(s, e.value)
  {
    hide Sent, Level, HasHandler, Entered, Ipl;
    NothingSent(s, OnForceRte(at, s).1);
  }

  lemma OpAccounted(s: State, op: Op)
    requires ValidOp(op)
    ensures var e := Do(s, op); e.Ok? ==> Accounted(s, e.value)
  {
    hide Accounted, ServiceOf, StepOf, OnSerq, OnCint, OnIntfrch1, OnForceRte;
    match op
    case Stepping(done) => StepQuiet(s, done);
    case Service(g, done) => ServiceAccounted(g, s, done);
    case Serq(size, value) => SerqQuiet(s, size, value);
    case Cint(size, value) => CintQuiet(s, size, value);
    case Intfrch1(current, offset, written) => ForceAccounted(s, current, offset, written);
    case ForceRte(at) => RteAccounted(s, at);
  }

  // ---- Every interleaving -------------------------------------------------

  lemma SentMore(a: State, b: State, c: State, x: seq<byte>, y: seq<byte>)
    requires Sent(a, b, x) && Sent(b, c, y)
    ensures Sent(a, c, x + y)
  {
    CrcContinues(x, y, a.txCrc);
    hide Crc32;
  }

  lemma {:induction false} AllAccounted(s: State, ops: seq<Op>)
    requires ValidOps(ops)
    ensures var e := DoAll(s, ops); e.Ok? ==> Accounted(s, e.value)
    decreases |ops|
  {
    CrcContinues([], [], s.txCrc);
    hide Do, Crc32, Sent, ValidOp;
    if ops == [] {
      SentNothing(s);
    } else {
      OpAccounted(s, ops[0]);
      var first := Do(s, ops[0]);
      if first.Ok? {
        var mid := first.value.ssi;
        AllAccounted(mid, ops[1..]);
        var rest := DoAll(mid, ops[1..]);
        if rest.Ok? {
          SentMore(s, mid, rest.value.ssi, first.value.sent, rest.value.sent);
        }
      }
    }
  }

  lemma SentNothing(s: State)
    ensures Sent(s, s, [])
  {
    CrcContinues([], [], s.txCrc);
    hide Crc32;
  }

  /** Main result: over any stretch of any interleaving that starts with nothing
      owed, vector 170 is delivered at most once per transmit major-loop assertion
      and vector 191 at most once per rising edge of the force bit, by whichever
      route. */
  lemma DeliveredOncePerAssertion(s: State, ops: seq<Op>)
    requires ValidOps(ops) && DoAll(s, ops).Ok?
    requires Owed(s.int50Asserted, s.int50Delivered) == 0 && Owed(s.forceAsserted, s.forceDelivered) == 0
    ensures var e := DoAll(s, ops).value;
            s.vector170 <= e.ssi.vector170 <= s.vector170 + e.asserted &&
            s.vector191 <= e.ssi.vector191 <= s.vector191 + e.rising
  {
    hide Do, DoAll, Sent;
    AllAccounted(s, ops);
  }

  /** Main result: from a fresh start the byte count and checksum are those of the
      concatenation of everything the transmit channel captured. */
  lemma TransmitRecord(s: State, ops: seq<Op>)
    requires ValidOps(ops) && DoAll(s, ops).Ok? && s.txBytes == 0 && s.txCrc == 0
    ensures var e := DoAll(s, ops).value;
            e.ssi.txBytes == |e.sent| && e.ssi.txCrc == Crc32(e.sent, 0)
  {
    hide Do, DoAll, Crc32;
    AllAccounted(s, ops);
  }

  // ---- Addresses ----------------------------------------------------------

  lemma ModStep(x: int, off: int)
    ensures (x % WORD + off) % WORD == (x + off) % WORD
  {
    var q, r := x / WORD, x % WORD;
    assert x + off == q * WORD + (r + off);
    DivModUnique(x + off, WORD, q + (r + off) / WORD, (r + off) % WORD);
  }

  lemma {:induction false} WalkClosed(a: u32, off: int, n: nat)
    ensures Walk(a, off, n) == (a + n * off) % WORD
  {
    hide Walk;
    WalkNext(a, off, n);
    if n == 0 {
      ModOfWord(a);
    } else {
      WalkClosed(a, off, n - 1);
      OneMore(n, off);
      WalkOn(a, (n - 1) * off, n * off, off);
    }
  }

  lemma ModOfWord(a: u32)
    ensures a % WORD == a
  {
  }

  lemma WalkOn(a: int, x: int, y: int, off: int)
    requires y == x + off
    ensures ((a + x) % WORD + off) % WORD == (a + y) % WORD
  {
    ModStep(a + x, off);
  }

  lemma OneMore(n: int, off: int)
    ensures (n - 1) * off + off == n * off
  {
  }

  lemma WalkNext(a: u32, off: int, n: nat)
    ensures Walk(a, off, n) == if n == 0 then a else (Walk(a, off, n - 1) + off) % WORD
  {
  }

  /** The address registers and the loop count of a descriptor. */
  datatype Descriptor = Descriptor(saddr: u32, daddr: u32, citer: u16)

  function DescriptorOf(g: Guest, ch: nat): Descriptor {
    var t := Tcd(ch);
    Descriptor(Load32(g.mem, t + SADDR), Load32(g.mem, t + DADDR), Load16(g.mem, t + CITER))
  }

  lemma DescriptorWritten(g: Guest, ch: nat, source: u32, dest: u32, citer: u16)
    ensures var t := Tcd(ch);
            DescriptorOf(Write16(Write32(Write32(g, t + SADDR, source), t + DADDR, dest), t + CITER, citer), ch)
              == Descriptor(source, dest, citer)
  {
    hide StoreBytes, Load32, Load16, Bytes32, Bytes16;
    var t := Tcd(ch);
    var g1 := Write32(g, t + SADDR, source);
    var g2 := Write32(g1, t + DADDR, dest);
    Reads32(g.mem, t + SADDR, source);
    Reads32(g1.mem, t + DADDR, dest);
    Reads16(g2.mem, t + CITER, citer);
    StoreElsewhere(g1.mem, t + DADDR, Bytes32(dest), t + SADDR);
    StoreElsewhere(g2.mem, t + CITER, Bytes16(citer), t + SADDR);
    StoreElsewhere(g2.mem, t + CITER, Bytes16(citer), t + DADDR);
  }

  /** The minor loop runs: the channel is enabled and its count is not spent. */
  predicate Runs(g: Guest, s: State, ch: nat) {
    ch in s.enabled && Load16(g.mem, Tcd(ch) + CITER) > 0
  }

  /** A minor loop that does not finish the major loop advances both addresses by
      one offset for each word, modulo 2^32, and counts CITER down by one. */
  lemma MinorAdvances(g: Guest, s: State, ch: nat, capture: bool)
    requires Runs(g, s, ch) && Load16(g.mem, Tcd(ch) + CITER) != 1
    ensures var r := RunMinor(g, s, ch, capture);
            var t, d := Tcd(ch), DescriptorOf(g, ch);
            var words := Load32(g.mem, t + NBYTES) / 4;
            var soff, doff := Signed(Load16(g.mem, t + SOFF), 0x8000), Signed(Load16(g.mem, t + DOFF), 0x8000);
            r.Ok? ==>
              DescriptorOf(r.value.guest, ch)
                == Descriptor((d.saddr + words * soff) % WORD, (d.daddr + words * doff) % WORD, d.citer - 1) &&
              !r.value.interrupt && |r.value.captured| == if capture then 4 * words else 0
  {
    hide Walk, Captured, Load16, Load32, Write16, Write32, Signed, MajorLoop, CountSent, DescriptorOf;
    var t := Tcd(ch);
    var citer, nbytes := Load16(g.mem, t + CITER), Load32(g.mem, t + NBYTES);
    var soff, doff := Signed(Load16(g.mem, t + SOFF), 0x8000), Signed(Load16(g.mem, t + DOFF), 0x8000);
    var saddr, daddr := Load32(g.mem, t + SADDR), Load32(g.mem, t + DADDR);
    WalkClosed(saddr, soff, nbytes / 4);
    WalkClosed(daddr, doff, nbytes / 4);
    DescriptorWritten(g, ch, Walk(saddr, soff, nbytes / 4), Walk(daddr, doff, nbytes / 4), citer - 1);
    DescriptorIs(g, ch);
  }

  lemma DescriptorIs(g: Guest, ch: nat)
    ensures DescriptorOf(g, ch) == Descriptor(Load32(g.mem, Tcd(ch) + SADDR), Load32(g.mem, Tcd(ch) + DADDR), Load16(g.mem, Tcd(ch) + CITER))
  {
  }

  /** The parts of a descriptor the end of a major loop goes by. */
  datatype Ending = Ending(slast: u32, dlast: u32, csr: u16)

  function EndingOf(g: Guest, ch: nat): Ending {
    var t := Tcd(ch);
    Ending(Load32(g.mem, t + SLAST), Load32(g.mem, t + DLAST), Load16(g.mem, t + CSR))
  }

  lemma SourceKeepsEnding(g: Guest, ch: nat, source: u32)
    ensures EndingOf(Write32(g, Tcd(ch) + SADDR, source), ch) == EndingOf(g, ch)
  {
    hide StoreBytes, Load32, Load16, Bytes32;
    var t := Tcd(ch);
    StoreElsewhere(g.mem, t + SADDR, Bytes32(source), t + SLAST);
    StoreElsewhere(g.mem, t + SADDR, Bytes32(source), t + DLAST);
    StoreElsewhere(g.mem, t + SADDR, Bytes32(source), t + CSR);
  }

  lemma WritesKeepEnding(g: Guest, ch: nat, source: u32, dest: u32, citer: u16)
    ensures var t := Tcd(ch);
            EndingOf(Write16(Write32(Write32(g, t + SADDR, source), t + DADDR, dest), t + CITER, citer), ch)
              == EndingOf(g, ch)
  {
    hide StoreBytes, Load32, Load16, Bytes32, Bytes16;
    var t := Tcd(ch);
    SourceKeepsEnding(g, ch, source);
    var g1 := Write32(g, t + SADDR, source);
    var g2 := Write32(g1, t + DADDR, dest);
    StoreElsewhere(g1.mem, t + DADDR, Bytes32(dest), t + SLAST);
    StoreElsewhere(g1.mem, t + DADDR, Bytes32(dest), t + DLAST);
    StoreElsewhere(g1.mem, t + DADDR, Bytes32(dest), t + CSR);
    StoreElsewhere(g2.mem, t + CITER, Bytes16(citer), t + SLAST);
    StoreElsewhere(g2.mem, t + CITER, Bytes16(citer), t + DLAST);
    StoreElsewhere(g2.mem, t + CITER, Bytes16(citer), t + CSR);
  }

  lemma MajorReload(g: Guest, s: State, ch: nat, source: u32, dest: u32, biter: u16)
    requires !Timers.Bit(Load16(g.mem, Tcd(ch) + CSR), 4)
    ensures var r, e := MajorLoop(g, s, ch, source, dest, biter), EndingOf(g, ch);
            r.Ok? && DescriptorOf(r.value.0, ch)
              == Descriptor((source + Signed(e.slast, 0x8000_0000)) % WORD, (dest + Signed(e.dlast, 0x8000_0000)) % WORD, biter)
  {
    hide Load32, Load16, Write32, Write16, Signed, DescriptorOf, Timers.Bit;
    var t, e := Tcd(ch), EndingOf(g, ch);
    var source1 := (source + Signed(e.slast, 0x8000_0000)) % WORD;
    SourceKeepsEnding(g, ch, source1);
    DescriptorWritten(g, ch, source1, (dest + Signed(e.dlast, 0x8000_0000)) % WORD, biter);
  }

  /** The last minor loop is the write-back of a minor loop and then `MajorLoop`. */
  lemma LastMinor(g: Guest, s: State, ch: nat, capture: bool, source: u32, dest: u32)
    requires Runs(g, s, ch) && Load16(g.mem, Tcd(ch) + CITER) == 1 && RunMinor(g, s, ch, capture).Ok?
    requires var t := Tcd(ch);
             var words := Load32(g.mem, t + NBYTES) / 4;
             source == Walk(Load32(g.mem, t + SADDR), Signed(Load16(g.mem, t + SOFF), 0x8000), words) &&
             dest == Walk(Load32(g.mem, t + DADDR), Signed(Load16(g.mem, t + DOFF), 0x8000), words)
    ensures var r, g2 := RunMinor(g, s, ch, capture).value, WrittenBack(g, ch, source, dest, 0);
            var m := MajorLoop(g2, CountSent(s, r.captured), ch, source, dest, Load16(g.mem, Tcd(ch) + BITER));
            m.Ok? && r.guest == m.value.0 && r.interrupt == RaisesInterrupt(g2, ch)
  {
    hide Walk, Captured, Load16, Load32, Write16, Write32, Signed, MajorLoop, CountSent, RaisesInterrupt;
  }

  /** The minor loop that finishes the major loop, with no next descriptor, also
      adds the last adjustments and reloads CITER from BITER. */
  lemma MajorAdjusts(g: Guest, s: State, ch: nat, capture: bool)
    requires Runs(g, s, ch) && Load16(g.mem, Tcd(ch) + CITER) == 1 && !Timers.Bit(Load16(g.mem, Tcd(ch) + CSR), 4)
    ensures var r := RunMinor(g, s, ch, capture);
            var t, d, e := Tcd(ch), DescriptorOf(g, ch), EndingOf(g, ch);
            var words := Load32(g.mem, t + NBYTES) / 4;
            var soff, doff := Signed(Load16(g.mem, t + SOFF), 0x8000), Signed(Load16(g.mem, t + DOFF), 0x8000);
            r.Ok? ==>
              DescriptorOf(r.value.guest, ch)
                == Descriptor((d.saddr + words * soff + Signed(e.slast, 0x8000_0000)) % WORD,
                              (d.daddr + words * doff + Signed(e.dlast, 0x8000_0000)) % WORD,
                              Load16(g.mem, t + BITER)) &&
              (r.value.interrupt <==> ch == TX_CHAN && Timers.Bit(e.csr, 1))
  {
    hide Walk, Load16, Load32, Write16, Write32, Signed, MajorLoop, CountSent, DescriptorOf, EndingOf,
         Timers.Bit, RunMinor, Runs;
    var t, e := Tcd(ch), EndingOf(g, ch);
    var words, biter := Load32(g.mem, t + NBYTES) / 4, Load16(g.mem, t + BITER);
    var soff, doff := Signed(Load16(g.mem, t + SOFF), 0x8000), Signed(Load16(g.mem, t + DOFF), 0x8000);
    var saddr, daddr := Load32(g.mem, t + SADDR), Load32(g.mem, t + DADDR);
    WalkClosed(saddr, soff, words);
    WalkClosed(daddr, doff, words);
    ModStep(saddr + words * soff, Signed(e.slast, 0x8000_0000));
    ModStep(daddr + words * doff, Signed(e.dlast, 0x8000_0000));
    DescriptorIs(g, ch);
    var r := RunMinor(g, s, ch, capture);
    if r.Ok? {
      var source, dest := Walk(saddr, soff, words), Walk(daddr, doff, words);
      LastMinor(g, s, ch, capture, source, dest);
      var g2 := WrittenBack(g, ch, source, dest, 0);
      WritesKeepEnding(g, ch, source, dest, 0);
      EndingIs(g, ch);
      EndingIs(g2, ch);
      MajorReload(g2, CountSent(s, r.value.captured), ch, source, dest, biter);
    }
  }

  lemma EndingIs(g: Guest, ch: nat)
    ensures EndingOf(g, ch) == Ending(Load32(g.mem, Tcd(ch) + SLAST), Load32(g.mem, Tcd(ch) + DLAST), Load16(g.mem, Tcd(ch) + CSR))
  {
  }

  // ---- What is captured and gathered --------------------------------------

  /** Byte `b` of captured word `k` is the byte at the address walked `k` times. */
  lemma {:induction false} CapturedAt(m: Mem, a: u32, off: int, n: nat, k: nat, b: nat)
    requires k < n && b < 4
    ensures 4 * k + b < 4 * n && Captured(m, a, off, n)[4 * k + b] == Load(m, (a + k * off) % WORD + b)
    decreases n
  {
    hide Load, Walk;
    var before := Captured(m, a, off, n - 1);
    if k == n - 1 {
      WalkClosed(a, off, k);
      assert Captured(m, a, off, n) == before + LoadBytes(m, Walk(a, off, k), 4);
    } else {
      CapturedAt(m, a, off, n - 1, k, b);
    }
  }

  /** What a transmit minor loop sends is the words from SADDR on, SOFF apart. */
  lemma TransmitSends(g: Guest, s: State, k: nat, b: nat)
    requires Runs(g, s, TX_CHAN) && RunMinor(g, s, TX_CHAN, true).Ok?
    requires k < Load32(g.mem, Tcd(TX_CHAN) + NBYTES) / 4 && b < 4
    ensures var sent, saddr := RunMinor(g, s, TX_CHAN, true).value.captured, Load32(g.mem, 0xFC04_5640);
            var soff := Signed(Load16(g.mem, 0xFC04_5646), 0x8000);
            4 * k + b < |sent| && sent[4 * k + b] == Load(g.mem, (saddr + k * soff) % WORD + b)
  {
    hide Load, Load16, Load32, Walk, Captured, Write16, Write32, WrittenBack, Signed, MajorLoop, CountSent, RaisesInterrupt;
    var t := Tcd(TX_CHAN);
    assert t == 0xFC04_5640;
    CapturedAt(g.mem, Load32(g.mem, t + SADDR), Signed(Load16(g.mem, t + SOFF), 0x8000), Load32(g.mem, t + NBYTES) / 4, k, b);
  }

  /** Scatter/gather: the descriptor becomes the 32 bytes at the aligned pointer it
      held, a misaligned pointer is refused, and either way the loop is counted. */
  lemma GatherReplaces(g: Guest, s: State, ch: nat, source: u32, dest: u32, biter: u16)
    requires Timers.Bit(Load16(g.mem, Tcd(ch) + CSR), 4)
    ensures var r, pointer := MajorLoop(g, s, ch, source, dest, biter), Load32(g.mem, Tcd(ch) + DLAST);
            (r.Ok? <==> pointer % 0x20 == 0) &&
            (r.Ok? && pointer != Tcd(ch) ==> LoadBytes(r.value.0.mem, Tcd(ch), 0x20) == LoadBytes(g.mem, pointer, 0x20)) &&
            (r.Ok? ==> Timers.Count(r.value.1.scatterGathers, ch) == Timers.Count(s.scatterGathers, ch) + 1 &&
                       Timers.Count(r.value.1.majorLoops, ch) == Timers.Count(s.majorLoops, ch) + 1)
  {
    hide Load, Load16, Load32, Write32, Signed, RaisesInterrupt, Timers.Bit, Gathered, LoadBytes, EndingOf;
    var t, pointer := Tcd(ch), Load32(g.mem, Tcd(ch) + DLAST);
    var source1 := (source + Signed(Load32(g.mem, t + SLAST), 0x8000_0000)) % WORD;
    var g1, s1 := Write32(g, t + SADDR, source1), s.(majorLoops := Counted(s.majorLoops, ch));
    SourceKeepsEnding(g, ch, source1);
    EndingIs(g, ch);
    EndingIs(g1, ch);
    GatheredBytes(g1, s1, ch);
    if pointer % 0x20 == 0 && pointer != t {
      DescriptorsApart(ch, pointer);
      SourceOnly(g, ch, source1);
      SameBytes(g.mem, g1.mem, pointer);
    }
  }

  lemma GatheredBytes(g: Guest, s: State, ch: nat)
    ensures var r, pointer := Gathered(g, s, ch), Load32(g.mem, Tcd(ch) + DLAST);
            (r.Ok? <==> pointer % 0x20 == 0) &&
            (r.Ok? ==> LoadBytes(r.value.0.mem, Tcd(ch), 0x20) == LoadBytes(g.mem, pointer, 0x20) &&
                       r.value.1 == s.(scatterGathers := Counted(s.scatterGathers, ch)))
  {
    hide Load, Load32;
    var pointer := Load32(g.mem, Tcd(ch) + DLAST);
    var b := LoadBytes(g.mem, pointer, 0x20);
    assert LoadBytes(StoreBytes(g.mem, Tcd(ch), b), Tcd(ch), 0x20) == b;
  }

  lemma SameBytes(m: Mem, n: Mem, a: int)
    requires forall x :: a <= x < a + 0x20 ==> Load(n, x) == Load(m, x)
    ensures LoadBytes(n, a, 0x20) == LoadBytes(m, a, 0x20)
  {
    hide Load;
  }

  lemma SourceOnly(g: Guest, ch: nat, v: u32)
    ensures forall x :: x < Tcd(ch) || x >= Tcd(ch) + 4 ==> Load(Write32(g, Tcd(ch) + SADDR, v).mem, x) == Load(g.mem, x)
  {
    hide Load, Bytes32;
  }

  /** Two aligned descriptors are the same or share no byte. */
  lemma DescriptorsApart(ch: nat, pointer: nat)
    requires pointer % 0x20 == 0 && pointer != Tcd(ch)
    ensures pointer + 0x20 <= Tcd(ch) || Tcd(ch) + 0x20 <= pointer
  {
    assert Tcd(ch) == 0x20 * (0x7E0_2280 + ch) && pointer == 0x20 * (pointer / 0x20);
  }

  // ---- Register writes ----------------------------------------------------

  /** A byte written to SERQ: from 0x80 on it is no operation, 0x40 to 0x7F enable
      both channels, 48 and 50 one of them, anything else none; the first channel
      enabled starts the cadence a period from the last boundary. */
  lemma SerqTable(s: State, value: nat)
    requires value < 0x100
    ensures var s1 := OnSerq(s, 1, value);
            s1.enabled == s.enabled + (if value >= 0x80 then {} else if value >= 0x40 then {48, 50}
                                       else if value == 48 then {48} else if value == 50 then {50} else {}) &&
            s1.next == if s.next.None? && value < 0x80 && s1.enabled != {} then Some(s.now as real + s.period) else s.next
    ensures s.enabled <= {48, 50} ==> OnSerq(s, 1, value).enabled <= {48, 50}
  {
    ByteBits(value);
    hide Timers.Bit;
  }

  /** A byte written to CINT releases the transmit latch when bit 6 is set or its low
      six bits are 50; a wider write does nothing. */
  lemma CintTable(s: State, size: nat, value: nat)
    requires value < 0x100
    ensures OnCint(s, size, value) ==
            if size == 1 && (value % 0x80 >= 0x40 || value % 0x40 == 50)
            then s.(int50Asserted := false, int50Delivered := false) else s
  {
    ByteBits(value);
    hide Timers.Bit;
  }

  lemma ByteBits(value: nat)
    requires value < 0x100
    ensures Timers.Bit(value, 7) <==> value >= 0x80
    ensures Timers.Bit(value, 6) <==> value % 0x80 >= 0x40
  {
    Powers();
    hide Pow2;
  }

  /** A write inside INTFRCH1 asserts the force latch by the top bit of its first
      byte, written or kept; a fall releases it, and only a rise owes a delivery. */
  lemma ForceLatch(s: State, current: seq<byte>, offset: nat, written: seq<byte>)
    requires |current| == 4 && offset + |written| <= 4 && offset < 4
    ensures var first := if offset == 0 && written != [] then written[0] else current[0];
            var s1 := OnIntfrch1(s, current, offset, written);
            s1.forceAsserted == (first >= 0x80) && s1.vector191 == s.vector191 &&
            s1.forceDelivered == (first >= 0x80 && s.forceAsserted && s.forceDelivered)
  {
  }
}
