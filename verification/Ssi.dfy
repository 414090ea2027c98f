/** The SSI request source behind eDMA channels 48 and 50 (emu/ssi.py): request
    cadence, minor and major loops, and the two interrupt latches. */
module Ssi {
  import opened Bytes
  import opened Machine
  import opened Timers

  const RX_CHAN := 48
  const TX_CHAN := 50
  const TX_VECTOR := 170
  const FORCE_VECTOR := 191
  const TCD_BASE := 0xFC04_5000
  const SADDR := 0x00
  const ATTR := 0x04
  const SOFF := 0x06
  const NBYTES := 0x08
  const SLAST := 0x0C
  const DADDR := 0x10
  const CITER := 0x14
  const DOFF := 0x16
  const DLAST := 0x18
  const BITER := 0x1C
  const CSR := 0x1E

  datatype SsiFault = LinkedCount | UnsupportedSize | BadByteCount | Misaligned

  datatype State = State(
    period: real, now: nat, next: Option<real>, enabled: set<nat>,
    int50Asserted: bool, int50Delivered: bool, forceAsserted: bool, forceDelivered: bool,
    requests: nat, majorLoops: map<nat, nat>, scatterGathers: map<nat, nat>,
    txBytes: nat, txCrc: nat, vector170: nat, vector191: nat)

  /** `_signed` */
  function Signed(v: nat, half: nat): int {
    if v >= half then v - 2 * half else v
  }

  function Tcd(ch: nat): int {
    TCD_BASE + ch * 0x20
  }

  // ---- CRC-32 -------------------------------------------------------------

  const CRC_MASK := 0xFFFF_FFFF
  const CRC_POLY := 0xEDB8_8320

  function CrcShift(r: nat, n: nat): nat
    decreases n
  {
    if n == 0 then r
    else CrcShift(if r % 2 == 1 then Xor(r / 2, CRC_POLY) else r / 2, n - 1)
  }

  function CrcFold(s: seq<byte>, r: nat): nat {
    if s == [] then r else CrcFold(s[1..], CrcShift(Xor(r, s[0]), 8))
  }

  /** `zlib.crc32(s, c)` */
  function Crc32(s: seq<byte>, c: nat): nat {
    Xor(CRC_MASK, CrcFold(s, Xor(CRC_MASK, c)))
  }

  lemma {:induction false} CrcFoldConcat(a: seq<byte>, b: seq<byte>, r: nat)
    ensures CrcFold(a + b, r) == CrcFold(b, CrcFold(a, r))
    decreases |a|
  {
    hide CrcShift, Xor;
    if a == [] {
      assert a + b == b;
    } else {
      assert (a + b)[1..] == a[1..] + b;
      CrcFoldConcat(a[1..], b, CrcShift(Xor(r, a[0]), 8));
    }
  }

  /** Continuing a checksum is the checksum of the concatenation. */
  lemma CrcContinues(a: seq<byte>, b: seq<byte>, c: nat)
    ensures Crc32(b, Crc32(a, c)) == Crc32(a + b, c)
    ensures Crc32([], c) == c
  {
    var start := Xor(CRC_MASK, c);
    CrcFoldConcat(a, b, start);
    XorUndo(CRC_MASK, CrcFold(a, start));
    XorUndo(CRC_MASK, c);
    CrcFoldNothing(start);
    hide Xor, CrcFold;
  }

  lemma CrcFoldNothing(r: nat)
    ensures CrcFold([], r) == r
  {
  }

  /** A bit that leaves at the low end puts in the reflected polynomial, and any
      number of zero bits below it only shift: the table's entry for `2^n`. */
  lemma {:induction false} CrcOfOneBit(n: nat)
    ensures CrcShift(Pow2(n), n + 1) == 0xEDB8_8320
    decreases n
  {
    hide Xor;
    if n == 0 {
      assert Xor(0, CRC_POLY) == CRC_POLY by {
        XorZero(CRC_POLY);
      }
      assert CrcShift(CRC_POLY, 0) == CRC_POLY;
    } else {
      CrcOfOneBit(n - 1);
      assert Pow2(n) == 2 * Pow2(n - 1);
    }
  }

  // ---- One minor loop -----------------------------------------------------

  /** An address stepped `n` times in 32-bit arithmetic. */
  function Walk(a: u32, off: int, n: nat): u32 {
    if n == 0 then a else (Walk(a, off, n - 1) + off) % WORD
  }

  /** The words the transmit side reads while its address walks. */
  function Captured(m: Mem, a: u32, off: int, n: nat): (s: seq<byte>)
    ensures |s| == 4 * n
  {
    if n == 0 then [] else Captured(m, a, off, n - 1) + LoadBytes(m, Walk(a, off, n - 1), 4)
  }

  /** What a minor loop did: the new state, the bytes it captured, and whether
      it raised the major-loop interrupt. */
  datatype Moved = Moved(guest: Guest, ssi: State, captured: seq<byte>, interrupt: bool)

  function Write32(g: Guest, a: int, v: u32): Guest {
    g.(mem := StoreBytes(g.mem, a, Bytes32(v)))
  }

  function Write16(g: Guest, a: int, v: u16): Guest {
    g.(mem := StoreBytes(g.mem, a, Bytes16(v)))
  }

  function Counted(m: map<nat, nat>, ch: nat): map<nat, nat> {
    m[ch := Count(m, ch) + 1]
  }

  function CountSent(s: State, captured: seq<byte>): State {
    if captured == [] then s
    else s.(txBytes := s.txBytes + |captured|, txCrc := Crc32(captured, s.txCrc))
  }

  /** A descriptor's addresses and count written back. */
  function WrittenBack(g: Guest, ch: nat, source: u32, dest: u32, citer: u16): Guest {
    var t := Tcd(ch);
    Write16(Write32(Write32(g, t + SADDR, source), t + DADDR, dest), t + CITER, citer)
  }

  /** Scatter/gather: the next descriptor over the channel's own. */
  function Gathered(g: Guest, s: State, ch: nat): Result<(Guest, State), SsiFault> {
    var pointer := Load32(g.mem, Tcd(ch) + DLAST);
    if pointer % 0x20 != 0 then Err(Misaligned)
    else
      Ok((g.(mem := StoreBytes(g.mem, Tcd(ch), LoadBytes(g.mem, pointer, 0x20))),
          s.(scatterGathers := Counted(s.scatterGathers, ch))))
  }

  /** Or the last destination adjustment and CITER reloaded. */
  function Reloaded(g: Guest, ch: nat, dest: u32, biter: u16): Guest {
    var t := Tcd(ch);
    Write16(Write32(g, t + DADDR, (dest + Signed(Load32(g.mem, t + DLAST), 0x8000_0000)) % WORD), t + CITER, biter)
  }

  /** The end of a major loop, from the point where CITER has reached zero. */
  function MajorLoop(g: Guest, s: State, ch: nat, source: u32, dest: u32, biter: u16): Result<(Guest, State), SsiFault> {
    var t := Tcd(ch);
    var csr := Load16(g.mem, t + CSR);
    var g1 := Write32(g, t + SADDR, (source + Signed(Load32(g.mem, t + SLAST), 0x8000_0000)) % WORD);
    var s1 := s.(majorLoops := Counted(s.majorLoops, ch));
    var (g2, s2) :- if Bit(csr, 4) then Gathered(g1, s1, ch) else Ok((Reloaded(g1, ch, dest, biter), s1));
    Ok((g2, if RaisesInterrupt(g, ch) then s2.(int50Asserted := true, int50Delivered := false) else s2))
  }

  /** The end of a transmit major loop asserts the interrupt when CSR bit 1 says so. */
  predicate RaisesInterrupt(g: Guest, ch: nat) {
    ch == TX_CHAN && Bit(Load16(g.mem, Tcd(ch) + CSR), 1)
  }

  /** `_run_minor` */
  function RunMinor(g: Guest, s: State, ch: nat, capture: bool): Result<Moved, SsiFault> {
    var t := Tcd(ch);
    var citer, biter := Load16(g.mem, t + CITER), Load16(g.mem, t + BITER);
    if ch !in s.enabled then Ok(Moved(g, s, [], false))
    else if citer >= 0x8000 || biter >= 0x8000 then Err(LinkedCount)
    else if citer == 0 then Ok(Moved(g, s, [], false))
    else
      var attr, nbytes := Load16(g.mem, t + ATTR), Load32(g.mem, t + NBYTES);
      if attr % 8 != 2 || attr / 0x100 % 8 != 2 then Err(UnsupportedSize)
      else if nbytes == 0 || nbytes % 4 != 0 then Err(BadByteCount)
      else
        var soff, doff := Signed(Load16(g.mem, t + SOFF), 0x8000), Signed(Load16(g.mem, t + DOFF), 0x8000);
        var source := Walk(Load32(g.mem, t + SADDR), soff, nbytes / 4);
        var dest := Walk(Load32(g.mem, t + DADDR), doff, nbytes / 4);
        var captured := if capture then Captured(g.mem, Load32(g.mem, t + SADDR), soff, nbytes / 4) else [];
        var g2 := WrittenBack(g, ch, source, dest, citer - 1);
        var s1 := CountSent(s, captured);
        if citer != 1 then Ok(Moved(g2, s1, captured, false))
        else
          var (g3, s3) :- MajorLoop(g2, s1, ch, source, dest, biter);
          Ok(Moved(g3, s3, captured, RaisesInterrupt(g2, ch)))
  }

  // ---- Requests and deliveries --------------------------------------------

  /** `step`: a number of instructions, or none while no channel is enabled. */
  function StepOf(s: State, done: nat): (r: (State, Option<nat>))
    ensures r.1.Some? ==> r.1.value >= 1
  {
    var s1 := s.(now := done);
    if s.enabled == {} then (s1, None)
    else
      var s2 := if s1.next.None? then s1.(next := Some(done as real + s1.period)) else s1;
      (s2, Some(Max(1, Ceil(s2.next.value - done as real))))
  }

  /** `_deliver_vector170` */
  function Deliver170(g: Guest, s: State): (Guest, State) {
    var level := Level(g, TX_VECTOR, true);
    if !s.int50Asserted || s.int50Delivered || level.None? || Ipl(g.sr) >= level.value || !HasHandler(g, TX_VECTOR) then (g, s)
    else (Entered(g, TX_VECTOR, level.value), s.(int50Delivered := true, vector170 := s.vector170 + 1))
  }

  /** `_deliver_vector191` */
  function Deliver191(g: Guest, s: State): (Guest, State) {
    var level := Level(g, FORCE_VECTOR, false);
    if !s.forceAsserted || s.forceDelivered || level.None? || Ipl(g.sr) >= level.value || !HasHandler(g, FORCE_VECTOR) then (g, s)
    else (Entered(g, FORCE_VECTOR, level.value), s.(forceDelivered := true, vector191 := s.vector191 + 1))
  }

  predicate RequestDue(s: State, done: nat) {
    s.next.Some? && s.next.value <= done as real
  }

  /** The request at the head of `service`, when one is due. */
  function Request(g: Guest, s: State, done: nat): Result<Moved, SsiFault>
    requires RequestDue(s, done)
  {
    var rx :- RunMinor(g, s.(requests := s.requests + 1), RX_CHAN, false);
    var tx :- RunMinor(rx.guest, rx.ssi, TX_CHAN, true);
    Ok(tx.(ssi := tx.ssi.(next := Some(Advanced(s.next.value, s.period, done)))))
  }

  /** `service` */
  function ServiceOf(g: Guest, s: State, done: nat): Result<Moved, SsiFault> {
    var s1 := s.(now := done);
    var moved :- if RequestDue(s1, done) then Request(g, s1, done) else Ok(Moved(g, s1, [], false));
    var (g2, s2) := Deliver170(moved.guest, moved.ssi);
    var (g3, s3) := Deliver191(g2, s2);
    Ok(moved.(guest := g3, ssi := s3))
  }

  // ---- Register writes ----------------------------------------------------

  /** `_on_serq`: bit 7 is a no-op, bit 6 means all channels. */
  function OnSerq(s: State, size: nat, value: nat): State {
    if size != 1 || Bit(value, 7) then s
    else
      var chans: set<nat> := if Bit(value, 6) then {RX_CHAN, TX_CHAN} else {value % 0x40};
      var s1 := s.(enabled := s.enabled + chans * {RX_CHAN, TX_CHAN});
      if s1.enabled != {} && s1.next.None? then s1.(next := Some(s1.now as real + s1.period)) else s1
  }

  /** `_on_cint` */
  function OnCint(s: State, size: nat, value: nat): State {
    if size == 1 && (Bit(value, 6) || value % 0x40 == TX_CHAN)
    then s.(int50Asserted := false, int50Delivered := false) else s
  }

  /** The force register's four bytes with `value` written over them at `offset`,
      as a Python slice assignment splices it. */
  function Spliced(current: seq<byte>, offset: nat, value: seq<byte>): seq<byte>
    requires |current| == 4 && offset < 4
  {
    current[..offset] + value + current[Min(4, offset + |value|)..]
  }

  /** Bit 31 of a big-endian number of at least four bytes. */
  predicate Bit31(s: seq<byte>)
    requires |s| >= 4
  {
    s[|s| - 4] >= 0x80
  }

  /** `_on_intfrch1`: the latch follows bit 31. */
  function OnForce(s: State, asserted: bool): State {
    s.(forceAsserted := asserted,
       forceDelivered := if asserted && s.forceAsserted then s.forceDelivered else false)
  }

  function OnIntfrch1(s: State, current: seq<byte>, offset: nat, value: seq<byte>): State
    requires |current| == 4 && offset < 4
  {
    OnForce(s, Bit31(Spliced(current, offset, value)))
  }

  /** `_on_force_rte`: the interrupted mask is the one saved in the frame. */
  function OnForceRte(g: Guest, s: State): (Guest, State) {
    var level := Level(g, FORCE_VECTOR, false);
    if !s.forceAsserted || s.forceDelivered || level.None? then (g, s)
    else if Ipl(Load16(g.mem, g.a7 + 2)) >= level.value || !HasHandler(g, FORCE_VECTOR) then (g, s)
    else (Entered(g, FORCE_VECTOR, level.value), s.(forceDelivered := true, vector191 := s.vector191 + 1))
  }

  /** The effect of `_on_force_rte` on the latches when the guest's run took it. */
  function OnForceTaken(s: State): State {
    if !s.forceAsserted || s.forceDelivered then s
    else s.(forceDelivered := true, vector191 := s.vector191 + 1)
  }
}
