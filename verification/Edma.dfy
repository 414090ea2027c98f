/** The eDMA channel that feeds the console (emu/edma.py): a nested transfer loop
    over a ring buffer, run eagerly. */
module Edma {
  import opened Bytes
  import opened Machine
  import Ssi

  // ---- The ring -----------------------------------------------------------

  /** The largest multiple of 2^smod not above `a`: `src & ~mask`. */
  function RingBase(a: int, smod: nat): int {
    a - a % Pow2(smod)
  }

  /** `base | (src & mask)`, or `src` itself without a modulo. */
  function Folded(base: int, src: int, smod: nat): int {
    if smod == 0 then src else base + src % Pow2(smod)
  }

  /** Where byte `k` of a transfer comes from. */
  function Address(saddr: u32, soff: int, smod: nat, k: nat): int {
    if smod == 0 then saddr + k * soff
    else RingBase(saddr, smod) + (saddr - RingBase(saddr, smod) + k * soff) % Pow2(smod)
  }

  /** Reads stay within the 32-bit address space. */
  predicate InRange(saddr: u32, soff: int, smod: nat, n: nat) {
    forall k :: 0 <= k < n ==> 0 <= Address(saddr, soff, smod, k) < WORD
  }

  function Gather(m: Mem, saddr: u32, soff: int, smod: nat, n: nat): (s: seq<byte>)
    ensures |s| == n
  {
    seq<byte>(n, k requires 0 <= k < n => Load(m, Address(saddr, soff, smod, k)))
  }

  lemma ModPlus(m: int, q: int, x: int, off: int)
    requires m >= 1
    ensures (m * q + x % m + off) % m == (x + off) % m
  {
    var r := x % m + off;
    var d := x / m;
    assert x == m * d + x % m;
    Distribute(m, q, r / m);
    Distribute(m, d, r / m);
    DivModUnique(m * q + r, m, q + r / m, r % m);
    DivModUnique(x + off, m, d + r / m, r % m);
  }

  lemma Distribute(m: int, a: int, b: int)
    ensures m * (a + b) == m * a + m * b
  {
  }

  lemma RingBaseMultiple(a: u32, smod: nat)
    ensures RingBase(a, smod) == Pow2(smod) * (a / Pow2(smod)) && 0 <= RingBase(a, smod) <= a < RingBase(a, smod) + Pow2(smod)
  {
    hide Pow2;
    Division(a, Pow2(smod));
  }

  lemma Division(a: nat, m: nat)
    requires m >= 1
    ensures a == m * (a / m) + a % m && 0 <= a % m < m && m * (a / m) >= 0 && a / m >= 0
  {
    MulNotNegative(m, a / m);
  }

  lemma MulNotNegative(m: nat, q: nat)
    ensures m * q >= 0
  {
  }

  /** One step of the inner loop moves from one address to the next. */
  lemma AddressStep(saddr: u32, soff: int, smod: nat, k: nat)
    ensures Address(saddr, soff, smod, 0) == saddr
    ensures Folded(RingBase(saddr, smod), Address(saddr, soff, smod, k) + soff, smod) == Address(saddr, soff, smod, k + 1)
  {
    var m, base := Pow2(smod), RingBase(saddr, smod);
    assert (k + 1) * soff == k * soff + soff;
    RingBaseMultiple(saddr, smod);
    hide Pow2, RingBase;
    SmallMod(saddr - base, m);
    ModPlus(m, saddr / m, saddr - base + k * soff, soff);
  }

  lemma SmallMod(x: nat, m: nat)
    requires x < m
    ensures x % m == x
  {
    DivModUnique(x, m, 0, x);
  }

  lemma {:induction false} Pow2Fits(smod: nat, n: nat)
    requires smod <= n
    ensures exists q: nat :: Pow2(n) == Pow2(smod) * q
    decreases n
  {
    if smod == n {
      assert Pow2(n) == Pow2(smod) * 1;
    } else {
      Pow2Fits(smod, n - 1);
      var q: nat :| Pow2(n - 1) == Pow2(smod) * q;
      assert Pow2(n) == Pow2(smod) * (2 * q);
    }
  }

  /** No read leaves the ring, so with a modulo none leaves the address space. */
  lemma ReadsStayInRing(saddr: u32, soff: int, smod: nat, k: nat)
    requires 1 <= smod < 32
    ensures var base := RingBase(saddr, smod);
            base <= Address(saddr, soff, smod, k) < base + Pow2(smod) <= WORD && base % Pow2(smod) == 0 && base >= 0
  {
    hide Pow2;
    var m, base := Pow2(smod), RingBase(saddr, smod);
    RingBaseMultiple(saddr, smod);
    hide RingBase;
    DivModUnique(base, m, saddr / m, 0);
    PowerOfWord(16);
    Pow2Fits(smod, 16 + 16);
    var q: nat :| Pow2(16 + 16) == m * q;
    RingBelow(m, saddr / m, q);
    Division(saddr - base, m);
    AnyMod(saddr - base + k * soff, m);
  }

  lemma AnyMod(x: int, m: nat)
    requires m >= 1
    ensures 0 <= x % m < m
  {
  }

  lemma RingBelow(m: nat, a: nat, q: nat)
    requires m >= 1 && m * a < m * q
    ensures m * a + m <= m * q
  {
    Distribute(m, a, q - a);
    ProductSign(m, q - a);
  }

  lemma ProductSign(m: nat, d: int)
    requires m >= 1
    ensures d <= 0 ==> m * d <= 0
    ensures d >= 1 ==> m * d >= m
  {
  }

  lemma {:induction false} PowerOfWord(n: nat)
    requires n == 16
    ensures Pow2(n) == 0x1_0000 && Pow2(n + n) == WORD
  {
    Pow2Add(8, 8);
    Powers();
    Pow2Add(n, n);
    hide Pow2;
  }

  // ---- One run ------------------------------------------------------------

  /** The descriptor fields a run reads. */
  datatype Job = Job(saddr: u32, soff: int, smod: nat, nbytes: u32, slast: u32, citer: u16, biter: u16)

  function JobOf(m: Mem, tcd: int): (j: Job)
    ensures j.smod < 32 && j.citer < 0x8000 && j.biter < 0x8000
  {
    Job(Load32(m, tcd + Ssi.SADDR), Ssi.Signed(Load16(m, tcd + Ssi.SOFF), 0x8000), Load16(m, tcd + Ssi.ATTR) / 0x800 % 0x20,
        Load32(m, tcd + Ssi.NBYTES), Load32(m, tcd + Ssi.SLAST), Load16(m, tcd + Ssi.CITER) % 0x8000, Load16(m, tcd + Ssi.BITER) % 0x8000)
  }

  function Count(j: Job): nat {
    j.citer * j.nbytes
  }

  /** SADDR after the run. */
  function Ended(j: Job): u32 {
    Folded(RingBase(j.saddr, j.smod), Address(j.saddr, j.soff, j.smod, Count(j)) + j.slast, j.smod) % WORD
  }

  /** The channel besides its descriptor. */
  datatype State = State(out: seq<byte>, bytes: nat, transfers: nat, pending: nat)

  /** The descriptor as a run leaves it. */
  function Advanced(m: Mem, tcd: int, j: Job): Mem {
    StoreBytes(StoreBytes(m, tcd + Ssi.SADDR, Bytes32(Ended(j))), tcd + Ssi.CITER, Bytes16(j.biter))
  }

  /** `run`: an idle channel does nothing, and a read outside the address space
      stops it before anything changed. */
  function RunOf(m: Mem, s: State, tcd: int): (Mem, State) {
    var j := JobOf(m, tcd);
    if j.citer == 0 || !InRange(j.saddr, j.soff, j.smod, Count(j)) then (m, s)
    else
      var data := Gather(m, j.saddr, j.soff, j.smod, Count(j));
      (Advanced(m, tcd, j), State(s.out + data, s.bytes + |data|, s.transfers + 1, s.pending + 1))
  }

  class TxChannel {
    const m: Cpu
    const tcd: int
    var out: seq<byte>
    var bytes: nat
    var transfers: nat
    var pending: nat

    function Current(): State
      reads this
    {
      State(out, bytes, transfers, pending)
    }

    constructor (m: Cpu, out: seq<byte>, chan: nat)
      ensures this.m == m && tcd == Ssi.Tcd(chan) && Current() == State(out, 0, 0, 0)
    {
      this.m, tcd := m, Ssi.Tcd(chan);
      this.out, bytes, transfers, pending := out, 0, 0, 0;
    }

    /** The nested loop of `run`; no result when a read leaves the address space. */
    method Move(j: Job) returns (data: Option<seq<byte>>, src: int)
      ensures data.Some? <==> InRange(j.saddr, j.soff, j.smod, Count(j))
      ensures data.Some? ==>
                data.value == Gather(m.mem, j.saddr, j.soff, j.smod, Count(j)) &&
                src == Address(j.saddr, j.soff, j.smod, Count(j))
    {
      hide Address, Folded, RingBase, Load;
      var base := RingBase(j.saddr, j.smod);
      var moved: seq<byte> := [];
      src := j.saddr;
      AddressStep(j.saddr, j.soff, j.smod, 0);
      for i := 0 to j.citer
        invariant |moved| == i * j.nbytes
        invariant Moved(m.mem, j, moved, src)
      {
        for b := 0 to j.nbytes
          invariant |moved| == i * j.nbytes + b
          invariant Moved(m.mem, j, moved, src)
        {
          if src < 0 || src >= WORD {
            WithinCount(i, j.citer, b, j.nbytes);
            return None, src;
          }
          AddressStep(j.saddr, j.soff, j.smod, |moved|);
          moved := moved + [Load(m.mem, src)];
          src := Folded(base, src + j.soff, j.smod);
        }
        assert (i + 1) * j.nbytes == i * j.nbytes + j.nbytes;
      }
      assert moved == Gather(m.mem, j.saddr, j.soff, j.smod, Count(j));
      return Some(moved), src;
    }

    /** `run`: the bytes moved, or none when a read leaves the address space. */
    method Run() returns (moved: Option<nat>)
      modifies this`out, this`bytes, this`transfers, this`pending, m`mem
      ensures (m.mem, Current()) == RunOf(old(m.mem), old(Current()), tcd)
      ensures moved.None? <==> var j := JobOf(old(m.mem), tcd); j.citer != 0 && !InRange(j.saddr, j.soff, j.smod, Count(j))
      ensures moved.Some? ==> moved.value == bytes - old(bytes)
    {
      hide JobOf, InRange, Gather, Load, Address, StoreBytes, Folded, RingBase, Count;
      var j := JobOf(m.mem, tcd);
      if j.citer == 0 {
        return Some(0);
      }
      var data, src := Move(j);
      if data.None? {
        return None;
      }
      src := Folded(RingBase(j.saddr, j.smod), src + j.slast, j.smod);
      m.mem := StoreBytes(m.mem, tcd + Ssi.SADDR, Bytes32(src % WORD));
      m.mem := StoreBytes(m.mem, tcd + Ssi.CITER, Bytes16(j.biter));
      out := out + data.value;
      bytes := bytes + |data.value|;
      transfers := transfers + 1;
      pending := pending + 1;
      return Some(|data.value|);
    }
  }

  /** The bytes moved so far came from the addresses they should have. */
  predicate Moved(m: Mem, j: Job, moved: seq<byte>, src: int) {
    && src == Address(j.saddr, j.soff, j.smod, |moved|)
    && InRange(j.saddr, j.soff, j.smod, |moved|)
    && forall k :: 0 <= k < |moved| ==> moved[k] == Load(m, Address(j.saddr, j.soff, j.smod, k))
  }

  lemma WithinCount(i: nat, citer: nat, b: nat, nbytes: nat)
    requires i < citer && b < nbytes
    ensures i * nbytes + b < citer * nbytes
  {
    Distribute(nbytes, i, citer - i);
    ProductSign(nbytes, citer - i);
  }

  // ---- Closed forms -------------------------------------------------------

  /** With a source modulo no run ever stops on a bad address. */
  lemma RingIsInRange(saddr: u32, soff: int, smod: nat, n: nat)
    requires 1 <= smod < 32
    ensures InRange(saddr, soff, smod, n)
  {
    hide Address;
    forall k: nat | k < n
      ensures 0 <= Address(saddr, soff, smod, k) < WORD
    {
      ReadsStayInRing(saddr, soff, smod, k);
    }
  }

  /** SADDR after a run, in closed form: with a modulo it stays in the ring. */
  lemma EndedClosed(j: Job)
    requires j.smod < 32
    ensures var base, walked := RingBase(j.saddr, j.smod), Count(j) * j.soff + j.slast;
            Ended(j) == if j.smod == 0 then (j.saddr + walked) % WORD
                        else base + (j.saddr - base + walked) % Pow2(j.smod)
  {
    hide Pow2, Count, RingBase, Address, Ended, Folded;
    EndedIs(j);
    EndedFrom(j.saddr, j.smod, Count(j) * j.soff, j.slast, Address(j.saddr, j.soff, j.smod, Count(j)), Ended(j));
    AddressIs(j.saddr, j.soff, j.smod, Count(j));
  }

  /** The end of a walk of `a` and a jump of `b`, folded and cut to 32 bits. */
  lemma EndedFrom(saddr: u32, smod: nat, a: int, b: int, address: int, ended: u32)
    requires smod < 32
    requires ended == Folded(RingBase(saddr, smod), address + b, smod) % WORD
    ensures address == (if smod == 0 then saddr + a else RingBase(saddr, smod) + (saddr - RingBase(saddr, smod) + a) % Pow2(smod)) ==>
              ended == if smod == 0 then (saddr + (a + b)) % WORD
                       else RingBase(saddr, smod) + (saddr - RingBase(saddr, smod) + (a + b)) % Pow2(smod)
  {
    hide Pow2, RingBase, Folded;
    FoldedIs(RingBase(saddr, smod), address + b, smod);
    if smod > 0 {
      RingWalkOn(saddr, smod, a, b);
      ReadsStayInRing(saddr, 0, smod, 0);
      InsideWord(Folded(RingBase(saddr, smod), address + b, smod));
    }
  }

  lemma EndedIs(j: Job)
    ensures Ended(j) == Folded(RingBase(j.saddr, j.smod), Address(j.saddr, j.soff, j.smod, Count(j)) + j.slast, j.smod) % WORD
  {
  }

  lemma FoldedIs(base: int, src: int, smod: nat)
    ensures Folded(base, src, smod) == if smod == 0 then src else base + src % Pow2(smod)
  {
  }

  lemma AddressIs(saddr: u32, soff: int, smod: nat, k: nat)
    ensures Address(saddr, soff, smod, k) ==
            if smod == 0 then saddr + k * soff
            else RingBase(saddr, smod) + (saddr - RingBase(saddr, smod) + k * soff) % Pow2(smod)
  {
  }

  /** Folding after a walk of `a` and a jump of `b` is folding after both. */
  lemma RingWalkOn(saddr: u32, smod: nat, a: int, b: int)
    ensures var m, base := Pow2(smod), RingBase(saddr, smod);
            base + (base + (saddr - base + a) % m + b) % m == base + (saddr - base + a + b) % m < base + m
  {
    hide Pow2;
    var m, base := Pow2(smod), RingBase(saddr, smod);
    RingBaseMultiple(saddr, smod);
    ModPlus(m, saddr / m, saddr - base + a, b);
    AnyMod(saddr - base + a + b, m);
  }

  lemma InsideWord(x: int)
    ensures 0 <= x < WORD ==> x % WORD == x
  {
  }

  /** The console channel at its registers: with a source modulo of 2^12 and a step
      of one, byte `k` is the ring's byte `k` places on, and SADDR at 0xFC04_5460
      ends as many places on as bytes were moved; the ring starts at a multiple
      of 0x1000. */
  lemma RingDelivers(m: Mem, s: State, base: nat, k: nat)
    requires Load16(m, 0xFC04_5464) / 0x800 % 0x20 == 12 && Load16(m, 0xFC04_5466) == 1 && Load32(m, 0xFC04_546C) == 0
    requires base % 0x1000 == 0 && base <= Load32(m, 0xFC04_5460) < base + 0x1000
    requires k < Load16(m, 0xFC04_5474) % 0x8000 * Load32(m, 0xFC04_5468)
    ensures var (m1, s1) := RunOf(m, s, Ssi.Tcd(35));
            var at, n := Load32(m, 0xFC04_5460) - base, Load16(m, 0xFC04_5474) % 0x8000 * Load32(m, 0xFC04_5468);
            |s1.out| == |s.out| + n && s1.out[|s.out| + k] == Load(m, base + (at + k) % 0x1000) &&
            Load32(m1, 0xFC04_5460) == base + (at + n) % 0x1000 && Load16(m1, 0xFC04_5474) == Load16(m, 0xFC04_547C) % 0x8000
  {
    hide Load, Load16, Load32, Address, RingBase, InRange, Ended, StoreBytes, Bytes16, Bytes32;
    var tcd := Ssi.Tcd(35);
    var j := JobOf(m, tcd);
    RingIsInRange(j.saddr, 1, 12, Count(j));
    RingOf(j.saddr, base, k);
    RingOf(j.saddr, base, Count(j));
    EndsOnAddress(j);
    JobAfter(m, tcd);
    var m1 := StoreBytes(m, tcd + Ssi.SADDR, Bytes32(Ended(j)));
    Reads16(m1, tcd + Ssi.CITER, j.biter);
  }

  lemma RingOf(saddr: u32, base: nat, k: nat)
    requires base % 0x1000 == 0 && base <= saddr < base + 0x1000
    ensures Address(saddr, 1, 12, k) == base + (saddr - base + k) % 0x1000
  {
    Pow2Add(8, 4);
    Powers();
    hide Pow2;
    RingBaseIs(saddr, base);
    hide RingBase;
  }

  lemma RingBaseIs(saddr: u32, base: nat)
    requires base % 0x1000 == 0 && base <= saddr < base + 0x1000 && Pow2(12) == 0x1000
    ensures RingBase(saddr, 12) == base
  {
    hide Pow2;
    DivModUnique(saddr, 0x1000, base / 0x1000, saddr - base);
  }

  /** Walking on from where a walk ended is one longer walk. */
  lemma AddressFrom(saddr: u32, soff: int, smod: nat, n: nat, k: nat)
    requires 1 <= smod < 32
    ensures var e := Address(saddr, soff, smod, n);
            0 <= e < WORD && RingBase(e, smod) == RingBase(saddr, smod) &&
            Address(e, soff, smod, k) == Address(saddr, soff, smod, n + k)
  {
    hide Pow2;
    var m, base := Pow2(smod), RingBase(saddr, smod);
    ReadsStayInRing(saddr, soff, smod, n);
    RingBaseMultiple(saddr, smod);
    var x, y := saddr - base + n * soff, k * soff;
    AnyMod(x, m);
    DivModUnique(base + x % m, m, saddr / m, x % m);
    WalkSplits(soff, n, k);
    ModPlus(m, 0, x, y);
  }

  lemma WalkSplits(soff: int, n: nat, k: nat)
    ensures (n + k) * soff == n * soff + k * soff
  {
    Distribute(soff, n, k);
  }

  /** What a run does to the descriptor: SADDR moves on, CITER is BITER again. */
  lemma JobAfter(m: Mem, tcd: int)
    ensures var j := JobOf(m, tcd); JobOf(Advanced(m, tcd, j), tcd) == j.(saddr := Ended(j), citer := j.biter)
  {
    var j := JobOf(m, tcd);
    var m1 := StoreBytes(m, tcd + Ssi.SADDR, Bytes32(Ended(j)));
    JobStored(m, tcd, Ended(j));
    JobCounted(m1, tcd, j.biter);
    hide JobOf, StoreBytes, Ended;
  }

  lemma JobStored(m: Mem, tcd: int, saddr: u32)
    ensures JobOf(StoreBytes(m, tcd + Ssi.SADDR, Bytes32(saddr)), tcd) == JobOf(m, tcd).(saddr := saddr)
  {
    hide StoreBytes, Load32, Load16, Bytes32, Ssi.Signed;
    var s := Bytes32(saddr);
    Reads32(m, tcd + Ssi.SADDR, saddr);
    StoreElsewhere(m, tcd + Ssi.SADDR, s, tcd + Ssi.SOFF);
    StoreElsewhere(m, tcd + Ssi.SADDR, s, tcd + Ssi.ATTR);
    StoreElsewhere(m, tcd + Ssi.SADDR, s, tcd + Ssi.NBYTES);
    StoreElsewhere(m, tcd + Ssi.SADDR, s, tcd + Ssi.SLAST);
    StoreElsewhere(m, tcd + Ssi.SADDR, s, tcd + Ssi.CITER);
    StoreElsewhere(m, tcd + Ssi.SADDR, s, tcd + Ssi.BITER);
  }

  lemma JobCounted(m: Mem, tcd: int, citer: u16)
    requires citer < 0x8000
    ensures JobOf(StoreBytes(m, tcd + Ssi.CITER, Bytes16(citer)), tcd) == JobOf(m, tcd).(citer := citer)
  {
    hide StoreBytes, Load32, Load16, Bytes16, Ssi.Signed;
    var s := Bytes16(citer);
    Reads16(m, tcd + Ssi.CITER, citer);
    StoreElsewhere(m, tcd + Ssi.CITER, s, tcd + Ssi.SADDR);
    StoreElsewhere(m, tcd + Ssi.CITER, s, tcd + Ssi.SOFF);
    StoreElsewhere(m, tcd + Ssi.CITER, s, tcd + Ssi.ATTR);
    StoreElsewhere(m, tcd + Ssi.CITER, s, tcd + Ssi.NBYTES);
    StoreElsewhere(m, tcd + Ssi.CITER, s, tcd + Ssi.SLAST);
    StoreElsewhere(m, tcd + Ssi.CITER, s, tcd + Ssi.BITER);
  }

  /** The channel's ring and its descriptor share no byte. */
  predicate RingAway(j: Job, tcd: int) {
    var base := RingBase(j.saddr, j.smod);
    base + Pow2(j.smod) <= tcd || tcd + 0x20 <= base
  }

  /** Two stretches of one walk, read from memories that agree on the ring. */
  lemma GatherJoins(m: Mem, n: Mem, o: Mem, saddr: u32, soff: int, smod: nat, a: nat, b: nat)
    requires 1 <= smod < 32
    requires var base := RingBase(saddr, smod);
             forall x :: base <= x < base + Pow2(smod) ==> Load(n, x) == Load(m, x) && Load(o, x) == Load(m, x)
    ensures var e := Address(saddr, soff, smod, a);
            0 <= e < WORD && Gather(m, saddr, soff, smod, a) + Gather(n, e, soff, smod, b) == Gather(o, saddr, soff, smod, a + b)
  {
    hide Pow2, Load, Address, RingBase;
    AddressFrom(saddr, soff, smod, a, 0);
    var e := Address(saddr, soff, smod, a);
    forall k: nat | k < a + b
      ensures Load(o, Address(saddr, soff, smod, k)) == Load(m, Address(saddr, soff, smod, k))
      ensures Load(n, Address(saddr, soff, smod, k)) == Load(m, Address(saddr, soff, smod, k))
    {
      ReadsStayInRing(saddr, soff, smod, k);
    }
    forall k: nat | k < b
      ensures Address(e, soff, smod, k) == Address(saddr, soff, smod, a + k)
    {
      AddressFrom(saddr, soff, smod, a, k);
    }
  }

  /** Main result: with a modulo, no last adjustment and a ring away from the
      descriptor, two runs leave what one run of the summed count leaves, but for
      the number of runs. */
  lemma TwoRunsAreOne(m: Mem, s: State, tcd: int)
    requires var j := JobOf(m, tcd);
             1 <= j.smod && j.slast == 0 && j.citer >= 1 && j.biter >= 1 && j.citer + j.biter < 0x8000 && RingAway(j, tcd)
    ensures var j := JobOf(m, tcd);
            var (m1, s1) := RunOf(m, s, tcd);
            var (m2, s2) := RunOf(m1, s1, tcd);
            var (m3, s3) := RunOf(StoreBytes(m, tcd + Ssi.CITER, Bytes16(j.citer + j.biter)), s, tcd);
            s2.out == s3.out && s2.bytes == s3.bytes && JobOf(m2, tcd) == JobOf(m3, tcd) &&
            s2.transfers == s3.transfers + 1 && s2.pending == s3.pending + 1
  {
    hide JobOf, Gather, Address, RingBase, StoreBytes, Load, InRange, Pow2, Ended, RingAway, Count, Bytes16;
    var j := JobOf(m, tcd);
    var both: u16 := j.citer + j.biter;
    var m1 := Advanced(m, tcd, j);
    var j1 := j.(saddr := Ended(j), citer := j.biter);
    var mOne := StoreBytes(m, tcd + Ssi.CITER, Bytes16(both));
    var jOne := j.(citer := both);
    JobAfter(m, tcd);
    JobAfter(m1, tcd);
    JobCounted(m, tcd, both);
    JobAfter(mOne, tcd);
    RingIsInRange(j.saddr, j.soff, j.smod, Count(j));
    RingIsInRange(j1.saddr, j1.soff, j1.smod, Count(j1));
    RingIsInRange(j.saddr, j.soff, j.smod, Count(jOne));
    SplitCount(j, j1, jOne);
    RingUntouched(m, tcd, j, Bytes16(both));
    GatherJoins(m, m1, mOne, j.saddr, j.soff, j.smod, Count(j), Count(j1));
    var a, b := Gather(m, j.saddr, j.soff, j.smod, Count(j)), Gather(m1, j1.saddr, j.soff, j.smod, Count(j1));
    ConcatAssoc(s.out, a, b);
  }

  /** The summed count is the two counts, and its walk ends where the second of
      the two walks ends. */
  lemma SplitCount(j: Job, j1: Job, jOne: Job)
    requires 1 <= j.smod < 32 && j.slast == 0 && j.citer + j.biter < 0x8000
    requires j1 == j.(saddr := Ended(j), citer := j.biter) && jOne == j.(citer := j.citer + j.biter)
    ensures Count(jOne) == Count(j) + Count(j1)
    ensures Ended(j) == Address(j.saddr, j.soff, j.smod, Count(j)) && Ended(jOne) == Ended(j1)
  {
    hide Pow2, Address, Folded, RingBase, Count, Ended;
    CountAdds(j, j1, jOne);
    EndsOnAddress(j);
    EndsOnAddress(j1);
    EndsOnAddress(jOne);
    AddressFrom(j.saddr, j.soff, j.smod, Count(j), Count(j1));
  }

  lemma CountAdds(j: Job, j1: Job, jOne: Job)
    requires j1.nbytes == jOne.nbytes == j.nbytes && jOne.citer == j.citer + j1.citer
    ensures Count(jOne) == Count(j) + Count(j1)
  {
    WalkSplits(j.nbytes, j.citer, j1.citer);
  }

  lemma EndsOnAddress(j: Job)
    requires 1 <= j.smod < 32 && j.slast == 0
    ensures Ended(j) == Address(j.saddr, j.soff, j.smod, Count(j))
  {
    hide Pow2, RingBase, Count, Ended;
    EndedClosed(j);
    var x, walked := Count(j) * j.soff, Count(j) * j.soff + j.slast;
    assert walked == x;
    assert Ended(j) == RingBase(j.saddr, j.smod) + (j.saddr - RingBase(j.saddr, j.smod) + walked) % Pow2(j.smod);
  }

  lemma RingUntouched(m: Mem, tcd: int, j: Job, count: seq<byte>)
    requires RingAway(j, tcd) && |count| == 2
    ensures var base := RingBase(j.saddr, j.smod);
            forall x :: base <= x < base + Pow2(j.smod) ==>
              Load(Advanced(m, tcd, j), x) == Load(m, x) && Load(StoreBytes(m, tcd + Ssi.CITER, count), x) == Load(m, x)
  {
    hide Pow2, RingBase, Load, StoreBytes, Bytes16, Bytes32, Ended;
  }
}
