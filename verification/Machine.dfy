/** The guest machine as the timer models see it: memory, the program counter,
    the status register and the stack pointer, with exception entry and return
    as in emu/harness.py (no trampoline installed). */
module Machine {
  import opened Bytes

  type u16 = x: int | 0 <= x < 0x1_0000
  type Mem = map<int, byte>

  /** `regs` stands for all registers the host code never touches. */
  datatype Guest = Guest(pc: u32, sr: u16, a7: int, mem: Mem, regs: seq<int>)

  const VBR := 0x4000_0000
  const HANDLER_LIMIT := 0x4800_0000
  const FRAME_SIZE := 8

  // ---- Memory -------------------------------------------------------------

  /** Unmapped pages are mapped on first use and read as zeros. */
  function Load(m: Mem, a: int): byte {
    if a in m then m[a] else 0
  }

  function Load16(m: Mem, a: int): u16 {
    var hi: int := Load(m, a);
    hi * 0x100 + Load(m, a + 1)
  }

  function Load32(m: Mem, a: int): u32 {
    var hi: int := Load16(m, a);
    hi * 0x1_0000 + Load16(m, a + 2)
  }

  function Bytes16(w: u16): (s: seq<byte>)
    ensures |s| == 2
  {
    [w / 0x100, w % 0x100]
  }

  function Bytes32(w: u32): (s: seq<byte>)
    ensures |s| == 4
  {
    Bytes16(w / 0x1_0000) + Bytes16(w % 0x1_0000)
  }

  function StoreBytes(m: Mem, a: int, s: seq<byte>): (r: Mem)
    ensures forall x :: Load(r, x) == if a <= x < a + |s| then s[x - a] else Load(m, x)
    decreases |s|
  {
    if s == [] then m else StoreBytes(m[a := s[0]], a + 1, s[1..])
  }

  function LoadBytes(m: Mem, a: int, n: nat): (s: seq<byte>)
    ensures |s| == n
    ensures forall i :: 0 <= i < n ==> s[i] == Load(m, a + i)
  {
    seq<byte>(n, i requires 0 <= i < n => Load(m, a + i))
  }

  lemma Load16Stored(m: Mem, a: int, w: u16)
    requires Load(m, a) == Bytes16(w)[0] && Load(m, a + 1) == Bytes16(w)[1]
    ensures Load16(m, a) == w
  {
  }

  lemma Load32Stored(m: Mem, a: int, w: u32)
    requires forall i :: 0 <= i < 4 ==> Load(m, a + i) == Bytes32(w)[i]
    ensures Load32(m, a) == w
  {
    var hi: u16, lo: u16 := w / 0x1_0000, w % 0x1_0000;
    var s := Bytes32(w);
    assert s[0] == Bytes16(hi)[0] && s[1] == Bytes16(hi)[1] && s[2] == Bytes16(lo)[0] && s[3] == Bytes16(lo)[1];
    assert Load(m, a + 0) == s[0] && Load(m, a + 1) == s[1] && Load(m, a + 2) == s[2] && Load(m, a + 3) == s[3];
    hide Bytes16, Load;
    Load16Stored(m, a, hi);
    Load16Stored(m, a + 2, lo);
  }

  lemma LoadsAgree(m: Mem, n: Mem, a: int, len: nat)
    requires len == 2 || len == 4
    requires forall x :: a <= x < a + len ==> Load(n, x) == Load(m, x)
    ensures len == 2 ==> Load16(n, a) == Load16(m, a)
    ensures len == 4 ==> Load32(n, a) == Load32(m, a)
  {
    hide Load;
  }

  lemma Reads32(m: Mem, a: int, v: u32)
    ensures Load32(StoreBytes(m, a, Bytes32(v)), a) == v
  {
    var n := StoreBytes(m, a, Bytes32(v));
    hide Load32, StoreBytes, Bytes32, Load;
    forall i | 0 <= i < 4
      ensures Load(n, a + i) == Bytes32(v)[i]
    {
    }
    Load32Stored(n, a, v);
  }

  lemma Reads16(m: Mem, a: int, v: u16)
    ensures Load16(StoreBytes(m, a, Bytes16(v)), a) == v
  {
    var n := StoreBytes(m, a, Bytes16(v));
    hide Load16, StoreBytes, Bytes16, Load;
    assert Load(n, a + 0) == Bytes16(v)[0] && Load(n, a + 1) == Bytes16(v)[1];
    Load16Stored(n, a, v);
  }

  /** Storing elsewhere leaves a halfword and a longword alone. */
  lemma StoreElsewhere(m: Mem, a: int, s: seq<byte>, b: int)
    ensures b + 4 <= a || a + |s| <= b ==> Load32(StoreBytes(m, a, s), b) == Load32(m, b)
    ensures b + 2 <= a || a + |s| <= b ==> Load16(StoreBytes(m, a, s), b) == Load16(m, b)
  {
    var n := StoreBytes(m, a, s);
    hide Load, Load16, Load32, StoreBytes;
    if b + 4 <= a || a + |s| <= b {
      LoadsAgree(m, n, b, 4);
    }
    if b + 2 <= a || a + |s| <= b {
      LoadsAgree(m, n, b, 2);
    }
  }

  // ---- Exceptions ---------------------------------------------------------

  /** The interrupt mask in bits 8 to 10 of the status register. */
  function Ipl(sr: u16): (l: nat)
    ensures l <= 7
  {
    sr / 0x100 % 8
  }

  /** `sr | 0x2000` */
  function Supervisor(sr: u16): u16 {
    if sr / 0x2000 % 2 == 1 then sr else sr + 0x2000
  }

  /** `(sr & ~0x0700) | (level << 8)` */
  function WithIpl(sr: u16, level: nat): u16
    requires level <= 7
  {
    sr - 0x100 * Ipl(sr) + 0x100 * level
  }

  lemma IplOfEntry(sr: u16, level: nat)
    requires level <= 7
    ensures Ipl(WithIpl(Supervisor(sr), level)) == level
  {
    var s: int := Supervisor(sr);
    SplitStatus(s);
    JoinStatus(s / 0x800, level, s % 0x100);
  }

  lemma SplitStatus(s: nat)
    ensures s == 0x800 * (s / 0x800) + 0x100 * (s / 0x100 % 8) + s % 0x100
  {
    var h := s / 0x100;
    assert s / 0x800 == h / 8;
  }

  lemma JoinStatus(q: nat, level: nat, low: nat)
    requires level < 8 && low < 0x100
    ensures (0x800 * q + 0x100 * level + low) / 0x100 % 8 == level
  {
    assert (0x100 * (8 * q + level) + low) / 0x100 == 8 * q + level;
  }

  function Handler(g: Guest, vec: nat): u32 {
    Load32(g.mem, VBR + vec * 4)
  }

  predicate HasHandler(g: Guest, vec: nat) {
    0 < Handler(g, vec) < HANDLER_LIMIT
  }

  /** Format 4, vector number, interrupted status register, interrupted pc. */
  function Frame(g: Guest, vec: nat): (s: seq<byte>)
    requires vec < 0x400
    ensures |s| == FRAME_SIZE
  {
    Bytes16(0x4000 + vec * 4) + Bytes16(g.sr) + Bytes32(g.pc)
  }

  /** `raise_vector` for an interrupt of the given level, its handler existing. */
  function Entered(g: Guest, vec: nat, level: nat): Guest
    requires vec < 0x400 && level <= 7
  {
    g.(a7 := g.a7 - FRAME_SIZE,
       mem := StoreBytes(g.mem, g.a7 - FRAME_SIZE, Frame(g, vec)),
       sr := WithIpl(Supervisor(g.sr), level),
       pc := Handler(g, vec))
  }

  /** The `rte` branch of `install_exceptions`. */
  function Returned(g: Guest): Guest {
    g.(sr := Load16(g.mem, g.a7 + 2), pc := Load32(g.mem, g.a7 + 4), a7 := g.a7 + FRAME_SIZE)
  }

  class Cpu {
    var pc: u32
    var sr: u16
    var a7: int
    var mem: Mem
    var regs: seq<int>

    function State(): Guest
      reads this
    {
      Guest(pc, sr, a7, mem, regs)
    }

    constructor (g: Guest)
      ensures State() == g
    {
      pc, sr, a7, mem, regs := g.pc, g.sr, g.a7, g.mem, g.regs;
    }

    method Become(g: Guest)
      modifies this
      ensures State() == g
    {
      pc, sr, a7, mem, regs := g.pc, g.sr, g.a7, g.mem, g.regs;
    }

    method RaiseVector(vec: nat, level: nat) returns (taken: bool)
      requires vec < 0x400 && level <= 7
      modifies this
      ensures taken == HasHandler(old(State()), vec)
      ensures State() == if taken then Entered(old(State()), vec, level) else old(State())
    {
      hide Load, Load16, Load32, Bytes16, Bytes32, Supervisor, WithIpl, StoreBytes;
      var handler := Load32(mem, VBR + vec * 4);
      if handler == 0 || handler >= HANDLER_LIMIT {
        return false;
      }
      var sp := a7 - FRAME_SIZE;
      mem := StoreBytes(mem, sp, Bytes16(0x4000 + vec * 4) + Bytes16(sr) + Bytes32(pc));
      a7 := sp;
      var live := Supervisor(sr);
      live := WithIpl(live, level);
      sr := live;
      pc := handler;
      return true;
    }

    method Rte()
      modifies this
      ensures State() == Returned(old(State()))
    {
      var sp := a7;
      sr := Load16(mem, sp + 2);
      pc := Load32(mem, sp + 4);
      a7 := sp + FRAME_SIZE;
    }
  }

  /** A frame that is still in memory returns to exactly where it was pushed. */
  lemma EnterReturn(g: Guest, vec: nat, level: nat, after: Guest)
    requires vec < 0x400 && level <= 7
    requires after.a7 == g.a7 - FRAME_SIZE
    requires forall x :: g.a7 - FRAME_SIZE <= x < g.a7 ==> Load(after.mem, x) == Load(Entered(g, vec, level).mem, x)
    ensures Returned(after).pc == g.pc && Returned(after).sr == g.sr && Returned(after).a7 == g.a7
    ensures Returned(after).mem == after.mem
  {
    hide Frame, StoreBytes, Load16, Load32, Load;
    var f := Frame(g, vec);
    StoredFrame(g, vec, level);
    assert LoadBytes(after.mem, after.a7, FRAME_SIZE) == f;
    FrameReads(after.mem, after.a7, g, vec);
  }

  lemma StoredFrame(g: Guest, vec: nat, level: nat)
    requires vec < 0x400 && level <= 7
    ensures forall x :: g.a7 - FRAME_SIZE <= x < g.a7 ==>
              Load(Entered(g, vec, level).mem, x) == Frame(g, vec)[x - (g.a7 - FRAME_SIZE)]
  {
    hide Frame, Load;
  }

  lemma FrameReads(m: Mem, sp: int, g: Guest, vec: nat)
    requires vec < 0x400 && LoadBytes(m, sp, FRAME_SIZE) == Frame(g, vec)
    ensures Load16(m, sp + 2) == g.sr && Load32(m, sp + 4) == g.pc
  {
    hide Load, Bytes16, Bytes32, Load16, Load32;
    var f := LoadBytes(m, sp, FRAME_SIZE);
    assert f[2] == Bytes16(g.sr)[0] && f[3] == Bytes16(g.sr)[1];
    Load16Stored(m, sp + 2, g.sr);
    assert f[4] == Bytes32(g.pc)[0] && f[5] == Bytes32(g.pc)[1];
    assert f[6] == Bytes32(g.pc)[2] && f[7] == Bytes32(g.pc)[3];
    forall i | 0 <= i < 4
      ensures Load(m, sp + 4 + i) == Bytes32(g.pc)[i]
    {
      assert f[4 + i] == Load(m, sp + (4 + i));
    }
    Load32Stored(m, sp + 4, g.pc);
  }

  // ---- The interrupt controllers ------------------------------------------

  /** Each controller owns 64 vectors; its registers start at the base. */
  function IntcBase(vec: nat): Option<(int, nat)> {
    if 64 <= vec < 128 then Some((0xFC04_8000, vec - 64))
    else if 128 <= vec < 192 then Some((0xFC04_C000, vec - 128))
    else if 192 <= vec < 256 then Some((0xFC05_0000, vec - 192))
    else None
  }

  /** `interrupt_level`: a vector's programmed level, or none if disabled or masked. */
  function Level(g: Guest, vec: nat, respectMask: bool): (l: Option<nat>)
    ensures l.Some? ==> 1 <= l.value <= 7
  {
    match IntcBase(vec)
    case None => None
    case Some((base, src)) =>
      var icr := Load(g.mem, base + 0x40 + src) % 8;
      if icr == 0 then None
      else if !respectMask then Some(icr)
      else
        var imrh, imrl := Load32(g.mem, base + 8), Load32(g.mem, base + 12);
        var masked := if src < 32 then imrl / Pow2(src) % 2 else imrh / Pow2(src - 32) % 2;
        if masked == 1 then None else Some(icr)
  }
}
