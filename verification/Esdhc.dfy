/** The eMMC card and its controller (emu/esdhc.py): block data moves through eDMA
    channel 59, writes stay in a sparse overlay over the image. */
module Esdhc {
  import opened Bytes
  import opened Machine
  import Timers
  import Ssi

  const BASE := 0xFC0C_C000
  const CMDARG := 0x08
  const CMDRSP0 := 0x10
  const DATPORT := 0x20
  const PRSSTAT := 0x24
  const IRQSTAT := 0x30
  const DMA_CHAN := 59
  const TCD := 0xFC04_5760
  const BLOCK := 512

  // ---- The card -----------------------------------------------------------

  datatype CardState = CardState(image: Option<seq<byte>>, overlay: map<int, byte>, extCsd: seq<byte>, rca: nat, selected: bool)

  /** The card as a flat array: the overlay over the image over zeros. */
  function FlatByte(c: CardState, i: int): byte {
    if i in c.overlay then c.overlay[i]
    else if c.image.Some? && 0 <= i < |c.image.value| then c.image.value[i]
    else 0
  }

  function Flat(c: CardState, start: int, n: nat): (s: seq<byte>)
    ensures |s| == n && forall k :: 0 <= k < n ==> s[k] == FlatByte(c, start + k)
  {
    seq<byte>(n, k requires 0 <= k < n => FlatByte(c, start + k))
  }

  /** `data_for` with a length */
  function DataFor(c: CardState, idx: nat, arg: nat, length: nat): Option<seq<byte>> {
    if idx == 8 then Some(c.extCsd)
    else if idx == 18 then Some(Flat(c, arg * BLOCK, length))
    else None
  }

  function Overlaid(overlay: map<int, byte>, start: int, payload: seq<byte>): (r: map<int, byte>)
    ensures forall i :: i in r <==> i in overlay || start <= i < start + |payload|
    ensures forall i :: i in r ==> r[i] == if start <= i < start + |payload| then payload[i - start] else overlay[i]
  {
    if payload == [] then overlay
    else
      var n := |payload| - 1;
      Overlaid(overlay, start, payload[..n])[start + n := payload[n]]
  }

  /** `write_data` */
  function WriteData(c: CardState, idx: nat, arg: nat, payload: seq<byte>): CardState {
    if idx == 25 then c.(overlay := Overlaid(c.overlay, arg * BLOCK, payload)) else c
  }

  datatype Response = Response(r0: u32, r1: u32, r2: u32, r3: u32)

  const R1 := Response(0x900, 0, 0, 0)

  /** `command` */
  function Command(c: CardState, idx: nat, arg: nat): (CardState, Response) {
    if idx == 0 then (c.(selected := false), Response(0, 0, 0, 0))
    else if idx == 1 then (c, Response(0xC0FF_8080, 0, 0, 0))
    else if idx == 9 then (c, Response(0, 0, 0, 0))
    else if idx == 2 || idx == 10 then (c, Response(0, 0, 0, 0x11_0000))
    else if idx == 3 then (c.(rca := arg / 0x1_0000 % 0x1_0000), R1)
    else if idx == 7 then (c.(selected := arg / 0x1_0000 % 0x1_0000 == c.rca), R1)
    else (c, R1)
  }

  // ---- Words and bits -----------------------------------------------------

  function Get(m: Mem, off: int): u32 {
    Load32(m, BASE + off)
  }

  function Put(m: Mem, off: int, v: u32): Mem {
    StoreBytes(m, BASE + off, Bytes32(v))
  }

  /** `v | p` for one of the status bits */
  function WithBit(v: u32, p: nat): u32
    requires p == 0x10 || p == 0x20 || p == 0x400 || p == 0x800
  {
    if v / p % 2 == 1 then v else v + p
  }

  /** `v | 0x80` */
  function Done(v: u16): u16 {
    if v / 0x80 % 2 == 1 then v else v + 0x80
  }

  /** `_post`: a semaphore that is not positive becomes one. */
  function Posted(m: Mem, sem: Option<int>): Mem {
    if sem.None? then m
    else
      var count := Load32(m, sem.value);
      if count == 0 || count >= 0x8000_0000 then StoreBytes(m, sem.value, Bytes32(1)) else m
  }

  // ---- The channel --------------------------------------------------------

  datatype EsdhcFault = BadAddress

  /** `_dma_size` */
  function DmaSize(m: Mem): nat {
    Load16(m, TCD + Ssi.CITER) % 0x8000 * Load32(m, TCD + Ssi.NBYTES)
  }

  /** `payload[:total].ljust(total, b'\0')` */
  function Chunk(payload: seq<byte>, total: nat): (s: seq<byte>)
    ensures |s| == total
  {
    if |payload| >= total then payload[..total] else payload + Zeros(total - |payload|)
  }

  /** CITER reloads from BITER and CSR shows the transfer done. */
  function Completed(m: Mem): Mem {
    var m1 := StoreBytes(m, TCD + Ssi.CITER, Bytes16(Load16(m, TCD + Ssi.BITER) % 0x8000));
    StoreBytes(m1, TCD + Ssi.CSR, Bytes16(Done(Load16(m1, TCD + Ssi.CSR))))
  }

  /** `_dma_out`, armed */
  function DmaOut(m: Mem, payload: seq<byte>): Result<(Mem, nat), EsdhcFault> {
    var total, dst := DmaSize(m), Load32(m, TCD + Ssi.DADDR);
    if total == 0 then Ok((m, 0))
    else if dst + total >= WORD then Err(BadAddress)
    else
      var m1 := StoreBytes(m, dst, Chunk(payload, total));
      Ok((Completed(StoreBytes(m1, TCD + Ssi.DADDR, Bytes32(dst + total))), total))
  }

  /** The host buffer as the channel reads it: `n` rows, `soff` apart. */
  function Rows(m: Mem, src: int, soff: int, nbytes: nat, n: nat): seq<byte> {
    if n == 0 then [] else Rows(m, src, soff, nbytes, n - 1) + LoadBytes(m, src + (n - 1) * soff, nbytes)
  }

  predicate RowInRange(src: int, nbytes: nat) {
    nbytes == 0 || 0 <= src <= WORD - nbytes
  }

  predicate RowsInRange(src: int, soff: int, nbytes: nat, n: nat) {
    forall i :: 0 <= i < n ==> RowInRange(src + i * soff, nbytes)
  }

  /** `_dma_in`, armed */
  function DmaIn(m: Mem): Result<(Mem, seq<byte>), EsdhcFault> {
    var citer, nbytes := Load16(m, TCD + Ssi.CITER) % 0x8000, Load32(m, TCD + Ssi.NBYTES);
    var src, soff := Load32(m, TCD + Ssi.SADDR), Ssi.Signed(Load16(m, TCD + Ssi.SOFF), 0x8000);
    if !RowsInRange(src, soff, nbytes, citer) then Err(BadAddress)
    else
      var end := src + citer * soff + Ssi.Signed(Load32(m, TCD + Ssi.SLAST), 0x8000_0000);
      Ok((Completed(StoreBytes(m, TCD + Ssi.SADDR, Bytes32(end % WORD))), Rows(m, src, soff, nbytes, citer)))
  }

  // ---- The controller -----------------------------------------------------

  datatype ControlState = ControlState(card: CardState, armed: bool, pattern: u32, dmaBytes: nat, log: seq<(nat, nat)>)

  /** Where the driver keeps its status word and semaphores. */
  datatype Wiring = Wiring(drvStatus: int, cmdSem: Option<int>, dataSem: Option<int>, dmaSem: Option<int>)

  /** `_on_serq` */
  function OnSerq(c: ControlState, value: nat): ControlState {
    if !Timers.Bit(value, 6) && value % 0x40 == DMA_CHAN then c.(armed := true) else c
  }

  /** The response registers, and the status bits a command always leaves. */
  function Answered(m: Mem, r: Response): Mem {
    var m1 := Put(Put(Put(Put(m, CMDRSP0, r.r0), CMDRSP0 + 4, r.r1), CMDRSP0 + 8, r.r2), CMDRSP0 + 12, r.r3);
    var m2 := Put(m1, PRSSTAT, Get(m1, PRSSTAT) / 8 * 8);
    Put(m2, IRQSTAT, Get(m2, IRQSTAT) / 4 * 4 + 3)
  }

  /** The buffer-ready bits. */
  function Ready(m: Mem, prs: nat, irq: nat): Mem
    requires prs == 0x400 || prs == 0x800
    requires irq == 0x10 || irq == 0x20
  {
    var m1 := Put(m, PRSSTAT, WithBit(Get(m, PRSSTAT), prs));
    Put(m1, IRQSTAT, WithBit(Get(m1, IRQSTAT), irq))
  }

  /** A data command from the card to the host. */
  function ToHost(m: Mem, c: ControlState, w: Wiring, idx: nat, arg: nat): Result<(Mem, ControlState), EsdhcFault> {
    var m1 := Put(Ready(m, 0x800, 0x20), DATPORT, if idx == 14 then WORD - 1 - c.pattern else 0);
    var payload := DataFor(c.card, idx, arg, if c.armed then DmaSize(m1) else 0);
    if payload.None? || !c.armed then Ok((Posted(m1, w.dataSem), c))
    else
      var (m2, n) :- DmaOut(m1, payload.value);
      Ok((Posted(Posted(m2, w.dmaSem), w.dataSem), c.(armed := false, dmaBytes := c.dmaBytes + n)))
  }

  /** A data command from the host to the card. */
  function FromHost(m: Mem, c: ControlState, w: Wiring, idx: nat, arg: nat): Result<(Mem, ControlState), EsdhcFault> {
    var m1 := Ready(m, 0x400, 0x10);
    if !c.armed then Ok((Posted(m1, w.dataSem), c))
    else
      var (m2, payload) :- DmaIn(m1);
      Ok((Posted(Posted(m2, w.dmaSem), w.dataSem),
          c.(card := WriteData(c.card, idx, arg, payload), armed := false, dmaBytes := c.dmaBytes + |payload|)))
  }

  function Index(xfer: u32): nat {
    xfer / 0x100_0000 % 0x40
  }

  /** `_on_xfertyp`: writing the transfer type issues the command. */
  function Issue(m: Mem, c: ControlState, w: Wiring, xfer: u32): Result<(Mem, ControlState), EsdhcFault> {
    var idx, arg := Index(xfer), Get(m, CMDARG);
    var (card, r) := Command(c.card, idx, arg);
    var c1 := c.(card := card, log := c.log + [(idx, arg)]);
    var m1 := Answered(m, r);
    var (m2, c2) :-
      if !Timers.Bit(xfer, 21) then Ok((m1, c1))
      else if Timers.Bit(xfer, 4) then ToHost(m1, c1, w, idx, arg)
      else FromHost(m1, c1, w, idx, arg);
    Ok((Posted(StoreBytes(m2, w.drvStatus, Bytes32(0)), w.cmdSem), c2))
  }
}
