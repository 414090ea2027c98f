/** The card and its controller as the objects they are, proved against the
    functions of module Esdhc. */
module EsdhcDevice {
  import opened Bytes
  import opened Machine
  import Timers
  import Ssi
  import opened Esdhc

  const XFERTYP := 0x0C

  class Card {
    const image: Option<seq<byte>>
    const extCsd: seq<byte>
    var overlay: map<int, byte>
    var rca: nat
    var selected: bool

    function Current(): CardState
      reads this
    {
      CardState(image, overlay, extCsd, rca, selected)
    }

    constructor (image: Option<seq<byte>>, extCsd: seq<byte>)
      ensures Current() == CardState(image, map[], extCsd, 0, false)
    {
      this.image, this.extCsd := image, extCsd;
      overlay, rca, selected := map[], 0, false;
    }

    /** `command` */
    method Command(idx: nat, arg: nat) returns (r: Response)
      modifies this
      ensures (Current(), r) == Esdhc.Command(old(Current()), idx, arg)
    {
      r := R1;
      if idx == 0 {
        selected := false;
        r := Response(0, 0, 0, 0);
      } else if idx == 1 {
        r := Response(0xC0FF_8080, 0, 0, 0);
      } else if idx == 2 || idx == 9 || idx == 10 {
        r := Response(0, 0, 0, if idx == 9 then 0 else 0x11_0000);
      } else if idx == 3 {
        rca := arg / 0x1_0000 % 0x1_0000;
      } else if idx == 7 {
        selected := arg / 0x1_0000 % 0x1_0000 == rca;
      }
    }

    /** `data_for` */
    method DataFor(idx: nat, arg: nat, length: nat) returns (payload: Option<seq<byte>>)
      ensures payload == Esdhc.DataFor(Current(), idx, arg, length)
    {
      if idx == 8 {
        return Some(extCsd);
      }
      if idx != 18 {
        return None;
      }
      var start := arg * BLOCK;
      var data := Zeros(length);
      if image.Some? {
        var size := |image.value|;
        var part := image.value[Min(start, size)..Min(start + length, size)];
        data := part + Zeros(length - |part|);
      }
      ghost var before := data;
      for k := 0 to length
        invariant |data| == length
        invariant forall j :: 0 <= j < k ==> data[j] == FlatByte(Current(), start + j)
        invariant forall j :: k <= j < length ==> data[j] == before[j]
      {
        if start + k in overlay {
          data := data[k := overlay[start + k]];
        }
      }
      assert data == Flat(Current(), start, length);
      return Some(data);
    }

    /** `write_data` */
    method WriteData(idx: nat, arg: nat, payload: seq<byte>)
      modifies this`overlay
      ensures Current() == Esdhc.WriteData(old(Current()), idx, arg, payload)
    {
      if idx != 25 {
        return;
      }
      ghost var before := overlay;
      var start := arg * BLOCK;
      for k := 0 to |payload|
        invariant overlay == Overlaid(before, start, payload[..k])
      {
        assert payload[..k + 1][..k] == payload[..k];
        overlay := overlay[start + k := payload[k]];
      }
      assert payload[..|payload|] == payload;
    }
  }

  class Controller {
    const m: Cpu
    const card: Card
    const w: Wiring
    var armed: bool
    var pattern: u32
    var dmaBytes: nat
    var log: seq<(nat, nat)>

    function Current(): ControlState
      reads this, card
    {
      ControlState(card.Current(), armed, pattern, dmaBytes, log)
    }

    constructor (m: Cpu, card: Card, w: Wiring)
      ensures this.m == m && this.card == card && this.w == w
      ensures Current() == ControlState(card.Current(), false, 0, 0, [])
    {
      this.m, this.card, this.w := m, card, w;
      armed, pattern, dmaBytes, log := false, 0, 0, [];
    }

    /** `_on_serq` */
    method OnSerq(value: nat)
      modifies this
      ensures Current() == Esdhc.OnSerq(old(Current()), value)
    {
      if !Timers.Bit(value, 6) && value % 0x40 == DMA_CHAN {
        armed := true;
      }
    }

    /** `_on_datport_write` */
    method OnDatportWrite(value: u32)
      modifies this
      ensures Current() == old(Current()).(pattern := value)
    {
      pattern := value;
    }

    /** `_post` */
    method Post(sem: Option<int>)
      modifies m
      ensures m.State() == old(m.State()).(mem := Posted(old(m.mem), sem))
    {
      hide StoreBytes, Load32, Bytes32;
      if sem.None? {
        return;
      }
      var count := Load32(m.mem, sem.value);
      if count == 0 || count >= 0x8000_0000 {
        m.mem := StoreBytes(m.mem, sem.value, Bytes32(1));
      }
    }

    /** The end of either transfer. */
    method Complete()
      modifies m
      ensures m.State() == old(m.State()).(mem := Completed(old(m.mem)))
    {
      hide StoreBytes, Load16, Bytes16, Done;
      m.mem := StoreBytes(m.mem, TCD + Ssi.CITER, Bytes16(Load16(m.mem, TCD + Ssi.BITER) % 0x8000));
      m.mem := StoreBytes(m.mem, TCD + Ssi.CSR, Bytes16(Done(Load16(m.mem, TCD + Ssi.CSR))));
    }

    /** `_dma_out` */
    method DmaOut(payload: seq<byte>) returns (r: Result<nat, EsdhcFault>)
      modifies this`dmaBytes, m
      ensures var spec := Esdhc.DmaOut(old(m.mem), payload);
              if spec.Ok? then
                r == Ok(spec.value.1) && m.State() == old(m.State()).(mem := spec.value.0) &&
                Current() == old(Current()).(dmaBytes := old(dmaBytes) + spec.value.1)
              else r == Err(spec.error)
    {
      hide StoreBytes, Load32, Bytes32, DmaSize, Completed, Chunk;
      var total, dst := DmaSize(m.mem), Load32(m.mem, TCD + Ssi.DADDR);
      if total == 0 {
        return Ok(0);
      }
      if dst + total >= WORD {
        return Err(BadAddress);
      }
      m.mem := StoreBytes(m.mem, dst, Chunk(payload, total));
      m.mem := StoreBytes(m.mem, TCD + Ssi.DADDR, Bytes32(dst + total));
      Complete();
      dmaBytes := dmaBytes + total;
      return Ok(total);
    }

    /** The loop of `_dma_in`; no result when a row leaves the address space. */
    method Pull(src0: u32, soff: int, nbytes: nat, citer: nat) returns (payload: Option<seq<byte>>, src: int)
      ensures payload.Some? <==> RowsInRange(src0, soff, nbytes, citer)
      ensures payload.Some? ==> payload.value == Rows(m.mem, src0, soff, nbytes, citer) && src == src0 + citer * soff
    {
      hide Load;
      var rows: seq<byte> := [];
      src := src0;
      for i := 0 to citer
        invariant src == src0 + i * soff
        invariant RowsInRange(src0, soff, nbytes, i)
        invariant rows == Rows(m.mem, src0, soff, nbytes, i)
      {
        assert (i + 1) * soff == i * soff + soff;
        if !RowInRange(src, nbytes) {
          return None, src;
        }
        rows := rows + LoadBytes(m.mem, src, nbytes);
        src := src + soff;
      }
      return Some(rows), src;
    }

    /** `_dma_in` */
    method DmaIn() returns (r: Result<seq<byte>, EsdhcFault>)
      modifies this`dmaBytes, m
      ensures var spec := Esdhc.DmaIn(old(m.mem));
              if spec.Ok? then
                r == Ok(spec.value.1) && m.State() == old(m.State()).(mem := spec.value.0) &&
                Current() == old(Current()).(dmaBytes := old(dmaBytes) + |spec.value.1|)
              else r == Err(spec.error)
    {
      hide StoreBytes, Load32, Load16, Bytes32, Completed, Rows, RowsInRange, Ssi.Signed;
      var citer, nbytes := Load16(m.mem, TCD + Ssi.CITER) % 0x8000, Load32(m.mem, TCD + Ssi.NBYTES);
      var src0, soff := Load32(m.mem, TCD + Ssi.SADDR), Ssi.Signed(Load16(m.mem, TCD + Ssi.SOFF), 0x8000);
      var payload, src := Pull(src0, soff, nbytes, citer);
      if payload.None? {
        return Err(BadAddress);
      }
      src := src + Ssi.Signed(Load32(m.mem, TCD + Ssi.SLAST), 0x8000_0000);
      m.mem := StoreBytes(m.mem, TCD + Ssi.SADDR, Bytes32(src % WORD));
      Complete();
      dmaBytes := dmaBytes + |payload.value|;
      return Ok(payload.value);
    }

    /** The data half of a command from the card to the host. */
    method SendToHost(idx: nat, arg: nat) returns (fault: Option<EsdhcFault>)
      modifies this, m
      ensures var spec := ToHost(old(m.mem), old(Current()), w, idx, arg);
              if spec.Ok? then fault.None? && m.State() == old(m.State()).(mem := spec.value.0) && Current() == spec.value.1
              else fault == Some(spec.error)
    {
      hide StoreBytes, Load32, Bytes32, DmaSize, Completed, Ready, Put, Posted, Esdhc.DmaOut, Esdhc.DataFor;
      m.mem := Put(Ready(m.mem, 0x800, 0x20), DATPORT, if idx == 14 then WORD - 1 - pattern else 0);
      var payload := card.DataFor(idx, arg, if armed then DmaSize(m.mem) else 0);
      if payload.Some? && armed {
        var n := DmaOut(payload.value);
        if n.Err? {
          return Some(n.error);
        }
        armed := false;
        Post(w.dmaSem);
      }
      Post(w.dataSem);
      return None;
    }

    /** The data half of a command from the host to the card. */
    method TakeFromHost(idx: nat, arg: nat) returns (fault: Option<EsdhcFault>)
      modifies this, card, m
      ensures var spec := FromHost(old(m.mem), old(Current()), w, idx, arg);
              if spec.Ok? then fault.None? && m.State() == old(m.State()).(mem := spec.value.0) && Current() == spec.value.1
              else fault == Some(spec.error)
    {
      hide StoreBytes, Load32, Bytes32, DmaSize, Completed, Ready, Put, Posted, Esdhc.DmaIn, Esdhc.WriteData;
      m.mem := Ready(m.mem, 0x400, 0x10);
      if armed {
        var payload := DmaIn();
        if payload.Err? {
          return Some(payload.error);
        }
        card.WriteData(idx, arg, payload.value);
        armed := false;
        Post(w.dmaSem);
      }
      Post(w.dataSem);
      return None;
    }

    /** `_on_xfertyp`: a store of `value` to the transfer type register. */
    method OnXfertyp(size: nat, value: u32) returns (fault: Option<EsdhcFault>)
      modifies this, card, m
      ensures var spec := Issue(old(m.mem), old(Current()), w, if size == 4 then value else Get(old(m.mem), XFERTYP));
              if spec.Ok? then fault.None? && m.State() == old(m.State()).(mem := spec.value.0) && Current() == spec.value.1
              else fault == Some(spec.error)
    {
      hide StoreBytes, Load32, Bytes32, Answered, Get, Posted, ToHost, FromHost, Esdhc.Command, Timers.Bit;
      var xfer := if size == 4 then value else Get(m.mem, XFERTYP);
      var idx, arg := Index(xfer), Get(m.mem, CMDARG);
      log := log + [(idx, arg)];
      var r := card.Command(idx, arg);
      m.mem := Answered(m.mem, r);
      if Timers.Bit(xfer, 21) {
        if Timers.Bit(xfer, 4) {
          fault := SendToHost(idx, arg);
        } else {
          fault := TakeFromHost(idx, arg);
        }
        if fault.Some? {
          return;
        }
      }
      m.mem := StoreBytes(m.mem, w.drvStatus, Bytes32(0));
      Post(w.cmdSem);
      return None;
    }
  }
}
