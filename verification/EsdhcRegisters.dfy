/** The card and its controller at their registers: answers, status bits, the bus
    test, selection, the descriptor after a transfer, and a fresh card's bytes. */
module EsdhcRegisters {
  import opened Bytes
  import opened Machine
  import opened Esdhc
  import opened EsdhcTheorems
  import Ssi
  import Edma

  // ---- The card -----------------------------------------------------------

  /** A card nothing was written to reads as its image, and as zeros past it. */
  lemma FreshCard(c: CardState, i: nat)
    requires c.overlay == map[]
    ensures FlatByte(c, i) == if c.image.Some? && i < |c.image.value| then c.image.value[i] else 0
  {
  }

  /** So the first armed CMD18 of a run without writes delivers the image. */
  lemma FirstReadIsImage(c: ControlState, w: Wiring, m: Mem, xfer: u32, image: seq<byte>, x: int)
    requires c.card.overlay == map[] && c.card.image == Some(image)
    requires Reads(xfer) && Index(xfer) == 18 && c.armed && Issue(m, c, w, xfer).Ok?
    requires forall y :: InBuffer(m, y) ==> !Control(w, y)
    requires InBuffer(m, x)
    ensures var i := Load32(m, 0xFC0C_C008) * 512 + (x - Load32(m, 0xFC04_5770));
            i >= 0 && Load(Issue(m, c, w, xfer).value.0, x) == if i < |image| then image[i] else 0
  {
    ChunkOffset(m);
    hide Issue, Control, Load, Load32, Reads, FlatByte, InBuffer, DmaSize;
    ReadDelivers(m, c, w, xfer);
    FreshCard(c.card, Get(m, CMDARG) * BLOCK + (x - Load32(m, TCD + Ssi.DADDR)));
  }

  /** CMD3 gives the card its address, CMD7 with that address selects it, and CMD7
      with another address or CMD0 deselects it. */
  lemma Selection(c: CardState, a: u32, b: u32)
    ensures var addressed := Command(c, 3, a).0;
            addressed.rca == a / 0x1_0000 &&
            Command(addressed, 7, b).0.selected == (b / 0x1_0000 == a / 0x1_0000) &&
            !Command(c, 0, a).0.selected && Command(c, 0, a).0.rca == c.rca
  {
  }

  /** The response words, as the identification sequence expects them. */
  lemma Responses(c: CardState, idx: nat, arg: u32)
    ensures var r := Command(c, idx, arg).1;
            (idx == 1 ==> r.r0 == 0xC0FF_8080) && (idx == 2 || idx == 10 ==> r.r3 == 0x0011_0000) &&
            (idx != 0 && idx != 1 && idx != 2 && idx != 9 && idx != 10 ==> r.r0 == 0x900) &&
            (idx == 0 || idx == 9 ==> r == Response(0, 0, 0, 0))
  {
  }

  // ---- The controller's registers -----------------------------------------

  lemma PutReads(m: Mem, off: nat, v: u32)
    ensures Load32(Put(m, off, v), BASE + off) == v
  {
    Reads32(m, BASE + off, v);
  }

  lemma PutElsewhere(m: Mem, off: nat, v: u32, other: nat)
    requires other + 4 <= off || off + 4 <= other
    ensures Load32(Put(m, off, v), BASE + other) == Load32(m, BASE + other)
  {
    StoreElsewhere(m, BASE + off, Bytes32(v), BASE + other);
  }

  /** A command leaves its response in the four words from 0xFC0C_C010, the three
      inhibit bits of the present state at 0xFC0C_C024 clear and the rest of it
      alone, and the two completion bits at 0xFC0C_C030 set. */
  lemma AnswerInRegisters(m: Mem, r: Response)
    ensures var m1 := Answered(m, r);
            Load32(m1, 0xFC0C_C010) == r.r0 && Load32(m1, 0xFC0C_C014) == r.r1 &&
            Load32(m1, 0xFC0C_C018) == r.r2 && Load32(m1, 0xFC0C_C01C) == r.r3 &&
            Load32(m1, 0xFC0C_C024) % 8 == 0 && Load32(m1, 0xFC0C_C024) / 8 == Load32(m, 0xFC0C_C024) / 8 &&
            Load32(m1, 0xFC0C_C030) % 4 == 3 && Load32(m1, 0xFC0C_C030) / 4 == Load32(m, 0xFC0C_C030) / 4
  {
    hide Load32, Put;
    var a := Put(m, CMDRSP0, r.r0);
    var b := Put(a, CMDRSP0 + 4, r.r1);
    var c := Put(b, CMDRSP0 + 8, r.r2);
    var d := Put(c, CMDRSP0 + 12, r.r3);
    var e := Put(d, PRSSTAT, Get(d, PRSSTAT) / 8 * 8);
    var f := Put(e, IRQSTAT, Get(e, IRQSTAT) / 4 * 4 + 3);
    ResponsesWritten(m, r, a, b, c, d);
    PutElsewhere(d, PRSSTAT, Get(d, PRSSTAT) / 8 * 8, IRQSTAT);
    PutReads(d, PRSSTAT, Get(d, PRSSTAT) / 8 * 8);
    PutReads(e, IRQSTAT, Get(e, IRQSTAT) / 4 * 4 + 3);
    PutElsewhere(e, IRQSTAT, Get(e, IRQSTAT) / 4 * 4 + 3, PRSSTAT);
    StatusLeaves(d, e, Get(d, PRSSTAT) / 8 * 8, PRSSTAT);
    StatusLeaves(e, f, Get(e, IRQSTAT) / 4 * 4 + 3, IRQSTAT);
  }

  lemma StatusLeaves(m: Mem, n: Mem, v: u32, off: nat)
    requires n == Put(m, off, v) && off >= 0x20
    ensures Load32(n, 0xFC0C_C010) == Load32(m, 0xFC0C_C010) && Load32(n, 0xFC0C_C014) == Load32(m, 0xFC0C_C014)
    ensures Load32(n, 0xFC0C_C018) == Load32(m, 0xFC0C_C018) && Load32(n, 0xFC0C_C01C) == Load32(m, 0xFC0C_C01C)
  {
    hide Load32, Put;
    PutElsewhere(m, off, v, 0x10);
    PutElsewhere(m, off, v, 0x14);
    PutElsewhere(m, off, v, 0x18);
    PutElsewhere(m, off, v, 0x1C);
  }

  lemma ResponsesWritten(m: Mem, r: Response, a: Mem, b: Mem, c: Mem, d: Mem)
    requires a == Put(m, 0x10, r.r0) && b == Put(a, 0x14, r.r1) && c == Put(b, 0x18, r.r2) && d == Put(c, 0x1C, r.r3)
    ensures Load32(d, 0xFC0C_C010) == r.r0 && Load32(d, 0xFC0C_C014) == r.r1
    ensures Load32(d, 0xFC0C_C018) == r.r2 && Load32(d, 0xFC0C_C01C) == r.r3
    ensures Load32(d, 0xFC0C_C024) == Load32(m, 0xFC0C_C024) && Load32(d, 0xFC0C_C030) == Load32(m, 0xFC0C_C030)
  {
    hide Load32, Put;
    PutReads(m, 0x10, r.r0);
    PutReads(a, 0x14, r.r1);
    PutReads(b, 0x18, r.r2);
    PutReads(c, 0x1C, r.r3);
    PutElsewhere(a, 0x14, r.r1, 0x10);
    PutElsewhere(b, 0x18, r.r2, 0x10);
    PutElsewhere(c, 0x1C, r.r3, 0x10);
    PutElsewhere(b, 0x18, r.r2, 0x14);
    PutElsewhere(c, 0x1C, r.r3, 0x14);
    PutElsewhere(c, 0x1C, r.r3, 0x18);
    PutElsewhere(m, 0x10, r.r0, PRSSTAT);
    PutElsewhere(a, 0x14, r.r1, PRSSTAT);
    PutElsewhere(b, 0x18, r.r2, PRSSTAT);
    PutElsewhere(c, 0x1C, r.r3, PRSSTAT);
    PutElsewhere(m, 0x10, r.r0, IRQSTAT);
    PutElsewhere(a, 0x14, r.r1, IRQSTAT);
    PutElsewhere(b, 0x18, r.r2, IRQSTAT);
    PutElsewhere(c, 0x1C, r.r3, IRQSTAT);
  }

  /** The bus test: CMD14 puts the inverse of the last word the host wrote into the
      data port, so that 0x5A reads back as 0xA5 in the low byte. */
  lemma BusTest(m: Mem, c: ControlState, r: Response)
    ensures Load32(BeforeRead(m, c, r, 14), 0xFC0C_C020) == 0xFFFF_FFFF - c.pattern
    ensures c.pattern % 0x100 == 0x5A ==> Load32(BeforeRead(m, c, r, 14), 0xFC0C_C020) % 0x100 == 0xA5
  {
    hide Load32, Put, Ready, Answered;
    PutReads(Ready(Answered(m, r), 0x800, 0x20), DATPORT, WORD - 1 - c.pattern);
  }

  /** A read shows the buffer ready for reading, bits 11 and 5, and a write bits 10
      and 4. */
  lemma BufferReady(m: Mem)
    ensures Load32(Ready(m, 0x800, 0x20), 0xFC0C_C024) / 0x800 % 2 == 1
    ensures Load32(Ready(m, 0x800, 0x20), 0xFC0C_C030) / 0x20 % 2 == 1
    ensures Load32(Ready(m, 0x400, 0x10), 0xFC0C_C024) / 0x400 % 2 == 1
    ensures Load32(Ready(m, 0x400, 0x10), 0xFC0C_C030) / 0x10 % 2 == 1
  {
    ReadyBits(m, 0x800, 0x20);
    ReadyBits(m, 0x400, 0x10);
    hide Ready;
  }

  lemma ReadyBits(m: Mem, prs: nat, irq: nat)
    requires (prs == 0x400 || prs == 0x800) && (irq == 0x10 || irq == 0x20)
    ensures Load32(Ready(m, prs, irq), 0xFC0C_C024) == WithBit(Load32(m, 0xFC0C_C024), prs)
    ensures Load32(Ready(m, prs, irq), 0xFC0C_C030) == WithBit(Load32(m, 0xFC0C_C030), irq)
    ensures WithBit(Load32(m, 0xFC0C_C024), prs) / prs % 2 == 1 && WithBit(Load32(m, 0xFC0C_C030), irq) / irq % 2 == 1
  {
    hide Load32, Put;
    BitSet(Load32(m, 0xFC0C_C024), prs);
    BitSet(Load32(m, 0xFC0C_C030), irq);
    hide WithBit;
    var v := WithBit(Get(m, PRSSTAT), prs);
    var m1 := Put(m, PRSSTAT, v);
    PutReads(m, PRSSTAT, v);
    PutElsewhere(m, PRSSTAT, v, IRQSTAT);
    PutReads(m1, IRQSTAT, WithBit(Get(m1, IRQSTAT), irq));
    PutElsewhere(m1, IRQSTAT, WithBit(Get(m1, IRQSTAT), irq), PRSSTAT);
  }

  lemma BitSet(v: u32, p: nat)
    requires p == 0x10 || p == 0x20 || p == 0x400 || p == 0x800
    ensures WithBit(v, p) / p % 2 == 1 && (v / p % 2 == 0 ==> WithBit(v, p) == v + p)
  {
    if v / p % 2 == 0 {
      NextQuotient(v, p);
      OddAfterEven(v / p);
    }
  }

  lemma NextQuotient(v: nat, p: nat)
    requires p > 0
    ensures (v + p) / p == v / p + 1
  {
    var q, r := v / p, v % p;
    assert v + p == p * (q + 1) + r by {
      assert v == p * q + r;
    }
    DivModUnique(v + p, p, q + 1, r);
  }

  lemma OddAfterEven(n: nat)
    requires n % 2 == 0
    ensures (n + 1) % 2 == 1
  {
  }

  /** A posted semaphore is positive, and one that was is left alone. */
  lemma PostedIsPositive(m: Mem, sem: int)
    ensures var n := Load32(Posted(m, Some(sem)), sem);
            1 <= n < 0x8000_0000 && (1 <= Load32(m, sem) < 0x8000_0000 ==> Posted(m, Some(sem)) == m)
  {
    Reads32(m, sem, 1);
    hide Load32, StoreBytes;
  }

  // ---- The descriptor -----------------------------------------------------

  /** Byte `b` of row `i` of the guest's buffer. */
  lemma {:induction false} RowsAt(m: Mem, src: int, soff: int, nbytes: nat, n: nat, i: nat, b: nat)
    requires i < n && b < nbytes
    ensures |Rows(m, src, soff, nbytes, n)| == n * nbytes && i * nbytes + b < n * nbytes
    ensures Rows(m, src, soff, nbytes, n)[i * nbytes + b] == Load(m, src + i * soff + b)
    decreases n
  {
    hide Load;
    RowsLength(m, src, soff, nbytes, n - 1);
    RowsLength(m, src, soff, nbytes, n);
    Edma.WithinCount(i, n, b, nbytes);
    if i == n - 1 {
      var before := Rows(m, src, soff, nbytes, n - 1);
      assert Rows(m, src, soff, nbytes, n) == before + LoadBytes(m, src + (n - 1) * soff, nbytes);
    } else {
      RowsAt(m, src, soff, nbytes, n - 1, i, b);
    }
  }

  lemma {:induction false} RowsLength(m: Mem, src: int, soff: int, nbytes: nat, n: nat)
    ensures |Rows(m, src, soff, nbytes, n)| == n * nbytes
    decreases n
  {
    if n == 0 {
    } else {
      RowsLength(m, src, soff, nbytes, n - 1);
      assert (n - 1) * nbytes + nbytes == n * nbytes;
    }
  }

  lemma CompletedKeeps32(m: Mem, off: nat)
    requires off + 4 <= 0x14 || (0x16 <= off && off + 4 <= 0x1E)
    ensures Load32(Completed(m), TCD + off) == Load32(m, TCD + off)
  {
    hide Load16, Load32, StoreBytes, Bytes16, Done;
    var count := Bytes16(Load16(m, TCD + Ssi.BITER) % 0x8000);
    var m1 := StoreBytes(m, TCD + Ssi.CITER, count);
    StoreElsewhere(m, TCD + Ssi.CITER, count, TCD + off);
    StoreElsewhere(m1, TCD + Ssi.CSR, Bytes16(Done(Load16(m1, TCD + Ssi.CSR))), TCD + off);
  }

  lemma CompletedDone(m: Mem)
    ensures Load16(Completed(m), TCD + Ssi.CSR) / 0x80 % 2 == 1
    ensures Load16(m, TCD + Ssi.CSR) / 0x80 % 2 == 1 ==> Load16(Completed(m), TCD + Ssi.CSR) == Load16(m, TCD + Ssi.CSR)
  {
    hide Load16, StoreBytes, Bytes16;
    var count := Bytes16(Load16(m, TCD + Ssi.BITER) % 0x8000);
    var m1 := StoreBytes(m, TCD + Ssi.CITER, count);
    StoreElsewhere(m, TCD + Ssi.CITER, count, TCD + Ssi.CSR);
    Reads16(m1, TCD + Ssi.CSR, Done(Load16(m1, TCD + Ssi.CSR)));
  }

  /** A transfer to the host leaves DADDR, at 0xFC04_5770, just past the buffer, and
      one from the host leaves SADDR, at 0xFC04_5760, past the rows it took and the
      last adjustment; both leave bit 7 of the status at 0xFC04_577E set. */
  lemma DescriptorAfterOut(m: Mem, payload: seq<byte>)
    requires DmaOut(m, payload).Ok? && DmaSize(m) > 0
    ensures var m1 := DmaOut(m, payload).value.0;
            Load32(m1, 0xFC04_5770) == Load32(m, 0xFC04_5770) + DmaSize(m) && Load16(m1, 0xFC04_577E) / 0x80 % 2 == 1
  {
    hide Load, Load16, Load32, StoreBytes, DmaSize, Chunk, Completed, Bytes32;
    var total, dst := DmaSize(m), Load32(m, TCD + Ssi.DADDR);
    var m1 := StoreBytes(m, dst, Chunk(payload, total));
    var m2 := StoreBytes(m1, TCD + Ssi.DADDR, Bytes32(dst + total));
    Reads32(m1, TCD + Ssi.DADDR, dst + total);
    CompletedKeeps32(m2, Ssi.DADDR);
    CompletedDone(m2);
  }

  lemma DescriptorAfterIn(m: Mem)
    requires DmaIn(m).Ok?
    ensures var m1 := DmaIn(m).value.0;
            var citer, soff := Load16(m, 0xFC04_5774) % 0x8000, Ssi.Signed(Load16(m, 0xFC04_5766), 0x8000);
            Load32(m1, 0xFC04_5760) == (Load32(m, 0xFC04_5760) + citer * soff + Ssi.Signed(Load32(m, 0xFC04_576C), 0x8000_0000)) % WORD &&
            Load16(m1, 0xFC04_577E) / 0x80 % 2 == 1
  {
    hide Load, Load16, Load32, StoreBytes, Completed, Bytes32, Rows, RowsInRange, Ssi.Signed;
    var citer := Load16(m, TCD + Ssi.CITER) % 0x8000;
    var end := Load32(m, TCD + Ssi.SADDR) + citer * Ssi.Signed(Load16(m, TCD + Ssi.SOFF), 0x8000)
               + Ssi.Signed(Load32(m, TCD + Ssi.SLAST), 0x8000_0000);
    var m1 := StoreBytes(m, TCD + Ssi.SADDR, Bytes32(end % WORD));
    Reads32(m, TCD + Ssi.SADDR, end % WORD);
    CompletedKeeps32(m1, Ssi.SADDR);
    CompletedDone(m1);
  }
}
