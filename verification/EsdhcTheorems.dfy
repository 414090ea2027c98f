/** Over every sequence of arming writes and commands the card is a flat array:
    each read delivers the last bytes written over the image. */
module EsdhcTheorems {
  import opened Bytes
  import opened Machine
  import Timers
  import Ssi
  import opened Esdhc

  // ---- Memory the controller owns -----------------------------------------

  predicate In(a: int, n: nat, x: int) {
    a <= x < a + n
  }

  predicate InWord(sem: Option<int>, x: int) {
    sem.Some? && In(sem.value, 4, x)
  }

  /** The address belongs to the controller, the channel or the driver's words. */
  predicate Control(w: Wiring, x: int) {
    In(BASE, 0x100, x) || In(TCD, 0x20, x) || In(w.drvStatus, 4, x) || InWord(w.cmdSem, x) || InWord(w.dataSem, x) || InWord(w.dmaSem, x)
  }

  /** The two memories differ in the controller's own cells only. */
  ghost predicate SameData(m: Mem, n: Mem, w: Wiring) {
    forall x :: !Control(w, x) ==> Load(n, x) == Load(m, x)
  }

  /** The driver's own words are not in the channel's descriptor. */
  ghost predicate WiredApart(w: Wiring) {
    forall x :: In(TCD, 0x20, x) ==>
      !In(w.drvStatus, 4, x) && !InWord(w.cmdSem, x) && !InWord(w.dataSem, x) && !InWord(w.dmaSem, x)
  }

  /** The two memories agree on the channel's descriptor. */
  ghost predicate SameTcd(m: Mem, n: Mem) {
    forall x :: In(TCD, 0x20, x) ==> Load(n, x) == Load(m, x)
  }

  lemma PutKeeps(m: Mem, off: nat, v: u32, w: Wiring)
    requires off <= 0xFC
    ensures SameData(m, Put(m, off, v), w) && SameTcd(m, Put(m, off, v))
  {
    hide Load, Bytes32;
  }

  lemma AnsweredKeeps(m: Mem, r: Response, w: Wiring)
    ensures SameData(m, Answered(m, r), w) && SameTcd(m, Answered(m, r))
  {
    hide Load, Put, Get, Control;
    forall m, off: nat, v: u32 | off <= 0xFC
      ensures SameData(m, Put(m, off, v), w) && SameTcd(m, Put(m, off, v))
    {
      PutKeeps(m, off, v, w);
    }
  }

  lemma ReadyKeeps(m: Mem, prs: nat, irq: nat, w: Wiring)
    requires (prs == 0x400 || prs == 0x800) && (irq == 0x10 || irq == 0x20)
    ensures SameData(m, Ready(m, prs, irq), w) && SameTcd(m, Ready(m, prs, irq))
  {
    hide Load, Put, Get, Control, WithBit;
    forall m, off: nat, v: u32 | off <= 0xFC
      ensures SameData(m, Put(m, off, v), w) && SameTcd(m, Put(m, off, v))
    {
      PutKeeps(m, off, v, w);
    }
  }

  lemma PostedKeeps(m: Mem, w: Wiring, sem: Option<int>)
    requires sem == w.cmdSem || sem == w.dataSem || sem == w.dmaSem
    ensures SameData(m, Posted(m, sem), w)
    ensures WiredApart(w) ==> SameTcd(m, Posted(m, sem))
  {
    hide Load, Load32, Bytes32;
  }

  lemma StatusKeeps(m: Mem, w: Wiring)
    ensures SameData(m, StoreBytes(m, w.drvStatus, Bytes32(0)), w)
    ensures WiredApart(w) ==> SameTcd(m, StoreBytes(m, w.drvStatus, Bytes32(0)))
  {
    hide Load, Load32, Bytes32;
  }

  lemma CompletedKeeps(m: Mem, w: Wiring)
    ensures SameData(m, Completed(m), w)
  {
    hide Load, Load16, Bytes16, Done;
  }

  // ---- One command --------------------------------------------------------

  /** The address lies in the buffer the armed channel writes next. */
  predicate InBuffer(m: Mem, x: int) {
    In(Load32(m, TCD + Ssi.DADDR), DmaSize(m), x)
  }

  lemma TcdReads(m: Mem, n: Mem)
    requires SameTcd(m, n)
    ensures DmaSize(n) == DmaSize(m)
    ensures Load32(n, TCD + Ssi.DADDR) == Load32(m, TCD + Ssi.DADDR)
    ensures Load16(n, TCD + Ssi.CITER) == Load16(m, TCD + Ssi.CITER)
    ensures Load16(n, TCD + Ssi.BITER) == Load16(m, TCD + Ssi.BITER)
    ensures Load16(n, TCD + Ssi.CSR) == Load16(m, TCD + Ssi.CSR)
  {
    hide Load;
    LoadsAgree(m, n, TCD + Ssi.DADDR, 4);
    LoadsAgree(m, n, TCD + Ssi.NBYTES, 4);
    LoadsAgree(m, n, TCD + Ssi.CITER, 2);
    LoadsAgree(m, n, TCD + Ssi.BITER, 2);
    LoadsAgree(m, n, TCD + Ssi.CSR, 2);
  }

  /** A transfer to the host fills its buffer and changes nothing else but the
      controller's own cells. */
  lemma DmaOutDelivers(m: Mem, payload: seq<byte>, w: Wiring)
    requires DmaOut(m, payload).Ok?
    requires forall x :: InBuffer(m, x) ==> !Control(w, x)
    ensures var (m1, n) := DmaOut(m, payload).value;
            n == DmaSize(m) &&
            (forall x :: !Control(w, x) ==>
               Load(m1, x) == if InBuffer(m, x) then Chunk(payload, n)[x - Load32(m, TCD + Ssi.DADDR)] else Load(m, x))
  {
    hide Load, Load32, DmaSize, Chunk, Completed, Bytes32;
    var total, dst := DmaSize(m), Load32(m, TCD + Ssi.DADDR);
    if total > 0 {
      var m1 := StoreBytes(m, dst, Chunk(payload, total));
      CompletedKeeps(StoreBytes(m1, TCD + Ssi.DADDR, Bytes32(dst + total)), w);
    }
  }

  lemma CommandKeepsCard(c: CardState, idx: nat, arg: nat)
    ensures var c1 := Command(c, idx, arg).0; c1.image == c.image && c1.overlay == c.overlay && c1.extCsd == c.extCsd
  {
  }

  /** The command is a data command that moves data this way. */
  predicate Reads(xfer: u32) {
    Timers.Bit(xfer, 21) && Timers.Bit(xfer, 4)
  }

  predicate Writes(xfer: u32) {
    Timers.Bit(xfer, 21) && !Timers.Bit(xfer, 4)
  }

  lemma SameDataTwice(m: Mem, n: Mem, o: Mem, w: Wiring)
    requires SameData(m, n, w) && SameData(n, o, w)
    ensures SameData(m, o, w)
  {
    hide Load, Control;
  }

  lemma SameTcdTwice(m: Mem, n: Mem, o: Mem)
    requires SameTcd(m, n) && SameTcd(n, o)
    ensures SameTcd(m, o)
  {
    hide Load;
  }

  /** The memory a read finds when its data starts to move. */
  function BeforeRead(m: Mem, c: ControlState, r: Response, idx: nat): Mem {
    Put(Ready(Answered(m, r), 0x800, 0x20), DATPORT, if idx == 14 then WORD - 1 - c.pattern else 0)
  }

  /** The memory a write finds when its data starts to move. */
  function BeforeWrite(m: Mem, r: Response): Mem {
    Ready(Answered(m, r), 0x400, 0x10)
  }

  lemma BeforeKeeps(m: Mem, c: ControlState, r: Response, idx: nat, w: Wiring)
    ensures SameData(m, BeforeRead(m, c, r, idx), w) && SameTcd(m, BeforeRead(m, c, r, idx))
    ensures SameData(m, BeforeWrite(m, r), w) && SameTcd(m, BeforeWrite(m, r))
  {
    hide Answered, Ready, Put, SameData, SameTcd;
    var m1 := Answered(m, r);
    AnsweredKeeps(m, r, w);
    ReadyKeeps(m1, 0x400, 0x10, w);
    ReadyKeeps(m1, 0x800, 0x20, w);
    var m2 := Ready(m1, 0x800, 0x20);
    var v := if idx == 14 then WORD - 1 - c.pattern else 0;
    PutKeeps(m2, DATPORT, v, w);
    SameDataTwice(m, m1, m2, w);
    SameDataTwice(m, m2, Put(m2, DATPORT, v), w);
    SameDataTwice(m, m1, Ready(m1, 0x400, 0x10), w);
    SameTcdTwice(m, m1, m2);
    SameTcdTwice(m, m2, Put(m2, DATPORT, v));
    SameTcdTwice(m, m1, Ready(m1, 0x400, 0x10));
  }

  /** The end of every command: the status word cleared, its semaphore posted. */
  function Ended(m: Mem, w: Wiring): Mem {
    Posted(StoreBytes(m, w.drvStatus, Bytes32(0)), w.cmdSem)
  }

  /** The end of a data command. */
  function Finished(m: Mem, w: Wiring, moved: bool): Mem {
    Ended(Posted(if moved then Posted(m, w.dmaSem) else m, w.dataSem), w)
  }

  lemma EndedKeeps(m: Mem, w: Wiring)
    ensures SameData(m, Ended(m, w), w)
    ensures WiredApart(w) ==> SameTcd(m, Ended(m, w))
  {
    hide Posted, SameData, SameTcd, WiredApart, Control, StoreBytes, Bytes32;
    StatusKeeps(m, w);
    var m1 := StoreBytes(m, w.drvStatus, Bytes32(0));
    PostedKeeps(m1, w, w.cmdSem);
    SameDataTwice(m, m1, Ended(m, w), w);
    if WiredApart(w) {
      SameTcdTwice(m, m1, Ended(m, w));
    }
  }

  lemma FinishedKeeps(m: Mem, w: Wiring, moved: bool)
    ensures SameData(m, Finished(m, w, moved), w)
    ensures WiredApart(w) ==> SameTcd(m, Finished(m, w, moved))
  {
    hide Posted, SameData, SameTcd, WiredApart, Control, Ended;
    PostedKeeps(m, w, w.dmaSem);
    var m1 := if moved then Posted(m, w.dmaSem) else m;
    SameSelf(m, w);
    PostedKeeps(m1, w, w.dataSem);
    var m2 := Posted(m1, w.dataSem);
    EndedKeeps(m2, w);
    var m3 := Ended(m2, w);
    SameDataTwice(m, m1, m2, w);
    SameDataTwice(m, m2, m3, w);
    if WiredApart(w) {
      SameTcdTwice(m, m1, m2);
      SameTcdTwice(m, m2, m3);
    }
  }

  lemma SameSelf(m: Mem, w: Wiring)
    ensures SameData(m, m, w) && SameTcd(m, m)
  {
  }

  /** A data command in these terms. */
  lemma IssueIs(m: Mem, c: ControlState, w: Wiring, xfer: u32)
    ensures var idx, arg := Index(xfer), Get(m, CMDARG);
            var (card, r) := Command(c.card, idx, arg);
            var c1 := c.(card := card, log := c.log + [(idx, arg)]);
            var mr, mw := BeforeRead(m, c, r, idx), BeforeWrite(m, r);
            var payload := DataFor(card, idx, arg, if c.armed then DmaSize(mr) else 0);
            (Reads(xfer) && c.armed && payload.Some? ==>
               var out := DmaOut(mr, payload.value);
               Issue(m, c, w, xfer) ==
                 if out.Err? then Err(out.error)
                 else Ok((Finished(out.value.0, w, true), c1.(armed := false, dmaBytes := c.dmaBytes + out.value.1)))) &&
            (Reads(xfer) && !(c.armed && payload.Some?) ==> Issue(m, c, w, xfer) == Ok((Finished(mr, w, false), c1))) &&
            (Writes(xfer) && c.armed ==>
               var got := DmaIn(mw);
               Issue(m, c, w, xfer) ==
                 if got.Err? then Err(got.error)
                 else Ok((Finished(got.value.0, w, true),
                          c1.(card := WriteData(card, idx, arg, got.value.1), armed := false, dmaBytes := c.dmaBytes + |got.value.1|)))) &&
            (Writes(xfer) && !c.armed ==> Issue(m, c, w, xfer) == Ok((Finished(mw, w, false), c1))) &&
            (!Reads(xfer) && !Writes(xfer) ==> Issue(m, c, w, xfer) == Ok((Ended(Answered(m, r), w), c1)))
  {
    hide Answered, Ready, Put, Posted, StoreBytes, DmaSize, DmaOut, DmaIn, DataFor, WriteData, Command, Get,
         Timers.Bit, Bytes32;
  }

  lemma FlatChunk(c: CardState, start: int, n: nat)
    ensures Chunk(Flat(c, start, n), n) == Flat(c, start, n)
  {
  }

  /** What a read command delivers: the buffer holds the flat array from the
      addressed block on, every other data byte is as it was, and the card is
      unchanged and no longer armed. */
  lemma ReadDelivers(m: Mem, c: ControlState, w: Wiring, xfer: u32)
    requires Reads(xfer) && Index(xfer) == 18 && c.armed && Issue(m, c, w, xfer).Ok?
    requires forall x :: InBuffer(m, x) ==> !Control(w, x)
    ensures var (m1, c1) := Issue(m, c, w, xfer).value;
            !c1.armed && c1.card == c.card && c1.dmaBytes == c.dmaBytes + DmaSize(m) &&
            forall x :: !Control(w, x) ==>
              Load(m1, x) == if InBuffer(m, x) then FlatByte(c.card, Get(m, CMDARG) * BLOCK + (x - Load32(m, TCD + Ssi.DADDR)))
                             else Load(m, x)
  {
    hide Issue, DmaOut, DmaSize, BeforeRead, BeforeWrite, Finished, SameTcd, Control, Load, Load32, Get,
         FlatByte, Chunk, Reads, Writes, InBuffer, DmaIn, WriteData;
    var idx, arg := Index(xfer), Get(m, CMDARG);
    var (card, r) := Command(c.card, idx, arg);
    assert card == c.card;
    IssueIs(m, c, w, xfer);
    var mr := BeforeRead(m, c, r, idx);
    BeforeKeeps(m, c, r, idx, w);
    BufferKept(m, mr);
    var payload := Flat(card, arg * BLOCK, DmaSize(mr));
    DmaOutDelivers(mr, payload, w);
    FlatChunk(card, arg * BLOCK, DmaSize(mr));
    FinishedKeeps(DmaOut(mr, payload).value.0, w, true);
    ChunkOffset(m);
  }

  lemma BufferKept(m: Mem, n: Mem)
    requires SameTcd(m, n)
    ensures DmaSize(n) == DmaSize(m) && Load32(n, TCD + Ssi.DADDR) == Load32(m, TCD + Ssi.DADDR)
    ensures forall x :: InBuffer(n, x) <==> InBuffer(m, x)
  {
    hide DmaSize, Load32, SameTcd;
    TcdReads(m, n);
  }

  lemma ChunkOffset(m: Mem)
    ensures forall x :: InBuffer(m, x) ==> 0 <= x - Load32(m, TCD + Ssi.DADDR) < DmaSize(m)
  {
    hide DmaSize, Load32;
  }

  /** The bytes a write command takes from the guest. */
  function Pulled(m: Mem, c: ControlState): seq<byte> {
    var r := Command(c.card, 25, Get(m, CMDARG)).1;
    var got := DmaIn(BeforeWrite(m, r));
    if got.Ok? then got.value.1 else []
  }

  /** The guest's buffer for a write, as the descriptor lays it out. */
  function Buffer(m: Mem): seq<byte> {
    Rows(m, Load32(m, TCD + Ssi.SADDR), Ssi.Signed(Load16(m, TCD + Ssi.SOFF), 0x8000), Load32(m, TCD + Ssi.NBYTES), Load16(m, TCD + Ssi.CITER) % 0x8000)
  }

  /** A row of the guest's buffer avoids the controller's own cells. */
  ghost predicate RowApart(w: Wiring, a: int, nbytes: nat) {
    forall x :: In(a, nbytes, x) ==> !Control(w, x)
  }

  lemma {:induction false} RowsAgree(m: Mem, n: Mem, src: int, soff: int, nbytes: nat, k: nat, w: Wiring)
    requires SameData(m, n, w)
    requires forall i :: 0 <= i < k ==> RowApart(w, src + i * soff, nbytes)
    ensures Rows(n, src, soff, nbytes, k) == Rows(m, src, soff, nbytes, k)
    decreases k
  {
    hide Control;
    if k == 0 {
    } else {
      RowsAgree(m, n, src, soff, nbytes, k - 1, w);
      var a := src + (k - 1) * soff;
      assert RowApart(w, src + (k - 1) * soff, nbytes);
      assert LoadBytes(n, a, nbytes) == LoadBytes(m, a, nbytes);
    }
  }

  /** What a write takes is the guest's buffer, when that is not in the
      controller's own cells. */
  lemma PulledIsBuffer(m: Mem, c: ControlState, w: Wiring)
    requires DmaIn(BeforeWrite(m, Command(c.card, 25, Get(m, CMDARG)).1)).Ok?
    requires var src, soff := Load32(m, TCD + Ssi.SADDR), Ssi.Signed(Load16(m, TCD + Ssi.SOFF), 0x8000);
             forall i :: 0 <= i < Load16(m, TCD + Ssi.CITER) % 0x8000 ==> RowApart(w, src + i * soff, Load32(m, TCD + Ssi.NBYTES))
    ensures Pulled(m, c) == Buffer(m)
  {
    hide Command, BeforeWrite, BeforeRead, Get, Control, Load, Rows, RowsInRange, Load32, Load16, Ssi.Signed,
         Completed, StoreBytes, Bytes32;
    var r := Command(c.card, 25, Get(m, CMDARG)).1;
    var mw := BeforeWrite(m, r);
    BeforeKeeps(m, c, r, 25, w);
    SourceReads(m, mw);
    RowsAgree(m, mw, Load32(m, TCD + Ssi.SADDR), Ssi.Signed(Load16(m, TCD + Ssi.SOFF), 0x8000),
              Load32(m, TCD + Ssi.NBYTES), Load16(m, TCD + Ssi.CITER) % 0x8000, w);
  }

  lemma SourceReads(m: Mem, n: Mem)
    requires SameTcd(m, n)
    ensures Load32(n, TCD + Ssi.SADDR) == Load32(m, TCD + Ssi.SADDR)
    ensures Load32(n, TCD + Ssi.NBYTES) == Load32(m, TCD + Ssi.NBYTES)
    ensures Load16(n, TCD + Ssi.SOFF) == Load16(m, TCD + Ssi.SOFF)
    ensures Load16(n, TCD + Ssi.CITER) == Load16(m, TCD + Ssi.CITER)
  {
    hide Load;
    LoadsAgree(m, n, TCD + Ssi.SADDR, 4);
    LoadsAgree(m, n, TCD + Ssi.NBYTES, 4);
    LoadsAgree(m, n, TCD + Ssi.SOFF, 2);
    LoadsAgree(m, n, TCD + Ssi.CITER, 2);
  }

  /** This command stores a block: a write of CMD25 with the channel armed. */
  predicate Stores(c: ControlState, xfer: u32) {
    Writes(xfer) && Index(xfer) == 25 && c.armed
  }

  /** This command moves data, and so uses up the arming of the channel. */
  predicate Moves(c: ControlState, xfer: u32) {
    c.armed && (Writes(xfer) || (Reads(xfer) && (Index(xfer) == 8 || Index(xfer) == 18)))
  }

  /** What any command does to the card as a flat array and to the arming. */
  lemma IssueOnCard(m: Mem, c: ControlState, w: Wiring, xfer: u32)
    requires Issue(m, c, w, xfer).Ok?
    ensures var c1 := Issue(m, c, w, xfer).value.1;
            c1.armed == (c.armed && !Moves(c, xfer)) &&
            forall i :: FlatByte(c1.card, i) ==
              if Stores(c, xfer) && In(Get(m, CMDARG) * BLOCK, |Pulled(m, c)|, i)
              then Pulled(m, c)[i - Get(m, CMDARG) * BLOCK] else FlatByte(c.card, i)
  {
    hide Issue, Command, DmaOut, DmaIn, DmaSize, BeforeRead, BeforeWrite, Finished, Get, Answered, FlatByte,
         WriteData, Timers.Bit;
    var idx, arg := Index(xfer), Get(m, CMDARG);
    var (card, r) := Command(c.card, idx, arg);
    IssueIs(m, c, w, xfer);
    CommandKeepsCard(c.card, idx, arg);
    SameFlat(c.card, card);
    var got := DmaIn(BeforeWrite(m, r));
    if Writes(xfer) && c.armed {
      WrittenFlat(card, idx, arg, got.value.1);
    }
  }

  lemma SameFlat(c: CardState, d: CardState)
    requires c.image == d.image && c.overlay == d.overlay
    ensures forall i :: FlatByte(c, i) == FlatByte(d, i)
  {
  }

  lemma WrittenFlat(c: CardState, idx: nat, arg: nat, payload: seq<byte>)
    ensures forall i :: FlatByte(WriteData(c, idx, arg, payload), i) ==
              if idx == 25 && In(arg * BLOCK, |payload|, i) then payload[i - arg * BLOCK] else FlatByte(c, i)
  {
  }

  /** Without a fresh arm a command moves nothing, either way, and leaves the
      channel's count alone. */
  lemma NoArmNoTransfer(m: Mem, c: ControlState, w: Wiring, xfer: u32)
    requires !c.armed && Issue(m, c, w, xfer).Ok?
    ensures var (m1, c1) := Issue(m, c, w, xfer).value;
            SameData(m, m1, w) && (WiredApart(w) ==> SameTcd(m, m1)) && c1.dmaBytes == c.dmaBytes && !c1.armed &&
            forall i :: FlatByte(c1.card, i) == FlatByte(c.card, i)
  {
    hide Issue, Command, DmaOut, DmaIn, DmaSize, BeforeRead, BeforeWrite, Finished, Ended, Get, Answered,
         FlatByte, Timers.Bit, SameData, SameTcd, WiredApart, Index;
    var idx := Index(xfer);
    var r := Command(c.card, idx, Get(m, CMDARG)).1;
    IssueIs(m, c, w, xfer);
    IssueOnCard(m, c, w, xfer);
    BeforeKeeps(m, c, r, idx, w);
    AnsweredKeeps(m, r, w);
    var at := if Reads(xfer) then BeforeRead(m, c, r, idx) else if Writes(xfer) then BeforeWrite(m, r) else Answered(m, r);
    FinishedKeeps(at, w, false);
    EndedKeeps(at, w);
    var m1 := if Reads(xfer) || Writes(xfer) then Finished(at, w, false) else Ended(at, w);
    SameDataTwice(m, at, m1, w);
    if WiredApart(w) {
      SameTcdTwice(m, at, m1);
    }
  }

  // ---- Every sequence -----------------------------------------------------

  /** What the guest does to the controller. Its memory at each command is
      arbitrary, so it may do what it likes in between. */
  datatype Step = Serq(value: nat) | Datport(word: u32) | Xfertyp(m: Mem, xfer: u32)

  function Do(c: ControlState, w: Wiring, step: Step): Result<ControlState, EsdhcFault> {
    hide Issue;
    match step
    case Serq(value) => Ok(OnSerq(c, value))
    case Datport(word) => Ok(c.(pattern := word))
    case Xfertyp(m, xfer) =>
      var r :- Issue(m, c, w, xfer);
      Ok(r.1)
  }

  /** A block stored on the card. */
  datatype Block = Block(start: int, payload: seq<byte>)

  /** Where a run left the controller, the blocks it stored, how often it moved
      data and how often it was armed. */
  datatype History = History(c: ControlState, blocks: seq<Block>, moves: nat, arms: nat)

  function Run(c: ControlState, w: Wiring, steps: seq<Step>): Result<History, EsdhcFault> {
    if steps == [] then Ok(History(c, [], 0, 0))
    else
      hide Do, Stores, Moves, OnSerq, Pulled;
      var before :- Run(c, w, steps[..|steps| - 1]);
      var step := steps[|steps| - 1];
      var after :- Do(before.c, w, step);
      var blocks :=
        if step.Xfertyp? && Stores(before.c, step.xfer)
        then before.blocks + [Block(Get(step.m, CMDARG) * BLOCK, Pulled(step.m, before.c))] else before.blocks;
      Ok(History(after, blocks,
                 before.moves + if step.Xfertyp? && Moves(before.c, step.xfer) then 1 else 0,
                 before.arms + if step.Serq? && OnSerq(before.c.(armed := false), step.value).armed then 1 else 0))
  }

  /** The last of the blocks to cover address `i`, or else what was there. */
  function LastWritten(c: CardState, blocks: seq<Block>, i: int): byte {
    if blocks == [] then FlatByte(c, i)
    else
      var last := blocks[|blocks| - 1];
      if In(last.start, |last.payload|, i) then last.payload[i - last.start]
      else LastWritten(c, blocks[..|blocks| - 1], i)
  }

  lemma LastWrittenMore(c: CardState, blocks: seq<Block>, b: Block, i: int)
    ensures LastWritten(c, blocks + [b], i) == if In(b.start, |b.payload|, i) then b.payload[i - b.start] else LastWritten(c, blocks, i)
  {
    assert (blocks + [b])[..|blocks|] == blocks;
  }

  function One(b: bool): nat {
    if b then 1 else 0
  }

  /** After any sequence the card is the flat array its stored blocks make of it,
      and it moved data at most once for every arming of the channel. */
  lemma {:induction false} RunRefinesFlat(c: ControlState, w: Wiring, steps: seq<Step>)
    requires Run(c, w, steps).Ok?
    ensures var h := Run(c, w, steps).value;
            (forall i :: FlatByte(h.c.card, i) == LastWritten(c.card, h.blocks, i)) &&
            h.moves + One(h.c.armed) <= h.arms + One(c.armed)
    decreases |steps|
  {
    hide FlatByte, Issue, Pulled, Stores, Moves, LastWritten, Get;
    if steps == [] {
      NoBlocks(c.card);
    } else {
      var init, step := steps[..|steps| - 1], steps[|steps| - 1];
      RunRefinesFlat(c, w, init);
      var before := Run(c, w, init).value;
      var h := Run(c, w, steps).value;
      if step.Xfertyp? {
        IssueOnCard(step.m, before.c, w, step.xfer);
        MovesArmed(before.c, step.xfer);
        if Stores(before.c, step.xfer) {
          var b := Block(Get(step.m, CMDARG) * BLOCK, Pulled(step.m, before.c));
          forall i
            ensures FlatByte(h.c.card, i) == LastWritten(c.card, h.blocks, i)
          {
            LastWrittenMore(c.card, before.blocks, b, i);
          }
        }
      } else {
        SameFlat(before.c.card, h.c.card);
      }
    }
  }

  lemma NoBlocks(c: CardState)
    ensures forall i :: LastWritten(c, [], i) == FlatByte(c, i)
  {
  }

  lemma MovesArmed(c: ControlState, xfer: u32)
    ensures Moves(c, xfer) ==> c.armed
  {
  }

  /** Main result: after any sequence of arming writes and commands, an armed
      CMD18 fills the guest's buffer with exactly the last bytes written over the
      image, and leaves the channel waiting for a fresh arm. */
  lemma EveryReadDelivers(c: ControlState, w: Wiring, steps: seq<Step>, m: Mem, xfer: u32)
    requires Run(c, w, steps).Ok?
    requires var h := Run(c, w, steps).value;
             Reads(xfer) && Index(xfer) == 18 && h.c.armed && Issue(m, h.c, w, xfer).Ok?
    requires forall x :: InBuffer(m, x) ==> !Control(w, x)
    ensures var h := Run(c, w, steps).value;
            var (m1, c1) := Issue(m, h.c, w, xfer).value;
            !c1.armed &&
            forall x :: InBuffer(m, x) ==>
              Load(m1, x) == LastWritten(c.card, h.blocks, Get(m, CMDARG) * BLOCK + (x - Load32(m, TCD + Ssi.DADDR)))
  {
    hide Run, Issue, InBuffer, Control, Load, Load32, Get, FlatByte, LastWritten, Reads, DmaSize;
    RunRefinesFlat(c, w, steps);
    ReadDelivers(m, Run(c, w, steps).value.c, w, xfer);
  }

  // ---- The count ----------------------------------------------------------

  lemma CompletedReloads(m: Mem)
    ensures Load16(Completed(m), TCD + Ssi.CITER) == Load16(m, TCD + Ssi.BITER) % 0x8000
    ensures Load16(Completed(m), TCD + Ssi.BITER) == Load16(m, TCD + Ssi.BITER)
  {
    hide Load16, StoreBytes, Bytes16, Done;
    var count := Bytes16(Load16(m, TCD + Ssi.BITER) % 0x8000);
    var m1 := StoreBytes(m, TCD + Ssi.CITER, count);
    var csr := Bytes16(Done(Load16(m1, TCD + Ssi.CSR)));
    Reads16(m, TCD + Ssi.CITER, Load16(m, TCD + Ssi.BITER) % 0x8000);
    StoreElsewhere(m, TCD + Ssi.CITER, count, TCD + Ssi.BITER);
    StoreElsewhere(m1, TCD + Ssi.CSR, csr, TCD + Ssi.CITER);
    StoreElsewhere(m1, TCD + Ssi.CSR, csr, TCD + Ssi.BITER);
  }

  /** A transfer to the host leaves BITER in CITER. */
  lemma OutReloads(m: Mem, payload: seq<byte>, w: Wiring)
    requires DmaOut(m, payload).Ok? && DmaSize(m) > 0
    requires forall x :: InBuffer(m, x) ==> !Control(w, x)
    ensures Load16(DmaOut(m, payload).value.0, TCD + Ssi.CITER) == Load16(m, TCD + Ssi.BITER) % 0x8000
  {
    var total, dst := DmaSize(m), Load32(m, TCD + Ssi.DADDR);
    hide Load, Load16, Load32, DmaSize, Chunk, Completed, Bytes32;
    var m1 := StoreBytes(m, dst, Chunk(payload, total));
    var m2 := StoreBytes(m1, TCD + Ssi.DADDR, Bytes32(dst + total));
    BufferAway(m, w);
    SameBiter(m, m1);
    StoreElsewhere(m1, TCD + Ssi.DADDR, Bytes32(dst + total), TCD + Ssi.BITER);
    CompletedReloads(m2);
  }

  lemma BufferAway(m: Mem, w: Wiring)
    requires forall x :: InBuffer(m, x) ==> !Control(w, x)
    ensures forall x :: In(TCD, 0x20, x) ==> !In(Load32(m, TCD + Ssi.DADDR), DmaSize(m), x)
  {
    hide Load32, DmaSize;
    forall x | In(TCD, 0x20, x)
      ensures !InBuffer(m, x)
    {
      assert Control(w, x);
    }
  }

  lemma SameBiter(m: Mem, n: Mem)
    requires SameTcd(m, n)
    ensures Load16(n, TCD + Ssi.BITER) == Load16(m, TCD + Ssi.BITER)
  {
    hide Load16, Load32;
    TcdReads(m, n);
  }

  /** CITER reloads from BITER at every transfer, in either direction. */
  lemma CountReloads(m: Mem, c: ControlState, w: Wiring, xfer: u32)
    requires Moves(c, xfer) && WiredApart(w) && Issue(m, c, w, xfer).Ok?
    requires Reads(xfer) ==> DmaSize(m) > 0 && forall x :: InBuffer(m, x) ==> !Control(w, x)
    ensures Load16(Issue(m, c, w, xfer).value.0, TCD + Ssi.CITER) == Load16(m, TCD + Ssi.BITER) % 0x8000
  {
    hide Issue, Command, DmaOut, DmaSize, BeforeRead, BeforeWrite, Finished, Get, Load16, Load32, SameTcd,
         SameData, Control, WiredApart, InBuffer, Timers.Bit, DmaIn, Answered, WriteData;
    var idx, arg := Index(xfer), Get(m, CMDARG);
    var (card, r) := Command(c.card, idx, arg);
    IssueIs(m, c, w, xfer);
    BeforeKeeps(m, c, r, idx, w);
    if Reads(xfer) {
      var mr := BeforeRead(m, c, r, idx);
      var payload := DataFor(card, idx, arg, DmaSize(mr)).value;
      BufferKept(m, mr);
      SameBiter(m, mr);
      OutReloads(mr, payload, w);
      KeptCount(DmaOut(mr, payload).value.0, w);
    } else {
      var mw := BeforeWrite(m, r);
      SameBiter(m, mw);
      InReloads(mw);
      KeptCount(DmaIn(mw).value.0, w);
    }
  }

  lemma InReloads(m: Mem)
    requires DmaIn(m).Ok?
    ensures Load16(DmaIn(m).value.0, TCD + Ssi.CITER) == Load16(m, TCD + Ssi.BITER) % 0x8000
  {
    hide Load, Load16, Load32, Completed, Bytes32, StoreBytes, Rows, RowsInRange, Ssi.Signed;
    var citer := Load16(m, TCD + Ssi.CITER) % 0x8000;
    var end := Load32(m, TCD + Ssi.SADDR) + citer * Ssi.Signed(Load16(m, TCD + Ssi.SOFF), 0x8000)
               + Ssi.Signed(Load32(m, TCD + Ssi.SLAST), 0x8000_0000);
    StoreElsewhere(m, TCD + Ssi.SADDR, Bytes32(end % WORD), TCD + Ssi.BITER);
    CompletedReloads(StoreBytes(m, TCD + Ssi.SADDR, Bytes32(end % WORD)));
  }

  lemma KeptCount(m: Mem, w: Wiring)
    requires WiredApart(w)
    ensures Load16(Finished(m, w, true), TCD + Ssi.CITER) == Load16(m, TCD + Ssi.CITER)
  {
    hide Load16, Load32, Finished, WiredApart, DmaSize;
    FinishedKeeps(m, w, true);
    TcdReads(m, Finished(m, w, true));
  }
}
