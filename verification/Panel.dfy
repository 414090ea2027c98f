/** Front-panel input: the held-button masks of emu/panelin.py and the paced queue
    `Emulator._drain_input` of emu/gui.py. */
module Panel {
  import opened Bytes

  const TAG_BUTTON := 0x20
  const TAG_ENCODER := 0x30

  type Delta = d: int | -128 <= d < 128

  /** A button's place on the wire. */
  datatype Position = Position(channel: nat, bitNo: nat)

  /** What is known of a product: exceptional button codes, how many channels are
      linear, and how many encoders there are. */
  datatype Device = Device(exceptions: map<int, Position>, linearChannels: nat, encoders: nat)

  predicate ValidPosition(p: Position) {
    p.channel < 16 && p.bitNo < 8
  }

  predicate ValidDevice(d: Device) {
    && d.linearChannels <= 16 && d.encoders <= 9
    && forall c :: c in d.exceptions ==> ValidPosition(d.exceptions[c])
  }

  /** `wire_for` */
  function WireFor(d: Device, code: int): (p: Option<Position>)
    requires ValidDevice(d)
    ensures p.Some? ==> ValidPosition(p.value)
  {
    if code in d.exceptions then Some(d.exceptions[code])
    else if 1 <= code <= d.linearChannels * 8 then Some(Position((code - 1) / 8, (code - 1) % 8))
    else None
  }

  /** `encoder_channel` */
  function EncoderChannel(d: Device, code: int): (c: Option<nat>)
    requires ValidDevice(d)
    ensures c.Some? ==> c.value < 9
  {
    if 1 <= code <= d.encoders then Some(code - 1) else None
  }

  // ---- Held buttons -------------------------------------------------------

  type Masks = map<nat, byte>

  function MaskOf(m: Masks, channel: nat): byte {
    if channel in m then m[channel] else 0
  }

  /** `mask | (1 << bit)` or `mask & ~(1 << bit)` */
  function Switched(mask: byte, bitNo: nat, down: bool): byte
    requires bitNo < 8
  {
    ByteFrom(BitsOf(mask)[7 - bitNo := if down then 1 else 0])
  }

  lemma SwitchedBits(mask: byte, bitNo: nat, down: bool)
    requires bitNo < 8
    ensures BitsOf(Switched(mask, bitNo, down)) == BitsOf(mask)[7 - bitNo := if down then 1 else 0]
  {
    BitsOfByteFrom(BitsOf(mask)[7 - bitNo := if down then 1 else 0]);
    hide BitsOf, ByteFrom;
  }

  /** As a number: a button already as asked leaves the mask, and one that is not
      adds or takes away its bit's value. */
  lemma SwitchedValue(mask: byte, bitNo: nat, down: bool)
    requires bitNo < 8
    ensures var isDown := mask / Pow2(bitNo) % 2 == 1;
            var was: int := mask;
            Switched(mask, bitNo, down) == if isDown == down then was else if down then was + Pow2(bitNo) else was - Pow2(bitNo)
  {
    BitsByPower(mask, bitNo);
    ByteOfBits(mask);
    var bits, value := BitsOf(mask), if down then 1 else 0;
    BitChanged(bits, bitNo, value);
    assert ByteFrom(bits) == mask;
    hide Pow2, BitsOf, ByteFrom;
  }

  lemma BitsByPower(mask: byte, bitNo: nat)
    requires bitNo < 8
    ensures BitsOf(mask)[7 - bitNo] == mask / Pow2(bitNo) % 2
  {
    Powers();
    hide Pow2;
  }

  lemma BitChanged(bits: seq<bit>, bitNo: nat, value: bit)
    requires |bits| == 8 && bitNo < 8
    ensures var was: int := ByteFrom(bits);
            ByteFrom(bits[7 - bitNo := value]) ==
            if bits[7 - bitNo] == value then was else if value == 1 then was + Pow2(bitNo) else was - Pow2(bitNo)
  {
    hide ByteFrom, Pow2;
    var after := bits[7 - bitNo := value];
    if bits[7 - bitNo] == value {
      assert after == bits;
    } else if value == 1 {
      BitFlipped(bits, after, bitNo);
    } else {
      BitFlipped(after, bits, bitNo);
    }
  }

  lemma BitFlipped(off: seq<bit>, on: seq<bit>, bitNo: nat)
    requires |off| == |on| == 8 && bitNo < 8 && off[7 - bitNo] == 0 && on[7 - bitNo] == 1
    requires forall k :: 0 <= k < 8 && k != 7 - bitNo ==> on[k] == off[k]
    ensures ByteFrom(on) == ByteFrom(off) as int + Pow2(bitNo)
  {
    Powers();
    hide Pow2;
    var a0: int, a1: int, a2: int, a3: int, a4: int, a5: int, a6: int, a7: int :=
      off[0], off[1], off[2], off[3], off[4], off[5], off[6], off[7];
    var b0: int, b1: int, b2: int, b3: int, b4: int, b5: int, b6: int, b7: int :=
      on[0], on[1], on[2], on[3], on[4], on[5], on[6], on[7];
    assert ByteFrom(off) == ByteOf(a0, a1, a2, a3, a4, a5, a6, a7);
    assert ByteFrom(on) == ByteOf(b0, b1, b2, b3, b4, b5, b6, b7);
    hide ByteFrom;
    if bitNo == 0 {
    } else if bitNo == 1 {
    } else if bitNo == 2 {
    } else if bitNo == 3 {
    } else if bitNo == 4 {
    } else if bitNo == 5 {
    } else if bitNo == 6 {
    }
  }

  /** One message on the wire: a channel's whole state, or an encoder's turn. */
  datatype Message = Buttons(channel: nat, mask: byte) | Turn(channel: nat, delta: Delta)

  predicate ValidMessage(m: Message) {
    if m.Buttons? then m.channel < 16 else m.channel < 9
  }

  /** `encode_buttons` and `encode_encoder` */
  function Encode(m: Message): (s: seq<byte>)
    requires ValidMessage(m)
    ensures |s| == 2
  {
    match m
    case Buttons(channel, mask) => [TAG_BUTTON + channel, mask]
    case Turn(channel, delta) => [TAG_ENCODER + channel, if delta < 0 then delta + 256 else delta]
  }

  predicate ValidMessages(ms: seq<Message>) {
    forall i :: 0 <= i < |ms| ==> ValidMessage(ms[i])
  }

  function EncodeAll(ms: seq<Message>): (s: seq<byte>)
    requires ValidMessages(ms)
    ensures |s| == 2 * |ms|
  {
    if ms == [] then [] else EncodeAll(ms[..|ms| - 1]) + Encode(ms[|ms| - 1])
  }

  /** `press` and `release` */
  function Apply(d: Device, masks: Masks, code: int, down: bool): (r: (Masks, seq<Message>))
    requires ValidDevice(d)
    ensures ValidMessages(r.1)
  {
    match WireFor(d, code)
    case None => (masks, [])
    case Some(p) =>
      var mask := Switched(MaskOf(masks, p.channel), p.bitNo, down);
      (masks[p.channel := mask], [Buttons(p.channel, mask)])
  }

  /** The code `code_at` gives for a linear place, pressed or released, sends that
      channel's two bytes: its tag and its whole mask, switched. */
  lemma PressSends(d: Device, masks: Masks, channel: nat, bitNo: nat, down: bool)
    requires ValidDevice(d) && channel < d.linearChannels && bitNo < 8 && channel * 8 + bitNo + 1 !in d.exceptions
    ensures var (after, sent) := Apply(d, masks, channel * 8 + bitNo + 1, down);
            var now := Switched(MaskOf(masks, channel), bitNo, down);
            EncodeAll(sent) == [0x20 + channel, now] && after == masks[channel := now]
  {
    hide Switched;
    DivModUnique(channel * 8 + bitNo, 8, channel, bitNo);
    var m := Buttons(channel, Switched(MaskOf(masks, channel), bitNo, down));
    assert EncodeAll([m]) == EncodeAll([]) + Encode(m) by {
      assert [m][..0] == [];
    }
  }

  /** Switching one button makes that bit what is asked and leaves the other seven. */
  lemma OthersStay(was: byte, bitNo: nat, down: bool, other: nat)
    requires bitNo < 8 && other < 8
    ensures Switched(was, bitNo, down) / Pow2(other) % 2 ==
            if other != bitNo then was / Pow2(other) % 2 else if down then 1 else 0
  {
    SwitchedBits(was, bitNo, down);
    BitsByPower(Switched(was, bitNo, down), other);
    BitsByPower(was, other);
    hide Pow2, BitsOf, Switched;
  }

  /** The messages of `release_all` for the channels below `n`, in order. */
  function LetGo(masks: Masks, n: nat): (r: seq<Message>)
    requires n <= 16
    ensures ValidMessages(r)
  {
    if n == 0 then []
    else LetGo(masks, n - 1) + if MaskOf(masks, n - 1) != 0 then [Buttons(n - 1, 0)] else []
  }

  // ---- Events -------------------------------------------------------------

  datatype Event = Press(code: int) | Release(code: int) | ReleaseAll | Encoder(code: int, delta: Delta)

  /** What one event does to the masks and sends. */
  function Handle(d: Device, masks: Masks, e: Event): (r: (Masks, seq<Message>))
    requires ValidDevice(d)
    ensures ValidMessages(r.1)
  {
    match e
    case Press(code) => Apply(d, masks, code, true)
    case Release(code) => Apply(d, masks, code, false)
    case ReleaseAll => (map[], LetGo(masks, 16))
    case Encoder(code, delta) =>
      (masks, match EncoderChannel(d, code) case None => [] case Some(c) => [Turn(c, delta)])
  }

  /** The state of the drain loop: the masks, what it sends, what it consumed,
      what it put off, and whether it took a button. */
  datatype Drain = Drain(masks: Masks, sent: seq<Message>, consumed: seq<Event>, deferred: seq<Event>, tookButton: bool)

  /** One turn of the loop. */
  function DrainOne(d: Device, paced: bool, s: Drain, e: Event): (r: Drain)
    requires ValidDevice(d) && ValidMessages(s.sent)
    ensures ValidMessages(r.sent)
  {
    if !e.Encoder? && paced && s.tookButton then s.(deferred := s.deferred + [e])
    else
      var (masks, messages) := Handle(d, s.masks, e);
      s.(masks := masks, sent := s.sent + messages, consumed := s.consumed + [e], tookButton := s.tookButton || !e.Encoder?)
  }

  function DrainAll(d: Device, paced: bool, s: Drain, inbox: seq<Event>): (r: Drain)
    requires ValidDevice(d) && ValidMessages(s.sent)
    ensures ValidMessages(r.sent)
  {
    if inbox == [] then s
    else
      hide DrainOne;
      DrainOne(d, paced, DrainAll(d, paced, s, inbox[..|inbox| - 1]), inbox[|inbox| - 1])
  }

  /** The queue between passes. */
  datatype Queue = Queue(masks: Masks, inbox: seq<Event>, sinceDelivery: nat, deliveredBefore: bool)

  /** What one pass consumed and sent. */
  datatype Pass = Pass(queue: Queue, consumed: seq<Event>, sent: seq<Message>)

  predicate Waiting(q: Queue, dwell: nat) {
    dwell > 0 && q.deliveredBefore && q.sinceDelivery < dwell
  }

  /** `_drain_input` at a chunk boundary. */
  function PassOf(d: Device, dwell: nat, q: Queue): (r: Pass)
    requires ValidDevice(d)
    ensures ValidMessages(r.sent)
  {
    if Waiting(q, dwell) then Pass(q.(sinceDelivery := q.sinceDelivery + 1), [], [])
    else
      hide DrainAll;
      var s := DrainAll(d, dwell > 0, Drain(q.masks, [], [], [], false), q.inbox);
      var q1 := q.(masks := s.masks, inbox := s.deferred);
      Pass(if s.sent == [] then q1 else q1.(sinceDelivery := 0, deliveredBefore := true), s.consumed, s.sent)
  }

  // ---- The objects --------------------------------------------------------

  class Held {
    const device: Device
    var masks: Masks

    constructor (device: Device)
      ensures this.device == device && masks == map[]
    {
      this.device, masks := device, map[];
    }

    /** `_apply`, behind `press` and `release` */
    method Change(code: int, down: bool) returns (sent: seq<Message>)
      requires ValidDevice(device)
      modifies this
      ensures (masks, sent) == Apply(device, old(masks), code, down)
    {
      var p := WireFor(device, code);
      if p.None? {
        return [];
      }
      var mask := Switched(MaskOf(masks, p.value.channel), p.value.bitNo, down);
      masks := masks[p.value.channel := mask];
      return [Buttons(p.value.channel, mask)];
    }

    /** `release_all` */
    method DropAll() returns (sent: seq<Message>)
      modifies this
      ensures masks == map[] && sent == LetGo(old(masks), 16)
    {
      sent := [];
      for n := 0 to 16
        invariant sent == LetGo(masks, n)
      {
        if MaskOf(masks, n) != 0 {
          sent := sent + [Buttons(n, 0)];
        }
      }
      masks := map[];
    }
  }

  class Emulator {
    const held: Held
    const dwell: nat
    var inbox: seq<Event>
    var sinceDelivery: nat
    var deliveredBefore: bool

    function Current(): Queue
      reads this, held
    {
      Queue(held.masks, inbox, sinceDelivery, deliveredBefore)
    }

    constructor (held: Held, dwell: nat)
      ensures this.held == held && this.dwell == dwell && Current() == Queue(held.masks, [], 0, false)
    {
      this.held, this.dwell := held, dwell;
      inbox, sinceDelivery, deliveredBefore := [], 0, false;
    }

    /** `_drain_input`, up to the feed: the bytes to deliver, if any. */
    method DrainInput() returns (out: seq<byte>, ghost consumed: seq<Event>, ghost sent: seq<Message>)
      requires ValidDevice(held.device)
      modifies this, held
      ensures Pass(Current(), consumed, sent) == PassOf(held.device, dwell, old(Current()))
      ensures ValidMessages(sent) && out == EncodeAll(sent)
    {
      hide Apply, LetGo, DrainAll, EncodeAll, ValidMessages;
      consumed, sent := [], [];
      EncodeNothing();
      var paced := dwell > 0;
      if paced && deliveredBefore && sinceDelivery < dwell {
        sinceDelivery := sinceDelivery + 1;
        return [], [], [];
      }
      out := [];
      var tookButton, deferred := false, [];
      ghost var queued, start := inbox, Drain(held.masks, [], [], [], false);
      ghost var k := 0;
      DrainFrom(held.device, paced, start, queued, 0);
      while inbox != []
        invariant k <= |queued| && inbox == queued[k..]
        invariant ValidMessages(sent) && out == EncodeAll(sent)
        invariant Drain(held.masks, sent, consumed, deferred, tookButton) == DrainAll(held.device, paced, start, queued[..k])
        invariant unchanged(this`sinceDelivery, this`deliveredBefore)
        decreases |inbox|
      {
        DrainFrom(held.device, paced, start, queued, k);
        var e := inbox[0];
        inbox := inbox[1..];
        k := k + 1;
        if e.Encoder? {
          var channel := EncoderChannel(held.device, e.code);
          consumed := consumed + [e];
          if channel.Some? {
            EncodeMore(sent, [Turn(channel.value, e.delta)]);
            out := out + Encode(Turn(channel.value, e.delta));
            sent := sent + [Turn(channel.value, e.delta)];
          }
        } else if paced && tookButton {
          deferred := deferred + [e];
        } else {
          tookButton := true;
          consumed := consumed + [e];
          var messages;
          if e.Press? {
            messages := held.Change(e.code, true);
          } else if e.Release? {
            messages := held.Change(e.code, false);
          } else {
            messages := held.DropAll();
          }
          EncodeMore(sent, messages);
          out := out + EncodeAll(messages);
          sent := sent + messages;
        }
      }
      assert queued[..k] == queued;
      inbox := deferred + inbox;
      if out == [] {
        return;
      }
      sinceDelivery := 0;
      deliveredBefore := true;
    }
  }

  lemma EncodeNothing()
    ensures ValidMessages([]) && EncodeAll([]) == []
  {
  }

  lemma {:induction false} EncodeMore(a: seq<Message>, b: seq<Message>)
    requires ValidMessages(a) && ValidMessages(b)
    ensures ValidMessages(a + b) && EncodeAll(a + b) == EncodeAll(a) + EncodeAll(b)
    ensures |b| == 1 ==> EncodeAll(b) == Encode(b[0])
    decreases |b|
  {
    hide Encode, ValidMessage;
    if b == [] {
      assert a + b == a;
    } else {
      var init := b[..|b| - 1];
      assert (a + b)[..|a + b| - 1] == a + init;
      EncodeMore(a, init);
    }
  }

  lemma DrainFrom(d: Device, paced: bool, s: Drain, inbox: seq<Event>, k: nat)
    requires ValidDevice(d) && ValidMessages(s.sent) && k <= |inbox|
    ensures DrainAll(d, paced, s, inbox[..0]) == s
    ensures k < |inbox| ==> DrainAll(d, paced, s, inbox[..k + 1]) == DrainOne(d, paced, DrainAll(d, paced, s, inbox[..k]), inbox[k])
  {
    hide DrainOne;
    if k < |inbox| {
      assert inbox[..k + 1][..k] == inbox[..k];
    }
  }
}
