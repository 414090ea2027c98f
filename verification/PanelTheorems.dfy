/** Paced panel input loses nothing: over every history of clicks and chunks each
    event is consumed once and in order, and the firmware's view of the buttons
    is the held masks. */
module PanelTheorems {
  import opened Bytes
  import opened Panel

  // ---- Queues of one kind -------------------------------------------------

  function ButtonsOf(s: seq<Event>): seq<Event> {
    if s == [] then []
    else ButtonsOf(s[..|s| - 1]) + if s[|s| - 1].Encoder? then [] else [s[|s| - 1]]
  }

  function EncodersOf(s: seq<Event>): seq<Event> {
    if s == [] then []
    else EncodersOf(s[..|s| - 1]) + if s[|s| - 1].Encoder? then [s[|s| - 1]] else []
  }

  lemma {:induction false} KindsConcat(a: seq<Event>, b: seq<Event>)
    ensures ButtonsOf(a + b) == ButtonsOf(a) + ButtonsOf(b)
    ensures EncodersOf(a + b) == EncodersOf(a) + EncodersOf(b)
    decreases |b|
  {
    if b == [] {
      assert a + b == a;
    } else {
      assert (a + b)[..|a + b| - 1] == a + b[..|b| - 1];
      KindsConcat(a, b[..|b| - 1]);
    }
  }

  lemma KindsMore(s: seq<Event>, e: Event)
    ensures ButtonsOf(s + [e]) == ButtonsOf(s) + if e.Encoder? then [] else [e]
    ensures EncodersOf(s + [e]) == EncodersOf(s) + if e.Encoder? then [e] else []
  {
    assert (s + [e])[..|s|] == s;
  }

  // ---- One pass -----------------------------------------------------------

  /** What holds of the drain loop after the events `seen`. */
  predicate Drained(s: Drain, paced: bool, seen: seq<Event>) {
    && ButtonsOf(s.consumed) + s.deferred == ButtonsOf(seen)
    && EncodersOf(s.consumed) == EncodersOf(seen)
    && ButtonsOf(s.deferred) == s.deferred && EncodersOf(s.deferred) == []
    && (s.deferred != [] ==> paced && s.tookButton)
    && (s.tookButton <==> ButtonsOf(s.consumed) != [])
    && (paced ==> |ButtonsOf(s.consumed)| <= 1)
  }

  lemma {:induction false} DrainKeepsOrder(d: Device, paced: bool, masks: Masks, inbox: seq<Event>, k: nat)
    requires ValidDevice(d) && k <= |inbox|
    ensures Drained(DrainAll(d, paced, Drain(masks, [], [], [], false), inbox[..k]), paced, inbox[..k])
    decreases k
  {
    hide *;
    var start := Drain(masks, [], [], [], false);
    NothingSent();
    if k == 0 {
      NothingDrained(masks, paced);
      DrainFrom(d, paced, start, inbox, 0);
    } else {
      DrainKeepsOrder(d, paced, masks, inbox, k - 1);
      DrainOneKeepsOrder(d, paced, DrainAll(d, paced, start, inbox[..k - 1]), inbox[..k - 1], inbox[k - 1]);
      DrainFrom(d, paced, start, inbox, k - 1);
      assert inbox[..k - 1] + [inbox[k - 1]] == inbox[..k];
    }
  }

  lemma NothingSent()
    ensures ValidMessages([])
  {
  }

  lemma NothingDrained(masks: Masks, paced: bool)
    ensures Drained(Drain(masks, [], [], [], false), paced, [])
  {
  }

  lemma DrainOneKeepsOrder(d: Device, paced: bool, s: Drain, seen: seq<Event>, e: Event)
    requires ValidDevice(d) && ValidMessages(s.sent) && Drained(s, paced, seen)
    ensures Drained(DrainOne(d, paced, s, e), paced, seen + [e])
  {
    hide Handle, ButtonsOf, EncodersOf;
    KindsMore(seen, e);
    KindsMore(s.consumed, e);
    KindsMore(s.deferred, e);
    ConcatAssoc(ButtonsOf(s.consumed), s.deferred, [e]);
    if s.deferred == [] {
      assert ButtonsOf(s.consumed) + s.deferred == ButtonsOf(s.consumed);
    }
  }

  /** One pass: what it consumes and what it leaves are what was queued, each kind
      in its order; no encoder event is left behind and, with pacing on, at most
      one button event is taken. */
  lemma PassLosesNothing(d: Device, dwell: nat, q: Queue)
    requires ValidDevice(d)
    ensures var p := PassOf(d, dwell, q);
            ButtonsOf(p.consumed) + ButtonsOf(p.queue.inbox) == ButtonsOf(q.inbox) &&
            EncodersOf(p.consumed) + EncodersOf(p.queue.inbox) == EncodersOf(q.inbox) &&
            (dwell > 0 ==> |ButtonsOf(p.consumed)| <= 1) &&
            (dwell == 0 ==> p.queue.inbox == []) &&
            (!Waiting(q, dwell) ==> EncodersOf(p.queue.inbox) == [] &&
                                    (ButtonsOf(q.inbox) != [] ==> ButtonsOf(p.consumed) != []))
  {
    hide DrainAll;
    DrainKeepsOrder(d, dwell > 0, q.masks, q.inbox, |q.inbox|);
    assert q.inbox[..|q.inbox|] == q.inbox;
    assert ButtonsOf([]) == [] && EncodersOf([]) == [];
    hide ButtonsOf, EncodersOf;
    assert [] + ButtonsOf(q.inbox) == ButtonsOf(q.inbox);
    assert [] + EncodersOf(q.inbox) == EncodersOf(q.inbox);
    assert EncodersOf(q.inbox) + [] == EncodersOf(q.inbox);
  }

  // ---- Whole sessions -----------------------------------------------------

  /** The user clicks, or a chunk ends and its feed works or fails. */
  datatype Op = Click(e: Event) | Chunk(fed: bool)

  /** Where a session got to: the queue, the events clicked, consumed and the
      messages that reached the firmware. */
  datatype Session = Session(queue: Queue, clicked: seq<Event>, consumed: seq<Event>, delivered: seq<Message>)

  function Run(d: Device, dwell: nat, q: Queue, ops: seq<Op>): (r: Session)
    requires ValidDevice(d)
    ensures ValidMessages(r.delivered)
  {
    if ops == [] then Session(q, [], [], [])
    else
      hide PassOf;
      var s := Run(d, dwell, q, ops[..|ops| - 1]);
      match ops[|ops| - 1]
      case Click(e) => s.(queue := s.queue.(inbox := s.queue.inbox + [e]), clicked := s.clicked + [e])
      case Chunk(fed) =>
        var p := PassOf(d, dwell, s.queue);
        Session(p.queue, s.clicked, s.consumed + p.consumed, s.delivered + if fed then p.sent else [])
  }

  /** Main result: over every history, the button events consumed and those still
      queued are those that were queued and clicked, in order, each once; and so
      for the encoder events. */
  lemma {:induction false} NothingIsLost(d: Device, dwell: nat, q: Queue, ops: seq<Op>)
    requires ValidDevice(d)
    ensures var s := Run(d, dwell, q, ops);
            ButtonsOf(s.consumed) + ButtonsOf(s.queue.inbox) == ButtonsOf(q.inbox) + ButtonsOf(s.clicked) &&
            EncodersOf(s.consumed) + EncodersOf(s.queue.inbox) == EncodersOf(q.inbox) + EncodersOf(s.clicked)
    decreases |ops|
  {
    if ops == [] {
      assert ButtonsOf([]) == [] && EncodersOf([]) == [];
      hide ButtonsOf, EncodersOf;
      assert [] + ButtonsOf(q.inbox) == ButtonsOf(q.inbox) + [];
      assert [] + EncodersOf(q.inbox) == EncodersOf(q.inbox) + [];
    } else {
      hide PassOf, ButtonsOf, EncodersOf;
      var init := ops[..|ops| - 1];
      NothingIsLost(d, dwell, q, init);
      var s := Run(d, dwell, q, init);
      match ops[|ops| - 1]
      case Click(e) =>
        KindsMore(s.queue.inbox, e);
        KindsMore(s.clicked, e);
        var b, n := if e.Encoder? then [] else [e], if e.Encoder? then [e] else [];
        ConcatAssoc(ButtonsOf(s.consumed), ButtonsOf(s.queue.inbox), b);
        ConcatAssoc(ButtonsOf(q.inbox), ButtonsOf(s.clicked), b);
        ConcatAssoc(EncodersOf(s.consumed), EncodersOf(s.queue.inbox), n);
        ConcatAssoc(EncodersOf(q.inbox), EncodersOf(s.clicked), n);
      case Chunk(fed) =>
        var p := PassOf(d, dwell, s.queue);
        PassLosesNothing(d, dwell, s.queue);
        KindsConcat(s.consumed, p.consumed);
        ConcatAssoc(ButtonsOf(s.consumed), ButtonsOf(p.consumed), ButtonsOf(p.queue.inbox));
        ConcatAssoc(EncodersOf(s.consumed), EncodersOf(p.consumed), EncodersOf(p.queue.inbox));
    }
  }

  // ---- Dwell --------------------------------------------------------------

  function Chunks(ops: seq<Op>): nat {
    if ops == [] then 0 else Chunks(ops[..|ops| - 1]) + if ops[|ops| - 1].Chunk? then 1 else 0
  }

  lemma {:induction false} QuietUntilDwell(d: Device, dwell: nat, q: Queue, ops: seq<Op>)
    requires ValidDevice(d) && dwell > 0 && q.deliveredBefore && q.sinceDelivery + Chunks(ops) <= dwell
    ensures var s := Run(d, dwell, q, ops);
            s.consumed == [] && s.delivered == [] && s.queue.masks == q.masks &&
            s.queue.deliveredBefore && s.queue.sinceDelivery == q.sinceDelivery + Chunks(ops)
    decreases |ops|
  {
    hide DrainAll;
    if ops == [] {
    } else {
      QuietUntilDwell(d, dwell, q, ops[..|ops| - 1]);
    }
  }

  /** With pacing on, two deliveries that are not empty have at least the dwell
      count of chunks between them, whatever is clicked meanwhile. */
  lemma DeliveriesDwell(d: Device, dwell: nat, q: Queue, ops: seq<Op>)
    requires ValidDevice(d) && dwell > 0 && PassOf(d, dwell, q).sent != [] && Chunks(ops) <= dwell
    ensures var s := Run(d, dwell, PassOf(d, dwell, q).queue, ops);
            s.consumed == [] && s.delivered == []
  {
    hide DrainAll, Run, Chunks;
    QuietUntilDwell(d, dwell, PassOf(d, dwell, q).queue, ops);
  }

  /** `n` rounds of `k` chunks. */
  function Rounds(n: nat, k: nat): nat {
    if n == 0 then 0 else Rounds(n - 1, k) + k
  }

  lemma {:induction false} FewerRounds(a: nat, b: nat, k: nat)
    requires a < b
    ensures Rounds(a, k) + k <= Rounds(b, k)
    decreases b
  {
    if a == b - 1 {
    } else {
      FewerRounds(a, b - 1, k);
    }
  }

  /** How many chunks it takes until no button event is queued: a dwell and a
      pass for each, and what is left of the dwell under way. */
  function Patience(q: Queue, dwell: nat): nat {
    Rounds(|ButtonsOf(q.inbox)|, dwell + 1) + if Waiting(q, dwell) then dwell - q.sinceDelivery else 0
  }

  lemma PatienceEnds(q: Queue, dwell: nat)
    ensures Patience(q, dwell) == 0 ==> ButtonsOf(q.inbox) == []
  {
    hide ButtonsOf;
  }

  /** Every chunk brings the queue nearer to empty. */
  lemma PassMakesProgress(d: Device, dwell: nat, q: Queue)
    requires ValidDevice(d) && Patience(q, dwell) > 0
    ensures Patience(PassOf(d, dwell, q).queue, dwell) < Patience(q, dwell)
  {
    var p := PassOf(d, dwell, q);
    PassLosesNothing(d, dwell, q);
    hide ButtonsOf, DrainAll;
    if Waiting(q, dwell) {
      assert p.queue.inbox == q.inbox;
    } else {
      var left, queued := |ButtonsOf(p.queue.inbox)|, |ButtonsOf(q.inbox)|;
      assert left + |ButtonsOf(p.consumed)| == queued;
      FewerRounds(left, queued, dwell + 1);
    }
  }

  /** Everything queued is consumed in time: once no more is clicked, after
      `Patience` chunks no button event is left. */
  lemma {:induction false} AllConsumedInTime(d: Device, dwell: nat, q: Queue, n: nat)
    requires ValidDevice(d) && n >= Patience(q, dwell)
    ensures ButtonsOf(After(d, dwell, q, n).inbox) == []
    decreases n
  {
    hide PassOf, Patience, ButtonsOf;
    if Patience(q, dwell) > 0 {
      PassMakesProgress(d, dwell, q);
      AllConsumedInTime(d, dwell, PassOf(d, dwell, q).queue, n - 1);
    } else {
      PatienceEnds(q, dwell);
      StaysEmpty(d, dwell, q, n);
    }
  }

  /** The queue after `n` chunks without a click. */
  function After(d: Device, dwell: nat, q: Queue, n: nat): Queue
    requires ValidDevice(d)
    decreases n
  {
    if n == 0 then q
    else
      hide PassOf;
      After(d, dwell, PassOf(d, dwell, q).queue, n - 1)
  }

  lemma {:induction false} StaysEmpty(d: Device, dwell: nat, q: Queue, n: nat)
    requires ValidDevice(d) && ButtonsOf(q.inbox) == []
    ensures ButtonsOf(After(d, dwell, q, n).inbox) == []
    decreases n
  {
    hide PassOf, ButtonsOf;
    if n == 0 {
    } else {
      PassLosesNothing(d, dwell, q);
      StaysEmpty(d, dwell, PassOf(d, dwell, q).queue, n - 1);
    }
  }

  // ---- The firmware's view ------------------------------------------------

  /** The firmware reads two bytes at a time: a header and its payload. */
  function Parse(s: seq<byte>): seq<Message> {
    if |s| < 2 then []
    else
      var header: int, payload: int := s[|s| - 2], s[|s| - 1];
      var init := Parse(s[..|s| - 2]);
      if header / 16 == 2 then init + [Buttons(header % 16, payload)]
      else if header / 16 == 3 then init + [Turn(header % 16, if payload >= 128 then payload - 256 else payload)]
      else init
  }

  lemma ParseLast(s: seq<byte>, m: Message)
    requires ValidMessage(m)
    ensures Parse(s + Encode(m)) == Parse(s) + [m]
  {
    var e := Encode(m);
    assert (s + e)[..|s + e| - 2] == s && (s + e)[|s + e| - 2] == e[0] && (s + e)[|s + e| - 1] == e[1];
  }

  lemma {:induction false} ParseEncode(ms: seq<Message>)
    requires ValidMessages(ms)
    ensures Parse(EncodeAll(ms)) == ms
    decreases |ms|
  {
    hide Encode, Parse;
    if ms == [] {
      ParseNothing();
    } else {
      var init, last := ms[..|ms| - 1], ms[|ms| - 1];
      ParseEncode(init);
      ParseLast(EncodeAll(init), last);
      assert ms == init + [last];
    }
  }

  lemma ParseNothing()
    ensures Parse([]) == []
  {
  }

  /** The state the firmware keeps for each channel: the last mask it was sent. */
  function Replayed(masks: Masks, ms: seq<Message>): Masks {
    if ms == [] then masks
    else
      var before, last := Replayed(masks, ms[..|ms| - 1]), ms[|ms| - 1];
      if last.Buttons? then before[last.channel := last.mask] else before
  }

  lemma {:induction false} ReplayedMore(masks: Masks, a: seq<Message>, b: seq<Message>)
    ensures Replayed(masks, a + b) == Replayed(Replayed(masks, a), b)
    decreases |b|
  {
    if b == [] {
      assert a + b == a;
    } else {
      assert (a + b)[..|a + b| - 1] == a + b[..|b| - 1];
      ReplayedMore(masks, a, b[..|b| - 1]);
    }
  }

  /** The two views agree on every channel, an absent mask being zero. */
  predicate Agree(held: Masks, shown: Masks) {
    && (forall c :: c in held ==> c < 16 && held[c] == MaskOf(shown, c))
    && (forall c :: c in shown ==> shown[c] == MaskOf(held, c))
  }

  /** One more channel let go is one more channel shown as zero. */
  lemma LetGoStep(held: Masks, shown: Masks, n: nat)
    requires n < 16 && Agree(held, shown)
    ensures var r := Replayed(shown, LetGo(held, n));
            Replayed(shown, LetGo(held, n + 1)) == if MaskOf(held, n) != 0 then r[n := 0] else r
  {
    hide Replayed;
    var before := LetGo(held, n);
    if MaskOf(held, n) != 0 {
      ReplayedOne(shown, before, Buttons(n, 0));
    } else {
      assert before + [] == before;
    }
  }

  lemma SameMask(held: Masks, shown: Masks, c: nat)
    requires Agree(held, shown)
    ensures MaskOf(shown, c) == MaskOf(held, c)
  {
  }

  /** Letting go of the channels below `n` shows them as zero and no other. */
  lemma {:induction false} LetGoReplays(held: Masks, shown: Masks, n: nat, c: nat)
    requires n <= 16 && Agree(held, shown)
    ensures MaskOf(Replayed(shown, LetGo(held, n)), c) == if c < n then 0 else MaskOf(shown, c)
    decreases n
  {
    hide Agree, MaskOf, Replayed, LetGo;
    if n == 0 {
      LetGoNothing(held, shown);
    } else {
      LetGoReplays(held, shown, n - 1, c);
      LetGoStep(held, shown, n - 1);
      SameMask(held, shown, n - 1);
      MaskAfter(Replayed(shown, LetGo(held, n - 1)), n - 1, c);
    }
  }

  lemma LetGoNothing(held: Masks, shown: Masks)
    ensures Replayed(shown, LetGo(held, 0)) == shown
  {
  }

  lemma MaskAfter(m: Masks, n: nat, c: nat)
    ensures MaskOf(m[n := 0], c) == if c == n then 0 else MaskOf(m, c)
  {
  }

  lemma ReplayedOne(masks: Masks, before: seq<Message>, m: Message)
    ensures Replayed(masks, before + [m]) ==
            if m.Buttons? then Replayed(masks, before)[m.channel := m.mask] else Replayed(masks, before)
  {
    assert (before + [m])[..|before|] == before;
  }

  lemma HandleReplays(d: Device, held: Masks, shown: Masks, e: Event)
    requires ValidDevice(d) && Agree(held, shown)
    ensures var (masks, messages) := Handle(d, held, e); Agree(masks, Replayed(shown, messages))
  {
    hide Apply, LetGo, Agree, Replayed, EncoderChannel, ValidDevice;
    ReplayedShort(shown, Turn(0, 0));
    match e
    case Press(code) => ApplyReplays(d, held, shown, code, true);
    case Release(code) => ApplyReplays(d, held, shown, code, false);
    case ReleaseAll => ReleaseReplays(held, shown, 16);
    case Encoder(code, delta) =>
      var channel := EncoderChannel(d, code);
      if channel.Some? {
        ReplayedShort(shown, Turn(channel.value, delta));
      }
  }

  lemma ReplayedShort(masks: Masks, m: Message)
    ensures Replayed(masks, []) == masks
    ensures Replayed(masks, [m]) == if m.Buttons? then masks[m.channel := m.mask] else masks
  {
    assert [] + [m] == [m];
    ReplayedOne(masks, [], m);
  }

  lemma ApplyReplays(d: Device, held: Masks, shown: Masks, code: int, down: bool)
    requires ValidDevice(d) && Agree(held, shown)
    ensures var (masks, messages) := Apply(d, held, code, down); Agree(masks, Replayed(shown, messages))
  {
    hide Switched, WireFor, Replayed;
    ReplayedShort(shown, Turn(0, 0));
    var p := WireFor(d, code);
    if p.Some? {
      ReplayedShort(shown, Buttons(p.value.channel, Switched(MaskOf(held, p.value.channel), p.value.bitNo, down)));
    }
  }

  lemma ReleaseReplays(held: Masks, shown: Masks, n: nat)
    requires n == 16 && Agree(held, shown)
    ensures Agree(map[], Replayed(shown, LetGo(held, n)))
  {
    hide LetGo, Replayed;
    var r := Replayed(shown, LetGo(held, n));
    forall c | c in r
      ensures r[c] == 0
    {
      LetGoReplays(held, shown, n, c);
      SameMask(held, shown, c);
    }
  }

  lemma {:induction false} DrainReplays(d: Device, paced: bool, masks: Masks, inbox: seq<Event>, shown: Masks)
    requires ValidDevice(d) && Agree(masks, shown)
    ensures var s := DrainAll(d, paced, Drain(masks, [], [], [], false), inbox);
            Agree(s.masks, Replayed(shown, s.sent))
    decreases |inbox|
  {
    var start := Drain(masks, [], [], [], false);
    hide Handle, Agree;
    if inbox == [] {
    } else {
      var init, e := inbox[..|inbox| - 1], inbox[|inbox| - 1];
      DrainReplays(d, paced, masks, init, shown);
      var s := DrainAll(d, paced, start, init);
      HandleReplays(d, s.masks, Replayed(shown, s.sent), e);
      ReplayedMore(shown, s.sent, Handle(d, s.masks, e).1);
    }
  }

  predicate AllFed(ops: seq<Op>) {
    forall i :: 0 <= i < |ops| ==> ops[i].Chunk? ==> ops[i].fed
  }

  /** Main result: when every feed works, the bytes that reached the firmware,
      parsed and replayed, are the held masks, releases of everything included. */
  lemma {:induction false} ReplayGivesHeldMasks(d: Device, dwell: nat, q: Queue, ops: seq<Op>, shown: Masks)
    requires ValidDevice(d) && AllFed(ops) && Agree(q.masks, shown)
    ensures var s := Run(d, dwell, q, ops);
            Agree(s.queue.masks, Replayed(shown, Parse(EncodeAll(s.delivered))))
    decreases |ops|
  {
    var s1 := Run(d, dwell, q, ops);
    ParseEncode(s1.delivered);
    hide Agree, DrainAll, Parse, EncodeAll;
    if ops == [] {
    } else {
      var init, last := ops[..|ops| - 1], ops[|ops| - 1];
      var s := Run(d, dwell, q, init);
      ReplayGivesHeldMasks(d, dwell, q, init, shown);
      ParseEncode(s.delivered);
      if last.Chunk? {
        var before := Replayed(shown, s.delivered);
        DrainReplays(d, dwell > 0, s.queue.masks, s.queue.inbox, before);
        ReplayedMore(shown, s.delivered, PassOf(d, dwell, s.queue).sent);
      }
    }
  }
}
