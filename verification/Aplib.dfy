/** dt2/aplib.py: the store-only writer of the LZ format, its section header,
    and the second, independently written decoder it is checked against. */
module Aplib {
  import opened Bytes
  import opened LzLayout
  import opened LzFormat
  import opened LzTheorems
  import opened LzDecoder

  const TERMINATOR_GAMMA := 0x100_0002
  const TERMINATOR_TRAILER: byte := 0xFF

  // ---- Gamma bits ---------------------------------------------------------

  /** `bin(value)[3:]`: the binary digits after the leading one. */
  function Tail(value: nat): (s: seq<bit>) {
    if value < 2 then [] else Tail(value / 2) + [value % 2]
  }

  /** Each digit followed by a zero: what `_gamma_bits` writes before its last digit. */
  function Opened(digits: seq<bit>): seq<bit> {
    if digits == [] then [] else Opened(digits[..|digits| - 1]) + [digits[|digits| - 1], 0]
  }

  lemma {:induction false} OpenedIsOpenGamma(v: nat)
    ensures Opened(Tail(v)) == Tags(OpenGamma(v))
    decreases v
  {
    if v < 2 {
    } else {
      OpenedIsOpenGamma(v / 2);
      assert Tail(v)[..|Tail(v)| - 1] == Tail(v / 2);
    }
  }

  /** `_gamma_bits`: the bits a gamma reader decodes to `value`. */
  method GammaBits(value: nat) returns (r: Result<seq<bit>, Fault>)
    ensures value < 2 ==> r == Err(BelowTwo)
    ensures value >= 2 ==> r == Ok(Tags(Gamma(value, [])))
  {
    if value < 2 {
      return Err(BelowTwo);
    }
    var tail := Tail(value);
    var out: seq<bit> := [];
    WrittenStep(tail, 0);
    hide *;
    for i := 0 to |tail|
      invariant out == Written(tail, i)
    {
      WrittenStep(tail, i);
      out := out + [tail[i], if i == |tail| - 1 then 1 else 0];
    }
    WrittenAll(value);
    return Ok(out);
  }

  /** What `_gamma_bits` has written after `i` digits. */
  ghost function Written(tail: seq<bit>, i: nat): seq<bit>
    requires i <= |tail|
  {
    if i == 0 || i < |tail| then Opened(tail[..i]) else Opened(tail[..i - 1]) + [tail[i - 1], 1]
  }

  lemma WrittenStep(tail: seq<bit>, i: nat)
    requires i < |tail|
    ensures Written(tail, 0) == []
    ensures Written(tail, i + 1) == Written(tail, i) + [tail[i], if i == |tail| - 1 then 1 else 0]
  {
    assert tail[..i + 1][..i] == tail[..i];
  }

  lemma WrittenAll(value: nat)
    requires value >= 2
    ensures var tail := Tail(value); Written(tail, |tail|) == Tags(Gamma(value, []))
  {
    var tail := Tail(value);
    assert tail[..|tail| - 1] == Tail(value / 2);
    OpenedIsOpenGamma(value / 2);
    hide OpenGamma, Opened, Tail;
    assert Tags(Gamma(value, [])) == Tags(OpenGamma(value / 2)) + [value % 2, 1];
  }

  // ---- The writer ---------------------------------------------------------

  function Literals(data: seq<byte>): (ts: seq<Token>)
    ensures |ts| == |data| && AllEncodable(ts)
  {
    seq(|data|, i requires 0 <= i < |data| => Literal(data[i]))
  }

  /** The events of a stored stream: every byte a literal, then the marker. */
  function StoredEvents(data: seq<byte>): seq<Event> {
    StreamEvents(Literals(data), TERMINATOR_GAMMA)
  }

  function Packed(data: seq<byte>): seq<byte> {
    Assembled(StoredEvents(data))
  }

  lemma {:induction false} StoredEventsAre(data: seq<byte>)
    ensures StoredEvents(data) ==
            seq(|data|, i requires 0 <= i < |data| => Event(1, [data[i]])) + MarkerEvents(TERMINATOR_GAMMA)
    decreases |data|
  {
    hide MarkerEvents;
    var lits := seq(|data|, i requires 0 <= i < |data| => Event(1, [data[i]]));
    if data == [] {
      assert lits + MarkerEvents(TERMINATOR_GAMMA) == MarkerEvents(TERMINATOR_GAMMA);
    } else {
      StoredEventsAre(data[1..]);
      assert Literals(data)[1..] == Literals(data[1..]);
      var rest := seq(|data| - 1, i requires 0 <= i < |data| - 1 => Event(1, [data[1..][i]]));
      assert lits == [Event(1, [data[0]])] + rest;
      assert TokenEvents(Literals(data)[0]) == [Event(1, [data[0]])];
    }
  }

  lemma {:induction false} OpenGammaBare(v: nat)
    ensures forall i :: 0 <= i < |OpenGamma(v)| ==> OpenGamma(v)[i].payload == []
    decreases v
  {
    if v < 2 {
    } else {
      OpenGammaBare(v / 2);
    }
  }

  /** A gamma code's events are its bits, the last one with the payload. */
  lemma GammaEvent(v: nat, payload: seq<byte>, i: nat)
    requires v >= 2 && i < |Gamma(v, payload)|
    ensures |Gamma(v, payload)| == |Gamma(v, [])|
    ensures Gamma(v, payload)[i] ==
            Event(Tags(Gamma(v, []))[i], if i == |Gamma(v, [])| - 1 then payload else [])
  {
    OpenGammaBare(v / 2);
  }

  method AppendGamma(before: seq<Event>, value: nat, trailer: byte) returns (events: seq<Event>)
    requires value >= 2
    ensures events == before + Gamma(value, [trailer])
  {
    var bits := GammaBits(value);
    var gbits := bits.value;
    events := before;
    ghost var code := Gamma(value, [trailer]);
    GammaEvent(value, [trailer], 0);
    for i := 0 to |gbits|
      invariant events == before + code[..i]
    {
      GammaEvent(value, [trailer], i);
      events := events + [Event(gbits[i], if i == |gbits| - 1 then [trailer] else [])];
    }
  }

  /** `_events`: one event per control bit, with the byte read right after it. */
  method Events(data: seq<byte>) returns (events: seq<Event>)
    ensures events == StoredEvents(data)
  {
    hide StoredEvents, Gamma;
    StoredEventsAre(data);
    events := seq(|data|, i requires 0 <= i < |data| => Event(1, [data[i]]));
    events := events + [Event(0, [])];
    events := AppendGamma(events, TERMINATOR_GAMMA, TERMINATOR_TRAILER);
  }

  /** `pack` */
  method Pack(data: seq<byte>) returns (out: seq<byte>)
    ensures out == Packed(data)
  {
    hide StoredEvents, Assembled;
    var events := Events(data);
    out := Assemble(events);
  }

  /** `pack_section`: the stream behind its length and byte sum. */
  method PackSection(data: seq<byte>) returns (r: Result<seq<byte>, Fault>)
    ensures r == PackedSection(data)
  {
    hide Packed;
    var body := Pack(data);
    if |body| >= WORD {
      return Err(TooLong);
    }
    return Ok(Pack32(|body|) + Pack32(Sum(body) % WORD) + body);
  }

  function PackedSection(data: seq<byte>): Result<seq<byte>, Fault> {
    var body := Packed(data);
    if |body| >= WORD then Err(TooLong)
    else Ok(Pack32(|body|) + Pack32(Sum(body) % WORD) + body)
  }

  /** `depack_section`: skip the header, decode, and insist that the end marker
      lands on the declared length. */
  method DepackSection(stream: seq<byte>) returns (r: Result<seq<byte>, Fault>)
    ensures r == DepackedSection(stream)
  {
    hide Depacked;
    if |stream| < 4 {
      return Err(HeaderMissing);
    }
    var length: int := Word(stream, 0);
    var pair :- Depack(stream, 8, 8 + length);
    if pair.1 != 8 + length {
      return Err(MarkerMisplaced);
    }
    return Ok(pair.0);
  }

  function DepackedSection(stream: seq<byte>): Result<seq<byte>, Fault> {
    if |stream| < 4 then Err(HeaderMissing)
    else
      var length := Word(stream, 0);
      var (out, end) :- Depacked(stream, 8, 8 + length);
      if end != 8 + length then Err(MarkerMisplaced) else Ok(out)
  }

  // ---- Round trips --------------------------------------------------------

  lemma {:induction false} LiteralsMean(data: seq<byte>, out: seq<byte>, last: nat)
    ensures Meaning(Literals(data), out, last) == Ok(out + data)
    decreases |data|
  {
    if data == [] {
      assert out + data == out;
    } else {
      LiteralsMean(data[1..], out + [data[0]], last);
      assert Literals(data)[1..] == Literals(data[1..]);
      assert out + [data[0]] + data[1..] == out + data;
    }
  }

  lemma MarkerIsTerminator()
    ensures IsMarker(TERMINATOR_GAMMA)
  {
  }

  /** Decoding the stored stream, wherever it lies and whatever follows it,
      gives the data back and the position just past it. */
  lemma PackRoundTrip(data: seq<byte>, d: seq<byte>, pos: nat, end: int)
    requires var q := pos + |Packed(data)|;
             q <= |d| && q <= end && d[pos..q] == Packed(data)
    ensures Depacked(d, pos, end) == Ok((data, pos + |Packed(data)|))
  {
    hide Assembled, StreamEvents, Meaning, Lays, DepackFrom;
    var es := StoredEvents(data);
    AssembledLays(d, pos, es);
    MarkerIsTerminator();
    hide IsMarker;
    DecodesStream(d, end, pos + |Packed(data)|, Cursor(pos, []), Literals(data), TERMINATOR_GAMMA, [], 1);
    LiteralsMean(data, [], 1);
    assert [] + data == data;
  }

  /** `depack_section(pack_section(d)) == d` for every `d` that can be packed at all. */
  lemma SectionRoundTrip(data: seq<byte>)
    ensures PackedSection(data).Ok? <==> |Packed(data)| < WORD
    ensures PackedSection(data).Ok? ==> DepackedSection(PackedSection(data).value) == Ok(data)
  {
    hide Packed, Depacked, Pack32;
    if PackedSection(data).Ok? {
      var body := Packed(data);
      var stream := PackedSection(data).value;
      PackUnpack(|body|, stream, 0);
      assert stream[8..8 + |body|] == body;
      PackRoundTrip(data, stream, 8, 8 + |body|);
    }
  }

  lemma SectionIs(stream: seq<byte>)
    requires |stream| >= 4
    ensures var n: int := Word(stream, 0);
            var r := Depacked(stream, 8, 8 + n);
            DepackedSection(stream) ==
              if r.Err? then Err(r.error)
              else if r.value.1 != 8 + n then Err(MarkerMisplaced)
              else Ok(r.value.0)
  {
    hide Depacked;
  }

  /** `depack_section` succeeds exactly on a header whose length field counts a
      whole token stream and nothing else. */
  lemma SectionIff(stream: seq<byte>, out: seq<byte>)
    requires |stream| >= 4
    ensures var n: int := Word(stream, 0);
            DepackedSection(stream) == Ok(out) <==> IsStreamFor(stream, 8 + n, Cursor(8, []), [], 1, out)
  {
    hide Depacked, IsStreamFor, DepackedSection;
    var n: int := Word(stream, 0);
    DepackedIff(stream, 8, 8 + n, out, 8 + n);
    SectionIs(stream);
  }

  /** The stored stream is as long as its data, the trailer byte and one tag
      byte for each eight of its control bits. */
  lemma PackedLength(data: seq<byte>)
    ensures |Packed(data)| == |data| + 1 + (|data| + 49 + 7) / 8
  {
    hide Assembled, StreamEvents;
    var lits := seq(|data|, i requires 0 <= i < |data| => Event(1, [data[i]]));
    var marker := MarkerEvents(TERMINATOR_GAMMA);
    StoredEventsAre(data);
    AssembledLength(StoredEvents(data));
    PayloadsConcat(lits, marker);
    LiteralPayloads(data);
    MarkerSize();
  }

  lemma {:induction false} LiteralPayloads(data: seq<byte>)
    ensures Payloads(seq(|data|, i requires 0 <= i < |data| => Event(1, [data[i]]))) == data
    decreases |data|
  {
    var lits := seq(|data|, i requires 0 <= i < |data| => Event(1, [data[i]]));
    if data == [] {
    } else {
      LiteralPayloads(data[1..]);
      assert lits[1..] == seq(|data[1..]|, i requires 0 <= i < |data[1..]| => Event(1, [data[1..][i]]));
    }
  }

  lemma {:induction false} OpenGammaSize(v: nat, n: nat)
    requires Pow2(n) <= v < Pow2(n + 1)
    ensures |OpenGamma(v)| == 2 * n && Payloads(OpenGamma(v)) == []
    decreases n
  {
    if n == 0 {
    } else {
      OpenGammaSize(v / 2, n - 1);
      TwoPayloads(Event(v % 2, []), Event(0, []));
      PayloadsConcat(OpenGamma(v / 2), [Event(v % 2, []), Event(0, [])]);
    }
  }

  lemma TwoPayloads(a: Event, b: Event)
    ensures Payloads([a, b]) == a.payload + b.payload
  {
    assert [a, b][1..] == [b];
    assert Payloads([b]) == b.payload + Payloads([]);
  }

  lemma MarkerSizeOf(g: nat, n: nat)
    requires Pow2(n) <= g / 2 < Pow2(n + 1)
    ensures |MarkerEvents(g)| == 2 * n + 3
    ensures |Payloads(MarkerEvents(g))| == 1
  {
    var last := [Event(g % 2, []), Event(1, [0xFF])];
    OpenGammaSize(g / 2, n);
    PayloadsConcat(OpenGamma(g / 2), last);
    TwoPayloads(last[0], last[1]);
    PayloadsConcat([Event(0, [])], Gamma(g, [0xFF]));
    assert Payloads([Event(0, [])]) == [];
  }

  lemma MarkerSize()
    ensures |MarkerEvents(TERMINATOR_GAMMA)| == 49
    ensures |Payloads(MarkerEvents(TERMINATOR_GAMMA))| == 1
  {
    hide MarkerEvents, Payloads;
    Pow2Of23();
    MarkerSizeOf(TERMINATOR_GAMMA, 23);
  }

  lemma Pow2Of23()
    ensures Pow2(23) == 0x80_0000 && Pow2(24) == 0x100_0000
  {
    Powers();
    Pow2Add(8, 8);
    Pow2Add(16, 7);
    Pow2Add(16, 8);
  }
}
