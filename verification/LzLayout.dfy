/** How control bits and payload bytes share one byte stream: eight control
    bits per tag byte, fetched on demand, with each group's payload right after
    its tag byte. Both the writer (dt2/aplib.py) and the readers (dt2/elz.py and
    the shadow decoder of dt2/aplib.py) are stated over this layout. */
module LzLayout {
  import opened Bytes

  /** One control bit and the raw bytes a reader takes right after it. */
  datatype Event = Event(tag: bit, payload: seq<byte>)

  /** A reading position: the next byte, and the unread bits of the last tag byte. */
  datatype Cursor = Cursor(p: nat, pending: seq<bit>)

  datatype Fault =
    | EndOfInput          // EOFError
    | IndexOutOfRange     // IndexError: `end` points past the data
    | GammaOverflow
    | BadOffset
    | MarkerMisplaced
    | HeaderMissing       // struct.error
    | BelowTwo            // a gamma code below two cannot be written
    | TooLong             // struct.error: a length does not fit in 32 bits
    | NotATerminator      // the shadow decoder met a real match

  // ---- Reading ------------------------------------------------------------

  function ReadByte(d: seq<byte>, end: int, c: Cursor): Result<(byte, Cursor), Fault> {
    if c.p >= end then Err(EndOfInput)
    else if c.p >= |d| then Err(IndexOutOfRange)
    else Ok((d[c.p], c.(p := c.p + 1)))
  }

  function ReadBit(d: seq<byte>, end: int, c: Cursor): (r: Result<(bit, Cursor), Fault>)
    ensures r.Ok? ==> Fuel(end, r.value.1) < Fuel(end, c)
  {
    if c.pending != [] then Ok((c.pending[0], c.(pending := c.pending[1..])))
    else
      var (b, c1) :- ReadByte(d, end, c);
      Ok((BitsOf(b)[0], Cursor(c1.p, BitsOf(b)[1..])))
  }

  /** Eight times the bytes left plus the bits pending: what bounds every read loop. */
  function Fuel(end: int, c: Cursor): nat {
    (if c.p < end then 8 * (end - c.p) else 0) + |c.pending|
  }

  // ---- The layout ---------------------------------------------------------

  /** Bytes `p..q` of `d` are exactly what a reader with `pending` unread tag
      bits consumes while it takes the events `es` one by one. Tag bits left
      over after the last event are not constrained. */
  ghost predicate Lays(d: seq<byte>, p: nat, q: nat, pending: seq<bit>, es: seq<Event>)
    decreases |es|, if pending == [] then 1 else 0
  {
    p <= q <= |d| &&
    if es == [] then p == q
    else if pending == [] then p < q && Lays(d, p + 1, q, BitsOf(d[p]), es)
    else pending[0] == es[0].tag && Ahead(d, p, q, pending[1..], es[0].payload, es[1..])
  }

  /** The same, with the payload `payload` to be read first. */
  ghost predicate Ahead(d: seq<byte>, p: nat, q: nat, pending: seq<bit>, payload: seq<byte>, es: seq<Event>)
    decreases |es|, 2
  {
    p + |payload| <= q <= |d| &&
    d[p..p + |payload|] == payload &&
    Lays(d, p + |payload|, q, pending, es)
  }

  /** Reading one control bit of a laid-out stream gives the event's bit. */
  lemma ReadsEvent(d: seq<byte>, end: int, q: nat, c: Cursor, e: Event, es: seq<Event>)
    requires q <= end
    requires Lays(d, c.p, q, c.pending, [e] + es)
    ensures ReadBit(d, end, c).Ok?
    ensures var (b, c1) := ReadBit(d, end, c).value;
            b == e.tag && Ahead(d, c1.p, q, c1.pending, e.payload, es)
  {
    assert ([e] + es)[1..] == es;
  }

  /** Conversely: whatever bit was read, putting it in front of the events that
      are still ahead describes the stream from before the read. */
  lemma UnreadsEvent(d: seq<byte>, end: int, q: nat, c: Cursor, payload: seq<byte>, es: seq<Event>)
    requires ReadBit(d, end, c).Ok?
    requires var c1 := ReadBit(d, end, c).value.1;
             Ahead(d, c1.p, q, c1.pending, payload, es)
    ensures Lays(d, c.p, q, c.pending, [Event(ReadBit(d, end, c).value.0, payload)] + es)
  {
    var b := ReadBit(d, end, c).value.0;
    assert ([Event(b, payload)] + es)[1..] == es;
  }

  /** The same two facts for a bit that brings no payload. */
  lemma ReadsBit(d: seq<byte>, end: int, q: nat, c: Cursor, b: bit, es: seq<Event>)
    requires q <= end
    requires Lays(d, c.p, q, c.pending, [Event(b, [])] + es)
    ensures ReadBit(d, end, c).Ok? && ReadBit(d, end, c).value.0 == b
    ensures var c1 := ReadBit(d, end, c).value.1; Lays(d, c1.p, q, c1.pending, es)
  {
    hide BitsOf;
    ReadsEvent(d, end, q, c, Event(b, []), es);
  }

  lemma UnreadsBit(d: seq<byte>, end: int, q: nat, c: Cursor, es: seq<Event>)
    requires ReadBit(d, end, c).Ok?
    requires var c1 := ReadBit(d, end, c).value.1; Lays(d, c1.p, q, c1.pending, es)
    ensures Lays(d, c.p, q, c.pending, [Event(ReadBit(d, end, c).value.0, [])] + es)
  {
    hide BitsOf;
    UnreadsEvent(d, end, q, c, [], es);
  }

  lemma ReadsPayloadByte(d: seq<byte>, end: int, q: nat, c: Cursor, b: byte, es: seq<Event>)
    requires q <= end
    requires Ahead(d, c.p, q, c.pending, [b], es)
    ensures ReadByte(d, end, c) == Ok((b, c.(p := c.p + 1)))
    ensures Lays(d, c.p + 1, q, c.pending, es)
  {
    assert d[c.p..c.p + 1][0] == b;
  }

  lemma UnreadsPayloadByte(d: seq<byte>, end: int, q: nat, c: Cursor, es: seq<Event>)
    requires ReadByte(d, end, c).Ok?
    requires Lays(d, c.p + 1, q, c.pending, es)
    ensures Ahead(d, c.p, q, c.pending, [ReadByte(d, end, c).value.0], es)
  {
    assert d[c.p..c.p + 1] == [d[c.p]];
  }

  // ---- Writing ------------------------------------------------------------

  function Tags(es: seq<Event>): (bits: seq<bit>)
    ensures |bits| == |es|
  {
    seq(|es|, i requires 0 <= i < |es| => es[i].tag)
  }

  /** The tag byte of a group of at most eight events, unused low bits zero. */
  function TagByte(es: seq<Event>): byte
    requires |es| <= 8
  {
    ByteFrom(Tags(es))
  }

  lemma BitsOfTagByte(es: seq<Event>)
    requires |es| <= 8
    ensures forall i :: 0 <= i < |es| ==> BitsOf(TagByte(es))[i] == es[i].tag
  {
    BitsOfByteFrom(Tags(es));
    hide BitsOf, ByteFrom;
  }

  function Payloads(es: seq<Event>): seq<byte> {
    if es == [] then [] else es[0].payload + Payloads(es[1..])
  }

  /** The stream `_assemble` writes. */
  function Assembled(es: seq<Event>): seq<byte> {
    if es == [] then []
    else
      var n := Min(8, |es|);
      [TagByte(es[..n])] + Payloads(es[..n]) + Assembled(es[n..])
  }

  lemma PayloadsFirst(es: seq<Event>)
    ensures Payloads(es) == if es == [] then [] else es[0].payload + Payloads(es[1..])
  {
  }

  lemma {:induction false} PayloadsConcat(a: seq<Event>, b: seq<Event>)
    ensures Payloads(a + b) == Payloads(a) + Payloads(b)
  {
    hide Payloads;
    PayloadsFirst(a);
    PayloadsFirst(a + b);
    if a == [] {
      assert a + b == b;
    } else {
      PayloadsConcat(a[1..], b);
      assert (a + b)[0] == a[0] && (a + b)[1..] == a[1..] + b;
      ConcatAssoc(a[0].payload, Payloads(a[1..]), Payloads(b));
    }
  }

  /** One tag byte per eight events, and every payload byte once. */
  lemma {:induction false} AssembledLength(es: seq<Event>)
    ensures |Assembled(es)| == (|es| + 7) / 8 + |Payloads(es)|
  {
    if es == [] {
    } else {
      var n := Min(8, |es|);
      AssembledLength(es[n..]);
      PayloadsConcat(es[..n], es[n..]);
      assert es == es[..n] + es[n..];
    }
  }

  lemma SliceParts(d: seq<byte>, p: nat, a: seq<byte>, b: seq<byte>)
    requires p + |a| + |b| <= |d|
    requires d[p..p + |a| + |b|] == a + b
    ensures d[p..p + |a|] == a
    ensures d[p + |a|..p + |a| + |b|] == b
  {
    var w := d[p..p + |a| + |b|];
    assert d[p..p + |a|] == w[..|a|] && d[p + |a|..p + |a| + |b|] == w[|a|..];
  }

  lemma {:induction false} GroupLays(d: seq<byte>, p: nat, q: nat, pending: seq<bit>, group: seq<Event>, rest: seq<Event>)
    requires |group| <= |pending|
    requires forall i :: 0 <= i < |group| ==> pending[i] == group[i].tag
    requires p + |Payloads(group)| <= q <= |d|
    requires d[p..p + |Payloads(group)|] == Payloads(group)
    requires rest != [] ==> |group| == |pending|
    requires Lays(d, p + |Payloads(group)|, q, [], rest)
    ensures Lays(d, p, q, pending, group + rest)
    decreases |group|
  {
    hide BitsOf, Payloads, Lays;
    PayloadsFirst(group);
    if group == [] {
      assert group + rest == rest;
      GroupDone(d, p, q, pending, rest);
    } else {
      var first, after := group[0], group[1..];
      var p1 := p + |first.payload|;
      assert p1 + |Payloads(after)| == p + |Payloads(group)|;
      SliceParts(d, p, first.payload, Payloads(after));
      GroupLays(d, p1, q, pending[1..], after, rest);
      EventLays(d, p, q, pending, first, after + rest);
      RestoreFirst(group, rest);
    }
  }

  lemma RestoreFirst(group: seq<Event>, rest: seq<Event>)
    requires group != []
    ensures [group[0]] + (group[1..] + rest) == group + rest
  {
  }

  /** Left-over tag bits do not matter once nothing is left to read. */
  lemma GroupDone(d: seq<byte>, p: nat, q: nat, pending: seq<bit>, rest: seq<Event>)
    requires p <= q <= |d| && Lays(d, p, q, [], rest) && (rest != [] ==> pending == [])
    ensures Lays(d, p, q, pending, rest)
  {
    hide BitsOf;
  }

  lemma EventLays(d: seq<byte>, p: nat, q: nat, pending: seq<bit>, e: Event, es: seq<Event>)
    requires pending != [] && pending[0] == e.tag && p + |e.payload| <= q <= |d| && d[p..p + |e.payload|] == e.payload
    requires Lays(d, p + |e.payload|, q, pending[1..], es)
    ensures Lays(d, p, q, pending, [e] + es)
  {
    hide BitsOf;
    assert ([e] + es)[1..] == es;
  }

  lemma AssembledNothing()
    ensures Assembled([]) == [] && Payloads([]) == [] && TagByte([]) == 0
  {
  }

  lemma AssembledGroup(es: seq<Event>)
    requires es != []
    ensures var n := Min(8, |es|);
            Assembled(es) == [TagByte(es[..n])] + (Payloads(es[..n]) + Assembled(es[n..]))
  {
    hide TagByte;
    hide Payloads;
  }

  /** What the writer assembles is laid out as its readers expect. */
  lemma {:induction false} AssembledLays(d: seq<byte>, p: nat, es: seq<Event>)
    requires p + |Assembled(es)| <= |d|
    requires d[p..p + |Assembled(es)|] == Assembled(es)
    ensures Lays(d, p, p + |Assembled(es)|, [], es)
    decreases |es|
  {
    hide BitsOf;
    hide TagByte;
    hide Payloads;
    hide Assembled;
    if es == [] {
      AssembledNothing();
    } else {
      var n := Min(8, |es|);
      var group, rest := es[..n], es[n..];
      var pl, tail := Payloads(group), Assembled(rest);
      AssembledGroup(es);
      SliceParts(d, p, [TagByte(group)], pl + tail);
      assert d[p..p + 1][0] == d[p];
      SliceParts(d, p + 1, pl, tail);
      AssembledLays(d, p + 1 + |pl|, rest);
      BitsOfTagByte(group);
      GroupLays(d, p + 1, p + |Assembled(es)|, BitsOf(d[p]), group, rest);
      assert group + rest == es;
    }
  }

  // ---- The writer itself --------------------------------------------------

  lemma Regroup<T>(a: seq<T>, b: seq<T>, c: seq<T>, t: seq<T>, u: seq<T>)
    ensures a + (b + (c + t + u)) == a + (b + c) + t + u
  {
  }

  lemma {:induction false} AssembledStep(es: seq<Event>, i: nat)
    requires i < |es| && i % 8 == 0
    ensures var n := Min(i + 8, |es|);
            Assembled(es[..n]) == Assembled(es[..i]) + [TagByte(es[i..n])] + Payloads(es[i..n])
    decreases i
  {
    hide TagByte;
    hide Payloads;
    var n := Min(i + 8, |es|);
    AssembledGroup(es[..n]);
    if i == 0 {
      assert es[..n][n..] == [] && es[..n][..n] == es[0..n] == es[..n];
    } else {
      AssembledGroup(es[..i]);
      assert es[..n][..8] == es[..i][..8] == es[..8];
      assert es[..n][8..] == es[8..][..n - 8] && es[..i][8..] == es[8..][..i - 8];
      assert es[8..][i - 8..n - 8] == es[i..n];
      hide Assembled;
      AssembledStep(es[8..], i - 8);
      Regroup([TagByte(es[..8])], Payloads(es[..8]), Assembled(es[8..][..i - 8]),
              [TagByte(es[i..n])], Payloads(es[i..n]));
    }
  }

  lemma GroupStep(chunk: seq<Event>, j: nat)
    requires j < |chunk| <= 8
    ensures TagByte(chunk[..j + 1]) == TagByte(chunk[..j]) + ShiftedBit(chunk[j].tag, 7 - j)
    ensures Payloads(chunk[..j + 1]) == Payloads(chunk[..j]) + chunk[j].payload
  {
    ByteFromStep(Tags(chunk), j);
    assert Tags(chunk[..j]) == Tags(chunk)[..j] && Tags(chunk[..j + 1]) == Tags(chunk)[..j + 1];
    hide ByteFrom;
    PayloadsConcat(chunk[..j], [chunk[j]]);
    assert chunk[..j + 1] == chunk[..j] + [chunk[j]];
  }

  /** The inner loop of `_assemble`: one group's tag byte and payload. */
  method AssembleGroup(chunk: seq<Event>) returns (tagbyte: byte, payload: seq<byte>)
    requires |chunk| <= 8
    ensures tagbyte == TagByte(chunk) && payload == Payloads(chunk)
  {
    hide *;
    AssembledNothing();
    assert chunk[..0] == [];
    tagbyte := 0;
    payload := [];
    var j := 0;
    while j < |chunk|
      invariant 0 <= j <= |chunk|
      invariant tagbyte == TagByte(chunk[..j]) && payload == Payloads(chunk[..j])
    {
      GroupStep(chunk, j);
      tagbyte := tagbyte + ShiftedBit(chunk[j].tag, 7 - j);
      payload := payload + chunk[j].payload;
      j := j + 1;
    }
    assert chunk[..j] == chunk;
  }

  /** `_assemble`: pack events eight to a tag byte, payload after it. */
  method Assemble(events: seq<Event>) returns (out: seq<byte>)
    ensures out == Assembled(events)
  {
    hide TagByte;
    hide Payloads;
    hide Assembled;
    AssembledNothing();
    assert events[..0] == [];
    out := [];
    var i := 0;
    while i < |events|
      invariant 0 <= i && i % 8 == 0
      invariant out == Assembled(events[..Min(i, |events|)])
    {
      var tagbyte, payload := AssembleGroup(events[i..Min(i + 8, |events|)]);
      AssembledStep(events, i);
      out := out + [tagbyte] + payload;
      i := i + 8;
    }
    assert events[..|events|] == events;
  }
}
