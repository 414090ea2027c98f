/** The decoder accepts exactly the token streams of the format, and returns
    exactly their overlap-copy meaning. */
module LzTheorems {
  import opened Bytes
  import opened LzLayout
  import opened LzFormat

  // ---- Gamma codes, both ways ---------------------------------------------

  /** Reading past the open digits of `u` is the same as entering with accumulator `u`. */
  lemma {:induction false} ReadsOpenGamma(d: seq<byte>, end: int, q: nat, c: Cursor, u: nat, es: seq<Event>)
    returns (c1: Cursor)
    requires 1 <= u <= GAMMA_LIMIT && q <= end
    requires Lays(d, c.p, q, c.pending, OpenGamma(u) + es)
    ensures Lays(d, c1.p, q, c1.pending, es)
    ensures ReadGamma(d, end, c, 1) == ReadGamma(d, end, c1, u)
    decreases u
  {
    hide Lays, Ahead, ReadBit;
    if u == 1 {
      assert OpenGamma(u) + es == es;
      c1 := c;
    } else {
      var two := [Event(u % 2, []), Event(0, [])];
      assert OpenGamma(u) + es == OpenGamma(u / 2) + (two + es);
      var c0 := ReadsOpenGamma(d, end, q, c, u / 2, two + es);
      assert two + es == [two[0]] + ([two[1]] + es);
      ReadsBit(d, end, q, c0, u % 2, [two[1]] + es);
      var c2 := ReadBit(d, end, c0).value.1;
      ReadsBit(d, end, q, c2, 0, es);
      c1 := ReadBit(d, end, c2).value.1;
    }
  }

  lemma ReadsGamma(d: seq<byte>, end: int, q: nat, c: Cursor, v: nat, payload: seq<byte>, es: seq<Event>)
    requires GammaFits(v) && q <= end
    requires Lays(d, c.p, q, c.pending, Gamma(v, payload) + es)
    ensures ReadGamma(d, end, c, 1).Ok?
    ensures var (g, c1) := ReadGamma(d, end, c, 1).value;
            g == v && Ahead(d, c1.p, q, c1.pending, payload, es)
  {
    hide Lays, Ahead, ReadBit;
    var a, b := Event(v % 2, []), Event(1, payload);
    assert Gamma(v, payload) + es == OpenGamma(v / 2) + ([a] + ([b] + es));
    var c0 := ReadsOpenGamma(d, end, q, c, v / 2, [a] + ([b] + es));
    ReadsBit(d, end, q, c0, v % 2, [b] + es);
    ReadsEvent(d, end, q, ReadBit(d, end, c0).value.1, b, es);
  }

  lemma OpenGammaDigit(u: nat, b: bit, payload: seq<byte>)
    requires u >= 1
    ensures OpenGamma(2 * u + b) == OpenGamma(u) + [Event(b, []), Event(0, [])]
    ensures Gamma(2 * u + b, payload) == OpenGamma(u) + [Event(b, []), Event(1, payload)]
  {
    assert (2 * u + b) / 2 == u && (2 * u + b) % 2 == b;
  }

  /** Two bits read, put back in front of what follows them. */
  lemma UnreadsPair(d: seq<byte>, end: int, q: nat, c: Cursor, payload: seq<byte>, es: seq<Event>)
    requires ReadBit(d, end, c).Ok?
    requires var c1 := ReadBit(d, end, c).value.1; ReadBit(d, end, c1).Ok?
    requires var c1 := ReadBit(d, end, c).value.1;
             var c2 := ReadBit(d, end, c1).value.1;
             Ahead(d, c2.p, q, c2.pending, payload, es)
    ensures var (b, c1) := ReadBit(d, end, c).value;
            Lays(d, c.p, q, c.pending, [Event(b, []), Event(ReadBit(d, end, c1).value.0, payload)] + es)
  {
    hide Lays, Ahead;
    var (b, c1) := ReadBit(d, end, c).value;
    var (stop, c2) := ReadBit(d, end, c1).value;
    hide ReadBit;
    UnreadsEvent(d, end, q, c1, payload, es);
    UnreadsBit(d, end, q, c, [Event(stop, payload)] + es);
    assert [Event(b, []), Event(stop, payload)] + es == [Event(b, [])] + ([Event(stop, payload)] + es);
  }

  /** The events still to come of a code once its digits down to `u` are read. */
  lemma {:induction false} UnreadsGammaFrom(d: seq<byte>, end: int, q: nat, c: Cursor, u: nat, payload: seq<byte>, es: seq<Event>)
    returns (rest: seq<Event>)
    requires u >= 1 && (u == 1 || u <= GAMMA_LIMIT)
    requires ReadGamma(d, end, c, u).Ok?
    requires var c1 := ReadGamma(d, end, c, u).value.1;
             Ahead(d, c1.p, q, c1.pending, payload, es)
    ensures var v := ReadGamma(d, end, c, u).value.0;
            GammaFits(v) && OpenGamma(u) + rest == Gamma(v, payload)
    ensures Lays(d, c.p, q, c.pending, rest + es)
    decreases Fuel(end, c)
  {
    hide Lays, Ahead, ReadBit;
    var (b, c1) := ReadBit(d, end, c).value;
    var (stop, c2) := ReadBit(d, end, c1).value;
    var v1 := 2 * u + b;
    OpenGammaDigit(u, b, payload);
    hide OpenGamma, Gamma;
    if stop == 1 {
      rest := [Event(b, []), Event(1, payload)];
      UnreadsPair(d, end, q, c, payload, es);
    } else {
      var rest1 := UnreadsGammaFrom(d, end, q, c2, v1, payload, es);
      var two := [Event(b, []), Event(0, [])];
      rest := two + rest1;
      ConcatAssoc(OpenGamma(u), two, rest1);
      ConcatAssoc(two, rest1, es);
      AheadNothing(d, q, c2, rest1 + es);
      UnreadsPair(d, end, q, c, [], rest1 + es);
    }
  }

  lemma UnreadsGamma(d: seq<byte>, end: int, q: nat, c: Cursor, payload: seq<byte>, es: seq<Event>)
    requires ReadGamma(d, end, c, 1).Ok?
    requires var c1 := ReadGamma(d, end, c, 1).value.1;
             Ahead(d, c1.p, q, c1.pending, payload, es)
    ensures var v := ReadGamma(d, end, c, 1).value.0;
            GammaFits(v) && Lays(d, c.p, q, c.pending, Gamma(v, payload) + es)
  {
    var rest := UnreadsGammaFrom(d, end, q, c, 1, payload, es);
    assert OpenGamma(1) + rest == rest;
  }

  // ---- The end marker -----------------------------------------------------

  /** Below the overflow check exactly three codes end the stream, and only with 0xFF. */
  lemma EndCodes(g: nat, low: byte)
    requires g > REUSE && GammaFits(g)
    ensures IsEndCode(g, low) <==>
            low == 0xFF && (g == 0x100_0002 || g == 0x200_0002 || g == 0x300_0002)
  {
    var raw := g * 256 + low;
    assert raw < 5 * WORD;
    assert RawCode(g, low) == raw - WORD * (raw / WORD);
    assert raw / WORD == 0 || raw / WORD == 1 || raw / WORD == 2 || raw / WORD == 3 || raw / WORD == 4;
  }

  /** Without the 32-bit wrap no code would ever end the stream: the smallest is 768. */
  lemma NoMarkerWithoutWrap(g: nat, low: byte)
    requires g > REUSE
    ensures g * 256 + low > BIAS
    ensures IsEndCode(g, low) ==> g * 256 + low >= WORD
  {
  }

  /** A fresh code that is not the marker never means offset zero. */
  lemma FreshOffsetNotZero(g: nat, low: byte)
    ensures FreshOffset(g, low) == 0 <==> IsEndCode(g, low)
  {
  }

  /** From a last offset of at least one, every token leaves one at least one
      and inside the output it was used on. */
  lemma LastOffsetPositive(t: Token, out: seq<byte>, last: nat)
    requires last >= 1 && Apply(t, out, last).Ok?
    ensures Apply(t, out, last).value.1 >= 1
    ensures t.Match? ==> Apply(t, out, last).value.1 <= |out|
    ensures t.Match? && Encodable(t) ==> OffsetOf(t.offset, last) >= 1
  {
    if t.Match? && Encodable(t) && t.offset.Fresh? {
      FreshOffsetNotZero(t.offset.g, t.offset.low);
    }
  }

  // ---- Tokens, both ways --------------------------------------------------

  lemma ReadsOffset(d: seq<byte>, end: int, q: nat, c: Cursor, o: Offset, es: seq<Event>)
    requires q <= end
    requires o.Fresh? ==> o.g > REUSE && GammaFits(o.g)
    requires Lays(d, c.p, q, c.pending, OffsetEvents(o) + es)
    ensures ReadOffset(d, end, c).Ok? && ReadOffset(d, end, c).value.0 == o
    ensures var c1 := ReadOffset(d, end, c).value.1; Lays(d, c1.p, q, c1.pending, es)
  {
    hide ReadBit, ReadGamma, Lays, Gamma;
    match o
    case Reuse =>
      ReadsGamma(d, end, q, c, REUSE, [], es);
      AheadNothing(d, q, ReadGamma(d, end, c, 1).value.1, es);
    case Fresh(g, low) =>
      ReadsGamma(d, end, q, c, g, [low], es);
      ReadsPayloadByte(d, end, q, ReadGamma(d, end, c, 1).value.1, low, es);
  }

  lemma UnreadsOffset(d: seq<byte>, end: int, q: nat, c: Cursor, es: seq<Event>)
    requires ReadOffset(d, end, c).Ok?
    requires var c1 := ReadOffset(d, end, c).value.1; Lays(d, c1.p, q, c1.pending, es)
    ensures var o := ReadOffset(d, end, c).value.0;
            (o.Fresh? ==> o.g > REUSE && GammaFits(o.g)) &&
            Lays(d, c.p, q, c.pending, OffsetEvents(o) + es)
  {
    hide ReadBit, Lays, Gamma;
    var (g, c1) := ReadGamma(d, end, c, 1).value;
    if g == REUSE {
      AheadNothing(d, q, c1, es);
      UnreadsGamma(d, end, q, c, [], es);
    } else {
      UnreadsPayloadByte(d, end, q, c1, es);
      UnreadsGamma(d, end, q, c, [ReadByte(d, end, c1).value.0], es);
    }
  }

  lemma AheadNothing(d: seq<byte>, q: nat, c: Cursor, es: seq<Event>)
    ensures Ahead(d, c.p, q, c.pending, [], es) <==> Lays(d, c.p, q, c.pending, es)
  {
    hide BitsOf;
  }

  lemma ReadsLength(d: seq<byte>, end: int, q: nat, c: Cursor, l: Length, es: seq<Event>)
    requires q <= end
    requires if l.Short? then 1 <= l.n <= 3 else GammaFits(l.v)
    requires Lays(d, c.p, q, c.pending, LengthEvents(l) + es)
    ensures ReadLength(d, end, c).Ok? && ReadLength(d, end, c).value.0 == l
    ensures var c1 := ReadLength(d, end, c).value.1; Lays(d, c1.p, q, c1.pending, es)
  {
    hide ReadBit, ReadGamma, Lays, Gamma;
    var hi: bit, lo: bit := if l.Short? then l.n / 2 else 0, if l.Short? then l.n % 2 else 0;
    var more := if l.Short? then [] else Gamma(l.v, []);
    assert LengthEvents(l) + es == [Event(hi, [])] + ([Event(lo, [])] + (more + es));
    ReadsBit(d, end, q, c, hi, [Event(lo, [])] + (more + es));
    var c1 := ReadBit(d, end, c).value.1;
    ReadsBit(d, end, q, c1, lo, more + es);
    var c2 := ReadBit(d, end, c1).value.1;
    if l.Short? {
      assert more + es == es;
    } else {
      ReadsGamma(d, end, q, c2, l.v, [], es);
      AheadNothing(d, q, ReadGamma(d, end, c2, 1).value.1, es);
    }
  }

  lemma UnreadsLength(d: seq<byte>, end: int, q: nat, c: Cursor, es: seq<Event>)
    requires ReadLength(d, end, c).Ok?
    requires var c1 := ReadLength(d, end, c).value.1; Lays(d, c1.p, q, c1.pending, es)
    ensures var l := ReadLength(d, end, c).value.0;
            (if l.Short? then 1 <= l.n <= 3 else GammaFits(l.v)) &&
            Lays(d, c.p, q, c.pending, LengthEvents(l) + es)
  {
    hide ReadBit, Lays, Gamma;
    var (hi, c1) := ReadBit(d, end, c).value;
    var (lo, c2) := ReadBit(d, end, c1).value;
    var l := ReadLength(d, end, c).value.0;
    var more := [];
    if hi == 0 && lo == 0 {
      AheadNothing(d, q, ReadGamma(d, end, c2, 1).value.1, es);
      UnreadsGamma(d, end, q, c2, [], es);
      more := Gamma(l.v, []);
    } else {
      assert more + es == es;
    }
    UnreadsBit(d, end, q, c1, more + es);
    UnreadsBit(d, end, q, c, [Event(lo, [])] + (more + es));
    assert LengthEvents(l) + es == [Event(hi, [])] + ([Event(lo, [])] + (more + es));
  }

  /** Reading the events of a token gives back that token. */
  lemma ReadsToken(d: seq<byte>, end: int, q: nat, c: Cursor, t: Token, es: seq<Event>)
    requires q <= end && Encodable(t)
    requires Lays(d, c.p, q, c.pending, TokenEvents(t) + es)
    ensures ReadStep(d, end, c).Ok? && ReadStep(d, end, c).value.0 == Item(t)
    ensures var c1 := ReadStep(d, end, c).value.1; Lays(d, c1.p, q, c1.pending, es)
  {
    hide ReadBit, ReadOffset, ReadLength, Lays, OffsetEvents, LengthEvents, IsEndCode;
    match t
    case Literal(b) =>
      ReadsEvent(d, end, q, c, Event(1, [b]), es);
      ReadsPayloadByte(d, end, q, ReadBit(d, end, c).value.1, b, es);
    case Match(o, l) =>
      var oe, le := OffsetEvents(o), LengthEvents(l);
      assert TokenEvents(t) + es == [Event(0, [])] + (oe + (le + es));
      ReadsBit(d, end, q, c, 0, oe + (le + es));
      var c1 := ReadBit(d, end, c).value.1;
      ReadsOffset(d, end, q, c1, o, le + es);
      ReadsLength(d, end, q, ReadOffset(d, end, c1).value.1, l, es);
  }

  lemma ReadsMarker(d: seq<byte>, end: int, q: nat, c: Cursor, g: nat, es: seq<Event>)
    requires q <= end && IsMarker(g)
    requires Lays(d, c.p, q, c.pending, MarkerEvents(g) + es)
    ensures ReadStep(d, end, c).Ok? && ReadStep(d, end, c).value.0 == End(g)
    ensures var c1 := ReadStep(d, end, c).value.1; Lays(d, c1.p, q, c1.pending, es)
  {
    hide ReadBit, ReadOffset, ReadLength, Lays, Gamma, IsEndCode;
    assert MarkerEvents(g) + es == [Event(0, [])] + (OffsetEvents(Fresh(g, 0xFF)) + es);
    ReadsBit(d, end, q, c, 0, OffsetEvents(Fresh(g, 0xFF)) + es);
    ReadsOffset(d, end, q, ReadBit(d, end, c).value.1, Fresh(g, 0xFF), es);
  }

  /** Whatever one turn of the loop read is the encoding of what it returned. */
  lemma UnreadsStep(d: seq<byte>, end: int, q: nat, c: Cursor, es: seq<Event>)
    requires ReadStep(d, end, c).Ok?
    requires var c1 := ReadStep(d, end, c).value.1; Lays(d, c1.p, q, c1.pending, es)
    ensures var step := ReadStep(d, end, c).value.0;
            if step.Item? then Encodable(step.token) && Lays(d, c.p, q, c.pending, TokenEvents(step.token) + es)
            else IsMarker(step.g) && Lays(d, c.p, q, c.pending, MarkerEvents(step.g) + es)
  {
    hide ReadBit, ReadOffset, ReadLength, Lays, Gamma, LengthEvents, IsEndCode;
    var (literal, c1) := ReadBit(d, end, c).value;
    if literal == 1 {
      UnreadsPayloadByte(d, end, q, c1, es);
      UnreadsEvent(d, end, q, c, [ReadByte(d, end, c1).value.0], es);
    } else {
      var (o, c2) := ReadOffset(d, end, c1).value;
      if o.Fresh? && IsEndCode(o.g, o.low) {
        UnreadsOffset(d, end, q, c1, es);
        EndCodes(o.g, o.low);
        UnreadsBit(d, end, q, c, OffsetEvents(o) + es);
        assert MarkerEvents(o.g) + es == [Event(0, [])] + (OffsetEvents(o) + es);
      } else {
        UnreadsLength(d, end, q, c2, es);
        var l := ReadLength(d, end, c2).value.0;
        UnreadsOffset(d, end, q, c1, LengthEvents(l) + es);
        UnreadsBit(d, end, q, c, OffsetEvents(o) + (LengthEvents(l) + es));
        assert TokenEvents(Match(o, l)) + es
            == [Event(0, [])] + (OffsetEvents(o) + (LengthEvents(l) + es));
      }
    }
  }

  // ---- Whole streams ------------------------------------------------------

  /** Bytes `p..q` of `d`, read with `pending` tag bits left, are a token stream
      that means `out`. */
  ghost predicate IsStreamFor(d: seq<byte>, q: nat, c: Cursor, out0: seq<byte>, last: nat, out: seq<byte>) {
    exists ts: seq<Token>, g: nat ::
      AllEncodable(ts) && IsMarker(g) &&
      Lays(d, c.p, q, c.pending, StreamEvents(ts, g)) &&
      Meaning(ts, out0, last) == Ok(out)
  }

  /** The decoder is a left inverse of the format: any laid-out token stream
      decodes to its meaning, errors included, and ends just past the marker. */
  lemma {:induction false} DecodesStream(d: seq<byte>, end: int, q: nat, c: Cursor,
                                         ts: seq<Token>, g: nat, out: seq<byte>, last: nat)
    requires q <= end && AllEncodable(ts) && IsMarker(g)
    requires Lays(d, c.p, q, c.pending, StreamEvents(ts, g))
    ensures DepackFrom(d, end, c, out, last) ==
            match Meaning(ts, out, last) case Ok(o) => Ok((o, q)) case Err(e) => Err(e)
    decreases |ts|
  {
    hide ReadStep, TokenEvents, MarkerEvents, Apply, Encodable, IsEndCode, Lays;
    if ts == [] {
      assert MarkerEvents(g) + [] == StreamEvents(ts, g);
      ReadsMarker(d, end, q, c, g, []);
      LaysNothing(d, q, ReadStep(d, end, c).value.1);
    } else {
      ReadsToken(d, end, q, c, ts[0], StreamEvents(ts[1..], g));
      var c1 := ReadStep(d, end, c).value.1;
      if Apply(ts[0], out, last).Ok? {
        var (out1, last1) := Apply(ts[0], out, last).value;
        DecodesStream(d, end, q, c1, ts[1..], g, out1, last1);
      }
    }
  }

  lemma LaysNothing(d: seq<byte>, q: nat, c: Cursor)
    ensures Lays(d, c.p, q, c.pending, []) <==> c.p == q <= |d|
  {
  }

  /** Every successful run decoded some token stream. */
  lemma {:induction false} SuccessIsStream(d: seq<byte>, end: int, c: Cursor, out: seq<byte>, last: nat)
    returns (ts: seq<Token>, g: nat)
    requires DepackFrom(d, end, c, out, last).Ok?
    ensures AllEncodable(ts) && IsMarker(g)
    ensures var (o, q) := DepackFrom(d, end, c, out, last).value;
            Lays(d, c.p, q, c.pending, StreamEvents(ts, g)) && Meaning(ts, out, last) == Ok(o)
    decreases Fuel(end, c)
  {
    hide ReadStep, TokenEvents, MarkerEvents, Apply, Encodable, IsEndCode, Lays;
    var (o, q) := DepackFrom(d, end, c, out, last).value;
    var (step, c1) := ReadStep(d, end, c).value;
    match step
    case End(marker) =>
      ts, g := [], marker;
      ReadWithin(d, end, c);
      LaysNothing(d, q, c1);
      UnreadsStep(d, end, q, c, []);
      assert MarkerEvents(g) + [] == StreamEvents(ts, g);
    case Item(t) =>
      var (out1, last1) := Apply(t, out, last).value;
      var ts1, g1 := SuccessIsStream(d, end, c1, out1, last1);
      UnreadsStep(d, end, q, c, StreamEvents(ts1, g1));
      ts, g := [t] + ts1, g1;
      assert ts[1..] == ts1;
  }

  /** A read that reaches the marker has just read a byte of the data. */
  lemma ReadWithin(d: seq<byte>, end: int, c: Cursor)
    requires ReadStep(d, end, c).Ok? && ReadStep(d, end, c).value.0.End?
    ensures ReadStep(d, end, c).value.1.p <= |d| && ReadStep(d, end, c).value.1.p <= end
  {
    hide ReadBit, ReadGamma, ReadLength;
  }

  /** Main result: `depack` succeeds exactly on the token streams of the format,
      with their meaning and the position just past their marker. */
  lemma DepackedIff(d: seq<byte>, pos: nat, end: int, out: seq<byte>, q: nat)
    ensures Depacked(d, pos, end) == Ok((out, q)) <==>
            q <= end && IsStreamFor(d, q, Cursor(pos, []), [], 1, out)
  {
    hide DepackFrom, Lays, StreamEvents, Meaning, IsEndCode;
    var c := Cursor(pos, []);
    if Depacked(d, pos, end) == Ok((out, q)) {
      var ts, g := SuccessIsStream(d, end, c, [], 1);
      EndsWithin(d, end, c, [], 1);
    }
    if q <= end && IsStreamFor(d, q, c, [], 1, out) {
      var ts: seq<Token>, g: nat :|
        AllEncodable(ts) && IsMarker(g) &&
        Lays(d, c.p, q, c.pending, StreamEvents(ts, g)) && Meaning(ts, [], 1) == Ok(out);
      DecodesStream(d, end, q, c, ts, g, [], 1);
    }
  }

  lemma {:induction false} EndsWithin(d: seq<byte>, end: int, c: Cursor, out: seq<byte>, last: nat)
    requires DepackFrom(d, end, c, out, last).Ok?
    ensures DepackFrom(d, end, c, out, last).value.1 <= end
    decreases Fuel(end, c)
  {
    hide ReadStep, Apply;
    var (step, c1) := ReadStep(d, end, c).value;
    match step
    case End(_) => ReadWithin(d, end, c);
    case Item(t) =>
      var (out1, last1) := Apply(t, out, last).value;
      EndsWithin(d, end, c1, out1, last1);
  }

  // ---- Whole runs ---------------------------------------------------------

  /** Some turn of the run from here meets a match whose offset is zero. */
  ghost predicate MeetsZeroOffset(d: seq<byte>, end: int, c: Cursor, out: seq<byte>, last: nat)
    decreases Fuel(end, c)
  {
    hide IsEndCode;
    match ReadStep(d, end, c)
    case Err(_) => false
    case Ok((step, c1)) =>
      && step.Item?
      && var next := Apply(step.token, out, last);
         || (step.token.Match? && OffsetOf(step.token.offset, last) == 0)
         || (next.Ok? && MeetsZeroOffset(d, end, c1, next.value.0, next.value.1))
  }

  lemma ReadOffsetIsCode(d: seq<byte>, end: int, c: Cursor)
    ensures var r := ReadStep(d, end, c);
            r.Ok? && r.value.0.Item? && r.value.0.token.Match? && r.value.0.token.offset.Fresh? ==>
              !IsEndCode(r.value.0.token.offset.g, r.value.0.token.offset.low)
  {
    hide ReadBit, ReadByte, ReadOffset, ReadLength, IsEndCode;
  }

  lemma {:induction false} ZeroOffsetNotMetFrom(d: seq<byte>, end: int, c: Cursor, out: seq<byte>, last: nat)
    requires last >= 1
    ensures !MeetsZeroOffset(d, end, c, out, last)
    decreases Fuel(end, c)
  {
    hide ReadStep, IsEndCode;
    ReadOffsetIsCode(d, end, c);
    var r := ReadStep(d, end, c);
    if r.Ok? && r.value.0.Item? {
      var t := r.value.0.token;
      if t.Match? && t.offset.Fresh? {
        FreshOffsetNotZero(t.offset.g, t.offset.low);
      }
      var next := Apply(t, out, last);
      if next.Ok? {
        LastOffsetPositive(t, out, last);
        ZeroOffsetNotMetFrom(d, end, r.value.1, next.value.0, next.value.1);
      }
    }
  }

  /** Whatever the input, no turn of a decoder's run, which starts with a last
      offset of one, ever meets offset zero: that half of its check is dead, and a
      bad offset always means one that reaches before the output. */
  lemma ZeroOffsetNeverMet(d: seq<byte>, pos: nat, end: int)
    ensures !MeetsZeroOffset(d, end, Cursor(pos, []), [], 1)
  {
    hide MeetsZeroOffset;
    ZeroOffsetNotMetFrom(d, end, Cursor(pos, []), [], 1);
  }

  /** A successful result depends only on the bytes from `pos` to the position
      it returns: neither a later `end` nor any other byte changes it. */
  lemma DepackedIsLocal(d: seq<byte>, pos: nat, end: int, d2: seq<byte>, end2: int)
    requires Depacked(d, pos, end).Ok?
    requires var q := Depacked(d, pos, end).value.1;
             q <= end2 && q <= |d2| && (pos <= q <= |d| ==> d[pos..q] == d2[pos..q])
    ensures Depacked(d2, pos, end2) == Depacked(d, pos, end)
  {
    hide DepackFrom, Lays, StreamEvents, Meaning, IsEndCode;
    var (out, q) := Depacked(d, pos, end).value;
    var ts, g := SuccessIsStream(d, end, Cursor(pos, []), [], 1);
    LaysBounds(d, pos, q, [], StreamEvents(ts, g));
    forall i | pos <= i < q
      ensures d[i] == d2[i]
    {
      assert d[pos..q][i - pos] == d2[pos..q][i - pos];
    }
    LaysIsLocal(d, d2, pos, q, [], StreamEvents(ts, g));
    DecodesStream(d2, end2, q, Cursor(pos, []), ts, g, [], 1);
  }

  lemma LaysBounds(d: seq<byte>, p: nat, q: nat, pending: seq<bit>, es: seq<Event>)
    requires Lays(d, p, q, pending, es)
    ensures p <= q <= |d|
  {
    hide BitsOf;
  }

  lemma {:induction false} LaysIsLocal(d: seq<byte>, d2: seq<byte>, p: nat, q: nat, pending: seq<bit>, es: seq<Event>)
    requires Lays(d, p, q, pending, es)
    requires q <= |d2| && forall i :: p <= i < q <= |d| ==> d[i] == d2[i]
    ensures Lays(d2, p, q, pending, es)
    decreases |es|, if pending == [] then 1 else 0
  {
    hide BitsOf;
    if es == [] {
    } else if pending == [] {
      LaysIsLocal(d, d2, p + 1, q, BitsOf(d[p]), es);
    } else {
      var k := p + |es[0].payload|;
      assert d[p..k] == d2[p..k];
      LaysIsLocal(d, d2, k, q, pending[1..], es[1..]);
    }
  }
}
