/** The writer's own reference decoder (`_shadow_decode` in dt2/aplib.py): a
    counted bit reader instead of a sentinel register, literals and one
    terminator only. */
module ShadowDecoder {
  import opened Bytes
  import opened LzLayout
  import opened LzFormat
  import opened LzTheorems
  import opened LzDecoder
  import opened Aplib

  /** The nested `read_byte` and `getbit`: a position, a tag byte shifted left as
      it is used, and how many of its bits are left. */
  class CountedReader {
    const comp: seq<byte>
    var pos: nat
    var tag: byte
    var bitcount: nat
    ghost var pending: seq<bit>

    ghost predicate Valid()
      reads this
    {
      pos <= |comp| && bitcount == |pending| <= 7 && BitsOf(tag) == pending + Zeros(8 - |pending|)
    }

    ghost function At(): Cursor
      reads this
    {
      Cursor(pos, pending)
    }

    constructor (comp: seq<byte>)
      ensures Valid() && this.comp == comp && At() == Cursor(0, [])
    {
      this.comp, pos, tag, bitcount, pending := comp, 0, 0, 0, [];
    }

    method Byte() returns (r: Result<byte, Fault>)
      requires Valid()
      modifies this`pos
      ensures Valid()
      ensures if ReadByte(comp, |comp| + 1, old(At())).Ok?
              then r.Ok? && ReadByte(comp, |comp| + 1, old(At())) == Ok((r.value, At()))
              else r.Err? && ReadByte(comp, |comp| + 1, old(At())) == Err(r.error)
    {
      if pos >= |comp| {
        return Err(IndexOutOfRange);
      }
      pos := pos + 1;
      return Ok(comp[pos - 1]);
    }

    method Bit() returns (r: Result<bit, Fault>)
      requires Valid()
      modifies this
      ensures Valid()
      ensures if ReadBit(comp, |comp| + 1, old(At())).Ok?
              then r.Ok? && ReadBit(comp, |comp| + 1, old(At())) == Ok((r.value, At()))
              else r.Err? && ReadBit(comp, |comp| + 1, old(At())) == Err(r.error)
    {
      ghost var bits := pending;
      if bitcount == 0 {
        var b :- Byte();
        tag, bitcount := b, 8;
        bits := BitsOf(b);
      }
      hide Zeros, BitsOf;
      ShiftCounted(tag, bits);
      var bit := tag / 0x80;
      tag := tag as int * 2 % 0x100;
      bitcount := bitcount - 1;
      pending := bits[1..];
      return Ok(bit);
    }
  }

  /** Doubling the tag byte returns its first bit and keeps the others. */
  lemma ShiftCounted(tag: byte, bits: seq<bit>)
    requires 1 <= |bits| <= 8 && BitsOf(tag) == bits + Zeros(8 - |bits|)
    ensures tag / 0x80 == bits[0]
    ensures BitsOf(tag as int * 2 % 0x100) == bits[1..] + Zeros(9 - |bits|)
  {
    hide Zeros;
    DropZero(bits);
    ShiftBits(tag, 0);
    hide BitsOf;
    assert tag as int * 2 / 0x100 == tag / 0x80;
  }

  lemma DropZero(bits: seq<bit>)
    requires 1 <= |bits| <= 8
    ensures (bits + Zeros(8 - |bits|))[0] == bits[0]
    ensures (bits + Zeros(8 - |bits|))[1..] + [0] == bits[1..] + Zeros(9 - |bits|)
    ensures |bits| == 8 ==> bits + Zeros(0) == bits
  {
  }

  // ---- As a function of the position --------------------------------------

  function ShadowGamma(d: seq<byte>, c: Cursor, v: nat): (r: Result<(nat, Cursor), Fault>)
    ensures r.Ok? ==> Fuel(|d| + 1, r.value.1) < Fuel(|d| + 1, c)
    decreases Fuel(|d| + 1, c)
  {
    var (b, c1) :- ReadBit(d, |d| + 1, c);
    var (stop, c2) :- ReadBit(d, |d| + 1, c1);
    if stop == 1 then Ok((2 * v + b, c2)) else ShadowGamma(d, c2, 2 * v + b)
  }

  function ShadowFrom(d: seq<byte>, c: Cursor, out: seq<byte>): Result<seq<byte>, Fault>
    decreases Fuel(|d| + 1, c)
  {
    var (literal, c1) :- ReadBit(d, |d| + 1, c);
    if literal == 1 then
      var (b, c2) :- ReadByte(d, |d| + 1, c1);
      ShadowFrom(d, c2, out + [b])
    else
      var (g, c2) :- ShadowGamma(d, c1, 1);
      if g != TERMINATOR_GAMMA then Err(NotATerminator)
      else
        var (trailer, _) :- ReadByte(d, |d| + 1, c2);
        if trailer != TERMINATOR_TRAILER then Err(NotATerminator) else Ok(out)
  }

  function ShadowDecoded(comp: seq<byte>): Result<seq<byte>, Fault> {
    ShadowFrom(comp, Cursor(0, []), [])
  }

  /** The inner loop of `_shadow_decode`: a gamma code, with no overflow check. */
  method ShadowGammaCode(s: CountedReader) returns (r: Result<nat, Fault>)
    requires s.Valid()
    modifies s
    ensures s.Valid()
    ensures if ShadowGamma(s.comp, old(s.At()), 1).Ok?
            then r.Ok? && ShadowGamma(s.comp, old(s.At()), 1) == Ok((r.value, s.At()))
            else r.Err? && ShadowGamma(s.comp, old(s.At()), 1) == Err(r.error)
  {
    hide ReadBit;
    var result: nat := 1;
    while true
      invariant s.Valid()
      invariant ShadowGamma(s.comp, old(s.At()), 1) == ShadowGamma(s.comp, s.At(), result)
      decreases Fuel(|s.comp| + 1, s.At())
    {
      var b :- s.Bit();
      result := 2 * result + b;
      var stop :- s.Bit();
      if stop == 1 {
        return Ok(result);
      }
    }
  }

  /** `_shadow_decode` */
  method ShadowDecode(comp: seq<byte>) returns (r: Result<seq<byte>, Fault>)
    ensures r == ShadowDecoded(comp)
  {
    hide ReadBit, ReadByte, ShadowGamma;
    var s := new CountedReader(comp);
    var out: seq<byte> := [];
    while true
      invariant s.Valid() && fresh(s) && s.comp == comp
      invariant ShadowFrom(comp, s.At(), out) == ShadowDecoded(comp)
      decreases Fuel(|comp| + 1, s.At())
    {
      ghost var start := s.At();
      var literal :- s.Bit();
      if literal == 1 {
        ReadByteFuel(comp, s.At());
        var b :- s.Byte();
        out := out + [b];
        continue;
      }
      var result :- ShadowGammaCode(s);
      if result != TERMINATOR_GAMMA {
        return Err(NotATerminator);
      }
      var trailer :- s.Byte();
      if trailer != TERMINATOR_TRAILER {
        return Err(NotATerminator);
      }
      return Ok(out);
    }
  }

  lemma ReadByteFuel(d: seq<byte>, c: Cursor)
    ensures var r := ReadByte(d, |d| + 1, c);
            r.Ok? ==> Fuel(|d| + 1, r.value.1) < Fuel(|d| + 1, c)
  {
  }

  // ---- The two decoders agree ---------------------------------------------

  lemma {:induction false} ShadowGammaIsGamma(d: seq<byte>, c: Cursor, v: nat)
    requires ShadowGamma(d, c, v).Ok? && ShadowGamma(d, c, v).value.0 / 2 <= GAMMA_LIMIT
    ensures ShadowGamma(d, c, v).value.0 >= 2 * v
    ensures ReadGamma(d, |d| + 1, c, v) == ShadowGamma(d, c, v)
    decreases Fuel(|d| + 1, c)
  {
    hide ReadBit;
    var (b, c1) := ReadBit(d, |d| + 1, c).value;
    var (stop, c2) := ReadBit(d, |d| + 1, c1).value;
    if stop == 1 {
    } else {
      ShadowGammaIsGamma(d, c2, 2 * v + b);
    }
  }

  lemma {:induction false} ShadowAgreesFrom(d: seq<byte>, c: Cursor, out: seq<byte>, last: nat)
    requires ShadowFrom(d, c, out).Ok?
    ensures DepackFrom(d, |d| + 1, c, out, last).Ok?
    ensures DepackFrom(d, |d| + 1, c, out, last).value.0 == ShadowFrom(d, c, out).value
    decreases Fuel(|d| + 1, c)
  {
    hide ReadBit, ReadGamma, ShadowGamma, ReadLength;
    var (literal, c1) := ReadBit(d, |d| + 1, c).value;
    if literal == 1 {
      var (b, c2) := ReadByte(d, |d| + 1, c1).value;
      ShadowAgreesFrom(d, c2, out + [b], last);
    } else {
      var (g, c2) := ShadowGamma(d, c1, 1).value;
      ShadowGammaIsGamma(d, c1, 1);
      EndCodes(g, TERMINATOR_TRAILER);
      hide IsEndCode;
    }
  }

  /** Whatever the counted reader's decoder accepts, the sentinel register's
      decoder accepts too, with the same output: the two readers see one bit stream. */
  lemma ShadowAgrees(comp: seq<byte>)
    requires ShadowDecoded(comp).Ok?
    ensures exists q :: Depacked(comp, 0, |comp|) == Ok((ShadowDecoded(comp).value, q))
  {
    hide DepackFrom, ShadowFrom;
    ShadowAgreesFrom(comp, Cursor(0, []), [], 1);
    var (out, q) := Depacked(comp, 0, |comp| + 1).value;
    DepackedIff(comp, 0, |comp| + 1, out, q);
    StreamEndsInside(comp, q, Cursor(0, []), [], 1, out);
    DepackedIff(comp, 0, |comp|, out, q);
  }

  lemma StreamEndsInside(d: seq<byte>, q: nat, c: Cursor, out0: seq<byte>, last: nat, out: seq<byte>)
    requires IsStreamFor(d, q, c, out0, last, out)
    ensures c.p <= q <= |d|
  {
    hide StreamEvents, Meaning, IsEndCode;
    var ts: seq<Token>, g: nat :|
      AllEncodable(ts) && IsMarker(g) && Lays(d, c.p, q, c.pending, StreamEvents(ts, g)) && Meaning(ts, out0, last) == Ok(out);
    LaysBounds(d, c.p, q, c.pending, StreamEvents(ts, g));
  }

  lemma {:induction false} ReadsShadowGamma(d: seq<byte>, c: Cursor, v: nat)
    requires ReadGamma(d, |d| + 1, c, v).Ok?
    ensures ShadowGamma(d, c, v) == ReadGamma(d, |d| + 1, c, v)
    decreases Fuel(|d| + 1, c)
  {
    hide ReadBit;
    var (b, c1) := ReadBit(d, |d| + 1, c).value;
    var (stop, c2) := ReadBit(d, |d| + 1, c1).value;
    if stop == 1 {
    } else {
      ReadsShadowGamma(d, c2, 2 * v + b);
    }
  }

  lemma {:induction false} ShadowReadsLiterals(d: seq<byte>, q: nat, c: Cursor, data: seq<byte>, out: seq<byte>)
    requires Lays(d, c.p, q, c.pending, StreamEvents(Literals(data), TERMINATOR_GAMMA))
    requires q <= |d|
    ensures ShadowFrom(d, c, out) == Ok(out + data)
    decreases |data|
  {
    hide ReadBit, ReadGamma, ShadowGamma, Lays, Gamma, GammaFits, ShadowFrom;
    if data == [] {
      ShadowReadsMarker(d, q, c, out);
      assert out + data == out;
    } else {
      assert Literals(data)[1..] == Literals(data[1..]);
      ShadowReadsOne(d, q, c, data[0], StreamEvents(Literals(data[1..]), TERMINATOR_GAMMA), out);
      var c2 := ReadByte(d, |d| + 1, ReadBit(d, |d| + 1, c).value.1).value.1;
      ShadowReadsLiterals(d, q, c2, data[1..], out + [data[0]]);
      assert out + [data[0]] + data[1..] == out + data;
    }
  }

  /** One literal of the stream. */
  lemma ShadowReadsOne(d: seq<byte>, q: nat, c: Cursor, b: byte, es: seq<Event>, out: seq<byte>)
    requires q <= |d| && Lays(d, c.p, q, c.pending, [Event(1, [b])] + es)
    ensures ReadBit(d, |d| + 1, c).Ok? && ReadByte(d, |d| + 1, ReadBit(d, |d| + 1, c).value.1).Ok?
    ensures var c2 := ReadByte(d, |d| + 1, ReadBit(d, |d| + 1, c).value.1).value.1;
            Lays(d, c2.p, q, c2.pending, es) && ShadowFrom(d, c, out) == ShadowFrom(d, c2, out + [b])
  {
    hide ReadBit, ShadowGamma, Lays;
    ReadsEvent(d, |d| + 1, q, c, Event(1, [b]), es);
    ReadsPayloadByte(d, |d| + 1, q, ReadBit(d, |d| + 1, c).value.1, b, es);
  }

  /** The end of the stream. */
  lemma ShadowReadsMarker(d: seq<byte>, q: nat, c: Cursor, out: seq<byte>)
    requires q <= |d| && Lays(d, c.p, q, c.pending, StreamEvents([], TERMINATOR_GAMMA))
    ensures ShadowFrom(d, c, out) == Ok(out)
  {
    hide ReadBit, ReadGamma, ShadowGamma, Lays, Gamma, GammaFits;
    MarkerIsTerminator();
    var rest := Gamma(TERMINATOR_GAMMA, [0xFF]);
    assert MarkerEvents(TERMINATOR_GAMMA) == [Event(0, [])] + (rest + []);
    ReadsBit(d, |d| + 1, q, c, 0, rest + []);
    var c1 := ReadBit(d, |d| + 1, c).value.1;
    ReadsGamma(d, |d| + 1, q, c1, TERMINATOR_GAMMA, [0xFF], []);
    ReadsShadowGamma(d, c1, 1);
    ReadsPayloadByte(d, |d| + 1, q, ReadGamma(d, |d| + 1, c1, 1).value.1, 0xFF, []);
  }

  /** `_shadow_decode(pack(d)) == d` for every `d`. */
  lemma ShadowRoundTrip(data: seq<byte>)
    ensures ShadowDecoded(Packed(data)) == Ok(data)
  {
    hide Assembled, StreamEvents, ShadowFrom, Lays;
    var d := Packed(data);
    assert d[0..|d|] == d;
    AssembledLays(d, 0, StoredEvents(data));
    ShadowReadsLiterals(d, |d|, Cursor(0, []), data, []);
    assert [] + data == data;
  }
}
