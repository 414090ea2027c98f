/** dt2/elz.py as it is written: a bit reader that keeps its place in a nine-bit
    sentinel register, and the decoding loop on top of it. */
module LzDecoder {
  import opened Bytes
  import opened LzLayout
  import opened LzFormat
  import opened LzTheorems

  /** The register's low byte: the unread bits, then the sentinel one, then
      zeros. All zeros (before the first fetch) also means nothing is unread. */
  ghost predicate Register(tag: int, pending: seq<bit>) {
    && 0 <= tag < 0x200
    && |pending| <= 7
    && ((tag % 0x100 == 0 && pending == []) || BitsOf(tag % 0x100) == pending + [1] + Zeros(7 - |pending|))
  }

  /** Shifting the register: its low byte empties exactly when no bit is left to
      read, and otherwise bit 8 is the next bit. */
  lemma Shift(tag: int, pending: seq<bit>)
    requires Register(tag, pending)
    ensures var t := tag * 2 % 0x200;
            if pending == [] then t % 0x100 == 0
            else t % 0x100 != 0 && t / 0x100 == pending[0] && Register(t, pending[1..])
  {
    hide BitsOf, Zeros;
    var low: byte := tag % 0x100;
    DropHigh(tag);
    if low == 0 && pending == [] {
    } else {
      ShiftHeld(low, pending);
    }
  }

  lemma DropHigh(tag: nat)
    ensures tag * 2 % 0x200 == 2 * (tag % 0x100)
  {
    DivModUnique(tag * 2, 0x200, tag / 0x100, 2 * (tag % 0x100));
  }

  lemma ShiftHeld(low: byte, pending: seq<bit>)
    requires |pending| <= 7 && BitsOf(low) == pending + [1] + Zeros(7 - |pending|)
    ensures var t := 2 * low as int;
            if pending == [] then t % 0x100 == 0
            else t % 0x100 != 0 && t / 0x100 == pending[0] && Register(t, pending[1..])
  {
    var t := 2 * low as int;
    ShiftBits(low, 0);
    hide Zeros;
    if pending == [] {
      AllZeroBits(t % 0x100);
    } else {
      Slide(BitsOf(low), pending);
      SomeBit(t % 0x100, |pending| - 1);
    }
  }

  lemma AllZeroBits(x: byte)
    requires BitsOf(x) == [0, 0, 0, 0, 0, 0, 0, 0]
    ensures x == 0
  {
    ByteOfBits(x);
    hide BitsOf;
  }

  lemma SomeBit(x: byte, i: nat)
    requires i < 8 && BitsOf(x)[i] == 1
    ensures x != 0
  {
  }

  lemma Slide(bits: seq<bit>, pending: seq<bit>)
    requires 1 <= |pending| <= 7 && bits == pending + [1] + Zeros(7 - |pending|)
    ensures bits[0] == pending[0]
    ensures var rest := bits[1..] + [0];
            rest == pending[1..] + [1] + Zeros(8 - |pending|) && rest[|pending| - 1] == 1
  {
  }

  /** A fetched tag byte, shifted in with the sentinel behind it. */
  lemma Refill(b: byte)
    ensures Register(2 * b as int + 1, BitsOf(b)[1..]) && b / 128 == BitsOf(b)[0]
  {
    ShiftBits(b, 1);
    assert BitsOf(b)[1..] + [1] == BitsOf(b)[1..] + [1] + Zeros(0);
  }

  /** `Bits`: a position in the data and the sentinel register. */
  class Bits {
    const d: seq<byte>
    const end: int
    var p: nat
    var tag: int
    ghost var pending: seq<bit>

    ghost predicate Valid()
      reads this
    {
      Register(tag, pending)
    }

    ghost function At(): Cursor
      reads this
    {
      Cursor(p, pending)
    }

    constructor (data: seq<byte>, pos: nat, end: int)
      ensures Valid() && d == data && this.end == end && At() == Cursor(pos, [])
    {
      this.d, this.p, this.end := data, pos, end;
      tag, pending := 0, [];
    }

    method Byte() returns (r: Result<byte, Fault>)
      modifies this`p
      ensures if ReadByte(d, end, old(At())).Ok?
              then r.Ok? && ReadByte(d, end, old(At())) == Ok((r.value, At()))
              else r.Err? && ReadByte(d, end, old(At())) == Err(r.error)
    {
      if p >= end {
        return Err(EndOfInput);
      }
      if p >= |d| {
        return Err(IndexOutOfRange);
      }
      var v := d[p];
      p := p + 1;
      return Ok(v);
    }

    method Bit() returns (r: Result<bit, Fault>)
      requires Valid()
      modifies this
      ensures Valid()
      ensures if ReadBit(d, end, old(At())).Ok?
              then r.Ok? && ReadBit(d, end, old(At())) == Ok((r.value, At()))
              else r.Err? && ReadBit(d, end, old(At())) == Err(r.error)
    {
      Shift(tag, pending);
      tag := tag * 2 % 0x200;
      if tag % 0x100 == 0 {
        var b :- Byte();
        Refill(b);
        tag := 2 * b as int + 1;
        pending := BitsOf(b)[1..];
        return Ok(b / 128);
      }
      pending := pending[1..];
      return Ok(tag / 0x100);
    }

    method GammaCode() returns (r: Result<nat, Fault>)
      requires Valid()
      modifies this
      ensures Valid()
      ensures if ReadGamma(d, end, old(At()), 1).Ok?
              then r.Ok? && ReadGamma(d, end, old(At()), 1) == Ok((r.value, At()))
              else r.Err? && ReadGamma(d, end, old(At()), 1) == Err(r.error)
    {
      hide ReadBit;
      var v := 1;
      while true
        invariant Valid() && v >= 1
        invariant ReadGamma(d, end, old(At()), 1) == ReadGamma(d, end, At(), v)
        decreases Fuel(end, At())
      {
        var b :- Bit();
        v := 2 * v + b;
        var stop :- Bit();
        if stop == 1 {
          return Ok(v);
        }
        if v > GAMMA_LIMIT {
          return Err(GammaOverflow);
        }
      }
    }
  }

  /** The code after a match bit: a gamma value and, unless it says reuse, a byte. */
  method MatchOffset(s: Bits) returns (r: Result<Offset, Fault>)
    requires s.Valid()
    modifies s
    ensures s.Valid()
    ensures if ReadOffset(s.d, s.end, old(s.At())).Ok?
            then r.Ok? && ReadOffset(s.d, s.end, old(s.At())) == Ok((r.value, s.At()))
            else r.Err? && ReadOffset(s.d, s.end, old(s.At())) == Err(r.error)
  {
    hide ReadGamma, ReadByte;
    var g :- s.GammaCode();
    if g == REUSE {
      return Ok(Reuse);
    }
    var low :- s.Byte();
    return Ok(Fresh(g, low));
  }

  /** Two bits for a short length, or 00 and a gamma code. */
  method MatchLength(s: Bits) returns (r: Result<Length, Fault>)
    requires s.Valid()
    modifies s
    ensures s.Valid()
    ensures if ReadLength(s.d, s.end, old(s.At())).Ok?
            then r.Ok? && ReadLength(s.d, s.end, old(s.At())) == Ok((r.value, s.At()))
            else r.Err? && ReadLength(s.d, s.end, old(s.At())) == Err(r.error)
  {
    hide ReadGamma, ReadBit;
    var hi :- s.Bit();
    var lo :- s.Bit();
    var short := 2 * hi as int + lo;
    if short != 0 {
      return Ok(Short(short));
    }
    var v :- s.GammaCode();
    return Ok(Long(v));
  }

  lemma CopiedStep(out: seq<byte>, off: nat, n: nat)
    requires 1 <= off <= |out|
    ensures Copied(out, off, 0) == out
    ensures var c := Copied(out, off, n);
            off <= |c| && Copied(out, off, n + 1) == c + [c[|c| - off]]
  {
    hide Wrapped;
    WrappedBack(n, off);
    var c := Copied(out, off, n);
    assert Copied(out, off, n + 1) == c + [out[|out| - off + Wrapped(n, off)]];
  }

  /** Before the first wrap a copy reads where it stands, and after it where it
      stood `off` bytes earlier. */
  lemma WrappedBack(n: nat, off: nat)
    requires off >= 1
    ensures Wrapped(n, off) == if n < off then n else Wrapped(n - off, off)
  {
    if n < off {
      DivModUnique(n, off, 0, n);
    } else {
      ModMinus(n, off);
    }
  }

  lemma ModMinus(n: nat, k: nat)
    requires n >= k >= 1
    ensures (n - k) % k == n % k
  {
    assert n - k == k * (n / k - 1) + n % k;
    DivModUnique(n - k, k, n / k - 1, n % k);
  }

  /** The copy loop, byte by byte, so that it may read what it has just written. */
  method CopyBack(before: seq<byte>, off: nat, n: nat) returns (out: seq<byte>)
    requires 1 <= off <= |before|
    ensures out == Copied(before, off, n)
  {
    out := before;
    CopiedStep(before, off, 0);
    hide Copied;
    for i := 0 to n
      invariant out == Copied(before, off, i) && |out| >= off
    {
      CopiedStep(before, off, i);
      out := out + [out[|out| - off]];
    }
  }

  /** One turn of the loop in `depack`, up to the point where output is written. */
  method Turn(s: Bits) returns (r: Result<Step, Fault>)
    requires s.Valid()
    modifies s
    ensures s.Valid()
    ensures if ReadStep(s.d, s.end, old(s.At())).Ok?
            then r.Ok? && ReadStep(s.d, s.end, old(s.At())) == Ok((r.value, s.At()))
            else r.Err? && ReadStep(s.d, s.end, old(s.At())) == Err(r.error)
  {
    hide ReadBit, ReadByte, ReadOffset, ReadLength;
    var literal :- s.Bit();
    if literal == 1 {
      var b :- s.Byte();
      return Ok(Item(Literal(b)));
    }
    var code :- MatchOffset(s);
    if code.Fresh? {
      var raw := (code.g * 256 + code.low) % WORD;
      if raw == BIAS {
        return Ok(End(code.g));
      }
    }
    var length :- MatchLength(s);
    return Ok(Item(Match(code, length)));
  }

  /** `depack`: the output, and the position just past the end marker. */
  method Depack(data: seq<byte>, pos: nat, end: int) returns (r: Result<(seq<byte>, nat), Fault>)
    ensures r == Depacked(data, pos, end)
  {
    hide ReadStep, Copied;
    var s := new Bits(data, pos, end);
    var out: seq<byte> := [];
    var last: nat := 1;
    while true
      invariant s.Valid() && fresh(s) && s.d == data && s.end == end
      invariant DepackFrom(data, end, s.At(), out, last) == Depacked(data, pos, end)
      decreases Fuel(end, s.At())
    {
      var step :- Turn(s);
      match step
      case End(_) =>
        return Ok((out, s.p));
      case Item(Literal(b)) =>
        out := out + [b];
      case Item(Match(code, length)) =>
        if code.Fresh? {
          last := ((code.g * 256 + code.low) % WORD - BIAS) % WORD;
        }
        var count := match length case Short(n) => n case Long(v) => v + 2;
        if last > FAR {
          count := count + 1;
        }
        if last == 0 || last > |out| {
          return Err(BadOffset);
        }
        out := CopyBack(out, last, count + 1);
    }
  }
}
