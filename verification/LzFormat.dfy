/** The LZ format of ELE3 sections as a language of tokens, and the decoder of
    dt2/elz.py as a function from a reading position to a result. */
module LzFormat {
  import opened Bytes
  import opened LzLayout

  const BIAS := 767
  const REUSE := 2
  const FAR := 3328
  const GAMMA_LIMIT := 0x0200_0000

  // ---- Gamma codes --------------------------------------------------------

  /** Data bits of `v` below its leading one, each followed by a zero stop bit. */
  function OpenGamma(v: nat): seq<Event> {
    if v < 2 then [] else OpenGamma(v / 2) + [Event(v % 2, []), Event(0, [])]
  }

  /** The events of a whole gamma code; `payload` is read right after it. */
  function Gamma(v: nat, payload: seq<byte>): seq<Event>
    requires v >= 2
  {
    OpenGamma(v / 2) + [Event(v % 2, []), Event(1, payload)]
  }

  /** Codes the decoder reads back without its overflow check stopping it. */
  predicate GammaFits(v: nat) {
    2 <= v && v / 2 <= GAMMA_LIMIT
  }

  /** `Bits.gamma`, entered with accumulator `v`. */
  function ReadGamma(d: seq<byte>, end: int, c: Cursor, v: nat): (r: Result<(nat, Cursor), Fault>)
    ensures r.Ok? ==> Fuel(end, r.value.1) < Fuel(end, c)
    ensures r.Ok? ==> r.value.0 >= 2 * v
    decreases Fuel(end, c)
  {
    var (b, c1) :- ReadBit(d, end, c);
    var v1 := 2 * v + b;
    var (stop, c2) :- ReadBit(d, end, c1);
    if stop == 1 then Ok((v1, c2))
    else if v1 > GAMMA_LIMIT then Err(GammaOverflow)
    else ReadGamma(d, end, c2, v1)
  }

  // ---- Tokens -------------------------------------------------------------

  datatype Offset = Reuse | Fresh(g: nat, low: byte)
  datatype Length = Short(n: nat) | Long(v: nat)
  datatype Token = Literal(b: byte) | Match(offset: Offset, length: Length)

  /** What one turn of the decoder's loop finds: a token, or the end marker. */
  datatype Step = Item(token: Token) | End(g: nat)

  /** The 32-bit word a fresh match code carries. */
  function RawCode(g: nat, low: byte): u32 {
    (g * 256 + low) % WORD
  }

  predicate IsEndCode(g: nat, low: byte) {
    RawCode(g, low) == BIAS
  }

  /** The offset a fresh code stands for, in 32-bit arithmetic. */
  function FreshOffset(g: nat, low: byte): u32 {
    (RawCode(g, low) - BIAS) % WORD
  }

  function OffsetEvents(o: Offset): seq<Event>
    requires o.Fresh? ==> o.g >= 2
  {
    match o
    case Reuse => Gamma(REUSE, [])
    case Fresh(g, low) => Gamma(g, [low])
  }

  function LengthEvents(l: Length): seq<Event>
    requires if l.Short? then l.n <= 3 else l.v >= 2
  {
    match l
    case Short(n) => [Event(n / 2, []), Event(n % 2, [])]
    case Long(v) => [Event(0, []), Event(0, [])] + Gamma(v, [])
  }

  /** Tokens that have an encoding the decoder can read. */
  predicate Encodable(t: Token) {
    t.Match? ==>
      && (t.offset.Fresh? ==> t.offset.g > REUSE && GammaFits(t.offset.g) && !IsEndCode(t.offset.g, t.offset.low))
      && (if t.length.Short? then 1 <= t.length.n <= 3 else GammaFits(t.length.v))
  }

  function TokenEvents(t: Token): seq<Event>
    requires Encodable(t)
  {
    match t
    case Literal(b) => [Event(1, [b])]
    case Match(o, l) => [Event(0, [])] + (OffsetEvents(o) + LengthEvents(l))
  }

  /** Gamma values that act as the end marker when 0xFF follows. */
  predicate IsMarker(g: nat) {
    g > REUSE && GammaFits(g) && IsEndCode(g, 0xFF)
  }

  function MarkerEvents(g: nat): seq<Event>
    requires g >= 2
  {
    [Event(0, [])] + Gamma(g, [0xFF])
  }

  predicate AllEncodable(ts: seq<Token>) {
    forall i :: 0 <= i < |ts| ==> Encodable(ts[i])
  }

  /** A whole stream: the tokens, then the end marker with gamma value `g`. */
  function StreamEvents(ts: seq<Token>, g: nat): seq<Event>
    requires AllEncodable(ts) && g >= 2
  {
    if ts == [] then MarkerEvents(g) else TokenEvents(ts[0]) + StreamEvents(ts[1..], g)
  }

  // ---- Meaning ------------------------------------------------------------

  /** Where in its last `off` bytes an overlapping copy finds byte `i`. */
  function Wrapped(i: nat, off: nat): (r: nat)
    requires off >= 1
    ensures r < off
  {
    i % off
  }

  /** `n` bytes copied from `off` back, the source overlapping its own output. */
  function Copied(out: seq<byte>, off: nat, n: nat): seq<byte>
    requires 1 <= off <= |out|
  {
    out + seq(n, i requires 0 <= i => out[|out| - off + Wrapped(i, off)])
  }

  function OffsetOf(o: Offset, last: nat): nat {
    match o
    case Reuse => last
    case Fresh(g, low) => FreshOffset(g, low)
  }

  /** Bytes a match copies: the coded length, one more, and one more again past FAR. */
  function CopyCount(l: Length, off: nat): nat {
    (match l case Short(n) => n case Long(v) => v + 2) + (if off > FAR then 1 else 0) + 1
  }

  /** The output and last offset after one token. */
  function Apply(t: Token, out: seq<byte>, last: nat): Result<(seq<byte>, nat), Fault> {
    match t
    case Literal(b) => Ok((out + [b], last))
    case Match(o, l) =>
      var off := OffsetOf(o, last);
      if off == 0 || off > |out| then Err(BadOffset)
      else Ok((Copied(out, off, CopyCount(l, off)), off))
  }

  /** What a token sequence means, given what was output before it. */
  function Meaning(ts: seq<Token>, out: seq<byte>, last: nat): Result<seq<byte>, Fault> {
    if ts == [] then Ok(out)
    else
      var (out1, last1) :- Apply(ts[0], out, last);
      Meaning(ts[1..], out1, last1)
  }

  // ---- The decoder --------------------------------------------------------

  function ReadLength(d: seq<byte>, end: int, c: Cursor): (r: Result<(Length, Cursor), Fault>)
    ensures r.Ok? ==> Fuel(end, r.value.1) < Fuel(end, c)
  {
    var (hi, c1) :- ReadBit(d, end, c);
    var (lo, c2) :- ReadBit(d, end, c1);
    if hi == 0 && lo == 0 then
      var (v, c3) :- ReadGamma(d, end, c2, 1);
      Ok((Long(v), c3))
    else Ok((Short(2 * hi as int + lo), c2))
  }

  /** A gamma code and, unless it says reuse, the byte after it. */
  function ReadOffset(d: seq<byte>, end: int, c: Cursor): (r: Result<(Offset, Cursor), Fault>)
    ensures r.Ok? ==> Fuel(end, r.value.1) < Fuel(end, c)
  {
    var (g, c1) :- ReadGamma(d, end, c, 1);
    if g == REUSE then Ok((Reuse, c1))
    else
      var (low, c2) :- ReadByte(d, end, c1);
      Ok((Fresh(g, low), c2))
  }

  /** One turn of the loop in `depack`, up to the copy. */
  function ReadStep(d: seq<byte>, end: int, c: Cursor): (r: Result<(Step, Cursor), Fault>)
    ensures r.Ok? ==> Fuel(end, r.value.1) < Fuel(end, c)
  {
    var (literal, c1) :- ReadBit(d, end, c);
    if literal == 1 then
      var (b, c2) :- ReadByte(d, end, c1);
      Ok((Item(Literal(b)), c2))
    else
      var (o, c2) :- ReadOffset(d, end, c1);
      if o.Fresh? && IsEndCode(o.g, o.low) then Ok((End(o.g), c2))
      else
        var (l, c3) :- ReadLength(d, end, c2);
        Ok((Item(Match(o, l)), c3))
  }

  /** `depack` from inside its loop: the output and the position after the marker. */
  function DepackFrom(d: seq<byte>, end: int, c: Cursor, out: seq<byte>, last: nat): Result<(seq<byte>, nat), Fault>
    decreases Fuel(end, c)
  {
    var (step, c1) :- ReadStep(d, end, c);
    match step
    case End(_) => Ok((out, c1.p))
    case Item(t) =>
      var (out1, last1) :- Apply(t, out, last);
      DepackFrom(d, end, c1, out1, last1)
  }

  function Depacked(d: seq<byte>, pos: nat, end: int): Result<(seq<byte>, nat), Fault> {
    DepackFrom(d, end, Cursor(pos, []), [], 1)
  }
}
