/** Bytes, bits and big-endian words, shared by every other module. */
module Bytes {

  type byte = x: int | 0 <= x < 256
  type bit = x: int | 0 <= x < 2
  type u32 = x: int | 0 <= x < WORD

  const WORD := 0x1_0000_0000

  /** A value, or the reason there is none: the model of a Python exception. */
  datatype Result<+T, +E> = Ok(value: T) | Err(error: E) {
    predicate IsFailure() { Err? }

    function PropagateFailure<U>(): Result<U, E>
      requires Err?
    {
      Err(error)
    }

    function Extract(): T
      requires Ok?
    {
      value
    }
  }

  datatype Option<+T> = None | Some(value: T)

  function Min(a: int, b: int): int {
    if a < b then a else b
  }

  /** The eight bits of a byte, most significant first. */
  function BitsOf(b: byte): (bits: seq<bit>)
    ensures |bits| == 8
  {
    [b / 128, b / 64 % 2, b / 32 % 2, b / 16 % 2, b / 8 % 2, b / 4 % 2, b / 2 % 2, b % 2]
  }

  function ByteOf(t0: int, t1: int, t2: int, t3: int, t4: int, t5: int, t6: int, t7: int): int {
    128 * t0 + 64 * t1 + 32 * t2 + 16 * t3 + 8 * t4 + 4 * t5 + 2 * t6 + t7
  }

  lemma BitsOfByteOf(t0: bit, t1: bit, t2: bit, t3: bit, t4: bit, t5: bit, t6: bit, t7: bit)
    ensures var b := ByteOf(t0, t1, t2, t3, t4, t5, t6, t7);
            0 <= b < 256 && BitsOf(b) == [t0, t1, t2, t3, t4, t5, t6, t7]
  {
    var b := ByteOf(t0, t1, t2, t3, t4, t5, t6, t7);
    var h2: int := 2 * t0 as int + t1;
    var h3: int := 2 * h2 + t2;
    var h4: int := 2 * h3 + t3;
    var h5: int := 2 * h4 + t4;
    var h6: int := 2 * h5 + t5;
    var h7: int := 2 * h6 + t6;
    hide BitsOf;
    Halves(h2, t0, t1);
    Halves(h3, h2, t2);
    Halves(h4, h3, t3);
    Halves(h5, h4, t4);
    Halves(h6, h5, t5);
    Halves(h7, h6, t6);
    Halves(b, h7, t7);
    BitsByHalving(b, t0, h2, h3, h4, h5, h6, h7);
  }

  lemma Halves(x: int, h: nat, t: bit)
    requires x == 2 * h + t
    ensures x / 2 == h && x % 2 == t
  {
  }

  /** The bits of a byte are what halving it again and again leaves. */
  lemma BitsByHalving(b: byte, h1: nat, h2: nat, h3: nat, h4: nat, h5: nat, h6: nat, h7: nat)
    requires b / 2 == h7 && h7 / 2 == h6 && h6 / 2 == h5 && h5 / 2 == h4 && h4 / 2 == h3 && h3 / 2 == h2 && h2 / 2 == h1 && h1 < 2
    ensures BitsOf(b) == [h1, h2 % 2, h3 % 2, h4 % 2, h5 % 2, h6 % 2, h7 % 2, b % 2]
  {
    assert b / 4 == h6 && b / 8 == h5 && b / 16 == h4 && b / 32 == h3 && b / 64 == h2 && b / 128 == h1;
  }

  lemma ByteOfBits(x: byte)
    ensures var b := BitsOf(x); x == ByteOf(b[0], b[1], b[2], b[3], b[4], b[5], b[6], b[7])
  {
    var h7, h6, h5, h4, h3, h2 := x / 2, x / 4, x / 8, x / 16, x / 32, x / 64;
    assert h6 == h7 / 2 && h5 == h6 / 2 && h4 == h5 / 2 && h3 == h4 / 2 && h2 == h3 / 2 && x / 128 == h2 / 2;
  }

  /** Doubling a byte, with `low` shifted in, drops its first bit. */
  lemma ShiftBits(x: byte, low: bit)
    ensures (2 * x as int + low) / 0x100 == BitsOf(x)[0]
    ensures BitsOf((2 * x as int + low) % 0x100) == BitsOf(x)[1..] + [low]
  {
    ByteOfBits(x);
    var b := BitsOf(x);
    hide BitsOf;
    BitsOfByteOf(b[1], b[2], b[3], b[4], b[5], b[6], b[7], low);
    assert 2 * x as int + low == 0x100 * b[0] as int + ByteOf(b[1], b[2], b[3], b[4], b[5], b[6], b[7], low);
  }

  /** The byte whose first bits are `bits`, the rest zero. */
  function ByteFrom(bits: seq<bit>): byte
    requires |bits| <= 8
  {
    ByteOf(BitAt(bits, 0), BitAt(bits, 1), BitAt(bits, 2), BitAt(bits, 3),
           BitAt(bits, 4), BitAt(bits, 5), BitAt(bits, 6), BitAt(bits, 7))
  }

  function BitAt(bits: seq<bit>, i: nat): bit {
    if i < |bits| then bits[i] else 0
  }

  lemma BitsOfByteFrom(bits: seq<bit>)
    requires |bits| <= 8
    ensures forall i :: 0 <= i < |bits| ==> BitsOf(ByteFrom(bits))[i] == bits[i]
    ensures forall i :: |bits| <= i < 8 ==> BitsOf(ByteFrom(bits))[i] == 0
  {
    BitsOfByteOf(BitAt(bits, 0), BitAt(bits, 1), BitAt(bits, 2), BitAt(bits, 3),
                 BitAt(bits, 4), BitAt(bits, 5), BitAt(bits, 6), BitAt(bits, 7));
  }

  /** `bit << k` */
  function ShiftedBit(t: bit, k: nat): nat {
    if t == 1 then Pow2(k) else 0
  }

  /** Bit `i` once only the first `k` bits are in. */
  function BitSoFar(bits: seq<bit>, k: nat, i: nat): int {
    if i < k && i < |bits| then bits[i] else 0
  }

  lemma ByteFromPrefix(bits: seq<bit>, k: nat)
    requires k <= |bits| <= 8
    ensures ByteFrom(bits[..k]) ==
            ByteOf(BitSoFar(bits, k, 0), BitSoFar(bits, k, 1), BitSoFar(bits, k, 2), BitSoFar(bits, k, 3),
                   BitSoFar(bits, k, 4), BitSoFar(bits, k, 5), BitSoFar(bits, k, 6), BitSoFar(bits, k, 7))
  {
    forall i: nat
      ensures BitAt(bits[..k], i) == BitSoFar(bits, k, i)
    {
    }
    hide BitAt, BitSoFar;
  }

  lemma NextBit(bits: seq<bit>, j: nat, i: nat)
    requires j < |bits|
    ensures BitSoFar(bits, j + 1, i) == BitSoFar(bits, j, i) + if i == j then bits[j] else 0
  {
  }

  /** The weight of bit `j`, given or not. */
  lemma ShiftedBitIs(t: bit, j: nat)
    requires j < 8
    ensures ShiftedBit(t, 7 - j) == t * (if j == 0 then 128 else if j == 1 then 64 else if j == 2 then 32 else if j == 3 then 16
                                         else if j == 4 then 8 else if j == 5 then 4 else if j == 6 then 2 else 1)
  {
    Powers();
    hide Pow2;
    assert t == 0 || t == 1;
  }

  /** Or-ing the next bit into a byte under construction. */
  lemma ByteFromStep(bits: seq<bit>, j: nat)
    requires j < |bits| <= 8
    ensures ByteFrom(bits[..j + 1]) == ByteFrom(bits[..j]) + ShiftedBit(bits[j], 7 - j)
  {
    hide ByteFrom, BitSoFar, ShiftedBit;
    ByteFromPrefix(bits, j);
    ByteFromPrefix(bits, j + 1);
    ShiftedBitIs(bits[j], j);
    NextBit(bits, j, 0);
    NextBit(bits, j, 1);
    NextBit(bits, j, 2);
    NextBit(bits, j, 3);
    NextBit(bits, j, 4);
    NextBit(bits, j, 5);
    NextBit(bits, j, 6);
    NextBit(bits, j, 7);
  }

  lemma ConcatAssoc<T>(a: seq<T>, b: seq<T>, c: seq<T>)
    ensures (a + b) + c == a + (b + c)
  {
  }

  lemma SliceOfSlice<T>(s: seq<T>, a: nat, b: nat, i: nat, j: nat)
    requires a <= b <= |s| && i <= j <= b - a
    ensures s[a..b][i..j] == s[a + i..a + j]
  {
    var left, right := s[a..b][i..j], s[a + i..a + j];
    forall k | 0 <= k < j - i
      ensures left[k] == right[k]
    {
      assert left[k] == s[a..b][i + k] == s[a + (i + k)];
    }
  }

  function Zeros(n: nat): (s: seq<byte>)
    ensures |s| == n
  {
    seq(n, _ => 0)
  }

  /** The four bytes `struct.pack('>I', w)` writes. */
  function Pack32(w: u32): (s: seq<byte>)
    ensures |s| == 4
  {
    var hi, lo := w / 0x1_0000, w % 0x1_0000;
    [hi / 256, hi % 256, lo / 256, lo % 256]
  }

  /** The word `struct.unpack_from('>I', s, i)` reads. */
  function Word(s: seq<byte>, i: nat): u32
    requires i + 4 <= |s|
  {
    var b0: int, b1: int, b2: int := s[i], s[i + 1], s[i + 2];
    (b0 * 256 + b1) * 0x1_0000 + (b2 * 256 + s[i + 3])
  }

  lemma PackUnpack(w: u32, s: seq<byte>, i: nat)
    requires i + 4 <= |s|
    requires s[i..i + 4] == Pack32(w)
    ensures Word(s, i) == w
  {
    var hi, lo := w / 0x1_0000, w % 0x1_0000;
    assert s[i] == s[i..i + 4][0] == hi / 256 && s[i + 1] == s[i..i + 4][1] == hi % 256;
    assert s[i + 2] == s[i..i + 4][2] == lo / 256 && s[i + 3] == s[i..i + 4][3] == lo % 256;
  }

  function Sum(s: seq<byte>): nat {
    if s == [] then 0 else Sum(s[..|s| - 1]) + s[|s| - 1]
  }

  /** Bitwise exclusive or of two naturals of any width. */
  function Xor(a: nat, b: nat): nat
    decreases a + b
  {
    if a == 0 && b == 0 then 0
    else 2 * Xor(a / 2, b / 2) + (if a % 2 == b % 2 then 0 else 1)
  }

  lemma {:induction false} XorZero(a: nat)
    ensures Xor(0, a) == a
    decreases a
  {
    if a == 0 {
    } else {
      XorZero(a / 2);
    }
  }

  /** Exclusive or with a fixed number can be undone, so it loses nothing. */
  lemma {:induction false} XorUndo(a: nat, b: nat)
    ensures Xor(a, Xor(a, b)) == b
    decreases a + b
  {
    if a == 0 && b == 0 {
    } else {
      XorUndo(a / 2, b / 2);
    }
  }

  lemma {:induction false} XorCommutes(a: nat, b: nat)
    ensures Xor(a, b) == Xor(b, a)
    decreases a + b
  {
    if a == 0 && b == 0 {
    } else {
      XorCommutes(a / 2, b / 2);
    }
  }

  /** Exclusive or of two `bits`-bit numbers is a `bits`-bit number. */
  lemma {:induction false} XorBound(a: nat, b: nat, bits: nat)
    requires a < Pow2(bits) && b < Pow2(bits)
    ensures Xor(a, b) < Pow2(bits)
    decreases bits
  {
    if bits == 0 {
    } else {
      XorBound(a / 2, b / 2, bits - 1);
    }
  }

  function Pow2(n: nat): (p: nat)
    ensures p >= 1
  {
    if n == 0 then 1 else 2 * Pow2(n - 1)
  }

  lemma SameQuotient(k: int, q: int, r: int, q0: int, r0: int)
    requires k * q + r == k * q0 + r0
    requires 0 <= r < k && 0 <= r0 < k
    ensures q == q0
  {
    if q > q0 {
      assert k * (q - q0) == k * q - k * q0;
      MulAtLeast(k, q - q0);
    } else if q < q0 {
      assert k * (q0 - q) == k * q0 - k * q;
      MulAtLeast(k, q0 - q);
    }
  }

  lemma MulAtLeast(k: int, d: int)
    requires k >= 1 && d >= 1
    ensures k * d >= k
  {
    assert k * d == k + k * (d - 1);
  }

  /** Quotient and remainder are unique. */
  lemma DivModUnique(x: int, k: int, q: int, r: int)
    requires x == k * q + r && 0 <= r < k
    ensures x / k == q && x % k == r
  {
    SameQuotient(k, q, r, x / k, x % k);
  }

  lemma Powers()
    ensures Pow2(0) == 1 && Pow2(1) == 2 && Pow2(2) == 4 && Pow2(3) == 8
    ensures Pow2(4) == 16 && Pow2(5) == 32 && Pow2(6) == 64 && Pow2(7) == 128 && Pow2(8) == 256
  {
  }

  lemma {:induction false} Pow2Add(a: nat, b: nat)
    ensures Pow2(a + b) == Pow2(a) * Pow2(b)
  {
    if a == 0 {
    } else {
      Pow2Add(a - 1, b);
      Pow2Next(a - 1);
      Pow2Next(a - 1 + b);
      hide Pow2;
      DoubleProduct(Pow2(a - 1), Pow2(b));
    }
  }

  lemma Pow2Next(n: nat)
    ensures Pow2(n + 1) == 2 * Pow2(n)
  {
  }

  lemma DoubleProduct(x: nat, y: nat)
    ensures (2 * x) * y == 2 * (x * y)
  {
  }
}
