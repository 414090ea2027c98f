/** What the codes of the LZ format stand for: which offset a reuse code copies
    from, which copies and offsets can be coded, and how the bits of a turn read. */
module LzCodes {
  import opened Bytes
  import opened LzLayout
  import opened LzFormat
  import opened LzTheorems
  import opened Aplib

  // ---- Reuse --------------------------------------------------------------

  /** The same tokens with every reuse code written out as the last fresh code
      before it. */
  function Resolved(ts: seq<Token>, known: Option<Offset>): seq<Token> {
    if ts == [] then []
    else
      match ts[0]
      case Literal(_) => [ts[0]] + Resolved(ts[1..], known)
      case Match(offset, length) =>
        var o := if offset.Reuse? && known.Some? then known.value else offset;
        [Match(o, length)] + Resolved(ts[1..], if o.Fresh? then Some(o) else known)
  }

  /** A match leaves its offset for the next reuse code: a reuse code means what
      the last fresh code before it would mean in its place, over any literals and
      reuses in between. */
  lemma {:induction false} ReuseMeansLastFresh(ts: seq<Token>, known: Option<Offset>, out: seq<byte>, last: nat)
    requires known.Some? ==> known.value.Fresh? && last == FreshOffset(known.value.g, known.value.low)
    ensures Meaning(Resolved(ts, known), out, last) == Meaning(ts, out, last)
    decreases |ts|
  {
    hide Copied, FreshOffset, CopyCount;
    if ts == [] {
    } else {
      var t := Resolved(ts, known)[0];
      var rest := if t.Match? && t.offset.Fresh? then Some(t.offset) else known;
      assert Resolved(ts, known) == [t] + Resolved(ts[1..], rest);
      assert ([t] + Resolved(ts[1..], rest))[1..] == Resolved(ts[1..], rest);
      var next := Apply(ts[0], out, last);
      assert Apply(t, out, last) == next;
      if next.Ok? {
        ReuseMeansLastFresh(ts[1..], rest, next.value.0, next.value.1);
      }
    }
  }

  /** The simplest case: a fresh match, literals, and a reuse. */
  lemma ReuseAfterLiterals(g: nat, low: byte, l1: Length, literals: seq<byte>, l2: Length, ts: seq<Token>, out: seq<byte>, last: nat)
    ensures Meaning([Match(Fresh(g, low), l1)] + Literals(literals) + [Match(Reuse, l2)] + ts, out, last)
         == Meaning([Match(Fresh(g, low), l1)] + Literals(literals) + [Match(Fresh(g, low), l2)] + ts, out, last)
  {
    hide Meaning;
    var first, mid := [Match(Fresh(g, low), l1)], Literals(literals);
    var a, b := first + mid + [Match(Reuse, l2)] + ts, first + mid + [Match(Fresh(g, low), l2)] + ts;
    ReuseMeansLastFresh(a, None, out, last);
    ReuseMeansLastFresh(b, None, out, last);
    ResolvedAfterFresh(g, low, l1, literals, l2, ts);
  }

  lemma ResolvedAfterFresh(g: nat, low: byte, l1: Length, literals: seq<byte>, l2: Length, ts: seq<Token>)
    ensures Resolved([Match(Fresh(g, low), l1)] + Literals(literals) + [Match(Reuse, l2)] + ts, None)
         == Resolved([Match(Fresh(g, low), l1)] + Literals(literals) + [Match(Fresh(g, low), l2)] + ts, None)
  {
    var o := Fresh(g, low);
    var first, mid := [Match(o, l1)], Literals(literals);
    var a, b := mid + ([Match(Reuse, l2)] + ts), mid + ([Match(o, l2)] + ts);
    assert first + mid + [Match(Reuse, l2)] + ts == first + a;
    assert first + mid + [Match(o, l2)] + ts == first + b;
    assert (first + a)[1..] == a && (first + b)[1..] == b;
    ResolvedOverLiterals(literals, [Match(Reuse, l2)] + ts, o);
    ResolvedOverLiterals(literals, [Match(o, l2)] + ts, o);
    assert ([Match(Reuse, l2)] + ts)[1..] == ts == ([Match(o, l2)] + ts)[1..];
  }

  lemma {:induction false} ResolvedOverLiterals(literals: seq<byte>, ts: seq<Token>, o: Offset)
    ensures Resolved(Literals(literals) + ts, Some(o)) == Literals(literals) + Resolved(ts, Some(o))
    decreases |literals|
  {
    if literals == [] {
      assert Literals(literals) + ts == ts;
    } else {
      var rest := literals[1..];
      assert Literals(literals) == [Literal(literals[0])] + Literals(rest);
      assert (Literals(literals) + ts)[1..] == Literals(rest) + ts;
      ResolvedOverLiterals(rest, ts, o);
    }
  }

  /** A reuse before any fresh match, the remembered offset being one, repeats the
      last byte. */
  lemma FirstReuseRepeats(data: seq<byte>, n: nat)
    requires data != [] && n <= 3
    ensures Meaning([Match(Reuse, Short(n))], data, 1) == Ok(data + seq(n + 1, _ => data[|data| - 1]))
  {
    var ts := [Match(Reuse, Short(n))];
    assert ts[1..] == [];
    assert Copied(data, 1, n + 1) == data + seq(n + 1, _ => data[|data| - 1]);
  }

  // ---- Which copies can be coded ------------------------------------------

  /** Length codes leave no gap and no overlap: up to offset 3328 every copy of two
      bytes or more has exactly one code, and past it every copy of three or more. */
  lemma LengthCodesExact(off: nat, n: nat, l: Length)
    ensures (if l.Short? then 1 <= l.n <= 3 else l.v >= 2) && CopyCount(l, off) == n <==>
            var extra := if off > 3328 then 1 else 0;
            n >= 2 + extra && l == if n - extra <= 4 then Short(n - extra - 1) else Long(n - extra - 3)
  {
  }

  /** Offset codes likewise: every offset up to 2^32 - 767 has exactly one code
      whose word has not wrapped, and no such code is a reuse or a marker. */
  lemma OffsetCodesExact(off: nat, g: nat, low: byte)
    requires off < WORD - 767
    ensures g > 2 && g * 256 + low < WORD && FreshOffset(g, low) == off <==>
            off >= 1 && g == (off + 767) / 256 && low == (off + 767) % 256
  {
    var raw := g * 256 + low;
    if raw < WORD {
      assert RawCode(g, low) == raw;
      DivModUnique(raw, 256, g, low);
    }
  }

  // ---- How a turn's bits read ---------------------------------------------

  /** Tag bytes give their bits most significant first. */
  lemma TagByteBits(d: seq<byte>, end: int, p: nat)
    requires p < |d| && p < end
    ensures var b := d[p];
            ReadBit(d, end, Cursor(p, [])) ==
              Ok((b / 128, Cursor(p + 1, [b / 64 % 2, b / 32 % 2, b / 16 % 2, b / 8 % 2, b / 4 % 2, b / 2 % 2, b % 2])))
  {
  }

  lemma NextBit(d: seq<byte>, end: int, p: nat, b: bit, rest: seq<bit>)
    ensures ReadBit(d, end, Cursor(p, [b] + rest)) == Ok((b, Cursor(p, rest)))
  {
    assert ([b] + rest)[1..] == rest;
  }

  /** A gamma code of one pair: the data bit, and a stop bit that is one. */
  lemma OnePairBits(d: seq<byte>, end: int, p: nat, x: bit, rest: seq<bit>)
    ensures ReadGamma(d, end, Cursor(p, [x] + ([1] + rest)), 1) == Ok((2 + x as int, Cursor(p, rest)))
  {
    hide ReadBit;
    NextBit(d, end, p, x, [1] + rest);
    NextBit(d, end, p, 1, rest);
  }

  /** Two bits that are not both zero are a short length, the first the higher. */
  lemma ShortBits(d: seq<byte>, end: int, p: nat, hi: bit, lo: bit, rest: seq<bit>)
    requires hi != 0 || lo != 0
    ensures ReadLength(d, end, Cursor(p, [hi] + ([lo] + rest))) == Ok((Short(2 * hi as int + lo), Cursor(p, rest)))
  {
    hide ReadBit, ReadGamma;
    NextBit(d, end, p, hi, [lo] + rest);
    NextBit(d, end, p, lo, rest);
  }

  /** Two zero bits put the length in a gamma code. */
  lemma LongBits(d: seq<byte>, end: int, p: nat, x: bit, rest: seq<bit>)
    ensures ReadLength(d, end, Cursor(p, [0] + ([0] + ([x] + ([1] + rest))))) == Ok((Long(2 + x as int), Cursor(p, rest)))
  {
    hide ReadBit, ReadGamma;
    NextBit(d, end, p, 0, [0] + ([x] + ([1] + rest)));
    NextBit(d, end, p, 0, [x] + ([1] + rest));
    OnePairBits(d, end, p, x, rest);
  }

  /** A one bit is a literal: the next byte. */
  lemma LiteralBits(d: seq<byte>, end: int, p: nat, rest: seq<bit>)
    requires p < |d| && p < end
    ensures ReadStep(d, end, Cursor(p, [1] + rest)) == Ok((Item(Literal(d[p])), Cursor(p + 1, rest)))
  {
    hide ReadBit, ReadOffset, ReadLength;
    NextBit(d, end, p, 1, rest);
  }

  /** A zero bit and the pair 01: a reuse, no byte, then its length. */
  lemma ReuseBits(d: seq<byte>, end: int, p: nat, hi: bit, lo: bit, rest: seq<bit>)
    requires hi != 0 || lo != 0
    ensures ReadStep(d, end, Cursor(p, [0] + ([0] + ([1] + ([hi] + ([lo] + rest)))))) ==
            Ok((Item(Match(Reuse, Short(2 * hi as int + lo))), Cursor(p, rest)))
  {
    hide ReadBit, ReadGamma, ReadLength;
    NextBit(d, end, p, 0, [0] + ([1] + ([hi] + ([lo] + rest))));
    OnePairBits(d, end, p, 0, [hi] + ([lo] + rest));
    ShortBits(d, end, p, hi, lo, rest);
  }

  /** A zero bit and the pair 11: a fresh match whose offset the next byte gives,
      one for byte zero, two for byte one and so on. */
  lemma FreshBits(d: seq<byte>, end: int, p: nat, hi: bit, lo: bit, rest: seq<bit>)
    requires (hi != 0 || lo != 0) && p < |d| && p < end
    ensures ReadStep(d, end, Cursor(p, [0] + ([1] + ([1] + ([hi] + ([lo] + rest)))))) ==
            Ok((Item(Match(Fresh(3, d[p]), Short(2 * hi as int + lo))), Cursor(p + 1, rest)))
    ensures FreshOffset(3, d[p]) == d[p] as int + 1
  {
    hide ReadBit, ReadGamma, ReadLength;
    NextBit(d, end, p, 0, [1] + ([1] + ([hi] + ([lo] + rest))));
    OnePairBits(d, end, p, 1, [hi] + ([lo] + rest));
    ShortBits(d, end, p + 1, hi, lo, rest);
  }
}
