/** The interval-to-pattern compiler of tools/cavefind.py and the scan that uses
    it: byte patterns as a small syntax with a denotation. */
module RangeRegex {
  import opened Bytes

  /** The pattern syntax the compiler emits, `.` matching every byte. */
  datatype Regex =
    | Byte(b: byte)
    | Range(first: byte, last: byte)
    | Any
    | Cat(left: Regex, right: Regex)
    | Alt(parts: seq<Regex>)
    | Empty

  /** The pattern matches exactly the whole of `s`. */
  predicate Matches(r: Regex, s: seq<byte>)
    decreases r
  {
    match r
    case Empty => s == []
    case Byte(b) => s == [b]
    case Range(first, last) => |s| == 1 && first <= s[0] <= last
    case Any => |s| == 1
    case Cat(left, right) => exists k :: 0 <= k <= |s| && Matches(left, s[..k]) && Matches(right, s[k..])
    case Alt(parts) => exists i :: 0 <= i < |parts| && Matches(parts[i], s)
  }

  /** No string matches two alternatives, anywhere in the pattern. */
  ghost predicate Disjoint(r: Regex)
    decreases r
  {
    match r
    case Cat(left, right) => Disjoint(left) && Disjoint(right)
    case Alt(parts) =>
      && (forall i :: 0 <= i < |parts| ==> Disjoint(parts[i]))
      && (forall i, j, s :: 0 <= i < j < |parts| ==> !(Matches(parts[i], s) && Matches(parts[j], s)))
    case _ => true
  }

  function Pow256(n: nat): (p: nat)
    ensures p >= 1
  {
    if n == 0 then 1 else 256 * Pow256(n - 1)
  }

  /** The number a string of bytes spells, most significant first. */
  function BigEndian(s: seq<byte>): nat {
    if s == [] then 0 else s[0] * Pow256(|s| - 1) + BigEndian(s[1..])
  }

  lemma {:induction false} BigEndianBound(s: seq<byte>)
    ensures BigEndian(s) < Pow256(|s|)
    decreases |s|
  {
    if s == [] {
    } else {
      BigEndianBound(s[1..]);
      PowStep(|s|);
      hide Pow256;
      MulAtLeastBy(Pow256(|s| - 1), 255, s[0]);
    }
  }

  /** `r` matches exactly the `n`-byte strings whose number lies in `[lo, hi)`. */
  ghost predicate Denotes(r: Regex, lo: int, hi: int, n: nat) {
    forall s :: Matches(r, s) <==> |s| == n && lo <= BigEndian(s) < hi
  }

  // ---- Pieces -------------------------------------------------------------

  lemma OneByte(s: seq<byte>)
    requires |s| == 1
    ensures BigEndian(s) == s[0]
  {
    assert s[1..] == [];
    assert Pow256(0) == 1;
  }

  /** `_byte_class` */
  function ByteClass(lo: nat, hi: nat): (r: Regex)
    requires lo < hi <= 256
    ensures Denotes(r, lo, hi, 1)
    ensures Disjoint(r)
  {
    forall s: seq<byte> | |s| == 1
      ensures BigEndian(s) == s[0]
    {
      OneByte(s);
    }
    if hi - lo == 1 then Byte(lo) else Range(lo, hi - 1)
  }

  /** `b'.' * n` */
  function Dots(n: nat): (r: Regex)
    ensures forall s :: Matches(r, s) <==> |s| == n
    ensures Disjoint(r)
  {
    if n == 0 then Empty
    else
      var rest := Dots(n - 1);
      AnyThenRest(rest, n - 1);
      Cat(Any, rest)
  }

  lemma AnyThenRest(rest: Regex, n: nat)
    requires forall s :: Matches(rest, s) <==> |s| == n
    ensures forall s :: Matches(Cat(Any, rest), s) <==> |s| == n + 1
  {
    forall s
      ensures Matches(Cat(Any, rest), s) <==> |s| == n + 1
    {
      if |s| == n + 1 {
        assert Matches(rest, s[1..]) && Matches(Any, s[..1]);
        CatMatches(Any, rest, s, 1);
      }
    }
  }

  lemma CatMatches(left: Regex, right: Regex, s: seq<byte>, k: nat)
    requires k <= |s| && Matches(left, s[..k]) && Matches(right, s[k..])
    ensures Matches(Cat(left, right), s)
  {
  }

  /** A first byte and a tail that denotes an interval denote that interval,
      shifted by the first byte's weight. */
  lemma CatDenotes(top: byte, tail: Regex, subLo: nat, subHi: nat, n: nat)
    requires Denotes(tail, subLo, subHi, n) && subHi <= Pow256(n)
    ensures Denotes(Cat(Byte(top), tail), top * Pow256(n) + subLo, top * Pow256(n) + subHi, n + 1)
  {
    hide Matches, BigEndian, Pow256;
    var r, base := Cat(Byte(top), tail), top * Pow256(n);
    forall s
      ensures Matches(r, s) <==> |s| == n + 1 && base + subLo <= BigEndian(s) < base + subHi
    {
      if Matches(r, s) {
        CatParts(top, tail, s);
        FirstByte(s, n);
      } else if |s| == n + 1 && base + subLo <= BigEndian(s) < base + subHi {
        FirstByteIs(s, n, top, BigEndian(s) - base);
        ByteThenTail(top, tail, s);
      }
    }
  }

  /** What a first byte and a tail match is that byte and what the tail matches. */
  lemma CatParts(top: byte, tail: Regex, s: seq<byte>)
    requires Matches(Cat(Byte(top), tail), s)
    ensures s != [] && s[0] == top && Matches(tail, s[1..])
  {
    var k :| 0 <= k <= |s| && Matches(Byte(top), s[..k]) && Matches(tail, s[k..]);
    assert s[..k][0] == s[0];
  }

  lemma ByteThenTail(top: byte, tail: Regex, s: seq<byte>)
    requires s != [] && s[0] == top && Matches(tail, s[1..])
    ensures Matches(Cat(Byte(top), tail), s)
  {
    assert s[..1] == [top];
    CatMatches(Byte(top), tail, s, 1);
  }

  lemma Commutes(a: int, b: int)
    ensures a * b == b * a
  {
  }

  /** A number is its first byte times that byte's weight, and the rest. */
  lemma FirstByte(s: seq<byte>, n: nat)
    requires |s| == n + 1
    ensures BigEndian(s) == s[0] * Pow256(n) + BigEndian(s[1..])
  {
    hide Pow256;
  }

  /** The first byte is the quotient by its weight, the rest the remainder. */
  lemma FirstByteIs(s: seq<byte>, n: nat, top: nat, rest: nat)
    requires |s| == n + 1 && BigEndian(s) == top * Pow256(n) + rest && rest < Pow256(n)
    ensures s[0] == top && BigEndian(s[1..]) == rest
  {
    hide BigEndian, Pow256;
    FirstByte(s, n);
    BigEndianBound(s[1..]);
    Commutes(Pow256(n), top);
    Commutes(Pow256(n), s[0]);
    SameQuotient(Pow256(n), top, rest, s[0], BigEndian(s[1..]));
  }

  // ---- The compiler -------------------------------------------------------

  /** What the alternatives collected so far match. */
  ghost predicate Collected(parts: seq<Regex>, lo: nat, v: nat, n: nat) {
    && Denotes(Alt(parts), lo, v, n)
    && (forall i :: 0 <= i < |parts| ==> Disjoint(parts[i]))
    && (forall i, j, s :: 0 <= i < j < |parts| ==> !(Matches(parts[i], s) && Matches(parts[j], s)))
  }

  lemma CollectedMore(parts: seq<Regex>, part: Regex, lo: nat, v: nat, nxt: nat, n: nat)
    requires lo <= v <= nxt && Collected(parts, lo, v, n)
    requires Denotes(part, v, nxt, n) && Disjoint(part)
    ensures Collected(parts + [part], lo, nxt, n)
  {
    hide BigEndian, Disjoint;
    var more := parts + [part];
    forall s
      ensures Matches(Alt(more), s) <==> Matches(Alt(parts), s) || Matches(part, s)
    {
      AltMore(parts, part, s);
    }
    forall i, j, s | 0 <= i < j < |more|
      ensures !(Matches(more[i], s) && Matches(more[j], s))
    {
      if j == |parts| && Matches(more[i], s) {
        assert Matches(Alt(parts), s);
      }
    }
  }

  lemma AltMore(parts: seq<Regex>, part: Regex, s: seq<byte>)
    ensures Matches(Alt(parts + [part]), s) <==> Matches(Alt(parts), s) || Matches(part, s)
  {
    var more := parts + [part];
    if Matches(Alt(parts), s) {
      var i :| 0 <= i < |parts| && Matches(parts[i], s);
      assert more[i] == parts[i];
    }
    if Matches(part, s) {
      assert more[|parts|] == part;
    }
    if Matches(Alt(more), s) {
      var i :| 0 <= i < |more| && Matches(more[i], s);
      assert i < |parts| ==> more[i] == parts[i];
    }
  }

  /** `_range_regex`: the pattern matches exactly the `n`-byte strings whose
      big-endian number lies in `[lo, hi)`, each through one alternative only. */
  method Compile(lo: nat, hi: nat, n: nat) returns (r: Regex)
    requires n >= 1 && lo < hi <= Pow256(n)
    ensures Denotes(r, lo, hi, n)
    ensures Disjoint(r)
    decreases n
  {
    hide Matches, Disjoint, Denotes, Collected, Pow256, BigEndian, Block;
    OneBytePow();
    if n == 1 {
      r := ByteClass(lo, hi);
      return;
    }
    var span := Pow256(n - 1);
    PowStep(n);
    var parts, v := [], lo;
    NothingCollected(lo, n);
    while v < hi
      invariant lo <= v <= hi && (v > lo ==> parts != [])
      invariant Collected(parts, lo, v, n)
      decreases hi - v
    {
      var (top, base, nxt) := Block(v, hi, span);
      var subLo, subHi := v - base, nxt - base;
      var tail;
      if subLo == 0 && subHi == span {
        tail := Dots(n - 1);
        DotsDenote(tail, n - 1);
      } else {
        tail := Compile(subLo, subHi, n - 1);
      }
      var part := Cat(ByteClass(top, top + 1), tail);
      PieceDenotes(top, base, tail, v, nxt, n);
      CollectedMore(parts, part, lo, v, nxt, n);
      parts := parts + [part];
      v := nxt;
    }
    CollectedWhole(parts, lo, hi, n);
    r := if |parts| == 1 then parts[0] else Alt(parts);
  }

  lemma OneBytePow()
    ensures Pow256(1) == 256
  {
    assert Pow256(0) == 1;
  }

  lemma PowStep(n: nat)
    requires n >= 1
    ensures Pow256(n) == 256 * Pow256(n - 1)
  {
  }

  /** The block of numbers that share the first byte of `v`: that byte, where the
      block starts, and where the part of it below `hi` ends. */
  function Block(v: nat, hi: nat, span: nat): (r: (byte, nat, nat))
    requires v < hi <= 256 * span && span >= 1
    ensures r.1 == r.0 * span && r.1 <= v < r.2 <= r.1 + span
    ensures r.2 == Min(r.1 + span, hi)
  {
    var top := v / span;
    assert v == span * top + v % span;
    assert top < 256 by {
      if top >= 256 {
        MulAtLeastBy(span, top, 256);
      }
    }
    (top, top * span, Min(top * span + span, hi))
  }

  lemma MulAtLeastBy(k: nat, a: int, b: int)
    requires a >= b
    ensures k * a >= k * b
  {
    assert k * a - k * b == k * (a - b);
  }

  lemma NothingCollected(lo: nat, n: nat)
    ensures Collected([], lo, lo, n)
  {
    hide BigEndian;
  }

  lemma DotsDenote(r: Regex, n: nat)
    requires forall s :: Matches(r, s) <==> |s| == n
    ensures Denotes(r, 0, Pow256(n), n)
  {
    hide Matches, BigEndian;
    forall s: seq<byte>
      ensures BigEndian(s) < Pow256(|s|)
    {
      BigEndianBound(s);
    }
  }

  lemma PieceDenotes(top: byte, base: nat, tail: Regex, v: nat, nxt: nat, n: nat)
    requires n >= 1 && base == top * Pow256(n - 1)
    requires base <= v && base <= nxt <= base + Pow256(n - 1) && Denotes(tail, v - base, nxt - base, n - 1)
    requires Disjoint(tail)
    ensures var part := Cat(ByteClass(top, top + 1), tail); Denotes(part, v, nxt, n) && Disjoint(part)
  {
    hide Denotes, Disjoint, Pow256;
    CatDenotes(top, tail, v - base, nxt - base, n - 1);
    CatDisjoint(ByteClass(top, top + 1), tail);
  }

  lemma CatDisjoint(left: Regex, right: Regex)
    requires Disjoint(left) && Disjoint(right)
    ensures Disjoint(Cat(left, right))
  {
  }

  /** One alternative stands for itself; several are wrapped. */
  lemma CollectedWhole(parts: seq<Regex>, lo: nat, hi: nat, n: nat)
    requires Collected(parts, lo, hi, n) && parts != []
    ensures var r := if |parts| == 1 then parts[0] else Alt(parts); Denotes(r, lo, hi, n) && Disjoint(r)
  {
    hide BigEndian;
    if |parts| == 1 {
      forall s
        ensures Matches(Alt(parts), s) <==> Matches(parts[0], s)
      {
        AltMore([], parts[0], s);
        assert [] + [parts[0]] == parts;
      }
    }
  }

  // ---- The scan -----------------------------------------------------------

  /** The pattern matches somewhere from offset `i` on. */
  predicate MatchesAt(r: Regex, img: seq<byte>, i: nat)
    requires i <= |img|
  {
    exists e :: i <= e <= |img| && Matches(r, img[i..e])
  }

  /** `pat.search(img, pos)`: the leftmost offset a match starts at. */
  method Search(r: Regex, img: seq<byte>, pos: nat) returns (found: Option<nat>)
    ensures found.None? ==> forall i :: pos <= i <= |img| ==> !MatchesAt(r, img, i)
    ensures found.Some? ==>
              pos <= found.value <= |img| && MatchesAt(r, img, found.value) &&
              forall i :: pos <= i < found.value ==> !MatchesAt(r, img, i)
  {
    hide MatchesAt;
    var i := pos;
    while i <= |img|
      invariant i >= pos && forall j :: pos <= j < i && j <= |img| ==> !MatchesAt(r, img, j)
    {
      if MatchesAt(r, img, i) {
        return Some(i);
      }
      i := i + 1;
    }
    return None;
  }

  lemma WordIsBigEndian(img: seq<byte>, i: nat)
    requires i + 4 <= |img|
    ensures BigEndian(img[i..i + 4]) == Word(img, i)
  {
    var s := img[i..i + 4];
    assert s[1..][1..] == s[2..] && s[2..][1..] == s[3..] && s[3..][1..] == [];
    assert Pow256(1) == 256 && Pow256(2) == 0x1_0000 && Pow256(3) == 0x100_0000;
    assert BigEndian(s[3..]) == s[3];
    assert BigEndian(s[2..]) == s[2] * 256 + BigEndian(s[3..]);
    assert BigEndian(s[1..]) == s[1] * 0x1_0000 + BigEndian(s[2..]);
  }

  /** A four-byte pattern starts exactly where a word in the interval does. */
  lemma FoundIsWord(r: Regex, img: seq<byte>, i: nat, lo: nat, hi: nat)
    requires i <= |img| && Denotes(r, lo, hi, 4)
    ensures MatchesAt(r, img, i) <==> i + 4 <= |img| && lo <= Word(img, i) < hi
  {
    hide Matches, BigEndian, Word;
    if i + 4 <= |img| {
      WordIsBigEndian(img, i);
    }
    if MatchesAt(r, img, i) {
      var e :| i <= e <= |img| && Matches(r, img[i..e]);
      assert e == i + 4;
    } else if i + 4 <= |img| {
      assert !Matches(r, img[i..i + 4]);
    }
  }

  /** `_find_be32_in_range`: exactly the values in `[lo, hi)` that the image
      holds at any byte offset, overlapping ones included. */
  method FindBe32InRange(img: seq<byte>, lo: int, hi: int) returns (out: set<int>)
    requires lo < hi ==> 0 <= lo && hi <= WORD
    ensures forall v :: v in out <==> lo <= v < hi && exists i :: 0 <= i <= |img| - 4 && Word(img, i) == v
  {
    out := {};
    if lo >= hi {
      return;
    }
    hide Matches, Denotes, MatchesAt, Word;
    assert Pow256(4) == WORD by {
      assert Pow256(2) == 256 * Pow256(1) && Pow256(3) == 256 * Pow256(2);
    }
    hide Pow256;
    var pat := Compile(lo, hi, 4);
    forall i | 0 <= i <= |img|
      ensures MatchesAt(pat, img, i) <==> i + 4 <= |img| && lo <= Word(img, i) < hi
    {
      FoundIsWord(pat, img, i, lo, hi);
    }
    var pos := 0;
    while true
      invariant pos <= |img|
      invariant forall v :: v in out <==> lo <= v < hi && exists i :: 0 <= i < pos && i <= |img| - 4 && Word(img, i) == v
      decreases |img| - pos
    {
      var m := Search(pat, img, pos);
      if m.None? {
        return;
      }
      out := out + {Word(img, m.value)};
      pos := m.value + 1;
    }
  }
}
