/** The two recovered checksums of dt2/build.py, and what errors they catch. */
module Checksums {
  import opened Bytes

  /** Sum over the first `n` words of the 1-based word index xor the word. */
  function ContentSum(c: seq<byte>, n: nat): nat
    requires 4 * n <= |c|
  {
    if n == 0 then 0 else ContentSum(c, n - 1) + Xor(n, Word(c, 4 * (n - 1)))
  }

  function ContentChecksum(container: seq<byte>): u32 {
    ContentSum(container, |container| / 4) % WORD
  }

  /** `content_checksum` */
  method ComputeContentChecksum(container: seq<byte>) returns (acc: u32)
    ensures acc == ContentChecksum(container)
  {
    hide Xor, Word;
    acc := 0;
    for n := 0 to |container| / 4
      invariant acc == ContentSum(container, n) % WORD
    {
      acc := (acc + Xor(n + 1, Word(container, 4 * n))) % WORD;
    }
  }

  /** The first `n` covered bytes of a message body, each xored with its index plus `k`. */
  function PacketSum(body: seq<byte>, k: byte, n: nat): nat
    requires |body| >= 6 + n
  {
    if n == 0 then k else PacketSum(body, k, n - 1) + Xor(body[6 + (n - 1)], n - 1 + k)
  }

  function PacketChecksum(body: seq<byte>, k: byte): byte
    requires |body| >= 125
  {
    PacketSum(body, k, 119) % 0x80
  }

  /** `packet_checksum` */
  method ComputePacketChecksum(body: seq<byte>, k: byte) returns (total: byte)
    requires |body| >= 125
    ensures total == PacketChecksum(body, k)
  {
    hide Xor;
    var sum: nat := k;
    for i := 0 to 119
      invariant sum == PacketSum(body, k, i)
    {
      sum := sum + Xor(body[6 + i], i + k);
    }
    total := sum % 0x80;
  }

  // ---- Error detection ----------------------------------------------------

  /** The low bits of an exclusive or depend on the low bits alone. */
  lemma {:induction false} XorLow(a: nat, b: nat, bits: nat)
    ensures Xor(a, b) % Pow2(bits) == Xor(a % Pow2(bits), b % Pow2(bits))
    decreases bits
  {
    if bits == 0 {
    } else {
      var m := Pow2(bits - 1);
      XorLow(a / 2, b / 2, bits - 1);
      DoubleMod(a, m);
      DoubleMod(b, m);
      DoubleMod(Xor(a, b), m);
      XorParts(a, b);
      XorParts(a % (2 * m), b % (2 * m));
      hide Xor;
    }
  }

  lemma XorParts(a: nat, b: nat)
    ensures Xor(a, b) / 2 == Xor(a / 2, b / 2)
    ensures Xor(a, b) % 2 == if a % 2 == b % 2 then 0 else 1
  {
  }

  /** `x` modulo 2m, one binary digit at a time. */
  lemma DoubleMod(x: nat, m: nat)
    requires m >= 1
    ensures x % (2 * m) == 2 * (x / 2 % m) + x % 2
    ensures x % (2 * m) / 2 == x / 2 % m && x % (2 * m) % 2 == x % 2
  {
    var h := x / 2;
    var q, r := h / m, h % m;
    assert x == 2 * (m * q + r) + x % 2 == 2 * m * q + (2 * r + x % 2);
    DivModUnique(x, 2 * m, q, 2 * r + x % 2);
  }

  /** Numbers that differ below 2^bits still differ there after xor with `c`. */
  lemma XorSeparates(c: nat, a: nat, b: nat, bits: nat)
    requires a < Pow2(bits) && b < Pow2(bits) && a != b
    ensures Xor(c, a) % Pow2(bits) != Xor(c, b) % Pow2(bits)
  {
    XorLow(c, a, bits);
    XorLow(c, b, bits);
    var r := c % Pow2(bits);
    assert a % Pow2(bits) == a && b % Pow2(bits) == b by {
      DivModUnique(a, Pow2(bits), 0, a);
      DivModUnique(b, Pow2(bits), 0, b);
    }
    XorUndo(r, a);
    XorUndo(r, b);
  }

  lemma Pow2Of32()
    ensures Pow2(32) == WORD && Pow2(7) == 0x80
  {
    Powers();
    Pow2Add(8, 8);
    Pow2Add(16, 16);
  }

  lemma {:induction false} ContentSumSame(c1: seq<byte>, c2: seq<byte>, from: nat, n: nat)
    requires from <= n && 4 * n <= |c1| && 4 * n <= |c2|
    requires forall i :: from <= i < n ==> Word(c1, 4 * i) == Word(c2, 4 * i)
    ensures ContentSum(c1, n) - ContentSum(c2, n) == ContentSum(c1, from) - ContentSum(c2, from)
    decreases n
  {
    hide Xor, Word;
    if n <= from {
    } else {
      ContentSumSame(c1, c2, from, n - 1);
      assert Word(c1, 4 * (n - 1)) == Word(c2, 4 * (n - 1));
    }
  }

  lemma SumsDiffer(s1: nat, s2: nat, x: nat, y: nat, m: nat)
    requires m > 0 && s1 - s2 == x - y && x % m != y % m
    ensures s1 % m != s2 % m
  {
    if s1 % m == s2 % m {
      var q := s1 / m - s2 / m;
      assert s1 - s2 == m * (s1 / m) - m * (s2 / m) == m * q;
      assert x == m * (q + y / m) + y % m;
      DivModUnique(x, m, q + y / m, y % m);
    }
  }

  /** Containers of one length that differ in exactly one complete word have
      different content checksums. */
  lemma ContentChecksumDetects(c1: seq<byte>, c2: seq<byte>, w: nat)
    requires |c1| == |c2| && w < |c1| / 4
    requires forall i :: 0 <= i < |c1| / 4 && i != w ==> Word(c1, 4 * i) == Word(c2, 4 * i)
    requires Word(c1, 4 * w) != Word(c2, 4 * w)
    ensures ContentChecksum(c1) != ContentChecksum(c2)
  {
    hide Xor, Word, Pow2, ContentSum;
    var n := |c1| / 4;
    ContentSumSame(c1, c2, 0, w);
    ContentSumSame(c1, c2, w + 1, n);
    ContentSumNext(c1, w);
    ContentSumNext(c2, w);
    Pow2Of32();
    var x, y := Xor(w + 1, Word(c1, 4 * w)), Xor(w + 1, Word(c2, 4 * w));
    XorSeparates(w + 1, Word(c1, 4 * w), Word(c2, 4 * w), 32);
    SumsDiffer(ContentSum(c1, n), ContentSum(c2, n), x, y, WORD);
  }

  lemma ContentSumNext(c: seq<byte>, w: nat)
    requires 4 * w + 4 <= |c|
    ensures ContentSum(c, 0) == 0
    ensures ContentSum(c, w + 1) == ContentSum(c, w) + Xor(w + 1, Word(c, 4 * w))
  {
    hide Xor, Word;
  }

  lemma PacketSumNext(b: seq<byte>, k: byte, j: nat)
    requires |b| >= 7 + j
    ensures PacketSum(b, k, 0) == k
    ensures PacketSum(b, k, j + 1) == PacketSum(b, k, j) + Xor(b[6 + j], j + k)
  {
    hide Xor;
  }

  lemma {:induction false} PacketSumSame(b1: seq<byte>, b2: seq<byte>, k: byte, from: nat, n: nat)
    requires from <= n && 6 + n <= |b1| && 6 + n <= |b2|
    requires forall p :: 6 + from <= p < 6 + n ==> b1[p] == b2[p]
    ensures PacketSum(b1, k, n) - PacketSum(b2, k, n) == PacketSum(b1, k, from) - PacketSum(b2, k, from)
    decreases n
  {
    hide Xor;
    if n <= from {
    } else {
      PacketSumSame(b1, b2, k, from, n - 1);
      assert b1[6 + (n - 1)] == b2[6 + (n - 1)];
    }
  }

  /** Seven-bit messages that differ in exactly one covered byte have different
      packet checksums, whatever the transfer constant. */
  lemma PacketChecksumDetects(b1: seq<byte>, b2: seq<byte>, k: byte, j: nat)
    requires |b1| >= 125 && |b2| >= 125 && j < 119
    requires forall p :: 6 <= p < 125 && p != 6 + j ==> b1[p] == b2[p]
    requires b1[6 + j] < 0x80 && b2[6 + j] < 0x80 && b1[6 + j] != b2[6 + j]
    ensures PacketChecksum(b1, k) != PacketChecksum(b2, k)
  {
    hide Xor, Pow2, PacketSum;
    PacketSumSame(b1, b2, k, 0, j);
    PacketSumSame(b1, b2, k, j + 1, 119);
    PacketSumNext(b1, k, j);
    PacketSumNext(b2, k, j);
    Pow2Of32();
    var x, y := Xor(b1[6 + j], j + k), Xor(b2[6 + j], j + k);
    XorSeparates(j + k, b1[6 + j], b2[6 + j], 7);
    XorCommutes(j + k, b1[6 + j]);
    XorCommutes(j + k, b2[6 + j]);
    SumsDiffer(PacketSum(b1, k, 119), PacketSum(b2, k, 119), x, y, 0x80);
  }

  // ---- What is summed -----------------------------------------------------

  function Total(v: seq<nat>, n: nat): nat
    requires n <= |v|
  {
    if n == 0 then 0 else Total(v, n - 1) + v[n - 1]
  }

  lemma {:induction false} ContentSumIs(c: seq<byte>, v: seq<nat>, n: nat)
    requires 4 * n <= |c| && n <= |v|
    requires forall i :: 0 <= i < n ==> Word(c, 4 * i) == Xor(i + 1, v[i])
    ensures ContentSum(c, n) == Total(v, n)
  {
    hide Xor, Word;
    if n == 0 {
    } else {
      ContentSumIs(c, v, n - 1);
      assert Word(c, 4 * (n - 1)) == Xor(n - 1 + 1, v[n - 1]);
      XorUndo(n, v[n - 1]);
    }
  }

  /** A container whose words are `v` under the mask 1, 2, 3 and so on has the sum of
      `v` for its checksum: word index and start are pinned, and every word counts. */
  lemma ContentChecksumIsTotal(c: seq<byte>, v: seq<nat>)
    requires |v| == |c| / 4 && forall i :: 0 <= i < |v| ==> Word(c, 4 * i) == Xor(i + 1, v[i])
    ensures ContentChecksum(c) == Total(v, |v|) % WORD
  {
    hide Xor, Word, ContentSum;
    ContentSumIs(c, v, |v|);
  }

  /** So the container whose words count 1, 2, 3 and on has checksum zero. */
  lemma CountingContainer(c: seq<byte>)
    requires forall i :: 0 <= i < |c| / 4 ==> Word(c, 4 * i) == i + 1
    ensures ContentChecksum(c) == 0
  {
    hide Xor, Word;
    var v := seq<nat>(|c| / 4, _ => 0);
    forall i | 0 <= i < |v|
      ensures Word(c, 4 * i) == Xor(i + 1, v[i])
    {
      XorZero(i + 1);
      XorCommutes(i + 1, 0);
    }
    ContentChecksumIsTotal(c, v);
    TotalOfZeros(v, |v|);
  }

  lemma {:induction false} TotalOfZeros(v: seq<nat>, n: nat)
    requires n <= |v| && forall i :: 0 <= i < |v| ==> v[i] == 0
    ensures Total(v, n) == 0
  {
    if n == 0 {
    } else {
      TotalOfZeros(v, n - 1);
    }
  }

  lemma {:induction false} PacketSumIs(body: seq<byte>, k: byte, v: seq<nat>, n: nat)
    requires |body| >= 6 + n && n <= |v|
    requires forall i :: 0 <= i < n ==> body[6 + i] == Xor(i + k, v[i])
    ensures PacketSum(body, k, n) == k + Total(v, n)
  {
    hide Xor;
    if n == 0 {
    } else {
      PacketSumIs(body, k, v, n - 1);
      XorCommutes(body[6 + (n - 1)], n - 1 + k);
      XorUndo(n - 1 + k, v[n - 1]);
    }
  }

  /** Likewise a message whose bytes from the sixth on are `v` under the mask k, k+1
      and so on: the checksum is the constant plus the sum of all 119. */
  lemma PacketChecksumIsTotal(body: seq<byte>, k: byte, v: seq<nat>)
    requires |body| >= 125 && |v| == 119
    requires forall i :: 0 <= i < 119 ==> body[6 + i] == Xor(i + k, v[i])
    ensures PacketChecksum(body, k) == (k + Total(v, 119)) % 0x80
  {
    hide Xor, PacketSum, Total;
    PacketSumIs(body, k, v, 119);
  }
}
