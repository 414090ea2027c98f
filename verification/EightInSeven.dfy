/** 8-in-7 packing: MIDI carries seven-bit bytes, so each group of up to seven
    data bytes follows a marker byte that holds their high bits
    (`encode_8in7` in dt2/build.py and the inner loop of `decode_syx` in
    dt2/container.py). */
module EightInSeven {
  import opened Bytes

  function HighBits(group: seq<byte>): (bits: seq<bit>)
    ensures |bits| == |group|
  {
    seq(|group|, i requires 0 <= i < |group| => group[i] / 0x80)
  }

  function LowBits(group: seq<byte>): (s: seq<byte>)
    ensures |s| == |group|
  {
    seq(|group|, i requires 0 <= i < |group| => group[i] % 0x80)
  }

  /** Bit 6 - n of the marker is the high bit of byte n; bit 7 stays clear. */
  function Marker(group: seq<byte>): byte
    requires |group| <= 7
  {
    ByteFrom([0] + HighBits(group))
  }

  function Encoded(data: seq<byte>): seq<byte> {
    if data == [] then []
    else
      var n := Min(7, |data|);
      [Marker(data[..n])] + LowBits(data[..n]) + Encoded(data[n..])
  }

  /** `b | 0x80` when `high`, else `b`. */
  function WithHigh(b: byte, high: bit): byte {
    if high == 1 && b < 0x80 then b + 0x80 else b
  }

  /** A group's bytes with the marker's bits put back on top of them. */
  function Restored(marker: byte, low: seq<byte>): (s: seq<byte>)
    requires |low| <= 7
    ensures |s| == |low|
  {
    seq(|low|, i requires 0 <= i < |low| => WithHigh(low[i], BitsOf(marker)[i + 1]))
  }

  function Decoded(payload: seq<byte>): seq<byte> {
    if payload == [] then []
    else
      var n := Min(8, |payload|);
      Restored(payload[0], payload[1..n]) + Decoded(payload[n..])
  }

  predicate SevenBit(s: seq<byte>) {
    forall i :: 0 <= i < |s| ==> s[i] < 0x80
  }

  // ---- The loops ----------------------------------------------------------

  lemma ByteFromSmall(bits: seq<bit>)
    requires 1 <= |bits| <= 8 && bits[0] == 0
    ensures ByteFrom(bits) < 0x80
  {
    assert BitAt(bits, 0) == 0;
  }

  lemma MarkerBits(group: seq<byte>)
    requires |group| <= 7
    ensures var bits := [0] + HighBits(group);
            Marker(group) == ByteFrom(bits) && forall n :: 0 <= n < |group| ==> bits[n + 1] == group[n] / 0x80
  {
    hide ByteFrom;
  }

  lemma NoBits()
    ensures ByteFrom([0]) == 0
  {
  }

  /** One group of `encode_8in7`. */
  method EncodeGroup(group: seq<byte>) returns (out: seq<byte>)
    requires 1 <= |group| <= 7
    ensures out == [Marker(group)] + LowBits(group)
  {
    hide *;
    var marker := 0;
    ghost var bits := [0] + HighBits(group);
    MarkerBits(group);
    NoBits();
    assert bits[..1] == [0];
    for n := 0 to |group|
      invariant marker == ByteFrom(bits[..n + 1])
    {
      ByteFromStep(bits, n + 1);
      if group[n] >= 0x80 {
        marker := marker + ShiftedBit(1, 6 - n);
      } else {
        NoBit(6 - n);
      }
    }
    assert bits[..|group| + 1] == bits;
    out := [marker] + LowBits(group);
  }

  lemma NoBit(k: nat)
    ensures ShiftedBit(0, k) == 0
  {
  }

  lemma {:induction false} EncodedStep(data: seq<byte>, start: nat)
    requires start < |data| && start % 7 == 0
    ensures var n := Min(start + 7, |data|);
            Encoded(data[..n]) == Encoded(data[..start]) + ([Marker(data[start..n])] + LowBits(data[start..n]))
    decreases start
  {
    hide Marker, LowBits;
    var n := Min(start + 7, |data|);
    if start == 0 {
      assert data[..n][n..] == [] && data[..n][..n] == data[0..n] && data[..0] == [];
    } else {
      EncodedStep(data[7..], start - 7);
      assert data[7..][..n - 7] == data[..n][7..] && data[7..][..start - 7] == data[..start][7..];
      assert data[7..][start - 7..n - 7] == data[start..n];
      assert data[..n][..7] == data[..7] == data[..start][..7];
      ConcatAssoc([Marker(data[..7])] + LowBits(data[..7]), Encoded(data[..start][7..]),
                  [Marker(data[start..n])] + LowBits(data[start..n]));
    }
  }

  /** `encode_8in7` */
  method Encode(data: seq<byte>) returns (out: seq<byte>)
    ensures out == Encoded(data)
  {
    hide Marker, LowBits, Encoded;
    out := [];
    var start := 0;
    EncodedNothing();
    assert data[..0] == [];
    while start < |data|
      invariant 0 <= start && start % 7 == 0
      invariant out == Encoded(data[..Min(start, |data|)])
    {
      var coded := EncodeGroup(data[start..Min(start + 7, |data|)]);
      EncodedStep(data, start);
      out := out + coded;
      start := start + 7;
    }
    assert data[..|data|] == data;
  }

  lemma EncodedNothing()
    ensures Encoded([]) == [] && Decoded([]) == []
  {
  }

  /** The inner loop of `decode_syx`: up to seven bytes after the marker at `at`. */
  method RestoreGroup(payload: seq<byte>, at: nat) returns (out: seq<byte>, k: nat)
    requires at < |payload|
    ensures k == at + Min(8, |payload| - at)
    ensures out == Restored(payload[at], payload[at + 1..k])
  {
    hide BitsOf;
    var ms := payload[at];
    out, k := [], at + 1;
    var n := 0;
    while n < 7 && k < |payload|
      invariant 0 <= n <= 7 && k == at + 1 + n <= |payload|
      invariant out == Restored(ms, payload[at + 1..k])
    {
      out := out + [WithHigh(payload[k], BitsOf(ms)[n + 1])];
      k := k + 1;
      n := n + 1;
    }
  }

  lemma DecodedStep(payload: seq<byte>, at: nat)
    requires at < |payload|
    ensures var k := at + Min(8, |payload| - at);
            Decoded(payload[at..]) == Restored(payload[at], payload[at + 1..k]) + Decoded(payload[k..])
  {
    hide Restored;
    var rest, n := payload[at..], Min(8, |payload| - at);
    assert rest[1..n] == payload[at + 1..at + n] && rest[n..] == payload[at + n..];
  }

  /** The payload loop of `decode_syx`: a marker, then up to seven bytes, and again. */
  method Decode(payload: seq<byte>) returns (out: seq<byte>)
    ensures out == Decoded(payload)
  {
    hide Restored, Decoded;
    out := [];
    var k := 0;
    EncodedNothing();
    assert payload[0..] == payload;
    while k < |payload|
      invariant 0 <= k <= |payload|
      invariant out + Decoded(payload[k..]) == Decoded(payload)
    {
      var bytes, next := RestoreGroup(payload, k);
      DecodedStep(payload, k);
      ConcatAssoc(out, bytes, Decoded(payload[next..]));
      out, k := out + bytes, next;
    }
    assert payload[k..] == [];
  }

  // ---- Round trip ---------------------------------------------------------

  lemma RestoredGroup(group: seq<byte>)
    requires |group| <= 7
    ensures Restored(Marker(group), LowBits(group)) == group
    ensures Marker(group) < 0x80 && SevenBit(LowBits(group))
  {
    var bits := [0] + HighBits(group);
    BitsOfByteFrom(bits);
    ByteFromSmall(bits);
    hide BitsOf, ByteFrom;
    forall i | 0 <= i < |group|
      ensures Restored(Marker(group), LowBits(group))[i] == group[i]
    {
      assert BitsOf(Marker(group))[i + 1] == bits[i + 1] == group[i] / 0x80;
    }
  }

  /** Decoding undoes encoding for every byte string, and what is sent is seven-bit. */
  lemma {:induction false} RoundTrip(data: seq<byte>)
    ensures Decoded(Encoded(data)) == data
    ensures SevenBit(Encoded(data))
    ensures |Encoded(data)| == |data| + (|data| + 6) / 7
    decreases |data|
  {
    if data == [] {
    } else {
      hide *;
      var n := if |data| < 7 then |data| else 7;
      var group, rest := data[..n], data[n..];
      EncodedFirst(data);
      RestoredGroup(group);
      RoundTrip(rest);
      if rest == [] {
        EncodedNothing();
      }
      DecodedFirst(Marker(group), LowBits(group), Encoded(rest));
      assert group + rest == data;
    }
  }

  lemma EncodedFirst(data: seq<byte>)
    requires data != []
    ensures var n := if |data| < 7 then |data| else 7;
            Encoded(data) == [Marker(data[..n])] + LowBits(data[..n]) + Encoded(data[n..])
  {
    hide Marker, LowBits, ByteFrom;
    var n := Min(7, |data|);
    assert Encoded(data) == [Marker(data[..n])] + LowBits(data[..n]) + Encoded(data[n..]);
  }

  lemma DecodedFirst(marker: byte, low: seq<byte>, rest: seq<byte>)
    requires |low| == 7 || (|low| < 7 && rest == [])
    ensures Decoded([marker] + low + rest) == Restored(marker, low) + Decoded(rest)
  {
    hide Restored;
    var e := [marker] + low + rest;
    assert e[1..Min(8, |e|)] == low && e[Min(8, |e|)..] == rest;
  }
}
