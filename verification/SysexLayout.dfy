/** Where every byte of an encoded file is: headers, counters, checksums, counts
    and the packed data bits, by position. */
module SysexLayout {
  import opened Bytes
  import opened EightInSeven
  import opened Checksums
  import opened Sysex

  // ---- Base 128 -----------------------------------------------------------

  /** The number three seven-bit bytes spell, most significant first. */
  function Base128(a: byte, b: byte, c: byte): nat {
    a as int * 0x4000 + b as int * 0x80 + c as int
  }

  lemma Base128Reads(n: nat)
    ensures Base128(n / 0x4000 % 0x80, n / 0x80 % 0x80, n % 0x80) == n % 0x20_0000
  {
    var q, r := n / 0x20_0000, n % 0x20_0000;
    var h, t := r / 0x4000, r % 0x4000;
    assert n == 0x20_0000 * q + r && r == 0x4000 * h + t && h < 0x80;
    assert n / 0x4000 == 0x80 * q + h by { DivModUnique(n, 0x4000, 0x80 * q + h, t); }
    assert n / 0x80 == 0x4000 * q + 0x80 * h + t / 0x80 by { DivModUnique(n, 0x80, 0x4000 * q + 0x80 * h + t / 0x80, t % 0x80); }
    assert n / 0x4000 % 0x80 == h by { DivModUnique(n / 0x4000, 0x80, q, h); }
    assert n / 0x80 % 0x80 == t / 0x80 by { DivModUnique(n / 0x80, 0x80, 0x80 * q + h, t / 0x80); }
    assert n % 0x80 == t % 0x80 by { DivModUnique(n, 0x80, 0x4000 * q + 0x80 * h + t / 0x80, t % 0x80); }
  }

  // ---- Messages -----------------------------------------------------------

  /** The bytes message number `i` carries. */
  function ChunkAt(stream: seq<byte>, i: nat): (r: seq<byte>)
    requires CHUNK_SIZE * i < |stream|
    ensures |r| == CHUNK_SIZE
  {
    PaddedChunk(stream[CHUNK_SIZE * i..Min(CHUNK_SIZE * (i + 1), |stream|)])
  }

  lemma {:induction false} DataMessageAt(stream: seq<byte>, device: byte, counter: nat, k: byte, i: nat)
    requires CHUNK_SIZE * i < |stream|
    ensures var ms := DataMessages(stream, device, counter, k);
            |ms| == MessageCount(stream) && i < |ms| && ms[i] == DataMessage(ChunkAt(stream, i), device, counter + i, k)
    decreases |stream|
  {
    hide DataMessage, PaddedChunk, DataMessages;
    var n := Min(CHUNK_SIZE, |stream|);
    var rest := stream[n..];
    DataMessagesCount(stream, device, counter, k);
    DataMessagesSplit(stream, device, counter, k);
    if i == 0 {
      assert stream[CHUNK_SIZE * i..Min(CHUNK_SIZE * (i + 1), |stream|)] == stream[..n];
    } else {
      DataMessageAt(rest, device, counter + 1, k, i - 1);
      ChunkInRest(stream, i);
    }
  }

  lemma ChunkInRest(stream: seq<byte>, i: nat)
    requires i >= 1 && CHUNK_SIZE * i < |stream|
    ensures ChunkAt(stream[CHUNK_SIZE..], i - 1) == ChunkAt(stream, i)
  {
    hide PaddedChunk;
    var rest := stream[CHUNK_SIZE..];
    var a, b := CHUNK_SIZE * (i - 1), Min(CHUNK_SIZE * i, |rest|);
    assert rest == stream[CHUNK_SIZE..|stream|];
    SliceOfSlice(stream, CHUNK_SIZE, |stream|, a, b);
    assert CHUNK_SIZE + a == CHUNK_SIZE * i && CHUNK_SIZE + b == Min(CHUNK_SIZE * (i + 1), |stream|);
  }

  lemma DataMessagesSplit(stream: seq<byte>, device: byte, counter: nat, k: byte)
    requires stream != []
    ensures var n := Min(CHUNK_SIZE, |stream|);
            DataMessages(stream, device, counter, k) ==
              [DataMessage(PaddedChunk(stream[..n]), device, counter, k)] + DataMessages(stream[n..], device, counter + 1, k)
  {
    hide DataMessage, PaddedChunk;
  }

  lemma {:induction false} DataMessagesCount(stream: seq<byte>, device: byte, counter: nat, k: byte)
    ensures |DataMessages(stream, device, counter, k)| == MessageCount(stream)
    decreases |stream|
  {
    hide DataMessage, PaddedChunk;
    if stream == [] {
    } else {
      DataMessagesCount(stream[Min(CHUNK_SIZE, |stream|)..], device, counter + 1, k);
    }
  }

  /** A data message byte by byte: start, manufacturer, device, the constant
      bytes, its number in base 128, the packed chunk, the checksum, stop. */
  lemma MessageLayout(chunk: seq<byte>, device: byte, counter: nat, k: byte)
    requires |chunk| == CHUNK_SIZE
    ensures var m := DataMessage(chunk, device, counter, k);
            |m| == 128 && m[0] == 0xF0 && m[127] == 0xF7 &&
            m[1] == 0x00 && m[2] == 0x20 && m[3] == 0x3C && m[4] == device && m[5] == 0x00 && m[6] == 0x7E &&
            m[7] < 0x80 && m[8] < 0x80 && m[9] < 0x80 && Base128(m[7], m[8], m[9]) == counter % 0x20_0000 &&
            Decoded(m[10..126]) == chunk && m[126] == PacketChecksum(m[1..126], k)
  {
    hide Encoded, Decoded, PacketChecksum;
    EightInSeven.RoundTrip(chunk);
    var header, payload := DataHeader(device, counter), Encoded(chunk);
    var body := header + payload;
    var m := DataMessage(chunk, device, counter, k);
    assert m == [START] + body + [PacketChecksum(body, k)] + [STOP];
    assert m[1..126] == body && m[10..126] == payload;
    assert forall i :: 0 <= i < 9 ==> m[1 + i] == header[i];
    Base128Reads(counter);
    hide Base128;
  }

  /** A patched framing message keeps its bytes but for the count, which reads back. */
  lemma FramingLayout(msg: seq<byte>, n: nat)
    requires |msg| == 16
    ensures var m := Patched(msg, n);
            |m| == 16 && m[0] == 0xF0 && m[15] == 0xF7 && m[1..12] == msg[1..12] &&
            m[12] < 0x80 && m[13] < 0x80 && m[14] < 0x80 && Base128(m[12], m[13], m[14]) == n % 0x20_0000
  {
    Base128Reads(n);
    hide Base128;
  }

  /** Main result: the messages of an encoded file are the opening, one data
      message for every 101 bytes, numbered from 242, and the closing; each message
      has the layout above, carries its 101 bytes, and both framings hold how many
      data messages there are. */
  lemma EncodedLayout(stream: seq<byte>, device: byte, first: seq<byte>, last: seq<byte>, i: nat)
    requires device != STOP && CleanFraming(first) && CleanFraming(last) && CHUNK_SIZE * i < |stream|
    ensures Messages(EncodedSyx(stream, device, first, last), 0).Ok?
    ensures var ms, n := Messages(EncodedSyx(stream, device, first, last), 0).value, (|stream| + 100) / 101;
            |ms| == n + 2 && i < n &&
            var m, a, z := ms[i + 1], ms[0], ms[n + 1];
            |m| == 128 && |a| == 16 && |z| == 16 &&
            m[0] == 0xF0 && m[1..4] == [0x00, 0x20, 0x3C] && m[4] == device && m[5] == 0x00 && m[6] == 0x7E &&
            Base128(m[7], m[8], m[9]) == (242 + i) % 0x20_0000 &&
            Decoded(m[10..126]) == ChunkAt(stream, i) && m[126] == PacketChecksum(m[1..126], first[8]) &&
            a[1..12] == first[1..12] && z[1..12] == last[1..12] &&
            Base128(a[12], a[13], a[14]) == n % 0x20_0000 && Base128(z[12], z[13], z[14]) == n % 0x20_0000
  {
    hide DataMessage, DataMessages, Patched, Decoded, PacketChecksum, Messages, EncodedSyx, ChunkAt, Base128;
    EncodedMessages(stream, device, first, last);
    var n := MessageCount(stream);
    DataMessageAt(stream, device, FIRST_COUNTER, first[8], i);
    MessageLayout(ChunkAt(stream, i), device, FIRST_COUNTER + i, first[8]);
    FramingLayout(first, n);
    FramingLayout(last, n);
    var m := DataMessage(ChunkAt(stream, i), device, FIRST_COUNTER + i, first[8]);
    assert m[1..4] == [m[1], m[2], m[3]];
  }

  // ---- Packed bits --------------------------------------------------------

  /** Byte `r` of group `q`, split: its low seven bits at its place behind the
      marker, and its high bit in the marker, bit 6 for the first byte, bit 0 for
      the last. */
  lemma {:induction false} PackedAt(data: seq<byte>, q: nat, r: nat)
    requires r < 7 && 7 * q + r < |data|
    ensures var e := Encoded(data);
            8 * q + 1 + r < |e| && e[8 * q + 1 + r] == data[7 * q + r] % 0x80 &&
            e[8 * q] / Pow2(6 - r) % 2 == data[7 * q + r] / 0x80
    decreases q
  {
    hide Pow2, Encoded;
    if q == 0 {
      FirstGroup(data, r);
    } else {
      PackedAt(data[7..], q - 1, r);
      EncodedAfter(data);
      assert data[7..][7 * (q - 1) + r] == data[7 * q + r];
    }
  }

  lemma FirstGroup(data: seq<byte>, j: nat)
    requires j < |data| && j < 7
    ensures var e := Encoded(data);
            |e| > 1 + j && e[1 + j] == data[j] % 0x80 && e[0] / Pow2(6 - j) % 2 == data[j] / 0x80
  {
    hide Pow2, Marker;
    var group := data[..Min(7, |data|)];
    MarkerBit(group, j);
  }

  lemma EncodedAfter(data: seq<byte>)
    requires |data| >= 7
    ensures |Encoded(data)| == 8 + |Encoded(data[7..])|
    ensures forall k :: 0 <= k < |Encoded(data[7..])| ==> Encoded(data)[8 + k] == Encoded(data[7..])[k]
  {
    hide Marker, LowBits;
  }

  lemma MarkerBit(group: seq<byte>, j: nat)
    requires j < |group| <= 7
    ensures Marker(group) / Pow2(6 - j) % 2 == group[j] / 0x80
  {
    hide ByteFrom, Pow2, BitsOf;
    var bits := [0] + HighBits(group);
    BitsOfByteFrom(bits);
    BitByPower(Marker(group), j + 1);
  }

  /** The bits of a byte by their weights. */
  lemma BitByPower(b: byte, i: nat)
    requires i < 8
    ensures BitsOf(b)[i] == b / Pow2(7 - i) % 2
  {
    Powers();
    hide Pow2;
    assert b / 128 % 2 == b / 128 && b / 1 == b;
  }
}
