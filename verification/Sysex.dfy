/** The MIDI SysEx transport: `encode_syx` and its framing messages in
    dt2/build.py, `decode_syx` in dt2/container.py. */
module Sysex {
  import opened Bytes
  import opened EightInSeven
  import opened Checksums

  const START: byte := 0xF0
  const STOP: byte := 0xF7
  const FIRST_COUNTER := 242
  const CHUNK_SIZE := 101

  datatype SyxFault = NoStart(at: nat) | NoStop | MissingFraming

  // ---- Splitting a file into messages -------------------------------------

  /** `d.index(0xF7, i)` */
  function IndexOfStop(d: seq<byte>, i: nat): (j: Option<nat>)
    ensures j.Some? ==> i <= j.value < |d| && d[j.value] == STOP
    ensures j.Some? ==> forall k :: i <= k < j.value ==> d[k] != STOP
    decreases |d| - i
  {
    if i >= |d| then None else if d[i] == STOP then Some(i) else IndexOfStop(d, i + 1)
  }

  /** The messages from position `i` on, each from its F0 to the next F7. */
  function Messages(d: seq<byte>, i: nat): Result<seq<seq<byte>>, SyxFault>
    decreases |d| - i
  {
    if i >= |d| then Ok([])
    else if d[i] != START then Err(NoStart(i))
    else
      match IndexOfStop(d, i)
      case None => Err(NoStop)
      case Some(j) =>
        var rest :- Messages(d, j + 1);
        Ok([d[i..j + 1]] + rest)
  }

  /** The decoded bytes a message carries: none unless its body has 126 bytes. */
  function Carried(msg: seq<byte>): seq<byte> {
    if |msg| != 128 then [] else Decoded(msg[10..126])
  }

  function AllCarried(msgs: seq<seq<byte>>): seq<byte> {
    if msgs == [] then [] else Carried(msgs[0]) + AllCarried(msgs[1..])
  }

  function DecodedSyx(d: seq<byte>): Result<seq<byte>, SyxFault> {
    var msgs :- Messages(d, 0);
    Ok(AllCarried(msgs))
  }

  method FindStop(d: seq<byte>, i: nat) returns (j: Option<nat>)
    ensures j == IndexOfStop(d, i)
  {
    var k := i;
    while k < |d|
      invariant i <= k && IndexOfStop(d, k) == IndexOfStop(d, i)
    {
      if d[k] == STOP {
        return Some(k);
      }
      k := k + 1;
    }
    return None;
  }

  /** The result once `out` is decoded and the messages from `i` on are left. */
  function Finished(d: seq<byte>, i: nat, out: seq<byte>): Result<seq<byte>, SyxFault> {
    var msgs :- Messages(d, i);
    Ok(out + AllCarried(msgs))
  }

  /** What a message carries is read from its body. */
  lemma CarriedInBody(d: seq<byte>, i: nat, j: nat)
    requires i < j < |d|
    ensures var body := d[i + 1..j];
            Carried(d[i..j + 1]) == if |body| == 126 then Decoded(body[9..125]) else []
  {
    hide Decoded;
    if j - i - 1 == 126 {
      SliceOfSlice(d, i, j + 1, 10, 126);
      SliceOfSlice(d, i + 1, j, 9, 125);
    }
  }

  lemma FinishedStep(d: seq<byte>, i: nat, j: nat, out: seq<byte>)
    requires i < |d| && d[i] == START && IndexOfStop(d, i) == Some(j)
    ensures Finished(d, i, out) == Finished(d, j + 1, out + Carried(d[i..j + 1]))
  {
    hide IndexOfStop, Carried;
    if Messages(d, j + 1).Ok? {
      var ms := Messages(d, j + 1).value;
      var m := d[i..j + 1];
      assert ([m] + ms)[1..] == ms;
      ConcatAssoc(out, Carried(m), AllCarried(ms));
    }
  }

  lemma FinishedEnds(d: seq<byte>, i: nat, out: seq<byte>)
    ensures i >= |d| ==> Finished(d, i, out) == Ok(out)
    ensures i < |d| && d[i] != START ==> Finished(d, i, out) == Err(NoStart(i))
    ensures i < |d| && d[i] == START && IndexOfStop(d, i).None? ==> Finished(d, i, out) == Err(NoStop)
  {
    hide IndexOfStop, Carried;
    assert out + [] == out;
  }

  lemma FinishedStarts(d: seq<byte>)
    ensures Finished(d, 0, []) == DecodedSyx(d)
  {
    hide Messages, AllCarried;
    if Messages(d, 0).Ok? {
      var nothing: seq<byte>, all := [], AllCarried(Messages(d, 0).value);
      assert nothing + all == all;
    }
  }

  /** `decode_syx`, on the bytes of the file. */
  method DecodeSyx(d: seq<byte>) returns (r: Result<seq<byte>, SyxFault>)
    ensures r == DecodedSyx(d)
  {
    hide Decoded, IndexOfStop, Finished, DecodedSyx, Messages, AllCarried, Carried;
    var out: seq<byte> := [];
    var i := 0;
    FinishedStarts(d);
    while i < |d|
      invariant 0 <= i && Finished(d, i, out) == DecodedSyx(d)
    {
      FinishedEnds(d, i, out);
      if d[i] != START {
        return Err(NoStart(i));
      }
      var j := FindStop(d, i);
      if j.None? {
        return Err(NoStop);
      }
      var body := d[i + 1..j.value];
      FinishedStep(d, i, j.value, out);
      CarriedInBody(d, i, j.value);
      if |body| == 126 {
        var bytes := Decode(body[9..125]);
        out := out + bytes;
      } else {
        assert out + [] == out;
      }
      i := j.value + 1;
    }
    FinishedEnds(d, i, out);
    return Ok(out);
  }

  // ---- Writing ------------------------------------------------------------

  /** `_patch_framing_count`: the same message with the message count in its body. */
  function Patched(msg: seq<byte>, n: nat): (r: seq<byte>)
    requires |msg| == 16
    ensures |r| == 16
  {
    [START] + msg[1..12] + [n / 0x4000 % 0x80, n / 0x80 % 0x80, n % 0x80] + [STOP]
  }

  method PatchFramingCount(msg: seq<byte>, n: nat) returns (r: seq<byte>)
    requires |msg| == 16
    ensures r == Patched(msg, n)
  {
    var body := msg[1..15];
    body := body[11 := n / 0x4000 % 0x80];
    body := body[12 := n / 0x80 % 0x80];
    body := body[13 := n % 0x80];
    r := [START] + body + [STOP];
  }

  /** The nine header bytes of data message number `counter`. */
  function DataHeader(device: byte, counter: nat): seq<byte> {
    [0x00, 0x20, 0x3C, device, 0x00, 0x7E, counter / 0x4000 % 0x80, counter / 0x80 % 0x80, counter % 0x80]
  }

  function PaddedChunk(chunk: seq<byte>): (r: seq<byte>)
    requires |chunk| <= CHUNK_SIZE
    ensures |r| == CHUNK_SIZE
  {
    chunk + Zeros(CHUNK_SIZE - |chunk|)
  }

  function DataMessage(chunk: seq<byte>, device: byte, counter: nat, k: byte): (m: seq<byte>)
    requires |chunk| == CHUNK_SIZE
    ensures |m| == 128
  {
    EightInSeven.RoundTrip(chunk);
    var body := DataHeader(device, counter) + Encoded(chunk);
    [START] + body + [PacketChecksum(body, k)] + [STOP]
  }

  function DataMessages(stream: seq<byte>, device: byte, counter: nat, k: byte): seq<seq<byte>> {
    if stream == [] then []
    else
      var n := Min(CHUNK_SIZE, |stream|);
      [DataMessage(PaddedChunk(stream[..n]), device, counter, k)] +
        DataMessages(stream[n..], device, counter + 1, k)
  }

  function Concat(msgs: seq<seq<byte>>): seq<byte> {
    if msgs == [] then [] else msgs[0] + Concat(msgs[1..])
  }

  function MessageCount(stream: seq<byte>): nat {
    (|stream| + CHUNK_SIZE - 1) / CHUNK_SIZE
  }

  /** Every message of an encoded file: framing, data, framing. */
  function SyxMessages(stream: seq<byte>, device: byte, first: seq<byte>, last: seq<byte>): seq<seq<byte>>
    requires |first| == 16 && |last| == 16
  {
    var n := MessageCount(stream);
    [Patched(first, n)] + DataMessages(stream, device, FIRST_COUNTER, first[8]) + [Patched(last, n)]
  }

  function EncodedSyx(stream: seq<byte>, device: byte, first: seq<byte>, last: seq<byte>): seq<byte>
    requires |first| == 16 && |last| == 16
  {
    Concat(SyxMessages(stream, device, first, last))
  }

  lemma {:induction false} ConcatAppend(a: seq<seq<byte>>, b: seq<seq<byte>>)
    ensures Concat(a + b) == Concat(a) + Concat(b)
  {
    if a == [] {
      assert a + b == b;
    } else {
      ConcatAppend(a[1..], b);
      assert (a + b)[1..] == a[1..] + b;
      ConcatAssoc(a[0], Concat(a[1..]), Concat(b));
    }
  }

  lemma DataMessagesFirst(stream: seq<byte>, device: byte, counter: nat, k: byte)
    requires stream != []
    ensures var n := Min(CHUNK_SIZE, |stream|);
            var m := DataMessage(PaddedChunk(stream[..n]), device, counter, k);
            Concat(DataMessages(stream, device, counter, k)) ==
              m + Concat(DataMessages(stream[n..], device, counter + 1, k))
  {
    hide DataMessage, PaddedChunk;
    var n := Min(CHUNK_SIZE, |stream|);
    var m := DataMessage(PaddedChunk(stream[..n]), device, counter, k);
    var rest := DataMessages(stream[n..], device, counter + 1, k);
    assert DataMessages(stream, device, counter, k) == [m] + rest;
    assert ([m] + rest)[1..] == rest;
  }

  /** One turn of the loop in `encode_syx`. */
  method EncodeMessage(part: seq<byte>, device: byte, counter: nat, k: byte) returns (m: seq<byte>)
    requires 1 <= |part| <= CHUNK_SIZE
    ensures m == DataMessage(PaddedChunk(part), device, counter, k)
  {
    hide Encoded, PacketChecksum;
    var chunk := part;
    if |chunk| < CHUNK_SIZE {
      chunk := chunk + Zeros(CHUNK_SIZE - |chunk|);
    } else {
      assert chunk + Zeros(0) == chunk;
    }
    EightInSeven.RoundTrip(chunk);
    var payload := Encode(chunk);
    var b6, b7, b8 := counter / 0x4000 % 0x80, counter / 0x80 % 0x80, counter % 0x80;
    var body: seq<byte> := [0x00, 0x20, 0x3C, device, 0x00, 0x7E, b6, b7, b8] + payload;
    var check := ComputePacketChecksum(body, k);
    ChecksumIsSevenBit(body, k);
    m := [START] + body + [check % 0x80] + [STOP];
  }

  lemma ChecksumIsSevenBit(body: seq<byte>, k: byte)
    requires |body| >= 125
    ensures PacketChecksum(body, k) < 0x80
  {
    hide PacketSum;
  }

  /** The data messages from offset `start` on: one chunk's, and those after it. */
  lemma DataMessagesFrom(stream: seq<byte>, start: nat, device: byte, counter: nat, k: byte)
    requires start < |stream|
    ensures var end := Min(start + CHUNK_SIZE, |stream|);
            Concat(DataMessages(stream[start..], device, counter, k)) ==
              DataMessage(PaddedChunk(stream[start..end]), device, counter, k) + Concat(DataMessages(stream[end..], device, counter + 1, k))
  {
    hide DataMessage, PaddedChunk, Concat, DataMessages;
    var end := Min(start + CHUNK_SIZE, |stream|);
    var rest := stream[start..];
    assert rest[..end - start] == stream[start..end] && rest[end - start..] == stream[end..];
    DataMessagesFirst(rest, device, counter, k);
  }

  /** `encode_syx` with its own checksum. */
  method EncodeSyx(stream: seq<byte>, device: byte, first: seq<byte>, last: seq<byte>) returns (out: seq<byte>)
    requires |first| == 16 && |last| == 16
    ensures out == EncodedSyx(stream, device, first, last)
  {
    hide DataMessage, PaddedChunk, Patched, Concat, DataMessages, EncodedSyx, MessageCount;
    var k := first[8];
    var n := MessageCount(stream);
    var head := PatchFramingCount(first, n);
    var tail := PatchFramingCount(last, n);
    out := head;
    var counter := FIRST_COUNTER;
    ghost var data := Concat(DataMessages(stream, device, FIRST_COUNTER, k));
    var start := 0;
    assert stream[0..] == stream;
    while start < |stream|
      invariant 0 <= start && counter >= 0
      invariant out + Concat(DataMessages(stream[Min(start, |stream|)..], device, counter, k)) == head + data
    {
      var end := Min(start + CHUNK_SIZE, |stream|);
      DataMessagesFrom(stream, start, device, counter, k);
      var m := EncodeMessage(stream[start..end], device, counter, k);
      ConcatAssoc(out, m, Concat(DataMessages(stream[end..], device, counter + 1, k)));
      out := out + m;
      counter := counter + 1;
      start := start + CHUNK_SIZE;
    }
    NoDataMessages(device, counter, k);
    assert stream[|stream|..] == [] && out + [] == out;
    FileParts(stream, device, first, last);
    out := out + tail;
  }

  /** The file is its opening, its data messages and its closing. */
  lemma FileParts(stream: seq<byte>, device: byte, first: seq<byte>, last: seq<byte>)
    requires |first| == 16 && |last| == 16
    ensures var n := MessageCount(stream);
            EncodedSyx(stream, device, first, last) ==
              Patched(first, n) + Concat(DataMessages(stream, device, FIRST_COUNTER, first[8])) + Patched(last, n)
  {
    hide Patched, Concat, DataMessages;
    var n := MessageCount(stream);
    var head, data, tail := Patched(first, n), DataMessages(stream, device, FIRST_COUNTER, first[8]), Patched(last, n);
    ConcatAppend([head] + data, [tail]);
    ConcatAppend([head], data);
    ConcatOne(head);
    ConcatOne(tail);
  }

  lemma NoDataMessages(device: byte, counter: nat, k: byte)
    ensures Concat(DataMessages([], device, counter, k)) == []
  {
  }

  lemma ConcatOne(m: seq<byte>)
    ensures Concat([m]) == m
  {
    assert [m][1..] == [];
    assert Concat([m]) == m + [];
  }

  // ---- Round trip ---------------------------------------------------------

  /** F0, then bytes other than F7, then F7. */
  predicate WellFormed(m: seq<byte>) {
    && |m| >= 2
    && m[0] == START
    && m[|m| - 1] == STOP
    && forall i :: 1 <= i < |m| - 1 ==> m[i] != STOP
  }

  predicate AllWellFormed(ms: seq<seq<byte>>) {
    forall i :: 0 <= i < |ms| ==> WellFormed(ms[i])
  }

  lemma {:induction false} StopAt(d: seq<byte>, i: nat, j: nat)
    requires i <= j < |d| && d[j] == STOP
    requires forall k :: i <= k < j ==> d[k] != STOP
    ensures IndexOfStop(d, i) == Some(j)
    decreases j - i
  {
    if i >= j {
    } else {
      StopAt(d, i + 1, j);
    }
  }

  /** The search for F7 always ends at the message's own last byte. */
  lemma MessageAt(d: seq<byte>, i: nat, m: seq<byte>)
    requires WellFormed(m) && i + |m| <= |d| && d[i..i + |m|] == m
    ensures d[i] == START && IndexOfStop(d, i) == Some(i + |m| - 1)
  {
    hide IndexOfStop;
    forall k | 0 <= k < |m|
      ensures d[i + k] == m[k]
    {
      assert d[i..i + |m|][k] == m[k];
    }
    forall k | i <= k < i + |m| - 1
      ensures d[k] != STOP
    {
      assert d[i + (k - i)] == m[k - i];
    }
    StopAt(d, i, i + |m| - 1);
  }

  /** Splitting a concatenation of well-formed messages gives those messages. */
  lemma {:induction false} MessagesOfConcat(d: seq<byte>, i: nat, ms: seq<seq<byte>>)
    requires AllWellFormed(ms) && i <= |d| && d[i..] == Concat(ms)
    ensures Messages(d, i) == Ok(ms)
    decreases |ms|
  {
    hide IndexOfStop, WellFormed, Messages, Concat;
    ConcatFirst(ms);
    if ms == [] {
      NoMessages(d, i);
    } else {
      var m := ms[0];
      MessageShape(m);
      Prefix(d, i, m, Concat(ms[1..]));
      MessageAt(d, i, m);
      MessagesOfConcat(d, i + |m|, ms[1..]);
      MessagesFirst(d, i, i + |m| - 1);
      assert ms == [m] + ms[1..];
    }
  }

  lemma ConcatFirst(ms: seq<seq<byte>>)
    ensures Concat(ms) == if ms == [] then [] else ms[0] + Concat(ms[1..])
  {
  }

  lemma NoMessages(d: seq<byte>, i: nat)
    requires i <= |d| && d[i..] == []
    ensures Messages(d, i) == Ok([])
  {
    assert |d[i..]| == |d| - i;
  }

  /** The first message, and those after it. */
  lemma MessagesFirst(d: seq<byte>, i: nat, j: nat)
    requires i < |d| && d[i] == START && IndexOfStop(d, i) == Some(j)
    ensures Messages(d, j + 1).Ok? ==> Messages(d, i) == Ok([d[i..j + 1]] + Messages(d, j + 1).value)
  {
    hide IndexOfStop;
  }

  lemma Prefix(d: seq<byte>, i: nat, a: seq<byte>, b: seq<byte>)
    requires i <= |d| && d[i..] == a + b
    ensures i + |a| <= |d| && d[i..i + |a|] == a && d[i + |a|..] == b
  {
    assert |d[i..]| == |d| - i;
    assert d[i..i + |a|] == d[i..][..|a|] && d[i + |a|..] == d[i..][|a|..];
  }

  lemma MessageShape(m: seq<byte>)
    requires WellFormed(m)
    ensures |m| >= 2
  {
  }

  /** A data message carries its chunk encoded, in a body of 126 bytes; for a
      seven-bit device id every byte of the body is seven-bit. */
  lemma DataMessageParts(chunk: seq<byte>, device: byte, counter: nat, k: byte)
    requires |chunk| == CHUNK_SIZE && device != STOP
    ensures var m := DataMessage(chunk, device, counter, k);
            WellFormed(m) && |m[1..127]| == |m| - 2 == 126 && m[10..126] == Encoded(chunk) &&
            (device < 0x80 ==> SevenBit(m[1..127]))
  {
    hide Encoded, PacketChecksum, DataHeader;
    EightInSeven.RoundTrip(chunk);
    var header, payload := DataHeader(device, counter), Encoded(chunk);
    var body := header + payload;
    HeaderBytes(device, counter);
    ChecksumIsSevenBit(body, k);
    var m := DataMessage(chunk, device, counter, k);
    assert m == [START] + body + [PacketChecksum(body, k)] + [STOP];
    forall i | 1 <= i < 127
      ensures m[i] < 0x80 || (m[i] == device && i < 10)
    {
      if i < 10 {
        assert m[i] == header[i - 1];
      } else if i < 126 {
        assert m[i] == payload[i - 10];
      }
    }
  }

  lemma HeaderBytes(device: byte, counter: nat)
    ensures |DataHeader(device, counter)| == 9
    ensures forall i :: 0 <= i < 9 ==> DataHeader(device, counter)[i] < 0x80 || DataHeader(device, counter)[i] == device
  {
  }

  lemma CarriedChunk(chunk: seq<byte>, device: byte, counter: nat, k: byte)
    requires |chunk| == CHUNK_SIZE && device != STOP
    ensures WellFormed(DataMessage(chunk, device, counter, k))
    ensures Carried(DataMessage(chunk, device, counter, k)) == chunk
  {
    hide Encoded, Decoded, WellFormed, PacketChecksum;
    DataMessageParts(chunk, device, counter, k);
    EightInSeven.RoundTrip(chunk);
  }

  /** `stream` with zeros up to a multiple of the chunk size. */
  function PaddedStream(stream: seq<byte>): (r: seq<byte>)
    ensures stream <= r && |r| % CHUNK_SIZE == 0 && |r| < |stream| + CHUNK_SIZE
  {
    stream + Zeros(MessageCount(stream) * CHUNK_SIZE - |stream|)
  }

  lemma {:induction false} DataMessagesCarry(stream: seq<byte>, device: byte, counter: nat, k: byte)
    requires device != STOP
    ensures AllWellFormed(DataMessages(stream, device, counter, k))
    ensures AllCarried(DataMessages(stream, device, counter, k)) == PaddedStream(stream)
    decreases |stream|
  {
    hide WellFormed, Carried, DataMessage;
    if stream == [] {
    } else {
      var n := Min(CHUNK_SIZE, |stream|);
      var chunk := PaddedChunk(stream[..n]);
      var m := DataMessage(chunk, device, counter, k);
      var rest := DataMessages(stream[n..], device, counter + 1, k);
      CarriedChunk(chunk, device, counter, k);
      DataMessagesCarry(stream[n..], device, counter + 1, k);
      assert DataMessages(stream, device, counter, k) == [m] + rest;
      assert ([m] + rest)[1..] == rest;
      PaddedStreamFirst(stream);
    }
  }

  lemma PaddedStreamFirst(stream: seq<byte>)
    requires stream != []
    ensures var n := Min(CHUNK_SIZE, |stream|);
            PaddedStream(stream) == PaddedChunk(stream[..n]) + PaddedStream(stream[n..])
  {
    var n := Min(CHUNK_SIZE, |stream|);
    if |stream| > CHUNK_SIZE {
      assert MessageCount(stream) == 1 + MessageCount(stream[n..]);
    }
  }

  /** A framing message `encode_syx` can reuse: sixteen bytes with no F7 outside
      its last byte and the three that hold the count. */
  predicate CleanFraming(msg: seq<byte>) {
    && |msg| == 16
    && forall i :: 1 <= i < 12 ==> msg[i] != STOP
  }

  lemma PatchedWellFormed(msg: seq<byte>, n: nat)
    requires |msg| == 16
    ensures WellFormed(Patched(msg, n)) <==> CleanFraming(msg)
    ensures Carried(Patched(msg, n)) == []
    ensures Patched(Patched(msg, n), n) == Patched(msg, n)
    ensures forall i :: 1 <= i < 12 ==> Patched(msg, n)[i] == msg[i]
  {
    var p := Patched(msg, n);
    assert forall i :: 1 <= i < 12 ==> p[i] == msg[i];
    assert p[12] < 0x80 && p[13] < 0x80 && p[14] < 0x80;
    assert p[1..12] == msg[1..12];
  }

  /** Splitting an encoded file gives back the messages it was made of. */
  lemma EncodedMessages(stream: seq<byte>, device: byte, first: seq<byte>, last: seq<byte>)
    requires device != STOP && CleanFraming(first) && CleanFraming(last)
    ensures Messages(EncodedSyx(stream, device, first, last), 0) == Ok(SyxMessages(stream, device, first, last))
  {
    hide WellFormed, DataMessages, Patched, Concat;
    var n := MessageCount(stream);
    PatchedWellFormed(first, n);
    PatchedWellFormed(last, n);
    DataMessagesCarry(stream, device, FIRST_COUNTER, first[8]);
    var d := EncodedSyx(stream, device, first, last);
    assert d[0..] == d;
    MessagesOfConcat(d, 0, SyxMessages(stream, device, first, last));
  }

  lemma {:induction false} AllCarriedConcat(a: seq<seq<byte>>, b: seq<seq<byte>>)
    ensures AllCarried(a + b) == AllCarried(a) + AllCarried(b)
  {
    hide Carried;
    if a == [] {
      assert a + b == b;
    } else {
      AllCarriedConcat(a[1..], b);
      assert (a + b)[1..] == a[1..] + b;
      ConcatAssoc(Carried(a[0]), AllCarried(a[1..]), AllCarried(b));
    }
  }

  /** Decoding an encoded file gives the stream back, zero-padded to whole
      chunks, for every stream, every device id but F7 and all clean framing. */
  lemma SyxRoundTrip(stream: seq<byte>, device: byte, first: seq<byte>, last: seq<byte>)
    requires device != STOP && CleanFraming(first) && CleanFraming(last)
    ensures DecodedSyx(EncodedSyx(stream, device, first, last)) == Ok(PaddedStream(stream))
  {
    hide Messages, DataMessages, Patched, EncodedSyx, Carried;
    EncodedMessages(stream, device, first, last);
    var n := MessageCount(stream);
    PatchedWellFormed(first, n);
    PatchedWellFormed(last, n);
    var data := DataMessages(stream, device, FIRST_COUNTER, first[8]);
    DataMessagesCarry(stream, device, FIRST_COUNTER, first[8]);
    AllCarriedConcat([Patched(first, n)] + data, [Patched(last, n)]);
    AllCarriedConcat([Patched(first, n)], data);
    AllCarriedOne(Patched(first, n));
    AllCarriedOne(Patched(last, n));
    hide AllCarried;
    var nothing: seq<byte> := [];
    assert nothing + PaddedStream(stream) + nothing == PaddedStream(stream);
  }

  lemma AllCarriedOne(m: seq<byte>)
    ensures AllCarried([m]) == Carried(m)
  {
    assert [m][1..] == [];
    assert AllCarried([m]) == Carried(m) + [];
  }
}
