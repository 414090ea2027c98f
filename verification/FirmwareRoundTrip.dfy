/** What a reader finds in a rebuilt firmware file: everything that was put in. */
module FirmwareRoundTrip {
  import opened Bytes
  import opened Checksums
  import opened Sysex
  import opened Container
  import opened SectionStore
  import opened Authcode
  import opened Rebuild

  const MAGIC_WORD: u32 := 0x454C_4533

  // ---- Where the magic is found -------------------------------------------

  lemma PackedBytes(n: u32)
    requires n % 16 == 0
    ensures Pack32(n)[3] % 16 == 0
  {
  }

  lemma MagicBytes()
    ensures Pack32(MAGIC_WORD) == MAGIC && Word(MAGIC, 0) == MAGIC_WORD
  {
  }

  lemma MagicWord(w: u32)
    ensures Pack32(w) == MAGIC <==> w == MAGIC_WORD
  {
    MagicBytes();
    hide Pack32, Word;
    var s := Pack32(w);
    assert s[0..4] == s;
    PackUnpack(w, s, 0);
  }

  /** Ahead of a container, whose length is a multiple of sixteen, the search for
      the magic can stop early in one case only, and then at the checksum: when
      that spells the magic. */
  lemma MagicFoundAtContainer(d: seq<byte>, n: u32, checksum: u32, c: seq<byte>)
    requires Pack32(n) + Pack32(checksum) + c <= d
    requires n % 16 == 0 && MAGIC <= c
    ensures FindMagicFrom(d, 0) == Some(if checksum == MAGIC_WORD then 4 else 8)
  {
    PackedBytes(n);
    MagicWord(checksum);
    hide Pack32, FindMagicFrom;
    StreamPrefix(d, Pack32(n), Pack32(checksum), c);
    assert d[8..12] == d[8..][..4] == c[..4] == MAGIC;
    assert d[3] == d[0..4][3] && d[8] == d[8..12][0] && d[9] == d[8..12][1];
    forall k | 0 <= k < 8 && k != 4
      ensures !MagicAt(d, k)
    {
      NoMagicNear(d, k);
    }
    assert MagicAt(d, 4) <==> checksum == MAGIC_WORD;
    FindMagicIsFirst(d, 0, if checksum == MAGIC_WORD then 4 else 8);
  }

  lemma NoMagicNear(d: seq<byte>, k: nat)
    requires |d| >= 12 && d[3] % 16 == 0 && d[8] == 0x45 && d[9] == 0x4C
    requires k < 8 && k != 4
    ensures !MagicAt(d, k)
  {
    var w := d[k..k + 4];
    if k < 4 {
      assert w[3 - k] == d[3] && MAGIC[3 - k] % 16 != 0;
    } else if k == 6 {
      assert w[3] == d[9] && MAGIC[3] != 0x4C;
    } else {
      assert w[8 - k] == d[8] && MAGIC[8 - k] != 0x45;
    }
  }

  // ---- The sealed container -----------------------------------------------

  /** The parts of a sealed container a reader depends on. */
  lemma SealedShape(im: Image, crypto: Crypto)
    requires Storable(im.parts) && SealedContainer(im, crypto).Ok?
    ensures |im.header| == COUNT_OFF && |im.parts| <= 6 && Fits32(EntriesOf(im.parts))
    ensures var c := SealedContainer(im, crypto).value;
            Unsealed(im.header, EntriesOf(im.parts)) <= c && |c| % 16 == 0
  {
    hide EntriesOf, Unsealed, Fits32, Sealed, Offset, DeviceById;
    BodyAligned(EntriesOf(im.parts), |im.parts|);
    var u := Unsealed(im.header, EntriesOf(im.parts));
    SealedKeeps(crypto, u, Zeros(TRAILER_SIZE), DeviceById(im.device).value);
  }

  /** Sealing replaces the last 32 bytes. */
  lemma SealedKeeps(crypto: Crypto, a: seq<byte>, z: seq<byte>, d: Device)
    requires |z| == 32
    ensures a <= Sealed(crypto, a + z, d) && |Sealed(crypto, a + z, d)| == |a| + 32
  {
    hide DeriveKey;
    assert (a + z)[..|a + z| - 32] == a;
  }

  lemma UnsealedSize(header: seq<byte>, entries: seq<Entry>)
    requires |header| == COUNT_OFF && |entries| <= 6 && Fits32(entries)
    ensures |Unsealed(header, entries)| >= TABLE_OFF
  {
    hide Fits32, Body, Rows;
  }

  lemma SectionSlice(c: seq<byte>, a: nat, b: nat)
    requires a <= b <= |c|
    ensures Slice(c, a, b) == c[a..b]
  {
  }

  /** Every content from part `i` on survives storing. */
  ghost predicate AllComeBack(parts: seq<Part>, i: nat)
    requires Storable(parts)
  {
    forall j :: i <= j < |parts| ==> ComesBack(parts[j].id, parts[j].content)
  }

  /** Section by section, the reader recovers the stored contents exactly when
      they all survive storing. */
  lemma {:induction false} PartsReadBack(c: seq<byte>, header: seq<byte>, parts: seq<Part>, i: nat)
    requires Storable(parts) && |header| == COUNT_OFF && |parts| <= 6 && Fits32(EntriesOf(parts))
    requires Unsealed(header, EntriesOf(parts)) <= c
    requires i <= |parts|
    ensures PartsOf(c, SectionList(EntriesOf(parts))[i..], map[]) == Ok(parts[i..]) <==> AllComeBack(parts, i)
    decreases |parts| - i
  {
    hide Unsealed, Fits32, Stored, Offset, SectionsOf, ComesBack, PartsOf, ContentOf, EntriesOf;
    var list := SectionList(EntriesOf(parts));
    NoParts(c);
    if i == |parts| {
      assert list[i..] == [] && parts[i..] == [];
    } else {
      PartsReadBack(c, header, parts, i + 1);
      SectionsReadBack(c, header, EntriesOf(parts));
      PartReadBack(c, EntriesOf(parts), parts, i);
      PartsSplit(c, list, i, parts[i]);
      assert parts[i..] == [parts[i]] + parts[i + 1..];
      assert parts[i..][0] == parts[i] && parts[i..][1..] == parts[i + 1..];
    }
  }

  lemma NoParts(c: seq<byte>)
    ensures PartsOf(c, [], map[]) == Ok([])
  {
  }

  /** The parts from section `i` on begin with `part` exactly when that section's
      content is its content. */
  lemma PartsSplit(c: seq<byte>, list: seq<Section>, i: nat, part: Part)
    requires i < |list| && list[i].id == part.id && list[i].dest == part.dest && Stored(part.id, part.content).Ok?
    ensures var r, rest := PartsOf(c, list[i..], map[]), PartsOf(c, list[i + 1..], map[]);
            if ContentOf(c, list[i], map[]) == Ok(part.content)
            then (if rest.Ok? then r == Ok([part] + rest.value) else r.Err?)
            else r.Ok? ==> r.value != [] && r.value[0] != part
  {
    hide Stored, ContentOf;
    assert list[i..][0] == list[i] && list[i..][1..] == list[i + 1..];
  }

  lemma PartReadBack(c: seq<byte>, entries: seq<Entry>, parts: seq<Part>, i: nat)
    requires Storable(parts) && entries == EntriesOf(parts) && Fits32(entries) && i < |parts|
    requires Offset(entries, i) + |entries[i].data| <= |c|
    requires c[Offset(entries, i)..Offset(entries, i) + |entries[i].data|] == entries[i].data
    ensures |SectionList(entries)| == |parts| && Stored(parts[i].id, parts[i].content).Ok?
    ensures ContentOf(c, SectionList(entries)[i], map[]) == Ok(parts[i].content) <==> ComesBack(parts[i].id, parts[i].content)
    ensures SectionList(entries)[i].id == parts[i].id && SectionList(entries)[i].dest == parts[i].dest
  {
    hide Stored, Recovered, ComesBack, Offset, Fits32;
    SectionSlice(c, Offset(entries, i), Offset(entries, i) + |entries[i].data|);
    StoredComesBack(parts[i].id, parts[i].content);
  }

  // ---- The whole file -----------------------------------------------------

  /** Images `rebuild` can gather: clean framing and a header with the magic. */
  predicate Sendable(im: Image) {
    && Storable(im.parts)
    && CleanFraming(im.first)
    && CleanFraming(im.last)
    && im.device == im.first[4]
    && MAGIC <= im.header
  }

  /** The image with the number of data messages patched into its framing. */
  function Counted(im: Image, crypto: Crypto): (r: Image)
    requires Storable(im.parts) && |im.first| == 16 && |im.last| == 16 && StreamOf(im, crypto).Ok?
  {
    var n := MessageCount(StreamOf(im, crypto).value);
    im.(first := Patched(im.first, n), last := Patched(im.last, n))
  }

  lemma FramingReadBack(stream: seq<byte>, device: byte, first: seq<byte>, last: seq<byte>)
    requires device != STOP && CleanFraming(first) && CleanFraming(last)
    ensures var n := MessageCount(stream);
            Framing(EncodedSyx(stream, device, first, last)) == Ok((Patched(first, n), Patched(last, n)))
  {
    hide Messages, EncodedSyx, Patched, DataMessages;
    EncodedMessages(stream, device, first, last);
  }

  lemma StreamShape(im: Image, crypto: Crypto)
    requires Storable(im.parts) && StreamOf(im, crypto).Ok?
    ensures SealedContainer(im, crypto).Ok?
    ensures var c := SealedContainer(im, crypto).value;
            |c| < WORD && StreamOf(im, crypto).value == Pack32(|c|) + Pack32(ContentChecksum(c)) + c
    ensures DeviceById(im.device).Some? && im.device != STOP
  {
    hide SealedContainer, ContentChecksum, Pack32;
    DeviceKnown(im, crypto);
  }

  lemma DeviceKnown(im: Image, crypto: Crypto)
    requires Storable(im.parts) && SealedContainer(im, crypto).Ok?
    ensures DeviceById(im.device).Some? && im.device != STOP
  {
    hide Built, Sealed;
  }

  lemma StreamPrefix(d: seq<byte>, a: seq<byte>, b: seq<byte>, c: seq<byte>)
    requires |a| == 4 && |b| == 4 && a + b + c <= d
    ensures c <= d[8..] && d[0..4] == a && d[4..8] == b
  {
    var all := a + b + c;
    assert d[..|all|] == all;
    assert d[8..][..|c|] == all[8..];
    assert d[0..4] == all[0..4] && d[4..8] == all[4..8];
  }

  /** Reading a file whose transport and framing are known, the magic at `off`. */
  lemma GatheredFrom(raw: seq<byte>, dec: seq<byte>, first: seq<byte>, last: seq<byte>, off: nat)
    requires off + COUNT_OFF <= |dec| && |first| == 16 && |last| == 16
    requires DecodedSyx(raw) == Ok(dec) && FindMagicFrom(dec, 0) == Some(off)
    requires Framing(raw) == Ok((first, last)) && DeviceById(first[4]).Some?
    ensures var secs := SectionsOf(dec[off..]);
            var r := Gathered(raw, map[]);
            if secs.Err? || PartsOf(dec[off..], secs.value, map[]).Err? then r.Err?
            else r == Ok(Image(dec[off..off + COUNT_OFF], first, last, first[4], PartsOf(dec[off..], secs.value, map[]).value))
  {
    hide DecodedSyx, Framing, FindMagicFrom, SectionsOf, PartsOf, Storable, DeviceById;
    SectionSlice(dec, off, off + COUNT_OFF);
  }

  /** Where the sealed container and its header lie in the decoded stream. */
  lemma StreamHolds(im: Image, crypto: Crypto, dec: seq<byte>)
    requires Sendable(im) && StreamOf(im, crypto).Ok? && StreamOf(im, crypto).value <= dec
    ensures SealedContainer(im, crypto).Ok? && |im.header| == COUNT_OFF && |im.parts| <= 6 && Fits32(EntriesOf(im.parts))
    ensures var c := SealedContainer(im, crypto).value;
            |c| < WORD && |c| % 16 == 0 && MAGIC <= c && |StreamOf(im, crypto).value| == 8 + |c| &&
            Pack32(|c|) + Pack32(ContentChecksum(c)) + c <= dec &&
            Unsealed(im.header, EntriesOf(im.parts)) <= dec[8..]
    ensures |dec| >= 8 + TABLE_OFF && dec[8..8 + COUNT_OFF] == im.header
    ensures dec[4..8] == Pack32(ContentChecksum(SealedContainer(im, crypto).value))
  {
    hide SealedContainer, ContentChecksum, Pack32, EntriesOf, CleanFraming, Storable, Unsealed, Fits32, DeviceById, StreamOf;
    StreamShape(im, crypto);
    SealedShape(im, crypto);
    var c := SealedContainer(im, crypto).value;
    StreamPrefix(dec, Pack32(|c|), Pack32(ContentChecksum(c)), c);
    UnsealedParts(c, im.header, EntriesOf(im.parts));
    UnsealedSize(im.header, EntriesOf(im.parts));
    assert MAGIC <= c by { assert c[..COUNT_OFF] == im.header; }
    assert dec[8..8 + COUNT_OFF] == dec[8..][..COUNT_OFF] == c[..COUNT_OFF];
  }

  /** A reader of the decoded stream finds the container, its table and its parts. */
  lemma StreamReadBack(im: Image, crypto: Crypto, dec: seq<byte>)
    requires Sendable(im) && StreamOf(im, crypto).Ok? && StreamOf(im, crypto).value <= dec
    requires ContentChecksum(SealedContainer(im, crypto).value) != MAGIC_WORD
    ensures FindMagicFrom(dec, 0) == Some(8) && |dec| >= 8 + COUNT_OFF
    ensures dec[8..8 + COUNT_OFF] == im.header && Fits32(EntriesOf(im.parts))
    ensures SectionsOf(dec[8..]) == Ok(SectionList(EntriesOf(im.parts)))
    ensures PartsOf(dec[8..], SectionList(EntriesOf(im.parts)), map[]) == Ok(im.parts) <==> AllComeBack(im.parts, 0)
  {
    hide SealedContainer, ContentChecksum, Pack32, FindMagicFrom, SectionsOf, PartsOf, EntriesOf,
         CleanFraming, AllComeBack, Storable, Unsealed, Fits32, DeviceById, StreamOf, SectionList, Rows;
    StreamHolds(im, crypto, dec);
    var c := SealedContainer(im, crypto).value;
    MagicFoundAtContainer(dec, |c|, ContentChecksum(c), c);
    SectionsReadBack(dec[8..], im.header, EntriesOf(im.parts));
    PartsReadBack(dec[8..], im.header, im.parts, 0);
    var list := SectionList(EntriesOf(im.parts));
    assert list[0..] == list && im.parts[0..] == im.parts;
  }

  // ---- A checksum that spells the magic -----------------------------------

  lemma {:induction false} TableNeeds(c: seq<byte>, k: nat, n: nat)
    requires k < n && TableFrom(c, k, n).Ok?
    ensures TABLE_OFF + ENTRY_SIZE * n <= |c|
    decreases n - k
  {
    hide Word;
    if k + 1 == n {
    } else {
      TableNeeds(c, k + 1, n);
    }
  }

  /** Found four bytes early, the container has a header that repeats the magic to
      its end, and so a count no table in reach can have. */
  lemma EarlyHeaderUnreadable(dec: seq<byte>, header: seq<byte>)
    requires |header| == COUNT_OFF && 8 + TABLE_OFF <= |dec| < WORD + 0x1000
    requires dec[4..8] == MAGIC && dec[8..8 + COUNT_OFF] == header
    ensures dec[4..4 + COUNT_OFF] == header ==> SectionsOf(dec[4..]).Err?
  {
    hide Word, TableFrom;
    if dec[4..4 + COUNT_OFF] == header {
      forall k | 4 <= k < 4 + COUNT_OFF
        ensures dec[k + 4] == dec[k]
      {
        assert dec[8..8 + COUNT_OFF][k - 4] == dec[4..4 + COUNT_OFF][k - 4];
      }
      assert dec[8..12] == dec[4..8];
      assert dec[12..16] == dec[8..12];
      assert dec[16..20] == dec[12..16];
      assert dec[20..24] == dec[16..20];
      assert dec[24..28] == dec[20..24];
      assert dec[28..32] == dec[24..28];
      assert dec[32..36] == dec[28..32];
      var c := dec[4..];
      assert c[COUNT_OFF..COUNT_OFF + 4] == dec[32..36] == MAGIC;
      MagicWord(MAGIC_WORD);
      PackUnpack(MAGIC_WORD, c, COUNT_OFF);
      if TableFrom(c, 0, MAGIC_WORD).Ok? {
        TableNeeds(c, 0, MAGIC_WORD);
      }
    }
  }

  lemma StreamMisread(im: Image, crypto: Crypto, dec: seq<byte>)
    requires Sendable(im) && StreamOf(im, crypto).Ok? && StreamOf(im, crypto).value <= dec
    requires |dec| < |StreamOf(im, crypto).value| + CHUNK_SIZE
    requires ContentChecksum(SealedContainer(im, crypto).value) == MAGIC_WORD
    ensures FindMagicFrom(dec, 0) == Some(4) && 4 + COUNT_OFF <= |dec|
    ensures dec[4..4 + COUNT_OFF] == im.header ==> SectionsOf(dec[4..]).Err?
  {
    hide SealedContainer, ContentChecksum, Pack32, FindMagicFrom, SectionsOf, EntriesOf,
         CleanFraming, Storable, Unsealed, Fits32, DeviceById, StreamOf;
    StreamHolds(im, crypto, dec);
    var c := SealedContainer(im, crypto).value;
    MagicFoundAtContainer(dec, |c|, MAGIC_WORD, c);
    MagicWord(MAGIC_WORD);
    EarlyHeaderUnreadable(dec, im.header);
  }

  /** End to end: reading back an emitted file gives the image that was sent, its
      framing now counting the messages, exactly when the checksum does not spell
      the magic and every content survives storing. */
  lemma EmittedReadsBack(im: Image, crypto: Crypto)
    requires Sendable(im) && Emitted(im, crypto).Ok?
    ensures SealedContainer(im, crypto).Ok?
    ensures Gathered(Emitted(im, crypto).value, map[]) == Ok(Counted(im, crypto)) <==>
            ContentChecksum(SealedContainer(im, crypto).value) != MAGIC_WORD && AllComeBack(im.parts, 0)
  {
    hide SealedContainer, ContentChecksum, EncodedSyx, DecodedSyx, Framing, FindMagicFrom, SectionsOf, PartsOf,
         EntriesOf, Patched, CleanFraming, AllComeBack, Storable, Fits32, DeviceById, PaddedStream, StreamOf,
         SectionList, Gathered;
    StreamShape(im, crypto);
    var stream := StreamOf(im, crypto).value;
    var n, dec := MessageCount(stream), PaddedStream(stream);
    CleanIs16(im);
    SyxRoundTrip(stream, im.device, im.first, im.last);
    FramingReadBack(stream, im.device, im.first, im.last);
    PatchedWellFormed(im.first, n);
    var raw, first, last := Emitted(im, crypto).value, Patched(im.first, n), Patched(im.last, n);
    if ContentChecksum(SealedContainer(im, crypto).value) != MAGIC_WORD {
      StreamReadBack(im, crypto, dec);
      GatheredFrom(raw, dec, first, last, 8);
    } else {
      StreamMisread(im, crypto, dec);
      GatheredFrom(raw, dec, first, last, 4);
    }
  }

  lemma CleanIs16(im: Image)
    requires Sendable(im)
    ensures |im.first| == 16 && |im.last| == 16
  {
    hide Storable;
  }

  /** The preamble and trailer of an emitted file hold: its length and checksum
      words describe the container, and the trailer found is the one computed. */
  lemma EmittedVerifies(im: Image, crypto: Crypto, dec: seq<byte>)
    requires Storable(im.parts) && StreamOf(im, crypto).Ok? && StreamOf(im, crypto).value <= dec
    ensures SealedContainer(im, crypto).Ok? && DeviceById(im.device).Some?
    ensures var c := SealedContainer(im, crypto).value;
            |c| >= 32 && |dec| >= 8 && Word(dec, 0) == |c| && Word(dec, 4) == ContentChecksum(c) &&
            Verified(crypto, dec, DeviceById(im.device).value) == Ok((|c|, c[|c| - 32..], c[|c| - 32..]))
  {
    hide ContentChecksum, Pack32, Word, Storable, EntriesOf, Verified, StreamOf, Sealed, Unsealed, DeviceById;
    StreamShape(im, crypto);
    var c := SealedContainer(im, crypto).value;
    StreamPrefix(dec, Pack32(|c|), Pack32(ContentChecksum(c)), c);
    PackUnpack(|c|, dec, 0);
    PackUnpack(ContentChecksum(c), dec, 4);
    SealVerifies(crypto, Built(im.header, EntriesOf(im.parts)).value, DeviceById(im.device).value, dec, ContentChecksum(c));
  }

  lemma {:induction false} MessagesAreWellFormed(d: seq<byte>, i: nat)
    requires Messages(d, i).Ok?
    ensures AllWellFormed(Messages(d, i).value)
    decreases |d| - i
  {
    hide IndexOfStop;
    if i >= |d| {
    } else {
      var j := IndexOfStop(d, i).value;
      MessagesAreWellFormed(d, j + 1);
      MessageIsWellFormed(d, i, j);
    }
  }

  lemma MessageIsWellFormed(d: seq<byte>, i: nat, j: nat)
    requires i < |d| && d[i] == START && IndexOfStop(d, i) == Some(j)
    ensures WellFormed(d[i..j + 1])
  {
    hide IndexOfStop;
  }

  /** Whatever `rebuild` gathers from a file has clean framing, a known device,
      and a header that begins with the magic when it is a full header. */
  lemma GatheredShape(raw: seq<byte>, replacements: map<int, seq<byte>>)
    requires Gathered(raw, replacements).Ok?
    ensures var im := Gathered(raw, replacements).value;
            Storable(im.parts) && CleanFraming(im.first) && CleanFraming(im.last) && im.device == im.first[4] &&
            (|im.header| == COUNT_OFF ==> MAGIC <= im.header)
  {
    hide Messages, SectionsOf, PartsOf, DeviceById;
    var dec := DecodedSyx(raw).value;
    var off := FindMagicFrom(dec, 0).value;
    FindMagicIsFirst(dec, 0, off);
    hide FindMagicFrom;
    MessagesAreWellFormed(raw, 0);
    var im := Gathered(raw, replacements).value;
    assert WellFormed(im.first) && WellFormed(im.last);
    if |im.header| == COUNT_OFF {
      assert im.header[..4] == dec[off..off + 4];
    }
  }

  /** Emitting an image whose framing already counts its messages changes nothing. */
  lemma CountedEmitsSame(im: Image, crypto: Crypto)
    requires Storable(im.parts) && |im.first| == 16 && |im.last| == 16 && StreamOf(im, crypto).Ok?
    ensures Emitted(Counted(im, crypto), crypto) == Emitted(im, crypto)
  {
    hide Patched, Built, Sealed, EntriesOf, Storable, DataMessages, Concat;
    var n := MessageCount(StreamOf(im, crypto).value);
    PatchedWellFormed(im.first, n);
    PatchedWellFormed(im.last, n);
    assert StreamOf(Counted(im, crypto), crypto) == StreamOf(im, crypto);
  }

  /** What `rebuild` writes is a stream its readers decode, with the preamble and
      trailer of its container: the length, the checksum, and a trailer that
      verification computes again. */
  lemma RebuiltVerifies(raw: seq<byte>, replacements: map<int, seq<byte>>, crypto: Crypto)
    requires Rebuilt(raw, replacements, crypto).Ok?
    ensures var im, dec := Gathered(raw, replacements).value, DecodedSyx(Rebuilt(raw, replacements, crypto).value);
            SealedContainer(im, crypto).Ok? && DeviceById(im.device).Some? && dec.Ok? && |dec.value| >= 8 &&
            var c := SealedContainer(im, crypto).value;
            |c| >= 32 && Word(dec.value, 0) == |c| && Word(dec.value, 4) == ContentChecksum(c) &&
            Verified(crypto, dec.value, DeviceById(im.device).value) == Ok((|c|, c[|c| - 32..], c[|c| - 32..]))
  {
    hide Gathered, SealedContainer, ContentChecksum, EncodedSyx, DecodedSyx, Storable, StreamOf, Patched, DeviceById, Verified,
         Word, PaddedStream;
    GatheredShape(raw, replacements);
    var im := Gathered(raw, replacements).value;
    StreamShape(im, crypto);
    var stream := StreamOf(im, crypto).value;
    SyxRoundTrip(stream, im.device, im.first, im.last);
    EmittedVerifies(im, crypto, PaddedStream(stream));
  }

  /** So in the decoded file the 32 bytes that end the declared length are the code,
      under the device's key, of all bytes between them and the preamble. */
  lemma RebuiltTrailer(raw: seq<byte>, replacements: map<int, seq<byte>>, crypto: Crypto)
    requires Rebuilt(raw, replacements, crypto).Ok?
    ensures var im, dec := Gathered(raw, replacements).value, DecodedSyx(Rebuilt(raw, replacements, crypto).value);
            DeviceById(im.device).Some? && dec.Ok? && |dec.value| >= 8 &&
            var n := Word(dec.value, 0);
            n >= 32 && |dec.value| >= 8 + n &&
            dec.value[8 + n - 32..8 + n] ==
              crypto.hmac(DeriveKey(crypto, DeviceById(im.device).value), dec.value[8..8 + n - 32])
  {
    hide Gathered, DecodedSyx, Rebuilt, SealedContainer, DeviceById, Word, Split, DeriveKey;
    RebuiltVerifies(raw, replacements, crypto);
    CoveredBytes(DecodedSyx(Rebuilt(raw, replacements, crypto).value).value);
  }

  /** Main result. Whatever file and replacements `rebuild` succeeds on, a reader
      of the new file gathers the same header, device, ids, destinations and
      contents exactly when the checksum does not spell the magic and every
      content survives storing; and then rebuilding it once more changes nothing. */
  lemma RebuildReadsBack(raw: seq<byte>, replacements: map<int, seq<byte>>, crypto: Crypto)
    requires Rebuilt(raw, replacements, crypto).Ok?
    ensures var im := Gathered(raw, replacements).value;
            SealedContainer(im, crypto).Ok? && StreamOf(im, crypto).Ok? &&
            var good := ContentChecksum(SealedContainer(im, crypto).value) != MAGIC_WORD && AllComeBack(im.parts, 0);
            (Gathered(Rebuilt(raw, replacements, crypto).value, map[]) == Ok(Counted(im, crypto)) <==> good) &&
            (good ==> Rebuilt(Rebuilt(raw, replacements, crypto).value, map[], crypto) == Rebuilt(raw, replacements, crypto))
  {
    hide Gathered, SealedContainer, ContentChecksum, EncodedSyx, AllComeBack, Storable, StreamOf, Patched;
    GatheredShape(raw, replacements);
    var im := Gathered(raw, replacements).value;
    StreamShape(im, crypto);
    SealedShape(im, crypto);
    EmittedReadsBack(im, crypto);
    CountedEmitsSame(im, crypto);
  }
}
