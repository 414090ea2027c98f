/** `rebuild` in dt2/build.py: take a firmware file apart, store its sections
    again, and write a new file, with everything a reader of the result finds. */
module Rebuild {
  import opened Bytes
  import opened LzLayout
  import opened Checksums
  import opened Sysex
  import opened Container
  import opened SectionStore
  import opened Authcode

  datatype RebuildFault =
    | Transport(syx: SyxFault)
    | Layout(box: ContainerFault)
    | Depack(lz: Fault)
    | Store(store: StoreFault)
    | UnknownDevice(id: byte)

  /** One section as a reader sees it: id, destination word, decompressed bytes. */
  datatype Part = Part(id: u32, dest: u32, content: seq<byte>)

  /** Everything `rebuild` takes from a source file. */
  datatype Image = Image(header: seq<byte>, first: seq<byte>, last: seq<byte>, device: byte, parts: seq<Part>)

  // ---- Taking a file apart ------------------------------------------------

  /** `s[a:b]` for nonnegative bounds, which Python clips. */
  function Slice(s: seq<byte>, a: nat, b: nat): seq<byte> {
    if a >= |s| || b <= a then [] else s[a..Min(b, |s|)]
  }

  /** `_source_framing` */
  function Framing(raw: seq<byte>): (r: Result<(seq<byte>, seq<byte>), SyxFault>)
    ensures r.Ok? ==> |r.value.0| == 16 && |r.value.1| == 16
  {
    var msgs :- Messages(raw, 0);
    if |msgs| < 2 || |msgs[0]| != 16 || |msgs[|msgs| - 1]| != 16 then Err(MissingFraming)
    else Ok((msgs[0], msgs[|msgs| - 1]))
  }

  function Lift<T, E>(r: Result<T, E>, f: E -> RebuildFault): Result<T, RebuildFault> {
    match r case Ok(v) => Ok(v) case Err(e) => Err(f(e))
  }

  /** One section's content: its replacement, or what it decompresses to. */
  function ContentOf(c: seq<byte>, s: Section, replacements: map<int, seq<byte>>): Result<seq<byte>, RebuildFault> {
    if s.id in replacements then Ok(replacements[s.id])
    else Lift(Recovered(Slice(c, s.offset, s.offset + s.size)), e => Depack(e))
  }

  /** The parts of all sections, each of which must also be storable again. */
  function PartsOf(c: seq<byte>, secs: seq<Section>, replacements: map<int, seq<byte>>): (r: Result<seq<Part>, RebuildFault>)
    ensures r.Ok? ==> Storable(r.value)
  {
    if secs == [] then Ok([])
    else
      var content :- ContentOf(c, secs[0], replacements);
      var stored :- Lift(Stored(secs[0].id, content), e => Store(e));
      var rest :- PartsOf(c, secs[1..], replacements);
      Ok([Part(secs[0].id, secs[0].dest, content)] + rest)
  }

  predicate Storable(parts: seq<Part>) {
    forall i :: 0 <= i < |parts| ==> Stored(parts[i].id, parts[i].content).Ok?
  }

  /** The first half of `rebuild`, on the bytes of the source file. */
  function Gathered(raw: seq<byte>, replacements: map<int, seq<byte>>): (r: Result<Image, RebuildFault>)
    ensures r.Ok? ==> Storable(r.value.parts) && |r.value.first| == 16 && |r.value.last| == 16
  {
    var dec :- Lift(DecodedSyx(raw), e => Transport(e));
    match FindMagicFrom(dec, 0)
    case None => Err(Layout(NoMagic))
    case Some(off) =>
      var (first, last) :- Lift(Framing(raw), e => Transport(e));
      var device := first[4];
      if DeviceById(device).None? then Err(UnknownDevice(device))
      else
        var secs :- Lift(SectionsOf(dec[off..]), e => Layout(e));
        var parts :- PartsOf(dec[off..], secs, replacements);
        Ok(Image(Slice(dec, off, off + COUNT_OFF), first, last, device, parts))
  }

  // ---- Writing it again ---------------------------------------------------

  function EntriesOf(parts: seq<Part>): (es: seq<Entry>)
    requires Storable(parts)
    ensures |es| == |parts|
  {
    seq(|parts|, i requires 0 <= i < |parts| =>
      Entry(parts[i].id, parts[i].dest, Stored(parts[i].id, parts[i].content).value))
  }

  /** The new container, sealed. */
  function SealedContainer(im: Image, crypto: Crypto): Result<seq<byte>, RebuildFault>
    requires Storable(im.parts)
  {
    if DeviceById(im.device).None? then Err(UnknownDevice(im.device))
    else
      var built :- Lift(Built(im.header, EntriesOf(im.parts)), e => Layout(e));
      Ok(Sealed(crypto, built, DeviceById(im.device).value))
  }

  /** The preamble and the sealed container: the stream that is sent. */
  function StreamOf(im: Image, crypto: Crypto): Result<seq<byte>, RebuildFault>
    requires Storable(im.parts)
  {
    var c :- SealedContainer(im, crypto);
    if |c| >= WORD then Err(Layout(NotUnsigned32))
    else Ok(Pack32(|c|) + Pack32(ContentChecksum(c)) + c)
  }

  /** The second half of `rebuild`. */
  function Emitted(im: Image, crypto: Crypto): Result<seq<byte>, RebuildFault>
    requires Storable(im.parts) && |im.first| == 16 && |im.last| == 16
  {
    var stream :- StreamOf(im, crypto);
    Ok(EncodedSyx(stream, im.device, im.first, im.last))
  }

  function Rebuilt(raw: seq<byte>, replacements: map<int, seq<byte>>, crypto: Crypto): Result<seq<byte>, RebuildFault> {
    var im :- Gathered(raw, replacements);
    Emitted(im, crypto)
  }

  // ---- The method itself --------------------------------------------------

  /** `_source_framing`: walk the messages, keep the first and the last. */
  method SourceFraming(raw: seq<byte>) returns (r: Result<(seq<byte>, seq<byte>), SyxFault>)
    ensures r == Framing(raw)
  {
    hide IndexOfStop;
    var messages: seq<seq<byte>> := [];
    var i := 0;
    FramingStarts(raw);
    while i < |raw|
      invariant 0 <= i && Joined(messages, Messages(raw, i)) == Messages(raw, 0)
    {
      if raw[i] != START {
        return Err(NoStart(i));
      }
      var j := FindStop(raw, i);
      if j.None? {
        return Err(NoStop);
      }
      JoinedStep(messages, raw[i..j.value + 1], Messages(raw, j.value + 1));
      messages := messages + [raw[i..j.value + 1]];
      i := j.value + 1;
    }
    assert messages + [] == messages;
    if |messages| < 2 || |messages[0]| != 16 || |messages[|messages| - 1]| != 16 {
      return Err(MissingFraming);
    }
    return Ok((messages[0], messages[|messages| - 1]));
  }

  function Joined(messages: seq<seq<byte>>, rest: Result<seq<seq<byte>>, SyxFault>): Result<seq<seq<byte>>, SyxFault> {
    var r :- rest;
    Ok(messages + r)
  }

  lemma FramingStarts(raw: seq<byte>)
    ensures Joined([], Messages(raw, 0)) == Messages(raw, 0)
  {
    hide Messages;
    if Messages(raw, 0).Ok? {
      var nothing: seq<seq<byte>> := [];
      assert nothing + Messages(raw, 0).value == Messages(raw, 0).value;
    }
  }

  lemma JoinedStep(messages: seq<seq<byte>>, m: seq<byte>, rest: Result<seq<seq<byte>>, SyxFault>)
    ensures Joined(messages, Joined([m], rest)) == Joined(messages + [m], rest)
  {
    if rest.Ok? {
      ConcatAssoc(messages, [m], rest.value);
    }
  }

  /** The section loop of `rebuild`: recover or replace, and store again. */
  method Restore(c: seq<byte>, secs: seq<Section>, replacements: map<int, seq<byte>>)
    returns (r: Result<(seq<Part>, seq<Entry>), RebuildFault>)
    ensures PartsOf(c, secs, replacements).Err? ==> r.Err? && r.error == PartsOf(c, secs, replacements).error
    ensures PartsOf(c, secs, replacements).Ok? ==>
              var parts := PartsOf(c, secs, replacements).value; r == Ok((parts, EntriesOf(parts)))
  {
    hide Stored, PartsOf, Extended, ContentOf, EntriesOf, Storable;
    var parts: seq<Part>, entries: seq<Entry> := [], [];
    assert secs[0..] == secs;
    ExtendedStep([], Part(0, 0, []), PartsOf(c, secs, replacements));
    NoEntries();
    for i := 0 to |secs|
      invariant Storable(parts) && entries == EntriesOf(parts)
      invariant PartsOf(c, secs, replacements) == Extended(parts, PartsOf(c, secs[i..], replacements))
    {
      var s := secs[i];
      PartsFirst(c, secs, replacements, i, parts);
      var content := RestoreOne(c, s, replacements);
      if content.Err? {
        return Err(content.error);
      }
      var stored := StoreForSection(s.id, content.value);
      if stored.Err? {
        return Err(Store(stored.error));
      }
      EntriesMore(parts, Part(s.id, s.dest, content.value));
      parts := parts + [Part(s.id, s.dest, content.value)];
      entries := entries + [Entry(s.id, s.dest, stored.value)];
    }
    PartsEnd(c, secs, replacements, parts);
    return Ok((parts, entries));
  }

  /** A section's replacement, or its old content recovered. */
  method RestoreOne(c: seq<byte>, s: Section, replacements: map<int, seq<byte>>) returns (r: Result<seq<byte>, RebuildFault>)
    ensures r == ContentOf(c, s, replacements)
  {
    hide Recovered;
    if s.id in replacements {
      return Ok(replacements[s.id]);
    }
    var recovered := Recover(Slice(c, s.offset, s.offset + s.size));
    match recovered
    case Ok(content) => return Ok(content);
    case Err(e) => return Err(Depack(e));
  }

  lemma NoEntries()
    ensures Storable([]) && EntriesOf([]) == []
  {
  }

  lemma EntriesMore(parts: seq<Part>, p: Part)
    requires Storable(parts) && Stored(p.id, p.content).Ok?
    ensures Storable(parts + [p]) && EntriesOf(parts + [p]) == EntriesOf(parts) + [Entry(p.id, p.dest, Stored(p.id, p.content).value)]
  {
    hide Stored;
  }

  /** The parts of section `i` on: that section's, and those after it. */
  lemma PartsFirst(c: seq<byte>, secs: seq<Section>, replacements: map<int, seq<byte>>, i: nat, parts: seq<Part>)
    requires i < |secs|
    ensures var s, content := secs[i], ContentOf(c, secs[i], replacements);
            Extended(parts, PartsOf(c, secs[i..], replacements)) ==
              if content.Err? then Err(content.error)
              else if Stored(s.id, content.value).Err? then Err(Store(Stored(s.id, content.value).error))
              else Extended(parts + [Part(s.id, s.dest, content.value)], PartsOf(c, secs[i + 1..], replacements))
  {
    hide ContentOf, Stored;
    var s, content := secs[i], ContentOf(c, secs[i], replacements);
    assert secs[i..][0] == s && secs[i..][1..] == secs[i + 1..];
    if content.Ok? {
      ExtendedStep(parts, Part(s.id, s.dest, content.value), PartsOf(c, secs[i + 1..], replacements));
    }
  }

  lemma PartsEnd(c: seq<byte>, secs: seq<Section>, replacements: map<int, seq<byte>>, parts: seq<Part>)
    ensures Extended(parts, PartsOf(c, secs[|secs|..], replacements)) == Ok(parts)
  {
    assert parts + [] == parts;
  }

  function Extended(parts: seq<Part>, rest: Result<seq<Part>, RebuildFault>): Result<seq<Part>, RebuildFault> {
    var r :- rest;
    Ok(parts + r)
  }

  lemma ExtendedStep(parts: seq<Part>, p: Part, rest: Result<seq<Part>, RebuildFault>)
    ensures Extended(parts, Extended([p], rest)) == Extended(parts + [p], rest)
    ensures Extended([], rest) == rest
  {
    if rest.Ok? {
      ConcatAssoc(parts, [p], rest.value);
      var nothing: seq<Part> := [];
      assert nothing + rest.value == rest.value;
    }
  }

  /** `rebuild` */
  method RebuildFile(raw: seq<byte>, replacements: map<int, seq<byte>>, crypto: Crypto)
    returns (r: Result<seq<byte>, RebuildFault>)
    ensures r == Rebuilt(raw, replacements, crypto)
  {
    hide DecodedSyx, FindMagicFrom, Framing, SectionsOf, PartsOf, EntriesOf, Built, ContentChecksum,
         EncodedSyx, Sealed, DeviceById, Pack32, Storable, Stored;
    var dec := DecodeSyx(raw);
    if dec.Err? {
      return Err(Transport(dec.error));
    }
    var off := FindMagic(dec.value);
    if off.None? {
      return Err(Layout(NoMagic));
    }
    var header := Slice(dec.value, off.value, off.value + COUNT_OFF);
    var framing := SourceFraming(raw);
    if framing.Err? {
      return Err(Transport(framing.error));
    }
    var (first, last) := framing.value;
    var device := first[4];
    if DeviceById(device).None? {
      return Err(UnknownDevice(device));
    }
    var c := dec.value[off.value..];
    var secs := ReadSections(c);
    if secs.Err? {
      return Err(Layout(secs.error));
    }
    var restored := Restore(c, secs.value, replacements);
    if restored.Err? {
      return Err(restored.error);
    }
    var (parts, entries) := restored.value;
    var built := BuildContainer(header, entries);
    if built.Err? {
      return Err(Layout(built.error));
    }
    var sealed := Sealed(crypto, built.value, DeviceById(device).value);
    if |sealed| >= WORD {
      return Err(Layout(NotUnsigned32));
    }
    var checksum := ComputeContentChecksum(sealed);
    var stream := Pack32(|sealed|) + Pack32(checksum) + sealed;
    var out := EncodeSyx(stream, device, first, last);
    return Ok(out);
  }
}
