/** What `rebuild` writes for each section: the replacement that was asked for, or
    the content the source had. */
module Replacements {
  import opened Bytes
  import opened Checksums
  import opened Sysex
  import opened Container
  import opened SectionStore
  import opened Authcode
  import opened Rebuild
  import opened FirmwareRoundTrip

  /** The container a reader finds in a file: from the first magic of its decoded
      stream on. */
  function ContainerIn(raw: seq<byte>): Option<seq<byte>> {
    match DecodedSyx(raw)
    case Err(_) => None
    case Ok(dec) =>
      match FindMagicFrom(dec, 0)
      case None => None
      case Some(off) => Some(dec[off..])
  }

  /** The bytes a table row stands for, as a Python slice takes them. */
  function SectionBytes(c: seq<byte>, s: Section): seq<byte> {
    Slice(c, s.offset, s.offset + s.size)
  }

  /** `content` is what was asked for section `s` of container `c`: the replacement
      of its id where there is one, and otherwise what its bytes decode to. */
  predicate Asked(c: seq<byte>, s: Section, replacements: map<int, seq<byte>>, content: seq<byte>) {
    if s.id in replacements then content == replacements[s.id] else Recovered(SectionBytes(c, s)) == Ok(content)
  }

  /** The parts match the sections one for one, each holding what was asked. */
  ghost predicate PartsAsked(c: seq<byte>, secs: seq<Section>, replacements: map<int, seq<byte>>, parts: seq<Part>) {
    && |parts| == |secs|
    && forall i :: 0 <= i < |secs| ==>
         parts[i].id == secs[i].id && parts[i].dest == secs[i].dest && Asked(c, secs[i], replacements, parts[i].content)
  }

  lemma {:induction false} PartsAreAsked(c: seq<byte>, secs: seq<Section>, replacements: map<int, seq<byte>>)
    ensures var r := PartsOf(c, secs, replacements); r.Ok? ==> PartsAsked(c, secs, replacements, r.value)
    decreases |secs|
  {
    hide Stored, Recovered;
    if secs == [] {
    } else {
      PartsAreAsked(c, secs[1..], replacements);
    }
  }

  /** What `rebuild` gathers from a file is its header, framing and device, and for
      each of its sections, in order, what was asked for it. */
  lemma GatheredIsAsked(raw: seq<byte>, replacements: map<int, seq<byte>>)
    requires Gathered(raw, replacements).Ok?
    ensures ContainerIn(raw).Some? && Messages(raw, 0).Ok?
    ensures var im, c, msgs := Gathered(raw, replacements).value, ContainerIn(raw).value, Messages(raw, 0).value;
            im.header == Slice(c, 0, 28) && |msgs| >= 2 && im.first == msgs[0] && im.last == msgs[|msgs| - 1] &&
            im.device == im.first[4] && SectionsOf(c).Ok? &&
            PartsAsked(c, SectionsOf(c).value, replacements, im.parts)
  {
    hide DecodedSyx, FindMagicFrom, SectionsOf, PartsOf, PartsAsked, DeviceById, Storable, Messages;
    var dec := DecodedSyx(raw).value;
    var off := FindMagicFrom(dec, 0).value;
    FoundInside(dec, off);
    SliceFrom(dec, off);
    PartsAreAsked(dec[off..], SectionsOf(dec[off..]).value, replacements);
  }

  lemma FoundInside(dec: seq<byte>, off: nat)
    requires FindMagicFrom(dec, 0) == Some(off)
    ensures off + 4 <= |dec|
  {
    FindMagicIsFirst(dec, 0, off);
  }

  lemma SliceFrom(dec: seq<byte>, off: nat)
    requires off <= |dec|
    ensures Slice(dec, off, off + COUNT_OFF) == Slice(dec[off..], 0, 28)
  {
  }

  /** Every section of the source, in order, is in the new file with its id and
      destination, and holds what was asked for it. */
  ghost predicate Delivers(raw: seq<byte>, replacements: map<int, seq<byte>>, written: seq<byte>) {
    && ContainerIn(raw).Some? && SectionsOf(ContainerIn(raw).value).Ok?
    && ContainerIn(written).Some? && SectionsOf(ContainerIn(written).value).Ok?
    && var c, c2 := ContainerIn(raw).value, ContainerIn(written).value;
       var secs, secs2 := SectionsOf(c).value, SectionsOf(c2).value;
       |secs2| == |secs| &&
       forall i :: 0 <= i < |secs| ==>
         secs2[i].id == secs[i].id && secs2[i].dest == secs[i].dest &&
         if secs[i].id in replacements then Recovered(SectionBytes(c2, secs2[i])) == Ok(replacements[secs[i].id])
         else Recovered(SectionBytes(c2, secs2[i])).Ok? && Recovered(SectionBytes(c2, secs2[i])) == Recovered(SectionBytes(c, secs[i]))
  }

  /** Main result: the file `rebuild` writes delivers to its readers every
      replacement that was asked for and leaves every other section's content as
      it was, whenever the checksum does not spell the magic and every content
      survives storing. */
  lemma ReplacementsAreDelivered(raw: seq<byte>, replacements: map<int, seq<byte>>, crypto: Crypto)
    requires Rebuilt(raw, replacements, crypto).Ok?
    ensures var im := Gathered(raw, replacements).value;
            SealedContainer(im, crypto).Ok? &&
            (ContentChecksum(SealedContainer(im, crypto).value) != MAGIC_WORD && AllComeBack(im.parts, 0) ==>
               Delivers(raw, replacements, Rebuilt(raw, replacements, crypto).value))
  {
    hide Gathered, SealedContainer, ContentChecksum, AllComeBack, Storable, StreamOf, Emitted, ContainerIn, SectionsOf, Recovered,
         SectionBytes;
    RebuildReadsBack(raw, replacements, crypto);
    var im := Gathered(raw, replacements).value;
    GatheredIsAsked(raw, replacements);
    if ContentChecksum(SealedContainer(im, crypto).value) != MAGIC_WORD && AllComeBack(im.parts, 0) {
      GatheredIsAsked(Rebuilt(raw, replacements, crypto).value, map[]);
    }
  }
}
