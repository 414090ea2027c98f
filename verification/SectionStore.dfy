/** How a section's bytes are stored and told apart again:
    `store_for_section` in dt2/build.py against `classify` in emu/extract.py. */
module SectionStore {
  import opened Bytes
  import opened LzLayout
  import opened LzFormat
  import opened Aplib
  import opened LzTheorems

  datatype StoreFault = UnknownSection(id: int) | CannotPack(fault: Fault)

  datatype Class = Packed(bytes: seq<byte>) | Raw(bytes: seq<byte>)

  predicate IsPackedId(id: int) {
    id == 2 || id == 3 || id == 7 || id == 8
  }

  /** `store_for_section`: packed, raw behind a header with sum zero, or bare. */
  function Stored(id: int, data: seq<byte>): Result<seq<byte>, StoreFault> {
    if IsPackedId(id) then
      match PackedSection(data)
      case Ok(s) => Ok(s)
      case Err(e) => Err(CannotPack(e))
    else if id == 4 then
      if |data| >= WORD then Err(CannotPack(TooLong)) else Ok(Pack32(|data|) + Pack32(0) + data)
    else if id == 5 then Ok(data)
    else Err(UnknownSection(id))
  }

  method StoreForSection(id: int, data: seq<byte>) returns (r: Result<seq<byte>, StoreFault>)
    ensures r == Stored(id, data)
  {
    hide PackedSection, Pack32;
    if id == 2 || id == 3 || id == 7 || id == 8 {
      var packed := PackSection(data);
      match packed
      case Ok(s) => return Ok(s);
      case Err(e) => return Err(CannotPack(e));
    }
    if id == 4 {
      if |data| >= WORD {
        return Err(CannotPack(TooLong));
      }
      return Ok(Pack32(|data|) + Pack32(0) + data);
    }
    if id == 5 {
      return Ok(data);
    }
    return Err(UnknownSection(id));
  }

  /** A header that counts and sums bytes that are there. */
  predicate LooksPacked(s: seq<byte>) {
    |s| >= 8 &&
    var n: int := Word(s, 0);
    n + 8 <= |s| && Sum(s[8..8 + n]) % WORD == Word(s, 4)
  }

  /** `classify` */
  function Classified(s: seq<byte>): Class {
    if LooksPacked(s) then Packed(s)
    else if |s| >= 8 && Word(s, 4) == 0 then Raw(s[8..])
    else Raw(s)
  }

  /** What `rebuild` takes for the section's content. */
  function Recovered(s: seq<byte>): Result<seq<byte>, Fault> {
    match Classified(s)
    case Packed(p) => DepackedSection(p)
    case Raw(p) => Ok(p)
  }

  method Recover(s: seq<byte>) returns (r: Result<seq<byte>, Fault>)
    ensures r == Recovered(s)
  {
    hide DepackedSection, LooksPacked;
    match Classified(s)
    case Packed(p) =>
      r := DepackSection(p);
    case Raw(p) =>
      r := Ok(p);
  }

  /** Contents whose stored form `classify` tells apart rightly. */
  predicate Distinguishable(id: int, data: seq<byte>) {
    if id == 4 then Sum(data) % WORD != 0
    else if id == 5 then !LooksPacked(data) && (|data| >= 8 ==> Word(data, 4) != 0)
    else true
  }

  lemma HeaderWords(n: u32, sum: u32, body: seq<byte>)
    ensures var s := Pack32(n) + Pack32(sum) + body;
            Word(s, 0) == n && Word(s, 4) == sum && s[8..] == body
  {
    hide Pack32, Word;
    var s := Pack32(n) + Pack32(sum) + body;
    assert s[0..4] == Pack32(n) && s[4..8] == Pack32(sum);
    PackUnpack(n, s, 0);
    PackUnpack(sum, s, 4);
  }

  /** `classify` takes a stored section for what it is exactly when its content
      is distinguishable: packed ids always, section 4 unless its bytes sum to
      zero, section 5 unless it looks like a header. */
  lemma StoredClassifies(id: int, data: seq<byte>)
    requires Stored(id, data).Ok?
    ensures var s := Stored(id, data).value;
            Classified(s) == (if IsPackedId(id) then Packed(s) else Raw(data)) <==> Distinguishable(id, data)
  {
    hide Pack32, Word, Aplib.Packed;
    var s := Stored(id, data).value;
    if IsPackedId(id) {
      var body := Aplib.Packed(data);
      HeaderWords(|body|, Sum(body) % WORD, body);
      assert s[8..8 + |body|] == body;
    } else if id == 4 {
      HeaderWords(|data|, 0, data);
      assert s[8..8 + |data|] == data;
    }
  }

  /** The section looks packed and its body, read as a packed stream, is a whole
      token stream that means `data`. */
  ghost predicate ReadsAsPacked(s: seq<byte>, data: seq<byte>) {
    LooksPacked(s) && var n: int := Word(s, 0); IsStreamFor(s, 8 + n, Cursor(8, []), [], 1, data)
  }

  lemma RecoveredPacked(s: seq<byte>, data: seq<byte>)
    requires LooksPacked(s)
    ensures Recovered(s) == Ok(data) <==> ReadsAsPacked(s, data)
  {
    hide DepackedSection, IsStreamFor, Word, Sum;
    SectionIff(s, data);
  }

  lemma DistinguishableComesBack(id: int, data: seq<byte>)
    requires Stored(id, data).Ok? && Distinguishable(id, data)
    ensures Recovered(Stored(id, data).value) == Ok(data)
  {
    StoredClassifies(id, data);
    hide Classified, Pack32, PackedSection, DepackedSection, Distinguishable;
    if IsPackedId(id) {
      SectionRoundTrip(data);
    }
  }

  /** The stored form of content `classify` mistakes: section 4 whose bytes sum to
      zero is taken for packed, and so is a section 5 that looks packed; any other
      section 5 with a zero second word loses its first eight bytes. */
  lemma MistakenFor(id: int, data: seq<byte>)
    requires Stored(id, data).Ok? && !Distinguishable(id, data)
    ensures var s := Stored(id, data).value;
            LooksPacked(s) || (id == 5 && s == data && |data| >= 8 && Recovered(s) == Ok(data[8..]))
  {
    hide Pack32, Word, DepackedSection;
    if id == 4 {
      var s := Stored(id, data).value;
      HeaderWords(|data|, 0, data);
      assert s[8..8 + |data|] == data;
    }
  }

  /** Contents that survive storing: the distinguishable ones, and those that are
      mistaken for packed and happen to be a token stream of themselves. */
  ghost predicate ComesBack(id: int, data: seq<byte>)
    requires Stored(id, data).Ok?
  {
    Distinguishable(id, data) || ReadsAsPacked(Stored(id, data).value, data)
  }

  /** A stored section comes back unchanged exactly for those contents. */
  lemma StoredComesBack(id: int, data: seq<byte>)
    requires Stored(id, data).Ok?
    ensures Recovered(Stored(id, data).value) == Ok(data) <==> ComesBack(id, data)
  {
    hide Stored, Recovered, Distinguishable, IsStreamFor, LooksPacked;
    var s := Stored(id, data).value;
    if Distinguishable(id, data) {
      DistinguishableComesBack(id, data);
    } else {
      MistakenFor(id, data);
    }
    if LooksPacked(s) {
      RecoveredPacked(s, data);
    }
  }

  /** An empty section 4 is one the round trip loses: its zero sum reads as a
      packed stream of no bytes, which has no end marker. */
  lemma EmptyUpdaterIsLost()
    ensures Stored(4, []).Ok? && Recovered(Stored(4, []).value) == Err(EndOfInput)
  {
    var s := Stored(4, []).value;
    HeaderWords(0, 0, []);
    assert s == Pack32(0) + Pack32(0) + [];
    assert s[8..8 + 0] == [];
    assert LooksPacked(s);
    assert ReadBit(s, 8, Cursor(8, [])) == Err(EndOfInput);
  }
}
