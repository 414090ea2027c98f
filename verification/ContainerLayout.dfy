/** Where everything is in a container and in a stored section, by position. */
module ContainerLayout {
  import opened Bytes
  import opened Container
  import opened SectionStore
  import Aplib

  /** A reader takes row `k` from the four words at 32 + 16 * k: id, offset, size and
      destination, and the number of rows from the word at 28. */
  lemma {:induction false} TableFromIs(c: seq<byte>, k: nat, n: nat, j: nat)
    requires k <= j < n && TableFrom(c, k, n).Ok?
    ensures |TableFrom(c, k, n).value| == n - k && 32 + 16 * (j + 1) <= |c|
    ensures TableFrom(c, k, n).value[j - k] ==
            Section(Word(c, 32 + 16 * j), Word(c, 36 + 16 * j), Word(c, 40 + 16 * j), Word(c, 44 + 16 * j))
    decreases n - k
  {
    hide Word;
    if k + 1 == n {
    } else {
      TableFromIs(c, k + 1, n, if j == k then k + 1 else j);
    }
  }

  lemma SectionsAre(c: seq<byte>, j: nat)
    requires SectionsOf(c).Ok? && |c| >= 32 && j < Word(c, 28)
    ensures |SectionsOf(c).value| == Word(c, 28) && 32 + 16 * (j + 1) <= |c|
    ensures SectionsOf(c).value[j] ==
            Section(Word(c, 32 + 16 * j), Word(c, 36 + 16 * j), Word(c, 40 + 16 * j), Word(c, 44 + 16 * j))
  {
    hide Word;
    TableFromIs(c, 0, Word(c, 28), j);
  }

  lemma BuiltParts(header: seq<byte>, entries: seq<Entry>)
    requires Built(header, entries).Ok?
    ensures |header| == COUNT_OFF && |entries| <= 6 && Fits32(entries)
    ensures var c, u := Built(header, entries).value, Unsealed(header, entries);
            c == u + Zeros(32) && |u| == Offset(entries, |entries|) >= 0x80
  {
    hide Unsealed, Fits32;
  }

  lemma {:induction false} OffsetsAligned(entries: seq<Entry>, i: nat)
    requires i <= |entries|
    ensures Offset(entries, i) % 16 == 0 && Offset(entries, 0) == 0x80
    ensures i < |entries| ==> var end := Offset(entries, i) + |entries[i].data|;
                              end <= Offset(entries, i + 1) < end + 16
  {
    BodyAligned(entries, i);
    if i < |entries| {
      BodyStep(entries, i);
    }
    hide Body;
  }

  /** Main result: a built container is its header, the section count at 28, from 32
      on the rows of id, offset, size and destination, each section's bytes at its
      offset, the first at 128 and each on the next multiple of sixteen after the
      one before, and 32 zero bytes at the end. */
  lemma BuiltLayout(header: seq<byte>, entries: seq<Entry>, i: nat)
    requires Built(header, entries).Ok? && i < |entries|
    ensures var c := Built(header, entries).value;
            |entries| <= 6 && |c| >= 0x80 + 32 && |c| % 16 == 0 && c[..28] == header && c[|c| - 32..] == Zeros(32) &&
            Word(c, 28) == |entries| &&
            var at, d := 32 + 16 * i, entries[i].data;
            var off := Word(c, at + 4);
            Word(c, at) == entries[i].id && Word(c, at + 8) == |d| && Word(c, at + 12) == entries[i].dest &&
            off % 16 == 0 && off + |d| <= |c| - 32 && c[off..off + |d|] == d &&
            (i == 0 ==> off == 0x80) &&
            (i + 1 < |entries| ==> off + |d| <= Word(c, at + 20) < off + |d| + 16)
  {
    hide Word, Fits32, Unsealed, Offset;
    BuiltParts(header, entries);
    BuiltEnds(header, entries);
    var c := Built(header, entries).value;
    hide Built;
    RowLayout(c, header, entries, i);
    OffsetsAligned(entries, i);
    if i + 1 < |entries| {
      RowLayout(c, header, entries, i + 1);
    }
  }

  lemma BuiltEnds(header: seq<byte>, entries: seq<Entry>)
    requires Built(header, entries).Ok?
    ensures var c := Built(header, entries).value;
            Fits32(entries) && |header| == COUNT_OFF && |entries| <= 6 && Unsealed(header, entries) <= c &&
            |c| == Offset(entries, |entries|) + 32 && |c| % 16 == 0 && c[..28] == header && c[|c| - 32..] == Zeros(32)
  {
    hide Fits32, Unsealed, Offset, Zeros, Pack32, Rows, SectionList, Body, Built;
    BuiltParts(header, entries);
    OffsetsAligned(entries, |entries|);
    TailOf(Unsealed(header, entries), Zeros(32));
    UnsealedParts(Built(header, entries).value, header, entries);
  }

  lemma TailOf(a: seq<byte>, z: seq<byte>)
    ensures a <= a + z && (a + z)[|a + z| - |z|..] == z
  {
  }

  /** Row `i` and its section's bytes, in anything that begins with the container. */
  lemma RowLayout(c: seq<byte>, header: seq<byte>, entries: seq<Entry>, i: nat)
    requires |header| == COUNT_OFF && |entries| <= 6 && Fits32(entries) && i < |entries|
    requires Unsealed(header, entries) <= c && |c| >= 0x80
    ensures var at, off, d := 32 + 16 * i, Offset(entries, i), entries[i].data;
            Word(c, 28) == |entries| && Word(c, at) == entries[i].id && Word(c, at + 4) == off &&
            Word(c, at + 8) == |d| && Word(c, at + 12) == entries[i].dest &&
            off + |d| <= Offset(entries, |entries|) <= |c| && c[off..off + |d|] == d
  {
    hide Word, Fits32, Unsealed, Offset, SectionsOf, Pack32;
    UnsealedParts(c, header, entries);
    SectionsReadBack(c, header, entries);
    PackUnpack(|entries|, c, 28);
    SectionsAre(c, i);
  }

  /** A stored section by position: behind a packed one's length and byte sum lies
      the stream; behind section 4's length and a zero, the content; section 5 is
      the content. */
  lemma StoredLayout(id: int, data: seq<byte>)
    requires Stored(id, data).Ok?
    ensures var s := Stored(id, data).value;
            (id == 2 || id == 3 || id == 7 || id == 8 ==>
               |s| >= 8 && Word(s, 0) == |s| - 8 && Word(s, 4) == Sum(s[8..]) % WORD && s[8..] == Aplib.Packed(data)) &&
            (id == 4 ==> |s| >= 8 && Word(s, 0) == |data| && Word(s, 4) == 0 && s[8..] == data) &&
            (id == 5 ==> s == data) && (2 <= id <= 5 || id == 7 || id == 8)
  {
    hide Pack32, Word, Aplib.Packed;
    if IsPackedId(id) {
      var body := Aplib.Packed(data);
      HeaderWords(|body|, Sum(body) % WORD, body);
    } else if id == 4 {
      HeaderWords(|data|, 0, data);
    }
  }
}
