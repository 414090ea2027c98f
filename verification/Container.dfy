/** The ELE3 container: `build_container` in dt2/build.py and `sections` in
    dt2/container.py, which reads back what it lays out. */
module Container {
  import opened Bytes

  const COUNT_OFF := 0x1C
  const TABLE_OFF := 0x20
  const ENTRY_SIZE := 16
  const BODY_OFF := 0x80
  const TRAILER_SIZE := 32
  const MAGIC: seq<byte> := [0x45, 0x4C, 0x45, 0x33]

  datatype Entry = Entry(id: nat, dest: nat, data: seq<byte>)
  datatype Section = Section(id: u32, offset: u32, size: u32, dest: u32)
  datatype ContainerFault = BadHeader | TooManySections | NotUnsigned32 | Truncated | NoMagic

  /** `(-n) % 16` */
  function Pad16(n: nat): nat {
    (16 - n % 16) % 16
  }

  // ---- The layout ---------------------------------------------------------

  /** Data of the first `i` entries, each padded to a multiple of sixteen. */
  function Body(entries: seq<Entry>, i: nat): seq<byte>
    requires i <= |entries|
  {
    if i == 0 then []
    else Body(entries, i - 1) + entries[i - 1].data + Zeros(Pad16(|entries[i - 1].data|))
  }

  /** Where entry `i` starts; for `i` the entry count, where the trailer starts. */
  function Offset(entries: seq<Entry>, i: nat): nat
    requires i <= |entries|
  {
    BODY_OFF + |Body(entries, i)|
  }

  predicate Fits32(entries: seq<Entry>) {
    forall i :: 0 <= i < |entries| ==>
      entries[i].id < WORD && entries[i].dest < WORD && |entries[i].data| < WORD && Offset(entries, i) < WORD
  }

  function SectionOf(entries: seq<Entry>, i: nat): Section
    requires i < |entries| && Fits32(entries)
  {
    Section(entries[i].id, Offset(entries, i), |entries[i].data|, entries[i].dest)
  }

  function SectionList(entries: seq<Entry>): (s: seq<Section>)
    requires Fits32(entries)
    ensures |s| == |entries|
  {
    seq(|entries|, i requires 0 <= i < |entries| => SectionOf(entries, i))
  }

  function Row(s: Section): (r: seq<byte>)
    ensures |r| == ENTRY_SIZE
  {
    Pack32(s.id) + Pack32(s.offset) + Pack32(s.size) + Pack32(s.dest)
  }

  function Rows(s: seq<Section>): (r: seq<byte>)
    ensures |r| == ENTRY_SIZE * |s|
  {
    if s == [] then [] else Rows(s[..|s| - 1]) + Row(s[|s| - 1])
  }

  /** The container up to its trailer. */
  function Unsealed(header: seq<byte>, entries: seq<Entry>): (r: seq<byte>)
    requires |header| == COUNT_OFF && |entries| <= 6 && Fits32(entries)
    ensures |r| == Offset(entries, |entries|)
  {
    header + Pack32(|entries|) + Rows(SectionList(entries)) +
    Zeros(BODY_OFF - TABLE_OFF - ENTRY_SIZE * |entries|) + Body(entries, |entries|)
  }

  function Built(header: seq<byte>, entries: seq<Entry>): Result<seq<byte>, ContainerFault> {
    if |header| != COUNT_OFF then Err(BadHeader)
    else if TABLE_OFF + |entries| * ENTRY_SIZE > BODY_OFF then Err(TooManySections)
    else if !Fits32(entries) then Err(NotUnsigned32)
    else Ok(Unsealed(header, entries) + Zeros(TRAILER_SIZE))
  }

  // ---- Writing ------------------------------------------------------------

  lemma {:induction false} BodyAligned(entries: seq<Entry>, i: nat)
    requires i <= |entries|
    ensures |Body(entries, i)| % 16 == 0 && Offset(entries, i) % 16 == 0
    decreases i
  {
    hide Pad16;
    if i == 0 {
    } else {
      BodyAligned(entries, i - 1);
      PadAligns(|Body(entries, i - 1)|, |entries[i - 1].data|);
    }
    FromBody(|Body(entries, i)|);
  }

  lemma FromBody(n: nat)
    requires n % 16 == 0
    ensures (BODY_OFF + n) % 16 == 0
  {
  }

  lemma PadAligns(a: nat, n: nat)
    requires a % 16 == 0
    ensures (a + n + Pad16(n)) % 16 == 0 && Pad16(a + n) == Pad16(n)
  {
    var x, y, r: nat := a / 16, n / 16, n % 16;
    assert a == 16 * x && n == 16 * y + r;
    PadIs(y, r);
    PadIs(x + y, r);
  }

  lemma PadIs(q: nat, r: nat)
    requires r < 16
    ensures Pad16(16 * q + r) == if r == 0 then 0 else 16 - r
  {
    DivModUnique(16 * q + r, 16, q, r);
  }

  lemma BodyStep(entries: seq<Entry>, i: nat)
    requires i < |entries|
    ensures var d := entries[i].data;
            Body(entries, i + 1) == Body(entries, i) + d + Zeros(Pad16(|d|)) &&
            Pad16(Offset(entries, i) + |d|) == Pad16(|d|) == Pad16(BODY_OFF + |Body(entries, i) + d|) &&
            Offset(entries, i + 1) == Offset(entries, i) + |d| + Pad16(|d|)
    ensures Body(entries, 0) == [] && Offset(entries, 0) == BODY_OFF
  {
    BodyAligned(entries, i);
    hide Pad16;
    PadAligns(Offset(entries, i), |entries[i].data|);
    assert BODY_OFF + |Body(entries, i) + entries[i].data| == Offset(entries, i) + |entries[i].data|;
  }

  lemma NoBody(entries: seq<Entry>)
    ensures Body(entries, 0) == [] && Offset(entries, 0) == BODY_OFF
    ensures entries == [] ==> Zeros(Pad16(BODY_OFF)) == []
  {
  }

  /** The first loop of `build_container`: the table rows and the body, padded
      between sections but not after the last. */
  method LayOut(entries: seq<Entry>) returns (offsets: seq<nat>, body: seq<byte>)
    ensures |offsets| == |entries|
    ensures forall i :: 0 <= i < |entries| ==> offsets[i] == Offset(entries, i)
    ensures body + Zeros(Pad16(BODY_OFF + |body|)) == Body(entries, |entries|)
  {
    hide Body, Pad16, Offset;
    offsets, body := [], [];
    var offset := BODY_OFF;
    if entries == [] {
      NoBody(entries);
    } else {
      BodyStep(entries, 0);
    }
    for i := 0 to |entries|
      invariant |offsets| == i
      invariant forall j :: 0 <= j < i ==> offsets[j] == Offset(entries, j)
      invariant i < |entries| ==> body == Body(entries, i) && offset == Offset(entries, i)
      invariant i == |entries| ==> body + Zeros(Pad16(BODY_OFF + |body|)) == Body(entries, i)
    {
      BodyStep(entries, i);
      var data := entries[i].data;
      offsets := offsets + [offset];
      body := body + data;
      var end := offset + |data|;
      if i != |entries| - 1 {
        var pad := Pad16(end);
        body := body + Zeros(pad);
        offset := end + pad;
      } else {
        offset := end;
      }
    }
  }

  /** The second loop of `build_container`: the table, packed row by row. */
  method PackTable(entries: seq<Entry>, offsets: seq<nat>) returns (r: Result<seq<byte>, ContainerFault>)
    requires |offsets| == |entries|
    requires forall i :: 0 <= i < |entries| ==> offsets[i] == Offset(entries, i)
    ensures !Fits32(entries) ==> r == Err(NotUnsigned32)
    ensures Fits32(entries) ==> r == Ok(Rows(SectionList(entries)))
  {
    hide Offset, Row;
    var table: seq<byte> := [];
    for i := 0 to |entries|
      invariant forall j :: 0 <= j < i ==>
                  entries[j].id < WORD && entries[j].dest < WORD && |entries[j].data| < WORD && Offset(entries, j) < WORD
      invariant Fits32(entries) ==> table == Rows(SectionList(entries)[..i])
    {
      var sid, off, clen, dest := entries[i].id, offsets[i], |entries[i].data|, entries[i].dest;
      if sid >= WORD || off >= WORD || clen >= WORD || dest >= WORD {
        return Err(NotUnsigned32);
      }
      table := table + Row(Section(sid, off, clen, dest));
      if Fits32(entries) {
        RowsStep(SectionList(entries), i);
      }
    }
    if Fits32(entries) {
      assert SectionList(entries)[..|entries|] == SectionList(entries);
    }
    return Ok(table);
  }

  lemma RowsStep(s: seq<Section>, i: nat)
    requires i < |s|
    ensures Rows(s[..i + 1]) == Rows(s[..i]) + Row(s[i])
    ensures Rows(s[..0]) == []
  {
    hide Row;
    assert s[..i + 1][..i] == s[..i];
  }

  /** `build_container` */
  method BuildContainer(header: seq<byte>, entries: seq<Entry>) returns (r: Result<seq<byte>, ContainerFault>)
    ensures r == Built(header, entries)
  {
    hide Rows, Body, SectionOf;
    if |header| != COUNT_OFF {
      return Err(BadHeader);
    }
    var n := |entries|;
    if TABLE_OFF + n * ENTRY_SIZE > BODY_OFF {
      return Err(TooManySections);
    }
    var offsets, body := LayOut(entries);
    var table :- PackTable(entries, offsets);
    var out := header + Pack32(n) + table + Zeros(BODY_OFF - TABLE_OFF - |table|);
    out := out + body;
    out := out + Zeros(Pad16(|out|));
    assert out == Unsealed(header, entries);
    return Ok(out + Zeros(TRAILER_SIZE));
  }

  // ---- Reading ------------------------------------------------------------

  predicate MagicAt(d: seq<byte>, i: nat) {
    i + 4 <= |d| && d[i..i + 4] == MAGIC
  }

  /** `d.find(b'ELE3')` from position `i`. */
  function FindMagicFrom(d: seq<byte>, i: nat): (r: Option<nat>)
    ensures r.Some? ==> r.value + 4 <= |d|
    decreases |d| - i
  {
    if i + 4 > |d| then None else if d[i..i + 4] == MAGIC then Some(i) else FindMagicFrom(d, i + 1)
  }

  method FindMagic(d: seq<byte>) returns (r: Option<nat>)
    ensures r == FindMagicFrom(d, 0)
  {
    var i := 0;
    while i + 4 <= |d|
      invariant 0 <= i && FindMagicFrom(d, i) == FindMagicFrom(d, 0)
    {
      if d[i..i + 4] == MAGIC {
        return Some(i);
      }
      i := i + 1;
    }
    return None;
  }

  /** It is the first position that holds the magic, or there is none. */
  lemma {:induction false} FindMagicIsFirst(d: seq<byte>, i: nat, p: nat)
    ensures FindMagicFrom(d, i) == Some(p) <==>
            i <= p && MagicAt(d, p) && forall k :: i <= k < p ==> !MagicAt(d, k)
    decreases |d| - i
  {
    if i + 4 <= |d| && d[i..i + 4] != MAGIC {
      FindMagicIsFirst(d, i + 1, p);
      assert !MagicAt(d, i);
    } else if i + 4 <= |d| {
      assert MagicAt(d, i);
    }
  }

  /** Table rows `k` to `n`. */
  function TableFrom(c: seq<byte>, k: nat, n: nat): Result<seq<Section>, ContainerFault>
    decreases n - k
  {
    var at := TABLE_OFF + ENTRY_SIZE * k;
    if k >= n then Ok([])
    else if at + ENTRY_SIZE > |c| then Err(Truncated)
    else
      var rest :- TableFrom(c, k + 1, n);
      Ok([Section(Word(c, at), Word(c, at + 4), Word(c, at + 8), Word(c, at + 12))] + rest)
  }

  function SectionsOf(c: seq<byte>): Result<seq<Section>, ContainerFault> {
    if TABLE_OFF > |c| then Err(Truncated) else TableFrom(c, 0, Word(c, COUNT_OFF))
  }

  /** The loop of `sections`. */
  method ReadSections(c: seq<byte>) returns (r: Result<seq<Section>, ContainerFault>)
    ensures r == SectionsOf(c)
  {
    hide Word;
    if TABLE_OFF > |c| {
      return Err(Truncated);
    }
    var n := Word(c, COUNT_OFF);
    var out: seq<Section> := [];
    PrependedStep([], Section(0, 0, 0, 0), TableFrom(c, 0, n));
    for k := 0 to n
      invariant SectionsOf(c) == Prepended(out, TableFrom(c, k, n))
    {
      var at := TABLE_OFF + ENTRY_SIZE * k;
      if at + ENTRY_SIZE > |c| {
        return Err(Truncated);
      }
      var row := Section(Word(c, at), Word(c, at + 4), Word(c, at + 8), Word(c, at + 12));
      PrependedStep(out, row, TableFrom(c, k + 1, n));
      out := out + [row];
    }
    assert out + [] == out;
    return Ok(out);
  }

  function Prepended(out: seq<Section>, rest: Result<seq<Section>, ContainerFault>): Result<seq<Section>, ContainerFault> {
    var r :- rest;
    Ok(out + r)
  }

  lemma PrependedStep(out: seq<Section>, row: Section, rest: Result<seq<Section>, ContainerFault>)
    ensures Prepended(out, Prepended([row], rest)) == Prepended(out + [row], rest)
    ensures Prepended([], rest) == rest
  {
    if rest.Ok? {
      ConcatAssoc(out, [row], rest.value);
      var nothing: seq<Section> := [];
      assert nothing + rest.value == rest.value;
    }
  }

  // ---- Round trip ---------------------------------------------------------

  lemma {:induction false} RowAt(s: seq<Section>, k: nat)
    requires k < |s|
    ensures Rows(s)[ENTRY_SIZE * k..ENTRY_SIZE * (k + 1)] == Row(s[k])
    decreases |s|
  {
    hide Row;
    var n := |s| - 1;
    if k >= n {
    } else {
      RowAt(s[..n], k);
      assert Rows(s)[ENTRY_SIZE * k..ENTRY_SIZE * (k + 1)] == Rows(s[..n])[ENTRY_SIZE * k..ENTRY_SIZE * (k + 1)];
    }
  }

  lemma RowReads(c: seq<byte>, at: nat, s: Section)
    requires at + ENTRY_SIZE <= |c| && c[at..at + ENTRY_SIZE] == Row(s)
    ensures Section(Word(c, at), Word(c, at + 4), Word(c, at + 8), Word(c, at + 12)) == s
  {
    hide Pack32, Word;
    var r := c[at..at + ENTRY_SIZE];
    assert c[at..at + 4] == r[0..4] && c[at + 4..at + 8] == r[4..8];
    assert c[at + 8..at + 12] == r[8..12] && c[at + 12..at + 16] == r[12..16];
    PackUnpack(s.id, c, at);
    PackUnpack(s.offset, c, at + 4);
    PackUnpack(s.size, c, at + 8);
    PackUnpack(s.dest, c, at + 12);
  }

  lemma {:induction false} TableReads(c: seq<byte>, s: seq<Section>, k: nat)
    requires k <= |s| && TABLE_OFF + ENTRY_SIZE * |s| <= |c|
    requires forall j :: 0 <= j < |s| ==> c[TABLE_OFF + ENTRY_SIZE * j..TABLE_OFF + ENTRY_SIZE * j + ENTRY_SIZE] == Row(s[j])
    ensures TableFrom(c, k, |s|) == Ok(s[k..])
    decreases |s| - k
  {
    hide Row, Word;
    if k >= |s| {
    } else {
      var at := TABLE_OFF + ENTRY_SIZE * k;
      RowReads(c, at, s[k]);
      TableReads(c, s, k + 1);
      assert s[k..] == [s[k]] + s[k + 1..];
    }
  }

  lemma {:induction false} BodyPrefix(entries: seq<Entry>, i: nat, j: nat)
    requires i <= j <= |entries|
    ensures Body(entries, i) <= Body(entries, j)
    decreases j
  {
    if i >= j {
    } else {
      BodyPrefix(entries, i, j - 1);
    }
  }

  lemma BodyHolds(entries: seq<Entry>, i: nat)
    requires i < |entries|
    ensures var a := |Body(entries, i)|;
            var b := a + |entries[i].data|;
            b <= |Body(entries, |entries|)| && Body(entries, |entries|)[a..b] == entries[i].data
  {
    BodyPrefix(entries, i + 1, |entries|);
    BodyStep(entries, i);
    hide Body, Pad16, Offset;
    var all, d := Body(entries, |entries|), entries[i].data;
    var a := |Body(entries, i)|;
    assert all[a..a + |d|] == Body(entries, i + 1)[a..a + |d|];
  }

  /** The parts of a container lie where the layout says. */
  lemma UnsealedParts(c: seq<byte>, header: seq<byte>, entries: seq<Entry>)
    requires |header| == COUNT_OFF && |entries| <= 6 && Fits32(entries)
    requires Unsealed(header, entries) <= c
    ensures |c| >= Offset(entries, |entries|)
    ensures c[..COUNT_OFF] == header
    ensures c[COUNT_OFF..TABLE_OFF] == Pack32(|entries|)
    ensures c[TABLE_OFF..TABLE_OFF + ENTRY_SIZE * |entries|] == Rows(SectionList(entries))
    ensures c[BODY_OFF..Offset(entries, |entries|)] == Body(entries, |entries|)
  {
    hide Pack32, Rows, SectionList, Body, Fits32, Offset, Unsealed;
    UnsealedIs(header, entries);
    FiveParts(c, header, Pack32(|entries|), Rows(SectionList(entries)),
              Zeros(BODY_OFF - TABLE_OFF - ENTRY_SIZE * |entries|), Body(entries, |entries|));
  }

  lemma UnsealedIs(header: seq<byte>, entries: seq<Entry>)
    requires |header| == COUNT_OFF && |entries| <= 6 && Fits32(entries)
    ensures |Rows(SectionList(entries))| == ENTRY_SIZE * |entries|
    ensures Offset(entries, |entries|) == BODY_OFF + |Body(entries, |entries|)|
    ensures Unsealed(header, entries) ==
            header + Pack32(|entries|) + Rows(SectionList(entries)) +
            Zeros(BODY_OFF - TABLE_OFF - ENTRY_SIZE * |entries|) + Body(entries, |entries|)
  {
    hide Pack32, Body, Fits32;
  }

  lemma FiveParts(c: seq<byte>, p1: seq<byte>, p2: seq<byte>, p3: seq<byte>, p4: seq<byte>, p5: seq<byte>)
    requires p1 + p2 + p3 + p4 + p5 <= c
    ensures var o2, o3 := |p1|, |p1| + |p2|;
            var o4 := o3 + |p3|;
            var o5 := o4 + |p4|;
            o5 + |p5| <= |c| && c[..o2] == p1 && c[o2..o3] == p2 && c[o3..o4] == p3 && c[o5..o5 + |p5|] == p5
  {
    LastPart(c, p1 + p2 + p3 + p4, p5);
    LastPart(c, p1 + p2 + p3, p4);
    LastPart(c, p1 + p2, p3);
    LastPart(c, p1, p2);
  }

  lemma LastPart(c: seq<byte>, q: seq<byte>, p: seq<byte>)
    requires q + p <= c
    ensures q <= c && |q| + |p| <= |c| && c[..|q|] == q && c[|q|..|q| + |p|] == p
  {
    var w := q + p;
    assert c[..|w|] == w;
    assert w[..|q|] == q && w[|q|..] == p;
  }

  /** `sections` reads back the table `build_container` wrote, and each section's
      bytes are where its row says, whatever follows the body. */
  lemma SectionsReadBack(c: seq<byte>, header: seq<byte>, entries: seq<Entry>)
    requires |header| == COUNT_OFF && |entries| <= 6 && Fits32(entries)
    requires Unsealed(header, entries) <= c
    ensures SectionsOf(c) == Ok(SectionList(entries))
    ensures forall i :: 0 <= i < |entries| ==>
              Offset(entries, i) + |entries[i].data| <= Offset(entries, |entries|) <= |c| &&
              c[Offset(entries, i)..Offset(entries, i) + |entries[i].data|] == entries[i].data
  {
    hide Pack32, Word, Rows, Body, Fits32, Row, Unsealed, SectionOf;
    UnsealedParts(c, header, entries);
    PackUnpack(|entries|, c, COUNT_OFF);
    var s := SectionList(entries);
    forall j | 0 <= j < |s|
      ensures c[TABLE_OFF + ENTRY_SIZE * j..TABLE_OFF + ENTRY_SIZE * j + ENTRY_SIZE] == Row(s[j])
    {
      RowAt(s, j);
      SliceOfSlice(c, TABLE_OFF, TABLE_OFF + ENTRY_SIZE * |s|, ENTRY_SIZE * j, ENTRY_SIZE * (j + 1));
    }
    TableReads(c, s, 0);
    assert s[0..] == s;
    forall i | 0 <= i < |entries|
      ensures Offset(entries, i) + |entries[i].data| <= Offset(entries, |entries|)
      ensures c[Offset(entries, i)..Offset(entries, i) + |entries[i].data|] == entries[i].data
    {
      BodyHolds(entries, i);
      var a, b := |Body(entries, i)|, |Body(entries, i)| + |entries[i].data|;
      SliceOfSlice(c, BODY_OFF, Offset(entries, |entries|), a, b);
    }
  }
}
