/** A writer of the supported WDC5 layout, which read_lookup inverts. */
module LookupWriter {
  import opened Wrappers
  import opened LittleEndian
  import opened HotfixRecords
  import opened LookupDb2

  /** Equally long parts, one after the other. */
  function Flat(parts: seq<Bytes>): Bytes {
    if parts == [] then [] else Flat(parts[..|parts| - 1]) + parts[|parts| - 1]
  }

  function IdBytes(s: Section): Bytes {
    Flat(seq(|s.ids|, i requires 0 <= i < |s.ids| => ToLe(s.ids[i], 4)))
  }

  function NameBytes(s: Section): Bytes {
    Flat(seq(|s.names|, i requires 0 <= i < |s.names| => ToLe(s.names[i], 8)))
  }

  function CopyBytes(s: Section): Bytes {
    Flat(seq(|s.copies|, i requires 0 <= i < |s.copies| => ToLe(s.copies[i].0, 4) + ToLe(s.copies[i].1, 4)))
  }

  /** A word for the relation and sparse tables the layout does not have. */
  const NONE: Bytes := [0, 0, 0, 0]

  /** The values a section's fields can hold in the file. */
  ghost predicate Fits(s: Section) {
    && |s.ids| == |s.names|
    && s.key < TWO_64 && |s.ids| * 4 < TWO_32 && |s.strings| < TWO_32 && |s.copies| < TWO_32
    && (forall i :: 0 <= i < |s.names| ==> s.names[i] < TWO_64)
    && (forall i :: 0 <= i < |s.ids| ==> s.ids[i] < TWO_32)
    && (forall i :: 0 <= i < |s.copies| ==> s.copies[i].0 < TWO_32 && s.copies[i].1 < TWO_32)
  }

  ghost predicate AllFit(sections: Sections) {
    forall i :: 0 <= i < |sections| ==> Fits(sections[i])
  }

  function EncodeHeader(s: Section, start: nat, reserved: nat): (h: Bytes)
    ensures |h| == SECTION_SIZE
  {
    ToLe(s.key, 8) + ToLe(start, 4) + ToLe(|s.ids|, 4) + ToLe(|s.strings|, 4) + ToLe(reserved, 4)
    + ToLe(|s.ids| * 4, 4) + NONE + NONE + ToLe(|s.copies|, 4)
  }

  function EncodeBody(s: Section): Bytes {
    NameBytes(s) + s.strings + IdBytes(s) + CopyBytes(s)
  }

  // ---------- Tables ----------

  lemma {:induction false} FlatLength(parts: seq<Bytes>, width: nat)
    requires forall i :: 0 <= i < |parts| ==> |parts[i]| == width
    ensures |Flat(parts)| == |parts| * width
  {
    if parts != [] {
      var k := |parts| - 1;
      FlatLength(parts[..k], width);
      assert k * width + width == |parts| * width;
    }
  }

  lemma {:induction false} FlatAt(parts: seq<Bytes>, width: nat, i: nat)
    requires i < |parts| && forall j :: 0 <= j < |parts| ==> |parts[j]| == width
    ensures 0 <= i * width && i * width + width <= |Flat(parts)|
    ensures Flat(parts)[i * width..i * width + width] == parts[i]
  {
    var k := |parts| - 1;
    FlatLength(parts[..k], width);
    if i < k {
      FlatAt(parts[..k], width, i);
    }
  }

  lemma IdsReadBack(s: Section)
    requires Fits(s)
    ensures |IdBytes(s)| == |s.ids| * 4 && Words4(IdBytes(s), |s.ids|) == s.ids
  {
    var parts := seq(|s.ids|, i requires 0 <= i < |s.ids| => ToLe(s.ids[i], 4));
    FlatLength(parts, 4);
    forall i | 0 <= i < |s.ids|
      ensures Words4(IdBytes(s), |s.ids|)[i] == s.ids[i]
    {
      FlatAt(parts, 4, i);
      Back4(s.ids[i]);
    }
  }

  lemma NamesReadBack(s: Section)
    requires Fits(s)
    ensures |NameBytes(s)| == |s.ids| * 8 && Words8(NameBytes(s), |s.ids|) == s.names
  {
    var parts := seq(|s.names|, i requires 0 <= i < |s.names| => ToLe(s.names[i], 8));
    FlatLength(parts, 8);
    forall i | 0 <= i < |s.names|
      ensures Words8(NameBytes(s), |s.ids|)[i] == s.names[i]
    {
      FlatAt(parts, 8, i);
      Back8(s.names[i]);
    }
  }

  lemma CopiesReadBack(s: Section)
    requires Fits(s)
    ensures |CopyBytes(s)| == |s.copies| * 8 && Pairs(CopyBytes(s), |s.copies|) == s.copies
  {
    var parts := seq(|s.copies|, i requires 0 <= i < |s.copies| => ToLe(s.copies[i].0, 4) + ToLe(s.copies[i].1, 4));
    FlatLength(parts, 8);
    var bytes := CopyBytes(s);
    forall i | 0 <= i < |s.copies|
      ensures Pairs(bytes, |s.copies|)[i] == s.copies[i]
    {
      FlatAt(parts, 8, i);
      SubSlice(bytes, i * 8, i * 8 + 8, 0, 4);
      SubSlice(bytes, i * 8, i * 8 + 8, 4, 8);
      Back4(s.copies[i].0);
      Back4(s.copies[i].1);
    }
  }

  // ---------- Parts of a file ----------

  ghost predicate Contains(data: Bytes, at: nat, part: Bytes) {
    at + |part| <= |data| && data[at..at + |part|] == part
  }

  lemma ContainedIsTaken(data: Bytes, at: nat, part: Bytes)
    requires Contains(data, at, part)
    ensures Take(data, at, |part|) == Ok(part)
  {
  }

  lemma InsideIsTaken(data: Bytes, whole: Bytes, offset: nat, size: nat)
    requires Contains(data, 0, whole) && offset + size <= |whole|
    ensures Take(data, offset, size) == Ok(whole[offset..offset + size])
  {
    SubSlice(data, 0, |whole|, offset, offset + size);
  }

  lemma ContainsParts(data: Bytes, at: nat, a: Bytes, b: Bytes)
    ensures Contains(data, at, a + b) <==> Contains(data, at, a) && Contains(data, at + |a|, b)
  {
    if at + |a| + |b| <= |data| {
      var whole := data[at..at + |a| + |b|];
      assert whole == data[at..at + |a|] + data[at + |a|..at + |a| + |b|];
      assert (a + b)[..|a|] == a && (a + b)[|a|..] == b;
      assert whole[..|a|] == data[at..at + |a|] && whole[|a|..] == data[at + |a|..at + |a| + |b|];
    }
  }

  lemma ContainsFour(data: Bytes, at: nat, a: Bytes, b: Bytes, c: Bytes, d: Bytes)
    requires Contains(data, at, a + b + c + d)
    ensures Contains(data, at, a) && Contains(data, at + |a|, b)
    ensures Contains(data, at + |a| + |b|, c) && Contains(data, at + |a| + |b| + |c|, d)
  {
    ContainsParts(data, at, a + b + c, d);
    ContainsParts(data, at, a + b, c);
    ContainsParts(data, at, a, b);
  }

  // ---------- One section ----------

  lemma HeaderReadsBack(data: Bytes, at: nat, s: Section, start: nat, reserved: nat)
    requires Fits(s) && start < TWO_32 && Contains(data, at, EncodeHeader(s, start, reserved))
    ensures HeaderAt(data, at)
         == Ok(SectionHeader(s.key, start, |s.ids|, |s.strings|, |s.ids| * 4, 0, 0, |s.copies|))
  {
    Back8(s.key);
    Back4(start);
    Back4(|s.ids|);
    Back4(|s.strings|);
    Back4(|s.ids| * 4);
    LeIsZero(NONE);
    Back4(|s.copies|);
    HeaderSlices(s, start, reserved);
  }

  lemma HeaderSlices(s: Section, start: nat, reserved: nat)
    ensures var h := EncodeHeader(s, start, reserved);
            && h[..8] == ToLe(s.key, 8) && h[8..12] == ToLe(start, 4) && h[12..16] == ToLe(|s.ids|, 4)
            && h[16..20] == ToLe(|s.strings|, 4) && h[24..28] == ToLe(|s.ids| * 4, 4)
            && h[28..32] == NONE && h[32..36] == NONE && h[36..40] == ToLe(|s.copies|, 4)
  {
  }

  lemma TableReadsBack(data: Bytes, s: Section, idStart: nat)
    requires Fits(s) && Contains(data, idStart, IdBytes(s)) && Contains(data, idStart + |IdBytes(s)|, CopyBytes(s))
    ensures |NameBytes(s)| == |s.ids| * 8
    ensures DecodeTable(data, s.key, s.strings, NameBytes(s), idStart, |s.ids|, |s.copies|) == Ok(s)
  {
    IdsReadBack(s);
    NamesReadBack(s);
    CopiesReadBack(s);
  }

  lemma BodyPlaces(data: Bytes, at: nat, names: Bytes, strings: Bytes, ids: Bytes, copies: Bytes)
    requires Contains(data, at, names + strings + ids + copies)
    ensures Take(data, at, |names|) == Ok(names) && Take(data, at + |names|, |strings|) == Ok(strings)
    ensures Contains(data, at + |names| + |strings|, ids) && Contains(data, at + |names| + |strings| + |ids|, copies)
  {
    ContainsFour(data, at, names, strings, ids, copies);
    ContainedIsTaken(data, at, names);
    ContainedIsTaken(data, at + |names|, strings);
  }

  lemma StringsReadBack(data: Bytes, s: Section, h: SectionHeader)
    requires Fits(s) && h == SectionHeader(s.key, h.start, |s.ids|, |s.strings|, |s.ids| * 4, 0, 0, |s.copies|)
    requires Contains(data, h.start, EncodeBody(s))
    ensures Take(data, h.start, h.count * 8) == Ok(NameBytes(s)) && h.start + h.count * 8 <= |data|
    ensures |NameBytes(s)| == |s.ids| * 8 && DecodeStrings(data, h, NameBytes(s)) == Ok(s)
  {
    BodyPlaces(data, h.start, NameBytes(s), s.strings, IdBytes(s), CopyBytes(s));
    NamesReadBack(s);
    TableReadsBack(data, s, h.start + |NameBytes(s)| + |s.strings|);
    DecodeStringsIs(data, h, NameBytes(s), s);
  }

  lemma DecodeStringsIs(data: Bytes, h: SectionHeader, payload: Bytes, s: Section)
    requires |payload| == h.count * 8 && h.start + |payload| <= |data|
    requires Take(data, h.start + |payload|, h.strings) == Ok(s.strings)
    requires DecodeTable(data, h.key, s.strings, payload, h.start + |payload| + h.strings, h.count, h.copies) == Ok(s)
    ensures DecodeStrings(data, h, payload) == Ok(s)
  {
  }

  lemma BodyReadsBack(data: Bytes, s: Section, start: nat)
    requires Fits(s) && Contains(data, start, EncodeBody(s))
    ensures DecodeBody(data, SectionHeader(s.key, start, |s.ids|, |s.strings|, |s.ids| * 4, 0, 0, |s.copies|))
         == Spelled(s)
  {
    StringsReadBack(data, s, SectionHeader(s.key, start, |s.ids|, |s.strings|, |s.ids| * 4, 0, 0, |s.copies|));
    NamesReadBack(s);
    WordsOfZeros(NameBytes(s), |s.ids|);
  }

  /** What the file says of a section: itself, unless it reads as zeros for want of a key. */
  function Spelled(s: Section): Decoding
    requires |s.ids| == |s.names|
  {
    if Unreadable(s) then Err(UnreadableSection) else Ok(s)
  }

  lemma SectionReadsBack(data: Bytes, at: nat, s: Section, start: nat, reserved: nat)
    requires Fits(s) && start < TWO_32
    requires Contains(data, at, EncodeHeader(s, start, reserved)) && Contains(data, start, EncodeBody(s))
    ensures DecodeSection(data, at) == Spelled(s)
  {
    HeaderReadsBack(data, at, s, start, reserved);
    BodyReadsBack(data, s, start);
  }

  // ---------- A whole file ----------

  /** data has the supported layout and holds each section's header in place and its body at starts[i]. */
  ghost predicate Describes(data: Bytes, sections: Sections, starts: seq<nat>, reserved: seq<nat>) {
    && |starts| == |reserved| == |sections|
    && CheckLayout(data) == Ok(|sections|)
    && DescribesEach(data, sections, starts, reserved)
  }

  ghost predicate DescribesEach(data: Bytes, sections: Sections, starts: seq<nat>, reserved: seq<nat>)
    requires |starts| == |reserved| == |sections|
  {
    forall i :: 0 <= i < |sections| ==> DescribesSection(data, i, sections[i], starts[i], reserved[i])
  }

  ghost predicate DescribesSection(data: Bytes, i: nat, s: Section, start: nat, reserved: nat) {
    && Fits(s) && start < TWO_32
    && Contains(data, SECTIONS_AT + i * SECTION_SIZE, EncodeHeader(s, start, reserved))
    && Contains(data, start, EncodeBody(s))
  }

  lemma {:induction false} SpelledMeans(rows: map<nat, string>, decoded: seq<Decoding>, sections: Sections)
    requires |decoded| == |sections| && forall i :: 0 <= i < |sections| ==> decoded[i] == Spelled(sections[i])
    ensures ApplyAll(rows, decoded) == Meaning(rows, sections)
    decreases |sections|
  {
    if sections != [] {
      var updated := ApplySection(rows, sections[0]);
      assert Applied(rows, decoded[0]) == updated;
      if updated.Ok? {
        SpelledMeans(updated.value, decoded[1..], sections[1..]);
      }
    }
  }

  lemma DecodingsAreSpelled(data: Bytes, sections: Sections, starts: seq<nat>, reserved: seq<nat>)
    requires |starts| == |reserved| == |sections| && DescribesEach(data, sections, starts, reserved)
    ensures forall i :: 0 <= i < |sections| ==> Decodings(data, |sections|)[i] == Spelled(sections[i])
  {
    forall i | 0 <= i < |sections|
      ensures Decodings(data, |sections|)[i] == Spelled(sections[i])
    {
      assert DescribesSection(data, i, sections[i], starts[i], reserved[i]);
      SectionReadsBack(data, SECTIONS_AT + i * SECTION_SIZE, sections[i], starts[i], reserved[i]);
    }
  }

  /** Wherever the bodies lie, reading yields the left-to-right update, failures included. */
  lemma DescribedFileReadsBack(data: Bytes, sections: Sections, starts: seq<nat>, reserved: seq<nat>)
    requires Describes(data, sections, starts, reserved)
    ensures ReadLookup(data) == Meaning(map[], sections)
  {
    DecodingsAreSpelled(data, sections, starts, reserved);
    SpelledMeans(map[], Decodings(data, |sections|), sections);
  }

  // ---------- The writer ----------

  /** The file before its sections: six words at 136, the flags at 172, and bytes that nobody looks at. */
  datatype Preamble = Preamble(head: Bytes, first: nat, count: nat, size: nat, fourth: nat, table: nat, layout: nat,
                               middle: Bytes, flags: nat, tail: Bytes, field: Bytes)

  ghost predicate Supported(g: Preamble) {
    && |g.head| == 132 && |g.middle| == 12 && |g.tail| == 26 && |g.field| == 4
    && g.count == 1 && g.size == 8 && g.flags == 4 && g.table == TACT_LOOKUP && g.layout == LOOKUP_LAYOUT
  }

  /** Six header words: an ignored one, field count, record size, an ignored one, table and layout hashes. */
  function FieldBytes(g: Preamble): (f: Bytes)
    ensures |f| == 24
  {
    ToLe(g.first, 4) + ToLe(g.count, 4) + ToLe(g.size, 4) + ToLe(g.fourth, 4) + ToLe(g.table, 4) + ToLe(g.layout, 4)
  }

  function Prologue(g: Preamble, sections: nat): Bytes {
    WDC5 + g.head + FieldBytes(g) + g.middle + ToLe(g.flags, 2) + g.tail + ToLe(sections, 4)
  }

  function BodyParts(sections: Sections): seq<Bytes> {
    seq(|sections|, i requires 0 <= i < |sections| => EncodeBody(sections[i]))
  }

  /** Where section i's body starts, counted from the end of everything before the bodies. */
  function BodyOffset(sections: Sections, i: nat): nat
    requires i <= |sections|
  {
    |Flat(BodyParts(sections)[..i])|
  }

  function HeaderParts(sections: Sections, starts: seq<nat>, reserved: seq<nat>): seq<Bytes>
    requires |starts| == |reserved| == |sections|
  {
    seq(|sections|, i requires 0 <= i < |sections| => EncodeHeader(sections[i], starts[i], reserved[i]))
  }

  function BaseOf(sections: nat): nat {
    SECTIONS_AT + SECTION_SIZE * sections + 4 + STORAGE_SIZE
  }

  function Starts(sections: Sections): seq<nat> {
    seq(|sections|, i requires 0 <= i < |sections| => BaseOf(|sections|) + BodyOffset(sections, i))
  }

  function WriteLookup(g: Preamble, sections: Sections, reserved: seq<nat>): Bytes
    requires |reserved| == |sections|
  {
    Prologue(g, |sections|) + Flat(HeaderParts(sections, Starts(sections), reserved))
    + (g.field + FIELD_STORAGE) + Flat(BodyParts(sections))
  }

  lemma ContainsInside(data: Bytes, at: nat, whole: Bytes, k: nat, part: Bytes)
    requires Contains(data, at, whole) && Contains(whole, k, part)
    ensures Contains(data, at + k, part)
  {
    SubSlice(data, at, at + |whole|, k, k + |part|);
  }

  lemma {:induction false} PartInside(parts: seq<Bytes>, i: nat)
    requires i < |parts|
    ensures Contains(Flat(parts), |Flat(parts[..i])|, parts[i])
  {
    var n := |parts| - 1;
    var front := Flat(parts[..n]);
    assert Contains(Flat(parts), 0, front + parts[n]);
    ContainsParts(Flat(parts), 0, front, parts[n]);
    if i < n {
      PartInside(parts[..n], i);
      assert parts[..n][..i] == parts[..i];
      ContainsInside(Flat(parts), 0, front, |Flat(parts[..i])|, parts[i]);
    }
  }

  lemma SevenSlices(a: Bytes, b: Bytes, c: Bytes, d: Bytes, e: Bytes, f: Bytes, h: Bytes)
    requires |a| == 4 && |b| == 132 && |c| == 24 && |d| == 12 && |e| == 2 && |f| == 26 && |h| == 4
    ensures var p := a + b + c + d + e + f + h;
            |p| == SECTIONS_AT && p[..4] == a && p[136..160] == c && p[172..174] == e && p[200..204] == h
  {
  }

  lemma PrologueParts(g: Preamble, sections: nat)
    requires Supported(g)
    ensures var p := Prologue(g, sections);
            && |p| == SECTIONS_AT && p[..4] == WDC5 && p[136..160] == FieldBytes(g)
            && p[172..174] == ToLe(g.flags, 2) && p[200..204] == ToLe(sections, 4)
  {
    SevenSlices(WDC5, g.head, FieldBytes(g), g.middle, ToLe(g.flags, 2), g.tail, ToLe(sections, 4));
  }

  lemma FieldSlices(g: Preamble)
    ensures var f := FieldBytes(g);
            && f[4..8] == ToLe(g.count, 4) && f[8..12] == ToLe(g.size, 4)
            && f[16..20] == ToLe(g.table, 4) && f[20..24] == ToLe(g.layout, 4)
  {
  }

  lemma FieldsReadBack(g: Preamble)
    requires Supported(g)
    ensures var f := FieldBytes(g);
            && Le(f[4..8]) == g.count && Le(f[8..12]) == g.size
            && Le(f[16..20]) == g.table && Le(f[20..24]) == g.layout
  {
    FieldSlices(g);
    Back4(g.count);
    Back4(g.size);
    Back4(g.table);
    Back4(g.layout);
  }

  lemma PrologueReadsBack(data: Bytes, g: Preamble, sections: nat)
    requires Supported(g) && sections < TWO_32
    requires Contains(data, 0, Prologue(g, sections))
    ensures Take(data, 0, 4) == Ok(WDC5) && Take(data, 136, 24) == Ok(FieldBytes(g))
    ensures U16(data, 172) == Ok(g.flags) && U32(data, 200) == Ok(sections)
  {
    var p := Prologue(g, sections);
    PrologueParts(g, sections);
    InsideIsTaken(data, p, 0, 4);
    InsideIsTaken(data, p, 136, 24);
    InsideIsTaken(data, p, 172, 2);
    InsideIsTaken(data, p, 200, 4);
    Back2(g.flags);
    Back4(sections);
  }

  lemma LayoutIs(data: Bytes, f: Bytes, sections: nat)
    requires Take(data, 0, 4) == Ok(WDC5) && Take(data, 136, 24) == Ok(f)
    requires U16(data, 172) == Ok(4) && U32(data, 200) == Ok(sections)
    requires Le(f[4..8]) == 1 && Le(f[8..12]) == 8 && Le(f[16..20]) == TACT_LOOKUP && Le(f[20..24]) == LOOKUP_LAYOUT
    requires Contains(data, SECTIONS_AT + SECTION_SIZE * sections + 4, FIELD_STORAGE)
    ensures CheckLayout(data) == Ok(sections)
  {
    assert |FIELD_STORAGE| == STORAGE_SIZE;
  }

  lemma StorageInside(data: Bytes, at: nat, g: Preamble)
    requires Supported(g) && Contains(data, at, g.field + FIELD_STORAGE)
    ensures Contains(data, at + 4, FIELD_STORAGE)
  {
    ContainsParts(data, at, g.field, FIELD_STORAGE);
  }

  lemma LayoutAccepted(data: Bytes, g: Preamble, sections: nat, prologue: Bytes, at: nat, storage: Bytes)
    requires Supported(g) && sections < TWO_32
    requires prologue == Prologue(g, sections) && Contains(data, 0, prologue)
    requires at == SECTIONS_AT + SECTION_SIZE * sections
    requires storage == g.field + FIELD_STORAGE && Contains(data, at, storage)
    ensures CheckLayout(data) == Ok(sections)
  {
    FieldsReadBack(g);
    PrologueReadsBack(data, g, sections);
    StorageInside(data, at, g);
    assert Contains(data, at + 4, FIELD_STORAGE);
    LayoutIs(data, FieldBytes(g), sections);
  }

  lemma HeaderInside(data: Bytes, sections: Sections, starts: seq<nat>, reserved: seq<nat>, i: nat)
    requires i < |sections| == |starts| == |reserved|
    requires Contains(data, SECTIONS_AT, Flat(HeaderParts(sections, starts, reserved)))
    ensures Contains(data, SECTIONS_AT + i * SECTION_SIZE, EncodeHeader(sections[i], starts[i], reserved[i]))
  {
    HeaderAtOffset(data, HeaderParts(sections, starts, reserved), i);
  }

  lemma HeaderAtOffset(data: Bytes, headers: seq<Bytes>, i: nat)
    requires i < |headers| && (forall j :: 0 <= j < |headers| ==> |headers[j]| == SECTION_SIZE)
    requires Contains(data, SECTIONS_AT, Flat(headers))
    ensures Contains(data, SECTIONS_AT + i * SECTION_SIZE, headers[i])
  {
    PartInside(headers, i);
    FlatLength(headers[..i], SECTION_SIZE);
    ContainsInside(data, SECTIONS_AT, Flat(headers), i * SECTION_SIZE, headers[i]);
  }

  lemma BodyInside(data: Bytes, sections: Sections, base: nat, i: nat)
    requires i < |sections| && Contains(data, base, Flat(BodyParts(sections)))
    ensures Contains(data, base + BodyOffset(sections, i), EncodeBody(sections[i]))
  {
    PartInside(BodyParts(sections), i);
    ContainsInside(data, base, Flat(BodyParts(sections)), BodyOffset(sections, i), EncodeBody(sections[i]));
  }

  lemma SectionInside(data: Bytes, sections: Sections, reserved: seq<nat>, i: nat)
    requires i < |sections| == |reserved| && Fits(sections[i]) && |data| < TWO_32
    requires Contains(data, SECTIONS_AT, Flat(HeaderParts(sections, Starts(sections), reserved)))
    requires Contains(data, BaseOf(|sections|), Flat(BodyParts(sections)))
    ensures DescribesSection(data, i, sections[i], Starts(sections)[i], reserved[i])
  {
    HeaderInside(data, sections, Starts(sections), reserved, i);
    assert Starts(sections)[i] == BaseOf(|sections|) + BodyOffset(sections, i);
    BodyInside(data, sections, BaseOf(|sections|), i);
  }

  lemma PartsInPlace(data: Bytes, prologue: Bytes, headers: Bytes, storage: Bytes, bodies: Bytes, n: nat)
    requires data == prologue + headers + storage + bodies
    requires |prologue| == SECTIONS_AT && |headers| == n * SECTION_SIZE && |storage| == 4 + STORAGE_SIZE
    ensures Contains(data, 0, prologue) && Contains(data, SECTIONS_AT, headers)
    ensures Contains(data, SECTIONS_AT + SECTION_SIZE * n, storage) && Contains(data, BaseOf(n), bodies)
  {
    assert data[0..|data|] == data;
    ContainsFour(data, 0, prologue, headers, storage, bodies);
  }

  /** The parts of a written file and where they lie. */
  function PlacedParts(g: Preamble, sections: Sections, reserved: seq<nat>): (parts: seq<(nat, Bytes)>)
    requires |reserved| == |sections|
    ensures |parts| == 4
  {
    [(0, Prologue(g, |sections|)),
     (SECTIONS_AT, Flat(HeaderParts(sections, Starts(sections), reserved))),
     (SECTIONS_AT + SECTION_SIZE * |sections|, g.field + FIELD_STORAGE),
     (BaseOf(|sections|), Flat(BodyParts(sections)))]
  }

  ghost predicate AllPlaced(data: Bytes, parts: seq<(nat, Bytes)>) {
    forall k :: 0 <= k < |parts| ==> Contains(data, parts[k].0, parts[k].1)
  }

  lemma WrittenPartsArePlaced(data: Bytes, g: Preamble, sections: Sections, reserved: seq<nat>)
    requires Supported(g) && |reserved| == |sections| && data == WriteLookup(g, sections, reserved)
    ensures AllPlaced(data, PlacedParts(g, sections, reserved))
  {
    var n, headers := |sections|, HeaderParts(sections, Starts(sections), reserved);
    PrologueParts(g, n);
    FlatLength(headers, SECTION_SIZE);
    PartsInPlace(data, Prologue(g, n), Flat(headers), g.field + FIELD_STORAGE, Flat(BodyParts(sections)), n);
  }

  lemma WrittenSectionsAreDescribed(data: Bytes, sections: Sections, reserved: seq<nat>)
    requires |reserved| == |sections| && AllFit(sections) && |data| < TWO_32
    requires Contains(data, SECTIONS_AT, Flat(HeaderParts(sections, Starts(sections), reserved)))
    requires Contains(data, BaseOf(|sections|), Flat(BodyParts(sections)))
    ensures DescribesEach(data, sections, Starts(sections), reserved)
  {
    forall i | 0 <= i < |sections|
      ensures DescribesSection(data, i, sections[i], Starts(sections)[i], reserved[i])
    {
      SectionInside(data, sections, reserved, i);
    }
  }

  lemma PlacedPart(data: Bytes, parts: seq<(nat, Bytes)>, k: nat, at: nat, part: Bytes)
    requires AllPlaced(data, parts) && k < |parts| && parts[k] == (at, part)
    ensures Contains(data, at, part)
  {
  }

  lemma PlacedLayout(data: Bytes, g: Preamble, sections: Sections, reserved: seq<nat>, n: nat)
    requires Supported(g) && |reserved| == |sections| == n < TWO_32
    requires AllPlaced(data, PlacedParts(g, sections, reserved))
    ensures CheckLayout(data) == Ok(n)
  {
    var parts := PlacedParts(g, sections, reserved);
    PlacedPart(data, parts, 0, parts[0].0, parts[0].1);
    PlacedPart(data, parts, 2, parts[2].0, parts[2].1);
    LayoutAccepted(data, g, n, parts[0].1, parts[2].0, parts[2].1);
  }

  lemma PlacedSections(data: Bytes, g: Preamble, sections: Sections, reserved: seq<nat>)
    requires |reserved| == |sections| && AllFit(sections) && |data| < TWO_32
    requires AllPlaced(data, PlacedParts(g, sections, reserved))
    ensures DescribesEach(data, sections, Starts(sections), reserved)
  {
    var parts := PlacedParts(g, sections, reserved);
    PlacedPart(data, parts, 1, SECTIONS_AT, Flat(HeaderParts(sections, Starts(sections), reserved)));
    PlacedPart(data, parts, 3, BaseOf(|sections|), Flat(BodyParts(sections)));
    WrittenSectionsAreDescribed(data, sections, reserved);
  }

  lemma WrittenFileIsDescribed(data: Bytes, g: Preamble, sections: Sections, reserved: seq<nat>)
    requires Supported(g) && |reserved| == |sections| < TWO_32 && AllFit(sections)
    requires data == WriteLookup(g, sections, reserved) && |data| < TWO_32
    ensures Describes(data, sections, Starts(sections), reserved)
  {
    WrittenPartsArePlaced(data, g, sections, reserved);
    PlacedLayout(data, g, sections, reserved, |sections|);
    PlacedSections(data, g, sections, reserved);
  }

  /**
    read_lookup inverts the writer for any number of sections, ids and copies: the result is the
    left-to-right update by each section's rows, then its copies, and it fails exactly where the
    update does.
   */
  lemma ReadInvertsWrite(g: Preamble, sections: Sections, reserved: seq<nat>)
    requires Supported(g) && |reserved| == |sections| < TWO_32 && AllFit(sections)
    requires |WriteLookup(g, sections, reserved)| < TWO_32
    ensures ReadLookup(WriteLookup(g, sections, reserved)) == Meaning(map[], sections)
  {
    var data := WriteLookup(g, sections, reserved);
    WrittenFileIsDescribed(data, g, sections, reserved);
    DescribedFileReadsBack(data, sections, Starts(sections), reserved);
  }
}
