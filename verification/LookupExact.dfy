/** read_lookup accepts exactly the files that the writer's layout describes. */
module LookupExact {
  import opened Wrappers
  import opened LittleEndian
  import opened HexText
  import opened HotfixRecords
  import opened LookupDb2
  import opened LookupWriter

  // ---------- Tables ----------

  lemma {:induction false} SlicesMakeWhole(bytes: Bytes, width: nat, parts: seq<Bytes>)
    requires |bytes| == |parts| * width
    requires forall i :: 0 <= i < |parts| ==> 0 <= i * width && i * width + width <= |bytes| && parts[i] == bytes[i * width..i * width + width]
    ensures Flat(parts) == bytes
  {
    if parts == [] {
      assert bytes == [];
    } else {
      var k := |parts| - 1;
      assert |parts| * width == k * width + width;
      var front := bytes[..k * width];
      forall i | 0 <= i < k
        ensures 0 <= i * width && i * width + width <= |front| && parts[..k][i] == front[i * width..i * width + width]
      {
        assert (i + 1) * width <= k * width;
        assert (i + 1) * width == i * width + width;
      }
      SlicesMakeWhole(front, width, parts[..k]);
      assert bytes == front + parts[k];
    }
  }

  lemma WordIsLe(bytes: Bytes)
    ensures ToLe(Le(bytes), |bytes|) == bytes && Le(bytes) < Pow256(|bytes|)
  {
    ToLeLe(bytes);
  }

  lemma IdsAreBytes(bytes: Bytes, s: Section)
    requires |bytes| == |s.ids| * 4 && s.ids == Words4(bytes, |s.ids|)
    ensures IdBytes(s) == bytes && forall i :: 0 <= i < |s.ids| ==> s.ids[i] < TWO_32
  {
    var parts := seq(|s.ids|, i requires 0 <= i < |s.ids| => ToLe(s.ids[i], 4));
    forall i | 0 <= i < |s.ids|
      ensures parts[i] == bytes[i * 4..i * 4 + 4] && s.ids[i] < TWO_32
    {
      WordIsLe(bytes[i * 4..i * 4 + 4]);
      Widths();
    }
    SlicesMakeWhole(bytes, 4, parts);
  }

  lemma NamesAreBytes(bytes: Bytes, s: Section)
    requires |bytes| == |s.names| * 8 && s.names == Words8(bytes, |s.names|)
    ensures NameBytes(s) == bytes && forall i :: 0 <= i < |s.names| ==> s.names[i] < TWO_64
  {
    var parts := seq(|s.names|, i requires 0 <= i < |s.names| => ToLe(s.names[i], 8));
    forall i | 0 <= i < |s.names|
      ensures parts[i] == bytes[i * 8..i * 8 + 8] && s.names[i] < TWO_64
    {
      WordIsLe(bytes[i * 8..i * 8 + 8]);
      Widths();
    }
    SlicesMakeWhole(bytes, 8, parts);
  }

  lemma PairIsBytes(bytes: Bytes)
    requires |bytes| == 8
    ensures ToLe(Le(bytes[..4]), 4) + ToLe(Le(bytes[4..8]), 4) == bytes
    ensures Le(bytes[..4]) < TWO_32 && Le(bytes[4..8]) < TWO_32
  {
    WordIsLe(bytes[..4]);
    WordIsLe(bytes[4..8]);
    Widths();
    assert bytes[..4] + bytes[4..8] == bytes;
  }

  lemma CopiesAreBytes(bytes: Bytes, s: Section)
    requires |bytes| == |s.copies| * 8 && s.copies == Pairs(bytes, |s.copies|)
    ensures CopyBytes(s) == bytes
    ensures forall i :: 0 <= i < |s.copies| ==> s.copies[i].0 < TWO_32 && s.copies[i].1 < TWO_32
  {
    var parts := seq(|s.copies|, i requires 0 <= i < |s.copies| => ToLe(s.copies[i].0, 4) + ToLe(s.copies[i].1, 4));
    forall i | 0 <= i < |s.copies|
      ensures parts[i] == bytes[i * 8..i * 8 + 8] && s.copies[i].0 < TWO_32 && s.copies[i].1 < TWO_32
    {
      var slice := bytes[i * 8..i * 8 + 8];
      PairIsBytes(slice);
      SubSlice(bytes, i * 8, i * 8 + 8, 0, 4);
      SubSlice(bytes, i * 8, i * 8 + 8, 4, 8);
    }
    SlicesMakeWhole(bytes, 8, parts);
  }

  // ---------- One section ----------

  lemma TakenIsContained(data: Bytes, at: nat, size: nat)
    requires Take(data, at, size).Ok?
    ensures Contains(data, at, Take(data, at, size).value) && |Take(data, at, size).value| == size
  {
  }

  lemma ContainedFour(data: Bytes, at: nat, a: Bytes, b: Bytes, c: Bytes, d: Bytes)
    requires Contains(data, at, a) && Contains(data, at + |a|, b)
    requires Contains(data, at + |a| + |b|, c) && Contains(data, at + |a| + |b| + |c|, d)
    ensures Contains(data, at, a + b + c + d)
  {
    ContainsParts(data, at, a, b);
    ContainsParts(data, at, a + b, c);
    ContainsParts(data, at, a + b + c, d);
  }

  /** The four parts of a body, one after the other, and the section they spell. */
  ghost predicate BodyOf(data: Bytes, h: SectionHeader, s: Section, names: Bytes, strings: Bytes, ids: Bytes, copies: Bytes) {
    && |names| == h.count * 8 && |strings| == h.strings && |ids| == h.count * 4 && |copies| == h.copies * 8
    && Take(data, h.start, |names|) == Ok(names) && Take(data, h.start + |names|, |strings|) == Ok(strings)
    && Take(data, h.start + |names| + |strings|, |ids|) == Ok(ids)
    && Take(data, h.start + |names| + |strings| + |ids|, |copies|) == Ok(copies)
    && s == Section(h.key, strings, Words4(ids, h.count), Words8(names, h.count), Pairs(copies, h.copies))
    && h.relations == 0 && h.sparse == 0 && h.ids == h.count * 4
  }

  lemma BodyParts(data: Bytes, h: SectionHeader, s: Section) returns (names: Bytes, strings: Bytes, ids: Bytes, copies: Bytes)
    requires DecodeBody(data, h) == Ok(s)
    ensures BodyOf(data, h, s, names, strings, ids, copies)
  {
    names := Take(data, h.start, h.count * 8).value;
    strings := Take(data, h.start + h.count * 8, h.strings).value;
    var idStart := h.start + h.count * 8 + h.strings;
    ids := Take(data, idStart, h.count * 4).value;
    copies := Take(data, idStart + h.count * 4, h.copies * 8).value;
  }

  lemma TablesAreBytes(s: Section, names: Bytes, ids: Bytes, copies: Bytes, count: nat, copied: nat)
    requires |names| == count * 8 && |ids| == count * 4 && |copies| == copied * 8
    requires s.names == Words8(names, count) && s.ids == Words4(ids, count) && s.copies == Pairs(copies, copied)
    ensures NameBytes(s) == names && IdBytes(s) == ids && CopyBytes(s) == copies
    ensures forall i :: 0 <= i < |s.names| ==> s.names[i] < TWO_64 && s.ids[i] < TWO_32
    ensures forall i :: 0 <= i < |s.copies| ==> s.copies[i].0 < TWO_32 && s.copies[i].1 < TWO_32
  {
    NamesAreBytes(names, s);
    IdsAreBytes(ids, s);
    CopiesAreBytes(copies, s);
  }

  lemma PartsAreContained(data: Bytes, start: nat, names: Bytes, strings: Bytes, ids: Bytes, copies: Bytes)
    requires Take(data, start, |names|) == Ok(names) && Take(data, start + |names|, |strings|) == Ok(strings)
    requires Take(data, start + |names| + |strings|, |ids|) == Ok(ids)
    requires Take(data, start + |names| + |strings| + |ids|, |copies|) == Ok(copies)
    ensures Contains(data, start, names + strings + ids + copies)
  {
    ContainedFour(data, start, names, strings, ids, copies);
  }

  lemma BodyFromParts(data: Bytes, start: nat, s: Section, names: Bytes, ids: Bytes, copies: Bytes)
    requires NameBytes(s) == names && IdBytes(s) == ids && CopyBytes(s) == copies
    requires Contains(data, start, names + s.strings + ids + copies)
    ensures Contains(data, start, EncodeBody(s))
  {
  }

  /** What is said of a section by the header it decodes from, with its words in their width. */
  ghost predicate FitsHeader(s: Section, h: SectionHeader) {
    && s.key == h.key && |s.ids| == |s.names| == h.count && |s.strings| == h.strings && |s.copies| == h.copies
    && h.relations == 0 && h.sparse == 0 && h.ids == h.count * 4
    && (forall i :: 0 <= i < |s.names| ==> s.names[i] < TWO_64 && s.ids[i] < TWO_32)
    && (forall i :: 0 <= i < |s.copies| ==> s.copies[i].0 < TWO_32 && s.copies[i].1 < TWO_32)
  }

  lemma BodyOfIsEncoded(data: Bytes, h: SectionHeader, s: Section, names: Bytes, strings: Bytes, ids: Bytes, copies: Bytes)
    requires BodyOf(data, h, s, names, strings, ids, copies)
    ensures Contains(data, h.start, EncodeBody(s)) && FitsHeader(s, h)
  {
    TablesAreBytes(s, names, ids, copies, h.count, h.copies);
    PartsAreContained(data, h.start, names, strings, ids, copies);
    BodyFromParts(data, h.start, s, names, ids, copies);
  }

  /** A body that decodes is the encoding of the section it decodes to. */
  lemma BodyIsEncoded(data: Bytes, h: SectionHeader, s: Section)
    requires DecodeBody(data, h) == Ok(s)
    ensures Contains(data, h.start, EncodeBody(s)) && !Unreadable(s) && FitsHeader(s, h)
  {
    var names, strings, ids, copies := BodyParts(data, h, s);
    BodyOfIsEncoded(data, h, s, names, strings, ids, copies);
  }

  lemma HeaderIsWords(h: Bytes)
    requires |h| == SECTION_SIZE
    ensures ToLe(Le(h[..8]), 8) + ToLe(Le(h[8..12]), 4) + ToLe(Le(h[12..16]), 4) + ToLe(Le(h[16..20]), 4) + ToLe(Le(h[20..24]), 4)
            + ToLe(Le(h[24..28]), 4) + h[28..32] + h[32..36] + ToLe(Le(h[36..40]), 4) == h
  {
    ToLeLe(h[..8]);
    ToLeLe(h[8..12]);
    ToLeLe(h[12..16]);
    ToLeLe(h[16..20]);
    ToLeLe(h[20..24]);
    ToLeLe(h[24..28]);
    ToLeLe(h[36..40]);
    NineSlices(h);
  }

  lemma NineSlices(h: Bytes)
    requires |h| == SECTION_SIZE
    ensures h[..8] + h[8..12] + h[12..16] + h[16..20] + h[20..24] + h[24..28] + h[28..32] + h[32..36] + h[36..40] == h
  {
    assert h[..8] + h[8..12] == h[..12];
    assert h[..12] + h[12..16] == h[..16];
    assert h[..16] + h[16..20] == h[..20];
    assert h[..20] + h[20..24] == h[..24];
    assert h[..24] + h[24..28] == h[..28];
    assert h[..28] + h[28..32] == h[..32];
    assert h[..32] + h[32..36] == h[..36];
  }

  lemma ZeroWord(bytes: Bytes)
    requires |bytes| == 4 && Le(bytes) == 0
    ensures bytes == NONE
  {
    LeIsZero(bytes);
    assert forall k :: 0 <= k < 4 ==> bytes[k] in bytes;
  }

  lemma HeaderLimits(data: Bytes, at: nat, h: SectionHeader)
    requires HeaderAt(data, at) == Ok(h)
    ensures h.key < TWO_64 && h.start < TWO_32 && h.strings < TWO_32 && h.ids < TWO_32 && h.copies < TWO_32
  {
    Widths();
  }

  function ReservedAt(data: Bytes, at: nat): nat {
    if at + SECTION_SIZE <= |data| then Le(data[at..at + SECTION_SIZE][20..24]) else 0
  }

  function StartAt(data: Bytes, at: nat): nat {
    if at + SECTION_SIZE <= |data| then Le(data[at..at + SECTION_SIZE][8..12]) else 0
  }

  lemma HeaderIsEncoded(data: Bytes, at: nat, h: SectionHeader, s: Section)
    requires HeaderAt(data, at) == Ok(h)
    requires FitsHeader(s, h)
    ensures h.start == StartAt(data, at) && Contains(data, at, LookupWriter.EncodeHeader(s, h.start, ReservedAt(data, at)))
  {
    var bytes := Take(data, at, SECTION_SIZE).value;
    HeaderIsWords(bytes);
    ZeroWord(bytes[28..32]);
    ZeroWord(bytes[32..36]);
  }

  /** The file has s at this header: its header here and its body where that says. */
  ghost predicate SectionAt(data: Bytes, at: nat, s: Section, start: nat, reserved: nat) {
    && Fits(s) && start < TWO_32
    && Contains(data, at, LookupWriter.EncodeHeader(s, start, reserved)) && Contains(data, start, EncodeBody(s))
  }

  /** Not an encrypted section whose key was missing: no key, no rows, or some name that is not zero. */
  predicate Legible(s: Section) {
    s.key == 0 || s.names == [] || exists i :: 0 <= i < |s.names| && s.names[i] != 0
  }

  lemma LegibleIsReadable(s: Section)
    ensures Legible(s) <==> !Unreadable(s)
  {
    if i :| 0 <= i < |s.names| && s.names[i] != 0 {
      assert s.names[i] in s.names;
    }
  }

  ghost predicate EncodedAt(data: Bytes, at: nat, s: Section) {
    exists start, reserved :: SectionAt(data, at, s, start, reserved)
  }

  lemma DecodedIsEncoded(data: Bytes, at: nat, s: Section)
    requires DecodeSection(data, at) == Ok(s)
    ensures !Unreadable(s) && SectionAt(data, at, s, StartAt(data, at), ReservedAt(data, at))
  {
    var h := HeaderAt(data, at).value;
    BodyIsEncoded(data, h, s);
    HeaderLimits(data, at, h);
    HeaderIsEncoded(data, at, h, s);
  }

  /** A header decodes to a section exactly when the file holds that section's encoding there and it is readable. */
  lemma SectionDecodesExactlyWhen(data: Bytes, at: nat, s: Section)
    ensures DecodeSection(data, at) == Ok(s) <==> Legible(s) && EncodedAt(data, at, s)
  {
    LegibleIsReadable(s);
    if DecodeSection(data, at) == Ok(s) {
      DecodedIsEncoded(data, at, s);
    }
    if start, reserved :| SectionAt(data, at, s, start, reserved) {
      SectionReadsBack(data, at, s, start, reserved);
    }
  }

  // ---------- The layout ----------

  /** What precedes the sections, and the field storage that follows their headers. */
  ghost predicate LaidOut(data: Bytes, g: Preamble, sections: nat) {
    && Supported(g) && sections < TWO_32
    && Contains(data, 0, Prologue(g, sections))
    && Contains(data, SECTIONS_AT + SECTION_SIZE * sections, g.field + FIELD_STORAGE)
  }

  lemma FieldsAreWords(f: Bytes, g: Preamble)
    requires |f| == 24
    requires g.first == Le(f[..4]) && g.count == Le(f[4..8]) && g.size == Le(f[8..12])
    requires g.fourth == Le(f[12..16]) && g.table == Le(f[16..20]) && g.layout == Le(f[20..24])
    ensures FieldBytes(g) == f
  {
    ToLeLe(f[..4]);
    ToLeLe(f[4..8]);
    ToLeLe(f[8..12]);
    ToLeLe(f[12..16]);
    ToLeLe(f[16..20]);
    ToLeLe(f[20..24]);
    assert f[..4] + f[4..8] == f[..8];
    assert f[..8] + f[8..12] == f[..12];
    assert f[..12] + f[12..16] == f[..16];
    assert f[..16] + f[16..20] == f[..20];
    assert f[..20] + f[20..24] == f;
  }

  lemma SevenParts(data: Bytes)
    requires |data| >= SECTIONS_AT
    ensures data[..4] + data[4..136] + data[136..160] + data[160..172] + data[172..174] + data[174..200] + data[200..204]
         == data[..204]
  {
    assert data[..4] + data[4..136] == data[..136];
    assert data[..136] + data[136..160] == data[..160];
    assert data[..160] + data[160..172] == data[..172];
    assert data[..172] + data[172..174] == data[..174];
    assert data[..174] + data[174..200] == data[..200];
  }

  lemma PrologueIsThere(data: Bytes, g: Preamble, sections: nat)
    requires |data| >= SECTIONS_AT && data[..4] == WDC5 && sections == Le(data[200..204])
    requires g.head == data[4..136] && FieldBytes(g) == data[136..160] && g.middle == data[160..172]
    requires g.flags == Le(data[172..174]) && g.tail == data[174..200]
    ensures Contains(data, 0, Prologue(g, sections))
  {
    ToLeLe(data[172..174]);
    ToLeLe(data[200..204]);
    SevenParts(data);
  }

  lemma LayoutSays(data: Bytes, sections: nat)
    requires CheckLayout(data) == Ok(sections)
    ensures |data| >= SECTIONS_AT && data[..4] == WDC5 && sections == Le(data[200..204]) && Le(data[172..174]) == 4
    ensures var f := data[136..160];
            Le(f[4..8]) == 1 && Le(f[8..12]) == 8 && Le(f[16..20]) == TACT_LOOKUP && Le(f[20..24]) == LOOKUP_LAYOUT
    ensures Take(data, SECTIONS_AT + sections * SECTION_SIZE + 4, STORAGE_SIZE) == Ok(FIELD_STORAGE)
  {
  }

  lemma StorageIsThere(data: Bytes, at: nat, field: Bytes)
    requires at + 4 <= |data| && field == data[at..at + 4]
    requires Take(data, at + 4, STORAGE_SIZE) == Ok(FIELD_STORAGE)
    ensures Contains(data, at, field + FIELD_STORAGE)
  {
    ContainsParts(data, at, field, FIELD_STORAGE);
  }

  lemma LaidOutFrom(data: Bytes, sections: nat, f: Bytes, at: nat, g: Preamble)
    requires |data| >= SECTIONS_AT && data[..4] == WDC5 && f == data[136..160] && at + 4 <= |data|
    requires sections == Le(data[200..204]) && at == SECTIONS_AT + SECTION_SIZE * sections
    requires g == PreambleOf(data, f, at) && Supported(g)
    requires Take(data, at + 4, STORAGE_SIZE) == Ok(FIELD_STORAGE)
    ensures LaidOut(data, g, sections)
  {
    FieldsAreWords(f, g);
    PrologueIsThere(data, g, sections);
    StorageIsThere(data, at, g.field);
    Widths();
  }

  lemma LayoutIsLaidOut(data: Bytes, sections: nat) returns (g: Preamble)
    requires CheckLayout(data) == Ok(sections)
    ensures LaidOut(data, g, sections)
  {
    LayoutSays(data, sections);
    var at := SECTIONS_AT + SECTION_SIZE * sections;
    g := PreambleOf(data, data[136..160], at);
    LaidOutFrom(data, sections, data[136..160], at, g);
  }

  function PreambleOf(data: Bytes, f: Bytes, at: nat): Preamble
    requires |data| >= SECTIONS_AT && |f| == 24 && at + 4 <= |data|
  {
    Preamble(data[4..136], Le(f[..4]), Le(f[4..8]), Le(f[8..12]), Le(f[12..16]), Le(f[16..20]), Le(f[20..24]),
             data[160..172], Le(data[172..174]), data[174..200], data[at..at + 4])
  }

  lemma LaidOutIsAccepted(data: Bytes, g: Preamble, sections: nat, prologue: Bytes, storage: Bytes)
    requires LaidOut(data, g, sections) && prologue == Prologue(g, sections) && storage == g.field + FIELD_STORAGE
    ensures CheckLayout(data) == Ok(sections)
  {
    LayoutAccepted(data, g, sections, prologue, SECTIONS_AT + SECTION_SIZE * sections, storage);
  }

  /** The layout test accepts exactly the supported preambles, with their number of sections. */
  lemma LayoutAcceptedExactlyWhen(data: Bytes, sections: nat)
    ensures CheckLayout(data) == Ok(sections) <==> exists g :: LaidOut(data, g, sections)
  {
    if CheckLayout(data) == Ok(sections) {
      var _ := LayoutIsLaidOut(data, sections);
    }
    if g :| LaidOut(data, g, sections) {
      LaidOutIsAccepted(data, g, sections, Prologue(g, sections), g.field + FIELD_STORAGE);
    }
  }

  // ---------- The whole file ----------

  /** data is laid out for these sections and holds each one, none unreadable. */
  ghost predicate Holds(data: Bytes, sections: Sections) {
    && (exists g :: LaidOut(data, g, |sections|))
    && forall i :: 0 <= i < |sections| ==> HoldsSection(data, i, sections[i])
  }

  ghost predicate HoldsSection(data: Bytes, i: nat, s: Section) {
    Legible(s) && EncodedAt(data, SECTIONS_AT + i * SECTION_SIZE, s)
  }

  lemma {:induction false} AllApplied(rows: map<nat, string>, decoded: seq<Decoding>)
    requires ApplyAll(rows, decoded).Ok?
    ensures forall i :: 0 <= i < |decoded| ==> decoded[i].Ok?
    decreases |decoded|
  {
    if decoded != [] {
      AllApplied(Applied(rows, decoded[0]).value, decoded[1..]);
      assert forall i :: 1 <= i < |decoded| ==> decoded[i] == decoded[1..][i - 1];
    }
  }

  lemma {:induction false} ReadableMeans(rows: map<nat, string>, decoded: seq<Decoding>, sections: Sections)
    requires |decoded| == |sections|
    requires forall i :: 0 <= i < |sections| ==> decoded[i] == Ok(sections[i]) && !Unreadable(sections[i])
    ensures ApplyAll(rows, decoded) == Meaning(rows, sections)
    decreases |sections|
  {
    if sections != [] {
      var updated := ApplySection(rows, sections[0]);
      assert Applied(rows, decoded[0]) == updated;
      if updated.Ok? {
        ReadableMeans(updated.value, decoded[1..], sections[1..]);
      }
    }
  }

  lemma HeldIsRead(data: Bytes, sections: Sections)
    requires Holds(data, sections)
    ensures ReadLookup(data) == Meaning(map[], sections)
  {
    LayoutAcceptedExactlyWhen(data, |sections|);
    var decoded := Decodings(data, |sections|);
    forall i | 0 <= i < |sections|
      ensures decoded[i] == Ok(sections[i]) && !Unreadable(sections[i])
    {
      assert HoldsSection(data, i, sections[i]);
      LegibleIsReadable(sections[i]);
      SectionDecodesExactlyWhen(data, SECTIONS_AT + i * SECTION_SIZE, sections[i]);
    }
    ReadableMeans(map[], decoded, sections);
  }

  lemma DecodedAreHeld(data: Bytes, decoded: seq<Decoding>, sections: Sections)
    requires |decoded| == |sections| && decoded == Decodings(data, |sections|)
    requires forall i :: 0 <= i < |sections| ==> decoded[i] == Ok(sections[i])
    ensures forall i :: 0 <= i < |sections| ==> HoldsSection(data, i, sections[i])
  {
    forall i | 0 <= i < |sections|
      ensures HoldsSection(data, i, sections[i])
    {
      SectionDecodesExactlyWhen(data, SECTIONS_AT + i * SECTION_SIZE, sections[i]);
    }
  }

  lemma SectionsOf(decoded: seq<Decoding>) returns (sections: Sections)
    requires forall i :: 0 <= i < |decoded| ==> decoded[i].Ok?
    ensures |sections| == |decoded| && forall i :: 0 <= i < |sections| ==> decoded[i] == Ok(sections[i])
  {
    sections := seq(|decoded|, i requires 0 <= i < |decoded| => decoded[i].value);
  }

  lemma ReadIsHeld(data: Bytes) returns (sections: Sections)
    requires ReadLookup(data).Ok?
    ensures Holds(data, sections) && Meaning(map[], sections) == ReadLookup(data)
  {
    var n := CheckLayout(data).value;
    AllApplied(map[], Decodings(data, n));
    sections := SectionsOf(Decodings(data, n));
    HoldsDecoded(data, n, Decodings(data, n), sections);
    HeldIsRead(data, sections);
  }

  lemma HoldsDecoded(data: Bytes, n: nat, decoded: seq<Decoding>, sections: Sections)
    requires CheckLayout(data) == Ok(n) && decoded == Decodings(data, n) && |sections| == n
    requires forall i :: 0 <= i < n ==> decoded[i] == Ok(sections[i])
    ensures Holds(data, sections)
  {
    LayoutAcceptedExactlyWhen(data, n);
    DecodedAreHeld(data, decoded, sections);
  }

  /**
    read_lookup yields rows exactly for the files that are laid out for some sections, hold each
    of them, none unreadable, and whose left-to-right update yields those rows.
   */
  lemma ReadsExactlyWhenHeld(data: Bytes, rows: map<nat, string>)
    ensures ReadLookup(data) == Ok(rows) <==>
            exists sections: Sections :: Holds(data, sections) && Meaning(map[], sections) == Ok(rows)
  {
    if ReadLookup(data) == Ok(rows) {
      var _ := ReadIsHeld(data);
    }
    if sections: Sections :| Holds(data, sections) && Meaning(map[], sections) == Ok(rows) {
      HeldIsRead(data, sections);
    }
  }

  // ---------- What a section's update means ----------

  ghost predicate LastId(ids: seq<nat>, row: nat, i: int) {
    0 <= i < |ids| && ids[i] == row && forall j :: i < j < |ids| ==> ids[j] != row
  }

  /** A row has the text of its last id's name, or what it had. */
  lemma {:induction false} RowIsLastId(rows: map<nat, string>, ids: seq<nat>, names: seq<nat>, row: nat, text: string)
    requires |ids| == |names|
    ensures (row in ApplyRows(rows, ids, names) && ApplyRows(rows, ids, names)[row] == text) <==>
            || (exists i :: LastId(ids, row, i) && text == HexNumber(names[i], 16))
            || (row !in ids && row in rows && rows[row] == text)
  {
    if ids != [] {
      var n := |ids| - 1;
      RowIsLastId(rows, ids[..n], names[..n], row, text);
      assert ids == ids[..n] + [ids[n]];
      if ids[n] == row {
        assert LastId(ids, row, n) && forall i :: LastId(ids, row, i) ==> i == n;
      } else {
        assert forall i :: LastId(ids, row, i) <==> LastId(ids[..n], row, i);
      }
    }
  }

  ghost predicate LastCopy(copies: seq<(nat, nat)>, row: nat, c: int) {
    0 <= c < |copies| && copies[c].0 == row && forall j :: c < j < |copies| ==> copies[j].0 != row
  }

  /** The source of copy c is there when its turn comes, with this text. */
  ghost predicate SourceHas(rows: map<nat, string>, copies: seq<(nat, nat)>, c: int, text: string)
    requires 0 <= c < |copies|
  {
    var before := ApplyCopies(rows, copies[..c]);
    before.Ok? && copies[c].1 in before.value && before.value[copies[c].1] == text
  }

  /** A row has what the source of the last copy to it had just then, or what it had. */
  lemma {:induction false} RowIsLastCopy(rows: map<nat, string>, copies: seq<(nat, nat)>, row: nat, text: string)
    requires ApplyCopies(rows, copies).Ok?
    ensures (row in ApplyCopies(rows, copies).value && ApplyCopies(rows, copies).value[row] == text) <==>
            || (exists c :: LastCopy(copies, row, c) && SourceHas(rows, copies, c, text))
            || ((forall c :: 0 <= c < |copies| ==> copies[c].0 != row) && row in rows && rows[row] == text)
  {
    if copies != [] {
      var n := |copies| - 1;
      var front := copies[..n];
      RowIsLastCopy(rows, front, row, text);
      if copies[n].0 == row {
        assert LastCopy(copies, row, n) && forall c :: LastCopy(copies, row, c) ==> c == n;
      } else {
        forall c | 0 <= c < n
          ensures LastCopy(copies, row, c) <==> LastCopy(front, row, c)
          ensures SourceHas(rows, copies, c, text) <==> SourceHas(rows, front, c, text)
        {
          assert front[..c] == copies[..c];
        }
      }
    }
  }

  /** The copies fail exactly when the source of some copy is missing when its turn comes. */
  lemma {:induction false} CopiesFailExactlyWhen(rows: map<nat, string>, copies: seq<(nat, nat)>)
    ensures ApplyCopies(rows, copies).Err? <==>
            exists c :: 0 <= c < |copies| && ApplyCopies(rows, copies[..c]).Ok? && copies[c].1 !in ApplyCopies(rows, copies[..c]).value
  {
    if copies != [] {
      var n := |copies| - 1;
      var front := copies[..n];
      CopiesFailExactlyWhen(rows, front);
      assert forall c :: 0 <= c < n ==> front[..c] == copies[..c];
    }
  }
}
