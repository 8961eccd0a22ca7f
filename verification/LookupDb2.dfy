/** read_lookup: the base TactKeyLookup table, an uncompressed WDC5 file with id lists and copy tables. */
module LookupDb2 {
  import opened Wrappers
  import opened LittleEndian
  import opened HexText
  import opened HotfixRecords

  const WDC5: Bytes := [0x57, 0x44, 0x43, 0x35]
  const LOOKUP_LAYOUT: int := 0x4983962C
  const SECTIONS_AT := 204
  const SECTION_SIZE := 40
  const STORAGE_SIZE := 24

  /** One 64-bit field at bit offset 0, stored plainly: the shorts 0 and 64, then five zero words. */
  const FIELD_STORAGE: Bytes := [0, 0, 64, 0, 0, 0, 0, 0, 0, 0, 0, 0, 0, 0, 0, 0, 0, 0, 0, 0, 0, 0, 0, 0]

  function U16(data: Bytes, offset: nat): Result<nat, Error> {
    match Take(data, offset, 2) case Err(error) => Err(error) case Ok(b) => Ok(Le(b))
  }

  function U32(data: Bytes, offset: nat): Result<nat, Error> {
    match Take(data, offset, 4) case Err(error) => Err(error) case Ok(b) => Ok(Le(b))
  }

  function Words4(bytes: Bytes, count: nat): (words: seq<nat>)
    requires count * 4 <= |bytes|
    ensures |words| == count
    ensures forall i :: 0 <= i < count ==> words[i] == Le(bytes[i * 4..i * 4 + 4])
  {
    seq(count, i requires 0 <= i < count => Le(bytes[i * 4..i * 4 + 4]))
  }

  function Words8(bytes: Bytes, count: nat): (words: seq<nat>)
    requires count * 8 <= |bytes|
    ensures |words| == count
    ensures forall i :: 0 <= i < count ==> words[i] == Le(bytes[i * 8..i * 8 + 8])
  {
    seq(count, i requires 0 <= i < count => Le(bytes[i * 8..i * 8 + 8]))
  }

  /** Two words to an entry: the new row, then its source. */
  function Pairs(bytes: Bytes, count: nat): (pairs: seq<(nat, nat)>)
    requires count * 8 <= |bytes|
    ensures |pairs| == count
    ensures forall i :: 0 <= i < count ==>
              pairs[i] == (Le(bytes[i * 8..i * 8 + 4]), Le(bytes[i * 8 + 4..i * 8 + 8]))
  {
    seq(count, i requires 0 <= i < count => (Le(bytes[i * 8..i * 8 + 4]), Le(bytes[i * 8 + 4..i * 8 + 8])))
  }

  // ---------- Sections ----------

  /** A section's table: row ids with their names, then copies made in order. */
  datatype Section = Section(key: nat, strings: Bytes, ids: seq<nat>, names: seq<nat>, copies: seq<(nat, nat)>)

  function ApplyRows(rows: map<nat, string>, ids: seq<nat>, names: seq<nat>): map<nat, string>
    requires |ids| == |names|
  {
    if ids == [] then rows
    else
      var n := |ids| - 1;
      ApplyRows(rows, ids[..n], names[..n])[ids[n] := HexNumber(names[n], 16)]
  }

  /** Each copy takes what its source holds at that moment. */
  function ApplyCopies(rows: map<nat, string>, copies: seq<(nat, nat)>): Result<map<nat, string>, Error> {
    if copies == [] then Ok(rows)
    else
      var n := |copies| - 1;
      match ApplyCopies(rows, copies[..n])
      case Err(error) => Err(error)
      case Ok(m) => if copies[n].1 in m then Ok(m[copies[n].0 := m[copies[n].1]]) else Err(MissingCopySource)
  }

  /** An encrypted section whose key was missing reads as zeros. */
  predicate Unreadable(s: Section) {
    s.key != 0 && s.names != [] && forall n <- s.names :: n == 0
  }

  function ApplySection(rows: map<nat, string>, s: Section): Result<map<nat, string>, Error>
    requires |s.ids| == |s.names|
  {
    if Unreadable(s) then Err(UnreadableSection) else ApplyCopies(ApplyRows(rows, s.ids, s.names), s.copies)
  }

  type Sections = ss: seq<Section> | forall s <- ss :: |s.ids| == |s.names|

  /** The left-to-right update by every section. */
  function Meaning(rows: map<nat, string>, sections: Sections): Result<map<nat, string>, Error>
    decreases |sections|
  {
    if sections == [] then Ok(rows)
    else match ApplySection(rows, sections[0])
         case Err(error) => Err(error)
         case Ok(m) => Meaning(m, sections[1..])
  }

  // ---------- The reader ----------

  predicate Zeros(bytes: Bytes) {
    forall b <- bytes :: b == 0
  }

  /** Header fields of a section, in file order after the key. */
  datatype SectionHeader = SectionHeader(key: nat, start: nat, count: nat, strings: nat, ids: nat,
                                         relations: nat, sparse: nat, copies: nat)

  function HeaderAt(data: Bytes, at: nat): Result<SectionHeader, Error> {
    match Take(data, at, SECTION_SIZE)
    case Err(error) => Err(error)
    case Ok(h) => Ok(SectionHeader(Le(h[..8]), Le(h[8..12]), Le(h[12..16]), Le(h[16..20]), Le(h[24..28]),
                                   Le(h[28..32]), Le(h[32..36]), Le(h[36..40])))
  }

  /** A section as the file spells it out; the checks come in the order the reader makes them. */
  function DecodeSection(data: Bytes, at: nat): (r: Result<Section, Error>)
    ensures r.Ok? ==> |r.value.ids| == |r.value.names| && !Unreadable(r.value)
  {
    match HeaderAt(data, at)
    case Err(error) => Err(error)
    case Ok(h) => DecodeBody(data, h)
  }

  function DecodeBody(data: Bytes, h: SectionHeader): (r: Result<Section, Error>)
    ensures r.Ok? ==> |r.value.ids| == |r.value.names| && !Unreadable(r.value)
  {
    if h.relations != 0 || h.sparse != 0 || h.ids != h.count * 4 then Err(UnsupportedLayout)
    else match Take(data, h.start, h.count * 8)
         case Err(error) => Err(error)
         case Ok(payload) =>
           if h.key != 0 && h.count != 0 && Zeros(payload) then Err(UnreadableSection)
           else
             WordsOfZeros(payload, h.count);
             DecodeStrings(data, h, payload)
  }

  /** The strings follow the records; they are taken, never looked at. */
  function DecodeStrings(data: Bytes, h: SectionHeader, payload: Bytes): (r: Result<Section, Error>)
    requires |payload| == h.count * 8 && h.start + h.count * 8 <= |data|
    ensures r.Ok? ==>
              r.value.key == h.key && |r.value.ids| == |r.value.names| && r.value.names == Words8(payload, h.count)
  {
    match Take(data, h.start + h.count * 8, h.strings)
    case Err(error) => Err(error)
    case Ok(strings) =>
      DecodeTable(data, h.key, strings, payload, h.start + h.count * 8 + h.strings, h.count, h.copies)
  }

  /** The id list and the copy table that follow a section's strings. */
  function DecodeTable(data: Bytes, key: nat, strings: Bytes, payload: Bytes, idStart: nat, count: nat, copies: nat)
    : (r: Result<Section, Error>)
    requires |payload| == count * 8 && idStart <= |data|
    ensures r.Ok? ==>
              r.value.key == key && |r.value.ids| == |r.value.names| && r.value.names == Words8(payload, count)
  {
    match Take(data, idStart, count * 4)
    case Err(error) => Err(error)
    case Ok(ids) =>
      match Take(data, idStart + count * 4, copies * 8)
      case Err(error) => Err(error)
      case Ok(bytes) => Ok(Section(key, strings, Words4(ids, count), Words8(payload, count), Pairs(bytes, copies)))
  }

  /** Only a payload of zeros decodes to zeros alone. */
  lemma WordsOfZeros(payload: Bytes, count: nat)
    requires |payload| == count * 8
    ensures Zeros(payload) <==> forall n <- Words8(payload, count) :: n == 0
  {
    var words := Words8(payload, count);
    forall i | 0 <= i < count
      ensures words[i] == 0 <==> Zeros(payload[i * 8..i * 8 + 8])
    {
      LeIsZero(payload[i * 8..i * 8 + 8]);
    }
    if forall n <- words :: n == 0 {
      forall k | 0 <= k < |payload|
        ensures payload[k] == 0
      {
        var i := k / 8;
        var slice := payload[i * 8..i * 8 + 8];
        assert words[i] in words;
        assert slice[k - i * 8] in slice;
      }
    }
    if Zeros(payload) {
      forall i | 0 <= i < count
        ensures words[i] == 0
      {
        var slice := payload[i * 8..i * 8 + 8];
        forall j | 0 <= j < 8
          ensures slice[j] == 0
        {
          assert payload[i * 8 + j] in payload;
        }
      }
    }
  }

  lemma {:induction false} LeIsZero(bytes: Bytes)
    ensures Le(bytes) == 0 <==> Zeros(bytes)
  {
    if bytes != [] {
      LeIsZero(bytes[1..]);
      assert bytes == [bytes[0]] + bytes[1..];
      assert bytes[0] in bytes;
      assert forall b :: b in bytes <==> b == bytes[0] || b in bytes[1..];
    }
  }

  type Decoding = d: Result<Section, Error> | d.Ok? ==> |d.value.ids| == |d.value.names| witness Err(Truncated)

  /** A decoded section's id rows, then its copy rows, or the reason it does not decode. */
  function Applied(rows: map<nat, string>, decoded: Decoding): Result<map<nat, string>, Error> {
    match decoded
    case Err(error) => Err(error)
    case Ok(s) => ApplyCopies(ApplyRows(rows, s.ids, s.names), s.copies)
  }

  function Decodings(data: Bytes, sections: nat): (decoded: seq<Decoding>)
    ensures |decoded| == sections
    ensures forall k :: 0 <= k < sections ==> decoded[k] == DecodeSection(data, SECTIONS_AT + k * SECTION_SIZE)
  {
    seq(sections, k requires 0 <= k < sections => DecodeSection(data, SECTIONS_AT + k * SECTION_SIZE))
  }

  /** Section after section, up to the first that fails. */
  function ApplyAll(rows: map<nat, string>, decoded: seq<Decoding>): Result<map<nat, string>, Error>
    decreases |decoded|
  {
    if decoded == [] then Ok(rows)
    else match Applied(rows, decoded[0])
         case Err(error) => Err(error)
         case Ok(m) => ApplyAll(m, decoded[1..])
  }

  /** Everything read_lookup insists on before it looks at a section; the result is the section count. */
  function CheckLayout(data: Bytes): Result<nat, Error> {
    match Take(data, 0, 4)
    case Err(error) => Err(error)
    case Ok(magic) =>
      if magic != WDC5 then Err(BadHeader)
      else match Take(data, 136, 24)
           case Err(error) => Err(error)
           case Ok(f) =>
             match U16(data, 172)
             case Err(error) => Err(error)
             case Ok(flags) =>
               match U32(data, 200)
               case Err(error) => Err(error)
               case Ok(sections) =>
                 if !(Le(f[4..8]) == 1 && Le(f[8..12]) == 8 && Le(f[16..20]) == TACT_LOOKUP
                      && Le(f[20..24]) == LOOKUP_LAYOUT && flags == 4) then Err(UnsupportedLayout)
                 else match Take(data, SECTIONS_AT + sections * SECTION_SIZE + 4, STORAGE_SIZE)
                      case Err(error) => Err(error)
                      case Ok(st) =>
                        if st != FIELD_STORAGE then Err(UnsupportedLayout) else Ok(sections)
  }

  function ReadLookup(data: Bytes): Result<map<nat, string>, Error> {
    match CheckLayout(data)
    case Err(error) => Err(error)
    case Ok(sections) => ApplyAll(map[], Decodings(data, sections))
  }

  // ---------- The loops ----------

  method ReadSectionInto(rows: map<nat, string>, data: Bytes, at: nat) returns (r: Result<map<nat, string>, Error>)
    ensures r == Applied(rows, DecodeSection(data, at))
  {
    var header := HeaderAt(data, at);
    if header.Err? { return Err(header.error); }
    r := ReadBody(rows, data, header.value, DecodeSection(data, at));
  }

  method ReadBody(rows: map<nat, string>, data: Bytes, h: SectionHeader, ghost decoded: Decoding)
    returns (r: Result<map<nat, string>, Error>)
    requires decoded == DecodeBody(data, h)
    ensures r == Applied(rows, decoded)
  {
    if h.relations != 0 || h.sparse != 0 || h.ids != h.count * 4 { return Err(UnsupportedLayout); }
    var payload := Take(data, h.start, h.count * 8);
    if payload.Err? { return Err(payload.error); }
    if h.key != 0 && h.count != 0 && Zeros(payload.value) { return Err(UnreadableSection); }
    r := ReadStringsInto(rows, data, h, payload.value, decoded);
  }

  method ReadStringsInto(rows: map<nat, string>, data: Bytes, h: SectionHeader, payload: Bytes, ghost decoded: Decoding)
    returns (r: Result<map<nat, string>, Error>)
    requires |payload| == h.count * 8 && h.start + h.count * 8 <= |data|
    requires decoded == DecodeStrings(data, h, payload)
    ensures r == Applied(rows, decoded)
  {
    var strings := Take(data, h.start + h.count * 8, h.strings);
    if strings.Err? { return Err(strings.error); }
    r := ReadTableInto(rows, data, h.key, strings.value, payload,
                       h.start + h.count * 8 + h.strings, h.count, h.copies, decoded);
  }

  method ReadTableInto(rows: map<nat, string>, data: Bytes, ghost key: nat, ghost strings: Bytes, payload: Bytes,
                       idStart: nat, count: nat, copies: nat, ghost decoded: Decoding)
    returns (r: Result<map<nat, string>, Error>)
    requires |payload| == count * 8 && idStart <= |data|
    requires decoded == DecodeTable(data, key, strings, payload, idStart, count, copies)
    ensures r == Applied(rows, decoded)
  {
    var updated := ReadRows(rows, data, payload, idStart, count);
    if updated.Err? { return Err(updated.error); }
    var bytes := Take(data, idStart + count * 4, copies * 8);
    if bytes.Err? { return Err(bytes.error); }
    r := MakeCopies(updated.value, bytes.value, copies);
  }

  method ReadRows(rows: map<nat, string>, data: Bytes, payload: Bytes, idStart: nat, count: nat)
    returns (r: Result<map<nat, string>, Error>)
    requires |payload| == count * 8 && idStart <= |data|
    ensures Take(data, idStart, count * 4).Err? ==> r == Err(Truncated)
    ensures Take(data, idStart, count * 4).Ok? ==>
              r == Ok(ApplyRows(rows, Words4(Take(data, idStart, count * 4).value, count), Words8(payload, count)))
  {
    var updated := rows;
    for index := 0 to count
      invariant idStart + index * 4 <= |data|
      invariant updated == RowsAt(rows, data, payload, idStart, index)
    {
      var row := U32(data, idStart + index * 4);
      if row.Err? { return Err(row.error); }
      var name := HexNumber(Le(payload[index * 8..index * 8 + 8]), 16);
      updated := updated[row.value := name];
    }
    RowsAreApplied(rows, data, payload, idStart, count);
    return Ok(updated);
  }

  /** The rows after the first index entries, each read where it lies. */
  function RowsAt(rows: map<nat, string>, data: Bytes, payload: Bytes, idStart: nat, index: nat): map<nat, string>
    requires idStart + index * 4 <= |data| && index * 8 <= |payload|
  {
    if index == 0 then rows
    else
      var i := index - 1;
      RowsAt(rows, data, payload, idStart, i)
        [Le(data[idStart + i * 4..idStart + i * 4 + 4]) := HexNumber(Le(payload[i * 8..i * 8 + 8]), 16)]
  }

  lemma ApplyRowsStep(rows: map<nat, string>, ids: seq<nat>, names: seq<nat>, i: nat)
    requires i < |ids| == |names|
    ensures ApplyRows(rows, ids[..i + 1], names[..i + 1])
         == ApplyRows(rows, ids[..i], names[..i])[ids[i] := HexNumber(names[i], 16)]
  {
    assert ids[..i + 1][..i] == ids[..i] && names[..i + 1][..i] == names[..i];
  }

  lemma RowsAtStep(rows: map<nat, string>, data: Bytes, payload: Bytes, idStart: nat, i: nat, id: nat, name: nat)
    requires idStart + i * 4 + 4 <= |data| && i * 8 + 8 <= |payload|
    requires id == Le(data[idStart + i * 4..idStart + i * 4 + 4]) && name == Le(payload[i * 8..i * 8 + 8])
    ensures RowsAt(rows, data, payload, idStart, i + 1)
         == RowsAt(rows, data, payload, idStart, i)[id := HexNumber(name, 16)]
  {
  }

  lemma {:induction false} RowsAtIsApply(rows: map<nat, string>, data: Bytes, payload: Bytes, idStart: nat,
                                         ids: seq<nat>, names: seq<nat>, index: nat)
    requires index <= |ids| == |names| && idStart + |ids| * 4 <= |data| && |ids| * 8 <= |payload|
    requires forall i :: 0 <= i < |ids| ==> ids[i] == Le(data[idStart + i * 4..idStart + i * 4 + 4])
    requires forall i :: 0 <= i < |ids| ==> names[i] == Le(payload[i * 8..i * 8 + 8])
    ensures RowsAt(rows, data, payload, idStart, index) == ApplyRows(rows, ids[..index], names[..index])
  {
    if index > 0 {
      var i := index - 1;
      RowsAtIsApply(rows, data, payload, idStart, ids, names, i);
      ApplyRowsStep(rows, ids, names, i);
      RowsAtStep(rows, data, payload, idStart, i, ids[i], names[i]);
    }
  }

  lemma RowsAreApplied(rows: map<nat, string>, data: Bytes, payload: Bytes, idStart: nat, count: nat)
    requires |payload| == count * 8 && idStart + count * 4 <= |data|
    ensures RowsAt(rows, data, payload, idStart, count)
         == ApplyRows(rows, Words4(data[idStart..idStart + count * 4], count), Words8(payload, count))
  {
    IdsInPlace(data, idStart, count);
    var ids, names := Words4(data[idStart..idStart + count * 4], count), Words8(payload, count);
    RowsAtIsApply(rows, data, payload, idStart, ids, names, count);
    assert ids[..count] == ids && names[..count] == names;
  }

  lemma IdsInPlace(data: Bytes, idStart: nat, count: nat)
    requires idStart + count * 4 <= |data|
    ensures var ids := Words4(data[idStart..idStart + count * 4], count);
            forall i :: 0 <= i < count ==> ids[i] == Le(data[idStart + i * 4..idStart + i * 4 + 4])
  {
    forall i | 0 <= i < count
      ensures data[idStart..idStart + count * 4][i * 4..i * 4 + 4] == data[idStart + i * 4..idStart + i * 4 + 4]
    {
      SubSlice(data, idStart, idStart + count * 4, i * 4, i * 4 + 4);
    }
  }

  method MakeCopies(rows: map<nat, string>, bytes: Bytes, copies: nat) returns (r: Result<map<nat, string>, Error>)
    requires |bytes| == copies * 8
    ensures r == ApplyCopies(rows, Pairs(bytes, copies))
  {
    var updated := rows;
    ghost var all := Pairs(bytes, copies);
    for c := 0 to copies
      invariant Ok(updated) == ApplyCopies(rows, all[..c])
    {
      var target, source := Le(bytes[c * 8..c * 8 + 4]), Le(bytes[c * 8 + 4..c * 8 + 8]);
      assert all[..c + 1][..c] == all[..c];
      if source !in updated {
        ApplyCopiesFails(rows, all, c + 1);
        return Err(MissingCopySource);
      }
      updated := updated[target := updated[source]];
    }
    assert all[..copies] == all;
    return Ok(updated);
  }

  /** Once a copy has failed, the copies after it do not matter. */
  lemma {:induction false} ApplyCopiesFails(rows: map<nat, string>, copies: seq<(nat, nat)>, n: nat)
    requires n <= |copies| && ApplyCopies(rows, copies[..n]) == Err(MissingCopySource)
    ensures ApplyCopies(rows, copies) == Err(MissingCopySource)
    decreases |copies| - n
  {
    if n < |copies| {
      assert copies[..n + 1][..n] == copies[..n];
      ApplyCopiesFails(rows, copies, n + 1);
    } else {
      assert copies[..n] == copies;
    }
  }

  method ReadLookupFile(data: Bytes) returns (r: Result<map<nat, string>, Error>)
    ensures r == ReadLookup(data)
  {
    var layout := CheckLayout(data);
    if layout.Err? { return Err(layout.error); }
    r := ReadSections(data, layout.value);
  }

  method ReadSections(data: Bytes, sections: nat) returns (r: Result<map<nat, string>, Error>)
    ensures r == ApplyAll(map[], Decodings(data, sections))
  {
    var rows := map[];
    ghost var decoded := Decodings(data, sections);
    ghost var all := ApplyAll(rows, decoded);
    assert decoded[0..] == decoded;
    for section := 0 to sections
      invariant all == ApplyAll(rows, decoded[section..])
    {
      var updated := ReadNthSection(rows, data, section, decoded);
      assert decoded[section..][1..] == decoded[section + 1..];
      if updated.Err? { return Err(updated.error); }
      rows := updated.value;
    }
    return Ok(rows);
  }

  method ReadNthSection(rows: map<nat, string>, data: Bytes, section: nat, ghost decoded: seq<Decoding>)
    returns (r: Result<map<nat, string>, Error>)
    requires section < |decoded| && decoded == Decodings(data, |decoded|)
    ensures r == Applied(rows, decoded[section])
  {
    r := ReadSectionInto(rows, data, SECTIONS_AT + section * SECTION_SIZE);
  }
}
