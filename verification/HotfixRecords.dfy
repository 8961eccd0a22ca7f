/** The XFTH hotfix cache: a 44-byte header, then records of 32 bytes plus payload to the end. */
module HotfixRecords {
  import opened Wrappers
  import opened LittleEndian

  const TACT_KEY: int := 0xDF2F53CF
  const TACT_LOOKUP: int := 0xAFC190D1
  const MAGIC: Bytes := [0x58, 0x46, 0x54, 0x48]
  const HEADER_SIZE := 44
  const RECORD_SIZE := 32

  /** Every field of a record on disk, the ignored ones included. */
  datatype RawFields = RawFields(region: nat, push: int, unique: nat, table: nat, row: nat,
                                 status: Byte, padding: Bytes, payload: Bytes)

  type Raw = r: RawFields |
      && r.region < TWO_32 && r.unique < TWO_32 && r.table < TWO_32 && r.row < TWO_32
      && -TWO_31 <= r.push < TWO_31
      && |r.padding| == 3 && |r.payload| < TWO_32
    witness RawFields(0, 0, 0, 0, 0, 0, [0, 0, 0], [])

  /** What the importer keeps of a record. */
  datatype Record = Record(push: int, table: nat, row: nat, status: Byte, payload: Bytes)

  // ---------- The writer ----------

  function EncodeHeader(r: Raw): (h: Bytes)
    ensures |h| == RECORD_SIZE
  {
    MAGIC + ToLe(r.region, 4) + ToLe(Unsigned(r.push), 4) + ToLe(r.unique, 4) + ToLe(r.table, 4)
    + ToLe(r.row, 4) + ToLe(|r.payload|, 4) + [r.status] + r.padding
  }

  function EncodeRaw(r: Raw): Bytes {
    EncodeHeader(r) + r.payload
  }

  function EncodeAll(raws: seq<Raw>): Bytes {
    if raws == [] then [] else EncodeRaw(raws[0]) + EncodeAll(raws[1..])
  }

  /** rest is the part of the header nobody looks at. */
  function EncodeCache(rest: Bytes, raws: seq<Raw>): Bytes {
    MAGIC + ToLe(9, 4) + rest + EncodeAll(raws)
  }

  // ---------- What the parser computes ----------

  function DecodeOne(s: Bytes): (r: Result<Raw, Error>)
    ensures r.Ok? ==> RECORD_SIZE + |r.value.payload| <= |s|
  {
    if |s| < 4 then Err(Truncated)
    else if s[..4] != MAGIC then Err(BadSignature)
    else if |s| < RECORD_SIZE then Err(Truncated)
    else
      Widths();
      var size := Le(s[24..28]);
      if |s| < RECORD_SIZE + size then Err(Truncated)
      else Ok(RawFields(Le(s[4..8]), Signed(Le(s[8..12])), Le(s[12..16]), Le(s[16..20]), Le(s[20..24]),
                  s[28], s[29..32], s[32..32 + size]))
  }

  function DecodeAll(s: Bytes): Result<seq<Raw>, Error>
    decreases |s|
  {
    if s == [] then Ok([])
    else match DecodeOne(s)
         case Err(error) => Err(error)
         case Ok(r) =>
           match DecodeAll(s[RECORD_SIZE + |r.payload|..])
           case Err(error) => Err(error)
           case Ok(rest) => Ok([r] + rest)
  }

  function DecodeCache(data: Bytes): Result<seq<Raw>, Error> {
    if |data| < 4 then Err(Truncated)
    else if data[..4] != MAGIC then Err(BadHeader)
    else if |data| < 8 then Err(Truncated)
    else if Le(data[4..8]) != 9 then Err(BadHeader)
    else if |data| < HEADER_SIZE then Err(Truncated)
    else DecodeAll(data[HEADER_SIZE..])
  }

  predicate Wanted(r: Raw) {
    r.table == TACT_KEY || r.table == TACT_LOOKUP
  }

  function KeptOne(r: Raw): seq<Record> {
    if Wanted(r) then [Record(r.push, r.table, r.row, r.status, r.payload)] else []
  }

  function Kept(raws: seq<Raw>): seq<Record> {
    if raws == [] then [] else KeptOne(raws[0]) + Kept(raws[1..])
  }

  lemma {:induction false} KeptAppend(raws: seq<Raw>, r: Raw)
    ensures Kept(raws + [r]) == Kept(raws) + KeptOne(r)
  {
    var all := raws + [r];
    if raws == [] {
      assert all == [r] && [r][1..] == [];
    } else {
      KeptAppend(raws[1..], r);
      assert all[0] == raws[0] && all[1..] == raws[1..] + [r];
      assert KeptOne(raws[0]) + (Kept(raws[1..]) + KeptOne(r)) == Kept(raws) + KeptOne(r);
    }
  }

  // ---------- Reader and writer are inverse ----------

  lemma HeaderFields(r: Raw)
    ensures var h := EncodeHeader(r);
            && h[..4] == MAGIC
            && h[4..8] == ToLe(r.region, 4) && h[8..12] == ToLe(Unsigned(r.push), 4)
            && h[12..16] == ToLe(r.unique, 4) && h[16..20] == ToLe(r.table, 4)
            && h[20..24] == ToLe(r.row, 4) && h[24..28] == ToLe(|r.payload|, 4)
            && h[28] == r.status && h[29..32] == r.padding
  {
  }

  lemma DecodeEncoded(r: Raw, rest: Bytes)
    ensures DecodeOne(EncodeRaw(r) + rest) == Ok(r)
    ensures (EncodeRaw(r) + rest)[RECORD_SIZE + |r.payload|..] == rest
  {
    var h, s := EncodeHeader(r), EncodeRaw(r) + rest;
    HeaderFields(r);
    SameHeader(s, h);
    Widths();
    LeToLe(r.region, 4);
    LeToLe(Unsigned(r.push), 4);
    LeToLe(r.unique, 4);
    LeToLe(r.table, 4);
    LeToLe(r.row, 4);
    LeToLe(|r.payload|, 4);
    assert s[32..32 + |r.payload|] == r.payload;
  }

  lemma SameHeader(s: Bytes, h: Bytes)
    requires |h| == RECORD_SIZE && h <= s
    ensures s[..4] == h[..4] && s[4..8] == h[4..8] && s[8..12] == h[8..12] && s[12..16] == h[12..16]
    ensures s[16..20] == h[16..20] && s[20..24] == h[20..24] && s[24..28] == h[24..28]
    ensures s[28] == h[28] && s[29..32] == h[29..32]
  {
  }

  lemma EncodeDecoded(s: Bytes)
    requires DecodeOne(s).Ok?
    ensures s == EncodeRaw(DecodeOne(s).value) + s[RECORD_SIZE + |DecodeOne(s).value.payload|..]
  {
    var r, h := DecodeOne(s).value, s[..RECORD_SIZE];
    SameHeader(s, h);
    assert EncodeHeader(r) == h by {
      Widths();
      ToLeLe(h[4..8]);
      ToLeLe(h[8..12]);
      ToLeLe(h[12..16]);
      ToLeLe(h[16..20]);
      ToLeLe(h[20..24]);
      ToLeLe(h[24..28]);
      HeaderSplits(h);
    }
  }

  lemma HeaderSplits(h: Bytes)
    requires |h| == RECORD_SIZE
    ensures h[..4] + h[4..8] + h[8..12] + h[12..16] + h[16..20] + h[20..24] + h[24..28] + [h[28]] + h[29..32] == h
  {
    assert h[..4] + h[4..8] == h[..8];
    assert h[..8] + h[8..12] == h[..12];
    assert h[..12] + h[12..16] == h[..16];
    assert h[..16] + h[16..20] == h[..20];
    assert h[..20] + h[20..24] == h[..24];
    assert h[..24] + h[24..28] == h[..28];
    assert h[..28] + [h[28]] == h[..29];
  }

  lemma DecodeFirst(r: Raw, rest: Bytes)
    requires DecodeAll(rest).Ok?
    ensures DecodeAll(EncodeRaw(r) + rest) == Ok([r] + DecodeAll(rest).value)
  {
    var s := EncodeRaw(r) + rest;
    DecodeEncoded(r, rest);
    assert s != [];
  }

  lemma {:induction false} DecodeAllEncoded(raws: seq<Raw>)
    ensures DecodeAll(EncodeAll(raws)) == Ok(raws)
  {
    if raws != [] {
      DecodeAllEncoded(raws[1..]);
      DecodeFirst(raws[0], EncodeAll(raws[1..]));
      assert [raws[0]] + raws[1..] == raws;
    }
  }

  lemma {:induction false} EncodeAllDecoded(s: Bytes)
    requires DecodeAll(s).Ok?
    ensures EncodeAll(DecodeAll(s).value) == s
    decreases |s|
  {
    if s != [] {
      var r := DecodeOne(s).value;
      EncodeDecoded(s);
      EncodeAllDecoded(s[RECORD_SIZE + |r.payload|..]);
      assert DecodeAll(s).value[1..] == DecodeAll(s[RECORD_SIZE + |r.payload|..]).value;
    }
  }

  lemma EncodeCacheDecoded(data: Bytes, raws: seq<Raw>)
    requires DecodeCache(data) == Ok(raws)
    ensures |data| >= HEADER_SIZE && data == EncodeCache(data[8..44], raws)
  {
    EncodeAllDecoded(data[HEADER_SIZE..]);
    ToLeLe(data[4..8]);
    FourParts(data);
  }

  lemma FourParts(data: Bytes)
    requires |data| >= HEADER_SIZE
    ensures data == data[..4] + data[4..8] + data[8..44] + data[HEADER_SIZE..]
  {
  }

  /** Byte strings that parse are exactly the encodings, and parsing gives back what was encoded. */
  lemma ParsesExactlyEncodings(data: Bytes, raws: seq<Raw>)
    ensures DecodeCache(data) == Ok(raws) <==> exists rest: Bytes :: |rest| == 36 && data == EncodeCache(rest, raws)
  {
    if DecodeCache(data) == Ok(raws) {
      EncodeCacheDecoded(data, raws);
    }
    forall rest: Bytes | |rest| == 36 && data == EncodeCache(rest, raws)
      ensures DecodeCache(data) == Ok(raws)
    {
      DecodeCacheEncoded(rest, raws);
    }
  }

  lemma DecodeCacheEncoded(rest: Bytes, raws: seq<Raw>)
    requires |rest| == 36
    ensures DecodeCache(EncodeCache(rest, raws)) == Ok(raws)
  {
    CacheHeader(rest, EncodeAll(raws));
    DecodeAllEncoded(raws);
  }

  lemma CacheHeader(rest: Bytes, tail: Bytes)
    requires |rest| == 36
    ensures var data := MAGIC + ToLe(9, 4) + rest + tail;
            data[..4] == MAGIC && Le(data[4..8]) == 9 && data[HEADER_SIZE..] == tail
  {
    Widths();
    LeToLe(9, 4);
    var data := MAGIC + ToLe(9, 4) + rest + tail;
    assert data[4..8] == ToLe(9, 4);
  }

  // ---------- Truncation ----------

  /** Where record n of the encoding starts, counted from the end of the header. */
  function Boundary(raws: seq<Raw>, n: nat): nat
    requires n <= |raws|
  {
    if n == 0 then 0 else RECORD_SIZE + |raws[0].payload| + Boundary(raws[1..], n - 1)
  }

  lemma {:induction false} BoundaryFits(raws: seq<Raw>, n: nat)
    requires n <= |raws|
    ensures Boundary(raws, n) <= |EncodeAll(raws)|
    ensures EncodeAll(raws)[..Boundary(raws, n)] == EncodeAll(raws[..n])
  {
    if n > 0 {
      BoundaryFits(raws[1..], n - 1);
      assert raws[..n][1..] == raws[1..][..n - 1];
      assert EncodeAll(raws)[..Boundary(raws, n)]
          == EncodeRaw(raws[0]) + EncodeAll(raws[1..])[..Boundary(raws[1..], n - 1)];
    }
  }

  /** Only cuts at a boundary parse. */
  lemma {:induction false} CutRecords(raws: seq<Raw>, cut: nat)
    requires cut <= |EncodeAll(raws)| && DecodeAll(EncodeAll(raws)[..cut]).Ok?
    ensures exists n :: 0 <= n <= |raws| && cut == Boundary(raws, n)
  {
    if cut == 0 {
      assert cut == Boundary(raws, 0);
    } else {
      var r, tail := raws[0], EncodeAll(raws[1..]);
      var size := RECORD_SIZE + |r.payload|;
      if cut < size {
        CutInsideRecord(r, tail, cut);
      } else {
        var c := cut - size;
        assert EncodeAll(raws)[..cut] == EncodeRaw(r) + tail[..c];
        DecodeEncoded(r, tail[..c]);
        CutRecords(raws[1..], c);
        var n :| 0 <= n <= |raws| - 1 && c == Boundary(raws[1..], n);
        assert cut == Boundary(raws, n + 1);
      }
    }
  }

  lemma CutInsideRecord(r: Raw, rest: Bytes, cut: nat)
    requires 0 < cut < RECORD_SIZE + |r.payload|
    ensures cut <= |EncodeRaw(r) + rest| && DecodeOne((EncodeRaw(r) + rest)[..cut]).Err?
  {
    var h, s := EncodeHeader(r), EncodeRaw(r) + rest;
    HeaderFields(r);
    if RECORD_SIZE <= cut {
      SameHeader(s[..cut], h);
      Widths();
      LeToLe(|r.payload|, 4);
    } else if 4 <= cut {
      assert s[..cut][..4] == h[..4];
    }
  }

  /** A prefix of a cache parses exactly when it ends after the header or after a record. */
  lemma TruncationIsExact(rest: Bytes, raws: seq<Raw>, cut: nat)
    requires |rest| == 36 && cut <= |EncodeCache(rest, raws)|
    ensures DecodeCache(EncodeCache(rest, raws)[..cut]).Ok?
       <==> exists n :: 0 <= n <= |raws| && cut == HEADER_SIZE + Boundary(raws, n)
    ensures forall n :: 0 <= n <= |raws| && cut == HEADER_SIZE + Boundary(raws, n) ==>
              DecodeCache(EncodeCache(rest, raws)[..cut]) == Ok(raws[..n])
  {
    var data := EncodeCache(rest, raws);
    if cut >= HEADER_SIZE {
      var tail := EncodeAll(raws)[..cut - HEADER_SIZE];
      assert data[..cut] == MAGIC + ToLe(9, 4) + rest + tail;
      CacheHeader(rest, tail);
      forall n | 0 <= n <= |raws| && cut == HEADER_SIZE + Boundary(raws, n)
        ensures DecodeCache(data[..cut]) == Ok(raws[..n])
      {
        BoundaryFits(raws, n);
        DecodeAllEncoded(raws[..n]);
      }
      if DecodeAll(tail).Ok? {
        CutRecords(raws, cut - HEADER_SIZE);
        var n :| 0 <= n <= |raws| && cut - HEADER_SIZE == Boundary(raws, n);
        assert cut == HEADER_SIZE + Boundary(raws, n);
      }
    }
  }

  // ---------- A record, byte by byte ----------

  lemma FourBytes(a: Byte, b: Byte, c: Byte, d: Byte)
    ensures Le([a, b, c, d]) == a + 0x100 * b + 0x1_0000 * c + 0x100_0000 * d
  {
    assert [a, b, c, d][1..] == [b, c, d] && [b, c, d][1..] == [c, d] && [c, d][1..] == [d] && [d][1..] == [];
    assert Le([d]) == d;
    assert Le([c, d]) == c + 256 * d;
  }

  lemma FourBytesOf(a: Byte, b: Byte, c: Byte, d: Byte)
    ensures ToLe(a + 0x100 * b + 0x1_0000 * c + 0x100_0000 * d, 4) == [a, b, c, d]
  {
    FourBytes(a, b, c, d);
    ToLeLe([a, b, c, d]);
  }

  /** After the signature: region, push, unique id, table, row and size; then a status, three bytes, the payload. */
  const SAMPLE: Bytes :=
    [0x58, 0x46, 0x54, 0x48] + [1, 0, 0, 0] + [0xFF, 0xFF, 0xFF, 0xFF] + [3, 0, 0, 0] + [0xCF, 0x53, 0x2F, 0xDF]
    + [0x2A, 0, 0, 0] + [2, 0, 0, 0] + [1] + [7, 8, 9] + [0xAB, 0xCD]

  const SAMPLE_RECORD: Raw := RawFields(1, -1, 3, 0xDF2F53CF, 42, 1, [7, 8, 9], [0xAB, 0xCD])

  lemma SampleWords()
    ensures ToLe(1, 4) == [1, 0, 0, 0] && ToLe(Unsigned(-1), 4) == [0xFF, 0xFF, 0xFF, 0xFF] && ToLe(3, 4) == [3, 0, 0, 0]
    ensures ToLe(0xDF2F53CF, 4) == [0xCF, 0x53, 0x2F, 0xDF] && ToLe(42, 4) == [0x2A, 0, 0, 0] && ToLe(2, 4) == [2, 0, 0, 0]
  {
    FourBytesOf(1, 0, 0, 0);
    FourBytesOf(0xFF, 0xFF, 0xFF, 0xFF);
    FourBytesOf(3, 0, 0, 0);
    FourBytesOf(0xCF, 0x53, 0x2F, 0xDF);
    FourBytesOf(0x2A, 0, 0, 0);
    FourBytesOf(2, 0, 0, 0);
  }

  lemma SampleEncodes()
    ensures EncodeRaw(SAMPLE_RECORD) == SAMPLE
  {
    SampleWords();
  }

  lemma SampleDecodes()
    ensures DecodeOne(SAMPLE) == Ok(SAMPLE_RECORD)
  {
    SampleEncodes();
    DecodeEncoded(SAMPLE_RECORD, []);
    assert SAMPLE + [] == SAMPLE;
  }
}
