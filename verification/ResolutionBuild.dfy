/**
  The resolution table: client-locale root records joined with encoding entries,
  inserted row by row into one SQLite transaction.
 */
module ResolutionBuild {
  import opened Octets
  import opened Wrappers
  import opened Namespace
  import opened SqliteCalls

  type Key = k: Bytes | |k| == 16 witness seq(16, i => 0)

  datatype Locale = ClientLocale | OtherLocale(code: nat)
  datatype RootRecord = RootRecord(fdid: nat, contentKey: Key)
  datatype RootBlock = RootBlock(locales: set<Locale>, records: seq<RootRecord>)
  datatype EncodingEntry = EncodingEntry(contentKey: Key, encodingKeys: seq<Key>)

  type Pages = seq<seq<EncodingEntry>>

  // ---------- What the table means ----------

  /** The records of every block whose locale mask has the client's locale, in file order. */
  function ClientRecords(blocks: seq<RootBlock>): seq<RootRecord> {
    if blocks == [] then []
    else
      var last := blocks[|blocks| - 1];
      ClientRecords(blocks[..|blocks| - 1]) + if ClientLocale in last.locales then last.records else []
  }

  function Entries(pages: Pages): seq<EncodingEntry> {
    if pages == [] then [] else Entries(pages[..|pages| - 1]) + pages[|pages| - 1]
  }

  ghost predicate LastRecordAt(records: seq<RootRecord>, i: int, fdid: nat, key: Key) {
    && 0 <= i < |records| && records[i] == RootRecord(fdid, key)
    && forall j :: i < j < |records| ==> records[j].fdid != fdid
  }

  ghost predicate LastRecord(records: seq<RootRecord>, fdid: nat, key: Key) {
    exists i :: LastRecordAt(records, i, fdid, key)
  }

  ghost predicate LastEntryAt(entries: seq<EncodingEntry>, i: int, contentKey: Key, key: Key) {
    && 0 <= i < |entries| && entries[i].contentKey == contentKey
    && entries[i].encodingKeys != [] && entries[i].encodingKeys[0] == key
    && forall j :: i < j < |entries| && entries[j].contentKey == contentKey ==> entries[j].encodingKeys == []
  }

  /** key is the first encoding key of the last entry for contentKey that has any. */
  ghost predicate LastEntry(entries: seq<EncodingEntry>, contentKey: Key, key: Key) {
    exists i :: LastEntryAt(entries, i, contentKey, key)
  }

  // ---------- The same over the parsed files ----------

  /** Record i of block b is for fdid, in a block of the client's locale. */
  ghost predicate RecordAt(blocks: seq<RootBlock>, b: int, i: int, fdid: nat) {
    && 0 <= b < |blocks| && ClientLocale in blocks[b].locales
    && 0 <= i < |blocks[b].records| && blocks[b].records[i].fdid == fdid
  }

  /** Entry e of page p is for the content key and has an encoding key. */
  ghost predicate EntryAt(pages: Pages, p: int, e: int, contentKey: Key) {
    && 0 <= p < |pages| && 0 <= e < |pages[p]|
    && pages[p][e].contentKey == contentKey && pages[p][e].encodingKeys != []
  }

  /** Position (b', i') comes after (b, i) in the file. */
  predicate After(b: int, i: int, b': int, i': int) {
    b < b' || (b == b' && i < i')
  }

  /** ck is the content key of the file's last record for fdid in a client-locale block. */
  ghost predicate LastInBlocks(blocks: seq<RootBlock>, fdid: nat, ck: Key) {
    exists b, i :: RecordAt(blocks, b, i, fdid) && blocks[b].records[i].contentKey == ck
      && forall b', i' :: RecordAt(blocks, b', i', fdid) ==> !After(b, i, b', i')
  }

  /** key is the first key of the file's last entry for contentKey that has any. */
  ghost predicate LastInPages(pages: Pages, contentKey: Key, key: Key) {
    exists p, e :: EntryAt(pages, p, e, contentKey) && pages[p][e].encodingKeys[0] == key
      && forall p', e' :: EntryAt(pages, p', e', contentKey) ==> !After(p, e, p', e')
  }

  /** key is the first key of the file's first entry for contentKey that has any. */
  ghost predicate FirstInPages(pages: Pages, contentKey: Key, key: Key) {
    exists p, e :: EntryAt(pages, p, e, contentKey) && pages[p][e].encodingKeys[0] == key
      && forall p', e' :: EntryAt(pages, p', e', contentKey) ==> !After(p', e', p, e)
  }

  // ---------- The maps the loops fill ----------

  function RecordMap(records: seq<RootRecord>): map<nat, Key> {
    if records == [] then map[]
    else
      var last := records[|records| - 1];
      RecordMap(records[..|records| - 1])[last.fdid := last.contentKey]
  }

  function EntryMap(entries: seq<EncodingEntry>): map<Key, Key> {
    if entries == [] then map[]
    else
      var last := entries[|entries| - 1];
      var rest := EntryMap(entries[..|entries| - 1]);
      if last.encodingKeys == [] then rest else rest[last.contentKey := last.encodingKeys[0]]
  }

  /** The table rows: one per file whose content key has an encoding key. */
  function Joined(contentKeys: map<nat, Key>, encodingKeys: map<Key, Key>): map<nat, (Bytes, Bytes)> {
    map fdid | fdid in contentKeys && contentKeys[fdid] in encodingKeys
      :: (contentKeys[fdid], encodingKeys[contentKeys[fdid]])
  }

  lemma LastRecordGrows(records: seq<RootRecord>, last: RootRecord, fdid: nat, key: Key)
    ensures LastRecord(records + [last], fdid, key) <==>
            if last.fdid == fdid then last.contentKey == key else LastRecord(records, fdid, key)
  {
    var all, n := records + [last], |records|;
    assert all[n] == last && forall j :: 0 <= j < n ==> records[j] == all[j];
    if i :| LastRecordAt(all, i, fdid, key) && i < n {
      assert LastRecordAt(records, i, fdid, key);
    }
    if last == RootRecord(fdid, key) {
      assert LastRecordAt(all, n, fdid, key);
    } else if LastRecord(records, fdid, key) && last.fdid != fdid {
      var i :| LastRecordAt(records, i, fdid, key);
      assert LastRecordAt(all, i, fdid, key);
    }
  }

  lemma LastEntryGrows(entries: seq<EncodingEntry>, last: EncodingEntry, contentKey: Key, key: Key)
    ensures LastEntry(entries + [last], contentKey, key) <==>
            if last.contentKey == contentKey && last.encodingKeys != [] then last.encodingKeys[0] == key
            else LastEntry(entries, contentKey, key)
  {
    var all, n := entries + [last], |entries|;
    assert all[n] == last && forall j :: 0 <= j < n ==> entries[j] == all[j];
    if i :| LastEntryAt(all, i, contentKey, key) && i < n {
      assert LastEntryAt(entries, i, contentKey, key);
    }
    if last.contentKey == contentKey && last.encodingKeys != [] {
      assert last.encodingKeys[0] == key ==> LastEntryAt(all, n, contentKey, key);
    } else if LastEntry(entries, contentKey, key) {
      var i :| LastEntryAt(entries, i, contentKey, key);
      assert LastEntryAt(all, i, contentKey, key);
    }
  }

  lemma {:induction false} RecordMapIsLastRecord(records: seq<RootRecord>, fdid: nat, key: Key)
    ensures (fdid in RecordMap(records) && RecordMap(records)[fdid] == key) <==> LastRecord(records, fdid, key)
  {
    if records != [] {
      var front, last := records[..|records| - 1], records[|records| - 1];
      RecordMapIsLastRecord(front, fdid, key);
      LastRecordGrows(front, last, fdid, key);
      assert records == front + [last];
    }
  }

  lemma {:induction false} EntryMapIsLastEntry(entries: seq<EncodingEntry>, contentKey: Key, key: Key)
    ensures (contentKey in EntryMap(entries) && EntryMap(entries)[contentKey] == key)
       <==> LastEntry(entries, contentKey, key)
  {
    if entries != [] {
      var front, last := entries[..|entries| - 1], entries[|entries| - 1];
      EntryMapIsLastEntry(front, contentKey, key);
      LastEntryGrows(front, last, contentKey, key);
      assert entries == front + [last];
    }
  }

  // ---------- Files block by block and page by page ----------

  lemma {:induction false} RecordsConcat(front: seq<RootRecord>, more: seq<RootRecord>, fdid: nat, ck: Key)
    ensures LastRecord(front + more, fdid, ck) <==>
            if exists i :: 0 <= i < |more| && more[i].fdid == fdid then LastRecord(more, fdid, ck) else LastRecord(front, fdid, ck)
  {
    if more == [] {
      assert front + more == front;
    } else {
      var n := |more| - 1;
      RecordsConcat(front, more[..n], fdid, ck);
      LastRecordGrows(front + more[..n], more[n], fdid, ck);
      LastRecordGrows(more[..n], more[n], fdid, ck);
      assert front + more == front + more[..n] + [more[n]] && more == more[..n] + [more[n]];
    }
  }

  lemma {:induction false} EntriesConcat(front: seq<EncodingEntry>, more: seq<EncodingEntry>, ck: Key, ek: Key)
    ensures LastEntry(front + more, ck, ek) <==>
            if exists i :: 0 <= i < |more| && more[i].contentKey == ck && more[i].encodingKeys != []
            then LastEntry(more, ck, ek) else LastEntry(front, ck, ek)
  {
    if more == [] {
      assert front + more == front;
    } else {
      var n := |more| - 1;
      EntriesConcat(front, more[..n], ck, ek);
      LastEntryGrows(front + more[..n], more[n], ck, ek);
      LastEntryGrows(more[..n], more[n], ck, ek);
      assert front + more == front + more[..n] + [more[n]] && more == more[..n] + [more[n]];
    }
  }

  /** A block that has the file decides; any other changes nothing. */
  lemma BlocksGrow(front: seq<RootBlock>, block: RootBlock, fdid: nat, ck: Key)
    ensures LastInBlocks(front + [block], fdid, ck) <==>
            if ClientLocale in block.locales && exists i :: 0 <= i < |block.records| && block.records[i].fdid == fdid
            then LastRecord(block.records, fdid, ck) else LastInBlocks(front, fdid, ck)
  {
    var all, n := front + [block], |front|;
    assert all[n] == block && forall b :: 0 <= b < n ==> all[b] == front[b];
    assert forall b, i :: b < n ==> (RecordAt(all, b, i, fdid) <==> RecordAt(front, b, i, fdid));
    if ClientLocale in block.locales && exists i :: 0 <= i < |block.records| && block.records[i].fdid == fdid {
      var i :| 0 <= i < |block.records| && block.records[i].fdid == fdid;
      assert RecordAt(all, n, i, fdid);
      if LastRecord(block.records, fdid, ck) {
        var k :| LastRecordAt(block.records, k, fdid, ck);
        assert RecordAt(all, n, k, fdid);
        forall b', i' | RecordAt(all, b', i', fdid)
          ensures !After(n, k, b', i')
        {
        }
      }
      if LastInBlocks(all, fdid, ck) {
        var b, k :| RecordAt(all, b, k, fdid) && all[b].records[k].contentKey == ck
          && forall b', i' :: RecordAt(all, b', i', fdid) ==> !After(b, k, b', i');
        assert b == n;
        assert forall j :: 0 <= j < |block.records| && block.records[j].fdid == fdid ==> RecordAt(all, n, j, fdid);
        assert LastRecordAt(block.records, k, fdid, ck);
      }
    } else {
      assert forall i :: !RecordAt(all, n, i, fdid);
      assert forall b, i :: RecordAt(all, b, i, fdid) <==> RecordAt(front, b, i, fdid);
    }
  }

  lemma PagesGrow(front: Pages, page: seq<EncodingEntry>, ck: Key, ek: Key)
    ensures LastInPages(front + [page], ck, ek) <==>
            if exists e :: 0 <= e < |page| && page[e].contentKey == ck && page[e].encodingKeys != []
            then LastEntry(page, ck, ek) else LastInPages(front, ck, ek)
  {
    var all, n := front + [page], |front|;
    assert all[n] == page && forall p :: 0 <= p < n ==> all[p] == front[p];
    assert forall p, e :: p < n ==> (EntryAt(all, p, e, ck) <==> EntryAt(front, p, e, ck));
    if exists e :: 0 <= e < |page| && page[e].contentKey == ck && page[e].encodingKeys != [] {
      var e :| 0 <= e < |page| && page[e].contentKey == ck && page[e].encodingKeys != [];
      assert EntryAt(all, n, e, ck);
      if LastEntry(page, ck, ek) {
        var k :| LastEntryAt(page, k, ck, ek);
        assert EntryAt(all, n, k, ck);
        forall p', e' | EntryAt(all, p', e', ck)
          ensures !After(n, k, p', e')
        {
        }
      }
      if LastInPages(all, ck, ek) {
        var p, k :| EntryAt(all, p, k, ck) && all[p][k].encodingKeys[0] == ek
          && forall p', e' :: EntryAt(all, p', e', ck) ==> !After(p, k, p', e');
        assert p == n;
        assert forall j :: 0 <= j < |page| && page[j].contentKey == ck && page[j].encodingKeys != [] ==> EntryAt(all, n, j, ck);
        assert LastEntryAt(page, k, ck, ek);
      }
    } else {
      assert forall e :: !EntryAt(all, n, e, ck);
      assert forall p, e :: EntryAt(all, p, e, ck) <==> EntryAt(front, p, e, ck);
    }
  }

  /** Of a file's records, exactly those in client-locale blocks count, and the last in file order decides. */
  lemma {:induction false} ClientRecordsAreTheBlocks(blocks: seq<RootBlock>, fdid: nat, ck: Key)
    ensures LastRecord(ClientRecords(blocks), fdid, ck) <==> LastInBlocks(blocks, fdid, ck)
  {
    if blocks != [] {
      var n := |blocks| - 1;
      var front, block := blocks[..n], blocks[n];
      ClientRecordsAreTheBlocks(front, fdid, ck);
      BlocksGrow(front, block, fdid, ck);
      RecordsConcat(ClientRecords(front), if ClientLocale in block.locales then block.records else [], fdid, ck);
      assert blocks == front + [block];
    }
  }

  lemma {:induction false} EntriesAreThePages(pages: Pages, ck: Key, ek: Key)
    ensures LastEntry(Entries(pages), ck, ek) <==> LastInPages(pages, ck, ek)
  {
    if pages != [] {
      var n := |pages| - 1;
      EntriesAreThePages(pages[..n], ck, ek);
      PagesGrow(pages[..n], pages[n], ck, ek);
      EntriesConcat(Entries(pages[..n]), pages[n], ck, ek);
      assert pages == pages[..n] + [pages[n]];
    }
  }

  lemma RecordMapIsLastInBlocks(blocks: seq<RootBlock>, fdid: nat, ck: Key)
    ensures (fdid in RecordMap(ClientRecords(blocks)) && RecordMap(ClientRecords(blocks))[fdid] == ck)
       <==> LastInBlocks(blocks, fdid, ck)
  {
    RecordMapIsLastRecord(ClientRecords(blocks), fdid, ck);
    ClientRecordsAreTheBlocks(blocks, fdid, ck);
  }

  lemma EntryMapIsLastInPages(pages: Pages, ck: Key, ek: Key)
    ensures (ck in EntryMap(Entries(pages)) && EntryMap(Entries(pages))[ck] == ek) <==> LastInPages(pages, ck, ek)
  {
    EntryMapIsLastEntry(Entries(pages), ck, ek);
    EntriesAreThePages(pages, ck, ek);
  }

  /** The table a successful build holds. */
  function BuiltRows(blocks: seq<RootBlock>, pages: Pages): map<nat, (Bytes, Bytes)> {
    Joined(RecordMap(ClientRecords(blocks)), EntryMap(Entries(pages)))
  }

  function BuiltTables(blocks: seq<RootBlock>, pages: Pages, rootMtime: int, encMtime: int): Tables {
    Tables(Some([Metadata(rootMtime, encMtime, SCHEMA_VERSION)]), Some(BuiltRows(blocks, pages)))
  }

  /**
    A file id has the row (ck, ek) exactly when ck is the content key of the last record for it in a
    client-locale block, in file order, and ek the first key of the last entry for ck that has any.
   */
  lemma BuiltRowsAreTheLast(blocks: seq<RootBlock>, pages: Pages, fdid: nat, ck: Key, ek: Key)
    ensures (fdid in BuiltRows(blocks, pages) && BuiltRows(blocks, pages)[fdid] == (ck, ek))
       <==> LastInBlocks(blocks, fdid, ck) && LastInPages(pages, ck, ek)
  {
    RecordMapIsLastInBlocks(blocks, fdid, ck);
    EntryMapIsLastInPages(pages, ck, ek);
  }

  /** The table holds the rows of the last records and entries, and no other. */
  ghost predicate HoldsTheLast(tables: Tables, blocks: seq<RootBlock>, pages: Pages) {
    && tables.resolution.Some?
    && forall fdid, ck, ek :: fdid in tables.resolution.value && tables.resolution.value[fdid] == (ck, ek)
         <==> LastInBlocks(blocks, fdid, ck) && LastInPages(pages, ck, ek)
  }

  lemma BuiltTablesHoldTheLast(blocks: seq<RootBlock>, pages: Pages, rootMtime: int, encMtime: int)
    ensures HoldsTheLast(BuiltTables(blocks, pages, rootMtime, encMtime), blocks, pages)
  {
    forall fdid, ck, ek
      ensures fdid in BuiltRows(blocks, pages) && BuiltRows(blocks, pages)[fdid] == (ck, ek)
         <==> LastInBlocks(blocks, fdid, ck) && LastInPages(pages, ck, ek)
    {
      BuiltRowsAreTheLast(blocks, pages, fdid, ck, ek);
    }
  }

  /** So does the lookup, whose answers must be sixteen bytes each. */
  lemma JoinedResolves(blocks: seq<RootBlock>, pages: Pages, fdid: nat, ck: Key, ek: Key)
    ensures ResolveFdid(BuiltRows(blocks, pages), fdid) == Some((ck, ek))
       <==> LastInBlocks(blocks, fdid, ck) && LastInPages(pages, ck, ek)
  {
    BuiltRowsAreTheLast(blocks, pages, fdid, ck, ek);
  }

  // ---------- The loops ----------

  lemma TakeOneMore<T>(before: seq<T>, more: seq<T>, n: nat)
    requires n < |more|
    ensures before + more[..n + 1] == before + more[..n] + [more[n]]
  {
  }

  lemma RecordMapStep(records: seq<RootRecord>, last: RootRecord)
    ensures RecordMap(records + [last]) == RecordMap(records)[last.fdid := last.contentKey]
  {
    assert (records + [last])[..|records|] == records;
  }

  method CollectFdidToContentKeys(blocks: seq<RootBlock>) returns (fdidToCk: map<nat, Key>)
    ensures fdidToCk == RecordMap(ClientRecords(blocks))
    ensures forall fdid, ck :: fdid in fdidToCk && fdidToCk[fdid] == ck <==> LastInBlocks(blocks, fdid, ck)
  {
    fdidToCk := map[];
    for b := 0 to |blocks|
      invariant fdidToCk == RecordMap(ClientRecords(blocks[..b]))
    {
      var block := blocks[b];
      assert blocks[..b + 1][..b] == blocks[..b];
      if ClientLocale in block.locales {
        ghost var before := ClientRecords(blocks[..b]);
        assert before + block.records[..0] == before;
        for r := 0 to |block.records|
          invariant fdidToCk == RecordMap(before + block.records[..r])
        {
          var record := block.records[r];
          RecordMapStep(before + block.records[..r], record);
          TakeOneMore(before, block.records, r);
          fdidToCk := fdidToCk[record.fdid := record.contentKey];
        }
        assert block.records[..|block.records|] == block.records;
      } else {
        assert ClientRecords(blocks[..b]) + [] == ClientRecords(blocks[..b]);
      }
    }
    assert blocks[..|blocks|] == blocks;
    forall fdid, ck
      ensures fdid in fdidToCk && fdidToCk[fdid] == ck <==> LastInBlocks(blocks, fdid, ck)
    {
      RecordMapIsLastInBlocks(blocks, fdid, ck);
    }
  }

  lemma EntryMapStep(entries: seq<EncodingEntry>, last: EncodingEntry)
    ensures EntryMap(entries + [last]) ==
            if last.encodingKeys == [] then EntryMap(entries) else EntryMap(entries)[last.contentKey := last.encodingKeys[0]]
  {
    assert (entries + [last])[..|entries|] == entries;
  }

  method CollectContentToEncodingKeys(pages: Pages) returns (ckToEk: map<Key, Key>)
    ensures ckToEk == EntryMap(Entries(pages))
    ensures forall ck, ek :: ck in ckToEk && ckToEk[ck] == ek <==> LastInPages(pages, ck, ek)
  {
    ckToEk := map[];
    for p := 0 to |pages|
      invariant ckToEk == EntryMap(Entries(pages[..p]))
    {
      var page := pages[p];
      ghost var before := Entries(pages[..p]);
      assert pages[..p + 1][..p] == pages[..p];
      assert before + page[..0] == before;
      for e := 0 to |page|
        invariant ckToEk == EntryMap(before + page[..e])
      {
        EntryMapStep(before + page[..e], page[e]);
        TakeOneMore(before, page, e);
        if page[e].encodingKeys != [] {
          ckToEk := ckToEk[page[e].contentKey := page[e].encodingKeys[0]];
        }
      }
      assert page[..|page|] == page;
    }
    assert pages[..|pages|] == pages;
    forall ck, ek
      ensures ck in ckToEk && ckToEk[ck] == ek <==> LastInPages(pages, ck, ek)
    {
      EntryMapIsLastInPages(pages, ck, ek);
    }
  }

  /** The encoding key used to fetch the root file itself: the first non-empty entry, not the last. */
  method ResolveContentKeyFromEncoding(pages: Pages, contentKey: Key) returns (key: Option<Key>)
    ensures key.None? <==> forall p, e :: !EntryAt(pages, p, e, contentKey)
    ensures key.Some? ==> FirstInPages(pages, contentKey, key.value)
  {
    for p := 0 to |pages|
      invariant forall p', e' :: EntryAt(pages, p', e', contentKey) ==> p <= p'
    {
      for e := 0 to |pages[p]|
        invariant forall p', e' :: EntryAt(pages, p', e', contentKey) ==> p < p' || (p == p' && e <= e')
      {
        if pages[p][e].contentKey == contentKey && pages[p][e].encodingKeys != [] {
          assert EntryAt(pages, p, e, contentKey);
          return Some(pages[p][e].encodingKeys[0]);
        }
      }
    }
    return None;
  }

  /** Moving one file from the unvisited to the visited part adds its row, if it has one. */
  lemma JoinedStep(contentKeys: map<nat, Key>, encodingKeys: map<Key, Key>, todo: set<nat>, fdid: nat)
    requires fdid in todo && todo <= contentKeys.Keys
    ensures fdid !in Joined(contentKeys - todo, encodingKeys)
    ensures Joined(contentKeys - (todo - {fdid}), encodingKeys)
         == var rows := Joined(contentKeys - todo, encodingKeys);
            if contentKeys[fdid] in encodingKeys
            then rows[fdid := (contentKeys[fdid], encodingKeys[contentKeys[fdid]])] else rows
  {
    var before, after := contentKeys - todo, contentKeys - (todo - {fdid});
    assert after == before[fdid := contentKeys[fdid]];
  }

  // ---------- The transaction ----------

  /** One SQLite connection: committed tables and, inside BEGIN..COMMIT, the pending ones. */
  class Connection {
    var committed: Tables
    var pending: Option<Tables>

    constructor (tables: Tables)
      ensures committed == tables && pending == None
    {
      committed, pending := tables, None;
    }

    /** BEGIN, drop whatever was there, create both tables empty. */
    method InitResolutionSchema(sqlite: Sqlite) returns (r: Result<(), Error>)
      modifies this`pending
      ensures r == if sqlite.begins then Ok(()) else Err(IoError)
      ensures r.Ok? ==> pending == Some(Tables(Some([]), Some(map[])))
    {
      if !sqlite.begins { return Err(IoError); }
      pending := Some(Tables(Some([]), Some(map[])));
      return Ok(());
    }

    /** A plain INSERT: a second row for the same fdid is a constraint failure. */
    method Insert(fdid: nat, row: (Bytes, Bytes), sqlite: Sqlite) returns (inserted: bool)
      requires pending.Some? && pending.value.resolution.Some?
      modifies this`pending
      ensures inserted == (fdid !in old(pending).value.resolution.value && fdid !in sqlite.refused)
      ensures pending == if inserted
                         then Some(old(pending).value.(resolution := Some(old(pending).value.resolution.value[fdid := row])))
                         else old(pending)
    {
      var rows := pending.value.resolution.value;
      inserted := fdid !in rows && fdid !in sqlite.refused;
      if inserted {
        pending := Some(pending.value.(resolution := Some(rows[fdid := row])));
      }
    }

    /** Walks the hash map in whatever order it yields its keys; that order leaves no trace. */
    method InsertResolutionRows(fdidToCk: map<nat, Key>, ckToEk: map<Key, Key>, sqlite: Sqlite)
      returns (inserted: Result<nat, Error>)
      requires pending.Some? && pending.value.resolution == Some(map[])
      modifies this`pending
      ensures inserted == if sqlite.prepares && Joined(fdidToCk, ckToEk).Keys !! sqlite.refused
                          then Ok(|Joined(fdidToCk, ckToEk)|) else Err(IoError)
      ensures inserted.Ok? ==> pending == Some(old(pending).value.(resolution := Some(Joined(fdidToCk, ckToEk))))
    {
      if !sqlite.prepares { return Err(IoError); }
      var todo, count := fdidToCk.Keys, 0;
      ghost var start, joined := pending.value, Joined(fdidToCk - todo, ckToEk);
      assert joined == map[];
      while todo != {}
        invariant todo <= fdidToCk.Keys && joined == Joined(fdidToCk - todo, ckToEk)
        invariant pending == Some(start.(resolution := Some(joined)))
        invariant count == |joined| && joined.Keys !! sqlite.refused
        decreases todo
      {
        var fdid :| fdid in todo;
        JoinedStep(fdidToCk, ckToEk, todo, fdid);
        if fdidToCk[fdid] in ckToEk {
          var ok := Insert(fdid, (fdidToCk[fdid], ckToEk[fdidToCk[fdid]]), sqlite);
          if !ok {
            assert fdid in Joined(fdidToCk, ckToEk);
            return Err(IoError);
          }
          count := count + 1;
        }
        todo := todo - {fdid};
        joined := Joined(fdidToCk - todo, ckToEk);
      }
      assert fdidToCk - {} == fdidToCk;
      return Ok(count);
    }

    method InsertResolutionMetadata(rootMtime: int, encMtime: int, sqlite: Sqlite) returns (r: Result<(), Error>)
      requires pending.Some? && pending.value.metadata.Some?
      modifies this`pending
      ensures r == if sqlite.records then Ok(()) else Err(IoError)
      ensures r.Ok? ==> pending == Some(old(pending).value.(metadata := Some(
                old(pending).value.metadata.value + [Metadata(rootMtime, encMtime, SCHEMA_VERSION)])))
    {
      if !sqlite.records { return Err(IoError); }
      pending := Some(pending.value.(metadata := Some(
        pending.value.metadata.value + [Metadata(rootMtime, encMtime, SCHEMA_VERSION)])));
      return Ok(());
    }

    method Commit(sqlite: Sqlite) returns (r: Result<(), Error>)
      requires pending.Some?
      modifies this
      ensures r == if sqlite.commits then Ok(()) else Err(IoError)
      ensures committed == if sqlite.commits then old(pending).value else old(committed)
    {
      if !sqlite.commits { return Err(IoError); }
      committed, pending := pending.value, None;
      return Ok(());
    }

    /** The rows and the metadata of an open transaction, and its commit. */
    method FillAndCommit(fdidToCk: map<nat, Key>, ckToEk: map<Key, Key>, rootMtime: Result<int, Error>,
                         encMtime: Result<int, Error>, sqlite: Sqlite) returns (outcome: Result<nat, Error>)
      requires pending == Some(Tables(Some([]), Some(map[])))
      modifies this
      ensures outcome.Ok? <==> && sqlite.prepares && Joined(fdidToCk, ckToEk).Keys !! sqlite.refused
                               && rootMtime.Ok? && encMtime.Ok? && sqlite.records && sqlite.commits
      ensures outcome.Err? ==> committed == old(committed)
      ensures outcome.Ok? ==>
                && committed == Tables(Some([Metadata(rootMtime.value, encMtime.value, SCHEMA_VERSION)]), Some(Joined(fdidToCk, ckToEk)))
                && outcome.value == |Joined(fdidToCk, ckToEk)|
    {
      var inserted := InsertResolutionRows(fdidToCk, ckToEk, sqlite);
      if inserted.Err? { return inserted; }
      if rootMtime.Err? { return Err(rootMtime.error); }
      if encMtime.Err? { return Err(encMtime.error); }
      var row := Metadata(rootMtime.value, encMtime.value, SCHEMA_VERSION);
      assert [] + [row] == [row];
      var recorded := InsertResolutionMetadata(rootMtime.value, encMtime.value, sqlite);
      if recorded.Err? { return Err(recorded.error); }
      var done := Commit(sqlite);
      if done.Err? { return Err(done.error); }
      return inserted;
    }

    /**
      The whole build. parsed is what reading and parsing both metadata files gives; rootMtime and
      encMtime are read after the rows are in. Whatever fails, the connection is dropped and with
      it the open transaction, so the committed tables stay as they were.
     */
    method BuildResolutionCache(parsed: Result<(seq<RootBlock>, Pages), Error>,
                                rootMtime: Result<int, Error>, encMtime: Result<int, Error>, sqlite: Sqlite)
      returns (outcome: Result<nat, Error>)
      modifies this
      ensures pending == None
      ensures outcome.Ok? <==>
                && parsed.Ok? && rootMtime.Ok? && encMtime.Ok?
                && sqlite.opens && sqlite.begins && sqlite.prepares && sqlite.records && sqlite.commits
                && BuiltRows(parsed.value.0, parsed.value.1).Keys !! sqlite.refused
      ensures outcome.Err? ==> committed == old(committed)
      ensures outcome.Ok? ==>
                && committed == BuiltTables(parsed.value.0, parsed.value.1, rootMtime.value, encMtime.value)
                && HoldsTheLast(committed, parsed.value.0, parsed.value.1)
                && outcome.value == |committed.resolution.value|
    {
      pending := None;
      if parsed.Err? { return Err(parsed.error); }
      var fdidToCk := CollectFdidToContentKeys(parsed.value.0);
      var ckToEk := CollectContentToEncodingKeys(parsed.value.1);
      if !sqlite.opens { return Err(CannotOpen); }
      var begun := InitResolutionSchema(sqlite);
      if begun.Err? {
        pending := None;
        return Err(begun.error);
      }
      outcome := FillAndCommit(fdidToCk, ckToEk, rootMtime, encMtime, sqlite);
      pending := None;
      if outcome.Ok? {
        BuiltTablesHoldTheLast(parsed.value.0, parsed.value.1, rootMtime.value, encMtime.value);
      }
    }
  }
}
