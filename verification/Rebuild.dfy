/**
  rebuild_resolution_cache as the publisher runs it inside a private staging directory:
  validated metadata files, one SQLite transaction over them, and a rollback journal that
  exists from the first write until the commit is complete. File formats, hashing and
  archive reads are parameters.
 */
module Rebuild {
  import opened Octets
  import opened Wrappers
  import opened Namespace
  import opened ResolutionBuild

  datatype Formats = Formats(
    contentKey: Bytes -> Key,
    parseRoot: Bytes -> Option<seq<RootBlock>>,
    parseEncoding: Bytes -> Option<Pages>)

  /** What the build config names: the content keys of its root and encoding files. */
  datatype Config = Config(formats: Formats, root: Key, encoding: Key)

  datatype BuilderPc =
    | Start
    | EncodingWritten(encoding: Bytes)
    | RootWritten
    | Parsed(contentKeys: map<nat, Key>, encodingKeys: map<Key, Key>)
    | Inserting(contentKeys: map<nat, Key>, encodingKeys: map<Key, Key>, todo: set<nat>, pending: Tables)
    | Recorded(pending: Tables)
    | Flushed
    | Finished

  datatype Action =
    | WriteEncoding(bytes: Bytes, mtime: int)
    | WriteRoot(bytes: Bytes, mtime: int)
    | ParseMetadata
    | BeginTransaction(mtime: int)
    | InsertRow(fdid: nat)
    | SpillPages(tables: Tables)          // the page cache overflows into the database file
    | RecordMtimes
    | FlushPages
    | DropJournal
    | Touch(file: FileName, mtime: int)   // index initialisation rewrites a metadata file in place

  ghost predicate HasBytes(d: Dir, file: FileName, contentKey: Bytes -> Key, key: Key) {
    file in d && d[file].content.Plain? && contentKey(d[file].content.bytes) == key
  }

  /** Both metadata files are there, have the content keys of the build config, and parse. */
  ghost predicate MetadataParses(config: Config, d: Dir) {
    && HasBytes(d, RootBin, config.formats.contentKey, config.root)
    && HasBytes(d, EncodingBin, config.formats.contentKey, config.encoding)
    && config.formats.parseRoot(d[RootBin].content.bytes).Some?
    && config.formats.parseEncoding(d[EncodingBin].content.bytes).Some?
  }

  ghost function Blocks(config: Config, d: Dir): seq<RootBlock>
    requires MetadataParses(config, d)
  {
    config.formats.parseRoot(d[RootBin].content.bytes).value
  }

  ghost function EncodingPages(config: Config, d: Dir): Pages
    requires MetadataParses(config, d)
  {
    config.formats.parseEncoding(d[EncodingBin].content.bytes).value
  }

  /** One step of the builder; nothing it does reads or writes outside d. */
  ghost predicate Performs(config: Config, a: Action, b: BuilderPc, d: Dir, b': BuilderPc, d': Dir) {
    match a
    case WriteEncoding(bytes, mtime) =>
      && b.Start? && config.formats.contentKey(bytes) == config.encoding
      && b' == EncodingWritten(bytes) && d' == d[EncodingBin := Node(Plain(bytes), mtime)]
    case WriteRoot(bytes, mtime) =>
      && b.EncodingWritten? && config.formats.contentKey(bytes) == config.root
      && config.formats.parseEncoding(b.encoding).Some?
      && (exists p, e :: EntryAt(config.formats.parseEncoding(b.encoding).value, p, e, config.root))
      && b' == RootWritten && d' == d[RootBin := Node(Plain(bytes), mtime)]
    case ParseMetadata =>
      && b.RootWritten? && MetadataParses(config, d)
      && b' == Parsed(RecordMap(ClientRecords(Blocks(config, d))), EntryMap(Entries(EncodingPages(config, d)))) && d' == d
    case BeginTransaction(mtime) =>
      && b.Parsed?
      && b' == Inserting(b.contentKeys, b.encodingKeys, b.contentKeys.Keys, Tables(Some([]), Some(map[])))
      && d' == (if ResolutionSqlite in d then d else d[ResolutionSqlite := Node(Database(NO_TABLES), mtime)])
               [SqliteJournal := Node(Plain([]), mtime)]
    case InsertRow(fdid) =>
      && b.Inserting? && fdid in b.todo && fdid in b.contentKeys && b.pending.resolution.Some?
      && var rows := b.pending.resolution.value;
      && var key := b.contentKeys[fdid];
      b' == b.(todo := b.todo - {fdid},
               pending := b.pending.(resolution := Some(
                 if key in b.encodingKeys then rows[fdid := (key, b.encodingKeys[key])] else rows)))
      && d' == d
    case SpillPages(tables) =>
      && (b.Inserting? || b.Recorded?) && ResolutionSqlite in d
      && b' == b && d' == d[ResolutionSqlite := d[ResolutionSqlite].(content := Database(tables))]
    case RecordMtimes =>
      && b.Inserting? && b.todo == {} && FileMtime(d, RootBin).Ok? && FileMtime(d, EncodingBin).Ok?
      && b' == Recorded(b.pending.(metadata := Some(
                 [Metadata(FileMtime(d, RootBin).value, FileMtime(d, EncodingBin).value, SCHEMA_VERSION)])))
      && d' == d
    case FlushPages =>
      && b.Recorded? && ResolutionSqlite in d
      && b' == Flushed && d' == d[ResolutionSqlite := d[ResolutionSqlite].(content := Database(b.pending))]
    case DropJournal => b.Flushed? && b' == Finished && d' == d - {SqliteJournal}
    case Touch(file, mtime) =>
      && file in {RootBin, EncodingBin} && file in d
      && b' == b && d' == d[file := d[file].(mtime := mtime)]
  }

  // ---------- What the builder's steps keep ----------

  predicate PastParsing(b: BuilderPc) {
    !(b.Start? || b.EncodingWritten? || b.RootWritten?)
  }

  predicate BeforeTransaction(b: BuilderPc) {
    b.Start? || b.EncodingWritten? || b.RootWritten? || b.Parsed?
  }

  /** The table that belongs to the metadata files in d. */
  ghost function TableFor(config: Config, d: Dir): map<nat, (Bytes, Bytes)>
    requires MetadataParses(config, d)
  {
    BuiltRows(Blocks(config, d), EncodingPages(config, d))
  }

  ghost predicate BuilderInv(config: Config, b: BuilderPc, d: Dir) {
    && (!b.Start? ==> HasBytes(d, EncodingBin, config.formats.contentKey, config.encoding))
    && (b.RootWritten? ==> HasBytes(d, RootBin, config.formats.contentKey, config.root))
    && (PastParsing(b) ==> MetadataParses(config, d))
    && (b.Parsed? || b.Inserting? ==>
          b.contentKeys == RecordMap(ClientRecords(Blocks(config, d))) && b.encodingKeys == EntryMap(Entries(EncodingPages(config, d))))
    && (b.Inserting? ==>
          && b.todo <= b.contentKeys.Keys
          && b.pending == Tables(Some([]), Some(Joined(b.contentKeys - b.todo, b.encodingKeys))))
    && (b.Recorded? ==> b.pending.resolution == Some(TableFor(config, d)) && HasOneRow(b.pending))
    && (b.Flushed? || b.Finished? ==> ServesTable(config, d) && HasOneRow(d[ResolutionSqlite].content.tables))
    && (BeforeTransaction(b) ==> ResolutionSqlite !in d)
    && SqliteWal !in d
    && (SqliteJournal in d <==> b.Inserting? || b.Recorded? || b.Flushed?)
  }

  predicate HasOneRow(tables: Tables) {
    && tables.metadata.Some? && |tables.metadata.value| == 1
    && tables.metadata.value[0].schemaVersion == SCHEMA_VERSION
  }

  /** The committed table in d is the one its own metadata files call for. */
  ghost predicate ServesTable(config: Config, d: Dir) {
    && MetadataParses(config, d)
    && ResolutionSqlite in d && d[ResolutionSqlite].content.Database?
    && d[ResolutionSqlite].content.tables.resolution == Some(TableFor(config, d))
  }

  predicate OnMetadata(a: Action) {
    a.WriteEncoding? || a.WriteRoot? || a.ParseMetadata? || a.Touch?
  }

  lemma MetadataKept(config: Config, a: Action, b: BuilderPc, d: Dir, b': BuilderPc, d': Dir)
    requires BuilderInv(config, b, d) && Performs(config, a, b, d, b', d') && OnMetadata(a)
    ensures BuilderInv(config, b', d')
  {
  }

  lemma RowsKept(config: Config, a: Action, b: BuilderPc, d: Dir, b': BuilderPc, d': Dir)
    requires BuilderInv(config, b, d) && Performs(config, a, b, d, b', d') && (a.BeginTransaction? || a.InsertRow? || a.SpillPages?)
    ensures BuilderInv(config, b', d')
  {
    match a
    case BeginTransaction(_) => assert Joined(b.contentKeys - b.contentKeys.Keys, b.encodingKeys) == map[];
    case InsertRow(fdid) => JoinedStep(b.contentKeys, b.encodingKeys, b.todo, fdid);
    case _ =>
  }

  lemma CommitKept(config: Config, a: Action, b: BuilderPc, d: Dir, b': BuilderPc, d': Dir)
    requires BuilderInv(config, b, d) && Performs(config, a, b, d, b', d') && (a.RecordMtimes? || a.FlushPages? || a.DropJournal?)
    ensures BuilderInv(config, b', d')
  {
    if a.RecordMtimes? {
      assert b.contentKeys - {} == b.contentKeys;
    }
  }

  lemma BuilderInvKept(config: Config, a: Action, b: BuilderPc, d: Dir, b': BuilderPc, d': Dir)
    requires BuilderInv(config, b, d) && Performs(config, a, b, d, b', d')
    ensures BuilderInv(config, b', d')
  {
    if OnMetadata(a) {
      MetadataKept(config, a, b, d, b', d');
    } else if a.BeginTransaction? || a.InsertRow? || a.SpillPages? {
      RowsKept(config, a, b, d, b', d');
    } else {
      CommitKept(config, a, b, d, b', d');
    }
  }

  /** Wherever the builder is stopped before its end, what it leaves is not fresh. */
  lemma OnlyFinishedIsFresh(config: Config, b: BuilderPc, d: Dir)
    requires BuilderInv(config, b, d) && !b.Finished?
    ensures ResolutionSqlite in d ==> SqliteJournal in d
    ensures !Fresh(d)
  {
    FreshExactlyWhen(d);
  }

  /**
    A finished build fails the publisher's verification exactly when a metadata file's time, in
    whole seconds, is no longer the one recorded after the rows went in.
   */
  lemma VerificationRejectsLateTouches(config: Config, d: Dir)
    requires BuilderInv(config, Finished, d)
    ensures var row := d[ResolutionSqlite].content.tables.metadata.value[0];
            Fresh(d) <==> FileMtime(d, RootBin) == Ok(row.rootMtime) && FileMtime(d, EncodingBin) == Ok(row.encMtime)
  {
    var row := d[ResolutionSqlite].content.tables.metadata.value[0];
    assert row == Metadata(row.rootMtime, row.encMtime, SCHEMA_VERSION);
  }

  /** Publishing what such a directory holds answers every file id as its metadata files prescribe. */
  lemma ServedAnswers(config: Config, d: Dir, fdid: nat, ck: Key, ek: Key)
    requires ServesTable(config, d) && Fresh(d)
    ensures Open(d).Ok?
    ensures ResolveFdid(Open(d).value, fdid) == Some((ck, ek))
       <==> LastInBlocks(Blocks(config, d), fdid, ck) && LastInPages(EncodingPages(config, d), ck, ek)
  {
    FreshPassesOpen(d);
    JoinedResolves(Blocks(config, d), EncodingPages(config, d), fdid, ck, ek);
  }
}
