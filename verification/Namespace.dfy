/**
  A CASC namespace directory: the files a publisher leaves behind, the freshness
  inspection every process performs on them, and the read-only resolution cache.
 */
module Namespace {
  import opened Octets
  import opened Wrappers

  /** Resolution cache layout: only client-locale root records are resolved. */
  const SCHEMA_VERSION := 2
  const NANOS_PER_SECOND := 1_000_000_000

  datatype FileName =
    | RootBin
    | EncodingBin
    | ResolutionSqlite
    | SqliteJournal
    | SqliteWal
    | Other(name: string)

  datatype Metadata = Metadata(rootMtime: int, encMtime: int, schemaVersion: int)

  /** The committed tables of resolution.sqlite; None stands for a table that was never created. */
  datatype Tables = Tables(metadata: Option<seq<Metadata>>, resolution: Option<map<nat, (Bytes, Bytes)>>)

  const NO_TABLES := Tables(None, None)

  datatype Content =
    | Plain(bytes: Bytes)
    | Database(tables: Tables)
    | Subdirectory

  /** A file with its modification time in nanoseconds since the Unix epoch. */
  datatype Node = Node(content: Content, mtime: int)

  type Dir = map<FileName, Node>

  datatype Error =
    | MissingFile
    | MtimeBeforeEpoch
    | CannotOpen
    | Stale
    | NoResolutionTable
    | IoError
    | IncompleteNamespace
    | StagingExists
    | BuilderFailed

  /** Whole seconds, as the build records them; a missing file or a pre-epoch time is an error. */
  function FileMtime(d: Dir, name: FileName): Result<int, Error> {
    if name !in d then Err(MissingFile)
    else if d[name].mtime < 0 then Err(MtimeBeforeEpoch)
    else Ok(d[name].mtime / NANOS_PER_SECOND)
  }

  /** Compares the first metadata row; a missing table, an empty table and a corrupt file are stale, not errors. */
  function CacheIsFresh(content: Content, rootMtime: int, encMtime: int): Result<bool, Error> {
    match content
    case Subdirectory => Err(CannotOpen)
    case Plain(_) => Ok(false)
    case Database(tables) =>
      if tables.metadata.None? || tables.metadata.value == [] then Ok(false)
      else Ok(tables.metadata.value[0] == Metadata(rootMtime, encMtime, SCHEMA_VERSION))
  }

  function ResolutionCacheIsFresh(d: Dir): Result<bool, Error> {
    if ResolutionSqlite !in d then Ok(false)
    else if SqliteJournal in d || SqliteWal in d then Ok(false)
    else if FileMtime(d, RootBin).Err? || FileMtime(d, EncodingBin).Err? then Ok(false)
    else CacheIsFresh(d[ResolutionSqlite].content, FileMtime(d, RootBin).value, FileMtime(d, EncodingBin).value)
  }

  predicate Fresh(d: Dir) {
    ResolutionCacheIsFresh(d) == Ok(true)
  }

  /** Opening for reading repeats the mtime comparison but, unlike the inspection, ignores sidecars. */
  function Open(d: Dir): Result<map<nat, (Bytes, Bytes)>, Error> {
    if ResolutionSqlite !in d then Err(MissingFile)
    else if FileMtime(d, RootBin).Err? then Err(FileMtime(d, RootBin).error)
    else if FileMtime(d, EncodingBin).Err? then Err(FileMtime(d, EncodingBin).error)
    else
      var content := d[ResolutionSqlite].content;
      match CacheIsFresh(content, FileMtime(d, RootBin).value, FileMtime(d, EncodingBin).value)
      case Err(error) => Err(error)
      case Ok(false) => Err(Stale)
      case Ok(true) =>
        if content.tables.resolution.None? then Err(NoResolutionTable)
        else Ok(content.tables.resolution.value)
  }

  /** Both columns must hold exactly sixteen bytes. */
  function ResolveFdid(rows: map<nat, (Bytes, Bytes)>, fdid: nat): Option<(Bytes, Bytes)> {
    if fdid in rows && |rows[fdid].0| == 16 && |rows[fdid].1| == 16 then Some(rows[fdid]) else None
  }

  /** d' is what deleting some of the files of d leaves. */
  ghost predicate Remnant(d': Dir, d: Dir) {
    d'.Keys <= d.Keys && forall n <- d' :: d'[n] == d[n]
  }

  function WithoutSidecars(d: Dir): Dir {
    d - {SqliteJournal, SqliteWal}
  }

  /** Freshness is not monotone under deletion: it can appear only by losing a sidecar, and then it does. */
  lemma DeletionCanExposeFreshnessExactlyWhen(d: Dir)
    ensures (exists d' :: Remnant(d', d) && Fresh(d')) <==> Fresh(WithoutSidecars(d))
  {
    if Fresh(WithoutSidecars(d)) {
      assert Remnant(WithoutSidecars(d), d);
    }
    forall d' | Remnant(d', d) && Fresh(d')
      ensures Fresh(WithoutSidecars(d))
    {
      var w := WithoutSidecars(d);
      assert forall n :: n in {ResolutionSqlite, RootBin, EncodingBin} ==> n in d' && n in w && d'[n] == w[n];
    }
  }

  /** What the locked inspection accepts, a later lock-free reader accepts. */
  lemma FreshPassesOpen(d: Dir)
    requires Fresh(d)
    ensures d[ResolutionSqlite].content.Database?
    ensures Open(d) == match d[ResolutionSqlite].content.tables.resolution
                       case None => Err(NoResolutionTable)
                       case Some(rows) => Ok(rows)
  {}

  // ---------- The two tests in terms of the files ----------

  /** The file's modification time, in nanoseconds, falls into that second after the epoch. */
  predicate ModifiedIn(d: Dir, name: FileName, second: int) {
    && name in d && 0 <= second
    && second * 1_000_000_000 <= d[name].mtime < (second + 1) * 1_000_000_000
  }

  /** The database's first metadata row has layout 2 and the seconds of both metadata files. */
  predicate Stamped(d: Dir) {
    && ResolutionSqlite in d && d[ResolutionSqlite].content.Database?
    && var metadata := d[ResolutionSqlite].content.tables.metadata;
       && metadata.Some? && |metadata.value| > 0
       && metadata.value[0].schemaVersion == 2
       && ModifiedIn(d, RootBin, metadata.value[0].rootMtime)
       && ModifiedIn(d, EncodingBin, metadata.value[0].encMtime)
  }

  lemma MtimeIsTheSecond(d: Dir, name: FileName, second: int)
    ensures FileMtime(d, name) == Ok(second) <==> ModifiedIn(d, name, second)
  {
  }

  lemma StampIsBothSeconds(d: Dir)
    ensures Stamped(d) <==>
            && ResolutionSqlite in d && FileMtime(d, RootBin).Ok? && FileMtime(d, EncodingBin).Ok?
            && CacheIsFresh(d[ResolutionSqlite].content, FileMtime(d, RootBin).value, FileMtime(d, EncodingBin).value) == Ok(true)
  {
    if ResolutionSqlite in d && d[ResolutionSqlite].content.Database? {
      var metadata := d[ResolutionSqlite].content.tables.metadata;
      if metadata.Some? && |metadata.value| > 0 {
        MtimeIsTheSecond(d, RootBin, metadata.value[0].rootMtime);
        MtimeIsTheSecond(d, EncodingBin, metadata.value[0].encMtime);
      }
    }
  }

  /** The inspection accepts exactly a stamped database without a journal and without a WAL beside it. */
  lemma FreshExactlyWhen(d: Dir)
    ensures Fresh(d) <==> Stamped(d) && SqliteJournal !in d && SqliteWal !in d
  {
    StampIsBothSeconds(d);
  }

  /** It fails exactly on something that is no file, where nothing before it says not fresh. */
  lemma InspectionFailsExactlyWhen(d: Dir)
    ensures ResolutionCacheIsFresh(d).Err? <==>
            && ResolutionSqlite in d && d[ResolutionSqlite].content.Subdirectory?
            && SqliteJournal !in d && SqliteWal !in d
            && RootBin in d && d[RootBin].mtime >= 0 && EncodingBin in d && d[EncodingBin].mtime >= 0
  {
  }

  /** Opening serves exactly the resolution table of a stamped database, sidecars or not. */
  lemma OpenServesExactlyWhen(d: Dir, rows: map<nat, (Bytes, Bytes)>)
    ensures Open(d) == Ok(rows) <==> Stamped(d) && d[ResolutionSqlite].content.tables.resolution == Some(rows)
  {
    StampIsBothSeconds(d);
  }

  /** A lookup answers exactly with the id's row where both its columns have sixteen bytes. */
  lemma ResolvesExactlyWhen(rows: map<nat, (Bytes, Bytes)>, fdid: nat, ck: Bytes, ek: Bytes)
    ensures ResolveFdid(rows, fdid) == Some((ck, ek)) <==> fdid in rows && rows[fdid] == (ck, ek) && |ck| == 16 && |ek| == 16
  {
  }
}
