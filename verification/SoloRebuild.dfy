/** Progress of a publisher running alone with the real builder, one builder step at a time. */
module SoloRebuild {
  import opened Octets
  import opened Wrappers
  import opened Namespace
  import opened ResolutionBuild
  import opened Rebuild
  import opened Publication
  import opened SoloPublication

  /** The metadata files the archive serves: they have the build config's keys, parse, and encoding lists root. */
  datatype Files = Files(root: Bytes, encoding: Bytes)

  ghost predicate Serves(config: Config, files: Files) {
    && config.formats.contentKey(files.root) == config.root && config.formats.parseRoot(files.root).Some?
    && config.formats.contentKey(files.encoding) == config.encoding && config.formats.parseEncoding(files.encoding).Some?
    && exists p, e :: EntryAt(config.formats.parseEncoding(files.encoding).value, p, e, config.root)
  }

  ghost function Rows(config: Config, files: Files): map<nat, Key>
    requires Serves(config, files)
  {
    RecordMap(ClientRecords(config.formats.parseRoot(files.root).value))
  }

  // ---------- The builder alone ----------

  /** A builder step in which nothing fails, nobody touches the files and no page spills. */
  predicate Forward(files: Files, a: Action) {
    match a
    case WriteEncoding(bytes, mtime) => bytes == files.encoding && mtime >= 0
    case WriteRoot(bytes, mtime) => bytes == files.root && mtime >= 0
    case SpillPages(_) => false
    case Touch(_, _) => false
    case _ => true
  }

  ghost predicate Holds(d: Dir, file: FileName, bytes: Bytes) {
    file in d && d[file].content == Plain(bytes) && FileMtime(d, file).Ok?
  }

  /** The files are the served ones, and the recorded times are still theirs. */
  ghost predicate SoloInv(config: Config, files: Files, b: BuilderPc, d: Dir) {
    && BuilderInv(config, b, d)
    && (b.EncodingWritten? ==> b.encoding == files.encoding)
    && (!b.Start? ==> Holds(d, EncodingBin, files.encoding))
    && (b.RootWritten? || PastParsing(b) ==> Holds(d, RootBin, files.root))
    && (b.Inserting? || b.Recorded? || b.Flushed? ==> ResolutionSqlite in d)
    && (b.Recorded? ==> TimesRecorded(b.pending, d))
    && (b.Flushed? || b.Finished? ==> TimesRecorded(d[ResolutionSqlite].content.tables, d))
  }

  predicate TimesRecorded(tables: Tables, d: Dir) {
    && tables.metadata.Some? && |tables.metadata.value| > 0
    && FileMtime(d, RootBin) == Ok(tables.metadata.value[0].rootMtime)
    && FileMtime(d, EncodingBin) == Ok(tables.metadata.value[0].encMtime)
  }

  function BuilderRank(b: BuilderPc, rows: nat): nat {
    match b
    case Start => rows + 7
    case EncodingWritten(_) => rows + 6
    case RootWritten => rows + 5
    case Parsed(_, _) => rows + 4
    case Inserting(_, _, todo, _) => |todo| + 3
    case Recorded(_) => 2
    case Flushed => 1
    case Finished => 0
  }

  lemma MetadataForward(config: Config, files: Files, a: Action, b: BuilderPc, d: Dir, b': BuilderPc, d': Dir)
    requires Serves(config, files) && SoloInv(config, files, b, d) && OnMetadata(a) && BuilderInv(config, b', d')
    requires Forward(files, a) && Performs(config, a, b, d, b', d')
    ensures SoloInv(config, files, b', d')
    ensures BuilderRank(b', |Rows(config, files)|) < BuilderRank(b, |Rows(config, files)|)
  {
  }

  lemma TransactionForward(config: Config, files: Files, a: Action, b: BuilderPc, d: Dir, b': BuilderPc, d': Dir)
    requires Serves(config, files) && SoloInv(config, files, b, d) && !OnMetadata(a) && BuilderInv(config, b', d')
    requires Forward(files, a) && Performs(config, a, b, d, b', d')
    ensures SoloInv(config, files, b', d')
  {
  }

  lemma BeginLowersRank(config: Config, files: Files, b: BuilderPc, d: Dir)
    requires Serves(config, files) && SoloInv(config, files, b, d) && b.Parsed?
    ensures |b.contentKeys.Keys| == |Rows(config, files)|
  {
    assert b.contentKeys == Rows(config, files);
    assert |b.contentKeys.Keys| == |b.contentKeys|;
  }

  lemma TransactionLowersRank(config: Config, files: Files, a: Action, b: BuilderPc, d: Dir, b': BuilderPc, d': Dir, rows: nat)
    requires !OnMetadata(a) && Forward(files, a) && Performs(config, a, b, d, b', d')
    requires b.Parsed? ==> |b.contentKeys.Keys| == rows
    ensures BuilderRank(b', rows) < BuilderRank(b, rows)
  {
  }

  lemma ForwardLowersRank(config: Config, files: Files, a: Action, b: BuilderPc, d: Dir, b': BuilderPc, d': Dir)
    requires Serves(config, files) && SoloInv(config, files, b, d)
    requires Forward(files, a) && Performs(config, a, b, d, b', d')
    ensures SoloInv(config, files, b', d')
    ensures BuilderRank(b', |Rows(config, files)|) < BuilderRank(b, |Rows(config, files)|)
  {
    BuilderInvKept(config, a, b, d, b', d');
    if OnMetadata(a) {
      MetadataForward(config, files, a, b, d, b', d');
    } else {
      TransactionForward(config, files, a, b, d, b', d');
      if b.Parsed? {
        BeginLowersRank(config, files, b, d);
      }
      TransactionLowersRank(config, files, a, b, d, b', d', |Rows(config, files)|);
    }
  }

  lemma SpillKeepsSolo(config: Config, files: Files, tables: Tables, b: BuilderPc, d: Dir, b': BuilderPc, d': Dir)
    requires Serves(config, files) && SoloInv(config, files, b, d) && Performs(config, SpillPages(tables), b, d, b', d')
    ensures SoloInv(config, files, b', d') && b' == b
  {
    BuilderInvKept(config, SpillPages(tables), b, d, b', d');
  }

  lemma ForwardExists(config: Config, files: Files, b: BuilderPc, d: Dir) returns (a: Action, b': BuilderPc, d': Dir)
    requires Serves(config, files) && SoloInv(config, files, b, d) && !b.Finished?
    ensures Forward(files, a) && Performs(config, a, b, d, b', d')
  {
    match b
    case Start =>
      a, b', d' := WriteEncoding(files.encoding, 0), EncodingWritten(files.encoding),
        d[EncodingBin := Node(Plain(files.encoding), 0)];
    case EncodingWritten(_) =>
      a, b', d' := WriteRoot(files.root, 0), RootWritten, d[RootBin := Node(Plain(files.root), 0)];
    case RootWritten =>
      a, b', d' := ParseMetadata, Parsed(RecordMap(ClientRecords(Blocks(config, d))), EntryMap(Entries(EncodingPages(config, d)))), d;
    case Parsed(contentKeys, encodingKeys) =>
      a, b' := BeginTransaction(0), Inserting(contentKeys, encodingKeys, contentKeys.Keys, Tables(Some([]), Some(map[])));
      d' := (if ResolutionSqlite in d then d else d[ResolutionSqlite := Node(Database(NO_TABLES), 0)])
            [SqliteJournal := Node(Plain([]), 0)];
    case Inserting(contentKeys, encodingKeys, todo, pending) =>
      d' := d;
      if todo == {} {
        a := RecordMtimes;
        b' := Recorded(pending.(metadata := Some(
          [Metadata(FileMtime(d, RootBin).value, FileMtime(d, EncodingBin).value, SCHEMA_VERSION)])));
      } else {
        var fdid :| fdid in todo;
        var rows, key := pending.resolution.value, contentKeys[fdid];
        a := InsertRow(fdid);
        b' := b.(todo := todo - {fdid}, pending := pending.(resolution := Some(
          if key in encodingKeys then rows[fdid := (key, encodingKeys[key])] else rows)));
      }
    case Recorded(pending) =>
      a, b' := FlushPages, Flushed;
      d' := d[ResolutionSqlite := d[ResolutionSqlite].(content := Database(pending))];
    case Flushed => a, b', d' := DropJournal, Finished, d - {SqliteJournal};
  }

  lemma FinishedIsFresh(config: Config, files: Files, d: Dir)
    requires Serves(config, files) && SoloInv(config, files, Finished, d)
    ensures Fresh(d)
  {
    VerificationRejectsLateTouches(config, d);
  }

  // ---------- The publisher around it ----------

  /** The real builder left in peace, but for pages that SQLite spills into the database file. */
  ghost function RealWork(config: Config, files: Files): Work
    requires Serves(config, files)
  {
    Work((b, d) => SoloInv(config, files, b, d),
         (b, d, b', d') => exists a :: Forward(files, a) && Performs(config, a, b, d, b', d'),
         (b, d, b', d') => exists tables :: Performs(config, SpillPages(tables), b, d, b', d'),
         b => BuilderRank(b, |Rows(config, files)|))
  }

  lemma StartIsSolo(config: Config, files: Files)
    ensures SoloInv(config, files, Start, map[])
  {
  }

  lemma ForwardGoesOn(config: Config, files: Files, b: BuilderPc, d: Dir, b': BuilderPc, d': Dir)
    requires Serves(config, files)
    ensures var work := RealWork(config, files);
            work.inv(b, d) && work.forward(b, d, b', d') ==> work.inv(b', d') && work.rank(b') < work.rank(b)
  {
    forall a | SoloInv(config, files, b, d) && Forward(files, a) && Performs(config, a, b, d, b', d')
      ensures SoloInv(config, files, b', d') && BuilderRank(b', |Rows(config, files)|) < BuilderRank(b, |Rows(config, files)|)
    {
      ForwardLowersRank(config, files, a, b, d, b', d');
    }
  }

  lemma SpillsOnlyWait(config: Config, files: Files, b: BuilderPc, d: Dir, b': BuilderPc, d': Dir)
    requires Serves(config, files)
    ensures var work := RealWork(config, files);
            work.inv(b, d) && work.waits(b, d, b', d') ==> work.inv(b', d') && work.rank(b') <= work.rank(b)
  {
    forall tables | SoloInv(config, files, b, d) && Performs(config, SpillPages(tables), b, d, b', d')
      ensures SoloInv(config, files, b', d') && b' == b
    {
      SpillKeepsSolo(config, files, tables, b, d, b', d');
    }
  }

  lemma ForwardIsPossible(config: Config, files: Files, b: BuilderPc, d: Dir)
    requires Serves(config, files) && SoloInv(config, files, b, d) && !b.Finished?
    ensures exists b', d' :: RealWork(config, files).forward(b, d, b', d')
  {
    var a, b', d' := ForwardExists(config, files, b, d);
    assert RealWork(config, files).forward(b, d, b', d');
  }

  lemma RebuildGetsThrough(config: Config, files: Files)
    requires Serves(config, files)
    ensures GetsThrough(RealWork(config, files))
  {
    var work := RealWork(config, files);
    StartIsSolo(config, files);
    forall b, d, b', d'
      ensures work.inv(b, d) && work.forward(b, d, b', d') ==> work.inv(b', d') && work.rank(b') < work.rank(b)
    {
      ForwardGoesOn(config, files, b, d, b', d');
    }
    forall b, d, b', d'
      ensures work.inv(b, d) && work.waits(b, d, b', d') ==> work.inv(b', d') && work.rank(b') <= work.rank(b)
    {
      SpillsOnlyWait(config, files, b, d, b', d');
    }
    forall b, d | work.inv(b, d) && !b.Finished?
      ensures exists b', d' :: work.forward(b, d, b', d')
    {
      ForwardIsPossible(config, files, b, d);
    }
    forall d | work.inv(Finished, d)
      ensures Fresh(d)
    {
      FinishedIsFresh(config, files, d);
    }
  }

  /**
    A lone caller whose builder takes its files, its transaction, each row and its commit as
    separate steps makes at most rows + 16 + the files of an old target steps besides page
    spills. Where no such step is left it was told Ok and the target is fresh, or what it found
    could not be inspected: then it was told that error and the target is as it found it.
   */
  lemma RealPublisherFinishes(config: Config, files: Files, legacy: Option<Dir>, s: State, pid: nat,
                              name: string, states: seq<State>, steps: seq<Step>)
    requires Serves(config, files) && Reachable(legacy, s) && s.lock.None? && Idle(s, pid) && name !in s.staging
    requires SoloRun(RealWork(config, files), states, steps, pid, name) && states[0] == At(s, pid, Waiting)
    ensures Progress(RealWork(config, files), states, steps, pid, name) <= |Rows(config, files)| + 16 + TargetSize(s)
    ensures (forall step, s' :: Next(states[|steps|], step, s') ==>
               !Healthy(RealWork(config, files), states[|steps|], step, pid, name)) ==>
              Served(s.target, states[|steps|], pid)
  {
    RebuildGetsThrough(config, files);
    SoloPublisherFinishes(RealWork(config, files), legacy, s, pid, name, states, steps);
  }
}
