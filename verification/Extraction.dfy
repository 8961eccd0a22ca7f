/** Checked lookups: which asset file a call returns, and what it adds to the asset directories. */
module Extraction {
  import opened Octets
  import opened Wrappers
  import opened Identity
  import opened Paths

  type Key = seq<bv8>

  /** What decoding one file gave; chunks without a key are zero-filled and counted. */
  datatype Content = Content(data: Bytes, missingChunks: nat)

  datatype Config = Config(resolver: Resolver, cacheRoot: Path, extractedOnly: bool)

  datatype Init = Uninitialized | Initialized | FailedToInitialize

  /** The outcome of the first opening of a namespace, kept for the life of the process. */
  datatype Slot = NotOpened | Opened(init: Init)

  datatype Namespace = Namespace(cacheRoot: Path, identity: AssetIdentity)

  /** Ordinary asset files (never the writers' temporaries), and the process-wide CASC states. */
  datatype Store = Store(files: map<Path, Bytes>, states: map<Namespace, Slot>)

  /** The outside world during one call; the installation does not change while it runs. */
  datatype Around = Around(
    builds: map<string, string>,
    selectedProduct: string,
    opens: bool,
    initializes: bool,
    archive: Key -> Option<Content>,
    writes: bool)

  /** The published resolution tables, and the whole plaintext behind an encoding key. */
  datatype Truth = Truth(tables: AssetIdentity -> map<nat, Key>, plain: Key -> Bytes)

  datatype Error =
    | PathRefused(reason: PathError)
    | MissingExtracted(fdid: nat, path: Path)
    | NoActiveBuild(product: string)
    | BadBuild(problem: IdentityError)
    | NotPublished(path: Path)
    | Forbidden
    | OpenFailed
    | InitFailed
    | Absent(fdid: nat)
    | Unreadable(fdid: nat)
    | Undecodable(fdid: nat)
    | WriteFailed(path: Path)

  function Product(cfg: Config, selected: string): string {
    if cfg.resolver.identity.Some? then cfg.resolver.identity.value.product else selected
  }

  /** The identity of the build that an installation has active for the configured product. */
  function ActiveIn(cfg: Config, builds: map<string, string>, selected: string): Result<AssetIdentity, Error> {
    var product := Product(cfg, selected);
    if product !in builds then Err(NoActiveBuild(product))
    else
      match New(product, builds[product])
      case Err(problem) => Err(BadBuild(problem))
      case Ok(id) => Ok(id)
  }

  function Active(cfg: Config, around: Around): Result<AssetIdentity, Error> {
    ActiveIn(cfg, around.builds, around.selectedProduct)
  }

  function ReadCurrentAssetPath(cfg: Config, published: Path, current: Result<AssetIdentity, Error>): Result<Path, Error> {
    if cfg.resolver.identity.None? then Ok(published)
    else if current.Err? then Err(current.error)
    else
      var root := AssetRoot(cfg.resolver.shared, cfg.resolver.identity.value);
      match StripPrefix(published, root)
      case None => Err(NotPublished(published))
      case Some(relative) => Ok(AssetPath(cfg.resolver.shared, current.value, relative))
  }

  /** One entry per cache root and identity, made by the first caller whether it opens or fails. */
  function GetCasc(cfg: Config, states: map<Namespace, Slot>, around: Around): (Result<AssetIdentity, Error>, map<Namespace, Slot>) {
    if cfg.extractedOnly then (Err(Forbidden), states)
    else
      var active := Active(cfg, around);
      if active.Err? then (Err(active.error), states)
      else
        var ns := Namespace(cfg.cacheRoot, active.value);
        var slot := if ns in states then states[ns] else if around.opens then Opened(Uninitialized) else NotOpened;
        (if slot.NotOpened? then Err(OpenFailed) else Ok(active.value), states[ns := slot])
  }

  function InitAfter(init: Init, around: Around): Init {
    if init.Uninitialized? then (if around.initializes then Initialized else FailedToInitialize) else init
  }

  function ReadFdidBytes(truth: Truth, id: AssetIdentity, fdid: nat, around: Around): Result<Content, Error> {
    if fdid !in truth.tables(id) then Err(Absent(fdid))
    else
      match around.archive(truth.tables(id)[fdid])
      case None => Err(Unreadable(fdid))
      case Some(content) => Ok(content)
  }

  /** extract_fdid_to_path_with_paths */
  function Extracted(truth: Truth, s: Store, cfg: Config, fdid: nat, out: Path, around: Around): (Result<Path, Error>, Store) {
    var (casc, states) := GetCasc(cfg, s.states, around);
    if casc.Err? then (Err(casc.error), s.(states := states))
    else
      var ns := Namespace(cfg.cacheRoot, casc.value);
      var init := InitAfter(states[ns].init, around);
      var s' := s.(states := states[ns := Opened(init)]);
      if init.FailedToInitialize? then (Err(InitFailed), s')
      else
        match ReadFdidBytes(truth, casc.value, fdid, around)
        case Err(error) => (Err(error), s')
        case Ok(content) =>
          if cfg.resolver.identity.Some? && content.missingChunks > 0 then (Err(Undecodable(fdid)), s')
          else if !around.writes then (Err(WriteFailed(out)), s')
          else (Ok(out), s'.(files := s'.files[out := content.data]))
  }

  /** ensure_file_cached_checked_with_paths */
  function Ensured(truth: Truth, s: Store, cfg: Config, fdid: nat, out: Path, around: Around): (Result<Path, Error>, Store) {
    match ScopedCachePath(cfg.resolver, out)
    case Err(reason) => (Err(PathRefused(reason)), s)
    case Ok(published) =>
      if published in s.files then (Ok(published), s)
      else if cfg.extractedOnly then (Err(MissingExtracted(fdid, published)), s)
      else
        match ReadCurrentAssetPath(cfg, published, Active(cfg, around))
        case Err(error) => (Err(error), s)
        case Ok(current) =>
          if current in s.files then (Ok(current), s) else Extracted(truth, s, cfg, fdid, current, around)
  }

  // ----- the process, whose state these functions specify

  class Process {
    ghost const truth: Truth
    const tables: AssetIdentity -> map<nat, Key>
    var files: map<Path, Bytes>
    var states: map<Namespace, Slot>

    constructor (ghost truth: Truth, tables: AssetIdentity -> map<nat, Key>, files: map<Path, Bytes>)
      requires tables == truth.tables
      ensures this.truth == truth && this.tables == tables && Contents() == Store(files, map[])
    {
      this.truth, this.tables, this.files, states := truth, tables, files, map[];
    }

    function Contents(): Store
      reads this
    {
      Store(files, states)
    }

    method OpenCasc(cfg: Config, around: Around) returns (r: Result<AssetIdentity, Error>)
      modifies this`states
      ensures (r, states) == GetCasc(cfg, old(states), around)
      ensures r.Ok? ==> Namespace(cfg.cacheRoot, r.value) in states && states[Namespace(cfg.cacheRoot, r.value)].Opened?
    {
      if cfg.extractedOnly {
        return Err(Forbidden);
      }
      var active := Active(cfg, around);
      if active.Err? {
        return Err(active.error);
      }
      var ns := Namespace(cfg.cacheRoot, active.value);
      if ns !in states {
        states := states[ns := if around.opens then Opened(Uninitialized) else NotOpened];
      } else {
        assert states == states[ns := states[ns]];
      }
      if states[ns].NotOpened? {
        return Err(OpenFailed);
      }
      return Ok(active.value);
    }

    method EnsureInitialized(ns: Namespace, around: Around) returns (ok: bool)
      requires ns in states && states[ns].Opened?
      modifies this`states
      ensures states == old(states)[ns := Opened(InitAfter(old(states)[ns].init, around))]
      ensures ok <==> !InitAfter(old(states)[ns].init, around).FailedToInitialize?
    {
      match states[ns].init {
        case Initialized => assert states == states[ns := states[ns]]; return true;
        case FailedToInitialize => assert states == states[ns := states[ns]]; return false;
        case Uninitialized =>
      }
      ok := around.initializes;
      states := states[ns := Opened(if ok then Initialized else FailedToInitialize)];
    }

    method Extract(cfg: Config, fdid: nat, out: Path, around: Around) returns (r: Result<Path, Error>)
      requires tables == truth.tables
      modifies this
      ensures (r, Contents()) == Extracted(truth, old(Contents()), cfg, fdid, out, around)
    {
      var casc := OpenCasc(cfg, around);
      if casc.Err? {
        return Err(casc.error);
      }
      var initialized := EnsureInitialized(Namespace(cfg.cacheRoot, casc.value), around);
      if !initialized {
        return Err(InitFailed);
      }
      var table := tables(casc.value);
      if fdid !in table {
        return Err(Absent(fdid));
      }
      var content := around.archive(table[fdid]);
      if content.None? {
        return Err(Unreadable(fdid));
      }
      if cfg.resolver.identity.Some? && content.value.missingChunks > 0 {
        return Err(Undecodable(fdid));
      }
      if !around.writes {
        return Err(WriteFailed(out));
      }
      files := files[out := content.value.data];
      return Ok(out);
    }

    method EnsureFileCachedChecked(cfg: Config, fdid: nat, out: Path, around: Around) returns (r: Result<Path, Error>)
      requires tables == truth.tables
      modifies this
      ensures (r, Contents()) == Ensured(truth, old(Contents()), cfg, fdid, out, around)
    {
      var scoped := ScopedCachePath(cfg.resolver, out);
      if scoped.Err? {
        return Err(PathRefused(scoped.error));
      }
      if scoped.value in files {
        return Ok(scoped.value);
      }
      if cfg.extractedOnly {
        return Err(MissingExtracted(fdid, scoped.value));
      }
      var current := ReadCurrentAssetPath(cfg, scoped.value, Active(cfg, around));
      if current.Err? {
        return Err(current.error);
      }
      if current.value in files {
        return Ok(current.value);
      }
      r := Extract(cfg, fdid, current.value, around);
    }
  }
}
