/** Where every added file comes from, over whole runs in which the installed build may change. */
module ExtractionTheorems {
  import opened Octets
  import opened Wrappers
  import opened HexText
  import opened Identity
  import opened Paths
  import opened Extraction

  /** One checked lookup and the world it met. */
  datatype Call = Call(cfg: Config, fdid: nat, out: Path, around: Around)

  function Outcome(truth: Truth, s: Store, call: Call): (Result<Path, Error>, Store) {
    Ensured(truth, s, call.cfg, call.fdid, call.out, call.around)
  }

  /** Calls one after the other; patches happen between them. */
  function Run(truth: Truth, start: Store, calls: seq<Call>): Store {
    if calls == [] then start else Outcome(truth, Run(truth, start, calls[..|calls| - 1]), calls[|calls| - 1]).1
  }

  /** Archives are content-addressed: a decoding with nothing missing is the plaintext. */
  ghost predicate Faithful(truth: Truth, call: Call) {
    forall key :: call.around.archive(key).Some? && call.around.archive(key).value.missingChunks == 0 ==>
      call.around.archive(key).value.data == truth.plain(key)
  }

  ghost predicate Honest(truth: Truth, call: Call) {
    call.cfg.resolver.identity.Some? && Faithful(truth, call)
  }

  /** The call asks for this file in the namespace of the build active while it runs, and adds its plaintext. */
  ghost predicate Provides(truth: Truth, call: Call, path: Path, data: Bytes) {
    && call.cfg.resolver.identity.Some?
    && ScopedCachePath(call.cfg.resolver, call.out).Ok?
    && Active(call.cfg, call.around).Ok?
    && var build := Active(call.cfg, call.around).value;
       && build.product == call.cfg.resolver.identity.value.product
       && path == call.cfg.resolver.shared + Qualifier(build) + Inside(call.cfg.resolver, call.out)
       && call.fdid in truth.tables(build)
       && data == truth.plain(truth.tables(build)[call.fdid])
  }

  /** read_current_asset_path never meets a path outside the namespace it strips. */
  lemma CurrentPathIs(cfg: Config, out: Path, current: Result<AssetIdentity, Error>)
    requires cfg.resolver.identity.Some? && ScopedCachePath(cfg.resolver, out).Ok?
    ensures var published := ScopedCachePath(cfg.resolver, out).value;
            ReadCurrentAssetPath(cfg, published, current) ==
            match current
            case Err(error) => Err(error)
            case Ok(build) => Ok(cfg.resolver.shared + Qualifier(build) + Inside(cfg.resolver, out))
  {
    AcceptedIsInside(cfg.resolver, out);
    if current.Ok? {
      AssetPathIs(cfg.resolver.shared, current.value, Inside(cfg.resolver, out));
    }
  }

  lemma StrippingCannotFail(truth: Truth, s: Store, call: Call)
    requires call.cfg.resolver.identity.Some?
    ensures var r := Outcome(truth, s, call).0; r.Err? ==> !r.error.NotPublished?
  {
    if ScopedCachePath(call.cfg.resolver, call.out).Ok? {
      CurrentPathIs(call.cfg, call.out, Active(call.cfg, call.around));
    }
  }

  /** What one extraction may do to the files. */
  lemma ExtractionAdds(truth: Truth, s: Store, cfg: Config, fdid: nat, out: Path, around: Around)
    requires cfg.resolver.identity.Some? && Active(cfg, around).Ok?
    requires forall key :: around.archive(key).Some? && around.archive(key).value.missingChunks == 0 ==>
                             around.archive(key).value.data == truth.plain(key)
    ensures var (r, s') := Extracted(truth, s, cfg, fdid, out, around);
            var build := Active(cfg, around).value;
            && (r.Err? ==> s'.files == s.files)
            && (r.Ok? ==> && r.value == out
                          && fdid in truth.tables(build)
                          && s'.files == s.files[out := truth.plain(truth.tables(build)[fdid])])
  {
  }

  lemma CallAdds(truth: Truth, s: Store, call: Call)
    requires Honest(truth, call)
    ensures var (r, s') := Outcome(truth, s, call);
            || s'.files == s.files
            || (r.Ok? && r.value !in s.files && r.value in s'.files
                && Provides(truth, call, r.value, s'.files[r.value])
                && s'.files == s.files[r.value := s'.files[r.value]])
  {
    if ScopedCachePath(call.cfg.resolver, call.out).Ok? {
      CurrentPathIs(call.cfg, call.out, Active(call.cfg, call.around));
      if Active(call.cfg, call.around).Ok? {
        var build := Active(call.cfg, call.around).value;
        var current := call.cfg.resolver.shared + Qualifier(build) + Inside(call.cfg.resolver, call.out);
        ExtractionAdds(truth, s, call.cfg, call.fdid, current, call.around);
      }
    }
  }

  ghost predicate ComesFrom(truth: Truth, calls: seq<Call>, k: int, path: Path, data: Bytes) {
    0 <= k < |calls| && Provides(truth, calls[k], path, data)
  }

  ghost predicate HasProvenance(truth: Truth, calls: seq<Call>, path: Path, data: Bytes) {
    exists k :: ComesFrom(truth, calls, k, path, data)
  }

  /**
   * However the build is patched between calls: files that were there are untouched, and every
   * added file is the complete plaintext of the id some call asked for, read through the tables
   * of the build active during that call, inside that build's own namespace.
   */
  lemma {:induction false} Provenance(truth: Truth, start: Store, calls: seq<Call>)
    requires forall k :: 0 <= k < |calls| ==> Honest(truth, calls[k])
    ensures var files := Run(truth, start, calls).files;
            && (forall p :: p in start.files ==> p in files && files[p] == start.files[p])
            && (forall p :: p in files && p !in start.files ==> HasProvenance(truth, calls, p, files[p]))
  {
    if calls != [] {
      var n := |calls| - 1;
      var before, call := calls[..n], calls[n];
      Provenance(truth, start, before);
      var s := Run(truth, start, before);
      CallAdds(truth, s, call);
      var files := Run(truth, start, calls).files;
      forall p | p in files && p !in start.files
        ensures HasProvenance(truth, calls, p, files[p])
      {
        if p in s.files {
          var k :| ComesFrom(truth, before, k, p, s.files[p]);
          assert ComesFrom(truth, calls, k, p, files[p]);
        } else {
          assert ComesFrom(truth, calls, n, p, files[p]);
        }
      }
    }
  }

  lemma OneOwner(shared: Path, a: AssetIdentity, b: AssetIdentity, path: Path)
    requires shared + Qualifier(a) <= path && shared + Qualifier(b) <= path
    ensures a == b
  {
    QualifiersDiffer(a, b);
    var owner := path[|shared|..|shared| + 3];
    assert owner == Qualifier(a);
    assert owner == Qualifier(b);
  }

  lemma ProvidedByTheOwner(truth: Truth, call: Call, id: AssetIdentity, path: Path, data: Bytes)
    requires call.cfg.resolver.shared + Qualifier(id) <= path
    ensures Provides(truth, call, path, data) ==> Active(call.cfg, call.around) == Ok(id)
  {
    if Provides(truth, call, path, data) {
      OneOwner(call.cfg.resolver.shared, Active(call.cfg, call.around).value, id, path);
    }
  }

  /** No call ever adds a file to the namespace of a build that is not active. */
  lemma OnlyActiveBuildsGrow(truth: Truth, start: Store, calls: seq<Call>, shared: Path, id: AssetIdentity, path: Path)
    requires forall k :: 0 <= k < |calls| ==> Honest(truth, calls[k]) && calls[k].cfg.resolver.shared == shared
    requires forall k :: 0 <= k < |calls| ==> Active(calls[k].cfg, calls[k].around) != Ok(id)
    requires AssetRoot(shared, id) <= path
    ensures path in Run(truth, start, calls).files <==> path in start.files
  {
    Provenance(truth, start, calls);
    AssetPathIs(shared, id, []);
    var files := Run(truth, start, calls).files;
    var data := if path in files then files[path] else [];
    forall k | 0 <= k < |calls|
      ensures !ComesFrom(truth, calls, k, path, data)
    {
      ProvidedByTheOwner(truth, calls[k], id, path, data);
    }
  }

  // ----- what an Ok means to the caller

  /** Every call asks for the id that the name, below the namespace, stands for. */
  ghost predicate Consistent(name: Path -> nat, shared: Path, call: Call) {
    && call.cfg.resolver.shared == shared && call.cfg.resolver.identity.Some?
    && (ScopedCachePath(call.cfg.resolver, call.out).Ok? ==> name(Inside(call.cfg.resolver, call.out)) == call.fdid)
  }

  ghost predicate AllGenuine(truth: Truth, name: Path -> nat, shared: Path, files: map<Path, Bytes>) {
    forall id: AssetIdentity, inside: Path :: shared + Qualifier(id) + inside in files ==>
      Genuine(truth, name, id, inside, files[shared + Qualifier(id) + inside])
  }

  ghost predicate Genuine(truth: Truth, name: Path -> nat, id: AssetIdentity, inside: Path, data: Bytes) {
    name(inside) in truth.tables(id) && data == truth.plain(truth.tables(id)[name(inside)])
  }

  lemma SplitIsUnique(shared: Path, a: AssetIdentity, x: Path, b: AssetIdentity, y: Path)
    requires shared + Qualifier(a) + x == shared + Qualifier(b) + y
    ensures a == b && x == y
  {
    var n := |shared|;
    var p, q := shared + Qualifier(a) + x, shared + Qualifier(b) + y;
    assert p[n..n + 3] == Qualifier(a) && q[n..n + 3] == Qualifier(b);
    assert p[n + 3..] == x && q[n + 3..] == y;
    QualifiersDiffer(a, b);
  }

  lemma CallKeepsGenuine(truth: Truth, name: Path -> nat, shared: Path, s: Store, call: Call)
    requires Honest(truth, call) && Consistent(name, shared, call) && AllGenuine(truth, name, shared, s.files)
    ensures AllGenuine(truth, name, shared, Outcome(truth, s, call).1.files)
  {
    CallAdds(truth, s, call);
    var (r, s') := Outcome(truth, s, call);
    if s'.files != s.files {
      var build, mine := Active(call.cfg, call.around).value, Inside(call.cfg.resolver, call.out);
      forall id: AssetIdentity, inside: Path | shared + Qualifier(id) + inside in s'.files
        ensures Genuine(truth, name, id, inside, s'.files[shared + Qualifier(id) + inside])
      {
        if shared + Qualifier(id) + inside == r.value {
          SplitIsUnique(shared, id, inside, build, mine);
        }
      }
    }
  }

  lemma {:induction false} RunKeepsGenuine(truth: Truth, name: Path -> nat, shared: Path, start: Store, calls: seq<Call>)
    requires forall k :: 0 <= k < |calls| ==> Honest(truth, calls[k]) && Consistent(name, shared, calls[k])
    requires AllGenuine(truth, name, shared, start.files)
    ensures AllGenuine(truth, name, shared, Run(truth, start, calls).files)
  {
    if calls != [] {
      RunKeepsGenuine(truth, name, shared, start, calls[..|calls| - 1]);
      CallKeepsGenuine(truth, name, shared, Run(truth, start, calls[..|calls| - 1]), calls[|calls| - 1]);
    }
  }

  /**
   * When callers name files consistently, an Ok after any run is the asked-for id's complete
   * plaintext, either in the published build's namespace or in the active build's, and through that build's tables.
   */
  lemma OkIsTheAskedForAsset(truth: Truth, name: Path -> nat, shared: Path, start: Store, calls: seq<Call>, call: Call)
    requires forall k :: 0 <= k < |calls| ==> Honest(truth, calls[k]) && Consistent(name, shared, calls[k])
    requires Honest(truth, call) && Consistent(name, shared, call)
    requires AllGenuine(truth, name, shared, start.files)
    ensures var (r, s) := Outcome(truth, Run(truth, start, calls), call);
            r.Ok? ==>
              && ScopedCachePath(call.cfg.resolver, call.out).Ok?
              && r.value in s.files
              && exists id: AssetIdentity ::
                   && (id == call.cfg.resolver.identity.value || Ok(id) == Active(call.cfg, call.around))
                   && r.value == shared + Qualifier(id) + Inside(call.cfg.resolver, call.out)
                   && call.fdid in truth.tables(id)
                   && s.files[r.value] == truth.plain(truth.tables(id)[call.fdid])
  {
    var before := Run(truth, start, calls);
    RunKeepsGenuine(truth, name, shared, start, calls);
    CallKeepsGenuine(truth, name, shared, before, call);
    var (r, s) := Outcome(truth, before, call);
    if r.Ok? {
      AcceptedIsInside(call.cfg.resolver, call.out);
      CurrentPathIs(call.cfg, call.out, Active(call.cfg, call.around));
      var id := if ScopedCachePath(call.cfg.resolver, call.out) == Ok(r.value) then call.cfg.resolver.identity.value
                else Active(call.cfg, call.around).value;
      var inside := Inside(call.cfg.resolver, call.out);
      if ScopedCachePath(call.cfg.resolver, call.out) != Ok(r.value) {
        ExtractionAdds(truth, before, call.cfg, call.fdid, shared + Qualifier(id) + inside, call.around);
      }
      assert r.value == shared + Qualifier(id) + inside;
      assert Genuine(truth, name, id, inside, s.files[r.value]);
    }
  }

  // ----- latched outcomes

  ghost predicate Latched(a: map<Namespace, Slot>, b: map<Namespace, Slot>) {
    forall ns :: ns in a ==>
      && ns in b
      && (a[ns].NotOpened? ==> b[ns].NotOpened?)
      && (a[ns].Opened? ==> b[ns].Opened? && (!a[ns].init.Uninitialized? ==> b[ns] == a[ns]))
  }

  lemma ExtractionLatches(truth: Truth, s: Store, cfg: Config, fdid: nat, out: Path, around: Around)
    ensures Latched(s.states, Extracted(truth, s, cfg, fdid, out, around).1.states)
  {
    assert Latched(s.states, GetCasc(cfg, s.states, around).1);
  }

  lemma CallLatches(truth: Truth, s: Store, call: Call)
    ensures Latched(s.states, Outcome(truth, s, call).1.states)
  {
    forall out
      ensures Latched(s.states, Extracted(truth, s, call.cfg, call.fdid, out, call.around).1.states)
    {
      ExtractionLatches(truth, s, call.cfg, call.fdid, out, call.around);
    }
  }

  lemma LatchedChains(a: map<Namespace, Slot>, b: map<Namespace, Slot>, c: map<Namespace, Slot>)
    requires Latched(a, b) && Latched(b, c)
    ensures Latched(a, c)
  {
  }

  /** The first outcome of opening and of initializing a namespace is every later outcome, failures included. */
  lemma {:induction false} OutcomesAreLatched(truth: Truth, start: Store, calls: seq<Call>, n: nat)
    requires n <= |calls|
    ensures Latched(Run(truth, start, calls[..n]).states, Run(truth, start, calls).states)
  {
    if n == |calls| {
      assert calls[..n] == calls;
    } else {
      var front, last := calls[..|calls| - 1], calls[|calls| - 1];
      OutcomesAreLatched(truth, start, front, n);
      assert front[..n] == calls[..n];
      CallLatches(truth, Run(truth, start, front), last);
      var states := Outcome(truth, Run(truth, start, front), last).1.states;
      LatchedChains(Run(truth, start, calls[..n]).states, Run(truth, start, front).states, states);
    }
  }

  // ----- the active build

  /** The active build is that of the resolver's product, or without an identity of the selected one; its key in small letters. */
  lemma ActiveExactlyWhen(cfg: Config, builds: map<string, string>, selected: string, id: AssetIdentity)
    ensures var product := if cfg.resolver.identity.Some? then cfg.resolver.identity.value.product else selected;
            ActiveIn(cfg, builds, selected) == Ok(id) <==>
            && product in builds && product in {"wow", "wow_classic_beta"} && id.product == product
            && SmallForm(builds[product], id.buildKey)
  {
    var product := if cfg.resolver.identity.Some? then cfg.resolver.identity.value.product else selected;
    if product in builds {
      NewExactlyWhen(product, builds[product], id);
    }
  }

  lemma NewExactlyWhen(product: string, key: string, id: AssetIdentity)
    ensures New(product, key) == Ok(id) <==>
            product in {"wow", "wow_classic_beta"} && id.product == product && SmallForm(key, id.buildKey)
  {
    if SmallForm(key, id.buildKey) && product in {"wow", "wow_classic_beta"} && id.product == product {
      assert IsBuildKey(key);
      var lowered := New(product, key).value.buildKey;
      forall k | 0 <= k < 32
        ensures id.buildKey[k] == lowered[k]
      {
        OneSmallDigit(id.buildKey[k], lowered[k]);
      }
      assert id.buildKey == lowered;
    }
  }

  /** The 32 digits of key, in small letters. */
  predicate SmallForm(key: string, small: string) {
    && |key| == 32 && |small| == 32
    && forall k :: 0 <= k < 32 ==>
         && IsHexDigit(key[k]) && IsHexDigit(small[k]) && !('A' <= small[k] <= 'F') && DigitValue(small[k]) == DigitValue(key[k])
  }

  lemma OneSmallDigit(c: char, d: char)
    requires IsHexDigit(c) && IsHexDigit(d) && !('A' <= c <= 'F') && !('A' <= d <= 'F') && DigitValue(c) == DigitValue(d)
    ensures c == d
  {
  }

  /** Without an identity there is no other current path: the published one is written. */
  lemma UnidentifiedPathStays(cfg: Config, published: Path, current: Result<AssetIdentity, Error>)
    requires cfg.resolver.identity.None?
    ensures ReadCurrentAssetPath(cfg, published, current) == Ok(published)
  {
  }

  // ----- when a call succeeds

  /** The first opening of the namespace worked, in this call or an earlier one. */
  predicate Opens(s: Store, ns: Namespace, around: Around) {
    if ns in s.states then s.states[ns].Opened? else around.opens
  }

  /** So did the first initializing. */
  predicate Initializes(s: Store, ns: Namespace, around: Around) {
    || (ns in s.states && s.states[ns] == Opened(Initialized))
    || ((ns in s.states ==> s.states[ns] == Opened(Uninitialized)) && around.initializes)
  }

  /** The archive gives the file, and with an identity no part of it is missing. */
  predicate Gives(truth: Truth, id: AssetIdentity, fdid: nat, identified: bool, around: Around) {
    && fdid in truth.tables(id)
    && var content := around.archive(truth.tables(id)[fdid]);
       content.Some? && (identified ==> content.value.missingChunks == 0)
  }

  /** An extraction succeeds exactly when the archive may be opened, opens, initializes and gives the file, and it can be written. */
  lemma ExtractsExactlyWhen(truth: Truth, s: Store, cfg: Config, fdid: nat, out: Path, around: Around)
    ensures var (r, s') := Extracted(truth, s, cfg, fdid, out, around);
            && (r.Ok? <==>
                  && !cfg.extractedOnly && Active(cfg, around).Ok? && around.writes
                  && var id := Active(cfg, around).value;
                     && Opens(s, Namespace(cfg.cacheRoot, id), around) && Initializes(s, Namespace(cfg.cacheRoot, id), around)
                     && Gives(truth, id, fdid, cfg.resolver.identity.Some?, around))
            && (r.Ok? ==> r.value == out)
            && (r.Ok? ==> s'.files == s.files[out := around.archive(truth.tables(Active(cfg, around).value)[fdid]).value.data])
            && (r.Err? ==> s'.files == s.files)
  {
  }

  /** A published file is the answer, and nothing is opened for it; in extracted-only mode nothing ever is. */
  lemma PublishedComesFirst(truth: Truth, s: Store, cfg: Config, fdid: nat, out: Path, around: Around)
    requires ScopedCachePath(cfg.resolver, out).Ok?
    ensures var published := ScopedCachePath(cfg.resolver, out).value;
            && (published in s.files ==> Ensured(truth, s, cfg, fdid, out, around) == (Ok(published), s))
            && (cfg.extractedOnly && published !in s.files ==>
                  Ensured(truth, s, cfg, fdid, out, around) == (Err(MissingExtracted(fdid, published)), s))
  {
  }
}
