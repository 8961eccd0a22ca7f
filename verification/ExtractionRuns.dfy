/** Checked lookups of several processes at once: the file tests and the rename are separate steps. */
module ExtractionRuns {
  import opened Octets
  import opened Wrappers
  import opened Identity
  import opened Paths
  import opened Extraction
  import opened ExtractionTheorems

  /** One call, and the builds the installation has active while it runs. */
  datatype Job = Job(cfg: Config, fdid: nat, out: Path, builds: map<string, string>)

  datatype Thread = Thread(process: nat, number: nat)

  /** Where a call is between its steps. */
  datatype Pc =
    | TestingPublished(job: Job)
    | TestingCurrent(job: Job, path: Path)
    | Fetching(job: Job, path: Path)
    | Renaming(job: Job, path: Path, data: Bytes)

  datatype State = State(files: map<Path, Bytes>, threads: map<Thread, Pc>)

  /** What the process's CASC state gives a call: its archive, or the error of opening or initializing it. */
  type Casc = Result<Key -> Option<Content>, Error>

  datatype Step =
    | Begin(thread: Thread, job: Job)
    | TestPublished(thread: Thread)
    | TestCurrent(thread: Thread)
    | Fetch(thread: Thread, casc: Casc)
    | Rename(thread: Thread, works: bool)
    | Crash(process: nat)

  function ActiveFor(job: Job): Result<AssetIdentity, Error> {
    ActiveIn(job.cfg, job.builds, "")
  }

  function At(s: State, t: Thread, pc: Pc): State {
    s.(threads := s.threads[t := pc])
  }

  function Gone(s: State, t: Thread): State {
    s.(threads := s.threads - {t})
  }

  /** A step a thread is not at changes nothing; the reply of a finished call comes with it. */
  function After(truth: Truth, s: State, step: Step): (State, Option<Result<Path, Error>>) {
    if step.Crash? then
      (s.(threads := map t | t in s.threads && t.process != step.process :: s.threads[t]), None)
    else if step.Begin? then
      if step.thread in s.threads then (s, None)
      else
        match ScopedCachePath(step.job.cfg.resolver, step.job.out)
        case Err(reason) => (s, Some(Err(PathRefused(reason))))
        case Ok(_) => (At(s, step.thread, TestingPublished(step.job)), None)
    else if step.thread !in s.threads then (s, None)
    else MidCall(truth, s, step)
  }

  function MidCall(truth: Truth, s: State, step: Step): (State, Option<Result<Path, Error>>)
    requires !step.Crash? && !step.Begin? && step.thread in s.threads
  {
    var t, pc := step.thread, s.threads[step.thread];
    match step
    case TestPublished(_) => if pc.TestingPublished? then AfterPublished(s, t, pc.job) else (s, None)
    case TestCurrent(_) =>
      if !pc.TestingCurrent? then (s, None)
      else if pc.path in s.files then (Gone(s, t), Some(Ok(pc.path)))
      else (At(s, t, Fetching(pc.job, pc.path)), None)
    case Fetch(_, casc) => if pc.Fetching? then AfterFetch(truth, s, t, pc.job, pc.path, casc) else (s, None)
    case Rename(_, works) =>
      if !pc.Renaming? then (s, None)
      else if !works then (Gone(s, t), Some(Err(WriteFailed(pc.path))))
      else (Gone(s, t).(files := s.files[pc.path := pc.data]), Some(Ok(pc.path)))
  }

  function AfterPublished(s: State, t: Thread, job: Job): (State, Option<Result<Path, Error>>) {
    match ScopedCachePath(job.cfg.resolver, job.out)
    case Err(reason) => (Gone(s, t), Some(Err(PathRefused(reason))))
    case Ok(published) =>
      if published in s.files then (Gone(s, t), Some(Ok(published)))
      else if job.cfg.extractedOnly then (Gone(s, t), Some(Err(MissingExtracted(job.fdid, published))))
      else
        match ReadCurrentAssetPath(job.cfg, published, ActiveFor(job))
        case Err(error) => (Gone(s, t), Some(Err(error)))
        case Ok(current) => (At(s, t, TestingCurrent(job, current)), None)
  }

  function AfterFetch(truth: Truth, s: State, t: Thread, job: Job, path: Path, casc: Casc)
    : (State, Option<Result<Path, Error>>)
  {
    var build := ActiveFor(job);
    if build.Err? then (Gone(s, t), Some(Err(build.error)))
    else if casc.Err? then (Gone(s, t), Some(Err(casc.error)))
    else if job.fdid !in truth.tables(build.value) then (Gone(s, t), Some(Err(Absent(job.fdid))))
    else
      match casc.value(truth.tables(build.value)[job.fdid])
      case None => (Gone(s, t), Some(Err(Unreadable(job.fdid))))
      case Some(content) =>
        if job.cfg.resolver.identity.Some? && content.missingChunks > 0 then (Gone(s, t), Some(Err(Undecodable(job.fdid))))
        else (At(s, t, Renaming(job, path, content.data)), None)
  }

  function Run(truth: Truth, start: State, steps: seq<Step>): State {
    if steps == [] then start else After(truth, Run(truth, start, steps[..|steps| - 1]), steps[|steps| - 1]).0
  }

  // ----- what a call can write

  ghost predicate FaithfulArchive(truth: Truth, archive: Key -> Option<Content>) {
    forall key :: archive(key).Some? && archive(key).value.missingChunks == 0 ==> archive(key).value.data == truth.plain(key)
  }

  /** Calls come out of allowed, all with an identity; archives are content-addressed. */
  ghost predicate Legal(truth: Truth, allowed: iset<Job>, step: Step) {
    && (step.Begin? ==> step.job in allowed && step.job.cfg.resolver.identity.Some?)
    && (step.Fetch? && step.casc.Ok? ==> FaithfulArchive(truth, step.casc.value))
  }

  ghost predicate AllLegal(truth: Truth, allowed: iset<Job>, steps: seq<Step>) {
    forall k :: 0 <= k < |steps| ==> Legal(truth, allowed, steps[k])
  }

  /** The path the call writes, if it gets so far, and the bytes it writes there. */
  ghost predicate Writes(truth: Truth, job: Job, path: Path, data: Bytes) {
    && job.cfg.resolver.identity.Some? && !job.cfg.extractedOnly
    && ScopedCachePath(job.cfg.resolver, job.out).Ok?
    && ActiveFor(job).Ok?
    && var build := ActiveFor(job).value;
       && path == job.cfg.resolver.shared + Qualifier(build) + Inside(job.cfg.resolver, job.out)
       && job.fdid in truth.tables(build)
       && data == truth.plain(truth.tables(build)[job.fdid])
  }

  ghost predicate Written(truth: Truth, allowed: iset<Job>, path: Path, data: Bytes) {
    exists job :: job in allowed && Writes(truth, job, path, data)
  }

  ghost predicate Heads(job: Job, path: Path) {
    && job.cfg.resolver.identity.Some? && !job.cfg.extractedOnly
    && ScopedCachePath(job.cfg.resolver, job.out).Ok?
    && ActiveFor(job).Ok?
    && path == job.cfg.resolver.shared + Qualifier(ActiveFor(job).value) + Inside(job.cfg.resolver, job.out)
  }

  ghost predicate PcInv(truth: Truth, allowed: iset<Job>, start: map<Path, Bytes>, pc: Pc) {
    && pc.job in allowed && pc.job.cfg.resolver.identity.Some?
    && (!pc.TestingPublished? ==> Heads(pc.job, pc.path))
    && (pc.Fetching? || pc.Renaming? ==> pc.path !in start)
    && (pc.Renaming? ==> Writes(truth, pc.job, pc.path, pc.data))
  }

  ghost predicate Inv(truth: Truth, allowed: iset<Job>, start: map<Path, Bytes>, s: State) {
    && (forall p :: p in start ==> p in s.files && s.files[p] == start[p])
    && (forall p :: p in s.files && p !in start ==> Written(truth, allowed, p, s.files[p]))
    && (forall t :: t in s.threads ==> PcInv(truth, allowed, start, s.threads[t]))
  }

  lemma Moving(truth: Truth, allowed: iset<Job>, start: map<Path, Bytes>, s: State, t: Thread, pc: Pc)
    requires Inv(truth, allowed, start, s) && PcInv(truth, allowed, start, pc)
    ensures Inv(truth, allowed, start, At(s, t, pc)) && Inv(truth, allowed, start, Gone(s, t))
  {
  }

  lemma PublishedKeeps(truth: Truth, allowed: iset<Job>, start: map<Path, Bytes>, s: State, t: Thread)
    requires Inv(truth, allowed, start, s) && t in s.threads && s.threads[t].TestingPublished?
    ensures Inv(truth, allowed, start, AfterPublished(s, t, s.threads[t].job).0)
  {
    var job := s.threads[t].job;
    Moving(truth, allowed, start, s, t, s.threads[t]);
    if ScopedCachePath(job.cfg.resolver, job.out).Ok? {
      CurrentPathIs(job.cfg, job.out, ActiveFor(job));
      if !job.cfg.extractedOnly && ActiveFor(job).Ok? {
        var path := job.cfg.resolver.shared + Qualifier(ActiveFor(job).value) + Inside(job.cfg.resolver, job.out);
        Moving(truth, allowed, start, s, t, TestingCurrent(job, path));
      }
    }
  }

  lemma FetchKeeps(truth: Truth, allowed: iset<Job>, start: map<Path, Bytes>, s: State, t: Thread, casc: Casc)
    requires Inv(truth, allowed, start, s) && t in s.threads && s.threads[t].Fetching?
    requires casc.Ok? ==> FaithfulArchive(truth, casc.value)
    ensures Inv(truth, allowed, start, AfterFetch(truth, s, t, s.threads[t].job, s.threads[t].path, casc).0)
  {
    var job, path := s.threads[t].job, s.threads[t].path;
    Moving(truth, allowed, start, s, t, s.threads[t]);
    var build := ActiveFor(job).value;
    if casc.Ok? && job.fdid in truth.tables(build) {
      var content := casc.value(truth.tables(build)[job.fdid]);
      if content.Some? && content.value.missingChunks == 0 {
        Moving(truth, allowed, start, s, t, Renaming(job, path, content.value.data));
      }
    }
  }

  lemma RenameKeeps(truth: Truth, allowed: iset<Job>, start: map<Path, Bytes>, s: State, t: Thread)
    requires Inv(truth, allowed, start, s) && t in s.threads && s.threads[t].Renaming?
    ensures var pc := s.threads[t]; Inv(truth, allowed, start, Gone(s, t).(files := s.files[pc.path := pc.data]))
  {
    var pc := s.threads[t];
    assert PcInv(truth, allowed, start, pc);
    assert Written(truth, allowed, pc.path, pc.data);
  }

  lemma StepKeeps(truth: Truth, allowed: iset<Job>, start: map<Path, Bytes>, s: State, step: Step)
    requires Inv(truth, allowed, start, s) && Legal(truth, allowed, step)
    ensures Inv(truth, allowed, start, After(truth, s, step).0)
  {
    if step.Begin? {
      if step.thread !in s.threads {
        Moving(truth, allowed, start, s, step.thread, TestingPublished(step.job));
      }
    } else if !step.Crash? && step.thread in s.threads {
      var t, pc := step.thread, s.threads[step.thread];
      Moving(truth, allowed, start, s, t, pc);
      match step
      case TestPublished(_) => if pc.TestingPublished? { PublishedKeeps(truth, allowed, start, s, t); }
      case TestCurrent(_) =>
        if pc.TestingCurrent? && pc.path !in s.files {
          Moving(truth, allowed, start, s, t, Fetching(pc.job, pc.path));
        }
      case Fetch(_, casc) => if pc.Fetching? { FetchKeeps(truth, allowed, start, s, t, casc); }
      case Rename(_, _) => if pc.Renaming? { RenameKeeps(truth, allowed, start, s, t); }
    }
  }

  /**
   * However calls of several processes are interleaved, killed and patched between: the files that
   * were there are untouched, and every other file holds what some allowed call writes there.
   */
  lemma {:induction false} InterleavedProvenance(truth: Truth, allowed: iset<Job>, files: map<Path, Bytes>, steps: seq<Step>)
    requires AllLegal(truth, allowed, steps)
    ensures Inv(truth, allowed, files, Run(truth, State(files, map[]), steps))
  {
    if steps != [] {
      var n := |steps| - 1;
      assert AllLegal(truth, allowed, steps[..n]);
      InterleavedProvenance(truth, allowed, files, steps[..n]);
      assert Legal(truth, allowed, steps[n]);
      StepKeeps(truth, allowed, files, Run(truth, State(files, map[]), steps[..n]), steps[n]);
    }
  }

  // ----- when an existing file may be replaced

  /** No step of any run changes a file that is there. */
  ghost predicate FilesStay(truth: Truth, allowed: iset<Job>) {
    forall files: map<Path, Bytes>, steps: seq<Step>, step: Step, p: Path ::
      AllLegal(truth, allowed, steps) && Legal(truth, allowed, step) && p in Run(truth, State(files, map[]), steps).files ==>
        Kept(Run(truth, State(files, map[]), steps).files, After(truth, Run(truth, State(files, map[]), steps), step).0.files, p)
  }

  predicate Kept(before: map<Path, Bytes>, after: map<Path, Bytes>, p: Path)
    requires p in before
  {
    p in after && after[p] == before[p]
  }

  /** Calls that write one path write the same bytes. */
  ghost predicate WritesAgree(truth: Truth, allowed: iset<Job>) {
    forall a, b, path, x, y :: a in allowed && b in allowed && Writes(truth, a, path, x) && Writes(truth, b, path, y) ==> x == y
  }

  /** Only a rename that works writes. */
  lemma OnlyRenamesWrite(truth: Truth, s: State, step: Step)
    ensures After(truth, s, step).0.files ==
            if step.Rename? && step.works && step.thread in s.threads && s.threads[step.thread].Renaming?
            then s.files[s.threads[step.thread].path := s.threads[step.thread].data] else s.files
  {
  }

  lemma AgreeingStepKeeps(truth: Truth, allowed: iset<Job>, start: map<Path, Bytes>, s: State, step: Step, p: Path)
    requires WritesAgree(truth, allowed) && Inv(truth, allowed, start, s) && p in s.files
    ensures Kept(s.files, After(truth, s, step).0.files, p)
  {
    OnlyRenamesWrite(truth, s, step);
    if step.Rename? && step.thread in s.threads && s.threads[step.thread].Renaming? {
      var pc := s.threads[step.thread];
      assert PcInv(truth, allowed, start, pc);
      if p == pc.path {
        assert Written(truth, allowed, p, s.files[p]);
        var b :| b in allowed && Writes(truth, b, p, s.files[p]);
        assert pc.data == s.files[p];
      }
    }
  }

  const NOTHING := State(map[], map[])

  lemma RunMore(truth: Truth, allowed: iset<Job>, steps: seq<Step>, step: Step)
    requires AllLegal(truth, allowed, steps) && Legal(truth, allowed, step)
    ensures AllLegal(truth, allowed, steps + [step])
    ensures Run(truth, NOTHING, steps + [step]) == After(truth, Run(truth, NOTHING, steps), step).0
  {
    assert (steps + [step])[..|steps|] == steps;
  }

  // ----- the steps of one call

  lemma FromBegin(truth: Truth, s: State, t: Thread, job: Job)
    requires t !in s.threads && ScopedCachePath(job.cfg.resolver, job.out).Ok?
    ensures After(truth, s, Begin(t, job)) == (At(s, t, TestingPublished(job)), None)
  {
  }

  lemma FromPublished(truth: Truth, s: State, t: Thread, job: Job, path: Path)
    requires Heads(job, path) && ScopedCachePath(job.cfg.resolver, job.out).value !in s.files
    ensures After(truth, At(s, t, TestingPublished(job)), TestPublished(t)) == (At(s, t, TestingCurrent(job, path)), None)
  {
    CurrentPathIs(job.cfg, job.out, ActiveFor(job));
    assert At(At(s, t, TestingPublished(job)), t, TestingCurrent(job, path)) == At(s, t, TestingCurrent(job, path));
  }

  lemma FromCurrent(truth: Truth, s: State, t: Thread, job: Job, path: Path)
    requires path !in s.files
    ensures After(truth, At(s, t, TestingCurrent(job, path)), TestCurrent(t)) == (At(s, t, Fetching(job, path)), None)
  {
    assert At(At(s, t, TestingCurrent(job, path)), t, Fetching(job, path)) == At(s, t, Fetching(job, path));
  }

  lemma FromFetch(truth: Truth, s: State, t: Thread, job: Job, path: Path, casc: Casc, data: Bytes)
    requires ActiveFor(job).Ok? && job.fdid in truth.tables(ActiveFor(job).value)
    requires casc.Ok? && casc.value(truth.tables(ActiveFor(job).value)[job.fdid]) == Some(Content(data, 0))
    ensures After(truth, At(s, t, Fetching(job, path)), Fetch(t, casc)) == (At(s, t, Renaming(job, path, data)), None)
  {
    assert At(At(s, t, Fetching(job, path)), t, Renaming(job, path, data)) == At(s, t, Renaming(job, path, data));
  }

  /** While nothing is there, a call gets as far as its rename. */
  lemma ReachRename(truth: Truth, allowed: iset<Job>, steps: seq<Step>, t: Thread, job: Job, path: Path, data: Bytes)
    returns (steps': seq<Step>)
    requires AllLegal(truth, allowed, steps) && job in allowed && Writes(truth, job, path, data)
    requires Run(truth, NOTHING, steps).files == map[] && t !in Run(truth, NOTHING, steps).threads
    ensures AllLegal(truth, allowed, steps')
    ensures Run(truth, NOTHING, steps') == At(Run(truth, NOTHING, steps), t, Renaming(job, path, data))
  {
    var casc: Casc := Ok((key: Key) => Some(Content(truth.plain(key), 0)));
    var s := Run(truth, NOTHING, steps);
    FromBegin(truth, s, t, job);
    FromPublished(truth, s, t, job, path);
    FromCurrent(truth, s, t, job, path);
    FromFetch(truth, s, t, job, path, casc, data);
    var a, b, c, d := Begin(t, job), TestPublished(t), TestCurrent(t), Fetch(t, casc);
    RunMore(truth, allowed, steps, a);
    RunMore(truth, allowed, steps + [a], b);
    RunMore(truth, allowed, steps + [a] + [b], c);
    RunMore(truth, allowed, steps + [a] + [b] + [c], d);
    steps' := steps + [a] + [b] + [c] + [d];
  }

  /** Two processes find the file absent, and the second rename replaces what the first wrote. */
  lemma SecondRenameReplaces(truth: Truth, allowed: iset<Job>, a: Job, b: Job, path: Path, x: Bytes, y: Bytes)
    returns (steps: seq<Step>, step: Step)
    requires a in allowed && b in allowed && Writes(truth, a, path, x) && Writes(truth, b, path, y)
    ensures AllLegal(truth, allowed, steps) && Legal(truth, allowed, step)
    ensures var s := Run(truth, NOTHING, steps); var s' := After(truth, s, step).0;
            path in s.files && s.files[path] == x && path in s'.files && s'.files[path] == y
  {
    var t, u := Thread(0, 0), Thread(1, 0);
    assert Run(truth, NOTHING, []) == NOTHING;
    steps := ReachRename(truth, allowed, [], t, a, path, x);
    steps := ReachRename(truth, allowed, steps, u, b, path, y);
    RunMore(truth, allowed, steps, Rename(t, true));
    steps := steps + [Rename(t, true)];
    step := Rename(u, true);
  }

  /**
   * Over all interleavings of any number of processes, no file that is there is ever replaced
   * exactly when calls that write one path write the same bytes. Otherwise two that both found it
   * absent replace it, the later rename winning.
   */
  lemma FilesStayExactlyWhen(truth: Truth, allowed: iset<Job>)
    ensures FilesStay(truth, allowed) <==> WritesAgree(truth, allowed)
  {
    if WritesAgree(truth, allowed) {
      forall files: map<Path, Bytes>, steps: seq<Step>, step: Step, p: Path |
        AllLegal(truth, allowed, steps) && Legal(truth, allowed, step) && p in Run(truth, State(files, map[]), steps).files
        ensures Kept(Run(truth, State(files, map[]), steps).files, After(truth, Run(truth, State(files, map[]), steps), step).0.files, p)
      {
        InterleavedProvenance(truth, allowed, files, steps);
        AgreeingStepKeeps(truth, allowed, files, Run(truth, State(files, map[]), steps), step, p);
      }
    } else {
      var a, b, path, x, y :| a in allowed && b in allowed && Writes(truth, a, path, x) && Writes(truth, b, path, y) && x != y;
      var steps, step := SecondRenameReplaces(truth, allowed, a, b, path, x, y);
      assert !Kept(Run(truth, NOTHING, steps).files, After(truth, Run(truth, NOTHING, steps), step).0.files, path);
    }
  }

  /** Callers that name files consistently never replace one. */
  lemma ConsistentNamesAgree(truth: Truth, allowed: iset<Job>, name: Path -> nat, shared: Path)
    requires forall job :: job in allowed && ScopedCachePath(job.cfg.resolver, job.out).Ok? && job.cfg.resolver.identity.Some? ==>
               job.cfg.resolver.shared == shared && name(Inside(job.cfg.resolver, job.out)) == job.fdid
    ensures FilesStay(truth, allowed)
  {
    forall a, b, path, x, y | a in allowed && b in allowed && Writes(truth, a, path, x) && Writes(truth, b, path, y)
      ensures x == y
    {
      SplitIsUnique(shared, ActiveFor(a).value, Inside(a.cfg.resolver, a.out), ActiveFor(b).value, Inside(b.cfg.resolver, b.out));
    }
    FilesStayExactlyWhen(truth, allowed);
  }

  // ----- a call left alone is the sequential one

  function AfterAll(truth: Truth, s: State, steps: seq<Step>): (State, seq<Result<Path, Error>>)
    decreases |steps|
  {
    if steps == [] then (s, [])
    else
      var (next, reply) := After(truth, s, steps[0]);
      var (last, replies) := AfterAll(truth, next, steps[1..]);
      (last, (if reply.Some? then [reply.value] else []) + replies)
  }

  function OneCall(t: Thread, job: Job, casc: Casc, works: bool): seq<Step> {
    [Begin(t, job)] + FromTests(t, casc, works)
  }

  function FromTests(t: Thread, casc: Casc, works: bool): seq<Step> {
    [TestPublished(t)] + ([TestCurrent(t)] + ([Fetch(t, casc)] + [Rename(t, works)]))
  }

  /** What the call's process gets from its state, made and initialized by the first caller. */
  function CascFor(s: Store, cfg: Config, around: Around): Casc {
    var (casc, states) := GetCasc(cfg, s.states, around);
    if casc.Err? then Err(casc.error)
    else if InitAfter(states[Namespace(cfg.cacheRoot, casc.value)].init, around).FailedToInitialize? then Err(InitFailed)
    else Ok(around.archive)
  }

  lemma StepThenRest(truth: Truth, s: State, step: Step, rest: seq<Step>)
    ensures var (next, reply) := After(truth, s, step);
            var (last, replies) := AfterAll(truth, next, rest);
            AfterAll(truth, s, [step] + rest) == (last, (if reply.Some? then [reply.value] else []) + replies)
  {
    assert ([step] + rest)[1..] == rest;
  }

  /** Steps of t in the middle of a call. */
  predicate Midway(rest: seq<Step>, t: Thread) {
    forall k :: 0 <= k < |rest| ==> !rest[k].Crash? && !rest[k].Begin? && rest[k].thread == t
  }

  /** Once a call is over, none of its further steps does anything. */
  lemma {:induction false} OverIsOver(truth: Truth, s: State, t: Thread, rest: seq<Step>)
    requires t !in s.threads && Midway(rest, t)
    ensures AfterAll(truth, s, rest) == (s, [])
    decreases |rest|
  {
    if rest != [] {
      assert After(truth, s, rest[0]) == (s, None);
      OverIsOver(truth, s, t, rest[1..]);
      StepThenRest(truth, s, rest[0], rest[1..]);
      assert [rest[0]] + rest[1..] == rest;
      NoReplyFirst([]);
    }
  }

  lemma NoReplyFirst(replies: seq<Result<Path, Error>>)
    ensures [] + replies == replies && replies + [] == replies
  {
  }

  /** A step that moves the call on gives no reply; one that ends it gives the only one. */
  lemma MovesOn(truth: Truth, s: State, step: Step, next: State, rest: seq<Step>)
    requires After(truth, s, step) == (next, None)
    ensures AfterAll(truth, s, [step] + rest) == AfterAll(truth, next, rest)
  {
    StepThenRest(truth, s, step, rest);
    NoReplyFirst(AfterAll(truth, next, rest).1);
  }

  lemma EndsCall(truth: Truth, s: State, step: Step, next: State, reply: Result<Path, Error>, t: Thread, rest: seq<Step>)
    requires After(truth, s, step) == (next, Some(reply)) && t !in next.threads && Midway(rest, t)
    ensures AfterAll(truth, s, [step] + rest) == (next, [reply])
  {
    StepThenRest(truth, s, step, rest);
    OverIsOver(truth, next, t, rest);
    NoReplyFirst([reply]);
  }

  lemma GoneAgain(s: State, t: Thread, pc: Pc)
    requires t !in s.threads
    ensures Gone(At(s, t, pc), t) == s
  {
  }

  lemma RenamePart(truth: Truth, s: State, t: Thread, job: Job, path: Path, data: Bytes, works: bool)
    requires t !in s.threads
    ensures AfterAll(truth, At(s, t, Renaming(job, path, data)), [Rename(t, works)]) ==
            if works then (s.(files := s.files[path := data]), [Ok(path)]) else (s, [Err(WriteFailed(path))])
  {
    GoneAgain(s, t, Renaming(job, path, data));
    var here, step := At(s, t, Renaming(job, path, data)), Rename(t, works);
    assert [step] + [] == [step];
    EndsCall(truth, here, step, After(truth, here, step).0, After(truth, here, step).1.value, t, []);
  }

  /** What is left of the call once its path is settled and was found absent, as the sequential extraction has it. */
  lemma FetchPart(truth: Truth, s: Store, cfg: Config, fdid: nat, out: Path, around: Around, t: Thread, path: Path)
    requires cfg.resolver.identity.Some? && Heads(Job(cfg, fdid, out, around.builds), path)
    ensures AfterAll(truth, At(State(s.files, map[]), t, Fetching(Job(cfg, fdid, out, around.builds), path)),
                     [Fetch(t, CascFor(s, cfg, around))] + [Rename(t, around.writes)])
         == (State(Extracted(truth, s, cfg, fdid, path, around).1.files, map[]), [Extracted(truth, s, cfg, fdid, path, around).0])
  {
    var job, casc, s0 := Job(cfg, fdid, out, around.builds), CascFor(s, cfg, around), State(s.files, map[]);
    var here, step, rest := At(s0, t, Fetching(job, path)), Fetch(t, casc), [Rename(t, around.writes)];
    GoneAgain(s0, t, Fetching(job, path));
    assert ActiveFor(job) == Active(cfg, around);
    var (next, reply) := After(truth, here, step);
    if reply.Some? {
      EndsCall(truth, here, step, s0, reply.value, t, rest);
    } else {
      var data := around.archive(truth.tables(ActiveFor(job).value)[fdid]).value.data;
      FromFetch(truth, s0, t, job, path, casc, data);
      MovesOn(truth, here, step, At(s0, t, Renaming(job, path, data)), rest);
      RenamePart(truth, s0, t, job, path, data, around.writes);
    }
  }

  lemma CurrentPart(truth: Truth, s: Store, cfg: Config, fdid: nat, out: Path, around: Around, t: Thread, path: Path)
    requires cfg.resolver.identity.Some? && Heads(Job(cfg, fdid, out, around.builds), path)
    ensures AfterAll(truth, At(State(s.files, map[]), t, TestingCurrent(Job(cfg, fdid, out, around.builds), path)),
                     [TestCurrent(t)] + ([Fetch(t, CascFor(s, cfg, around))] + [Rename(t, around.writes)]))
         == if path in s.files then (State(s.files, map[]), [Ok(path)])
            else (State(Extracted(truth, s, cfg, fdid, path, around).1.files, map[]), [Extracted(truth, s, cfg, fdid, path, around).0])
  {
    var job, s0 := Job(cfg, fdid, out, around.builds), State(s.files, map[]);
    var rest := [Fetch(t, CascFor(s, cfg, around))] + [Rename(t, around.writes)];
    var here := At(s0, t, TestingCurrent(job, path));
    if path in s.files {
      GoneAgain(s0, t, TestingCurrent(job, path));
      EndsCall(truth, here, TestCurrent(t), s0, Ok(path), t, rest);
    } else {
      FromCurrent(truth, s0, t, job, path);
      MovesOn(truth, here, TestCurrent(t), At(s0, t, Fetching(job, path)), rest);
      FetchPart(truth, s, cfg, fdid, out, around, t, path);
    }
  }

  lemma PublishedPart(truth: Truth, s: Store, cfg: Config, fdid: nat, out: Path, around: Around, t: Thread)
    requires cfg.resolver.identity.Some? && ScopedCachePath(cfg.resolver, out).Ok?
    ensures AfterAll(truth, At(State(s.files, map[]), t, TestingPublished(Job(cfg, fdid, out, around.builds))),
                     FromTests(t, CascFor(s, cfg, around), around.writes))
         == (State(Ensured(truth, s, cfg, fdid, out, around).1.files, map[]), [Ensured(truth, s, cfg, fdid, out, around).0])
  {
    var job, s0 := Job(cfg, fdid, out, around.builds), State(s.files, map[]);
    var rest := [TestCurrent(t)] + ([Fetch(t, CascFor(s, cfg, around))] + [Rename(t, around.writes)]);
    var here := At(s0, t, TestingPublished(job));
    GoneAgain(s0, t, TestingPublished(job));
    CurrentPathIs(cfg, out, ActiveFor(job));
    var (next, reply) := After(truth, here, TestPublished(t));
    if reply.Some? {
      EndsCall(truth, here, TestPublished(t), s0, reply.value, t, rest);
    } else {
      var path := cfg.resolver.shared + Qualifier(ActiveFor(job).value) + Inside(cfg.resolver, out);
      FromPublished(truth, s0, t, job, path);
      MovesOn(truth, here, TestPublished(t), At(s0, t, TestingCurrent(job, path)), rest);
      CurrentPart(truth, s, cfg, fdid, out, around, t, path);
    }
  }

  /** A call left alone, step by step, makes one reply, the sequential call's, and leaves the files that one leaves. */
  lemma UninterruptedCallIsEnsured(truth: Truth, s: Store, cfg: Config, fdid: nat, out: Path, around: Around, t: Thread)
    requires cfg.resolver.identity.Some?
    ensures AfterAll(truth, State(s.files, map[]),
                     OneCall(t, Job(cfg, fdid, out, around.builds), CascFor(s, cfg, around), around.writes))
         == (State(Ensured(truth, s, cfg, fdid, out, around).1.files, map[]), [Ensured(truth, s, cfg, fdid, out, around).0])
  {
    var job, s0 := Job(cfg, fdid, out, around.builds), State(s.files, map[]);
    var rest := FromTests(t, CascFor(s, cfg, around), around.writes);
    if ScopedCachePath(cfg.resolver, out).Ok? {
      FromBegin(truth, s0, t, job);
      MovesOn(truth, s0, Begin(t, job), At(s0, t, TestingPublished(job)), rest);
      PublishedPart(truth, s, cfg, fdid, out, around, t);
    } else {
      EndsCall(truth, s0, Begin(t, job), s0, Err(PathRefused(ScopedCachePath(cfg.resolver, out).error)), t, rest);
    }
  }
}
