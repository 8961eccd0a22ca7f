/** Checked lookups with the real writer: a call's rename is the steps of AtomicWrite on one file system. */
module ExtractionWrites {
  import opened Octets
  import opened Wrappers
  import opened Identity
  import opened Paths
  import opened Extraction
  import opened ExtractionRuns
  import W = AtomicWrite

  type Reply = Result<Path, Error>

  datatype System = System(disk: W.State, threads: map<Thread, Pc>)

  /** A step of a call up to its write, or of the writer of one. */
  datatype Move = Call(step: Step) | Write(writing: W.Step)

  function PathOf(f: W.File): Path {
    f.dir + [Normal(f.name)]
  }

  lemma PathsTellFilesApart()
    ensures forall f: W.File, g: W.File :: PathOf(f) == PathOf(g) ==> f == g
  {
    forall f: W.File, g: W.File | PathOf(f) == PathOf(g)
      ensures f == g
    {
      assert f.dir == PathOf(f)[..|PathOf(f)| - 1] && g.dir == PathOf(g)[..|PathOf(g)| - 1];
      assert PathOf(f)[|f.dir|] == Normal(f.name) && PathOf(g)[|g.dir|] == Normal(g.name);
    }
  }

  function WriterOf(t: Thread): W.Writer {
    W.Writer(t.process, t.number)
  }

  function ThreadOf(w: W.Writer): Thread {
    Thread(w.pid, w.thread)
  }

  /** Everything on the disk, temporaries included, as the file tests see it. */
  function OnDisk(files: map<W.File, Bytes>): map<Path, Bytes> {
    PathsTellFilesApart();
    map f | f in files :: PathOf(f) := files[f]
  }

  /** The writer may begin what its thread is about to write. */
  predicate MayBegin(s: System, w: W.Writer, destination: W.File, data: Bytes) {
    && ThreadOf(w) in s.threads
    && var pc := s.threads[ThreadOf(w)];
       pc.Renaming? && pc.path == PathOf(destination) && pc.data == data
  }

  /** A rename that works is left to the writer, and so is failing once it has drawn a name. */
  predicate LeftToWriter(s: System, step: Step) {
    step.Rename? && (step.works || WriterOf(step.thread) in s.disk.jobs)
  }

  function After(truth: Truth, s: System, move: Move): (System, Option<Reply>) {
    match move
    case Call(step) => if LeftToWriter(s, step) then (s, None) else AfterCall(truth, s, step)
    case Write(step) => AfterWrite(s, step)
  }

  function AfterCall(truth: Truth, s: System, step: Step): (System, Option<Reply>) {
    var (next, reply) := ExtractionRuns.After(truth, State(OnDisk(s.disk.files), s.threads), step);
    (System(DiskAfterCall(s.disk, step), next.threads), reply)
  }

  /** A call's own steps leave the disk alone; a kill ends the writers of its process. */
  function DiskAfterCall(disk: W.State, step: Step): W.State {
    if step.Crash? then W.After(disk, W.Crash(step.process)) else disk
  }

  function AfterWrite(s: System, step: W.Step): (System, Option<Reply>) {
    if step.Crash? || (step.Begin? && !MayBegin(s, step.writer, step.destination, step.data)) then (s, None)
    else
      var disk := W.After(s.disk, step);
      if Returns(s, step) then
        var path := PathOf(s.disk.jobs[step.writer].destination);
        (System(disk, s.threads - {ThreadOf(step.writer)}), Some(if step.Rename? then Ok(path) else Err(WriteFailed(path))))
      else (s.(disk := disk), None)
  }

  /** The step ends its writer's call. */
  predicate Returns(s: System, step: W.Step) {
    !step.Crash? && step.writer in s.disk.jobs && step.writer !in W.After(s.disk, step).jobs
  }

  function AfterAll(truth: Truth, s: System, moves: seq<Move>): (System, seq<Reply>)
    decreases |moves|
  {
    if moves == [] then (s, [])
    else
      var (next, reply) := After(truth, s, moves[0]);
      var (last, replies) := AfterAll(truth, next, moves[1..]);
      (last, (if reply.Some? then [reply.value] else []) + replies)
  }

  // ----- what it refines

  /** The file at p is one that the call tests or writes. */
  ghost predicate Names(job: Job, p: Path) {
    ScopedCachePath(job.cfg.resolver, job.out).Ok? && (p == ScopedCachePath(job.cfg.resolver, job.out).value || Heads(job, p))
  }

  ghost function Named(allowed: iset<Job>): iset<W.File> {
    iset f: W.File | exists job :: job in allowed && Names(job, PathOf(f))
  }

  ghost function Destinations(truth: Truth, allowed: iset<Job>): iset<W.File> {
    iset f: W.File | exists job, data :: job in allowed && Writes(truth, job, PathOf(f), data)
  }

  /** No file that a call tests or writes could be a temporary of one that some call writes. */
  ghost predicate Clear(truth: Truth, allowed: iset<Job>) {
    forall f: W.File :: f in Named(allowed) ==> !W.Spare(f, Destinations(truth, allowed))
  }

  lemma ClearHasNoClash(truth: Truth, allowed: iset<Job>)
    requires Clear(truth, allowed)
    ensures W.NoClash(Destinations(truth, allowed))
  {
    forall f: W.File | f in Destinations(truth, allowed)
      ensures f in Named(allowed)
    {
      var job, data :| job in allowed && Writes(truth, job, PathOf(f), data);
      assert Names(job, PathOf(f));
    }
  }

  /** The files that are no possible temporaries. */
  ghost function View(files: map<W.File, Bytes>, named: iset<W.File>): map<Path, Bytes> {
    PathsTellFilesApart();
    map f | f in files && !W.Spare(f, named) :: PathOf(f) := files[f]
  }

  ghost function Seen(s: System, named: iset<W.File>): State {
    State(View(s.disk.files, named), s.threads)
  }

  /** What a move is for the calls: a write is nothing until it returns, and then the rename. */
  function Abstract(s: System, move: Move): seq<Step> {
    match move
    case Call(step) => if LeftToWriter(s, step) then [] else [step]
    case Write(step) => if Returns(s, step) then [Rename(ThreadOf(step.writer), step.Rename?)] else []
  }

  function AbstractAll(truth: Truth, s: System, moves: seq<Move>): seq<Step>
    decreases |moves|
  {
    if moves == [] then [] else Abstract(s, moves[0]) + AbstractAll(truth, After(truth, s, moves[0]).0, moves[1..])
  }

  ghost predicate AllLegalMoves(truth: Truth, allowed: iset<Job>, moves: seq<Move>) {
    forall k :: 0 <= k < |moves| ==> LegalMove(truth, allowed, moves[k])
  }

  ghost predicate LegalMove(truth: Truth, allowed: iset<Job>, move: Move) {
    move.Call? ==> Legal(truth, allowed, move.step)
  }

  /** Every writer in flight writes what its thread is about to rename. */
  ghost predicate WritersMatch(s: System) {
    forall w :: w in s.disk.jobs ==> MayBegin(s, w, s.disk.jobs[w].destination, s.disk.jobs[w].data)
  }

  ghost predicate SystemInv(truth: Truth, allowed: iset<Job>, start: map<Path, Bytes>, s: System) {
    && W.Inv(s.disk, Destinations(truth, allowed))
    && WritersMatch(s)
    && Inv(truth, allowed, start, Seen(s, Destinations(truth, allowed)))
  }

  // ----- steps of calls

  lemma NamedFileIsSeen(truth: Truth, files: map<W.File, Bytes>, allowed: iset<Job>, job: Job, p: Path)
    requires Clear(truth, allowed) && job in allowed && Names(job, p)
    ensures p in OnDisk(files) <==> p in View(files, Destinations(truth, allowed))
  {
    if p in OnDisk(files) {
      var f :| f in files && PathOf(f) == p;
      assert f in Named(allowed);
      assert p in View(files, Destinations(truth, allowed));
    }
  }

  /** The paths that the step tests are there in both or in neither. */
  ghost predicate SameTests(a: map<Path, Bytes>, b: map<Path, Bytes>, threads: map<Thread, Pc>, step: Step) {
    (step.TestPublished? || step.TestCurrent?) && step.thread in threads ==>
      var pc := threads[step.thread];
      && (pc.TestingPublished? && ScopedCachePath(pc.job.cfg.resolver, pc.job.out).Ok? ==>
            var published := ScopedCachePath(pc.job.cfg.resolver, pc.job.out).value; published in a <==> published in b)
      && (pc.TestingCurrent? ==> (pc.path in a <==> pc.path in b))
  }

  lemma TestsDecide(truth: Truth, a: map<Path, Bytes>, b: map<Path, Bytes>, threads: map<Thread, Pc>, step: Step)
    requires SameTests(a, b, threads, step) && !(step.Rename? && step.works)
    ensures var (x, y) := (ExtractionRuns.After(truth, State(a, threads), step), ExtractionRuns.After(truth, State(b, threads), step));
            x.0 == State(a, y.0.threads) && y.0.files == b && x.1 == y.1
  {
  }

  lemma TestsAreTheSame(truth: Truth, allowed: iset<Job>, start: map<Path, Bytes>, s: System, step: Step)
    requires Clear(truth, allowed) && SystemInv(truth, allowed, start, s)
    ensures SameTests(OnDisk(s.disk.files), View(s.disk.files, Destinations(truth, allowed)), s.threads, step)
  {
    if (step.TestPublished? || step.TestCurrent?) && step.thread in s.threads {
      var pc := s.threads[step.thread];
      assert PcInv(truth, allowed, start, pc);
      if pc.TestingPublished? {
        if ScopedCachePath(pc.job.cfg.resolver, pc.job.out).Ok? {
          NamedFileIsSeen(truth, s.disk.files, allowed, pc.job, ScopedCachePath(pc.job.cfg.resolver, pc.job.out).value);
        }
      } else if pc.TestingCurrent? {
        NamedFileIsSeen(truth, s.disk.files, allowed, pc.job, pc.path);
      }
    }
  }

  /** A step leaves the threads of writers in flight alone, unless it kills their process. */
  lemma RenamersStay(truth: Truth, files: map<Path, Bytes>, threads: map<Thread, Pc>, step: Step, t: Thread)
    requires t in threads && threads[t].Renaming? && (step.Crash? ==> step.process != t.process)
    requires step.Rename? ==> step.thread != t
    ensures var s' := ExtractionRuns.After(truth, State(files, threads), step).0;
            t in s'.threads && s'.threads[t] == threads[t]
  {
  }

  lemma CallKeepsWriters(truth: Truth, s: System, step: Step)
    requires WritersMatch(s) && !LeftToWriter(s, step)
    ensures WritersMatch(AfterCall(truth, s, step).0)
  {
    var s' := AfterCall(truth, s, step).0;
    forall w | w in s'.disk.jobs
      ensures MayBegin(s', w, s'.disk.jobs[w].destination, s'.disk.jobs[w].data)
    {
      assert MayBegin(s, w, s.disk.jobs[w].destination, s.disk.jobs[w].data);
      assert WriterOf(ThreadOf(w)) == w;
      RenamersStay(truth, OnDisk(s.disk.files), s.threads, step, ThreadOf(w));
    }
  }

  lemma CallKeepsDisk(named: iset<W.File>, disk: W.State, step: Step)
    requires W.Inv(disk, named)
    ensures DiskAfterCall(disk, step).files == disk.files && W.Inv(DiskAfterCall(disk, step), named)
  {
    if step.Crash? {
      W.CrashKeepsInv(disk, named, step.process);
    }
  }

  lemma CallIsTheSame(truth: Truth, allowed: iset<Job>, start: map<Path, Bytes>, s: System, step: Step)
    requires Clear(truth, allowed) && SystemInv(truth, allowed, start, s) && !LeftToWriter(s, step)
    ensures var (s', reply) := AfterCall(truth, s, step);
            ExtractionRuns.After(truth, Seen(s, Destinations(truth, allowed)), step) == (Seen(s', Destinations(truth, allowed)), reply)
  {
    TestsAreTheSame(truth, allowed, start, s, step);
    TestsDecide(truth, OnDisk(s.disk.files), View(s.disk.files, Destinations(truth, allowed)), s.threads, step);
    CallKeepsDisk(Destinations(truth, allowed), s.disk, step);
  }

  lemma CallRefines(truth: Truth, allowed: iset<Job>, start: map<Path, Bytes>, s: System, step: Step)
    requires Clear(truth, allowed) && SystemInv(truth, allowed, start, s)
    requires Legal(truth, allowed, step) && !LeftToWriter(s, step)
    ensures var (s', reply) := AfterCall(truth, s, step);
            && SystemInv(truth, allowed, start, s')
            && ExtractionRuns.After(truth, Seen(s, Destinations(truth, allowed)), step) == (Seen(s', Destinations(truth, allowed)), reply)
  {
    CallIsTheSame(truth, allowed, start, s, step);
    CallKeepsWriters(truth, s, step);
    CallKeepsDisk(Destinations(truth, allowed), s.disk, step);
    StepKeeps(truth, allowed, start, Seen(s, Destinations(truth, allowed)), step);
  }

  // ----- steps of writers

  lemma ViewAt(files: map<W.File, Bytes>, named: iset<W.File>, f: W.File)
    requires !W.Spare(f, named)
    ensures f in files <==> PathOf(f) in View(files, named)
    ensures f in files ==> View(files, named)[PathOf(f)] == files[f]
  {
    PathsTellFilesApart();
  }

  lemma ViewWithin(a: map<W.File, Bytes>, b: map<W.File, Bytes>, named: iset<W.File>, p: Path)
    requires W.SameBut(a, b, named) && p in View(a, named)
    ensures p in View(b, named) && View(b, named)[p] == View(a, named)[p]
  {
    var f :| f in a && !W.Spare(f, named) && PathOf(f) == p;
    ViewAt(a, named, f);
    ViewAt(b, named, f);
  }

  lemma SameButSameView(a: map<W.File, Bytes>, b: map<W.File, Bytes>, named: iset<W.File>)
    requires W.SameBut(a, b, named)
    ensures View(a, named) == View(b, named)
  {
    assert W.SameBut(b, a, named);
    forall p | p in View(a, named)
      ensures p in View(b, named) && View(b, named)[p] == View(a, named)[p]
    {
      ViewWithin(a, b, named, p);
    }
    forall p | p in View(b, named)
      ensures p in View(a, named)
    {
      ViewWithin(b, a, named, p);
    }
  }

  lemma AssignedWithin(files: map<W.File, Bytes>, named: iset<W.File>, f: W.File, data: Bytes, p: Path)
    requires !W.Spare(f, named) && p in View(files[f := data], named)
    ensures p in View(files, named)[PathOf(f) := data]
    ensures View(files, named)[PathOf(f) := data][p] == View(files[f := data], named)[p]
  {
    var g :| g in files[f := data] && !W.Spare(g, named) && PathOf(g) == p;
    ViewAt(files[f := data], named, g);
    if g != f {
      PathsTellFilesApart();
      ViewAt(files, named, g);
    }
  }

  lemma AssignedAround(files: map<W.File, Bytes>, named: iset<W.File>, f: W.File, data: Bytes, p: Path)
    requires p in View(files, named)
    ensures p in View(files[f := data], named)
  {
    var g :| g in files && !W.Spare(g, named) && PathOf(g) == p;
    ViewAt(files[f := data], named, g);
  }

  lemma AssignedView(files: map<W.File, Bytes>, named: iset<W.File>, f: W.File, data: Bytes)
    requires !W.Spare(f, named)
    ensures View(files[f := data], named) == View(files, named)[PathOf(f) := data]
  {
    var a, b := View(files[f := data], named), View(files, named);
    forall p | p in a
      ensures p in b[PathOf(f) := data] && b[PathOf(f) := data][p] == a[p]
    {
      AssignedWithin(files, named, f, data, p);
    }
    forall p | p in b
      ensures p in a
    {
      AssignedAround(files, named, f, data, p);
    }
    ViewAt(files[f := data], named, f);
  }

  /** What a writer's step does to the files that are no possible temporaries. */
  lemma WriterMovesView(named: iset<W.File>, s: System, step: W.Step)
    requires W.NoClash(named) && W.Inv(s.disk, named)
    ensures View(W.After(s.disk, step).files, named) ==
            if step.Rename? && W.At(s.disk, step.writer, W.Written)
            then View(s.disk.files, named)[PathOf(s.disk.jobs[step.writer].destination) := s.disk.jobs[step.writer].data]
            else View(s.disk.files, named)
  {
    W.StepCommits(s.disk, named, step, s.disk.files);
    if step.Rename? && W.At(s.disk, step.writer, W.Written) {
      var job := s.disk.jobs[step.writer];
      assert W.JobInv(s.disk, named, step.writer);
      AssignedView(s.disk.files, named, job.destination, job.data);
      SameButSameView(W.After(s.disk, step).files, s.disk.files[job.destination := job.data], named);
    } else {
      SameButSameView(W.After(s.disk, step).files, s.disk.files, named);
    }
  }

  lemma WriteKeepsDisk(truth: Truth, allowed: iset<Job>, start: map<Path, Bytes>, s: System, step: W.Step)
    requires Clear(truth, allowed) && SystemInv(truth, allowed, start, s) && !step.Crash?
    requires step.Begin? ==> MayBegin(s, step.writer, step.destination, step.data)
    ensures W.Inv(W.After(s.disk, step), Destinations(truth, allowed))
  {
    if step.Begin? {
      var pc := s.threads[ThreadOf(step.writer)];
      assert PcInv(truth, allowed, start, pc);
      assert Writes(truth, pc.job, PathOf(step.destination), pc.data);
      assert step.destination in Destinations(truth, allowed);
    }
    ClearHasNoClash(truth, allowed);
    W.StepKeepsInv(s.disk, Destinations(truth, allowed), step);
  }

  lemma JobsOnlyOfSteppers(s: W.State, step: W.Step, w: W.Writer)
    requires !step.Crash? && w in W.After(s, step).jobs
    ensures w in s.jobs ==> W.After(s, step).jobs[w].destination == s.jobs[w].destination && W.After(s, step).jobs[w].data == s.jobs[w].data
    ensures w !in s.jobs ==> step.Begin? && step.writer == w
                             && W.After(s, step).jobs[w].destination == step.destination && W.After(s, step).jobs[w].data == step.data
  {
  }

  lemma WriteKeepsWriters(s: System, step: W.Step)
    requires WritersMatch(s)
    ensures WritersMatch(AfterWrite(s, step).0)
  {
    var s' := AfterWrite(s, step).0;
    if !(step.Crash? || (step.Begin? && !MayBegin(s, step.writer, step.destination, step.data))) {
      forall w | w in s'.disk.jobs
        ensures MayBegin(s', w, s'.disk.jobs[w].destination, s'.disk.jobs[w].data)
      {
        JobsOnlyOfSteppers(s.disk, step, w);
        assert w in s.disk.jobs ==> MayBegin(s, w, s.disk.jobs[w].destination, s.disk.jobs[w].data);
        assert WriterOf(ThreadOf(w)) == w && WriterOf(ThreadOf(step.writer)) == step.writer;
      }
    }
  }

  /** A call ends at its writer's rename, or where the writer fails. */
  lemma ReturnsByRename(s: System, step: W.Step)
    requires Returns(s, step)
    ensures step.Rename? || step.FailToWrite? || step.FailToRename?
    ensures step.Rename? ==> W.At(s.disk, step.writer, W.Written)
  {
  }

  lemma RenameWithoutReturn(named: iset<W.File>, s: System, step: W.Step)
    requires W.Inv(s.disk, named) && step.Rename? && W.At(s.disk, step.writer, W.Written)
    ensures Returns(s, step)
  {
    assert W.JobInv(s.disk, named, step.writer);
  }

  ghost predicate Refines(truth: Truth, allowed: iset<Job>, start: map<Path, Bytes>, s: System, s': System, reply: Option<Reply>,
                          steps: seq<Step>) {
    && SystemInv(truth, allowed, start, s')
    && AllLegal(truth, allowed, steps)
    && ExtractionRuns.AfterAll(truth, Seen(s, Destinations(truth, allowed)), steps) ==
       (Seen(s', Destinations(truth, allowed)), if reply.Some? then [reply.value] else [])
  }

  lemma OneStep(truth: Truth, s: State, step: Step)
    ensures ExtractionRuns.AfterAll(truth, s, [step]) ==
            var (s', reply) := ExtractionRuns.After(truth, s, step); (s', if reply.Some? then [reply.value] else [])
  {
    StepThenRest(truth, s, step, []);
    assert [step] + [] == [step];
    NoReplyFirst(if ExtractionRuns.After(truth, s, step).1.Some? then [ExtractionRuns.After(truth, s, step).1.value] else []);
  }

  lemma RenameIs(truth: Truth, s: State, t: Thread, works: bool)
    requires t in s.threads && s.threads[t].Renaming?
    ensures var pc := s.threads[t];
            ExtractionRuns.After(truth, s, Rename(t, works)) ==
            if works then (State(s.files[pc.path := pc.data], s.threads - {t}), Some(Ok(pc.path)))
            else (State(s.files, s.threads - {t}), Some(Err(WriteFailed(pc.path))))
  {
  }

  lemma ReturnIs(s: System, step: W.Step)
    requires Returns(s, step)
    ensures var path := PathOf(s.disk.jobs[step.writer].destination);
            AfterWrite(s, step) ==
            (System(W.After(s.disk, step), s.threads - {ThreadOf(step.writer)}),
             Some(if step.Rename? then Ok(path) else Err(WriteFailed(path))))
  {
    ReturnsByRename(s, step);
  }

  lemma ReturnRefines(truth: Truth, allowed: iset<Job>, start: map<Path, Bytes>, s: System, step: W.Step)
    requires Clear(truth, allowed) && SystemInv(truth, allowed, start, s) && Returns(s, step)
    ensures var (s', reply) := AfterWrite(s, step);
            ExtractionRuns.After(truth, Seen(s, Destinations(truth, allowed)), Rename(ThreadOf(step.writer), step.Rename?)) ==
            (Seen(s', Destinations(truth, allowed)), reply)
  {
    var job := s.disk.jobs[step.writer];
    assert MayBegin(s, step.writer, job.destination, job.data);
    ReturnsByRename(s, step);
    ReturnIs(s, step);
    ClearHasNoClash(truth, allowed);
    WriterMovesView(Destinations(truth, allowed), s, step);
    RenameIs(truth, Seen(s, Destinations(truth, allowed)), ThreadOf(step.writer), step.Rename?);
  }

  /** A writer's step that ends nothing is nothing to the calls. */
  lemma SilentWrite(truth: Truth, allowed: iset<Job>, start: map<Path, Bytes>, s: System, step: W.Step)
    requires Clear(truth, allowed) && SystemInv(truth, allowed, start, s) && !Returns(s, step)
    ensures AfterWrite(s, step).1.None? && Seen(AfterWrite(s, step).0, Destinations(truth, allowed)) == Seen(s, Destinations(truth, allowed))
  {
    if !step.Crash? {
      ClearHasNoClash(truth, allowed);
    WriterMovesView(Destinations(truth, allowed), s, step);
      if step.Rename? && W.At(s.disk, step.writer, W.Written) {
        RenameWithoutReturn(Destinations(truth, allowed), s, step);
      }
    }
  }

  lemma WriteKeepsInv(truth: Truth, allowed: iset<Job>, start: map<Path, Bytes>, s: System, step: W.Step)
    requires Clear(truth, allowed) && SystemInv(truth, allowed, start, s)
    ensures W.Inv(AfterWrite(s, step).0.disk, Destinations(truth, allowed)) && WritersMatch(AfterWrite(s, step).0)
  {
    WriteKeepsWriters(s, step);
    if !(step.Crash? || (step.Begin? && !MayBegin(s, step.writer, step.destination, step.data))) {
      WriteKeepsDisk(truth, allowed, start, s, step);
    }
  }

  lemma WriteRefines(truth: Truth, allowed: iset<Job>, start: map<Path, Bytes>, s: System, step: W.Step)
    requires Clear(truth, allowed) && SystemInv(truth, allowed, start, s)
    ensures Refines(truth, allowed, start, s, AfterWrite(s, step).0, AfterWrite(s, step).1, Abstract(s, Write(step)))
  {
    WriteKeepsInv(truth, allowed, start, s, step);
    if Returns(s, step) {
      var rename := Rename(ThreadOf(step.writer), step.Rename?);
      ReturnRefines(truth, allowed, start, s, step);
      StepKeeps(truth, allowed, start, Seen(s, Destinations(truth, allowed)), rename);
      RefinesByOne(truth, allowed, start, s, AfterWrite(s, step).0, AfterWrite(s, step).1, rename);
    } else {
      SilentWrite(truth, allowed, start, s, step);
    }
  }

  lemma RefinesByOne(truth: Truth, allowed: iset<Job>, start: map<Path, Bytes>, s: System, s': System, reply: Option<Reply>, step: Step)
    requires SystemInv(truth, allowed, start, s') && Legal(truth, allowed, step)
    requires ExtractionRuns.After(truth, Seen(s, Destinations(truth, allowed)), step) == (Seen(s', Destinations(truth, allowed)), reply)
    ensures Refines(truth, allowed, start, s, s', reply, [step])
  {
    OneStep(truth, Seen(s, Destinations(truth, allowed)), step);
  }

  lemma CallMoveRefines(truth: Truth, allowed: iset<Job>, start: map<Path, Bytes>, s: System, step: Step)
    requires Clear(truth, allowed) && SystemInv(truth, allowed, start, s)
    requires Legal(truth, allowed, step) && !LeftToWriter(s, step)
    ensures Refines(truth, allowed, start, s, AfterCall(truth, s, step).0, AfterCall(truth, s, step).1, [step])
  {
    CallRefines(truth, allowed, start, s, step);
    RefinesByOne(truth, allowed, start, s, AfterCall(truth, s, step).0, AfterCall(truth, s, step).1, step);
  }

  lemma MoveRefines(truth: Truth, allowed: iset<Job>, start: map<Path, Bytes>, s: System, move: Move)
    requires Clear(truth, allowed) && SystemInv(truth, allowed, start, s) && LegalMove(truth, allowed, move)
    ensures Refines(truth, allowed, start, s, After(truth, s, move).0, After(truth, s, move).1, Abstract(s, move))
  {
    match move
    case Write(step) => WriteRefines(truth, allowed, start, s, step);
    case Call(step) =>
      if !LeftToWriter(s, step) {
        CallMoveRefines(truth, allowed, start, s, step);
      }
  }

  // ----- whole runs

  lemma RepliesInARow(x: seq<Reply>, y: seq<Reply>, z: seq<Reply>)
    ensures x + (y + z) == x + y + z
  {
  }

  lemma FirstOf(a: seq<Step>, b: seq<Step>)
    requires a != []
    ensures a == [a[0]] + a[1..] && a + b == [a[0]] + (a[1..] + b)
  {
  }

  lemma {:induction false} AppendedRuns(truth: Truth, s: State, a: seq<Step>, b: seq<Step>)
    ensures var (mid, first) := ExtractionRuns.AfterAll(truth, s, a);
            var (last, second) := ExtractionRuns.AfterAll(truth, mid, b);
            ExtractionRuns.AfterAll(truth, s, a + b) == (last, first + second)
    decreases |a|
  {
    if a == [] {
      assert a + b == b;
      NoReplyFirst(ExtractionRuns.AfterAll(truth, s, b).1);
    } else {
      var step, rest := a[0], a[1..];
      var (next, reply) := ExtractionRuns.After(truth, s, step);
      FirstOf(a, b);
      AppendedRuns(truth, next, rest, b);
      StepThenRest(truth, s, step, rest);
      StepThenRest(truth, s, step, rest + b);
      var (mid, first) := ExtractionRuns.AfterAll(truth, next, rest);
      RepliesInARow(if reply.Some? then [reply.value] else [], first, ExtractionRuns.AfterAll(truth, mid, b).1);
    }
  }

  /**
   * On the files that are no possible temporaries, calls with the real writer are the calls whose
   * rename is one step: for every interleaving of calls and writers, with failures and kills
   * anywhere, the abstract run over the same files makes the same replies and ends in the same
   * files, provided no file a call tests or writes could be a temporary of one some call writes.
   */
  lemma {:induction false} WritersRefineRenames(truth: Truth, allowed: iset<Job>, start: map<Path, Bytes>, s: System, moves: seq<Move>)
    requires Clear(truth, allowed) && SystemInv(truth, allowed, start, s) && AllLegalMoves(truth, allowed, moves)
    ensures var (last, replies) := AfterAll(truth, s, moves);
            && SystemInv(truth, allowed, start, last)
            && AllLegal(truth, allowed, AbstractAll(truth, s, moves))
            && ExtractionRuns.AfterAll(truth, Seen(s, Destinations(truth, allowed)), AbstractAll(truth, s, moves)) ==
               (Seen(last, Destinations(truth, allowed)), replies)
    decreases |moves|
  {
    if moves != [] {
      assert LegalMove(truth, allowed, moves[0]);
      MoveRefines(truth, allowed, start, s, moves[0]);
      var next := After(truth, s, moves[0]).0;
      assert AllLegalMoves(truth, allowed, moves[1..]);
      WritersRefineRenames(truth, allowed, start, next, moves[1..]);
      AppendedRuns(truth, Seen(s, Destinations(truth, allowed)), Abstract(s, moves[0]), AbstractAll(truth, next, moves[1..]));
    }
  }

  lemma StartsWell(truth: Truth, allowed: iset<Job>, start: map<Path, Bytes>, s: System)
    requires s.threads == map[] && s.disk.jobs == map[] && Seen(s, Destinations(truth, allowed)) == State(start, map[])
    ensures SystemInv(truth, allowed, start, s)
  {
    NoWriters(s, Destinations(truth, allowed));
    NobodyYet(truth, allowed, start);
  }

  lemma NoWriters(s: System, named: iset<W.File>)
    requires s.disk.jobs == map[]
    ensures W.Inv(s.disk, named) && WritersMatch(s)
  {
  }

  lemma NobodyYet(truth: Truth, allowed: iset<Job>, start: map<Path, Bytes>)
    ensures Inv(truth, allowed, start, State(start, map[]))
  {
  }

  /**
   * On a real disk, left-over temporaries and all: whatever is interleaved, killed or failing, a file
   * that no call could use as a temporary is as it was, or holds the whole of what some allowed call
   * writes there.
   */
  lemma FilesAreWholeAndExplained(truth: Truth, allowed: iset<Job>, files: map<W.File, Bytes>, counters: map<nat, nat>,
                                  moves: seq<Move>, f: W.File)
    requires Clear(truth, allowed) && AllLegalMoves(truth, allowed, moves) && !W.Spare(f, Destinations(truth, allowed))
    ensures var disk := AfterAll(truth, System(W.Start(files, counters), map[]), moves).0.disk.files;
            && (f in files ==> f in disk && disk[f] == files[f])
            && (f in disk && f !in files ==> Written(truth, allowed, PathOf(f), disk[f]))
  {
    var s := System(W.Start(files, counters), map[]);
    var start := View(files, Destinations(truth, allowed));
    StartsWell(truth, allowed, start, s);
    WritersRefineRenames(truth, allowed, start, s, moves);
    var disk := AfterAll(truth, s, moves).0.disk.files;
    ViewAt(files, Destinations(truth, allowed), f);
    ViewAt(disk, Destinations(truth, allowed), f);
  }

  // ----- the condition is exact

  /** What the calls see of the files they name, from an empty disk on, is what calls with one-step renames see. */
  ghost predicate CallsCannotTell(truth: Truth, allowed: iset<Job>) {
    forall counters: map<nat, nat>, moves: seq<Move>, f: W.File ::
      AllLegalMoves(truth, allowed, moves) && f in Named(allowed) ==>
        LooksAlike(AfterAll(truth, Empty(counters), moves).0.disk.files,
                   ExtractionRuns.AfterAll(truth, NOTHING, AbstractAll(truth, Empty(counters), moves)).0.files, f)
  }

  predicate LooksAlike(disk: map<W.File, Bytes>, files: map<Path, Bytes>, f: W.File) {
    (f in disk <==> PathOf(f) in files) && (f in disk && PathOf(f) in files ==> disk[f] == files[PathOf(f)])
  }

  function Empty(counters: map<nat, nat>): System {
    System(W.Start(map[], counters), map[])
  }

  lemma MoveThenRest(truth: Truth, s: System, move: Move, rest: seq<Move>)
    ensures AfterAll(truth, s, [move] + rest).0 == AfterAll(truth, After(truth, s, move).0, rest).0
    ensures AbstractAll(truth, s, [move] + rest) == Abstract(s, move) + AbstractAll(truth, After(truth, s, move).0, rest)
  {
    assert ([move] + rest)[1..] == rest;
  }

  lemma CallIs(truth: Truth, disk: W.State, here: State, step: Step, next: State)
    requires disk.files == map[] && here.files == map[] && !step.Rename? && !step.Crash?
    requires ExtractionRuns.After(truth, here, step) == (next, None)
    ensures After(truth, System(disk, here.threads), Call(step)).0 == System(disk, next.threads)
  {
    assert OnDisk(map[]) == map[];
  }

  lemma CallMoves(truth: Truth, disk: W.State, here: State, step: Step, next: State, rest: seq<Move>)
    requires disk.files == map[] && here.files == map[] && !step.Rename? && !step.Crash?
    requires ExtractionRuns.After(truth, here, step) == (next, None)
    ensures AfterAll(truth, System(disk, here.threads), [Call(step)] + rest).0 == AfterAll(truth, System(disk, next.threads), rest).0
    ensures AbstractAll(truth, System(disk, here.threads), [Call(step)] + rest)
         == [step] + AbstractAll(truth, System(disk, next.threads), rest)
  {
    CallIs(truth, disk, here, step, next);
    MoveThenRest(truth, System(disk, here.threads), Call(step), rest);
  }

  lemma WriteMoves(truth: Truth, s: System, step: W.Step, rest: seq<Move>)
    requires !step.Crash? && !Returns(s, step)
    requires step.Begin? ==> MayBegin(s, step.writer, step.destination, step.data)
    ensures AfterAll(truth, s, [Write(step)] + rest).0 == AfterAll(truth, s.(disk := W.After(s.disk, step)), rest).0
    ensures AbstractAll(truth, s, [Write(step)] + rest) == AbstractAll(truth, s.(disk := W.After(s.disk, step)), rest)
  {
    assert ([Write(step)] + rest)[1..] == rest;
  }

  /** A call that is about to write d creates its temporary, f, in two steps. */
  lemma OpeningMakesFile(truth: Truth, s: System, t: Thread, number: nat, d: W.File, f: W.File)
    requires s.disk == W.Start(map[], map[t.process := number]) && f == W.File(d.dir, W.TemporaryName(d.name, t.process, number))
    requires t in s.threads && s.threads[t].Renaming? && s.threads[t].path == PathOf(d)
    ensures var w := WriterOf(t);
            var moves := [Write(W.Begin(w, d, s.threads[t].data))] + [Write(W.Open(w))];
            f in AfterAll(truth, s, moves).0.disk.files && AbstractAll(truth, s, moves) == []
  {
    var w := WriterOf(t);
    var begin, open := W.Begin(w, d, s.threads[t].data), W.Open(w);
    assert ThreadOf(w) == t;
    WriteMoves(truth, s, begin, [Write(open)]);
    var named := s.(disk := W.After(s.disk, begin));
    assert [Write(open)] + [] == [Write(open)];
    WriteMoves(truth, named, open, []);
  }

  function CallMovesUpTo(t: Thread, job: Job, casc: Casc, rest: seq<Move>): seq<Move> {
    [Call(Begin(t, job))] + ([Call(TestPublished(t))] + ([Call(TestCurrent(t))] + ([Call(Fetch(t, casc))] + rest)))
  }

  function StepsUpTo(t: Thread, job: Job, casc: Casc, rest: seq<Step>): seq<Step> {
    [Begin(t, job)] + ([TestPublished(t)] + ([TestCurrent(t)] + ([Fetch(t, casc)] + rest)))
  }

  lemma FourSteps(truth: Truth, t: Thread, job: Job, path: Path, casc: Casc, data: Bytes)
    requires Writes(truth, job, path, data) && casc.Ok?
    requires casc.value(truth.tables(ActiveFor(job).value)[job.fdid]) == Some(Content(data, 0))
    ensures ExtractionRuns.AfterAll(truth, NOTHING, StepsUpTo(t, job, casc, [])).0 == At(NOTHING, t, Renaming(job, path, data))
  {
    FromBegin(truth, NOTHING, t, job);
    FromPublished(truth, NOTHING, t, job, path);
    FromCurrent(truth, NOTHING, t, job, path);
    FromFetch(truth, NOTHING, t, job, path, casc, data);
    var s1, s2 := At(NOTHING, t, TestingPublished(job)), At(NOTHING, t, TestingCurrent(job, path));
    var s3, s4 := At(NOTHING, t, Fetching(job, path)), At(NOTHING, t, Renaming(job, path, data));
    MovesOn(truth, NOTHING, Begin(t, job), s1, [TestPublished(t)] + ([TestCurrent(t)] + ([Fetch(t, casc)] + [])));
    MovesOn(truth, s1, TestPublished(t), s2, [TestCurrent(t)] + ([Fetch(t, casc)] + []));
    MovesOn(truth, s2, TestCurrent(t), s3, [Fetch(t, casc)] + []);
    MovesOn(truth, s3, Fetch(t, casc), s4, []);
  }

  lemma FourMoves(truth: Truth, disk: W.State, t: Thread, job: Job, path: Path, casc: Casc, data: Bytes, rest: seq<Move>)
    requires disk.files == map[] && Writes(truth, job, path, data) && casc.Ok?
    requires casc.value(truth.tables(ActiveFor(job).value)[job.fdid]) == Some(Content(data, 0))
    ensures var s, s4 := System(disk, map[]), System(disk, At(NOTHING, t, Renaming(job, path, data)).threads);
            && AfterAll(truth, s, CallMovesUpTo(t, job, casc, rest)).0 == AfterAll(truth, s4, rest).0
            && AbstractAll(truth, s, CallMovesUpTo(t, job, casc, rest)) == StepsUpTo(t, job, casc, AbstractAll(truth, s4, rest))
  {
    FromBegin(truth, NOTHING, t, job);
    FromPublished(truth, NOTHING, t, job, path);
    FromCurrent(truth, NOTHING, t, job, path);
    FromFetch(truth, NOTHING, t, job, path, casc, data);
    var s1, s2 := At(NOTHING, t, TestingPublished(job)), At(NOTHING, t, TestingCurrent(job, path));
    var s3, s4 := At(NOTHING, t, Fetching(job, path)), At(NOTHING, t, Renaming(job, path, data));
    var m3 := [Call(Fetch(t, casc))] + rest;
    var m2 := [Call(TestCurrent(t))] + m3;
    CallMoves(truth, disk, NOTHING, Begin(t, job), s1, [Call(TestPublished(t))] + m2);
    CallMoves(truth, disk, s1, TestPublished(t), s2, m2);
    CallMoves(truth, disk, s2, TestCurrent(t), s3, m3);
    CallMoves(truth, disk, s3, Fetch(t, casc), s4, rest);
  }

  function WriterOpens(t: Thread, d: W.File, data: Bytes): seq<Move> {
    [Write(W.Begin(WriterOf(t), d, data))] + [Write(W.Open(WriterOf(t)))]
  }

  lemma MovesAreLegal(truth: Truth, allowed: iset<Job>, t: Thread, job: Job, casc: Casc, d: W.File, data: Bytes)
    requires job in allowed && job.cfg.resolver.identity.Some? && (casc.Ok? ==> FaithfulArchive(truth, casc.value))
    ensures AllLegalMoves(truth, allowed, CallMovesUpTo(t, job, casc, WriterOpens(t, d, data)))
  {
  }

  /** One call that writes d from an empty disk leaves f, its temporary, for every other call to see. */
  lemma TemporaryShows(truth: Truth, t: Thread, number: nat, job: Job, casc: Casc, d: W.File, data: Bytes, f: W.File)
    requires Writes(truth, job, PathOf(d), data) && f == W.File(d.dir, W.TemporaryName(d.name, t.process, number))
    requires casc.Ok? && casc.value(truth.tables(ActiveFor(job).value)[job.fdid]) == Some(Content(data, 0))
    ensures var s, moves := Empty(map[t.process := number]), CallMovesUpTo(t, job, casc, WriterOpens(t, d, data));
            && f in AfterAll(truth, s, moves).0.disk.files
            && ExtractionRuns.AfterAll(truth, NOTHING, AbstractAll(truth, s, moves)).0.files == map[]
  {
    var disk, path := W.Start(map[], map[t.process := number]), PathOf(d);
    FourMoves(truth, disk, t, job, path, casc, data, WriterOpens(t, d, data));
    OpeningMakesFile(truth, System(disk, At(NOTHING, t, Renaming(job, path, data)).threads), t, number, d, f);
    FourSteps(truth, t, job, path, casc, data);
  }

  /** If a file that is named could be a temporary of one that is written, one call's first steps make it appear. */
  lemma UnclearCanTell(truth: Truth, allowed: iset<Job>) returns (counters: map<nat, nat>, moves: seq<Move>, f: W.File)
    requires !Clear(truth, allowed)
    ensures AllLegalMoves(truth, allowed, moves) && f in Named(allowed)
    ensures f in AfterAll(truth, Empty(counters), moves).0.disk.files
    ensures ExtractionRuns.AfterAll(truth, NOTHING, AbstractAll(truth, Empty(counters), moves)).0.files == map[]
  {
    f :| f in Named(allowed) && W.Spare(f, Destinations(truth, allowed));
    var d :| d in Destinations(truth, allowed) && W.TemporaryOf(f, d);
    var job, data :| job in allowed && Writes(truth, job, PathOf(d), data);
    var pid, number :| f == W.File(d.dir, W.TemporaryName(d.name, pid, number));
    var t, casc: Casc := Thread(pid, 0), Ok((key: Key) => Some(Content(truth.plain(key), 0)));
    counters, moves := map[pid := number], CallMovesUpTo(t, job, casc, WriterOpens(t, d, data));
    MovesAreLegal(truth, allowed, t, job, casc, d, data);
    TemporaryShows(truth, t, number, job, casc, d, data, f);
  }

  /**
   * Calls cannot tell the real writer from a one-step rename exactly when no file that a call tests
   * or writes could be a temporary of one that some call writes.
   */
  lemma CallsCannotTellExactlyWhen(truth: Truth, allowed: iset<Job>)
    ensures CallsCannotTell(truth, allowed) <==> Clear(truth, allowed)
  {
    if Clear(truth, allowed) {
      forall counters: map<nat, nat>, moves: seq<Move>, f: W.File | AllLegalMoves(truth, allowed, moves) && f in Named(allowed)
        ensures LooksAlike(AfterAll(truth, Empty(counters), moves).0.disk.files,
                           ExtractionRuns.AfterAll(truth, NOTHING, AbstractAll(truth, Empty(counters), moves)).0.files, f)
      {
        StartsWell(truth, allowed, map[], Empty(counters));
        WritersRefineRenames(truth, allowed, map[], Empty(counters), moves);
        ViewAt(AfterAll(truth, Empty(counters), moves).0.disk.files, Destinations(truth, allowed), f);
      }
    } else {
      var counters, moves, f := UnclearCanTell(truth, allowed);
      assert !LooksAlike(AfterAll(truth, Empty(counters), moves).0.disk.files,
                         ExtractionRuns.AfterAll(truth, NOTHING, AbstractAll(truth, Empty(counters), moves)).0.files, f);
    }
  }
}
