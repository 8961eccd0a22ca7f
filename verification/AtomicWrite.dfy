/** write_to_path: a temporary sibling, renamed over the destination. */
module AtomicWrite {
  import opened Octets
  import opened DecimalText
  import opened Identity

  // ----- the temporary name

  const SUFFIX := ".partial"

  /** ".{name}.{pid}.{number}.partial" */
  function TemporaryName(name: string, pid: nat, number: nat): string {
    "." + name + "." + Decimal(pid) + "." + Decimal(number) + SUFFIX
  }

  /** The part after the last dot decides. */
  lemma LastDotSplits(a: string, x: string, b: string, y: string)
    requires a + "." + x == b + "." + y
    requires '.' !in x && '.' !in y
    ensures a == b && x == y
  {
    var s := a + "." + x;
    assert s[|a|] == '.' && s[|b|] == '.';
    assert forall k :: |a| < k < |s| ==> s[k] == x[k - |a| - 1] && s[k] != '.';
    assert forall k :: |b| < k < |s| ==> s[k] == y[k - |b| - 1] && s[k] != '.';
    assert a == s[..|a|] && b == s[..|b|];
    assert x == s[|a| + 1..] && y == s[|b| + 1..];
  }

  /** The name tells the destination, the process and the number apart, whatever dots the name has. */
  lemma TemporaryNameIsInjective(a: string, m: nat, i: nat, b: string, n: nat, j: nat)
    requires TemporaryName(a, m, i) == TemporaryName(b, n, j)
    ensures a == b && m == n && i == j
  {
    var s := TemporaryName(a, m, i);
    var x, y := "." + a + "." + Decimal(m), "." + b + "." + Decimal(n);
    assert x + "." + Decimal(i) == s[..|s| - |SUFFIX|] == y + "." + Decimal(j);
    LastDotSplits(x, Decimal(i), y, Decimal(j));
    LastDotSplits("." + a, Decimal(m), "." + b, Decimal(n));
    DecimalIsInjective(i, j);
    DecimalIsInjective(m, n);
    assert a == ("." + a)[1..] && b == ("." + b)[1..];
  }

  // ----- writers, one atomic step at a time

  datatype File = File(dir: Path, name: string)

  /** Identifies a running call: process ids of live processes are distinct. */
  datatype Writer = Writer(pid: nat, thread: nat)

  datatype Job = Job(destination: File, data: Bytes, number: nat, stage: Stage)

  /** Named: the name is drawn; Writing: the file is open; Written: fs::write returned. */
  datatype Stage = Named | Writing(done: nat) | Written

  datatype State = State(files: map<File, Bytes>, jobs: map<Writer, Job>, counters: map<nat, nat>)

  datatype Step =
    | Begin(writer: Writer, destination: File, data: Bytes)
    | Open(writer: Writer)
    | WriteMore(writer: Writer, upTo: nat)
    | CloseFile(writer: Writer)
    | FailToWrite(writer: Writer)
    | Rename(writer: Writer)
    | FailToRename(writer: Writer, cleaned: bool)
    | Crash(pid: nat)

  function Temporary(w: Writer, job: Job): File {
    File(job.destination.dir, TemporaryName(job.destination.name, w.pid, job.number))
  }

  function Counter(s: State, pid: nat): nat {
    if pid in s.counters then s.counters[pid] else 0
  }

  predicate At(s: State, w: Writer, stage: Stage) {
    w in s.jobs && s.jobs[w].stage == stage
  }

  function SetStage(s: State, w: Writer, stage: Stage): State
    requires w in s.jobs
  {
    s.(jobs := s.jobs[w := s.jobs[w].(stage := stage)])
  }

  /** A step a writer is not at changes nothing. */
  function After(s: State, step: Step): State {
    match step
    case Begin(w, destination, data) =>
      if w in s.jobs then s
      else
        var number := Counter(s, w.pid);
        s.(jobs := s.jobs[w := Job(destination, data, number, Named)],
           counters := s.counters[w.pid := number + 1])
    case Open(w) =>
      if !At(s, w, Named) then s
      else SetStage(s, w, Writing(0)).(files := s.files[Temporary(w, s.jobs[w]) := []])
    case WriteMore(w, upTo) =>
      if w !in s.jobs || !s.jobs[w].stage.Writing? || !(s.jobs[w].stage.done <= upTo <= |s.jobs[w].data|) then s
      else SetStage(s, w, Writing(upTo)).(files := s.files[Temporary(w, s.jobs[w]) := s.jobs[w].data[..upTo]])
    case CloseFile(w) =>
      if w !in s.jobs || s.jobs[w].stage != Writing(|s.jobs[w].data|) then s else SetStage(s, w, Written)
    case FailToWrite(w) =>
      if w !in s.jobs || s.jobs[w].stage.Written? then s else s.(jobs := s.jobs - {w})
    case Rename(w) =>
      if !At(s, w, Written) || Temporary(w, s.jobs[w]) !in s.files then s
      else
        var job := s.jobs[w];
        var moved := s.files[Temporary(w, job)];
        s.(files := (s.files - {Temporary(w, job)})[job.destination := moved], jobs := s.jobs - {w})
    case FailToRename(w, cleaned) =>
      if !At(s, w, Written) then s
      else s.(files := if cleaned then s.files - {Temporary(w, s.jobs[w])} else s.files, jobs := s.jobs - {w})
    case Crash(pid) =>
      s.(jobs := map w | w in s.jobs && w.pid != pid :: s.jobs[w], counters := s.counters - {pid})
  }

  /** Any files, and processes that have already written any number of times. */
  function Start(files: map<File, Bytes>, counters: map<nat, nat>): State {
    State(files, map[], counters)
  }

  function Run(start: State, steps: seq<Step>): State {
    if steps == [] then start else After(Run(start, steps[..|steps| - 1]), steps[|steps| - 1])
  }

  // ----- names

  /** Numbers in flight are below their process's counter, and no two calls of a process share one. */
  ghost predicate NumbersInv(s: State) {
    forall w :: w in s.jobs ==>
      && s.jobs[w].number < Counter(s, w.pid)
      && forall v :: v in s.jobs && v.pid == w.pid && s.jobs[v].number == s.jobs[w].number ==> v == w
  }

  lemma FewerJobsKeepNumbers(s: State, s': State)
    requires NumbersInv(s)
    requires forall w :: w in s'.jobs ==> && w in s.jobs && s'.jobs[w].number == s.jobs[w].number
                                          && Counter(s', w.pid) == Counter(s, w.pid)
    ensures NumbersInv(s')
  {
  }

  lemma BeginKeepsNumbers(s: State, w: Writer, destination: File, data: Bytes)
    requires NumbersInv(s)
    ensures NumbersInv(After(s, Begin(w, destination, data)))
  {
  }

  lemma StepKeepsNumbers(s: State, step: Step)
    requires NumbersInv(s)
    ensures NumbersInv(After(s, step))
  {
    if step.Begin? {
      BeginKeepsNumbers(s, step.writer, step.destination, step.data);
    } else {
      FewerJobsKeepNumbers(s, After(s, step));
    }
  }

  lemma {:induction false} RunKeepsNumbers(start: State, steps: seq<Step>)
    requires start.jobs == map[]
    ensures NumbersInv(Run(start, steps))
  {
    if steps != [] {
      RunKeepsNumbers(start, steps[..|steps| - 1]);
      StepKeepsNumbers(Run(start, steps[..|steps| - 1]), steps[|steps| - 1]);
    }
  }

  lemma LiveTemporariesDiffer(s: State, v: Writer, w: Writer)
    requires NumbersInv(s) && v in s.jobs && w in s.jobs && v != w
    ensures TemporaryName(s.jobs[v].destination.name, v.pid, s.jobs[v].number) !=
            TemporaryName(s.jobs[w].destination.name, w.pid, s.jobs[w].number)
  {
    var a, b := s.jobs[v], s.jobs[w];
    if TemporaryName(a.destination.name, v.pid, a.number) == TemporaryName(b.destination.name, w.pid, b.number) {
      TemporaryNameIsInjective(a.destination.name, v.pid, a.number, b.destination.name, w.pid, b.number);
    }
  }

  /** In every run, whatever its destinations, no two live writers share a temporary name. */
  lemma NoLiveNamesShared(start: State, steps: seq<Step>, v: Writer, w: Writer)
    requires start.jobs == map[]
    requires v in Run(start, steps).jobs && w in Run(start, steps).jobs && v != w
    ensures var s := Run(start, steps);
            TemporaryName(s.jobs[v].destination.name, v.pid, s.jobs[v].number) !=
            TemporaryName(s.jobs[w].destination.name, w.pid, s.jobs[w].number)
  {
    RunKeepsNumbers(start, steps);
    LiveTemporariesDiffer(Run(start, steps), v, w);
  }

  // ----- the simple form: a write is one assignment, made by its rename

  /** f is what some call writing d could use as its temporary. */
  ghost predicate TemporaryOf(f: File, d: File) {
    exists pid, number :: f == File(d.dir, TemporaryName(d.name, pid, number))
  }

  ghost predicate Spare(f: File, allowed: iset<File>) {
    exists d :: d in allowed && TemporaryOf(f, d)
  }

  /** No file that may be written is a possible temporary of one that may be. */
  ghost predicate NoClash(allowed: iset<File>) {
    forall f :: f in allowed ==> !Spare(f, allowed)
  }

  /** Callers only name destinations out of allowed. */
  ghost predicate Within(allowed: iset<File>, steps: seq<Step>) {
    forall k :: 0 <= k < |steps| && steps[k].Begin? ==> steps[k].destination in allowed
  }

  function Committed(start: State, steps: seq<Step>): map<File, Bytes> {
    if steps == [] then start.files
    else
      var before, step := steps[..|steps| - 1], steps[|steps| - 1];
      var s := Run(start, before);
      if step.Rename? && At(s, step.writer, Written) then
        Committed(start, before)[s.jobs[step.writer].destination := s.jobs[step.writer].data]
      else Committed(start, before)
  }

  ghost predicate JobInv(s: State, allowed: iset<File>, w: Writer)
    requires w in s.jobs
  {
    var job := s.jobs[w];
    var temporary := Temporary(w, job);
    && job.destination in allowed
    && (job.stage.Writing? ==> job.stage.done <= |job.data|)
    && (job.stage.Writing? ==> temporary in s.files && s.files[temporary] == job.data[..job.stage.done])
    && (job.stage.Written? ==> temporary in s.files && s.files[temporary] == job.data)
  }

  ghost predicate Inv(s: State, allowed: iset<File>) {
    NumbersInv(s) && forall w :: w in s.jobs ==> JobInv(s, allowed, w)
  }

  ghost predicate SameBut(files: map<File, Bytes>, committed: map<File, Bytes>, allowed: iset<File>) {
    forall f :: !Spare(f, allowed) ==> (f in files <==> f in committed) && (f in files ==> files[f] == committed[f])
  }

  lemma TemporaryIsSpare(s: State, allowed: iset<File>, w: Writer)
    requires w in s.jobs && s.jobs[w].destination in allowed
    ensures Spare(Temporary(w, s.jobs[w]), allowed)
  {
    assert TemporaryOf(Temporary(w, s.jobs[w]), s.jobs[w].destination);
  }

  /** A step of w that touches no temporary but its own leaves every other writer's facts alone. */
  lemma OthersKept(s: State, s': State, allowed: iset<File>, w: Writer)
    requires NumbersInv(s') && Inv(s, allowed) && w in s.jobs
    requires forall v :: v in s'.jobs && v != w ==> v in s.jobs && s'.jobs[v] == s.jobs[v]
    requires forall f :: Spare(f, allowed) && f != Temporary(w, s.jobs[w]) && f in s.files ==>
                           f in s'.files && s'.files[f] == s.files[f]
    requires w in s'.jobs ==> JobInv(s', allowed, w)
    ensures Inv(s', allowed)
  {
    forall v | v in s'.jobs && v != w
      ensures JobInv(s', allowed, v)
    {
      assert JobInv(s, allowed, v);
      TemporaryIsSpare(s, allowed, v);
      LiveTemporariesDiffer(s, v, w);
    }
  }

  lemma WritingKeepsInv(s: State, allowed: iset<File>, step: Step)
    requires Inv(s, allowed) && (step.Open? || step.WriteMore? || step.CloseFile?) && step.writer in s.jobs
    ensures Inv(After(s, step), allowed)
  {
    StepKeepsNumbers(s, step);
    assert JobInv(s, allowed, step.writer);
    OthersKept(s, After(s, step), allowed, step.writer);
  }

  lemma EndKeepsInv(s: State, allowed: iset<File>, step: Step)
    requires NoClash(allowed) && Inv(s, allowed)
    requires (step.Rename? || step.FailToRename? || step.FailToWrite?) && step.writer in s.jobs
    ensures Inv(After(s, step), allowed)
  {
    StepKeepsNumbers(s, step);
    assert JobInv(s, allowed, step.writer);
    assert !Spare(s.jobs[step.writer].destination, allowed);
    OthersKept(s, After(s, step), allowed, step.writer);
  }

  lemma BeginKeepsInv(s: State, allowed: iset<File>, w: Writer, destination: File, data: Bytes)
    requires Inv(s, allowed) && destination in allowed
    ensures Inv(After(s, Begin(w, destination, data)), allowed)
  {
    var s' := After(s, Begin(w, destination, data));
    StepKeepsNumbers(s, Begin(w, destination, data));
    forall v | v in s'.jobs
      ensures JobInv(s', allowed, v)
    {
      assert v in s.jobs ==> JobInv(s, allowed, v);
    }
  }

  lemma CrashKeepsInv(s: State, allowed: iset<File>, pid: nat)
    requires Inv(s, allowed)
    ensures Inv(After(s, Crash(pid)), allowed)
  {
    var s' := After(s, Crash(pid));
    StepKeepsNumbers(s, Crash(pid));
    forall v | v in s'.jobs
      ensures JobInv(s', allowed, v)
    {
      assert JobInv(s, allowed, v);
    }
  }

  lemma StepKeepsInv(s: State, allowed: iset<File>, step: Step)
    requires NoClash(allowed) && Inv(s, allowed) && (step.Begin? ==> step.destination in allowed)
    ensures Inv(After(s, step), allowed)
  {
    if step.Begin? {
      BeginKeepsInv(s, allowed, step.writer, step.destination, step.data);
    } else if step.Crash? {
      CrashKeepsInv(s, allowed, step.pid);
    } else if step.writer in s.jobs {
      if step.Rename? || step.FailToRename? || step.FailToWrite? {
        EndKeepsInv(s, allowed, step);
      } else {
        WritingKeepsInv(s, allowed, step);
      }
    }
  }

  lemma {:induction false} RunInv(start: State, allowed: iset<File>, steps: seq<Step>)
    requires start.jobs == map[] && NoClash(allowed) && Within(allowed, steps)
    ensures Inv(Run(start, steps), allowed)
  {
    if steps != [] {
      var before := steps[..|steps| - 1];
      assert Within(allowed, before);
      RunInv(start, allowed, before);
      StepKeepsInv(Run(start, before), allowed, steps[|steps| - 1]);
    }
  }

  lemma StepCommits(s: State, allowed: iset<File>, step: Step, committed: map<File, Bytes>)
    requires Inv(s, allowed) && SameBut(s.files, committed, allowed)
    ensures SameBut(After(s, step).files,
              if step.Rename? && At(s, step.writer, Written)
              then committed[s.jobs[step.writer].destination := s.jobs[step.writer].data] else committed, allowed)
  {
    if !step.Crash? && step.writer in s.jobs {
      assert JobInv(s, allowed, step.writer);
      TemporaryIsSpare(s, allowed, step.writer);
    }
  }

  /**
   * Readers cannot tell the writers from ones that assign whole files: after any interleaving,
   * failures and crashes included, every file that is no possible temporary is absent, original,
   * or the whole data of the last write that finished.
   */
  lemma {:induction false} ReadersSeeWholeWrites(start: State, allowed: iset<File>, steps: seq<Step>)
    requires start.jobs == map[] && NoClash(allowed) && Within(allowed, steps)
    ensures SameBut(Run(start, steps).files, Committed(start, steps), allowed)
  {
    if steps != [] {
      var before := steps[..|steps| - 1];
      assert Within(allowed, before);
      ReadersSeeWholeWrites(start, allowed, before);
      RunInv(start, allowed, before);
      StepCommits(Run(start, before), allowed, steps[|steps| - 1], Committed(start, before));
    }
  }

  /** In every run over these destinations, each of them is as if its writes were single assignments. */
  ghost predicate WritesAreAtomic(allowed: iset<File>) {
    forall start: State, steps: seq<Step>, f: File ::
      start.jobs == map[] && Within(allowed, steps) && f in allowed ==>
        var files, committed := Run(start, steps).files, Committed(start, steps);
        (f in files <==> f in committed) && (f in files ==> files[f] == committed[f])
  }

  /** A call that writes d empties f, one of its possible temporaries, before it has written anything. */
  lemma ClashEmptiesAFile(allowed: iset<File>, d: File, f: File) returns (start: State, steps: seq<Step>)
    requires d in allowed && TemporaryOf(f, d)
    ensures start.jobs == map[] && Within(allowed, steps)
    ensures f in Run(start, steps).files && Run(start, steps).files[f] == []
    ensures f in Committed(start, steps) && Committed(start, steps)[f] != []
  {
    var pid, number :| f == File(d.dir, TemporaryName(d.name, pid, number));
    var w, original: Bytes := Writer(pid, 0), [1];
    start := Start(map[f := original], map[pid := number]);
    var begin, open := Begin(w, d, original), Open(w);
    steps := [begin, open];
    assert steps[..1] == [begin] && [begin][..0] == [];
    assert Run(start, [begin]) == After(start, begin);
    assert Run(start, steps) == After(After(start, begin), open);
    assert Committed(start, []) == start.files;
    assert Committed(start, [begin]) == start.files;
    assert steps[..|steps| - 1] == [begin] && steps[|steps| - 1] == open;
    assert Committed(start, steps) == start.files;
  }

  /**
   * Every write to a set of destinations is atomic, in every run of any number of callers, exactly
   * when none of the destinations could be another's temporary.
   */
  lemma AtomicExactlyWhen(allowed: iset<File>)
    ensures WritesAreAtomic(allowed) <==> NoClash(allowed)
  {
    if NoClash(allowed) {
      forall start: State, steps: seq<Step>, f: File | start.jobs == map[] && Within(allowed, steps) && f in allowed
        ensures var files, committed := Run(start, steps).files, Committed(start, steps);
                (f in files <==> f in committed) && (f in files ==> files[f] == committed[f])
      {
        ReadersSeeWholeWrites(start, allowed, steps);
      }
    } else {
      var f :| f in allowed && Spare(f, allowed);
      var d :| d in allowed && TemporaryOf(f, d);
      var start, steps := ClashEmptiesAFile(allowed, d, f);
    }
  }

  // ----- what is left behind

  /** The step does not strand a temporary: only a kill, a failing write, and a rename whose clean-up fails do. */
  predicate CleansUp(step: Step) {
    !step.Crash? && !step.FailToWrite? && !(step.FailToRename? && !step.cleaned)
  }

  /** Every possible temporary on disk belongs to a call in flight. */
  ghost predicate Tidy(s: State, allowed: iset<File>) {
    forall f :: f in s.files && Spare(f, allowed) ==> Owned(s, f)
  }

  ghost predicate Owned(s: State, f: File) {
    exists w :: w in s.jobs && f == Temporary(w, s.jobs[w])
  }

  lemma OwnersStay(s: State, step: Step, f: File)
    requires Owned(s, f) && CleansUp(step)
    ensures Owned(After(s, step), f) || f !in After(s, step).files || (step.Rename? && f == s.jobs[step.writer].destination)
  {
    var w :| w in s.jobs && f == Temporary(w, s.jobs[w]);
    if w in After(s, step).jobs {
      assert Temporary(w, After(s, step).jobs[w]) == f;
    }
  }

  lemma NewFilesAreOwned(s: State, step: Step, f: File)
    requires f in After(s, step).files && f !in s.files
    ensures Owned(After(s, step), f) || (step.Rename? && At(s, step.writer, Written) && f == s.jobs[step.writer].destination)
  {
    if step.Open? || step.WriteMore? {
      assert step.writer in After(s, step).jobs && f == Temporary(step.writer, After(s, step).jobs[step.writer]);
    }
  }

  /** Unless a call is killed or fails so, no temporary outlives its call: on a quiet disk there is none. */
  lemma {:induction false} NoTemporaryIsLeft(start: State, allowed: iset<File>, steps: seq<Step>)
    requires start.jobs == map[] && NoClash(allowed) && Within(allowed, steps)
    requires forall f :: f in start.files ==> !Spare(f, allowed)
    requires forall k :: 0 <= k < |steps| ==> CleansUp(steps[k])
    ensures Tidy(Run(start, steps), allowed)
    ensures Run(start, steps).jobs == map[] ==> forall f :: f in Run(start, steps).files ==> !Spare(f, allowed)
  {
    if steps != [] {
      var n := |steps| - 1;
      var s, step := Run(start, steps[..n]), steps[n];
      assert Within(allowed, steps[..n]);
      NoTemporaryIsLeft(start, allowed, steps[..n]);
      RunInv(start, allowed, steps[..n]);
      assert step.Rename? && step.writer in s.jobs ==> JobInv(s, allowed, step.writer);
      forall f | f in After(s, step).files && Spare(f, allowed)
        ensures Owned(After(s, step), f)
      {
        if f in s.files {
          OwnersStay(s, step, f);
        } else {
          NewFilesAreOwned(s, step, f);
        }
      }
    }
  }
}
