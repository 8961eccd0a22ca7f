/** Progress of a publisher running alone, over any builder that gets through. */
module SoloPublication {
  import opened Wrappers
  import opened Namespace
  import opened Rebuild
  import opened Publication

  /** A builder left in peace: what its steps keep, which go forward, which only wait, and how many are left. */
  datatype Work = Work(
    inv: (BuilderPc, Dir) -> bool,
    forward: (BuilderPc, Dir, BuilderPc, Dir) -> bool,
    waits: (BuilderPc, Dir, BuilderPc, Dir) -> bool,
    rank: BuilderPc -> nat)

  /** Some step goes forward until it is finished, each lowers the rank, and what it finishes is fresh. */
  ghost predicate GetsThrough(work: Work) {
    && work.inv(Start, map[])
    && (forall b, d, b', d' :: work.inv(b, d) && work.forward(b, d, b', d') ==> work.inv(b', d') && work.rank(b') < work.rank(b))
    && (forall b, d, b', d' :: work.inv(b, d) && work.waits(b, d, b', d') ==> work.inv(b', d') && work.rank(b') <= work.rank(b))
    && (forall b, d :: work.inv(b, d) && !b.Finished? ==> exists b', d' :: work.forward(b, d, b', d'))
    && (forall d :: work.inv(Finished, d) ==> Fresh(d))
  }

  /** A step of pid with no failing call, a free staging name, and a builder that goes forward. */
  ghost predicate Healthy(work: Work, s: State, step: Step, pid: nat, name: string) {
    && step.pid == pid && pid in s.procs
    && match step
       case Call(_) | Crash(_) | LockFails(_) | CheckTargetFails(_) | CreateStagingFails(_) | VerifyStagingFails(_)
         | RemoveFails(_) | RenameFails(_) | CleanFails(_) => false
       case CreateStaging(_, n) => n == name
       case Build(_, builder, dir) =>
         var pc := s.procs[pid];
         pc.Building? && pc.name in s.staging && work.forward(pc.builder, s.staging[pc.name], builder, dir)
       case BuildReturns(_, ok) => s.procs[pid].Building? && s.procs[pid].builder.Finished? && ok
       case _ => true
  }

  ghost predicate Waits(work: Work, s: State, step: Step, pid: nat) {
    && step.Build? && step.pid == pid && pid in s.procs
    && var pc := s.procs[pid];
       pc.Building? && pc.name in s.staging && work.waits(pc.builder, s.staging[pc.name], step.builder, step.dir)
  }

  /** What a caller is to be told who finds this target: its inspection's error, or in the end Ok. */
  function Verdict(target: Option<Dir>): Outcome {
    if target.Some? && ResolutionCacheIsFresh(target.value).Err?
    then Err(ResolutionCacheIsFresh(target.value).error)
    else Ok(())
  }

  /** Where a lone publisher that came upon found can be, and what its staging directory then holds. */
  ghost predicate Alone(work: Work, found: Option<Dir>, s: State, pid: nat, name: string) {
    && pid in s.procs
    && (s.lock.None? || s.lock == Some(pid))
    && match s.procs[pid]
       case Waiting | Locked => name !in s.staging && s.target == found
       case Checked => name !in s.staging && Verdict(found).Ok?
       case Building(n, builder) => n == name && n in s.staging && work.inv(builder, s.staging[n]) && Verdict(found).Ok?
       case Built(n) => n == name && n in s.staging && Fresh(s.staging[n]) && Verdict(found).Ok?
       case Verified(n) => n == name && Verdict(found).Ok?
       case Cleared(n) => n == name && Verdict(found).Ok?
       case Cleanup(_, outcome) => outcome == Verdict(found) && outcome.Ok?
       case Returning(outcome) => outcome == Verdict(found) && (outcome.Err? ==> s.target == found)
       case Done(outcome) => outcome == Verdict(found) && (outcome.Err? ==> s.target == found)
       case Crashed => false
  }

  function TargetSize(s: State): nat {
    if s.target.None? then 0 else |s.target.value| + 1
  }

  function Rank(work: Work, s: State, pid: nat): nat
    requires pid in s.procs
  {
    match s.procs[pid]
    case Waiting => work.rank(Start) + 9 + TargetSize(s)
    case Locked => work.rank(Start) + 8 + TargetSize(s)
    case Checked => work.rank(Start) + 7 + TargetSize(s)
    case Building(_, builder) => work.rank(builder) + 6 + TargetSize(s)
    case Built(_) => 5 + TargetSize(s)
    case Verified(_) => 4 + TargetSize(s)
    case Cleared(_) => 3
    case Cleanup(_, _) => 2
    case Returning(_) => 1
    case Done(_) => 0
    case Crashed => 0
  }

  lemma BuildStepLowersRank(work: Work, found: Option<Dir>, s: State, step: Step, s': State, pid: nat, name: string)
    requires GetsThrough(work) && Alone(work, found, s, pid, name) && step.Build?
    requires Healthy(work, s, step, pid, name) && Next(s, step, s')
    ensures Alone(work, found, s', pid, name) && Rank(work, s', pid) < Rank(work, s, pid)
  {
  }

  lemma RemovalLowersRank(work: Work, found: Option<Dir>, s: State, step: Step, s': State, pid: nat, name: string)
    requires Alone(work, found, s, pid, name) && step.RemoveEntry? && step.pid == pid && Next(s, step, s')
    ensures Alone(work, found, s', pid, name) && Rank(work, s', pid) < Rank(work, s, pid)
  {
    assert s'.target.value.Keys == s.target.value.Keys - {step.file};
    assert |s'.target.value.Keys| == |s'.target.value|;
  }

  predicate BeforeBuilding(step: Step) {
    step.Acquire? || step.CheckTarget? || step.CreateStaging?
  }

  lemma ComingLowersRank(work: Work, found: Option<Dir>, s: State, step: Step, s': State, pid: nat, name: string)
    requires work.inv(Start, map[]) && Alone(work, found, s, pid, name) && BeforeBuilding(step)
    requires Healthy(work, s, step, pid, name) && Next(s, step, s')
    ensures Alone(work, found, s', pid, name) && Rank(work, s', pid) < Rank(work, s, pid)
  {
  }

  lemma GoingLowersRank(work: Work, found: Option<Dir>, s: State, step: Step, s': State, pid: nat, name: string)
    requires forall d :: work.inv(Finished, d) ==> Fresh(d)
    requires Alone(work, found, s, pid, name) && ProcInv(s, s.procs[pid])
    requires !BeforeBuilding(step) && !step.Build? && !step.RemoveEntry?
    requires Healthy(work, s, step, pid, name) && Next(s, step, s')
    ensures Alone(work, found, s', pid, name) && Rank(work, s', pid) < Rank(work, s, pid)
  {
  }

  lemma StepLowersRank(work: Work, found: Option<Dir>, s: State, step: Step, s': State, pid: nat, name: string,
                       legacy: Option<Dir>)
    requires GetsThrough(work) && Inv(s, legacy) && Alone(work, found, s, pid, name)
    requires Healthy(work, s, step, pid, name) && Next(s, step, s')
    ensures Alone(work, found, s', pid, name) && Rank(work, s', pid) < Rank(work, s, pid)
  {
    assert ProcInv(s, s.procs[pid]);
    if step.Build? {
      BuildStepLowersRank(work, found, s, step, s', pid, name);
    } else if step.RemoveEntry? {
      RemovalLowersRank(work, found, s, step, s', pid, name);
    } else if BeforeBuilding(step) {
      ComingLowersRank(work, found, s, step, s', pid, name);
    } else {
      GoingLowersRank(work, found, s, step, s', pid, name);
    }
  }

  lemma WaitingKeepsRank(work: Work, found: Option<Dir>, s: State, step: Step, s': State, pid: nat, name: string)
    requires GetsThrough(work) && Alone(work, found, s, pid, name)
    requires Waits(work, s, step, pid) && Next(s, step, s')
    ensures Alone(work, found, s', pid, name) && Rank(work, s', pid) <= Rank(work, s, pid)
  {
  }

  lemma HealthyStepExists(work: Work, found: Option<Dir>, s: State, pid: nat, name: string, legacy: Option<Dir>)
    returns (step: Step, s': State)
    requires GetsThrough(work) && Inv(s, legacy) && Alone(work, found, s, pid, name) && Rank(work, s, pid) > 0
    ensures Healthy(work, s, step, pid, name) && Next(s, step, s')
  {
    assert ProcInv(s, s.procs[pid]);
    match s.procs[pid]
    case Waiting => step, s' := Acquire(pid), At(s, pid, Locked).(lock := Some(pid));
    case Locked =>
      step := CheckTarget(pid);
      s' := At(s, pid, if TargetFresh(s) || Verdict(s.target).Err? then Returning(Verdict(s.target)) else Checked);
    case Checked =>
      step := CreateStaging(pid, name);
      s' := WithStaging(At(s, pid, Building(name, Start)), name, map[]).(log := s.log + [BuildStarted(pid)]);
    case Building(n, builder) =>
      if builder.Finished? {
        step, s' := BuildReturns(pid, true), At(s, pid, Built(n));
      } else {
        var builder', dir :| work.forward(builder, s.staging[n], builder', dir);
        step, s' := Build(pid, builder', dir), WithStaging(At(s, pid, Building(n, builder')), n, dir);
      }
    case Built(n) => step, s' := VerifyStaging(pid), At(s, pid, Verified(n));
    case Verified(n) => step, s' := ClearingStep(s, pid, n);
    case Cleared(n) =>
      step := Rename(pid);
      s' := At(s, pid, Cleanup(n, Ok(()))).(
        target := Some(s.staging[n]), staging := s.staging - {n}, log := s.log + [Published(pid, s.staging[n])]);
    case Cleanup(n, outcome) => step, s' := StagingAbsent(pid), At(s, pid, Returning(outcome));
    case Returning(outcome) => step, s' := Return(pid), At(s, pid, Done(outcome)).(lock := None);
  }

  lemma ClearingStep(s: State, pid: nat, n: string) returns (step: Step, s': State)
    requires pid in s.procs && s.procs[pid] == Verified(n)
    ensures (step.RemoveEntry? || step.RemoveTargetDir? || step.TargetAbsent?) && step.pid == pid && Next(s, step, s')
  {
    if s.target.None? {
      step, s' := TargetAbsent(pid), At(s, pid, Cleared(n));
    } else if s.target.value == map[] {
      step, s' := RemoveTargetDir(pid), At(s, pid, Cleared(n)).(target := None);
    } else {
      var file :| file in s.target.value;
      step, s' := RemoveEntry(pid, file), s.(target := Some(s.target.value - {file}));
    }
  }

  /** The caller is done with what it found: an error and no change, or Ok and a fresh target. */
  ghost predicate Served(found: Option<Dir>, s: State, pid: nat) {
    && pid in s.procs && s.procs[pid] == Done(Verdict(found))
    && if Verdict(found).Ok? then TargetFresh(s) else s.target == found
  }

  /** Every healthy step counts down, and one is available until the publisher is done. */
  lemma SoloStep(work: Work, found: Option<Dir>, s: State, pid: nat, name: string, legacy: Option<Dir>)
    requires GetsThrough(work) && Inv(s, legacy) && Alone(work, found, s, pid, name)
    ensures Rank(work, s, pid) == 0 ==> Served(found, s, pid)
    ensures Rank(work, s, pid) > 0 ==> exists step, s' :: Healthy(work, s, step, pid, name) && Next(s, step, s')
    ensures forall step, s' :: Healthy(work, s, step, pid, name) && Next(s, step, s') ==>
              Alone(work, found, s', pid, name) && Rank(work, s', pid) < Rank(work, s, pid)
  {
    assert ProcInv(s, s.procs[pid]);
    if Rank(work, s, pid) > 0 {
      var _, _ := HealthyStepExists(work, found, s, pid, name, legacy);
    }
    forall step, s' | Healthy(work, s, step, pid, name) && Next(s, step, s')
      ensures Alone(work, found, s', pid, name) && Rank(work, s', pid) < Rank(work, s, pid)
    {
      StepLowersRank(work, found, s, step, s', pid, name, legacy);
    }
  }

  // ---------- Whole runs ----------

  ghost predicate SoloRun(work: Work, states: seq<State>, steps: seq<Step>, pid: nat, name: string) {
    && |states| == |steps| + 1
    && forall i :: 0 <= i < |steps| ==>
         && Next(states[i], steps[i], states[i + 1])
         && (Healthy(work, states[i], steps[i], pid, name) || Waits(work, states[i], steps[i], pid))
  }

  /** The steps of a run that go forward. */
  ghost function Progress(work: Work, states: seq<State>, steps: seq<Step>, pid: nat, name: string): (n: nat)
    requires |states| == |steps| + 1
    ensures n <= |steps|
  {
    if steps == [] then 0
    else
      var k := |steps| - 1;
      Progress(work, states[..k + 1], steps[..k], pid, name) + if Healthy(work, states[k], steps[k], pid, name) then 1 else 0
  }

  ghost predicate Bounded(work: Work, found: Option<Dir>, s: State, pid: nat, name: string, legacy: Option<Dir>,
                          done: nat, bound: nat) {
    Inv(s, legacy) && Alone(work, found, s, pid, name) && done + Rank(work, s, pid) <= bound
  }

  lemma StaysBounded(work: Work, found: Option<Dir>, s: State, step: Step, s': State, pid: nat, name: string,
                     legacy: Option<Dir>, done: nat, bound: nat)
    requires GetsThrough(work) && Bounded(work, found, s, pid, name, legacy, done, bound)
    requires Next(s, step, s') && (Healthy(work, s, step, pid, name) || Waits(work, s, step, pid))
    ensures Bounded(work, found, s', pid, name, legacy, done + if Healthy(work, s, step, pid, name) then 1 else 0, bound)
  {
    InvPreserved(s, step, s', legacy);
    if Healthy(work, s, step, pid, name) {
      StepLowersRank(work, found, s, step, s', pid, name, legacy);
    } else {
      WaitingKeepsRank(work, found, s, step, s', pid, name);
    }
  }

  lemma SoloRunFront(work: Work, states: seq<State>, steps: seq<Step>, pid: nat, name: string)
    requires SoloRun(work, states, steps, pid, name) && steps != []
    ensures var k := |steps| - 1;
            && SoloRun(work, states[..k + 1], steps[..k], pid, name)
            && states[..k + 1][k] == states[k] && states[..k + 1][0] == states[0]
            && Next(states[k], steps[k], states[k + 1])
            && (Healthy(work, states[k], steps[k], pid, name) || Waits(work, states[k], steps[k], pid))
            && Progress(work, states, steps, pid, name) ==
               Progress(work, states[..k + 1], steps[..k], pid, name) +
               (if Healthy(work, states[k], steps[k], pid, name) then 1 else 0)
  {
  }

  lemma {:induction false} RunStaysBounded(work: Work, found: Option<Dir>, first: State, pid: nat, name: string,
                                           legacy: Option<Dir>, bound: nat, states: seq<State>, steps: seq<Step>)
    requires GetsThrough(work) && Bounded(work, found, first, pid, name, legacy, 0, bound)
    requires SoloRun(work, states, steps, pid, name) && states[0] == first
    ensures Bounded(work, found, states[|steps|], pid, name, legacy, Progress(work, states, steps, pid, name), bound)
    decreases |steps|
  {
    if steps != [] {
      var k := |steps| - 1;
      SoloRunFront(work, states, steps, pid, name);
      RunStaysBounded(work, found, first, pid, name, legacy, bound, states[..k + 1], steps[..k]);
      StaysBounded(work, found, states[k], steps[k], states[k + 1], pid, name, legacy,
                   Progress(work, states[..k + 1], steps[..k], pid, name), bound);
    }
  }

  lemma FirstState(work: Work, legacy: Option<Dir>, s: State, pid: nat, name: string)
    requires Reachable(legacy, s) && s.lock.None? && Idle(s, pid) && name !in s.staging
    ensures Bounded(work, s.target, At(s, pid, Waiting), pid, name, legacy, 0, work.rank(Start) + 9 + TargetSize(s))
  {
    var states, steps :| Run(legacy, states, steps) && s == states[|steps|];
    RunInv(legacy, states, steps, |steps|);
    InvPreserved(s, Call(pid), At(s, pid, Waiting), legacy);
  }

  /**
    From any reachable state with the lock free, whatever target an older client and whatever
    staging directories killed builders left, one more caller whose builder gets through makes
    at most a bounded number of steps besides waiting ones. Where it can go no further it was
    told Ok and the target is fresh, or what it found could not be inspected: then it was told
    that error and the target is as it found it.
   */
  lemma SoloPublisherFinishes(work: Work, legacy: Option<Dir>, s: State, pid: nat, name: string,
                              states: seq<State>, steps: seq<Step>)
    requires GetsThrough(work) && Reachable(legacy, s) && s.lock.None? && Idle(s, pid) && name !in s.staging
    requires SoloRun(work, states, steps, pid, name) && states[0] == At(s, pid, Waiting)
    ensures Progress(work, states, steps, pid, name) <= work.rank(Start) + 9 + TargetSize(s)
    ensures (forall step, s' :: Next(states[|steps|], step, s') ==> !Healthy(work, states[|steps|], step, pid, name)) ==>
              Served(s.target, states[|steps|], pid)
  {
    FirstState(work, legacy, s, pid, name);
    RunStaysBounded(work, s.target, states[0], pid, name, legacy, work.rank(Start) + 9 + TargetSize(s), states, steps);
    SoloStep(work, s.target, states[|steps|], pid, name, legacy);
  }
}
