/**
  Publication of a CASC namespace by any number of processes: a sibling flock, a freshness
  check under it, a private staging directory, verification, removal of an incomplete
  target entry by entry, and a rename. A process may be killed between any two steps; the
  OS then drops its lock and its staging directory stays behind. The builder is arbitrary.
 */
module Publication {
  import opened Wrappers
  import opened Namespace
  import opened Rebuild

  type Outcome = Result<(), Error>

  datatype Pc =
    | Waiting                                          // lock file open, blocked in flock
    | Locked                                           // lock held, nothing inspected yet
    | Checked                                          // target inspected: not fresh
    | Building(name: string, builder: BuilderPc)       // inside write_cache
    | Built(name: string)                              // write_cache returned Ok
    | Verified(name: string)                           // staging inspected: fresh
    | Cleared(name: string)                            // no target in the way
    | Cleanup(name: string, outcome: Outcome)
    | Returning(outcome: Outcome)                      // lock still held
    | Done(outcome: Outcome)
    | Crashed

  datatype Event = BuildStarted(pid: nat) | Published(pid: nat, dir: Dir)

  datatype State = State(
    target: Option<Dir>,
    staging: map<string, Dir>,
    procs: map<nat, Pc>,
    lock: Option<nat>,
    log: seq<Event>)

  datatype Step =
    | Call(pid: nat)
    | LockFails(pid: nat)
    | Acquire(pid: nat)
    | CheckTarget(pid: nat)
    | CheckTargetFails(pid: nat)
    | CreateStaging(pid: nat, name: string)
    | CreateStagingFails(pid: nat)
    | Build(pid: nat, builder: BuilderPc, dir: Dir)
    | BuildReturns(pid: nat, ok: bool)
    | VerifyStaging(pid: nat)
    | VerifyStagingFails(pid: nat)
    | RemoveEntry(pid: nat, file: FileName)
    | RemoveTargetDir(pid: nat)
    | TargetAbsent(pid: nat)
    | RemoveFails(pid: nat)
    | Rename(pid: nat)
    | RenameFails(pid: nat)
    | CleanEntry(pid: nat, file: FileName)
    | CleanStagingDir(pid: nat)
    | StagingAbsent(pid: nat)
    | CleanFails(pid: nat)
    | Return(pid: nat)
    | Crash(pid: nat)

  function At(s: State, pid: nat, pc: Pc): State {
    s.(procs := s.procs[pid := pc])
  }

  function WithStaging(s: State, name: string, dir: Dir): State {
    s.(staging := s.staging[name := dir])
  }

  predicate Idle(s: State, pid: nat) {
    pid in s.procs ==> s.procs[pid].Done? || s.procs[pid].Crashed?
  }

  ghost predicate Next(s: State, step: Step, s': State) {
    var pid := step.pid;
    if step.Call? then
      Idle(s, pid) && s' == At(s, pid, Waiting)
    else
      && pid in s.procs
      && var pc := s.procs[pid];
      match step
      case LockFails(_) => pc.Waiting? && s' == At(s, pid, Done(Err(IoError)))
      case Acquire(_) => pc.Waiting? && s.lock.None? && s' == At(s, pid, Locked).(lock := Some(pid))
      case CheckTarget(_) =>
        && pc.Locked?
        && var inspected := if s.target.None? then Ok(false) else ResolutionCacheIsFresh(s.target.value);
        s' == At(s, pid, match inspected
                         case Ok(true) => Returning(Ok(()))
                         case Ok(false) => Checked
                         case Err(error) => Returning(Err(error)))
      case CheckTargetFails(_) => pc.Locked? && s' == At(s, pid, Returning(Err(IoError)))
      case CreateStaging(_, name) =>
        // create_dir refuses an existing directory, orphaned or not
        && pc.Checked? && name !in s.staging
        && s' == WithStaging(At(s, pid, Building(name, Start)), name, map[]).(log := s.log + [BuildStarted(pid)])
      case CreateStagingFails(_) => pc.Checked? && s' == At(s, pid, Returning(Err(StagingExists)))
      case Build(_, builder, dir) =>
        && pc.Building?
        && s' == WithStaging(At(s, pid, Building(pc.name, builder)), pc.name, dir)
      case BuildReturns(_, ok) =>
        && pc.Building?
        && s' == At(s, pid, if ok then Built(pc.name) else Cleanup(pc.name, Err(BuilderFailed)))
      case VerifyStaging(_) =>
        && pc.Built? && pc.name in s.staging
        && s' == At(s, pid, match ResolutionCacheIsFresh(s.staging[pc.name])
                            case Ok(true) => Verified(pc.name)
                            case Ok(false) => Cleanup(pc.name, Err(IncompleteNamespace))
                            case Err(error) => Cleanup(pc.name, Err(error)))
      case VerifyStagingFails(_) => pc.Built? && s' == At(s, pid, Cleanup(pc.name, Err(IoError)))
      case RemoveEntry(_, file) =>
        && pc.Verified? && s.target.Some? && file in s.target.value
        && s' == s.(target := Some(s.target.value - {file}))
      case RemoveTargetDir(_) =>
        pc.Verified? && s.target == Some(map[]) && s' == At(s, pid, Cleared(pc.name)).(target := None)
      case TargetAbsent(_) => pc.Verified? && s.target.None? && s' == At(s, pid, Cleared(pc.name))
      case RemoveFails(_) => pc.Verified? && s.target.Some? && s' == At(s, pid, Cleanup(pc.name, Err(IoError)))
      case Rename(_) =>
        && pc.Cleared? && pc.name in s.staging && (s.target.None? || s.target.value == map[])
        && s' == At(s, pid, Cleanup(pc.name, Ok(()))).(
                   target := Some(s.staging[pc.name]),
                   staging := s.staging - {pc.name},
                   log := s.log + [Published(pid, s.staging[pc.name])])
      case RenameFails(_) => pc.Cleared? && s' == At(s, pid, Cleanup(pc.name, Err(IoError)))
      case CleanEntry(_, file) =>
        && pc.Cleanup? && pc.name in s.staging && file in s.staging[pc.name]
        && s' == WithStaging(s, pc.name, s.staging[pc.name] - {file})
      case CleanStagingDir(_) =>
        && pc.Cleanup? && pc.name in s.staging && s.staging[pc.name] == map[]
        && s' == At(s, pid, Returning(pc.outcome)).(staging := s.staging - {pc.name})
      case StagingAbsent(_) =>
        pc.Cleanup? && pc.name !in s.staging && s' == At(s, pid, Returning(pc.outcome))
      case CleanFails(_) =>
        pc.Cleanup? && pc.name in s.staging && s' == At(s, pid, Returning(Err(IoError)))
      case Return(_) => pc.Returning? && s' == At(s, pid, Done(pc.outcome)).(lock := None)
      case Crash(_) =>
        && !Idle(s, pid)
        && s' == At(s, pid, Crashed).(lock := if s.lock == Some(pid) then None else s.lock)
  }

  /** Any target may have been left by an older client, any staging directory by a killed one. */
  ghost predicate Init(s: State, legacy: Option<Dir>) {
    s.target == legacy && s.procs == map[] && s.lock.None? && s.log == []
  }

  ghost predicate Run(legacy: Option<Dir>, states: seq<State>, steps: seq<Step>) {
    && |states| == |steps| + 1
    && Init(states[0], legacy)
    && forall i :: 0 <= i < |steps| ==> Next(states[i], steps[i], states[i + 1])
  }

  ghost predicate Reachable(legacy: Option<Dir>, s: State) {
    exists states, steps :: Run(legacy, states, steps) && s == states[|steps|]
  }

  lemma ReachableNext(legacy: Option<Dir>, s: State, step: Step, s': State)
    requires Reachable(legacy, s) && Next(s, step, s')
    ensures Reachable(legacy, s')
  {
    var states, steps :| Run(legacy, states, steps) && s == states[|steps|];
    assert Run(legacy, states + [s'], steps + [step]);
  }

  // ---------- What a run keeps ----------

  predicate HoldsLock(pc: Pc) {
    !(pc.Waiting? || pc.Done? || pc.Crashed?)
  }

  predicate CommittedToPublish(pc: Pc) {
    pc.Checked? || pc.Building? || pc.Built? || pc.Verified? || pc.Cleared?
  }

  predicate OwnsStaging(pc: Pc) {
    pc.Building? || pc.Built? || pc.Verified? || pc.Cleared?
  }

  predicate ReportsOk(pc: Pc) {
    (pc.Cleanup? || pc.Returning? || pc.Done?) && pc.outcome.Ok?
  }

  predicate ToldOk(pc: Pc) {
    pc.Done? && pc.outcome.Ok?
  }

  predicate TargetFresh(s: State) {
    s.target.Some? && Fresh(s.target.value)
  }

  /** No deletion of some of the legacy files can make an incomplete namespace look complete. */
  predicate SafeLegacy(legacy: Option<Dir>) {
    legacy.Some? ==> Fresh(legacy.value) || !Fresh(WithoutSidecars(legacy.value))
  }

  ghost predicate WasPublished(log: seq<Event>, dir: Dir) {
    exists i :: 0 <= i < |log| && log[i].Published? && log[i].dir == dir
  }

  /** Nothing is logged after a publication: no second rename and no further build. */
  ghost predicate PublicationIsLast(log: seq<Event>) {
    forall i :: 0 <= i < |log| - 1 ==> log[i].BuildStarted?
  }

  /** The target is fresh and nobody is on the way to replace it. */
  ghost predicate Settled(s: State) {
    TargetFresh(s) && forall p <- s.procs :: !CommittedToPublish(s.procs[p])
  }

  ghost predicate LockInv(s: State) {
    && (s.lock.Some? ==> s.lock.value in s.procs)
    && forall p <- s.procs :: HoldsLock(s.procs[p]) <==> s.lock == Some(p)
  }

  ghost predicate ProcInv(s: State, pc: Pc) {
    && (OwnsStaging(pc) ==> pc.name in s.staging)
    && (pc.Verified? || pc.Cleared? ==> Fresh(s.staging[pc.name]))
    && (CommittedToPublish(pc) && !pc.Verified? ==> !TargetFresh(s))
    && (pc.Cleared? ==> s.target.None?)
    && (ReportsOk(pc) ==> Settled(s))
    && (pc.Cleanup? && pc.outcome.Ok? ==> pc.name !in s.staging)
  }

  ghost predicate TargetInv(s: State, legacy: Option<Dir>) {
    && (s.target.Some? ==> WasPublished(s.log, s.target.value) || (legacy.Some? && Remnant(s.target.value, legacy.value)))
    && PublicationIsLast(s.log)
    && (forall i :: 0 <= i < |s.log| && s.log[i].Published? ==> Settled(s) && s.target == Some(s.log[i].dir))
    && (legacy.Some? && Fresh(legacy.value) ==> Settled(s) && s.target == legacy)
  }

  ghost predicate Inv(s: State, legacy: Option<Dir>) {
    && LockInv(s)
    && TargetInv(s, legacy)
    && forall p <- s.procs :: ProcInv(s, s.procs[p])
  }

  lemma RemnantOfSafeIsNotFresh(legacy: Dir, d: Dir)
    requires SafeLegacy(Some(legacy)) && !Fresh(legacy) && Remnant(d, legacy)
    ensures !Fresh(d)
  {
    DeletionCanExposeFreshnessExactlyWhen(legacy);
  }

  /** Where no remnant can look fresh, a fresh target is the legacy or a published one, and settled. */
  lemma SafeFreshIsSettled(s: State, legacy: Option<Dir>)
    requires SafeLegacy(legacy) && Inv(s, legacy)
    ensures TargetFresh(s) ==> Settled(s) && (s.target == legacy || WasPublished(s.log, s.target.value))
    ensures s.target.Some? && !TargetFresh(s) ==>
              legacy.Some? && Remnant(s.target.value, legacy.value) && !Fresh(legacy.value)
  {
    if TargetFresh(s) && !WasPublished(s.log, s.target.value) && !Fresh(legacy.value) {
      RemnantOfSafeIsNotFresh(legacy.value, s.target.value);
    }
  }

  lemma LockPreserved(s: State, step: Step, s': State)
    requires LockInv(s) && Next(s, step, s')
    ensures LockInv(s')
  {
  }

  /** A settled target is left as it is: whoever comes later finds it fresh. */
  lemma SettledStays(s: State, step: Step, s': State)
    requires Settled(s) && Next(s, step, s')
    ensures Settled(s') && s'.target == s.target && s'.log == s.log
  {
  }

  lemma OnlyTheHolderCommits(s: State, p: nat)
    requires LockInv(s) && p in s.procs && HoldsLock(s.procs[p])
    ensures forall q <- s.procs :: CommittedToPublish(s.procs[q]) ==> q == p
  {
  }

  lemma FreshCheckSettles(s: State, step: Step, s': State)
    requires LockInv(s) && Next(s, step, s') && step.CheckTarget? && TargetFresh(s)
    ensures Settled(s')
  {
    OnlyTheHolderCommits(s, step.pid);
  }

  lemma RenameSettles(s: State, step: Step, s': State)
    requires LockInv(s) && Next(s, step, s') && step.Rename? && ProcInv(s, s.procs[step.pid])
    ensures Settled(s')
  {
    OnlyTheHolderCommits(s, step.pid);
  }

  lemma RemovalKeepsTarget(s: State, step: Step, s': State, legacy: Option<Dir>)
    requires Inv(s, legacy) && Next(s, step, s') && step.RemoveEntry?
    ensures TargetInv(s', legacy)
  {
    assert CommittedToPublish(s.procs[step.pid]) && !Settled(s);
    assert legacy.Some? && Remnant(s'.target.value, legacy.value);
  }

  lemma RenameKeepsTarget(s: State, step: Step, s': State, legacy: Option<Dir>)
    requires Inv(s, legacy) && Next(s, step, s') && step.Rename?
    ensures TargetInv(s', legacy)
  {
    assert ProcInv(s, s.procs[step.pid]) && !Settled(s);
    RenameSettles(s, step, s');
    assert s'.log[|s.log|] == Published(step.pid, s'.target.value);
    assert WasPublished(s'.log, s'.target.value);
  }

  lemma BuildStartKeepsTarget(s: State, step: Step, s': State, legacy: Option<Dir>)
    requires Inv(s, legacy) && Next(s, step, s') && step.CreateStaging?
    ensures TargetInv(s', legacy)
  {
    assert CommittedToPublish(s.procs[step.pid]) && !Settled(s);
    assert forall i :: 0 <= i < |s.log| ==> s'.log[i] == s.log[i];
  }

  lemma TargetPreserved(s: State, step: Step, s': State, legacy: Option<Dir>)
    requires Inv(s, legacy) && Next(s, step, s')
    ensures TargetInv(s', legacy)
  {
    if Settled(s) {
      SettledStays(s, step, s');
    } else if step.RemoveEntry? {
      RemovalKeepsTarget(s, step, s', legacy);
    } else if step.Rename? {
      RenameKeepsTarget(s, step, s', legacy);
    } else if step.CreateStaging? {
      BuildStartKeepsTarget(s, step, s', legacy);
    } else {
      assert s'.log == s.log && (step.RemoveTargetDir? || s'.target == s.target);
    }
  }

  /** A step that moves the target is taken by the lock holder, with a verified directory, and never once it is settled. */
  lemma TargetMoves(s: State, step: Step, s': State, legacy: Option<Dir>)
    requires Inv(s, legacy) && Next(s, step, s')
    ensures Settled(s) || (SafeLegacy(legacy) && TargetFresh(s)) ==> s'.target == s.target
    ensures s'.target != s.target ==>
              && (step.RemoveEntry? || step.RemoveTargetDir? || step.Rename?)
              && s.lock == Some(step.pid)
              && s.procs[step.pid].name in s.staging && Fresh(s.staging[s.procs[step.pid].name])
  {
    assert step.pid in s.procs ==> ProcInv(s, s.procs[step.pid]);
    if SafeLegacy(legacy) {
      SafeFreshIsSettled(s, legacy);
    }
  }

  /** While another publisher holds the lock, a step changes neither staging nor target. */
  lemma OutsiderChangesNothing(s: State, step: Step, s': State, p: nat)
    requires LockInv(s) && Next(s, step, s') && p in s.procs && HoldsLock(s.procs[p]) && p != step.pid
    ensures s'.staging == s.staging && s'.target == s.target
  {
    assert s.lock == Some(p);
  }

  lemma OthersUnmoved(s: State, step: Step, s': State, p: nat)
    requires Next(s, step, s') && p in s'.procs && p != step.pid
    ensures p in s.procs && s'.procs[p] == s.procs[p]
  {
  }

  /** A publisher that does not step keeps its facts: inside, it excludes the stepper; outside, it has few. */
  lemma BystanderKept(s: State, step: Step, s': State, legacy: Option<Dir>, p: nat)
    requires Inv(s, legacy) && Next(s, step, s') && p in s'.procs && p != step.pid
    ensures ProcInv(s', s'.procs[p])
  {
    OthersUnmoved(s, step, s', p);
    var pc := s.procs[p];
    assert ProcInv(s, pc);
    if HoldsLock(pc) {
      OutsiderChangesNothing(s, step, s', p);
    }
    if Settled(s) {
      SettledStays(s, step, s');
    }
    KeepsFacts(s, s', pc);
  }

  lemma KeepsFacts(s: State, s': State, pc: Pc)
    requires ProcInv(s, pc) && (Settled(s) ==> Settled(s'))
    requires HoldsLock(pc) ==> s'.staging == s.staging && s'.target == s.target
    ensures ProcInv(s', pc)
  {
  }

  predicate Publishes(step: Step) {
    step.Rename? || step.RemoveEntry? || step.RemoveTargetDir? || step.TargetAbsent?
  }

  lemma PublisherKept(s: State, step: Step, s': State, legacy: Option<Dir>)
    requires Inv(s, legacy) && Next(s, step, s') && step.pid in s.procs && Publishes(step)
    requires step.pid in s'.procs
    ensures ProcInv(s', s'.procs[step.pid])
  {
    assert ProcInv(s, s.procs[step.pid]);
    if step.Rename? {
      RenameSettles(s, step, s');
    }
  }

  lemma WorkerKept(s: State, step: Step, s': State, legacy: Option<Dir>)
    requires Inv(s, legacy) && Next(s, step, s') && step.pid in s.procs && step.pid in s'.procs && !Publishes(step)
    ensures ProcInv(s', s'.procs[step.pid])
  {
    assert ProcInv(s, s.procs[step.pid]);
    assert s'.target == s.target;
    if Settled(s) {
      SettledStays(s, step, s');
    }
    if step.CheckTarget? && TargetFresh(s) {
      FreshCheckSettles(s, step, s');
    }
    SettledOrSilent(s, step, s');
    WorkerFacts(s, step, s');
  }

  /** A publisher that keeps the target reports success only where the target is settled. */
  lemma SettledOrSilent(s: State, step: Step, s': State)
    requires Next(s, step, s') && step.pid in s.procs && step.pid in s'.procs && !Publishes(step)
    requires ReportsOk(s.procs[step.pid]) ==> Settled(s)
    requires Settled(s) ==> Settled(s')
    requires step.CheckTarget? && TargetFresh(s) ==> Settled(s')
    ensures ReportsOk(s'.procs[step.pid]) ==> Settled(s')
  {
  }

  lemma WorkerFacts(s: State, step: Step, s': State)
    requires Next(s, step, s') && step.pid in s.procs && step.pid in s'.procs && !Publishes(step)
    requires ProcInv(s, s.procs[step.pid]) && s'.target == s.target
    requires ReportsOk(s'.procs[step.pid]) ==> Settled(s')
    ensures ProcInv(s', s'.procs[step.pid])
  {
    if step.CheckTarget? || step.CreateStaging? || step.Build? {
      // entering: nothing was verified or reported yet
    } else {
      // leaving: the staging directory is the one the publisher had
    }
  }

  lemma StepperKept(s: State, step: Step, s': State, legacy: Option<Dir>)
    requires Inv(s, legacy) && Next(s, step, s') && step.pid in s'.procs
    ensures ProcInv(s', s'.procs[step.pid])
  {
    if step.pid in s.procs {
      if Publishes(step) {
        PublisherKept(s, step, s', legacy);
      } else {
        WorkerKept(s, step, s', legacy);
      }
    }
  }

  lemma ProcsPreserved(s: State, step: Step, s': State, legacy: Option<Dir>)
    requires Inv(s, legacy) && Next(s, step, s')
    ensures forall p <- s'.procs :: ProcInv(s', s'.procs[p])
  {
    forall p <- s'.procs
      ensures ProcInv(s', s'.procs[p])
    {
      if p != step.pid {
        BystanderKept(s, step, s', legacy, p);
      } else {
        StepperKept(s, step, s', legacy);
      }
    }
  }

  lemma InvPreserved(s: State, step: Step, s': State, legacy: Option<Dir>)
    requires Inv(s, legacy) && Next(s, step, s')
    ensures Inv(s', legacy)
  {
    LockPreserved(s, step, s');
    TargetPreserved(s, step, s', legacy);
    ProcsPreserved(s, step, s', legacy);
  }

  lemma {:induction false} RunInv(legacy: Option<Dir>, states: seq<State>, steps: seq<Step>, i: nat)
    requires Run(legacy, states, steps) && i < |states|
    ensures Inv(states[i], legacy)
  {
    if i > 0 {
      RunInv(legacy, states, steps, i - 1);
      InvPreserved(states[i - 1], steps[i - 1], states[i], legacy);
    }
  }
}
