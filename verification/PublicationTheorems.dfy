/** Safety over whole runs of any number of publishers, and progress of one running alone. */
module PublicationTheorems {
  import opened Wrappers
  import opened Namespace
  import opened Rebuild
  import opened Publication

  // ---------- Safety ----------

  /** Starting from no namespace, every state shows none or a fresh one, and a fresh one stays as it is. */
  lemma NoPartialNamespaceEverVisible(states: seq<State>, steps: seq<Step>, i: nat, j: nat)
    requires Run(None, states, steps) && i <= j < |states|
    ensures states[i].target.None? || TargetFresh(states[i])
    ensures TargetFresh(states[i]) ==> states[j].target == states[i].target
  {
    RunInv(None, states, steps, i);
    SafeFreshIsSettled(states[i], None);
    FreshStays(None, states, steps, i, j);
  }

  lemma {:induction false} FreshStays(legacy: Option<Dir>, states: seq<State>, steps: seq<Step>, i: nat, j: nat)
    requires Run(legacy, states, steps) && SafeLegacy(legacy) && i <= j < |states|
    ensures TargetFresh(states[i]) ==> states[j].target == states[i].target
  {
    if i < j {
      FreshStays(legacy, states, steps, i, j - 1);
      RunInv(legacy, states, steps, j - 1);
      TargetMoves(states[j - 1], steps[j - 1], states[j], legacy);
    }
  }

  /** A settled target is final, from whatever namespace the run started. */
  lemma {:induction false} SettledIsFinal(legacy: Option<Dir>, states: seq<State>, steps: seq<Step>, i: nat, j: nat)
    requires Run(legacy, states, steps) && i <= j < |states| && Settled(states[i])
    ensures Settled(states[j]) && states[j].target == states[i].target && states[j].log == states[i].log
  {
    if i < j {
      SettledIsFinal(legacy, states, steps, i, j - 1);
      SettledStays(states[j - 1], steps[j - 1], states[j]);
    }
  }

  /**
    The log of a whole run: at most one rename, no build started after it, and the directory
    it published is what every later process finds.
   */
  lemma OnePublicationNoLaterBuild(legacy: Option<Dir>, states: seq<State>, steps: seq<Step>, i: nat, a: nat, b: nat)
    requires Run(legacy, states, steps) && i < |states|
    requires a < |states[i].log| && states[i].log[a].Published?
    ensures b < |states[i].log| && b != a ==> b < a && states[i].log[b].BuildStarted?
    ensures states[i].target == Some(states[i].log[a].dir) && Fresh(states[i].log[a].dir)
  {
    RunInv(legacy, states, steps, i);
    if b < |states[i].log| - 1 {
      assert states[i].log[b].BuildStarted?;
    }
  }

  /**
    Whoever was told Ok finds a namespace that opens, at that moment and ever after. From a
    safe legacy namespace it is that one untouched, or one that some publisher verified.
   */
  lemma OkMeansOpenable(legacy: Option<Dir>, states: seq<State>, steps: seq<Step>, i: nat, j: nat, pid: nat)
    requires Run(legacy, states, steps) && i <= j < |states|
    requires pid in states[i].procs && ToldOk(states[i].procs[pid])
    ensures states[j].target.Some? && states[j].target == states[i].target
    ensures Open(states[j].target.value).Ok? || Open(states[j].target.value) == Err(NoResolutionTable)
    ensures Stamped(states[j].target.value) && SqliteJournal !in states[j].target.value && SqliteWal !in states[j].target.value
    ensures SafeLegacy(legacy) ==> states[j].target == legacy || WasPublished(states[j].log, states[j].target.value)
  {
    RunInv(legacy, states, steps, i);
    assert ProcInv(states[i], states[i].procs[pid]);
    SettledIsFinal(legacy, states, steps, i, j);
    RunInv(legacy, states, steps, j);
    FreshPassesOpen(states[j].target.value);
    FreshExactlyWhen(states[j].target.value);
    if SafeLegacy(legacy) {
      SafeFreshIsSettled(states[j], legacy);
    }
  }

  /** Until somebody's staging directory has been verified, a failing or dying publisher changes nothing. */
  lemma {:induction false} FailedBuildersLeaveTheTarget(legacy: Option<Dir>, states: seq<State>, steps: seq<Step>, i: nat)
    requires Run(legacy, states, steps) && i < |states|
    requires forall k :: 0 <= k < i ==>
               !(steps[k].VerifyStaging? && states[k + 1].procs[steps[k].pid].Verified?)
    ensures states[i].target == legacy
    ensures forall p <- states[i].procs :: !states[i].procs[p].Verified? && !states[i].procs[p].Cleared?
  {
    if i > 0 {
      FailedBuildersLeaveTheTarget(legacy, states, steps, i - 1);
    }
  }

  // ---------- Orphans ----------

  predicate HasStaging(pc: Pc) {
    pc.Building? || pc.Built? || pc.Verified? || pc.Cleared? || pc.Cleanup?
  }

  /** A staging directory that no publisher at work made, such as a killed one's. */
  ghost predicate Orphan(s: State, name: string) {
    name in s.staging && forall p <- s.procs :: HasStaging(s.procs[p]) ==> s.procs[p].name != name
  }

  lemma OthersStagingStays(s: State, step: Step, s': State, name: string)
    requires name in s.staging && Next(s, step, s')
    requires step.pid in s.procs && HasStaging(s.procs[step.pid]) ==> s.procs[step.pid].name != name
    ensures name in s'.staging && s'.staging[name] == s.staging[name]
  {
  }

  lemma OwnNameIsNew(s: State, step: Step, s': State, name: string)
    requires name in s.staging && Next(s, step, s')
    requires step.pid in s.procs && HasStaging(s.procs[step.pid]) ==> s.procs[step.pid].name != name
    ensures step.pid in s'.procs && HasStaging(s'.procs[step.pid]) ==> s'.procs[step.pid].name != name
  {
  }

  lemma OrphanStays(s: State, step: Step, s': State, name: string)
    requires Orphan(s, name) && Next(s, step, s')
    ensures Orphan(s', name) && s'.staging[name] == s.staging[name]
  {
    OthersStagingStays(s, step, s', name);
    OwnNameIsNew(s, step, s', name);
    forall p | p in s'.procs && p != step.pid
      ensures HasStaging(s'.procs[p]) ==> s'.procs[p].name != name
    {
      OthersUnmoved(s, step, s', p);
    }
  }

  /** Nobody ever takes over, changes, publishes or removes a directory that a killed builder left. */
  lemma {:induction false} OrphansAreLeftAlone(legacy: Option<Dir>, states: seq<State>, steps: seq<Step>, i: nat, j: nat, name: string)
    requires Run(legacy, states, steps) && i <= j < |states| && Orphan(states[i], name)
    ensures Orphan(states[j], name) && states[j].staging[name] == states[i].staging[name]
  {
    if i < j {
      OrphansAreLeftAlone(legacy, states, steps, i, j - 1, name);
      OrphanStays(states[j - 1], steps[j - 1], states[j], name);
    }
  }

  // ---------- The exact condition on a namespace left by an older client ----------

  /** Some publisher was told Ok although the target is neither the untouched legacy one nor a published one. */
  ghost predicate HandsOutRemnant(legacy: Option<Dir>, s: State) {
    && s.target != legacy
    && (s.target.Some? ==> !WasPublished(s.log, s.target.value))
    && exists pid :: pid in s.procs && ToldOk(s.procs[pid])
  }

  /** One publisher builds, starts removing the legacy directory, loses its sidecars first, and is killed. */
  lemma KilledWhileRemoving(d: Dir) returns (s: State)
    requires !Fresh(d) && Fresh(WithoutSidecars(d)) && ResolutionCacheIsFresh(d).Ok?
    ensures Reachable(Some(d), s)
    ensures s.target == Some(WithoutSidecars(d)) && s.lock.None? && s.procs.Keys == {0} && s.log == [BuildStarted(0)]
  {
    var legacy := Some(d);
    s := Verifying(d);
    if SqliteJournal in d {
      var s' := s.(target := Some(d - {SqliteJournal}));
      ReachableNext(legacy, s, RemoveEntry(0, SqliteJournal), s');
      s := s';
    }
    var noJournal := d - {SqliteJournal};
    assert s.target.value == noJournal;
    if SqliteWal in s.target.value {
      var s' := s.(target := Some(s.target.value - {SqliteWal}));
      ReachableNext(legacy, s, RemoveEntry(0, SqliteWal), s');
      s := s';
    }
    assert s.target.value == WithoutSidecars(d);
    var s' := At(s, 0, Crashed).(lock := None);
    ReachableNext(legacy, s, Crash(0), s');
    s := s';
  }

  lemma Verifying(d: Dir) returns (s: State)
    requires !Fresh(d) && Fresh(WithoutSidecars(d)) && ResolutionCacheIsFresh(d).Ok?
    ensures Reachable(Some(d), s)
    ensures s.target == Some(d) && s.lock == Some(0) && s.log == [BuildStarted(0)]
    ensures s.procs == map[0 := Verified("partial")] && "partial" in s.staging
  {
    var legacy, name, built := Some(d), "partial", WithoutSidecars(d);
    var s4 := Starting(d);
    var s5 := WithStaging(At(s4, 0, Building(name, Finished)), name, built);
    ReachableNext(legacy, s4, Build(0, Finished, built), s5);
    var s6 := At(s5, 0, Built(name));
    ReachableNext(legacy, s5, BuildReturns(0, true), s6);
    s := At(s6, 0, Verified(name));
    ReachableNext(legacy, s6, VerifyStaging(0), s);
  }

  lemma Starting(d: Dir) returns (s: State)
    requires ResolutionCacheIsFresh(d) == Ok(false)
    ensures Reachable(Some(d), s)
    ensures s == State(Some(d), map["partial" := map[]], map[0 := Building("partial", Start)], Some(0), [BuildStarted(0)])
  {
    var legacy, none: seq<Step> := Some(d), [];
    var s0 := State(legacy, map[], map[], None, []);
    assert Run(legacy, [s0], none) && s0 == [s0][|none|];
    var s1 := At(s0, 0, Waiting);
    ReachableNext(legacy, s0, Call(0), s1);
    var s2 := At(s1, 0, Locked).(lock := Some(0));
    ReachableNext(legacy, s1, Acquire(0), s2);
    var s3 := At(s2, 0, Checked);
    ReachableNext(legacy, s2, CheckTarget(0), s3);
    s := WithStaging(At(s3, 0, Building("partial", Start)), "partial", map[]).(log := [] + [BuildStarted(0)]);
    ReachableNext(legacy, s3, CreateStaging(0, "partial"), s);
  }

  /** A later caller takes whatever looks fresh. */
  lemma FreshIsHandedOut(legacy: Option<Dir>, s: State, pid: nat) returns (s': State)
    requires Reachable(legacy, s) && s.lock.None? && Idle(s, pid) && TargetFresh(s)
    ensures Reachable(legacy, s')
    ensures s'.target == s.target && s'.log == s.log && pid in s'.procs && ToldOk(s'.procs[pid])
  {
    var t1 := At(s, pid, Waiting);
    ReachableNext(legacy, s, Call(pid), t1);
    var t2 := At(t1, pid, Locked).(lock := Some(pid));
    ReachableNext(legacy, t1, Acquire(pid), t2);
    var t3 := At(t2, pid, Returning(Ok(())));
    ReachableNext(legacy, t2, CheckTarget(pid), t3);
    s' := At(t3, pid, Done(Ok(()))).(lock := None);
    ReachableNext(legacy, t3, Return(pid), s');
  }

  lemma UnsafeLegacyIsHandedOut(d: Dir)
    requires !SafeLegacy(Some(d))
    ensures exists s :: Reachable(Some(d), s) && HandsOutRemnant(Some(d), s)
  {
    var s := KilledWhileRemoving(d);
    assert WithoutSidecars(d) != d;
    var _ := FreshIsHandedOut(Some(d), s, 1);
  }

  /**
    Removing an incomplete namespace is not atomic. Every Ok return hands out the untouched
    legacy namespace or a directory some publisher verified and renamed, in every run, exactly
    when stripping the sidecars off an incomplete legacy namespace does not make it fresh.
   */
  lemma LegacyRemovalIsSafeExactlyWhen(legacy: Option<Dir>)
    ensures (forall s :: Reachable(legacy, s) ==> !HandsOutRemnant(legacy, s)) <==> SafeLegacy(legacy)
  {
    if SafeLegacy(legacy) {
      forall s | Reachable(legacy, s)
        ensures !HandsOutRemnant(legacy, s)
      {
        var states, steps :| Run(legacy, states, steps) && s == states[|steps|];
        if pid :| pid in s.procs && ToldOk(s.procs[pid]) {
          OkMeansOpenable(legacy, states, steps, |steps|, |steps|, pid);
        }
      }
    } else {
      UnsafeLegacyIsHandedOut(legacy.value);
    }
  }

  // ---------- A target that cannot be inspected ----------

  /** Its inspection fails, and nobody got past an earlier one. */
  ghost predicate Stuck(s: State) {
    && s.target.Some? && ResolutionCacheIsFresh(s.target.value).Err?
    && forall p <- s.procs :: !CommittedToPublish(s.procs[p]) && !ReportsOk(s.procs[p])
  }

  lemma StuckStays(s: State, step: Step, s': State)
    requires Stuck(s) && Next(s, step, s')
    ensures Stuck(s') && s'.target == s.target && s'.log == s.log
  {
  }

  /**
    From any reachable state with the lock free and a target whose inspection fails, whoever comes,
    in any interleaving: nobody builds, the target stays as it is, and nobody is told Ok.
   */
  lemma {:induction false} UninspectableTargetsAreLeftAlone(legacy: Option<Dir>, states: seq<State>, steps: seq<Step>,
                                                            i: nat, j: nat)
    requires Run(legacy, states, steps) && i <= j < |states| && states[i].lock.None?
    requires states[i].target.Some? && ResolutionCacheIsFresh(states[i].target.value).Err?
    ensures states[j].target == states[i].target && states[j].log == states[i].log
    ensures Stuck(states[j]) && forall p <- states[j].procs :: !ToldOk(states[j].procs[p])
  {
    if i < j {
      UninspectableTargetsAreLeftAlone(legacy, states, steps, i, j - 1);
      StuckStays(states[j - 1], steps[j - 1], states[j]);
    } else {
      RunInv(legacy, states, steps, i);
      forall p <- states[i].procs
        ensures !CommittedToPublish(states[i].procs[p]) && !ReportsOk(states[i].procs[p])
      {
        assert ProcInv(states[i], states[i].procs[p]);
      }
    }
  }
}
