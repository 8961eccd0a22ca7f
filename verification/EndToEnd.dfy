/** Publication composed with the real builder: what a published namespace answers. */
module EndToEnd {
  import opened Wrappers
  import opened Namespace
  import opened ResolutionBuild
  import opened Rebuild
  import opened Publication
  import opened PublicationTheorems

  /** Every write_cache in flight is a rebuild for this build config, and returns Ok only when it is through. */
  ghost predicate BuildsForReal(config: Config, s: State, step: Step) {
    step.pid in s.procs && s.procs[step.pid].Building? ==>
      var pc := s.procs[step.pid];
      match step
      case Build(_, builder, dir) =>
        pc.name in s.staging
        && exists a :: Performs(config, a, pc.builder, s.staging[pc.name], builder, dir)
      case BuildReturns(_, ok) => ok ==> pc.builder.Finished?
      case _ => true
  }

  /** A run from any namespace an older client left, or none, in which every publisher uses the real builder. */
  ghost predicate RealRun(config: Config, legacy: Option<Dir>, states: seq<State>, steps: seq<Step>) {
    && Run(legacy, states, steps)
    && forall i :: 0 <= i < |steps| ==> BuildsForReal(config, states[i], steps[i])
  }

  ghost predicate RealInv(config: Config, s: State) {
    && LoggedServe(config, s.log)
    && forall p <- s.procs :: RealProcInv(config, s, s.procs[p])
  }

  /** Every directory ever published serves the table of its own metadata files. */
  ghost predicate LoggedServe(config: Config, log: seq<Event>) {
    forall k :: 0 <= k < |log| && log[k].Published? ==> ServesTable(config, log[k].dir)
  }

  ghost predicate RealProcInv(config: Config, s: State, pc: Pc) {
    OwnsStaging(pc) ==>
      && pc.name in s.staging
      && (if pc.Building? then BuilderInv(config, pc.builder, s.staging[pc.name])
          else ServesTable(config, s.staging[pc.name]))
  }

  /** While one process owns a staging directory it holds the lock, and nobody else touches the directory. */
  lemma StagingIsPrivate(s: State, step: Step, s': State, p: nat)
    requires LockInv(s) && Next(s, step, s')
    requires p in s.procs && OwnsStaging(s.procs[p]) && p != step.pid
    ensures s'.staging == s.staging && s'.procs[p] == s.procs[p]
  {
    assert s.lock == Some(p);
  }

  lemma BuildKept(config: Config, s: State, step: Step, s': State)
    requires RealInv(config, s) && step.Build? && Next(s, step, s') && BuildsForReal(config, s, step)
    requires step.pid in s'.procs
    ensures RealProcInv(config, s', s'.procs[step.pid])
  {
    var pc := s.procs[step.pid];
    assert RealProcInv(config, s, pc);
    var a :| Performs(config, a, pc.builder, s.staging[pc.name], step.builder, step.dir);
    BuilderInvKept(config, a, pc.builder, s.staging[pc.name], step.builder, step.dir);
  }

  lemma BuildStarts(config: Config)
    ensures BuilderInv(config, Start, map[])
  {
  }

  lemma StepperIsThere(s: State, step: Step, s': State)
    requires Next(s, step, s')
    ensures step.pid in s'.procs
  {
  }

  lemma StagingKept(config: Config, s: State, step: Step, s': State)
    requires RealInv(config, s) && Next(s, step, s') && BuildsForReal(config, s, step)
    requires !step.Build? && step.pid in s'.procs && OwnsStaging(s'.procs[step.pid])
    ensures RealProcInv(config, s', s'.procs[step.pid])
  {
    BuildStarts(config);
    assert step.CreateStaging? || RealProcInv(config, s, s.procs[step.pid]);
  }

  lemma StepperKept(config: Config, s: State, step: Step, s': State)
    requires RealInv(config, s) && Next(s, step, s') && BuildsForReal(config, s, step)
    requires step.pid in s'.procs
    ensures RealProcInv(config, s', s'.procs[step.pid])
  {
    if step.Build? {
      BuildKept(config, s, step, s');
    } else if OwnsStaging(s'.procs[step.pid]) {
      StagingKept(config, s, step, s');
    }
  }

  lemma LogGrowth(s: State, step: Step, s': State)
    requires Next(s, step, s')
    ensures if step.Rename? then s'.log == s.log + [Published(step.pid, s.staging[s.procs[step.pid].name])]
            else if step.CreateStaging? then s'.log == s.log + [BuildStarted(step.pid)]
            else s'.log == s.log
  {
  }

  lemma LogKept(config: Config, s: State, step: Step, s': State)
    requires RealInv(config, s) && Next(s, step, s')
    ensures LoggedServe(config, s'.log)
  {
    LogGrowth(s, step, s');
    if step.Rename? {
      assert RealProcInv(config, s, s.procs[step.pid]);
    }
  }

  lemma RealInvKept(config: Config, s: State, step: Step, s': State)
    requires LockInv(s) && RealInv(config, s) && Next(s, step, s') && BuildsForReal(config, s, step)
    ensures RealInv(config, s')
  {
    LogKept(config, s, step, s');
    StepperIsThere(s, step, s');
    StepperKept(config, s, step, s');
    forall p | p in s'.procs && p != step.pid
      ensures RealProcInv(config, s', s'.procs[p])
    {
      OthersUnmoved(s, step, s', p);
      assert RealProcInv(config, s, s.procs[p]);
      if OwnsStaging(s.procs[p]) {
        StagingIsPrivate(s, step, s', p);
      }
    }
  }

  lemma {:induction false} RealRunInv(config: Config, legacy: Option<Dir>, states: seq<State>, steps: seq<Step>, i: nat)
    requires RealRun(config, legacy, states, steps) && i < |states|
    ensures Inv(states[i], legacy) && RealInv(config, states[i])
  {
    RunInv(legacy, states, steps, i);
    if i > 0 {
      RealRunInv(config, legacy, states, steps, i - 1);
      RealInvKept(config, states[i - 1], steps[i - 1], states[i]);
    }
  }

  /** d opens and resolves a file id to (ck, ek) exactly as its own metadata files, which carry the config's keys, prescribe. */
  ghost predicate Answers(config: Config, d: Dir, fdid: nat, ck: Key, ek: Key) {
    && MetadataParses(config, d)
    && Open(d).Ok?
    && (ResolveFdid(Open(d).value, fdid) == Some((ck, ek))
        <==> LastInBlocks(Blocks(config, d), fdid, ck) && LastInPages(EncodingPages(config, d), ck, ek))
  }

  /**
    In every run from any namespace at all, over any interleaving, crash pattern, row order, page
    spill and metadata touch: once something was published it is what is visible, it opens, its
    metadata files have the build config's content keys, and it resolves a file id to (ck, ek)
    exactly when ck is the content key of the last client-locale root record for it and ek the
    first key of the last non-empty encoding entry for ck.
   */
  lemma WhateverIsPublishedAnswers(config: Config, legacy: Option<Dir>, states: seq<State>, steps: seq<Step>, i: nat, k: nat,
                                   fdid: nat, ck: Key, ek: Key)
    requires RealRun(config, legacy, states, steps) && i < |states| && k < |states[i].log| && states[i].log[k].Published?
    ensures states[i].target == Some(states[i].log[k].dir) && Answers(config, states[i].log[k].dir, fdid, ck, ek)
  {
    RealRunInv(config, legacy, states, steps, i);
    ServedAnswers(config, states[i].log[k].dir, fdid, ck, ek);
  }

  /** From an absent namespace, whatever is visible was published, and so answers. */
  lemma PublishedNamespaceAnswers(config: Config, states: seq<State>, steps: seq<Step>, i: nat,
                                  fdid: nat, ck: Key, ek: Key)
    requires RealRun(config, None, states, steps) && i < |states| && states[i].target.Some?
    ensures Answers(config, states[i].target.value, fdid, ck, ek)
  {
    RunInv(None, states, steps, i);
    var k :| 0 <= k < |states[i].log| && states[i].log[k].Published? && states[i].log[k].dir == states[i].target.value;
    WhateverIsPublishedAnswers(config, None, states, steps, i, k, fdid, ck, ek);
  }

  /**
    Whoever is told Ok, in a run from any namespace that strips safely: the untouched legacy
    namespace, or one that answers.
   */
  lemma OkMeansLegacyOrAnswers(config: Config, legacy: Option<Dir>, states: seq<State>, steps: seq<Step>, i: nat, pid: nat,
                               fdid: nat, ck: Key, ek: Key)
    requires RealRun(config, legacy, states, steps) && i < |states| && SafeLegacy(legacy)
    requires pid in states[i].procs && ToldOk(states[i].procs[pid]) && states[i].target != legacy
    ensures states[i].target.Some? && Answers(config, states[i].target.value, fdid, ck, ek)
  {
    OkMeansOpenable(legacy, states, steps, i, i, pid);
    var k :| 0 <= k < |states[i].log| && states[i].log[k].Published? && states[i].log[k].dir == states[i].target.value;
    WhateverIsPublishedAnswers(config, legacy, states, steps, i, k, fdid, ck, ek);
  }
}
