/** What lookups promise over whole runs: transparency, survival of local rows, stable answers. */
module ListfileTheorems {
  import opened Wrappers
  import opened ListfileTable
  import opened ListfileCache
  import opened Listfile
  import opened ListfileRuns

  /**
   * In every interleaving of threads, processes, crashes and failures, each answer is that of
   * the local rows laid over the community table; nothing is answered only where that has no
   * row or where a read failed.
   */
  lemma AnswersAreTheOverlay(w: World, steps: seq<Step>, step: Step)
    requires Coherent(w)
    ensures var reply := After(w, Run(w, steps), step).1;
            reply.Some? ==> ReplyOk(w, Truth(w), reply.value)
  {
    RunInv(w, steps);
    StepIsOk(w, Run(w, steps), step);
  }

  lemma SubsetIsCoherent(w: World)
    requires Sub(w.original, w.community)
    ensures Coherent(w) && Truth(w) == w.community
  {
    forall f | f in w.community
      ensures f in w.original <==> HasPath(w.original, w.community[f])
    {
      if HasPath(w.original, w.community[f]) {
        var g :| g in w.original && Lower(w.original[g]) == Lower(w.community[f]);
        assert g in w.community;
      }
    }
    assert forall f :: f in Overlay(w.original, w.community) <==> f in w.community;
  }

  /**
   * A cache that only ever copied the community table is invisible: whatever fails, an answer is
   * the community's, none is missing while the community is readable, and the local rows stay copies.
   */
  lemma CacheIsTransparent(w: World, steps: seq<Step>, step: Step)
    requires Sub(w.original, w.community)
    ensures Sub(Run(w, steps).local, w.community)
    ensures var reply := After(w, Run(w, steps), step).1;
            reply.Some? && (reply.value.answer.Some? || !reply.value.communityFailed) ==>
              reply.value.answer == AnswerIn(w.community, reply.value.query)
  {
    SubsetIsCoherent(w);
    RunInv(w, steps);
    StepIsOk(w, Run(w, steps), step);
  }

  // ----- calls one after the other, over any tables at all

  /** A call and the tables it happens to read; None is a failing read. */
  datatype Call = Call(query: Query, local: Option<Table>, community: Option<Table>)

  function Done(m: Memory, call: Call): (Option<Answer>, Memory, Option<Row>) {
    match call.query
    case ById(fdid) =>
      var o := FdidOutcome(m, call.local, call.community, fdid);
      (if o.answer.Some? then Some(PathAnswer(o.answer.value)) else None, o.memory, o.write)
    case ByPath(path) =>
      var o := PathOutcome(m, call.local, call.community, path);
      (if o.answer.Some? then Some(IdAnswer(o.answer.value)) else None, o.memory, o.write)
  }

  function MemoryAfter(calls: seq<Call>): Memory {
    if calls == [] then Memory(map[], map[]) else Done(MemoryAfter(calls[..|calls| - 1]), calls[|calls| - 1]).1
  }

  ghost predicate Extends(m: Memory, m': Memory) {
    && (forall f :: f in m.byFdid ==> f in m'.byFdid && m'.byFdid[f] == m.byFdid[f])
    && (forall l :: l in m.byPath ==> l in m'.byPath && m'.byPath[l] == m.byPath[l])
  }

  /** An answer given is in memory afterwards, and nothing in memory ever changes. */
  lemma AnswersAreKept(m: Memory, call: Call)
    ensures var (answer, m', _) := Done(m, call);
            Extends(m, m') && (answer.Some? ==> Hit(m', call.query) == answer)
  {
  }

  lemma {:induction false} MemoryOnlyGrows(calls: seq<Call>, n: nat)
    requires n <= |calls|
    ensures Extends(MemoryAfter(calls[..n]), MemoryAfter(calls))
  {
    if n < |calls| {
      MemoryOnlyGrows(calls[..|calls| - 1], n);
      assert calls[..|calls| - 1][..n] == calls[..n];
      AnswersAreKept(MemoryAfter(calls[..|calls| - 1]), calls[|calls| - 1]);
    } else {
      assert calls[..n] == calls;
    }
  }

  predicate SameKey(a: Query, b: Query) {
    || (a.ById? && b.ById? && a.fdid == b.fdid)
    || (a.ByPath? && b.ByPath? && Lower(a.path) == Lower(b.path))
  }

  /** The first answer for an id or a path, in any case mix, is the answer for ever after. */
  lemma FirstAnswerIsFinal(calls: seq<Call>, i: nat, j: nat)
    requires i < j < |calls| && SameKey(calls[i].query, calls[j].query)
    requires Done(MemoryAfter(calls[..i]), calls[i]).0.Some?
    ensures Done(MemoryAfter(calls[..j]), calls[j]).0 == Done(MemoryAfter(calls[..i]), calls[i]).0
  {
    var m := MemoryAfter(calls[..i + 1]);
    assert calls[..i + 1][..i] == calls[..i];
    AnswersAreKept(MemoryAfter(calls[..i]), calls[i]);
    assert calls[..j][..i + 1] == calls[..i + 1];
    MemoryOnlyGrows(calls[..j], i + 1);
    assert Hit(MemoryAfter(calls[..j]), calls[j].query) == Hit(m, calls[i].query);
  }

  ghost predicate DomainClosed(m: Memory) {
    && (forall f :: f in m.byFdid ==> Lower(m.byFdid[f]) in m.byPath)
    && (forall l :: l in m.byPath ==> m.byPath[l] in m.byFdid)
  }

  lemma CachingKeepsMapsClosed(m: Memory, fdid: nat, path: string)
    requires DomainClosed(m)
    ensures DomainClosed(Cached(m, fdid, path))
  {
  }

  lemma CallKeepsMapsClosed(m: Memory, call: Call)
    requires DomainClosed(m)
    ensures DomainClosed(Done(m, call).1)
  {
    forall fdid, path
      ensures DomainClosed(Cached(m, fdid, path))
    {
      CachingKeepsMapsClosed(m, fdid, path);
    }
  }

  /** The two maps never hold half a row, however the tables conflict. */
  lemma {:induction false} MapsStayDomainClosed(calls: seq<Call>)
    ensures DomainClosed(MemoryAfter(calls))
  {
    if calls != [] {
      MapsStayDomainClosed(calls[..|calls| - 1]);
      CallKeepsMapsClosed(MemoryAfter(calls[..|calls| - 1]), calls[|calls| - 1]);
    }
  }

  // ----- the same over every interleaving

  lemma CachingExtends(m: Memory, fdid: nat, path: string)
    ensures Extends(m, Cached(m, fdid, path))
  {
  }

  /** Nothing a thread does makes its process forget or change a row; only a crash empties the memory. */
  lemma StepOnlyAdds(w: World, s: State, step: Step, process: nat)
    ensures step != Crash(process) ==> Extends(MemoryOf(s, process), MemoryOf(After(w, s, step).0, process))
    ensures DomainClosed(MemoryOf(s, process)) ==> DomainClosed(MemoryOf(After(w, s, step).0, process))
  {
    MemoryMoves(w, s, step, process);
    MovedMemory(MemoryOf(s, process), MemoryOf(After(w, s, step).0, process));
  }

  lemma MovedMemory(m: Memory, m': Memory)
    ensures (m' == m || exists fdid, path :: m' == Cached(m, fdid, path)) ==> Extends(m, m') && (DomainClosed(m) ==> DomainClosed(m'))
    ensures m' == Memory(map[], map[]) ==> DomainClosed(m')
  {
    if fdid, path :| m' == Cached(m, fdid, path) {
      CachingExtends(m, fdid, path);
      if DomainClosed(m) {
        CachingKeepsMapsClosed(m, fdid, path);
      }
    }
  }

  lemma MemoryMoves(w: World, s: State, step: Step, process: nat)
    ensures var (m, m') := (MemoryOf(s, process), MemoryOf(After(w, s, step).0, process));
            || m' == m
            || (step == Crash(process) && m' == Memory(map[], map[]))
            || exists fdid, path :: m' == Cached(m, fdid, path)
  {
    if (step.CacheLocal? || step.CacheCommunity?) && step.thread.process == process {
      var pc := PcOf(s, step.thread);
      if pc.FoundLocally? || pc.FoundInCommunity? {
        var m, row := MemoryOf(s, process), pc.row;
        assert Keep(s, step.thread, row).memories[process] == Cached(m, row.fdid, row.path);
      }
    }
  }

  /** Over any two tables and any interleaving, no process ever holds half a row. */
  lemma {:induction false} MemoriesStayDomainClosed(w: World, steps: seq<Step>, process: nat)
    ensures DomainClosed(MemoryOf(Run(w, steps), process))
  {
    if steps != [] {
      MemoriesStayDomainClosed(w, steps[..|steps| - 1], process);
      StepOnlyAdds(w, Run(w, steps[..|steps| - 1]), steps[|steps| - 1], process);
    }
  }

  /** Whatever the threads do, a process that is not killed keeps every row of its memory as it is. */
  lemma {:induction false} MemoriesOnlyGrow(w: World, before: seq<Step>, steps: seq<Step>, process: nat)
    requires forall k :: 0 <= k < |steps| ==> steps[k] != Crash(process)
    ensures Extends(MemoryOf(Run(w, before), process), MemoryOf(Run(w, before + steps), process))
    decreases |steps|
  {
    if steps == [] {
      assert before + steps == before;
    } else {
      var n := |steps| - 1;
      var s := Run(w, before + steps[..n]);
      MemoriesOnlyGrow(w, before, steps[..n], process);
      RunLastStep(w, before, steps);
      StepOnlyAdds(w, s, steps[n], process);
      GrowthAddsUp(MemoryOf(Run(w, before), process), MemoryOf(s, process), MemoryOf(After(w, s, steps[n]).0, process));
    }
  }

  lemma RunUnfolds(w: World, all: seq<Step>, front: seq<Step>, last: Step)
    requires all == front + [last]
    ensures Run(w, all) == After(w, Run(w, front), last).0
  {
    assert all[..|all| - 1] == front && all[|all| - 1] == last;
  }

  lemma RunLastStep(w: World, before: seq<Step>, steps: seq<Step>)
    requires steps != []
    ensures var n := |steps| - 1; Run(w, before + steps) == After(w, Run(w, before + steps[..n]), steps[n]).0
  {
    var n := |steps| - 1;
    assert before + steps == before + steps[..n] + [steps[n]];
    RunUnfolds(w, before + steps, before + steps[..n], steps[n]);
  }

  lemma GrowthAddsUp(a: Memory, b: Memory, c: Memory)
    requires Extends(a, b) && Extends(b, c)
    ensures Extends(a, c)
  {
  }

  // ----- letter case

  lemma PathsAreFoundInAnyCase(t: Table, a: string, b: string)
    requires Lower(a) == Lower(b)
    ensures QueryPath(t, a) == QueryPath(t, b)
  {
    if HasPath(t, a) {
      var f :| f in t && Lower(t[f]) == Lower(a);
      QueriesAreInverse(t, f, a);
      QueriesAreInverse(t, f, b);
    }
  }

  /** A path and its lower-cased form are one question: same answer, memory and stored row, whatever is there. */
  lemma NormalisedPathsAreTheSameCall(m: Memory, local: Option<Table>, community: Option<Table>, path: string)
    ensures Done(m, Call(ByPath(Lower(path)), local, community)) == Done(m, Call(ByPath(path), local, community))
  {
    LowerIsIdempotent(path);
    forall t: Table
      ensures QueryPath(t, Lower(path)) == QueryPath(t, path)
    {
      PathsAreFoundInAnyCase(t, Lower(path), path);
    }
  }

  // ----- a lookup left alone is the sequential call

  ghost predicate Ends(s: State, t: Thread, q: Query, works: bool,
                       end: (State, seq<Reply>), outcome: (Option<Answer>, Memory, Option<Row>)) {
    && |end.1| == 1 && end.1[0].query == q && end.1[0].answer == outcome.0
    && MemoryOf(end.0, t.process) == outcome.1
    && Some(end.0.local) == Persisted(Some(s.local), outcome.2, works)
    && PcOf(end.0, t).Idle?
  }

  predicate StepOf(step: Step, t: Thread) {
    !step.Crash? && !step.Start? && step.thread == t
  }

  lemma {:induction false} IdleThreadStays(w: World, s: State, t: Thread, steps: seq<Step>)
    requires PcOf(s, t).Idle?
    requires forall k :: 0 <= k < |steps| ==> StepOf(steps[k], t)
    ensures AfterAll(w, s, steps) == (s, [])
    decreases |steps|
  {
    if steps != [] {
      assert StepOf(steps[0], t);
      assert After(w, s, steps[0]) == (s, None);
      assert forall k :: 0 <= k < |steps[1..]| ==> steps[1..][k] == steps[k + 1];
      IdleThreadStays(w, s, t, steps[1..]);
      assert Listed(None) + [] == [];
    }
  }

  lemma FirstStep(w: World, s: State, step: Step, steps: seq<Step>)
    ensures var (next, reply) := After(w, s, step);
            var (last, replies) := AfterAll(w, next, steps);
            AfterAll(w, s, [step] + steps) == (last, Listed(reply) + replies)
  {
    assert ([step] + steps)[1..] == steps;
  }

  lemma CachingLeavesTheRest(s: State, t: Thread, row: Row, pc: Pc)
    ensures var s' := Move(Keep(s, t, row), t, pc);
            && MemoryOf(s', t.process) == Cached(MemoryOf(s, t.process), row.fdid, row.path)
            && s'.local == s.local && PcOf(s', t) == pc
  {
  }

  lemma StoringPart(w: World, s: State, t: Thread, works: bool)
    requires PcOf(s, t).Persisting?
    ensures var (q, row) := (PcOf(s, t).query, PcOf(s, t).row);
            Ends(s, t, q, works, AfterAll(w, s, [Persist(t, works)]),
                 (Some(AnswerFrom(q, row)), MemoryOf(s, t.process), Some(row)))
  {
    FirstStep(w, s, Persist(t, works), []);
  }

  lemma CachingPart(w: World, s: State, t: Thread, works: bool)
    requires PcOf(s, t).FoundInCommunity?
    ensures var (q, row, m) := (PcOf(s, t).query, PcOf(s, t).row, MemoryOf(s, t.process));
            Ends(s, t, q, works, AfterAll(w, s, [CacheCommunity(t), Persist(t, works)]),
                 (Some(AnswerFrom(q, row)), Cached(m, row.fdid, row.path), Write(m, row.fdid, row.path)))
  {
    var q, row, rest := PcOf(s, t).query, PcOf(s, t).row, [Persist(t, works)];
    FirstStep(w, s, CacheCommunity(t), rest);
    var next := After(w, s, CacheCommunity(t)).0;
    if AlreadyCached(MemoryOf(s, t.process), row.fdid, row.path) {
      CachingLeavesTheRest(s, t, row, Idle);
      IdleThreadStays(w, next, t, rest);
    } else {
      CachingLeavesTheRest(s, t, row, Persisting(q, row));
      StoringPart(w, next, t, works);
    }
  }

  lemma CommunityPart(w: World, s: State, t: Thread, fails: bool, works: bool)
    requires PcOf(s, t).AtCommunity?
    requires Hit(MemoryOf(s, t.process), PcOf(s, t).query).None?
    ensures var q := PcOf(s, t).query;
            Ends(s, t, q, works, AfterAll(w, s, [ReadCommunity(t, fails), CacheCommunity(t), Persist(t, works)]),
                 Done(MemoryOf(s, t.process), Call(q, None, if fails then None else Some(w.community))))
  {
    var rest := [CacheCommunity(t), Persist(t, works)];
    FirstStep(w, s, ReadCommunity(t, fails), rest);
    assert [ReadCommunity(t, fails)] + rest == [ReadCommunity(t, fails), CacheCommunity(t), Persist(t, works)];
    var next := After(w, s, ReadCommunity(t, fails)).0;
    if fails || Find(w.community, PcOf(s, t).query).None? {
      IdleThreadStays(w, next, t, rest);
    } else {
      CachingPart(w, next, t, works);
    }
  }

  lemma MissIsCommunity(m: Memory, call: Call)
    requires Hit(m, call.query).None? && (call.local.None? || Find(call.local.value, call.query).None?)
    ensures Done(m, call) == Done(m, call.(local := None))
  {
  }

  /** The local table as the thread will see it. */
  function LocalSeen(w: World, s: State, localFails: bool): Option<Table> {
    if localFails && !w.reliable then None else Some(s.local)
  }

  function CommunitySeen(w: World, communityFails: bool): Option<Table> {
    if communityFails then None else Some(w.community)
  }

  lemma FoundPart(w: World, s: State, t: Thread, local: Option<Table>, communityFails: bool, works: bool, rest: seq<Step>)
    requires PcOf(s, t).FoundLocally? && forall k :: 0 <= k < |rest| ==> StepOf(rest[k], t)
    requires Hit(MemoryOf(s, t.process), PcOf(s, t).query).None?
    requires local.Some? && Find(local.value, PcOf(s, t).query) == Some(PcOf(s, t).row)
    ensures Ends(s, t, PcOf(s, t).query, works, AfterAll(w, s, [CacheLocal(t)] + rest),
                 Done(MemoryOf(s, t.process), Call(PcOf(s, t).query, local, CommunitySeen(w, communityFails))))
  {
    FirstStep(w, s, CacheLocal(t), rest);
    CachingLeavesTheRest(s, t, PcOf(s, t).row, Idle);
    IdleThreadStays(w, After(w, s, CacheLocal(t)).0, t, rest);
  }

  lemma MissedPart(w: World, s: State, t: Thread, local: Option<Table>, communityFails: bool, works: bool)
    requires PcOf(s, t).AtCommunity?
    requires Hit(MemoryOf(s, t.process), PcOf(s, t).query).None?
    requires local.None? || Find(local.value, PcOf(s, t).query).None?
    ensures Ends(s, t, PcOf(s, t).query, works,
                 AfterAll(w, s, [CacheLocal(t)] + [ReadCommunity(t, communityFails), CacheCommunity(t), Persist(t, works)]),
                 Done(MemoryOf(s, t.process), Call(PcOf(s, t).query, local, CommunitySeen(w, communityFails))))
  {
    FirstStep(w, s, CacheLocal(t), [ReadCommunity(t, communityFails), CacheCommunity(t), Persist(t, works)]);
    assert After(w, s, CacheLocal(t)) == (s, None);
    MissIsCommunity(MemoryOf(s, t.process), Call(PcOf(s, t).query, local, CommunitySeen(w, communityFails)));
    CommunityPart(w, s, t, communityFails, works);
    NothingListed(AfterAll(w, s, [ReadCommunity(t, communityFails), CacheCommunity(t), Persist(t, works)]).1);
  }

  lemma NothingListed(replies: seq<Reply>)
    ensures Listed(None) + replies == replies
  {
  }

  lemma LocalPart(w: World, s: State, t: Thread, localFails: bool, communityFails: bool, works: bool)
    requires PcOf(s, t).AtLocal?
    requires Hit(MemoryOf(s, t.process), PcOf(s, t).query).None?
    ensures Ends(s, t, PcOf(s, t).query, works,
                 AfterAll(w, s, [ReadLocal(t, localFails)] + ([CacheLocal(t)] +
                                [ReadCommunity(t, communityFails), CacheCommunity(t), Persist(t, works)])),
                 Done(MemoryOf(s, t.process), Call(PcOf(s, t).query, LocalSeen(w, s, localFails), CommunitySeen(w, communityFails))))
  {
    var rest := [ReadCommunity(t, communityFails), CacheCommunity(t), Persist(t, works)];
    var next := After(w, s, ReadLocal(t, localFails)).0;
    FirstStep(w, s, ReadLocal(t, localFails), [CacheLocal(t)] + rest);
    NothingListed(AfterAll(w, next, [CacheLocal(t)] + rest).1);
    if PcOf(next, t).FoundLocally? {
      FoundPart(w, next, t, LocalSeen(w, s, localFails), communityFails, works, rest);
    } else {
      MissedPart(w, next, t, LocalSeen(w, s, localFails), communityFails, works);
    }
  }

  /** A lookup whose steps nothing interrupts is the sequential call: same answer, memory and stored row. */
  lemma UninterruptedLookupIsACall(w: World, s: State, t: Thread, q: Query, localFails: bool, communityFails: bool, works: bool)
    requires PcOf(s, t).Idle?
    ensures Ends(s, t, q, works, AfterAll(w, s, OneLookup(t, q, localFails, communityFails, works)),
                 Done(MemoryOf(s, t.process), Call(q, LocalSeen(w, s, localFails), CommunitySeen(w, communityFails))))
  {
    var rest := [ReadLocal(t, localFails)] + ([CacheLocal(t)] +
                [ReadCommunity(t, communityFails), CacheCommunity(t), Persist(t, works)]);
    FirstStep(w, s, Start(t, q), rest);
    assert [Start(t, q)] + rest == OneLookup(t, q, localFails, communityFails, works);
    var next := After(w, s, Start(t, q)).0;
    if Hit(MemoryOf(s, t.process), q).Some? {
      IdleThreadStays(w, next, t, rest);
    } else {
      LocalPart(w, next, t, localFails, communityFails, works);
      NothingListed(AfterAll(w, next, rest).1);
    }
  }

  // ----- when are local rows safe?

  ghost predicate RowsSurvive(w: World) {
    forall steps: seq<Step> :: Sub(w.original, Run(w, steps).local)
  }

  lemma {:induction false} RunIsAfterAll(w: World, before: seq<Step>, steps: seq<Step>)
    ensures Run(w, before + steps) == AfterAll(w, Run(w, before), steps).0
    decreases |steps|
  {
    if steps == [] {
      assert before + steps == before;
    } else {
      var first, rest := steps[0], steps[1..];
      assert before + [first] + rest == before + steps && [first] + rest == steps;
      RunIsAfterAll(w, before + [first], rest);
      RunUnfolds(w, before + [first], before, first);
      FirstStep(w, Run(w, before), first, rest);
    }
  }

  /** One lookup from scratch that misses, or cannot read, the local table stores the community's row. */
  lemma MissedLookup(w: World, q: Query, fails: bool) returns (steps: seq<Step>)
    requires Find(w.community, q).Some?
    requires Find(w.original, q).None? || (fails && !w.reliable)
    ensures var row := Find(w.community, q).value; Run(w, steps).local == Upsert(w.original, row.fdid, row.path)
  {
    var t := Thread(0, 0);
    steps := OneLookup(t, q, fails, false, true);
    UninterruptedLookupIsACall(w, Fresh(w), t, q, fails, false, true);
    RunIsAfterAll(w, [], steps);
    assert [] + steps == steps;
  }

  /** Where the two tables contradict each other, one lookup already loses a local row. */
  lemma IncoherenceLosesARow(w: World) returns (steps: seq<Step>)
    requires !Coherent(w)
    ensures !Sub(w.original, Run(w, steps).local)
  {
    if w.reliable {
      var f :| f in w.community && !(f in w.original <==> HasPath(w.original, w.community[f]));
      if f in w.original {
        var q := ByPath(w.community[f]);
        QueriesAreInverse(w.community, f, w.community[f]);
        steps := MissedLookup(w, q, false);
        assert Run(w, steps).local[f] == w.community[f];
        assert Lower(w.original[f]) != Lower(w.community[f]);
      } else {
        steps := MissedLookup(w, ById(f), false);
        var g :| g in w.original && Lower(w.original[g]) == Lower(w.community[f]);
        assert g !in Run(w, steps).local;
      }
    } else {
      var f :| f in w.community &&
        !((f in w.original ==> w.original[f] == w.community[f]) &&
          (forall g :: g in w.original && Lower(w.original[g]) == Lower(w.community[f]) ==> g == f));
      steps := MissedLookup(w, ById(f), true);
      var local := Run(w, steps).local;
      assert local[f] == w.community[f];
      if f in w.original && w.original[f] != w.community[f] {
        assert local[f] != w.original[f];
      } else {
        var g :| g in w.original && Lower(w.original[g]) == Lower(w.community[f]) && g != f;
        assert g !in local;
      }
    }
  }

  /** No run loses or changes a local row exactly when the two tables are coherent. */
  lemma LocalRowsSurviveExactlyWhen(w: World)
    ensures RowsSurvive(w) <==> Coherent(w)
  {
    if Coherent(w) {
      forall steps: seq<Step>
        ensures Sub(w.original, Run(w, steps).local)
      {
        RunInv(w, steps);
      }
    } else {
      var steps := IncoherenceLosesARow(w);
      assert !Sub(w.original, Run(w, steps).local);
    }
  }

  /** For one: looking up id 2 evicts the local row of id 1 when both stand for the same path. */
  lemma OnePathTwoIdsLosesTheLocalRow()
    ensures !RowsSurvive(World(map[1 := "a"], map[2 := "a"], true))
  {
    var w := World(map[1 := "a"], map[2 := "a"], true);
    assert 2 in w.community && 1 in w.original;
    assert HasPath(w.original, w.community[2]);
    LocalRowsSurviveExactlyWhen(w);
  }
}
