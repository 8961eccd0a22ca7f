/** Threads of several processes looking names up at once, over one local store and one community table. */
module ListfileRuns {
  import opened Wrappers
  import opened ListfileTable
  import opened ListfileCache
  import opened Listfile

  datatype Query = ById(fdid: nat) | ByPath(path: string)

  datatype Answer = PathAnswer(path: string) | IdAnswer(fdid: nat)

  function Find(t: Table, q: Query): Option<Row> {
    match q
    case ById(fdid) => if fdid in t then Some(Row(fdid, t[fdid])) else None
    case ByPath(path) =>
      var row := QueryPath(t, path);
      if row.None? then None else Some(Row(row.value.0, row.value.1))
  }

  function AnswerFrom(q: Query, row: Row): Answer {
    if q.ById? then PathAnswer(row.path) else IdAnswer(row.fdid)
  }

  function AnswerIn(t: Table, q: Query): Option<Answer> {
    var row := Find(t, q);
    if row.None? then None else Some(AnswerFrom(q, row.value))
  }

  // ----- one atomic step at a time

  datatype Thread = Thread(process: nat, number: nat)

  /** Where a thread is in its lookup: between the reads and writes it makes. */
  datatype Pc =
    | Idle
    | AtLocal(query: Query)
    | FoundLocally(query: Query, row: Row)
    | AtCommunity(query: Query, localFailed: bool)
    | FoundInCommunity(query: Query, row: Row)
    | Persisting(query: Query, row: Row)

  /** Each process has its memory; the local store is shared. */
  datatype State = State(local: Table, memories: map<nat, Memory>, threads: map<Thread, Pc>)

  /** Local reads fail only where they are not reliable; community reads and local writes may always fail. */
  datatype World = World(original: Table, community: Table, reliable: bool)

  datatype Step =
    | Start(thread: Thread, query: Query)
    | ReadLocal(thread: Thread, fails: bool)
    | CacheLocal(thread: Thread)
    | ReadCommunity(thread: Thread, fails: bool)
    | CacheCommunity(thread: Thread)
    | Persist(thread: Thread, works: bool)
    | Crash(process: nat)

  /** What a finished lookup returned, and which of its reads failed. */
  datatype Reply = Reply(query: Query, answer: Option<Answer>, localFailed: bool, communityFailed: bool)

  function MemoryOf(s: State, process: nat): Memory {
    if process in s.memories then s.memories[process] else Memory(map[], map[])
  }

  function PcOf(s: State, thread: Thread): Pc {
    if thread in s.threads then s.threads[thread] else Idle
  }

  function Hit(m: Memory, q: Query): Option<Answer> {
    match q
    case ById(fdid) => if fdid in m.byFdid then Some(PathAnswer(m.byFdid[fdid])) else None
    case ByPath(path) => if Lower(path) in m.byPath then Some(IdAnswer(m.byPath[Lower(path)])) else None
  }

  function Move(s: State, thread: Thread, pc: Pc): State {
    s.(threads := s.threads[thread := pc])
  }

  function Keep(s: State, thread: Thread, row: Row): State {
    s.(memories := s.memories[thread.process := Cached(MemoryOf(s, thread.process), row.fdid, row.path)])
  }

  /** A step a thread is not at changes nothing. */
  function After(w: World, s: State, step: Step): (State, Option<Reply>) {
    match step
    case Start(t, q) =>
      if !PcOf(s, t).Idle? then (s, None)
      else
        var hit := Hit(MemoryOf(s, t.process), q);
        if hit.Some? then (s, Some(Reply(q, hit, false, false))) else (Move(s, t, AtLocal(q)), None)
    case ReadLocal(t, fails) =>
      var pc := PcOf(s, t);
      if !pc.AtLocal? then (s, None)
      else if fails && !w.reliable then (Move(s, t, AtCommunity(pc.query, true)), None)
      else
        var row := Find(s.local, pc.query);
        (Move(s, t, if row.Some? then FoundLocally(pc.query, row.value) else AtCommunity(pc.query, false)), None)
    case CacheLocal(t) =>
      var pc := PcOf(s, t);
      if !pc.FoundLocally? then (s, None)
      else
        var kept := Keep(s, t, pc.row);
        var cachedPath := kept.memories[t.process].byFdid[pc.row.fdid];
        (Move(kept, t, Idle), Some(Reply(pc.query, Some(AnswerFrom(pc.query, Row(pc.row.fdid, cachedPath))), false, false)))
    case ReadCommunity(t, fails) =>
      var pc := PcOf(s, t);
      if !pc.AtCommunity? then (s, None)
      else
        var row := Find(w.community, pc.query);
        if fails || row.None? then (Move(s, t, Idle), Some(Reply(pc.query, None, pc.localFailed, fails)))
        else (Move(s, t, FoundInCommunity(pc.query, row.value)), None)
    case CacheCommunity(t) =>
      var pc := PcOf(s, t);
      if !pc.FoundInCommunity? then (s, None)
      else if AlreadyCached(MemoryOf(s, t.process), pc.row.fdid, pc.row.path) then
        (Move(Keep(s, t, pc.row), t, Idle), Some(Reply(pc.query, Some(AnswerFrom(pc.query, pc.row)), false, false)))
      else (Move(Keep(s, t, pc.row), t, Persisting(pc.query, pc.row)), None)
    case Persist(t, works) =>
      var pc := PcOf(s, t);
      if !pc.Persisting? then (s, None)
      else
        var stored := if works then s.(local := Upsert(s.local, pc.row.fdid, pc.row.path)) else s;
        (Move(stored, t, Idle), Some(Reply(pc.query, Some(AnswerFrom(pc.query, pc.row)), false, false)))
    case Crash(process) =>
      (s.(memories := s.memories - {process},
          threads := map t | t in s.threads && t.process != process :: s.threads[t]), None)
  }

  function Fresh(w: World): State {
    State(w.original, map[], map[])
  }

  /** The state after any interleaving, from empty memories. */
  function Run(w: World, steps: seq<Step>): State {
    if steps == [] then Fresh(w) else After(w, Run(w, steps[..|steps| - 1]), steps[|steps| - 1]).0
  }

  // ----- a lookup left alone is the sequential one

  function OneLookup(t: Thread, q: Query, localFails: bool, communityFails: bool, works: bool): seq<Step> {
    [Start(t, q), ReadLocal(t, localFails), CacheLocal(t), ReadCommunity(t, communityFails), CacheCommunity(t), Persist(t, works)]
  }

  function Listed(reply: Option<Reply>): seq<Reply> {
    if reply.Some? then [reply.value] else []
  }

  function AfterAll(w: World, s: State, steps: seq<Step>): (State, seq<Reply>)
    decreases |steps|
  {
    if steps == [] then (s, [])
    else
      var (next, reply) := After(w, s, steps[0]);
      var (last, replies) := AfterAll(w, next, steps[1..]);
      (last, Listed(reply) + replies)
  }

  // ----- the truth the lookups agree with

  /** The local rows, and the community rows for every other id. */
  function Overlay(original: Table, community: Table): map<nat, string> {
    map f | f in original.Keys + community.Keys :: if f in original then original[f] else community[f]
  }

  /**
   * With reliable local reads: the local table knows a community row's id exactly when it knows
   * its path. Otherwise the two tables contradict each other nowhere.
   */
  ghost predicate Coherent(w: World) {
    forall f :: f in w.community ==>
      if w.reliable then f in w.original <==> HasPath(w.original, w.community[f])
      else
        && (f in w.original ==> w.original[f] == w.community[f])
        && (forall g :: g in w.original && Lower(w.original[g]) == Lower(w.community[f]) ==> g == f)
  }

  lemma OverlayIsATable(w: World)
    requires Coherent(w)
    ensures UniquePaths(Overlay(w.original, w.community))
    ensures forall f :: f in w.community && f !in w.original ==> !HasPath(w.original, w.community[f])
  {
    forall f | f in w.community && f !in w.original
      ensures !HasPath(w.original, w.community[f])
    {
    }
    var merged := Overlay(w.original, w.community);
    forall f, g | f in merged && g in merged && Lower(merged[f]) == Lower(merged[g])
      ensures f == g
    {
    }
  }

  ghost function Truth(w: World): Table
    requires Coherent(w)
  {
    OverlayIsATable(w);
    Overlay(w.original, w.community)
  }

  ghost predicate Sub(t: Table, u: Table) {
    forall f :: f in t ==> f in u && u[f] == t[f]
  }

  lemma FindInSub(t: Table, u: Table, q: Query)
    requires Sub(t, u) && Find(t, q).Some?
    ensures Find(u, q) == Find(t, q)
  {
    if q.ByPath? {
      var row := Find(t, q).value;
      QueriesAreInverse(u, row.fdid, q.path);
    }
  }

  /** A community row found for a key the local table lacks, or lacks no contradiction with, is true. */
  lemma CommunityRowIsTrue(w: World, q: Query)
    requires Coherent(w) && Find(w.community, q).Some?
    requires w.reliable ==> Find(w.original, q).None?
    ensures Find(Truth(w), q) == Find(w.community, q)
  {
    var row := Find(w.community, q).value;
    assert row.fdid in w.community && w.community[row.fdid] == row.path;
    if w.reliable && q.ByPath? {
      assert !HasPath(w.original, row.path);
    }
    assert row.fdid in Truth(w) && Truth(w)[row.fdid] == row.path;
    if q.ByPath? {
      QueriesAreInverse(Truth(w), row.fdid, q.path);
    }
  }

  /** The truth has nothing that neither table has. */
  lemma NothingElseIsTrue(w: World, q: Query)
    requires Coherent(w) && Find(w.original, q).None? && Find(w.community, q).None?
    ensures Find(Truth(w), q).None?
  {
    if q.ByPath? {
      assert !HasPath(Truth(w), q.path);
    }
  }

  lemma OriginalIsTrue(w: World)
    requires Coherent(w)
    ensures Sub(w.original, Truth(w))
  {
  }

  lemma {:induction false} StoringATrueRow(local: Table, truth: Table, row: Row)
    requires Sub(local, truth) && row.fdid in truth && truth[row.fdid] == row.path
    ensures Sub(Upsert(local, row.fdid, row.path), truth)
    ensures Sub(local, Upsert(local, row.fdid, row.path))
  {
    forall f | f in local
      ensures f in Upsert(local, row.fdid, row.path) && Upsert(local, row.fdid, row.path)[f] == local[f]
    {
      assert truth[f] == local[f];
    }
  }

  // ----- what every step keeps

  ghost predicate Agrees(m: Memory, truth: Table) {
    && (forall f :: f in m.byFdid ==> f in truth && truth[f] == m.byFdid[f])
    && (forall l :: l in m.byPath ==> m.byPath[l] in truth && Lower(truth[m.byPath[l]]) == l)
  }

  ghost predicate PcInv(w: World, truth: Table, pc: Pc) {
    match pc
    case Idle => true
    case AtLocal(q) => true
    case AtCommunity(q, localFailed) => if localFailed then !w.reliable else Find(w.original, q).None?
    case FoundLocally(q, row) => Find(truth, q) == Some(row)
    case FoundInCommunity(q, row) => Find(truth, q) == Some(row)
    case Persisting(q, row) => Find(truth, q) == Some(row)
  }

  ghost predicate Inv(w: World, truth: Table, s: State) {
    && Sub(w.original, s.local)
    && Sub(s.local, truth)
    && (forall p :: p in s.memories ==> Agrees(s.memories[p], truth))
    && (forall t :: t in s.threads ==> PcInv(w, truth, s.threads[t]))
  }

  lemma FoundRowIsThere(t: Table, q: Query)
    requires Find(t, q).Some?
    ensures var row := Find(t, q).value; row.fdid in t && t[row.fdid] == row.path
  {
  }

  lemma HitIsTrue(m: Memory, truth: Table, q: Query)
    requires Agrees(m, truth) && Hit(m, q).Some?
    ensures Hit(m, q) == AnswerIn(truth, q)
  {
    if q.ByPath? {
      QueriesAreInverse(truth, m.byPath[Lower(q.path)], q.path);
    }
  }

  ghost predicate ReplyOk(w: World, truth: Table, reply: Reply) {
    && (reply.answer.Some? ==> reply.answer == AnswerIn(truth, reply.query))
    && (reply.answer.None? && !reply.communityFailed ==>
          if reply.localFailed then AnswerIn(w.community, reply.query).None? else AnswerIn(truth, reply.query).None?)
  }

  lemma Moving(w: World, truth: Table, s: State, t: Thread, pc: Pc)
    requires Inv(w, truth, s) && PcInv(w, truth, pc)
    ensures Inv(w, truth, Move(s, t, pc))
  {
  }

  lemma Keeping(w: World, truth: Table, s: State, t: Thread, row: Row)
    requires Inv(w, truth, s) && row.fdid in truth && truth[row.fdid] == row.path
    ensures var kept := Keep(s, t, row);
            Inv(w, truth, kept) && t.process in kept.memories &&
            row.fdid in kept.memories[t.process].byFdid && kept.memories[t.process].byFdid[row.fdid] == row.path
  {
    var m := MemoryOf(s, t.process);
    assert Agrees(m, truth);
    assert Agrees(Cached(m, row.fdid, row.path), truth);
  }

  ghost predicate StepOk(w: World, truth: Table, after: (State, Option<Reply>)) {
    Inv(w, truth, after.0) && (after.1.Some? ==> ReplyOk(w, truth, after.1.value))
  }

  lemma StartIsOk(w: World, truth: Table, s: State, t: Thread, q: Query)
    requires Inv(w, truth, s)
    ensures StepOk(w, truth, After(w, s, Start(t, q)))
  {
    if Hit(MemoryOf(s, t.process), q).Some? {
      HitIsTrue(MemoryOf(s, t.process), truth, q);
    }
    Moving(w, truth, s, t, AtLocal(q));
  }

  lemma ReadLocalIsOk(w: World, truth: Table, s: State, t: Thread, fails: bool)
    requires Inv(w, truth, s)
    ensures StepOk(w, truth, After(w, s, ReadLocal(t, fails)))
  {
    var pc := PcOf(s, t);
    if pc.AtLocal? {
      var found := Find(s.local, pc.query);
      if fails && !w.reliable {
        Moving(w, truth, s, t, AtCommunity(pc.query, true));
      } else if found.Some? {
        FindInSub(s.local, truth, pc.query);
        Moving(w, truth, s, t, FoundLocally(pc.query, found.value));
      } else {
        if Find(w.original, pc.query).Some? {
          FindInSub(w.original, s.local, pc.query);
        }
        Moving(w, truth, s, t, AtCommunity(pc.query, false));
      }
    }
  }

  lemma ReadCommunityIsOk(w: World, s: State, t: Thread, fails: bool)
    requires Coherent(w) && Inv(w, Truth(w), s)
    ensures StepOk(w, Truth(w), After(w, s, ReadCommunity(t, fails)))
  {
    var truth, pc := Truth(w), PcOf(s, t);
    if pc.AtCommunity? {
      Moving(w, truth, s, t, Idle);
      if Find(w.community, pc.query).Some? {
        CommunityRowIsTrue(w, pc.query);
        Moving(w, truth, s, t, FoundInCommunity(pc.query, Find(w.community, pc.query).value));
      } else if !pc.localFailed {
        NothingElseIsTrue(w, pc.query);
      }
    }
  }

  lemma CacheLocalIsOk(w: World, truth: Table, s: State, t: Thread)
    requires Inv(w, truth, s)
    ensures StepOk(w, truth, After(w, s, CacheLocal(t)))
  {
    var pc := PcOf(s, t);
    if pc.FoundLocally? {
      FoundRowIsThere(truth, pc.query);
      Keeping(w, truth, s, t, pc.row);
      Moving(w, truth, Keep(s, t, pc.row), t, Idle);
    }
  }

  lemma CacheCommunityIsOk(w: World, truth: Table, s: State, t: Thread)
    requires Inv(w, truth, s)
    ensures StepOk(w, truth, After(w, s, CacheCommunity(t)))
  {
    var pc := PcOf(s, t);
    if pc.FoundInCommunity? {
      FoundRowIsThere(truth, pc.query);
      Keeping(w, truth, s, t, pc.row);
      Moving(w, truth, Keep(s, t, pc.row), t, Idle);
      Moving(w, truth, Keep(s, t, pc.row), t, Persisting(pc.query, pc.row));
    }
  }

  lemma PersistIsOk(w: World, truth: Table, s: State, t: Thread, works: bool)
    requires Inv(w, truth, s)
    ensures StepOk(w, truth, After(w, s, Persist(t, works)))
  {
    var pc := PcOf(s, t);
    if pc.Persisting? {
      FoundRowIsThere(truth, pc.query);
      StoringATrueRow(s.local, truth, pc.row);
      Moving(w, truth, s, t, Idle);
      Moving(w, truth, s.(local := Upsert(s.local, pc.row.fdid, pc.row.path)), t, Idle);
    }
  }

  lemma StepIsOk(w: World, s: State, step: Step)
    requires Coherent(w) && Inv(w, Truth(w), s)
    ensures StepOk(w, Truth(w), After(w, s, step))
  {
    match step
    case Start(t, q) => StartIsOk(w, Truth(w), s, t, q);
    case ReadLocal(t, fails) => ReadLocalIsOk(w, Truth(w), s, t, fails);
    case ReadCommunity(t, fails) => ReadCommunityIsOk(w, s, t, fails);
    case CacheLocal(t) => CacheLocalIsOk(w, Truth(w), s, t);
    case CacheCommunity(t) => CacheCommunityIsOk(w, Truth(w), s, t);
    case Persist(t, works) => PersistIsOk(w, Truth(w), s, t, works);
    case Crash(process) =>
  }

  lemma {:induction false} RunInv(w: World, steps: seq<Step>)
    requires Coherent(w)
    ensures Inv(w, Truth(w), Run(w, steps))
  {
    if steps == [] {
      OriginalIsTrue(w);
    } else {
      RunInv(w, steps[..|steps| - 1]);
      StepIsOk(w, Run(w, steps[..|steps| - 1]), steps[|steps| - 1]);
    }
  }

  // ----- who stores a row

  /** A thread about to store a row has put it into its process's memory, under both keys. */
  ghost predicate StorersKnow(w: World, s: State) {
    forall t | Storing(s, t) :: Knows(w, s, t, s.threads[t].row)
  }

  ghost predicate Knows(w: World, s: State, t: Thread, row: Row) {
    && row.fdid in w.community && w.community[row.fdid] == row.path
    && row.fdid in MemoryOf(s, t.process).byFdid && Lower(row.path) in MemoryOf(s, t.process).byPath
  }

  /** A thread that found a row in the community table found it there. */
  ghost predicate FoundThere(w: World, s: State) {
    forall t :: t in s.threads && s.threads[t].FoundInCommunity? ==>
      s.threads[t].row.fdid in w.community && w.community[s.threads[t].row.fdid] == s.threads[t].row.path
  }

  ghost predicate Storing(s: State, t: Thread) {
    t in s.threads && s.threads[t].Persisting?
  }

  /** No two threads of one process are about to store the same row. */
  ghost predicate StorersDiffer(s: State) {
    forall t, u | Storing(s, t) && Storing(s, u) && t != u && t.process == u.process :: s.threads[t].row != s.threads[u].row
  }

  ghost predicate StorerInv(w: World, s: State) {
    StorersKnow(w, s) && FoundThere(w, s) && StorersDiffer(s)
  }

  ghost predicate KeepsKeys(m: Memory, m': Memory) {
    m.byFdid.Keys <= m'.byFdid.Keys && m.byPath.Keys <= m'.byPath.Keys
  }

  lemma KeysStay(w: World, s: State, step: Step, process: nat)
    requires step != Crash(process)
    ensures KeepsKeys(MemoryOf(s, process), MemoryOf(After(w, s, step).0, process))
  {
  }

  lemma FoundStaysThere(w: World, s: State, step: Step)
    requires FoundThere(w, s)
    ensures FoundThere(w, After(w, s, step).0)
  {
  }

  /** Only caching a community row makes a thread a storer, and then the row was not known. */
  lemma StorersAreOld(w: World, s: State, step: Step, u: Thread)
    requires Storing(After(w, s, step).0, u) && !(step.CacheCommunity? && step.thread == u)
    ensures Storing(s, u) && s.threads[u] == After(w, s, step).0.threads[u] && step != Crash(u.process)
  {
  }

  lemma NewStorer(w: World, s: State, t: Thread)
    requires Storing(After(w, s, CacheCommunity(t)).0, t) && FoundThere(w, s) && StorersKnow(w, s)
    ensures var row := After(w, s, CacheCommunity(t)).0.threads[t].row;
            && Knows(w, After(w, s, CacheCommunity(t)).0, t, row)
            && (Storing(s, t) || !(row.fdid in MemoryOf(s, t.process).byFdid && Lower(row.path) in MemoryOf(s, t.process).byPath))
            && (Storing(s, t) ==> s.threads[t].row == row)
  {
    assert Storing(s, t) ==> Knows(w, s, t, s.threads[t].row);
  }

  lemma StorersStillKnow(w: World, s: State, step: Step)
    requires StorerInv(w, s)
    ensures StorersKnow(w, After(w, s, step).0)
  {
    var s' := After(w, s, step).0;
    forall u | Storing(s', u)
      ensures Knows(w, s', u, s'.threads[u].row)
    {
      if step.CacheCommunity? && step.thread == u {
        NewStorer(w, s, u);
      } else {
        StorersAreOld(w, s, step, u);
        assert Knows(w, s, u, s.threads[u].row);
        KeysStay(w, s, step, u.process);
      }
    }
  }

  /** A storer of before and the one that a step makes do not store the same row. */
  lemma OldAndNewDiffer(w: World, s: State, step: Step, t: Thread, u: Thread)
    requires StorerInv(w, s) && Storing(After(w, s, step).0, t) && Storing(After(w, s, step).0, u)
    requires t != u && t.process == u.process && !(step.CacheCommunity? && step.thread == t)
    ensures After(w, s, step).0.threads[t].row != After(w, s, step).0.threads[u].row
  {
    StorersAreOld(w, s, step, t);
    assert Knows(w, s, t, s.threads[t].row);
    if step.CacheCommunity? && step.thread == u {
      NewStorer(w, s, u);
    } else {
      StorersAreOld(w, s, step, u);
    }
  }

  lemma StorersStillDiffer(w: World, s: State, step: Step)
    requires StorerInv(w, s)
    ensures StorersDiffer(After(w, s, step).0)
  {
    var s' := After(w, s, step).0;
    forall t, u | Storing(s', t) && Storing(s', u) && t != u && t.process == u.process
      ensures s'.threads[t].row != s'.threads[u].row
    {
      if step.CacheCommunity? && step.thread == t {
        OldAndNewDiffer(w, s, step, u, t);
      } else {
        OldAndNewDiffer(w, s, step, t, u);
      }
    }
  }

  /**
   * However the threads of a process race to the same row, over any two tables only the one that
   * was first to cache it stores it.
   */
  lemma {:induction false} OneThreadStoresARow(w: World, steps: seq<Step>)
    ensures StorerInv(w, Run(w, steps))
  {
    if steps != [] {
      var n := |steps| - 1;
      OneThreadStoresARow(w, steps[..n]);
      StorersStillKnow(w, Run(w, steps[..n]), steps[n]);
      FoundStaysThere(w, Run(w, steps[..n]), steps[n]);
      StorersStillDiffer(w, Run(w, steps[..n]), steps[n]);
    }
  }

  /**
   * A thread that finds its row in memory under both keys is done and leaves the local store alone;
   * one that misses either key goes on to store the row.
   */
  lemma StoresExactlyWhenUnknown(w: World, s: State, t: Thread, row: Row, works: bool)
    requires PcOf(s, t).FoundInCommunity? && PcOf(s, t).row == row
    ensures var (m, cached) := (MemoryOf(s, t.process), After(w, s, CacheCommunity(t)).0);
            var stored := After(w, cached, Persist(t, works)).0.local;
            stored == if (row.fdid !in m.byFdid || Lower(row.path) !in m.byPath) && works
                      then Upsert(s.local, row.fdid, row.path) else s.local
  {
  }
}
