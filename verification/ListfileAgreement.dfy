/** When do answers given to different threads and processes agree? */
module ListfileAgreement {
  import opened Wrappers
  import opened ListfileTable
  import opened ListfileCache
  import opened Listfile
  import opened ListfileRuns
  import opened ListfileTheorems

  /** The replies of a whole run, in order. */
  function Replies(w: World, steps: seq<Step>): seq<Reply> {
    AfterAll(w, Fresh(w), steps).1
  }

  /** In every interleaving, two answers for one id or one path are the same answer. */
  ghost predicate AnswersAgree(w: World) {
    forall steps: seq<Step>, i, j :: 0 <= i < j < |Replies(w, steps)| ==> Agree(Replies(w, steps)[i], Replies(w, steps)[j])
  }

  predicate Agree(a: Reply, b: Reply) {
    SameKey(a.query, b.query) && a.answer.Some? && b.answer.Some? ==> a.answer == b.answer
  }

  // ----- coherent tables

  lemma {:induction false} RepliesAreOk(w: World, s: State, steps: seq<Step>)
    requires Coherent(w) && Inv(w, Truth(w), s)
    ensures forall r <- AfterAll(w, s, steps).1 :: ReplyOk(w, Truth(w), r)
    decreases |steps|
  {
    if steps != [] {
      StepIsOk(w, s, steps[0]);
      RepliesAreOk(w, After(w, s, steps[0]).0, steps[1..]);
    }
  }

  lemma SameKeySameAnswer(t: Table, a: Query, b: Query)
    requires SameKey(a, b) && AnswerIn(t, a).Some?
    ensures AnswerIn(t, b) == AnswerIn(t, a)
  {
    if a.ByPath? {
      QueriesAreInverse(t, Find(t, a).value.fdid, b.path);
    }
  }

  lemma OkRepliesAgree(w: World, a: Reply, b: Reply)
    requires Coherent(w) && ReplyOk(w, Truth(w), a) && ReplyOk(w, Truth(w), b)
    ensures Agree(a, b)
  {
    if SameKey(a.query, b.query) && a.answer.Some? {
      SameKeySameAnswer(Truth(w), a.query, b.query);
    }
  }

  // ----- incoherent tables

  function Play<S, P, R>(after: (S, P) -> (S, Option<R>), s: S, steps: seq<P>): (S, seq<R>)
    decreases |steps|
  {
    if steps == [] then (s, [])
    else
      var (next, reply) := after(s, steps[0]);
      var (last, replies) := Play(after, next, steps[1..]);
      (last, (if reply.Some? then [reply.value] else []) + replies)
  }

  lemma {:induction false} PlayConcat<S, P, R>(after: (S, P) -> (S, Option<R>), s: S, a: seq<P>, b: seq<P>)
    ensures var (s1, r1) := Play(after, s, a); var (s2, r2) := Play(after, s1, b);
            Play(after, s, a + b) == (s2, r1 + r2)
    decreases |a|
  {
    if a == [] {
      var r2 := Play(after, s, b).1;
      assert a + b == b && [] + r2 == r2;
    } else {
      var (next, reply) := after(s, a[0]);
      var one := if reply.Some? then [reply.value] else [];
      PlayConcat(after, next, a[1..], b);
      assert (a + b)[0] == a[0] && (a + b)[1..] == a[1..] + b;
      var (s1, r1) := Play(after, next, a[1..]);
      var r2 := Play(after, s1, b).1;
      assert one + (r1 + r2) == one + r1 + r2;
    }
  }

  function AfterIn(w: World): (State, Step) -> (State, Option<Reply>) {
    (s, step) => After(w, s, step)
  }

  lemma {:induction false} AfterAllIsPlay(w: World, s: State, steps: seq<Step>)
    ensures AfterAll(w, s, steps) == Play(AfterIn(w), s, steps)
    decreases |steps|
  {
    if steps != [] {
      AfterAllIsPlay(w, AfterIn(w)(s, steps[0]).0, steps[1..]);
    }
  }

  lemma AfterConcat(w: World, s: State, a: seq<Step>, b: seq<Step>)
    ensures var (s1, r1) := AfterAll(w, s, a); var (s2, r2) := AfterAll(w, s1, b);
            AfterAll(w, s, a + b) == (s2, r1 + r2)
  {
    AfterAllIsPlay(w, s, a);
    AfterAllIsPlay(w, AfterAll(w, s, a).0, b);
    AfterAllIsPlay(w, s, a + b);
    PlayConcat(AfterIn(w), s, a, b);
  }

  predicate StepBy(step: Step, t: Thread) {
    !step.Crash? && step.thread == t
  }

  /** The steps of one thread leave other processes' memories and other threads' places alone. */
  lemma {:induction false} OthersUntouched(w: World, s: State, t: Thread, steps: seq<Step>, u: Thread)
    requires (forall k :: 0 <= k < |steps| ==> StepBy(steps[k], t)) && u.process != t.process
    ensures var s' := AfterAll(w, s, steps).0; MemoryOf(s', u.process) == MemoryOf(s, u.process) && PcOf(s', u) == PcOf(s, u)
    decreases |steps|
  {
    if steps != [] {
      assert StepBy(steps[0], t);
      OneStepLeavesOthers(w, s, t, steps[0], u);
      assert forall k :: 0 <= k < |steps[1..]| ==> steps[1..][k] == steps[k + 1];
      OthersUntouched(w, After(w, s, steps[0]).0, t, steps[1..], u);
    }
  }

  lemma OneStepLeavesOthers(w: World, s: State, t: Thread, step: Step, u: Thread)
    requires StepBy(step, t) && u.process != t.process
    ensures var s' := After(w, s, step).0; MemoryOf(s', u.process) == MemoryOf(s, u.process) && PcOf(s', u) == PcOf(s, u)
  {
  }

  ghost predicate NewTo(s: State, n: nat) {
    PcOf(s, Thread(n, 0)).Idle? && MemoryOf(s, n) == Memory(map[], map[])
  }

  lemma OthersStayNew(w: World, s: State, t: Thread, steps: seq<Step>, s': State)
    requires (forall k :: 0 <= k < |steps| ==> StepBy(steps[k], t)) && AfterAll(w, s, steps).0 == s'
    ensures forall m: nat :: m != t.process && NewTo(s, m) ==> NewTo(s', m)
  {
    forall m: nat | m != t.process && NewTo(s, m)
      ensures NewTo(s', m)
    {
      OthersUntouched(w, s, t, steps, Thread(m, 0));
    }
  }

  /** What a process new to the tables answers, and the local table it leaves. */
  ghost predicate Answered(w: World, s: State, q: Query, fails: bool, s': State, reply: Reply) {
    var local := if fails && !w.reliable then None else Find(s.local, q);
    var found := if local.Some? then local else Find(w.community, q);
    && reply.query == q
    && reply.answer == (if found.Some? then Some(AnswerFrom(q, found.value)) else None)
    && s'.local == (if local.None? && found.Some? then Upsert(s.local, found.value.fdid, found.value.path) else s.local)
  }

  /** A sequential call on empty memory, in terms of the two tables. */
  lemma DoneFromNothing(q: Query, local: Option<Table>, community: Table)
    ensures var own := if local.None? then None else Find(local.value, q);
            var found := if own.Some? then own else Find(community, q);
            var (answer, _, write) := Done(Memory(map[], map[]), Call(q, local, Some(community)));
            && answer == (if found.Some? then Some(AnswerFrom(q, found.value)) else None)
            && write == (if own.None? then found else None)
  {
  }

  lemma CallAnswers(w: World, s: State, t: Thread, q: Query, fails: bool, s': State, replies: seq<Reply>)
    requires Ends(s, t, q, true, (s', replies),
               Done(Memory(map[], map[]), Call(q, if fails && !w.reliable then None else Some(s.local), Some(w.community))))
    ensures |replies| == 1 && Answered(w, s, q, fails, s', replies[0])
  {
    DoneFromNothing(q, if fails && !w.reliable then None else Some(s.local), w.community);
  }

  /** Process n asks once; its answer and what is stored follow from the tables it reads. */
  lemma FirstCall(w: World, s: State, n: nat, q: Query, fails: bool) returns (steps: seq<Step>, s': State, reply: Reply)
    requires NewTo(s, n)
    ensures AfterAll(w, s, steps) == (s', [reply]) && Answered(w, s, q, fails, s', reply)
    ensures forall m: nat :: m != n && NewTo(s, m) ==> NewTo(s', m)
  {
    var t, replies := Thread(n, 0), [];
    steps := OneLookup(t, q, fails, false, true);
    s', replies := AfterAll(w, s, steps).0, AfterAll(w, s, steps).1;
    UninterruptedLookupIsACall(w, s, t, q, fails, false, true);
    CallAnswers(w, s, t, q, fails, s', replies);
    reply := replies[0];
    assert replies == [reply];
    OthersStayNew(w, s, t, steps, s');
  }

  lemma ThreeConcat(w: World, s: State, a: seq<Step>, sa: State, ra: Reply, b: seq<Step>, sb: State, rb: Reply,
                    c: seq<Step>, sc: State, rc: Reply)
    requires AfterAll(w, s, a) == (sa, [ra]) && AfterAll(w, sa, b) == (sb, [rb]) && AfterAll(w, sb, c) == (sc, [rc])
    ensures AfterAll(w, s, a + b + c) == (sc, [ra, rb, rc])
  {
    AfterConcat(w, s, a, b);
    AfterConcat(w, s, a + b, c);
    assert [ra] + [rb] + [rc] == [ra, rb, rc];
  }

  /** One process asks q, a second stores the community row of p, a third asks q again. */
  lemma ThreeCalls(w: World, q: Query, p: Query, fails: bool, row: Row, later: Row)
    returns (steps: seq<Step>, first: Reply, second: Reply, third: Reply)
    requires Find(w.original, q).Some? && Find(w.community, p) == Some(row)
    requires Find(w.original, p).None? || (fails && !w.reliable)
    requires Find(Upsert(w.original, row.fdid, row.path), q) == Some(later)
    ensures Replies(w, steps) == [first, second, third]
    ensures first.query == q && first.answer == AnswerIn(w.original, q)
    ensures third.query == q && third.answer == Some(AnswerFrom(q, later))
  {
    var a, sa := [], Fresh(w);
    a, sa, first := FirstCall(w, Fresh(w), 0, q, false);
    var b, sb;
    b, sb, second := FirstCall(w, sa, 1, p, fails);
    var c, sc;
    c, sc, third := FirstCall(w, sb, 2, q, false);
    ThreeConcat(w, Fresh(w), a, sa, first, b, sb, second, c, sc, third);
    steps := a + b + c;
  }

  /** The community stores another path for a local id. */
  lemma PathsDiffer(w: World, f: nat, p: Query, fails: bool) returns (steps: seq<Step>, first: Reply, second: Reply, third: Reply)
    requires f in w.original && f in w.community && w.original[f] != w.community[f]
    requires Find(w.community, p) == Some(Row(f, w.community[f]))
    requires Find(w.original, p).None? || (fails && !w.reliable)
    ensures Replies(w, steps) == [first, second, third] && !Agree(first, third)
  {
    var row := Row(f, w.community[f]);
    steps, first, second, third := ThreeCalls(w, ById(f), p, fails, row, row);
  }

  /** The community stores another id for a local path. */
  lemma IdsDiffer(w: World, f: nat, g: nat, fails: bool) returns (steps: seq<Step>, first: Reply, second: Reply, third: Reply)
    requires f in w.community && g in w.original && g != f && Lower(w.original[g]) == Lower(w.community[f])
    requires f !in w.original || (fails && !w.reliable)
    ensures Replies(w, steps) == [first, second, third] && !Agree(first, third)
  {
    var row := Row(f, w.community[f]);
    QueriesAreInverse(w.original, g, row.path);
    QueriesAreInverse(Upsert(w.original, f, row.path), f, row.path);
    steps, first, second, third := ThreeCalls(w, ByPath(row.path), ById(f), fails, row, row);
  }

  lemma IncoherentAnswersDiffer(w: World) returns (steps: seq<Step>, first: Reply, second: Reply, third: Reply)
    requires !Coherent(w)
    ensures Replies(w, steps) == [first, second, third] && !Agree(first, third)
  {
    if w.reliable {
      var f: nat :| f in w.community && !(f in w.original <==> HasPath(w.original, w.community[f]));
      if f in w.original {
        QueriesAreInverse(w.community, f, w.community[f]);
        steps, first, second, third := PathsDiffer(w, f, ByPath(w.community[f]), false);
      } else {
        var g :| g in w.original && Lower(w.original[g]) == Lower(w.community[f]);
        steps, first, second, third := IdsDiffer(w, f, g, false);
      }
    } else {
      var f: nat :| f in w.community &&
        !((f in w.original ==> w.original[f] == w.community[f]) &&
          (forall g :: g in w.original && Lower(w.original[g]) == Lower(w.community[f]) ==> g == f));
      if f in w.original && w.original[f] != w.community[f] {
        steps, first, second, third := PathsDiffer(w, f, ById(f), true);
      } else {
        var g :| g in w.original && Lower(w.original[g]) == Lower(w.community[f]) && g != f;
        steps, first, second, third := IdsDiffer(w, f, g, true);
      }
    }
  }

  /**
   * Over any interleaving of threads, processes and failures, all answers for one id or path are
   * the same exactly when the local and the community table are coherent.
   */
  lemma AnswersAgreeExactlyWhen(w: World)
    ensures AnswersAgree(w) <==> Coherent(w)
  {
    if Coherent(w) {
      forall steps: seq<Step>, i, j | 0 <= i < j < |Replies(w, steps)|
        ensures Agree(Replies(w, steps)[i], Replies(w, steps)[j])
      {
        OriginalIsTrue(w);
        RepliesAreOk(w, Fresh(w), steps);
        OkRepliesAgree(w, Replies(w, steps)[i], Replies(w, steps)[j]);
      }
    } else {
      var steps, first, second, third := IncoherentAnswersDiffer(w);
      assert Replies(w, steps)[0] == first && Replies(w, steps)[2] == third;
    }
  }

  // ----- two threads of one process

  lemma MovedPc(s: State, t: Thread, pc: Pc, u: Thread)
    ensures PcOf(Move(s, t, pc), u) == if u == t then pc else PcOf(s, u)
    ensures MemoryOf(Move(s, t, pc), 0) == MemoryOf(s, 0) && Move(s, t, pc).local == s.local
  {
  }

  /** Thread a has read the local row of the path, thread b has cached the community's. */
  ghost predicate Crossed(s: State, a: Thread, b: Thread, path: string, f: nat, g: nat, local: Row) {
    && PcOf(s, a) == FoundLocally(ByPath(path), local) && local.fdid == g
    && MemoryOf(s, 0) == Memory(map[f := path], map[Lower(path) := f])
  }

  lemma ReachCrossed(w: World, f: nat, g: nat, a: Thread, b: Thread) returns (steps: seq<Step>, s: State)
    requires f in w.community && f !in w.original && g in w.original && Lower(w.original[g]) == Lower(w.community[f])
    requires a == Thread(0, 0) && b == Thread(0, 1)
    ensures AfterAll(w, Fresh(w), steps) == (s, [])
    ensures Crossed(s, a, b, w.community[f], f, g, Row(g, w.original[g]))
    ensures forall k :: 0 <= k < |steps| ==> !steps[k].Crash? && steps[k].thread.process == 0
  {
    var path, q := w.community[f], ByPath(w.community[f]);
    QueriesAreInverse(w.original, g, path);
    var s0 := Fresh(w);
    var s1 := Move(s0, a, AtLocal(q));
    var s2 := Move(s1, a, FoundLocally(q, Row(g, w.original[g])));
    var s3 := Move(s2, b, AtLocal(ById(f)));
    var s4 := Move(s3, b, AtCommunity(ById(f), false));
    var s5 := Move(s4, b, FoundInCommunity(ById(f), Row(f, path)));
    s := Move(Keep(s5, b, Row(f, path)), b, Persisting(ById(f), Row(f, path)));
    MovedPc(s0, a, AtLocal(q), a);
    MovedPc(s1, a, FoundLocally(q, Row(g, w.original[g])), a);
    MovedPc(s1, a, FoundLocally(q, Row(g, w.original[g])), b);
    MovedPc(s0, a, AtLocal(q), b);
    MovedPc(s2, b, AtLocal(ById(f)), b);
    MovedPc(s3, b, AtCommunity(ById(f), false), b);
    MovedPc(s4, b, FoundInCommunity(ById(f), Row(f, path)), b);
    assert After(w, s0, Start(a, q)) == (s1, None);
    assert After(w, s1, ReadLocal(a, false)) == (s2, None);
    assert After(w, s2, Start(b, ById(f))) == (s3, None);
    assert After(w, s3, ReadLocal(b, false)) == (s4, None);
    assert After(w, s4, ReadCommunity(b, false)) == (s5, None);
    assert After(w, s5, CacheCommunity(b)) == (s, None);
    steps := SilentSteps(w, s0, Start(a, q), s1, ReadLocal(a, false), s2, Start(b, ById(f)), s3,
                         ReadLocal(b, false), s4, ReadCommunity(b, false), s5, CacheCommunity(b), s);
  }

  lemma Silent(w: World, s: State, step: Step, next: State, rest: seq<Step>, last: State)
    requires After(w, s, step) == (next, None) && AfterAll(w, next, rest) == (last, [])
    ensures AfterAll(w, s, [step] + rest) == (last, [])
  {
    FirstStep(w, s, step, rest);
    assert Listed(None) + [] == [];
  }

  lemma SilentSteps(w: World, s0: State, p1: Step, s1: State, p2: Step, s2: State, p3: Step, s3: State,
                    p4: Step, s4: State, p5: Step, s5: State, p6: Step, s6: State) returns (steps: seq<Step>)
    requires After(w, s0, p1) == (s1, None) && After(w, s1, p2) == (s2, None) && After(w, s2, p3) == (s3, None)
    requires After(w, s3, p4) == (s4, None) && After(w, s4, p5) == (s5, None) && After(w, s5, p6) == (s6, None)
    ensures steps == [p1, p2, p3, p4, p5, p6] && AfterAll(w, s0, steps) == (s6, [])
  {
    Silent(w, s5, p6, s6, [], s6);
    Silent(w, s4, p5, s5, [p6], s6);
    Silent(w, s3, p4, s4, [p5, p6], s6);
    Silent(w, s2, p3, s3, [p4, p5, p6], s6);
    Silent(w, s1, p2, s2, [p3, p4, p5, p6], s6);
    Silent(w, s0, p1, s1, [p2, p3, p4, p5, p6], s6);
    steps := [p1, p2, p3, p4, p5, p6];
  }

  /**
   * Where the community gives a local path to an id the local table lacks, even one process answers
   * twice: one thread reads the local row, another caches the community's before it, and the first
   * answers the local id for a path that memory, and so its own next call, gives to the other.
   */
  lemma TwoThreadsAlternate(w: World, f: nat, g: nat) returns (steps: seq<Step>)
    requires f in w.community && f !in w.original && g in w.original && Lower(w.original[g]) == Lower(w.community[f])
    ensures forall k :: 0 <= k < |steps| ==> !steps[k].Crash? && steps[k].thread.process == 0
    ensures var replies := Replies(w, steps);
            && |replies| == 2 && replies[0].query == replies[1].query == ByPath(w.community[f])
            && replies[0].answer == Some(IdAnswer(g)) && replies[1].answer == Some(IdAnswer(f)) && f != g
  {
    var a, b, q := Thread(0, 0), Thread(0, 1), ByPath(w.community[f]);
    var before, s := ReachCrossed(w, f, g, a, b);
    var kept := Keep(s, a, Row(g, w.original[g]));
    var s' := Move(kept, a, Idle);
    var first := Reply(q, Some(IdAnswer(g)), false, false);
    var second := Reply(q, Some(IdAnswer(f)), false, false);
    assert After(w, s, CacheLocal(a)) == (s', Some(first));
    assert After(w, s', Start(a, q)) == (s', Some(second)) by {
      MovedPc(kept, a, Idle, a);
      assert MemoryOf(kept, 0).byPath == map[Lower(w.community[f]) := f];
    }
    FirstStep(w, s', Start(a, q), []);
    FirstStep(w, s, CacheLocal(a), [Start(a, q)]);
    assert [Start(a, q)] + [] == [Start(a, q)] && [CacheLocal(a)] + [Start(a, q)] == [CacheLocal(a), Start(a, q)];
    AfterConcat(w, Fresh(w), before, [CacheLocal(a), Start(a, q)]);
    steps := before + [CacheLocal(a), Start(a, q)];
  }
}
