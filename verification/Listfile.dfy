/** Lookups through memory, the local store and the community cache. */
module Listfile {
  import opened Wrappers
  import opened ListfileTable
  import opened ListfileCache

  /** CachedListfile */
  datatype Memory = Memory(byFdid: map<nat, string>, byPath: map<string, nat>)

  /** What a lookup answers, leaves in memory, and hands to the local store to persist. */
  datatype Outcome<A> = Outcome(answer: Option<A>, memory: Memory, write: Option<Row>)

  // ----- one call as a function of what it reads; a read of None failed

  predicate AlreadyCached(m: Memory, fdid: nat, path: string) {
    fdid in m.byFdid && Lower(path) in m.byPath
  }

  /** entry().or_insert() on both maps: what is there stays. */
  function Cached(m: Memory, fdid: nat, path: string): Memory {
    Memory(if fdid in m.byFdid then m.byFdid else m.byFdid[fdid := path],
           if Lower(path) in m.byPath then m.byPath else m.byPath[Lower(path) := fdid])
  }

  function Write(m: Memory, fdid: nat, path: string): Option<Row> {
    if AlreadyCached(m, fdid, path) then None else Some(Row(fdid, path))
  }

  function FdidOutcome(m: Memory, local: Option<Table>, community: Option<Table>, fdid: nat): Outcome<string> {
    if fdid in m.byFdid then
      Outcome(Some(m.byFdid[fdid]), m, None)
    else if local.Some? && fdid in local.value then
      var m' := Cached(m, fdid, local.value[fdid]);
      Outcome(Some(m'.byFdid[fdid]), m', None)
    else if community.Some? && fdid in community.value then
      var path := community.value[fdid];
      Outcome(Some(path), Cached(m, fdid, path), Write(m, fdid, path))
    else
      Outcome(None, m, None)
  }

  function PathOutcome(m: Memory, local: Option<Table>, community: Option<Table>, path: string): Outcome<nat> {
    if Lower(path) in m.byPath then
      Outcome(Some(m.byPath[Lower(path)]), m, None)
    else
      var row := if local.Some? then QueryPath(local.value, path) else None;
      if row.Some? then
        Outcome(Some(row.value.0), Cached(m, row.value.0, row.value.1), None)
      else
        var found := if community.Some? then QueryPath(community.value, path) else None;
        if found.Some? then
          Outcome(Some(found.value.0), Cached(m, found.value.0, found.value.1), Write(m, found.value.0, found.value.1))
        else
          Outcome(None, m, None)
  }

  function Persisted(local: Option<Table>, write: Option<Row>, works: bool): Option<Table> {
    if write.None? || !works then local
    else Some(Upsert(TableOf(local), write.value.fdid, write.value.path))
  }

  // ----- the object whose lookups these functions specify

  /** The outside world during one call: which system calls fail, and what an open would find. */
  datatype Surroundings = Surroundings(localReadable: bool, visit: Visit, communityReadable: bool, localWritable: bool)

  class Listfile {
    const store: LocalStore
    const community: CommunityDatabase
    var byFdid: map<nat, string>
    var byPath: map<string, nat>
    var communityOpen: bool
    var communityErrorLogged: bool
    var localErrorLogged: bool

    constructor (store: LocalStore, community: CommunityDatabase)
      ensures this.store == store && this.community == community
      ensures MemoryOf() == Memory(map[], map[]) && !communityOpen && !communityErrorLogged && !localErrorLogged
    {
      this.store, this.community := store, community;
      byFdid, byPath := map[], map[];
      communityOpen, communityErrorLogged, localErrorLogged := false, false, false;
    }

    function MemoryOf(): Memory
      reads this
    {
      Memory(byFdid, byPath)
    }

    function LocalView(around: Surroundings): Option<Table>
      reads this, store
    {
      if around.localReadable then Some(TableOf(store.rows)) else None
    }

    /** The community database and whether it is open, once a call has asked for it. */
    function Reached(around: Surroundings): (Database, bool)
      reads this, community
    {
      if communityOpen then (community.committed, true)
      else
        var (ensured, db) := Ensured(community.committed, around.visit);
        (db, ensured.Ok? && around.visit.reopens)
    }

    /** What asking for the community table gives; opening may first rebuild it. */
    function CommunityRead(around: Surroundings): Result<Table, Failure>
      reads this, community
    {
      var (db, open) := Reached(around);
      if !open then
        var (ensured, _) := Ensured(community.committed, around.visit);
        Err(if ensured.Err? then ensured.error else Other)
      else if !around.communityReadable || db.entries.None? then Err(Other)
      else Ok(db.entries.value)
    }

    function CommunityView(around: Surroundings): Option<Table>
      reads this, community
    {
      if CommunityRead(around).Ok? then Some(CommunityRead(around).value) else None
    }

    /** The database, whether it is open, and whether a community error has been logged. */
    function CommunityState(): (Database, bool, bool)
      reads this, community
    {
      (community.committed, communityOpen, communityErrorLogged)
    }

    /** The same after asking for the table; only a missing source fails silently. */
    function CommunityStateAsked(around: Surroundings): (Database, bool, bool)
      reads this, community
    {
      var (db, open) := Reached(around);
      (db, open, communityErrorLogged || CommunityRead(around) == Err(Other))
    }

    method CacheInMemory(fdid: nat, path: string) returns (cachedPath: string, alreadyCached: bool)
      modifies this`byFdid, this`byPath
      ensures MemoryOf() == Cached(old(MemoryOf()), fdid, path)
      ensures alreadyCached == AlreadyCached(old(MemoryOf()), fdid, path)
      ensures fdid in byFdid && cachedPath == byFdid[fdid]
    {
      var normalized := Lower(path);
      alreadyCached := fdid in byFdid && normalized in byPath;
      if fdid !in byFdid {
        byFdid := byFdid[fdid := path];
      }
      cachedPath := byFdid[fdid];
      if normalized !in byPath {
        byPath := byPath[normalized := fdid];
      }
    }

    method LogLocalErrorOnce()
      modifies this`localErrorLogged
      ensures localErrorLogged
    {
      if localErrorLogged {
        return;
      }
      localErrorLogged := true;
    }

    /** A missing source is not worth a message. */
    method LogCommunityErrorOnce(error: Failure)
      modifies this`communityErrorLogged
      ensures communityErrorLogged == (old(communityErrorLogged) || error != MissingSource)
    {
      if error == MissingSource || communityErrorLogged {
        return;
      }
      communityErrorLogged := true;
    }

    method Remember(fdid: nat, path: string, around: Surroundings)
      modifies this`byFdid, this`byPath, store
      ensures MemoryOf() == Cached(old(MemoryOf()), fdid, path)
      ensures store.rows == Persisted(old(store.rows), Write(old(MemoryOf()), fdid, path), around.localWritable)
    {
      var _, alreadyCached := CacheInMemory(fdid, path);
      if alreadyCached {
        return;
      }
      var _ := store.Remember(fdid, path, around.localWritable);
    }

    /** The connection is opened at most once, and again after a failure. */
    method WithCommunityCache(around: Surroundings) returns (r: Result<Table, Failure>)
      modifies this`communityOpen, community
      ensures r == old(CommunityRead(around))
      ensures (community.committed, communityOpen) == old(Reached(around))
    {
      if !communityOpen {
        var ensured := community.EnsureCache(around.visit);
        if ensured.Err? {
          return Err(ensured.error);
        }
        if !around.visit.reopens {
          return Err(Other);
        }
        communityOpen := true;
      }
      if !around.communityReadable || community.committed.entries.None? {
        return Err(Other);
      }
      return Ok(community.committed.entries.value);
    }

    method LookupLocalFdid(fdid: nat, around: Surroundings) returns (answer: Option<string>)
      modifies this`byFdid, this`byPath, this`localErrorLogged
      ensures Outcome(answer, MemoryOf(), None) == FdidOutcome(old(MemoryOf()), old(LocalView(around)), None, fdid)
      ensures localErrorLogged == (old(localErrorLogged) || (fdid !in old(byFdid) && !around.localReadable))
    {
      if fdid in byFdid {
        return Some(byFdid[fdid]);
      }
      if !around.localReadable {
        LogLocalErrorOnce();
        return None;
      }
      var path := QueryFdid(TableOf(store.rows), fdid);
      if path.None? {
        return None;
      }
      var cachedPath, _ := CacheInMemory(fdid, path.value);
      return Some(cachedPath);
    }

    method LookupLocalPath(path: string, around: Surroundings) returns (answer: Option<nat>)
      modifies this`byFdid, this`byPath, this`localErrorLogged
      ensures Outcome(answer, MemoryOf(), None) == PathOutcome(old(MemoryOf()), old(LocalView(around)), None, path)
      ensures localErrorLogged == (old(localErrorLogged) || (Lower(path) !in old(byPath) && !around.localReadable))
    {
      var normalized := Lower(path);
      if normalized in byPath {
        return Some(byPath[normalized]);
      }
      if !around.localReadable {
        LogLocalErrorOnce();
        return None;
      }
      var row := QueryPath(TableOf(store.rows), path);
      if row.None? {
        return None;
      }
      var _, _ := CacheInMemory(row.value.0, row.value.1);
      return Some(row.value.0);
    }

    method LookupCommunityFdid(fdid: nat, around: Surroundings) returns (answer: Option<string>)
      modifies this, store, community
      ensures CommunityState() == old(CommunityStateAsked(around)) && localErrorLogged == old(localErrorLogged)
      ensures answer == if old(CommunityView(around)).None? then None else QueryFdid(old(CommunityView(around)).value, fdid)
      ensures answer.None? ==> MemoryOf() == old(MemoryOf()) && store.rows == old(store.rows)
      ensures answer.Some? ==>
                && MemoryOf() == Cached(old(MemoryOf()), fdid, answer.value)
                && store.rows == Persisted(old(store.rows), Write(old(MemoryOf()), fdid, answer.value), around.localWritable)
    {
      var table := WithCommunityCache(around);
      if table.Err? {
        LogCommunityErrorOnce(table.error);
        return None;
      }
      answer := QueryFdid(table.value, fdid);
      if answer.Some? {
        Remember(fdid, answer.value, around);
      }
    }

    method LookupCommunityPath(path: string, around: Surroundings) returns (answer: Option<nat>)
      modifies this, store, community
      ensures CommunityState() == old(CommunityStateAsked(around)) && localErrorLogged == old(localErrorLogged)
      ensures var found := if old(CommunityView(around)).None? then None else QueryPath(old(CommunityView(around)).value, path);
              if found.None? then
                answer.None? && MemoryOf() == old(MemoryOf()) && store.rows == old(store.rows)
              else
                && answer == Some(found.value.0)
                && MemoryOf() == Cached(old(MemoryOf()), found.value.0, found.value.1)
                && store.rows == Persisted(old(store.rows), Write(old(MemoryOf()), found.value.0, found.value.1), around.localWritable)
    {
      var table := WithCommunityCache(around);
      if table.Err? {
        LogCommunityErrorOnce(table.error);
        return None;
      }
      var row := QueryPath(table.value, path);
      if row.None? {
        return None;
      }
      Remember(row.value.0, row.value.1, around);
      return Some(row.value.0);
    }

    method LookupFdid(fdid: nat, around: Surroundings) returns (answer: Option<string>)
      modifies this, store, community
      ensures var spec := FdidOutcome(old(MemoryOf()), old(LocalView(around)), old(CommunityView(around)), fdid);
              && (answer, MemoryOf()) == (spec.answer, spec.memory)
              && store.rows == Persisted(old(store.rows), spec.write, around.localWritable)
      ensures localErrorLogged == (old(localErrorLogged) || (fdid !in old(byFdid) && !around.localReadable))
      ensures CommunityState() == if FdidOutcome(old(MemoryOf()), old(LocalView(around)), None, fdid).answer.Some?
                                  then old(CommunityState()) else old(CommunityStateAsked(around))
    {
      answer := LookupLocalFdid(fdid, around);
      if answer.None? {
        answer := LookupCommunityFdid(fdid, around);
      }
    }

    method LookupPath(path: string, around: Surroundings) returns (answer: Option<nat>)
      modifies this, store, community
      ensures var spec := PathOutcome(old(MemoryOf()), old(LocalView(around)), old(CommunityView(around)), path);
              && (answer, MemoryOf()) == (spec.answer, spec.memory)
              && store.rows == Persisted(old(store.rows), spec.write, around.localWritable)
      ensures localErrorLogged == (old(localErrorLogged) || (Lower(path) !in old(byPath) && !around.localReadable))
      ensures CommunityState() == if PathOutcome(old(MemoryOf()), old(LocalView(around)), None, path).answer.Some?
                                  then old(CommunityState()) else old(CommunityStateAsked(around))
    {
      answer := LookupLocalPath(path, around);
      if answer.None? {
        answer := LookupCommunityPath(path, around);
      }
    }
  }

  /** Once a lookup has the community cache open, no later one opens it again, whatever became of the source. */
  method LookUpTwice(l: Listfile, a: nat, b: nat, first: Surroundings, second: Surroundings)
    returns (wasOpen: bool, between: Database)
    modifies l, l.store, l.community
    ensures wasOpen ==> l.communityOpen && l.community.committed == between
  {
    var _ := l.LookupFdid(a, first);
    wasOpen, between := l.communityOpen, l.community.committed;
    var _ := l.LookupFdid(b, second);
  }
}
