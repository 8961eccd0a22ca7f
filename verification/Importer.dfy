/** The whole import: a base lookup, any number of hotfix caches, and one key store. */
module Importer {
  import opened Wrappers
  import opened LittleEndian
  import opened HexText
  import opened HotfixRecords
  import opened PushOrder
  import opened Harvest
  import opened HarvestTheorems
  import opened HarvestFile
  import opened LookupDb2
  import opened KeyStoreText
  import opened KeyStore

  // ---------- What the caches prescribe ----------

  function EventsOf(data: Bytes): seq<Record>
    requires DecodeCache(data).Ok?
  {
    StableSort(Kept(DecodeCache(data).value))
  }

  lemma {:induction false} KeptAreTwoTables(raws: seq<Raw>)
    ensures TwoTables(Kept(raws))
  {
    if raws != [] {
      KeptAreTwoTables(raws[1..]);
    }
  }

  lemma EventsAreTwoTables(data: Bytes)
    requires DecodeCache(data).Ok?
    ensures TwoTables(EventsOf(data))
  {
    KeptAreTwoTables(DecodeCache(data).value);
    SortSorts(Kept(DecodeCache(data).value));
  }

  /** The matched map of one cache, empty for an absent file; None when it does not harvest. */
  ghost function OutcomeOf(cache: Option<Bytes>, base: map<nat, string>): Option<map<string, string>> {
    if cache.None? then Some(map[])
    else if DecodeCache(cache.value).Err? then None
    else
      var harvested := Harvested(EventsOf(cache.value), base);
      if harvested.None? then None else Some(harvested.value.0)
  }

  ghost function Outcomes(caches: seq<Option<Bytes>>, base: map<nat, string>): (outcomes: seq<Option<map<string, string>>>)
    ensures |outcomes| == |caches|
    ensures forall k :: 0 <= k < |caches| ==> outcomes[k] == OutcomeOf(caches[k], base)
  {
    seq(|caches|, k requires 0 <= k < |caches| => OutcomeOf(caches[k], base))
  }

  predicate Has(m: map<string, string>, name: string, key: string) {
    name in m && m[name] == key
  }

  ghost predicate Contributed(outcomes: seq<Option<map<string, string>>>, name: string, key: string) {
    exists k :: 0 <= k < |outcomes| && outcomes[k].Some? && Has(outcomes[k].value, name, key)
  }

  /** Every cache harvests, and additions holds exactly the pairs they contribute; so no two of them disagree. */
  ghost predicate Gathered(outcomes: seq<Option<map<string, string>>>, additions: map<string, string>) {
    && (forall k :: 0 <= k < |outcomes| ==> outcomes[k].Some?)
    && (forall name, key :: Has(additions, name, key) <==> Contributed(outcomes, name, key))
  }

  /** Cache after cache, up to the first that fails or contradicts an earlier one. */
  ghost function Gather(outcomes: seq<Option<map<string, string>>>): Option<map<string, string>> {
    if outcomes == [] then Some(map[])
    else
      var before, last := Gather(outcomes[..|outcomes| - 1]), outcomes[|outcomes| - 1];
      if before.None? || last.None? || Conflict(before.value, last.value) then None else Some(before.value + last.value)
  }

  lemma ContributedGrows(outcomes: seq<Option<map<string, string>>>, last: Option<map<string, string>>, name: string, key: string)
    ensures Contributed(outcomes + [last], name, key) <==>
            Contributed(outcomes, name, key) || (last.Some? && Has(last.value, name, key))
  {
    var all, n := outcomes + [last], |outcomes|;
    assert all[n] == last && forall k :: 0 <= k < n ==> all[k] == outcomes[k];
  }

  lemma UnionHas(a: map<string, string>, b: map<string, string>, name: string, key: string)
    requires !Conflicts(a, b, name)
    ensures Has(a + b, name, key) <==> Has(a, name, key) || Has(b, name, key)
  {
  }

  lemma GatheredGrows(outcomes: seq<Option<map<string, string>>>, additions: map<string, string>, last: map<string, string>)
    requires Gathered(outcomes, additions) && !Conflict(additions, last)
    ensures Gathered(outcomes + [Some(last)], additions + last)
  {
    var all := outcomes + [Some(last)];
    forall name, key
      ensures Has(additions + last, name, key) <==> Contributed(all, name, key)
    {
      ContributedGrows(outcomes, Some(last), name, key);
      assert !Conflicts(additions, last, name);
      UnionHas(additions, last, name, key);
    }
  }

  /** What gathers a list gathers, cut down, its front; and the last map contradicts none of it. */
  lemma FrontGathers(outcomes: seq<Option<map<string, string>>>, last: Option<map<string, string>>,
                     all: map<string, string>) returns (some: map<string, string>)
    requires Gathered(outcomes + [last], all)
    ensures Gathered(outcomes, some) && last.Some?
    ensures forall front :: Gathered(outcomes, front) ==> !Conflict(front, last.value)
  {
    var longer, n := outcomes + [last], |outcomes|;
    assert longer[n] == last && forall k :: 0 <= k < n ==> longer[k] == outcomes[k];
    some := map name | name in all && Contributed(outcomes, name, all[name]) :: all[name];
    forall name, key
      ensures Has(some, name, key) <==> Contributed(outcomes, name, key)
    {
      ContributedGrows(outcomes, last, name, key);
    }
    forall front, name | Gathered(outcomes, front)
      ensures !Conflicts(front, last.value, name)
    {
      if name in front && name in last.value {
        assert Has(front, name, front[name]) && Has(last.value, name, last.value[name]);
        ContributedGrows(outcomes, last, name, front[name]);
        ContributedGrows(outcomes, last, name, last.value[name]);
        assert Has(all, name, front[name]) && Has(all, name, last.value[name]);
      }
    }
  }

  /** The loop over the caches yields the one map of their contributions, and fails exactly when there is none. */
  lemma {:induction false} GatherIsTheUnion(outcomes: seq<Option<map<string, string>>>)
    ensures Gather(outcomes).Some? ==> Gathered(outcomes, Gather(outcomes).value)
    ensures (exists additions :: Gathered(outcomes, additions)) ==> Gather(outcomes).Some?
  {
    if outcomes == [] {
      assert forall name, key :: !Contributed(outcomes, name, key);
    } else {
      var front, last := outcomes[..|outcomes| - 1], outcomes[|outcomes| - 1];
      assert outcomes == front + [last];
      GatherIsTheUnion(front);
      if Gather(outcomes).Some? {
        GatheredGrows(front, Gather(front).value, last.value);
      }
      if additions :| Gathered(outcomes, additions) {
        var _ := FrontGathers(front, last, additions);
      }
    }
  }

  lemma {:induction false} FailureStays(outcomes: seq<Option<map<string, string>>>, n: nat)
    requires n <= |outcomes| && Gather(outcomes[..n]).None?
    ensures Gather(outcomes).None?
    decreases |outcomes| - n
  {
    if n < |outcomes| {
      assert outcomes[..n + 1][..n] == outcomes[..n];
      FailureStays(outcomes, n + 1);
    } else {
      assert outcomes[..n] == outcomes;
    }
  }

  // ---------- The loops of main ----------

  method AddKeys(additions: map<string, string>, keys: map<string, string>) returns (r: Result<map<string, string>, Error>)
    ensures Conflict(additions, keys) ==> r.Err? && r.error.ConflictingKey? && Conflicts(additions, keys, r.error.name)
    ensures !Conflict(additions, keys) ==> r == Ok(additions + keys)
  {
    var all, todo := additions, keys.Keys;
    while todo != {}
      invariant todo <= keys.Keys
      invariant all == additions + (keys - todo)
      invariant forall name <- keys.Keys - todo :: !Conflicts(additions, keys, name)
      decreases todo
    {
      var name :| name in todo;
      if name in all && all[name] != keys[name] {
        assert Conflicts(additions, keys, name);
        return Err(ConflictingKey(name));
      }
      all := all[name := keys[name]];
      todo := todo - {name};
    }
    assert keys - {} == keys && keys.Keys - {} == keys.Keys;
    return Ok(all);
  }

  lemma GatherStep(outcomes: seq<Option<map<string, string>>>, k: nat)
    requires k < |outcomes| && Gather(outcomes[..k]).Some?
    ensures Gather(outcomes[..k + 1]) ==
            if outcomes[k].None? || Conflict(Gather(outcomes[..k]).value, outcomes[k].value) then None
            else Some(Gather(outcomes[..k]).value + outcomes[k].value)
  {
    assert outcomes[..k + 1][..k] == outcomes[..k];
  }

  method HarvestOne(cache: Option<Bytes>, base: map<nat, string>, ghost outcome: Option<map<string, string>>)
    returns (r: Result<map<string, string>, Error>)
    requires outcome == OutcomeOf(cache, base)
    ensures outcome == if r.Ok? then Some(r.value) else None
  {
    if cache.None? { return Ok(map[]); }
    var harvested := HarvestCache(cache.value, base);
    if harvested.Err? { return Err(harvested.error); }
    return Ok(harvested.value.0);
  }

  method GatherKeys(caches: seq<Option<Bytes>>, base: map<nat, string>, ghost outcomes: seq<Option<map<string, string>>>)
    returns (r: Result<map<string, string>, Error>)
    requires |outcomes| == |caches| && forall k :: 0 <= k < |caches| ==> outcomes[k] == OutcomeOf(caches[k], base)
    ensures Gather(outcomes) == if r.Ok? then Some(r.value) else None
  {
    var additions := map[];
    for k := 0 to |caches|
      invariant Gather(outcomes[..k]) == Some(additions)
    {
      GatherStep(outcomes, k);
      var keys := HarvestOne(caches[k], base, outcomes[k]);
      if keys.Err? {
        FailureStays(outcomes, k + 1);
        return Err(keys.error);
      }
      var merged := AddKeys(additions, keys.value);
      if merged.Err? {
        FailureStays(outcomes, k + 1);
        return Err(merged.error);
      }
      additions := merged.value;
    }
    assert outcomes[..|caches|] == outcomes;
    return Ok(additions);
  }

  /** Nothing stands in the way of the whole import. */
  ghost predicate Importable(lookup: Option<Bytes>, caches: seq<Option<Bytes>>, file: Option<string>, disk: Disk) {
    && BaseOf(lookup).Ok?
    && var additions := Gather(Outcomes(caches, BaseOf(lookup).value));
       && additions.Some?
       && ParseStore(TextOf(file)).Ok? && !Conflict(ParseStore(TextOf(file)).value, additions.value)
       && disk.readable && (disk.writable || !NeedsWrite(file, additions.value))
  }

  lemma {:induction false} GatheredIsShaped(lookup: Option<Bytes>, caches: seq<Option<Bytes>>, additions: map<string, string>)
    requires BaseOf(lookup).Ok? && Gathered(Outcomes(caches, BaseOf(lookup).value), additions)
    ensures StoreShaped(additions)
  {
    var outcomes := Outcomes(caches, BaseOf(lookup).value);
    forall name | name in additions
      ensures UpperHex(name, 16) && UpperHex(additions[name], 32)
    {
      assert Has(additions, name, additions[name]);
      assert Contributed(outcomes, name, additions[name]);
      var k :| 0 <= k < |outcomes| && outcomes[k].Some? && Has(outcomes[k].value, name, additions[name]);
      EventsAreTwoTables(caches[k].value);
      HarvestHasStoreShape(EventsOf(caches[k].value), lookup);
    }
  }

  /**
    The whole import succeeds exactly when nothing stands in its way; then the store parses to what
    it was united with the pairs the caches contribute, and otherwise it is as it was.
   */
  method Import(lookup: Option<Bytes>, caches: seq<Option<Bytes>>, store: Store, disk: Disk)
    returns (r: Result<seq<string>, Error>)
    modifies store
    ensures r.Ok? <==> Importable(lookup, caches, old(store.file), disk)
    ensures r.Err? ==> store.file == old(store.file)
    ensures r.Ok? ==>
              var additions := Gather(Outcomes(caches, BaseOf(lookup).value)).value;
              && Gathered(Outcomes(caches, BaseOf(lookup).value), additions)
              && ParseStore(TextOf(store.file)) == Ok(ParseStore(TextOf(old(store.file))).value + additions)
              && SortedListing(r.value, additions.Keys - ParseStore(TextOf(old(store.file))).value.Keys)
  {
    var base := Ok(map[]);
    if lookup.Some? {
      base := ReadLookupFile(lookup.value);
    }
    if base.Err? { return Err(base.error); }
    var additions := GatherKeys(caches, base.value, Outcomes(caches, base.value));
    if additions.Err? { return Err(additions.error); }
    GatherIsTheUnion(Outcomes(caches, base.value));
    GatheredIsShaped(lookup, caches, additions.value);
    ghost var before := store.file;
    r := store.MergeStore(additions.value, disk);
    if disk.readable && (disk.writable || !NeedsWrite(before, additions.value)) {
      FailedMergeWritesNothing(before, additions.value, r, store.file);
      if r.Ok? {
        MergeIsUnion(before, additions.value, r, store.file);
      }
    }
  }

  /** A pair is contributed exactly when it is that of the row some cache file puts last under the name. */
  lemma ContributionsAreLastKeys(caches: seq<Option<Bytes>>, base: map<nat, string>, name: string, key: string)
    requires forall k :: 0 <= k < |caches| ==> OutcomeOf(caches[k], base).Some?
    ensures Contributed(Outcomes(caches, base), name, key) <==>
            exists k :: 0 <= k < |caches| && caches[k].Some? && Matches(DecodeCache(caches[k].value).value, base, name, key)
  {
    var outcomes := Outcomes(caches, base);
    forall k | 0 <= k < |caches| && caches[k].Some?
      ensures Has(outcomes[k].value, name, key) <==> Matches(DecodeCache(caches[k].value).value, base, name, key)
    {
      HarvestOfFile(DecodeCache(caches[k].value).value, base, 0, name, key);
    }
  }

  /** A cache stands in the way exactly when its file does not parse or an applying record has the wrong size. */
  lemma HarvestsExactlyWhen(cache: Option<Bytes>, base: map<nat, string>)
    ensures OutcomeOf(cache, base).Some? <==>
            (cache.Some? ==> DecodeCache(cache.value).Ok? && RightSizes(DecodeCache(cache.value).value))
  {
    if cache.Some? && DecodeCache(cache.value).Ok? {
      HarvestsRightSizes(DecodeCache(cache.value).value, base);
    }
  }
}
