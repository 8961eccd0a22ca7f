/** The records a cache file applies: which of the file's records, and in which order. */
module FileOrder {
  import opened HotfixRecords
  import opened PushOrder

  /** A record of one of the two tables. */
  predicate Mine(r: Raw) {
    r.table == 0xDF2F53CF || r.table == 0xAFC190D1
  }

  /** Record i applies before record j: by push, and in file order inside one push. */
  predicate Before(raws: seq<Raw>, i: int, j: int)
    requires 0 <= i < |raws| && 0 <= j < |raws|
  {
    raws[i].push < raws[j].push || (raws[i].push == raws[j].push && i < j)
  }

  /** e has the push, table, row, status and payload of the record in the file. */
  predicate Copied(r: Raw, e: Record) {
    e.push == r.push && e.table == r.table && e.row == r.row && e.status == r.status && e.payload == r.payload
  }

  /** Event k is record places[k] of the file, and the events are in the order in which they apply. */
  ghost predicate Placed(raws: seq<Raw>, events: seq<Record>, places: seq<nat>) {
    && |places| == |events|
    && (forall k :: 0 <= k < |places| ==> places[k] < |raws| && Mine(raws[places[k]]) && Copied(raws[places[k]], events[k]))
    && (forall j, k :: 0 <= j < k < |places| ==> Before(raws, places[j], places[k]))
  }

  /** The events are exactly the file's records of the two tables. */
  ghost predicate Selected(raws: seq<Raw>, events: seq<Record>, places: seq<nat>) {
    && Placed(raws, events, places)
    && forall i :: 0 <= i < |raws| && Mine(raws[i]) ==> i in places
  }

  lemma PlacedLast(raws: seq<Raw>, events: seq<Record>, places: seq<nat>, n: nat, e: Record)
    requires Placed(raws, events, places) && n < |raws| && Mine(raws[n]) && Copied(raws[n], e)
    requires forall k :: 0 <= k < |places| ==> Before(raws, places[k], n)
    ensures Placed(raws, events + [e], places + [n])
  {
  }

  lemma AllBefore(raws: seq<Raw>, events: seq<Record>, places: seq<nat>, n: nat, e: Record)
    requires Placed(raws, events, places) && (forall k :: 0 <= k < |places| ==> places[k] < n)
    requires n < |raws| && Copied(raws[n], e) && (events == [] || events[|events| - 1].push <= e.push)
    ensures forall k :: 0 <= k < |places| ==> Before(raws, places[k], n)
  {
    forall k | 0 <= k < |places|
      ensures Before(raws, places[k], n)
    {
      assert k < |places| - 1 ==> Before(raws, places[k], places[|places| - 1]);
    }
  }

  lemma StillBefore(raws: seq<Raw>, events: seq<Record>, places: seq<nat>, n: nat, front: seq<nat>)
    requires Placed(raws, events, places) && places != [] && n < |raws|
    requires raws[places[|places| - 1]].push > raws[n].push
    requires forall i :: i in front <==> i in places[..|places| - 1] || i == n
    ensures forall j :: 0 <= j < |front| ==> front[j] < |raws| && Before(raws, front[j], places[|places| - 1])
  {
    var m := |places| - 1;
    forall j | 0 <= j < |front|
      ensures front[j] < |raws| && Before(raws, front[j], places[m])
    {
      assert front[j] in front;
      if front[j] != n {
        var k :| 0 <= k < m && places[..m][k] == front[j];
        assert places[k] == front[j];
      }
    }
  }

  /** Where a record that comes last in the file is inserted among the others. */
  lemma {:induction false} InsertIsPlaced(raws: seq<Raw>, sorted: seq<Record>, places: seq<nat>, n: nat, e: Record)
    returns (places': seq<nat>)
    requires Placed(raws, sorted, places) && (forall k :: 0 <= k < |places| ==> places[k] < n)
    requires n < |raws| && Mine(raws[n]) && Copied(raws[n], e)
    ensures Placed(raws, Insert(sorted, e), places')
    ensures forall i :: i in places' <==> i in places || i == n
  {
    if sorted == [] || sorted[|sorted| - 1].push <= e.push {
      places' := places + [n];
      AllBefore(raws, sorted, places, n, e);
      PlacedLast(raws, sorted, places, n, e);
    } else {
      var m := |sorted| - 1;
      PlacedFront(raws, sorted, places);
      var front := InsertIsPlaced(raws, sorted[..m], places[..m], n, e);
      StillBefore(raws, sorted, places, n, front);
      PlacedLast(raws, Insert(sorted[..m], e), front, places[m], sorted[m]);
      places' := front + [places[m]];
      assert places == places[..m] + [places[m]];
    }
  }

  lemma PlacedFront(raws: seq<Raw>, events: seq<Record>, places: seq<nat>)
    requires Placed(raws, events, places) && events != []
    ensures Placed(raws, events[..|events| - 1], places[..|events| - 1])
  {
  }

  lemma PlacedInLonger(front: seq<Raw>, r: Raw, events: seq<Record>, places: seq<nat>)
    requires Placed(front, events, places)
    ensures Placed(front + [r], events, places)
  {
    forall j, k | 0 <= j < k < |places|
      ensures Before(front + [r], places[j], places[k])
    {
      assert Before(front, places[j], places[k]);
    }
  }

  lemma SelectedWithOther(front: seq<Raw>, r: Raw, events: seq<Record>, places: seq<nat>)
    requires Selected(front, events, places) && !Mine(r)
    ensures Selected(front + [r], events, places)
  {
    PlacedInLonger(front, r, events, places);
    assert forall i :: 0 <= i < |front| ==> (front + [r])[i] == front[i];
  }

  lemma SelectedWithMine(front: seq<Raw>, r: Raw, events: seq<Record>, places: seq<nat>, e: Record) returns (places': seq<nat>)
    requires Selected(front, events, places) && Mine(r) && Copied(r, e)
    ensures Selected(front + [r], Insert(events, e), places')
  {
    PlacedInLonger(front, r, events, places);
    assert forall i :: 0 <= i < |front| ==> (front + [r])[i] == front[i];
    places' := InsertIsPlaced(front + [r], events, places, |front|, e);
  }

  lemma SortOneMore(kept: seq<Record>, more: seq<Record>)
    requires |more| <= 1
    ensures StableSort(kept + more) == if more == [] then StableSort(kept) else Insert(StableSort(kept), more[0])
  {
    if more == [] {
      assert kept + more == kept;
    } else {
      assert (kept + more)[..|kept|] == kept;
    }
  }

  /** Sorting the kept records is taking every record of the two tables in the order in which they apply. */
  lemma {:induction false} SortedKeptIsSelected(raws: seq<Raw>) returns (places: seq<nat>)
    ensures Selected(raws, StableSort(Kept(raws)), places)
  {
    places := [];
    if raws != [] {
      var n := |raws| - 1;
      var front, r := raws[..n], raws[n];
      places := SortedKeptIsSelected(front);
      assert raws == front + [r];
      KeptAppend(front, r);
      SortOneMore(Kept(front), KeptOne(r));
      if Mine(r) {
        places := SelectedWithMine(front, r, StableSort(Kept(front)), places, KeptOne(r)[0]);
      } else {
        SelectedWithOther(front, r, StableSort(Kept(front)), places);
      }
    }
  }

  /** The events are exactly the file's records of the two tables, as they stand in the file. */
  ghost predicate InFileOrder(raws: seq<Raw>, events: seq<Record>, places: seq<nat>) {
    && |places| == |events|
    && (forall k :: 0 <= k < |places| ==> places[k] < |raws| && Mine(raws[places[k]]) && Copied(raws[places[k]], events[k]))
    && (forall j, k :: 0 <= j < k < |places| ==> places[j] < places[k])
    && forall i :: 0 <= i < |raws| && Mine(raws[i]) ==> i in places
  }

  lemma {:induction false} KeptIsInFileOrder(raws: seq<Raw>) returns (places: seq<nat>)
    ensures InFileOrder(raws, Kept(raws), places)
  {
    places := [];
    if raws != [] {
      var n := |raws| - 1;
      places := KeptIsInFileOrder(raws[..n]);
      KeptAppend(raws[..n], raws[n]);
      assert raws == raws[..n] + [raws[n]];
      if Mine(raws[n]) {
        places := places + [n];
      }
    }
  }
}
