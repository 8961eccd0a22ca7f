/** The order of the key dict, in terms of the events: rows stand as they were last inserted. */
module HarvestOrder {
  import opened HotfixRecords
  import opened Harvest

  predicate IsKeyOf(e: Record, row: nat) {
    e.table == TACT_KEY && e.row == row
  }

  /**
   * Event i put row where it stands: a valid key record for it, while it had none. With retention
   * that is its first valid record; otherwise the first of the valid ones that end its records.
   */
  ghost predicate InsertedAt(events: seq<Record>, retain: bool, row: nat, i: int) {
    && 0 <= i < |events| && IsKeyOf(events[i], row) && Valid(events[i])
    && if retain then
         forall j :: 0 <= j < i && IsKeyOf(events[j], row) ==> !Valid(events[j])
       else
         && (forall j :: i <= j < |events| && IsKeyOf(events[j], row) ==> Valid(events[j]))
         && (forall j :: 0 <= j < i && IsKeyOf(events[j], row) && Valid(events[j]) ==> Invalidated(events, row, j, i))
  }

  ghost predicate Invalidated(events: seq<Record>, row: nat, j: int, i: int) {
    exists k :: 0 <= j < k < i <= |events| && IsKeyOf(events[k], row) && !Valid(events[k])
  }

  /** The same, followed along the loop; -1 while the dict lacks the row. */
  function InsertIndex(events: seq<Record>, retain: bool, row: nat): (i: int)
    ensures -1 <= i < |events|
  {
    if events == [] then -1
    else
      var n := |events| - 1;
      var before := InsertIndex(events[..n], retain, row);
      if !IsKeyOf(events[n], row) then before
      else if Valid(events[n]) then (if before >= 0 then before else n)
      else if retain then before
      else -1
  }

  lemma {:induction false} IndexTellsPresence(events: seq<Record>, retain: bool, row: nat)
    ensures row in KeysAfter(events, retain).texts <==> InsertIndex(events, retain, row) >= 0
  {
    if events != [] {
      IndexTellsPresence(events[..|events| - 1], retain, row);
    }
  }

  /** Without an index the row's last key record, if any, is invalid, or with retention they all are. */
  ghost predicate NoValidRun(events: seq<Record>, retain: bool, row: nat) {
    if retain then forall j :: 0 <= j < |events| && IsKeyOf(events[j], row) ==> !Valid(events[j])
    else forall j :: 0 <= j < |events| && IsKeyOf(events[j], row) && Valid(events[j]) ==> Invalidated(events, row, j, |events|)
  }

  lemma {:induction false} IndexIsInsertion(events: seq<Record>, retain: bool, row: nat)
    ensures var i := InsertIndex(events, retain, row);
            if i >= 0 then InsertedAt(events, retain, row, i) else NoValidRun(events, retain, row)
  {
    if events != [] {
      var n := |events| - 1;
      var front := events[..n];
      IndexIsInsertion(front, retain, row);
      if retain {
        RetainedStep(front, events[n], row);
      } else {
        DroppedStep(front, events[n], row);
      }
      assert front + [events[n]] == events;
    }
  }

  lemma RetainedStep(front: seq<Record>, e: Record, row: nat)
    requires var i := InsertIndex(front, true, row); if i >= 0 then InsertedAt(front, true, row, i) else NoValidRun(front, true, row)
    ensures var events := front + [e]; var i := InsertIndex(events, true, row);
            if i >= 0 then InsertedAt(events, true, row, i) else NoValidRun(events, true, row)
  {
    var events := front + [e];
    assert events[..|front|] == front;
    assert forall j :: 0 <= j < |front| ==> events[j] == front[j];
  }

  lemma InvalidatedGrows(front: seq<Record>, e: Record, row: nat)
    ensures forall j, i :: Invalidated(front, row, j, i) ==> Invalidated(front + [e], row, j, i)
    ensures forall j :: Invalidated(front, row, j, |front|) ==> Invalidated(front + [e], row, j, |front| + 1)
  {
    var events := front + [e];
    forall j, i | Invalidated(front, row, j, i)
      ensures Invalidated(events, row, j, i) && (i == |front| ==> Invalidated(events, row, j, |front| + 1))
    {
      var k :| 0 <= j < k < i <= |front| && IsKeyOf(front[k], row) && !Valid(front[k]);
      assert events[k] == front[k];
    }
  }

  lemma DroppedStep(front: seq<Record>, e: Record, row: nat)
    requires var i := InsertIndex(front, false, row); if i >= 0 then InsertedAt(front, false, row, i) else NoValidRun(front, false, row)
    ensures var events := front + [e]; var i := InsertIndex(events, false, row);
            if i >= 0 then InsertedAt(events, false, row, i) else NoValidRun(events, false, row)
  {
    var events, n := front + [e], |front|;
    assert events[..n] == front && events[n] == e;
    assert forall j :: 0 <= j < n ==> events[j] == front[j];
    InvalidatedGrows(front, e, row);
    if IsKeyOf(e, row) && !Valid(e) {
      forall j | 0 <= j < |events| && IsKeyOf(events[j], row) && Valid(events[j])
        ensures Invalidated(events, row, j, |events|)
      {
        assert j < n < |events| && IsKeyOf(events[n], row);
      }
    }
  }

  /** At most one event is a row's insertion. */
  lemma InsertionIsUnique(events: seq<Record>, retain: bool, row: nat, i: int, j: int)
    requires InsertedAt(events, retain, row, i) && InsertedAt(events, retain, row, j)
    ensures i == j
  {
    if !retain {
      assert i < j ==> Invalidated(events, row, i, j);
      assert j < i ==> Invalidated(events, row, j, i);
    }
  }

  ghost predicate ByInsertion(order: seq<nat>, events: seq<Record>, retain: bool) {
    forall p, q :: 0 <= p < q < |order| ==> InsertIndex(events, retain, order[p]) < InsertIndex(events, retain, order[q])
  }

  lemma {:induction false} WithoutKeepsOrder(order: seq<nat>, row: nat, events: seq<Record>, retain: bool)
    requires ByInsertion(order, events, retain)
    ensures ByInsertion(Without(order, row), events, retain)
  {
    if order != [] {
      var tail := order[1..];
      assert forall p :: 0 <= p < |tail| ==> tail[p] == order[p + 1];
      WithoutKeepsOrder(tail, row, events, retain);
      WithoutMembers(tail, row);
      var kept := Without(tail, row);
      forall q | 0 <= q < |kept|
        ensures InsertIndex(events, retain, order[0]) < InsertIndex(events, retain, kept[q])
      {
        assert kept[q] in tail;
        var p :| 0 <= p < |tail| && tail[p] == kept[q];
      }
    }
  }

  /** An event of one row moves no other row. */
  lemma OthersKeepTheirPlace(order: seq<nat>, events: seq<Record>, retain: bool)
    requires events != [] && ByInsertion(order, events[..|events| - 1], retain)
    requires forall row <- order :: IsKeyOf(events[|events| - 1], row) ==>
               InsertIndex(events, retain, row) == InsertIndex(events[..|events| - 1], retain, row)
    ensures ByInsertion(order, events, retain)
  {
    var front := events[..|events| - 1];
    forall row | row in order
      ensures InsertIndex(events, retain, row) == InsertIndex(front, retain, row)
    {
    }
  }

  /** The dict lists its rows in the order of the events that inserted them. */
  lemma {:induction false} OrderIsInsertionOrder(events: seq<Record>, retain: bool)
    ensures ByInsertion(KeysAfter(events, retain).order, events, retain)
  {
    if events != [] {
      var n := |events| - 1;
      var front, e := events[..n], events[n];
      var before := KeysAfter(front, retain);
      OrderIsInsertionOrder(front, retain);
      OrderListsKeys(front, retain);
      IndexTellsPresence(front, retain, e.row);
      if e.table == TACT_KEY && !Valid(e) && !retain {
        WithoutKeepsOrder(before.order, e.row, front, retain);
        WithoutMembers(before.order, e.row);
        OthersKeepTheirPlace(Without(before.order, e.row), events, retain);
      } else {
        OthersKeepTheirPlace(before.order, events, retain);
      }
    }
  }
}
