/** The stable sort by push id that fixes the order in which hotfix records apply. */
module PushOrder {
  import opened HotfixRecords

  function Insert(sorted: seq<Record>, r: Record): seq<Record> {
    if sorted == [] || sorted[|sorted| - 1].push <= r.push then sorted + [r]
    else Insert(sorted[..|sorted| - 1], r) + [sorted[|sorted| - 1]]
  }

  function StableSort(records: seq<Record>): seq<Record> {
    if records == [] then []
    else Insert(StableSort(records[..|records| - 1]), records[|records| - 1])
  }

  ghost predicate Sorted(records: seq<Record>) {
    forall i, j :: 0 <= i < j < |records| ==> records[i].push <= records[j].push
  }

  datatype Criterion = OnPush(push: int) | OnTable(table: nat)

  predicate Passes(criterion: Criterion, r: Record) {
    match criterion
    case OnPush(push) => r.push == push
    case OnTable(table) => r.table == table
  }

  /** The subsequence of records that pass. */
  ghost function Select(records: seq<Record>, criterion: Criterion): seq<Record> {
    if records == [] then []
    else
      var last := records[|records| - 1];
      var front := Select(records[..|records| - 1], criterion);
      if Passes(criterion, last) then front + [last] else front
  }

  ghost function OfPush(records: seq<Record>, push: int): seq<Record> {
    Select(records, OnPush(push))
  }

  lemma {:induction false} InsertSorts(sorted: seq<Record>, r: Record)
    requires Sorted(sorted)
    ensures Sorted(Insert(sorted, r))
    ensures forall x :: x in Insert(sorted, r) <==> x == r || x in sorted
  {
    if sorted != [] {
      var n := |sorted| - 1;
      assert sorted == sorted[..n] + [sorted[n]];
      if sorted[n].push > r.push {
        InsertSorts(sorted[..n], r);
        forall x | x in Insert(sorted[..n], r)
          ensures x.push <= sorted[n].push
        {
        }
      }
    }
  }

  lemma {:induction false} SortSorts(records: seq<Record>)
    ensures Sorted(StableSort(records))
    ensures forall x :: x in StableSort(records) <==> x in records
  {
    if records != [] {
      var n := |records| - 1;
      SortSorts(records[..n]);
      InsertSorts(StableSort(records[..n]), records[n]);
      assert records == records[..n] + [records[n]];
    }
  }

  lemma SelectLast(front: seq<Record>, r: Record, criterion: Criterion)
    ensures Select(front + [r], criterion) 
         == if Passes(criterion, r) then Select(front, criterion) + [r] else Select(front, criterion)
  {
    assert (front + [r])[..|front|] == front;
  }

  lemma {:induction false} SelectMembers(records: seq<Record>, criterion: Criterion)
    ensures forall x :: x in Select(records, criterion) <==> x in records && Passes(criterion, x)
    ensures |Select(records, criterion)| <= |records|
  {
    if records != [] {
      var n := |records| - 1;
      SelectMembers(records[..n], criterion);
      assert records == records[..n] + [records[n]];
    }
  }

  /** Sortedness and the order inside each push determine the whole sequence. */
  lemma {:induction false} SortedIsDetermined(a: seq<Record>, b: seq<Record>)
    requires Sorted(a) && Sorted(b)
    requires forall push :: OfPush(a, push) == OfPush(b, push)
    ensures a == b
  {
    if a == [] {
      assert b == [] by {
        if b != [] {
          LastOfPush(b);
        }
      }
    } else {
      var n := |a| - 1;
      LastOfPush(a);
      assert b != [] by {
        assert OfPush(a, a[n].push) == OfPush(b, a[n].push);
      }
      var m := |b| - 1;
      LastOfPush(b);
      // the largest push is the same on both sides, so the last records are
      InOtherSide(a, b, a[n]);
      InOtherSide(b, a, b[m]);
      assert a[n].push == b[m].push;
      assert a[n] == b[m];
      forall push
        ensures OfPush(a[..n], push) == OfPush(b[..m], push)
      {
        assert OfPush(a, push) == OfPush(b, push);
        SameFronts(a[..n], b[..m], a[n], push);
        assert a == a[..n] + [a[n]] && b == b[..m] + [a[n]];
      }
      SortedIsDetermined(a[..n], b[..m]);
      assert a == a[..n] + [a[n]] && b == b[..m] + [b[m]];
    }
  }

  lemma SameFronts(a: seq<Record>, b: seq<Record>, r: Record, push: int)
    ensures OfPush(a + [r], push) == OfPush(b + [r], push) ==> OfPush(a, push) == OfPush(b, push)
  {
    SelectLast(a, r, OnPush(push));
    SelectLast(b, r, OnPush(push));
    var x, y := OfPush(a, push), OfPush(b, push);
    assert x == (x + [r])[..|x|] && y == (y + [r])[..|y|];
  }

  lemma LastOfPush(a: seq<Record>)
    requires a != []
    ensures var last := a[|a| - 1];
            var same := OfPush(a, last.push);
            same != [] && same[|same| - 1] == last
  {
  }

  lemma InOtherSide(a: seq<Record>, b: seq<Record>, r: Record)
    requires forall push :: OfPush(a, push) == OfPush(b, push)
    requires r in a
    ensures r in b
  {
    SelectMembers(a, OnPush(r.push));
    SelectMembers(b, OnPush(r.push));
    assert OfPush(a, r.push) == OfPush(b, r.push);
  }

  lemma InsertBefore(sorted: seq<Record>, last: Record, r: Record)
    requires last.push > r.push
    ensures Insert(sorted + [last], r) == Insert(sorted, r) + [last]
  {
    assert (sorted + [last])[..|sorted|] == sorted;
  }

  lemma {:induction false} InsertSelect(sorted: seq<Record>, r: Record, criterion: Criterion)
    requires Sorted(sorted)
    ensures Select(Insert(sorted, r), criterion)
         == if Passes(criterion, r) then Insert(Select(sorted, criterion), r) else Select(sorted, criterion)
  {
    if sorted == [] || sorted[|sorted| - 1].push <= r.push {
      var kept := Select(sorted, criterion);
      SelectLast(sorted, r, criterion);
      SelectMembers(sorted, criterion);
      assert kept != [] ==> kept[|kept| - 1] in sorted;
    } else {
      var n := |sorted| - 1;
      InsertSelect(sorted[..n], r, criterion);
      SelectLast(Insert(sorted[..n], r), sorted[n], criterion);
      InsertBefore(Select(sorted[..n], criterion), sorted[n], r);
    }
  }

  /** Dropping records commutes with sorting. */
  lemma {:induction false} SortSelect(records: seq<Record>, criterion: Criterion)
    ensures Select(StableSort(records), criterion) == StableSort(Select(records, criterion))
  {
    if records != [] {
      var n := |records| - 1;
      var kept := Select(records[..n], criterion);
      SortSelect(records[..n], criterion);
      SortSorts(records[..n]);
      InsertSelect(StableSort(records[..n]), records[n], criterion);
      assert (kept + [records[n]])[..|kept|] == kept;
    }
  }

  lemma {:induction false} OnePushIsSorted(records: seq<Record>, push: int)
    requires forall r <- records :: r.push == push
    ensures StableSort(records) == records
  {
    if records != [] {
      var n := |records| - 1;
      OnePushIsSorted(records[..n], push);
      assert records == records[..n] + [records[n]];
    }
  }

  /** Stability: records of one push keep their order. */
  lemma SortIsStable(records: seq<Record>, push: int)
    ensures OfPush(StableSort(records), push) == OfPush(records, push)
  {
    SortSelect(records, OnPush(push));
    SelectMembers(records, OnPush(push));
    OnePushIsSorted(OfPush(records, push), push);
  }

  /** Two sequences that agree inside every push apply in the same order. */
  lemma SortForgetsInterleaving(a: seq<Record>, b: seq<Record>)
    requires forall push :: OfPush(a, push) == OfPush(b, push)
    ensures StableSort(a) == StableSort(b)
  {
    SortSorts(a);
    SortSorts(b);
    forall push
      ensures OfPush(StableSort(a), push) == OfPush(StableSort(b), push)
    {
      SortIsStable(a, push);
      SortIsStable(b, push);
      assert OfPush(a, push) == OfPush(b, push);
    }
    SortedIsDetermined(StableSort(a), StableSort(b));
  }
}
