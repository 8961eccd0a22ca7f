/**
  harvest: hotfix records, in stable push order, update a name table and a key table that
  are then joined by record id. Cached keys (push -1) survive later invalidations.
 */
module Harvest {
  import opened Wrappers
  import opened LittleEndian
  import opened HexText
  import opened HotfixRecords
  import opened PushOrder
  import opened FileOrder

  // ---------- Reading the cache ----------

  function Prepend(done: seq<Raw>, rest: Result<seq<Raw>, Error>): Result<seq<Raw>, Error> {
    match rest
    case Err(error) => Err(error)
    case Ok(raws) => Ok(done + raws)
  }

  /** The body of the reader's loop: four takes, the last one sized by the record itself. */
  method ReadOne(data: Bytes, offset: nat) returns (r: Result<Raw, Error>)
    requires offset < |data|
    ensures r == DecodeOne(data[offset..])
  {
    ghost var s := data[offset..];
    var signature := Take(data, offset, 4);
    if signature.Err? { return Err(signature.error); }
    assert s[..4] == signature.value;
    if signature.value != MAGIC { return Err(BadSignature); }
    var fields := Take(data, offset + 4, 24);
    if fields.Err? { return Err(fields.error); }
    var f := fields.value;
    var status := Take(data, offset + 28, 4);
    if status.Err? { return Err(status.error); }
    Widths();
    assert f == s[4..28];
    SubSlice(s, 4, 28, 0, 4);
    SubSlice(s, 4, 28, 4, 8);
    SubSlice(s, 4, 28, 8, 12);
    SubSlice(s, 4, 28, 12, 16);
    SubSlice(s, 4, 28, 16, 20);
    SubSlice(s, 4, 28, 20, 24);
    assert status.value[0] == s[28] && status.value[1..] == s[29..32];
    var size := Le(f[20..24]);
    var payload := Take(data, offset + RECORD_SIZE, size);
    if payload.Err? { return Err(payload.error); }
    assert payload.value == s[32..32 + size];
    return Ok(RawFields(Le(f[..4]), Signed(Le(f[4..8])), Le(f[8..12]), Le(f[12..16]), Le(f[16..20]),
                        status.value[0], status.value[1..], payload.value));
  }

  /** What is left to decode at some offset, with the invariant of the loop that decodes it. */
  ghost predicate Remaining(data: Bytes, offset: nat, rest: Result<seq<Raw>, Error>) {
    offset <= |data| && rest == DecodeAll(data[offset..])
  }

  lemma RemainingStep(data: Bytes, offset: nat, rest: Result<seq<Raw>, Error>, done: seq<Raw>, one: Result<Raw, Error>)
    returns (rest': Result<seq<Raw>, Error>)
    requires Remaining(data, offset, rest) && offset < |data| && one == DecodeOne(data[offset..])
    ensures one.Err? ==> rest == Err(one.error)
    ensures one.Ok? ==> Remaining(data, offset + RECORD_SIZE + |one.value.payload|, rest')
    ensures one.Ok? ==> Prepend(done, rest) == Prepend(done + [one.value], rest')
  {
    rest' := rest;
    if one.Ok? {
      var size := RECORD_SIZE + |one.value.payload|;
      assert data[offset..][size..] == data[offset + size..];
      rest' := DecodeAll(data[offset + size..]);
      if rest'.Ok? {
        assert done + ([one.value] + rest'.value) == (done + [one.value]) + rest'.value;
      }
    }
  }

  lemma RemainingEnd(data: Bytes, rest: Result<seq<Raw>, Error>)
    requires Remaining(data, |data|, rest)
    ensures rest == Ok([])
  {
    assert data[|data|..] == [];
  }

  /** One round of the loop: the records and the offset after one more record, or its error. */
  method ReadNext(data: Bytes, offset: nat, records: seq<Record>, ghost done: seq<Raw>, ghost rest: Result<seq<Raw>, Error>)
    returns (r: Result<(nat, seq<Record>), Error>, ghost done': seq<Raw>, ghost rest': Result<seq<Raw>, Error>)
    requires offset < |data| && Remaining(data, offset, rest) && records == Kept(done)
    ensures r.Err? ==> rest == Err(r.error)
    ensures r.Ok? ==> && offset + RECORD_SIZE <= r.value.0 && Remaining(data, r.value.0, rest')
                      && r.value.1 == Kept(done') && Prepend(done, rest) == Prepend(done', rest')
  {
    done' := done;
    var one := ReadOne(data, offset);
    rest' := RemainingStep(data, offset, rest, done, one);
    if one.Err? { return Err(one.error), done', rest'; }
    var record := one.value;
    var records' := records;
    if record.table == TACT_KEY || record.table == TACT_LOOKUP {
      records' := records + [Record(record.push, record.table, record.row, record.status, record.payload)];
    }
    KeptAppend(done, record);
    done' := done + [record];
    return Ok((offset + RECORD_SIZE + |record.payload|, records')), done', rest';
  }

  method ReadBody(data: Bytes) returns (r: Result<seq<Record>, Error>)
    requires HEADER_SIZE <= |data|
    ensures r == match DecodeAll(data[HEADER_SIZE..])
                 case Err(error) => Err(error)
                 case Ok(raws) => Ok(Kept(raws))
    ensures r.Ok? ==> exists places :: InFileOrder(DecodeAll(data[HEADER_SIZE..]).value, r.value, places)
  {
    var offset := HEADER_SIZE;
    var records := [];
    ghost var done: seq<Raw>, all := [], DecodeAll(data[HEADER_SIZE..]);
    ghost var rest := all;
    assert all.Ok? ==> done + all.value == all.value;
    while offset < |data|
      invariant HEADER_SIZE <= offset && Remaining(data, offset, rest)
      invariant records == Kept(done)
      invariant all == Prepend(done, rest)
      decreases |data| - offset
    {
      var next;
      next, done, rest := ReadNext(data, offset, records, done, rest);
      if next.Err? { return Err(next.error); }
      offset, records := next.value.0, next.value.1;
    }
    RemainingEnd(data, rest);
    assert done + [] == done;
    ghost var places := KeptIsInFileOrder(done);
    return Ok(records);
  }

  /** Succeeds exactly on what DecodeCache accepts and returns its two tables, stably sorted by push. */
  method ReadRecords(data: Bytes) returns (r: Result<seq<Record>, Error>)
    ensures r == match DecodeCache(data)
                 case Err(error) => Err(error)
                 case Ok(raws) => Ok(StableSort(Kept(raws)))
    ensures r.Ok? ==> exists places :: Selected(DecodeCache(data).value, r.value, places)
  {
    var magic := Take(data, 0, 4);
    if magic.Err? { return Err(magic.error); }
    if magic.value != MAGIC { return Err(BadHeader); }
    var version := Take(data, 4, 4);
    if version.Err? { return Err(version.error); }
    if Le(version.value) != 9 { return Err(BadHeader); }
    var header := Take(data, 0, HEADER_SIZE);
    if header.Err? { return Err(header.error); }
    r := ReadBody(data);
    if r.Ok? {
      ghost var places := SortedKeptIsSelected(DecodeCache(data).value);
      r := Ok(StableSort(r.value));
    }
  }

  // ---------- The event fold ----------

  predicate Valid(e: Record) {
    e.status == 1 && e.payload != []
  }

  predicate BadSize(e: Record) {
    Valid(e) && |e.payload| != if e.table == TACT_KEY then 16 else 8
  }

  ghost predicate FirstBad(events: seq<Record>, i: int) {
    0 <= i < |events| && BadSize(events[i]) && forall j :: 0 <= j < i ==> !BadSize(events[j])
  }

  /** Some cached key is there to be kept. */
  ghost predicate RetainsCached(events: seq<Record>) {
    exists e <- events :: e.table == TACT_KEY && e.push == -1 && Valid(e)
  }

  function NameText(payload: Bytes): string {
    HexNumber(Le(payload), 16)
  }

  function StepNames(names: map<nat, string>, e: Record): map<nat, string> {
    if e.table == TACT_KEY then names
    else if Valid(e) then names[e.row := NameText(e.payload)]
    else names - {e.row}
  }

  function NamesAfter(events: seq<Record>, base: map<nat, string>): map<nat, string> {
    if events == [] then base
    else StepNames(NamesAfter(events[..|events| - 1], base), events[|events| - 1])
  }

  /** A Python dict: order lists the rows as they were last inserted. */
  datatype Keys = Keys(order: seq<nat>, texts: map<nat, string>)

  function Without(order: seq<nat>, row: nat): seq<nat> {
    if order == [] then []
    else (if order[0] == row then [] else [order[0]]) + Without(order[1..], row)
  }

  function StepKeys(keys: Keys, e: Record, retain: bool): Keys {
    if e.table != TACT_KEY then keys
    else if Valid(e) then
      Keys(if e.row in keys.texts then keys.order else keys.order + [e.row], keys.texts[e.row := HexBytes(e.payload)])
    else if retain then keys
    else Keys(Without(keys.order, e.row), keys.texts - {e.row})
  }

  function KeysAfter(events: seq<Record>, retain: bool): Keys {
    if events == [] then Keys([], map[])
    else StepKeys(KeysAfter(events[..|events| - 1], retain), events[|events| - 1], retain)
  }

  // ---------- The last applicable event decides ----------

  /** Event i is the last one of its table for its row. */
  ghost predicate IsLast(events: seq<Record>, table: nat, row: nat, i: int) {
    && 0 <= i < |events| && events[i].table == table && events[i].row == row
    && forall j :: i < j < |events| ==> !(events[j].table == table && events[j].row == row)
  }

  ghost predicate IsLastValid(events: seq<Record>, table: nat, row: nat, i: int) {
    && 0 <= i < |events| && events[i].table == table && events[i].row == row && Valid(events[i])
    && forall j :: i < j < |events| ==> !(events[j].table == table && events[j].row == row && Valid(events[j]))
  }

  ghost predicate TwoTables(events: seq<Record>) {
    forall e <- events :: e.table == TACT_KEY || e.table == TACT_LOOKUP
  }

  /** text is the name the events and the base lookup leave for row. */
  ghost predicate NameIs(events: seq<Record>, base: map<nat, string>, row: nat, text: string) {
    || (exists i :: IsLast(events, TACT_LOOKUP, row, i) && Valid(events[i]) && text == NameText(events[i].payload))
    || ((forall e <- events :: !(e.table == TACT_LOOKUP && e.row == row)) && row in base && base[row] == text)
  }

  ghost predicate KeyIs(events: seq<Record>, retain: bool, row: nat, text: string) {
    if retain then
      exists i :: IsLastValid(events, TACT_KEY, row, i) && text == HexBytes(events[i].payload)
    else
      exists i :: IsLast(events, TACT_KEY, row, i) && Valid(events[i]) && text == HexBytes(events[i].payload)
  }

  /** An event of another table or row leaves the last event where it was. */
  lemma LastUnmoved(front: seq<Record>, e: Record, table: nat, row: nat)
    requires !(e.table == table && e.row == row)
    ensures forall i :: IsLast(front + [e], table, row, i) <==> IsLast(front, table, row, i)
    ensures forall i :: IsLastValid(front + [e], table, row, i) <==> IsLastValid(front, table, row, i)
  {
    var events := front + [e];
    assert forall i :: 0 <= i < |front| ==> events[i] == front[i];
    forall i
      ensures IsLast(events, table, row, i) <==> IsLast(front, table, row, i)
      ensures IsLastValid(events, table, row, i) <==> IsLastValid(front, table, row, i)
    {
      if IsLast(events, table, row, i) {
        assert i != |front|;
        assert forall j :: i < j < |front| ==> events[j] == front[j];
      }
      if IsLastValid(events, table, row, i) {
        assert i != |front|;
        assert forall j :: i < j < |front| ==> events[j] == front[j];
      }
    }
  }

  lemma LastIsNew(front: seq<Record>, e: Record)
    ensures forall i :: IsLast(front + [e], e.table, e.row, i) <==> i == |front|
    ensures Valid(e) ==> forall i :: IsLastValid(front + [e], e.table, e.row, i) <==> i == |front|
  {
    var events := front + [e];
    assert events[|front|] == e;
  }

  lemma InvalidKeepsLastValid(front: seq<Record>, e: Record)
    requires !Valid(e)
    ensures forall i :: IsLastValid(front + [e], e.table, e.row, i) <==> IsLastValid(front, e.table, e.row, i)
  {
    var events := front + [e];
    forall i
      ensures IsLastValid(events, e.table, e.row, i) <==> IsLastValid(front, e.table, e.row, i)
    {
      if IsLastValid(events, e.table, e.row, i) {
        assert i != |front|;
        assert forall j :: i < j < |front| ==> events[j] == front[j];
      }
    }
  }

  lemma {:induction false} NamesAreLastEvents(events: seq<Record>, base: map<nat, string>, row: nat, text: string)
    requires TwoTables(events)
    ensures (row in NamesAfter(events, base) && NamesAfter(events, base)[row] == text) <==> NameIs(events, base, row, text)
  {
    if events != [] {
      var n := |events| - 1;
      var front, e := events[..n], events[n];
      assert events == front + [e];
      NamesAreLastEvents(front, base, row, text);
      if e.table == TACT_LOOKUP && e.row == row {
        LastIsNew(front, e);
      } else {
        LastUnmoved(front, e, TACT_LOOKUP, row);
        assert forall i :: IsLast(front, TACT_LOOKUP, row, i) ==> events[i] == front[i];
        assert (forall x <- events :: !(x.table == TACT_LOOKUP && x.row == row))
          <==> (forall x <- front :: !(x.table == TACT_LOOKUP && x.row == row));
      }
    }
  }

  lemma {:induction false} KeysAreLastEvents(events: seq<Record>, retain: bool, row: nat, text: string)
    ensures (row in KeysAfter(events, retain).texts && KeysAfter(events, retain).texts[row] == text)
       <==> KeyIs(events, retain, row, text)
  {
    if events != [] {
      var n := |events| - 1;
      var front, e := events[..n], events[n];
      assert events == front + [e];
      KeysAreLastEvents(front, retain, row, text);
      if e.table == TACT_KEY && e.row == row {
        LastIsNew(front, e);
        if !Valid(e) {
          InvalidKeepsLastValid(front, e);
        }
      } else {
        LastUnmoved(front, e, TACT_KEY, row);
      }
      assert forall i :: IsLast(front, TACT_KEY, row, i) ==> events[i] == front[i];
      assert forall i :: IsLastValid(front, TACT_KEY, row, i) ==> events[i] == front[i];
    }
  }

  // ---------- The join ----------

  function Matched(order: seq<nat>, texts: map<nat, string>, names: map<nat, string>): map<string, string>
    requires forall row <- order :: row in texts
  {
    if order == [] then map[]
    else
      var row := order[|order| - 1];
      var rest := Matched(order[..|order| - 1], texts, names);
      if row in names then rest[names[row] := texts[row]] else rest
  }

  /** Row i of the order is the last one that goes by this name. */
  ghost predicate LastNamed(order: seq<nat>, names: map<nat, string>, name: string, i: int) {
    && 0 <= i < |order| && order[i] in names && names[order[i]] == name
    && forall j :: i < j < |order| ==> !(order[j] in names && names[order[j]] == name)
  }

  lemma {:induction false} MatchedIsLastNamed(order: seq<nat>, texts: map<nat, string>, names: map<nat, string>,
                                              name: string, text: string)
    requires forall row <- order :: row in texts
    ensures (name in Matched(order, texts, names) && Matched(order, texts, names)[name] == text)
       <==> exists i :: LastNamed(order, names, name, i) && texts[order[i]] == text
  {
    if order != [] {
      var n := |order| - 1;
      var front := order[..n];
      MatchedIsLastNamed(front, texts, names, name, text);
      if order[n] in names && names[order[n]] == name {
        assert LastNamed(order, names, name, n);
        assert forall i :: LastNamed(order, names, name, i) ==> i == n;
      } else {
        assert forall i :: LastNamed(front, names, name, i) ==> LastNamed(order, names, name, i) && order[i] == front[i];
        assert forall i :: LastNamed(order, names, name, i) ==> LastNamed(front, names, name, i);
      }
    }
  }

  lemma {:induction false} MatchedNames(order: seq<nat>, texts: map<nat, string>, names: map<nat, string>, row: nat)
    requires forall row <- order :: row in texts
    ensures row in order && row in names ==> names[row] in Matched(order, texts, names)
    ensures forall name <- Matched(order, texts, names) ::
              exists r :: r in order && r in names && names[r] == name && Matched(order, texts, names)[name] == texts[r]
  {
    if order != [] {
      var n := |order| - 1;
      assert order == order[..n] + [order[n]];
      MatchedNames(order[..n], texts, names, row);
    }
  }

  lemma {:induction false} WithoutMembers(order: seq<nat>, row: nat)
    ensures forall x :: x in Without(order, row) <==> x in order && x != row
  {
    if order != [] {
      WithoutMembers(order[1..], row);
      assert order == [order[0]] + order[1..];
    }
  }

  lemma {:induction false} OrderListsKeys(events: seq<Record>, retain: bool)
    ensures forall row :: row in KeysAfter(events, retain).order <==> row in KeysAfter(events, retain).texts
  {
    if events != [] {
      var n := |events| - 1;
      var before := KeysAfter(events[..n], retain);
      OrderListsKeys(events[..n], retain);
      WithoutMembers(before.order, events[n].row);
      assert KeysAfter(events, retain) == StepKeys(before, events[n], retain);
    }
  }

  // ---------- harvest ----------

  /** matched and the set of key rows without a name; None when some applied payload has the wrong size. */
  ghost function Harvested(events: seq<Record>, base: map<nat, string>): Option<(map<string, string>, set<nat>)> {
    if exists e <- events :: BadSize(e) then None
    else
      var names := NamesAfter(events, base);
      var keys := KeysAfter(events, RetainsCached(events));
      OrderListsKeys(events, RetainsCached(events));
      Some((Matched(keys.order, keys.texts, names), keys.texts.Keys - names.Keys))
  }

  ghost predicate Ascending(rows: seq<nat>, s: set<nat>) {
    && (forall i, j :: 0 <= i < j < |rows| ==> rows[i] < rows[j])
    && (forall row :: row in rows <==> row in s)
  }

  lemma AscendingFront(a: seq<nat>, s: set<nat>)
    requires Ascending(a, s) && a != []
    ensures var n := |a| - 1;
            a[n] in s && (forall x <- s :: x <= a[n]) && Ascending(a[..n], s - {a[n]})
  {
    var n := |a| - 1;
    assert a == a[..n] + [a[n]] && a[n] in a;
    forall x | x in s
      ensures x <= a[n]
    {
      assert x in a;
    }
  }

  lemma {:induction false} AscendingIsUnique(a: seq<nat>, b: seq<nat>, s: set<nat>)
    requires Ascending(a, s) && Ascending(b, s)
    ensures a == b
    decreases |a|
  {
    NonEmptyHasMember(a);
    NonEmptyHasMember(b);
    if a != [] {
      var n, m := |a| - 1, |b| - 1;
      AscendingFront(a, s);
      assert b != [];
      AscendingFront(b, s);
      AscendingIsUnique(a[..n], b[..m], s - {a[n]});
      assert a == a[..n] + [a[n]] && b == b[..m] + [b[m]];
    }
  }

  lemma NonEmptyHasMember(a: seq<nat>)
    ensures a != [] ==> exists x :: x in a
  {
    if a != [] {
      assert a[0] in a;
    }
  }

  lemma Minimum(s: set<nat>) returns (m: nat)
    requires s != {}
    ensures m in s && forall x <- s :: m <= x
    decreases |s|
  {
    m :| m in s;
    if s - {m} != {} {
      var rest := Minimum(s - {m});
      assert forall x <- s :: x == m || x in s - {m};
      if rest < m {
        m := rest;
      }
    } else {
      assert s == {m};
    }
  }

  /** sorted() on a set of row ids. */
  method SortedRows(s: set<nat>) returns (rows: seq<nat>)
    ensures Ascending(rows, s)
  {
    rows := [];
    var todo := s;
    while todo != {}
      invariant todo <= s
      invariant Ascending(rows, s - todo)
      invariant forall x <- rows, y <- todo :: x < y
      decreases todo
    {
      ghost var least := Minimum(todo);
      var m :| m in todo && forall x <- todo :: m <= x;
      assert forall i :: 0 <= i < |rows| ==> rows[i] in rows;
      rows := rows + [m];
      todo := todo - {m};
    }
    assert s - todo == s;
  }

  lemma FoldStep(records: seq<Record>, i: nat, base: map<nat, string>, retain: bool)
    requires i < |records|
    ensures NamesAfter(records[..i + 1], base) == StepNames(NamesAfter(records[..i], base), records[i])
    ensures KeysAfter(records[..i + 1], retain) == StepKeys(KeysAfter(records[..i], retain), records[i], retain)
  {
    assert records[..i + 1][..i] == records[..i];
  }

  /** One record of the event loop: both dicts are updated in place, and a wrong payload size is an error. */
  method ApplyRecord(e: Record, names: map<nat, string>, keys: Keys, retainCached: bool)
    returns (applied: Result<(map<nat, string>, Keys), Error>)
    ensures applied == if BadSize(e) then Err(BadPayloadSize(e.row)) else Ok((StepNames(names, e), StepKeys(keys, e, retainCached)))
  {
    if e.status != 1 || e.payload == [] {
      if e.table != TACT_KEY {
        return Ok((names - {e.row}, keys));
      } else if !retainCached {
        return Ok((names, Keys(Without(keys.order, e.row), keys.texts - {e.row})));
      }
      return Ok((names, keys));
    }
    if |e.payload| != (if e.table == TACT_KEY then 16 else 8) {
      return Err(BadPayloadSize(e.row));
    }
    if e.table == TACT_KEY {
      return Ok((names, Keys(if e.row in keys.texts then keys.order else keys.order + [e.row],
                             keys.texts[e.row := HexBytes(e.payload)])));
    }
    return Ok((names[e.row := HexNumber(Le(e.payload), 16)], keys));
  }

  method ApplyRecords(records: seq<Record>, baseLookup: map<nat, string>, retainCached: bool)
    returns (applied: Result<(map<nat, string>, Keys), Error>)
    ensures applied.Err? <==> exists e <- records :: BadSize(e)
    ensures applied.Err? ==> exists i :: FirstBad(records, i) && applied == Err(BadPayloadSize(records[i].row))
    ensures applied.Ok? ==> applied.value == (NamesAfter(records, baseLookup), KeysAfter(records, retainCached))
  {
    var names, keys := baseLookup, Keys([], map[]);
    for i := 0 to |records|
      invariant names == NamesAfter(records[..i], baseLookup)
      invariant keys == KeysAfter(records[..i], retainCached)
      invariant forall j :: 0 <= j < i ==> !BadSize(records[j])
    {
      var updated := ApplyRecord(records[i], names, keys, retainCached);
      if updated.Err? {
        assert FirstBad(records, i) && records[i] in records;
        return updated;
      }
      FoldStep(records, i, baseLookup, retainCached);
      names, keys := updated.value.0, updated.value.1;
    }
    assert records[..|records|] == records;
    return Ok((names, keys));
  }

  /** The dict built from every key row that has a name. */
  method MatchKeys(order: seq<nat>, texts: map<nat, string>, names: map<nat, string>)
    returns (matched: map<string, string>)
    requires forall row <- order :: row in texts
    ensures matched == Matched(order, texts, names)
  {
    matched := map[];
    for i := 0 to |order|
      invariant matched == Matched(order[..i], texts, names)
    {
      var row := order[i];
      assert order[..i + 1][..i] == order[..i];
      if row in names {
        matched := matched[names[row] := texts[row]];
      }
    }
    assert order[..|order|] == order;
  }

  /** The first record in push order whose payload has the wrong size stops the harvest, by its row. */
  ghost predicate HarvestOk(events: seq<Record>, base: map<nat, string>, r: Result<(map<string, string>, seq<nat>), Error>) {
    match Harvested(events, base)
    case None => exists i :: FirstBad(events, i) && r == Err(BadPayloadSize(events[i].row))
    case Some(outcome) => r.Ok? && r.value.0 == outcome.0 && Ascending(r.value.1, outcome.1)
  }

  method HarvestRecords(records: seq<Record>, baseLookup: map<nat, string>)
    returns (r: Result<(map<string, string>, seq<nat>), Error>)
    ensures HarvestOk(records, baseLookup, r)
  {
    var retainCached := exists e <- records :: e.table == TACT_KEY && e.push == -1 && Valid(e);
    var applied := ApplyRecords(records, baseLookup, retainCached);
    if applied.Err? { return Err(applied.error); }
    var (names, keys) := applied.value;
    OrderListsKeys(records, retainCached);
    var matched := MatchKeys(keys.order, keys.texts, names);
    var unmatched := SortedRows(keys.texts.Keys - names.Keys);
    return Ok((matched, unmatched));
  }

  method HarvestCache(data: Bytes, baseLookup: map<nat, string>)
    returns (r: Result<(map<string, string>, seq<nat>), Error>)
    ensures DecodeCache(data).Err? ==> r == Err(DecodeCache(data).error)
    ensures DecodeCache(data).Ok? ==>
              HarvestOk(StableSort(Kept(DecodeCache(data).value)), baseLookup, r)
  {
    var read := ReadRecords(data);
    if read.Err? { return Err(read.error); }
    r := HarvestRecords(read.value, baseLookup);
  }
}
