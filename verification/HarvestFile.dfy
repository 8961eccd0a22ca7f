/** What a harvest does with a cache file, in terms of the file's own records. */
module HarvestFile {
  import opened Wrappers
  import opened LittleEndian
  import opened HexText
  import opened HotfixRecords
  import opened PushOrder
  import opened FileOrder
  import opened Harvest
  import opened HarvestOrder
  import opened HarvestTheorems

  const KEYS: nat := 0xDF2F53CF
  const LOOKUPS: nat := 0xAFC190D1

  /** The record sets its row; any other one for the row removes it, or is ignored. */
  predicate Applies(r: Raw) {
    r.status == 1 && r.payload != []
  }

  predicate For(r: Raw, table: nat, row: nat) {
    r.table == table && r.row == row
  }

  /** An applying record of the wrong size: keys have 16 bytes, names 8. */
  predicate WrongSize(r: Raw) {
    Applies(r) && ((r.table == KEYS && |r.payload| != 16) || (r.table == LOOKUPS && |r.payload| != 8))
  }

  ghost predicate FirstWrongSize(raws: seq<Raw>, i: int) {
    0 <= i < |raws| && WrongSize(raws[i]) && forall j :: 0 <= j < |raws| && WrongSize(raws[j]) ==> !Before(raws, j, i)
  }

  ghost predicate LastFor(raws: seq<Raw>, table: nat, row: nat, i: int) {
    && 0 <= i < |raws| && For(raws[i], table, row)
    && forall j :: 0 <= j < |raws| && For(raws[j], table, row) ==> !Before(raws, i, j)
  }

  ghost predicate LastApplying(raws: seq<Raw>, table: nat, row: nat, i: int) {
    && 0 <= i < |raws| && For(raws[i], table, row) && Applies(raws[i])
    && forall j :: 0 <= j < |raws| && For(raws[j], table, row) && Applies(raws[j]) ==> !Before(raws, i, j)
  }

  /** The file holds a cached key, of push -1; then no key is ever removed. */
  ghost predicate HoldsCachedKey(raws: seq<Raw>) {
    exists i :: 0 <= i < |raws| && raws[i].table == KEYS && raws[i].push == -1 && Applies(raws[i])
  }

  /** text is the row's name: of its last name record, if that one applies, else of the base lookup. */
  ghost predicate Named(raws: seq<Raw>, base: map<nat, string>, row: nat, text: string) {
    || (exists i :: LastFor(raws, LOOKUPS, row, i) && Applies(raws[i]) && text == HexNumber(Le(raws[i].payload), 16))
    || ((forall i :: 0 <= i < |raws| ==> !For(raws[i], LOOKUPS, row)) && row in base && base[row] == text)
  }

  /** text is the row's key: of its last key record, if that one applies, or with a cached key of the last that does. */
  ghost predicate Keyed(raws: seq<Raw>, row: nat, text: string) {
    exists i :: 0 <= i < |raws| && text == HexBytes(raws[i].payload)
      && if HoldsCachedKey(raws) then LastApplying(raws, KEYS, row, i) else LastFor(raws, KEYS, row, i) && Applies(raws[i])
  }

  ghost predicate RemovedBetween(raws: seq<Raw>, row: nat, j: int, i: int)
    requires 0 <= j < |raws| && 0 <= i < |raws|
  {
    exists k :: 0 <= k < |raws| && For(raws[k], KEYS, row) && !Applies(raws[k]) && Before(raws, j, k) && Before(raws, k, i)
  }

  /** Record i is the one that put the row where it stands among the keys. */
  ghost predicate Inserted(raws: seq<Raw>, row: nat, i: int) {
    && 0 <= i < |raws| && For(raws[i], KEYS, row) && Applies(raws[i])
    && if HoldsCachedKey(raws) then
         forall j :: 0 <= j < |raws| && For(raws[j], KEYS, row) && Before(raws, j, i) ==> !Applies(raws[j])
       else
         && (forall j :: 0 <= j < |raws| && For(raws[j], KEYS, row) && !Before(raws, j, i) ==> Applies(raws[j]))
         && (forall j :: 0 <= j < |raws| && For(raws[j], KEYS, row) && Applies(raws[j]) && Before(raws, j, i) ==>
               RemovedBetween(raws, row, j, i))
  }

  ghost predicate Earlier(raws: seq<Raw>, other: nat, row: nat) {
    exists i, j :: Inserted(raws, other, i) && Inserted(raws, row, j) && Before(raws, i, j)
  }

  /** The row has that name and that key, and every other key row of the name was put there earlier. */
  ghost predicate LastOfName(raws: seq<Raw>, base: map<nat, string>, row: nat, name: string, text: string) {
    && Named(raws, base, row, name) && Keyed(raws, row, text)
    && forall other, t :: Named(raws, base, other, name) && Keyed(raws, other, t) && other != row ==> Earlier(raws, other, row)
  }

  // ---------- Events and places ----------

  lemma OrderIsBefore(raws: seq<Raw>, events: seq<Record>, places: seq<nat>, j: int, k: int)
    requires Selected(raws, events, places) && 0 <= j < |places| && 0 <= k < |places|
    ensures j < k <==> Before(raws, places[j], places[k])
  {
    assert j < k ==> Before(raws, places[j], places[k]);
    assert k < j ==> Before(raws, places[k], places[j]);
  }

  lemma PlaceOf(raws: seq<Raw>, events: seq<Record>, places: seq<nat>, i: int) returns (k: int)
    requires Selected(raws, events, places) && 0 <= i < |raws| && Mine(raws[i])
    ensures 0 <= k < |places| && places[k] == i && Copied(raws[i], events[k])
  {
    assert i in places;
    k :| 0 <= k < |places| && places[k] == i;
  }

  lemma LastIsLast(raws: seq<Raw>, events: seq<Record>, places: seq<nat>, table: nat, row: nat, k: int)
    requires Selected(raws, events, places) && (table == KEYS || table == LOOKUPS) && 0 <= k < |events|
    ensures IsLast(events, table, row, k) <==> LastFor(raws, table, row, places[k])
    ensures IsLastValid(events, table, row, k) <==> LastApplying(raws, table, row, places[k])
  {
    forall j | 0 <= j < |events|
      ensures k < j <==> Before(raws, places[k], places[j])
    {
      OrderIsBefore(raws, events, places, k, j);
    }
    forall i | 0 <= i < |raws| && For(raws[i], table, row)
      ensures exists j :: 0 <= j < |places| && places[j] == i
    {
      var _ := PlaceOf(raws, events, places, i);
    }
  }

  lemma CachedKeyIsRetained(raws: seq<Raw>, events: seq<Record>, places: seq<nat>)
    requires Selected(raws, events, places)
    ensures HoldsCachedKey(raws) <==> RetainsCached(events)
  {
    if i :| 0 <= i < |raws| && raws[i].table == KEYS && raws[i].push == -1 && Applies(raws[i]) {
      var k := PlaceOf(raws, events, places, i);
      assert events[k] in events;
    }
    if e :| e in events && e.table == TACT_KEY && e.push == -1 && Valid(e) {
      var k :| 0 <= k < |events| && events[k] == e;
      assert Copied(raws[places[k]], events[k]);
    }
  }

  lemma NamedIsNameIs(raws: seq<Raw>, events: seq<Record>, places: seq<nat>, base: map<nat, string>, row: nat, text: string)
    requires Selected(raws, events, places)
    ensures Named(raws, base, row, text) <==> NameIs(events, base, row, text)
  {
    if i :| LastFor(raws, LOOKUPS, row, i) && Applies(raws[i]) && text == HexNumber(Le(raws[i].payload), 16) {
      var k := PlaceOf(raws, events, places, i);
      LastIsLast(raws, events, places, LOOKUPS, row, k);
    }
    if k :| IsLast(events, TACT_LOOKUP, row, k) && Valid(events[k]) && text == NameText(events[k].payload) {
      LastIsLast(raws, events, places, LOOKUPS, row, k);
      assert Copied(raws[places[k]], events[k]);
    }
    NoneForRow(raws, events, places, row);
  }

  lemma NoneForRow(raws: seq<Raw>, events: seq<Record>, places: seq<nat>, row: nat)
    requires Selected(raws, events, places)
    ensures (forall i :: 0 <= i < |raws| ==> !For(raws[i], LOOKUPS, row)) <==>
            forall e <- events :: !(e.table == TACT_LOOKUP && e.row == row)
  {
    if i :| 0 <= i < |raws| && For(raws[i], LOOKUPS, row) {
      var k := PlaceOf(raws, events, places, i);
      assert events[k] in events;
    }
    if e :| e in events && e.table == TACT_LOOKUP && e.row == row {
      var k :| 0 <= k < |events| && events[k] == e;
      assert Copied(raws[places[k]], events[k]);
    }
  }

  lemma KeyedIsKeyIs(raws: seq<Raw>, events: seq<Record>, places: seq<nat>, row: nat, text: string)
    requires Selected(raws, events, places)
    ensures Keyed(raws, row, text) <==> KeyIs(events, RetainsCached(events), row, text)
  {
    CachedKeyIsRetained(raws, events, places);
    if Keyed(raws, row, text) {
      var i :| 0 <= i < |raws| && text == HexBytes(raws[i].payload)
        && if HoldsCachedKey(raws) then LastApplying(raws, KEYS, row, i) else LastFor(raws, KEYS, row, i) && Applies(raws[i]);
      var k := PlaceOf(raws, events, places, i);
      LastIsLast(raws, events, places, KEYS, row, k);
    }
    forall k | 0 <= k < |events|
      ensures IsLast(events, TACT_KEY, row, k) <==> LastFor(raws, KEYS, row, places[k])
      ensures IsLastValid(events, TACT_KEY, row, k) <==> LastApplying(raws, KEYS, row, places[k])
      ensures Copied(raws[places[k]], events[k])
    {
      LastIsLast(raws, events, places, KEYS, row, k);
    }
  }

  lemma InvalidatedIsRemoved(raws: seq<Raw>, events: seq<Record>, places: seq<nat>, row: nat, j: int, k: int)
    requires Selected(raws, events, places) && 0 <= j < |events| && 0 <= k < |events|
    ensures Invalidated(events, row, j, k) <==> RemovedBetween(raws, row, places[j], places[k])
  {
    if x :| 0 <= j < x < k <= |events| && IsKeyOf(events[x], row) && !Valid(events[x]) {
      OrderIsBefore(raws, events, places, j, x);
      OrderIsBefore(raws, events, places, x, k);
      assert Copied(raws[places[x]], events[x]);
    }
    if i :| 0 <= i < |raws| && For(raws[i], KEYS, row) && !Applies(raws[i])
            && Before(raws, places[j], i) && Before(raws, i, places[k]) {
      var x := PlaceOf(raws, events, places, i);
      OrderIsBefore(raws, events, places, j, x);
      OrderIsBefore(raws, events, places, x, k);
    }
  }

  lemma InsertedIsInsertedAt(raws: seq<Raw>, events: seq<Record>, places: seq<nat>, row: nat, k: int)
    requires Selected(raws, events, places) && 0 <= k < |events|
    ensures InsertedAt(events, RetainsCached(events), row, k) <==> Inserted(raws, row, places[k])
  {
    CachedKeyIsRetained(raws, events, places);
    forall j | 0 <= j < |events|
      ensures j < k <==> Before(raws, places[j], places[k])
      ensures Invalidated(events, row, j, k) <==> RemovedBetween(raws, row, places[j], places[k])
      ensures Copied(raws[places[j]], events[j])
    {
      OrderIsBefore(raws, events, places, j, k);
      InvalidatedIsRemoved(raws, events, places, row, j, k);
    }
    forall i | 0 <= i < |raws| && For(raws[i], KEYS, row)
      ensures exists j :: 0 <= j < |places| && places[j] == i
    {
      var _ := PlaceOf(raws, events, places, i);
    }
  }

  lemma EarlierIsInsertedBefore(raws: seq<Raw>, events: seq<Record>, places: seq<nat>, other: nat, row: nat)
    requires Selected(raws, events, places)
    ensures Earlier(raws, other, row) <==> InsertedBefore(events, RetainsCached(events), other, row)
  {
    if i, j :| Inserted(raws, other, i) && Inserted(raws, row, j) && Before(raws, i, j) {
      var k := PlaceOf(raws, events, places, i);
      var l := PlaceOf(raws, events, places, j);
      InsertedIsInsertedAt(raws, events, places, other, k);
      InsertedIsInsertedAt(raws, events, places, row, l);
      OrderIsBefore(raws, events, places, k, l);
    }
    if k, l :| k < l && InsertedAt(events, RetainsCached(events), other, k) && InsertedAt(events, RetainsCached(events), row, l) {
      InsertedIsInsertedAt(raws, events, places, other, k);
      InsertedIsInsertedAt(raws, events, places, row, l);
      OrderIsBefore(raws, events, places, k, l);
    }
  }

  lemma LastOfNameIsLastKeyOf(raws: seq<Raw>, events: seq<Record>, places: seq<nat>, base: map<nat, string>,
                              row: nat, name: string, text: string)
    requires Selected(raws, events, places)
    ensures LastOfName(raws, base, row, name, text) <==> LastKeyOf(events, base, RetainsCached(events), row, name, text)
  {
    NamedIsNameIs(raws, events, places, base, row, name);
    KeyedIsKeyIs(raws, events, places, row, text);
    forall other, t
      ensures Named(raws, base, other, name) <==> NameIs(events, base, other, name)
      ensures Keyed(raws, other, t) <==> KeyIs(events, RetainsCached(events), other, t)
      ensures Earlier(raws, other, row) <==> InsertedBefore(events, RetainsCached(events), other, row)
    {
      NamedIsNameIs(raws, events, places, base, other, name);
      KeyedIsKeyIs(raws, events, places, other, t);
      EarlierIsInsertedBefore(raws, events, places, other, row);
    }
  }

  lemma SelectedAreTwoTables(raws: seq<Raw>, events: seq<Record>, places: seq<nat>)
    requires Selected(raws, events, places)
    ensures TwoTables(events)
    ensures (exists e <- events :: BadSize(e)) <==> exists i :: 0 <= i < |raws| && WrongSize(raws[i])
  {
    forall e | e in events
      ensures e.table == TACT_KEY || e.table == TACT_LOOKUP
      ensures BadSize(e) ==> exists i :: 0 <= i < |raws| && WrongSize(raws[i])
    {
      var k :| 0 <= k < |events| && events[k] == e;
      assert Copied(raws[places[k]], events[k]) && (BadSize(e) ==> WrongSize(raws[places[k]]));
    }
    if i :| 0 <= i < |raws| && WrongSize(raws[i]) {
      var k := PlaceOf(raws, events, places, i);
      assert events[k] in events;
    }
  }

  /** The row has a key, and no name. */
  ghost predicate Nameless(raws: seq<Raw>, base: map<nat, string>, row: nat) {
    (exists t :: Keyed(raws, row, t)) && !exists n :: Named(raws, base, row, n)
  }

  ghost predicate Matches(raws: seq<Raw>, base: map<nat, string>, name: string, text: string) {
    exists row :: LastOfName(raws, base, row, name, text)
  }

  lemma HarvestOfSelected(raws: seq<Raw>, events: seq<Record>, places: seq<nat>, base: map<nat, string>,
                          row: nat, name: string, text: string)
    requires Selected(raws, events, places) && Harvested(events, base).Some?
    ensures var (matched, unmatched) := Harvested(events, base).value;
            && (row in unmatched <==> Nameless(raws, base, row))
            && (name in matched && matched[name] == text <==> Matches(raws, base, name, text))
  {
    SelectedAreTwoTables(raws, events, places);
    HarvestIsTheJoinOfLastEvents(events, base, row, name, text);
    RowsAgree(raws, events, places, base, row);
    NamesAgree(raws, events, places, base, name, text);
  }

  /**
    A cache file harvests exactly when no applying record has the wrong size. A row is unmatched
    exactly when it has a key and no name, by the records that apply last. A name is matched to a
    key exactly when it is that of the row, among the key rows of the name, put there last.
   */
  lemma HarvestOfFile(raws: seq<Raw>, base: map<nat, string>, row: nat, name: string, text: string)
    ensures var harvested := Harvested(StableSort(Kept(raws)), base);
            && (harvested.None? <==> exists i :: 0 <= i < |raws| && WrongSize(raws[i]))
            && (harvested.Some? ==>
                  && (row in harvested.value.1 <==> Nameless(raws, base, row))
                  && (name in harvested.value.0 && harvested.value.0[name] == text <==> Matches(raws, base, name, text)))
  {
    var events := StableSort(Kept(raws));
    var places := SortedKeptIsSelected(raws);
    SelectedAreTwoTables(raws, events, places);
    if Harvested(events, base).Some? {
      HarvestOfSelected(raws, events, places, base, row, name, text);
    }
  }

  lemma RowsAgree(raws: seq<Raw>, events: seq<Record>, places: seq<nat>, base: map<nat, string>, row: nat)
    requires Selected(raws, events, places)
    ensures (exists t :: Keyed(raws, row, t)) <==> exists t :: KeyIs(events, RetainsCached(events), row, t)
    ensures (exists n :: Named(raws, base, row, n)) <==> exists n :: NameIs(events, base, row, n)
  {
    forall t
      ensures Keyed(raws, row, t) <==> KeyIs(events, RetainsCached(events), row, t)
      ensures Named(raws, base, row, t) <==> NameIs(events, base, row, t)
    {
      KeyedIsKeyIs(raws, events, places, row, t);
      NamedIsNameIs(raws, events, places, base, row, t);
    }
  }

  lemma NamesAgree(raws: seq<Raw>, events: seq<Record>, places: seq<nat>, base: map<nat, string>, name: string, text: string)
    requires Selected(raws, events, places)
    ensures (exists r :: LastOfName(raws, base, r, name, text)) <==>
            exists r :: LastKeyOf(events, base, RetainsCached(events), r, name, text)
  {
    forall r
      ensures LastOfName(raws, base, r, name, text) <==> LastKeyOf(events, base, RetainsCached(events), r, name, text)
    {
      LastOfNameIsLastKeyOf(raws, events, places, base, r, name, text);
    }
  }

  ghost predicate RightSizes(raws: seq<Raw>) {
    forall i :: 0 <= i < |raws| ==> !WrongSize(raws[i])
  }

  lemma HarvestsRightSizes(raws: seq<Raw>, base: map<nat, string>)
    ensures Harvested(StableSort(Kept(raws)), base).Some? <==> RightSizes(raws)
  {
    HarvestOfFile(raws, base, 0, "", "");
  }

  lemma FirstBadIsThere(raws: seq<Raw>, events: seq<Record>, places: seq<nat>, k: int)
    requires Selected(raws, events, places) && FirstBad(events, k)
    ensures FirstWrongSize(raws, places[k]) && raws[places[k]].row == events[k].row
  {
    forall j | 0 <= j < |raws| && WrongSize(raws[j])
      ensures !Before(raws, j, places[k])
    {
      var l := PlaceOf(raws, events, places, j);
      OrderIsBefore(raws, events, places, l, k);
    }
    assert Copied(raws[places[k]], events[k]);
  }

  /** The row named in a size error is that of the wrong-sized record that would have applied first. */
  lemma FirstBadIsFirstWrongSize(raws: seq<Raw>, k: int)
    requires FirstBad(StableSort(Kept(raws)), k)
    ensures exists i :: FirstWrongSize(raws, i) && raws[i].row == StableSort(Kept(raws))[k].row
  {
    var places := SortedKeptIsSelected(raws);
    FirstBadIsThere(raws, StableSort(Kept(raws)), places, k);
  }

  /** A harvest fails exactly on a wrong size, and names the row of the one that would have applied first. */
  lemma HarvestFailsExactlyWhen(raws: seq<Raw>, base: map<nat, string>, r: Result<(map<string, string>, seq<nat>), Error>)
    requires HarvestOk(StableSort(Kept(raws)), base, r)
    ensures r.Err? <==> exists i :: 0 <= i < |raws| && WrongSize(raws[i])
    ensures r.Err? ==> exists i :: FirstWrongSize(raws, i) && r == Err(BadPayloadSize(raws[i].row))
  {
    HarvestOfFile(raws, base, 0, "", "");
    if r.Err? {
      var events := StableSort(Kept(raws));
      var k :| FirstBad(events, k) && r == Err(BadPayloadSize(events[k].row));
      FirstBadIsFirstWrongSize(raws, k);
    }
  }

  /** Otherwise it lists the unmatched rows in ascending order and the matched names with their keys. */
  lemma HarvestListsExactly(raws: seq<Raw>, base: map<nat, string>, matched: map<string, string>, unmatched: seq<nat>,
                            row: nat, name: string, text: string)
    requires HarvestOk(StableSort(Kept(raws)), base, Ok((matched, unmatched)))
    ensures forall i, j :: 0 <= i < j < |unmatched| ==> unmatched[i] < unmatched[j]
    ensures row in unmatched <==> Nameless(raws, base, row)
    ensures name in matched && matched[name] == text <==> Matches(raws, base, name, text)
  {
    HarvestOfFile(raws, base, row, name, text);
  }
}
