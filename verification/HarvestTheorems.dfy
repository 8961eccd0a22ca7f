/** What a harvest means, and what it does not depend on. */
module HarvestTheorems {
  import opened Wrappers
  import opened LittleEndian
  import opened HexText
  import opened HotfixRecords
  import opened PushOrder
  import opened Harvest
  import opened HarvestOrder
  import opened LookupDb2

  /** Event i inserted row other before event j inserted row. */
  ghost predicate InsertedBefore(events: seq<Record>, retain: bool, other: nat, row: nat) {
    exists i, j :: i < j && InsertedAt(events, retain, other, i) && InsertedAt(events, retain, row, j)
  }

  /** row goes by the name and has the key, and every other key row of that name was inserted before it. */
  ghost predicate LastKeyOf(events: seq<Record>, base: map<nat, string>, retain: bool, row: nat, name: string, text: string) {
    && NameIs(events, base, row, name) && KeyIs(events, retain, row, text)
    && forall other, t :: NameIs(events, base, other, name) && KeyIs(events, retain, other, t) && other != row ==>
         InsertedBefore(events, retain, other, row)
  }

  /**
    The last applicable event decides both sides of the join. A key row is reported unmatched
    exactly when no name applies to it. A name is matched to a key exactly when that is the key
    of the row, among the key rows that go by the name, whose insertion into the dict is last.
   */
  lemma HarvestIsTheJoinOfLastEvents(events: seq<Record>, base: map<nat, string>, row: nat, name: string, text: string)
    requires TwoTables(events) && Harvested(events, base).Some?
    ensures var (matched, unmatched) := Harvested(events, base).value;
            var retain := RetainsCached(events);
            && (row in unmatched <==> (exists t :: KeyIs(events, retain, row, t)) && !exists n :: NameIs(events, base, row, n))
            && (name in matched && matched[name] == text <==> exists r :: LastKeyOf(events, base, retain, r, name, text))
  {
    var retain := RetainsCached(events);
    NamedExactly(events, base, row);
    KeyedExactly(events, retain, row);
    OrderListsKeys(events, retain);
    var matched := Harvested(events, base).value.0;
    if name in matched && matched[name] == text {
      var _ := MatchedHasLastKey(events, base, name);
    }
    if r :| LastKeyOf(events, base, retain, r, name, text) {
      LastKeyIsMatched(events, base, r, name, text);
    }
  }

  lemma MatchedHasLastKey(events: seq<Record>, base: map<nat, string>, name: string) returns (r: nat)
    requires TwoTables(events) && Harvested(events, base).Some? && name in Harvested(events, base).value.0
    ensures LastKeyOf(events, base, RetainsCached(events), r, name, Harvested(events, base).value.0[name])
  {
    var retain, text := RetainsCached(events), Harvested(events, base).value.0[name];
    var names, keys := NamesAfter(events, base), KeysAfter(events, retain);
    OrderListsKeys(events, retain);
    MatchedIsLastNamed(keys.order, keys.texts, names, name, text);
    var i :| LastNamed(keys.order, names, name, i) && keys.texts[keys.order[i]] == text;
    r := keys.order[i];
    NamesAreLastEvents(events, base, r, name);
    KeysAreLastEvents(events, retain, r, text);
    forall other, t | NameIs(events, base, other, name) && KeyIs(events, retain, other, t) && other != r
      ensures InsertedBefore(events, retain, other, r)
    {
      NamesAreLastEvents(events, base, other, name);
      KeysAreLastEvents(events, retain, other, t);
      var p :| 0 <= p < |keys.order| && keys.order[p] == other;
      PlacesAreInsertions(events, retain, p, i);
    }
  }

  /** An earlier place in the dict is an earlier insertion. */
  lemma PlacesAreInsertions(events: seq<Record>, retain: bool, p: int, q: int)
    requires 0 <= p < q < |KeysAfter(events, retain).order|
    ensures InsertedBefore(events, retain, KeysAfter(events, retain).order[p], KeysAfter(events, retain).order[q])
  {
    var order := KeysAfter(events, retain).order;
    OrderIsInsertionOrder(events, retain);
    OrderListsKeys(events, retain);
    IndexTellsPresence(events, retain, order[p]);
    IndexTellsPresence(events, retain, order[q]);
    IndexIsInsertion(events, retain, order[p]);
    IndexIsInsertion(events, retain, order[q]);
  }

  lemma LastKeyIsMatched(events: seq<Record>, base: map<nat, string>, r: nat, name: string, text: string)
    requires TwoTables(events) && Harvested(events, base).Some?
    requires LastKeyOf(events, base, RetainsCached(events), r, name, text)
    ensures var matched := Harvested(events, base).value.0; name in matched && matched[name] == text
  {
    var retain := RetainsCached(events);
    var matched := Harvested(events, base).value.0;
    NamesAreLastEvents(events, base, r, name);
    KeysAreLastEvents(events, retain, r, text);
    OrderListsKeys(events, retain);
    EveryKeyRowIsReportedOnce(events, base, r);
    var s := MatchedHasLastKey(events, base, name);
    KeysAreLastEvents(events, retain, s, matched[name]);
    InsertionsAreOrdered(events, retain, r, s);
    assert s == r;
  }

  lemma InsertionsAreOrdered(events: seq<Record>, retain: bool, r: nat, s: nat)
    ensures !(InsertedBefore(events, retain, r, s) && InsertedBefore(events, retain, s, r))
  {
    if i, j :| i < j && InsertedAt(events, retain, r, i) && InsertedAt(events, retain, s, j) {
      forall k, l | InsertedAt(events, retain, s, k) && InsertedAt(events, retain, r, l)
        ensures l < k
      {
        InsertionIsUnique(events, retain, r, i, l);
        InsertionIsUnique(events, retain, s, j, k);
      }
    }
  }

  lemma NamedExactly(events: seq<Record>, base: map<nat, string>, row: nat)
    requires TwoTables(events)
    ensures row in NamesAfter(events, base) <==> exists n :: NameIs(events, base, row, n)
  {
    var names := NamesAfter(events, base);
    if row in names {
      NamesAreLastEvents(events, base, row, names[row]);
    }
    if n :| NameIs(events, base, row, n) {
      NamesAreLastEvents(events, base, row, n);
    }
  }

  lemma KeyedExactly(events: seq<Record>, retain: bool, row: nat)
    ensures row in KeysAfter(events, retain).texts <==> exists t :: KeyIs(events, retain, row, t)
  {
    var texts := KeysAfter(events, retain).texts;
    if row in texts {
      KeysAreLastEvents(events, retain, row, texts[row]);
    }
    if t :| KeyIs(events, retain, row, t) {
      KeysAreLastEvents(events, retain, row, t);
    }
  }

  lemma SourceOfMatch(events: seq<Record>, base: map<nat, string>, name: string) returns (r: nat)
    requires TwoTables(events) && Harvested(events, base).Some? && name in Harvested(events, base).value.0
    ensures NameIs(events, base, r, name)
    ensures KeyIs(events, RetainsCached(events), r, Harvested(events, base).value.0[name])
  {
    var retain := RetainsCached(events);
    var names, keys := NamesAfter(events, base), KeysAfter(events, retain);
    var matched := Harvested(events, base).value.0;
    OrderListsKeys(events, retain);
    MatchedNames(keys.order, keys.texts, names, 0);
    r :| r in keys.order && r in names && names[r] == name && matched[name] == keys.texts[r];
    NamesAreLastEvents(events, base, r, name);
    KeysAreLastEvents(events, retain, r, matched[name]);
  }

  /** Every key row is reported once: unmatched, or under a name that is a key of the matched map. */
  lemma EveryKeyRowIsReportedOnce(events: seq<Record>, base: map<nat, string>, row: nat)
    requires TwoTables(events) && Harvested(events, base).Some?
    requires row in KeysAfter(events, RetainsCached(events)).texts
    ensures var (matched, unmatched) := Harvested(events, base).value;
            var names := NamesAfter(events, base);
            row !in unmatched <==> row in names && names[row] in matched
  {
    var keys := KeysAfter(events, RetainsCached(events));
    OrderListsKeys(events, RetainsCached(events));
    MatchedNames(keys.order, keys.texts, NamesAfter(events, base), row);
  }

  // ---------- Independence of interleaving ----------

  lemma {:induction false} NamesSeeOnlyLookups(events: seq<Record>, base: map<nat, string>)
    requires TwoTables(events)
    ensures NamesAfter(events, base) == NamesAfter(Select(events, OnTable(TACT_LOOKUP)), base)
  {
    if events != [] {
      var n := |events| - 1;
      NamesSeeOnlyLookups(events[..n], base);
      var front := Select(events[..n], OnTable(TACT_LOOKUP));
      assert (front + [events[n]])[..|front|] == front;
    }
  }

  lemma {:induction false} KeysSeeOnlyKeys(events: seq<Record>, retain: bool)
    ensures KeysAfter(events, retain) == KeysAfter(Select(events, OnTable(TACT_KEY)), retain)
  {
    if events != [] {
      var n := |events| - 1;
      KeysSeeOnlyKeys(events[..n], retain);
      var front := Select(events[..n], OnTable(TACT_KEY));
      assert (front + [events[n]])[..|front|] == front;
    }
  }

  /** Inside every push value, a and b have the same key records and the same lookup records in the same order. */
  ghost predicate SameSubsequences(a: seq<Record>, b: seq<Record>) {
    forall push, table :: table in {TACT_KEY, TACT_LOOKUP} ==>
      OfPush(Select(a, OnTable(table)), push) == OfPush(Select(b, OnTable(table)), push)
  }

  lemma SortedTablesAgree(a: seq<Record>, b: seq<Record>, table: nat)
    requires SameSubsequences(a, b) && table in {TACT_KEY, TACT_LOOKUP}
    ensures Select(StableSort(a), OnTable(table)) == Select(StableSort(b), OnTable(table))
  {
    SortSelect(a, OnTable(table));
    SortSelect(b, OnTable(table));
    SortForgetsInterleaving(Select(a, OnTable(table)), Select(b, OnTable(table)));
  }

  /** However pushes and tables are interleaved in the file, the harvest is the same, failures included. */
  lemma HarvestForgetsInterleaving(a: seq<Record>, b: seq<Record>, base: map<nat, string>)
    requires TwoTables(a) && TwoTables(b) && SameSubsequences(a, b)
    ensures Harvested(StableSort(a), base) == Harvested(StableSort(b), base)
  {
    var s, t := StableSort(a), StableSort(b);
    SortSorts(a);
    SortSorts(b);
    SortedTablesAgree(a, b, TACT_KEY);
    SortedTablesAgree(a, b, TACT_LOOKUP);
    SameMembers(s, t);
    assert RetainsCached(s) == RetainsCached(t);
    NamesSeeOnlyLookups(s, base);
    NamesSeeOnlyLookups(t, base);
    KeysSeeOnlyKeys(s, RetainsCached(s));
    KeysSeeOnlyKeys(t, RetainsCached(t));
  }

  lemma SameMembers(s: seq<Record>, t: seq<Record>)
    requires TwoTables(s) && TwoTables(t)
    requires Select(s, OnTable(TACT_KEY)) == Select(t, OnTable(TACT_KEY))
    requires Select(s, OnTable(TACT_LOOKUP)) == Select(t, OnTable(TACT_LOOKUP))
    ensures forall e :: e in s <==> e in t
  {
    SelectMembers(s, OnTable(TACT_KEY));
    SelectMembers(s, OnTable(TACT_LOOKUP));
    SelectMembers(t, OnTable(TACT_KEY));
    SelectMembers(t, OnTable(TACT_LOOKUP));
    forall e
      ensures e in s <==> e in t
    {
      var table := if e.table == TACT_KEY then TACT_KEY else TACT_LOOKUP;
      assert e in s ==> e in Select(s, OnTable(table));
      assert e in t ==> e in Select(t, OnTable(table));
    }
  }

  // ---------- The shape the key store needs ----------

  lemma ShapedNamesStayShaped(events: seq<Record>, base: map<nat, string>)
    requires TwoTables(events) && Harvested(events, base).Some?
    requires forall row <- base :: UpperHex(base[row], 16)
    ensures forall name <- Harvested(events, base).value.0 ::
              UpperHex(name, 16) && UpperHex(Harvested(events, base).value.0[name], 32)
  {
    var matched, retain := Harvested(events, base).value.0, RetainsCached(events);
    forall name | name in matched
      ensures UpperHex(name, 16) && UpperHex(matched[name], 32)
    {
      var r := SourceOfMatch(events, base, name);
      KeyShape(events, retain, r, matched[name]);
    }
  }

  lemma KeyShape(events: seq<Record>, retain: bool, row: nat, text: string)
    requires KeyIs(events, retain, row, text) && forall e <- events :: !BadSize(e)
    ensures UpperHex(text, 32)
  {
    if retain {
      var i :| IsLastValid(events, TACT_KEY, row, i) && text == HexBytes(events[i].payload);
      assert !BadSize(events[i]);
    } else {
      var i :| IsLast(events, TACT_KEY, row, i) && Valid(events[i]) && text == HexBytes(events[i].payload);
      assert !BadSize(events[i]);
    }
  }

  // ---------- The base lookup's shape ----------

  ghost predicate Shaped(rows: map<nat, string>) {
    forall row <- rows :: UpperHex(rows[row], 16)
  }

  lemma {:induction false} RowsKeepShape(rows: map<nat, string>, ids: seq<nat>, names: seq<nat>)
    requires Shaped(rows) && |ids| == |names|
    ensures Shaped(ApplyRows(rows, ids, names))
  {
    if ids != [] {
      RowsKeepShape(rows, ids[..|ids| - 1], names[..|ids| - 1]);
    }
  }

  lemma {:induction false} CopiesKeepShape(rows: map<nat, string>, copies: seq<(nat, nat)>)
    requires Shaped(rows)
    ensures ApplyCopies(rows, copies).Ok? ==> Shaped(ApplyCopies(rows, copies).value)
  {
    if copies != [] {
      CopiesKeepShape(rows, copies[..|copies| - 1]);
    }
  }

  lemma {:induction false} SectionsKeepShape(rows: map<nat, string>, decoded: seq<Decoding>)
    requires Shaped(rows)
    ensures ApplyAll(rows, decoded).Ok? ==> Shaped(ApplyAll(rows, decoded).value)
    decreases |decoded|
  {
    if decoded != [] && decoded[0].Ok? {
      var s := decoded[0].value;
      RowsKeepShape(rows, s.ids, s.names);
      CopiesKeepShape(ApplyRows(rows, s.ids, s.names), s.copies);
      if Applied(rows, decoded[0]).Ok? {
        SectionsKeepShape(Applied(rows, decoded[0]).value, decoded[1..]);
      }
    }
  }

  /** The base lookup of an import: none, or what read_lookup makes of a file. */
  function BaseOf(lookup: Option<Bytes>): Result<map<nat, string>, Error> {
    if lookup.None? then Ok(map[]) else ReadLookup(lookup.value)
  }

  lemma BaseIsShaped(lookup: Option<Bytes>)
    requires BaseOf(lookup).Ok?
    ensures Shaped(BaseOf(lookup).value)
  {
    if lookup.Some? {
      var layout := CheckLayout(lookup.value);
      assert Shaped(map[]);
      SectionsKeepShape(map[], Decodings(lookup.value, layout.value));
    }
  }

  /** Over either base the matched names are 16 and the keys 32 upper-case hex digits. */
  lemma HarvestHasStoreShape(events: seq<Record>, lookup: Option<Bytes>)
    requires TwoTables(events) && BaseOf(lookup).Ok? && Harvested(events, BaseOf(lookup).value).Some?
    ensures forall name <- Harvested(events, BaseOf(lookup).value).value.0 ::
              UpperHex(name, 16) && UpperHex(Harvested(events, BaseOf(lookup).value).value.0[name], 32)
  {
    BaseIsShaped(lookup);
    ShapedNamesStayShaped(events, BaseOf(lookup).value);
  }
}
