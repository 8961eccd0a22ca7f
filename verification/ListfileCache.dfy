/** Community database built from the source listfile, and the local store of remembered rows. */
module ListfileCache {
  import opened Wrappers
  import opened ListfileTable
  import opened SqliteCalls
  import opened DecimalText

  datatype Row = Row(fdid: nat, path: string)

  /** Why an operation failed; only a missing source is recognised by callers. */
  datatype Failure = MissingSource | Other

  // ----- lines of the source listfile

  function SplitOnce(line: string, sep: char): (r: Option<(string, string)>)
    ensures r.None? <==> sep !in line
    ensures r.Some? ==> line == r.value.0 + [sep] + r.value.1 && sep !in r.value.0
  {
    if line == "" then None
    else if line[0] == sep then Some(("", line[1..]))
    else match SplitOnce(line[1..], sep)
      case None => None
      case Some(halves) => Some(([line[0]] + halves.0, halves.1))
  }

  const LIMIT: nat := 0x1_0000_0000

  /** Digit by digit; a value that leaves 32 bits fails even if the digits go on. */
  function Digits(s: string, value: nat): Option<nat>
    decreases |s|
  {
    if s == "" then Some(value)
    else if !('0' <= s[0] <= '9') then None
    else
      var next := 10 * value + (s[0] as int - '0' as int);
      if next >= LIMIT then None else Digits(s[1..], next)
  }

  /** str::parse::<u32>: one leading plus is accepted, a minus never is. */
  function ParseU32(s: string): Option<nat> {
    var digits := if s != "" && s[0] == '+' then s[1..] else s;
    if digits == "" then None else Digits(digits, 0)
  }

  function ParseLine(line: string): Option<Row> {
    match SplitOnce(line, ';')
    case None => None
    case Some(halves) =>
      match ParseU32(halves.0)
      case None => None
      case Some(fdid) => Some(Row(fdid, halves.1))
  }

  // ----- which lines give which rows

  function Zeros(k: nat): (s: string)
    ensures |s| == k
  {
    seq(k, _ => '0')
  }

  function Spelling(plus: bool, k: nat, n: nat): string {
    (if plus then "+" else "") + (Zeros(k) + Decimal(n))
  }

  /** Decimal digits of n, with any leading zeros and perhaps one plus before them. */
  ghost predicate Spells(text: string, n: nat) {
    exists k: nat, plus: bool :: text == Spelling(plus, k, n)
  }

  /** The line is a number of 32 bits, a semicolon and the path. */
  ghost predicate Gives(line: string, row: Row) {
    && row.fdid < 0x1_0000_0000
    && exists text :: Spells(text, row.fdid) && line == text + ";" + row.path
  }

  lemma {:induction false} DigitsAppend(s: string, c: char, value: nat)
    ensures Digits(s + [c], value) ==
            var front := Digits(s, value);
            if front.None? || !('0' <= c <= '9') || 10 * front.value + (c as int - '0' as int) >= LIMIT then None
            else Some(10 * front.value + (c as int - '0' as int))
  {
    if s == "" {
      assert s + [c] == [c];
    } else {
      assert (s + [c])[0] == s[0] && (s + [c])[1..] == s[1..] + [c];
      if '0' <= s[0] <= '9' && 10 * value + (s[0] as int - '0' as int) < LIMIT {
        DigitsAppend(s[1..], c, 10 * value + (s[0] as int - '0' as int));
      }
    }
  }

  lemma {:induction false} ZerosParse(k: nat)
    ensures Digits(Zeros(k), 0) == Some(0)
  {
    if k > 0 {
      ZerosParse(k - 1);
      assert Zeros(k) == Zeros(k - 1) + ['0'];
      DigitsAppend(Zeros(k - 1), '0', 0);
    }
  }

  lemma {:induction false} DecimalParses(k: nat, n: nat)
    requires n < LIMIT
    ensures Digits(Zeros(k) + Decimal(n), 0) == Some(n)
    decreases n
  {
    if n < 10 {
      ZerosParse(k);
      DigitsAppend(Zeros(k), Digit(n), 0);
    } else {
      DecimalParses(k, n / 10);
      DigitsAppend(Zeros(k) + Decimal(n / 10), Digit(n % 10), 0);
      assert Zeros(k) + Decimal(n) == Zeros(k) + Decimal(n / 10) + [Digit(n % 10)];
    }
  }

  lemma {:induction false} ParsedIsDecimal(s: string) returns (k: nat)
    requires s != "" && Digits(s, 0).Some?
    ensures Digits(s, 0).value < LIMIT && s == Zeros(k) + Decimal(Digits(s, 0).value)
  {
    var front, c := s[..|s| - 1], s[|s| - 1];
    assert s == front + [c];
    DigitsAppend(front, c, 0);
    var d := c as int - '0' as int;
    assert c == Digit(d);
    if front == "" {
      k := 0;
    } else {
      k := ParsedIsDecimal(front);
      if Digits(front, 0).value == 0 {
        k := k + 1;
        assert front == Zeros(k);
      }
    }
  }

  /** A text parses to n exactly when it spells n and n has 32 bits. */
  lemma ParsesExactlyWhenSpelled(text: string, n: nat)
    ensures ParseU32(text) == Some(n) <==> n < 0x1_0000_0000 && Spells(text, n)
  {
    var digits := if text != "" && text[0] == '+' then text[1..] else text;
    if ParseU32(text) == Some(n) {
      var k := ParsedIsDecimal(digits);
      assert text == Spelling(text[0] == '+', k, n);
    }
    if n < 0x1_0000_0000 && Spells(text, n) {
      var k: nat, plus: bool :| text == Spelling(plus, k, n);
      SpellingStripped(plus, k, n);
      DecimalParses(k, n);
    }
  }

  lemma SpellingStripped(plus: bool, k: nat, n: nat)
    ensures var text := Spelling(plus, k, n);
            text != "" && (if text[0] == '+' then text[1..] else text) == Zeros(k) + Decimal(n)
  {
    var spelled := Zeros(k) + Decimal(n);
    assert spelled[0] == if k > 0 then '0' else Decimal(n)[0];
    if plus {
      assert Spelling(plus, k, n)[1..] == spelled;
    } else {
      assert Spelling(plus, k, n) == spelled;
    }
  }

  lemma SpelledHasNoSemicolon(text: string, n: nat)
    requires Spells(text, n)
    ensures ';' !in text
  {
    var k: nat, plus: bool :| text == Spelling(plus, k, n);
    var digits := Zeros(k) + Decimal(n);
    forall i | 0 <= i < |text|
      ensures text[i] != ';'
    {
      var j := if plus then i - 1 else i;
      assert j >= 0 ==> text[i] == digits[j];
    }
  }

  lemma {:induction false} FirstSemicolonSplits(a: string, b: string)
    requires ';' !in a
    ensures SplitOnce(a + ";" + b, ';') == Some((a, b))
  {
    if a == "" {
      assert ("" + ";" + b)[1..] == b;
    } else {
      assert (a + ";" + b)[1..] == a[1..] + ";" + b;
      assert forall c <- a[1..] :: c in a;
      FirstSemicolonSplits(a[1..], b);
      assert [a[0]] + a[1..] == a;
    }
  }

  /** A line parses to a row exactly when it gives it. */
  lemma LineParsesExactlyWhen(line: string, row: Row)
    ensures ParseLine(line) == Some(row) <==> Gives(line, row)
  {
    if ParseLine(line) == Some(row) {
      var text := SplitOnce(line, ';').value.0;
      ParsesExactlyWhenSpelled(text, row.fdid);
      assert line == text + ";" + row.path;
    }
    if Gives(line, row) {
      var text :| Spells(text, row.fdid) && line == text + ";" + row.path;
      SpelledHasNoSemicolon(text, row.fdid);
      FirstSemicolonSplits(text, row.path);
      ParsesExactlyWhenSpelled(text, row.fdid);
    }
  }

  ghost predicate GivesSome(line: string) {
    exists row :: Gives(line, row)
  }

  lemma ParsesWhereGiven(line: string)
    ensures ParseLine(line).Some? <==> GivesSome(line)
  {
    if ParseLine(line).Some? {
      LineParsesExactlyWhen(line, ParseLine(line).value);
    }
    if row :| Gives(line, row) {
      LineParsesExactlyWhen(line, row);
    }
  }

  function Parsed(lines: seq<string>): (rows: seq<Option<Row>>)
    ensures |rows| == |lines|
    ensures forall k :: 0 <= k < |lines| ==> rows[k] == ParseLine(lines[k])
  {
    seq(|lines|, k requires 0 <= k < |lines| => ParseLine(lines[k]))
  }

  /** The rows inserted one after the other; None is a line that was skipped. */
  function Inserted(rows: seq<Option<Row>>): Table {
    if rows == [] then map[]
    else
      var before, last := Inserted(rows[..|rows| - 1]), rows[|rows| - 1];
      if last.None? then before else Upsert(before, last.value.fdid, last.value.path)
  }

  function Imported(lines: seq<string>): Table {
    Inserted(Parsed(lines))
  }

  lemma ImportedGrows(lines: seq<string>, line: string)
    ensures Imported(lines + [line]) ==
            if ParseLine(line).None? then Imported(lines)
            else Upsert(Imported(lines), ParseLine(line).value.fdid, ParseLine(line).value.path)
  {
    assert Parsed(lines + [line])[..|lines|] == Parsed(lines);
  }

  predicate SharesAKey(a: Row, b: Row) {
    a.fdid == b.fdid || Lower(a.path) == Lower(b.path)
  }

  /** Row k is this one, and no later one claims either of its keys. */
  ghost predicate LastClaim(rows: seq<Option<Row>>, k: int, row: Row) {
    && 0 <= k < |rows|
    && rows[k] == Some(row)
    && forall j :: k < j < |rows| && rows[j].Some? ==> !SharesAKey(rows[j].value, row)
  }

  ghost predicate Claimed(rows: seq<Option<Row>>, row: Row) {
    exists k :: LastClaim(rows, k, row)
  }

  lemma ClaimGrows(rows: seq<Option<Row>>, last: Option<Row>, row: Row)
    ensures Claimed(rows + [last], row) <==>
            last == Some(row) || (Claimed(rows, row) && (last.None? || !SharesAKey(last.value, row)))
  {
    var all, n := rows + [last], |rows|;
    if k :| LastClaim(all, k, row) && k < n {
      assert all[n] == last && forall j :: 0 <= j < n ==> rows[j] == all[j];
      assert LastClaim(rows, k, row);
    }
    if last == Some(row) {
      assert LastClaim(all, n, row);
    } else if Claimed(rows, row) && (last.None? || !SharesAKey(last.value, row)) {
      var k :| LastClaim(rows, k, row);
      assert LastClaim(all, k, row);
    }
  }

  lemma {:induction false} InsertedIsLastClaims(rows: seq<Option<Row>>, row: Row)
    ensures (row.fdid in Inserted(rows) && Inserted(rows)[row.fdid] == row.path) <==> Claimed(rows, row)
  {
    if rows == [] {
    } else {
      var before, last := rows[..|rows| - 1], rows[|rows| - 1];
      InsertedIsLastClaims(before, row);
      ClaimGrows(before, last, row);
      assert rows == before + [last];
    }
  }

  /** Line k gives the row, and no later line gives one with its id or with its path in any case mix. */
  ghost predicate LastToGive(lines: seq<string>, k: int, row: Row) {
    && 0 <= k < |lines| && Gives(lines[k], row)
    && forall j, other :: k < j < |lines| && Gives(lines[j], other) ==>
         other.fdid != row.fdid && !SameUpToCase(other.path, row.path)
  }

  lemma LastClaimIsLastToGive(lines: seq<string>, k: int, row: Row)
    ensures LastClaim(Parsed(lines), k, row) <==> LastToGive(lines, k, row)
  {
    var rows := Parsed(lines);
    if 0 <= k < |lines| {
      LineParsesExactlyWhen(lines[k], row);
      forall j, other | k < j < |lines|
        ensures rows[j] == Some(other) <==> Gives(lines[j], other)
        ensures SharesAKey(other, row) <==> other.fdid == row.fdid || SameUpToCase(other.path, row.path)
      {
        LineParsesExactlyWhen(lines[j], other);
        LowerFoldsCase(other.path, row.path);
      }
    }
  }

  /**
   * The import loop over INSERT OR REPLACE keeps a row exactly when some line gives it and
   * no later line gives a row with its id or with its path in any case mix.
   */
  lemma ImportedIsLastClaims(lines: seq<string>, row: Row)
    ensures (row.fdid in Imported(lines) && Imported(lines)[row.fdid] == row.path) <==> exists k :: LastToGive(lines, k, row)
  {
    InsertedIsLastClaims(Parsed(lines), row);
    if Claimed(Parsed(lines), row) {
      var k :| LastClaim(Parsed(lines), k, row);
      LastClaimIsLastToGive(lines, k, row);
    }
    if k :| LastToGive(lines, k, row) {
      LastClaimIsLastToGive(lines, k, row);
    }
  }

  // ----- the community database

  datatype Stamp = Stamp(path: string, mtime: int)

  /** None: the table does not exist. */
  datatype Database = Database(entries: Option<Table>, stamps: Option<seq<Stamp>>)

  /** What one call sees of the source file; None stands for a failing system call. */
  datatype Source =
    | Absent
    | Source(path: string, checkedMtime: Option<int>, lines: Option<seq<Option<string>>>, recordedMtime: Option<int>)

  /** One open; queries and reopens: the queries before a rebuild and the read-only open after it work. */
  datatype Visit = Visit(source: Source, sqlite: Sqlite, queries: bool, reopens: bool)

  predicate Readable(lines: Option<seq<Option<string>>>) {
    lines.Some? && forall k :: 0 <= k < |lines.value| ==> lines.value[k].Some?
  }

  function Texts(lines: seq<Option<string>>): (texts: seq<string>)
    requires Readable(Some(lines))
    ensures |texts| == |lines|
    ensures forall k :: 0 <= k < |lines| ==> texts[k] == lines[k].value
  {
    seq(|lines|, k requires 0 <= k < |lines| => lines[k].value)
  }

  predicate HasEntries(db: Database) {
    db.entries.Some? && db.entries.value != map[]
  }

  /** The stamp decides; a missing or empty metadata table is stale, not an error. */
  function IsFresh(db: Database, path: string, mtime: Option<int>): Result<bool, Failure> {
    if db.stamps.None? || db.stamps.value == [] || db.stamps.value[0].path != path then Ok(false)
    else if mtime.None? then Err(Other)
    else Ok(db.stamps.value[0].mtime == mtime.value)
  }

  predicate Accepted(lines: seq<string>, refused: set<nat>) {
    forall k :: 0 <= k < |lines| && ParseLine(lines[k]).Some? ==> k !in refused
  }

  predicate Imports(visit: Visit) {
    && visit.source.Source? && visit.sqlite.begins && visit.sqlite.prepares && Readable(visit.source.lines)
    && Accepted(Texts(visit.source.lines.value), visit.sqlite.refused)
  }

  predicate Rebuilds(visit: Visit) {
    Imports(visit) && visit.source.recordedMtime.Some? && visit.sqlite.records && visit.sqlite.commits
  }

  function Rows(source: Source): Table
    requires source.Source? && Readable(source.lines)
  {
    Imported(Texts(source.lines.value))
  }

  function Rebuilt(visit: Visit): Database
    requires Rebuilds(visit)
  {
    Database(Some(Rows(visit.source)), Some([Stamp(visit.source.path, visit.source.recordedMtime.value)]))
  }

  /** The whole effect of opening the community cache on the committed database. */
  function Ensured(db: Database, visit: Visit): (Result<(), Failure>, Database) {
    if !visit.sqlite.opens || !visit.queries then (Err(Other), db)
    else if visit.source.Absent? then
      (if HasEntries(db) then Ok(()) else Err(MissingSource), db)
    else
      var current := IsFresh(db, visit.source.path, visit.source.checkedMtime);
      if current.Err? then (Err(current.error), db)
      else if current.value then (Ok(()), db)
      else if !Rebuilds(visit) then (Err(Other), db)
      else (Ok(()), Rebuilt(visit))
  }

  /** The first stamp is for the source as it was found. */
  predicate StampMatches(db: Database, path: string, mtime: Option<int>) {
    db.stamps.Some? && |db.stamps.value| > 0 && mtime.Some? && db.stamps.value[0] == Stamp(path, mtime.value)
  }

  /** Every call of a rebuild works: no line that gives a row is unreadable or refused. */
  ghost predicate RebuildWorks(visit: Visit) {
    && visit.source.Source?
    && visit.sqlite.begins && visit.sqlite.prepares && visit.sqlite.records && visit.sqlite.commits
    && visit.source.recordedMtime.Some? && visit.source.lines.Some?
    && (forall k :: 0 <= k < |visit.source.lines.value| ==> visit.source.lines.value[k].Some?)
    && forall k :: 0 <= k < |visit.source.lines.value| && GivesSome(visit.source.lines.value[k].value) ==>
         k !in visit.sqlite.refused
  }

  lemma RebuildsExactlyWhen(visit: Visit)
    ensures Rebuilds(visit) <==> RebuildWorks(visit)
  {
    if visit.source.Source? && Readable(visit.source.lines) {
      forall line: string
        ensures ParseLine(line).Some? <==> GivesSome(line)
      {
        ParsesWhereGiven(line);
      }
    }
  }

  /**
   * Opening succeeds exactly when the database can be asked and: without a source it holds some row;
   * with one it is stamped for it, or the source can be told from the stamp and rebuilding works. Only
   * a rebuild changes it: to the rows the lines give and the stamp read last.
   */
  lemma OpensExactlyWhen(db: Database, visit: Visit)
    ensures var source := visit.source;
            Ensured(db, visit).0.Ok? <==>
            && visit.sqlite.opens && visit.queries
            && match source
               case Absent => db.entries.Some? && exists f :: f in db.entries.value
               case Source(path, checked, _, _) =>
                 || StampMatches(db, path, checked)
                 || (RebuildWorks(visit) &&
                     (checked.Some? || db.stamps.None? || db.stamps.value == [] || db.stamps.value[0].path != path))
    ensures var (r, after) := Ensured(db, visit);
            after == if r.Ok? && visit.source.Source? && !StampMatches(db, visit.source.path, visit.source.checkedMtime)
                        && RebuildWorks(visit)
                     then Database(Some(Imported(LinesOf(visit.source))), Some([Stamp(visit.source.path, RecordedOf(visit.source))]))
                     else db
    ensures visit.sqlite.opens && visit.queries && visit.source.Absent? ==>
              (Ensured(db, visit).0 == Err(MissingSource) <==> db.entries.None? || db.entries.value == map[])
  {
    RebuildsExactlyWhen(visit);
    if db.entries.Some? && db.entries.value != map[] {
      var f :| f in db.entries.value;
    }
  }

  function LinesOf(source: Source): seq<string> {
    if source.Source? && Readable(source.lines) then Texts(source.lines.value) else []
  }

  function RecordedOf(source: Source): int {
    if source.Source? && source.recordedMtime.Some? then source.recordedMtime.value else 0
  }

  class CommunityDatabase {
    var committed: Database
    /** What the open transaction would commit; dropping the connection forgets it. */
    var pending: Database

    constructor (db: Database)
      ensures committed == db
    {
      committed, pending := db, db;
    }

    method InitCacheSchema(sqlite: Sqlite) returns (r: Result<(), Failure>)
      modifies this`pending
      ensures r == if sqlite.begins then Ok(()) else Err(Other)
      ensures r.Ok? ==> pending == Database(Some(map[]), Some([]))
    {
      if !sqlite.begins {
        return Err(Other);
      }
      pending := Database(None, None);
      pending := Database(Some(map[]), Some([]));
      return Ok(());
    }

    method ImportRows(lines: Option<seq<Option<string>>>, sqlite: Sqlite) returns (r: Result<(), Failure>)
      requires pending.entries == Some(map[])
      modifies this`pending
      ensures r == if Readable(lines) && sqlite.prepares && Accepted(Texts(lines.value), sqlite.refused)
                   then Ok(()) else Err(Other)
      ensures r.Ok? ==> pending == old(pending).(entries := Some(Imported(Texts(lines.value))))
    {
      if lines.None? || !sqlite.prepares {
        return Err(Other);
      }
      ghost var read: seq<string> := [];
      var n := 0;
      while n < |lines.value|
        invariant n <= |lines.value|
        invariant |read| == n && forall k :: 0 <= k < n ==> lines.value[k] == Some(read[k])
        invariant Accepted(read, sqlite.refused)
        invariant pending == old(pending).(entries := Some(Imported(read)))
      {
        if lines.value[n].None? {
          return Err(Other);
        }
        var line := lines.value[n].value;
        var row := ParseLine(line);
        ImportedGrows(read, line);
        if row.Some? {
          if n in sqlite.refused {
            return Err(Other);
          }
          pending := pending.(entries := Some(Upsert(pending.entries.value, row.value.fdid, row.value.path)));
        }
        read := read + [line];
        n := n + 1;
      }
      assert read == Texts(lines.value);
      return Ok(());
    }

    method RecordMetadata(path: string, mtime: Option<int>, sqlite: Sqlite) returns (r: Result<(), Failure>)
      requires pending.stamps.Some?
      modifies this`pending
      ensures r == if mtime.Some? && sqlite.records then Ok(()) else Err(Other)
      ensures r.Ok? ==> pending == old(pending).(stamps := Some(old(pending).stamps.value + [Stamp(path, mtime.value)]))
    {
      if mtime.None? || !sqlite.records {
        return Err(Other);
      }
      pending := pending.(stamps := Some(pending.stamps.value + [Stamp(path, mtime.value)]));
      return Ok(());
    }

    method RebuildCache(visit: Visit) returns (r: Result<(), Failure>)
      requires visit.source.Source?
      modifies this
      ensures r == if Rebuilds(visit) then Ok(()) else Err(Other)
      ensures committed == if Rebuilds(visit) then Rebuilt(visit) else old(committed)
    {
      r := InitCacheSchema(visit.sqlite);
      if r.Err? {
        return;
      }
      r := ImportRows(visit.source.lines, visit.sqlite);
      if r.Err? {
        return;
      }
      r := RecordMetadata(visit.source.path, visit.source.recordedMtime, visit.sqlite);
      if r.Err? {
        return;
      }
      if !visit.sqlite.commits {
        return Err(Other);
      }
      var stamp := Stamp(visit.source.path, visit.source.recordedMtime.value);
      assert [] + [stamp] == [stamp];
      committed := pending;
      return Ok(());
    }

    method EnsureCache(visit: Visit) returns (r: Result<(), Failure>)
      modifies this
      ensures (r, committed) == Ensured(old(committed), visit)
    {
      if !visit.sqlite.opens {
        return Err(Other);
      }
      if visit.source.Absent? {
        if !visit.queries {
          return Err(Other);
        }
        if HasEntries(committed) {
          return Ok(());
        }
        return Err(MissingSource);
      }
      if !visit.queries {
        return Err(Other);
      }
      var current := IsFresh(committed, visit.source.path, visit.source.checkedMtime);
      if current.Err? {
        return Err(current.error);
      }
      if !current.value {
        r := RebuildCache(visit);
        return;
      }
      return Ok(());
    }
  }

  // ----- what opens serve

  function Opened(db: Database, visits: seq<Visit>): Database {
    if visits == [] then db
    else Ensured(Opened(db, visits[..|visits| - 1]), visits[|visits| - 1]).1
  }

  const EMPTY := Database(None, None)

  ghost predicate From(seen: iset<Visit>, visits: seq<Visit>) {
    forall k :: 0 <= k < |visits| ==> visits[k] in seen
  }

  /** After any opens out of seen, one that finds a readable source and succeeds serves that source's rows. */
  ghost predicate ServesItsOwnRows(seen: iset<Visit>) {
    forall visits: seq<Visit>, visit: Visit ::
      From(seen, visits) && visit in seen && visit.source.Source? && Readable(visit.source.lines) ==>
        Served(Opened(EMPTY, visits), visit)
  }

  predicate Served(before: Database, visit: Visit)
    requires visit.source.Source? && Readable(visit.source.lines)
  {
    var (r, db) := Ensured(before, visit);
    r.Ok? ==> db.entries == Some(Rows(visit.source))
  }

  /** A database is rebuilt during a; during b it may be found to have b's path and modification time. */
  predicate MayReuse(a: Visit, b: Visit) {
    && a.sqlite.opens && a.queries && Rebuilds(a)
    && b.sqlite.opens && b.queries && b.source.Source? && Readable(b.source.lines)
    && a.source.path == b.source.path && a.source.recordedMtime == b.source.checkedMtime
  }

  ghost predicate StampsIdentifyRows(seen: iset<Visit>) {
    forall a, b :: a in seen && b in seen && MayReuse(a, b) ==> Rows(a.source) == Rows(b.source)
  }

  /** The database is empty or what some visit rebuilt. */
  ghost predicate Built(seen: iset<Visit>, db: Database) {
    db == EMPTY || exists a :: a in seen && a.sqlite.opens && a.queries && Rebuilds(a) && db == Rebuilt(a)
  }

  lemma {:induction false} OpenedIsBuilt(seen: iset<Visit>, visits: seq<Visit>)
    requires From(seen, visits)
    ensures Built(seen, Opened(EMPTY, visits))
  {
    if visits != [] {
      var n := |visits| - 1;
      assert From(seen, visits[..n]);
      OpenedIsBuilt(seen, visits[..n]);
      assert visits[n] in seen;
    }
  }

  lemma BuiltServes(seen: iset<Visit>, db: Database, visit: Visit)
    requires StampsIdentifyRows(seen) && Built(seen, db) && visit in seen
    requires visit.source.Source? && Readable(visit.source.lines)
    ensures Served(db, visit)
  {
    if db != EMPTY && Ensured(db, visit).0.Ok? {
      var a :| a in seen && a.sqlite.opens && a.queries && Rebuilds(a) && db == Rebuilt(a);
      if a.source.path == visit.source.path && a.source.recordedMtime == visit.source.checkedMtime {
        assert MayReuse(a, visit);
      }
    }
  }

  /** Two opens suffice: the second skips the rebuild and serves what the first imported. */
  lemma SecondOpenServesTheFirst(a: Visit, b: Visit)
    requires MayReuse(a, b)
    ensures Ensured(Opened(EMPTY, [a]), b) == (Ok(()), Rebuilt(a))
  {
    assert [a][..0] == [];
    assert Opened(EMPTY, [a]) == Ensured(EMPTY, a).1;
  }

  /**
   * Starting from no database, every successful open serves exactly the rows its source holds during
   * it, in every sequence of opens, exactly when a recorded path and modification time that a later
   * open finds again always stand for the same rows: an edit between the import and the second stat,
   * or a second text within one whole second, breaks it.
   */
  lemma OpensServeTheSourceExactlyWhen(seen: iset<Visit>)
    ensures ServesItsOwnRows(seen) <==> StampsIdentifyRows(seen)
  {
    if StampsIdentifyRows(seen) {
      forall visits: seq<Visit>, visit: Visit |
        From(seen, visits) && visit in seen && visit.source.Source? && Readable(visit.source.lines)
        ensures Served(Opened(EMPTY, visits), visit)
      {
        OpenedIsBuilt(seen, visits);
        BuiltServes(seen, Opened(EMPTY, visits), visit);
      }
    } else {
      var a, b :| a in seen && b in seen && MayReuse(a, b) && Rows(a.source) != Rows(b.source);
      SecondOpenServesTheFirst(a, b);
      assert From(seen, [a]) && !Served(Opened(EMPTY, [a]), b);
    }
  }

  /** What a source held at each path and modification time. */
  type History = (string, int) -> seq<string>

  /** The source holds still during the visit, and its modification time identifies its lines. */
  ghost predicate Steady(source: Source, history: History) {
    source.Source? && Readable(source.lines) ==>
      && source.recordedMtime == source.checkedMtime
      && (source.checkedMtime.Some? ==> Texts(source.lines.value) == history(source.path, source.checkedMtime.value))
  }

  /** So sources that hold still during their visits are always served as they are. */
  lemma SteadySourcesAreServed(seen: iset<Visit>, history: History)
    requires forall v :: v in seen ==> Steady(v.source, history)
    ensures ServesItsOwnRows(seen)
  {
    forall a, b | a in seen && b in seen && MayReuse(a, b)
      ensures Rows(a.source) == Rows(b.source)
    {
      assert Steady(a.source, history) && Steady(b.source, history);
    }
    OpensServeTheSourceExactlyWhen(seen);
  }

  // ----- the local store

  /** None: the file or its table does not exist yet. */
  class LocalStore {
    var rows: Option<Table>

    constructor (rows: Option<Table>)
      ensures this.rows == rows
    {
      this.rows := rows;
    }

    /** One immediate transaction: either the whole upsert is committed or nothing is. */
    method Remember(fdid: nat, path: string, works: bool) returns (r: Result<(), Failure>)
      modifies this
      ensures r == if works then Ok(()) else Err(Other)
      ensures rows == if works then Some(Upsert(TableOf(old(rows)), fdid, path)) else old(rows)
    {
      if !works {
        return Err(Other);
      }
      if rows.None? {
        rows := Some(map[]);
      }
      rows := Some(Upsert(rows.value, fdid, path));
      return Ok(());
    }
  }

  function TableOf(rows: Option<Table>): Table {
    if rows.Some? then rows.value else map[]
  }
}
