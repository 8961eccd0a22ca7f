/** merge_store: additive, conflict-rejecting merges into the text of a key store. */
module KeyStore {
  import opened Wrappers
  import opened LittleEndian
  import opened HexText
  import opened KeyStoreText

  // ---------- Order of names ----------

  predicate Less(a: string, b: string) {
    b != "" && (a == "" || a[0] < b[0] || (a[0] == b[0] && Less(a[1..], b[1..])))
  }

  lemma {:induction false} LessIsTotal(a: string, b: string)
    ensures Less(a, b) || Less(b, a) || a == b
    ensures !(Less(a, b) && Less(b, a)) && !(Less(a, b) && a == b)
  {
    if a != "" && b != "" {
      LessIsTotal(a[1..], b[1..]);
      assert a == [a[0]] + a[1..] && b == [b[0]] + b[1..];
    }
  }

  lemma {:induction false} LessIsTransitive(a: string, b: string, c: string)
    requires Less(a, b) && Less(b, c)
    ensures Less(a, c)
  {
    if a != "" && a[0] == b[0] == c[0] {
      LessIsTransitive(a[1..], b[1..], c[1..]);
    }
  }

  lemma Least(names: set<string>) returns (m: string)
    requires names != {}
    ensures m in names && forall x <- names :: x == m || Less(m, x)
    decreases |names|
  {
    m :| m in names;
    var others := names - {m};
    assert forall x <- names :: x == m || x in others;
    if others != {} {
      var rest := Least(others);
      LessIsTotal(m, rest);
      if Less(rest, m) {
        m := rest;
      } else {
        forall x | x in others && x != rest
          ensures Less(m, x)
        {
          LessIsTransitive(m, rest, x);
        }
      }
    }
  }

  ghost predicate SortedListing(added: seq<string>, names: set<string>) {
    && (forall i, j :: 0 <= i < j < |added| ==> Less(added[i], added[j]))
    && (forall name :: name in added <==> name in names)
  }

  /** sorted() on a set of names. */
  method SortedNames(names: set<string>) returns (added: seq<string>)
    ensures SortedListing(added, names)
  {
    added := [];
    var todo := names;
    while todo != {}
      invariant todo <= names
      invariant SortedListing(added, names - todo)
      invariant forall x <- added, y <- todo :: Less(x, y)
      decreases todo
    {
      ghost var least := Least(todo);
      var m :| m in todo && forall x <- todo :: x == m || Less(m, x);
      assert forall i :: 0 <= i < |added| ==> added[i] in added;
      added := added + [m];
      todo := todo - {m};
    }
    assert names - todo == names;
  }

  // ---------- The merge ----------

  function Suffix(added: seq<string>, additions: map<string, string>): string
    requires forall name <- added :: name in additions
  {
    if added == [] then "" else added[0] + " " + additions[added[0]] + "\n" + Suffix(added[1..], additions)
  }

  ghost predicate Conflict(existing: map<string, string>, additions: map<string, string>) {
    exists name :: Conflicts(existing, additions, name)
  }

  /** path.read_text(), where the file exists. */
  function TextOf(file: Option<string>): string {
    if file.None? then "" else Universal(file.value)
  }

  ghost predicate Conflicts(existing: map<string, string>, additions: map<string, string>, name: string) {
    name in additions && name in existing && existing[name] != additions[name]
  }

  /** What one merge_store call may return and leave in the file while the disk works. */
  ghost predicate Merges(file: Option<string>, additions: map<string, string>,
                         r: Result<seq<string>, Error>, file': Option<string>) {
    match ParseStore(TextOf(file))
    case Err(error) => r == Err(error) && file' == file
    case Ok(existing) =>
      if Conflict(existing, additions) then
        file' == file && r.Err? && r.error.ConflictingKey? && Conflicts(existing, additions, r.error.name)
      else
        && r.Ok?
        && SortedListing(r.value, additions.Keys - existing.Keys)
        && (forall name <- r.value :: name in additions)
        && file' == if r.value == [] then file
                    else Some(StripNewlines(TextOf(file)) + "\n" + Suffix(r.value, additions))
  }

  /** Some name is to be appended, so the file has to be replaced. */
  ghost predicate NeedsWrite(file: Option<string>, additions: map<string, string>) {
    var parsed := ParseStore(TextOf(file));
    parsed.Ok? && !Conflict(parsed.value, additions) && additions.Keys - parsed.value.Keys != {}
  }

  /** Whether the lock and the file can be read, and whether the replacement can be written. */
  datatype Disk = Disk(readable: bool, writable: bool)

  /** The store file, changed only under its lock file. */
  class Store {
    var file: Option<string>

    constructor (file: Option<string>)
      ensures this.file == file
    {
      this.file := file;
    }

    method MergeStore(additions: map<string, string>, disk: Disk) returns (r: Result<seq<string>, Error>)
      modifies this
      ensures if disk.readable && (disk.writable || !NeedsWrite(old(file), additions)) then
                Merges(old(file), additions, r, file)
              else
                r == Err(StoreUnavailable) && file == old(file)
    {
      if !disk.readable { return Err(StoreUnavailable); }
      var original := TextOf(file);
      var parsed := ParseStoreText(original);
      if parsed.Err? { return Err(parsed.error); }
      var existing := parsed.value;
      var todo := additions.Keys;
      while todo != {}
        invariant todo <= additions.Keys
        invariant forall name <- additions.Keys - todo :: name in existing ==> existing[name] == additions[name]
        decreases todo
      {
        var name :| name in todo;
        if name in existing && existing[name] != additions[name] {
          assert Conflicts(existing, additions, name);
          return Err(ConflictingKey(name));
        }
        todo := todo - {name};
      }
      assert additions.Keys - todo == additions.Keys;
      var added := SortedNames(additions.Keys - existing.Keys);
      EmptyListing(added, additions.Keys - existing.Keys);
      if added == [] {
        return Ok([]);
      }
      if !disk.writable { return Err(StoreUnavailable); }
      assert forall name <- added :: name in additions;
      file := Some(StripNewlines(original) + "\n" + Suffix(added, additions));
      return Ok(added);
    }
  }

  // ---------- The merge refines map union ----------

  /** What harvest produces: 16 upper-case hex digits naming 32. */
  ghost predicate StoreShaped(additions: map<string, string>) {
    forall name <- additions :: UpperHex(name, 16) && UpperHex(additions[name], 32)
  }

  lemma {:induction false} UpperKeepsHex(text: string)
    requires forall c <- text :: IsUpperHex(c)
    ensures Upper(text) == text
  {
    if text != "" {
      assert text[0] in text;
      assert forall c <- text[1..] :: c in text;
      UpperKeepsHex(text[1..]);
      assert text == [text[0]] + text[1..];
    }
  }

  lemma HexParses(text: string)
    requires text != "" && forall c <- text :: IsUpperHex(c)
    ensures ParsesAsHex(text) && text[0] != '#'
  {
    assert forall i :: 0 <= i < |text| ==> text[i] in text;
  }

  lemma HexFieldEnds(field: string, rest: string)
    requires field != "" && (forall c <- field :: IsUpperHex(c))
    requires rest == "" || IsSpace(rest[0])
    ensures Fields(field + rest) == [field] + Fields(rest)
  {
    var t := field + rest;
    forall i | 0 <= i < |field|
      ensures !IsSpace(t[i])
    {
      assert t[i] == field[i] && field[i] in field;
    }
    assert |field| < |t| ==> t[|field|] == rest[0];
    assert FieldLength(t) == |field|;
    assert t[..|field|] == field && t[|field|..] == rest;
  }

  lemma StoreLineFields(name: string, key: string)
    requires UpperHex(name, 16) && UpperHex(key, 32)
    ensures Fields(name + " " + key) == [name, key]
  {
    HexFieldEnds(name, " " + key);
    assert name + " " + key == name + (" " + key);
    assert (" " + key)[1..] == key && key + "" == key;
    HexFieldEnds(key, "");
  }

  lemma StoreLineParses(name: string, key: string)
    requires UpperHex(name, 16) && UpperHex(key, 32)
    ensures ParseLine(name + " " + key) == Ok(Some((name, key)))
  {
    StoreLineFields(name, key);
    UpperKeepsHex(name);
    UpperKeepsHex(key);
    HexParses(name);
    HexParses(key);
  }

  lemma FirstLineOfSuffix(line: string, rest: string)
    requires line != "" && forall c <- line :: !IsLineBreak(c)
    ensures SplitLines(line + "\n" + rest) == [line] + SplitLines(rest)
  {
    assert forall i :: 0 <= i < |line| ==> line[i] in line;
    assert FirstBreak(line) == |line|;
    JoinAfterLastLine(line, rest);
  }

  function Listed(added: seq<string>, additions: map<string, string>): map<string, string>
    requires forall name <- added :: name in additions
  {
    map name | name in added :: additions[name]
  }

  lemma SuffixLines(added: seq<string>, additions: map<string, string>)
    requires StoreShaped(additions) && added != [] && forall name <- added :: name in additions
    ensures ParseLine(added[0] + " " + additions[added[0]]) == Ok(Some((added[0], additions[added[0]])))
    ensures SplitLines(Suffix(added, additions))
         == [added[0] + " " + additions[added[0]]] + SplitLines(Suffix(added[1..], additions))
  {
    var name, key := added[0], additions[added[0]];
    var line := name + " " + key;
    StoreLineParses(name, key);
    forall c | c in line
      ensures !IsLineBreak(c)
    {
      assert c in name || c == ' ' || c in key;
    }
    FirstLineOfSuffix(line, Suffix(added[1..], additions));
  }

  lemma ParseFirst(store: map<string, string>, line: string, name: string, key: string, rest: seq<string>)
    requires ParseLine(line) == Ok(Some((name, key)))
    ensures ParseOnto(store, [line] + rest) == ParseOnto(store[name := key], rest)
  {
    assert ([line] + rest)[1..] == rest;
  }

  lemma ListedStep(store: map<string, string>, added: seq<string>, additions: map<string, string>)
    requires added != [] && forall name <- added :: name in additions
    ensures store[added[0] := additions[added[0]]] + Listed(added[1..], additions) == store + Listed(added, additions)
  {
    assert added == [added[0]] + added[1..];
  }

  lemma {:induction false} SuffixParses(store: map<string, string>, added: seq<string>, additions: map<string, string>)
    requires StoreShaped(additions) && forall name <- added :: name in additions
    ensures ParseOnto(store, SplitLines(Suffix(added, additions))) == Ok(store + Listed(added, additions))
    decreases |added|
  {
    if added == [] {
      assert store + Listed(added, additions) == store;
    } else {
      var name, key := added[0], additions[added[0]];
      SuffixLines(added, additions);
      ParseFirst(store, name + " " + key, name, key, SplitLines(Suffix(added[1..], additions)));
      SuffixParses(store[name := key], added[1..], additions);
      ListedStep(store, added, additions);
    }
  }

  /** Writing and reading back in text mode changes no line. */
  lemma AppendedTextParses(text: string, added: seq<string>, additions: map<string, string>)
    requires ParseStore(text).Ok? && StoreShaped(additions) && forall name <- added :: name in additions
    ensures ParseStore(Universal(StripNewlines(text) + "\n" + Suffix(added, additions)))
         == Ok(ParseStore(text).value + Listed(added, additions))
  {
    UniversalKeepsLines(StripNewlines(text) + "\n" + Suffix(added, additions));
    StrippingKeepsTheStore(text);
    JoinedTextParses(StripNewlines(text), Suffix(added, additions));
    SuffixParses(ParseStore(text).value, added, additions);
  }

  lemma EmptyListing(added: seq<string>, names: set<string>)
    requires SortedListing(added, names)
    ensures added == [] <==> names == {}
  {
    if added != [] {
      assert added[0] in names;
    }
  }

  /** After a successful merge the file parses to the old store united with the additions. */
  lemma MergeIsUnion(file: Option<string>, additions: map<string, string>,
                     r: Result<seq<string>, Error>, file': Option<string>)
    requires Merges(file, additions, r, file') && r.Ok? && StoreShaped(additions)
    ensures ParseStore(TextOf(file')) == Ok(ParseStore(TextOf(file)).value + additions)
  {
    var existing := ParseStore(TextOf(file)).value;
    EmptyListing(r.value, additions.Keys - existing.Keys);
    forall name | name in additions && name in existing
      ensures existing[name] == additions[name]
    {
      assert !Conflicts(existing, additions, name);
    }
    if r.value == [] {
      assert forall name <- additions :: name in additions.Keys - existing.Keys || name in existing;
      assert existing + additions == existing;
    } else {
      AppendedTextParses(TextOf(file), r.value, additions);
      assert existing + additions == existing + Listed(r.value, additions);
    }
  }

  /** Merging the same additions again returns no names and leaves the file alone. */
  lemma RepeatedMergeWritesNothing(file: Option<string>, additions: map<string, string>,
                                   r: Result<seq<string>, Error>, file': Option<string>,
                                   r': Result<seq<string>, Error>, file'': Option<string>)
    requires StoreShaped(additions) && Merges(file, additions, r, file') && r.Ok?
    requires Merges(file', additions, r', file'')
    ensures r' == Ok([]) && file'' == file'
  {
    MergeIsUnion(file, additions, r, file');
    var existing := ParseStore(TextOf(file')).value;
    assert !Conflict(existing, additions);
    EmptyListing(r'.value, additions.Keys - existing.Keys);
  }

  /** Both merges of a pair went through, one after the other. */
  predicate BothMerge(first: Result<seq<string>, Error>, second: Result<seq<string>, Error>) {
    first.Ok? && second.Ok?
  }

  /** One order of two merges goes through exactly when the other does, and then both leave the same parsed store. */
  lemma MergesCommute(file: Option<string>, a: map<string, string>, b: map<string, string>,
                      ra: Result<seq<string>, Error>, fa: Option<string>,
                      rab: Result<seq<string>, Error>, fab: Option<string>,
                      rb: Result<seq<string>, Error>, fb: Option<string>,
                      rba: Result<seq<string>, Error>, fba: Option<string>)
    requires StoreShaped(a) && StoreShaped(b)
    requires Merges(file, a, ra, fa) && Merges(fa, b, rab, fab)
    requires Merges(file, b, rb, fb) && Merges(fb, a, rba, fba)
    ensures BothMerge(ra, rab) <==> BothMerge(rb, rba)
    ensures BothMerge(ra, rab) ==> ParseStore(TextOf(fab)) == ParseStore(TextOf(fba))
  {
    SecondOrderMerges(file, a, b, ra, fa, rab, fab, rb, fb, rba, fba);
    SecondOrderMerges(file, b, a, rb, fb, rba, fba, ra, fa, rab, fab);
  }

  lemma SecondOrderMerges(file: Option<string>, a: map<string, string>, b: map<string, string>,
                          ra: Result<seq<string>, Error>, fa: Option<string>,
                          rab: Result<seq<string>, Error>, fab: Option<string>,
                          rb: Result<seq<string>, Error>, fb: Option<string>,
                          rba: Result<seq<string>, Error>, fba: Option<string>)
    requires StoreShaped(a) && StoreShaped(b)
    requires Merges(file, a, ra, fa) && Merges(fa, b, rab, fab)
    requires Merges(file, b, rb, fb) && Merges(fb, a, rba, fba)
    ensures BothMerge(ra, rab) ==> BothMerge(rb, rba) && ParseStore(TextOf(fab)) == ParseStore(TextOf(fba))
  {
    if BothMerge(ra, rab) {
      var existing := ParseStore(TextOf(file)).value;
      FailedMergeWritesNothing(file, a, ra, fa);
      MergeIsUnion(file, a, ra, fa);
      FailedMergeWritesNothing(fa, b, rab, fab);
      MergeIsUnion(fa, b, rab, fab);
      LaterConflictIsFirst(existing, a, b);
      FailedMergeWritesNothing(file, b, rb, fb);
      MergeIsUnion(file, b, rb, fb);
      FailedMergeWritesNothing(fb, a, rba, fba);
      MergeIsUnion(fb, a, rba, fba);
      UnionCommutes(existing, a, b);
    }
  }

  lemma LaterConflictIsFirst(existing: map<string, string>, a: map<string, string>, b: map<string, string>)
    requires !Conflict(existing, a) && !Conflict(existing + a, b)
    ensures !Conflict(existing, b) && !Conflict(existing + b, a)
  {
    forall name
      ensures !Conflicts(existing, b, name) && !Conflicts(existing + b, a, name)
    {
      assert !Conflicts(existing, a, name) && !Conflicts(existing + a, b, name);
    }
  }

  lemma UnionCommutes(existing: map<string, string>, a: map<string, string>, b: map<string, string>)
    requires !Conflict(existing + a, b)
    ensures existing + a + b == existing + b + a
  {
    forall name | name in a && name in b
      ensures a[name] == b[name]
    {
      assert !Conflicts(existing + a, b, name);
    }
  }

  /** A failing merge, by conflict or by a malformed store, changes nothing. */
  lemma FailedMergeWritesNothing(file: Option<string>, additions: map<string, string>,
                                 r: Result<seq<string>, Error>, file': Option<string>)
    requires Merges(file, additions, r, file')
    ensures r.Err? <==> ParseStore(TextOf(file)).Err? || Conflict(ParseStore(TextOf(file)).value, additions)
    ensures r.Err? ==> file' == file
  {
  }
}
