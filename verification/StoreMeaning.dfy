/** What a store's text says, told by lines and words rather than by the functions that cut it up. */
module StoreMeaning {
  import opened Wrappers
  import opened LittleEndian
  import opened KeyStoreText
  import opened KeyStore

  // ---------- Lines ----------

  predicate IsBreak(s: string) {
    s == "\r\n" || (|s| == 1 && IsLineBreak(s[0]))
  }

  /** text is this line, then what ends it, then rest; only a last line that is not empty may lack an end. */
  predicate StartsLine(text: string, line: string, end: string, rest: string) {
    && text == line + end + rest
    && (forall k :: 0 <= k < |line| ==> !IsLineBreak(line[k]))
    && (if end == "" then line != "" && rest == "" else IsBreak(end))
    && !(end == "\r" && rest != "" && rest[0] == '\n')
  }

  ghost predicate HasLines(text: string, lines: seq<string>)
    decreases |lines|
  {
    if lines == [] then text == ""
    else exists end, rest :: StartsLine(text, lines[0], end, rest) && HasLines(rest, lines[1..])
  }

  lemma CutAtFirstBreak(text: string, line: string, end: string, rest: string)
    requires StartsLine(text, line, end, rest)
    ensures FirstBreak(text) == |line|
    ensures if end == "" then line == text else |line| < |text| && BreakLength(text, |line|) == |end|
    ensures SplitLines(text) == [line] + SplitLines(rest)
  {
    assert forall k :: 0 <= k < |line| ==> text[k] == line[k];
    if end == "" {
      assert text == line;
    } else {
      assert text[|line|] == end[0];
      assert |end| == 2 ==> text[|line| + 1] == '\n';
      assert |end| == 1 && rest != "" ==> text[|line| + 1] == rest[0];
      FirstLine(text, line, |end|, rest);
    }
  }

  lemma FirstLineIsThere(text: string) returns (end: string, rest: string)
    requires text != ""
    ensures StartsLine(text, text[..FirstBreak(text)], end, rest)
  {
    var k := FirstBreak(text);
    if k == |text| {
      end, rest := "", "";
    } else {
      var n := BreakLength(text, k);
      end, rest := text[k..k + n], text[k + n..];
    }
  }

  /** Cutting a text into lines gives exactly the lines it has. */
  lemma {:induction false} SplitLinesExactlyWhen(text: string, lines: seq<string>)
    ensures SplitLines(text) == lines <==> HasLines(text, lines)
    decreases |lines|
  {
    if text != "" {
      var end, rest := FirstLineIsThere(text);
      CutAtFirstBreak(text, text[..FirstBreak(text)], end, rest);
      if lines != [] {
        SplitLinesExactlyWhen(rest, lines[1..]);
        if SplitLines(text) == lines {
          assert StartsLine(text, lines[0], end, rest) && HasLines(rest, lines[1..]);
        }
        if e, r :| StartsLine(text, lines[0], e, r) && HasLines(r, lines[1..]) {
          CutAtFirstBreak(text, lines[0], e, r);
          SplitLinesExactlyWhen(r, lines[1..]);
          assert lines == [lines[0]] + lines[1..];
        }
      }
    } else if lines != [] {
      assert forall e, r :: !StartsLine(text, lines[0], e, r);
    }
  }

  // ---------- Words ----------

  predicate AllSpace(s: string) {
    forall k :: 0 <= k < |s| ==> IsSpace(s[k])
  }

  /** line is spaces, then this word up to a space or the end, then rest. */
  predicate StartsWord(line: string, before: string, word: string, rest: string) {
    && line == before + word + rest && AllSpace(before)
    && word != "" && (forall k :: 0 <= k < |word| ==> !IsSpace(word[k]))
    && (rest != "" ==> IsSpace(rest[0]))
  }

  ghost predicate HasWords(line: string, words: seq<string>)
    decreases |words|
  {
    if words == [] then AllSpace(line)
    else exists before, rest :: StartsWord(line, before, words[0], rest) && HasWords(rest, words[1..])
  }

  lemma {:induction false} FieldsSkip(before: string, line: string)
    requires AllSpace(before)
    ensures Fields(before + line) == Fields(line)
    decreases |before|
  {
    if before == "" {
      assert before + line == line;
    } else {
      FieldsSkip(before[1..], line);
      assert (before + line)[1..] == before[1..] + line;
    }
  }

  lemma FirstWordCut(word: string, rest: string)
    requires StartsWord(word + rest, "", word, rest)
    ensures Fields(word + rest) == [word] + Fields(rest)
  {
    var t := word + rest;
    assert forall k :: 0 <= k < |word| ==> t[k] == word[k];
    assert rest != "" ==> t[|word|] == rest[0];
    assert FieldLength(t) == |word|;
    assert t[..|word|] == word && t[|word|..] == rest;
  }

  lemma Regrouped(a: string, b: string, c: string)
    ensures a + b + c == a + (b + c) && "" + b + c == b + c
  {
  }

  lemma CutAtWord(line: string, before: string, word: string, rest: string)
    requires StartsWord(line, before, word, rest)
    ensures Fields(line) == [word] + Fields(rest)
  {
    Regrouped(before, word, rest);
    FieldsSkip(before, word + rest);
    FirstWordCut(word, rest);
  }

  lemma OneMoreSpace(line: string, b: string, word: string, rest: string)
    requires line != "" && IsSpace(line[0]) && StartsWord(line[1..], b, word, rest)
    ensures StartsWord(line, [line[0]] + b, word, rest)
  {
    assert line == [line[0]] + line[1..];
    assert [line[0]] + (b + word + rest) == [line[0]] + b + word + rest;
  }

  lemma {:induction false} FirstWordIsThere(line: string) returns (before: string, word: string, rest: string)
    requires !AllSpace(line)
    ensures StartsWord(line, before, word, rest)
    decreases |line|
  {
    if IsSpace(line[0]) {
      assert forall k :: 0 <= k < |line[1..]| ==> line[1..][k] == line[k + 1];
      var b;
      b, word, rest := FirstWordIsThere(line[1..]);
      before := [line[0]] + b;
      OneMoreSpace(line, b, word, rest);
    } else {
      var n := FieldLength(line);
      before, word, rest := "", line[..n], line[n..];
    }
  }

  lemma {:induction false} AllSpaceHasNoFields(line: string)
    ensures Fields(line) == [] <==> AllSpace(line)
  {
    if AllSpace(line) {
      FieldsSkip(line, "");
      assert line + "" == line;
    } else {
      var before, word, rest := FirstWordIsThere(line);
      CutAtWord(line, before, word, rest);
    }
  }

  /** Splitting a line gives exactly the words it has. */
  lemma {:induction false} FieldsExactlyWhen(line: string, words: seq<string>)
    ensures Fields(line) == words <==> HasWords(line, words)
    decreases |words|
  {
    if words == [] {
      AllSpaceHasNoFields(line);
    } else {
      if !AllSpace(line) {
        var before, word, rest := FirstWordIsThere(line);
        CutAtWord(line, before, word, rest);
        FieldsExactlyWhen(rest, words[1..]);
        if Fields(line) == words {
          assert StartsWord(line, before, words[0], rest) && HasWords(rest, words[1..]);
        }
      } else {
        AllSpaceHasNoFields(line);
      }
      if b, r :| StartsWord(line, b, words[0], r) && HasWords(r, words[1..]) {
        CutAtWord(line, b, words[0], r);
        FieldsExactlyWhen(r, words[1..]);
        assert words == [words[0]] + words[1..];
      }
    }
  }

  // ---------- A line ----------

  /** u is s with the small ASCII letters made capitals. */
  predicate CapitalsOf(s: string, u: string) {
    && |u| == |s|
    && forall k :: 0 <= k < |s| ==>
         if 'a' <= s[k] <= 'z' then s[k] as int - u[k] as int == 'a' as int - 'A' as int else u[k] == s[k]
  }

  lemma {:induction false} UpperIsCapitals(s: string, u: string)
    ensures Upper(s) == u <==> CapitalsOf(s, u)
  {
    if s != "" && u != "" {
      UpperIsCapitals(s[1..], u[1..]);
      assert forall k :: 0 <= k < |s| - 1 ==> s[1..][k] == s[k + 1];
      assert forall k :: 0 <= k < |u| - 1 ==> u[1..][k] == u[k + 1];
      assert u == [u[0]] + u[1..];
      assert forall k :: 0 < k < |s| ==> s[k] == s[1..][k - 1];
      assert |u| == |s| ==> forall k :: 0 < k < |u| ==> u[k] == u[1..][k - 1];
    }
  }

  /** A line without words, or whose first word starts with a hash. */
  predicate SaysNothing(words: seq<string>) {
    words == [] || (words[0] != "" && words[0][0] == '#')
  }

  /** A line that gives the name the key: 16 and 32 characters that are numbers, as capitals; more words do not matter. */
  predicate SaysKey(words: seq<string>, name: string, key: string) {
    && !SaysNothing(words)
    && |words| >= 2 && |words[0]| == 16 && |words[1]| == 32 && ParsesAsHex(words[0]) && ParsesAsHex(words[1])
    && CapitalsOf(words[0], name) && CapitalsOf(words[1], key)
  }

  ghost predicate Ignored(line: string) {
    exists words :: HasWords(line, words) && SaysNothing(words)
  }

  ghost predicate Assigns(line: string, name: string, key: string) {
    exists words :: HasWords(line, words) && SaysKey(words, name, key)
  }

  lemma LineSays(line: string, name: string, key: string)
    ensures ParseLine(line) == Ok(None) <==> Ignored(line)
    ensures ParseLine(line) == Ok(Some((name, key))) <==> Assigns(line, name, key)
  {
    var words := Fields(line);
    FieldsExactlyWhen(line, words);
    forall w
      ensures HasWords(line, w) <==> w == words
    {
      FieldsExactlyWhen(line, w);
    }
    if words != [] {
      UpperIsCapitals(words[0], name);
      if |words| >= 2 {
        UpperIsCapitals(words[1], key);
      }
    }
  }

  // ---------- A store ----------

  /** Line i gives the name this key, and no later line gives it any. */
  ghost predicate LastToAssign(lines: seq<string>, i: int, name: string, key: string) {
    && 0 <= i < |lines| && Assigns(lines[i], name, key)
    && forall j, other :: i < j < |lines| ==> !Assigns(lines[j], name, other)
  }

  ghost predicate Sensible(line: string) {
    Ignored(line) || exists name, key :: Assigns(line, name, key)
  }

  lemma SensibleParses(line: string)
    ensures ParseLine(line).Ok? <==> Sensible(line)
  {
    LineSays(line, "", "");
    if ParseLine(line).Ok? && ParseLine(line).value.Some? {
      LineSays(line, ParseLine(line).value.value.0, ParseLine(line).value.value.1);
    }
    if name, key :| Assigns(line, name, key) {
      LineSays(line, name, key);
    }
  }

  lemma OntoOneMore(store: map<string, string>, lines: seq<string>, line: string)
    ensures var before := ParseOnto(store, lines);
            ParseOnto(store, lines + [line]) ==
            if before.Err? then before
            else if ParseLine(line).Err? then Err(ParseLine(line).error)
            else if ParseLine(line).value.None? then before
            else Ok(before.value[ParseLine(line).value.value.0 := ParseLine(line).value.value.1])
  {
    ParseOntoAppend(store, lines, [line]);
    if ParseOnto(store, lines).Ok? {
      assert [line][1..] == [];
    }
  }

  lemma LastAssignGrows(lines: seq<string>, line: string, name: string, key: string)
    ensures (exists i :: LastToAssign(lines + [line], i, name, key)) <==>
            || Assigns(line, name, key)
            || ((exists i :: LastToAssign(lines, i, name, key)) && forall other :: !Assigns(line, name, other))
  {
    var all, n := lines + [line], |lines|;
    assert all[n] == line && forall j :: 0 <= j < n ==> all[j] == lines[j];
    if i :| LastToAssign(all, i, name, key) && i < n {
      assert LastToAssign(lines, i, name, key);
      assert forall other :: !Assigns(all[n], name, other);
    }
    if Assigns(line, name, key) {
      assert LastToAssign(all, n, name, key);
    }
    if (exists i :: LastToAssign(lines, i, name, key)) && forall other :: !Assigns(line, name, other) {
      var i :| LastToAssign(lines, i, name, key);
      assert LastToAssign(all, i, name, key);
    }
  }

  lemma {:induction false} LinesMean(lines: seq<string>, name: string, key: string)
    ensures ParseOnto(map[], lines).Ok? <==> forall i :: 0 <= i < |lines| ==> Sensible(lines[i])
    ensures ParseOnto(map[], lines).Ok? ==>
              (name in ParseOnto(map[], lines).value && ParseOnto(map[], lines).value[name] == key <==>
               exists i :: LastToAssign(lines, i, name, key))
  {
    if lines != [] {
      var n := |lines| - 1;
      var front, line := lines[..n], lines[n];
      LinesMean(front, name, key);
      assert lines == front + [line];
      OntoOneMore(map[], front, line);
      SensibleParses(line);
      LastAssignGrows(front, line, name, key);
      forall n', k'
        ensures ParseLine(line) == Ok(Some((n', k'))) <==> Assigns(line, n', k')
      {
        LineSays(line, n', k');
      }
      assert forall i :: 0 <= i < n ==> lines[i] == front[i];
    }
  }

  /**
    A text parses as a store exactly when each of its lines is ignored or gives a name a key, and then
    a name has the key that the last line for it gives.
   */
  lemma StoreExactlyWhen(text: string, lines: seq<string>, name: string, key: string)
    requires HasLines(text, lines)
    ensures ParseStore(text).Ok? <==> forall i :: 0 <= i < |lines| ==> Sensible(lines[i])
    ensures ParseStore(text).Ok? ==>
              (name in ParseStore(text).value && ParseStore(text).value[name] == key <==>
               exists i :: LastToAssign(lines, i, name, key))
  {
    SplitLinesExactlyWhen(text, lines);
    LinesMean(lines, name, key);
  }

  // ---------- What a merge writes ----------

  function Newlines(k: nat): (s: string)
    ensures |s| == k
  {
    seq(k, _ => '\n')
  }

  /** Stripping takes the final newlines and nothing else. */
  lemma {:induction false} StripsNewlines(text: string) returns (k: nat)
    ensures text == StripNewlines(text) + Newlines(k)
    ensures StripNewlines(text) != "" ==> StripNewlines(text)[|StripNewlines(text)| - 1] != '\n'
  {
    if text != "" && text[|text| - 1] == '\n' {
      var front := text[..|text| - 1];
      k := StripsNewlines(front);
      assert Newlines(k + 1) == Newlines(k) + "\n";
      assert text == front + "\n";
      k := k + 1;
    } else {
      k := 0;
      assert text + Newlines(0) == text;
    }
  }

  /** One order of text: the first difference decides, and a beginning comes before what it begins. */
  lemma {:induction false} LessExactlyWhen(a: string, b: string)
    ensures Less(a, b) <==>
            exists k :: 0 <= k <= |a| && k < |b| && a[..k] == b[..k] && (k == |a| || a[k] < b[k])
  {
    if a == "" {
      assert b != "" ==> a[..0] == b[..0];
    } else if b != "" {
      LessExactlyWhen(a[1..], b[1..]);
      if a[0] == b[0] {
        if k :| 0 <= k <= |a| - 1 && k < |b| - 1 && a[1..][..k] == b[1..][..k] && (k == |a| - 1 || a[1..][k] < b[1..][k]) {
          assert a[..k + 1] == [a[0]] + a[1..][..k] && b[..k + 1] == [b[0]] + b[1..][..k];
        }
        if k :| 0 <= k <= |a| && k < |b| && a[..k] == b[..k] && (k == |a| || a[k] < b[k]) {
          assert k > 0;
          assert a[1..][..k - 1] == a[..k][1..] && b[1..][..k - 1] == b[..k][1..];
        }
      } else {
        assert a[..0] == b[..0];
        assert forall k :: 0 < k <= |a| && k < |b| && a[..k] == b[..k] ==> a[..k][0] == b[..k][0];
      }
    }
  }

  /** The appended lines are the added names with their keys, in order, each ended by a newline. */
  lemma {:induction false} SuffixHasLines(added: seq<string>, additions: map<string, string>)
    requires StoreShaped(additions) && forall name <- added :: name in additions
    ensures var lines := SplitLines(Suffix(added, additions));
            |lines| == |added| && forall i :: 0 <= i < |added| ==> lines[i] == added[i] + " " + additions[added[i]]
    ensures added != [] ==> Suffix(added, additions) != "" && Suffix(added, additions)[|Suffix(added, additions)| - 1] == '\n'
  {
    if added != [] {
      SuffixLines(added, additions);
      assert forall name <- added[1..] :: name in added;
      SuffixHasLines(added[1..], additions);
      if added[1..] == [] {
        assert Suffix(added[1..], additions) == "";
      }
    }
  }

  /**
    A merge that adds names leaves the old text, final newlines aside, as the beginning of the new one;
    what follows it is a newline and one line for each added name, in ascending order.
   */
  lemma MergeAppends(file: Option<string>, additions: map<string, string>, r: Result<seq<string>, Error>, file': Option<string>)
    returns (kept: string, k: nat, suffix: string)
    requires Merges(file, additions, r, file') && r.Ok? && r.value != [] && StoreShaped(additions)
    ensures TextOf(file) == kept + Newlines(k) && (kept != "" ==> kept[|kept| - 1] != '\n')
    ensures file' == Some(kept + "\n" + suffix) && suffix != "" && suffix[|suffix| - 1] == '\n'
    ensures |SplitLines(suffix)| == |r.value|
    ensures forall i :: 0 <= i < |r.value| ==>
              r.value[i] in additions && SplitLines(suffix)[i] == r.value[i] + " " + additions[r.value[i]]
    ensures SortedListing(r.value, additions.Keys - ParseStore(TextOf(file)).value.Keys)
  {
    kept, suffix := StripNewlines(TextOf(file)), Suffix(r.value, additions);
    k := StripsNewlines(TextOf(file));
    SuffixHasLines(r.value, additions);
    assert forall i :: 0 <= i < |r.value| ==> r.value[i] in r.value;
  }
}
