/** The key store's line grammar: Python's splitlines, split and int(_, 16) as parse_store uses them. */
module KeyStoreText {
  import opened Wrappers
  import opened LittleEndian
  import opened HexText

  predicate IsLineBreak(c: char) {
    c in {'\n', '\r', '\U{0B}', '\U{0C}', '\U{1C}', '\U{1D}', '\U{1E}', '\U{85}', '\U{2028}', '\U{2029}'}
  }

  predicate IsSpace(c: char) {
    || '\U{09}' <= c <= '\U{0D}' || '\U{1C}' <= c <= '\U{20}' || '\U{2000}' <= c <= '\U{200A}'
    || c in {'\U{85}', '\U{A0}', '\U{1680}', '\U{2028}', '\U{2029}', '\U{202F}', '\U{205F}', '\U{3000}'}
  }

  function FirstBreak(text: string): (k: nat)
    ensures k <= |text|
    ensures k < |text| ==> IsLineBreak(text[k])
    ensures forall i :: 0 <= i < k ==> !IsLineBreak(text[i])
  {
    if text == "" || IsLineBreak(text[0]) then 0 else 1 + FirstBreak(text[1..])
  }

  /** \r\n is one break. */
  function BreakLength(text: string, k: nat): (n: nat)
    requires k < |text|
    ensures 1 <= n && k + n <= |text|
  {
    if text[k] == '\r' && k + 1 < |text| && text[k + 1] == '\n' then 2 else 1
  }

  function SplitLines(text: string): seq<string>
    decreases |text|
  {
    if text == "" then []
    else
      var k := FirstBreak(text);
      if k == |text| then [text] else [text[..k]] + SplitLines(text[k + BreakLength(text, k)..])
  }

  function FieldLength(text: string): (k: nat)
    ensures k <= |text|
    ensures k < |text| ==> IsSpace(text[k])
    ensures forall i :: 0 <= i < k ==> !IsSpace(text[i])
  {
    if text == "" || IsSpace(text[0]) then 0 else 1 + FieldLength(text[1..])
  }

  /** str.split(): maximal runs of non-space characters. */
  function Fields(line: string): (fields: seq<string>)
    ensures fields != [] ==> fields[0] != ""
    decreases |line|
  {
    if line == "" then []
    else if IsSpace(line[0]) then Fields(line[1..])
    else [line[..FieldLength(line)]] + Fields(line[FieldLength(line)..])
  }

  /** Digits with single underscores strictly between them. */
  predicate DigitRun(s: string) {
    && s != "" && s[0] != '_' && s[|s| - 1] != '_'
    && (forall c <- s :: IsHexDigit(c) || c == '_')
    && forall i :: 0 <= i < |s| - 1 ==> !(s[i] == '_' && s[i + 1] == '_')
  }

  /** What int(s, 16) accepts: an optional sign, an optional 0x prefix, then digits. */
  predicate ParsesAsHex(s: string) {
    var unsigned := if s != "" && s[0] in {'+', '-'} then s[1..] else s;
    if |unsigned| >= 2 && unsigned[0] == '0' && unsigned[1] in {'x', 'X'} then
      var digits := unsigned[2..];
      DigitRun(if digits != "" && digits[0] == '_' then digits[1..] else digits)
    else DigitRun(unsigned)
  }

  function UpperChar(c: char): char {
    if 'a' <= c <= 'z' then (c as int - 32) as char else c
  }

  function Upper(s: string): (u: string)
    ensures |u| == |s|
  {
    if s == "" then "" else [UpperChar(s[0])] + Upper(s[1..])
  }

  function ParseLine(line: string): Result<Option<(string, string)>, Error> {
    var fields := Fields(line);
    if fields == [] || fields[0][0] == '#' then Ok(None)
    else if |fields| < 2 || |fields[0]| != 16 || |fields[1]| != 32 then Err(InvalidStoreLine)
    else if !ParsesAsHex(fields[0]) || !ParsesAsHex(fields[1]) then Err(InvalidStoreLine)
    else Ok(Some((Upper(fields[0]), Upper(fields[1]))))
  }

  /** Later lines win. */
  function ParseOnto(store: map<string, string>, lines: seq<string>): Result<map<string, string>, Error>
    decreases |lines|
  {
    if lines == [] then Ok(store)
    else match ParseLine(lines[0])
         case Err(error) => Err(error)
         case Ok(None) => ParseOnto(store, lines[1..])
         case Ok(Some((name, key))) => ParseOnto(store[name := key], lines[1..])
  }

  function ParseStore(text: string): Result<map<string, string>, Error> {
    ParseOnto(map[], SplitLines(text))
  }

  method ParseStoreText(text: string) returns (r: Result<map<string, string>, Error>)
    ensures r == ParseStore(text)
  {
    var result, lines := map[], SplitLines(text);
    for i := 0 to |lines|
      invariant ParseStore(text) == ParseOnto(result, lines[i..])
    {
      var parsed := ParseLine(lines[i]);
      assert lines[i..][1..] == lines[i + 1..];
      if parsed.Err? { return Err(parsed.error); }
      if parsed.value.Some? {
        result := result[parsed.value.value.0 := parsed.value.value.1];
      }
    }
    return Ok(result);
  }

  // ---------- Composition ----------

  lemma {:induction false} ParseOntoAppend(store: map<string, string>, a: seq<string>, b: seq<string>)
    ensures ParseOnto(store, a + b)
         == match ParseOnto(store, a) case Err(error) => Err(error) case Ok(m) => ParseOnto(m, b)
    decreases |a|
  {
    if a == [] {
      assert a + b == b;
    } else {
      assert (a + b)[1..] == a[1..] + b;
      match ParseLine(a[0])
      case Err(_) =>
      case Ok(None) => ParseOntoAppend(store, a[1..], b);
      case Ok(Some((name, key))) => ParseOntoAppend(store[name := key], a[1..], b);
    }
  }

  lemma FirstBreakAppend(a: string, b: string)
    ensures FirstBreak(a + "\n" + b) == FirstBreak(a)
  {
    var t, k := a + "\n" + b, FirstBreak(a);
    assert forall i :: 0 <= i < |a| ==> t[i] == a[i];
    assert t[|a|] == '\n';
  }

  /** A text whose first line break sits between two given parts. */
  lemma FirstLine(t: string, line: string, n: nat, rest: string)
    requires |line| + n + |rest| == |t| && t[..|line|] == line && t[|line| + n..] == rest
    requires |line| == FirstBreak(t) < |t| && n == BreakLength(t, |line|)
    ensures SplitLines(t) == [line] + SplitLines(rest)
  {
  }

  lemma JoinAfterLastLine(a: string, b: string)
    requires FirstBreak(a) == |a|
    ensures SplitLines(a + "\n" + b) == [a] + SplitLines(b)
  {
    FirstBreakAppend(a, b);
    FirstLine(a + "\n" + b, a, 1, b);
  }

  /** A final carriage return and the joining newline make one break. */
  lemma JoinAfterReturn(a: string, b: string)
    requires a != "" && FirstBreak(a) == |a| - 1 && a[|a| - 1] == '\r'
    ensures SplitLines(a + "\n" + b) == SplitLines(a) + SplitLines(b)
  {
    var line := a[..|a| - 1];
    FirstBreakAppend(a, b);
    FirstLine(a + "\n" + b, line, 2, b);
    FirstLine(a, line, 1, "");
    assert SplitLines("") == [];
  }

  lemma JoinKeepsFirstBreak(a: string, t: string, b: string, k: nat, n: nat)
    requires k == FirstBreak(a) < |a| && n == BreakLength(a, k) && !(a[k] == '\r' && k + 1 == |a|)
    requires t == a + "\n" + b && FirstBreak(t) == k
    ensures BreakLength(t, k) == n && t[..k] == a[..k]
  {
    assert forall i :: 0 <= i < |a| ==> t[i] == a[i];
  }

  lemma TailOfJoin(a: string, b: string, m: nat)
    requires m <= |a|
    ensures (a + "\n" + b)[m..] == a[m..] + "\n" + b
  {
  }

  lemma JoinAfterLine(a: string, b: string, k: nat, n: nat)
    requires k == FirstBreak(a) < |a| && n == BreakLength(a, k) && !(a[k] == '\r' && k + 1 == |a|)
    ensures SplitLines(a) == [a[..k]] + SplitLines(a[k + n..])
    ensures SplitLines(a + "\n" + b) == [a[..k]] + SplitLines(a[k + n..] + "\n" + b)
  {
    FirstBreakAppend(a, b);
    JoinKeepsFirstBreak(a, a + "\n" + b, b, k, n);
    TailOfJoin(a, b, k + n);
    FirstLine(a, a[..k], n, a[k + n..]);
    FirstLine(a + "\n" + b, a[..k], n, a[k + n..] + "\n" + b);
  }

  /** Joining two texts with a newline joins their lines, with at most one blank line in between. */
  lemma {:induction false} JoinedLines(a: string, b: string) returns (gap: seq<string>)
    ensures gap == [] || gap == [""]
    ensures SplitLines(a + "\n" + b) == SplitLines(a) + gap + SplitLines(b)
    decreases |a|
  {
    var k := FirstBreak(a);
    if k == |a| {
      JoinAfterLastLine(a, b);
      gap := if a == "" then [""] else [];
      assert SplitLines(a) + gap == [a];
    } else if a[k] == '\r' && k + 1 == |a| {
      JoinAfterReturn(a, b);
      gap := [];
      assert SplitLines(a) + gap == SplitLines(a);
    } else {
      var n := BreakLength(a, k);
      var rest := a[k + n..];
      JoinAfterLine(a, b, k, n);
      gap := JoinedLines(rest, b);
      ConsConcat(a[..k], SplitLines(rest), gap, SplitLines(b));
    }
  }

  lemma ConsConcat(line: string, x: seq<string>, y: seq<string>, z: seq<string>)
    ensures [line] + (x + y + z) == ([line] + x) + y + z
  {
  }

  lemma JoinedTextParses(a: string, b: string)
    ensures ParseStore(a + "\n" + b)
         == match ParseStore(a) case Err(error) => Err(error) case Ok(m) => ParseOnto(m, SplitLines(b))
  {
    var gap := JoinedLines(a, b);
    ParseOntoAppend(map[], SplitLines(a) + gap, SplitLines(b));
    ParseOntoAppend(map[], SplitLines(a), gap);
  }

  /** original.rstrip('\n') */
  function StripNewlines(text: string): string {
    if text != "" && text[|text| - 1] == '\n' then StripNewlines(text[..|text| - 1]) else text
  }

  lemma {:induction false} StrippingKeepsTheStore(text: string)
    ensures ParseStore(StripNewlines(text)) == ParseStore(text)
  {
    if text != "" && text[|text| - 1] == '\n' {
      var front := text[..|text| - 1];
      StrippingKeepsTheStore(front);
      assert text == front + "\n" + "";
      JoinedTextParses(front, "");
    }
  }

  // ---------- Text mode ----------

  /** What reading in text mode makes of the file: every kind of newline becomes one \n. */
  function Universal(raw: string): (text: string)
    ensures '\r' !in text
    decreases |raw|
  {
    if raw == "" then ""
    else if raw[0] == '\r' then
      "\n" + Universal(if |raw| > 1 && raw[1] == '\n' then raw[2..] else raw[1..])
    else [raw[0]] + Universal(raw[1..])
  }

  lemma {:induction false} UniversalBeforeBreak(raw: string, k: nat)
    requires k <= |raw| && forall i :: 0 <= i < k ==> !IsLineBreak(raw[i])
    ensures Universal(raw) == raw[..k] + Universal(raw[k..])
    decreases k
  {
    if k > 0 {
      UniversalBeforeBreak(raw[1..], k - 1);
      assert raw[1..][k - 1..] == raw[k..];
      assert [raw[0]] + raw[1..][..k - 1] == raw[..k];
    }
  }

  /** The lines are the same before and after. */
  lemma {:induction false} UniversalKeepsLines(raw: string)
    ensures SplitLines(Universal(raw)) == SplitLines(raw)
    decreases |raw|
  {
    var k := FirstBreak(raw);
    UniversalBeforeBreak(raw, k);
    if k == |raw| {
      assert Universal(raw) == raw;
    } else {
      var rest := raw[k + BreakLength(raw, k)..];
      var c := if raw[k] == '\r' then '\n' else raw[k];
      UniversalKeepsLines(rest);
      assert raw[k..][0] == raw[k] && (k + 1 < |raw| ==> raw[k..][1] == raw[k + 1]);
      assert raw[k..][BreakLength(raw, k)..] == rest;
      assert Universal(raw[k..]) == [c] + Universal(rest);
      BrokenAt(raw[..k], c, Universal(rest));
      assert Universal(raw) == raw[..k] + [c] + Universal(rest);
    }
  }

  lemma BrokenAt(line: string, c: char, rest: string)
    requires IsLineBreak(c) && c != '\r' && forall i :: 0 <= i < |line| ==> !IsLineBreak(line[i])
    ensures SplitLines(line + [c] + rest) == [line] + SplitLines(rest)
  {
    var t := line + [c] + rest;
    assert t[|line|] == c && forall i :: 0 <= i < |line| ==> t[i] == line[i];
    FirstLine(t, line, 1, rest);
  }
}
