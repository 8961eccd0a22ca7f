/** A listfile table with its two unique keys: the file id and the lower-cased path. */
module ListfileTable {
  import opened Wrappers

  function LowerChar(c: char): char {
    if 'A' <= c <= 'Z' then (c as int + 32) as char else c
  }

  /** to_ascii_lowercase */
  function Lower(s: string): (l: string)
    ensures |l| == |s|
  {
    if s == "" then "" else [LowerChar(s[0])] + Lower(s[1..])
  }

  lemma {:induction false} LowerIsIdempotent(s: string)
    ensures Lower(Lower(s)) == Lower(s)
  {
    if s != "" {
      LowerIsIdempotent(s[1..]);
    }
  }

  /** The capital and the small form of one ASCII letter. */
  predicate CapitalOf(x: char, y: char) {
    'A' <= x <= 'Z' && y as int - x as int == 'a' as int - 'A' as int
  }

  /** The texts differ at most in the case of ASCII letters. */
  predicate SameUpToCase(a: string, b: string) {
    && |a| == |b|
    && forall k :: 0 <= k < |a| ==> a[k] == b[k] || CapitalOf(a[k], b[k]) || CapitalOf(b[k], a[k])
  }

  lemma {:induction false} LowerAt(s: string, k: nat)
    requires k < |s|
    ensures Lower(s)[k] == LowerChar(s[k])
  {
    if k > 0 {
      LowerAt(s[1..], k - 1);
    }
  }

  /** Two paths have one lower-cased form exactly when they differ in letter case alone. */
  lemma LowerFoldsCase(a: string, b: string)
    ensures Lower(a) == Lower(b) <==> SameUpToCase(a, b)
  {
    if |a| == |b| {
      forall k | 0 <= k < |a|
        ensures Lower(a)[k] == Lower(b)[k] <==> a[k] == b[k] || CapitalOf(a[k], b[k]) || CapitalOf(b[k], a[k])
      {
        LowerAt(a, k);
        LowerAt(b, k);
      }
      if Lower(a) == Lower(b) {
        assert forall k :: 0 <= k < |a| ==> Lower(a)[k] == Lower(b)[k];
      }
    }
  }

  ghost predicate UniquePaths(rows: map<nat, string>) {
    forall f, g :: f in rows && g in rows && Lower(rows[f]) == Lower(rows[g]) ==> f == g
  }

  /** fdid to path; the lower_path column always holds the lower-cased path. */
  type Table = rows: map<nat, string> | UniquePaths(rows) witness map[]

  /** INSERT OR REPLACE: every row sharing either key goes, so up to two rows may. */
  function Upsert(t: Table, fdid: nat, path: string): (t': Table)
    ensures fdid in t' && t'[fdid] == path
    ensures forall g :: g in t' && g != fdid <==> g in t && g != fdid && Lower(t[g]) != Lower(path)
    ensures forall g :: g in t' && g != fdid ==> t'[g] == t[g]
  {
    (map g | g in t && g != fdid && Lower(t[g]) != Lower(path) :: t[g])[fdid := path]
  }

  function QueryFdid(t: Table, fdid: nat): Option<string> {
    if fdid in t then Some(t[fdid]) else None
  }

  ghost predicate HasPath(t: Table, path: string) {
    exists f :: f in t && Lower(t[f]) == Lower(path)
  }

  function QueryPath(t: Table, path: string): (r: Option<(nat, string)>)
    ensures r.Some? <==> HasPath(t, path)
    ensures r.Some? ==> r.value.0 in t && t[r.value.0] == r.value.1 && Lower(r.value.1) == Lower(path)
  {
    if f :| f in t && Lower(t[f]) == Lower(path) then Some((f, t[f])) else None
  }

  /** Every row has a way back: the path stored for an id resolves to that id, in any case mix. */
  lemma QueriesAreInverse(t: Table, fdid: nat, path: string)
    requires fdid in t && Lower(path) == Lower(t[fdid])
    ensures QueryPath(t, path) == Some((fdid, t[fdid]))
  {
  }

  /** A stored row is found by exactly the paths that differ from its own in letter case alone. */
  lemma FoundExactlyInAnyCase(t: Table, fdid: nat, path: string)
    requires fdid in t
    ensures QueryPath(t, path) == Some((fdid, t[fdid])) <==> SameUpToCase(path, t[fdid])
  {
    LowerFoldsCase(path, t[fdid]);
    if Lower(path) == Lower(t[fdid]) {
      QueriesAreInverse(t, fdid, path);
    }
  }
}
