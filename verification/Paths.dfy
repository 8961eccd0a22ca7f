/** Which cache path a requested asset path names. */
module Paths {
  import opened Wrappers
  import opened Identity

  datatype PathError =
    | OutsideDataRoots(path: Path)
    | InvalidRelative(relative: Path)
    | ForeignNamespace(path: Path)

  datatype Resolver = Resolver(source: Path, shared: Path, identity: Option<AssetIdentity>)

  const DATA: Path := [Normal("data")]
  const PRODUCTS: Path := [Normal("products")]

  function RelativeDataPath(r: Resolver, path: Path): Result<Path, PathError> {
    if StripPrefix(path, r.source).Some? then Ok(StripPrefix(path, r.source).value)
    else if StripPrefix(path, r.shared).Some? then Ok(StripPrefix(path, r.shared).value)
    else if StripPrefix(path, DATA).Some? then Ok(StripPrefix(path, DATA).value)
    else Err(OutsideDataRoots(path))
  }

  function RemapToSharedDataPath(r: Resolver, path: Path): Path {
    if StripPrefix(path, r.source).Some? then Join(r.shared, StripPrefix(path, r.source).value)
    else if StripPrefix(path, DATA).Some? then Join(r.shared, StripPrefix(path, DATA).value)
    else path
  }

  function ScopedCachePath(r: Resolver, path: Path): Result<Path, PathError> {
    if r.identity.None? then Ok(RemapToSharedDataPath(r, path))
    else
      var id := r.identity.value;
      var relative := RelativeDataPath(r, path);
      if relative.Err? then Err(relative.error)
      else if !AllNormal(relative.value) then Err(InvalidRelative(relative.value))
      else if StartsWith(relative.value, PRODUCTS) then
        var asset := StripPrefix(relative.value, AssetRoot([], id));
        if asset.None? then Err(ForeignNamespace(path)) else Ok(AssetPath(r.shared, id, asset.value))
      else Ok(AssetPath(r.shared, id, relative.value))
  }

  /** The part of an accepted path below the identity's root. */
  function Inside(r: Resolver, path: Path): Path
    requires r.identity.Some? && ScopedCachePath(r, path).Ok?
  {
    var relative := RelativeDataPath(r, path).value;
    if StartsWith(relative, PRODUCTS) then relative[3..] else relative
  }

  /** Every accepted path is rooted in the identity's own directory, and never climbs out of it. */
  lemma AcceptedIsInside(r: Resolver, path: Path)
    requires r.identity.Some? && ScopedCachePath(r, path).Ok?
    ensures AllNormal(Inside(r, path))
    ensures ScopedCachePath(r, path).value == r.shared + Qualifier(r.identity.value) + Inside(r, path)
    ensures StripPrefix(ScopedCachePath(r, path).value, AssetRoot(r.shared, r.identity.value)) == Some(Inside(r, path))
  {
    var id, relative := r.identity.value, RelativeDataPath(r, path).value;
    AssetPathIs(r.shared, id, []);
    if StartsWith(relative, PRODUCTS) {
      assert StripPrefix(relative, Qualifier(id)) == Some(relative[3..]);
      AssetPathIs(r.shared, id, relative[3..]);
    } else {
      AssetPathIs(r.shared, id, relative);
    }
    var inside := Inside(r, path);
    assert (r.shared + Qualifier(id) + inside)[|r.shared + Qualifier(id)|..] == inside;
  }

  // ----- which path, from the roots

  /** rest is what the path is below the source root, else the shared root, else the data directory. */
  predicate Below(r: Resolver, path: Path, rest: Path) {
    if r.source <= path then path == r.source + rest
    else if r.shared <= path then path == r.shared + rest
    else path == [Normal("data")] + rest
  }

  /** rest names a file of the identity: only plain components, and its own directories if any. */
  predicate Belongs(id: AssetIdentity, rest: Path) {
    && AllNormal(rest)
    && (rest != [] && rest[0] == Normal("products") ==>
          |rest| >= 3 && rest[1] == Normal(id.product) && rest[2] == Normal(id.buildKey))
  }

  lemma RelativeIsBelow(r: Resolver, path: Path, rest: Path)
    ensures RelativeDataPath(r, path) == Ok(rest) <==> Below(r, path, rest)
    ensures RelativeDataPath(r, path).Err? <==> !(r.source <= path || r.shared <= path || [Normal("data")] <= path)
  {
    if Below(r, path, rest) {
      assert (r.source + rest)[|r.source|..] == rest;
      assert (r.shared + rest)[|r.shared|..] == rest;
      assert ([Normal("data")] + rest)[1..] == rest;
    }
  }

  lemma BelongsToQualifier(id: AssetIdentity, rest: Path)
    requires rest != [] && rest[0] == Normal("products")
    ensures Qualifier(id) <= rest <==> |rest| >= 3 && rest[1] == Normal(id.product) && rest[2] == Normal(id.buildKey)
    ensures Qualifier(id) <= rest ==> Qualifier(id) + rest[3..] == rest
  {
    if |rest| >= 3 && rest[1] == Normal(id.product) && rest[2] == Normal(id.buildKey) {
      assert rest[..3] == Qualifier(id);
    }
  }

  /** Where it lies below the shared root. */
  function Place(id: AssetIdentity, rest: Path): Path {
    if rest != [] && rest[0] == Normal("products") then rest
    else [Normal("products"), Normal(id.product), Normal(id.buildKey)] + rest
  }

  lemma ScopedPlain(r: Resolver, path: Path, rest: Path)
    requires r.identity.Some? && RelativeDataPath(r, path) == Ok(rest) && !StartsWith(rest, PRODUCTS)
    ensures if AllNormal(rest) then ScopedCachePath(r, path) == Ok(r.shared + (Qualifier(r.identity.value) + rest))
            else ScopedCachePath(r, path).Err?
  {
    var id := r.identity.value;
    if AllNormal(rest) {
      AssetPathIs(r.shared, id, rest);
      assert r.shared + Qualifier(id) + rest == r.shared + (Qualifier(id) + rest);
    }
  }

  lemma ScopedQualified(r: Resolver, path: Path, rest: Path)
    requires r.identity.Some? && RelativeDataPath(r, path) == Ok(rest) && StartsWith(rest, PRODUCTS)
    ensures if AllNormal(rest) && Qualifier(r.identity.value) <= rest then ScopedCachePath(r, path) == Ok(r.shared + rest)
            else ScopedCachePath(r, path).Err?
  {
    var id := r.identity.value;
    AssetPathIs(r.shared, id, []);
    BelongsToQualifier(id, rest);
    if AllNormal(rest) && Qualifier(id) <= rest {
      AssetPathIs(r.shared, id, rest[3..]);
      assert r.shared + Qualifier(id) + rest[3..] == r.shared + (Qualifier(id) + rest[3..]);
    }
  }

  lemma ScopedRest(r: Resolver, path: Path, rest: Path)
    requires r.identity.Some? && RelativeDataPath(r, path) == Ok(rest)
    ensures if Belongs(r.identity.value, rest) then ScopedCachePath(r, path) == Ok(r.shared + Place(r.identity.value, rest))
            else ScopedCachePath(r, path).Err?
  {
    if rest != [] && rest[0] == Normal("products") {
      assert rest[..1] == PRODUCTS;
      BelongsToQualifier(r.identity.value, rest);
      ScopedQualified(r, path, rest);
    } else {
      ScopedPlain(r, path, rest);
    }
  }

  /**
   * A path is scoped to q exactly when it lies below the source root, else below the shared root, else in
   * the data directory, what it is there names a file of the identity, and q is that file's place: the
   * shared root, the identity's three directories unless rest has them already, and rest.
   */
  lemma ScopedExactlyWhen(r: Resolver, path: Path, q: Path)
    requires r.identity.Some?
    ensures ScopedCachePath(r, path) == Ok(q) <==>
            exists rest :: Below(r, path, rest) && Belongs(r.identity.value, rest) && q == r.shared + Place(r.identity.value, rest)
  {
    if RelativeDataPath(r, path).Ok? {
      var rest := RelativeDataPath(r, path).value;
      RelativeIsBelow(r, path, rest);
      ScopedRest(r, path, rest);
    }
    forall rest | Below(r, path, rest)
      ensures RelativeDataPath(r, path) == Ok(rest)
    {
      RelativeIsBelow(r, path, rest);
    }
  }

  /** Off all three it is outside; with another component in between it is invalid; otherwise it is another's. */
  lemma RefusedExactlyWhen(r: Resolver, path: Path)
    requires r.identity.Some? && ScopedCachePath(r, path).Err?
    ensures ScopedCachePath(r, path) == Err(OutsideDataRoots(path)) <==>
            !(r.source <= path || r.shared <= path || [Normal("data")] <= path)
    ensures forall rest :: Below(r, path, rest) ==>
              ScopedCachePath(r, path) == Err(if AllNormal(rest) then ForeignNamespace(path) else InvalidRelative(rest))
  {
    RelativeIsBelow(r, path, []);
    forall rest | Below(r, path, rest)
      ensures ScopedCachePath(r, path) == Err(if AllNormal(rest) then ForeignNamespace(path) else InvalidRelative(rest))
    {
      RelativeIsBelow(r, path, rest);
    }
  }

  /** A resolver without an identity moves what lies below the source root or in the data directory, and nothing else. */
  lemma RemapIs(r: Resolver, path: Path, rest: Path)
    requires r.identity.None? && AllNormal(rest)
    ensures path == r.source + rest ==> ScopedCachePath(r, path) == Ok(r.shared + rest)
    ensures !(r.source <= path) && path == [Normal("data")] + rest ==> ScopedCachePath(r, path) == Ok(r.shared + rest)
    ensures !(r.source <= path) && !([Normal("data")] <= path) ==> ScopedCachePath(r, path) == Ok(path)
  {
    assert (r.source + rest)[|r.source|..] == rest;
    assert ([Normal("data")] + rest)[1..] == rest;
    JoinPlain(r.shared, rest);
  }

  /** Without a source root, an absolute path stays itself, and a leading "." goes. */
  lemma RemapFromNowhere(r: Resolver, path: Path)
    requires r.identity.None? && r.source == [] && path != []
    ensures path[0].RootDir? ==> ScopedCachePath(r, path) == Ok(path)
    ensures path[0].CurDir? && r.shared != [] ==> ScopedCachePath(r, path) == Ok(r.shared + path[1..])
  {
    assert path[0..] == path;
  }

  lemma JoinPlain(root: Path, rest: Path)
    requires AllNormal(rest)
    ensures Join(root, rest) == root + rest
  {
  }

  /** What two identities accept never meets: neither output is a prefix of the other. */
  lemma IdentitiesNeverMeet(a: Resolver, b: Resolver, p: Path, q: Path)
    requires a.shared == b.shared && a.identity.Some? && b.identity.Some? && a.identity != b.identity
    requires ScopedCachePath(a, p).Ok? && ScopedCachePath(b, q).Ok?
    ensures !(ScopedCachePath(a, p).value <= ScopedCachePath(b, q).value)
    ensures !(ScopedCachePath(b, q).value <= ScopedCachePath(a, p).value)
  {
    AcceptedIsInside(a, p);
    AcceptedIsInside(b, q);
    var n := |a.shared|;
    var x, y := ScopedCachePath(a, p).value, ScopedCachePath(b, q).value;
    QualifiersDiffer(a.identity.value, b.identity.value);
    var owner, other := x[n..n + 3], y[n..n + 3];
    assert owner == Qualifier(a.identity.value) && other == Qualifier(b.identity.value);
    assert x <= y || y <= x ==> owner == other;
  }

  /** What RelativeDataPath leaves of a path that lies below the shared root. */
  function BelowRoots(r: Resolver, rest: Path): Path {
    if StartsWith(r.shared + rest, r.source) then (r.shared + rest)[|r.source|..] else rest
  }

  lemma RelativeIs(r: Resolver, rest: Path)
    ensures RelativeDataPath(r, r.shared + rest) == Ok(BelowRoots(r, rest))
    ensures r.source == r.shared ==> BelowRoots(r, rest) == rest
  {
    assert (r.shared + rest)[|r.shared|..] == rest;
  }

  lemma QualifiedRest(id: AssetIdentity, inside: Path)
    requires AllNormal(inside)
    ensures AllNormal(Qualifier(id) + inside) && StartsWith(Qualifier(id) + inside, PRODUCTS)
    ensures StripPrefix(Qualifier(id) + inside, Qualifier(id)) == Some(inside)
  {
  }

  lemma ForeignRest(id: AssetIdentity, other: AssetIdentity, inside: Path)
    requires id != other
    ensures StripPrefix(Qualifier(other) + inside, Qualifier(id)).None?
  {
    QualifiersDiffer(id, other);
    var rest := Qualifier(other) + inside;
    var head := rest[..3];
    assert head == Qualifier(other);
    assert Qualifier(id) <= rest ==> head == Qualifier(id);
  }

  /** The test a caller can make beforehand: does the scoping meet a qualifier that is not its own? */
  predicate SeenAsForeign(r: Resolver, rest: Path)
    requires r.identity.Some?
  {
    var relative := BelowRoots(r, rest);
    || !AllNormal(relative)
    || (StartsWith(relative, PRODUCTS) && !StartsWith(relative, Qualifier(r.identity.value)))
  }

  /** Scoping a path below the shared root, in terms of what is left of it. */
  lemma ScopingBelowShared(r: Resolver, rest: Path)
    requires r.identity.Some?
    ensures ScopedCachePath(r, r.shared + rest).Err? <==> SeenAsForeign(r, rest)
  {
    RelativeIs(r, rest);
    AssetPathIs(r.shared, r.identity.value, []);
  }

  lemma QualifiedPathIs(shared: Path, id: AssetIdentity, inside: Path)
    requires AllNormal(inside)
    ensures AssetPath(shared, id, inside) == shared + (Qualifier(id) + inside)
  {
    AssetPathIs(shared, id, inside);
    assert shared + Qualifier(id) + inside == shared + (Qualifier(id) + inside);
  }

  lemma UnhiddenForeignIsRefused(r: Resolver, other: AssetIdentity, inside: Path)
    requires r.identity.Some? && r.identity.value != other && AllNormal(inside)
    requires r.source == r.shared || !StartsWith(r.shared + (Qualifier(other) + inside), r.source)
    ensures var q := r.shared + (Qualifier(other) + inside); ScopedCachePath(r, q) == Err(ForeignNamespace(q))
  {
    RelativeIs(r, Qualifier(other) + inside);
    AssetPathIs(r.shared, r.identity.value, []);
    QualifiedRest(other, inside);
    ForeignRest(r.identity.value, other, inside);
  }

  /**
   * A path qualified for another product or build is refused exactly when what is left of it, below
   * the source root where it lies there and below the shared root elsewhere, has a component that is
   * no plain name or a products directory other than the own one. Off the source root that is always so.
   */
  lemma ForeignPathsAreRefusedExactlyWhen(r: Resolver, other: AssetIdentity, inside: Path)
    requires r.identity.Some? && r.identity.value != other && AllNormal(inside)
    ensures var foreign := AssetPath(r.shared, other, inside);
            && (ScopedCachePath(r, foreign).Err? <==> SeenAsForeign(r, Qualifier(other) + inside))
            && (r.source == r.shared || !StartsWith(foreign, r.source) ==>
                  ScopedCachePath(r, foreign) == Err(ForeignNamespace(foreign)))
  {
    var rest := Qualifier(other) + inside;
    QualifiedPathIs(r.shared, other, inside);
    ScopingBelowShared(r, rest);
    if r.source == r.shared || !StartsWith(r.shared + rest, r.source) {
      UnhiddenForeignIsRefused(r, other, inside);
    }
  }

  /** A source root that is the other's namespace makes its files this identity's own. */
  lemma ForeignSourceRootIsAdopted(r: Resolver, other: AssetIdentity, inside: Path)
    requires r.identity.Some? && AllNormal(inside) && !StartsWith(inside, PRODUCTS)
    requires r.source == AssetRoot(r.shared, other)
    ensures ScopedCachePath(r, AssetPath(r.shared, other, inside)) == Ok(AssetPath(r.shared, r.identity.value, inside))
  {
    AssetPathIs(r.shared, other, inside);
    QualifiedPathIs(r.shared, other, inside);
    RelativeIs(r, Qualifier(other) + inside);
    assert (r.shared + Qualifier(other) + inside)[|r.source|..] == inside;
  }

  /** The test a caller can make beforehand: is this qualified path mapped to itself? */
  predicate FixedPoint(r: Resolver, inside: Path)
    requires r.identity.Some?
  {
    var root := AssetRoot(r.shared, r.identity.value);
    || r.source == r.shared
    || !StartsWith(root + inside, r.source)
    || (r.source == root && !StartsWith(inside, PRODUCTS))
  }

  lemma UnhiddenIsFixed(r: Resolver, inside: Path)
    requires r.identity.Some? && AllNormal(inside)
    requires r.source == r.shared || !StartsWith(r.shared + Qualifier(r.identity.value) + inside, r.source)
    ensures ScopedCachePath(r, r.shared + Qualifier(r.identity.value) + inside) ==
            Ok(r.shared + Qualifier(r.identity.value) + inside)
  {
    var id := r.identity.value;
    var rest := Qualifier(id) + inside;
    assert r.shared + Qualifier(id) + inside == r.shared + rest;
    RelativeIs(r, rest);
    QualifiedRest(id, inside);
    AssetPathIs(r.shared, id, inside);
  }

  /** Below a source root that is neither the shared root nor off the path, the result has another length. */
  lemma HiddenChangesLength(r: Resolver, inside: Path)
    requires r.identity.Some? && AllNormal(inside)
    requires r.source != r.shared && StartsWith(r.shared + Qualifier(r.identity.value) + inside, r.source)
    requires !(r.source == r.shared + Qualifier(r.identity.value) && !StartsWith(inside, PRODUCTS))
    ensures ScopedCachePath(r, r.shared + Qualifier(r.identity.value) + inside) !=
            Ok(r.shared + Qualifier(r.identity.value) + inside)
  {
    var id, n, m := r.identity.value, |r.source|, |r.shared|;
    var q := r.shared + Qualifier(id) + inside;
    var relative := q[n..];
    assert RelativeDataPath(r, q) == Ok(relative);
    assert r.source == q[..n] && r.shared == q[..m];
    if ScopedCachePath(r, q).Ok? {
      AcceptedIsInside(r, q);
      QualifiersDiffer(id, id);
      if n == m + 1 {
        assert relative[0] == q[m + 1] == Qualifier(id)[1];
      } else if n == m + 2 {
        assert relative[0] == q[m + 2] == Qualifier(id)[2];
      } else if n == m + 3 {
        assert r.source == q[..m + 3] == r.shared + Qualifier(id);
        assert relative == inside;
      }
    }
  }

  /**
   * Scoping a path that is already inside the namespace gives it back exactly when the source
   * root is the shared root, is off the path, or is the namespace itself with no nested products.
   */
  lemma IdempotentExactlyWhen(r: Resolver, inside: Path)
    requires r.identity.Some? && AllNormal(inside)
    ensures var q := AssetPath(r.shared, r.identity.value, inside);
            ScopedCachePath(r, q) == Ok(q) <==> FixedPoint(r, inside)
  {
    AssetPathIs(r.shared, r.identity.value, inside);
    if r.source == r.shared || !StartsWith(r.shared + Qualifier(r.identity.value) + inside, r.source) {
      UnhiddenIsFixed(r, inside);
    } else if r.source == r.shared + Qualifier(r.identity.value) && !StartsWith(inside, PRODUCTS) {
      var q := r.shared + Qualifier(r.identity.value) + inside;
      assert q[|r.source|..] == inside;
    } else {
      HiddenChangesLength(r, inside);
    }
  }

  /** So scoping twice is scoping once, for every accepted path, under the same test. */
  lemma ScopingTwice(r: Resolver, path: Path)
    requires r.identity.Some? && ScopedCachePath(r, path).Ok?
    ensures ScopedCachePath(r, ScopedCachePath(r, path).value) == ScopedCachePath(r, path) <==>
            FixedPoint(r, Inside(r, path))
  {
    AcceptedIsInside(r, path);
    AssetPathIs(r.shared, r.identity.value, Inside(r, path));
    IdempotentExactlyWhen(r, Inside(r, path));
  }
}
