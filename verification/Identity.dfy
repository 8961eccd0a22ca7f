/** Paths as component sequences, and the authored namespace an asset belongs to. */
module Identity {
  import opened Wrappers
  import opened HexText

  // ----- paths, as their components (a Unix path has no drive prefix)

  datatype Component = RootDir | CurDir | ParentDir | Normal(name: string)

  type Path = seq<Component>

  /** Path::join: an absolute right side replaces the left; an inner "." is no component. */
  function Join(a: Path, b: Path): Path {
    if b != [] && b[0].RootDir? then b
    else if a == [] then b
    else if b != [] && b[0].CurDir? then a + b[1..]
    else a + b
  }

  predicate StartsWith(path: Path, prefix: Path) {
    prefix <= path
  }

  function StripPrefix(path: Path, prefix: Path): Option<Path> {
    if prefix <= path then Some(path[|prefix|..]) else None
  }

  predicate AllNormal(path: Path) {
    forall k :: 0 <= k < |path| ==> path[k].Normal?
  }

  // ----- AssetIdentity

  function LowerHex(c: char): (l: char)
    requires IsHexDigit(c)
    ensures IsHexDigit(l) && !('A' <= l <= 'F') && DigitValue(l) == DigitValue(c)
  {
    if 'A' <= c <= 'F' then (c as int + 32) as char else c
  }

  predicate IsBuildKey(key: string) {
    |key| == 32 && forall k :: 0 <= k < 32 ==> IsHexDigit(key[k])
  }

  function LowerKey(key: string): (l: string)
    requires IsBuildKey(key)
    ensures IsBuildKey(l) && forall k :: 0 <= k < 32 ==> l[k] == LowerHex(key[k])
  {
    seq(32, k requires 0 <= k < 32 => LowerHex(key[k]))
  }

  predicate IsCanonical(id: RawIdentity) {
    && id.product in {"wow", "wow_classic_beta"}
    && IsBuildKey(id.buildKey) && LowerKey(id.buildKey) == id.buildKey
  }

  datatype RawIdentity = RawIdentity(product: string, buildKey: string)

  lemma LoweringIsIdempotent(key: string)
    requires IsBuildKey(key)
    ensures LowerKey(LowerKey(key)) == LowerKey(key)
  {
  }

  const SAMPLE_KEY := "00000000000000000000000000000000"

  lemma SampleIsCanonical()
    ensures IsCanonical(RawIdentity("wow", SAMPLE_KEY))
  {
  }

  /** The fields are private: only New makes one, so every identity is canonical. */
  type AssetIdentity = id: RawIdentity | IsCanonical(id) witness (SampleIsCanonical(); RawIdentity("wow", SAMPLE_KEY))

  datatype IdentityError = UnsupportedProduct(product: string) | InvalidBuildKey(key: string)

  function New(product: string, buildKey: string): (r: Result<AssetIdentity, IdentityError>)
    ensures product !in {"wow", "wow_classic_beta"} <==> r == Err(UnsupportedProduct(product))
    ensures product in {"wow", "wow_classic_beta"} && !IsBuildKey(buildKey) <==> r == Err(InvalidBuildKey(buildKey))
    ensures r.Ok? ==> r.value.product == product && |r.value.buildKey| == 32
    ensures r.Ok? ==> forall k :: 0 <= k < 32 ==>
              && IsHexDigit(r.value.buildKey[k]) && !('A' <= r.value.buildKey[k] <= 'F')
              && DigitValue(r.value.buildKey[k]) == DigitValue(buildKey[k])
  {
    if product !in {"wow", "wow_classic_beta"} then Err(UnsupportedProduct(product))
    else if !IsBuildKey(buildKey) then Err(InvalidBuildKey(buildKey))
    else
      LoweringIsIdempotent(buildKey);
      Ok(RawIdentity(product, LowerKey(buildKey)))
  }

  /** Two accepted keys name one identity exactly when they have the same digits, in either case. */
  lemma SameIdentityExactlyWhen(product: string, a: string, b: string)
    requires New(product, a).Ok? && New(product, b).Ok?
    ensures New(product, a) == New(product, b) <==>
            forall k :: 0 <= k < 32 ==> DigitValue(a[k]) == DigitValue(b[k])
  {
    var la, lb := LowerKey(a), LowerKey(b);
    forall k | 0 <= k < 32
      ensures la[k] == lb[k] <==> DigitValue(a[k]) == DigitValue(b[k])
    {
    }
    if la == lb {
      assert forall k :: 0 <= k < 32 ==> la[k] == lb[k];
    }
  }

  /** The product and build directories an identity owns. */
  function Qualifier(id: AssetIdentity): (q: Path)
    ensures |q| == 3 && AllNormal(q)
  {
    [Normal("products"), Normal(id.product), Normal(id.buildKey)]
  }

  function AssetRoot(root: Path, id: AssetIdentity): Path {
    Join(Join(Join(root, [Normal("products")]), [Normal(id.product)]), [Normal(id.buildKey)])
  }

  function AssetPath(root: Path, id: AssetIdentity, relative: Path): Path {
    Join(AssetRoot(root, id), relative)
  }

  lemma AssetPathIs(root: Path, id: AssetIdentity, relative: Path)
    requires AllNormal(relative)
    ensures AssetRoot(root, id) == root + Qualifier(id)
    ensures AssetPath(root, id, relative) == root + Qualifier(id) + relative
    ensures AssetRoot([], id) == Qualifier(id)
  {
  }

  lemma QualifiersDiffer(a: AssetIdentity, b: AssetIdentity)
    ensures Qualifier(a) == Qualifier(b) ==> a == b
    ensures Qualifier(a)[1] != Normal("products") && Qualifier(a)[2] != Normal("products")
  {
    if Qualifier(a) == Qualifier(b) {
      assert Qualifier(a)[1] == Qualifier(b)[1] && Qualifier(a)[2] == Qualifier(b)[2];
    }
    assert |"products"| == 8 && "products"[0] == 'p' && a.product[0] == 'w';
  }
}
