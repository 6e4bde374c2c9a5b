/** Proving that a running image is an expected one by the digests a registry serves. */
module ImageIdentity {
  import opened Prelude
  import Hex

  type Bytes = seq<bv8>
  type Digest = string

  datatype Descriptor = Descriptor(os: Option<string>, architecture: Option<string>, digest: Option<Digest>)

  /** A manifest body once decoded: an index, an image manifest, or an object of another media type. */
  datatype Manifest =
    | Index(descriptors: Option<seq<Descriptor>>)
    | Image(config: Option<Option<Digest>>)
    | Unknown

  datatype Error =
    | NotADigest
    | NotServed
    | WrongContent
    | NotAnObject
    | NoManifests
    | NotOneManifest(found: nat)
    | NotAnImage
    | NoConfig
    | DifferentContent

  /** The digest function, and how a body decodes. */
  datatype Content = Content(sha: Bytes -> Digest, decode: Bytes -> Option<Manifest>)

  type Registry = Digest -> Option<Bytes>

  predicate IsDigest(d: Digest) {
    |d| == 71 && d[..7] == "sha256:" &&
    forall i :: 7 <= i < |d| ==> '0' <= d[i] <= '9' || 'a' <= d[i] <= 'f'
  }

  function FetchManifest(c: Content, registry: Registry, digest: Digest): Result<Manifest, Error> {
    if !IsDigest(digest) then Err(NotADigest)
    else if registry(digest) == None then Err(NotServed)
    else
      var body := registry(digest).value;
      if c.sha(body) != digest then Err(WrongContent)
      else if c.decode(body) == None then Err(NotAnObject)
      else Ok(c.decode(body).value)
  }

  /** The descriptors for one platform. */
  function Matches(descriptors: seq<Descriptor>, os: string, architecture: string): seq<Descriptor> {
    if descriptors == [] then []
    else
      var d := descriptors[0];
      (if d.os == Some(os) && d.architecture == Some(architecture) then [d] else [])
      + Matches(descriptors[1..], os, architecture)
  }

  datatype Identity = Identity(manifest: Digest, config: Digest)

  function IdentityOf(manifest: Digest, value: Manifest): Result<Identity, Error> {
    if !value.Image? then Err(NotAnImage)
    else if value.config == None then Err(NoConfig)
    else if value.config.value == None || !IsDigest(value.config.value.value) then Err(NotADigest)
    else Ok(Identity(manifest, value.config.value.value))
  }

  /** The manifest an index names for a platform. */
  function SelectManifest(index: Manifest, os: string, architecture: string): Result<Digest, Error>
    requires index.Index?
  {
    if index.descriptors == None then Err(NoManifests)
    else
      var matches := Matches(index.descriptors.value, os, architecture);
      if |matches| != 1 then Err(NotOneManifest(|matches|))
      else if matches[0].digest == None || !IsDigest(matches[0].digest.value) then Err(NotADigest)
      else Ok(matches[0].digest.value)
  }

  function Resolve(c: Content, registry: Registry, root: Digest, os: string, architecture: string): Result<Identity, Error> {
    match FetchManifest(c, registry, root)
    case Err(e) => Err(e)
    case Ok(value) =>
      if !value.Index? then IdentityOf(root, value)
      else
        match SelectManifest(value, os, architecture)
        case Err(e) => Err(e)
        case Ok(digest) =>
          match FetchManifest(c, registry, digest)
          case Err(e) => Err(e)
          case Ok(manifest) => IdentityOf(digest, manifest)
  }

  /** The evidence: the expected identity when the observed digest is proved to name it. */
  function Evidence(c: Content, registry: Registry, expected: Digest, observed: Digest, os: string, architecture: string)
    : Result<Identity, Error>
  {
    if !IsDigest(expected) || !IsDigest(observed) then Err(NotADigest)
    else
      match Resolve(c, registry, expected, os, architecture)
      case Err(e) => Err(e)
      case Ok(identity) =>
        if observed == expected || observed == identity.manifest || observed == identity.config then Ok(identity)
        else
          match Resolve(c, registry, observed, os, architecture)
          case Err(e) => Err(e)
          case Ok(other) => if other == identity then Ok(identity) else Err(DifferentContent)
  }

  /** No body the one registry serves collides with a different one the other serves. */
  ghost predicate NoCollision(c: Content, first: Registry, second: Registry) {
    forall d, e :: first(d).Some? && second(e).Some? && c.sha(first(d).value) == c.sha(second(e).value) ==>
      first(d) == second(e)
  }

  lemma ContentFollowsDigest(c: Content, first: Registry, second: Registry, digest: Digest)
    requires NoCollision(c, first, second)
    requires FetchManifest(c, first, digest).Ok? && FetchManifest(c, second, digest).Ok?
    ensures FetchManifest(c, first, digest) == FetchManifest(c, second, digest)
  {
    assert c.sha(first(digest).value) == c.sha(second(digest).value);
  }

  /** Whichever registries answer, a digest that both resolve resolves to the same manifest and config. */
  lemma IdentityFollowsDigest(c: Content, first: Registry, second: Registry, root: Digest, os: string, architecture: string)
    requires NoCollision(c, first, second)
    requires Resolve(c, first, root, os, architecture).Ok? && Resolve(c, second, root, os, architecture).Ok?
    ensures Resolve(c, first, root, os, architecture) == Resolve(c, second, root, os, architecture)
  {
    ContentFollowsDigest(c, first, second, root);
    var value := FetchManifest(c, first, root).value;
    if value.Index? {
      ContentFollowsDigest(c, first, second, SelectManifest(value, os, architecture).value);
    }
  }

  /** A resolved manifest digest resolves to itself, for any platform. */
  lemma ResolvedManifestIsFixed(c: Content, registry: Registry, root: Digest, os: string, architecture: string)
    requires Resolve(c, registry, root, os, architecture).Ok?
    ensures var identity := Resolve(c, registry, root, os, architecture).value;
            && IsDigest(identity.manifest) && IsDigest(identity.config)
            && forall o, a :: Resolve(c, registry, identity.manifest, o, a) == Ok(identity)
  {
  }

  /**
   * The evidence passes exactly when the observed digest is the expected config's, or resolves to the expected
   * identity: the shortcut for an observed index or manifest digest answers what resolving it again would.
   */
  lemma EvidenceIffSameContent(
    c: Content, registry: Registry, expected: Digest, observed: Digest, os: string, architecture: string)
    ensures Evidence(c, registry, expected, observed, os, architecture).Ok? <==>
            && IsDigest(expected) && IsDigest(observed)
            && var identity := Resolve(c, registry, expected, os, architecture);
               identity.Ok? && (observed == identity.value.config
                                || Resolve(c, registry, observed, os, architecture) == identity)
    ensures Evidence(c, registry, expected, observed, os, architecture).Ok? ==>
              Evidence(c, registry, expected, observed, os, architecture) == Resolve(c, registry, expected, os, architecture)
  {
    if Resolve(c, registry, expected, os, architecture).Ok? {
      ResolvedManifestIsFixed(c, registry, expected, os, architecture);
    }
  }

  // ----- what a resolved identity is

  /** A digest is `sha256:` and what 32 bytes are written as in lower-case hexadecimal. */
  lemma DigestIff(d: Digest)
    ensures IsDigest(d) <==> exists bytes: seq<Hex.Byte> :: |bytes| == 32 && d == "sha256:" + Hex.HexOf(bytes)
  {
    if IsDigest(d) {
      assert forall i :: 0 <= i < |d[7..]| ==> d[7..][i] == d[i + 7];
      var bytes := Hex.HexIsWritten(d[7..]);
      assert d == d[..7] + d[7..];
    }
    forall bytes: seq<Hex.Byte> | |bytes| == 32 && d == "sha256:" + Hex.HexOf(bytes)
      ensures IsDigest(d)
    {
      Hex.WrittenIsHex(bytes);
      assert d[..7] == "sha256:";
      assert forall i :: 7 <= i < |d| ==> d[i] == Hex.HexOf(bytes)[i - 7];
    }
  }

  /** The descriptor is for the platform. */
  predicate IsFor(d: Descriptor, os: string, architecture: string) {
    d.os == Some(os) && d.architecture == Some(architecture)
  }

  /** The descriptor at `i` is the only one for the platform. */
  predicate OnlyFor(descriptors: seq<Descriptor>, i: nat, os: string, architecture: string) {
    && i < |descriptors| && IsFor(descriptors[i], os, architecture)
    && forall j :: 0 <= j < |descriptors| && j != i ==> !IsFor(descriptors[j], os, architecture)
  }

  /** One descriptor matches exactly when one only is for the platform, and it is that one; none when none is. */
  lemma {:induction false} OneMatchIff(descriptors: seq<Descriptor>, os: string, architecture: string)
    ensures Matches(descriptors, os, architecture) == [] <==>
            forall i :: 0 <= i < |descriptors| ==> !IsFor(descriptors[i], os, architecture)
    ensures |Matches(descriptors, os, architecture)| == 1 <==> exists i: nat :: OnlyFor(descriptors, i, os, architecture)
    ensures forall i: nat :: OnlyFor(descriptors, i, os, architecture) ==>
              Matches(descriptors, os, architecture) == [descriptors[i]]
  {
    if descriptors != [] {
      var rest := descriptors[1..];
      OneMatchIff(rest, os, architecture);
      assert forall i :: 0 <= i < |rest| ==> rest[i] == descriptors[i + 1];
      var first := IsFor(descriptors[0], os, architecture);
      forall i: nat | OnlyFor(descriptors, i, os, architecture)
        ensures Matches(descriptors, os, architecture) == [descriptors[i]]
      {
        if i > 0 {
          assert OnlyFor(rest, i - 1, os, architecture);
        }
      }
      if |Matches(descriptors, os, architecture)| == 1 {
        if first {
          assert OnlyFor(descriptors, 0, os, architecture);
        } else {
          var i: nat :| OnlyFor(rest, i, os, architecture);
          assert OnlyFor(descriptors, i + 1, os, architecture) by {
            assert forall j :: 1 <= j < |descriptors| ==> descriptors[j] == rest[j - 1];
          }
        }
      }
    }
  }

  /**
   * What a root digest resolves to: itself when an image manifest is served for it; otherwise the manifest whose
   * descriptor in the index served is the only one for the platform asked for. The config is the one that manifest names.
   */
  lemma ResolvedIsTheOnlyMatch(c: Content, registry: Registry, root: Digest, os: string, architecture: string)
    requires Resolve(c, registry, root, os, architecture).Ok?
    ensures var identity := Resolve(c, registry, root, os, architecture).value;
            var served := FetchManifest(c, registry, root).value;
            && FetchManifest(c, registry, identity.manifest) == Ok(Image(Some(Some(identity.config))))
            && (if served.Image? then identity.manifest == root
                else
                  && served.Index? && served.descriptors.Some?
                  && exists i: nat :: OnlyFor(served.descriptors.value, i, os, architecture)
                                      && served.descriptors.value[i].digest == Some(identity.manifest))
  {
    var served := FetchManifest(c, registry, root).value;
    if served.Index? {
      OneMatchIff(served.descriptors.value, os, architecture);
      var i: nat :| OnlyFor(served.descriptors.value, i, os, architecture);
    }
  }

  /** A manifest served is the decoded body whose digest was asked for. */
  lemma ServedIsWhatWasAskedFor(c: Content, registry: Registry, digest: Digest)
    ensures FetchManifest(c, registry, digest).Ok? <==>
            && IsDigest(digest) && registry(digest).Some?
            && c.sha(registry(digest).value) == digest && c.decode(registry(digest).value).Some?
    ensures FetchManifest(c, registry, digest).Ok? ==>
              Some(FetchManifest(c, registry, digest).value) == c.decode(registry(digest).value)
  {
  }
}
