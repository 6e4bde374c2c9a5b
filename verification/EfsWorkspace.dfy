/** Binding a claim to an operator's EFS filesystem, in a cluster that others may change between any two calls. */
module EfsWorkspaces {
  import opened Prelude

  const DRIVER := "efs.csi.aws.com"

  datatype Claim = Claim(name: Option<string>, namespace: Option<string>, uid: Option<string>)

  datatype Csi = Csi(
    driver: string, handle: string, attributes: map<string, string>, others: set<string>, readOnly: bool)

  datatype Meta = Meta(name: string, uid: string, version: string, deleting: bool, labels: map<string, string>)

  datatype Storage = Storage(accessModes: seq<string>, storageClass: string, volumeMode: string)

  datatype Volume = Volume(
    meta: Meta, storage: Storage, csi: Option<Csi>, mountOptions: seq<string>, reclaim: string,
    hostPath: bool, nfs: bool, claimRef: Option<Claim>, phase: string)

  datatype ClaimObject = ClaimObject(meta: Meta, namespace: string, storage: Storage, volumeName: string, phase: string)

  /** What is asked for. */
  datatype Request = Request(volume: string, namespace: string, filesystem: string)

  datatype Cluster = Cluster(driver: bool, pv: Option<Volume>, pvc: Option<ClaimObject>)

  /** The cluster as each call finds it: others may have changed anything since the call before. */
  type Environment = nat -> Cluster

  datatype Call =
    | ReadDriver
    | ReadPv
    | ReadPvc
    | RemoveClaimRef(uid: string, version: string)
    | CreatePv(body: Volume)
    | CreatePvc(claim: ClaimObject)
    | WaitBound

  datatype Error = InvalidRequest | NoDriver | NotOurs | Unusable | Refused | Disappeared | NotBound | OtherClaim

  datatype Outcome = Outcome(pvUid: string, pvcUid: string)

  // ----- requests

  predicate LowerAlnum(c: char) {
    'a' <= c <= 'z' || '0' <= c <= '9'
  }

  predicate DnsName(s: string, dots: bool) {
    && 1 <= |s| <= 63 && LowerAlnum(s[0]) && LowerAlnum(s[|s| - 1])
    && forall i :: 0 <= i < |s| ==> LowerAlnum(s[i]) || s[i] == '-' || (dots && s[i] == '.')
  }

  predicate FilesystemId(s: string) {
    && 11 <= |s| <= 43 && s[..3] == "fs-"
    && forall i :: 3 <= i < |s| ==> '0' <= s[i] <= '9' || 'a' <= s[i] <= 'f'
  }

  predicate Acceptable(r: Request) {
    DnsName(r.volume, true) && DnsName(r.namespace, false) && FilesystemId(r.filesystem)
  }

  /** The inner characters of a name, of letters and digits, dashes and perhaps dots. */
  predicate InnerName(s: string, dots: bool) {
    forall c :: c in s ==> 'a' <= c <= 'z' || '0' <= c <= '9' || c == '-' || (dots && c == '.')
  }

  /** A name is one letter or digit, or begins and ends with one; 63 characters at most. */
  lemma DnsNameIff(s: string, dots: bool)
    ensures DnsName(s, dots) <==>
            && |s| <= 63
            && ((|s| == 1 && ('a' <= s[0] <= 'z' || '0' <= s[0] <= '9'))
                || exists a, inner, b :: s == [a] + inner + [b] && LowerAlnum(a) && LowerAlnum(b) && InnerName(inner, dots))
  {
    if DnsName(s, dots) && |s| > 1 {
      var a, inner, b := s[0], s[1..|s| - 1], s[|s| - 1];
      assert s == [a] + inner + [b];
      assert InnerName(inner, dots) by {
        assert forall i :: 0 <= i < |inner| ==> inner[i] == s[i + 1];
      }
    }
    forall a, inner, b | |s| <= 63 && s == [a] + inner + [b] && LowerAlnum(a) && LowerAlnum(b) && InnerName(inner, dots)
      ensures DnsName(s, dots)
    {
      forall i | 0 <= i < |s|
        ensures LowerAlnum(s[i]) || s[i] == '-' || (dots && s[i] == '.')
      {
        assert 0 < i < |s| - 1 ==> s[i] == inner[i - 1] && inner[i - 1] in inner;
      }
    }
  }

  /** A filesystem is named by 8 to 40 lower-case hexadecimal digits after `fs-`. */
  lemma FilesystemIdIff(s: string)
    ensures FilesystemId(s) <==>
            exists digits: string :: s == "fs-" + digits && 8 <= |digits| <= 40
                                     && forall c :: c in digits ==> '0' <= c <= '9' || 'a' <= c <= 'f'
  {
    if FilesystemId(s) {
      var digits := s[3..];
      assert s == "fs-" + digits;
      assert forall i :: 0 <= i < |digits| ==> digits[i] == s[i + 3];
    }
    forall digits: string | s == "fs-" + digits && 8 <= |digits| <= 40
                            && forall c :: c in digits ==> '0' <= c <= '9' || 'a' <= c <= 'f'
      ensures FilesystemId(s)
    {
      assert forall i :: 3 <= i < |s| ==> s[i] == digits[i - 3] && digits[i - 3] in digits;
    }
  }

  // ----- what an object must be to be touched

  function Labels(r: Request): map<string, string> {
    map["app.kubernetes.io/part-of" := "astrabox", "astrabox.workspace-volume" := r.volume]
  }

  predicate OwnedMeta(r: Request, m: Meta) {
    && m.name == r.volume && m.uid != "" && !m.deleting
    && forall k :: k in Labels(r) ==> k in m.labels && m.labels[k] == Labels(r)[k]
  }

  predicate RightStorage(r: Request, s: Storage) {
    s == Storage(["ReadWriteMany"], r.volume, "Filesystem")
  }

  predicate VerifiedPv(r: Request, pv: Volume) {
    && OwnedMeta(r, pv.meta) && RightStorage(r, pv.storage)
    && pv.csi == Some(Csi(DRIVER, r.filesystem, map["encryptInTransit" := "true"], {}, false))
    && pv.mountOptions == ["tls"] && pv.reclaim == "Retain" && !pv.hostPath && !pv.nfs
    && (pv.claimRef == None
        || (pv.claimRef.value.name == Some(r.volume) && pv.claimRef.value.namespace == Some(r.namespace)))
  }

  predicate VerifiedPvc(r: Request, pvc: ClaimObject) {
    && OwnedMeta(r, pvc.meta) && RightStorage(r, pvc.storage)
    && pvc.namespace == r.namespace && pvc.volumeName == r.volume
  }

  // ----- calls

  predicate Mutates(c: Call) {
    c.RemoveClaimRef? || c.CreatePv? || c.CreatePvc?
  }

  /**
   * Whether the cluster accepts a call. The patch tests the uid and the resource version before it removes the claim
   * reference, and fails as a whole when a test fails or there is nothing to remove.
   */
  predicate Accepts(cluster: Cluster, c: Call) {
    match c
    case ReadDriver => cluster.driver
    case ReadPv => true
    case ReadPvc => true
    case RemoveClaimRef(uid, version) =>
      && cluster.pv.Some? && cluster.pv.value.meta.uid == uid && cluster.pv.value.meta.version == version
      && cluster.pv.value.claimRef.Some?
    case CreatePv(_) => cluster.pv == None
    case CreatePvc(_) => cluster.pvc == None
    case WaitBound => cluster.pvc.Some? && cluster.pvc.value.phase == "Bound"
  }

  /** The volume asked for, before the cluster has given it an identity. */
  function PvManifest(r: Request): Volume {
    Volume(
      Meta(r.volume, "", "", false, Labels(r)), Storage(["ReadWriteMany"], r.volume, "Filesystem"),
      Some(Csi(DRIVER, r.filesystem, map["encryptInTransit" := "true"], {}, false)), ["tls"], "Retain",
      false, false, Some(Claim(Some(r.volume), Some(r.namespace), None)), "")
  }

  /** The claim asked for, likewise. */
  function PvcManifest(r: Request): ClaimObject {
    ClaimObject(
      Meta(r.volume, "", "", false, Labels(r)), r.namespace, Storage(["ReadWriteMany"], r.volume, "Filesystem"), r.volume, "")
  }

  /** The mutations two first reads call for. */
  function Mutations(r: Request, pv: Option<Volume>, pvc: Option<ClaimObject>): seq<Call> {
    (if pv.Some? && pvc == None && pv.value.phase == "Released"
     then [RemoveClaimRef(pv.value.meta.uid, pv.value.meta.version)] else [])
    + (if pv == None then [CreatePv(PvManifest(r))] else [])
    + (if pvc == None then [CreatePvc(PvcManifest(r))] else [])
  }

  const READS := [ReadDriver, ReadPv, ReadPvc]

  const CONFIRMS := [WaitBound, ReadPv, ReadPvc]

  /** Every call a reconciliation makes, in order. */
  function Script(r: Request, env: Environment): seq<Call> {
    READS + Mutations(r, env(1).pv, env(2).pvc) + CONFIRMS
  }

  /** The first reads found nothing that is not ours and usable. */
  predicate Inspected(r: Request, env: Environment) {
    && env(0).driver
    && (env(1).pv.Some? ==> VerifiedPv(r, env(1).pv.value))
    && (env(2).pvc.Some? ==> VerifiedPvc(r, env(2).pvc.value))
    && (env(1).pv.Some? && env(2).pvc == None ==> env(1).pv.value.phase in {"Available", "Released"})
  }

  /** The last reads, `n` and `n + 1`, found the two bound to each other. */
  predicate Confirmed(r: Request, pv: Option<Volume>, pvc: Option<ClaimObject>) {
    && pv.Some? && pvc.Some?
    && VerifiedPv(r, pv.value) && VerifiedPvc(r, pvc.value)
    && pvc.value.phase == "Bound" && pv.value.phase == "Bound"
    && pv.value.claimRef.Some? && pv.value.claimRef.value.uid == Some(pvc.value.meta.uid)
  }

  predicate Succeeds(r: Request, env: Environment) {
    var script := Script(r, env);
    && Acceptable(r) && Inspected(r, env)
    && (forall k :: 0 <= k < |script| ==> Accepts(env(k), script[k]))
    && Confirmed(r, env(|script| - 2).pv, env(|script| - 1).pvc)
  }

  /**
   * Reconciling: whatever others do, the calls made are a prefix of the script the first reads determine, none of them
   * a mutation unless those reads found everything present to be ours; and it succeeds exactly when every call is
   * accepted and the last reads found the volume and the claim bound to each other, whose uids it returns.
   */
  method Reconcile(r: Request, env: Environment) returns (result: Result<Outcome, Error>, calls: seq<Call>)
    ensures calls <= Script(r, env)
    ensures forall k :: 0 <= k < |calls| && Mutates(calls[k]) ==> k >= 3 && Inspected(r, env)
    ensures forall k :: 0 <= k < |calls| - 1 ==> Accepts(env(k), calls[k])
    ensures result.Ok? <==> Succeeds(r, env)
    ensures result.Ok? ==> calls == Script(r, env)
    ensures result.Ok? ==>
              result.value == Outcome(env(|calls| - 2).pv.value.meta.uid, env(|calls| - 1).pvc.value.meta.uid)
  {
    hide VerifiedPv, VerifiedPvc, Confirmed, Acceptable, Mutations;
    ghost var script := Script(r, env);
    var error: Option<Error>;
    error, calls := Inspect(r, env);
    if error.Some? {
      return Err(error.value), calls;
    }
    var pv, pvc := env(1).pv, env(2).pvc;
    var refused: bool;
    calls, refused := Mutate(r, env, pv, pvc);
    if refused {
      return Err(Refused), calls;
    }
    var n := |calls|;
    assert n + 3 == |script|;
    calls := calls + [WaitBound];
    if !Accepts(env(n), WaitBound) {
      assert script[n] == WaitBound;
      return Err(NotBound), calls;
    }
    var pv', pvc' := env(n + 1).pv, env(n + 2).pvc;
    calls := calls + [ReadPv, ReadPvc];
    assert calls == script;
    result := Confirm(r, pv', pvc');
  }

  /** The first reads, and the checks on what they found. */
  method Inspect(r: Request, env: Environment) returns (error: Option<Error>, calls: seq<Call>)
    ensures calls <= READS
    ensures forall k :: 0 <= k < |calls| - 1 ==> Accepts(env(k), calls[k])
    ensures error == None <==> Acceptable(r) && Inspected(r, env)
    ensures error == None ==> calls == READS
  {
    hide VerifiedPv, VerifiedPvc, Acceptable;
    calls := [];
    if !Acceptable(r) {
      return Some(InvalidRequest), calls;
    }
    calls := [ReadDriver];
    if !env(0).driver {
      return Some(NoDriver), calls;
    }
    var pv, pvc := env(1).pv, env(2).pvc;
    calls := READS;
    if pv.Some? && !VerifiedPv(r, pv.value) {
      return Some(NotOurs), calls;
    }
    if pvc.Some? && !VerifiedPvc(r, pvc.value) {
      return Some(NotOurs), calls;
    }
    if pv.Some? && pvc == None && pv.value.phase !in {"Available", "Released"} {
      return Some(Unusable), calls;
    }
    return None, calls;
  }

  /** The checks on the last two reads. */
  method Confirm(r: Request, pv: Option<Volume>, pvc: Option<ClaimObject>) returns (result: Result<Outcome, Error>)
    ensures result.Ok? <==> Confirmed(r, pv, pvc)
    ensures result.Ok? ==> result.value == Outcome(pv.value.meta.uid, pvc.value.meta.uid)
  {
    if pv == None || pvc == None {
      return Err(Disappeared);
    }
    if !VerifiedPv(r, pv.value) || !VerifiedPvc(r, pvc.value) {
      return Err(NotOurs);
    }
    if pvc.value.phase != "Bound" || pv.value.phase != "Bound" {
      return Err(NotBound);
    }
    if pv.value.claimRef == None || pv.value.claimRef.value.uid != Some(pvc.value.meta.uid) {
      return Err(OtherClaim);
    }
    return Ok(Outcome(pv.value.meta.uid, pvc.value.meta.uid));
  }

  /** The mutations, each sent only once the one before was accepted. */
  method Mutate(r: Request, env: Environment, pv: Option<Volume>, pvc: Option<ClaimObject>) returns (calls: seq<Call>, refused: bool)
    requires pv == env(1).pv && pvc == env(2).pvc && env(0).driver
    ensures READS <= calls <= READS + Mutations(r, pv, pvc)
    ensures forall k :: 0 <= k < |calls| - 1 ==> Accepts(env(k), calls[k])
    ensures !refused ==> calls == READS + Mutations(r, pv, pvc) && Accepts(env(|calls| - 1), calls[|calls| - 1])
    ensures refused ==> !Accepts(env(|calls| - 1), calls[|calls| - 1])
  {
    calls := READS;
    if pv.Some? && pvc == None && pv.value.phase == "Released" {
      calls := calls + [RemoveClaimRef(pv.value.meta.uid, pv.value.meta.version)];
      if !Accepts(env(|calls| - 1), calls[|calls| - 1]) {
        return calls, true;
      }
    }
    if pv == None {
      calls := calls + [CreatePv(PvManifest(r))];
      if !Accepts(env(|calls| - 1), calls[|calls| - 1]) {
        return calls, true;
      }
    }
    if pvc == None {
      calls := calls + [CreatePvc(PvcManifest(r))];
      if !Accepts(env(|calls| - 1), calls[|calls| - 1]) {
        return calls, true;
      }
    }
    return calls, false;
  }

  /** The cluster's own promise: one uid and resource version never stand for two contents. */
  ghost predicate Versioned(env: Environment) {
    forall i: nat, j: nat :: env(i).pv.Some? && env(j).pv.Some?
      && env(i).pv.value.meta.uid == env(j).pv.value.meta.uid
      && env(i).pv.value.meta.version == env(j).pv.value.meta.version
      ==> env(i).pv == env(j).pv
  }

  /** A claim reference is removed only from the very volume that was verified, still as it was read, and released. */
  lemma OnlyTheVerifiedVolumeIsReleased(r: Request, env: Environment, k: nat)
    requires Versioned(env) && Inspected(r, env)
    requires k < |Script(r, env)| && Script(r, env)[k].RemoveClaimRef? && Accepts(env(k), Script(r, env)[k])
    ensures env(k).pv == env(1).pv && env(k).pv.Some? && VerifiedPv(r, env(k).pv.value)
    ensures env(k).pv.value.phase == "Released" && env(2).pvc == None
  {
    assert Script(r, env)[k] in Mutations(r, env(1).pv, env(2).pvc);
  }

  /** On a quiet cluster, reconciling again what a reconciliation confirmed sends no mutation and succeeds. */
  lemma RerunIsQuiet(r: Request, env: Environment, quiet: Environment)
    requires Succeeds(r, env)
    requires forall k: nat :: quiet(k) == Cluster(true, env(|Script(r, env)| - 2).pv, env(|Script(r, env)| - 1).pvc)
    ensures Succeeds(r, quiet)
    ensures Script(r, quiet) == READS + CONFIRMS && forall k :: 0 <= k < |Script(r, quiet)| ==> !Mutates(Script(r, quiet)[k])
  {
    assert Mutations(r, quiet(1).pv, quiet(2).pvc) == [];
    assert READS + [] == READS;
  }

  // ----- what the calls do

  /** The cluster after an accepted call, `uid` and `version` being what it gives a new or changed object. */
  function Effect(cluster: Cluster, c: Call, uid: string, version: string): Cluster
    requires Accepts(cluster, c)
  {
    match c
    case RemoveClaimRef(_, _) =>
      var pv := cluster.pv.value;
      cluster.(pv := Some(pv.(claimRef := None, meta := pv.meta.(version := version))))
    case CreatePv(body) =>
      cluster.(pv := Some(body.(meta := body.meta.(uid := uid, version := version), phase := "Available")))
    case CreatePvc(claim) =>
      cluster.(pvc := Some(claim.(meta := claim.meta.(uid := uid, version := version), phase := "Pending")))
    case _ => cluster
  }

  function After(cluster: Cluster, c: Call, uid: string, version: string): Cluster {
    if Accepts(cluster, c) then Effect(cluster, c, uid, version) else cluster
  }

  /** The number of calls before the wait. */
  function Prepared(r: Request, env: Environment): nat {
    3 + |Mutations(r, env(1).pv, env(2).pvc)|
  }

  /** Until the wait, nobody else changes the cluster, which gives `uids(k)` and `versions(k)` to what call `k` makes. */
  ghost predicate Alone(r: Request, env: Environment, uids: nat -> string, versions: nat -> string) {
    forall k: nat :: k + 1 < Prepared(r, env) ==> env(k + 1) == After(env(k), Script(r, env)[k], uids(k), versions(k))
  }

  /** The cluster the last mutation leaves. */
  function Left(r: Request, env: Environment, uids: nat -> string, versions: nat -> string): Cluster {
    var k := Prepared(r, env) - 1;
    After(env(k), Script(r, env)[k], uids(k), versions(k))
  }

  /**
   * Which mutations are sent, whatever others do: the volume is created exactly when it was read as absent, the claim
   * exactly when it was, each as asked for; and a claim reference is removed exactly from a released volume, as it was
   * read, whose claim is absent.
   */
  lemma MutationsAreThoseNeeded(r: Request, env: Environment, c: Call)
    requires Mutates(c)
    ensures c in Script(r, env) <==>
            match c
            case CreatePv(body) => env(1).pv == None && body == PvManifest(r)
            case CreatePvc(claim) => env(2).pvc == None && claim == PvcManifest(r)
            case RemoveClaimRef(uid, version) =>
              && env(1).pv.Some? && env(1).pv.value.phase == "Released" && env(2).pvc == None
              && uid == env(1).pv.value.meta.uid && version == env(1).pv.value.meta.version
            case _ => false
  {
    assert Script(r, env) == READS + Mutations(r, env(1).pv, env(2).pvc) + CONFIRMS;
    assert c !in READS && c !in CONFIRMS;
  }

  /** The claim is created last, once its volume is there to bind to, and no mutation is sent twice. */
  lemma ClaimIsCreatedLast(r: Request, env: Environment, i: nat, j: nat)
    requires i < j < |Script(r, env)| && Mutates(Script(r, env)[i]) && Mutates(Script(r, env)[j])
    ensures Script(r, env)[j] == CreatePvc(PvcManifest(r)) && !Script(r, env)[i].CreatePvc?
  {
    var m := Mutations(r, env(1).pv, env(2).pvc);
    assert |m| <= 2;
    assert Script(r, env) == READS + m + CONFIRMS;
    assert 3 <= i < j < 3 + |m|;
    assert m[0] == Script(r, env)[3] && m[1] == Script(r, env)[4];
  }

  /** What is asked for passes the checks, once it has an identity. */
  lemma ManifestsAreVerified(r: Request, uid: string, version: string, phase: string)
    requires uid != ""
    ensures var pv := PvManifest(r); VerifiedPv(r, pv.(meta := pv.meta.(uid := uid, version := version), phase := phase))
    ensures var pvc := PvcManifest(r); VerifiedPvc(r, pvc.(meta := pvc.meta.(uid := uid, version := version), phase := phase))
  {
  }

  lemma ReadsChangeNothing(r: Request, env: Environment, uids: nat -> string, versions: nat -> string)
    requires Alone(r, env, uids, versions)
    ensures env(1) == env(0) && env(2) == env(0) && (Prepared(r, env) > 3 ==> env(3) == env(0))
    ensures Prepared(r, env) == 3 ==> Left(r, env, uids, versions) == env(0)
  {
    assert Script(r, env)[0] == ReadDriver && Script(r, env)[1] == ReadPv && Script(r, env)[2] == ReadPvc;
    assert env(0 + 1) == env(0) && env(1 + 1) == env(1);
    assert Prepared(r, env) > 3 ==> env(2 + 1) == env(2);
  }

  /**
   * On a cluster only these calls change, from any first reads that pass: every mutation is accepted, and they leave
   * both objects present and right. What was there stays as it was, but for a released volume without its claim, which
   * is left without its claim reference.
   */
  lemma MutationsPrepare(r: Request, env: Environment, uids: nat -> string, versions: nat -> string)
    requires Inspected(r, env) && Alone(r, env, uids, versions) && forall k: nat :: uids(k) != ""
    requires env(1).pv.Some? && env(1).pv.value.phase == "Released" ==> env(1).pv.value.claimRef.Some?
    ensures forall k :: 0 <= k < Prepared(r, env) ==> Accepts(env(k), Script(r, env)[k])
    ensures var left := Left(r, env, uids, versions);
            && left.driver && left.pv.Some? && left.pvc.Some?
            && VerifiedPv(r, left.pv.value) && VerifiedPvc(r, left.pvc.value)
            && (env(2).pvc.Some? ==> left.pvc == env(2).pvc)
            && (env(1).pv.Some? ==>
                  if env(2).pvc == None && env(1).pv.value.phase == "Released" then
                    left.pv.value == env(1).pv.value.(claimRef := None, meta := env(1).pv.value.meta.(version := left.pv.value.meta.version))
                  else left.pv == env(1).pv)
  {
    hide VerifiedPv, VerifiedPvc;
    var m := Mutations(r, env(1).pv, env(2).pvc);
    var script := Script(r, env);
    ReadsChangeNothing(r, env, uids, versions);
    assert script == READS + m + CONFIRMS;
    assert script[0] == ReadDriver && script[1] == ReadPv && script[2] == ReadPvc;
    forall k: nat
      ensures var pv := PvManifest(r);
              VerifiedPv(r, pv.(meta := pv.meta.(uid := uids(k), version := versions(k)), phase := "Available"))
      ensures var pvc := PvcManifest(r);
              VerifiedPvc(r, pvc.(meta := pvc.meta.(uid := uids(k), version := versions(k)), phase := "Pending"))
    {
      ManifestsAreVerified(r, uids(k), versions(k), "Available");
      ManifestsAreVerified(r, uids(k), versions(k), "Pending");
    }
    if |m| >= 1 {
      assert script[3] == m[0];
    }
    if |m| == 2 {
      assert script[4] == m[1];
      assert env(3 + 1) == After(env(3), script[3], uids(3), versions(3));
    }
    if env(1).pv.Some? && env(2).pvc == None && env(1).pv.value.phase == "Released" {
      ReleasedStaysVerified(r, env(1).pv.value, versions(3));
    }
  }

  lemma ReleasedStaysVerified(r: Request, pv: Volume, version: string)
    requires VerifiedPv(r, pv)
    ensures VerifiedPv(r, pv.(claimRef := None, meta := pv.meta.(version := version)))
  {
  }

  /** What binding makes of a volume and a claim. */
  function Bound(cluster: Cluster): Cluster
    requires cluster.pv.Some? && cluster.pvc.Some?
  {
    var pv, pvc := cluster.pv.value, cluster.pvc.value;
    cluster.(
      pv := Some(pv.(phase := "Bound", claimRef := Some(Claim(Some(pvc.meta.name), Some(pvc.namespace), Some(pvc.meta.uid))))),
      pvc := Some(pvc.(phase := "Bound")))
  }

  /**
   * Where nobody else interferes and what is left gets bound, reconciling succeeds, from whatever first reads pass; so
   * it does from a cluster that holds nothing but the driver.
   */
  lemma SucceedsAlone(r: Request, env: Environment, uids: nat -> string, versions: nat -> string)
    requires Acceptable(r) && Inspected(r, env) && Alone(r, env, uids, versions) && forall k: nat :: uids(k) != ""
    requires env(1).pv.Some? && env(1).pv.value.phase == "Released" ==> env(1).pv.value.claimRef.Some?
    requires var n, left := Prepared(r, env), Left(r, env, uids, versions);
             left.pv.Some? && left.pvc.Some? ==> env(n) == env(n + 1) == env(n + 2) == Bound(left)
    ensures Succeeds(r, env)
  {
    hide Mutations;
    var n, left := Prepared(r, env), Left(r, env, uids, versions);
    MutationsPrepare(r, env, uids, versions);
    BindingVerifies(r, left);
    var script := Script(r, env);
    assert |script| == n + 3 && script[n] == WaitBound && script[n + 1] == ReadPv && script[n + 2] == ReadPvc;
  }

  lemma BindingVerifies(r: Request, cluster: Cluster)
    requires cluster.pv.Some? && cluster.pvc.Some? && VerifiedPv(r, cluster.pv.value) && VerifiedPvc(r, cluster.pvc.value)
    ensures var bound := Bound(cluster); Confirmed(r, bound.pv, bound.pvc) && Accepts(bound, WaitBound)
  {
  }

  /** A volume without its claim is let through unless, of the phases a volume has, it is bound, failed or still pending. */
  lemma InspectedIff(r: Request, env: Environment)
    requires env(1).pv.Some? ==> env(1).pv.value.phase in ["Pending", "Available", "Bound", "Released", "Failed"]
    ensures Inspected(r, env) <==>
            && env(0).driver
            && (env(1).pv.Some? ==> VerifiedPv(r, env(1).pv.value)) && (env(2).pvc.Some? ==> VerifiedPvc(r, env(2).pvc.value))
            && (env(1).pv.Some? && env(2).pvc == None ==> env(1).pv.value.phase !in ["Pending", "Bound", "Failed"])
  {
  }

  /** What the last reads are checked for: both objects ours, and just as binding leaves them. */
  lemma ConfirmedIffBound(r: Request, cluster: Cluster)
    requires cluster.pv.Some? && cluster.pvc.Some?
    ensures Confirmed(r, cluster.pv, cluster.pvc) <==>
            VerifiedPv(r, cluster.pv.value) && VerifiedPvc(r, cluster.pvc.value) && Bound(cluster) == cluster
  {
    if Confirmed(r, cluster.pv, cluster.pvc) {
      var pv, pvc := cluster.pv.value, cluster.pvc.value;
      assert pv.claimRef == Some(Claim(Some(pvc.meta.name), Some(pvc.namespace), Some(pvc.meta.uid)));
    }
  }

  /** An object is verified when it is what would be asked for, live and with an identity, and claimed by no other. */
  lemma VerifiedIff(r: Request, pv: Volume, pvc: ClaimObject)
    ensures VerifiedPv(r, pv) <==>
            var expected := PvManifest(r);
            && pv.meta.name == expected.meta.name && pv.meta.uid != "" && !pv.meta.deleting
            && (forall k :: k in expected.meta.labels ==> k in pv.meta.labels && pv.meta.labels[k] == expected.meta.labels[k])
            && pv.storage == expected.storage && pv.csi == expected.csi && pv.mountOptions == expected.mountOptions
            && pv.reclaim == expected.reclaim && !pv.hostPath && !pv.nfs
            && (pv.claimRef == None
                || (pv.claimRef.value.name == expected.claimRef.value.name
                    && pv.claimRef.value.namespace == expected.claimRef.value.namespace))
    ensures VerifiedPvc(r, pvc) <==>
            var expected := PvcManifest(r);
            && pvc.meta.name == expected.meta.name && pvc.meta.uid != "" && !pvc.meta.deleting
            && (forall k :: k in expected.meta.labels ==> k in pvc.meta.labels && pvc.meta.labels[k] == expected.meta.labels[k])
            && pvc.storage == expected.storage && pvc.namespace == expected.namespace && pvc.volumeName == expected.volumeName
  {
  }
}
