/** Where convergence stops: the exact reach of the flat profile write. */
module ConvergenceLimits {
  import opened Prelude
  import opened Json
  import opened Documents
  import opened Resources
  import opened Paths
  import opened RequestBody
  import opened Convergence

  /** Every key but the name is stored under itself. */
  predicate Flat(keys: set<string>, paths: map<string, string>) {
    forall k :: k in keys && k != NAME ==> Direct(k) && PathOf(paths, k) == k
  }

  function ProfileSpec(fields: Doc): ResourceSpec {
    ResourceSpec(RuntimeProfile, "", fields)
  }

  /** The stored profile after `n` writes of the same fields. */
  function Written(cli: Cli, fields: Doc, stored: Doc, n: nat): Doc {
    if n == 0 then stored else MergeProfile(cli, Written(cli, fields, stored, n - 1), fields - {NAME})
  }

  /** After `n` writes over a stored profile, the fields read as declared, but for masked secrets. */
  ghost predicate WritesSettle(cli: Cli, fields: Doc, stored: Doc, n: nat) {
    ChangedFields(fields, Some(Masked(cli, Written(cli, fields, stored, n))), cli.profilePaths)
    == Residue(cli, ProfileSpec(fields))
  }

  ghost predicate EverSettles(cli: Cli, fields: Doc, stored: Doc) {
    exists n: nat :: n > 0 && WritesSettle(cli, fields, stored, n)
  }

  /** Writing again changes nothing. */
  lemma {:induction false} WrittenOnce(cli: Cli, fields: Doc, stored: Doc, n: nat)
    requires n > 0
    ensures Written(cli, fields, stored, n) == MergeProfile(cli, stored, fields - {NAME})
  {
    hide MergeProfile;
    if n == 1 {
      assert Written(cli, fields, stored, 0) == stored;
    } else {
      WrittenOnce(cli, fields, stored, n - 1);
      MergeTwice(cli, stored, fields - {NAME});
    }
  }

  lemma FlatFieldsSettle(cli: Cli, fields: Doc, stored: Doc, n: nat)
    requires ValidCli(cli) && Flat(fields.Keys, cli.profilePaths) && n > 0
    ensures WritesSettle(cli, fields, stored, n)
  {
    hide Masked, MergeProfile, ChangedFields, Residue;
    assert Storable(cli, ProfileSpec(fields));
    MergedProfileSettles(cli, ProfileSpec(fields), stored);
    WrittenOnce(cli, fields, stored, n);
  }

  /** A field that is sent flat but read elsewhere is reported as changed however often it is written. */
  lemma NestedFieldNeverSettles(cli: Cli, keys: set<string>, k: string) returns (fields: Doc, stored: Doc)
    requires ValidCli(cli) && k in keys && k != NAME && !(Direct(k) && PathOf(cli.profilePaths, k) == k)
    ensures fields.Keys == keys && forall n: nat :: n > 0 ==> !WritesSettle(cli, fields, stored, n)
  {
    fields := map l | l in keys :: if l == k then cli.mask else Null;
    stored := map[NAME := Str(cli.mask.s + "x")];
    var listed := Masked(cli, MergeProfile(cli, stored, fields - {NAME}));
    hide Masked, MergeProfile, ChangedFields, Canonical, Walk, Split;
    var segs := SegmentsOf(cli.profilePaths, k);
    forall l
      ensures Field(listed, l) == if l == k then cli.mask else if l == NAME then stored[NAME] else Null
    {
      ListedValue(cli, fields, stored, l);
    }
    if segs == [k] {
      OneSegment(PathOf(cli.profilePaths, k), k);
    }
    OnlyItsOwnKeyReads(listed, k, cli.mask, segs);
    OnlyTheMaskEqualsIt(cli.mask, Walk(Obj(listed), segs));
    DifferentIsChanged(fields, listed, cli.profilePaths, k);
    assert k !in Residue(cli, ProfileSpec(fields));
    forall n: nat | n > 0
      ensures !WritesSettle(cli, fields, stored, n)
    {
      WrittenOnce(cli, fields, stored, n);
    }
  }

  lemma OneSegment(path: string, k: string)
    requires Split(path) == [k]
    ensures Direct(k) && path == k
  {
  }

  /** Among plain values, only a key's own path reads the value it alone holds. */
  lemma OnlyItsOwnKeyReads(listed: Doc, k: string, value: Json, segs: seq<string>)
    requires value.Str? && segs != [] && segs != [k]
    requires forall l :: !Field(listed, l).Obj? && (l != k ==> Field(listed, l) != value)
    ensures Walk(Obj(listed), segs) != value
  {
    if segs[0] in listed {
      assert Field(listed, segs[0]) == listed[segs[0]];
      assert |segs| == 1 ==> segs == [segs[0]];
    }
  }

  lemma DifferentIsChanged(fields: Doc, listed: Doc, paths: map<string, string>, k: string)
    requires k in fields && k != NAME && !PyEqual(fields[k], Walk(Obj(listed), SegmentsOf(paths, k)))
    ensures k in ChangedFields(fields, Some(listed), paths)
  {
  }

  /** What a profile that held nothing but its name lists after a write. */
  lemma ListedValue(cli: Cli, fields: Doc, stored: Doc, l: string)
    requires ValidCli(cli) && stored.Keys == {NAME}
    ensures var listed := Masked(cli, MergeProfile(cli, stored, fields - {NAME}));
            Field(listed, l) == if l in fields && l != NAME then
                                  (if l in cli.secrets && fields[l] != Null then cli.mask else fields[l])
                                else Field(stored, l)
  {
    if l in fields && l != NAME {
      MergedFieldListed(cli, stored, fields - {NAME}, l);
    }
  }

  /**
   * A profile's declared fields always settle, after one write or ever, exactly when each is stored under its own key.
   */
  lemma ProfilesSettleIffFlat(cli: Cli, keys: set<string>)
    requires ValidCli(cli)
    ensures Flat(keys, cli.profilePaths) <==>
            forall fields: Doc, stored: Doc, n: nat :: fields.Keys == keys && n > 0 ==> WritesSettle(cli, fields, stored, n)
    ensures Flat(keys, cli.profilePaths) <==>
            forall fields: Doc, stored: Doc :: fields.Keys == keys ==> EverSettles(cli, fields, stored)
  {
    hide WritesSettle;
    if Flat(keys, cli.profilePaths) {
      forall fields: Doc, stored: Doc, n: nat | fields.Keys == keys && n > 0
        ensures WritesSettle(cli, fields, stored, n)
      {
        FlatFieldsSettle(cli, fields, stored, n);
      }
      forall fields: Doc, stored: Doc | fields.Keys == keys
        ensures EverSettles(cli, fields, stored)
      {
        FlatFieldsSettle(cli, fields, stored, 1);
      }
    } else {
      var k :| k in keys && k != NAME && !(Direct(k) && PathOf(cli.profilePaths, k) == k);
      var fields, stored := NestedFieldNeverSettles(cli, keys, k);
      assert !WritesSettle(cli, fields, stored, 1) && !EverSettles(cli, fields, stored);
    }
  }
}
