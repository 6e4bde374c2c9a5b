/** What a deployment holds once a document has been applied: every declared value, by what equality of values decides. */
module Applied {
  import opened Prelude
  import opened Json
  import opened Documents
  import opened Resources
  import opened Paths
  import opened RequestBody
  import opened Convergence

  /** Every declared field but the name reads, at its path, as declared. */
  predicate Reads(row: Doc, fields: Doc, paths: map<string, string>, except: set<string>) {
    forall k :: k in fields && k != NAME && k !in except ==> Same(Walk(Obj(row), SegmentsOf(paths, k)), fields[k])
  }

  /** The one Agent of the name holds what the spec declares. */
  ghost predicate AgentHolds(cli: Cli, agents: seq<Doc>, spec: ResourceSpec) {
    exists i :: 0 <= i < |agents| && HeldBy(cli, agents, spec, i)
  }

  predicate HeldBy(cli: Cli, agents: seq<Doc>, spec: ResourceSpec, i: nat)
    requires i < |agents|
  {
    && cli.NameOf(agents[i]) == spec.name && (forall j :: 0 <= j < |agents| && j != i ==> cli.NameOf(agents[j]) != spec.name)
    && Reads(agents[i], spec.fields, cli.agentPaths, {})
  }

  /**
   * The one profile of the name lists what the spec declares, but for the secrets whose real values it declares; and
   * those it stores.
   */
  ghost predicate ProfileHolds(cli: Cli, profiles: seq<Doc>, spec: ResourceSpec) {
    exists i :: 0 <= i < |profiles| && cli.NameOf(profiles[i]) == spec.name
                && Reads(Masked(cli, profiles[i]), spec.fields, cli.profilePaths, Residue(cli, spec))
                && forall k :: k in Residue(cli, spec) ==> k in profiles[i] && profiles[i][k] == spec.fields[k]
  }

  /** A field is reported as changed exactly when what is stored at its path is not the same as what is declared. */
  lemma ChangedIff(fields: Doc, row: Doc, paths: map<string, string>, k: string)
    ensures k in ChangedFields(fields, Some(row), paths) <==>
            k in fields && k != NAME && !Same(Walk(Obj(row), SegmentsOf(paths, k)), fields[k])
  {
    hide Walk, Canonical, Same;
    if k in fields {
      EqualIsSame(Walk(Obj(row), SegmentsOf(paths, k)), fields[k]);
    }
  }

  lemma NothingChangedIff(fields: Doc, row: Doc, paths: map<string, string>)
    ensures ChangedFields(fields, Some(row), paths) == {} <==> Reads(row, fields, paths, {})
  {
    hide ChangedFields, Same, Walk;
    forall k
      ensures k in ChangedFields(fields, Some(row), paths) <==>
              k in fields && k != NAME && !Same(Walk(Obj(row), SegmentsOf(paths, k)), fields[k])
    {
      ChangedIff(fields, row, paths, k);
    }
  }

  lemma OneNamed(cli: Cli, agents: seq<Doc>, name: string)
    ensures var i := FirstNamed(cli, agents, name, 0);
            match MatchAgent(cli, agents, name)
            case Ok(Some(row)) =>
              i < |agents| && row == agents[i] && cli.NameOf(row) == name
              && forall j :: 0 <= j < |agents| && j != i ==> cli.NameOf(agents[j]) != name
            case Ok(None) => forall j :: 0 <= j < |agents| ==> cli.NameOf(agents[j]) != name
            case Err(e) =>
              && (exists j, k :: 0 <= j < k < |agents| && cli.NameOf(agents[j]) == cli.NameOf(agents[k]) == name)
              && e.AmbiguousAgent? && e.name == name
              && forall id :: id in e.ids <==>
                   exists j :: 0 <= j < |agents| && cli.NameOf(agents[j]) == name && id == Field(agents[j], AGENT_ID)
  {
    hide Cli.NameOf;
    var i := FirstNamed(cli, agents, name, 0);
    if i < |agents| {
      var k := FirstNamed(cli, agents, name, i + 1);
      if k < |agents| {
        assert cli.NameOf(agents[i]) == cli.NameOf(agents[k]) == name;
      }
    }
  }

  /** An Agent is reported unchanged exactly when the one row of its name holds every declared value. */
  lemma UnchangedIffHeld(cli: Cli, s: Store, spec: ResourceSpec)
    requires cli.Valid() && spec.kind == Agent
    ensures var step := ApplyAgent(cli, s, spec, false);
            step.outcome.Ok? && step.outcome.value.action == Unchanged <==> AgentHolds(cli, s.agents, spec)
  {
    hide Cli.NameOf, ChangedFields, Reads, FirstNamed, MatchAgent;
    OneNamed(cli, s.agents, spec.name);
    var found := MatchAgent(cli, s.agents, spec.name);
    if found.Ok? && found.value.Some? {
      NothingChangedIff(spec.fields, found.value.value, cli.agentPaths);
      if Reads(found.value.value, spec.fields, cli.agentPaths, {}) {
        assert HeldBy(cli, s.agents, spec, FirstNamed(cli, s.agents, spec.name, 0));
      }
    }
    if AgentHolds(cli, s.agents, spec) {
      var i :| 0 <= i < |s.agents| && HeldBy(cli, s.agents, spec, i);
      assert cli.NameOf(s.agents[i]) == spec.name;
    }
  }

  lemma SettledAgentHolds(cli: Cli, s: Store, spec: ResourceSpec)
    requires spec.kind == Agent && Settled(cli, s, spec)
    ensures AgentHolds(cli, s.agents, spec)
  {
    hide Cli.NameOf, ChangedFields, Reads, FirstNamed, MatchAgent;
    OneNamed(cli, s.agents, spec.name);
    NothingChangedIff(spec.fields, MatchAgent(cli, s.agents, spec.name).value.value, cli.agentPaths);
    assert HeldBy(cli, s.agents, spec, FirstNamed(cli, s.agents, spec.name, 0));
  }

  /** A body that is merged without effect is already there, masks sent back excepted. */
  lemma MergedIsThere(cli: Cli, stored: Doc, body: Doc, k: string)
    requires MergeProfile(cli, stored, body) == stored && k in body && body[k] != cli.mask
    ensures k in stored && stored[k] == body[k]
  {
    assert !Keeps(cli, stored, k, body[k]);
    assert MergeProfile(cli, stored, body)[k] == body[k];
  }

  lemma SettledProfileHolds(cli: Cli, s: Store, spec: ResourceSpec)
    requires spec.kind == RuntimeProfile && Settled(cli, s, spec)
    ensures ProfileHolds(cli, s.profiles, spec)
  {
    hide Cli.NameOf, ChangedFields, Masked, MergeProfile, Same, Walk, FirstNamed;
    var i := FirstNamed(cli, s.profiles, spec.name, 0);
    var row := s.profiles[i];
    forall k | k in spec.fields && k != NAME && k !in Residue(cli, spec)
      ensures Same(Walk(Obj(Masked(cli, row)), SegmentsOf(cli.profilePaths, k)), spec.fields[k])
    {
      ChangedIff(spec.fields, Masked(cli, row), cli.profilePaths, k);
    }
    forall k | k in Residue(cli, spec)
      ensures k in row && row[k] == spec.fields[k]
    {
      MergedIsThere(cli, row, spec.fields - {NAME}, k);
    }
  }

  /**
   * After a pass that ends without an error, whether a resource was written or reported unchanged: the one Agent of each
   * declared name holds, at each declared path, the value declared, and each declared profile lists what was declared,
   * or stores it when it is a secret.
   */
  lemma DeclaredValuesAreHeld(cli: Cli, s: Store, raw: Json)
    requires ValidCli(cli) && ValidStore(cli, s)
    requires cli.ParseDocument(raw).Ok? && AllStorable(cli, cli.ParseDocument(raw).value)
    requires PlanAndRun(cli, s, cli.ParseDocument(raw).value, true).error == None
    ensures var document := cli.ParseDocument(raw).value;
            var left := PlanAndRun(cli, s, document, true).store;
            && (forall spec :: spec in document.agents ==> AgentHolds(cli, left.agents, spec))
            && (forall spec :: spec in document.profiles ==> ProfileHolds(cli, left.profiles, spec))
  {
    hide Run, Settled, AgentHolds, ProfileHolds, Cli.ParseDocument, ValidStore;
    var specs := ParsedSpecsArePlaceable(cli, raw);
    var document := cli.ParseDocument(raw).value;
    PassSettles(cli, s, specs);
    var left := Run(cli, s, specs, true).store;
    ParsedKinds(cli, raw);
    forall spec | spec in document.agents
      ensures AgentHolds(cli, left.agents, spec)
    {
      var i :| 0 <= i < |document.agents| && document.agents[i] == spec;
      assert specs[|document.profiles| + i] == spec;
      SettledAgentHolds(cli, left, spec);
    }
    forall spec | spec in document.profiles
      ensures ProfileHolds(cli, left.profiles, spec)
    {
      var i :| 0 <= i < |document.profiles| && document.profiles[i] == spec;
      assert specs[i] == spec;
      SettledProfileHolds(cli, left, spec);
    }
  }

  lemma ParsedKinds(cli: Cli, raw: Json)
    requires cli.ParseDocument(raw).Ok?
    ensures forall spec :: spec in cli.ParseDocument(raw).value.agents ==> spec.kind == Agent
    ensures forall spec :: spec in cli.ParseDocument(raw).value.profiles ==> spec.kind == RuntimeProfile
  {
    hide Cli.NameOf;
    cli.ParsedNamesAreDistinct(raw);
  }

  /**
   * What an Agent's row of the report says: it is created exactly when no row bears its name, and then every declared
   * field is new; otherwise the changed fields are those the one row of its name does not hold as declared, and it is
   * updated exactly when there are any.
   */
  lemma ReportSays(cli: Cli, s: Store, spec: ResourceSpec)
    requires cli.Valid() && spec.kind == Agent && ApplyAgent(cli, s, spec, false).outcome.Ok?
    ensures var row := ApplyAgent(cli, s, spec, false).outcome.value;
            && row.kind == Agent && row.name == spec.name
            && (row.action == Create <==> forall i :: 0 <= i < |s.agents| ==> cli.NameOf(s.agents[i]) != spec.name)
            && (row.action == Create ==> row.fields == spec.fields.Keys - {NAME})
            && (row.action != Create ==>
                  && row.action == (if row.fields == {} then Unchanged else Update)
                  && forall i :: 0 <= i < |s.agents| && cli.NameOf(s.agents[i]) == spec.name ==>
                       forall k :: k in row.fields <==>
                         k in spec.fields && k != NAME
                         && !Same(Walk(Obj(s.agents[i]), SegmentsOf(cli.agentPaths, k)), spec.fields[k]))
  {
    hide Cli.NameOf, FirstNamed, MatchAgent, Same, Walk;
    OneNamed(cli, s.agents, spec.name);
    var found := MatchAgent(cli, s.agents, spec.name);
    if found.value.Some? {
      assert cli.NameOf(s.agents[FirstNamed(cli, s.agents, spec.name, 0)]) == spec.name;
      forall k
        ensures k in ChangedFields(spec.fields, found.value, cli.agentPaths) <==>
                k in spec.fields && k != NAME && !Same(Walk(Obj(found.value.value), SegmentsOf(cli.agentPaths, k)), spec.fields[k])
      {
        ChangedIff(spec.fields, found.value.value, cli.agentPaths, k);
      }
    } else {
      assert ChangedFields(spec.fields, None, cli.agentPaths) == spec.fields.Keys - {NAME};
    }
  }

  /**
   * An update is refused when another client has changed the row since it was read: the version it carries is the one
   * read, and the deployment has another by then. Nothing is stored.
   */
  lemma ConcurrentEditIsRefused(s: Store, i: nat, read: Doc, body: Doc)
    requires ValidIds(s.agents, s.nextId) && i < |s.agents|
    requires Field(read, VERSION) != Null && Field(read, VERSION) != Field(s.agents[i], VERSION)
    ensures PutAgent(s, s.agents[i][AGENT_ID], Versioned(body, read)) == (s.(writes := s.writes + 1), Some(VersionConflict))
  {
    assert IndexOfId(s.agents, s.agents[i][AGENT_ID]) == i;
  }

  /** Every accepted update gives the row another version, so that the same update sent again is refused. */
  lemma UpdatesMoveTheVersion(s: Store, i: nat, body: Doc)
    requires ValidIds(s.agents, s.nextId) && i < |s.agents|
    requires Field(s.agents[i], VERSION).Num? && !Refused(body, s.agents[i])
    ensures var s' := PutAgent(s, s.agents[i][AGENT_ID], Versioned(body, s.agents[i])).0;
            && Field(s'.agents[i], VERSION) != Field(s.agents[i], VERSION) && Field(s'.agents[i], VERSION).Num?
            && PutAgent(s', s.agents[i][AGENT_ID], Versioned(body, s.agents[i])).1 == Some(VersionConflict)
  {
    var row := s.agents[i];
    PutLands(s, i, body);
    var s' := PutAgent(s, row[AGENT_ID], Versioned(body, row)).0;
    ReplacedKeepsIds(s.agents, s'.agents, i, s.nextId);
    assert s'.agents[i][AGENT_ID] == row[AGENT_ID];
    ConcurrentEditIsRefused(s', i, row, body);
  }

  /** A new row has a version, so that the first update to it carries one. */
  lemma CreationGivesAVersion(s: Store, body: Doc)
    ensures var s' := PostAgent(s, body); |s'.agents| == |s.agents| + 1 && Field(s'.agents[|s.agents|], VERSION).Num?
  {
  }

  /** An Agent's write leaves what it does not declare, siblings inside a rewritten object included. */
  lemma UndeclaredStand(cli: Cli, s: Store, spec: ResourceSpec, i: nat, segs: seq<string>)
    requires ValidCli(cli) && ValidStore(cli, s) && spec.kind == Agent && Placeable(cli, spec)
    requires i < |s.agents| && segs != [] && segs[0] !in {AGENT_ID, VERSION}
    requires Apart(segs, spec.fields.Keys, cli.agentPaths)
    ensures var s' := ApplyAgent(cli, s, spec, true).store;
            i < |s'.agents| && Walk(Obj(s'.agents[i]), segs) == Walk(Obj(s.agents[i]), segs)
  {
    hide ApplyAgent, ValidStore, MatchAgent, Build, Cli.NameOf, ChangedFields, Storable, Report, Walk, Apart,
         WellPlaced;
    AgentTurn(cli, s, spec);
    if CallsForWrite(cli, s, spec) {
      var k, stored := AgentWrites(cli, s, spec);
      BuildSucceedsApart(cli, spec, stored);
      if i == k {
        StorableIsWellPlaced(cli, spec);
        WriteReadsBack(cli.order(spec.fields), spec.fields, cli.agentPaths, stored);
        var doc := stored + BodyOf(cli, spec, stored).value;
        var row := ApplyAgent(cli, s, spec, true).store.agents[i];
        var id, version :| row == Stamped(doc, id, version);
        StampsKeepOthers(doc, id, version, segs);
      }
    } else {
      AgentLeftAlone(cli, s, spec);
    }
  }

  lemma StorableIsWellPlaced(cli: Cli, spec: ResourceSpec)
    requires spec.kind == Agent && Storable(cli, spec)
    ensures WellPlaced(spec.fields.Keys, cli.agentPaths)
  {
  }

  lemma StampsKeepOthers(doc: Doc, id: Json, version: Json, segs: seq<string>)
    requires segs != [] && segs[0] !in {AGENT_ID, VERSION}
    ensures Walk(Obj(Stamped(doc, id, version)), segs) == Walk(Obj(doc), segs)
  {
  }

  /** A profile's write leaves every field it does not declare. */
  lemma UndeclaredProfileFieldsStand(cli: Cli, s: Store, spec: ResourceSpec, i: nat, k: string)
    requires ValidCli(cli) && ValidStore(cli, s) && spec.kind == RuntimeProfile && Named(cli, spec)
    requires i < |s.profiles| && k !in spec.fields
    ensures var s' := ApplyProfile(cli, s, spec, true).store;
            i < |s'.profiles| && (k in s'.profiles[i] <==> k in s.profiles[i]) && Field(s'.profiles[i], k) == Field(s.profiles[i], k)
  {
    hide Cli.NameOf, FirstNamed, IndexOfProfile, ChangedFields, Listing, FindNamed, ValidNames, MergeProfile, Masked;
    if CallsForPut(cli, s, spec) {
      MergeKeepsField(cli, s.profiles[i], spec.fields - {NAME}, k);
    }
  }

  lemma MergeKeepsField(cli: Cli, stored: Doc, body: Doc, k: string)
    requires k !in body
    ensures var merged := MergeProfile(cli, stored, body);
            (k in merged <==> k in stored) && Field(merged, k) == Field(stored, k)
  {
  }
}
