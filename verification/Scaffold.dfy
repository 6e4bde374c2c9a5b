/** Exporting a deployment as a document, and why applying that document is a no-op. */
module Scaffold {
  import opened Prelude
  import opened Json
  import opened Documents
  import opened Resources
  import opened Paths
  import RequestBody
  import Convergence

  /** The schema's view of a stored document: what each declared path holds, under its key. */
  function Project(stored: Doc, paths: map<string, string>): Doc {
    map k | k in paths && Walk(Obj(stored), Split(paths[k])) != Null :: Walk(Obj(stored), Split(paths[k]))
  }

  /** The part of a projection over some of the declared keys. */
  ghost predicate Projects(projected: Doc, stored: Doc, paths: map<string, string>, done: set<string>) {
    forall k :: (k in projected) == (k in done && k in paths && Walk(Obj(stored), Split(paths[k])) != Null)
                && (k in projected ==> projected[k] == Walk(Obj(stored), Split(paths[k])))
  }

  method ProjectFields(stored: Doc, paths: map<string, string>) returns (projected: Doc)
    ensures projected == Project(stored, paths)
  {
    hide Walk, Split;
    projected := map[];
    var left := paths.Keys;
    while left != {}
      invariant left <= paths.Keys
      invariant Projects(projected, stored, paths, paths.Keys - left)
      decreases left
    {
      var key :| key in left;
      var value := WalkPath(Obj(stored), paths[key]);
      if value != Null {
        projected := projected[key := value];
      }
      left := left - {key};
    }
    assert projected.Keys == Project(stored, paths).Keys;
  }

  function ProjectAll(rows: seq<Doc>, paths: map<string, string>): seq<Json> {
    seq(|rows|, i requires 0 <= i < |rows| => Obj(Project(rows[i], paths)))
  }

  /** The ids of the rows of one name, in order. */
  function IdsOf(cli: Cli, rows: seq<Doc>, name: string): seq<Json> {
    if rows == [] then []
    else
      var last := rows[|rows| - 1];
      IdsOf(cli, rows[..|rows| - 1], name) + if cli.NameOf(last) == name then [Field(last, AGENT_ID)] else []
  }

  /** The ids of each name that several rows share; rows without a name are left to the parser. */
  function Conflicts(cli: Cli, rows: seq<Doc>): map<string, multiset<Json>> {
    var names := set i | 0 <= i < |rows| :: cli.NameOf(rows[i]);
    map name | name in names && name != "" && |IdsOf(cli, rows, name)| > 1 :: multiset(IdsOf(cli, rows, name))
  }

  /** What the dictionary of ids by name records of the rows seen so far. */
  ghost predicate Tallies(cli: Cli, byName: map<string, seq<Json>>, rows: seq<Doc>) {
    forall name ::
      && (name in byName <==> name != "" && IdsOf(cli, rows, name) != [])
      && (name in byName ==> byName[name] == IdsOf(cli, rows, name))
  }

  method RefuseAmbiguousNames(cli: Cli, rows: seq<Doc>) returns (conflicts: map<string, multiset<Json>>)
    ensures conflicts == Conflicts(cli, rows)
  {
    hide IdsOf, Cli.NameOf;
    assert Tallies(cli, map[], []) by {
      NothingTallied(cli);
    }
    var byName: map<string, seq<Json>> := map[];
    for n := 0 to |rows|
      invariant Tallies(cli, byName, rows[..n])
    {
      var name := cli.NameOf(rows[n]);
      TallyOne(cli, byName, rows, n);
      if name != "" {
        byName := byName[name := (if name in byName then byName[name] else []) + [Field(rows[n], AGENT_ID)]];
      }
    }
    assert rows[..|rows|] == rows;
    forall name | name in byName
      ensures exists i :: 0 <= i < |rows| && cli.NameOf(rows[i]) == name
    {
      var i := OneOf(cli, rows, name);
    }
    conflicts := map name | name in byName && |byName[name]| > 1 :: multiset(byName[name]);
  }

  lemma NothingTallied(cli: Cli)
    ensures Tallies(cli, map[], [])
  {
  }

  lemma TallyOne(cli: Cli, byName: map<string, seq<Json>>, rows: seq<Doc>, n: nat)
    requires n < |rows| && Tallies(cli, byName, rows[..n])
    ensures var name := cli.NameOf(rows[n]);
            var ids := (if name in byName then byName[name] else []) + [Field(rows[n], AGENT_ID)];
            Tallies(cli, if name != "" then byName[name := ids] else byName, rows[..n + 1])
  {
    hide Cli.NameOf, Field;
    assert rows[..n + 1][..n] == rows[..n];
    forall name
      ensures IdsOf(cli, rows[..n + 1], name)
           == IdsOf(cli, rows[..n], name) + if cli.NameOf(rows[n]) == name then [Field(rows[n], AGENT_ID)] else []
    {
    }
  }

  lemma {:induction false} OneOf(cli: Cli, rows: seq<Doc>, name: string) returns (i: nat)
    requires IdsOf(cli, rows, name) != []
    ensures i < |rows| && cli.NameOf(rows[i]) == name
  {
    var n := |rows| - 1;
    if cli.NameOf(rows[n]) == name {
      i := n;
    } else {
      i := OneOf(cli, rows[..n], name);
    }
  }

  lemma {:induction false} IsOneOf(cli: Cli, rows: seq<Doc>, i: nat)
    requires i < |rows|
    ensures IdsOf(cli, rows, cli.NameOf(rows[i])) != []
  {
    if i < |rows| - 1 {
      IsOneOf(cli, rows[..|rows| - 1], i);
    }
  }

  lemma {:induction false} AreTwoOf(cli: Cli, rows: seq<Doc>, i: nat, j: nat)
    requires i < j < |rows| && cli.NameOf(rows[i]) == cli.NameOf(rows[j])
    ensures |IdsOf(cli, rows, cli.NameOf(rows[i]))| > 1
  {
    var n := |rows| - 1;
    if j < n {
      AreTwoOf(cli, rows[..n], i, j);
    } else {
      IsOneOf(cli, rows[..n], i);
    }
  }

  lemma {:induction false} TwoOf(cli: Cli, rows: seq<Doc>, name: string) returns (i: nat, j: nat)
    requires |IdsOf(cli, rows, name)| > 1
    ensures i < j < |rows| && cli.NameOf(rows[i]) == cli.NameOf(rows[j]) == name
  {
    var n := |rows| - 1;
    if cli.NameOf(rows[n]) == name {
      i := OneOf(cli, rows[..n], name);
      j := n;
    } else {
      i, j := TwoOf(cli, rows[..n], name);
    }
  }

  /** Exporting is refused exactly when two Agents share a name. */
  lemma ConflictsIffShared(cli: Cli, rows: seq<Doc>)
    ensures Conflicts(cli, rows) == map[] <==>
            forall i, j :: 0 <= i < j < |rows| && cli.NameOf(rows[i]) == cli.NameOf(rows[j]) ==> cli.NameOf(rows[i]) == ""
  {
    hide IdsOf, Cli.NameOf;
    forall i, j | 0 <= i < j < |rows| && cli.NameOf(rows[i]) == cli.NameOf(rows[j]) && cli.NameOf(rows[i]) != ""
      ensures cli.NameOf(rows[i]) in Conflicts(cli, rows)
    {
      AreTwoOf(cli, rows, i, j);
    }
    forall name | name in Conflicts(cli, rows)
      ensures exists i, j :: 0 <= i < j < |rows| && cli.NameOf(rows[i]) == cli.NameOf(rows[j]) && cli.NameOf(rows[i]) != ""
    {
      var i, j := TwoOf(cli, rows, name);
    }
  }

  function IdsAt(rows: seq<Doc>, at: seq<nat>): seq<Json>
    requires forall k :: 0 <= k < |at| ==> at[k] < |rows|
  {
    seq(|at|, k requires 0 <= k < |at| => Field(rows[at[k]], AGENT_ID))
  }

  /** The places, in order, of the rows of one name. */
  ghost predicate PlacesOf(cli: Cli, rows: seq<Doc>, name: string, at: seq<nat>) {
    && (forall i, j :: 0 <= i < j < |at| ==> at[i] < at[j])
    && (forall k :: 0 <= k < |at| ==> at[k] < |rows| && cli.NameOf(rows[at[k]]) == name)
    && (forall i :: 0 <= i < |rows| && cli.NameOf(rows[i]) == name ==> i in at)
  }

  lemma {:induction false} IdsAreThose(cli: Cli, rows: seq<Doc>, name: string) returns (at: seq<nat>)
    ensures PlacesOf(cli, rows, name, at) && IdsOf(cli, rows, name) == IdsAt(rows, at)
  {
    hide Cli.NameOf, Field, PlacesOf;
    if rows == [] {
      at := [];
      NoPlaces(cli, name);
    } else {
      var n := |rows| - 1;
      var before := IdsAreThose(cli, rows[..n], name);
      PlacesAhead(cli, rows, name, before);
      at := if cli.NameOf(rows[n]) == name then before + [n] else before;
    }
  }

  lemma NoPlaces(cli: Cli, name: string)
    ensures PlacesOf(cli, [], name, [])
  {
  }

  /** One row more: its place comes last, if it bears the name. */
  lemma PlacesAhead(cli: Cli, rows: seq<Doc>, name: string, before: seq<nat>)
    requires rows != [] && PlacesOf(cli, rows[..|rows| - 1], name, before)
    ensures var n := |rows| - 1;
            var ids := IdsAt(rows[..n], before);
            if cli.NameOf(rows[n]) == name then
              PlacesOf(cli, rows, name, before + [n]) && IdsAt(rows, before + [n]) == ids + [Field(rows[n], AGENT_ID)]
            else PlacesOf(cli, rows, name, before) && IdsAt(rows, before) == ids
  {
    hide Cli.NameOf, Field;
    var n := |rows| - 1;
    assert (before + [n])[|before|] == n;
    assert forall i :: i in before ==> i in before + [n];
  }

  /** A refusal gives, for each name that is shared, the id of every row of that name, as often as it occurs. */
  lemma ConflictsTellIds(cli: Cli, rows: seq<Doc>, name: string) returns (at: seq<nat>)
    ensures PlacesOf(cli, rows, name, at) && (name in Conflicts(cli, rows) <==> name != "" && |at| > 1)
    ensures name in Conflicts(cli, rows) ==> Conflicts(cli, rows)[name] == multiset(IdsAt(rows, at))
  {
    hide Cli.NameOf, IdsOf;
    at := IdsAreThose(cli, rows, name);
    if |at| > 1 {
      assert cli.NameOf(rows[at[0]]) == name;
    }
  }

  function ExportDocument(cli: Cli, s: Store): Result<Json, CliError> {
    var conflicts := Conflicts(cli, s.agents);
    if conflicts != map[] then Err(AmbiguousNames(conflicts))
    else Ok(Obj(map["version" := DOCUMENT_VERSION,
                    "runtime_profiles" := Arr(ProjectAll(Listing(cli, s.profiles), cli.profilePaths)),
                    "agents" := Arr(ProjectAll(s.agents, cli.agentPaths))]))
  }

  /** The schema declares the name, and stores it at `name`. */
  predicate ExportsName(paths: map<string, string>) {
    NAME in paths && paths[NAME] == NAME
  }

  lemma ProjectionKeepsName(cli: Cli, row: Doc, paths: map<string, string>)
    requires ExportsName(paths)
    ensures cli.NameOf(Project(row, paths)) == cli.NameOf(row)
  {
    ShallowSegments(NAME);
    assert Walk(Obj(row), [NAME]) == Field(row, NAME) by {
      assert [NAME][1..] == [];
    }
  }

  /** Whatever a projection declares is what the row holds. */
  lemma ProjectionIsUnchanged(row: Doc, paths: map<string, string>)
    ensures ChangedFields(Project(row, paths), Some(row), paths) == {}
  {
  }

  ghost predicate UniquelyNamed(cli: Cli, rows: seq<Doc>) {
    && (forall i :: 0 <= i < |rows| ==> cli.NameOf(rows[i]) != "")
    && (forall i, j :: 0 <= i < j < |rows| ==> cli.NameOf(rows[i]) != cli.NameOf(rows[j]))
  }

  lemma ProjectedListParses(cli: Cli, rows: seq<Doc>, paths: map<string, string>, kind: Kind)
    requires ExportsName(paths)
    ensures var parsed := cli.ParseResources(Some(Arr(ProjectAll(rows, paths))), kind);
            && (parsed.Ok? <==> UniquelyNamed(cli, rows))
            && (parsed.Ok? ==> |parsed.value| == |rows| && forall i :: 0 <= i < |rows| ==>
                  parsed.value[i] == ResourceSpec(kind, cli.NameOf(rows[i]), Project(rows[i], paths)))
  {
    var items := ProjectAll(rows, paths);
    forall i | 0 <= i < |rows|
      ensures cli.NameOf(items[i].members) == cli.NameOf(rows[i])
    {
      ProjectionKeepsName(cli, rows[i], paths);
    }
    cli.AcceptedIffDeclarable(items, kind, |items|);
  }

  /**
   * The parser accepts an export exactly when every resource has a name and no two of a kind share one; the export
   * itself has already refused Agents that share one.
   */
  lemma ExportIsAccepted(cli: Cli, s: Store)
    requires ExportsName(cli.profilePaths) && ExportsName(cli.agentPaths)
    requires ExportDocument(cli, s).Ok?
    ensures cli.ParseDocument(ExportDocument(cli, s).value).Ok?
            <==> UniquelyNamed(cli, Listing(cli, s.profiles)) && forall i :: 0 <= i < |s.agents| ==> cli.NameOf(s.agents[i]) != ""
  {
    var body := ExportDocument(cli, s).value.members;
    assert body.Keys - TOP_LEVEL_KEYS == {};
    ProjectedListParses(cli, Listing(cli, s.profiles), cli.profilePaths, RuntimeProfile);
    ProjectedListParses(cli, s.agents, cli.agentPaths, Agent);
    ConflictsIffShared(cli, s.agents);
  }

  lemma UniqueNameIsFound(cli: Cli, rows: seq<Doc>, i: nat)
    requires i < |rows| && UniquelyNamed(cli, rows)
    ensures MatchAgent(cli, rows, cli.NameOf(rows[i])) == Ok(Some(rows[i]))
    ensures FindNamed(cli, rows, cli.NameOf(rows[i])) == Some(rows[i])
  {
    assert FirstNamed(cli, rows, cli.NameOf(rows[i]), 0) == i;
  }

  /** One row per exported resource, each unchanged. */
  function UnchangedRows(specs: seq<ResourceSpec>): seq<ReportRow> {
    seq(|specs|, i requires 0 <= i < |specs| => ReportRow(specs[i].kind, specs[i].name, Unchanged, {}))
  }

  lemma UnchangedStep(cli: Cli, s: Store, spec: ResourceSpec, write: bool)
    requires cli.Valid()
    requires Report(cli, spec, View(cli, s, spec.kind, spec.name)) == Ok(ReportRow(spec.kind, spec.name, Unchanged, {}))
    ensures ApplyOne(cli, s, spec, write) == Step(s, Ok(ReportRow(spec.kind, spec.name, Unchanged, {})))
  {
    hide MatchAgent, FindNamed, Listing, ChangedFields;
  }

  lemma {:induction false} UnchangedPass(cli: Cli, s: Store, specs: seq<ResourceSpec>, write: bool)
    requires cli.Valid()
    requires forall i :: 0 <= i < |specs| ==>
               Report(cli, specs[i], View(cli, s, specs[i].kind, specs[i].name))
               == Ok(ReportRow(specs[i].kind, specs[i].name, Unchanged, {}))
    ensures Run(cli, s, specs, write) == Pass(s, UnchangedRows(specs), None)
    decreases |specs|
  {
    hide View, Report, ApplyOne;
    if specs != [] {
      UnchangedStep(cli, s, specs[0], write);
      UnchangedPass(cli, s, specs[1..], write);
      assert UnchangedRows(specs) == [ReportRow(specs[0].kind, specs[0].name, Unchanged, {})] + UnchangedRows(specs[1..]);
    }
  }

  ghost predicate SpecsOf(cli: Cli, specs: seq<ResourceSpec>, rows: seq<Doc>, kind: Kind) {
    |specs| == |rows| && UniquelyNamed(cli, rows)
    && forall i :: 0 <= i < |rows| ==>
         specs[i] == ResourceSpec(kind, cli.NameOf(rows[i]), Project(rows[i], PathsOf(cli, kind)))
  }

  /** What parsing an accepted export yields. */
  lemma ExportedSpecs(cli: Cli, s: Store)
    requires ExportsName(cli.profilePaths) && ExportsName(cli.agentPaths)
    requires ExportDocument(cli, s).Ok? && cli.ParseDocument(ExportDocument(cli, s).value).Ok?
    ensures var document := cli.ParseDocument(ExportDocument(cli, s).value).value;
            && SpecsOf(cli, document.profiles, Listing(cli, s.profiles), RuntimeProfile)
            && SpecsOf(cli, document.agents, s.agents, Agent)
  {
    ProjectedListParses(cli, Listing(cli, s.profiles), cli.profilePaths, RuntimeProfile);
    ProjectedListParses(cli, s.agents, cli.agentPaths, Agent);
  }

  lemma ExportedSpecIsUnchanged(cli: Cli, rows: seq<Doc>, specs: seq<ResourceSpec>, kind: Kind, i: nat)
    requires SpecsOf(cli, specs, rows, kind) && i < |specs|
    ensures MatchAgent(cli, rows, specs[i].name) == Ok(Some(rows[i]))
    ensures FindNamed(cli, rows, specs[i].name) == Some(rows[i])
    ensures Report(cli, specs[i], Ok(Some(rows[i]))) == Ok(ReportRow(specs[i].kind, specs[i].name, Unchanged, {}))
  {
    hide Project, ChangedFields, FirstNamed, MatchAgent, FindNamed;
    UniqueNameIsFound(cli, rows, i);
    ProjectionIsUnchanged(rows[i], PathsOf(cli, kind));
  }

  /** Applying an accepted export to the deployment it came from reports everything unchanged and sends no write. */
  lemma ExportIsAFixpoint(cli: Cli, s: Store, write: bool)
    requires cli.Valid()
    requires ExportsName(cli.profilePaths) && ExportsName(cli.agentPaths)
    requires ExportDocument(cli, s).Ok? && cli.ParseDocument(ExportDocument(cli, s).value).Ok?
    ensures var document := cli.ParseDocument(ExportDocument(cli, s).value).value;
            && |document.profiles| == |s.profiles| && |document.agents| == |s.agents|
            && PlanAndRun(cli, s, document, write) == Pass(s, UnchangedRows(document.profiles + document.agents), None)
  {
    hide ExportDocument, Report, MatchAgent, FindNamed, UniquelyNamed, Project, Run, Cli.ParseDocument, Cli.NameOf,
         Masked;
    var document := cli.ParseDocument(ExportDocument(cli, s).value).value;
    ExportedSpecs(cli, s);
    var profiles: seq<ResourceSpec>, agents: seq<ResourceSpec> := document.profiles, document.agents;
    forall i | 0 <= i < |profiles + agents|
      ensures var spec: ResourceSpec := (profiles + agents)[i];
              Report(cli, spec, View(cli, s, spec.kind, spec.name)) == Ok(ReportRow(spec.kind, spec.name, Unchanged, {}))
    {
      if i < |profiles| {
        ExportedSpecIsUnchanged(cli, Listing(cli, s.profiles), profiles, RuntimeProfile, i);
      } else {
        ExportedSpecIsUnchanged(cli, s.agents, agents, Agent, i - |profiles|);
      }
    }
    UnchangedPass(cli, s, profiles + agents, write);
  }

  /** An exported resource holds, under the key of every declared path that holds something, what is stored there; and nothing else. */
  ghost predicate Exports(item: Json, stored: Doc, paths: map<string, string>) {
    && item.Obj?
    && forall k ::
         && (k in item.members <==> k in paths && Walk(Obj(stored), Split(paths[k])) != Null)
         && (k in item.members ==> item.members[k] == Walk(Obj(stored), Split(paths[k])))
  }

  /** Nothing a deployment stores at a declared path is lost by exporting it, nested fields included. */
  lemma ExportReadsBack(cli: Cli, s: Store)
    requires ExportDocument(cli, s).Ok?
    ensures var body := ExportDocument(cli, s).value;
            && body.Obj? && body.members.Keys == {"version", "runtime_profiles", "agents"}
            && body.members["agents"].Arr? && body.members["runtime_profiles"].Arr?
            && var agents, profiles := body.members["agents"].items, body.members["runtime_profiles"].items;
            && |agents| == |s.agents| && |profiles| == |s.profiles|
            && (forall i :: 0 <= i < |agents| ==> Exports(agents[i], s.agents[i], cli.agentPaths))
            && (forall i :: 0 <= i < |profiles| ==> Exports(profiles[i], Masked(cli, s.profiles[i]), cli.profilePaths))
  {
    hide Walk, Split, Masked;
  }

  /** A secret is exported as its mask, never as its value. */
  lemma SecretsAreMasked(cli: Cli, stored: Doc, k: string)
    ensures Field(Masked(cli, stored), k) ==
            if k in cli.secrets && Field(stored, k) != Null then cli.mask else Field(stored, k)
  {
  }
}
