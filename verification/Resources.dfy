/**
 * Converging a deployment onto a document: the deployment's store, the lookups, the verdicts, and one pass of
 * `plan_and_run` as a function of the store.
 */
module Resources {
  import opened Prelude
  import opened Json
  import opened Documents
  import Paths
  import RequestBody

  datatype Action = Create | Update | Unchanged | Delete | Retained | Absent

  /** One row of a report; the sorted list of changed keys is their set. */
  datatype ReportRow = ReportRow(kind: Kind, name: string, action: Action, fields: set<string>)

  datatype CliError =
    | AmbiguousAgent(name: string, ids: set<Json>)
    | AmbiguousNames(conflicts: map<string, multiset<Json>>)
    | BodyTypeError
    | NoSuchAgent
    | VersionConflict

  /** What a deployment holds, and how many write requests it has received. */
  datatype Store = Store(agents: seq<Doc>, profiles: seq<Doc>, nextId: nat, writes: nat)

  const AGENT_ID := "agent_id"
  const VERSION := "version"
  const NAME := "name"

  function Field(doc: Doc, key: string): Json {
    if key in doc then doc[key] else Null
  }

  // ----- the deployment's side of each request

  function NextVersion(stored: Json): Json {
    if stored.Num? then Num(stored.n + 1.0) else Num(1.0)
  }

  function PostAgent(s: Store, body: Doc): Store {
    var row := body[AGENT_ID := Num(s.nextId as real)][VERSION := NextVersion(Null)];
    s.(agents := s.agents + [row], nextId := s.nextId + 1, writes := s.writes + 1)
  }

  function IndexOfId(agents: seq<Doc>, id: Json): (i: nat)
    ensures i <= |agents|
    ensures i < |agents| ==> AGENT_ID in agents[i] && agents[i][AGENT_ID] == id
    ensures forall j :: 0 <= j < i ==> AGENT_ID in agents[j] ==> agents[j][AGENT_ID] != id
  {
    if agents == [] || (AGENT_ID in agents[0] && agents[0][AGENT_ID] == id) then 0
    else 1 + IndexOfId(agents[1..], id)
  }

  /** An update replaces each member it names, and is refused when it carries another version than the stored one. */
  function PutAgent(s: Store, id: Json, body: Doc): (Store, Option<CliError>) {
    var i := IndexOfId(s.agents, id);
    var sent := s.(writes := s.writes + 1);
    if i == |s.agents| then (sent, Some(NoSuchAgent))
    else if VERSION in body && body[VERSION] != Field(s.agents[i], VERSION) then (sent, Some(VersionConflict))
    else
      var row := (s.agents[i] + body)[AGENT_ID := id][VERSION := NextVersion(Field(s.agents[i], VERSION))];
      (sent.(agents := s.agents[i := row]), None)
  }

  function IndexOfProfile(profiles: seq<Doc>, name: string): (i: nat)
    ensures i <= |profiles|
    ensures i < |profiles| ==> Field(profiles[i], NAME) == Str(name)
    ensures forall j :: 0 <= j < i ==> Field(profiles[j], NAME) != Str(name)
  {
    if profiles == [] || Field(profiles[0], NAME) == Str(name) then 0 else 1 + IndexOfProfile(profiles[1..], name)
  }

  /** Sending a mask back keeps the secret it stands for. */
  predicate Keeps(cli: Cli, stored: Doc, key: string, value: Json) {
    key in cli.secrets && value == cli.mask && Field(stored, key) != Null
  }

  function MergeProfile(cli: Cli, stored: Doc, body: Doc): Doc {
    stored + map k | k in body && !Keeps(cli, stored, k, body[k]) :: body[k]
  }

  function PutProfile(cli: Cli, s: Store, name: string, body: Doc): Store {
    var i := IndexOfProfile(s.profiles, name);
    var profiles :=
      if i < |s.profiles| then s.profiles[i := MergeProfile(cli, s.profiles[i], body)]
      else s.profiles + [MergeProfile(cli, map[NAME := Str(name)], body)];
    s.(profiles := profiles, writes := s.writes + 1)
  }

  /** A profile as it is listed: its secrets masked. */
  function Masked(cli: Cli, profile: Doc): Doc {
    map k | k in profile :: if k in cli.secrets && profile[k] != Null then cli.mask else profile[k]
  }

  // ----- the client's side

  /** The first row, from `from` on, with this name. */
  function FirstNamed(cli: Cli, rows: seq<Doc>, name: string, from: nat): (i: nat)
    requires from <= |rows|
    ensures from <= i <= |rows|
    ensures i < |rows| ==> cli.NameOf(rows[i]) == name
    ensures forall j :: from <= j < i ==> cli.NameOf(rows[j]) != name
    decreases |rows| - from
  {
    if from == |rows| || cli.NameOf(rows[from]) == name then from else FirstNamed(cli, rows, name, from + 1)
  }

  function MatchAgent(cli: Cli, agents: seq<Doc>, name: string): Result<Option<Doc>, CliError> {
    var i := FirstNamed(cli, agents, name, 0);
    if i == |agents| then Ok(None)
    else if FirstNamed(cli, agents, name, i + 1) < |agents| then
      Err(AmbiguousAgent(name, set j | 0 <= j < |agents| && cli.NameOf(agents[j]) == name :: Field(agents[j], AGENT_ID)))
    else Ok(Some(agents[i]))
  }

  function Listing(cli: Cli, profiles: seq<Doc>): seq<Doc> {
    seq(|profiles|, i requires 0 <= i < |profiles| => Masked(cli, profiles[i]))
  }

  function FindNamed(cli: Cli, listing: seq<Doc>, name: string): Option<Doc> {
    var i := FirstNamed(cli, listing, name, 0);
    if i == |listing| then None else Some(listing[i])
  }

  /** What looking a declared resource up answers. */
  function View(cli: Cli, s: Store, kind: Kind, name: string): Result<Option<Doc>, CliError> {
    match kind
    case RuntimeProfile => Ok(FindNamed(cli, Listing(cli, s.profiles), name))
    case Agent => MatchAgent(cli, s.agents, name)
  }

  function PathsOf(cli: Cli, kind: Kind): map<string, string> {
    match kind
    case RuntimeProfile => cli.profilePaths
    case Agent => cli.agentPaths
  }

  function ChangedFields(desired: Doc, existing: Option<Doc>, paths: map<string, string>): set<string> {
    set k | k in desired && k != NAME &&
            (existing.None? ||
             !PyEqual(Paths.Walk(Obj(existing.value), RequestBody.SegmentsOf(paths, k)), desired[k]))
  }

  function Verdict(existing: Option<Doc>, changed: set<string>): Action {
    if existing.None? then Create else if changed != {} then Update else Unchanged
  }

  /** The row a lookup answer leads to, whether or not anything is written. */
  function Report(cli: Cli, spec: ResourceSpec, view: Result<Option<Doc>, CliError>): Result<ReportRow, CliError> {
    match view
    case Err(e) => Err(e)
    case Ok(existing) =>
      var changed := ChangedFields(spec.fields, existing, PathsOf(cli, spec.kind));
      Ok(ReportRow(spec.kind, spec.name, Verdict(existing, changed), changed))
  }

  datatype Step = Step(store: Store, outcome: Result<ReportRow, CliError>)

  function ApplyProfile(cli: Cli, s: Store, spec: ResourceSpec, write: bool): Step {
    var existing := FindNamed(cli, Listing(cli, s.profiles), spec.name);
    var changed := ChangedFields(spec.fields, existing, cli.profilePaths);
    var action := Verdict(existing, changed);
    var row := ReportRow(spec.kind, spec.name, action, changed);
    if write && action != Unchanged then Step(PutProfile(cli, s, spec.name, spec.fields - {NAME}), Ok(row))
    else Step(s, Ok(row))
  }

  function Versioned(body: Doc, existing: Doc): Doc {
    if Field(existing, VERSION) != Null then body[VERSION := existing[VERSION]] else body
  }

  function ApplyAgent(cli: Cli, s: Store, spec: ResourceSpec, write: bool): Step
    requires cli.Valid()
  {
    match MatchAgent(cli, s.agents, spec.name)
    case Err(e) => Step(s, Err(e))
    case Ok(existing) =>
      var changed := ChangedFields(spec.fields, existing, cli.agentPaths);
      var action := Verdict(existing, changed);
      var row := ReportRow(spec.kind, spec.name, action, changed);
      if !write || action == Unchanged then Step(s, Ok(row))
      else
        var stored := if existing.Some? then existing.value else map[];
        match RequestBody.Build(cli.order(spec.fields), spec.fields, cli.agentPaths, stored)
        case None => Step(s, Err(BodyTypeError))
        case Some(body) =>
          if action == Create then Step(PostAgent(s, body), Ok(row))
          else
            var (s', refusal) := PutAgent(s, Field(stored, AGENT_ID), Versioned(body, stored));
            Step(s', if refusal.Some? then Err(refusal.value) else Ok(row))
  }

  function ApplyOne(cli: Cli, s: Store, spec: ResourceSpec, write: bool): Step
    requires cli.Valid()
  {
    match spec.kind
    case RuntimeProfile => ApplyProfile(cli, s, spec, write)
    case Agent => ApplyAgent(cli, s, spec, write)
  }

  /** A pass over declared resources: the final store, the rows reported, and the error that stopped it, if any. */
  datatype Pass = Pass(store: Store, rows: seq<ReportRow>, error: Option<CliError>)

  function Run(cli: Cli, s: Store, specs: seq<ResourceSpec>, write: bool): Pass
    requires cli.Valid()
    decreases |specs|
  {
    if specs == [] then Pass(s, [], None)
    else
      var step := ApplyOne(cli, s, specs[0], write);
      match step.outcome
      case Err(e) => Pass(step.store, [], Some(e))
      case Ok(row) =>
        var rest := Run(cli, step.store, specs[1..], write);
        Pass(rest.store, [row] + rest.rows, rest.error)
  }

  /** RuntimeProfiles first: an Agent names one. */
  function PlanAndRun(cli: Cli, s: Store, document: Document, write: bool): Pass
    requires cli.Valid()
  {
    Run(cli, s, document.profiles + document.agents, write)
  }
}
