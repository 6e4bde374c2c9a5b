/** The deployment as an object the client writes to, and the subcommands as they run against it. */
module Deployments {
  import opened Prelude
  import opened Json
  import opened Documents
  import opened Resources
  import RequestBody
  import Paths
  import Scaffold
  import Convergence
  import Applied

  class Deployment {
    var agents: seq<Doc>
    var profiles: seq<Doc>
    var nextId: nat
    var writes: nat

    function State(): Store
      reads this
    {
      Store(agents, profiles, nextId, writes)
    }

    constructor (agents: seq<Doc>, profiles: seq<Doc>, nextId: nat)
      ensures State() == Store(agents, profiles, nextId, 0)
    {
      this.agents, this.profiles, this.nextId, writes := agents, profiles, nextId, 0;
    }

    method Post(body: Doc)
      modifies this
      ensures State() == PostAgent(old(State()), body)
    {
      var row := body[AGENT_ID := Num(nextId as real)][VERSION := NextVersion(Null)];
      agents, nextId, writes := agents + [row], nextId + 1, writes + 1;
    }

    method Put(id: Json, body: Doc) returns (refusal: Option<CliError>)
      modifies this
      ensures (State(), refusal) == PutAgent(old(State()), id, body)
    {
      writes := writes + 1;
      var i := IndexOfId(agents, id);
      if i == |agents| {
        return Some(NoSuchAgent);
      }
      if VERSION in body && body[VERSION] != Field(agents[i], VERSION) {
        return Some(VersionConflict);
      }
      agents := agents[i := (agents[i] + body)[AGENT_ID := id][VERSION := NextVersion(Field(agents[i], VERSION))]];
      return None;
    }

    method PutPreset(cli: Cli, name: string, body: Doc)
      modifies this
      ensures State() == PutProfile(cli, old(State()), name, body)
    {
      var i := IndexOfProfile(profiles, name);
      if i < |profiles| {
        profiles := profiles[i := MergeProfile(cli, profiles[i], body)];
      } else {
        profiles := profiles + [MergeProfile(cli, map[NAME := Str(name)], body)];
      }
      writes := writes + 1;
    }

    method Delete(id: Json)
      modifies this
      ensures State() == DeleteAgent(old(State()), id)
    {
      var i := IndexOfId(agents, id);
      if i < |agents| {
        agents := agents[..i] + agents[i + 1..];
      }
      writes := writes + 1;
    }
  }

  method ApplyRuntimeProfile(cli: Cli, client: Deployment, spec: ResourceSpec, write: bool)
    returns (row: Result<ReportRow, CliError>)
    modifies client
    ensures Step(client.State(), row) == ApplyProfile(cli, old(client.State()), spec, write)
  {
    var existing := FindNamed(cli, Listing(cli, client.profiles), spec.name);
    var changed := ChangedFields(spec.fields, existing, cli.profilePaths);
    var action := Verdict(existing, changed);
    if write && action != Unchanged {
      client.PutPreset(cli, spec.name, spec.fields - {NAME});
    }
    return Ok(ReportRow(spec.kind, spec.name, action, changed));
  }

  method ApplyAgentSpec(cli: Cli, client: Deployment, spec: ResourceSpec, write: bool)
    returns (row: Result<ReportRow, CliError>)
    requires cli.Valid()
    modifies client
    ensures Step(client.State(), row) == ApplyAgent(cli, old(client.State()), spec, write)
  {
    var found := MatchAgent(cli, client.agents, spec.name);
    if found.Err? {
      return Err(found.error);
    }
    var existing := found.value;
    var changed := ChangedFields(spec.fields, existing, cli.agentPaths);
    var action := Verdict(existing, changed);
    if write && action != Unchanged {
      var body := RequestBody.BuildBody(spec.fields, cli.order(spec.fields), cli.agentPaths, existing);
      if body == None {
        return Err(BodyTypeError);
      }
      if action == Create {
        client.Post(body.value);
      } else {
        var refusal := client.Put(Field(existing.value, AGENT_ID), Versioned(body.value, existing.value));
        if refusal.Some? {
          return Err(refusal.value);
        }
      }
    }
    return Ok(ReportRow(spec.kind, spec.name, action, changed));
  }

  /** One list of specs, row by row, up to the first error. */
  method ApplyList(cli: Cli, client: Deployment, specs: seq<ResourceSpec>, write: bool)
    returns (rows: seq<ReportRow>, error: Option<CliError>)
    requires cli.Valid()
    modifies client
    ensures Pass(client.State(), rows, error) == Run(cli, old(client.State()), specs, write)
  {
    hide ApplyProfile, ApplyAgent;
    rows := [];
    for n := 0 to |specs|
      invariant Run(cli, old(client.State()), specs, write)
             == Prepend(rows, Run(cli, client.State(), specs[n..], write))
    {
      ghost var before := client.State();
      var row: Result<ReportRow, CliError>;
      assert specs[n..][0] == specs[n] && specs[n..][1..] == specs[n + 1..];
      if specs[n].kind == RuntimeProfile {
        row := ApplyRuntimeProfile(cli, client, specs[n], write);
      } else {
        row := ApplyAgentSpec(cli, client, specs[n], write);
      }
      assert ApplyOne(cli, before, specs[n], write) == Step(client.State(), row);
      if row.Err? {
        return rows, Some(row.error);
      }
      PrependTwice(rows, [row.value], Run(cli, client.State(), specs[n + 1..], write));
      rows := rows + [row.value];
    }
    return rows, None;
  }

  function Prepend(rows: seq<ReportRow>, pass: Pass): Pass {
    pass.(rows := rows + pass.rows)
  }

  lemma RunInTwo(cli: Cli, s: Store, first: seq<ResourceSpec>, second: seq<ResourceSpec>, write: bool)
    requires cli.Valid()
    ensures var a := Run(cli, s, first, write);
            Run(cli, s, first + second, write)
            == if a.error.Some? then a else Prepend(a.rows, Run(cli, a.store, second, write))
    decreases |first|
  {
    if first == [] {
      assert first + second == second;
      assert Prepend([], Run(cli, s, second, write)) == Run(cli, s, second, write);
    } else {
      var step := ApplyOne(cli, s, first[0], write);
      if step.outcome.Ok? {
        assert (first + second)[0] == first[0] && (first + second)[1..] == first[1..] + second;
        RunInTwo(cli, step.store, first[1..], second, write);
        var head := Run(cli, step.store, first[1..], write);
        PrependTwice([step.outcome.value], head.rows, Run(cli, head.store, second, write));
      }
    }
  }

  lemma PrependTwice(a: seq<ReportRow>, b: seq<ReportRow>, pass: Pass)
    ensures Prepend(a, Prepend(b, pass)) == Prepend(a + b, pass)
  {
    assert a + (b + pass.rows) == (a + b) + pass.rows;
  }

  method PlanAndRunOn(cli: Cli, client: Deployment, document: Document, write: bool)
    returns (rows: seq<ReportRow>, error: Option<CliError>)
    requires cli.Valid()
    modifies client
    ensures Pass(client.State(), rows, error) == PlanAndRun(cli, old(client.State()), document, write)
  {
    hide ApplyOne;
    RunInTwo(cli, client.State(), document.profiles, document.agents, write);
    rows, error := ApplyList(cli, client, document.profiles, write);
    if error == None {
      var more: seq<ReportRow>;
      more, error := ApplyList(cli, client, document.agents, write);
      rows := rows + more;
    }
  }

  // ----- destroy

  function DeleteAgent(s: Store, id: Json): Store {
    var i := IndexOfId(s.agents, id);
    s.(agents := if i < |s.agents| then s.agents[..i] + s.agents[i + 1..] else s.agents, writes := s.writes + 1)
  }

  function DestroyOne(cli: Cli, s: Store, spec: ResourceSpec): Step {
    match MatchAgent(cli, s.agents, spec.name)
    case Err(e) => Step(s, Err(e))
    case Ok(None) => Step(s, Ok(ReportRow(spec.kind, spec.name, Absent, {})))
    case Ok(Some(row)) => Step(DeleteAgent(s, Field(row, AGENT_ID)), Ok(ReportRow(spec.kind, spec.name, Action.Delete, {})))
  }

  function DestroyAgents(cli: Cli, s: Store, specs: seq<ResourceSpec>): Pass
    decreases |specs|
  {
    if specs == [] then Pass(s, [], None)
    else
      var step := DestroyOne(cli, s, specs[0]);
      match step.outcome
      case Err(e) => Pass(step.store, [], Some(e))
      case Ok(row) => Prepend([row], DestroyAgents(cli, step.store, specs[1..]))
  }

  function RetainedRows(specs: seq<ResourceSpec>): seq<ReportRow> {
    if specs == [] then []
    else
      var last := specs[|specs| - 1];
      RetainedRows(specs[..|specs| - 1]) + [ReportRow(last.kind, last.name, Retained, {})]
  }

  method Destroy(cli: Cli, client: Deployment, document: Document)
    returns (rows: seq<ReportRow>, error: Option<CliError>)
    modifies client
    ensures var pass := DestroyAgents(cli, old(client.State()), document.agents);
            && client.State() == pass.store && error == pass.error
            && rows == pass.rows + if pass.error.Some? then [] else RetainedRows(document.profiles)
  {
    rows, error := DestroyDeclared(cli, client, document.agents);
    if error == None {
      var retained := Retain(document.profiles);
      rows := rows + retained;
    }
  }

  method Retain(specs: seq<ResourceSpec>) returns (rows: seq<ReportRow>)
    ensures rows == RetainedRows(specs)
  {
    rows := [];
    for n := 0 to |specs|
      invariant rows == RetainedRows(specs[..n])
    {
      assert specs[..n + 1][..n] == specs[..n] && specs[..n + 1][n] == specs[n];
      rows := rows + [ReportRow(specs[n].kind, specs[n].name, Retained, {})];
    }
    assert specs[..|specs|] == specs;
  }

  method DestroyDeclared(cli: Cli, client: Deployment, specs: seq<ResourceSpec>)
    returns (rows: seq<ReportRow>, error: Option<CliError>)
    modifies client
    ensures Pass(client.State(), rows, error) == DestroyAgents(cli, old(client.State()), specs)
  {
    rows := [];
    for n := 0 to |specs|
      invariant DestroyAgents(cli, old(client.State()), specs)
             == Prepend(rows, DestroyAgents(cli, client.State(), specs[n..]))
    {
      assert specs[n..][0] == specs[n] && specs[n..][1..] == specs[n + 1..];
      ghost var before := client.State();
      var found := MatchAgent(cli, client.agents, specs[n].name);
      if found.Err? {
        return rows, Some(found.error);
      }
      var row: ReportRow;
      if found.value == None {
        row := ReportRow(specs[n].kind, specs[n].name, Absent, {});
      } else {
        client.Delete(Field(found.value.value, AGENT_ID));
        row := ReportRow(specs[n].kind, specs[n].name, Action.Delete, {});
      }
      assert DestroyOne(cli, before, specs[n]) == Step(client.State(), Ok(row));
      PrependTwice(rows, [row], DestroyAgents(cli, client.State(), specs[n + 1..]));
      rows := rows + [row];
    }
    return rows, None;
  }

  /** The rows that bear none of the names, in order. */
  function Without(cli: Cli, rows: seq<Doc>, names: set<string>): seq<Doc> {
    if rows == [] then []
    else
      var last := rows[|rows| - 1];
      Without(cli, rows[..|rows| - 1], names) + if cli.NameOf(last) in names then [] else [last]
  }

  lemma WithoutSplits(cli: Cli, a: seq<Doc>, b: seq<Doc>, names: set<string>)
    ensures Without(cli, a + b, names) == Without(cli, a, names) + Without(cli, b, names)
  {
    if b == [] {
      assert a + b == a;
    } else {
      assert (a + b)[..|a + b| - 1] == a + b[..|b| - 1];
      WithoutSplits(cli, a, b[..|b| - 1], names);
    }
  }

  lemma {:induction false} WithoutNone(cli: Cli, rows: seq<Doc>, names: set<string>)
    requires forall i :: 0 <= i < |rows| ==> cli.NameOf(rows[i]) !in names
    ensures Without(cli, rows, names) == rows
  {
    if rows != [] {
      WithoutNone(cli, rows[..|rows| - 1], names);
    }
  }

  lemma WithoutTwice(cli: Cli, rows: seq<Doc>, a: set<string>, b: set<string>)
    ensures Without(cli, Without(cli, rows, a), b) == Without(cli, rows, a + b)
  {
    if rows != [] {
      var before, last := rows[..|rows| - 1], rows[|rows| - 1];
      WithoutTwice(cli, before, a, b);
      WithoutSplits(cli, Without(cli, before, a), if cli.NameOf(last) in a then [] else [last], b);
    }
  }

  lemma WithoutSingle(cli: Cli, row: Doc, names: set<string>)
    requires cli.NameOf(row) in names
    ensures Without(cli, [row], names) == []
  {
    assert [row][..0] == [];
  }

  lemma WithoutOne(cli: Cli, rows: seq<Doc>, i: nat)
    requires i < |rows|
    requires forall j :: 0 <= j < |rows| && j != i ==> cli.NameOf(rows[j]) != cli.NameOf(rows[i])
    ensures Without(cli, rows, {cli.NameOf(rows[i])}) == rows[..i] + rows[i + 1..]
  {
    hide Without, Cli.NameOf;
    var names, before, after := {cli.NameOf(rows[i])}, rows[..i], rows[i + 1..];
    assert rows == (before + [rows[i]]) + after;
    WithoutSplits(cli, before + [rows[i]], after, names);
    WithoutSplits(cli, before, [rows[i]], names);
    WithoutSingle(cli, rows[i], names);
    WithoutNone(cli, before, names);
    WithoutNone(cli, after, names);
    assert before + [] == before;
  }

  lemma DestroyOneRemoves(cli: Cli, s: Store, spec: ResourceSpec)
    requires Convergence.ValidIds(s.agents, s.nextId) && DestroyOne(cli, s, spec).outcome.Ok?
    ensures var s' := DestroyOne(cli, s, spec).store;
            && s' == s.(agents := Without(cli, s.agents, {spec.name}), writes := s'.writes)
            && Convergence.ValidIds(s'.agents, s'.nextId)
  {
    hide Cli.NameOf, Without, Convergence.ValidIds;
    var i := FirstNamed(cli, s.agents, spec.name, 0);
    if i == |s.agents| {
      WithoutNone(cli, s.agents, {spec.name});
    } else {
      WithoutOne(cli, s.agents, i);
      IdsAreIndexes(s.agents, i, s.nextId);
      RemovalKeepsIds(s.agents, i, s.nextId);
    }
  }

  lemma IdsAreIndexes(agents: seq<Doc>, i: nat, nextId: nat)
    requires Convergence.ValidIds(agents, nextId) && i < |agents|
    ensures AGENT_ID in agents[i] && IndexOfId(agents, agents[i][AGENT_ID]) == i
  {
  }

  lemma RemovalKeepsIds(agents: seq<Doc>, i: nat, nextId: nat)
    requires Convergence.ValidIds(agents, nextId) && i < |agents|
    ensures Convergence.ValidIds(agents[..i] + agents[i + 1..], nextId)
  {
    var left := agents[..i] + agents[i + 1..];
    assert forall j :: 0 <= j < |left| ==> left[j] == agents[if j < i then j else j + 1];
  }

  function DeclaredNames(specs: seq<ResourceSpec>): set<string> {
    if specs == [] then {} else {specs[0].name} + DeclaredNames(specs[1..])
  }

  /**
   * A destroy that is not stopped by an ambiguous name leaves exactly the Agents whose names the document does not
   * declare, in their order, and every profile.
   */
  lemma DestroyRemovesTheDeclared(cli: Cli, s: Store, specs: seq<ResourceSpec>)
    requires Convergence.ValidIds(s.agents, s.nextId)
    ensures var pass := DestroyAgents(cli, s, specs);
            && pass.store.profiles == s.profiles
            && (pass.error == None ==> pass.store.agents == Without(cli, s.agents, DeclaredNames(specs)))
    decreases |specs|
  {
    if specs == [] {
      WithoutNone(cli, s.agents, {});
    } else {
      var step := DestroyOne(cli, s, specs[0]);
      if step.outcome.Ok? {
        DestroyOneRemoves(cli, s, specs[0]);
        DestroyRemovesTheDeclared(cli, step.store, specs[1..]);
        WithoutTwice(cli, s.agents, {specs[0].name}, DeclaredNames(specs[1..]));
      }
    }
  }

  predicate Bears(cli: Cli, rows: seq<Doc>, name: string) {
    exists i :: 0 <= i < |rows| && cli.NameOf(rows[i]) == name
  }

  predicate Shares(cli: Cli, rows: seq<Doc>, name: string) {
    exists i, j :: 0 <= i < j < |rows| && cli.NameOf(rows[i]) == cli.NameOf(rows[j]) == name
  }

  /** What a destroy reports of one declared Agent. */
  predicate DestroyReported(cli: Cli, agents: seq<Doc>, spec: ResourceSpec, row: ReportRow) {
    row == ReportRow(spec.kind, spec.name, if Bears(cli, agents, spec.name) then Action.Delete else Absent, {})
  }

  /**
   * A destroy of declared names, each its own, reports each Agent found as deleted and each other one as absent, and
   * stops exactly at the first name several Agents share.
   */
  lemma DestroyReports(cli: Cli, s: Store, specs: seq<ResourceSpec>)
    requires Convergence.ValidIds(s.agents, s.nextId)
    requires forall i, j :: 0 <= i < j < |specs| ==> specs[i].name != specs[j].name
    ensures var pass := DestroyAgents(cli, s, specs);
            && (forall k :: 0 <= k < |pass.rows| ==> k < |specs| && DestroyReported(cli, s.agents, specs[k], pass.rows[k]))
            && (pass.error == None ==> |pass.rows| == |specs|)
            && (pass.error.Some? ==> |pass.rows| < |specs| && Shares(cli, s.agents, specs[|pass.rows|].name))
    decreases |specs|
  {
    hide Cli.NameOf, DestroyOne, Convergence.ValidIds, Bears, Shares, Without;
    if specs != [] {
      var step := DestroyOne(cli, s, specs[0]);
      OneDestroyed(cli, s, specs[0]);
      if step.outcome.Ok? {
        DestroyOneRemoves(cli, s, specs[0]);
        DestroyReports(cli, step.store, specs[1..]);
        var pass := DestroyAgents(cli, step.store, specs[1..]);
        forall k | 0 <= k < |specs[1..]|
          ensures Bears(cli, s.agents, specs[k + 1].name) == Bears(cli, step.store.agents, specs[1..][k].name)
          ensures Shares(cli, step.store.agents, specs[1..][k].name) ==> Shares(cli, s.agents, specs[k + 1].name)
        {
          NamesLeft(cli, s.agents, {specs[0].name}, specs[k + 1].name);
          if Shares(cli, step.store.agents, specs[1..][k].name) {
            SharersLeft(cli, s.agents, {specs[0].name}, specs[k + 1].name);
          }
        }
      }
    }
  }

  lemma OneDestroyed(cli: Cli, s: Store, spec: ResourceSpec)
    ensures match DestroyOne(cli, s, spec).outcome
            case Ok(row) => DestroyReported(cli, s.agents, spec, row)
            case Err(_) => Shares(cli, s.agents, spec.name)
  {
    hide Cli.NameOf, MatchAgent, DeleteAgent;
    Applied.OneNamed(cli, s.agents, spec.name);
  }

  lemma BearsSnoc(cli: Cli, rows: seq<Doc>, row: Doc, name: string)
    ensures Bears(cli, rows + [row], name) <==> Bears(cli, rows, name) || cli.NameOf(row) == name
  {
    hide Cli.NameOf;
    var all := rows + [row];
    assert forall i :: 0 <= i < |rows| ==> all[i] == rows[i];
    assert all[|rows|] == row;
  }

  lemma SharesSnoc(cli: Cli, rows: seq<Doc>, row: Doc, name: string)
    ensures Shares(cli, rows + [row], name) <==>
            Shares(cli, rows, name) || (cli.NameOf(row) == name && Bears(cli, rows, name))
  {
    hide Cli.NameOf;
    var all := rows + [row];
    assert forall i :: 0 <= i < |rows| ==> all[i] == rows[i];
    assert all[|rows|] == row;
    if Shares(cli, rows, name) {
      var i, j :| 0 <= i < j < |rows| && cli.NameOf(rows[i]) == cli.NameOf(rows[j]) == name;
      assert cli.NameOf(all[i]) == cli.NameOf(all[j]) == name;
    }
    if cli.NameOf(row) == name && Bears(cli, rows, name) {
      var i :| 0 <= i < |rows| && cli.NameOf(rows[i]) == name;
      assert cli.NameOf(all[i]) == cli.NameOf(all[|rows|]) == name;
    }
  }

  lemma WithoutSnoc(cli: Cli, before: seq<Doc>, last: Doc, names: set<string>)
    ensures Without(cli, before + [last], names)
         == if cli.NameOf(last) in names then Without(cli, before, names) else Without(cli, before, names) + [last]
  {
    assert (before + [last])[..|before|] == before;
  }

  /** Removing rows of other names leaves the rows of a name. */
  lemma {:induction false} NamesLeft(cli: Cli, rows: seq<Doc>, names: set<string>, name: string)
    requires name !in names
    ensures Bears(cli, Without(cli, rows, names), name) <==> Bears(cli, rows, name)
  {
    hide Cli.NameOf, Bears;
    if rows != [] {
      var before, last := rows[..|rows| - 1], rows[|rows| - 1];
      NamesLeft(cli, before, names, name);
      assert rows == before + [last];
      BearsSnoc(cli, before, last, name);
      BearsSnoc(cli, Without(cli, before, names), last, name);
      WithoutSnoc(cli, before, last, names);
    }
  }

  lemma {:induction false} SharersLeft(cli: Cli, rows: seq<Doc>, names: set<string>, name: string)
    requires name !in names && Shares(cli, Without(cli, rows, names), name)
    ensures Shares(cli, rows, name)
  {
    hide Cli.NameOf, Bears, Shares;
    if rows == [] {
      assert false by { NobodyShares(cli, name); }
    } else {
      var before, last := rows[..|rows| - 1], rows[|rows| - 1];
      assert rows == before + [last];
      SharesSnoc(cli, before, last, name);
      SharesSnoc(cli, Without(cli, before, names), last, name);
      NamesLeft(cli, before, names, name);
      WithoutSnoc(cli, before, last, names);
      if Shares(cli, Without(cli, before, names), name) {
        SharersLeft(cli, before, names, name);
      }
    }
  }

  lemma NobodyShares(cli: Cli, name: string)
    ensures !Shares(cli, [], name)
  {
  }

  /** Every declared profile is reported as retained, in order. */
  lemma {:induction false} ProfilesAreRetained(specs: seq<ResourceSpec>)
    ensures |RetainedRows(specs)| == |specs|
    ensures forall k :: 0 <= k < |specs| ==> RetainedRows(specs)[k] == ReportRow(specs[k].kind, specs[k].name, Retained, {})
  {
    if specs != [] {
      ProfilesAreRetained(specs[..|specs| - 1]);
    }
  }
}
