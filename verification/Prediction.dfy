/** A dry run predicts applying: exactly for which documents, on every deployment. */
module Prediction {
  import opened Prelude
  import opened Json
  import opened Documents
  import opened Resources
  import opened Paths
  import opened RequestBody
  import opened Convergence
  import Text

  // ----- the condition, one declared Agent at a time

  /**
   * Writing the Agent ends in an accepted request that gives no row the name of a resource declared later: as a new
   * row, and over any one row of its name that differs from it.
   */
  ghost predicate Foretold(cli: Cli, spec: ResourceSpec, later: set<string>)
    requires cli.Valid()
  {
    && BodyOf(cli, spec, map[]).Some?
    && NameAfter(cli, BodyOf(cli, spec, map[]).value, map[]) !in later
    && (forall row: Doc :: Updates(cli, spec, row) ==> SafelyUpdated(cli, spec, row, later))
  }

  /** Applying would update this row: it is one the deployment may hold, of the Agent's name, and differs. */
  predicate Updates(cli: Cli, spec: ResourceSpec, row: Doc) {
    AGENT_ID in row && cli.NameOf(row) == spec.name && ChangedFields(spec.fields, Some(row), cli.agentPaths) != {}
  }

  predicate SafelyUpdated(cli: Cli, spec: ResourceSpec, row: Doc, later: set<string>)
    requires cli.Valid()
  {
    var body := BodyOf(cli, spec, row);
    body.Some? && !Refused(body.value, row) && NameAfter(cli, body.value, row) !in later
  }

  ghost predicate AllForetold(cli: Cli, specs: seq<ResourceSpec>)
    requires cli.Valid()
  {
    forall i :: 0 <= i < |specs| && specs[i].kind == Agent ==> Foretold(cli, specs[i], NamesOf(specs[i + 1..], Agent))
  }

  /** The two runs agree: the same rows, and the same error at the same resource if any. */
  predicate Agree(cli: Cli, s: Store, specs: seq<ResourceSpec>)
    requires cli.Valid()
  {
    var dry, wet := Run(cli, s, specs, false), Run(cli, s, specs, true);
    dry.rows == wet.rows && dry.error == wet.error
  }

  // ----- the condition suffices

  lemma AgentIsForetold(cli: Cli, s: Store, spec: ResourceSpec, later: set<string>)
    requires ValidCli(cli) && ValidStore(cli, s) && spec.kind == Agent && Foretold(cli, spec, later)
    ensures var step := ApplyAgent(cli, s, spec, true);
            && step.outcome == Report(cli, spec, MatchAgent(cli, s.agents, spec.name))
            && (forall name :: name in later && name != spec.name ==>
                  MatchAgent(cli, step.store.agents, name) == MatchAgent(cli, s.agents, name))
  {
    hide ChangedFields, Cli.NameOf, ApplyAgent, MatchAgent, Build, Report, Replaced, NameAfter, Refused;
    if CallsForWrite(cli, s, spec) {
      var i, stored := AgentWrites(cli, s, spec);
      var agents' := ApplyAgent(cli, s, spec, true).store.agents;
      if i < |s.agents| {
        assert Updates(cli, spec, stored);
      }
      forall name | name in later && name != spec.name
        ensures MatchAgent(cli, agents', name) == MatchAgent(cli, s.agents, name)
      {
        OtherLookupsStand(cli, s.agents, agents', i, name);
      }
    } else {
      AgentLeftAlone(cli, s, spec);
    }
  }

  lemma OneIsForetold(cli: Cli, s: Store, spec: ResourceSpec, rest: seq<ResourceSpec>)
    requires ValidCli(cli) && ValidStore(cli, s) && Named(cli, spec)
    requires spec.kind == Agent ==> Foretold(cli, spec, NamesOf(rest, Agent))
    requires forall i :: 0 <= i < |rest| ==> rest[i].kind != spec.kind || rest[i].name != spec.name
    ensures var step := ApplyOne(cli, s, spec, true);
            && step.outcome == Report(cli, spec, View(cli, s, spec.kind, spec.name))
            && ValidStore(cli, step.store)
            && (forall i :: 0 <= i < |rest| ==>
                  View(cli, step.store, rest[i].kind, rest[i].name) == View(cli, s, rest[i].kind, rest[i].name))
  {
    hide Cli.NameOf, ApplyAgent, ApplyProfile, MatchAgent, FindNamed, Listing, Report, Foretold, ValidStore, Named;
    OneTurn(cli, s, spec);
    match spec.kind {
      case Agent =>
        AgentIsForetold(cli, s, spec, NamesOf(rest, Agent));
        AgentTurn(cli, s, spec);
        assert forall i :: 0 <= i < |rest| && rest[i].kind == Agent ==> rest[i].name in NamesOf(rest, Agent);
      case RuntimeProfile =>
        ProfileTurn(cli, s, spec);
    }
  }

  /** From stores that answer alike, a dry pass reports what a writing one does, and stops where it stops. */
  lemma {:induction false} DryPassPredicts(cli: Cli, s0: Store, s: Store, specs: seq<ResourceSpec>)
    requires ValidCli(cli) && ValidStore(cli, s) && Distinct(specs) && AllNamed(cli, specs) && AllForetold(cli, specs)
    requires forall i :: 0 <= i < |specs| ==>
               View(cli, s, specs[i].kind, specs[i].name) == View(cli, s0, specs[i].kind, specs[i].name)
    ensures var dry, wet := Run(cli, s0, specs, false), Run(cli, s, specs, true);
            dry.rows == wet.rows && dry.error == wet.error
    decreases |specs|
  {
    hide View, Named, Foretold, ValidStore, Report;
    if specs != [] {
      var rest := specs[1..];
      OneIsForetold(cli, s, specs[0], rest);
      var step := ApplyOne(cli, s, specs[0], true);
      DryStep(cli, s0, specs[0]);
      if step.outcome.Ok? {
        forall i | 0 <= i < |rest| && rest[i].kind == Agent
          ensures Foretold(cli, rest[i], NamesOf(rest[i + 1..], Agent))
        {
          assert rest[i] == specs[i + 1] && rest[i + 1..] == specs[i + 2..];
        }
        DryPassPredicts(cli, s0, step.store, rest);
      }
    }
  }

  lemma DryStep(cli: Cli, s: Store, spec: ResourceSpec)
    requires cli.Valid()
    ensures ApplyOne(cli, s, spec, false) == Step(s, Report(cli, spec, View(cli, s, spec.kind, spec.name)))
  {
  }

  // ----- the condition is needed

  /** A pass that ends well reaches its `i`-th resource, in a deployment where every row of another name still stands. */
  lemma {:induction false} Reached(cli: Cli, s: Store, specs: seq<ResourceSpec>, i: nat) returns (t: Store)
    requires ValidCli(cli) && ValidStore(cli, s) && AllNamed(cli, specs) && i < |specs|
    requires Run(cli, s, specs, true).error == None
    ensures ValidStore(cli, t) && SparesRows(cli, s.agents, t.agents, NamesOf(specs[..i], Agent))
    ensures var rows, step := Run(cli, s, specs, true).rows, ApplyOne(cli, t, specs[i], true);
            && |rows| == |specs| && step.outcome == Ok(rows[i])
            && Run(cli, step.store, specs[i + 1..], true) == Run(cli, s, specs, true).(rows := rows[i + 1..])
    decreases |specs|
  {
    hide ApplyOne, ValidStore, Named, NamesOf, SparesRows, KeepsRows;
    var step := ApplyOne(cli, s, specs[0], true);
    if i == 0 {
      t := s;
      SameRowsAreKept(cli, s, NamesOf([], Agent), {});
      AllRowsReported(cli, step.store, specs[1..]);
    } else {
      OneTurn(cli, s, specs[0]);
      t := Reached(cli, step.store, specs[1..], i - 1);
      assert specs[..i][1..] == specs[1..][..i - 1] && specs[..i][0] == specs[0];
      NamesOfParts(specs[..i], Agent);
      SparingComposes(cli, s.agents, step.store.agents, t.agents,
                      NamesOf([specs[0]], Agent), NamesOf(specs[1..][..i - 1], Agent), NamesOf(specs[..i], Agent));
      assert specs[1..][i - 1 + 1..] == specs[i + 1..];
    }
  }

  lemma {:induction false} AllRowsReported(cli: Cli, s: Store, specs: seq<ResourceSpec>)
    requires cli.Valid() && Run(cli, s, specs, true).error == None
    ensures |Run(cli, s, specs, true).rows| == |specs|
    decreases |specs|
  {
    hide ApplyOne;
    if specs != [] {
      AllRowsReported(cli, ApplyOne(cli, s, specs[0], true).store, specs[1..]);
    }
  }

  /** A dry pass over a deployment of at most one Agent ends well, and announces what it does not find. */
  lemma {:induction false} DryPassReports(cli: Cli, s: Store, specs: seq<ResourceSpec>)
    requires cli.Valid() && |s.agents| <= 1
    ensures var dry := Run(cli, s, specs, false);
            && dry.error == None && |dry.rows| == |specs|
            && (forall i :: 0 <= i < |specs| && specs[i].kind == Agent && Unnamed(cli, s.agents, specs[i].name) ==>
                  dry.rows[i].action == Create)
    decreases |specs|
  {
    hide Cli.NameOf, ChangedFields, FindNamed, Listing;
    if specs != [] {
      DryStep(cli, s, specs[0]);
      DryPassReports(cli, s, specs[1..]);
      var rest := Run(cli, s, specs[1..], false);
      var first := ApplyOne(cli, s, specs[0], false);
      assert Run(cli, s, specs, false).rows == [first.outcome.value] + rest.rows;
    }
  }

  /** No row bears the name. */
  predicate Unnamed(cli: Cli, rows: seq<Doc>, name: string) {
    forall i :: 0 <= i < |rows| ==> cli.NameOf(rows[i]) != name
  }

  /** A row of the name, once there, keeps a later pass from creating that Agent. */
  lemma NotCreated(cli: Cli, s: Store, specs: seq<ResourceSpec>, j: nat)
    requires ValidCli(cli) && ValidStore(cli, s) && Distinct(specs) && AllNamed(cli, specs)
    requires j < |specs| && specs[j].kind == Agent && !Unnamed(cli, s.agents, specs[j].name)
    requires Run(cli, s, specs, true).error == None
    ensures |Run(cli, s, specs, true).rows| == |specs| && Run(cli, s, specs, true).rows[j].action != Create
  {
    hide ChangedFields, Cli.NameOf, ValidStore, Named, Run, Build;
    var t := Reached(cli, s, specs, j);
    var r :| 0 <= r < |s.agents| && cli.NameOf(s.agents[r]) == specs[j].name;
    assert t.agents[r] == s.agents[r];
  }

  /** A deployment that holds nothing but one row. */
  function Holding(row: Doc): Store
    requires AGENT_ID in row
  {
    var id := row[AGENT_ID];
    Store([row], [], if id.Num? && id.n >= 0.0 then id.n.Floor + 1 else 0, 0)
  }

  lemma HoldingIsValid(cli: Cli, row: Doc)
    requires AGENT_ID in row
    ensures ValidStore(cli, Holding(row))
  {
  }

  /** Each Agent is announced as one to create. */
  predicate Announced(specs: seq<ResourceSpec>, rows: seq<ReportRow>) {
    |rows| == |specs| && forall k :: 0 <= k < |specs| && specs[k].kind == Agent ==> rows[k].action == Create
  }

  /** The write called for is accepted, and gives its row no later name. */
  predicate SafelyWritten(cli: Cli, s: Store, spec: ResourceSpec, later: set<string>)
    requires cli.Valid()
  {
    var i := FirstNamed(cli, s.agents, spec.name, 0);
    if i < |s.agents| then SafelyUpdated(cli, spec, s.agents[i], later)
    else BodyOf(cli, spec, map[]).Some? && NameAfter(cli, BodyOf(cli, spec, map[]).value, map[]) !in later
  }

  /** A turn that ends well, and after which every later Agent is created, wrote safely. */
  lemma CreatedAfter(cli: Cli, s: Store, spec: ResourceSpec, rest: seq<ResourceSpec>)
    requires ValidCli(cli) && ValidStore(cli, s) && spec.kind == Agent && CallsForWrite(cli, s, spec)
    requires Named(cli, spec) && Distinct(rest) && AllNamed(cli, rest)
    requires ApplyAgent(cli, s, spec, true).outcome.Ok?
    requires var pass := Run(cli, ApplyAgent(cli, s, spec, true).store, rest, true);
             pass.error == None && Announced(rest, pass.rows)
    ensures SafelyWritten(cli, s, spec, NamesOf(rest, Agent))
  {
    hide Run, ChangedFields, Cli.NameOf, Named, ApplyAgent, Build, NameAfter, Refused, Report, Distinct;
    var k, stored := AgentWrites(cli, s, spec);
    var s', name := ApplyAgent(cli, s, spec, true).store, NameAfter(cli, BodyOf(cli, spec, stored).value, stored);
    if name in NamesOf(rest, Agent) {
      AgentTurn(cli, s, spec);
      var j :| 0 <= j < |rest| && rest[j].kind == Agent && rest[j].name == name;
      assert Replaced(s.agents, s'.agents, k);
      NotCreated(cli, s', rest, j);
    }
  }

  /** Agreeing on a deployment that holds at most one row, a document writes its `i`-th Agent safely. */
  lemma AgreementForetells(cli: Cli, s: Store, specs: seq<ResourceSpec>, i: nat) returns (t: Store)
    requires ValidCli(cli) && Distinct(specs) && AllNamed(cli, specs) && i < |specs| && specs[i].kind == Agent
    requires ValidStore(cli, s) && |s.agents| <= 1 && Agree(cli, s, specs)
    requires forall j :: i < j < |specs| && specs[j].kind == Agent ==> Unnamed(cli, s.agents, specs[j].name)
    ensures ValidStore(cli, t) && SparesRows(cli, s.agents, t.agents, NamesOf(specs[..i], Agent))
    ensures var outcome := ApplyAgent(cli, t, specs[i], true).outcome;
            outcome.Ok? && (Unnamed(cli, s.agents, specs[i].name) ==> outcome.value.action == Create)
    ensures CallsForWrite(cli, t, specs[i]) ==> SafelyWritten(cli, t, specs[i], NamesOf(specs[i + 1..], Agent))
  {
    hide Run, ChangedFields, Cli.NameOf, Named, NamesOf, ApplyAgent, Build, Report, Unnamed, SafelyWritten,
         SparesRows, CallsForWrite, ValidStore;
    DryPassReports(cli, s, specs);
    t := Reached(cli, s, specs, i);
    if CallsForWrite(cli, t, specs[i]) {
      CreatedAfter(cli, t, specs[i], specs[i + 1..]);
    }
  }

  lemma AgreementForetellsCreation(cli: Cli, specs: seq<ResourceSpec>, i: nat)
    requires ValidCli(cli) && Distinct(specs) && AllNamed(cli, specs) && i < |specs| && specs[i].kind == Agent
    requires Agree(cli, Store([], [], 0, 0), specs)
    ensures var body := BodyOf(cli, specs[i], map[]);
            body.Some? && NameAfter(cli, body.value, map[]) !in NamesOf(specs[i + 1..], Agent)
  {
    hide Run, ChangedFields, Cli.NameOf, Named, NamesOf, ApplyAgent, Build, NameAfter, Distinct, Report, SparesRows;
    var empty := Store([], [], 0, 0);
    DryPassReports(cli, empty, specs);
    var t := AgreementForetells(cli, empty, specs, i);
    AgentReported(cli, t, specs[i]);
  }

  lemma AgreementForetellsUpdate(cli: Cli, specs: seq<ResourceSpec>, i: nat, row: Doc)
    requires ValidCli(cli) && Distinct(specs) && AllNamed(cli, specs) && i < |specs| && specs[i].kind == Agent
    requires Updates(cli, specs[i], row) && Agree(cli, Holding(row), specs)
    ensures SafelyUpdated(cli, specs[i], row, NamesOf(specs[i + 1..], Agent))
  {
    hide Run, ChangedFields, Cli.NameOf, Named, ApplyAgent, Build, SafelyUpdated, Report;
    HoldingIsValid(cli, row);
    var t := AgreementForetells(cli, Holding(row), specs, i);
    assert specs[i].name !in NamesOf(specs[..i], Agent);
    assert t.agents[0] == row;
    AgentReported(cli, t, specs[i]);
  }

  /** A turn that ends well reports what its lookup said. */
  lemma AgentReported(cli: Cli, s: Store, spec: ResourceSpec)
    requires cli.Valid() && spec.kind == Agent && ApplyAgent(cli, s, spec, true).outcome.Ok?
    ensures var found := MatchAgent(cli, s.agents, spec.name);
            && found.Ok?
            && ApplyAgent(cli, s, spec, true).outcome.value.action
               == Verdict(found.value, ChangedFields(spec.fields, found.value, cli.agentPaths))
  {
    hide MatchAgent, ChangedFields, Build, PutAgent;
  }

  // ----- the theorems

  /** For every document: the two runs agree on every deployment exactly when every declared Agent is foretold. */
  lemma AgreesIffForetold(cli: Cli, specs: seq<ResourceSpec>)
    requires ValidCli(cli) && Distinct(specs) && AllNamed(cli, specs)
    ensures (forall s: Store :: ValidStore(cli, s) ==> Agree(cli, s, specs)) <==> AllForetold(cli, specs)
  {
    hide Run, ValidStore, Distinct, AllNamed, BodyOf, NameAfter, Updates, SafelyUpdated, NamesOf, View;
    if AllForetold(cli, specs) {
      forall s: Store | ValidStore(cli, s)
        ensures Agree(cli, s, specs)
      {
        DryPassPredicts(cli, s, s, specs);
      }
    }
    if forall s: Store :: ValidStore(cli, s) ==> Agree(cli, s, specs) {
      forall i | 0 <= i < |specs| && specs[i].kind == Agent
        ensures Foretold(cli, specs[i], NamesOf(specs[i + 1..], Agent))
      {
        EmptyIsValid(cli);
        AgreementForetellsCreation(cli, specs, i);
        forall row: Doc | Updates(cli, specs[i], row)
          ensures SafelyUpdated(cli, specs[i], row, NamesOf(specs[i + 1..], Agent))
        {
          RowHasId(cli, specs[i], row);
          HoldingIsValid(cli, row);
          AgreementForetellsUpdate(cli, specs, i, row);
        }
      }
    }
  }

  lemma EmptyIsValid(cli: Cli)
    ensures ValidStore(cli, Store([], [], 0, 0))
  {
  }

  lemma RowHasId(cli: Cli, spec: ResourceSpec, row: Doc)
    requires Updates(cli, spec, row)
    ensures AGENT_ID in row
  {
  }

  // ----- what a caller can check

  /** Nothing is stored inside the members `name` and `version`, and the name not at `version`. */
  predicate PlainKeys(cli: Cli, spec: ResourceSpec) {
    && Whole(spec.fields.Keys, cli.agentPaths, NAME)
    && Whole(spec.fields.Keys, cli.agentPaths, VERSION)
    && Head(PathOf(cli.agentPaths, NAME)) != VERSION
  }

  /** The body builds, carries no version of its own, and gives a new row no name declared later. */
  predicate Predictable(cli: Cli, spec: ResourceSpec, later: set<string>)
    requires cli.Valid()
  {
    var body := BodyOf(cli, spec, map[]);
    body.Some? && Field(body.value, VERSION) == Null && NameAfter(cli, body.value, map[]) !in later
  }

  /** A member put whole holds the same in every body. */
  lemma SameMember(cli: Cli, spec: ResourceSpec, row: Doc, h: string)
    requires cli.Valid() && Whole(spec.fields.Keys, cli.agentPaths, h) && BodyOf(cli, spec, map[]).Some?
    ensures BodyOf(cli, spec, row).Some?
    ensures var body, bare := BodyOf(cli, spec, row).value, BodyOf(cli, spec, map[]).value;
            (h in body <==> h in bare) && Field(body, h) == Field(bare, h)
    ensures var bare := BodyOf(cli, spec, map[]).value;
            h in bare ==> exists k :: k in spec.fields && Head(PathOf(cli.agentPaths, k)) == h && bare[h] == spec.fields[k]
  {
    hide Build, Whole;
    var order := cli.order(spec.fields);
    assert Keys(order) == spec.fields.Keys;
    BuildIgnoresStored(order, spec.fields, cli.agentPaths, row);
    WholeMember(order, spec.fields, cli.agentPaths, row, h);
    WholeMember(order, spec.fields, cli.agentPaths, map[], h);
  }

  lemma PredictableUpdate(cli: Cli, spec: ResourceSpec, row: Doc, later: set<string>)
    requires ValidCli(cli) && PlainKeys(cli, spec) && spec.name !in later
    requires Predictable(cli, spec, later) && Updates(cli, spec, row)
    ensures SafelyUpdated(cli, spec, row, later)
  {
    hide BodyOf, ChangedFields, Whole, PathOf, Head;
    SameMember(cli, spec, row, NAME);
    SameMember(cli, spec, row, VERSION);
  }

  /** A row without a version, which a body that carries one is refused over. */
  lemma UnversionedRow(cli: Cli, spec: ResourceSpec) returns (row: Doc)
    requires ValidCli(cli) && Named(cli, spec) && PlainKeys(cli, spec) && BodyOf(cli, spec, map[]).Some?
    requires Field(BodyOf(cli, spec, map[]).value, VERSION) != Null
    ensures Updates(cli, spec, row) && BodyOf(cli, spec, row).Some? && Refused(BodyOf(cli, spec, row).value, row)
  {
    hide BodyOf, Whole, PathOf, Head, Split, Cli.NameOf;
    row := map[AGENT_ID := Num(0.0), NAME := Str(spec.name)];
    SameMember(cli, spec, row, VERSION);
    NameFollowsField(cli, row, spec);
    var k :| k in spec.fields && Head(PathOf(cli.agentPaths, k)) == VERSION
             && BodyOf(cli, spec, map[]).value[VERSION] == spec.fields[k];
    FirstSegment(PathOf(cli.agentPaths, k));
    assert k in ChangedFields(spec.fields, Some(row), cli.agentPaths);
  }

  lemma FirstSegment(path: string)
    ensures Split(path)[0] == Head(path)
  {
  }

  lemma PredictableIffForetold(cli: Cli, spec: ResourceSpec, later: set<string>)
    requires ValidCli(cli) && Named(cli, spec) && PlainKeys(cli, spec) && spec.name !in later
    ensures Foretold(cli, spec, later) <==> Predictable(cli, spec, later)
  {
    hide BodyOf, NameAfter, PlainKeys, Updates, Refused;
    if Predictable(cli, spec, later) {
      forall row: Doc | Updates(cli, spec, row)
        ensures SafelyUpdated(cli, spec, row, later)
      {
        PredictableUpdate(cli, spec, row, later);
      }
    }
    if BodyOf(cli, spec, map[]).Some? && Field(BodyOf(cli, spec, map[]).value, VERSION) != Null {
      var row := UnversionedRow(cli, spec);
      assert !SafelyUpdated(cli, spec, row, later);
    }
  }

  // ----- the theorems

  /** A dry run sends nothing, and reports what applying does: the same rows, and the same error if any. */
  predicate Predicts(cli: Cli, s: Store, document: Document)
    requires cli.Valid()
  {
    var dry, wet := PlanAndRun(cli, s, document, false), PlanAndRun(cli, s, document, true);
    dry.rows == wet.rows && dry.error == wet.error && dry.store == s
  }

  ghost predicate AlwaysPredicts(cli: Cli, document: Document)
    requires cli.Valid()
  {
    forall s: Store :: ValidStore(cli, s) ==> Predicts(cli, s, document)
  }

  /** The names of the Agents declared after the `i`-th. */
  function Later(document: Document, i: nat): set<string>
    requires i < |document.agents|
  {
    NamesOf(document.agents[i + 1..], Agent)
  }

  lemma ParsedSpecs(cli: Cli, raw: Json) returns (document: Document, specs: seq<ResourceSpec>)
    requires cli.ParseDocument(raw).Ok?
    ensures document == cli.ParseDocument(raw).value && specs == document.profiles + document.agents
    ensures Distinct(specs) && AllNamed(cli, specs)
    ensures forall i :: 0 <= i < |document.profiles| ==> document.profiles[i].kind == RuntimeProfile
    ensures forall i :: 0 <= i < |document.agents| ==>
              document.agents[i].kind == Agent && Named(cli, document.agents[i])
              && document.agents[i].name !in Later(document, i)
  {
    hide Cli.NameOf;
    cli.ParsedNamesAreDistinct(raw);
    document := cli.ParseDocument(raw).value;
    specs := document.profiles + document.agents;
  }

  lemma PredictsIffAgree(cli: Cli, s: Store, document: Document)
    requires ValidCli(cli)
    ensures Predicts(cli, s, document) <==> Agree(cli, s, document.profiles + document.agents)
  {
    DryRunChangesNothing(cli, s, document.profiles + document.agents);
  }

  lemma AgentOf(document: Document, i: nat)
    requires i < |document.agents|
    ensures var n, specs := |document.profiles|, document.profiles + document.agents;
            specs[n + i] == document.agents[i] && NamesOf(specs[n + i + 1..], Agent) == Later(document, i)
  {
    hide NamesOf;
    var n, specs := |document.profiles|, document.profiles + document.agents;
    assert specs[n + i + 1..] == document.agents[i + 1..];
  }

  lemma ForetoldAgents(cli: Cli, document: Document)
    requires cli.Valid()
    requires forall i :: 0 <= i < |document.profiles| ==> document.profiles[i].kind == RuntimeProfile
    requires forall i :: 0 <= i < |document.agents| ==> document.agents[i].kind == Agent
    ensures AllForetold(cli, document.profiles + document.agents) <==>
            forall i :: 0 <= i < |document.agents| ==> Foretold(cli, document.agents[i], Later(document, i))
  {
    hide Foretold, NamesOf, Later;
    var n, specs := |document.profiles|, document.profiles + document.agents;
    if AllForetold(cli, specs) {
      forall i | 0 <= i < |document.agents|
        ensures Foretold(cli, document.agents[i], Later(document, i))
      {
        AgentOf(document, i);
      }
    }
    if forall i :: 0 <= i < |document.agents| ==> Foretold(cli, document.agents[i], Later(document, i)) {
      forall k | 0 <= k < |specs| && specs[k].kind == Agent
        ensures Foretold(cli, specs[k], NamesOf(specs[k + 1..], Agent))
      {
        AgentOf(document, k - n);
      }
    }
  }

  /**
   * For every document: a dry run predicts applying on every deployment exactly when writing each declared Agent, as a
   * new row or over any one row of its name, is accepted and gives no row the name of an Agent declared later.
   */
  lemma DryRunPredictsIffForetold(cli: Cli, raw: Json)
    requires ValidCli(cli) && cli.ParseDocument(raw).Ok?
    ensures var document := cli.ParseDocument(raw).value;
            AlwaysPredicts(cli, document) <==>
            forall i :: 0 <= i < |document.agents| ==> Foretold(cli, document.agents[i], Later(document, i))
  {
    hide Run, Foretold, Named, ValidStore, NamesOf, Cli.ParseDocument, Predicts, Agree;
    var document, specs := ParsedSpecs(cli, raw);
    AgreesIffForetold(cli, specs);
    forall s: Store
      ensures Predicts(cli, s, document) <==> Agree(cli, s, specs)
    {
      PredictsIffAgree(cli, s, document);
    }
    ForetoldAgents(cli, document);
  }

  /** The condition as the caller can check it before any run, where no path leads inside `name` or `version`. */
  lemma DryRunPredictsIffPredictable(cli: Cli, raw: Json)
    requires ValidCli(cli) && cli.ParseDocument(raw).Ok?
    requires forall spec :: spec in cli.ParseDocument(raw).value.agents ==> PlainKeys(cli, spec)
    ensures var document := cli.ParseDocument(raw).value;
            AlwaysPredicts(cli, document) <==>
            forall i :: 0 <= i < |document.agents| ==> Predictable(cli, document.agents[i], Later(document, i))
  {
    hide AlwaysPredicts, Foretold, Predictable, Named, PlainKeys, Cli.ParseDocument, NamesOf;
    var document, _ := ParsedSpecs(cli, raw);
    DryRunPredictsIffForetold(cli, raw);
    forall i | 0 <= i < |document.agents|
      ensures Foretold(cli, document.agents[i], Later(document, i))
              <==> Predictable(cli, document.agents[i], Later(document, i))
    {
      assert document.agents[i] in document.agents;
      PredictableIffForetold(cli, document.agents[i], Later(document, i));
    }
  }

  /** Names are stored in place, and nothing in the member that holds the version. */
  ghost predicate NamedInPlace(cli: Cli, spec: ResourceSpec) {
    NameInPlace(cli, spec) && forall k :: k in spec.fields ==> Head(PathOf(cli.agentPaths, k)) != VERSION
  }

  lemma InPlaceIsPredictable(cli: Cli, spec: ResourceSpec, later: set<string>)
    requires ValidCli(cli) && Named(cli, spec) && NamedInPlace(cli, spec) && spec.name !in later
    ensures PlainKeys(cli, spec)
    ensures Predictable(cli, spec, later) <==> BodyOf(cli, spec, map[]).Some?
  {
    hide BodyOf, NameAfter, Cli.NameOf, PathOf;
    assert Head(NAME) == NAME && Rest(NAME) == "";
    if BodyOf(cli, spec, map[]).Some? {
      SameMember(cli, spec, map[], VERSION);
      NameStays(cli, spec, map[]);
    }
  }

  /**
   * Where the schema stores the name in place and no field as the version, a dry run predicts applying exactly when
   * the body of every declared Agent can be built.
   */
  lemma DryRunPredictsIffBodiesBuild(cli: Cli, raw: Json)
    requires ValidCli(cli) && cli.ParseDocument(raw).Ok?
    requires forall spec :: spec in cli.ParseDocument(raw).value.agents ==> NamedInPlace(cli, spec)
    ensures var document := cli.ParseDocument(raw).value;
            AlwaysPredicts(cli, document) <==>
            forall i :: 0 <= i < |document.agents| ==> BodyOf(cli, document.agents[i], map[]).Some?
  {
    hide AlwaysPredicts, Predictable, Named, NamedInPlace, PlainKeys, Cli.ParseDocument, NamesOf, BodyOf;
    var document, _ := ParsedSpecs(cli, raw);
    forall i | 0 <= i < |document.agents|
      ensures PlainKeys(cli, document.agents[i])
      ensures Predictable(cli, document.agents[i], Later(document, i)) <==> BodyOf(cli, document.agents[i], map[]).Some?
    {
      assert document.agents[i] in document.agents;
      InPlaceIsPredictable(cli, document.agents[i], Later(document, i));
    }
    DryRunPredictsIffPredictable(cli, raw);
  }

  /** Documents whose Agents converge are predicted, whatever their profiles' keys. */
  lemma DryRunPredictsApply(cli: Cli, s: Store, raw: Json)
    requires ValidCli(cli) && ValidStore(cli, s) && cli.ParseDocument(raw).Ok?
    requires forall spec :: spec in cli.ParseDocument(raw).value.agents ==> Storable(cli, spec)
    ensures Predicts(cli, s, cli.ParseDocument(raw).value)
  {
    hide Storable, Named, NameInPlace, Cli.ParseDocument, NamesOf, BodyOf, Predicts;
    var document, _ := ParsedSpecs(cli, raw);
    forall i | 0 <= i < |document.agents|
      ensures NamedInPlace(cli, document.agents[i]) && BodyOf(cli, document.agents[i], map[]).Some?
    {
      assert document.agents[i] in document.agents;
      StorableIsInPlace(cli, document.agents[i]);
    }
    DryRunPredictsIffBodiesBuild(cli, raw);
  }

  lemma StorableIsInPlace(cli: Cli, spec: ResourceSpec)
    requires ValidCli(cli) && Named(cli, spec) && spec.kind == Agent && Storable(cli, spec)
    ensures NamedInPlace(cli, spec) && BodyOf(cli, spec, map[]).Some?
  {
    hide WellPlaced, NameInPlace;
    StorableKeepsName(cli, spec);
    BuildSucceedsApart(cli, spec, map[]);
  }

  // ----- a document that is not predicted

  const DISPLAY_NAME_PATH := "display_meta.display_name"

  const NULLED: Doc := map["name" := Str("web"), "display_meta" := Null, "display_name" := Str("Web")]

  const WRITTEN := ["name", "display_meta", "display_name"]

  lemma OneMoreKey(order: seq<string>, key: string, fields: Doc, paths: map<string, string>, existing: Doc)
    requires key in fields && forall k :: k in order ==> k in fields
    ensures Build(order + [key], fields, paths, existing) ==
            match Build(order, fields, paths, existing)
            case None => None
            case Some(body) => Place(body, PathOf(paths, key), fields[key], existing)
  {
    assert (order + [key])[..|order|] == order;
  }

  lemma NullHoldsNoField(paths: map<string, string>)
    requires PathOf(paths, "name") == "name" && PathOf(paths, "display_meta") == "display_meta"
    requires PathOf(paths, "display_name") == DISPLAY_NAME_PATH
    ensures Build(WRITTEN, NULLED, paths, map[]) == None
  {
    hide Build, Head, Rest;
    DirectHead("name");
    DirectHead("display_meta");
    DotAt(DISPLAY_NAME_PATH, 12);
    assert Head(DISPLAY_NAME_PATH) == "display_meta" && |Rest(DISPLAY_NAME_PATH)| == 12;
    var named := map["name" := Str("web")];
    assert Place(map[], "name", Str("web"), map[]) == Some(named);
    assert Place(named, "display_meta", Null, map[]) == Some(named["display_meta" := Null]);
    assert Place(named["display_meta" := Null], DISPLAY_NAME_PATH, Str("Web"), map[]) == None;
    assert Build([], NULLED, paths, map[]) == Some(map[]) by {
      OnNoKeys(NULLED, paths);
    }
    OneMoreKey([], "name", NULLED, paths, map[]);
    OneMoreKey(["name"], "display_meta", NULLED, paths, map[]);
    OneMoreKey(["name", "display_meta"], "display_name", NULLED, paths, map[]);
    assert [] + ["name"] == ["name"] && ["name"] + ["display_meta"] == ["name", "display_meta"];
    assert ["name", "display_meta"] + ["display_name"] == WRITTEN;
  }

  lemma OnNoKeys(fields: Doc, paths: map<string, string>)
    ensures Build([], fields, paths, map[]) == Some(map[])
  {
  }

  lemma DirectHead(path: string)
    requires Direct(path)
    ensures Head(path) == path && Rest(path) == ""
  {
  }

  lemma DotAt(path: string, i: nat)
    requires i < |path| && path[i] == '.' && '.' !in path[..i]
    ensures Head(path) == path[..i] && Rest(path) == path[i + 1..]
  {
    var d := DotIndex(path);
    forall j | 0 <= j < d
      ensures path[j] != '.'
    {
      assert path[j] in path[..d];
    }
    forall j | 0 <= j < i
      ensures path[j] != '.'
    {
      assert path[j] in path[..i];
    }
  }

  /**
   * A field stored inside a member that the document declares, before it, as null: the dry run announces a new Agent,
   * and applying stops with the `TypeError` of storing into that member.
   */
  lemma DryRunMissesTheTypeError(cli: Cli)
    requires cli.Valid() && cli.order(NULLED) == WRITTEN
    requires PathOf(cli.agentPaths, "name") == "name" && PathOf(cli.agentPaths, "display_meta") == "display_meta"
    requires PathOf(cli.agentPaths, "display_name") == DISPLAY_NAME_PATH
    ensures var empty, document := Store([], [], 0, 0), Document([], [ResourceSpec(Agent, "web", NULLED)]);
            && PlanAndRun(cli, empty, document, false)
               == Pass(empty, [ReportRow(Agent, "web", Create, {"display_meta", "display_name"})], None)
            && PlanAndRun(cli, empty, document, true) == Pass(empty, [], Some(BodyTypeError))
  {
    hide Build;
    NullHoldsNoField(cli.agentPaths);
    var empty, spec := Store([], [], 0, 0), ResourceSpec(Agent, "web", NULLED);
    assert ApplyOne(cli, empty, spec, true) == Step(empty, Err(BodyTypeError));
    DryStep(cli, empty, spec);
    assert Run(cli, empty, [], false) == Pass(empty, [], None);
    assert [] + [spec] == [spec] && [spec][1..] == [];
    assert ChangedFields(NULLED, None, cli.agentPaths) == {"display_meta", "display_name"};
  }
}
