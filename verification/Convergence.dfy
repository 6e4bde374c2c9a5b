/** Applying a document converges, a dry run predicts it, and what the document does not name is left alone. */
module Convergence {
  import opened Prelude
  import opened Json
  import opened Documents
  import opened Resources
  import opened Paths
  import opened RequestBody
  import Text

  /**
   * The deployment's own invariants: every Agent carries an id of its own, and a profile is stored under the stripped,
   * unique name its route is keyed by.
   */
  ghost predicate ValidStore(cli: Cli, s: Store) {
    && ValidIds(s.agents, s.nextId)
    && ValidNames(cli, s.profiles)
  }

  ghost predicate ValidIds(agents: seq<Doc>, nextId: nat) {
    && (forall i :: 0 <= i < |agents| ==> AGENT_ID in agents[i])
    && (forall i, m: nat {:trigger agents[i], m as real} :: 0 <= i < |agents| && m >= nextId ==>
          agents[i][AGENT_ID] != Num(m as real))
    && (forall i, j :: 0 <= i < j < |agents| ==> agents[i][AGENT_ID] != agents[j][AGENT_ID])
  }

  ghost predicate ValidNames(cli: Cli, profiles: seq<Doc>) {
    && (forall i :: 0 <= i < |profiles| ==> Field(profiles[i], NAME) == Str(cli.NameOf(profiles[i])))
    && (forall i, j :: 0 <= i < j < |profiles| ==> cli.NameOf(profiles[i]) != cli.NameOf(profiles[j]))
  }

  ghost predicate ValidCli(cli: Cli) {
    cli.Valid() && cli.mask.Str?
  }

  /**
   * Where a spec's keys may be stored: apart from one another, the name at `name`, nothing in a member the deployment
   * manages; a profile, whose fields are sent flat, stores each under its own key.
   */
  ghost predicate Storable(cli: Cli, spec: ResourceSpec) {
    match spec.kind
    case RuntimeProfile =>
      forall k :: k in spec.fields && k != NAME ==> Direct(k) && PathOf(cli.profilePaths, k) == k
    case Agent =>
      && WellPlaced(spec.fields.Keys, cli.agentPaths)
      && PathOf(cli.agentPaths, NAME) == NAME
      && forall k :: k in spec.fields ==> Head(PathOf(cli.agentPaths, k)) !in {AGENT_ID, VERSION}
  }

  /** As parsing leaves it: named by its own fields. */
  ghost predicate Named(cli: Cli, spec: ResourceSpec) {
    spec.name != "" && spec.name == cli.NameOf(spec.fields)
  }

  ghost predicate Placeable(cli: Cli, spec: ResourceSpec) {
    Named(cli, spec) && Storable(cli, spec)
  }

  /** The name is stored at `name`, and nothing else is stored there or inside. */
  ghost predicate NameInPlace(cli: Cli, spec: ResourceSpec) {
    && PathOf(cli.agentPaths, NAME) == NAME
    && forall k :: k in spec.fields && k != NAME ==> Head(PathOf(cli.agentPaths, k)) != NAME
  }

  // ----- one write

  lemma NamesDecideLookups(cli: Cli, rows: seq<Doc>, rows': seq<Doc>, name: string, from: nat)
    requires from <= |rows| == |rows'|
    requires forall i :: 0 <= i < |rows| ==> (cli.NameOf(rows'[i]) == name <==> cli.NameOf(rows[i]) == name)
    ensures FirstNamed(cli, rows', name, from) == FirstNamed(cli, rows, name, from)
  {
  }

  /** One row is replaced by another of its id, or one is appended. */
  ghost predicate Replaced(agents: seq<Doc>, agents': seq<Doc>, i: nat) {
    && i <= |agents|
    && |agents'| == (if i < |agents| then |agents| else i + 1)
    && (forall j :: 0 <= j < |agents| && j != i ==> agents'[j] == agents[j])
    && AGENT_ID in agents'[i]
    && (i < |agents| ==> Field(agents'[i], AGENT_ID) == Field(agents[i], AGENT_ID))
  }

  /** The row of the spec's name now holds what it declares. */
  ghost predicate Wrote(cli: Cli, agents: seq<Doc>, agents': seq<Doc>, i: nat, spec: ResourceSpec) {
    && Replaced(agents, agents', i)
    && (i < |agents| ==> cli.NameOf(agents[i]) == spec.name)
    && cli.NameOf(agents'[i]) == spec.name
    && ChangedFields(spec.fields, Some(agents'[i]), cli.agentPaths) == {}
  }

  lemma ReadingBackChangesNothing(fields: Doc, row: Doc, paths: map<string, string>)
    requires forall k :: k in fields ==> Walk(Obj(row), SegmentsOf(paths, k)) == fields[k]
    ensures ChangedFields(fields, Some(row), paths) == {}
  {
    hide Walk, Split, Canonical;
  }

  lemma NameReadsBack(cli: Cli, fields: Doc, row: Doc)
    requires cli.NameOf(fields) != "" && Walk(Obj(row), Split(NAME)) == fields[NAME]
    ensures cli.NameOf(row) == cli.NameOf(fields)
  {
    ShallowSegments(NAME);
    assert Walk(Obj(row), [NAME]) == Field(row, NAME) by {
      assert [NAME][1..] == [];
    }
  }

  lemma StampsKeepPath(doc: Doc, id: Json, version: Json, path: string)
    requires Shallow(path) && Head(path) !in {AGENT_ID, VERSION}
    ensures Walk(Obj(doc[AGENT_ID := id][VERSION := version]), Split(path)) == Walk(Obj(doc), Split(path))
  {
    hide Walk, Split;
    StampIsPut(doc, AGENT_ID, id, path);
    StampIsPut(doc[AGENT_ID := id], VERSION, version, path);
  }

  /** The row a body makes reads back as declared once the deployment has stamped its own members on it. */
  lemma StampedRowSettles(cli: Cli, spec: ResourceSpec, stored: Doc, id: Json, version: Json)
    requires ValidCli(cli) && spec.kind == Agent && Placeable(cli, spec)
    ensures var body := Build(cli.order(spec.fields), spec.fields, cli.agentPaths, stored);
            && body.Some?
            && var row := (stored + body.value)[AGENT_ID := id][VERSION := version];
            && cli.NameOf(row) == spec.name
            && ChangedFields(spec.fields, Some(row), cli.agentPaths) == {}
  {
    hide Walk, Split, Build, ChangedFields;
    WriteReadsBack(cli.order(spec.fields), spec.fields, cli.agentPaths, stored);
    var doc := stored + Build(cli.order(spec.fields), spec.fields, cli.agentPaths, stored).value;
    var row := doc[AGENT_ID := id][VERSION := version];
    forall k | k in spec.fields
      ensures Walk(Obj(row), SegmentsOf(cli.agentPaths, k)) == spec.fields[k]
    {
      StampsKeepPath(doc, id, version, PathOf(cli.agentPaths, k));
    }
    ReadingBackChangesNothing(spec.fields, row, cli.agentPaths);
    assert Walk(Obj(row), SegmentsOf(cli.agentPaths, NAME)) == spec.fields[NAME];
    NameReadsBack(cli, spec.fields, row);
  }

  lemma StampIsPut(doc: Doc, member: string, value: Json, path: string)
    requires member in {AGENT_ID, VERSION} && Shallow(path) && Head(path) != member
    ensures Walk(Obj(doc[member := value]), Split(path)) == Walk(Obj(doc), Split(path))
  {
    ShallowSegments(path);
    ShallowSegments(member);
    assert '.' !in AGENT_ID && '.' !in VERSION;
    assert Split(member) == [member] && Split(path)[0] == Head(path);
    PutFrame(doc, member, value, Split(path));
  }

  lemma VersionIsStampedOver(stored: Doc, body: Doc, id: Json, version: Json)
    ensures (stored + Versioned(body, stored))[AGENT_ID := id][VERSION := version]
         == (stored + body)[AGENT_ID := id][VERSION := version]
  {
  }

  /** An update carrying the version just read is accepted, and lands on the row that was read. */
  lemma PutLands(s: Store, i: nat, body: Doc)
    requires ValidIds(s.agents, s.nextId) && i < |s.agents| && !Refused(body, s.agents[i])
    ensures var (stored, id) := (s.agents[i], s.agents[i][AGENT_ID]);
            var row := (stored + body)[AGENT_ID := id][VERSION := NextVersion(Field(stored, VERSION))];
            PutAgent(s, id, Versioned(body, stored))
            == (s.(agents := s.agents[i := row], writes := s.writes + 1), None)
  {
    var stored, id := s.agents[i], s.agents[i][AGENT_ID];
    assert IndexOfId(s.agents, id) == i;
    VersionIsStampedOver(stored, body, id, NextVersion(Field(stored, VERSION)));
  }

  lemma BuildSucceedsApart(cli: Cli, spec: ResourceSpec, stored: Doc)
    requires ValidCli(cli) && spec.kind == Agent && Placeable(cli, spec)
    ensures var body := Build(cli.order(spec.fields), spec.fields, cli.agentPaths, stored);
            body.Some? && AGENT_ID !in body.value && VERSION !in body.value
  {
    assert Keys(cli.order(spec.fields)) == spec.fields.Keys;
    BuildSucceeds(cli.order(spec.fields), spec.fields, cli.agentPaths, stored);
  }

  /** Neither the row written nor the row it replaced bears the name. */
  ghost predicate WroteElsewhere(cli: Cli, agents: seq<Doc>, agents': seq<Doc>, i: nat, name: string) {
    && Replaced(agents, agents', i)
    && cli.NameOf(agents'[i]) != name && (i < |agents| ==> cli.NameOf(agents[i]) != name)
  }

  lemma OtherRowsAreFirst(cli: Cli, agents: seq<Doc>, agents': seq<Doc>, i: nat, name: string, from: nat)
    requires WroteElsewhere(cli, agents, agents', i, name) && from <= |agents|
    ensures var k, k' := FirstNamed(cli, agents, name, from), FirstNamed(cli, agents', name, from);
            if k < |agents| then k' == k && agents'[k] == agents[k] else k' == |agents'|
  {
    hide Cli.NameOf, Field;
    if i < |agents| {
      NamesDecideLookups(cli, agents, agents', name, from);
    } else {
      assert agents' == agents + [agents'[i]];
      AppendedElsewhere(cli, agents, agents'[i], name, from);
    }
  }

  /** A write answers to the names it takes and gives alone: any other lookup answers as before. */
  lemma OtherLookupsStand(cli: Cli, agents: seq<Doc>, agents': seq<Doc>, i: nat, name: string)
    requires WroteElsewhere(cli, agents, agents', i, name)
    ensures MatchAgent(cli, agents', name) == MatchAgent(cli, agents, name)
  {
    hide Cli.NameOf, Field, FirstNamed;
    OtherRowsAreFirst(cli, agents, agents', i, name, 0);
    var k := FirstNamed(cli, agents, name, 0);
    if k < |agents| {
      OtherRowsAreFirst(cli, agents, agents', i, name, k + 1);
    }
    SameIds(cli, agents, agents', i, name);
  }

  lemma SameIds(cli: Cli, agents: seq<Doc>, agents': seq<Doc>, i: nat, name: string)
    requires WroteElsewhere(cli, agents, agents', i, name)
    ensures (set j | 0 <= j < |agents'| && cli.NameOf(agents'[j]) == name :: Field(agents'[j], AGENT_ID))
         == (set j | 0 <= j < |agents| && cli.NameOf(agents[j]) == name :: Field(agents[j], AGENT_ID))
  {
    hide Cli.NameOf;
    var a := set j | 0 <= j < |agents| && cli.NameOf(agents[j]) == name :: Field(agents[j], AGENT_ID);
    var a' := set j | 0 <= j < |agents'| && cli.NameOf(agents'[j]) == name :: Field(agents'[j], AGENT_ID);
    forall id | id in a ensures id in a' {
      var j :| 0 <= j < |agents| && cli.NameOf(agents[j]) == name && Field(agents[j], AGENT_ID) == id;
      assert agents'[j] == agents[j];
    }
    forall id | id in a' ensures id in a {
      var j :| 0 <= j < |agents'| && cli.NameOf(agents'[j]) == name && Field(agents'[j], AGENT_ID) == id;
      assert j != i;
      assert agents'[j] == agents[j];
    }
  }

  lemma AppendedElsewhere(cli: Cli, rows: seq<Doc>, row: Doc, name: string, from: nat)
    requires from <= |rows| && cli.NameOf(row) != name
    ensures var i, j := FirstNamed(cli, rows, name, from), FirstNamed(cli, rows + [row], name, from);
            if i < |rows| then j == i else j == |rows| + 1
  {
    var rows' := rows + [row];
    assert forall k :: 0 <= k < |rows| ==> rows'[k] == rows[k];
    assert rows'[|rows|] == row;
  }

  lemma WrittenRowIsFound(cli: Cli, agents: seq<Doc>, agents': seq<Doc>, i: nat, spec: ResourceSpec)
    requires Wrote(cli, agents, agents', i, spec)
    requires FirstNamed(cli, agents, spec.name, 0) == i
    requires i < |agents| ==> FirstNamed(cli, agents, spec.name, i + 1) == |agents|
    ensures MatchAgent(cli, agents', spec.name) == Ok(Some(agents'[i]))
  {
    assert forall j :: 0 <= j < |agents'| && j != i ==> cli.NameOf(agents'[j]) != spec.name;
  }

  /** Declared fields a listing never shows as declared: secrets whose real value the document carries. */
  function Residue(cli: Cli, spec: ResourceSpec): set<string> {
    if spec.kind == Agent then {}
    else set k | k in spec.fields && k != NAME && k in cli.secrets && spec.fields[k] !in {cli.mask, Null}
  }

  /** The deployment holds what the spec declares: nothing but the residue reads as changed. */
  ghost predicate Settled(cli: Cli, s: Store, spec: ResourceSpec) {
    match spec.kind
    case Agent =>
      var found := MatchAgent(cli, s.agents, spec.name);
      found.Ok? && found.value.Some? && ChangedFields(spec.fields, found.value, cli.agentPaths) == {}
    case RuntimeProfile =>
      var i := FirstNamed(cli, s.profiles, spec.name, 0);
      && i < |s.profiles|
      && ChangedFields(spec.fields, Some(Masked(cli, s.profiles[i])), cli.profilePaths) == Residue(cli, spec)
      && (Residue(cli, spec) != {} ==> MergeProfile(cli, s.profiles[i], spec.fields - {NAME}) == s.profiles[i])
  }

  /** Rows that bear none of the names are the very rows they were. */
  ghost predicate SparesRows(cli: Cli, rows: seq<Doc>, rows': seq<Doc>, names: set<string>) {
    && |rows| <= |rows'|
    && (forall i :: 0 <= i < |rows| && cli.NameOf(rows[i]) !in names ==> rows'[i] == rows[i])
  }

  /** Besides, no row changes its name, and rows are added under these names alone. */
  ghost predicate KeepsRows(cli: Cli, rows: seq<Doc>, rows': seq<Doc>, names: set<string>) {
    && SparesRows(cli, rows, rows', names)
    && (forall i :: 0 <= i < |rows| ==> cli.NameOf(rows'[i]) == cli.NameOf(rows[i]))
    && (forall i :: |rows| <= i < |rows'| ==> cli.NameOf(rows'[i]) in names)
  }

  // ----- one Agent, whatever its keys

  function BodyOf(cli: Cli, spec: ResourceSpec, stored: Doc): Option<Doc>
    requires cli.Valid()
  {
    Build(cli.order(spec.fields), spec.fields, cli.agentPaths, stored)
  }

  /** The name a row bears once the body is written over it. */
  function NameAfter(cli: Cli, body: Doc, stored: Doc): string {
    cli.NameOf(stored + body)
  }

  /** The body carries a version of its own, and the row it is written over has none to replace it by. */
  predicate Refused(body: Doc, stored: Doc) {
    Field(body, VERSION) != Null && Field(stored, VERSION) == Null
  }

  /** The store an accepted write leaves. */
  ghost predicate Accepted(s: Store, s': Store, i: nat, stored: Doc, body: Doc) {
    && s' == s.(agents := s'.agents, writes := s.writes + 1,
                nextId := if i < |s.agents| then s.nextId else s.nextId + 1)
    && Replaced(s.agents, s'.agents, i)
    && (i == |s.agents| ==> Field(s'.agents[i], AGENT_ID) == Num(s.nextId as real))
    && exists id, version :: s'.agents[i] == Stamped(stored + body, id, version)
  }

  function Stamped(row: Doc, id: Json, version: Json): Doc {
    row[AGENT_ID := id][VERSION := version]
  }

  lemma StampsKeepName(cli: Cli, row: Doc, id: Json, version: Json)
    ensures cli.NameOf(Stamped(row, id, version)) == cli.NameOf(row)
  {
  }

  lemma PutIsRefused(s: Store, i: nat, body: Doc)
    requires ValidIds(s.agents, s.nextId) && i < |s.agents| && Refused(body, s.agents[i])
    ensures PutAgent(s, s.agents[i][AGENT_ID], Versioned(body, s.agents[i]))
         == (s.(writes := s.writes + 1), Some(VersionConflict))
  {
    assert IndexOfId(s.agents, s.agents[i][AGENT_ID]) == i;
  }

  lemma AgentUpdates(cli: Cli, s: Store, spec: ResourceSpec, i: nat)
    requires ValidCli(cli) && ValidStore(cli, s) && spec.kind == Agent && i < |s.agents|
    requires MatchAgent(cli, s.agents, spec.name) == Ok(Some(s.agents[i]))
    requires ChangedFields(spec.fields, Some(s.agents[i]), cli.agentPaths) != {}
    ensures var step, body := ApplyAgent(cli, s, spec, true), BodyOf(cli, spec, s.agents[i]);
            if body == None then step == Step(s, Err(BodyTypeError))
            else if Refused(body.value, s.agents[i]) then step == Step(s.(writes := s.writes + 1), Err(VersionConflict))
            else step.outcome == Report(cli, spec, Ok(Some(s.agents[i])))
                 && Accepted(s, step.store, i, s.agents[i], body.value)
  {
    hide MatchAgent, Build, ChangedFields, FirstNamed, PutAgent, IndexOfId;
    var stored, body := s.agents[i], BodyOf(cli, spec, s.agents[i]);
    assert Field(stored, AGENT_ID) == stored[AGENT_ID];
    if body.Some? {
      if Refused(body.value, stored) {
        PutIsRefused(s, i, body.value);
      } else {
        PutLands(s, i, body.value);
        assert ApplyAgent(cli, s, spec, true).store.agents[i]
            == Stamped(stored + body.value, stored[AGENT_ID], NextVersion(Field(stored, VERSION)));
      }
    }
  }

  lemma AgentCreates(cli: Cli, s: Store, spec: ResourceSpec)
    requires ValidCli(cli) && ValidStore(cli, s) && spec.kind == Agent
    requires MatchAgent(cli, s.agents, spec.name) == Ok(None)
    ensures var step, body := ApplyAgent(cli, s, spec, true), BodyOf(cli, spec, map[]);
            if body == None then step == Step(s, Err(BodyTypeError))
            else step.outcome == Report(cli, spec, Ok(None))
                 && Accepted(s, step.store, |s.agents|, map[], body.value)
  {
    hide MatchAgent, Build, ChangedFields, FirstNamed;
    var body := BodyOf(cli, spec, map[]);
    if body.Some? {
      assert map[] + body.value == body.value;
      assert ApplyAgent(cli, s, spec, true).store.agents[|s.agents|]
          == Stamped(map[] + body.value, Num(s.nextId as real), NextVersion(Null));
    }
  }

  /** The lookup finds one Agent or none, and something is to be written. */
  predicate CallsForWrite(cli: Cli, s: Store, spec: ResourceSpec) {
    var found := MatchAgent(cli, s.agents, spec.name);
    found.Ok? && Verdict(found.value, ChangedFields(spec.fields, found.value, cli.agentPaths)) != Unchanged
  }

  /**
   * A write that is called for fails to build, is refused for its version, or is accepted, on the one row of that name
   * or as a new one.
   */
  lemma AgentWrites(cli: Cli, s: Store, spec: ResourceSpec) returns (i: nat, stored: Doc)
    requires ValidCli(cli) && ValidStore(cli, s) && spec.kind == Agent && CallsForWrite(cli, s, spec)
    ensures i == FirstNamed(cli, s.agents, spec.name, 0)
    ensures i < |s.agents| ==> FirstNamed(cli, s.agents, spec.name, i + 1) == |s.agents|
    ensures stored == if i < |s.agents| then s.agents[i] else map[]
    ensures i < |s.agents| ==> ChangedFields(spec.fields, Some(stored), cli.agentPaths) != {}
    ensures var step, body := ApplyAgent(cli, s, spec, true), BodyOf(cli, spec, stored);
            if body == None then step == Step(s, Err(BodyTypeError))
            else if i < |s.agents| && Refused(body.value, stored) then
              step == Step(s.(writes := s.writes + 1), Err(VersionConflict))
            else step.outcome == Report(cli, spec, MatchAgent(cli, s.agents, spec.name))
                 && Accepted(s, step.store, i, stored, body.value)
                 && cli.NameOf(step.store.agents[i]) == NameAfter(cli, body.value, stored)
  {
    hide Build, ChangedFields, ApplyAgent, ValidStore, Report, Cli.NameOf, Refused;
    i := FirstNamed(cli, s.agents, spec.name, 0);
    stored := if i < |s.agents| then s.agents[i] else map[];
    if i < |s.agents| {
      AgentUpdates(cli, s, spec, i);
    } else {
      AgentCreates(cli, s, spec);
    }
    var step, body := ApplyAgent(cli, s, spec, true), BodyOf(cli, spec, stored);
    if body.Some? && !(i < |s.agents| && Refused(body.value, stored)) {
      var id, version :| step.store.agents[i] == Stamped(stored + body.value, id, version);
      StampsKeepName(cli, stored + body.value, id, version);
    }
  }

  lemma ReplacedKeepsIds(agents: seq<Doc>, agents': seq<Doc>, i: nat, nextId: nat)
    requires ValidIds(agents, nextId) && Replaced(agents, agents', i)
    requires i == |agents| ==> Field(agents'[i], AGENT_ID) == Num(nextId as real)
    ensures ValidIds(agents', if i < |agents| then nextId else nextId + 1)
  {
    assert forall j :: 0 <= j < |agents| ==> agents'[j][AGENT_ID] == agents[j][AGENT_ID];
    assert forall j, m: nat {:trigger agents'[j], m as real} :: 0 <= j < |agents| && m >= nextId ==>
      agents'[j][AGENT_ID] != Num(m as real);
    forall j, k | 0 <= j < k < |agents'|
      ensures agents'[j][AGENT_ID] != agents'[k][AGENT_ID]
    {
      if k == |agents| {
        assert agents'[j][AGENT_ID] != Num(nextId as real);
      }
    }
  }

  /** A lookup that fails, or finds nothing to change, leaves the store as it is. */
  lemma AgentLeftAlone(cli: Cli, s: Store, spec: ResourceSpec)
    requires cli.Valid() && spec.kind == Agent && !CallsForWrite(cli, s, spec)
    ensures ApplyAgent(cli, s, spec, true) == Step(s, Report(cli, spec, MatchAgent(cli, s.agents, spec.name)))
    ensures MatchAgent(cli, s.agents, spec.name).Ok? ==> Settled(cli, s, spec)
  {
    hide ChangedFields, Cli.NameOf, MatchAgent, Build;
  }

  /** With the name in place, a row bears the declared name after any write. */
  lemma NameStays(cli: Cli, spec: ResourceSpec, stored: Doc)
    requires ValidCli(cli) && Named(cli, spec) && NameInPlace(cli, spec)
    requires BodyOf(cli, spec, stored).Some?
    ensures NameAfter(cli, BodyOf(cli, spec, stored).value, stored) == spec.name
  {
    hide Build;
    var order := cli.order(spec.fields);
    assert Head(NAME) == NAME && Rest(NAME) == "";
    WholeMember(order, spec.fields, cli.agentPaths, stored, NAME);
    assert NAME in order;
  }

  lemma StorableKeepsName(cli: Cli, spec: ResourceSpec)
    requires spec.kind == Agent && Placeable(cli, spec)
    ensures NameInPlace(cli, spec)
  {
    ShallowSegments(NAME);
    forall k | k in spec.fields && k != NAME
      ensures Head(PathOf(cli.agentPaths, k)) != NAME
    {
      assert NAME in spec.fields.Keys && k in spec.fields.Keys;
      ShallowSegments(PathOf(cli.agentPaths, k));
    }
  }

  /** Whatever an Agent's keys, its turn leaves a valid deployment and spares every row of another name. */
  lemma AgentTurn(cli: Cli, s: Store, spec: ResourceSpec)
    requires ValidCli(cli) && ValidStore(cli, s) && spec.kind == Agent
    ensures var step := ApplyAgent(cli, s, spec, true);
            && step.store.profiles == s.profiles && ValidStore(cli, step.store)
            && SparesRows(cli, s.agents, step.store.agents, {spec.name})
            && (Named(cli, spec) && NameInPlace(cli, spec) ==> KeepsRows(cli, s.agents, step.store.agents, {spec.name}))
  {
    hide ChangedFields, Cli.NameOf, ApplyAgent, ValidIds, ValidNames, Named, NameInPlace, MatchAgent, Build, Refused;
    var step := ApplyAgent(cli, s, spec, true);
    if CallsForWrite(cli, s, spec) {
      var i, stored := AgentWrites(cli, s, spec);
      var body := BodyOf(cli, spec, stored);
      if body.Some? && !(i < |s.agents| && Refused(body.value, stored)) {
        ReplacedKeepsIds(s.agents, step.store.agents, i, s.nextId);
        if Named(cli, spec) && NameInPlace(cli, spec) {
          NameStays(cli, spec, stored);
        }
      }
    } else {
      AgentLeftAlone(cli, s, spec);
    }
  }

  /** A write of keys that can be stored is accepted, and leaves the row as declared. */
  lemma StorableAgentWrites(cli: Cli, s: Store, spec: ResourceSpec) returns (i: nat)
    requires ValidCli(cli) && ValidStore(cli, s) && spec.kind == Agent && Placeable(cli, spec)
    requires CallsForWrite(cli, s, spec)
    ensures i == FirstNamed(cli, s.agents, spec.name, 0)
    ensures i < |s.agents| ==> FirstNamed(cli, s.agents, spec.name, i + 1) == |s.agents|
    ensures var step := ApplyAgent(cli, s, spec, true);
            && step.outcome == Report(cli, spec, MatchAgent(cli, s.agents, spec.name))
            && Wrote(cli, s.agents, step.store.agents, i, spec)
  {
    hide ChangedFields, Cli.NameOf, ApplyAgent, ValidStore, MatchAgent, Build, Report, Placeable;
    var stored: Doc;
    i, stored := AgentWrites(cli, s, spec);
    BuildSucceedsApart(cli, spec, stored);
    var row := ApplyAgent(cli, s, spec, true).store.agents[i];
    var id, version :| row == Stamped(stored + BodyOf(cli, spec, stored).value, id, version);
    StampedRowSettles(cli, spec, stored, id, version);
  }

  lemma AgentApplied(cli: Cli, s: Store, spec: ResourceSpec)
    requires ValidCli(cli) && ValidStore(cli, s) && spec.kind == Agent && Placeable(cli, spec)
    ensures var step := ApplyAgent(cli, s, spec, true);
            && step.outcome == Report(cli, spec, MatchAgent(cli, s.agents, spec.name))
            && step.store.profiles == s.profiles && ValidStore(cli, step.store)
            && KeepsRows(cli, s.agents, step.store.agents, {spec.name})
            && (forall name :: name != spec.name ==>
                  MatchAgent(cli, step.store.agents, name) == MatchAgent(cli, s.agents, name))
            && (step.outcome.Ok? ==> Settled(cli, step.store, spec))
  {
    hide ChangedFields, Cli.NameOf, ApplyAgent, ValidStore, Storable, NameInPlace, KeepsRows, MatchAgent, FirstNamed;
    StorableKeepsName(cli, spec);
    AgentTurn(cli, s, spec);
    if CallsForWrite(cli, s, spec) {
      var i := StorableAgentWrites(cli, s, spec);
      var agents' := ApplyAgent(cli, s, spec, true).store.agents;
      WrittenRowIsFound(cli, s.agents, agents', i, spec);
      forall name | name != spec.name
        ensures MatchAgent(cli, agents', name) == MatchAgent(cli, s.agents, name)
      {
        OtherLookupsStand(cli, s.agents, agents', i, name);
      }
    } else {
      AgentLeftAlone(cli, s, spec);
    }
  }

  // ----- one profile

  lemma MaskingKeepsNames(cli: Cli, profiles: seq<Doc>, name: string)
    requires ValidCli(cli)
    ensures FirstNamed(cli, Listing(cli, profiles), name, 0) == FirstNamed(cli, profiles, name, 0)
  {
    forall i | 0 <= i < |profiles|
      ensures cli.NameOf(Masked(cli, profiles[i])) == cli.NameOf(profiles[i])
    {
    }
    NamesDecideLookups(cli, profiles, Listing(cli, profiles), name, 0);
  }

  lemma OnlyTheMaskEqualsIt(mask: Json, value: Json)
    requires mask.Str?
    ensures PyEqual(mask, value) <==> value == mask
  {
  }

  /** A flat field is read at its own key. */
  lemma FlatFieldChanged(cli: Cli, spec: ResourceSpec, listed: Doc, k: string)
    requires spec.kind == RuntimeProfile && Storable(cli, spec) && k in spec.fields && k != NAME
    ensures k in ChangedFields(spec.fields, Some(listed), cli.profilePaths)
            <==> !PyEqual(Field(listed, k), spec.fields[k])
  {
    ShallowSegments(k);
    assert Walk(Obj(listed), [k]) == Field(listed, k) by {
      assert [k][1..] == [];
    }
  }

  lemma MergeTwice(cli: Cli, stored: Doc, body: Doc)
    ensures var merged := MergeProfile(cli, stored, body); MergeProfile(cli, merged, body) == merged
  {
  }

  /** How a merged field is listed: masked when it is a secret that holds something. */
  lemma MergedFieldListed(cli: Cli, stored: Doc, body: Doc, k: string)
    requires k in body && cli.mask != Null
    ensures Field(Masked(cli, MergeProfile(cli, stored, body)), k)
         == if k in cli.secrets && body[k] != Null then cli.mask else body[k]
  {
  }

  lemma MergedField(cli: Cli, spec: ResourceSpec, stored: Doc, k: string)
    requires ValidCli(cli) && spec.kind == RuntimeProfile && Storable(cli, spec) && k in spec.fields && k != NAME
    ensures var merged := MergeProfile(cli, stored, spec.fields - {NAME});
            k in ChangedFields(spec.fields, Some(Masked(cli, merged)), cli.profilePaths) <==> k in Residue(cli, spec)
  {
    hide ChangedFields, Masked, MergeProfile, Canonical;
    var merged := MergeProfile(cli, stored, spec.fields - {NAME});
    FlatFieldChanged(cli, spec, Masked(cli, merged), k);
    MergedFieldListed(cli, stored, spec.fields - {NAME}, k);
    OnlyTheMaskEqualsIt(cli.mask, spec.fields[k]);
  }

  /** A merged profile shows every declared field but the residue, and merging it again changes nothing. */
  lemma MergedProfileSettles(cli: Cli, spec: ResourceSpec, stored: Doc)
    requires ValidCli(cli) && spec.kind == RuntimeProfile && Storable(cli, spec)
    ensures var merged := MergeProfile(cli, stored, spec.fields - {NAME});
            && ChangedFields(spec.fields, Some(Masked(cli, merged)), cli.profilePaths) == Residue(cli, spec)
            && MergeProfile(cli, merged, spec.fields - {NAME}) == merged
            && Field(merged, NAME) == Field(stored, NAME)
  {
    var merged := MergeProfile(cli, stored, spec.fields - {NAME});
    var changed, residue := ChangedFields(spec.fields, Some(Masked(cli, merged)), cli.profilePaths), Residue(cli, spec);
    MergeTwice(cli, stored, spec.fields - {NAME});
    forall k | k in spec.fields && k != NAME
      ensures k in changed <==> k in residue
    {
      MergedField(cli, spec, stored, k);
    }
  }

  lemma RouteFindsTheListedRow(cli: Cli, profiles: seq<Doc>, name: string)
    requires ValidNames(cli, profiles)
    ensures IndexOfProfile(profiles, name) == FirstNamed(cli, profiles, name, 0)
  {
    assert forall j :: 0 <= j < |profiles| ==> (Field(profiles[j], NAME) == Str(name) <==> cli.NameOf(profiles[j]) == name);
  }

  lemma NameFollowsField(cli: Cli, row: Doc, spec: ResourceSpec)
    requires ValidCli(cli) && Named(cli, spec) && Field(row, NAME) == Str(spec.name)
    ensures cli.NameOf(row) == spec.name
  {
    Text.StripIsStable(cli.text(spec.fields[NAME]));
  }

  lemma MergeKeepsName(cli: Cli, stored: Doc, body: Doc)
    requires NAME !in body
    ensures Field(MergeProfile(cli, stored, body), NAME) == Field(stored, NAME)
  {
  }

  lemma PutProfileLands(cli: Cli, s: Store, spec: ResourceSpec)
    requires ValidCli(cli) && ValidStore(cli, s) && Named(cli, spec)
    ensures var i := FirstNamed(cli, s.profiles, spec.name, 0);
            var s' := PutProfile(cli, s, spec.name, spec.fields - {NAME});
            var stored := if i < |s.profiles| then s.profiles[i] else map[NAME := Str(spec.name)];
            var row := MergeProfile(cli, stored, spec.fields - {NAME});
            && cli.NameOf(row) == spec.name && Field(row, NAME) == Str(spec.name)
            && s'.profiles == (if i < |s.profiles| then s.profiles[i := row] else s.profiles + [row])
            && s' == s.(profiles := s'.profiles, writes := s.writes + 1)
  {
    hide MergeProfile, Cli.NameOf, FirstNamed, IndexOfProfile, ChangedFields, Residue, Masked;
    var i := FirstNamed(cli, s.profiles, spec.name, 0);
    RouteFindsTheListedRow(cli, s.profiles, spec.name);
    var stored := if i < |s.profiles| then s.profiles[i] else map[NAME := Str(spec.name)];
    MergeKeepsName(cli, stored, spec.fields - {NAME});
    NameFollowsField(cli, MergeProfile(cli, stored, spec.fields - {NAME}), spec);
  }

  function Slotted(profiles: seq<Doc>, i: nat, row: Doc): seq<Doc>
    requires i <= |profiles|
  {
    if i < |profiles| then profiles[i := row] else profiles + [row]
  }

  lemma SlotKeepsRows(cli: Cli, profiles: seq<Doc>, i: nat, row: Doc, name: string)
    requires ValidNames(cli, profiles) && i == FirstNamed(cli, profiles, name, 0)
    requires cli.NameOf(row) == name && Field(row, NAME) == Str(name)
    ensures var profiles' := Slotted(profiles, i, row);
            && ValidNames(cli, profiles')
            && KeepsRows(cli, profiles, profiles', {name})
            && FirstNamed(cli, profiles', name, 0) == i
  {
    hide Cli.NameOf, Field;
    var profiles' := Slotted(profiles, i, row);
    assert forall j :: 0 <= j < |profiles| && j != i ==> profiles'[j] == profiles[j];
    assert profiles'[i] == row;
  }

  /** Storing a row in the slot of its own name keeps names unique and leaves every other row and lookup alone. */
  lemma SlotKeepsOthers(cli: Cli, profiles: seq<Doc>, i: nat, row: Doc, name: string)
    requires ValidCli(cli) && ValidNames(cli, profiles) && i == FirstNamed(cli, profiles, name, 0)
    requires cli.NameOf(row) == name && Field(row, NAME) == Str(name)
    ensures var profiles' := Slotted(profiles, i, row);
            && ValidNames(cli, profiles')
            && KeepsRows(cli, profiles, profiles', {name})
            && FirstNamed(cli, profiles', name, 0) == i
            && (forall other :: other != name ==>
                  FindNamed(cli, Listing(cli, profiles'), other) == FindNamed(cli, Listing(cli, profiles), other))
  {
    hide Cli.NameOf, Masked, Listing, FindNamed, ValidNames, KeepsRows, Field;
    SlotKeepsRows(cli, profiles, i, row, name);
    var profiles' := Slotted(profiles, i, row);
    forall other | other != name
      ensures FindNamed(cli, Listing(cli, profiles'), other) == FindNamed(cli, Listing(cli, profiles), other)
    {
      OtherProfilesStand(cli, profiles, profiles', i, other);
    }
  }

  lemma ProfileWrites(cli: Cli, s: Store, spec: ResourceSpec) returns (i: nat, stored: Doc, row: Doc)
    requires ValidCli(cli) && ValidStore(cli, s) && Named(cli, spec)
    ensures i == FirstNamed(cli, s.profiles, spec.name, 0)
    ensures cli.NameOf(row) == spec.name && Field(row, NAME) == Str(spec.name)
    ensures PutProfile(cli, s, spec.name, spec.fields - {NAME})
         == s.(profiles := Slotted(s.profiles, i, row), writes := s.writes + 1)
    ensures row == MergeProfile(cli, stored, spec.fields - {NAME})
  {
    i := FirstNamed(cli, s.profiles, spec.name, 0);
    stored := if i < |s.profiles| then s.profiles[i] else map[NAME := Str(spec.name)];
    row := MergeProfile(cli, stored, spec.fields - {NAME});
    PutProfileLands(cli, s, spec);
  }

  predicate CallsForPut(cli: Cli, s: Store, spec: ResourceSpec) {
    var found := FindNamed(cli, Listing(cli, s.profiles), spec.name);
    Verdict(found, ChangedFields(spec.fields, found, cli.profilePaths)) != Unchanged
  }

  /** Whatever a profile's keys, its turn reports what the lookup says, and touches no other row or lookup. */
  lemma ProfileTurn(cli: Cli, s: Store, spec: ResourceSpec)
    requires ValidCli(cli) && ValidStore(cli, s) && spec.kind == RuntimeProfile && Named(cli, spec)
    ensures var step := ApplyProfile(cli, s, spec, true);
            && step.outcome == Report(cli, spec, View(cli, s, RuntimeProfile, spec.name))
            && step.store.agents == s.agents && ValidStore(cli, step.store)
            && KeepsRows(cli, s.profiles, step.store.profiles, {spec.name})
            && (forall name :: name != spec.name ==>
                  View(cli, step.store, RuntimeProfile, name) == View(cli, s, RuntimeProfile, name))
  {
    if CallsForPut(cli, s, spec) {
      var i, _, row := ProfileWrites(cli, s, spec);
      SlotKeepsOthers(cli, s.profiles, i, row, spec.name);
    }
  }

  lemma ProfileApplied(cli: Cli, s: Store, spec: ResourceSpec)
    requires ValidCli(cli) && ValidStore(cli, s) && spec.kind == RuntimeProfile && Placeable(cli, spec)
    ensures var step := ApplyProfile(cli, s, spec, true);
            && step.outcome == Report(cli, spec, View(cli, s, RuntimeProfile, spec.name))
            && step.store.agents == s.agents && ValidStore(cli, step.store)
            && KeepsRows(cli, s.profiles, step.store.profiles, {spec.name})
            && (forall name :: name != spec.name ==>
                  View(cli, step.store, RuntimeProfile, name) == View(cli, s, RuntimeProfile, name))
            && Settled(cli, step.store, spec)
  {
    ProfileTurn(cli, s, spec);
    var i := FirstNamed(cli, s.profiles, spec.name, 0);
    if CallsForPut(cli, s, spec) {
      var _, stored, row := ProfileWrites(cli, s, spec);
      MergedProfileSettles(cli, spec, stored);
      SlotKeepsOthers(cli, s.profiles, i, row, spec.name);
    } else {
      MaskingKeepsNames(cli, s.profiles, spec.name);
      UnchangedLeavesNoResidue(cli, spec, s.profiles[i]);
    }
  }

  lemma UnchangedLeavesNoResidue(cli: Cli, spec: ResourceSpec, stored: Doc)
    requires ValidCli(cli) && spec.kind == RuntimeProfile && Storable(cli, spec)
    requires ChangedFields(spec.fields, Some(Masked(cli, stored)), cli.profilePaths) == {}
    ensures Residue(cli, spec) == {}
  {
    if k :| k in Residue(cli, spec) {
      FlatFieldChanged(cli, spec, Masked(cli, stored), k);
      OnlyTheMaskEqualsIt(cli.mask, spec.fields[k]);
    }
  }

  /** Looking a profile up in the listing finds the masked row of that name. */
  lemma ListedProfile(cli: Cli, profiles: seq<Doc>, name: string)
    requires ValidCli(cli)
    ensures var i := FirstNamed(cli, profiles, name, 0);
            FindNamed(cli, Listing(cli, profiles), name) == if i == |profiles| then None else Some(Masked(cli, profiles[i]))
  {
    hide Cli.NameOf, Masked;
    MaskingKeepsNames(cli, profiles, name);
  }

  lemma OtherProfilesStand(cli: Cli, profiles: seq<Doc>, profiles': seq<Doc>, i: nat, name: string)
    requires ValidCli(cli) && i <= |profiles|
    requires |profiles'| == if i < |profiles| then |profiles| else i + 1
    requires forall j :: 0 <= j < |profiles| && j != i ==> profiles'[j] == profiles[j]
    requires cli.NameOf(profiles'[i]) != name && (i < |profiles| ==> cli.NameOf(profiles[i]) != name)
    ensures FindNamed(cli, Listing(cli, profiles'), name) == FindNamed(cli, Listing(cli, profiles), name)
  {
    hide Cli.NameOf, Masked, Listing, FindNamed;
    ListedProfile(cli, profiles, name);
    ListedProfile(cli, profiles', name);
    if i < |profiles| {
      assert forall j :: 0 <= j < |profiles| ==> (cli.NameOf(profiles'[j]) == name <==> cli.NameOf(profiles[j]) == name);
    } else {
      assert profiles' == profiles + [profiles'[i]];
      AppendedElsewhere(cli, profiles, profiles'[i], name, 0);
    }
  }

  // ----- whole passes

  ghost predicate Distinct(specs: seq<ResourceSpec>) {
    forall i, j :: 0 <= i < j < |specs| ==> specs[i].kind != specs[j].kind || specs[i].name != specs[j].name
  }

  ghost predicate AllNamed(cli: Cli, specs: seq<ResourceSpec>) {
    forall i :: 0 <= i < |specs| ==> Named(cli, specs[i])
  }

  ghost predicate AllPlaceable(cli: Cli, specs: seq<ResourceSpec>) {
    forall i :: 0 <= i < |specs| ==> Placeable(cli, specs[i])
  }

  function NamesOf(specs: seq<ResourceSpec>, kind: Kind): set<string> {
    set i | 0 <= i < |specs| && specs[i].kind == kind :: specs[i].name
  }

  /** Rows that bear none of the names are untouched. */
  ghost predicate SparesOthers(cli: Cli, s: Store, s': Store, agents: set<string>, profiles: set<string>) {
    SparesRows(cli, s.agents, s'.agents, agents) && SparesRows(cli, s.profiles, s'.profiles, profiles)
  }

  /** Nothing but the resources named is touched. */
  ghost predicate KeepsOthers(cli: Cli, s: Store, s': Store, agents: set<string>, profiles: set<string>) {
    KeepsRows(cli, s.agents, s'.agents, agents) && KeepsRows(cli, s.profiles, s'.profiles, profiles)
  }

  lemma OneApplied(cli: Cli, s: Store, spec: ResourceSpec)
    requires ValidCli(cli) && ValidStore(cli, s) && Placeable(cli, spec)
    ensures var step := ApplyOne(cli, s, spec, true);
            && step.outcome == Report(cli, spec, View(cli, s, spec.kind, spec.name))
            && ValidStore(cli, step.store)
            && KeepsOthers(cli, s, step.store, NamesOf([spec], Agent), NamesOf([spec], RuntimeProfile))
            && (forall kind, name :: kind != spec.kind || name != spec.name ==>
                  View(cli, step.store, kind, name) == View(cli, s, kind, name))
            && (step.outcome.Ok? ==> Settled(cli, step.store, spec))
  {
    hide ChangedFields, Cli.NameOf, ApplyAgent, ApplyProfile, ValidIds, ValidNames, Placeable, MatchAgent, FirstNamed,
         FindNamed, Listing, Report, Settled;
    assert [spec][0] == spec;
    match spec.kind {
      case Agent =>
        assert spec.name in NamesOf([spec], Agent);
        AgentApplied(cli, s, spec);
      case RuntimeProfile =>
        assert spec.name in NamesOf([spec], RuntimeProfile);
        ProfileApplied(cli, s, spec);
    }
  }

  /** What is settled stays settled while other resources are written. */
  lemma OtherWritesKeepSettled(cli: Cli, s: Store, s': Store, spec: ResourceSpec, other: ResourceSpec)
    requires spec.kind != other.kind || spec.name != other.name
    requires KeepsOthers(cli, s, s', NamesOf([spec], Agent), NamesOf([spec], RuntimeProfile))
    requires View(cli, s', other.kind, other.name) == View(cli, s, other.kind, other.name)
    requires Settled(cli, s, other)
    ensures Settled(cli, s', other)
  {
    if other.kind == RuntimeProfile {
      var i := FirstNamed(cli, s.profiles, other.name, 0);
      assert other.name !in NamesOf([spec], RuntimeProfile);
      assert s'.profiles[i] == s.profiles[i];
      assert FirstNamed(cli, s'.profiles, other.name, 0) == i;
    }
  }

  lemma {:induction false} DryRunChangesNothing(cli: Cli, s: Store, specs: seq<ResourceSpec>)
    requires ValidCli(cli)
    ensures Run(cli, s, specs, false).store == s
    decreases |specs|
  {
    if specs != [] {
      DryRunChangesNothing(cli, s, specs[1..]);
    }
  }

  lemma StepKeepsSettled(cli: Cli, s: Store, spec: ResourceSpec, other: ResourceSpec)
    requires ValidCli(cli) && ValidStore(cli, s) && Placeable(cli, spec) && Settled(cli, s, other)
    requires spec.kind != other.kind || spec.name != other.name
    ensures ValidStore(cli, ApplyOne(cli, s, spec, true).store)
    ensures Settled(cli, ApplyOne(cli, s, spec, true).store, other)
  {
    hide ApplyOne, Settled, ValidStore, Placeable, KeepsOthers, View, Report;
    OneApplied(cli, s, spec);
    OtherWritesKeepSettled(cli, s, ApplyOne(cli, s, spec, true).store, spec, other);
  }

  lemma PassKeepsSettled(cli: Cli, s: Store, specs: seq<ResourceSpec>, other: ResourceSpec)
    requires ValidCli(cli) && ValidStore(cli, s) && AllPlaceable(cli, specs)
    requires forall i :: 0 <= i < |specs| ==> specs[i].kind != other.kind || specs[i].name != other.name
    requires Settled(cli, s, other)
    ensures Settled(cli, Run(cli, s, specs, true).store, other)
    decreases |specs|
  {
    hide ApplyOne, Settled, ValidStore, Placeable;
    if specs != [] {
      StepKeepsSettled(cli, s, specs[0], other);
      PassKeepsSettled(cli, ApplyOne(cli, s, specs[0], true).store, specs[1..], other);
    }
  }

  lemma PassSettles(cli: Cli, s: Store, specs: seq<ResourceSpec>)
    requires ValidCli(cli) && ValidStore(cli, s) && Distinct(specs) && AllPlaceable(cli, specs)
    ensures var pass := Run(cli, s, specs, true);
            && ValidStore(cli, pass.store)
            && (pass.error.Some? ==> pass.error.value.AmbiguousAgent?)
            && (pass.error == None ==> forall i :: 0 <= i < |specs| ==> Settled(cli, pass.store, specs[i]))
    decreases |specs|
  {
    hide ApplyOne, Settled, ValidStore, KeepsRows, KeepsOthers, Placeable, ChangedFields, FirstNamed, Listing;
    if specs != [] {
      var step := ApplyOne(cli, s, specs[0], true);
      OneApplied(cli, s, specs[0]);
      if step.outcome.Ok? {
        PassSettles(cli, step.store, specs[1..]);
        PassKeepsSettled(cli, step.store, specs[1..], specs[0]);
      }
    }
  }

  lemma SparingComposes(cli: Cli, a: seq<Doc>, b: seq<Doc>, c: seq<Doc>, first: set<string>, then': set<string>, all: set<string>)
    requires SparesRows(cli, a, b, first) && SparesRows(cli, b, c, then') && first <= all && then' <= all
    ensures SparesRows(cli, a, c, all)
    ensures KeepsRows(cli, a, b, first) && KeepsRows(cli, b, c, then') ==> KeepsRows(cli, a, c, all)
  {
  }

  lemma NamesOfParts(specs: seq<ResourceSpec>, kind: Kind)
    requires specs != []
    ensures NamesOf([specs[0]], kind) <= NamesOf(specs, kind)
    ensures NamesOf(specs[1..], kind) <= NamesOf(specs, kind)
  {
    assert forall i :: 0 <= i < |specs[1..]| ==> specs[1..][i] == specs[i + 1];
  }

  /** Whatever its keys, a resource's turn leaves a valid deployment and spares every row of another name. */
  lemma OneTurn(cli: Cli, s: Store, spec: ResourceSpec)
    requires ValidCli(cli) && ValidStore(cli, s) && Named(cli, spec)
    ensures var step := ApplyOne(cli, s, spec, true);
            && ValidStore(cli, step.store)
            && SparesOthers(cli, s, step.store, NamesOf([spec], Agent), NamesOf([spec], RuntimeProfile))
            && ((spec.kind == Agent ==> NameInPlace(cli, spec)) ==>
                  KeepsOthers(cli, s, step.store, NamesOf([spec], Agent), NamesOf([spec], RuntimeProfile)))
  {
    hide Cli.NameOf, ApplyAgent, ApplyProfile, ValidStore, Named, NameInPlace;
    assert [spec][0] == spec;
    match spec.kind {
      case Agent =>
        assert spec.name in NamesOf([spec], Agent);
        AgentTurn(cli, s, spec);
      case RuntimeProfile =>
        assert spec.name in NamesOf([spec], RuntimeProfile);
        ProfileTurn(cli, s, spec);
    }
  }

  ghost predicate NamesInPlace(cli: Cli, specs: seq<ResourceSpec>) {
    forall i :: 0 <= i < |specs| && specs[i].kind == Agent ==> NameInPlace(cli, specs[i])
  }

  /**
   * Whatever the keys, and even when it stops midway, a pass leaves every row the document does not name as it was;
   * with names stored in place it gives no row another name, and adds only rows of the names declared.
   */
  lemma PassKeepsOthers(cli: Cli, s: Store, specs: seq<ResourceSpec>)
    requires ValidCli(cli) && ValidStore(cli, s) && AllNamed(cli, specs)
    ensures var s', agents, profiles := Run(cli, s, specs, true).store, NamesOf(specs, Agent), NamesOf(specs, RuntimeProfile);
            && ValidStore(cli, s')
            && SparesOthers(cli, s, s', agents, profiles)
            && (NamesInPlace(cli, specs) ==> KeepsOthers(cli, s, s', agents, profiles))
    decreases |specs|
  {
    hide ApplyOne, NamesOf, ValidStore, Named, NameInPlace, SparesRows, KeepsRows;
    if specs != [] {
      var step := ApplyOne(cli, s, specs[0], true);
      OneTurn(cli, s, specs[0]);
      NamesOfParts(specs, Agent);
      NamesOfParts(specs, RuntimeProfile);
      PassKeepsOthers(cli, step.store, specs[1..]);
      var last := if step.outcome.Ok? then Run(cli, step.store, specs[1..], true).store else step.store;
      if step.outcome.Err? {
        SameRowsAreKept(cli, last, NamesOf(specs[1..], Agent), NamesOf(specs[1..], RuntimeProfile));
      }
      SparingComposes(cli, s.agents, step.store.agents, last.agents,
                      NamesOf([specs[0]], Agent), NamesOf(specs[1..], Agent), NamesOf(specs, Agent));
      SparingComposes(cli, s.profiles, step.store.profiles, last.profiles,
                      NamesOf([specs[0]], RuntimeProfile), NamesOf(specs[1..], RuntimeProfile), NamesOf(specs, RuntimeProfile));
    } else {
      SameRowsAreKept(cli, s, NamesOf(specs, Agent), NamesOf(specs, RuntimeProfile));
    }
  }

  lemma SameRowsAreKept(cli: Cli, s: Store, agents: set<string>, profiles: set<string>)
    ensures SparesOthers(cli, s, s, agents, profiles) && KeepsOthers(cli, s, s, agents, profiles)
  {
  }

  /** What a second pass reports of a settled resource: nothing changed but the masked secrets it carries. */
  function SettledRow(cli: Cli, spec: ResourceSpec): ReportRow {
    var residue := Residue(cli, spec);
    ReportRow(spec.kind, spec.name, if residue == {} then Unchanged else Update, residue)
  }

  function SettledRows(cli: Cli, specs: seq<ResourceSpec>): seq<ReportRow> {
    seq(|specs|, i requires 0 <= i < |specs| => SettledRow(cli, specs[i]))
  }

  function ResidualWrites(cli: Cli, specs: seq<ResourceSpec>): nat {
    if specs == [] then 0 else (if Residue(cli, specs[0]) == {} then 0 else 1) + ResidualWrites(cli, specs[1..])
  }

  /** Putting the same profile fields again leaves the same profiles. */
  lemma SettledProfilePut(cli: Cli, s: Store, spec: ResourceSpec)
    requires ValidCli(cli) && ValidStore(cli, s) && spec.kind == RuntimeProfile && Settled(cli, s, spec)
    requires Residue(cli, spec) != {}
    ensures PutProfile(cli, s, spec.name, spec.fields - {NAME}) == s.(writes := s.writes + 1)
  {
    hide Masked, Residue, ChangedFields, MergeProfile, PathsOf, FirstNamed, IndexOfProfile;
    var i := FirstNamed(cli, s.profiles, spec.name, 0);
    RouteFindsTheListedRow(cli, s.profiles, spec.name);
    assert s.profiles[i := s.profiles[i]] == s.profiles;
  }

  lemma SettledStepIsQuiet(cli: Cli, s: Store, spec: ResourceSpec, write: bool)
    requires ValidCli(cli) && ValidStore(cli, s) && Settled(cli, s, spec)
    ensures ApplyOne(cli, s, spec, write)
         == Step(s.(writes := s.writes + if write && Residue(cli, spec) != {} then 1 else 0), Ok(SettledRow(cli, spec)))
  {
    if spec.kind == RuntimeProfile {
      MaskingKeepsNames(cli, s.profiles, spec.name);
      if Residue(cli, spec) != {} {
        SettledProfilePut(cli, s, spec);
      }
    }
  }

  lemma SettledIgnoresWrites(cli: Cli, s: Store, spec: ResourceSpec, writes: nat)
    ensures Settled(cli, s.(writes := writes), spec) == Settled(cli, s, spec)
    ensures ValidStore(cli, s.(writes := writes)) == ValidStore(cli, s)
  {
  }

  lemma SettledPassIsQuiet(cli: Cli, s: Store, specs: seq<ResourceSpec>, write: bool)
    requires ValidCli(cli) && ValidStore(cli, s)
    requires forall i :: 0 <= i < |specs| ==> Settled(cli, s, specs[i])
    ensures Run(cli, s, specs, write)
         == Pass(s.(writes := s.writes + if write then ResidualWrites(cli, specs) else 0), SettledRows(cli, specs), None)
    decreases |specs|
  {
    hide ApplyOne, Settled, Residue, ValidStore;
    if specs != [] {
      SettledStepIsQuiet(cli, s, specs[0], write);
      var s' := ApplyOne(cli, s, specs[0], write).store;
      SettledIgnoresWrites(cli, s, specs[0], s'.writes);
      forall i | 0 <= i < |specs[1..]|
        ensures Settled(cli, s', specs[1..][i])
      {
        SettledIgnoresWrites(cli, s, specs[i + 1], s'.writes);
      }
      SettledPassIsQuiet(cli, s', specs[1..], write);
      assert SettledRows(cli, specs) == [SettledRow(cli, specs[0])] + SettledRows(cli, specs[1..]);
    }
  }

  // ----- the theorems

  ghost predicate AllStorable(cli: Cli, document: Document) {
    && (forall i :: 0 <= i < |document.profiles| ==> Storable(cli, document.profiles[i]))
    && (forall i :: 0 <= i < |document.agents| ==> Storable(cli, document.agents[i]))
  }

  lemma ParsedSpecsArePlaceable(cli: Cli, raw: Json) returns (specs: seq<ResourceSpec>)
    requires cli.ParseDocument(raw).Ok? && AllStorable(cli, cli.ParseDocument(raw).value)
    ensures specs == cli.ParseDocument(raw).value.profiles + cli.ParseDocument(raw).value.agents
    ensures Distinct(specs) && AllPlaceable(cli, specs)
    ensures forall i :: 0 <= i < |specs| ==>
              specs[i] in (if specs[i].kind == Agent then cli.ParseDocument(raw).value.agents
                           else cli.ParseDocument(raw).value.profiles)
  {
    cli.ParsedNamesAreDistinct(raw);
    specs := cli.ParseDocument(raw).value.profiles + cli.ParseDocument(raw).value.agents;
  }

  lemma PlaceableNamesAreInPlace(cli: Cli, specs: seq<ResourceSpec>)
    requires AllPlaceable(cli, specs)
    ensures AllNamed(cli, specs) && NamesInPlace(cli, specs)
  {
    hide Storable, NameInPlace;
    forall i | 0 <= i < |specs| && specs[i].kind == Agent
      ensures NameInPlace(cli, specs[i])
    {
      StorableKeepsName(cli, specs[i]);
    }
  }

  /**
   * Applying a parsed document converges. A writing pass either stops at an ambiguous Agent name or settles every
   * resource, so that any later pass reports every Agent unchanged and every profile changed only in the secrets whose
   * real value the document carries, leaves the same Agents and profiles, and writes only those profiles. Either way,
   * rows the document does not name are untouched.
   */
  lemma ApplyConverges(cli: Cli, s: Store, raw: Json, again: bool)
    requires ValidCli(cli) && ValidStore(cli, s)
    requires cli.ParseDocument(raw).Ok? && AllStorable(cli, cli.ParseDocument(raw).value)
    ensures var document := cli.ParseDocument(raw).value;
            var specs := document.profiles + document.agents;
            var first := PlanAndRun(cli, s, document, true);
            && KeepsOthers(cli, s, first.store, NamesOf(specs, Agent), NamesOf(specs, RuntimeProfile))
            && (first.error.Some? ==> first.error.value.AmbiguousAgent?)
            && (first.error == None ==>
                  PlanAndRun(cli, first.store, document, again)
                  == Pass(first.store.(writes := first.store.writes + if again then ResidualWrites(cli, specs) else 0),
                          SettledRows(cli, specs), None))
  {
    var specs := ParsedSpecsArePlaceable(cli, raw);
    var first := Run(cli, s, specs, true);
    PlaceableNamesAreInPlace(cli, specs);
    PassKeepsOthers(cli, s, specs);
    PassSettles(cli, s, specs);
    if first.error == None {
      SettledPassIsQuiet(cli, first.store, specs, again);
    }
  }
}
