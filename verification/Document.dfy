/** The declarative document: its closed set of keys, and one named resource per list item. */
module Documents {
  import opened Prelude
  import opened Json
  import Text
  import RequestBody

  datatype Kind = RuntimeProfile | Agent

  datatype ResourceSpec = ResourceSpec(kind: Kind, name: string, fields: Doc)

  datatype Document = Document(profiles: seq<ResourceSpec>, agents: seq<ResourceSpec>)

  datatype UsageError =
    | Empty
    | NotAMapping
    | UnknownKeys(keys: set<string>)
    | WrongVersion
    | NotAList(kind: Kind)
    | ItemNotAMapping(kind: Kind, index: nat)
    | NoName(kind: Kind, index: nat)
    | DeclaredTwice(kind: Kind, name: string, first: nat, second: nat)

  const TOP_LEVEL_KEYS := {"version", "runtime_profiles", "agents"}

  const DOCUMENT_VERSION := Num(1.0)

  /**
   * What the client is told by its surroundings: how a value prints, the insertion order of a mapping, the schema's
   * key-to-path maps, and which profile fields the deployment masks.
   */
  datatype Cli = Cli(
    text: Json -> string,
    order: Doc -> seq<string>,
    profilePaths: map<string, string>,
    agentPaths: map<string, string>,
    secrets: set<string>,
    mask: Json)
  {
    ghost predicate Valid() {
      && (forall s :: text(Str(s)) == s)
      && (forall d: Doc :: RequestBody.Enumerates(order(d), d.Keys))
      && "name" !in secrets
    }

    /** `str(item.get("name") or "").strip()` */
    function NameOf(item: Doc): string {
      if "name" in item && Truthy(item["name"]) then Text.Strip(text(item["name"])) else ""
    }

    function IndexOfName(specs: seq<ResourceSpec>, name: string): (i: nat)
      ensures i <= |specs|
      ensures i < |specs| ==> specs[i].name == name
      ensures forall j :: 0 <= j < i ==> specs[j].name != name
    {
      if specs == [] || specs[0].name == name then 0 else 1 + IndexOfName(specs[1..], name)
    }

    /** The first `n` items of a resource list, or what is wrong with the first unacceptable one. */
    function ParseItems(items: seq<Json>, kind: Kind, n: nat): Result<seq<ResourceSpec>, UsageError>
      requires n <= |items|
    {
      if n == 0 then Ok([])
      else
        match ParseItems(items, kind, n - 1)
        case Err(e) => Err(e)
        case Ok(specs) =>
          if !items[n - 1].Obj? then Err(ItemNotAMapping(kind, n - 1))
          else
            var name := NameOf(items[n - 1].members);
            var i := IndexOfName(specs, name);
            if name == "" then Err(NoName(kind, n - 1))
            else if i < |specs| then Err(DeclaredTwice(kind, name, i, n - 1))
            else Ok(specs + [ResourceSpec(kind, name, items[n - 1].members)])
    }

    function ParseResources(raw: Option<Json>, kind: Kind): Result<seq<ResourceSpec>, UsageError> {
      if raw == None || raw == Some(Null) then Ok([])
      else if !raw.value.Arr? then Err(NotAList(kind))
      else ParseItems(raw.value.items, kind, |raw.value.items|)
    }

    method ParseResourceList(raw: Option<Json>, kind: Kind) returns (r: Result<seq<ResourceSpec>, UsageError>)
      ensures r == ParseResources(raw, kind)
    {
      hide NameOf, IndexOfName;
      if raw == None || raw == Some(Null) {
        return Ok([]);
      }
      if !raw.value.Arr? {
        return Err(NotAList(kind));
      }
      var items := raw.value.items;
      var specs: seq<ResourceSpec> := [];
      var seen: map<string, nat> := map[];
      for index := 0 to |items|
        invariant ParseItems(items, kind, index) == Ok(specs)
        invariant Indexes(seen, specs)
        invariant |specs| == index
      {
        if !items[index].Obj? {
          ParseStops(items, kind, index + 1);
          return Err(ItemNotAMapping(kind, index));
        }
        var name := NameOf(items[index].members);
        if name == "" {
          ParseStops(items, kind, index + 1);
          return Err(NoName(kind, index));
        }
        if name in seen {
          ParseStops(items, kind, index + 1);
          return Err(DeclaredTwice(kind, name, seen[name], index));
        }
        var spec := ResourceSpec(kind, name, items[index].members);
        SeenGrows(seen, specs, spec);
        seen := seen[name := index];
        specs := specs + [spec];
      }
      return Ok(specs);
    }

    lemma IndexAfterAppend(specs: seq<ResourceSpec>, spec: ResourceSpec, name: string)
      ensures var i := IndexOfName(specs, name);
              IndexOfName(specs + [spec], name) == if i < |specs| || spec.name == name then i else i + 1
    {
      if specs == [] {
        assert (specs + [spec])[1..] == [];
      } else if specs[0].name != name {
        assert (specs + [spec])[1..] == specs[1..] + [spec];
        IndexAfterAppend(specs[1..], spec, name);
      }
    }

    /** What the loop's dictionary of seen names records. */
    ghost predicate Indexes(seen: map<string, nat>, specs: seq<ResourceSpec>) {
      forall name :: if name in seen then seen[name] < |specs| && IndexOfName(specs, name) == seen[name]
                     else IndexOfName(specs, name) == |specs|
    }

    lemma SeenGrows(seen: map<string, nat>, specs: seq<ResourceSpec>, spec: ResourceSpec)
      requires Indexes(seen, specs) && spec.name !in seen
      ensures Indexes(seen[spec.name := |specs|], specs + [spec])
    {
      forall name ensures var s := seen[spec.name := |specs|];
                          if name in s then s[name] < |specs| + 1 && IndexOfName(specs + [spec], name) == s[name]
                          else IndexOfName(specs + [spec], name) == |specs| + 1
      {
        IndexAfterAppend(specs, spec, name);
        assert if name in seen then seen[name] < |specs| && IndexOfName(specs, name) == seen[name]
               else IndexOfName(specs, name) == |specs|;
      }
    }

    lemma ParseStops(items: seq<Json>, kind: Kind, n: nat)
      requires n <= |items| && ParseItems(items, kind, n).Err?
      ensures ParseItems(items, kind, |items|) == ParseItems(items, kind, n)
      decreases |items| - n
    {
      if n < |items| {
        ParseStops(items, kind, n + 1);
      }
    }

    /** Every item is a mapping with a name of its own. */
    predicate Declarable(items: seq<Json>, n: nat)
      requires n <= |items|
    {
      && (forall i :: 0 <= i < n ==> items[i].Obj? && NameOf(items[i].members) != "")
      && (forall i, j :: 0 <= i < j < n ==> NameOf(items[i].members) != NameOf(items[j].members))
    }

    /** A list is accepted exactly when it is declarable, and then each spec is its item, in order. */
    lemma {:induction false} AcceptedIffDeclarable(items: seq<Json>, kind: Kind, n: nat)
      requires n <= |items|
      ensures ParseItems(items, kind, n).Ok? <==> Declarable(items, n)
      ensures ParseItems(items, kind, n).Ok? ==>
                var specs := ParseItems(items, kind, n).value;
                && |specs| == n
                && (forall i :: 0 <= i < n ==>
                      specs[i] == ResourceSpec(kind, NameOf(items[i].members), items[i].members))
    {
      hide NameOf, IndexOfName;
      if n > 0 {
        AcceptedIffDeclarable(items, kind, n - 1);
      }
    }

    /** What the first unacceptable item is, and what is wrong with it: everything before it is acceptable. */
    predicate Explains(items: seq<Json>, kind: Kind, e: UsageError) {
      match e
      case ItemNotAMapping(k, i) => k == kind && i < |items| && Declarable(items, i) && !items[i].Obj?
      case NoName(k, i) =>
        k == kind && i < |items| && Declarable(items, i) && items[i].Obj? && NameOf(items[i].members) == ""
      case DeclaredTwice(k, name, first, second) =>
        && k == kind && first < second < |items| && Declarable(items, second) && items[second].Obj? && name != ""
        && NameOf(items[first].members) == name && NameOf(items[second].members) == name
      case _ => false
    }

    /** A list that is not accepted is refused for its first unacceptable item, whose fault the error names. */
    lemma {:induction false} RefusalExplains(items: seq<Json>, kind: Kind, n: nat)
      requires n <= |items| && ParseItems(items, kind, n).Err?
      ensures Explains(items, kind, ParseItems(items, kind, n).error)
    {
      hide NameOf, IndexOfName;
      if ParseItems(items, kind, n - 1).Err? {
        RefusalExplains(items, kind, n - 1);
      } else {
        AcceptedIffDeclarable(items, kind, n - 1);
      }
    }

    /** A missing or null list is empty. */
    predicate ListAccepted(raw: Option<Json>) {
      raw == None || raw == Some(Null) || (raw.value.Arr? && Declarable(raw.value.items, |raw.value.items|))
    }

    function ItemsOf(raw: Option<Json>): seq<Json> {
      if raw.Some? && raw.value.Arr? then raw.value.items else []
    }

    predicate SpecsAre(specs: seq<ResourceSpec>, kind: Kind, items: seq<Json>) {
      && |specs| == |items|
      && forall i :: 0 <= i < |items| ==>
           items[i].Obj? && specs[i] == ResourceSpec(kind, NameOf(items[i].members), items[i].members)
    }

    /**
     * A document is accepted exactly when it is a mapping of no other members than its version, which is 1, and its two
     * lists, and both lists are declarable; its resources are then the items, in order.
     */
    lemma DocumentAcceptedIff(raw: Json)
      ensures ParseDocument(raw).Ok? <==>
              && raw.Obj? && raw.members.Keys <= {"version", "runtime_profiles", "agents"}
              && "version" in raw.members && (raw.members["version"] == Num(1.0) || raw.members["version"] == Bool(true))
              && ListAccepted(Member(raw.members, "runtime_profiles")) && ListAccepted(Member(raw.members, "agents"))
      ensures ParseDocument(raw).Ok? ==>
                && SpecsAre(ParseDocument(raw).value.profiles, RuntimeProfile, ItemsOf(Member(raw.members, "runtime_profiles")))
                && SpecsAre(ParseDocument(raw).value.agents, Agent, ItemsOf(Member(raw.members, "agents")))
    {
      hide NameOf;
      if raw.Obj? {
        var body := raw.members;
        ListAcceptedIff(Member(body, "runtime_profiles"), RuntimeProfile);
        ListAcceptedIff(Member(body, "agents"), Agent);
        assert body.Keys - TOP_LEVEL_KEYS == {} <==> body.Keys <= TOP_LEVEL_KEYS;
      }
    }

    lemma ListAcceptedIff(raw: Option<Json>, kind: Kind)
      ensures ParseResources(raw, kind).Ok? <==> ListAccepted(raw)
      ensures ParseResources(raw, kind).Ok? ==> SpecsAre(ParseResources(raw, kind).value, kind, ItemsOf(raw))
    {
      hide NameOf;
      if raw.Some? && raw.value.Arr? {
        AcceptedIffDeclarable(raw.value.items, kind, |raw.value.items|);
      }
    }

    /** A name is what its text says between blanks, and none when it is missing or empty. */
    lemma NameLaw(item: Doc, before: string, name: string, after: string)
      requires Valid() && Text.Blank(before) && Text.Blank(after)
      requires name == "" || (!Text.IsSpace(name[0]) && !Text.IsSpace(name[|name| - 1]))
      ensures NameOf(item["name" := Str(before + name + after)]) == name
      ensures "name" !in item || item["name"] == Null ==> NameOf(item) == ""
    {
      Text.StripLaw(before, name, after);
      if before + name + after == "" {
        assert name == "";
      }
    }

    function ParseDocument(raw: Json): Result<Document, UsageError> {
      if raw.Null? then Err(Empty)
      else if !raw.Obj? then Err(NotAMapping)
      else
        var body := raw.members;
        if body.Keys - TOP_LEVEL_KEYS != {} then Err(UnknownKeys(body.Keys - TOP_LEVEL_KEYS))
        else if "version" !in body || !PyEqual(body["version"], DOCUMENT_VERSION) then Err(WrongVersion)
        else
          match ParseResources(Member(body, "runtime_profiles"), RuntimeProfile)
          case Err(e) => Err(e)
          case Ok(profiles) =>
            match ParseResources(Member(body, "agents"), Agent)
            case Err(e) => Err(e)
            case Ok(agents) => Ok(Document(profiles, agents))
    }

    function Member(body: Doc, key: string): Option<Json> {
      if key in body then Some(body[key]) else None
    }

    /** Every list the parser returns names each resource once, by the name its own fields carry. */
    predicate Parsed(specs: seq<ResourceSpec>, kind: Kind) {
      && (forall i :: 0 <= i < |specs| ==>
            specs[i].kind == kind && specs[i].name != "" && specs[i].name == NameOf(specs[i].fields))
      && (forall i, j :: 0 <= i < j < |specs| ==> specs[i].name != specs[j].name)
    }

    lemma ParsedNamesAreDistinct(raw: Json)
      requires ParseDocument(raw).Ok?
      ensures Parsed(ParseDocument(raw).value.profiles, RuntimeProfile)
      ensures Parsed(ParseDocument(raw).value.agents, Agent)
    {
      ListIsParsed(Member(raw.members, "runtime_profiles"), RuntimeProfile);
      ListIsParsed(Member(raw.members, "agents"), Agent);
    }

    lemma ListIsParsed(raw: Option<Json>, kind: Kind)
      requires ParseResources(raw, kind).Ok?
      ensures Parsed(ParseResources(raw, kind).value, kind)
    {
      if raw.Some? && raw.value.Arr? {
        AcceptedIffDeclarable(raw.value.items, kind, |raw.value.items|);
      }
    }
  }
}
