/** Placing declared fields at their schema paths (`request_body`), and reading them back. */
module RequestBody {
  import opened Prelude
  import opened Json
  import opened Paths

  /** Where a key is stored: its schema path, or the key itself when the schema does not list it. */
  function PathOf(paths: map<string, string>, key: string): string {
    if key in paths then paths[key] else key
  }

  function SegmentsOf(paths: map<string, string>, key: string): seq<string> {
    Split(PathOf(paths, key))
  }

  /** One turn of the loop; `None` is the `TypeError` of indexing into something that is not a mapping. */
  function Place(body: Doc, path: string, value: Json, existing: Doc): Option<Doc> {
    var head, rest := Head(path), Rest(path);
    if rest == "" then Some(body[head := value])
    else
      var inner :=
        if head in body then body[head]
        else if head in existing && existing[head].Obj? then existing[head]
        else Obj(map[]);
      if inner.Obj? then Some(body[head := Obj(inner.members[rest := value])]) else None
  }

  /** The body after the keys of `order`, in that order. */
  function Build(order: seq<string>, fields: Doc, paths: map<string, string>, existing: Doc): Option<Doc>
    requires forall k :: k in order ==> k in fields
  {
    if order == [] then Some(map[])
    else
      var last := order[|order| - 1];
      match Build(order[..|order| - 1], fields, paths, existing)
      case None => None
      case Some(body) => Place(body, PathOf(paths, last), fields[last], existing)
  }

  /** `order` lists each key of a mapping once: some insertion order of it. */
  ghost predicate Enumerates(order: seq<string>, keys: set<string>) {
    && (forall k :: k in order <==> k in keys)
    && (forall i, j :: 0 <= i < j < |order| ==> order[i] != order[j])
  }

  method BuildBody(fields: Doc, order: seq<string>, paths: map<string, string>, existing: Option<Doc>)
    returns (result: Option<Doc>)
    requires Enumerates(order, fields.Keys)
    ensures result == Build(order, fields, paths, if existing.Some? then existing.value else map[])
  {
    var body: Doc := map[];
    ghost var stored := if existing.Some? then existing.value else map[];
    for i := 0 to |order|
      invariant Build(order[..i], fields, paths, stored) == Some(body)
    {
      assert order[..i + 1][..i] == order[..i] && order[..i + 1][i] == order[i];
      ghost var before := body;
      var path, value := PathOf(paths, order[i]), fields[order[i]];
      var head, rest := Head(path), Rest(path);
      if rest == "" {
        body := body[head := value];
      } else {
        var inner :=
          if head in body then body[head]
          else if existing.Some? && head in existing.value && existing.value[head].Obj? then existing.value[head]
          else Obj(map[]);
        if !inner.Obj? {
          Failed(order, i + 1, fields, paths, stored);
          return None;
        }
        body := body[head := Obj(inner.members[rest := value])];
      }
      assert Place(before, path, value, stored) == Some(body);
    }
    assert order[..|order|] == order;
    return Some(body);
  }

  /** Once a placement fails, the whole body fails. */
  lemma Failed(order: seq<string>, n: nat, fields: Doc, paths: map<string, string>, existing: Doc)
    requires forall k :: k in order ==> k in fields
    requires n <= |order|
    requires Build(order[..n], fields, paths, existing) == None
    ensures Build(order, fields, paths, existing) == None
  {
    if n == |order| {
      assert order[..n] == order;
    } else {
      assert order[..|order| - 1][..n] == order[..n];
      Failed(order[..|order| - 1], n, fields, paths, existing);
    }
  }

  /** No path is longer than two segments, none ends in a bare dot, and none is a prefix of another. */
  ghost predicate WellPlaced(keys: set<string>, paths: map<string, string>) {
    && (forall k :: k in keys ==> Shallow(PathOf(paths, k)))
    && (forall k, l :: k in keys && l in keys && k != l ==>
          !Comparable(SegmentsOf(paths, k), SegmentsOf(paths, l)))
  }

  /** The path avoids every declared one: neither is a prefix of the other. */
  ghost predicate Apart(segs: seq<string>, keys: set<string>, paths: map<string, string>) {
    forall k :: k in keys ==> !Comparable(segs, SegmentsOf(paths, k))
  }

  /** Storing one value in place: the lens whose getter is `Walk`. */
  function Put(doc: Doc, path: string, value: Json): Doc {
    var head, rest := Head(path), Rest(path);
    if rest == "" then doc[head := value]
    else
      var inner := if head in doc && doc[head].Obj? then doc[head].members else map[];
      doc[head := Obj(inner[rest := value])]
  }

  function PutAll(doc: Doc, order: seq<string>, fields: Doc, paths: map<string, string>): Doc
    requires forall k :: k in order ==> k in fields
  {
    if order == [] then doc
    else
      var last := order[|order| - 1];
      Put(PutAll(doc, order[..|order| - 1], fields, paths), PathOf(paths, last), fields[last])
  }

  lemma PutGet(doc: Doc, path: string, value: Json)
    requires Shallow(path)
    ensures Walk(Obj(Put(doc, path, value)), Split(path)) == value
  {
    ShallowSegments(path);
    if Direct(path) {
      assert [path][1..] == [];
    } else {
      WalkTwo(Put(doc, path, value), Head(path), Rest(path));
    }
  }

  lemma PutFrame(doc: Doc, path: string, value: Json, segs: seq<string>)
    requires Shallow(path)
    requires !Comparable(segs, Split(path))
    ensures Walk(Obj(Put(doc, path, value)), segs) == Walk(Obj(doc), segs)
  {
    ShallowSegments(path);
    if Nested(path) && segs[0] == Head(path) {
      WalkTwo(doc, segs[0], segs[1]);
      WalkTwo(Put(doc, path, value), segs[0], segs[1]);
      assert segs[..2] == [segs[0], segs[1]];
      WalkSplit(Obj(doc), segs, 2);
      WalkSplit(Obj(Put(doc, path, value)), segs, 2);
    }
  }

  /** A server that replaces each member it is sent ends up with the value put in place. */
  lemma PlaceIsPut(body: Doc, path: string, value: Json, existing: Doc)
    requires Place(body, path, value, existing).Some?
    ensures existing + Place(body, path, value, existing).value == Put(existing + body, path, value)
  {
  }

  lemma {:induction false} BuildIsPutAll(order: seq<string>, fields: Doc, paths: map<string, string>, existing: Doc)
    requires forall k :: k in order ==> k in fields
    requires Build(order, fields, paths, existing).Some?
    ensures existing + Build(order, fields, paths, existing).value == PutAll(existing, order, fields, paths)
  {
    if order != [] {
      var last := order[|order| - 1];
      BuildIsPutAll(order[..|order| - 1], fields, paths, existing);
      PlaceIsPut(Build(order[..|order| - 1], fields, paths, existing).value, PathOf(paths, last), fields[last], existing);
    } else {
      assert existing + map[] == existing;
    }
  }

  ghost function Keys(order: seq<string>): set<string> {
    set k | k in order
  }

  lemma PutAllFrame(doc: Doc, order: seq<string>, fields: Doc, paths: map<string, string>, segs: seq<string>)
    requires forall k :: k in order ==> k in fields
    requires forall k :: k in order ==> Shallow(PathOf(paths, k)) && !Comparable(segs, SegmentsOf(paths, k))
    ensures Walk(Obj(PutAll(doc, order, fields, paths)), segs) == Walk(Obj(doc), segs)
  {
    hide Walk, Split, Put, Comparable, Shallow;
    if order != [] {
      var before, last := order[..|order| - 1], order[|order| - 1];
      assert order == before + [last];
      PutAllFrame(doc, before, fields, paths, segs);
      PutFrame(PutAll(doc, before, fields, paths), PathOf(paths, last), fields[last], segs);
    }
  }

  lemma PutAllGet(doc: Doc, order: seq<string>, fields: Doc, paths: map<string, string>, key: string)
    requires key in order && forall k :: k in order ==> k in fields
    requires forall k :: k in order ==> Shallow(PathOf(paths, k))
    requires forall k :: k in order && k != key ==> !Comparable(SegmentsOf(paths, key), SegmentsOf(paths, k))
    ensures Walk(Obj(PutAll(doc, order, fields, paths)), SegmentsOf(paths, key)) == fields[key]
  {
    hide Walk, Split, Put, Comparable, Shallow;
    var before, last := order[..|order| - 1], order[|order| - 1];
    assert order == before + [last];
    var doc' := PutAll(doc, before, fields, paths);
    if key == last {
      PutGet(doc', PathOf(paths, last), fields[last]);
    } else {
      PutAllGet(doc, before, fields, paths, key);
      assert last in order && !Comparable(SegmentsOf(paths, key), SegmentsOf(paths, last));
      PutFrame(doc', PathOf(paths, last), fields[last], SegmentsOf(paths, key));
    }
  }

  /** While a body is built, each of its members was put there by some key, and is a mapping unless put whole. */
  ghost predicate Indexable(body: Doc, done: set<string>, paths: map<string, string>) {
    && (forall h :: h in body ==> exists k :: k in done && Head(PathOf(paths, k)) == h)
    && (forall h :: h in body && !body[h].Obj? ==> exists k :: k in done && PathOf(paths, k) == h)
  }

  lemma PlaceSucceeds(body: Doc, done: set<string>, key: string, value: Json, paths: map<string, string>, existing: Doc)
    requires Indexable(body, done, paths) && key !in done
    requires WellPlaced(done + {key}, paths)
    ensures var placed := Place(body, PathOf(paths, key), value, existing);
            placed.Some? && Indexable(placed.value, done + {key}, paths)
  {
    hide Split, Walk;
    var path := PathOf(paths, key);
    assert key in done + {key};
    ShallowSegments(path);
    if Nested(path) && Head(path) in body && !body[Head(path)].Obj? {
      var k :| k in done && PathOf(paths, k) == Head(path);
      assert k in done + {key};
      ShallowSegments(PathOf(paths, k));
      var _ := Comparable(SegmentsOf(paths, k), SegmentsOf(paths, key));
      assert false;
    }
    var body' := Place(body, path, value, existing).value;
    forall h | h in body'
      ensures exists k :: k in done + {key} && Head(PathOf(paths, k)) == h
      ensures !body'[h].Obj? ==> exists k :: k in done + {key} && PathOf(paths, k) == h
    {
      if h != Head(path) {
        var k :| k in done && Head(PathOf(paths, k)) == h;
        assert k in done + {key};
        if !body[h].Obj? {
          var l :| l in done && PathOf(paths, l) == h;
          assert l in done + {key};
        }
      }
    }
  }

  lemma BuildSucceeds(order: seq<string>, fields: Doc, paths: map<string, string>, existing: Doc)
    requires forall k :: k in order ==> k in fields
    requires forall i, j :: 0 <= i < j < |order| ==> order[i] != order[j]
    requires WellPlaced(Keys(order), paths)
    ensures Build(order, fields, paths, existing).Some?
    ensures Indexable(Build(order, fields, paths, existing).value, Keys(order), paths)
  {
    if order != [] {
      var before, last := order[..|order| - 1], order[|order| - 1];
      assert order == before + [last];
      assert Keys(order) == Keys(before) + {last};
      BuildSucceeds(before, fields, paths, existing);
      PlaceSucceeds(Build(before, fields, paths, existing).value, Keys(before), last, fields[last], paths, existing);
    }
  }

  /** Whether the body can be built, and which of its members are mappings, does not depend on what is stored. */
  lemma {:induction false} BuildIgnoresStored(order: seq<string>, fields: Doc, paths: map<string, string>, existing: Doc)
    requires forall k :: k in order ==> k in fields
    ensures var body, bare := Build(order, fields, paths, existing), Build(order, fields, paths, map[]);
            && (body.Some? <==> bare.Some?)
            && (body.Some? ==>
                  && body.value.Keys == bare.value.Keys
                  && forall h :: h in body.value ==> (body.value[h].Obj? <==> bare.value[h].Obj?))
  {
    if order != [] {
      BuildIgnoresStored(order[..|order| - 1], fields, paths, existing);
    }
  }

  /** No declared path leads inside the member `h`. */
  predicate Whole(keys: set<string>, paths: map<string, string>, h: string) {
    forall k :: k in keys && Head(PathOf(paths, k)) == h ==> Rest(PathOf(paths, k)) == ""
  }

  /** A member that is only ever put whole is in the body when some key puts it, with a value one of them declares. */
  lemma {:induction false} WholeMember(order: seq<string>, fields: Doc, paths: map<string, string>, existing: Doc, h: string)
    requires forall k :: k in order ==> k in fields
    requires Whole(Keys(order), paths, h)
    requires Build(order, fields, paths, existing).Some?
    ensures var body, bare := Build(order, fields, paths, existing).value, Build(order, fields, paths, map[]);
            && bare.Some?
            && (h in body <==> exists k :: k in order && Head(PathOf(paths, k)) == h)
            && (h in body <==> h in bare.value)
            && (h in body ==>
                  && body[h] == bare.value[h]
                  && exists k :: k in order && Head(PathOf(paths, k)) == h && body[h] == fields[k])
  {
    hide Head;
    BuildIgnoresStored(order, fields, paths, existing);
    if order != [] {
      var before, last := order[..|order| - 1], order[|order| - 1];
      assert order == before + [last];
      assert last in Keys(order);
      WholeMember(before, fields, paths, existing, h);
      var path := PathOf(paths, last);
      if Head(path) == h {
        assert Rest(path) == "";
      } else {
        PlacedElsewhere(Build(before, fields, paths, existing).value, path, fields[last], existing, h);
        PlacedElsewhere(Build(before, fields, paths, map[]).value, path, fields[last], map[], h);
      }
    }
  }

  lemma PlacedElsewhere(body: Doc, path: string, value: Json, existing: Doc, h: string)
    requires Head(path) != h && Place(body, path, value, existing).Some?
    ensures var placed := Place(body, path, value, existing).value;
            (h in placed <==> h in body) && (h in body ==> placed[h] == body[h])
  {
  }

  /** Writing `fields` over `existing` succeeds, and every declared value reads back at its path. */
  ghost predicate ReadsBack(order: seq<string>, fields: Doc, paths: map<string, string>, existing: Doc)
    requires Enumerates(order, fields.Keys)
  {
    var body := Build(order, fields, paths, existing);
    body.Some? && forall k :: k in fields ==> Walk(Obj(existing + body.value), SegmentsOf(paths, k)) == fields[k]
  }

  /**
   * The get/put laws: for a well-placed document, whatever order its keys come in, the body is built, every declared
   * value reads back from the written document, and every path apart from the declared ones reads as it was stored.
   */
  lemma WriteReadsBack(order: seq<string>, fields: Doc, paths: map<string, string>, existing: Doc)
    requires Enumerates(order, fields.Keys)
    requires WellPlaced(fields.Keys, paths)
    ensures ReadsBack(order, fields, paths, existing)
    ensures forall segs :: Apart(segs, fields.Keys, paths) ==>
              Walk(Obj(existing + Build(order, fields, paths, existing).value), segs) == Walk(Obj(existing), segs)
  {
    assert Keys(order) == fields.Keys;
    BuildSucceeds(order, fields, paths, existing);
    BuildIsPutAll(order, fields, paths, existing);
    forall k | k in fields
      ensures Walk(Obj(PutAll(existing, order, fields, paths)), SegmentsOf(paths, k)) == fields[k]
    {
      PutAllGet(existing, order, fields, paths, k);
    }
    forall segs | Apart(segs, fields.Keys, paths)
      ensures Walk(Obj(PutAll(existing, order, fields, paths)), segs) == Walk(Obj(existing), segs)
    {
      PutAllFrame(existing, order, fields, paths, segs);
    }
  }

  /** No value of the body nests deeper than one object, and no nested object has an empty member name. */
  ghost predicate Flat(body: Doc) {
    forall h :: h in body && body[h].Obj? ==>
      forall m :: m in body[h].members ==> m != "" && !body[h].members[m].Obj?
  }

  lemma {:induction false} ScalarsBuildFlat(order: seq<string>, fields: Doc, paths: map<string, string>)
    requires forall k :: k in order ==> k in fields
    requires forall k :: k in fields ==> !fields[k].Obj?
    requires Build(order, fields, paths, map[]).Some?
    ensures Flat(Build(order, fields, paths, map[]).value)
  {
    if order != [] {
      ScalarsBuildFlat(order[..|order| - 1], fields, paths);
    }
  }

  lemma DeepPathReadsNull(body: Doc, path: string)
    requires Flat(body) && !Shallow(path)
    ensures Walk(Obj(body), Split(path)) == Null
  {
    var segs := Split(path);
    assert segs == [Head(path)] + Split(Rest(path));
    WalkSplit(Obj(body), segs, 2);
    assert segs[..2] == [segs[0], segs[1]];
    WalkTwo(body, segs[0], segs[1]);
    if Rest(path) == "" {
      assert segs == [Head(path), ""];
    }
  }

  lemma OverlapCannotReadBack(doc: Json, a: seq<string>, b: seq<string>)
    requires a <= b
    ensures !(Walk(doc, a) == Str("a") && Walk(doc, b) == Str("b"))
  {
    WalkSplit(doc, b, |a|);
    assert b[..|a|] == a;
  }

  /** Values no write can make readable when the keys are not well placed: in every order, some value is lost. */
  lemma MisplacedKeysLoseAValue(keys: set<string>, paths: map<string, string>) returns (fields: Doc)
    requires !WellPlaced(keys, paths)
    ensures fields.Keys == keys
    ensures forall order :: Enumerates(order, keys) ==> !ReadsBack(order, fields, paths, map[])
  {
    hide Walk, Split, Build, Flat, Shallow;
    if deep :| deep in keys && !Shallow(PathOf(paths, deep)) {
      fields := map k | k in keys :: Str("a");
      forall order | Enumerates(order, keys)
        ensures !ReadsBack(order, fields, paths, map[])
      {
        if Build(order, fields, paths, map[]).Some? {
          ScalarsBuildFlat(order, fields, paths);
          var body := Build(order, fields, paths, map[]).value;
          assert map[] + body == body;
          DeepPathReadsNull(body, PathOf(paths, deep));
        }
      }
    } else {
      var k, l :| k in keys && l in keys && k != l && SegmentsOf(paths, k) <= SegmentsOf(paths, l);
      fields := map m | m in keys :: if m == l then Str("b") else Str("a");
      forall order | Enumerates(order, keys)
        ensures !ReadsBack(order, fields, paths, map[])
      {
        if Build(order, fields, paths, map[]).Some? {
          OverlapCannotReadBack(Obj(map[] + Build(order, fields, paths, map[]).value),
                                SegmentsOf(paths, k), SegmentsOf(paths, l));
        }
      }
    }
  }

  /** An order for any finite set of keys. */
  lemma SomeOrder(keys: set<string>) returns (order: seq<string>)
    ensures Enumerates(order, keys)
  {
    if keys == {} {
      order := [];
    } else {
      var k :| k in keys;
      var rest := SomeOrder(keys - {k});
      order := [k] + rest;
    }
  }

  /** Every declared value always reads back exactly when the keys are well placed. */
  lemma ReadsBackIffWellPlaced(keys: set<string>, paths: map<string, string>)
    ensures WellPlaced(keys, paths) <==>
            forall order, fields: Doc, existing: Doc :: fields.Keys == keys && Enumerates(order, fields.Keys) ==>
              ReadsBack(order, fields, paths, existing)
  {
    if WellPlaced(keys, paths) {
      forall order, fields: Doc, existing: Doc | fields.Keys == keys && Enumerates(order, fields.Keys)
        ensures ReadsBack(order, fields, paths, existing)
      {
        WriteReadsBack(order, fields, paths, existing);
      }
    } else {
      var fields := MisplacedKeysLoseAValue(keys, paths);
      var order := SomeOrder(keys);
      assert !ReadsBack(order, fields, paths, map[]);
    }
  }
}
