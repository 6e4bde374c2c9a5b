/** Decoded JSON and YAML values, and dotted paths through them. */
module Json {

  datatype Json =
    | Null
    | Bool(b: bool)
    | Num(n: real)
    | Str(s: string)
    | Arr(items: seq<Json>)
    | Obj(members: Doc)

  type Doc = map<string, Json>

  /** Python's truth value of a decoded value. */
  predicate Truthy(j: Json) {
    match j
    case Null => false
    case Bool(b) => b
    case Num(n) => n != 0.0
    case Str(s) => s != ""
    case Arr(items) => items != []
    case Obj(members) => members != map[]
  }

  /** The values Python takes for false: null, false, zero, and what is empty. */
  lemma FalsyIff(j: Json)
    ensures !Truthy(j) <==> j in [Null, Bool(false), Num(0.0), Str(""), Arr([]), Obj(map[])]
  {
  }

  /** The representative of a value under Python's `==`, for which `True == 1`. */
  function Canonical(j: Json): Json {
    match j
    case Bool(b) => Num(if b then 1.0 else 0.0)
    case Arr(items) => Arr(seq(|items|, i requires 0 <= i < |items| => Canonical(items[i])))
    case Obj(members) => Obj(map k | k in members :: Canonical(members[k]))
    case _ => j
  }

  predicate PyEqual(a: Json, b: Json) {
    Canonical(a) == Canonical(b)
  }

  // ----- what equality decides

  predicate IsNumber(j: Json) { j.Bool? || j.Num? }

  function NumberOf(j: Json): real
    requires IsNumber(j)
  {
    if j.Num? then j.n else if j.b then 1.0 else 0.0
  }

  /**
   * Two values are the same: numbers and booleans by value, texts and null by identity, lists item by item, mappings
   * member by member; nothing is the same as a value of another kind.
   */
  predicate Same(a: Json, b: Json)
    decreases a
  {
    match a
    case Null => b.Null?
    case Bool(_) => IsNumber(b) && NumberOf(a) == NumberOf(b)
    case Num(_) => IsNumber(b) && NumberOf(a) == NumberOf(b)
    case Str(s) => b.Str? && b.s == s
    case Arr(items) => b.Arr? && |b.items| == |items| && forall i :: 0 <= i < |items| ==> Same(items[i], b.items[i])
    case Obj(members) =>
      b.Obj? && b.members.Keys == members.Keys && forall k :: k in members ==> Same(members[k], b.members[k])
  }

  lemma {:induction false} ListsAreEqualIff(a: seq<Json>, b: seq<Json>)
    ensures PyEqual(Arr(a), Arr(b)) <==> |a| == |b| && forall i :: 0 <= i < |a| ==> PyEqual(a[i], b[i])
  {
    var x, y := Canonical(Arr(a)).items, Canonical(Arr(b)).items;
    assert forall i :: 0 <= i < |a| ==> x[i] == Canonical(a[i]);
    assert forall i :: 0 <= i < |b| ==> y[i] == Canonical(b[i]);
    assert x == y <==> |x| == |y| && forall i :: 0 <= i < |x| ==> x[i] == y[i];
  }

  lemma {:induction false} MappingsAreEqualIff(a: Doc, b: Doc)
    ensures PyEqual(Obj(a), Obj(b)) <==> a.Keys == b.Keys && forall k :: k in a ==> PyEqual(a[k], b[k])
  {
    var x, y := Canonical(Obj(a)).members, Canonical(Obj(b)).members;
    assert x.Keys == a.Keys && y.Keys == b.Keys;
    assert forall k :: k in a ==> x[k] == Canonical(a[k]);
    assert forall k :: k in b ==> y[k] == Canonical(b[k]);
  }

  lemma {:induction false} EqualIsSame(a: Json, b: Json)
    ensures PyEqual(a, b) <==> Same(a, b)
    decreases a
  {
    match a {
      case Arr(items) =>
        if b.Arr? {
          ListsAreEqualIff(items, b.items);
          forall i | 0 <= i < |items| && |items| == |b.items|
            ensures PyEqual(items[i], b.items[i]) <==> Same(items[i], b.items[i])
          {
            EqualIsSame(items[i], b.items[i]);
          }
        }
      case Obj(members) =>
        if b.Obj? {
          MappingsAreEqualIff(members, b.members);
          forall k | k in members && k in b.members
            ensures PyEqual(members[k], b.members[k]) <==> Same(members[k], b.members[k])
          {
            EqualIsSame(members[k], b.members[k]);
          }
        }
      case _ =>
    }
  }
}

/** Dotted schema paths: `str.split(".")`, `str.partition(".")` and `walk_path`. */
module Paths {
  import opened Json

  function DotIndex(path: string): (i: nat)
    requires '.' in path
    ensures i < |path| && path[i] == '.' && '.' !in path[..i]
  {
    if path[0] == '.' then 0 else
      var i := DotIndex(path[1..]);
      assert path[..i + 1] == [path[0]] + path[1..][..i];
      i + 1
  }

  /** What `partition(".")` puts before the first dot. */
  function Head(path: string): string {
    if '.' in path then path[..DotIndex(path)] else path
  }

  /** What `partition(".")` puts after the first dot; empty when there is none. */
  function Rest(path: string): string {
    if '.' in path then path[DotIndex(path) + 1..] else ""
  }

  function Split(path: string): (segs: seq<string>)
    ensures |segs| >= 1
    decreases |path|
  {
    if '.' in path then [Head(path)] + Split(Rest(path)) else [path]
  }

  /** Following segments into a value; `Null` as soon as one is missing. */
  function Walk(node: Json, segs: seq<string>): Json {
    if segs == [] then node
    else if node.Obj? && segs[0] in node.members then Walk(node.members[segs[0]], segs[1..])
    else Null
  }

  method WalkPath(document: Json, path: string) returns (r: Json)
    ensures r == Walk(document, Split(path))
  {
    var parts := Split(path);
    var node := document;
    for i := 0 to |parts|
      invariant Walk(node, parts[i..]) == Walk(document, parts)
    {
      if !node.Obj? || parts[i] !in node.members {
        return Null;
      }
      assert parts[i..][1..] == parts[i + 1..];
      node := node.members[parts[i]];
    }
    return node;
  }

  predicate Direct(path: string) { '.' !in path }

  predicate Nested(path: string) { '.' in path && Rest(path) != "" && '.' !in Rest(path) }

  /** One segment, or two with something after the dot. */
  predicate Shallow(path: string) { Direct(path) || Nested(path) }

  predicate Comparable(a: seq<string>, b: seq<string>) { a <= b || b <= a }

  lemma ShallowSegments(path: string)
    ensures Direct(path) ==> Split(path) == [path]
    ensures Nested(path) ==> Split(path) == [Head(path), Rest(path)]
  {
  }

  /** The member `m` of the object stored under `h`, when there is one. */
  function Inner(doc: Doc, h: string, m: string): Json {
    Walk(Obj(doc), [h, m])
  }

  lemma WalkTwo(doc: Doc, h: string, m: string)
    ensures Inner(doc, h, m) ==
            if h in doc && doc[h].Obj? && m in doc[h].members then doc[h].members[m] else Null
  {
    if h in doc {
      assert [h, m][1..] == [m];
      assert [m][1..] == [];
      assert Walk(Obj(doc), [h, m]) == Walk(doc[h], [m]);
      assert Walk(doc[h], [m]) == if doc[h].Obj? && m in doc[h].members then Walk(doc[h].members[m], []) else Null;
    }
  }

  lemma WalkSplit(node: Json, segs: seq<string>, i: nat)
    requires i <= |segs|
    ensures Walk(node, segs) == Walk(Walk(node, segs[..i]), segs[i..])
  {
    if i == 0 {
      assert segs[0..] == segs;
    } else if node.Obj? && segs[0] in node.members {
      WalkSplit(node.members[segs[0]], segs[1..], i - 1);
      assert segs[..i][1..] == segs[1..][..i - 1];
      assert segs[1..][i - 1..] == segs[i..];
    } else {
      assert segs[..i] != [];
    }
  }
}
