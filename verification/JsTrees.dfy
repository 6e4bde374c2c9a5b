/**
 * Which JavaScript sources are spelled by a tree: those in which every construct is closed. A reader of trees finds one
 * exactly when there is one, and no source has two.
 */
module JsTrees {
  import opened Prelude
  import opened Text
  import opened SourceLines
  import opened Spelling
  import opened JsLexer
  import opened JsGrammar

  // ----- leaves

  /** The quoted text from `i` on, up to the first character, not behind a backslash, that stops it. */
  function InnerAt(src: string, i: nat, stops: string): (r: seq<Inner>)
    requires i <= |src| && '\\' in stops
    ensures StandsAt(src, i, WriteInner(r)) && Unbroken(r, stops)
    decreases |src| - i
  {
    if i == |src| then NothingStands(src, i); []
    else if src[i] == '\\' && i + 1 < |src| then
      var rest := InnerAt(src, i + 2, stops);
      InnerStands(src, i, Escaped(src[i + 1]), rest, stops);
      [Escaped(src[i + 1])] + rest
    else if src[i] in stops then NothingStands(src, i); []
    else
      var rest := InnerAt(src, i + 1, stops);
      InnerStands(src, i, Plain(src[i]), rest, stops);
      [Plain(src[i])] + rest
  }

  lemma NothingStands(src: string, i: nat)
    requires i <= |src|
    ensures StandsAt(src, i, "")
  {
  }

  lemma SliceStands(src: string, i: nat, j: nat)
    requires i <= j <= |src|
    ensures StandsAt(src, i, src[i..j])
  {
  }

  lemma JoinStands(src: string, i: nat, a: string, b: string)
    requires StandsAt(src, i, a) && StandsAt(src, i + |a|, b)
    ensures StandsAt(src, i, a + b)
  {
    assert src[i..i + |a + b|] == src[i..i + |a|] + src[i + |a|..i + |a| + |b|];
  }

  lemma InnerStands(src: string, i: nat, x: Inner, rest: seq<Inner>, stops: string)
    requires i + |WriteOne(x)| <= |src| && src[i..i + |WriteOne(x)|] == WriteOne(x)
    requires StandsAt(src, i + |WriteOne(x)|, WriteInner(rest)) && Unbroken(rest, stops) && (x.Plain? ==> x.c !in stops)
    ensures StandsAt(src, i, WriteInner([x] + rest)) && Unbroken([x] + rest, stops)
  {
    assert ([x] + rest)[1..] == rest;
    JoinStands(src, i, WriteOne(x), WriteInner(rest));
  }

  lemma InnerGoesOn(src: string, i: nat, stops: string, x: Inner)
    requires '\\' in stops && (x.Plain? ==> x.c !in stops) && StandsAt(src, i, WriteOne(x))
    ensures i + |WriteOne(x)| <= |src| && InnerAt(src, i, stops) == [x] + InnerAt(src, i + |WriteOne(x)|, stops)
  {
    StandingCharacter(src, i, WriteOne(x), 0);
    if x.Escaped? {
      StandingCharacter(src, i, WriteOne(x), 1);
    }
  }

  lemma InnerStops(src: string, i: nat, stops: string)
    requires i < |src| && '\\' in stops && src[i] in stops && src[i] != '\\'
    ensures InnerAt(src, i, stops) == []
  {
  }

  /** It is the only such text that a stop follows. */
  lemma {:induction false} InnerIsUnique(src: string, i: nat, stops: string, inner: seq<Inner>)
    requires i <= |src| && '\\' in stops && Unbroken(inner, stops) && StandsAt(src, i, WriteInner(inner))
    requires var j := i + |WriteInner(inner)|; j < |src| && src[j] in stops && src[j] != '\\'
    ensures InnerAt(src, i, stops) == inner
    decreases |inner|
  {
    hide StandsAt, Unbroken, WriteOne, InnerAt;
    if inner == [] {
      InnerStops(src, i, stops);
    } else {
      UnbrokenParts(inner, stops);
      StandsInTwo(src, i, WriteOne(inner[0]), WriteInner(inner[1..]));
      InnerGoesOn(src, i, stops, inner[0]);
      InnerIsUnique(src, i + |WriteOne(inner[0])|, stops, inner[1..]);
      assert inner == [inner[0]] + inner[1..];
    }
  }

  /** The body of a regular expression, unless a class in it is not closed. */
  function AtomsAt(src: string, i: nat): Option<seq<Atom>>
    requires i <= |src|
    decreases |src| - i
  {
    if i == |src| || src[i] == '/' || src[i] == '\n' then Some([])
    else
      var a := AtomAt(src, i);
      if a == None then None
      else
        var rest := AtomsAt(src, i + |WriteAtom(a.value)|);
        if rest == None then None else Some([a.value] + rest.value)
  }

  function AtomAt(src: string, i: nat): (r: Option<Atom>)
    requires i < |src| && src[i] != '/' && src[i] != '\n'
    ensures r.Some? ==> 0 < |WriteAtom(r.value)| && i + |WriteAtom(r.value)| <= |src|
  {
    if src[i] == '\\' then (if i + 1 < |src| then Some(One(Escaped(src[i + 1]))) else None)
    else if src[i] == '[' then
      var inner := InnerAt(src, i + 1, "\\]\n");
      if At(src, i + 1 + |WriteInner(inner)|, ']') then Some(Class(inner)) else None
    else Some(One(Plain(src[i])))
  }

  lemma AtomSound(src: string, i: nat)
    requires i < |src| && src[i] != '/' && src[i] != '\n' && AtomAt(src, i).Some?
    ensures ProperAtom(AtomAt(src, i).value) && StandsAt(src, i, WriteAtom(AtomAt(src, i).value))
  {
    hide InnerAt, WriteInner;
    if src[i] == '[' {
      var inner := InnerAt(src, i + 1, "\\]\n");
      JoinStands(src, i, ['['], WriteInner(inner));
      JoinStands(src, i, ['['] + WriteInner(inner), [']']);
    }
  }

  lemma {:induction false} AtomsSound(src: string, i: nat)
    requires i <= |src| && AtomsAt(src, i).Some?
    ensures StandsAt(src, i, WriteAtoms(AtomsAt(src, i).value)) && forall a :: a in AtomsAt(src, i).value ==> ProperAtom(a)
    decreases |src| - i
  {
    hide StandsAt, ProperAtom, WriteAtom, AtomAt;
    if i == |src| || src[i] == '/' || src[i] == '\n' {
      NothingStands(src, i);
    } else {
      var a := AtomAt(src, i).value;
      AtomSound(src, i);
      AtomsSound(src, i + |WriteAtom(a)|);
      AtomsStand(src, i, a, AtomsAt(src, i + |WriteAtom(a)|).value);
    }
  }

  lemma AtomsStand(src: string, i: nat, a: Atom, rest: seq<Atom>)
    requires ProperAtom(a) && StandsAt(src, i, WriteAtom(a)) && StandsAt(src, i + |WriteAtom(a)|, WriteAtoms(rest))
    requires forall b :: b in rest ==> ProperAtom(b)
    ensures StandsAt(src, i, WriteAtoms([a] + rest)) && forall b :: b in [a] + rest ==> ProperAtom(b)
  {
    assert ([a] + rest)[1..] == rest;
    JoinStands(src, i, WriteAtom(a), WriteAtoms(rest));
  }

  lemma AtomIsUnique(src: string, i: nat, a: Atom)
    requires ProperAtom(a) && StandsAt(src, i, WriteAtom(a))
    ensures i < |src| && src[i] != '/' && src[i] != '\n' && AtomAt(src, i) == Some(a)
  {
    StandingCharacter(src, i, WriteAtom(a), 0);
    match a {
      case One(x) =>
        assert x in [x];
        if x.Escaped? {
          StandingCharacter(src, i, WriteAtom(a), 1);
        }
      case Class(inner) =>
        QuotedTextStands(src, i, ['['], WriteInner(inner), [']']);
        InnerIsUnique(src, i + 1, "\\]\n", inner);
    }
  }

  lemma {:induction false} AtomsAreUnique(src: string, i: nat, atoms: seq<Atom>)
    requires (forall a :: a in atoms ==> ProperAtom(a)) && StandsAt(src, i, WriteAtoms(atoms))
    requires At(src, i + |WriteAtoms(atoms)|, '/')
    ensures i <= |src| && AtomsAt(src, i) == Some(atoms)
    decreases |atoms|
  {
    hide StandsAt, ProperAtom, WriteAtom, AtomAt;
    if atoms != [] {
      StandsInTwo(src, i, WriteAtom(atoms[0]), WriteAtoms(atoms[1..]));
      AtomIsUnique(src, i, atoms[0]);
      AtomsAreUnique(src, i + |WriteAtom(atoms[0])|, atoms[1..]);
      assert atoms == [atoms[0]] + atoms[1..];
    }
  }

  // ----- what spelling a tree asks of its parts

  lemma HoleUnfolds(d: Dialect, src: string, i: nat, code: CodeText, rest: TemplateText)
    ensures TemplateLength(Hole(code, rest)) == 3 + CodeLength(code) + TemplateLength(rest)
    ensures SpellsTemplate(d, src, i, Hole(code, rest)) <==>
            && At(src, i, '$') && At(src, i + 1, '{') && SpellsCode(d, src, i + 2, code, true)
            && At(src, i + 2 + CodeLength(code), '}') && SpellsTemplate(d, src, i + 3 + CodeLength(code), rest)
  {
    hide SpellsCode, CodeLength;
  }

  lemma LiteralUnfolds(d: Dialect, src: string, i: nat, x: Inner, rest: TemplateText)
    ensures TemplateLength(Literal(x, rest)) == |WriteOne(x)| + TemplateLength(rest)
    ensures SpellsTemplate(d, src, i, Literal(x, rest)) <==>
            && StandsAt(src, i, WriteOne(x)) && (x.Plain? ==> x.c !in "\\`") && (x == Plain('$') ==> !At(src, i + 1, '{'))
            && SpellsTemplate(d, src, i + |WriteOne(x)|, rest)
  {
    assert Unbroken([x], "\\`") <==> (x.Plain? ==> x.c !in "\\`") by {
      assert x in [x];
    }
  }

  lemma BackquoteUnfolds(d: Dialect, src: string, i: nat)
    ensures TemplateLength(Backquote) == 1 && (SpellsTemplate(d, src, i, Backquote) <==> At(src, i, '`'))
  {
  }

  lemma TagEndUnfolds(d: Dialect, src: string, i: nat)
    ensures TagLength(TagEnd) == 0 && SpellsTag(d, src, i, TagEnd)
  {
  }

  lemma AttributeUnfolds(d: Dialect, src: string, i: nat, c: char, rest: TagText)
    ensures TagLength(Attribute(c, rest)) == 1 + TagLength(rest)
    ensures SpellsTag(d, src, i, Attribute(c, rest)) <==>
            At(src, i, c) && c !in "\"'{>" && (c == '/' ==> !At(src, i + 1, '>')) && SpellsTag(d, src, i + 1, rest)
  {
  }

  lemma ValueUnfolds(d: Dialect, src: string, i: nat, quote: char, inner: seq<Inner>, rest: TagText)
    ensures TagLength(Value(quote, inner, rest)) == 2 + |WriteInner(inner)| + TagLength(rest)
    ensures SpellsTag(d, src, i, Value(quote, inner, rest)) <==>
            SpellsQuoted(src, i, quote, inner) && SpellsTag(d, src, i + 2 + |WriteInner(inner)|, rest)
  {
    hide SpellsQuoted, WriteInner;
  }

  lemma TagHoleUnfolds(d: Dialect, src: string, i: nat, code: CodeText, rest: TagText)
    ensures TagLength(TagHole(code, rest)) == 2 + CodeLength(code) + TagLength(rest)
    ensures SpellsTag(d, src, i, TagHole(code, rest)) <==>
            && At(src, i, '{') && SpellsCode(d, src, i + 1, code, true)
            && At(src, i + 1 + CodeLength(code), '}') && SpellsTag(d, src, i + 2 + CodeLength(code), rest)
  {
    hide SpellsCode, CodeLength;
  }

  lemma ClosingUnfolds(d: Dialect, src: string, i: nat, name: string)
    ensures ChildLength(Closing(name)) == 3 + |name|
    ensures SpellsChildren(d, src, i, Closing(name)) <==>
            && At(src, i, '<') && At(src, i + 1, '/') && StandsAt(src, i + 2, name) && '>' !in name
            && At(src, i + 2 + |name|, '>')
  {
  }

  lemma ProseUnfolds(d: Dialect, src: string, i: nat, c: char, rest: ChildText)
    ensures ChildLength(Prose(c, rest)) == 1 + ChildLength(rest)
    ensures SpellsChildren(d, src, i, Prose(c, rest)) <==>
            && At(src, i, c) && c != '{' && (c == '<' ==> !At(src, i + 1, '/') && !OpensTag(d, src, i))
            && SpellsChildren(d, src, i + 1, rest)
  {
  }

  lemma ChildUnfolds(d: Dialect, src: string, i: nat, element: JsxText, rest: ChildText)
    ensures ChildLength(Child(element, rest)) == JsxLength(element) + ChildLength(rest)
    ensures SpellsChildren(d, src, i, Child(element, rest)) <==>
            && OpensTag(d, src, i) && !At(src, i + 1, '/')
            && SpellsJsx(d, src, i, element) && SpellsChildren(d, src, i + JsxLength(element), rest)
  {
    hide SpellsJsx, JsxLength;
  }

  lemma ChildHoleUnfolds(d: Dialect, src: string, i: nat, code: CodeText, rest: ChildText)
    ensures ChildLength(ChildHole(code, rest)) == 2 + CodeLength(code) + ChildLength(rest)
    ensures SpellsChildren(d, src, i, ChildHole(code, rest)) <==>
            && At(src, i, '{') && SpellsCode(d, src, i + 1, code, true)
            && At(src, i + 1 + CodeLength(code), '}') && SpellsChildren(d, src, i + 2 + CodeLength(code), rest)
  {
    hide SpellsCode, CodeLength;
  }

  lemma PatternUnfolds(d: Dialect, src: string, i: nat, atoms: seq<Atom>, flags: string)
    requires At(src, i, '/') && !d.alpha('/') && !d.digit('/') && !At(src, i + 1, '/') && !At(src, i + 1, '*')
    ensures LengthOf(Pattern(atoms, flags)) == 2 + |WriteAtoms(atoms)| + |flags|
    ensures var j := i + 1 + |WriteAtoms(atoms)|;
            Spells(d, src, i, Pattern(atoms, flags), true) <==>
            && (forall a :: a in atoms ==> ProperAtom(a)) && StandsAt(src, i + 1, WriteAtoms(atoms)) && At(src, j, '/')
            && StandsAt(src, j + 1, flags) && (forall c :: c in flags ==> d.alpha(c))
            && !(j + 1 + |flags| < |src| && d.alpha(src[j + 1 + |flags|]))
  {
    hide StandsAt, WriteAtoms, ProperAtom;
  }

  lemma QuotedUnfolds(d: Dialect, src: string, i: nat, quote: char, inner: seq<Inner>, regexAllowed: bool)
    ensures LengthOf(Quoted(quote, inner)) == 2 + |WriteInner(inner)|
    ensures Spells(d, src, i, Quoted(quote, inner), regexAllowed) <==> SpellsQuoted(src, i, quote, inner)
  {
    hide SpellsQuoted, WriteInner;
  }

  lemma JsxUnfolds(d: Dialect, src: string, i: nat, tag: TagText, children: ChildText)
    ensures JsxLength(Empty(tag)) == 3 + TagLength(tag)
    ensures SpellsJsx(d, src, i, Empty(tag)) <==>
            && At(src, i, '<') && SpellsTag(d, src, i + 1, tag)
            && At(src, i + 1 + TagLength(tag), '/') && At(src, i + 2 + TagLength(tag), '>')
    ensures JsxLength(Paired(tag, children)) == 2 + TagLength(tag) + ChildLength(children)
    ensures SpellsJsx(d, src, i, Paired(tag, children)) <==>
            && At(src, i, '<') && SpellsTag(d, src, i + 1, tag) && At(src, i + 1 + TagLength(tag), '>')
            && SpellsChildren(d, src, i + 2 + TagLength(tag), children)
  {
    hide SpellsTag, TagLength, SpellsChildren, ChildLength;
  }

  lemma CodeTextUnfolds(d: Dialect, src: string, i: nat, t: Token, rest: CodeText, regexAllowed: bool)
    ensures CodeLength(Stop) == 0 && SpellsCode(d, src, i, Stop, regexAllowed)
    ensures CodeLength(Next(t, rest)) == LengthOf(t) + CodeLength(rest)
    ensures SpellsCode(d, src, i, Next(t, rest), regexAllowed) <==>
            Spells(d, src, i, t, regexAllowed) && SpellsCode(d, src, i + LengthOf(t), rest, After(t, regexAllowed))
  {
    hide Spells, LengthOf, After;
  }

  // ----- the reader

  /** The token at `i` and where it ends, if every construct in it is closed; a closing brace is left to what it closes. */
  function TokenAt(d: Dialect, src: string, i: nat, regexAllowed: bool): (r: Option<(Token, nat)>)
    requires i < |src|
    ensures r.Some? ==> i < r.value.1 <= |src|
    decreases |src| - i, 2
  {
    var c := src[i];
    if c == '`' then
      var body := TemplateAt(d, src, i + 1);
      if body == None then None else Some((Backquoted(body.value.0), body.value.1))
    else if c == '{' then
      var code := HoleAt(d, src, i + 1);
      if code == None then None else Some((Group(code.value.0), code.value.1))
    else if c == '<' && !NameStart(d, c) && !d.digit(c) && regexAllowed && BeginsElement(d, src, i) then
      var element := JsxAt(d, src, i);
      if element == None then None else Some((Markup(element.value.0), element.value.1))
    else SimpleAt(d, src, i, regexAllowed)
  }

  /** A token without code inside. */
  function SimpleAt(d: Dialect, src: string, i: nat, regexAllowed: bool): (r: Option<(Token, nat)>)
    requires i < |src|
    ensures r.Some? ==> i < r.value.1 <= |src|
  {
    var c := src[i];
    if IsSpace(c) then Some((Blank(c), i + 1))
    else if Opens(src, i, '/') then Some((LineNote(src[i + 2..LineEnd(src, i + 2)]), LineEnd(src, i + 2)))
    else if Opens(src, i, '*') then
      var close := BlockClose(src, i + 2);
      if close == |src| then None else Some((BlockNote(src[i + 2..close]), close + 2))
    else if c == '"' || c == '\'' then
      var (inner, end) := StringAt(src, i);
      if end == None then None else Some((Quoted(c, inner), end.value))
    else if c == '}' then None
    else if NameStart(d, c) || d.digit(c) then
      if c == '/' then None
      else if NameStart(d, c) then Some((Name(src[i..NameEnd(d, src, i + 1)]), NameEnd(d, src, i + 1)))
      else Some((Numeral(src[i..NumberEnd(d, src, i + 1)]), NumberEnd(d, src, i + 1)))
    else if (c == '+' || c == '-') && At(src, i + 1, c) then Some((Twice(c), i + 2))
    else if c == '/' && regexAllowed then PatternAt(d, src, i)
    else Some((Sign(c), i + 1))
  }

  /** The quoted text that opens at `i`, and where it ends if the same quote closes it. */
  function StringAt(src: string, i: nat): (r: (seq<Inner>, Option<nat>))
    requires i < |src|
    ensures r.1.Some? ==> i < r.1.value <= |src|
  {
    var inner := InnerAt(src, i + 1, [src[i], '\\', '\n']);
    var j := i + 1 + |WriteInner(inner)|;
    (inner, if At(src, j, src[i]) then Some(j + 1) else None)
  }

  function PatternAt(d: Dialect, src: string, i: nat): (r: Option<(Token, nat)>)
    requires i < |src|
    ensures r.Some? ==> i < r.value.1 <= |src|
  {
    var atoms := AtomsAt(src, i + 1);
    if atoms == None then None
    else
      var j := i + 1 + |WriteAtoms(atoms.value)|;
      if At(src, j, '/') then Some((Pattern(atoms.value, src[j + 1..FlagsEnd(d, src, j + 1)]), FlagsEnd(d, src, j + 1)))
      else None
  }

  /** The code from `i` to the end of the source or to a brace that closes nothing in it. */
  function CodeAt(d: Dialect, src: string, i: nat, regexAllowed: bool): (r: Option<(CodeText, nat)>)
    requires i <= |src|
    ensures r.Some? ==> i <= r.value.1 <= |src|
    decreases |src| - i, 3
  {
    if i == |src| || src[i] == '}' then Some((Stop, i))
    else
      var t := TokenAt(d, src, i, regexAllowed);
      if t == None then None
      else
        var rest := CodeAt(d, src, t.value.1, After(t.value.0, regexAllowed));
        if rest == None then None else Some((Next(t.value.0, rest.value.0), rest.value.1))
  }

  /** Code, and past the brace that closes it. */
  function HoleAt(d: Dialect, src: string, i: nat): (r: Option<(CodeText, nat)>)
    requires i <= |src|
    ensures r.Some? ==> i < r.value.1 <= |src|
    decreases |src| - i, 4
  {
    var code := CodeAt(d, src, i, true);
    if code.Some? && At(src, code.value.1, '}') then Some((code.value.0, code.value.1 + 1)) else None
  }

  function TemplateAt(d: Dialect, src: string, i: nat): (r: Option<(TemplateText, nat)>)
    requires i <= |src|
    ensures r.Some? ==> i < r.value.1 <= |src|
    decreases |src| - i, 2
  {
    if i == |src| then None
    else if src[i] == '`' then Some((Backquote, i + 1))
    else if src[i] == '$' && At(src, i + 1, '{') then
      var code := HoleAt(d, src, i + 2);
      if code == None then None
      else
        var rest := TemplateAt(d, src, code.value.1);
        if rest == None then None else Some((Hole(code.value.0, rest.value.0), rest.value.1))
    else if src[i] == '\\' && i + 1 == |src| then None
    else
      var x := if src[i] == '\\' then Escaped(src[i + 1]) else Plain(src[i]);
      var rest := TemplateAt(d, src, i + |WriteOne(x)|);
      if rest == None then None else Some((Literal(x, rest.value.0), rest.value.1))
  }

  function JsxAt(d: Dialect, src: string, i: nat): (r: Option<(JsxText, nat)>)
    requires i < |src|
    ensures r.Some? ==> i < r.value.1 <= |src|
    decreases |src| - i, 1
  {
    var tag := TagAt(d, src, i + 1);
    if tag == None then None
    else if src[tag.value.1] == '/' then Some((Empty(tag.value.0), tag.value.1 + 2))
    else
      var children := ChildrenAt(d, src, tag.value.1 + 1);
      if children == None then None else Some((Paired(tag.value.0, children.value.0), children.value.1))
  }

  /** The tag up to its `>` or `/>`. */
  function TagAt(d: Dialect, src: string, i: nat): (r: Option<(TagText, nat)>)
    requires i <= |src|
    ensures r.Some? ==> i <= r.value.1
    ensures r.Some? ==> At(src, r.value.1, '>') || (At(src, r.value.1, '/') && At(src, r.value.1 + 1, '>'))
    decreases |src| - i, 2
  {
    if i == |src| then None
    else if src[i] == '>' || (src[i] == '/' && At(src, i + 1, '>')) then Some((TagEnd, i))
    else if src[i] == '"' || src[i] == '\'' then
      var (inner, end) := StringAt(src, i);
      if end == None then None
      else
        var rest := TagAt(d, src, end.value);
        if rest == None then None else Some((Value(src[i], inner, rest.value.0), rest.value.1))
    else if src[i] == '{' then
      var code := HoleAt(d, src, i + 1);
      if code == None then None
      else
        var rest := TagAt(d, src, code.value.1);
        if rest == None then None else Some((TagHole(code.value.0, rest.value.0), rest.value.1))
    else
      var rest := TagAt(d, src, i + 1);
      if rest == None then None else Some((Attribute(src[i], rest.value.0), rest.value.1))
  }

  function ChildrenAt(d: Dialect, src: string, i: nat): (r: Option<(ChildText, nat)>)
    requires i <= |src|
    ensures r.Some? ==> i < r.value.1 <= |src|
    decreases |src| - i, 2
  {
    if i == |src| then None
    else if src[i] == '<' && At(src, i + 1, '/') then
      var end := CloseTagEnd(src, i + 2);
      if end > i + 2 && src[end - 1] == '>' then Some((Closing(src[i + 2..end - 1]), end)) else None
    else if src[i] == '<' && OpensTag(d, src, i) then
      var child := JsxAt(d, src, i);
      if child == None then None
      else
        var rest := ChildrenAt(d, src, child.value.1);
        if rest == None then None else Some((Child(child.value.0, rest.value.0), rest.value.1))
    else if src[i] == '{' then
      var code := HoleAt(d, src, i + 1);
      if code == None then None
      else
        var rest := ChildrenAt(d, src, code.value.1);
        if rest == None then None else Some((ChildHole(code.value.0, rest.value.0), rest.value.1))
    else
      var rest := ChildrenAt(d, src, i + 1);
      if rest == None then None else Some((Prose(src[i], rest.value.0), rest.value.1))
  }

  // ----- what is read is spelled

  lemma {:induction false} BlockTextStands(src: string, i: nat)
    requires i <= |src| && BlockClose(src, i) < |src|
    ensures var close := BlockClose(src, i); HasNoClose(src[i..close]) && At(src, close, '*') && At(src, close + 1, '/')
    decreases |src| - i
  {
    var close := BlockClose(src, i);
    if i < close {
      BlockTextStands(src, i + 1);
      var text, rest := src[i..close], src[i + 1..close];
      assert forall k :: 1 <= k < |text| ==> text[k] == rest[k - 1];
      if |text| > 1 {
        assert text[1] == src[i + 1];
      }
    }
  }

  lemma {:induction false} NameEnds(d: Dialect, src: string, i: nat)
    requires i <= |src|
    ensures var end := NameEnd(d, src, i);
            (forall k :: i <= k < end ==> NameChar(d, src[k])) && !(end < |src| && NameChar(d, src[end]))
    decreases |src| - i
  {
    if i < |src| && NameChar(d, src[i]) {
      NameEnds(d, src, i + 1);
    }
  }

  lemma {:induction false} NumberEnds(d: Dialect, src: string, i: nat)
    requires i <= |src|
    ensures var end := NumberEnd(d, src, i);
            (forall k :: i <= k < end ==> NumberChar(d, src[k])) && !(end < |src| && NumberChar(d, src[end]))
    decreases |src| - i
  {
    if i < |src| && NumberChar(d, src[i]) {
      NumberEnds(d, src, i + 1);
    }
  }

  lemma {:induction false} FlagsStand(d: Dialect, src: string, i: nat)
    requires i <= |src|
    ensures var end := FlagsEnd(d, src, i);
            (forall c :: c in src[i..end] ==> d.alpha(c)) && !(end < |src| && d.alpha(src[end]))
    decreases |src| - i
  {
    if i < |src| && d.alpha(src[i]) {
      FlagsStand(d, src, i + 1);
      assert src[i..FlagsEnd(d, src, i)] == [src[i]] + src[i + 1..FlagsEnd(d, src, i)];
    }
  }

  lemma {:induction false} ClosingStands(src: string, i: nat)
    requires i <= |src| && CloseTagEnd(src, i) > i
    ensures '>' !in src[i..CloseTagEnd(src, i) - 1]
    decreases |src| - i
  {
    if src[i] != '>' && CloseTagEnd(src, i) > i + 1 {
      ClosingStands(src, i + 1);
      assert src[i..CloseTagEnd(src, i) - 1] == [src[i]] + src[i + 1..CloseTagEnd(src, i) - 1];
    }
  }

  lemma QuotedSound(d: Dialect, src: string, i: nat, regexAllowed: bool)
    requires i < |src| && (src[i] == '"' || src[i] == '\'') && StringAt(src, i).1.Some?
    ensures var (inner, end) := StringAt(src, i);
            && SpellsQuoted(src, i, src[i], inner) && end.value == i + 2 + |WriteInner(inner)|
            && Spells(d, src, i, Quoted(src[i], inner), regexAllowed) && LengthOf(Quoted(src[i], inner)) == end.value - i
  {
    hide Spells, LengthOf, InnerAt, WriteInner;
    QuotedUnfolds(d, src, i, src[i], StringAt(src, i).0, regexAllowed);
  }

  lemma PatternSound(d: Dialect, src: string, i: nat)
    requires At(src, i, '/') && !d.alpha('/') && !d.digit('/') && !At(src, i + 1, '/') && !At(src, i + 1, '*')
    requires PatternAt(d, src, i).Some?
    ensures var (t, end) := PatternAt(d, src, i).value;
            t.Pattern? && Spells(d, src, i, t, true) && end == i + LengthOf(t)
  {
    hide Spells, LengthOf, StandsAt, WriteAtoms, ProperAtom, FlagsEnd, AtomsAt;
    var atoms := AtomsAt(src, i + 1).value;
    AtomsSound(src, i + 1);
    var j := i + 1 + |WriteAtoms(atoms)|;
    FlagsStand(d, src, j + 1);
    SliceStands(src, j + 1, FlagsEnd(d, src, j + 1));
    PatternUnfolds(d, src, i, atoms, src[j + 1..FlagsEnd(d, src, j + 1)]);
  }

  lemma NoteSound(d: Dialect, src: string, i: nat, regexAllowed: bool)
    requires i < |src| && (IsSpace(src[i]) || Opens(src, i, '/') || Opens(src, i, '*')) && SimpleAt(d, src, i, regexAllowed).Some?
    ensures var (t, end) := SimpleAt(d, src, i, regexAllowed).value;
            Spells(d, src, i, t, regexAllowed) && end == i + LengthOf(t)
  {
    hide NameEnd, NumberEnd, PatternAt, StringAt;
    if !IsSpace(src[i]) && !Opens(src, i, '/') {
      BlockTextStands(src, i + 2);
    }
  }

  lemma WordSound(d: Dialect, src: string, i: nat, regexAllowed: bool)
    requires i < |src| && Ordinary(src[i]) && (NameStart(d, src[i]) || d.digit(src[i]))
    ensures SimpleAt(d, src, i, regexAllowed).Some?
    ensures var (t, end) := SimpleAt(d, src, i, regexAllowed).value;
            Spells(d, src, i, t, regexAllowed) && end == i + LengthOf(t)
  {
    hide NameEnd, NumberEnd, PatternAt, StringAt, LineEnd, BlockClose;
    if NameStart(d, src[i]) {
      NameEnds(d, src, i + 1);
    } else {
      NumberEnds(d, src, i + 1);
    }
  }

  /** The characters that begin a token with code inside. */
  predicate BeginsNested(d: Dialect, src: string, i: nat, regexAllowed: bool)
    requires i < |src|
  {
    src[i] == '`' || src[i] == '{'
    || (src[i] == '<' && !NameStart(d, src[i]) && !d.digit(src[i]) && regexAllowed && BeginsElement(d, src, i))
  }

  lemma SignSound(d: Dialect, src: string, i: nat, regexAllowed: bool)
    requires i < |src| && !BeginsNested(d, src, i, regexAllowed) && !NameStart(d, src[i]) && !d.digit(src[i])
    requires !IsSpace(src[i]) && !Opens(src, i, '/') && !Opens(src, i, '*') && src[i] !in "\"'}"
    requires !(src[i] == '/' && regexAllowed)
    ensures SimpleAt(d, src, i, regexAllowed).Some?
    ensures var (t, end) := SimpleAt(d, src, i, regexAllowed).value;
            Spells(d, src, i, t, regexAllowed) && end == i + LengthOf(t)
  {
    hide NameEnd, NumberEnd, PatternAt, StringAt, LineEnd, BlockClose;
  }

  lemma SimpleSound(d: Dialect, src: string, i: nat, regexAllowed: bool)
    requires i < |src| && !BeginsNested(d, src, i, regexAllowed) && SimpleAt(d, src, i, regexAllowed).Some?
    ensures var (t, end) := SimpleAt(d, src, i, regexAllowed).value;
            Spells(d, src, i, t, regexAllowed) && end == i + LengthOf(t)
  {
    hide Spells, LengthOf, IsSpace, BeginsNested, NameStart, PatternAt, StringAt, LineEnd, BlockClose, NameEnd,
         NumberEnd;
    if IsSpace(src[i]) || Opens(src, i, '/') || Opens(src, i, '*') {
      NoteSound(d, src, i, regexAllowed);
    } else if src[i] == '"' || src[i] == '\'' {
      QuotedSound(d, src, i, regexAllowed);
    } else if NameStart(d, src[i]) || d.digit(src[i]) {
      NestedIsMarked(d, src, i, regexAllowed);
      WordSound(d, src, i, regexAllowed);
    } else if src[i] == '/' && regexAllowed {
      NoLetter(d, src[i]);
      PatternSound(d, src, i);
    } else {
      SignSound(d, src, i, regexAllowed);
    }
  }

  lemma NestedIsMarked(d: Dialect, src: string, i: nat, regexAllowed: bool)
    requires i < |src| && !BeginsNested(d, src, i, regexAllowed)
    ensures src[i] != '`' && src[i] != '{'
  {
  }

  lemma NoLetter(d: Dialect, c: char)
    requires !NameStart(d, c)
    ensures !d.alpha(c)
  {
  }

  lemma {:induction false} TokenSound(d: Dialect, src: string, i: nat, regexAllowed: bool)
    requires i < |src| && TokenAt(d, src, i, regexAllowed).Some?
    ensures var (t, end) := TokenAt(d, src, i, regexAllowed).value;
            Spells(d, src, i, t, regexAllowed) && end == i + LengthOf(t)
    decreases |src| - i, 2
  {
    hide SimpleAt, SpellsCode, SpellsTemplate, SpellsJsx, CodeLength, TemplateLength, JsxLength, HoleAt, TemplateAt,
         JsxAt;
    if src[i] == '`' {
      TemplateSound(d, src, i + 1);
    } else if src[i] == '{' {
      HoleSound(d, src, i + 1);
    } else if BeginsNested(d, src, i, regexAllowed) {
      JsxSound(d, src, i);
    } else {
      SimpleSound(d, src, i, regexAllowed);
    }
  }

  lemma {:induction false} CodeSound(d: Dialect, src: string, i: nat, regexAllowed: bool)
    requires i <= |src| && CodeAt(d, src, i, regexAllowed).Some?
    ensures var (code, end) := CodeAt(d, src, i, regexAllowed).value;
            SpellsCode(d, src, i, code, regexAllowed) && end == i + CodeLength(code)
    decreases |src| - i, 3
  {
    hide TokenAt, Spells, SpellsCode, LengthOf, CodeLength, After;
    if i == |src| || src[i] == '}' {
      CodeTextUnfolds(d, src, i, Blank(' '), Stop, regexAllowed);
    } else {
      var (t, j) := TokenAt(d, src, i, regexAllowed).value;
      TokenSound(d, src, i, regexAllowed);
      CodeSound(d, src, j, After(t, regexAllowed));
      CodeTextUnfolds(d, src, i, t, CodeAt(d, src, j, After(t, regexAllowed)).value.0, regexAllowed);
    }
  }

  lemma {:induction false} HoleSound(d: Dialect, src: string, i: nat)
    requires i <= |src| && HoleAt(d, src, i).Some?
    ensures var (code, end) := HoleAt(d, src, i).value;
            SpellsCode(d, src, i, code, true) && At(src, i + CodeLength(code), '}') && end == i + CodeLength(code) + 1
    decreases |src| - i, 4
  {
    hide SpellsCode, CodeLength, CodeAt;
    CodeSound(d, src, i, true);
  }

  lemma {:induction false} TemplateSound(d: Dialect, src: string, i: nat)
    requires i <= |src| && TemplateAt(d, src, i).Some?
    ensures var (body, end) := TemplateAt(d, src, i).value;
            SpellsTemplate(d, src, i, body) && end == i + TemplateLength(body)
    decreases |src| - i, 2
  {
    hide SpellsTemplate, SpellsCode, CodeLength, TemplateLength, HoleAt;
    var body := TemplateAt(d, src, i).value.0;
    match body {
      case Backquote => BackquoteUnfolds(d, src, i);
      case Hole(code, rest) =>
        HoleSound(d, src, i + 2);
        TemplateSound(d, src, HoleAt(d, src, i + 2).value.1);
        HoleUnfolds(d, src, i, code, rest);
      case Literal(x, rest) =>
        TemplateSound(d, src, i + |WriteOne(x)|);
        LiteralUnfolds(d, src, i, x, rest);
    }
  }

  lemma {:induction false} JsxSound(d: Dialect, src: string, i: nat)
    requires At(src, i, '<') && JsxAt(d, src, i).Some?
    ensures var (element, end) := JsxAt(d, src, i).value;
            SpellsJsx(d, src, i, element) && end == i + JsxLength(element)
    decreases |src| - i, 1
  {
    hide SpellsJsx, SpellsTag, SpellsChildren, TagLength, ChildLength, JsxLength, TagAt, ChildrenAt;
    var (tag, end) := TagAt(d, src, i + 1).value;
    TagSound(d, src, i + 1);
    if src[end] == '/' {
      JsxUnfolds(d, src, i, tag, Closing(""));
    } else {
      ChildrenSound(d, src, end + 1);
      JsxUnfolds(d, src, i, tag, ChildrenAt(d, src, end + 1).value.0);
    }
  }

  lemma {:induction false} TagSound(d: Dialect, src: string, i: nat)
    requires i <= |src| && TagAt(d, src, i).Some?
    ensures var (tag, end) := TagAt(d, src, i).value;
            SpellsTag(d, src, i, tag) && end == i + TagLength(tag)
    decreases |src| - i, 2
  {
    hide SpellsTag, SpellsCode, CodeLength, TagLength, HoleAt, StringAt, WriteInner, SpellsQuoted;
    var tag := TagAt(d, src, i).value.0;
    match tag {
      case TagEnd => TagEndUnfolds(d, src, i);
      case Value(quote, inner, rest) =>
        QuotedSound(d, src, i, true);
        TagSound(d, src, StringAt(src, i).1.value);
        ValueUnfolds(d, src, i, quote, inner, rest);
      case TagHole(code, rest) =>
        HoleSound(d, src, i + 1);
        TagSound(d, src, HoleAt(d, src, i + 1).value.1);
        TagHoleUnfolds(d, src, i, code, rest);
      case Attribute(c, rest) =>
        TagSound(d, src, i + 1);
        AttributeUnfolds(d, src, i, c, rest);
    }
  }

  lemma {:induction false} ChildrenSound(d: Dialect, src: string, i: nat)
    requires i <= |src| && ChildrenAt(d, src, i).Some?
    ensures var (children, end) := ChildrenAt(d, src, i).value;
            SpellsChildren(d, src, i, children) && end == i + ChildLength(children)
    decreases |src| - i, 2
  {
    hide SpellsChildren, SpellsCode, SpellsJsx, CodeLength, ChildLength, JsxLength, HoleAt, JsxAt, CloseTagEnd;
    var children := ChildrenAt(d, src, i).value.0;
    match children {
      case Closing(name) =>
        ClosingStands(src, i + 2);
        ClosingUnfolds(d, src, i, name);
      case Child(element, rest) =>
        JsxSound(d, src, i);
        ChildrenSound(d, src, JsxAt(d, src, i).value.1);
        ChildUnfolds(d, src, i, element, rest);
      case ChildHole(code, rest) =>
        HoleSound(d, src, i + 1);
        ChildrenSound(d, src, HoleAt(d, src, i + 1).value.1);
        ChildHoleUnfolds(d, src, i, code, rest);
      case Prose(c, rest) =>
        ChildrenSound(d, src, i + 1);
        ProseUnfolds(d, src, i, c, rest);
    }
  }

  // ----- what is spelled is read

  lemma QuotedRead(src: string, i: nat, quote: char, inner: seq<Inner>)
    requires SpellsQuoted(src, i, quote, inner)
    ensures i < |src| && src[i] == quote && StringAt(src, i) == (inner, Some(i + 2 + |WriteInner(inner)|))
  {
    hide InnerAt, WriteInner, StandsAt, Unbroken;
    InnerIsUnique(src, i + 1, [quote, '\\', '\n'], inner);
  }

  lemma StandsAs(src: string, i: nat, text: string)
    requires StandsAt(src, i, text)
    ensures i + |text| <= |src| && src[i..i + |text|] == text
  {
  }

  lemma NoteRead(d: Dialect, src: string, i: nat, t: Token, regexAllowed: bool)
    requires Spells(d, src, i, t, regexAllowed) && (t.Blank? || t.LineNote? || t.BlockNote?)
    ensures i < |src| && SimpleAt(d, src, i, regexAllowed) == Some((t, i + LengthOf(t)))
  {
    hide PatternAt, StringAt, NameEnd, NumberEnd, StandsAt, LineEnd, BlockClose, HasNoClose;
    match t {
      case Blank(_) =>
      case LineNote(text) =>
        LineCloses(src, i + 2, text);
        StandsAs(src, i + 2, text);
      case BlockNote(text) =>
        BlockCloses(src, i + 2, text);
        StandsAs(src, i + 2, text);
    }
  }

  lemma PatternRead(d: Dialect, src: string, i: nat, t: Token)
    requires Spells(d, src, i, t, true) && t.Pattern?
    ensures i < |src| && SimpleAt(d, src, i, true) == Some((t, i + LengthOf(t)))
  {
    hide StandsAt, WriteAtoms, ProperAtom, FlagsEnd, AtomsAt, StringAt, NameEnd, NumberEnd, LineEnd, BlockClose;
    var j := i + 1 + |WriteAtoms(t.atoms)|;
    AtomsAreUnique(src, i + 1, t.atoms);
    FlagsRead(d, src, j + 1, t.flags);
    StandsAs(src, j + 1, t.flags);
  }

  lemma NameIsRead(d: Dialect, src: string, i: nat, s: string, regexAllowed: bool)
    requires Spells(d, src, i, Name(s), regexAllowed)
    ensures i < |src| && SimpleAt(d, src, i, regexAllowed) == Some((Name(s), i + |s|))
  {
    hide NameEnd, NumberEnd, PatternAt, StringAt, LineEnd, BlockClose, NameChar, StandsAt;
    StandsAs(src, i, s);
    StandingCharacter(src, i, s, 0);
    assert s == [s[0]] + s[1..];
    StandsInTwo(src, i, [s[0]], s[1..]);
    NameRead(d, src, i + 1, s[1..]);
  }

  lemma NumeralIsRead(d: Dialect, src: string, i: nat, s: string, regexAllowed: bool)
    requires Spells(d, src, i, Numeral(s), regexAllowed)
    ensures i < |src| && SimpleAt(d, src, i, regexAllowed) == Some((Numeral(s), i + |s|))
  {
    hide NameEnd, NumberEnd, PatternAt, StringAt, LineEnd, BlockClose, NumberChar, StandsAt;
    StandsAs(src, i, s);
    StandingCharacter(src, i, s, 0);
    assert s == [s[0]] + s[1..];
    StandsInTwo(src, i, [s[0]], s[1..]);
    NumberRead(d, src, i + 1, s[1..]);
  }

  lemma SignIsRead(d: Dialect, src: string, i: nat, t: Token, regexAllowed: bool)
    requires Spells(d, src, i, t, regexAllowed) && (t.Sign? || t.Twice?)
    ensures i < |src| && SimpleAt(d, src, i, regexAllowed) == Some((t, i + LengthOf(t)))
  {
    hide NameEnd, NumberEnd, PatternAt, StringAt, LineEnd, BlockClose;
  }

  lemma QuotedIsRead(d: Dialect, src: string, i: nat, t: Token, regexAllowed: bool)
    requires Spells(d, src, i, t, regexAllowed) && t.Quoted?
    ensures i < |src| && SimpleAt(d, src, i, regexAllowed) == Some((t, i + LengthOf(t)))
  {
    hide NameEnd, NumberEnd, PatternAt, StringAt, LineEnd, BlockClose, SpellsQuoted, WriteInner;
    QuotedRead(src, i, t.quote, t.inner);
    QuoteIsQuote(src, i, t.quote, t.inner);
  }

  lemma QuoteIsQuote(src: string, i: nat, quote: char, inner: seq<Inner>)
    requires SpellsQuoted(src, i, quote, inner)
    ensures quote == '"' || quote == '\''
  {
  }

  lemma SimpleComplete(d: Dialect, src: string, i: nat, t: Token, regexAllowed: bool)
    requires Spells(d, src, i, t, regexAllowed) && Simple(t)
    ensures i < |src| && SimpleAt(d, src, i, regexAllowed) == Some((t, i + LengthOf(t)))
  {
    hide SimpleAt, Spells, LengthOf;
    match t {
      case Quoted(_, _) => QuotedIsRead(d, src, i, t, regexAllowed);
      case Pattern(_, _) =>
        assert regexAllowed by { PatternIsAllowed(d, src, i, t, regexAllowed); }
        PatternRead(d, src, i, t);
      case Name(s) =>
        NameIsRead(d, src, i, s, regexAllowed);
        assert LengthOf(t) == |s| by { WordLength(s); }
      case Numeral(s) =>
        NumeralIsRead(d, src, i, s, regexAllowed);
        assert LengthOf(t) == |s| by { WordLength(s); }
      case Sign(_) => SignIsRead(d, src, i, t, regexAllowed);
      case Twice(_) => SignIsRead(d, src, i, t, regexAllowed);
      case _ => NoteRead(d, src, i, t, regexAllowed);
    }
  }

  lemma WordLength(s: string)
    ensures LengthOf(Name(s)) == LengthOf(Numeral(s)) == |s|
  {
  }

  lemma PatternIsAllowed(d: Dialect, src: string, i: nat, t: Token, regexAllowed: bool)
    requires Spells(d, src, i, t, regexAllowed) && t.Pattern?
    ensures regexAllowed
  {
  }

  lemma SimpleIsNotNested(d: Dialect, src: string, i: nat, t: Token, regexAllowed: bool)
    requires Spells(d, src, i, t, regexAllowed) && Simple(t) && i < |src|
    ensures !BeginsNested(d, src, i, regexAllowed)
  {
    hide WriteInner, WriteAtoms, Unbroken, HasNoClose, NameChar, NumberChar;
    if t.Name? || t.Numeral? {
      StandingCharacter(src, i, t.s, 0);
    }
  }

  lemma {:induction false} TokenComplete(d: Dialect, src: string, i: nat, t: Token, regexAllowed: bool)
    requires Spells(d, src, i, t, regexAllowed)
    ensures i < |src| && TokenAt(d, src, i, regexAllowed) == Some((t, i + LengthOf(t)))
    decreases t, 0
  {
    hide SimpleAt, SpellsCode, SpellsTemplate, SpellsJsx, CodeLength, TemplateLength, JsxLength, HoleAt, TemplateAt,
         JsxAt, IsSpace;
    match t {
      case Backquoted(body) => TemplateComplete(d, src, i + 1, body);
      case Group(code) => HoleComplete(d, src, i + 1, code);
      case Markup(element) =>
        JsxBegins(d, src, i, element);
        JsxComplete(d, src, i, element);
      case _ =>
        SimpleComplete(d, src, i, t, regexAllowed);
        SimpleIsNotNested(d, src, i, t, regexAllowed);
    }
  }

  lemma {:induction false} CodeComplete(d: Dialect, src: string, i: nat, code: CodeText, regexAllowed: bool)
    requires i <= |src| && SpellsCode(d, src, i, code, regexAllowed)
    requires i + CodeLength(code) == |src| || At(src, i + CodeLength(code), '}')
    ensures CodeAt(d, src, i, regexAllowed) == Some((code, i + CodeLength(code)))
    decreases code, 0
  {
    hide TokenAt, Spells, SpellsCode, LengthOf, CodeLength, After;
    match code {
      case Stop => CodeTextUnfolds(d, src, i, Blank(' '), Stop, regexAllowed);
      case Next(t, rest) =>
        CodeTextUnfolds(d, src, i, t, rest, regexAllowed);
        BeginsNoClose(d, src, i, t, regexAllowed);
        TokenComplete(d, src, i, t, regexAllowed);
        CodeComplete(d, src, i + LengthOf(t), rest, After(t, regexAllowed));
    }
  }

  lemma {:induction false} HoleComplete(d: Dialect, src: string, i: nat, code: CodeText)
    requires i <= |src| && SpellsCode(d, src, i, code, true) && At(src, i + CodeLength(code), '}')
    ensures HoleAt(d, src, i) == Some((code, i + CodeLength(code) + 1))
    decreases code, 1
  {
    hide CodeAt, SpellsCode, CodeLength;
    CodeComplete(d, src, i, code, true);
  }

  lemma {:induction false} TemplateComplete(d: Dialect, src: string, i: nat, body: TemplateText)
    requires SpellsTemplate(d, src, i, body)
    ensures i < |src| && TemplateAt(d, src, i) == Some((body, i + TemplateLength(body)))
    decreases body
  {
    hide SpellsTemplate, SpellsCode, CodeLength, TemplateLength, HoleAt, StandsAt;
    match body {
      case Backquote => BackquoteUnfolds(d, src, i);
      case Hole(code, rest) =>
        HoleUnfolds(d, src, i, code, rest);
        HoleComplete(d, src, i + 2, code);
        TemplateComplete(d, src, i + 3 + CodeLength(code), rest);
      case Literal(x, rest) =>
        LiteralUnfolds(d, src, i, x, rest);
        StandsAs(src, i, WriteOne(x));
        StandingCharacter(src, i, WriteOne(x), 0);
        if x.Escaped? {
          StandingCharacter(src, i, WriteOne(x), 1);
        }
        TemplateComplete(d, src, i + |WriteOne(x)|, rest);
    }
  }

  lemma {:induction false} JsxComplete(d: Dialect, src: string, i: nat, e: JsxText)
    requires SpellsJsx(d, src, i, e)
    ensures i < |src| && JsxAt(d, src, i) == Some((e, i + JsxLength(e)))
    decreases e
  {
    hide SpellsJsx, SpellsTag, SpellsChildren, TagLength, ChildLength, JsxLength, TagAt, ChildrenAt;
    match e {
      case Empty(tag) =>
        JsxUnfolds(d, src, i, tag, Closing(""));
        TagComplete(d, src, i + 1, tag);
      case Paired(tag, children) =>
        JsxUnfolds(d, src, i, tag, children);
        TagComplete(d, src, i + 1, tag);
        ChildrenComplete(d, src, i + 2 + TagLength(tag), children);
    }
  }

  lemma {:induction false} TagComplete(d: Dialect, src: string, i: nat, tag: TagText)
    requires SpellsTag(d, src, i, tag) && i <= |src|
    requires var end := i + TagLength(tag); At(src, end, '>') || (At(src, end, '/') && At(src, end + 1, '>'))
    ensures TagAt(d, src, i) == Some((tag, i + TagLength(tag)))
    decreases tag
  {
    hide SpellsTag, SpellsCode, CodeLength, TagLength, HoleAt, StringAt, WriteInner, SpellsQuoted;
    match tag {
      case TagEnd => TagEndUnfolds(d, src, i);
      case Value(quote, inner, rest) =>
        ValueUnfolds(d, src, i, quote, inner, rest);
        QuotedRead(src, i, quote, inner);
        QuoteIsQuote(src, i, quote, inner);
        TagComplete(d, src, i + 2 + |WriteInner(inner)|, rest);
      case TagHole(code, rest) =>
        TagHoleUnfolds(d, src, i, code, rest);
        HoleComplete(d, src, i + 1, code);
        TagComplete(d, src, i + 2 + CodeLength(code), rest);
      case Attribute(c, rest) =>
        AttributeUnfolds(d, src, i, c, rest);
        TagComplete(d, src, i + 1, rest);
    }
  }

  lemma {:induction false} ChildrenComplete(d: Dialect, src: string, i: nat, children: ChildText)
    requires SpellsChildren(d, src, i, children)
    ensures i < |src| && ChildrenAt(d, src, i) == Some((children, i + ChildLength(children)))
    decreases children
  {
    hide SpellsChildren, SpellsCode, SpellsJsx, CodeLength, ChildLength, JsxLength, HoleAt, JsxAt, CloseTagEnd,
         StandsAt;
    match children {
      case Closing(name) =>
        ClosingUnfolds(d, src, i, name);
        TagCloses(src, i + 2, name);
        StandsAs(src, i + 2, name);
      case Child(element, rest) =>
        ChildUnfolds(d, src, i, element, rest);
        JsxBegins(d, src, i, element);
        JsxComplete(d, src, i, element);
        ChildrenComplete(d, src, i + JsxLength(element), rest);
      case ChildHole(code, rest) =>
        ChildHoleUnfolds(d, src, i, code, rest);
        HoleComplete(d, src, i + 1, code);
        ChildrenComplete(d, src, i + 2 + CodeLength(code), rest);
      case Prose(c, rest) =>
        ProseUnfolds(d, src, i, c, rest);
        ChildrenComplete(d, src, i + 1, rest);
    }
  }

  /** The tree spells the whole source. */
  predicate SpelledBy(d: Dialect, src: string, code: CodeText) {
    SpellsCode(d, src, 0, code, true) && CodeLength(code) == |src|
  }

  /** The tree of a source: none when some construct is left open, or a brace closes what none opened. */
  function TreeOf(d: Dialect, src: string): Option<CodeText> {
    var code := CodeAt(d, src, 0, true);
    if code.Some? && code.value.1 == |src| then Some(code.value.0) else None
  }

  /** The reader finds the tree that spells a source exactly when there is one, and there is no other. */
  lemma TreeOfIff(d: Dialect, src: string, code: CodeText)
    ensures TreeOf(d, src) == Some(code) <==> SpelledBy(d, src, code)
  {
    hide CodeAt, SpellsCode, CodeLength;
    if SpelledBy(d, src, code) {
      CodeComplete(d, src, 0, code, true);
    }
    if CodeAt(d, src, 0, true).Some? {
      CodeSound(d, src, 0, true);
    }
  }

  /** For every source in which all constructs are closed, the lexer reports exactly the comments of its tree. */
  lemma ClosedSourceIsReported(d: Dialect, src: string)
    ensures match TreeOf(d, src)
            case Some(code) => Code(d, src, 0, 0, true, false) == Lexed(|src|, CodeNotes(code, 0))
            case None => forall code :: !SpelledBy(d, src, code)
  {
    hide Code, TreeOf;
    match TreeOf(d, src) {
      case Some(code) =>
        TreeOfIff(d, src, code);
        ExactlyTheCommentsAreReported(d, src, code);
      case None =>
        forall code
          ensures !SpelledBy(d, src, code)
        {
          TreeOfIff(d, src, code);
        }
    }
  }
}
