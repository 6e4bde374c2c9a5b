/**
 * Which comments the JavaScript lexer must report: source text as a tree of tokens, and the proof that lexing text a
 * tree spells reports exactly the comments of the tree, wherever in code, templates and JSX they stand.
 */
module JsGrammar {
  import opened Text
  import opened SourceLines
  import opened Spelling
  import opened JsLexer

  /** Part of a regular expression literal: a character, or a class in brackets. */
  datatype Atom = One(x: Inner) | Class(inner: seq<Inner>)

  datatype CodeText = Stop | Next(token: Token, rest: CodeText)

  datatype Token =
    | Blank(c: char)
    | LineNote(text: string)
    | BlockNote(text: string)
    | Quoted(quote: char, inner: seq<Inner>)
    | Backquoted(body: TemplateText)
    | Pattern(atoms: seq<Atom>, flags: string)
    | Name(s: string)
    | Numeral(s: string)
    | Twice(c: char)
    | Sign(c: char)
    | Group(code: CodeText)
    | Markup(element: JsxText)

  /** The text of a template after its opening backquote. */
  datatype TemplateText = Backquote | Literal(x: Inner, rest: TemplateText) | Hole(code: CodeText, rest: TemplateText)

  /** A JSX element: one that closes itself, or one with children. */
  datatype JsxText = Empty(tag: TagText) | Paired(tag: TagText, children: ChildText)

  datatype TagText =
    | TagEnd
    | Attribute(c: char, rest: TagText)
    | Value(quote: char, inner: seq<Inner>, rest: TagText)
    | TagHole(code: CodeText, rest: TagText)

  datatype ChildText =
    | Closing(name: string)
    | Prose(c: char, rest: ChildText)
    | Child(element: JsxText, rest: ChildText)
    | ChildHole(code: CodeText, rest: ChildText)

  // ----- lengths

  function WriteAtom(a: Atom): string {
    match a
    case One(x) => WriteOne(x)
    case Class(inner) => ['['] + WriteInner(inner) + [']']
  }

  function WriteAtoms(atoms: seq<Atom>): string {
    if atoms == [] then "" else WriteAtom(atoms[0]) + WriteAtoms(atoms[1..])
  }

  function LengthOf(t: Token): (n: nat) {
    match t
    case Blank(_) => 1
    case LineNote(text) => 2 + |text|
    case BlockNote(text) => 4 + |text|
    case Quoted(_, inner) => 2 + |WriteInner(inner)|
    case Backquoted(body) => 1 + TemplateLength(body)
    case Pattern(atoms, flags) => 2 + |WriteAtoms(atoms)| + |flags|
    case Name(s) => |s|
    case Numeral(s) => |s|
    case Twice(_) => 2
    case Sign(_) => 1
    case Group(code) => 2 + CodeLength(code)
    case Markup(element) => JsxLength(element)
  }

  function CodeLength(code: CodeText): nat {
    match code
    case Stop => 0
    case Next(t, rest) => LengthOf(t) + CodeLength(rest)
  }

  function TemplateLength(body: TemplateText): nat {
    match body
    case Backquote => 1
    case Literal(x, rest) => |WriteOne(x)| + TemplateLength(rest)
    case Hole(code, rest) => 2 + CodeLength(code) + 1 + TemplateLength(rest)
  }

  function JsxLength(e: JsxText): nat {
    match e
    case Empty(tag) => 1 + TagLength(tag) + 2
    case Paired(tag, children) => 1 + TagLength(tag) + 1 + ChildLength(children)
  }

  /** Up to the `>` or `/>` that ends the tag. */
  function TagLength(tag: TagText): nat {
    match tag
    case TagEnd => 0
    case Attribute(_, rest) => 1 + TagLength(rest)
    case Value(_, inner, rest) => 2 + |WriteInner(inner)| + TagLength(rest)
    case TagHole(code, rest) => 1 + CodeLength(code) + 1 + TagLength(rest)
  }

  function ChildLength(children: ChildText): nat {
    match children
    case Closing(name) => 2 + |name| + 1
    case Prose(_, rest) => 1 + ChildLength(rest)
    case Child(element, rest) => JsxLength(element) + ChildLength(rest)
    case ChildHole(code, rest) => 1 + CodeLength(code) + 1 + ChildLength(rest)
  }

  // ----- the comments of a tree that stands at `i`

  function NotesOf(t: Token, i: nat): seq<Mark> {
    match t
    case LineNote(text) => [Mark(i, i + 2 + |text|, false)]
    case BlockNote(text) => [Mark(i, i + 4 + |text|, true)]
    case Backquoted(body) => TemplateNotes(body, i + 1)
    case Group(code) => CodeNotes(code, i + 1)
    case Markup(element) => JsxNotes(element, i)
    case _ => []
  }

  function CodeNotes(code: CodeText, i: nat): seq<Mark> {
    match code
    case Stop => []
    case Next(t, rest) => NotesOf(t, i) + CodeNotes(rest, i + LengthOf(t))
  }

  function TemplateNotes(body: TemplateText, i: nat): seq<Mark> {
    match body
    case Backquote => []
    case Literal(x, rest) => TemplateNotes(rest, i + |WriteOne(x)|)
    case Hole(code, rest) => CodeNotes(code, i + 2) + TemplateNotes(rest, i + 2 + CodeLength(code) + 1)
  }

  function JsxNotes(e: JsxText, i: nat): seq<Mark> {
    match e
    case Empty(tag) => TagNotes(tag, i + 1)
    case Paired(tag, children) => TagNotes(tag, i + 1) + ChildNotes(children, i + 1 + TagLength(tag) + 1)
  }

  function TagNotes(tag: TagText, i: nat): seq<Mark> {
    match tag
    case TagEnd => []
    case Attribute(_, rest) => TagNotes(rest, i + 1)
    case Value(_, inner, rest) => TagNotes(rest, i + 2 + |WriteInner(inner)|)
    case TagHole(code, rest) => CodeNotes(code, i + 1) + TagNotes(rest, i + 1 + CodeLength(code) + 1)
  }

  function ChildNotes(children: ChildText, i: nat): seq<Mark> {
    match children
    case Closing(_) => []
    case Prose(_, rest) => ChildNotes(rest, i + 1)
    case Child(element, rest) => JsxNotes(element, i) + ChildNotes(rest, i + JsxLength(element))
    case ChildHole(code, rest) => CodeNotes(code, i + 1) + ChildNotes(rest, i + 1 + CodeLength(code) + 1)
  }

  // ----- text that a tree spells

  /** The words an expression follows. */
  predicate BeforeExpression(s: string) {
    || s == "await" || s == "case" || s == "delete" || s == "do" || s == "else" || s == "in" || s == "instanceof"
    || s == "new" || s == "of" || s == "return" || s == "throw" || s == "typeof" || s == "void" || s == "yield"
  }

  /** A tag or a fragment opens, by the character after the `<`. */
  predicate OpensTag(d: Dialect, src: string, i: nat) {
    At(src, i + 1, '>') || (i + 1 < |src| && d.alpha(src[i + 1]))
  }

  /** Whether a `/` after the token begins a regular expression rather than a division. */
  function After(t: Token, regexAllowed: bool): bool {
    match t
    case Blank(_) => regexAllowed
    case LineNote(_) => regexAllowed
    case BlockNote(_) => regexAllowed
    case Twice(_) => regexAllowed
    case Name(s) => BeforeExpression(s)
    case Sign(c) => if c in ")]." then false else if c == '!' then regexAllowed else true
    case _ => false
  }

  function AfterCode(code: CodeText, regexAllowed: bool): bool {
    match code
    case Stop => regexAllowed
    case Next(t, rest) => AfterCode(rest, After(t, regexAllowed))
  }

  predicate NameChar(d: Dialect, c: char) { d.alnum(c) || c == '_' || c == '$' }

  predicate NumberChar(d: Dialect, c: char) { d.alnum(c) || c == '_' || c == '.' }

  predicate NameStart(d: Dialect, c: char) { d.alpha(c) || c == '_' || c == '$' }

  /** The character begins none of the tokens that are read first. */
  predicate Ordinary(c: char) {
    !IsSpace(c) && c !in "\"'`{}/"
  }

  /** A `<` read as the beginning of an element, where a regular expression might begin. */
  predicate BeginsElement(d: Dialect, src: string, i: nat) {
    d.jsx && OpensTag(d, src, i) && !(d.typescript && d.arrow(i))
  }

  /** Text without the delimiter that closes a block comment. */
  predicate HasNoClose(text: string) {
    forall k :: 0 <= k < |text| - 1 && text[k] == '*' ==> text[k + 1] != '/'
  }

  predicate ProperAtom(a: Atom) {
    match a
    case One(x) => Unbroken([x], "\\[/\n")
    case Class(inner) => Unbroken(inner, "\\]\n")
  }

  /** The source, at `i`, is spelled by the token: it reads so, and what follows does not run into it. */
  predicate Spells(d: Dialect, src: string, i: nat, t: Token, regexAllowed: bool)
    decreases t
  {
    match t
    case Blank(c) => At(src, i, c) && IsSpace(c)
    case LineNote(text) =>
      && Opens(src, i, '/') && StandsAt(src, i + 2, text) && '\n' !in text
      && (i + 2 + |text| == |src| || At(src, i + 2 + |text|, '\n'))
    case BlockNote(text) =>
      && Opens(src, i, '*') && StandsAt(src, i + 2, text) && HasNoClose(text)
      && At(src, i + 2 + |text|, '*') && At(src, i + 3 + |text|, '/')
    case Quoted(quote, inner) => SpellsQuoted(src, i, quote, inner)
    case Backquoted(body) => At(src, i, '`') && SpellsTemplate(d, src, i + 1, body)
    case Pattern(atoms, flags) =>
      && regexAllowed && At(src, i, '/') && !d.alpha('/') && !d.digit('/')
      && !At(src, i + 1, '/') && !At(src, i + 1, '*')
      && (forall a :: a in atoms ==> ProperAtom(a)) && StandsAt(src, i + 1, WriteAtoms(atoms))
      && At(src, i + 1 + |WriteAtoms(atoms)|, '/')
      && StandsAt(src, i + 2 + |WriteAtoms(atoms)|, flags) && (forall c :: c in flags ==> d.alpha(c))
      && !(i + LengthOf(t) < |src| && d.alpha(src[i + LengthOf(t)]))
    case Name(s) =>
      && s != "" && StandsAt(src, i, s) && Ordinary(s[0]) && NameStart(d, s[0])
      && (forall k :: 1 <= k < |s| ==> NameChar(d, s[k]))
      && !(i + |s| < |src| && NameChar(d, src[i + |s|]))
    case Numeral(s) =>
      && s != "" && StandsAt(src, i, s) && Ordinary(s[0]) && !NameStart(d, s[0]) && d.digit(s[0])
      && (forall k :: 1 <= k < |s| ==> NumberChar(d, s[k]))
      && !(i + |s| < |src| && NumberChar(d, src[i + |s|]))
    case Twice(c) => (c == '+' || c == '-') && At(src, i, c) && At(src, i + 1, c) && !d.alpha(c) && !d.digit(c)
    case Sign(c) =>
      && At(src, i, c) && !NameStart(d, c) && !d.digit(c)
      && (Ordinary(c) || (c == '/' && !regexAllowed && !At(src, i + 1, '/') && !At(src, i + 1, '*')))
      && (c == '+' || c == '-' ==> !At(src, i + 1, c))
      && (c == '<' && regexAllowed ==> !BeginsElement(d, src, i))
    case Group(code) => At(src, i, '{') && SpellsCode(d, src, i + 1, code, true) && At(src, i + 1 + CodeLength(code), '}')
    case Markup(element) =>
      && regexAllowed && !d.alpha('<') && !d.digit('<') && BeginsElement(d, src, i)
      && SpellsJsx(d, src, i, element)
  }

  predicate SpellsQuoted(src: string, i: nat, quote: char, inner: seq<Inner>) {
    && (quote == '\'' || quote == '"') && At(src, i, quote)
    && StandsAt(src, i + 1, WriteInner(inner)) && Unbroken(inner, [quote, '\\', '\n'])
    && At(src, i + 1 + |WriteInner(inner)|, quote)
  }

  predicate SpellsCode(d: Dialect, src: string, i: nat, code: CodeText, regexAllowed: bool)
    decreases code
  {
    match code
    case Stop => true
    case Next(t, rest) =>
      Spells(d, src, i, t, regexAllowed) && SpellsCode(d, src, i + LengthOf(t), rest, After(t, regexAllowed))
  }

  predicate SpellsTemplate(d: Dialect, src: string, i: nat, body: TemplateText)
    decreases body
  {
    match body
    case Backquote => At(src, i, '`')
    case Literal(x, rest) =>
      && StandsAt(src, i, WriteOne(x)) && Unbroken([x], "\\`") && (x == Plain('$') ==> !At(src, i + 1, '{'))
      && SpellsTemplate(d, src, i + |WriteOne(x)|, rest)
    case Hole(code, rest) =>
      && At(src, i, '$') && At(src, i + 1, '{') && SpellsCode(d, src, i + 2, code, true)
      && At(src, i + 2 + CodeLength(code), '}') && SpellsTemplate(d, src, i + 2 + CodeLength(code) + 1, rest)
  }

  predicate SpellsJsx(d: Dialect, src: string, i: nat, e: JsxText)
    decreases e
  {
    match e
    case Empty(tag) =>
      && At(src, i, '<') && SpellsTag(d, src, i + 1, tag)
      && At(src, i + 1 + TagLength(tag), '/') && At(src, i + 2 + TagLength(tag), '>')
    case Paired(tag, children) =>
      && At(src, i, '<') && SpellsTag(d, src, i + 1, tag) && At(src, i + 1 + TagLength(tag), '>')
      && SpellsChildren(d, src, i + 1 + TagLength(tag) + 1, children)
  }

  predicate SpellsTag(d: Dialect, src: string, i: nat, tag: TagText)
    decreases tag
  {
    match tag
    case TagEnd => true
    case Attribute(c, rest) =>
      At(src, i, c) && c !in "\"'{>" && (c == '/' ==> !At(src, i + 1, '>')) && SpellsTag(d, src, i + 1, rest)
    case Value(quote, inner, rest) =>
      SpellsQuoted(src, i, quote, inner) && SpellsTag(d, src, i + 2 + |WriteInner(inner)|, rest)
    case TagHole(code, rest) =>
      && At(src, i, '{') && SpellsCode(d, src, i + 1, code, true)
      && At(src, i + 1 + CodeLength(code), '}') && SpellsTag(d, src, i + 1 + CodeLength(code) + 1, rest)
  }

  predicate SpellsChildren(d: Dialect, src: string, i: nat, children: ChildText)
    decreases children
  {
    match children
    case Closing(name) =>
      && At(src, i, '<') && At(src, i + 1, '/') && StandsAt(src, i + 2, name) && '>' !in name && At(src, i + 2 + |name|, '>')
    case Prose(c, rest) =>
      && At(src, i, c) && c != '{' && (c == '<' ==> !At(src, i + 1, '/') && !OpensTag(d, src, i))
      && SpellsChildren(d, src, i + 1, rest)
    case Child(element, rest) =>
      && OpensTag(d, src, i) && !At(src, i + 1, '/')
      && SpellsJsx(d, src, i, element) && SpellsChildren(d, src, i + JsxLength(element), rest)
    case ChildHole(code, rest) =>
      && At(src, i, '{') && SpellsCode(d, src, i + 1, code, true)
      && At(src, i + 1 + CodeLength(code), '}') && SpellsChildren(d, src, i + 1 + CodeLength(code) + 1, rest)
  }

  // ----- constructs without comments end where they are spelled to end

  lemma {:induction false} StringCloses(src: string, i: nat, quote: char, inner: seq<Inner>)
    requires (quote == '\'' || quote == '"') && Unbroken(inner, [quote, '\\', '\n'])
    requires StandsAt(src, i, WriteInner(inner)) && At(src, i + |WriteInner(inner)|, quote)
    ensures StringEnd(src, i, quote) == i + |WriteInner(inner)| + 1
    decreases |inner|
  {
    hide StandsAt, Unbroken;
    if inner != [] {
      UnbrokenParts(inner, [quote, '\\', '\n']);
      StandsInTwo(src, i, WriteOne(inner[0]), WriteInner(inner[1..]));
      StandingCharacter(src, i, WriteOne(inner[0]), 0);
      StringCloses(src, i + |WriteOne(inner[0])|, quote, inner[1..]);
    }
  }

  lemma {:induction false} FlagsRead(d: Dialect, src: string, i: nat, flags: string)
    requires StandsAt(src, i, flags) && forall c :: c in flags ==> d.alpha(c)
    requires !(i + |flags| < |src| && d.alpha(src[i + |flags|]))
    ensures FlagsEnd(d, src, i) == i + |flags|
    decreases |flags|
  {
    if flags != "" {
      StandingCharacter(src, i, flags, 0);
      assert flags == [flags[0]] + flags[1..];
      StandsInTwo(src, i, [flags[0]], flags[1..]);
      FlagsRead(d, src, i + 1, flags[1..]);
    }
  }

  lemma ClassStep(d: Dialect, src: string, i: nat, x: Inner)
    requires StandsAt(src, i, WriteOne(x)) && (x.Plain? ==> x.c !in "\\]\n")
    ensures RegexEnd(d, src, i, true) == RegexEnd(d, src, i + |WriteOne(x)|, true)
  {
    StandingCharacter(src, i, WriteOne(x), 0);
  }

  lemma {:induction false} ClassCloses(d: Dialect, src: string, i: nat, inner: seq<Inner>)
    requires Unbroken(inner, "\\]\n") && StandsAt(src, i, WriteInner(inner)) && At(src, i + |WriteInner(inner)|, ']')
    ensures RegexEnd(d, src, i, true) == RegexEnd(d, src, i + |WriteInner(inner)| + 1, false)
    decreases |inner|
  {
    hide StandsAt, Unbroken, WriteOne;
    if inner != [] {
      hide RegexEnd;
      UnbrokenParts(inner, "\\]\n");
      StandsInTwo(src, i, WriteOne(inner[0]), WriteInner(inner[1..]));
      StandsInside(src, i, WriteOne(inner[0]));
      ClassStep(d, src, i, inner[0]);
      ClassCloses(d, src, i + |WriteOne(inner[0])|, inner[1..]);
    }
  }

  lemma AtomRead(d: Dialect, src: string, i: nat, a: Atom)
    requires ProperAtom(a) && StandsAt(src, i, WriteAtom(a))
    ensures RegexEnd(d, src, i, false) == RegexEnd(d, src, i + |WriteAtom(a)|, false)
  {
    StandingCharacter(src, i, WriteAtom(a), 0);
    match a {
      case One(x) => assert x in [x];
      case Class(inner) =>
        QuotedTextStands(src, i, ['['], WriteInner(inner), [']']);
        ClassCloses(d, src, i + 1, inner);
    }
  }

  lemma {:induction false} RegexCloses(d: Dialect, src: string, i: nat, atoms: seq<Atom>)
    requires (forall a :: a in atoms ==> ProperAtom(a)) && StandsAt(src, i, WriteAtoms(atoms))
    requires At(src, i + |WriteAtoms(atoms)|, '/')
    ensures RegexEnd(d, src, i, false) == FlagsEnd(d, src, i + |WriteAtoms(atoms)| + 1)
    decreases |atoms|
  {
    hide StandsAt, ProperAtom, WriteAtom;
    if atoms != [] {
      StandsInTwo(src, i, WriteAtom(atoms[0]), WriteAtoms(atoms[1..]));
      StandsInside(src, i, WriteAtom(atoms[0]));
      AtomRead(d, src, i, atoms[0]);
      RegexCloses(d, src, i + |WriteAtom(atoms[0])|, atoms[1..]);
    }
  }

  lemma {:induction false} NameRead(d: Dialect, src: string, i: nat, s: string)
    requires StandsAt(src, i, s) && (forall c :: c in s ==> NameChar(d, c))
    requires !(i + |s| < |src| && NameChar(d, src[i + |s|]))
    ensures NameEnd(d, src, i) == i + |s|
    decreases |s|
  {
    if s != "" {
      StandingCharacter(src, i, s, 0);
      assert s[0] in s;
      assert s == [s[0]] + s[1..];
      StandsInTwo(src, i, [s[0]], s[1..]);
      NameRead(d, src, i + 1, s[1..]);
    }
  }

  lemma {:induction false} NumberRead(d: Dialect, src: string, i: nat, s: string)
    requires StandsAt(src, i, s) && (forall c :: c in s ==> NumberChar(d, c))
    requires !(i + |s| < |src| && NumberChar(d, src[i + |s|]))
    ensures NumberEnd(d, src, i) == i + |s|
    decreases |s|
  {
    if s != "" {
      StandingCharacter(src, i, s, 0);
      assert s[0] in s;
      assert s == [s[0]] + s[1..];
      StandsInTwo(src, i, [s[0]], s[1..]);
      NumberRead(d, src, i + 1, s[1..]);
    }
  }

  lemma LineCloses(src: string, i: nat, text: string)
    requires StandsAt(src, i, text) && '\n' !in text
    requires i + |text| == |src| || At(src, i + |text|, '\n')
    ensures LineEnd(src, i) == i + |text|
  {
    var end := LineEnd(src, i);
    forall k | i <= k < i + |text|
      ensures src[k] != '\n'
    {
      StandingCharacter(src, i, text, k - i);
    }
  }

  lemma {:induction false} BlockCloses(src: string, i: nat, text: string)
    requires StandsAt(src, i, text) && HasNoClose(text)
    requires At(src, i + |text|, '*') && At(src, i + |text| + 1, '/')
    ensures BlockClose(src, i) == i + |text|
    decreases |text|
  {
    if text != "" {
      StandingCharacter(src, i, text, 0);
      if |text| > 1 {
        StandingCharacter(src, i, text, 1);
      }
      assert text == [text[0]] + text[1..];
      StandsInTwo(src, i, [text[0]], text[1..]);
      assert forall k :: 0 <= k < |text[1..]| ==> text[1..][k] == text[k + 1];
      BlockCloses(src, i + 1, text[1..]);
    }
  }

  lemma {:induction false} TagCloses(src: string, i: nat, name: string)
    requires StandsAt(src, i, name) && '>' !in name && At(src, i + |name|, '>')
    ensures CloseTagEnd(src, i) == i + |name| + 1
    decreases |name|
  {
    if name != "" {
      StandingCharacter(src, i, name, 0);
      assert name == [name[0]] + name[1..];
      StandsInTwo(src, i, [name[0]], name[1..]);
      TagCloses(src, i + 1, name[1..]);
    }
  }

  // ----- one token at a time

  /** The token is one lexeme without code inside it. */
  predicate Simple(t: Token) {
    !t.Backquoted? && !t.Group? && !t.Markup?
  }

  lemma NoteRead(d: Dialect, src: string, i: nat, t: Token, depth: nat, regexAllowed: bool)
    requires Spells(d, src, i, t, regexAllowed) && (t.Blank? || t.LineNote? || t.BlockNote?)
    ensures i < i + LengthOf(t) <= |src|
    ensures CodeLexeme(d, src, i, depth, regexAllowed) == Lexeme(Lexed(i + LengthOf(t), NotesOf(t, i)), depth, regexAllowed)
  {
    match t {
      case Blank(_) =>
      case LineNote(text) => LineCloses(src, i + 2, text);
      case BlockNote(text) => BlockCloses(src, i + 2, text);
    }
  }

  lemma QuotedRead(d: Dialect, src: string, i: nat, t: Token, depth: nat, regexAllowed: bool)
    requires Spells(d, src, i, t, regexAllowed) && t.Quoted?
    ensures i < i + LengthOf(t) <= |src|
    ensures CodeLexeme(d, src, i, depth, regexAllowed) == Lexeme(Lexed(i + LengthOf(t), []), depth, false)
  {
    StringCloses(src, i + 1, t.quote, t.inner);
  }

  lemma RegexLexeme(d: Dialect, src: string, i: nat, depth: nat)
    requires At(src, i, '/') && !At(src, i + 1, '/') && !At(src, i + 1, '*') && !d.alpha('/') && !d.digit('/')
    ensures CodeLexeme(d, src, i, depth, true) == Lexeme(Lexed(RegexEnd(d, src, i + 1, false), []), depth, false)
  {
  }

  lemma PatternRead(d: Dialect, src: string, i: nat, t: Token, depth: nat, regexAllowed: bool)
    requires Spells(d, src, i, t, regexAllowed) && t.Pattern?
    ensures i < i + LengthOf(t) <= |src|
    ensures CodeLexeme(d, src, i, depth, regexAllowed) == Lexeme(Lexed(i + LengthOf(t), []), depth, false)
  {
    hide RegexEnd, FlagsEnd, CodeLexeme, StandsAt, WriteAtoms, ProperAtom;
    RegexLexeme(d, src, i, depth);
    RegexCloses(d, src, i + 1, t.atoms);
    FlagsRead(d, src, i + 2 + |WriteAtoms(t.atoms)|, t.flags);
    StandsInside(src, i + 2 + |WriteAtoms(t.atoms)|, t.flags);
  }

  lemma WordLexeme(d: Dialect, src: string, i: nat, depth: nat, regexAllowed: bool)
    requires i < |src| && Ordinary(src[i]) && (NameStart(d, src[i]) || d.digit(src[i]))
    ensures CodeLexeme(d, src, i, depth, regexAllowed) ==
            if NameStart(d, src[i]) then
              Lexeme(Lexed(NameEnd(d, src, i + 1), []), depth, src[i..NameEnd(d, src, i + 1)] in REGEX_PREFIX_KEYWORDS)
            else Lexeme(Lexed(NumberEnd(d, src, i + 1), []), depth, false)
  {
  }

  lemma NameTokenRead(d: Dialect, src: string, i: nat, s: string, depth: nat, regexAllowed: bool)
    requires Spells(d, src, i, Name(s), regexAllowed)
    ensures i < i + |s| <= |src|
    ensures CodeLexeme(d, src, i, depth, regexAllowed)
         == Lexeme(Lexed(i + |s|, []), depth, s in REGEX_PREFIX_KEYWORDS)
  {
    hide NameEnd, CodeLexeme, Ordinary, NameStart, NameChar;
    StandingCharacter(src, i, s, 0);
    WordLexeme(d, src, i, depth, regexAllowed);
    assert s == [s[0]] + s[1..];
    StandsInTwo(src, i, [s[0]], s[1..]);
    NameRead(d, src, i + 1, s[1..]);
  }

  lemma NumeralTokenRead(d: Dialect, src: string, i: nat, s: string, depth: nat, regexAllowed: bool)
    requires Spells(d, src, i, Numeral(s), regexAllowed)
    ensures i < i + |s| <= |src|
    ensures CodeLexeme(d, src, i, depth, regexAllowed) == Lexeme(Lexed(i + |s|, []), depth, false)
  {
    hide NumberEnd, CodeLexeme, Ordinary, NameStart, NumberChar;
    StandingCharacter(src, i, s, 0);
    WordLexeme(d, src, i, depth, regexAllowed);
    assert s == [s[0]] + s[1..];
    StandsInTwo(src, i, [s[0]], s[1..]);
    NumberRead(d, src, i + 1, s[1..]);
  }

  lemma SignRead(d: Dialect, src: string, i: nat, t: Token, depth: nat, regexAllowed: bool)
    requires Spells(d, src, i, t, regexAllowed) && (t.Sign? || t.Twice?)
    ensures i < i + LengthOf(t) <= |src|
    ensures CodeLexeme(d, src, i, depth, regexAllowed)
         == Lexeme(Lexed(i + LengthOf(t), []), depth, After(t, regexAllowed))
  {
  }

  lemma SimpleRead(d: Dialect, src: string, i: nat, t: Token, depth: nat, regexAllowed: bool)
    requires Spells(d, src, i, t, regexAllowed) && Simple(t)
    ensures i < i + LengthOf(t) <= |src| && src[i] != '}'
    ensures CodeLexeme(d, src, i, depth, regexAllowed)
         == Lexeme(Lexed(i + LengthOf(t), NotesOf(t, i)), depth, After(t, regexAllowed))
  {
    hide CodeLexeme;
    BeginsNoClose(d, src, i, t, regexAllowed);
    if t.Blank? || t.LineNote? || t.BlockNote? {
      NoteRead(d, src, i, t, depth, regexAllowed);
    } else if t.Quoted? {
      QuotedRead(d, src, i, t, depth, regexAllowed);
    } else if t.Pattern? {
      PatternRead(d, src, i, t, depth, regexAllowed);
    } else if t.Name? {
      NameTokenRead(d, src, i, t.s, depth, regexAllowed);
    } else if t.Numeral? {
      NumeralTokenRead(d, src, i, t.s, depth, regexAllowed);
    } else {
      SignRead(d, src, i, t, depth, regexAllowed);
    }
  }

  /** No token but a closing brace begins with one. */
  lemma BeginsNoClose(d: Dialect, src: string, i: nat, t: Token, regexAllowed: bool)
    requires Spells(d, src, i, t, regexAllowed)
    ensures i < |src| && src[i] != '}'
  {
    hide WriteInner, WriteAtoms, Unbroken, SpellsCode, SpellsTemplate, SpellsTag, SpellsChildren, HasNoClose;
    if t.Name? || t.Numeral? {
      StandingCharacter(src, i, t.s, 0);
    }
  }

  lemma CodeUnfolds(d: Dialect, src: string, i: nat, depth: nat, regexAllowed: bool, stop: bool)
    requires i < |src| && !(src[i] == '}' && stop && depth == 0)
    ensures var x := CodeLexeme(d, src, i, depth, regexAllowed);
            Code(d, src, i, depth, regexAllowed, stop)
            == Then(x.lexed, Code(d, src, x.lexed.end, x.depth, x.regexAllowed, stop))
  {
  }

  lemma BraceCloses(d: Dialect, src: string, i: nat, regexAllowed: bool)
    requires At(src, i, '}')
    ensures Code(d, src, i, 0, regexAllowed, true) == Lexed(i + 1, [])
  {
  }

  /** Lexing on from `i` first meets these marks, up to `j`. */
  function Meets(marks: seq<Mark>, r: Lexed): Lexed {
    Lexed(r.end, marks + r.marks)
  }

  lemma MeetsTwice(a: seq<Mark>, b: seq<Mark>, r: Lexed)
    ensures Meets(a, Meets(b, r)) == Meets(a + b, r)
  {
  }

  lemma BracesRead(d: Dialect, src: string, i: nat, depth: nat, regexAllowed: bool)
    requires At(src, i, '{') || At(src, i, '}')
    ensures CodeLexeme(d, src, i, depth, regexAllowed)
         == if src[i] == '{' then Lexeme(Lexed(i + 1, []), depth + 1, true)
            else Lexeme(Lexed(i + 1, []), if depth == 0 then 0 else depth - 1, false)
  {
  }

  /** A lexeme that leaves the depth as it is. */
  lemma LexemeRead(d: Dialect, src: string, i: nat, depth: nat, regexAllowed: bool, stop: bool, x: Lexeme)
    requires i < |src| && src[i] != '}' && CodeLexeme(d, src, i, depth, regexAllowed) == x && x.depth == depth
    ensures x.lexed.end <= |src|
    ensures Code(d, src, i, depth, regexAllowed, stop)
         == Meets(x.lexed.marks, Code(d, src, x.lexed.end, depth, x.regexAllowed, stop))
  {
    hide Code, CodeLexeme;
    CodeUnfolds(d, src, i, depth, regexAllowed, stop);
  }

  /** Braces around code that has been read. */
  lemma GroupRead(d: Dialect, src: string, i: nat, end: nat, marks: seq<Mark>, after: bool, depth: nat, regexAllowed: bool, stop: bool)
    requires At(src, i, '{') && i < end && At(src, end, '}')
    requires Code(d, src, i + 1, depth + 1, true, stop) == Meets(marks, Code(d, src, end, depth + 1, after, stop))
    ensures Code(d, src, i, depth, regexAllowed, stop) == Meets(marks, Code(d, src, end + 1, depth, false, stop))
  {
    hide Code, CodeLexeme;
    BracesRead(d, src, i, depth, regexAllowed);
    CodeUnfolds(d, src, i, depth, regexAllowed, stop);
    BracesRead(d, src, end, depth + 1, after);
    CodeUnfolds(d, src, end, depth + 1, after, stop);
  }

  /** Lexing goes over the token, meeting exactly its comments, and on with the code after it. */
  lemma {:induction false} TokenRead(d: Dialect, src: string, i: nat, t: Token, depth: nat, regexAllowed: bool, stop: bool)
    requires Spells(d, src, i, t, regexAllowed)
    ensures i < i + LengthOf(t) <= |src|
    ensures Code(d, src, i, depth, regexAllowed, stop)
         == Meets(NotesOf(t, i), Code(d, src, i + LengthOf(t), depth, After(t, regexAllowed), stop))
    decreases t, 1
  {
    hide Code, CodeLexeme, Spells, SpellsCode, LengthOf, NotesOf, CodeNotes, AfterCode, After;
    BeginsNoClose(d, src, i, t, regexAllowed);
    if t.Group? {
      GroupIsSpelled(d, src, i, t.code, regexAllowed);
      CodeRead(d, src, i + 1, t.code, depth + 1, true, stop);
      GroupTokenRead(d, src, i, t, depth, regexAllowed, stop);
    } else {
      LexemeOf(d, src, i, t, depth, regexAllowed);
      LexemeRead(d, src, i, depth, regexAllowed, stop,
                 Lexeme(Lexed(i + LengthOf(t), NotesOf(t, i)), depth, After(t, regexAllowed)));
    }
  }

  lemma GroupIsSpelled(d: Dialect, src: string, i: nat, code: CodeText, regexAllowed: bool)
    requires Spells(d, src, i, Group(code), regexAllowed)
    ensures i < |src| && SpellsCode(d, src, i + 1, code, true)
  {
    hide SpellsCode, CodeLength;
  }

  lemma GroupTokenRead(d: Dialect, src: string, i: nat, t: Token, depth: nat, regexAllowed: bool, stop: bool)
    requires Spells(d, src, i, t, regexAllowed) && t.Group? && i + 1 + CodeLength(t.code) <= |src|
    requires Code(d, src, i + 1, depth + 1, true, stop)
          == Meets(CodeNotes(t.code, i + 1), Code(d, src, i + 1 + CodeLength(t.code), depth + 1, AfterCode(t.code, true), stop))
    ensures i < i + LengthOf(t) <= |src|
    ensures Code(d, src, i, depth, regexAllowed, stop)
         == Meets(NotesOf(t, i), Code(d, src, i + LengthOf(t), depth, After(t, regexAllowed), stop))
  {
    hide Code, SpellsCode, CodeLength, CodeNotes, AfterCode, Meets;
    GroupRead(d, src, i, i + 1 + CodeLength(t.code), CodeNotes(t.code, i + 1), AfterCode(t.code, true), depth, regexAllowed, stop);
  }

  lemma {:induction false} LexemeOf(d: Dialect, src: string, i: nat, t: Token, depth: nat, regexAllowed: bool)
    requires Spells(d, src, i, t, regexAllowed) && !t.Group?
    ensures i < i + LengthOf(t) <= |src|
    ensures CodeLexeme(d, src, i, depth, regexAllowed)
         == Lexeme(Lexed(i + LengthOf(t), NotesOf(t, i)), depth, After(t, regexAllowed))
    decreases t, 0
  {
    hide CodeLexeme, Template, Element, WriteInner, WriteAtoms, Unbroken, SpellsTemplate, HasNoClose;
    match t {
      case Backquoted(body) =>
        TemplateRead(d, src, i + 1, body);
        TemplateLexeme(d, src, i, depth, regexAllowed);
      case Markup(element) =>
        JsxBegins(d, src, i, element);
        JsxRead(d, src, i, element);
        ElementLexeme(d, src, i, depth, regexAllowed);
      case _ => SimpleRead(d, src, i, t, depth, regexAllowed);
    }
  }

  lemma TemplateLexeme(d: Dialect, src: string, i: nat, depth: nat, regexAllowed: bool)
    requires At(src, i, '`')
    ensures CodeLexeme(d, src, i, depth, regexAllowed) == Lexeme(Template(d, src, i + 1), depth, false)
  {
  }

  lemma ElementLexeme(d: Dialect, src: string, i: nat, depth: nat, regexAllowed: bool)
    requires At(src, i, '<') && regexAllowed && !d.alpha('<') && !d.digit('<') && BeginsElement(d, src, i)
    ensures CodeLexeme(d, src, i, depth, regexAllowed) == Lexeme(Element(d, src, i), depth, false)
  {
  }

  lemma {:induction false} CodeRead(d: Dialect, src: string, i: nat, code: CodeText, depth: nat, regexAllowed: bool, stop: bool)
    requires SpellsCode(d, src, i, code, regexAllowed) && i <= |src|
    ensures i + CodeLength(code) <= |src|
    ensures Code(d, src, i, depth, regexAllowed, stop)
         == Meets(CodeNotes(code, i), Code(d, src, i + CodeLength(code), depth, AfterCode(code, regexAllowed), stop))
    decreases code, 0
  {
    hide Code, Spells, LengthOf, NotesOf, After;
    match code {
      case Stop =>
      case Next(t, rest) =>
        TokenRead(d, src, i, t, depth, regexAllowed, stop);
        CodeRead(d, src, i + LengthOf(t), rest, depth, After(t, regexAllowed), stop);
        MeetsTwice(NotesOf(t, i), CodeNotes(rest, i + LengthOf(t)),
                   Code(d, src, i + CodeLength(code), depth, AfterCode(code, regexAllowed), stop));
    }
  }

  /** Code in braces, where the lexer stops at the closing one. */
  lemma {:induction false} HoleRead(d: Dialect, src: string, i: nat, code: CodeText)
    requires SpellsCode(d, src, i, code, true) && At(src, i + CodeLength(code), '}')
    ensures Code(d, src, i, 0, true, true) == Lexed(i + CodeLength(code) + 1, CodeNotes(code, i))
    decreases code, 1
  {
    hide Code, SpellsCode;
    CodeRead(d, src, i, code, 0, true, true);
    BraceCloses(d, src, i + CodeLength(code), AfterCode(code, true));
  }

  lemma TemplateSteps(d: Dialect, src: string, i: nat)
    requires i < |src|
    ensures src[i] == '\\' ==> Template(d, src, i) == Template(d, src, JsLexer.Min(i + 2, |src|))
    ensures src[i] == '`' ==> Template(d, src, i) == Lexed(i + 1, [])
    ensures src[i] == '$' && At(src, i + 1, '{') ==>
              var code := Code(d, src, i + 2, 0, true, true);
              Template(d, src, i) == Then(code, Template(d, src, code.end))
    ensures src[i] != '\\' && src[i] != '`' && !(src[i] == '$' && At(src, i + 1, '{')) ==>
              Template(d, src, i) == Template(d, src, i + 1)
  {
  }

  lemma LiteralRead(d: Dialect, src: string, i: nat, x: Inner, rest: TemplateText)
    requires SpellsTemplate(d, src, i, Literal(x, rest))
    ensures i + |WriteOne(x)| <= |src| && SpellsTemplate(d, src, i + |WriteOne(x)|, rest)
    ensures Template(d, src, i) == Template(d, src, i + |WriteOne(x)|)
  {
    hide Template, StandsAt;
    StandingCharacter(src, i, WriteOne(x), 0);
    StandsInside(src, i, WriteOne(x));
    assert x in [x];
    TemplateSteps(d, src, i);
  }

  lemma TemplateHoleIsSpelled(d: Dialect, src: string, i: nat, code: CodeText, rest: TemplateText)
    requires SpellsTemplate(d, src, i, Hole(code, rest))
    ensures At(src, i, '$') && At(src, i + 1, '{') && SpellsCode(d, src, i + 2, code, true)
    ensures At(src, i + 2 + CodeLength(code), '}') && SpellsTemplate(d, src, i + 2 + CodeLength(code) + 1, rest)
  {
    hide SpellsCode, CodeLength;
  }

  /** A template ends at its own backquote, having met the comments of its code. */
  lemma {:induction false} TemplateRead(d: Dialect, src: string, i: nat, body: TemplateText)
    requires SpellsTemplate(d, src, i, body)
    ensures i + TemplateLength(body) <= |src|
    ensures Template(d, src, i) == Lexed(i + TemplateLength(body), TemplateNotes(body, i))
    decreases body
  {
    hide Code, Template, SpellsTemplate, SpellsCode, CodeLength, CodeNotes;
    match body {
      case Backquote =>
        TemplateEnds(d, src, i);
      case Literal(x, rest) =>
        LiteralRead(d, src, i, x, rest);
        TemplateRead(d, src, i + |WriteOne(x)|, rest);
      case Hole(code, rest) =>
        TemplateHoleIsSpelled(d, src, i, code, rest);
        TemplateSteps(d, src, i);
        HoleRead(d, src, i + 2, code);
        TemplateRead(d, src, i + 2 + CodeLength(code) + 1, rest);
    }
  }

  lemma TemplateEnds(d: Dialect, src: string, i: nat)
    requires SpellsTemplate(d, src, i, Backquote)
    ensures i < |src| && Template(d, src, i) == Lexed(i + 1, [])
  {
  }

  lemma TagSteps(d: Dialect, src: string, i: nat)
    requires i < |src| && !(src[i] == '/' && At(src, i + 1, '>'))
    ensures src[i] == '>' ==> Tag(d, src, i) == (Lexed(i + 1, []), false)
    ensures src[i] == '\'' || src[i] == '"' ==> Tag(d, src, i) == Tag(d, src, StringEnd(src, i + 1, src[i]))
    ensures src[i] == '{' ==>
              var code := Code(d, src, i + 1, 0, true, true);
              Tag(d, src, i) == (Then(code, Tag(d, src, code.end).0), Tag(d, src, code.end).1)
    ensures src[i] !in "'\"{>" ==> Tag(d, src, i) == Tag(d, src, i + 1)
  {
  }

  lemma TagIsSpelled(d: Dialect, src: string, i: nat, tag: TagText)
    requires SpellsTag(d, src, i, tag)
    ensures match tag
            case TagEnd => true
            case Attribute(c, rest) =>
              At(src, i, c) && c !in "\"'{>" && (c == '/' ==> !At(src, i + 1, '>')) && SpellsTag(d, src, i + 1, rest)
            case Value(quote, inner, rest) =>
              SpellsQuoted(src, i, quote, inner) && SpellsTag(d, src, i + 2 + |WriteInner(inner)|, rest)
            case TagHole(code, rest) =>
              && At(src, i, '{') && SpellsCode(d, src, i + 1, code, true) && At(src, i + 1 + CodeLength(code), '}')
              && SpellsTag(d, src, i + 1 + CodeLength(code) + 1, rest)
  {
    hide SpellsQuoted, SpellsCode, CodeLength, WriteInner;
  }

  /** A tag ends at its `>`, or at its `/>` and then closes itself. */
  predicate TagEndsAt(d: Dialect, src: string, i: nat, marks: seq<Mark>, end: nat)
    requires i <= |src|
  {
    && (At(src, end, '>') ==> Tag(d, src, i) == (Lexed(end + 1, marks), false))
    && (At(src, end, '/') && At(src, end + 1, '>') ==> Tag(d, src, i) == (Lexed(end + 2, marks), true))
  }

  lemma TagReachesItsEnd(d: Dialect, src: string, i: nat)
    requires i <= |src|
    ensures TagEndsAt(d, src, i, [], i)
  {
    if i < |src| && src[i] == '>' {
      TagSteps(d, src, i);
    }
  }

  lemma TagGoesOn(d: Dialect, src: string, i: nat, code: Lexed, marks: seq<Mark>, end: nat)
    requires At(src, i, '{') && code == Code(d, src, i + 1, 0, true, true) && TagEndsAt(d, src, code.end, marks, end)
    ensures TagEndsAt(d, src, i, code.marks + marks, end)
  {
    hide Tag, Code;
    TagSteps(d, src, i);
  }

  lemma {:induction false} TagRead(d: Dialect, src: string, i: nat, tag: TagText)
    requires SpellsTag(d, src, i, tag) && i <= |src|
    ensures TagEndsAt(d, src, i, TagNotes(tag, i), i + TagLength(tag))
    decreases tag
  {
    hide Code, Tag, SpellsTag, SpellsCode, SpellsQuoted, WriteInner, CodeLength, CodeNotes, TagEndsAt;
    TagIsSpelled(d, src, i, tag);
    match tag {
      case TagEnd =>
        TagReachesItsEnd(d, src, i);
      case Attribute(_, rest) =>
        TagSteps(d, src, i);
        TagRead(d, src, i + 1, rest);
        SameTag(d, src, i, i + 1, TagNotes(rest, i + 1), i + TagLength(tag));
      case Value(quote, inner, rest) =>
        ValueRead(d, src, i, quote, inner);
        var next := i + 2 + |WriteInner(inner)|;
        TagRead(d, src, next, rest);
        SameTag(d, src, i, next, TagNotes(rest, next), i + TagLength(tag));
      case TagHole(code, rest) =>
        HoleRead(d, src, i + 1, code);
        var next := i + 1 + CodeLength(code) + 1;
        TagRead(d, src, next, rest);
        TagGoesOn(d, src, i, Lexed(next, CodeNotes(code, i + 1)), TagNotes(rest, next), i + TagLength(tag));
    }
  }

  lemma SameTag(d: Dialect, src: string, i: nat, j: nat, marks: seq<Mark>, end: nat)
    requires i <= |src| && j <= |src| && Tag(d, src, i) == Tag(d, src, j) && TagEndsAt(d, src, j, marks, end)
    ensures TagEndsAt(d, src, i, marks, end)
  {
    hide Tag;
  }

  lemma ValueRead(d: Dialect, src: string, i: nat, quote: char, inner: seq<Inner>)
    requires SpellsQuoted(src, i, quote, inner)
    ensures i + 2 + |WriteInner(inner)| <= |src|
    ensures Tag(d, src, i) == Tag(d, src, i + 2 + |WriteInner(inner)|)
  {
    hide Tag, StringEnd, WriteInner, StandsAt, Unbroken;
    StringCloses(src, i + 1, quote, inner);
    TagSteps(d, src, i);
  }

  /** An element ends with its own tag, or with the closing tag after its children. */
  lemma {:induction false} JsxRead(d: Dialect, src: string, i: nat, e: JsxText)
    requires SpellsJsx(d, src, i, e)
    ensures i + JsxLength(e) <= |src|
    ensures Element(d, src, i) == Lexed(i + JsxLength(e), JsxNotes(e, i))
    decreases e
  {
    hide Tag, Children, SpellsTag, SpellsChildren;
    TagRead(d, src, i + 1, e.tag);
    if e.Paired? {
      ChildrenRead(d, src, i + 1 + TagLength(e.tag) + 1, e.children);
    }
  }

  lemma ChildrenAreSpelled(d: Dialect, src: string, i: nat, children: ChildText)
    requires SpellsChildren(d, src, i, children)
    ensures i < |src|
    ensures match children
            case Closing(name) => Children(d, src, i) == Lexed(i + 2 + |name| + 1, []) && i + 2 + |name| + 1 <= |src|
            case Prose(_, rest) => Children(d, src, i) == Children(d, src, i + 1) && SpellsChildren(d, src, i + 1, rest)
            case Child(element, rest) =>
              && SpellsJsx(d, src, i, element) && SpellsChildren(d, src, i + JsxLength(element), rest)
              && var child := Element(d, src, i); Children(d, src, i) == Then(child, Children(d, src, child.end))
            case ChildHole(code, rest) =>
              && SpellsCode(d, src, i + 1, code, true) && At(src, i + 1 + CodeLength(code), '}')
              && SpellsChildren(d, src, i + 1 + CodeLength(code) + 1, rest)
              && var hole := Code(d, src, i + 1, 0, true, true); Children(d, src, i) == Then(hole, Children(d, src, hole.end))
  {
    hide SpellsJsx, SpellsCode, CodeLength, JsxLength, Code, Element, CloseTagEnd;
    match children {
      case Closing(name) => TagCloses(src, i + 2, name);
      case Child(element, _) => JsxBegins(d, src, i, element);
      case _ =>
    }
  }

  lemma {:induction false} ChildrenRead(d: Dialect, src: string, i: nat, children: ChildText)
    requires SpellsChildren(d, src, i, children)
    ensures i + ChildLength(children) <= |src|
    ensures Children(d, src, i) == Lexed(i + ChildLength(children), ChildNotes(children, i))
    decreases children
  {
    hide Code, Element, Children, SpellsChildren, SpellsCode, SpellsJsx, CodeLength, JsxLength, CodeNotes, JsxNotes;
    ChildrenAreSpelled(d, src, i, children);
    match children {
      case Closing(_) =>
      case Prose(_, rest) => ChildrenRead(d, src, i + 1, rest);
      case Child(element, rest) =>
        JsxRead(d, src, i, element);
        ChildrenRead(d, src, i + JsxLength(element), rest);
      case ChildHole(code, rest) =>
        HoleRead(d, src, i + 1, code);
        ChildrenRead(d, src, i + 1 + CodeLength(code) + 1, rest);
    }
  }

  lemma JsxBegins(d: Dialect, src: string, i: nat, e: JsxText)
    requires SpellsJsx(d, src, i, e)
    ensures At(src, i, '<')
  {
  }

  /**
   * Which comments must be reported: lexing a source that a tree spells reports exactly the comments of the tree, in
   * order. Nothing in a string, in the text of a template or of an element, or in a regular expression is reported, and
   * no comment of the code around or inside them is missed.
   */
  lemma ExactlyTheCommentsAreReported(d: Dialect, src: string, code: CodeText)
    requires SpellsCode(d, src, 0, code, true) && CodeLength(code) == |src|
    ensures Code(d, src, 0, 0, true, false) == Lexed(|src|, CodeNotes(code, 0))
  {
    CodeRead(d, src, 0, code, 0, true, false);
  }
}
