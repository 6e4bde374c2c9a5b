/**
 * The JavaScript comment lexer as functions of the source: where code, templates, JSX tags and elements end, and which
 * comments they hold.
 */
module JsLexer {
  import opened Text
  import opened SourceLines

  /** The dialect, how characters are classified, and the lookahead's answer to "is this `<` a generic arrow". */
  datatype Dialect = Dialect(
    jsx: bool, typescript: bool, alpha: char -> bool, alnum: char -> bool, digit: char -> bool, arrow: nat -> bool)

  /** A comment of the source: where it opens, where it has been consumed, and whether it is a block. */
  datatype Mark = Mark(start: nat, end: nat, block: bool)

  /** Where a construct ends, and the comments inside it. */
  datatype Lexed = Lexed(end: nat, marks: seq<Mark>)

  const REGEX_PREFIX_KEYWORDS := {
    "await", "case", "delete", "do", "else", "in", "instanceof", "new", "of", "return", "throw", "typeof", "void", "yield"}

  function Min(a: nat, b: nat): nat { if a <= b then a else b }

  // ----- constructs without comments

  /** Past the string that opened before `i`: at its closing quote, or at the raw newline that ends a broken one. */
  function StringEnd(src: string, i: nat, quote: char): (j: nat)
    requires i <= |src|
    ensures i <= j <= |src|
    decreases |src| - i
  {
    if i == |src| then i
    else if src[i] == '\\' then StringEnd(src, Min(i + 2, |src|), quote)
    else if src[i] == quote || src[i] == '\n' then i + 1
    else StringEnd(src, i + 1, quote)
  }

  function FlagsEnd(d: Dialect, src: string, i: nat): (j: nat)
    requires i <= |src|
    ensures i <= j <= |src|
    decreases |src| - i
  {
    if i < |src| && d.alpha(src[i]) then FlagsEnd(d, src, i + 1) else i
  }

  /** Past the regular expression literal that opened before `i`; a newline stops it and is not consumed. */
  function RegexEnd(d: Dialect, src: string, i: nat, inClass: bool): (j: nat)
    requires i <= |src|
    ensures i <= j <= |src|
    decreases |src| - i
  {
    if i == |src| || (src[i] == '\n') then i
    else if src[i] == '\\' then RegexEnd(d, src, Min(i + 2, |src|), inClass)
    else if src[i] == '[' then RegexEnd(d, src, i + 1, true)
    else if src[i] == ']' then RegexEnd(d, src, i + 1, false)
    else if src[i] == '/' && !inClass then FlagsEnd(d, src, i + 1)
    else RegexEnd(d, src, i + 1, inClass)
  }

  function NameEnd(d: Dialect, src: string, i: nat): (j: nat)
    requires i <= |src|
    ensures i <= j <= |src|
    decreases |src| - i
  {
    if i < |src| && (d.alnum(src[i]) || src[i] == '_' || src[i] == '$') then NameEnd(d, src, i + 1) else i
  }

  function NumberEnd(d: Dialect, src: string, i: nat): (j: nat)
    requires i <= |src|
    ensures i <= j <= |src|
    decreases |src| - i
  {
    if i < |src| && (d.alnum(src[i]) || src[i] == '_' || src[i] == '.') then NumberEnd(d, src, i + 1) else i
  }

  /** Where the `*` `/` that closes a block comment stands, or the end of the source. */
  function BlockClose(src: string, i: nat): (j: nat)
    requires i <= |src|
    ensures i <= j <= |src|
    ensures j < |src| ==> j + 2 <= |src|
    decreases |src| - i
  {
    if i == |src| || (src[i] == '*' && At(src, i + 1, '/')) then i else BlockClose(src, i + 1)
  }

  function BlockEnd(src: string, i: nat): (j: nat)
    requires i <= |src|
    ensures i <= j <= |src|
  {
    var close := BlockClose(src, i);
    if close < |src| then close + 2 else close
  }

  /** Past the `>` of a closing tag, or the end of the source. */
  function CloseTagEnd(src: string, i: nat): (j: nat)
    requires i <= |src|
    ensures i <= j <= |src|
    decreases |src| - i
  {
    if i == |src| then i else if src[i] == '>' then i + 1 else CloseTagEnd(src, i + 1)
  }

  predicate LooksLikeJsx(d: Dialect, src: string, i: nat) {
    i + 1 < |src| && (src[i + 1] == '>' || d.alpha(src[i + 1]))
  }

  // ----- comments

  predicate Opens(src: string, i: nat, second: char) {
    At(src, i, '/') && At(src, i + 1, second)
  }

  function LineMark(src: string, i: nat): Mark
    requires Opens(src, i, '/')
  {
    Mark(i, LineEnd(src, i + 2), false)
  }

  function BlockMark(src: string, i: nat): Mark
    requires Opens(src, i, '*')
  {
    Mark(i, BlockEnd(src, i + 2), true)
  }

  /** The mark is that of a comment of the source. */
  predicate Genuine(src: string, m: Mark) {
    if m.block then Opens(src, m.start, '*') && m == BlockMark(src, m.start)
    else Opens(src, m.start, '/') && m == LineMark(src, m.start)
  }

  /** Genuine comments of the stretch from `i` to `end`, in order and apart. */
  ghost predicate MarksIn(src: string, i: nat, end: nat, marks: seq<Mark>) {
    && (forall k :: 0 <= k < |marks| ==> Genuine(src, marks[k]) && i <= marks[k].start && marks[k].end <= end)
    && (forall j, k :: 0 <= j < k < |marks| ==> marks[j].end <= marks[k].start)
  }

  ghost predicate LexedOk(src: string, i: nat, r: Lexed) {
    i <= r.end <= |src| && MarksIn(src, i, r.end, r.marks)
  }

  /** Two stretches, one after the other. */
  function Then(a: Lexed, b: Lexed): Lexed {
    Lexed(b.end, a.marks + b.marks)
  }

  lemma ThenOk(src: string, i: nat, a: Lexed, b: Lexed)
    requires LexedOk(src, i, a) && LexedOk(src, a.end, b)
    ensures LexedOk(src, i, Then(a, b))
  {
  }

  // ----- constructs with comments

  /** One lexeme of code at `i`, which is not a closing brace that stops it: what it consumes, and what it leaves. */
  datatype Lexeme = Lexeme(lexed: Lexed, depth: nat, regexAllowed: bool)

  function CodeLexeme(d: Dialect, src: string, i: nat, depth: nat, regexAllowed: bool): (r: Lexeme)
    requires i < |src|
    ensures i < r.lexed.end <= |src| && MarksIn(src, i, r.lexed.end, r.lexed.marks)
    decreases |src| - i, 2
  {
    var c := src[i];
    if IsSpace(c) then Lexeme(Lexed(i + 1, []), depth, regexAllowed)
    else if Opens(src, i, '/') then Lexeme(Lexed(LineEnd(src, i + 2), [LineMark(src, i)]), depth, regexAllowed)
    else if Opens(src, i, '*') then Lexeme(Lexed(BlockEnd(src, i + 2), [BlockMark(src, i)]), depth, regexAllowed)
    else if c == '"' || c == '\'' then Lexeme(Lexed(StringEnd(src, i + 1, c), []), depth, false)
    else if c == '`' then Lexeme(Template(d, src, i + 1), depth, false)
    else if c == '{' then Lexeme(Lexed(i + 1, []), depth + 1, true)
    else if c == '}' then Lexeme(Lexed(i + 1, []), if depth == 0 then 0 else depth - 1, false)
    else if d.alpha(c) || c == '_' || c == '$' then
      var end := NameEnd(d, src, i + 1);
      Lexeme(Lexed(end, []), depth, src[i..end] in REGEX_PREFIX_KEYWORDS)
    else if d.digit(c) then Lexeme(Lexed(NumberEnd(d, src, i + 1), []), depth, false)
    else if (c == '+' && At(src, i + 1, '+')) || (c == '-' && At(src, i + 1, '-')) then
      Lexeme(Lexed(i + 2, []), depth, regexAllowed)
    else if d.jsx && regexAllowed && c == '<' && LooksLikeJsx(d, src, i) && !(d.typescript && d.arrow(i)) then
      Lexeme(Element(d, src, i), depth, false)
    else if c == '/' && regexAllowed then Lexeme(Lexed(RegexEnd(d, src, i + 1, false), []), depth, false)
    else
      Lexeme(Lexed(i + 1, []), depth,
             if c == ')' || c == ']' || c == '.' then false else if c != '!' then true else regexAllowed)
  }

  function Code(d: Dialect, src: string, i: nat, depth: nat, regexAllowed: bool, stop: bool): (r: Lexed)
    requires i <= |src|
    ensures LexedOk(src, i, r)
    ensures !stop ==> r.end == |src|
    decreases |src| - i, 3
  {
    if i == |src| then Lexed(i, [])
    else if src[i] == '}' && stop && depth == 0 then Lexed(i + 1, [])
    else
      var x := CodeLexeme(d, src, i, depth, regexAllowed);
      var rest := Code(d, src, x.lexed.end, x.depth, x.regexAllowed, stop);
      ThenOk(src, i, x.lexed, rest);
      Then(x.lexed, rest)
  }

  function Template(d: Dialect, src: string, i: nat): (r: Lexed)
    requires i <= |src|
    ensures LexedOk(src, i, r)
    decreases |src| - i, 2
  {
    if i == |src| then Lexed(i, [])
    else if src[i] == '\\' then Template(d, src, Min(i + 2, |src|))
    else if src[i] == '`' then Lexed(i + 1, [])
    else if src[i] == '$' && At(src, i + 1, '{') then
      var code := Code(d, src, i + 2, 0, true, true);
      var rest := Template(d, src, code.end);
      ThenOk(src, i + 2, code, rest);
      Then(code, rest)
    else Template(d, src, i + 1)
  }

  /** The rest of an opening tag, and whether it closes itself. */
  function Tag(d: Dialect, src: string, i: nat): (r: (Lexed, bool))
    requires i <= |src|
    ensures LexedOk(src, i, r.0)
    decreases |src| - i, 2
  {
    if i == |src| then (Lexed(i, []), false)
    else if src[i] == '/' && At(src, i + 1, '>') then (Lexed(i + 2, []), true)
    else if src[i] == '"' || src[i] == '\'' then Tag(d, src, StringEnd(src, i + 1, src[i]))
    else if src[i] == '{' then
      var code := Code(d, src, i + 1, 0, true, true);
      var (rest, closed) := Tag(d, src, code.end);
      ThenOk(src, i + 1, code, rest);
      (Then(code, rest), closed)
    else if src[i] == '>' then (Lexed(i + 1, []), false)
    else Tag(d, src, i + 1)
  }

  function Element(d: Dialect, src: string, i: nat): (r: Lexed)
    requires i < |src|
    ensures LexedOk(src, i, r) && r.end > i
    decreases |src| - i, 1
  {
    var (tag, closed) := Tag(d, src, i + 1);
    if closed then tag
    else
      var rest := Children(d, src, tag.end);
      ThenOk(src, i + 1, tag, rest);
      Then(tag, rest)
  }

  function Children(d: Dialect, src: string, i: nat): (r: Lexed)
    requires i <= |src|
    ensures LexedOk(src, i, r)
    decreases |src| - i, 2
  {
    if i == |src| then Lexed(i, [])
    else if src[i] == '<' && At(src, i + 1, '/') then Lexed(CloseTagEnd(src, i + 2), [])
    else if src[i] == '<' && LooksLikeJsx(d, src, i) then
      var child := Element(d, src, i);
      var rest := Children(d, src, child.end);
      ThenOk(src, i, child, rest);
      Then(child, rest)
    else if src[i] == '{' then
      var code := Code(d, src, i + 1, 0, true, true);
      var rest := Children(d, src, code.end);
      ThenOk(src, i + 1, code, rest);
      Then(code, rest)
    else Children(d, src, i + 1)
  }
}
