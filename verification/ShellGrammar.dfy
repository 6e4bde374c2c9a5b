/**
 * Which comments the shell lexer must report: shell text as a tree of words, quotes, expansions and here-documents, and
 * the proof that scanning text a tree spells reports exactly the comments of the tree, however deep they stand.
 */
module ShellGrammar {
  import opened Prelude
  import Text
  import opened SourceLines
  import opened ShellLexer
  import opened ShellProofs
  import opened HeredocWords
  import opened Heredocs

  datatype ShellText = Done | More(x: Lexeme, rest: ShellText)

  /** A lexeme of active shell text. */
  datatype Lexeme =
    | Note(length: nat)
    | Backslashed(length: nat)
    | LineBreak(skipped: nat)
    | SingleQuote(length: nat)
    | DoubleQuote(text: DoubleText)
    | AnsiQuote(length: nat)
    | Backquote(code: ShellText)
    | Expanded(x: Expansion)
    | Compute(code: ShellText)
    | Operator(length: nat, pieces: seq<Piece>)
    | Flat(length: nat)

  datatype Expansion =
    | CommandOf(code: ShellText)
    | ArithmeticOf(text: InertText)
    | ParameterOf(text: InertText)

  /** Text inside double quotes. */
  datatype DoubleText =
    | DoubleEnd
    | DoublePlain(length: nat, rest: DoubleText)
    | DoubleBackquote(code: ShellText, rest: DoubleText)
    | DoubleExpansion(x: Expansion, rest: DoubleText)

  /** Text inside a parameter or arithmetic expansion. */
  datatype InertText =
    | InertEnd
    | InertPlain(length: nat, rest: InertText)
    | InertSingle(length: nat, rest: InertText)
    | InertAnsi(length: nat, rest: InertText)
    | InertDouble(text: DoubleText, rest: InertText)
    | InertExpansion(x: Expansion, rest: InertText)

  // ----- lengths and comments of a tree

  function LengthOf(x: Lexeme): nat {
    match x
    case Note(n) => 1 + n
    case Backslashed(n) => n
    case LineBreak(skipped) => 1 + skipped
    case SingleQuote(n) => 2 + n
    case DoubleQuote(text) => 2 + DoubleLength(text)
    case AnsiQuote(n) => 3 + n
    case Backquote(code) => 2 + TextLength(code)
    case Expanded(x) => ExpansionLength(x)
    case Compute(code) => 4 + TextLength(code)
    case Operator(n, _) => n
    case Flat(n) => n
  }

  function TextLength(t: ShellText): nat {
    match t
    case Done => 0
    case More(x, rest) => LengthOf(x) + TextLength(rest)
  }

  function ExpansionLength(x: Expansion): nat {
    match x
    case CommandOf(code) => 3 + TextLength(code)
    case ArithmeticOf(text) => 5 + InertLength(text)
    case ParameterOf(text) => 3 + InertLength(text)
  }

  function DoubleLength(t: DoubleText): nat {
    match t
    case DoubleEnd => 0
    case DoublePlain(n, rest) => n + DoubleLength(rest)
    case DoubleBackquote(code, rest) => 2 + TextLength(code) + DoubleLength(rest)
    case DoubleExpansion(x, rest) => ExpansionLength(x) + DoubleLength(rest)
  }

  function InertLength(t: InertText): nat {
    match t
    case InertEnd => 0
    case InertPlain(n, rest) => n + InertLength(rest)
    case InertSingle(n, rest) => 2 + n + InertLength(rest)
    case InertAnsi(n, rest) => 3 + n + InertLength(rest)
    case InertDouble(text, rest) => 2 + DoubleLength(text) + InertLength(rest)
    case InertExpansion(x, rest) => ExpansionLength(x) + InertLength(rest)
  }

  /** Where the comments of a lexeme that stands at `i` begin. */
  function NotesOf(x: Lexeme, i: nat): seq<nat> {
    match x
    case Note(_) => [i]
    case DoubleQuote(text) => DoubleNotes(text, i + 1)
    case Backquote(code) => TextNotes(code, i + 1)
    case Expanded(x) => ExpansionNotes(x, i)
    case Compute(code) => TextNotes(code, i + 2)
    case _ => []
  }

  function TextNotes(t: ShellText, i: nat): seq<nat> {
    match t
    case Done => []
    case More(x, rest) => NotesOf(x, i) + TextNotes(rest, i + LengthOf(x))
  }

  function ExpansionNotes(x: Expansion, i: nat): seq<nat> {
    match x
    case CommandOf(code) => TextNotes(code, i + 2)
    case ArithmeticOf(text) => InertNotes(text, i + 3)
    case ParameterOf(text) => InertNotes(text, i + 2)
  }

  function DoubleNotes(t: DoubleText, i: nat): seq<nat> {
    match t
    case DoubleEnd => []
    case DoublePlain(n, rest) => DoubleNotes(rest, i + n)
    case DoubleBackquote(code, rest) => TextNotes(code, i + 1) + DoubleNotes(rest, i + 2 + TextLength(code))
    case DoubleExpansion(x, rest) => ExpansionNotes(x, i) + DoubleNotes(rest, i + ExpansionLength(x))
  }

  function InertNotes(t: InertText, i: nat): seq<nat> {
    match t
    case InertEnd => []
    case InertPlain(n, rest) => InertNotes(rest, i + n)
    case InertSingle(n, rest) => InertNotes(rest, i + 2 + n)
    case InertAnsi(n, rest) => InertNotes(rest, i + 3 + n)
    case InertDouble(text, rest) => DoubleNotes(text, i + 1) + InertNotes(rest, i + 2 + DoubleLength(text))
    case InertExpansion(x, rest) => ExpansionNotes(x, i) + InertNotes(rest, i + ExpansionLength(x))
  }

  // ----- lexer states

  predicate Sound(l: Lexer) {
    l.index <= |l.src| && FramesOk(l.frames)
  }

  predicate Inert(f: Frame) { f.kind == Parameter || f.kind == Arithmetic }

  /** The lexer has gone on in the same frame. */
  ghost predicate Stays(l: Lexer, r: Lexer) {
    && Sound(r) && r.src == l.src && r.abc == l.abc && l.index <= r.index
    && r.line == l.line + Newlines(l.src, l.index, r.index)
    && |r.frames| == |l.frames| >= 1
    && r.frames[..|r.frames| - 1] == l.frames[..|l.frames| - 1]
    && Top(r).kind == Top(l).kind
  }

  lemma StaysOn(l: Lexer, m: Lexer, r: Lexer)
    requires Sound(l) && Stays(l, m) && Stays(m, r)
    ensures Stays(l, r)
  {
    NewlinesAdd(l.src, l.index, m.index, r.index);
  }

  /** The lexer inside a frame it has just opened. */
  function Inside(l: Lexer, f: Frame, kind: FrameKind, depth: int, width: nat): (r: Lexer)
    requires Sound(l) && l.index + width <= |l.src| && f.kind == Top(l).kind && FrameOk(f)
    requires kind != Code && FrameOk(NewFrame(kind, depth))
    ensures Sound(r) && Top(r) == NewFrame(kind, depth) && r.index == l.index + width && r.src == l.src
    ensures |r.frames| == |l.frames| + 1
  {
    Move(Push(SetTop(l, f), kind, depth), l.index + width)
  }

  /** The lexer back in the frame below, once what closes the top one has been passed. */
  function Outside(m: Lexer, width: nat, replacement: char): Lexer
    requires Sound(m) && m.index + width <= |m.src| && |m.frames| >= 2
  {
    CloseFrame(Move(m, m.index + width), replacement)
  }

  lemma OutsideStays(l: Lexer, f: Frame, kind: FrameKind, depth: int, open: nat, m: Lexer, close: nat, replacement: char)
    requires Sound(l) && l.index + open <= |l.src| && f.kind == Top(l).kind && FrameOk(f)
    requires kind != Code && FrameOk(NewFrame(kind, depth))
    requires Stays(Inside(l, f, kind, depth, open), m) && m.index + close <= |m.src|
    ensures |m.frames| >= 2
    ensures var r := Outside(m, close, replacement);
            Stays(l, r) && Top(r) == f.(previous := Some(replacement)) && r.comments == m.comments && r.pending == m.pending
  {
    var p := Inside(l, f, kind, depth, open);
    NewlinesAdd(l.src, l.index, p.index, m.index);
    NewlinesAdd(l.src, l.index, m.index, m.index + close);
    assert p.frames[..|p.frames| - 1] == SetTop(l, f).frames;
    assert m.frames[..|m.frames| - 1] == SetTop(l, f).frames;
  }

  // ----- where a lexeme stands

  /** A `#` before which a word may begin. */
  predicate StartsComment(l: Lexer)
    requires Ready(l)
  {
    l.src[l.index] == '#' && (Top(l).previous == None || Top(l).previous.value in BOUNDARIES)
  }

  predicate StartsExpansion(l: Lexer)
    requires Ready(l)
  {
    l.src[l.index] == '$' && (At(l.src, l.index + 1, '(') || At(l.src, l.index + 1, '{'))
  }

  predicate StartsAnsi(l: Lexer)
    requires Ready(l)
  {
    l.src[l.index] == '$' && At(l.src, l.index + 1, '\'')
  }

  predicate StartsCompute(l: Lexer)
    requires Ready(l)
  {
    l.src[l.index] == '(' && At(l.src, l.index + 1, '(') && CaseTop(Top(l)) != Some(PatternStart)
  }

  /** The `)` that ends a command substitution: no pattern of a `case` command ends there, and no bracket is open. */
  predicate ClosesCommand(l: Lexer)
    requires Sound(l)
  {
    && At(l.src, l.index, ')') && Top(l).kind == Command && Top(l).depth == 1
    && Top(l).caseStates == []
  }

  predicate ClosesCompute(l: Lexer)
    requires Sound(l)
  {
    At(l.src, l.index, ')') && At(l.src, l.index + 1, ')') && Top(l).kind == ArithmeticCommand && Top(l).depth == 1
  }

  predicate ClosesInert(l: Lexer)
    requires Sound(l)
  {
    if Top(l).kind == Parameter then At(l.src, l.index, '}')
    else At(l.src, l.index, ')') && At(l.src, l.index + 1, ')') && Top(l).depth == 1
  }

  /** A character or word that opens, closes, records and queues nothing. */
  predicate IsFlat(l: Lexer)
    requires Ready(l)
  {
    && l.src[l.index] !in "\\\n'\"`" && !StartsComment(l) && !StartsExpansion(l) && !StartsAnsi(l) && !StartsCompute(l)
    && (Top(l).kind == ArithmeticCommand || ParseHeredoc(l) == None)
    && !ClosesCommand(l) && !ClosesCompute(l)
  }

  predicate IsDoublePlain(l: Lexer)
    requires Ready(l)
  {
    l.src[l.index] !in "\"`" && !StartsExpansion(l)
  }

  predicate IsInertPlain(l: Lexer)
    requires Ready(l)
  {
    l.src[l.index] == '\\'
    || (l.src[l.index] !in "'\"" && !StartsAnsi(l) && !StartsExpansion(l) && !ClosesInert(l))
  }

  // ----- one step

  lemma BracketStays(l: Lexer, f: Frame)
    requires Ready(l) && Active(Top(l)) && IsFlat(l) && f.kind == Top(l).kind && f.depth == Top(l).depth
    requires l.src[l.index] == ')' ==> (f.caseStates == [] ==> Top(l).caseStates == [])
    requires Top(l).kind != ArithmeticCommand && FrameOk(f)
    ensures var r := ActiveBracket(l, f); Stays(l, r) && r.pending == l.pending
  {
    hide ParseHeredoc, Newlines;
  }

  lemma PlainStays(l: Lexer)
    requires Ready(l) && Active(Top(l)) && IsFlat(l) && Top(l).kind != ArithmeticCommand
    ensures Stays(l, ActivePlain(l)) && ActivePlain(l).pending == l.pending
  {
    hide ActiveBracket, ParseHeredoc, Newlines, IsFlat;
    var f := if Text.IsSpace(l.src[l.index]) then Top(l) else BeginPattern(Top(l));
    BracketStays(l, f);
  }

  lemma FlatStep(l: Lexer)
    requires Ready(l) && Active(Top(l)) && IsFlat(l)
    ensures Stays(l, Step(l)) && Step(l).comments == l.comments && Step(l).pending == l.pending && Step(l).index > l.index
  {
    hide Step, ParseHeredoc, Newlines, ActivePlain;
    FlatLexeme(l);
    if Top(l).kind != ArithmeticCommand {
      PlainStays(l);
    }
  }

  lemma FlatLexeme(l: Lexer)
    requires Ready(l) && Active(Top(l)) && IsFlat(l)
    ensures Step(l) == if CaseTop(Top(l)) == Some(PatternStart) && l.src[l.index] == '(' then
                         Setting(l, SetCase(Top(l), Pattern).(previous := Some('(')), l.index + 1)
                       else ActiveLexeme(l)
  {
    hide ParseHeredoc, ActiveLexeme, Setting, Newlines;
  }

  lemma DoublePlainStep(l: Lexer)
    requires Ready(l) && Top(l).kind == Double && IsDoublePlain(l)
    ensures Stays(l, Step(l)) && Step(l).comments == l.comments && Step(l).pending == l.pending && Step(l).index > l.index
  {
    hide Newlines;
  }

  lemma InertPlainStep(l: Lexer)
    requires Ready(l) && Inert(Top(l)) && IsInertPlain(l)
    ensures Stays(l, Step(l)) && Step(l).comments == l.comments && Step(l).pending == l.pending && Step(l).index > l.index
  {
    hide Newlines;
  }

  // ----- text that a tree spells

  /** The lexer after text that the tree spells, from the frame and the position the lexer stands in. */
  ghost function ReadText(l: Lexer, t: ShellText): (r: Option<Lexer>)
    requires Sound(l) && Active(Top(l))
    ensures r.Some? ==> Stays(l, r.value)
    decreases t, 0
  {
    match t
    case Done => Some(l)
    case More(x, rest) =>
      if l.index == |l.src| then None
      else
        var m := ReadLexeme(l, x);
        if m == None then None
        else
          var r := ReadText(m.value, rest);
          if r == None then None
          else
            StaysOn(l, m.value, r.value);
            r
  }

  ghost function ReadLexeme(l: Lexer, x: Lexeme): (r: Option<Lexer>)
    requires Ready(l) && Active(Top(l))
    ensures r.Some? ==> Stays(l, r.value)
    decreases x, 0
  {
    var c, f := l.src[l.index], Top(l);
    match x
    case DoubleQuote(text) =>
      if c == '"' then ReadQuoted(l, BeginPattern(f).(previous := Some(c), commandPosition := false), text) else None
    case Backquote(code) =>
      if c == '`' && f.kind != Backtick then ReadBackquoted(l, f.(commandPosition := false), code) else None
    case Expanded(e) =>
      if StartsExpansion(l) then ReadExpansion(l, BeginPattern(f).(commandPosition := false), e) else None
    case Compute(code) => if StartsCompute(l) then ReadCompute(l, code) else None
    case _ => ReadSimple(l, x)
  }

  ghost function ReadCompute(l: Lexer, code: ShellText): (r: Option<Lexer>)
    requires Ready(l) && Active(Top(l)) && StartsCompute(l)
    ensures r.Some? ==> Stays(l, r.value) && Top(r.value).previous == Some(')')
    decreases code, 1
  {
    var g := Top(l).(previous := Some(')'), commandPosition := false);
    var m := ReadText(Inside(l, g, ArithmeticCommand, 1, 2), code);
    if m.Some? && ClosesCompute(m.value) then
      OutsideStays(l, g, ArithmeticCommand, 1, 2, m.value, 2, ')');
      Some(Outside(m.value, 2, ')'))
    else None
  }

  /** A lexeme with no text of its own kind inside. */
  predicate Simple(x: Lexeme) {
    !x.DoubleQuote? && !x.Backquote? && !x.Expanded? && !x.Compute?
  }

  /** Past quoted text, in the same frame. */
  ghost function Over(l: Lexer, c: char, end: nat): (r: Lexer)
    requires Ready(l) && Active(Top(l)) && l.index < end <= |l.src|
    ensures Stays(l, r)
  {
    Setting(l, BeginPattern(Top(l)).(previous := Some(c), commandPosition := false), end)
  }

  ghost function ReadSimple(l: Lexer, x: Lexeme): (r: Option<Lexer>)
    requires Ready(l) && Active(Top(l)) && Simple(x)
    ensures r.Some? ==> Stays(l, r.value)
  {
    hide Newlines, ReadWord, WriteAll, SayAll, LineEnd, Over;
    var c, i := l.src[l.index], l.index;
    match x
    case Note(n) =>
      if StartsComment(l) && LineEnd(l.src, i + 1) == i + 1 + n then Some(RecordComment(l)) else None
    case Backslashed(n) =>
      if c == '\\' then
        BackslashStep(l);
        if Step(l).index == i + n then Some(Step(l)) else None
      else None
    case LineBreak(skipped) =>
      if c == '\n' && NewLine(l).index == i + 1 + skipped then Some(NewLine(l)) else None
    case SingleQuote(n) =>
      if c == '\'' && PlainSpan(l.src, Single, i + 1, i + 1 + n) then
        Some(Over(l, c, i + 2 + n))
      else None
    case AnsiQuote(n) =>
      if StartsAnsi(l) && EscapedSpan(l.src, i + 2, i + 2 + n) then
        SpanFits(l.src, i + 2, i + 2 + n);
        Some(Over(l, '\'', i + 3 + n))
      else None
    case Operator(n, pieces) =>
      if Announces(l, pieces) && ClosedInTime(pieces) && ParseHeredoc(l).Some? && ParseHeredoc(l).value.index == i + n then
        HeredocStays(l);
        ParseHeredoc(l)
      else None
    case Flat(n) => ReadPlain(l, IsFlat(l), n)
  }

  ghost function ReadQuoted(l: Lexer, g: Frame, text: DoubleText): (r: Option<Lexer>)
    requires Ready(l) && g.kind == Top(l).kind && FrameOk(g)
    ensures r.Some? ==> Stays(l, r.value) && Top(r.value).previous == Some('"')
    decreases text, 2
  {
    var m := ReadDouble(Inside(l, g, Double, 0, 1), text);
    if m.Some? && At(m.value.src, m.value.index, '"') then
      OutsideStays(l, g, Double, 0, 1, m.value, 1, '"');
      Some(Outside(m.value, 1, '"'))
    else None
  }

  ghost function ReadBackquoted(l: Lexer, g: Frame, code: ShellText): (r: Option<Lexer>)
    requires Ready(l) && g.kind == Top(l).kind && FrameOk(g)
    ensures r.Some? ==> Stays(l, r.value) && Top(r.value).previous == Some('`')
    decreases code, 1
  {
    var m := ReadText(Inside(l, g, Backtick, 0, 1), code);
    if m.Some? && At(m.value.src, m.value.index, '`') then
      OutsideStays(l, g, Backtick, 0, 1, m.value, 1, '`');
      Some(Outside(m.value, 1, '`'))
    else None
  }

  ghost function ReadExpansion(l: Lexer, g: Frame, e: Expansion): (r: Option<Lexer>)
    requires Ready(l) && StartsExpansion(l) && g.kind == Top(l).kind && FrameOk(g)
    ensures r.Some? ==> Stays(l, r.value) && Top(r.value).previous == Some(if e.ParameterOf? then '}' else ')')
    decreases e, 0
  {
    var i, src := l.index, l.src;
    match e
    case CommandOf(code) =>
      if At(src, i + 1, '(') && !At(src, i + 2, '(') then
        var m := ReadText(Inside(l, g, Command, 1, 2), code);
        if m.Some? && ClosesCommand(m.value) then
          OutsideStays(l, g, Command, 1, 2, m.value, 1, ')');
          Some(Outside(m.value, 1, ')'))
        else None
      else None
    case ArithmeticOf(text) =>
      if At(src, i + 1, '(') && At(src, i + 2, '(') then
        var m := ReadInert(Inside(l, g, Arithmetic, 1, 3), text);
        if m.Some? && ClosesInert(m.value) then
          OutsideStays(l, g, Arithmetic, 1, 3, m.value, 2, ')');
          Some(Outside(m.value, 2, ')'))
        else None
      else None
    case ParameterOf(text) =>
      if At(src, i + 1, '{') then
        var m := ReadInert(Inside(l, g, Parameter, 1, 2), text);
        if m.Some? && ClosesInert(m.value) then
          OutsideStays(l, g, Parameter, 1, 2, m.value, 1, '}');
          Some(Outside(m.value, 1, '}'))
        else None
      else None
  }

  ghost function ReadDouble(l: Lexer, t: DoubleText): (r: Option<Lexer>)
    requires Sound(l) && Top(l).kind == Double
    ensures r.Some? ==> Stays(l, r.value)
    decreases t, 1
  {
    if t.DoubleEnd? then Some(l)
    else if l.index == |l.src| then None
    else
      var m := ReadDoublePart(l, t);
      if m == None then None
      else
        var r := ReadDouble(m.value, t.rest);
        if r == None then None
        else
          StaysOn(l, m.value, r.value);
          r
  }

  ghost function ReadDoublePart(l: Lexer, t: DoubleText): (r: Option<Lexer>)
    requires Ready(l) && Top(l).kind == Double && !t.DoubleEnd?
    ensures r.Some? ==> Stays(l, r.value)
    decreases t, 0
  {
    match t
    case DoublePlain(n, _) => ReadPlain(l, IsDoublePlain(l), n)
    case DoubleBackquote(code, _) => if l.src[l.index] == '`' then ReadBackquoted(l, Top(l), code) else None
    case DoubleExpansion(x, _) => if StartsExpansion(l) then ReadExpansion(l, Top(l), x) else None
  }

  /** One step over `n` characters of no meaning to the frame. */
  ghost function ReadPlain(l: Lexer, plain: bool, n: nat): (r: Option<Lexer>)
    requires Ready(l)
    requires plain ==> (Top(l).kind == Double && IsDoublePlain(l)) || (Inert(Top(l)) && IsInertPlain(l))
                       || (Active(Top(l)) && IsFlat(l))
    ensures r.Some? ==> plain && r.value == Step(l) && Step(l).index == l.index + n && Stays(l, r.value)
  {
    if plain && Step(l).index == l.index + n then
      PlainStep(l);
      Some(Step(l))
    else None
  }

  ghost function ReadInert(l: Lexer, t: InertText): (r: Option<Lexer>)
    requires Sound(l) && Inert(Top(l))
    ensures r.Some? ==> Stays(l, r.value)
    decreases t, 1
  {
    if t.InertEnd? then Some(l)
    else if l.index == |l.src| then None
    else
      var m := ReadInertPart(l, t);
      if m == None then None
      else
        var r := ReadInert(m.value, t.rest);
        if r == None then None
        else
          StaysOn(l, m.value, r.value);
          r
  }

  ghost function ReadInertPart(l: Lexer, t: InertText): (r: Option<Lexer>)
    requires Ready(l) && Inert(Top(l)) && !t.InertEnd?
    ensures r.Some? ==> Stays(l, r.value)
    decreases t, 0
  {
    var i := l.index;
    match t
    case InertPlain(n, _) => ReadPlain(l, IsInertPlain(l), n)
    case InertSingle(n, _) =>
      if l.src[i] == '\'' && PlainSpan(l.src, Single, i + 1, i + 1 + n) then
        Some(Setting(l, Top(l).(previous := Some('\'')), i + 2 + n))
      else None
    case InertAnsi(n, _) =>
      if StartsAnsi(l) && EscapedSpan(l.src, i + 2, i + 2 + n) then
        SpanFits(l.src, i + 2, i + 2 + n);
        Some(Setting(l, Top(l).(previous := Some('\'')), i + 3 + n))
      else None
    case InertDouble(text, _) => if l.src[i] == '"' then ReadQuoted(l, Top(l), text) else None
    case InertExpansion(x, _) => if StartsExpansion(l) then ReadExpansion(l, Top(l), x) else None
  }

  lemma PlainStep(l: Lexer)
    requires Ready(l)
    requires (Top(l).kind == Double && IsDoublePlain(l)) || (Inert(Top(l)) && IsInertPlain(l)) || (Active(Top(l)) && IsFlat(l))
    ensures Stays(l, Step(l)) && Step(l).comments == l.comments && Step(l).pending == l.pending
  {
    hide Step, IsDoublePlain, IsInertPlain, IsFlat;
    if Top(l).kind == Double {
      DoublePlainStep(l);
    } else if Inert(Top(l)) {
      InertPlainStep(l);
    } else {
      FlatStep(l);
    }
  }

  lemma SpanFits(src: string, i: nat, j: nat)
    requires EscapedSpan(src, i, j)
    ensures j < |src|
  {
  }

  lemma BackslashStep(l: Lexer)
    requires Ready(l) && Active(Top(l)) && l.src[l.index] == '\\'
    ensures Stays(l, Step(l)) && Step(l).comments == l.comments && Step(l).pending == l.pending
  {
    hide Newlines;
  }

  lemma HeredocStays(l: Lexer)
    requires Ready(l) && ParseHeredoc(l).Some?
    ensures Stays(l, ParseHeredoc(l).value)
  {
    hide Newlines, ReadWord, HeredocStart;
  }

  // ----- reaching

  /** Stepping on from the one lexer comes to the other. */
  ghost predicate Reaches(l: Lexer, r: Lexer)
    requires Sound(l)
  {
    exists n: nat :: Run(l, n) == r
  }

  lemma RunAtEnd(l: Lexer, n: nat)
    requires Sound(l) && l.index == |l.src|
    ensures Run(l, n) == l
  {
  }

  lemma {:induction false} RunAdds(l: Lexer, a: nat, b: nat)
    requires Sound(l)
    ensures Run(l, a + b) == Run(Run(l, a), b)
    decreases a
  {
    hide Step, Run;
    RunStops(l);
    if l.index == |l.src| {
      RunAtEnd(l, a);
      RunAtEnd(l, b);
      RunAtEnd(l, a + b);
    } else if a > 0 {
      RunUnfolds(l, a - 1);
      RunUnfolds(l, a - 1 + b);
      RunAdds(Step(l), a - 1, b);
    }
  }

  lemma ReachesOn(l: Lexer, m: Lexer, r: Lexer)
    requires Sound(l) && Sound(m) && Reaches(l, m) && Reaches(m, r)
    ensures Reaches(l, r)
  {
    hide Run;
    var a: nat :| Run(l, a) == m;
    var b: nat :| Run(m, b) == r;
    RunAdds(l, a, b);
  }

  lemma ReachesStep(l: Lexer)
    requires Ready(l)
    ensures Reaches(l, Step(l))
  {
    hide Step, Run;
    RunUnfolds(l, 0);
    RunStops(Step(l));
  }

  lemma ReachesItself(l: Lexer)
    requires Sound(l)
    ensures Reaches(l, l)
  {
    assert Run(l, 0) == l;
  }

  // ----- the comments met

  function CommentsAt(src: string, notes: seq<nat>): seq<Comment> {
    if notes == [] then []
    else (if notes[0] < |src| then [CommentAt(src, notes[0])] else []) + CommentsAt(src, notes[1..])
  }

  lemma {:induction false} CommentsTogether(src: string, a: seq<nat>, b: seq<nat>)
    ensures CommentsAt(src, a + b) == CommentsAt(src, a) + CommentsAt(src, b)
  {
    hide CommentAt;
    if a == [] {
      assert a + b == b;
    } else {
      assert (a + b)[1..] == a[1..] + b;
      CommentsTogether(src, a[1..], b);
    }
  }

  /** On its true line. */
  predicate Lined(l: Lexer)
    requires Sound(l)
  {
    l.line == LineOf(l.src, l.index)
  }

  lemma StaysLined(l: Lexer, r: Lexer)
    requires Sound(l) && Lined(l) && Stays(l, r)
    ensures Lined(r)
  {
    LineMoves(l.src, l.index, r.index);
  }

  /** Scanning goes over `length` characters, back to the same frame, and records exactly the comments at `notes`. */
  ghost predicate Crosses(l: Lexer, r: Lexer, length: nat, notes: seq<nat>)
    requires Sound(l)
  {
    && Stays(l, r) && r.index == l.index + length && Reaches(l, r)
    && r.comments == l.comments + CommentsAt(l.src, notes)
  }

  lemma CrossesOn(l: Lexer, m: Lexer, r: Lexer, a: nat, b: nat, first: seq<nat>, second: seq<nat>)
    requires Sound(l) && Crosses(l, m, a, first) && Crosses(m, r, b, second)
    ensures Crosses(l, r, a + b, first + second)
  {
    hide Reaches, CommentsAt;
    StaysOn(l, m, r);
    ReachesOn(l, m, r);
    CommentsTogether(l.src, first, second);
  }

  lemma CrossesNothing(l: Lexer)
    requires Sound(l) && |l.frames| >= 1
    ensures Crosses(l, l, 0, [])
  {
    ReachesItself(l);
  }

  /** A step that records nothing. */
  lemma QuietStepCrosses(l: Lexer)
    requires Ready(l) && Stays(l, Step(l)) && Step(l).comments == l.comments
    ensures Crosses(l, Step(l), Step(l).index - l.index, [])
  {
    hide Step, Reaches;
    ReachesStep(l);
  }

  /** What opens a frame, what it holds, and what closes it. */
  lemma Enclosed(l: Lexer, f: Frame, kind: FrameKind, depth: int, open: nat, m: Lexer, length: nat, notes: seq<nat>,
                 close: nat, replacement: char)
    requires Ready(l) && l.index + open <= |l.src| && f.kind == Top(l).kind && FrameOk(f)
    requires kind != Code && FrameOk(NewFrame(kind, depth))
    requires Step(l) == Inside(l, f, kind, depth, open) && Crosses(Inside(l, f, kind, depth, open), m, length, notes)
    requires Ready(m) && m.index + close <= |m.src| && |m.frames| >= 2 && Step(m) == Outside(m, close, replacement)
    ensures Crosses(l, Outside(m, close, replacement), open + length + close, notes)
  {
    hide Step, Reaches, CommentsAt;
    var p := Inside(l, f, kind, depth, open);
    OutsideStays(l, f, kind, depth, open, m, close, replacement);
    ReachesStep(l);
    ReachesStep(m);
    ReachesOn(l, p, m);
    ReachesOn(l, m, Step(m));
  }

  // ----- how each construct opens and closes

  lemma QuoteSteps(l: Lexer)
    requires Ready(l) && Active(Top(l)) && l.src[l.index] == '"'
    ensures var g := BeginPattern(Top(l)).(previous := Some('"'), commandPosition := false);
            Step(l) == Inside(l, g, Double, 0, 1)
  {
    hide Newlines;
  }

  lemma BackquoteSteps(l: Lexer)
    requires Ready(l) && l.src[l.index] == '`'
    requires (Active(Top(l)) && Top(l).kind != Backtick) || Top(l).kind == Double
    ensures Step(l) == Inside(l, if Top(l).kind == Double then Top(l) else Top(l).(commandPosition := false), Backtick, 0, 1)
  {
    hide Newlines;
    assert l.frames[|l.frames| - 1 := Top(l)] == l.frames;
  }

  lemma ComputeSteps(l: Lexer)
    requires Ready(l) && Active(Top(l)) && StartsCompute(l)
    ensures Step(l) == Inside(l, Top(l).(previous := Some(')'), commandPosition := false), ArithmeticCommand, 1, 2)
  {
    hide Newlines, ParseHeredoc;
  }

  lemma InertQuoteSteps(l: Lexer)
    requires Ready(l) && Inert(Top(l)) && (l.src[l.index] == '"' || l.src[l.index] == '\'')
    ensures Step(l) == Inside(l, Top(l), if l.src[l.index] == '"' then Double else Single, 0, 1)
  {
    hide Newlines;
    assert l.frames[|l.frames| - 1 := Top(l)] == l.frames;
  }

  lemma InertAnsiSteps(l: Lexer)
    requires Ready(l) && Inert(Top(l)) && StartsAnsi(l)
    ensures Step(l) == Inside(l, Top(l), AnsiSingle, 0, 2)
  {
    hide Newlines;
    assert l.frames[|l.frames| - 1 := Top(l)] == l.frames;
  }

  lemma PatternKeepsFrame(f: Frame)
    requires FrameOk(f)
    ensures var g := BeginPattern(f); g.kind == f.kind && g.depth == f.depth && FrameOk(g)
  {
  }

  /** How an expansion leaves the frame it stands in. */
  function Expanding(f: Frame): Frame {
    if Active(f) then BeginPattern(f).(commandPosition := false) else f
  }

  lemma ExpansionSteps(l: Lexer)
    requires Ready(l) && StartsExpansion(l) && (Active(Top(l)) || Top(l).kind == Double || Inert(Top(l)))
    ensures var g := Expanding(Top(l));
            Step(l) == if At(l.src, l.index + 1, '{') then Inside(l, g, Parameter, 1, 2)
                       else if At(l.src, l.index + 2, '(') then Inside(l, g, Arithmetic, 1, 3)
                       else Inside(l, g, Command, 1, 2)
  {
    hide Newlines;
    assert l.frames[|l.frames| - 1 := Top(l)] == l.frames;
  }

  lemma QuoteCloses(m: Lexer)
    requires Ready(m) && |m.frames| >= 2
    requires (Top(m).kind == Double && m.src[m.index] == '"') || (Top(m).kind == Backtick && m.src[m.index] == '`')
    ensures Step(m) == Outside(m, 1, m.src[m.index])
  {
    hide Newlines;
  }

  lemma CommandCloses(m: Lexer)
    requires Ready(m) && |m.frames| >= 2 && ClosesCommand(m) && !m.abc.alpha(')')
    ensures Step(m) == Outside(m, 1, ')')
  {
    hide Newlines;
    assert SetTop(m, Top(m).(depth := 0)).frames[..|m.frames| - 1] == m.frames[..|m.frames| - 1];
  }

  lemma ComputeCloses(m: Lexer)
    requires Ready(m) && |m.frames| >= 2 && ClosesCompute(m) && !m.abc.alpha(')')
    ensures Step(m) == Outside(m, 2, ')')
  {
    hide Newlines;
  }

  lemma InertCloses(m: Lexer)
    requires Ready(m) && |m.frames| >= 2 && Inert(Top(m)) && ClosesInert(m)
    ensures Step(m) == if Top(m).kind == Parameter then Outside(m, 1, '}') else Outside(m, 2, ')')
  {
    hide Newlines;
    assert SetTop(m, Top(m).(depth := 0)).frames[..|m.frames| - 1] == m.frames[..|m.frames| - 1];
  }

  // ----- the theorem, construct by construct

  /** The closing bracket is no letter. */
  predicate Sane(l: Lexer)
    requires Sound(l)
  {
    Lined(l) && !l.abc.alpha(')')
  }

  lemma StaysSane(l: Lexer, r: Lexer)
    requires Sound(l) && Sane(l) && Stays(l, r)
    ensures Sane(r)
  {
    StaysLined(l, r);
  }

  lemma InsideIsSane(l: Lexer, f: Frame, kind: FrameKind, depth: int, open: nat)
    requires Sound(l) && l.index + open <= |l.src| && f.kind == Top(l).kind && FrameOk(f)
    requires kind != Code && FrameOk(NewFrame(kind, depth)) && Sane(l)
    ensures Sane(Inside(l, f, kind, depth, open))
  {
    LineMoves(l.src, l.index, l.index + open);
  }

  lemma NoteCrosses(l: Lexer)
    requires Ready(l) && Active(Top(l)) && Sane(l) && StartsComment(l)
    ensures Stays(l, RecordComment(l))
    ensures Crosses(l, RecordComment(l), LineEnd(l.src, l.index + 1) - l.index, [l.index])
  {
    hide Step, Reaches, Newlines;
    NoteSteps(l);
    ReachesStep(l);
    assert [l.index][1..] == [];
    assert CommentsAt(l.src, [l.index]) == [CommentAt(l.src, l.index)] + CommentsAt(l.src, []);
  }

  lemma NoteSteps(l: Lexer)
    requires Ready(l) && Active(Top(l)) && StartsComment(l)
    ensures Step(l) == RecordComment(l)
  {
    hide Newlines, ReadWord, RecordComment;
  }

  lemma SpanCrosses(l: Lexer, r: Lexer, n: nat)
    requires Ready(l) && Run(l, n) == r && Stays(l, r) && r.comments == l.comments
    ensures Crosses(l, r, r.index - l.index, [])
  {
  }

  lemma AnnouncedOutsideArithmetic(l: Lexer, pieces: seq<Piece>)
    requires Announces(l, pieces)
    ensures Top(l).kind != ArithmeticCommand
  {
  }

  lemma SimpleRead(l: Lexer, x: Lexeme)
    requires Ready(l) && Active(Top(l)) && Sane(l) && Simple(x) && ReadSimple(l, x).Some?
    ensures Crosses(l, ReadSimple(l, x).value, LengthOf(x), NotesOf(x, l.index))
  {
    hide Step, Run, Crosses, Stays, Announces, ParseHeredoc, RecordComment, NewLine, PlainSpan, EscapedSpan, BeginPattern,
         CommentsAt, Newlines;
    var i, r := l.index, ReadSimple(l, x).value;
    match x {
      case Note(n) => NoteCrosses(l);
      case Backslashed(_) =>
        BackslashStep(l);
        QuietStepCrosses(l);
      case LineBreak(_) =>
        NewlinesAreTaken(l);
        QuietStepCrosses(l);
      case SingleQuote(n) =>
        QuotedSpansAreOpaque(l, i + 1 + n);
        SpanCrosses(l, r, n + 2);
      case AnsiQuote(n) =>
        var m := AnsiSpansAreOpaque(l, i + 2 + n);
        SpanCrosses(l, r, m);
      case Operator(_, pieces) =>
        AnnouncedOutsideArithmetic(l, pieces);
        OperatorIsParsed(l);
        QuietStepCrosses(l);
      case Flat(_) =>
        PlainStep(l);
        QuietStepCrosses(l);
    }
  }

  lemma {:induction false} TextRead(l: Lexer, t: ShellText)
    requires Sound(l) && Active(Top(l)) && Sane(l) && ReadText(l, t).Some?
    ensures Crosses(l, ReadText(l, t).value, TextLength(t), TextNotes(t, l.index))
    decreases t, 0
  {
    hide Crosses, Stays, ReadLexeme, Sane, LengthOf, NotesOf;
    match t {
      case Done => CrossesNothing(l);
      case More(x, rest) =>
        LexemeRead(l, x);
        var m := ReadLexeme(l, x).value;
        StaysTops(l, m);
        StaysSane(l, m);
        TextRead(m, rest);
        CrossesOn(l, m, ReadText(m, rest).value, LengthOf(x), TextLength(rest), NotesOf(x, l.index), TextNotes(rest, m.index));
    }
  }

  lemma StaysTops(l: Lexer, m: Lexer)
    requires Stays(l, m)
    ensures Sound(m) && Top(m).kind == Top(l).kind && m.src == l.src && m.index >= l.index && |m.frames| == |l.frames|
  {
  }

  lemma {:induction false} LexemeRead(l: Lexer, x: Lexeme)
    requires Ready(l) && Active(Top(l)) && Sane(l) && ReadLexeme(l, x).Some?
    ensures Crosses(l, ReadLexeme(l, x).value, LengthOf(x), NotesOf(x, l.index))
    ensures ReadLexeme(l, x).value.index == l.index + LengthOf(x)
    decreases x, 0
  {
    hide Stays, Sane, Step, Reaches, ReadText, ReadExpansion, ReadQuoted, ReadBackquoted, ReadSimple, Inside, Outside, BeginPattern, CommentsAt,
         TextLength, TextNotes, DoubleLength, DoubleNotes, ExpansionLength, ExpansionNotes;
    match x {
      case DoubleQuote(text) =>
        PatternKeepsFrame(Top(l));
        QuoteSteps(l);
        QuotedRead(l, BeginPattern(Top(l)).(previous := Some('"'), commandPosition := false), text);
      case Backquote(code) =>
        BackquoteSteps(l);
        BackquotedRead(l, Top(l).(commandPosition := false), code);
      case Expanded(e) => ExpansionRead(l, e);
      case Compute(code) => ComputeRead(l, code);
      case _ => SimpleRead(l, x);
    }
  }

  /** Active text inside a frame that has just been opened. */
  lemma {:induction false} InnerTextRead(l: Lexer, f: Frame, kind: FrameKind, depth: int, open: nat, code: ShellText)
    returns (m: Lexer)
    requires Ready(l) && Sane(l) && l.index + open <= |l.src| && f.kind == Top(l).kind && FrameOk(f)
    requires kind != Code && FrameOk(NewFrame(kind, depth)) && Active(NewFrame(kind, depth))
    requires ReadText(Inside(l, f, kind, depth, open), code).Some?
    ensures m == ReadText(Inside(l, f, kind, depth, open), code).value
    ensures Crosses(Inside(l, f, kind, depth, open), m, TextLength(code), TextNotes(code, l.index + open))
    ensures Sound(m) && Sane(m) && |m.frames| == |l.frames| + 1 && Top(m).kind == kind && m.src == l.src && m.abc == l.abc
    decreases code, 1
  {
    hide Reaches, ReadText, Sane, CommentsAt, TextLength, TextNotes;
    var p := Inside(l, f, kind, depth, open);
    InsideIsSane(l, f, kind, depth, open);
    TextRead(p, code);
    m := ReadText(p, code).value;
    StaysSane(p, m);
  }

  lemma {:induction false} ComputeRead(l: Lexer, code: ShellText)
    requires Ready(l) && Active(Top(l)) && Sane(l) && ReadLexeme(l, Compute(code)).Some?
    ensures Crosses(l, ReadLexeme(l, Compute(code)).value, 4 + TextLength(code), TextNotes(code, l.index + 2))
    decreases code, 2
  {
    hide Reaches, Step, ReadText, Sane, CommentsAt, TextLength, TextNotes, Crosses, Stays, Inside, Outside;
    var g := Top(l).(previous := Some(')'), commandPosition := false);
    ComputeSteps(l);
    var m := InnerTextRead(l, g, ArithmeticCommand, 1, 2, code);
    SaneLetters(m);
    ComputeCloses(m);
    Enclosed(l, g, ArithmeticCommand, 1, 2, m, TextLength(code), TextNotes(code, l.index + 2), 2, ')');
  }

  lemma SaneLetters(m: Lexer)
    requires Sound(m) && Sane(m)
    ensures !m.abc.alpha(')')
  {
  }

  lemma {:induction false} BackquotedRead(l: Lexer, g: Frame, code: ShellText)
    requires Ready(l) && Sane(l) && g.kind == Top(l).kind && FrameOk(g) && Step(l) == Inside(l, g, Backtick, 0, 1)
    requires ReadBackquoted(l, g, code).Some?
    ensures Crosses(l, ReadBackquoted(l, g, code).value, 2 + TextLength(code), TextNotes(code, l.index + 1))
    decreases code, 2
  {
    hide Reaches, Step, ReadText, Sane, CommentsAt, TextLength, TextNotes, Crosses, Stays, Inside, Outside;
    var m := InnerTextRead(l, g, Backtick, 0, 1, code);
    QuoteCloses(m);
    Enclosed(l, g, Backtick, 0, 1, m, TextLength(code), TextNotes(code, l.index + 1), 1, '`');
  }

  lemma {:induction false} QuotedRead(l: Lexer, g: Frame, text: DoubleText)
    requires Ready(l) && Sane(l) && g.kind == Top(l).kind && FrameOk(g) && Step(l) == Inside(l, g, Double, 0, 1)
    requires ReadQuoted(l, g, text).Some?
    ensures Crosses(l, ReadQuoted(l, g, text).value, 2 + DoubleLength(text), DoubleNotes(text, l.index + 1))
    decreases text, 3
  {
    hide Reaches, Step, ReadDouble, Sane, CommentsAt, DoubleLength, DoubleNotes, Inside, Outside;
    var p := Inside(l, g, Double, 0, 1);
    InsideIsSane(l, g, Double, 0, 1);
    DoubleTextRead(p, text);
    var m := ReadDouble(p, text).value;
    QuoteCloses(m);
    Enclosed(l, g, Double, 0, 1, m, DoubleLength(text), DoubleNotes(text, l.index + 1), 1, '"');
  }

  lemma {:induction false} InnerInertRead(l: Lexer, f: Frame, kind: FrameKind, open: nat, text: InertText)
    returns (m: Lexer)
    requires Ready(l) && Sane(l) && l.index + open <= |l.src| && f.kind == Top(l).kind && FrameOk(f)
    requires kind == Parameter || kind == Arithmetic
    requires ReadInert(Inside(l, f, kind, 1, open), text).Some?
    ensures m == ReadInert(Inside(l, f, kind, 1, open), text).value
    ensures Crosses(Inside(l, f, kind, 1, open), m, InertLength(text), InertNotes(text, l.index + open))
    ensures Sound(m) && |m.frames| == |l.frames| + 1 && Top(m).kind == kind && m.src == l.src
    decreases text, 3
  {
    hide Reaches, ReadInert, Sane, CommentsAt, InertLength, InertNotes;
    var p := Inside(l, f, kind, 1, open);
    InsideIsSane(l, f, kind, 1, open);
    InertTextRead(p, text);
    m := ReadInert(p, text).value;
  }

  lemma {:induction false} ExpansionRead(l: Lexer, e: Expansion)
    requires Ready(l) && Sane(l) && StartsExpansion(l) && (Active(Top(l)) || Top(l).kind == Double || Inert(Top(l)))
    requires ReadExpansion(l, Expanding(Top(l)), e).Some?
    ensures Crosses(l, ReadExpansion(l, Expanding(Top(l)), e).value, ExpansionLength(e), ExpansionNotes(e, l.index))
    decreases e, 0
  {
    hide Reaches, Step, ReadText, ReadInert, Sane, CommentsAt, TextLength, TextNotes, InertLength, InertNotes,
         Crosses, Stays, Inside, Outside, BeginPattern, ClosesCommand, ClosesInert;
    var g := Expanding(Top(l));
    PatternKeepsFrame(Top(l));
    ExpansionSteps(l);
    match e {
      case CommandOf(code) =>
        var m := InnerTextRead(l, g, Command, 1, 2, code);
        SaneLetters(m);
        CloseIsMet(m);
        CommandCloses(m);
        Enclosed(l, g, Command, 1, 2, m, TextLength(code), TextNotes(code, l.index + 2), 1, ')');
      case ArithmeticOf(text) =>
        var m := InnerInertRead(l, g, Arithmetic, 3, text);
        CloseIsMet(m);
        InertCloses(m);
        Enclosed(l, g, Arithmetic, 1, 3, m, InertLength(text), InertNotes(text, l.index + 3), 2, ')');
      case ParameterOf(text) =>
        var m := InnerInertRead(l, g, Parameter, 2, text);
        CloseIsMet(m);
        InertCloses(m);
        Enclosed(l, g, Parameter, 1, 2, m, InertLength(text), InertNotes(text, l.index + 2), 1, '}');
    }
  }

  lemma CloseIsMet(m: Lexer)
    requires Sound(m) && (ClosesCommand(m) || ClosesInert(m))
    ensures Ready(m)
    ensures ClosesInert(m) && Top(m).kind == Arithmetic ==> m.index + 2 <= |m.src|
  {
  }

  lemma {:induction false} DoublePartRead(l: Lexer, t: DoubleText) returns (n: nat, notes: seq<nat>)
    requires Ready(l) && Top(l).kind == Double && Sane(l) && !t.DoubleEnd? && ReadDoublePart(l, t).Some?
    ensures Crosses(l, ReadDoublePart(l, t).value, n, notes)
    ensures DoubleLength(t) == n + DoubleLength(t.rest)
    ensures DoubleNotes(t, l.index) == notes + DoubleNotes(t.rest, l.index + n)
    decreases t, 1
  {
    hide Crosses, Stays, Step, Sane, ReadText, ReadExpansion, ReadBackquoted, IsDoublePlain, StartsExpansion,
         TextLength, TextNotes, ExpansionLength, ExpansionNotes;
    n, notes := 0, [];
    match t {
      case DoublePlain(k, _) =>
        PlainStep(l);
        QuietStepCrosses(l);
        n := k;
      case DoubleBackquote(code, _) =>
        BackquoteSteps(l);
        BackquotedRead(l, Top(l), code);
        n, notes := 2 + TextLength(code), TextNotes(code, l.index + 1);
      case DoubleExpansion(x, _) =>
        ExpansionRead(l, x);
        n, notes := ExpansionLength(x), ExpansionNotes(x, l.index);
    }
  }

  lemma {:induction false} DoubleTextRead(l: Lexer, t: DoubleText)
    requires Sound(l) && Top(l).kind == Double && Sane(l) && ReadDouble(l, t).Some?
    ensures Crosses(l, ReadDouble(l, t).value, DoubleLength(t), DoubleNotes(t, l.index))
    decreases t, 2
  {
    hide Crosses, Stays, Sane, ReadDoublePart;
    if t.DoubleEnd? {
      CrossesNothing(l);
    } else {
      var n, notes := DoublePartRead(l, t);
      var m := ReadDoublePart(l, t).value;
      CrossedIndex(l, m, n, notes);
      StaysTops(l, m);
      StaysSane(l, m);
      DoubleTextRead(m, t.rest);
      CrossesOn(l, m, ReadDouble(m, t.rest).value, n, DoubleLength(t.rest), notes, DoubleNotes(t.rest, m.index));
    }
  }

  lemma CrossedIndex(l: Lexer, m: Lexer, n: nat, notes: seq<nat>)
    requires Sound(l) && Crosses(l, m, n, notes)
    ensures Stays(l, m) && m.index == l.index + n
  {
  }

  lemma {:induction false} InertPartRead(l: Lexer, t: InertText) returns (n: nat, notes: seq<nat>)
    requires Ready(l) && Inert(Top(l)) && Sane(l) && !t.InertEnd? && ReadInertPart(l, t).Some?
    ensures Crosses(l, ReadInertPart(l, t).value, n, notes)
    ensures InertLength(t) == n + InertLength(t.rest) && InertNotes(t, l.index) == notes + InertNotes(t.rest, l.index + n)
    decreases t, 1
  {
    hide Crosses, Stays, Step, Sane, ReadExpansion, ReadQuoted, IsInertPlain, PlainSpan, EscapedSpan, CommentsAt, Setting, Inside, Newlines,
         DoubleLength, DoubleNotes, ExpansionLength, ExpansionNotes, Run;
    n, notes := 0, [];
    match t {
      case InertPlain(k, _) =>
        PlainStep(l);
        QuietStepCrosses(l);
        n := k;
      case InertSingle(k, _) =>
        InertSingleRead(l, k);
        n := 2 + k;
      case InertAnsi(k, _) =>
        SpanFits(l.src, l.index + 2, l.index + 2 + k);
        InertAnsiRead(l, k);
        n := 3 + k;
      case InertDouble(text, _) =>
        InertQuoteSteps(l);
        QuotedRead(l, Top(l), text);
        n, notes := 2 + DoubleLength(text), DoubleNotes(text, l.index + 1);
      case InertExpansion(x, _) =>
        ExpansionRead(l, x);
        n, notes := ExpansionLength(x), ExpansionNotes(x, l.index);
    }
  }

  lemma InertSingleRead(l: Lexer, n: nat)
    requires Ready(l) && Inert(Top(l)) && l.src[l.index] == '\'' && PlainSpan(l.src, Single, l.index + 1, l.index + 1 + n)
    ensures Crosses(l, Setting(l, Top(l).(previous := Some('\'')), l.index + 2 + n), 2 + n, [])
  {
    hide Step, Run, CloseFrame, Newlines;
    var p, j := Inside(l, Top(l), Single, 0, 1), l.index + 1 + n;
    InertQuoteSteps(l);
    QuotedSpanCloses(p, j);
    RunUnfolds(l, n + 1);
    InertSpan(l, Single, 1, j);
    SpanCrosses(l, Setting(l, Top(l).(previous := Some('\'')), j + 1), n + 2);
  }

  lemma InertAnsiRead(l: Lexer, n: nat)
    requires Ready(l) && Inert(Top(l)) && StartsAnsi(l) && EscapedSpan(l.src, l.index + 2, l.index + 2 + n)
    requires l.index + 2 + n < |l.src|
    ensures Crosses(l, Setting(l, Top(l).(previous := Some('\'')), l.index + 3 + n), 3 + n, [])
  {
    hide Step, Run, CloseFrame, Newlines, EscapedSpan;
    var p, j := Inside(l, Top(l), AnsiSingle, 0, 2), l.index + 2 + n;
    InertAnsiSteps(l);
    var m := AnsiSpanCloses(p, j);
    RunUnfolds(l, m);
    InertSpan(l, AnsiSingle, 2, j);
    SpanCrosses(l, Setting(l, Top(l).(previous := Some('\'')), j + 1), m + 1);
  }

  /** A quote inside an expansion, opened and closed. */
  lemma InertSpan(l: Lexer, kind: FrameKind, open: nat, j: nat)
    requires Ready(l) && Inert(Top(l)) && (kind == Single || kind == AnsiSingle) && l.index + open <= j < |l.src| && open > 0
    ensures var p, r := Inside(l, Top(l), kind, 0, open), Setting(l, Top(l).(previous := Some('\'')), j + 1);
            CloseFrame(Move(p, j + 1), '\'') == r && Stays(l, r) && r.comments == l.comments
  {
    hide Newlines;
    var p, r := Inside(l, Top(l), kind, 0, open), Setting(l, Top(l).(previous := Some('\'')), j + 1);
    var pushed := Push(SetTop(l, Top(l)), kind, 0);
    MoveTwice(pushed, l.index + open, j + 1);
    assert Move(p, j + 1).frames == pushed.frames;
    assert pushed.frames[..|l.frames|] == l.frames;
    assert CloseFrame(Move(p, j + 1), '\'').frames == r.frames;
  }

  lemma {:induction false} InertTextRead(l: Lexer, t: InertText)
    requires Sound(l) && Inert(Top(l)) && Sane(l) && ReadInert(l, t).Some?
    ensures Crosses(l, ReadInert(l, t).value, InertLength(t), InertNotes(t, l.index))
    decreases t, 2
  {
    hide Crosses, Stays, Sane, ReadInertPart;
    if t.InertEnd? {
      CrossesNothing(l);
    } else {
      var n, notes := InertPartRead(l, t);
      var m := ReadInertPart(l, t).value;
      CrossedIndex(l, m, n, notes);
      StaysTops(l, m);
      StaysSane(l, m);
      InertTextRead(m, t.rest);
      CrossesOn(l, m, ReadInert(m, t.rest).value, n, InertLength(t.rest), notes, InertNotes(t.rest, m.index));
    }
  }

  /**
   * Which comments must be reported: scanning a source that a tree spells reports exactly the comments of the tree, in
   * order, each with its true line and text. Nothing in a quote, an expansion or the body of a here-document is
   * reported, and no comment of the commands around or inside them is missed.
   */
  lemma ExactlyTheCommentsAreReported(abc: Alphabet, src: string, t: ShellText)
    requires !abc.alpha(')')
    requires ReadText(Start(abc, src), t).Some? && TextLength(t) == |src|
    ensures Scan(Start(abc, src)).comments == CommentsAt(src, TextNotes(t, 0))
  {
    hide Scan, ReadText, TextNotes, CommentsAt, Run;
    var l := Start(abc, src);
    TextRead(l, t);
    var r := ReadText(l, t).value;
    var n: nat :| Run(l, n) == r;
    ScanFromRun(l, n);
    ScanEndsThere(r);
  }

  lemma ScanEndsThere(r: Lexer)
    requires Sound(r) && r.index == |r.src|
    ensures Scan(r) == r
  {
  }
}
