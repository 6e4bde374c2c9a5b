/**
 * The shell comment lexer as a step function over its fields: a stack of frames for quoting and expansions, here-documents
 * waiting for their line to end, and the comments found so far. Quoting and here-documents follow sections 2.2 and
 * 2.7.4 of the POSIX.1-2017 Shell Command Language, comments section 2.3.
 */
module ShellLexer {
  import opened Prelude
  import opened Text
  import opened SourceLines

  datatype FrameKind =
    Code | Single | Double | AnsiSingle | Parameter | Arithmetic | ArithmeticCommand | Command | Backtick

  datatype CaseState = Subject | PatternStart | Pattern | Body

  datatype Frame = Frame(
    kind: FrameKind, previous: Option<char>, depth: int, caseStates: seq<CaseState>, commandPosition: bool)

  datatype Heredoc = Heredoc(delimiter: string, stripTabs: bool)

  datatype Comment = Comment(line: nat, text: string, fullLine: bool)

  /** How characters are classified, and how an ANSI-C quoted delimiter is decoded. */
  datatype Alphabet = Alphabet(alpha: char -> bool, alnum: char -> bool, decode: string -> string)

  datatype Lexer = Lexer(
    abc: Alphabet, src: string, index: nat, line: nat, frames: seq<Frame>, pending: seq<Heredoc>, comments: seq<Comment>)

  const BOUNDARIES := " \t\r\n;|&()<>"
  const PREFIX_WORDS := {"do", "elif", "else", "if", "then", "until", "while"}

  function NewFrame(kind: FrameKind, depth: int): Frame {
    Frame(kind, None, depth, [], true)
  }

  function Start(abc: Alphabet, src: string): Lexer {
    Lexer(abc, src, 0, 1, [NewFrame(Code, 0)], [], [])
  }

  // ----- the shape of a lexer

  predicate FrameOk(f: Frame) {
    match f.kind
    case Parameter => f.depth == 1
    case Arithmetic => f.depth >= 1
    case ArithmeticCommand => f.depth >= 1
    case Command => f.depth >= 1
    case _ => true
  }

  /** The bottom frame is the code frame, no other is, and depths are those of open brackets. */
  predicate FramesOk(frames: seq<Frame>) {
    && |frames| >= 1
    && frames[0].kind == Code
    && (forall i :: 0 < i < |frames| ==> frames[i].kind != Code)
    && (forall i :: 0 <= i < |frames| ==> FrameOk(frames[i]))
  }

  predicate Ready(l: Lexer) {
    l.index < |l.src| && FramesOk(l.frames)
  }

  /** The comment a `#` at `i` starts. */
  function CommentAt(src: string, i: nat): Comment
    requires i < |src|
  {
    Comment(LineOf(src, i), TrimStart(src[i + 1..LineEnd(src, i + 1)]), Blank(src[LineStart(src, i)..i]))
  }

  /** What every step does: it advances, counts the newlines it passes, and records at most the comment it stands on. */
  ghost predicate Advances(l: Lexer, r: Lexer) {
    && r.src == l.src && r.abc == l.abc
    && l.index < r.index <= |l.src|
    && r.line == l.line + Newlines(l.src, l.index, r.index)
    && FramesOk(r.frames)
    && (r.comments == l.comments
        || (l.src[l.index] == '#' && r.index == LineEnd(l.src, l.index + 1)
            && r.comments == l.comments + [CommentAt(l.src, l.index).(line := l.line)]))
  }

  // ----- moves

  function Min(a: nat, b: nat): nat { if a <= b then a else b }

  function Move(l: Lexer, end: nat): Lexer
    requires l.index <= end <= |l.src|
  {
    l.(index := end, line := l.line + Newlines(l.src, l.index, end))
  }

  function Top(l: Lexer): Frame
    requires |l.frames| >= 1
  {
    l.frames[|l.frames| - 1]
  }

  function SetTop(l: Lexer, f: Frame): Lexer
    requires |l.frames| >= 1
  {
    l.(frames := l.frames[|l.frames| - 1 := f])
  }

  function Push(l: Lexer, kind: FrameKind, depth: int): Lexer {
    l.(frames := l.frames + [NewFrame(kind, depth)])
  }

  function CloseFrame(l: Lexer, replacement: char): Lexer
    requires |l.frames| >= 2
  {
    var left := l.frames[..|l.frames| - 1];
    l.(frames := left[|left| - 1 := left[|left| - 1].(previous := Some(replacement))])
  }

  function PushExpansion(l: Lexer): (r: Option<Lexer>)
    requires Ready(l)
    ensures r.Some? ==> Advances(l, r.value) && r.value.comments == l.comments
  {
    var src, i := l.src, l.index;
    if At(src, i, '$') && At(src, i + 1, '(') && At(src, i + 2, '(') then Some(Move(Push(l, Arithmetic, 1), i + 3))
    else if At(src, i, '$') && At(src, i + 1, '(') then Some(Move(Push(l, Command, 1), i + 2))
    else if At(src, i, '$') && At(src, i + 1, '{') then Some(Move(Push(l, Parameter, 1), i + 2))
    else None
  }

  // ----- here-documents

  function SkipBlanks(src: string, i: nat): (j: nat)
    requires i <= |src|
    ensures i <= j <= |src|
    decreases |src| - i
  {
    if i < |src| && src[i] in " \t" then SkipBlanks(src, i + 1) else i
  }

  /** A delimiter word being read: what it says so far, the quote it is in, and where an ANSI-C quote began in it. */
  datatype Word = Word(cursor: nat, text: string, quote: Option<char>, ansiStart: Option<nat>)

  /** One turn of the loop over a delimiter word; `None` at its end. */
  function WordStep(abc: Alphabet, src: string, w: Word): (r: Option<Word>)
    requires w.cursor <= |src| && (w.ansiStart.Some? ==> w.ansiStart.value <= |w.text|)
    ensures r.Some? ==> w.cursor < r.value.cursor <= |src|
    ensures r.Some? && r.value.ansiStart.Some? ==> r.value.ansiStart.value <= |r.value.text|
  {
    if w.cursor == |src| then None
    else
      var i, c := w.cursor, src[w.cursor];
      if w.quote.Some? then
        if c == w.quote.value then
          var text := if w.ansiStart.Some? then w.text[..w.ansiStart.value] + abc.decode(w.text[w.ansiStart.value..]) else w.text;
          Some(Word(i + 1, text, None, None))
        else if c == '\\' && w.quote.value == '"' && i + 1 < |src| then Some(w.(cursor := i + 2, text := w.text + [src[i + 1]]))
        else Some(w.(cursor := i + 1, text := w.text + [c]))
      else if c == '\'' || c == '"' then Some(w.(cursor := i + 1, quote := Some(c)))
      else if c == '$' && i + 1 < |src| && (src[i + 1] == '\'' || src[i + 1] == '"') then
        Some(w.(cursor := i + 2, quote := Some(src[i + 1]),
                ansiStart := if src[i + 1] == '\'' then Some(|w.text|) else w.ansiStart))
      else if c == '\\' && i + 1 < |src| then Some(w.(cursor := i + 2, text := w.text + [src[i + 1]]))
      else if IsSpace(c) || c in ";|&()<>" then None
      else Some(w.(cursor := i + 1, text := w.text + [c]))
  }

  function ReadWord(abc: Alphabet, src: string, w: Word): (r: Word)
    requires w.cursor <= |src| && (w.ansiStart.Some? ==> w.ansiStart.value <= |w.text|)
    ensures w.cursor <= r.cursor <= |src|
    decreases |src| - w.cursor
  {
    match WordStep(abc, src, w)
    case None => w
    case Some(w') => ReadWord(abc, src, w')
  }

  function HeredocStart(src: string, i: nat): (r: Option<(nat, bool)>)
    requires i < |src|
    ensures r.Some? ==> i + 2 <= r.value.0 < |src|
  {
    if !(At(src, i, '<') && At(src, i + 1, '<')) || At(src, i + 2, '<') || (i > 0 && src[i - 1] == '<') then None
    else
      var stripTabs := At(src, i + 2, '-');
      var cursor := SkipBlanks(src, if stripTabs then i + 3 else i + 2);
      if cursor == |src| || src[cursor] in "\r\n" then None else Some((cursor, stripTabs))
  }

  function ParseHeredoc(l: Lexer): (r: Option<Lexer>)
    requires Ready(l)
    ensures r.Some? ==> Advances(l, r.value) && r.value.comments == l.comments
  {
    match HeredocStart(l.src, l.index)
    case None => None
    case Some((cursor, stripTabs)) =>
      var word := ReadWord(l.abc, l.src, Word(cursor, "", None, None));
      if word.quote.Some? || word.text == "" then None
      else
        var l := l.(pending := l.pending + [Heredoc(word.text, stripTabs)]);
        Some(Move(SetTop(l, Top(l).(previous := Some('w'))), word.cursor))
  }

  function DropTabs(s: string): string {
    if s != "" && s[0] == '\t' then DropTabs(s[1..]) else s
  }

  /** The line at `i` as it is compared with a delimiter. */
  function CandidateLine(src: string, i: nat, stripTabs: bool): string
    requires i <= |src|
  {
    var line := src[i..LineEnd(src, i)];
    var line := if line != "" && line[|line| - 1] == '\r' then line[..|line| - 1] else line;
    if stripTabs then DropTabs(line) else line
  }

  /** Past the line that ends one here-document, or at the end of the source. */
  function SkipOne(src: string, i: nat, h: Heredoc): (j: nat)
    requires i <= |src|
    ensures i <= j <= |src|
    decreases |src| - i
  {
    if i == |src| || CandidateLine(src, i, h.stripTabs) == h.delimiter then AfterLine(src, i)
    else SkipOne(src, AfterLine(src, i), h)
  }

  function SkipPending(src: string, i: nat, pending: seq<Heredoc>): (r: (nat, seq<Heredoc>))
    requires i <= |src|
    ensures i <= r.0 <= |src|
    decreases |pending|
  {
    if pending == [] || i == |src| then (i, pending)
    else SkipPending(src, SkipOne(src, i, pending[0]), pending[1..])
  }

  function SkipHeredocs(l: Lexer): Lexer
    requires l.index <= |l.src|
  {
    var (end, left) := SkipPending(l.src, l.index, l.pending);
    Move(l, end).(pending := left)
  }

  // ----- frames

  function Quoted(l: Lexer): (r: Lexer)
    requires Ready(l) && (Top(l).kind == Single || Top(l).kind == Double || Top(l).kind == AnsiSingle)
    ensures Advances(l, r) && r.comments == l.comments
  {
    var kind, c, i := Top(l).kind, l.src[l.index], l.index;
    if kind != Single && c == '\\' then Stepping(l, Min(i + 2, |l.src|))
    else if kind != Double then (if c == '\'' then Closing(l, i + 1, '\'') else Stepping(l, i + 1))
    else if c == '"' then Closing(l, i + 1, '"')
    else if c == '`' then Opening(l, Backtick, 0, i + 1)
    else
      var expansion := PushExpansion(l);
      if expansion.Some? then expansion.value else Stepping(l, i + 1)
  }

  function Stepping(l: Lexer, end: nat): (r: Lexer)
    requires Ready(l) && l.index < end <= |l.src|
    ensures Advances(l, r) && r.comments == l.comments && r.frames == l.frames
  {
    Move(l, end)
  }

  function Closing(l: Lexer, end: nat, replacement: char): (r: Lexer)
    requires Ready(l) && l.index < end <= |l.src| && Top(l).kind != Code
    ensures Advances(l, r) && r.comments == l.comments
  {
    CloseFrame(Move(l, end), replacement)
  }

  function Opening(l: Lexer, kind: FrameKind, depth: int, end: nat): (r: Lexer)
    requires Ready(l) && l.index < end <= |l.src| && kind != Code && FrameOk(NewFrame(kind, depth))
    ensures Advances(l, r) && r.comments == l.comments
  {
    Move(Push(l, kind, depth), end)
  }

  /** Replacing the top frame by one of the same kind, then opening another above it. */
  function OpeningFrom(l: Lexer, f: Frame, kind: FrameKind, depth: int, end: nat): (r: Lexer)
    requires Ready(l) && l.index < end <= |l.src| && f.kind == Top(l).kind && FrameOk(f)
    requires kind != Code && FrameOk(NewFrame(kind, depth))
    ensures Advances(l, r) && r.comments == l.comments
  {
    Move(Push(SetTop(l, f), kind, depth), end)
  }

  /** Replacing the top frame by one of the same kind, then moving. */
  function Setting(l: Lexer, f: Frame, end: nat): (r: Lexer)
    requires Ready(l) && l.index < end <= |l.src| && f.kind == Top(l).kind && FrameOk(f)
    ensures Advances(l, r) && r.comments == l.comments
  {
    Move(SetTop(l, f), end)
  }

  function InactiveExpansion(l: Lexer): (r: Lexer)
    requires Ready(l) && (Top(l).kind == Parameter || Top(l).kind == Arithmetic)
    ensures Advances(l, r) && r.comments == l.comments
  {
    var f, c, i := Top(l), l.src[l.index], l.index;
    if c == '\\' then Stepping(l, Min(i + 2, |l.src|))
    else if c == '$' && At(l.src, i + 1, '\'') then Opening(l, AnsiSingle, 0, i + 2)
    else if c == '\'' || c == '"' then Opening(l, if c == '\'' then Single else Double, 0, i + 1)
    else
      var expansion := PushExpansion(l);
      if expansion.Some? then expansion.value else InactiveBracket(l)
  }

  function InactiveBracket(l: Lexer): (r: Lexer)
    requires Ready(l) && (Top(l).kind == Parameter || Top(l).kind == Arithmetic)
    ensures Advances(l, r) && r.comments == l.comments
  {
    var f, c, i := Top(l), l.src[l.index], l.index;
    if f.kind == Parameter then
      if c == '}' then
        var l' := Move(SetTop(l, f.(depth := f.depth - 1)), i + 1);
        if f.depth - 1 == 0 then CloseFrame(l', '}') else l'
      else Stepping(l, i + 1)
    else if c == '(' then Setting(l, f.(depth := f.depth + 1), i + 1)
    else if c == ')' then
      if f.depth == 1 && At(l.src, i + 1, ')') then Closing(l, i + 2, ')')
      else Setting(l, f.(depth := if f.depth - 1 >= 1 then f.depth - 1 else 1), i + 1)
    else Stepping(l, i + 1)
  }

  function CaseTop(f: Frame): Option<CaseState> {
    if f.caseStates == [] then None else Some(f.caseStates[|f.caseStates| - 1])
  }

  function SetCase(f: Frame, state: CaseState): Frame
    requires f.caseStates != []
  {
    f.(caseStates := f.caseStates[|f.caseStates| - 1 := state])
  }

  /** A pattern has begun once anything but a blank, `(` or `esac` is seen. */
  function BeginPattern(f: Frame): Frame {
    if CaseTop(f) == Some(PatternStart) then SetCase(f, Pattern) else f
  }

  predicate Active(f: Frame) {
    f.kind == Code || f.kind == Command || f.kind == Backtick || f.kind == ArithmeticCommand
  }

  function ActiveShell(l: Lexer): (r: Lexer)
    requires Ready(l) && Active(Top(l))
    ensures Advances(l, r)
  {
    var f, c, i := Top(l), l.src[l.index], l.index;
    if f.kind == Backtick && c == '`' then Closing(l, i + 1, '`')
    else if c == '\\' then
      var end := Min(i + 2, |l.src|);
      if At(l.src, i + 1, '\n') then Stepping(l, end) else Setting(l, f.(previous := Some('w')), end)
    else if c == '\n' then NewLine(l)
    else ActiveQuoting(l)
  }

  function ActiveQuoting(l: Lexer): (r: Lexer)
    requires Ready(l) && Active(Top(l))
    ensures Advances(l, r)
  {
    var f, c, i := Top(l), l.src[l.index], l.index;
    if c == '\'' || c == '"' then
      OpeningFrom(l, BeginPattern(f).(previous := Some(c), commandPosition := false),
                  if c == '\'' then Single else Double, 0, i + 1)
    else if c == '`' then OpeningFrom(l, f.(commandPosition := false), Backtick, 0, i + 1)
    else ActiveDollar(l)
  }

  function ActiveDollar(l: Lexer): (r: Lexer)
    requires Ready(l) && Active(Top(l))
    ensures Advances(l, r)
  {
    var f, c, i := Top(l), l.src[l.index], l.index;
    if c == '$' && At(l.src, i + 1, '\'') then
      OpeningFrom(l, BeginPattern(f).(previous := Some('w'), commandPosition := false), AnsiSingle, 0, i + 2)
    else if c == '$' && (At(l.src, i + 1, '(') || At(l.src, i + 1, '{')) then
      ActiveExpansion(l, BeginPattern(f).(commandPosition := false))
    else ActiveOperator(l)
  }

  function ActiveExpansion(l: Lexer, f: Frame): (r: Lexer)
    requires Ready(l) && f.kind == Top(l).kind && FrameOk(f)
    requires At(l.src, l.index, '$') && (At(l.src, l.index + 1, '(') || At(l.src, l.index + 1, '{'))
    ensures Advances(l, r) && r.comments == l.comments
  {
    PushExpansion(SetTop(l, f)).value
  }

  function NewLine(l: Lexer): (r: Lexer)
    requires Ready(l)
    ensures Advances(l, r) && r.comments == l.comments
  {
    var l' := Move(SetTop(l, Top(l).(previous := Some('\n'), commandPosition := true)), l.index + 1);
    var (end, _) := SkipPending(l'.src, l'.index, l'.pending);
    NewlinesAdd(l.src, l.index, l.index + 1, end);
    SkipHeredocs(l')
  }

  function ActiveOperator(l: Lexer): (r: Lexer)
    requires Ready(l) && Active(Top(l))
    ensures Advances(l, r)
  {
    var f, c, i := Top(l), l.src[l.index], l.index;
    if CaseTop(f) == Some(PatternStart) && c == '(' then Setting(l, SetCase(f, Pattern).(previous := Some(c)), i + 1)
    else if c == '(' && At(l.src, i + 1, '(') then
      OpeningFrom(l, f.(previous := Some(')'), commandPosition := false), ArithmeticCommand, 1, i + 2)
    else
      var heredoc := if f.kind != ArithmeticCommand then ParseHeredoc(l) else None;
      if heredoc.Some? then heredoc.value else ActiveLexeme(l)
  }

  function ActiveLexeme(l: Lexer): (r: Lexer)
    requires Ready(l) && Active(Top(l))
    ensures Advances(l, r)
  {
    var f, c, i := Top(l), l.src[l.index], l.index;
    if c == '#' && (f.previous == None || f.previous.value in BOUNDARIES) then RecordComment(l)
    else if l.abc.alpha(c) || c == '_' then ActiveWord(l)
    else if CaseTop(f) == Some(Body) && CaseEnd(l.src, i) > 0 then
      Setting(l, SetCase(f, PatternStart).(commandPosition := true, previous := Some(';')), i + CaseEnd(l.src, i))
    else if f.kind == ArithmeticCommand then ArithmeticOperator(l)
    else ActivePlain(l)
  }

  function RecordComment(l: Lexer): (r: Lexer)
    requires Ready(l) && l.src[l.index] == '#'
    ensures Advances(l, r)
  {
    var i := l.index;
    var end := LineEnd(l.src, i + 1);
    var text := TrimStart(l.src[i + 1..end]);
    Move(l.(comments := l.comments + [Comment(l.line, text, Blank(l.src[LineStart(l.src, i)..i]))]), end)
  }

  function WordEnd(abc: Alphabet, src: string, i: nat): (j: nat)
    requires i <= |src|
    ensures i <= j <= |src|
    decreases |src| - i
  {
    if i < |src| && (abc.alnum(src[i]) || src[i] == '_' || src[i] == '-') then WordEnd(abc, src, i + 1) else i
  }

  /** The effect of a word on the nesting of `case` commands and on whether a command may begin next. */
  function AfterWord(f: Frame, word: string): (g: Frame)
    requires word != ""
    ensures g.kind == f.kind && g.depth == f.depth
  {
    var state := CaseTop(f);
    var g :=
      if word == "case" && f.commandPosition && (state == None || state == Some(Body)) then
        f.(caseStates := f.caseStates + [Subject])
      else if word == "in" && state == Some(Subject) then SetCase(f, PatternStart)
      else if word == "esac" && (state == Some(Body) || state == Some(PatternStart)) && f.commandPosition then
        f.(caseStates := f.caseStates[..|f.caseStates| - 1])
      else BeginPattern(f);
    g.(commandPosition := f.commandPosition && word in PREFIX_WORDS, previous := Some(word[|word| - 1]))
  }

  function ActiveWord(l: Lexer): (r: Lexer)
    requires Ready(l)
    ensures Advances(l, r) && r.comments == l.comments
  {
    var end := WordEnd(l.abc, l.src, l.index + 1);
    Setting(l, AfterWord(Top(l), l.src[l.index..end]), end)
  }

  /** The length of the `;;&`, `;;` or `;&` at `i`, or zero. */
  function CaseEnd(src: string, i: nat): (n: nat)
    requires i < |src|
    ensures i + n <= |src|
  {
    if !At(src, i, ';') then 0
    else if At(src, i + 1, ';') then (if At(src, i + 2, '&') then 3 else 2)
    else if At(src, i + 1, '&') then 2
    else 0
  }

  function ArithmeticOperator(l: Lexer): (r: Lexer)
    requires Ready(l) && Top(l).kind == ArithmeticCommand
    ensures Advances(l, r) && r.comments == l.comments
  {
    var f, c, i := Top(l), l.src[l.index], l.index;
    if c == '(' then Setting(l, f.(depth := f.depth + 1), i + 1)
    else if c == ')' then
      if f.depth == 1 && At(l.src, i + 1, ')') then Closing(l, i + 2, ')')
      else Setting(l, f.(depth := if f.depth - 1 >= 1 then f.depth - 1 else 1), i + 1)
    else Setting(l, f.(previous := Some(c)), i + 1)
  }

  function ActivePlain(l: Lexer): (r: Lexer)
    requires Ready(l) && Active(Top(l))
    ensures Advances(l, r) && r.comments == l.comments
  {
    var c, i := l.src[l.index], l.index;
    var f := if IsSpace(c) then Top(l) else BeginPattern(Top(l));
    if CaseTop(f) == Some(Pattern) && c == ')' then
      Setting(l, SetCase(f, Body).(commandPosition := true, previous := Some(c)), i + 1)
    else ActiveBracket(l, f)
  }

  function ActiveBracket(l: Lexer, f: Frame): (r: Lexer)
    requires Ready(l) && Active(Top(l)) && f.kind == Top(l).kind && FrameOk(f)
    ensures Advances(l, r) && r.comments == l.comments
  {
    var c, i := l.src[l.index], l.index;
    if f.kind == Command && c == ')' then
      if f.caseStates != [] && f.depth == 1 then Setting(l, f.(previous := Some(c)), i + 1)
      else
        var l' := Move(SetTop(l, f.(depth := f.depth - 1)), i + 1);
        if f.depth - 1 == 0 then CloseFrame(l', ')') else l'
    else
      var f := if f.kind == Command && c == '(' then f.(depth := f.depth + 1, commandPosition := true) else f;
      var g := f.(previous := Some(c));
      Setting(l, if c in ";|&!({" then g.(commandPosition := true)
                 else if !IsSpace(c) then g.(commandPosition := false) else g, i + 1)
  }

  function Step(l: Lexer): (r: Lexer)
    requires Ready(l)
    ensures Advances(l, r)
  {
    var kind := Top(l).kind;
    if kind == Single || kind == Double || kind == AnsiSingle then Quoted(l)
    else if kind == Parameter || kind == Arithmetic then InactiveExpansion(l)
    else ActiveShell(l)
  }

  function Scan(l: Lexer): (r: Lexer)
    requires l.index <= |l.src| && FramesOk(l.frames)
    ensures r.src == l.src && r.index == |l.src| && FramesOk(r.frames)
    decreases |l.src| - l.index
  {
    if l.index == |l.src| then l else Scan(Step(l))
  }
}
