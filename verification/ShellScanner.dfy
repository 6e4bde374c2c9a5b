/** The shell comment lexer as an object whose methods update its fields, each doing what the step function says. */
module ShellScanners {
  import opened Prelude
  import opened Text
  import opened SourceLines
  import opened ShellLexer
  import ShellProofs
  import HeredocWords
  import opened CommentUnits

  class ShellCommentLexer {
    const abc: Alphabet
    const source: string
    var index: nat
    var line: nat
    var frames: seq<Frame>
    var pending: seq<Heredoc>
    var comments: seq<Comment>

    function View(): Lexer
      reads this
    {
      Lexer(abc, source, index, line, frames, pending, comments)
    }

    constructor (abc: Alphabet, source: string)
      ensures View() == Start(abc, source)
    {
      this.abc, this.source := abc, source;
      index, line, frames, pending, comments := 0, 1, [NewFrame(Code, 0)], [], [];
    }

    method MoveTo(end: nat)
      requires index <= end <= |source|
      modifies this`index, this`line
      ensures View() == Move(old(View()), end)
    {
      line := line + Newlines(source, index, end);
      index := end;
    }

    method PushFrame(kind: FrameKind, depth: int)
      modifies this`frames
      ensures View() == Push(old(View()), kind, depth)
    {
      frames := frames + [NewFrame(kind, depth)];
    }

    method PushAnyExpansion() returns (pushed: bool)
      requires Ready(View())
      modifies this`frames, this`index, this`line
      ensures var r := PushExpansion(old(View()));
              pushed == r.Some? && View() == (if r.Some? then r.value else old(View()))
    {
      if At(source, index, '$') && At(source, index + 1, '(') && At(source, index + 2, '(') {
        PushFrame(Arithmetic, 1);
        MoveTo(index + 3);
        return true;
      }
      if At(source, index, '$') && At(source, index + 1, '(') {
        PushFrame(Command, 1);
        MoveTo(index + 2);
        return true;
      }
      if At(source, index, '$') && At(source, index + 1, '{') {
        PushFrame(Parameter, 1);
        MoveTo(index + 2);
        return true;
      }
      return false;
    }

    method Close(replacement: char)
      requires |frames| >= 2
      modifies this`frames
      ensures View() == CloseFrame(old(View()), replacement)
    {
      frames := frames[..|frames| - 1];
      frames := frames[|frames| - 1 := frames[|frames| - 1].(previous := Some(replacement))];
    }

    method UpdateTop(f: Frame)
      requires |frames| >= 1
      modifies this`frames
      ensures View() == SetTop(old(View()), f)
    {
      frames := frames[|frames| - 1 := f];
    }

    /** The top frame becomes `f`, and the lexer moves on. */
    method Advance(f: Frame, end: nat)
      requires |frames| >= 1 && index <= end <= |source|
      modifies this`frames, this`index, this`line
      ensures View() == Move(SetTop(old(View()), f), end)
    {
      UpdateTop(f);
      MoveTo(end);
    }

    /** The top frame becomes `f`, another opens above it, and the lexer moves on. */
    method Enter(f: Frame, kind: FrameKind, depth: int, end: nat)
      requires |frames| >= 1 && index <= end <= |source|
      modifies this`frames, this`index, this`line
      ensures View() == Move(Push(SetTop(old(View()), f), kind, depth), end)
    {
      UpdateTop(f);
      PushFrame(kind, depth);
      MoveTo(end);
    }

    /** Reads a delimiter word, through its quotes and escapes. */
    method ReadDelimiter(begin: nat) returns (cursor: nat, delimiter: string, quote: Option<char>)
      requires begin <= |source|
      ensures begin <= cursor <= |source|
      ensures exists ansiStart :: ReadWord(abc, source, Word(begin, "", None, None)) == Word(cursor, delimiter, quote, ansiStart)
    {
      hide ReadWord, IsSpace;
      ghost var first := Word(begin, "", None, None);
      cursor, delimiter, quote := begin, "", None;
      var ansiStart: Option<nat> := None;
      while cursor < |source|
        invariant begin <= cursor <= |source| && (ansiStart.Some? ==> ansiStart.value <= |delimiter|)
        invariant ReadWord(abc, source, Word(cursor, delimiter, quote, ansiStart)) == ReadWord(abc, source, first)
        decreases |source| - cursor
      {
        ghost var before := Word(cursor, delimiter, quote, ansiStart);
        var c := source[cursor];
        var quoteFollows := cursor + 1 < |source| && (source[cursor + 1] == '\'' || source[cursor + 1] == '"');
        if quote.Some? {
          if c == quote.value {
            if ansiStart.Some? {
              delimiter := delimiter[..ansiStart.value] + abc.decode(delimiter[ansiStart.value..]);
              ansiStart := None;
            }
            quote := None;
          } else if c == '\\' && quote.value == '"' && cursor + 1 < |source| {
            cursor := cursor + 1;
            delimiter := delimiter + [source[cursor]];
          } else {
            delimiter := delimiter + [c];
          }
          cursor := cursor + 1;
        } else if c == '\'' || c == '"' {
          quote, cursor := Some(c), cursor + 1;
        } else if c == '$' && quoteFollows {
          quote := Some(source[cursor + 1]);
          if quote.value == '\'' {
            ansiStart := Some(|delimiter|);
          }
          cursor := cursor + 2;
        } else if c == '\\' && cursor + 1 < |source| {
          delimiter, cursor := delimiter + [source[cursor + 1]], cursor + 2;
        } else if IsSpace(c) || c in ";|&()<>" {
          HeredocWords.WordStops(abc, source, before);
          return;
        } else {
          delimiter, cursor := delimiter + [c], cursor + 1;
        }
        HeredocWords.ReadOn(abc, source, before, Word(cursor, delimiter, quote, ansiStart));
      }
      HeredocWords.WordStops(abc, source, Word(cursor, delimiter, quote, ansiStart));
    }

    method TryHeredoc() returns (found: bool)
      requires Ready(View())
      modifies this`frames, this`index, this`line, this`pending
      ensures var r := ParseHeredoc(old(View()));
              found == r.Some? && View() == (if r.Some? then r.value else old(View()))
    {
      var start := HeredocStart(source, index);
      if start == None {
        return false;
      }
      var (begin, stripTabs) := start.value;
      var cursor, delimiter, quote := ReadDelimiter(begin);
      if quote.Some? || delimiter == "" {
        return false;
      }
      pending := pending + [Heredoc(delimiter, stripTabs)];
      Advance(frames[|frames| - 1].(previous := Some('w')), cursor);
      return true;
    }

    method SkipBodies()
      requires index <= |source|
      modifies this`index, this`line, this`pending
      ensures View() == SkipHeredocs(old(View()))
    {
      ghost var start := View();
      while pending != [] && index < |source|
        invariant start.index <= index <= |source|
        invariant View() == Move(start, index).(pending := pending)
        invariant SkipPending(source, index, pending) == SkipPending(source, start.index, start.pending)
        decreases |pending|
      {
        var h := pending[0];
        pending := pending[1..];
        ghost var body, left := index, pending;
        var done := false;
        while index < |source| && !done
          invariant pending == left
          invariant start.index <= body <= index <= |source|
          invariant View() == Move(start, index).(pending := pending)
          invariant SkipOne(source, body, h) == if done then index else SkipOne(source, index, h)
          decreases |source| - index
        {
          done := CandidateLine(source, index, h.stripTabs) == h.delimiter;
          ShellProofs.MoveTwice(start, index, AfterLine(source, index));
          MoveTo(AfterLine(source, index));
        }
      }
    }

    method InQuotes()
      requires Ready(View()) && (Top(View()).kind == Single || Top(View()).kind == Double || Top(View()).kind == AnsiSingle)
      modifies this`frames, this`index, this`line
      ensures View() == Quoted(old(View()))
    {
      var c, kind := source[index], frames[|frames| - 1].kind;
      if kind == Single {
        MoveTo(index + 1);
        if c == '\'' {
          Close('\'');
        }
        return;
      }
      if kind == AnsiSingle {
        if c == '\\' {
          MoveTo(Min(index + 2, |source|));
        } else {
          MoveTo(index + 1);
          if c == '\'' {
            Close('\'');
          }
        }
        return;
      }
      if c == '\\' {
        MoveTo(Min(index + 2, |source|));
      } else if c == '"' {
        MoveTo(index + 1);
        Close('"');
      } else if c == '`' {
        PushFrame(Backtick, 0);
        MoveTo(index + 1);
      } else {
        var pushed := PushAnyExpansion();
        if !pushed {
          MoveTo(index + 1);
        }
      }
    }

    method InExpansion()
      requires Ready(View()) && (Top(View()).kind == Parameter || Top(View()).kind == Arithmetic)
      modifies this`frames, this`index, this`line
      ensures View() == InactiveExpansion(old(View()))
    {
      hide InactiveBracket, Newlines;
      var f, c := frames[|frames| - 1], source[index];
      if c == '\\' {
        MoveTo(Min(index + 2, |source|));
        return;
      }
      if c == '$' && At(source, index + 1, '\'') {
        PushFrame(AnsiSingle, 0);
        MoveTo(index + 2);
        return;
      }
      if c == '\'' || c == '"' {
        PushFrame(if c == '\'' then Single else Double, 0);
        MoveTo(index + 1);
        return;
      }
      var pushed := PushAnyExpansion();
      if !pushed {
        InBrackets();
      }
    }

    /** Inside an expansion, anything but an escape, a quote or another expansion. */
    method InBrackets()
      requires Ready(View()) && (Top(View()).kind == Parameter || Top(View()).kind == Arithmetic)
      requires PushExpansion(View()) == None
      modifies this`frames, this`index, this`line
      ensures View() == InactiveBracket(old(View()))
    {
      hide Newlines;
      var f, c := frames[|frames| - 1], source[index];
      if f.kind == Parameter {
        if c == '$' && At(source, index + 1, '{') {
          assert false;
        } else if c == '}' {
          Advance(f.(depth := f.depth - 1), index + 1);
          if f.depth - 1 == 0 {
            Close('}');
          }
        } else {
          MoveTo(index + 1);
        }
        return;
      }
      Brackets(f, c, false);
    }

    /** Counting the brackets of an arithmetic expansion or command, whose `))` closes it. */
    method Brackets(f: Frame, c: char, remember: bool)
      requires Ready(View()) && f == Top(View()) && c == source[index] && f.kind != Code
      modifies this`frames, this`index, this`line
      ensures var l := old(View());
              View() ==
              if c == '(' then Setting'(l, f.(depth := f.depth + 1), l.index + 1)
              else if c == ')' then
                if f.depth == 1 && At(source, l.index + 1, ')') then CloseFrame(Move(l, l.index + 2), ')')
                else Setting'(l, f.(depth := if f.depth - 1 >= 1 then f.depth - 1 else 1), l.index + 1)
              else if remember then Setting'(l, f.(previous := Some(c)), l.index + 1)
              else Move(l, l.index + 1)
    {
      if c == '(' {
        Advance(f.(depth := f.depth + 1), index + 1);
      } else if c == ')' {
        if f.depth == 1 && At(source, index + 1, ')') {
          MoveTo(index + 2);
          Close(')');
        } else {
          Advance(f.(depth := if f.depth - 1 >= 1 then f.depth - 1 else 1), index + 1);
        }
      } else {
        if remember {
          UpdateTop(f.(previous := Some(c)));
        }
        MoveTo(index + 1);
      }
    }

    static ghost function Setting'(l: Lexer, f: Frame, end: nat): Lexer
      requires |l.frames| >= 1 && l.index <= end <= |l.src|
    {
      Move(SetTop(l, f), end)
    }

    method InActiveShell()
      requires Ready(View()) && Active(Top(View()))
      modifies this
      ensures View() == ActiveShell(old(View()))
    {
      hide ActiveQuoting, Newlines, SkipHeredocs;
      var f, c := frames[|frames| - 1], source[index];
      if f.kind == Backtick && c == '`' {
        MoveTo(index + 1);
        Close('`');
        return;
      }
      if c == '\\' {
        var end := Min(index + 2, |source|);
        if !At(source, index + 1, '\n') {
          UpdateTop(f.(previous := Some('w')));
        }
        MoveTo(end);
        return;
      }
      if c == '\n' {
        Advance(f.(previous := Some('\n'), commandPosition := true), index + 1);
        SkipBodies();
        return;
      }
      OnQuoting();
    }

    method OnQuoting()
      requires Ready(View()) && Active(Top(View()))
      modifies this
      ensures View() == ActiveQuoting(old(View()))
    {
      hide ActiveDollar, Newlines;
      var f, c := frames[|frames| - 1], source[index];
      if c == '\'' || c == '"' {
        Enter(BeginPattern(f).(previous := Some(c), commandPosition := false), if c == '\'' then Single else Double, 0, index + 1);
        return;
      }
      if c == '`' {
        Enter(f.(commandPosition := false), Backtick, 0, index + 1);
        return;
      }
      OnDollar();
    }

    method OnDollar()
      requires Ready(View()) && Active(Top(View()))
      modifies this
      ensures View() == ActiveDollar(old(View()))
    {
      hide ActiveOperator, Newlines;
      var f, c := frames[|frames| - 1], source[index];
      if c == '$' && At(source, index + 1, '\'') {
        Enter(BeginPattern(f).(previous := Some('w'), commandPosition := false), AnsiSingle, 0, index + 2);
        return;
      }
      if c == '$' && (At(source, index + 1, '(') || At(source, index + 1, '{')) {
        UpdateTop(BeginPattern(f).(commandPosition := false));
        var pushed := PushAnyExpansion();
        return;
      }
      OnOperator();
    }

    method OnOperator()
      requires Ready(View()) && Active(Top(View()))
      modifies this
      ensures View() == ActiveOperator(old(View()))
    {
      hide ActiveLexeme, ParseHeredoc, Newlines;
      var f, c := frames[|frames| - 1], source[index];
      if CaseTop(f) == Some(PatternStart) && c == '(' {
        Advance(SetCase(f, Pattern).(previous := Some(c)), index + 1);
        return;
      }
      if c == '(' && At(source, index + 1, '(') {
        Enter(f.(previous := Some(')'), commandPosition := false), ArithmeticCommand, 1, index + 2);
        return;
      }
      if f.kind != ArithmeticCommand {
        var found := TryHeredoc();
        if found {
          return;
        }
      }
      OnLexeme();
    }

    method OnLexeme()
      requires Ready(View()) && Active(Top(View()))
      modifies this
      ensures View() == ActiveLexeme(old(View()))
    {
      hide ActiveWord, ActivePlain, Newlines, CaseEnd, RecordComment;
      var f, c := frames[|frames| - 1], source[index];
      if c == '#' && (f.previous == None || f.previous.value in BOUNDARIES) {
        TakeComment();
        return;
      }
      if abc.alpha(c) || c == '_' {
        OnWord();
        return;
      }
      if CaseTop(f) == Some(Body) && CaseEnd(source, index) > 0 {
        Advance(SetCase(f, PatternStart).(commandPosition := true, previous := Some(';')), index + CaseEnd(source, index));
        return;
      }
      if f.kind == ArithmeticCommand {
        Brackets(f, c, true);
        return;
      }
      OnPlain();
    }

    method TakeComment()
      requires Ready(View()) && source[index] == '#'
      modifies this`index, this`line, this`comments
      ensures View() == RecordComment(old(View()))
    {
      var end := LineEnd(source, index + 1);
      var prefix := source[LineStart(source, index)..index];
      var text := TrimStart(source[index + 1..end]);
      comments := comments + [Comment(line, text, Blank(prefix))];
      MoveTo(end);
    }

    method OnWord()
      requires Ready(View())
      modifies this`frames, this`index, this`line
      ensures View() == ActiveWord(old(View()))
    {
      var end := index + 1;
      while end < |source| && (abc.alnum(source[end]) || source[end] == '_' || source[end] == '-')
        invariant index < end <= |source|
        invariant WordEnd(abc, source, index + 1) == WordEnd(abc, source, end)
      {
        end := end + 1;
      }
      Advance(AfterWord(frames[|frames| - 1], source[index..end]), end);
    }

    method OnPlain()
      requires Ready(View()) && Active(Top(View()))
      modifies this`frames, this`index, this`line
      ensures View() == ActivePlain(old(View()))
    {
      var c := source[index];
      var f := frames[|frames| - 1];
      if !IsSpace(c) {
        f := BeginPattern(f);
      }
      if CaseTop(f) == Some(Pattern) && c == ')' {
        Advance(SetCase(f, Body).(commandPosition := true, previous := Some(c)), index + 1);
        return;
      }
      OnBracket(f);
    }

    method OnBracket(current: Frame)
      requires Ready(View()) && Active(Top(View())) && current.kind == Top(View()).kind && FrameOk(current)
      modifies this`frames, this`index, this`line
      ensures View() == ActiveBracket(old(View()), current)
    {
      var c, f := source[index], current;
      if f.kind == Command && c == '(' {
        f := f.(depth := f.depth + 1, commandPosition := true);
      } else if f.kind == Command && c == ')' {
        if f.caseStates != [] && f.depth == 1 {
          Advance(f.(previous := Some(c)), index + 1);
          return;
        }
        Advance(f.(depth := f.depth - 1), index + 1);
        if f.depth - 1 == 0 {
          Close(')');
        }
        return;
      }
      f := f.(previous := Some(c));
      if c in ";|&!({" {
        f := f.(commandPosition := true);
      } else if !IsSpace(c) {
        f := f.(commandPosition := false);
      }
      Advance(f, index + 1);
    }

    method ScanComments() returns (units: seq<TextUnit>)
      requires View() == Start(abc, source)
      modifies this
      ensures View() == Scan(Start(abc, source))
      ensures units == Group(comments)
    {
      hide Quoted, InactiveExpansion, ActiveShell;
      while index < |source|
        invariant index <= |source| && FramesOk(frames)
        invariant Scan(View()) == Scan(Start(abc, source))
        decreases |source| - index
      {
        ghost var before := View();
        var kind := frames[|frames| - 1].kind;
        if kind == Single || kind == Double || kind == AnsiSingle {
          InQuotes();
        } else if kind == Parameter || kind == Arithmetic {
          InExpansion();
        } else {
          InActiveShell();
        }
        assert View() == Step(before);
      }
      units := GroupCommentLines(comments);
    }
  }
}
