/**
 * Counting brackets: what each lexeme adds to the brackets open in a substitution or an expansion, and that the bracket
 * taken for its end balances the one that opened it.
 */
module ShellBrackets {
  import opened Prelude
  import Text
  import opened SourceLines
  import opened ShellLexer
  import opened ShellProofs
  import opened ShellGrammar

  /**
   * What a character by itself adds to the open brackets: in a command substitution, where the brackets of `case`
   * patterns do not count, and while a `case` command is open no bracket closes the substitution; in arithmetic, where a
   * `)` that closes nothing does not count.
   */
  function Tilt(l: Lexer): int
    requires Ready(l)
  {
    var c, f := l.src[l.index], Top(l);
    match f.kind
    case Command =>
      if c == '(' && CaseTop(f) != Some(PatternStart) then 1
      else if c == ')' && CaseTop(f) != Some(Pattern) && CaseTop(f) != Some(PatternStart) && (f.depth > 1 || f.caseStates == [])
           then -1
      else 0
    case Arithmetic => if c == '(' then 1 else if c == ')' && f.depth > 1 then -1 else 0
    case ArithmeticCommand =>
      if c == '(' && CaseTop(f) != Some(PatternStart) then 1 else if c == ')' && f.depth > 1 then -1 else 0
    case _ => 0
  }

  lemma BracketDepth(l: Lexer, f: Frame)
    requires Ready(l) && Active(Top(l)) && Top(l).kind != ArithmeticCommand
    requires f.kind == Top(l).kind && f.depth == Top(l).depth && FrameOk(f) && !ClosesCommand(l)
    requires f.caseStates == [] <==> Top(l).caseStates == []
    ensures var r := ActiveBracket(l, f);
            |r.frames| >= 1 && Top(r).depth - Top(l).depth
            == if f.kind != Command then 0
               else if l.src[l.index] == '(' then 1
               else if l.src[l.index] == ')' && (f.depth > 1 || f.caseStates == []) then -1
               else 0
  {
    hide Newlines;
  }

  lemma PlainDepth(l: Lexer)
    requires Ready(l) && Active(Top(l)) && Top(l).kind != ArithmeticCommand && !ClosesCommand(l)
    requires !(CaseTop(Top(l)) == Some(PatternStart) && l.src[l.index] == '(')
    ensures var r := ActivePlain(l); |r.frames| >= 1 && Top(r).depth == Top(l).depth + Tilt(l)
  {
    hide Newlines, ActiveBracket, ClosesCommand;
    var f := if Text.IsSpace(l.src[l.index]) then Top(l) else BeginPattern(Top(l));
    BracketDepth(l, f);
  }

  lemma ArithmeticDepth(l: Lexer)
    requires Ready(l) && Top(l).kind == ArithmeticCommand && !ClosesCompute(l)
    requires !(CaseTop(Top(l)) == Some(PatternStart) && l.src[l.index] == '(')
    ensures var r := ArithmeticOperator(l); |r.frames| >= 1 && Top(r).depth == Top(l).depth + Tilt(l)
  {
    hide Newlines;
  }

  lemma WordDepth(l: Lexer)
    requires Ready(l)
    ensures var r := ActiveWord(l); |r.frames| >= 1 && Top(r).depth == Top(l).depth
  {
    hide Newlines;
  }

  lemma FlatFacts(l: Lexer)
    requires Ready(l) && IsFlat(l)
    ensures !StartsComment(l) && !ClosesCommand(l) && !ClosesCompute(l)
  {
    hide ParseHeredoc;
  }

  /** A flat lexeme adds what its first character does. */
  lemma FlatDepth(l: Lexer)
    requires Ready(l) && Active(Top(l)) && IsFlat(l) && !l.abc.alpha('(') && !l.abc.alpha(')')
    ensures var r := Step(l); |r.frames| >= 1 && Top(r).depth == Top(l).depth + Tilt(l)
  {
    hide Step, ParseHeredoc, Newlines, ActivePlain, ActiveWord, ArithmeticOperator, IsFlat, StartsComment,
         ClosesCommand, ClosesCompute;
    FlatLexeme(l);
    FlatFacts(l);
    var c := l.src[l.index];
    if CaseTop(Top(l)) == Some(PatternStart) && c == '(' {
    } else if l.abc.alpha(c) || c == '_' {
      WordDepth(l);
    } else if CaseTop(Top(l)) == Some(Body) && CaseEnd(l.src, l.index) > 0 {
    } else if Top(l).kind == ArithmeticCommand {
      ArithmeticDepth(l);
    } else {
      PlainDepth(l);
    }
  }

  lemma InertDepth(l: Lexer)
    requires Ready(l) && Inert(Top(l)) && IsInertPlain(l)
    ensures var r := Step(l); |r.frames| >= 1 && Top(r).depth == Top(l).depth + Tilt(l)
  {
    hide Newlines;
  }

  /** What the characters of a text add by themselves. */
  ghost function TextTilt(l: Lexer, t: ShellText): int
    requires Sound(l) && Active(Top(l)) && ReadText(l, t).Some?
    decreases t
  {
    match t
    case Done => 0
    case More(x, rest) => (if x.Flat? then Tilt(l) else 0) + TextTilt(ReadLexeme(l, x).value, rest)
  }

  ghost function InertTilt(l: Lexer, t: InertText): int
    requires Sound(l) && Inert(Top(l)) && ReadInert(l, t).Some?
    decreases t
  {
    if t.InertEnd? then 0
    else (if t.InertPlain? then Tilt(l) else 0) + InertTilt(ReadInertPart(l, t).value, t.rest)
  }

  lemma SimpleDepth(l: Lexer, x: Lexeme)
    requires Ready(l) && Active(Top(l)) && Simple(x) && !x.Flat? && ReadSimple(l, x).Some?
    ensures var r := ReadSimple(l, x).value; |r.frames| >= 1 && Top(r).depth == Top(l).depth
  {
    hide Newlines, PlainSpan, EscapedSpan, ReadWord, HeredocStart, SkipPending;
  }

  lemma ExpansionDepth(l: Lexer, g: Frame, e: Expansion)
    requires Ready(l) && StartsExpansion(l) && g.kind == Top(l).kind && FrameOk(g) && ReadExpansion(l, g, e).Some?
    ensures var r := ReadExpansion(l, g, e).value; |r.frames| >= 1 && Top(r).depth == g.depth
  {
    hide ReadText, ReadInert, Inside, Outside, Newlines;
    match e {
      case CommandOf(code) =>
        OutsideStays(l, g, Command, 1, 2, ReadText(Inside(l, g, Command, 1, 2), code).value, 1, ')');
      case ArithmeticOf(text) =>
        OutsideStays(l, g, Arithmetic, 1, 3, ReadInert(Inside(l, g, Arithmetic, 1, 3), text).value, 2, ')');
      case ParameterOf(text) =>
        OutsideStays(l, g, Parameter, 1, 2, ReadInert(Inside(l, g, Parameter, 1, 2), text).value, 1, '}');
    }
  }

  lemma LexemeDepth(l: Lexer, x: Lexeme)
    requires Ready(l) && Active(Top(l)) && ReadLexeme(l, x).Some? && !l.abc.alpha('(') && !l.abc.alpha(')')
    ensures var r := ReadLexeme(l, x).value; |r.frames| >= 1 && Top(r).depth == Top(l).depth + if x.Flat? then Tilt(l) else 0
  {
    hide ReadText, ReadSimple, ReadDouble, ReadExpansion, Stays, Inside, Outside, Step, IsFlat, Tilt;
    match x {
      case DoubleQuote(text) =>
        var g := BeginPattern(Top(l)).(previous := Some(l.src[l.index]), commandPosition := false);
        OutsideStays(l, g, Double, 0, 1, ReadDouble(Inside(l, g, Double, 0, 1), text).value, 1, '"');
      case Backquote(code) =>
        var g := Top(l).(commandPosition := false);
        OutsideStays(l, g, Backtick, 0, 1, ReadText(Inside(l, g, Backtick, 0, 1), code).value, 1, '`');
      case Expanded(e) => ExpansionDepth(l, BeginPattern(Top(l)).(commandPosition := false), e);
      case Compute(code) =>
        var g := Top(l).(previous := Some(')'), commandPosition := false);
        OutsideStays(l, g, ArithmeticCommand, 1, 2, ReadText(Inside(l, g, ArithmeticCommand, 1, 2), code).value, 2, ')');
      case Flat(n) =>
        FlatIsStep(l, n);
        FlatDepth(l);
      case _ => SimpleDepth(l, x);
    }
  }

  lemma FlatIsStep(l: Lexer, n: nat)
    requires Ready(l) && Active(Top(l)) && ReadLexeme(l, Flat(n)).Some?
    ensures IsFlat(l) && ReadLexeme(l, Flat(n)).value == Step(l)
  {
    hide Step, IsFlat, ReadWord, Newlines;
  }

  lemma {:induction false} TextDepth(l: Lexer, t: ShellText)
    requires Sound(l) && Active(Top(l)) && ReadText(l, t).Some? && !l.abc.alpha('(') && !l.abc.alpha(')')
    ensures var r := ReadText(l, t).value; |r.frames| >= 1 && Top(r).depth == Top(l).depth + TextTilt(l, t)
    decreases t
  {
    hide ReadLexeme, Tilt;
    if t.More? {
      LexemeDepth(l, t.x);
      TextDepth(ReadLexeme(l, t.x).value, t.rest);
    }
  }

  lemma InertPartDepth(l: Lexer, t: InertText)
    requires Ready(l) && Inert(Top(l)) && !t.InertEnd? && ReadInertPart(l, t).Some?
    ensures var r := ReadInertPart(l, t).value;
            |r.frames| >= 1 && Top(r).depth == Top(l).depth + if t.InertPlain? then Tilt(l) else 0
  {
    hide Newlines, ReadText, ReadDouble, ReadExpansion, Stays, Inside, Outside, Step, IsInertPlain, Tilt, PlainSpan,
         EscapedSpan;
    match t {
      case InertPlain(_, _) => InertDepth(l);
      case InertDouble(text, _) =>
        OutsideStays(l, Top(l), Double, 0, 1, ReadDouble(Inside(l, Top(l), Double, 0, 1), text).value, 1, '"');
      case InertExpansion(e, _) => ExpansionDepth(l, Top(l), e);
      case _ =>
    }
  }

  lemma {:induction false} InertTextDepth(l: Lexer, t: InertText)
    requires Sound(l) && Inert(Top(l)) && ReadInert(l, t).Some?
    ensures var r := ReadInert(l, t).value; |r.frames| >= 1 && Top(r).depth == Top(l).depth + InertTilt(l, t)
    decreases t
  {
    hide ReadInertPart, Tilt;
    if !t.InertEnd? {
      InertPartDepth(l, t);
      InertTextDepth(ReadInertPart(l, t).value, t.rest);
    }
  }

  /**
   * The bracket taken for the end of a command substitution balances the one that opened it: in between as many brackets
   * close as open, and so do they in an arithmetic expansion.
   */
  lemma BracketsBalance(l: Lexer, g: Frame, e: Expansion)
    requires Ready(l) && StartsExpansion(l) && g.kind == Top(l).kind && FrameOk(g) && ReadExpansion(l, g, e).Some?
    requires !l.abc.alpha('(') && !l.abc.alpha(')')
    ensures match e
            case CommandOf(code) =>
              var p := Inside(l, g, Command, 1, 2); ReadText(p, code).Some? && TextTilt(p, code) == 0
            case ArithmeticOf(text) =>
              var p := Inside(l, g, Arithmetic, 1, 3); ReadInert(p, text).Some? && InertTilt(p, text) == 0
            case ParameterOf(_) => true
  {
    hide ReadText, ReadInert, Outside, Newlines, TextTilt, InertTilt;
    match e {
      case CommandOf(code) => TextDepth(Inside(l, g, Command, 1, 2), code);
      case ArithmeticOf(text) => InertTextDepth(Inside(l, g, Arithmetic, 1, 3), text);
      case _ =>
    }
  }

  /** Likewise for an arithmetic command. */
  lemma ComputeBalances(l: Lexer, code: ShellText)
    requires Ready(l) && Active(Top(l)) && StartsCompute(l) && ReadCompute(l, code).Some?
    requires !l.abc.alpha('(') && !l.abc.alpha(')')
    ensures var p := Inside(l, Top(l).(previous := Some(')'), commandPosition := false), ArithmeticCommand, 1, 2);
            ReadText(p, code).Some? && TextTilt(p, code) == 0
  {
    hide ReadText, Outside, Stays, Newlines, TextTilt;
    TextDepth(Inside(l, Top(l).(previous := Some(')'), commandPosition := false), ArithmeticCommand, 1, 2), code);
  }
}
