/**
 * Where a comment may begin, said of the source text: by section 2.3 of the POSIX.1-2017 Shell Command Language, where no
 * word is going on. Every comment the lexer reports begins where the text before it allows one; and after each kind of
 * lexeme the lexer takes a `#` for a comment exactly as stated here.
 */
module ShellWords {
  import opened Prelude
  import Text
  import opened SourceLines
  import opened Spelling
  import opened ShellLexer
  import opened ShellProofs
  import opened ShellGrammar

  /** A blank, a line end, or a character of an operator. */
  predicate Separates(c: char) {
    || c == ' ' || c == '\t' || c == '\r' || c == '\n'
    || c == ';' || c == '|' || c == '&' || c == '(' || c == ')' || c == '<' || c == '>'
  }

  lemma BoundariesSeparate(c: char)
    ensures c in BOUNDARIES <==> Separates(c)
  {
  }

  /** The lexer would take a `#` here for a comment. */
  predicate MayComment(f: Frame) {
    f.previous == None || Separates(f.previous.value)
  }

  // ----- after one lexeme

  /**
   * A bracket the lexer counts without taking note of it: one inside an arithmetic command, and one that closes a
   * subshell inside a command substitution.
   */
  predicate Silent(l: Lexer)
    requires Ready(l)
  {
    var c, f := l.src[l.index], Top(l);
    || (f.kind == ArithmeticCommand && (c == ')' || (c == '(' && CaseTop(f) != Some(PatternStart))))
    || (f.kind == Command && c == ')' && f.depth != 1 && CaseTop(f) != Some(Pattern) && CaseTop(f) != Some(PatternStart))
  }

  /**
   * Whether a `#` right after the lexeme `x` at `l` is taken for a comment, `before` saying it of one in its place: not
   * inside a word; after a line end, a blank or an operator. An escaped newline changes nothing, nor does a bracket the
   * lexer takes no note of; and a closing bracket is an operator to it even where it closes an expansion.
   */
  predicate AllowsAfter(l: Lexer, x: Lexeme, before: bool)
    requires Ready(l)
  {
    match x
    case Note(_) => before
    case LineBreak(_) => true
    case Backslashed(_) => At(l.src, l.index + 1, '\n') && before
    case Expanded(e) => !e.ParameterOf?
    case Compute(_) => true
    case Flat(n) =>
      if Silent(l) then before
      else n > 0 && l.index + n <= |l.src| && Separates(l.src[l.index + n - 1])
    case _ => false
  }

  lemma StartsCommentIff(l: Lexer)
    requires Ready(l)
    ensures StartsComment(l) <==> l.src[l.index] == '#' && MayComment(Top(l))
  {
    if Top(l).previous.Some? {
      BoundariesSeparate(Top(l).previous.value);
    }
  }

  lemma WordFrame(l: Lexer)
    requires Ready(l) && Active(Top(l))
    ensures var r := ActiveWord(l);
            r.index > l.index && |r.frames| == |l.frames| && Top(r).previous == Some(l.src[r.index - 1])
  {
    hide Newlines;
    var end := WordEnd(l.abc, l.src, l.index + 1);
    assert l.src[l.index..end][|l.src[l.index..end]| - 1] == l.src[end - 1];
  }

  lemma BracketFrame(l: Lexer, f: Frame)
    requires Ready(l) && Active(Top(l)) && IsFlat(l) && f.kind == Top(l).kind && f.depth == Top(l).depth
    requires l.src[l.index] == ')' ==> (f.caseStates == [] ==> Top(l).caseStates == [])
    requires Top(l).kind != ArithmeticCommand && FrameOk(f) && f.previous == Top(l).previous
    ensures var r := ActiveBracket(l, f);
            && r.index == l.index + 1 && |r.frames| == |l.frames|
            && Top(r).previous == if f.kind == Command && l.src[l.index] == ')' && !(f.caseStates != [] && f.depth == 1)
                                  then Top(l).previous else Some(l.src[l.index])
  {
    hide ParseHeredoc, Newlines;
  }

  lemma PlainFrame(l: Lexer)
    requires Ready(l) && Active(Top(l)) && IsFlat(l) && Top(l).kind != ArithmeticCommand
    ensures var r := ActivePlain(l);
            r.index == l.index + 1 && |r.frames| == |l.frames|
            && Top(r).previous == if Silent(l) then Top(l).previous else Some(l.src[l.index])
  {
    hide ActiveBracket, ParseHeredoc, Newlines, IsFlat;
    var f := if Text.IsSpace(l.src[l.index]) then Top(l) else BeginPattern(Top(l));
    PlainCloses(l);
    BracketFrame(l, f);
  }

  lemma PlainCloses(l: Lexer)
    requires Ready(l) && IsFlat(l)
    ensures !ClosesCommand(l) && !Text.IsSpace(')')
  {
    hide ParseHeredoc;
  }

  lemma ArithmeticFrame(l: Lexer)
    requires Ready(l) && Top(l).kind == ArithmeticCommand && IsFlat(l)
    requires !(CaseTop(Top(l)) == Some(PatternStart) && l.src[l.index] == '(')
    ensures var r := ArithmeticOperator(l);
            r.index == l.index + 1 && |r.frames| == |l.frames|
            && Top(r).previous == if Silent(l) then Top(l).previous else Some(l.src[l.index])
  {
    hide Newlines, ParseHeredoc;
  }

  lemma CaseEndSeparates(src: string, i: nat)
    requires i < |src| && CaseEnd(src, i) > 0
    ensures src[i] == ';' && Separates(src[i + CaseEnd(src, i) - 1])
  {
  }

  /** What a character or word that opens, closes, records and queues nothing leaves. */
  lemma FlatFrame(l: Lexer)
    requires Ready(l) && Active(Top(l)) && IsFlat(l) && !l.abc.alpha('(') && !l.abc.alpha(')')
    ensures var r := Step(l);
            && l.index < r.index <= |l.src| && |r.frames| >= 1
            && MayComment(Top(r)) == (if Silent(l) then MayComment(Top(l)) else Separates(l.src[r.index - 1]))
            && (Silent(l) ==> r.index == l.index + 1 && Separates(l.src[l.index]))
  {
    hide Step, ParseHeredoc, Newlines, ActivePlain, ActiveWord, ArithmeticOperator, IsFlat, StartsComment;
    FlatLexeme(l);
    FlatIsNoComment(l);
    StartsCommentIff(l);
    var c := l.src[l.index];
    if CaseTop(Top(l)) == Some(PatternStart) && c == '(' {
    } else if l.abc.alpha(c) || c == '_' {
      WordFrame(l);
    } else if CaseTop(Top(l)) == Some(Body) && CaseEnd(l.src, l.index) > 0 {
      CaseEndSeparates(l.src, l.index);
    } else if Top(l).kind == ArithmeticCommand {
      ArithmeticFrame(l);
    } else {
      PlainFrame(l);
    }
  }

  lemma FlatIsNoComment(l: Lexer)
    requires Ready(l) && IsFlat(l)
    ensures !StartsComment(l)
  {
    hide ParseHeredoc;
  }

  lemma LineBreakFrame(l: Lexer)
    requires Ready(l)
    ensures |NewLine(l).frames| >= 1 && Top(NewLine(l)).previous == Some('\n')
  {
    hide Newlines, SkipPending;
  }

  lemma BackslashFrame(l: Lexer)
    requires Ready(l) && Active(Top(l)) && l.src[l.index] == '\\'
    ensures |Step(l).frames| >= 1
    ensures MayComment(Top(Step(l))) == (At(l.src, l.index + 1, '\n') && MayComment(Top(l)))
  {
    hide Newlines;
  }

  lemma OperatorFrame(l: Lexer)
    requires Ready(l) && ParseHeredoc(l).Some?
    ensures |ParseHeredoc(l).value.frames| >= 1 && Top(ParseHeredoc(l).value).previous == Some('w')
  {
    hide Newlines, ReadWord, HeredocStart;
  }

  /** After any lexeme the lexer would take a `#` for a comment exactly where the source text is as stated. */
  lemma AllowedAfter(l: Lexer, x: Lexeme)
    requires Ready(l) && Active(Top(l)) && ReadLexeme(l, x).Some? && !l.abc.alpha('(') && !l.abc.alpha(')')
    ensures var r := ReadLexeme(l, x).value;
            |r.frames| >= 1 && (MayComment(Top(r)) <==> AllowsAfter(l, x, MayComment(Top(l))))
  {
    hide Newlines, ReadQuoted, ReadBackquoted, ReadExpansion, ReadCompute, ReadText, ReadSimple, BeginPattern, ParseHeredoc,
         Stays, Step, Silent, Inside, Outside, IsFlat, StartsCompute, StartsExpansion;
    if Simple(x) {
      SimpleAllowed(l, x);
    } else {
      StaysTops(l, ReadLexeme(l, x).value);
    }
  }

  lemma NoteFrame(l: Lexer)
    requires Ready(l) && StartsComment(l)
    ensures RecordComment(l).frames == l.frames
  {
    hide Newlines;
  }

  lemma SimpleAllowed(l: Lexer, x: Lexeme)
    requires Ready(l) && Active(Top(l)) && Simple(x) && ReadSimple(l, x).Some? && !l.abc.alpha('(') && !l.abc.alpha(')')
    ensures var r := ReadSimple(l, x).value;
            |r.frames| >= 1 && (MayComment(Top(r)) <==> AllowsAfter(l, x, MayComment(Top(l))))
  {
    hide Newlines, PlainSpan, EscapedSpan, BeginPattern, ParseHeredoc, Stays, Step, NewLine, Silent, IsFlat, StartsAnsi;
    StaysTops(l, ReadSimple(l, x).value);
    match x {
      case Note(_) => NoteFrame(l);
      case LineBreak(_) => LineBreakFrame(l);
      case Backslashed(_) => BackslashFrame(l);
      case Operator(_, _) => OperatorFrame(l);
      case Flat(_) => FlatFrame(l);
      case _ =>
    }
  }

  /** What a comment that is reported says: the rest of its line without the blanks it begins with. */
  lemma CommentSays(src: string, i: nat, blanks: string, t: string)
    requires StandsAt(src, i, "#" + blanks + t) && '\n' !in blanks && '\n' !in t
    requires i + 1 + |blanks| + |t| == |src| || At(src, i + 1 + |blanks| + |t|, '\n')
    requires Text.Blank(blanks) && (t == "" || !Text.IsSpace(t[0]))
    ensures i < |src| && CommentAt(src, i) == Comment(LineOf(src, i), t, FirstOnLine(src, i))
  {
    hide LineOf, LineStart, Text.Blank, Text.IsSpace;
    var all := "#" + blanks + t;
    var end := i + |all|;
    assert src[i + 1..end] == blanks + t by {
      assert src[i..end][1..] == src[i + 1..end] && all[1..] == blanks + t;
    }
    assert LineEnd(src, i + 1) == end by {
      assert forall k :: i + 1 <= k < end ==> src[k] == (blanks + t)[k - i - 1];
    }
    Text.TrimStartLaw(blanks, t);
    FirstOnLineIff(src, i);
  }

  /** Whether a `#` right after a lexeme is reported. */
  lemma HashAfterIsRecordedIff(l: Lexer, x: Lexeme)
    requires Ready(l) && Active(Top(l)) && ReadLexeme(l, x).Some? && !l.abc.alpha('(') && !l.abc.alpha(')')
    requires var r := ReadLexeme(l, x).value; At(r.src, r.index, '#')
    ensures var r := ReadLexeme(l, x).value;
            && Ready(r)
            && (Step(r).comments != r.comments <==> AllowsAfter(l, x, MayComment(Top(l))))
            && (Step(r).comments != r.comments ==> Step(r).comments == r.comments + [CommentAt(r.src, r.index).(line := r.line)])
  {
    hide Step, ReadLexeme, Stays, AllowsAfter;
    var r := ReadLexeme(l, x).value;
    StaysTops(l, r);
    AllowedAfter(l, x);
    RecordedExactlyAtWordStart(r);
    StartsCommentIff(r);
  }

  /** A lexeme that a word goes on after: a quote, an escaped character, an expansion, or text that ends in no separator. */
  predicate InWord(l: Lexer, x: Lexeme)
    requires Ready(l)
  {
    || x.SingleQuote? || x.AnsiQuote? || x.DoubleQuote? || x.Backquote? || x.Expanded?
    || (x.Backslashed? && !At(l.src, l.index + 1, '\n'))
    || (x.Flat? && 0 < x.length <= |l.src| - l.index && !Separates(l.src[l.index + x.length - 1]))
  }

  /**
   * A `#` inside a word is no comment. The lexer takes one for a comment exactly after a command substitution or an
   * arithmetic expansion, whose closing bracket it does not tell from an operator.
   */
  lemma HashInWordIsRecordedIff(l: Lexer, x: Lexeme)
    requires Ready(l) && Active(Top(l)) && InWord(l, x) && ReadLexeme(l, x).Some? && !l.abc.alpha('(') && !l.abc.alpha(')')
    requires var r := ReadLexeme(l, x).value; At(r.src, r.index, '#')
    ensures var r := ReadLexeme(l, x).value;
            Ready(r) && (Step(r).comments != r.comments <==> x.Expanded? && !x.x.ParameterOf?)
  {
    hide Step, ReadLexeme, Stays, Separates, Silent;
    HashAfterIsRecordedIff(l, x);
    if x.Flat? {
      FlatIsRead(l, x.length);
      FlatFrame(l);
    }
  }

  lemma FlatIsRead(l: Lexer, n: nat)
    requires Ready(l) && Active(Top(l)) && ReadLexeme(l, Flat(n)).Some?
    ensures IsFlat(l) && Step(l).index == l.index + n
  {
    hide Step, IsFlat;
  }

  // ----- in a whole tree

  /**
   * In the tree, comments stand exactly where the text before allows one: each note does, and no `#` that is part of a
   * word or stands alone does.
   */
  ghost predicate TextFollows(l: Lexer, t: ShellText, before: bool)
    requires Sound(l) && Active(Top(l)) && ReadText(l, t).Some?
    decreases t, 0
  {
    match t
    case Done => true
    case More(x, rest) =>
      && LexemeFollows(l, x, before)
      && var m := ReadLexeme(l, x).value; TextFollows(m, rest, AllowsAfter(l, x, before))
  }

  ghost predicate LexemeFollows(l: Lexer, x: Lexeme, before: bool)
    requires Ready(l) && Active(Top(l))
    decreases x, 0
  {
    var f := Top(l);
    match x
    case Note(_) => before
    case Flat(_) => l.src[l.index] == '#' ==> !before
    case DoubleQuote(text) => QuotedFollows(l, BeginPattern(f).(previous := Some('"'), commandPosition := false), text)
    case Backquote(code) => InnerFollows(l, f.(commandPosition := false), Backtick, 0, 1, code)
    case Expanded(e) => ExpansionFollows(l, BeginPattern(f).(commandPosition := false), e)
    case Compute(code) => InnerFollows(l, f.(previous := Some(')'), commandPosition := false), ArithmeticCommand, 1, 2, code)
    case _ => true
  }

  /** Active text in a frame of its own, where a comment may begin at once. */
  ghost predicate InnerFollows(l: Lexer, g: Frame, kind: FrameKind, depth: int, open: nat, code: ShellText)
    requires Ready(l) && g.kind == Top(l).kind && FrameOk(g)
    requires kind != Code && FrameOk(NewFrame(kind, depth)) && Active(NewFrame(kind, depth))
    decreases code, 1
  {
    l.index + open <= |l.src|
    && ReadText(Inside(l, g, kind, depth, open), code).Some? && TextFollows(Inside(l, g, kind, depth, open), code, true)
  }

  ghost predicate QuotedFollows(l: Lexer, g: Frame, text: DoubleText)
    requires Ready(l) && g.kind == Top(l).kind && FrameOk(g)
    decreases text, 1
  {
    ReadDouble(Inside(l, g, Double, 0, 1), text).Some? && DoubleFollows(Inside(l, g, Double, 0, 1), text)
  }

  ghost predicate InnerInertFollows(l: Lexer, g: Frame, kind: FrameKind, open: nat, text: InertText)
    requires Ready(l) && g.kind == Top(l).kind && FrameOk(g) && (kind == Parameter || kind == Arithmetic)
    decreases text, 1
  {
    l.index + open <= |l.src|
    && ReadInert(Inside(l, g, kind, 1, open), text).Some? && InertFollows(Inside(l, g, kind, 1, open), text)
  }

  ghost predicate ExpansionFollows(l: Lexer, g: Frame, e: Expansion)
    requires Ready(l) && g.kind == Top(l).kind && FrameOk(g)
    decreases e, 0
  {
    match e
    case CommandOf(code) => InnerFollows(l, g, Command, 1, 2, code)
    case ArithmeticOf(text) => InnerInertFollows(l, g, Arithmetic, 3, text)
    case ParameterOf(text) => InnerInertFollows(l, g, Parameter, 2, text)
  }

  ghost predicate DoubleFollows(l: Lexer, t: DoubleText)
    requires Sound(l) && Top(l).kind == Double
    decreases t, 0
  {
    t.DoubleEnd? ||
    (&& l.index < |l.src| && ReadDoublePart(l, t).Some?
     && (match t
         case DoublePlain(_, _) => true
         case DoubleBackquote(code, _) => InnerFollows(l, Top(l), Backtick, 0, 1, code)
         case DoubleExpansion(x, _) => ExpansionFollows(l, Top(l), x))
     && DoubleFollows(ReadDoublePart(l, t).value, t.rest))
  }

  ghost predicate InertFollows(l: Lexer, t: InertText)
    requires Sound(l) && Inert(Top(l))
    decreases t, 0
  {
    t.InertEnd? ||
    (&& l.index < |l.src| && ReadInertPart(l, t).Some?
     && (match t
         case InertDouble(text, _) => QuotedFollows(l, Top(l), text)
         case InertExpansion(x, _) => ExpansionFollows(l, Top(l), x)
         case _ => true)
     && InertFollows(ReadInertPart(l, t).value, t.rest))
  }

  predicate Plainly(l: Lexer) {
    !l.abc.alpha('(') && !l.abc.alpha(')')
  }

  lemma OpensPlainly(l: Lexer, f: Frame, kind: FrameKind, depth: int, open: nat)
    requires Sound(l) && l.index + open <= |l.src| && f.kind == Top(l).kind && FrameOk(f)
    requires kind != Code && FrameOk(NewFrame(kind, depth)) && Plainly(l)
    ensures var p := Inside(l, f, kind, depth, open); Plainly(p) && MayComment(Top(p))
  {
  }

  lemma {:induction false} TextIsFollowed(l: Lexer, t: ShellText)
    requires Sound(l) && Active(Top(l)) && ReadText(l, t).Some? && Plainly(l)
    ensures TextFollows(l, t, MayComment(Top(l)))
    decreases t, 0
  {
    hide ReadLexeme, Stays, AllowsAfter, LexemeFollows;
    match t {
      case Done =>
      case More(x, rest) =>
        LexemeIsFollowed(l, x);
        AllowedAfter(l, x);
        var m := ReadLexeme(l, x).value;
        StaysTops(l, m);
        StaysPlainly(l, m);
        TextIsFollowed(m, rest);
    }
  }

  lemma StaysPlainly(l: Lexer, m: Lexer)
    requires Stays(l, m) && Plainly(l)
    ensures Plainly(m)
  {
  }

  lemma {:induction false} LexemeIsFollowed(l: Lexer, x: Lexeme)
    requires Ready(l) && Active(Top(l)) && ReadLexeme(l, x).Some? && Plainly(l)
    ensures LexemeFollows(l, x, MayComment(Top(l)))
    decreases x, 0
  {
    hide Stays, ReadText, ReadExpansion, ReadQuoted, ReadBackquoted, ReadCompute, Inside, BeginPattern, Step, IsFlat, StartsComment,
         ParseHeredoc, NewLine, PlainSpan, EscapedSpan, Newlines, InnerFollows, QuotedFollows, ExpansionFollows;
    PatternKeepsFrame(Top(l));
    StartsCommentIff(l);
    match x {
      case Flat(_) => FlatIsNoComment(l);
      case DoubleQuote(text) => QuotedIsFollowed(l, BeginPattern(Top(l)).(previous := Some('"'), commandPosition := false), text);
      case Backquote(code) => BackquotedIsFollowed(l, Top(l).(commandPosition := false), code);
      case Expanded(e) => ExpansionIsFollowed(l, BeginPattern(Top(l)).(commandPosition := false), e);
      case Compute(code) => ComputeIsFollowed(l, code);
      case _ =>
    }
  }

  lemma {:induction false} InnerIsFollowed(l: Lexer, g: Frame, kind: FrameKind, depth: int, open: nat, code: ShellText)
    requires Ready(l) && g.kind == Top(l).kind && FrameOk(g) && l.index + open <= |l.src| && Plainly(l)
    requires kind != Code && FrameOk(NewFrame(kind, depth)) && Active(NewFrame(kind, depth))
    requires ReadText(Inside(l, g, kind, depth, open), code).Some?
    ensures InnerFollows(l, g, kind, depth, open, code)
    decreases code, 1
  {
    hide ReadText, TextFollows;
    OpensPlainly(l, g, kind, depth, open);
    TextIsFollowed(Inside(l, g, kind, depth, open), code);
  }

  lemma {:induction false} ComputeIsFollowed(l: Lexer, code: ShellText)
    requires Ready(l) && Active(Top(l)) && StartsCompute(l) && ReadCompute(l, code).Some? && Plainly(l)
    ensures InnerFollows(l, Top(l).(previous := Some(')'), commandPosition := false), ArithmeticCommand, 1, 2, code)
    decreases code, 2
  {
    hide ReadText, InnerFollows, Inside, Outside, Stays;
    InnerIsFollowed(l, Top(l).(previous := Some(')'), commandPosition := false), ArithmeticCommand, 1, 2, code);
  }

  lemma {:induction false} BackquotedIsFollowed(l: Lexer, g: Frame, code: ShellText)
    requires Ready(l) && g.kind == Top(l).kind && FrameOk(g) && ReadBackquoted(l, g, code).Some? && Plainly(l)
    ensures InnerFollows(l, g, Backtick, 0, 1, code)
    decreases code, 2
  {
    hide ReadText, InnerFollows, Inside, Outside, Stays;
    InnerIsFollowed(l, g, Backtick, 0, 1, code);
  }

  lemma {:induction false} QuotedIsFollowed(l: Lexer, g: Frame, text: DoubleText)
    requires Ready(l) && g.kind == Top(l).kind && FrameOk(g) && ReadQuoted(l, g, text).Some? && Plainly(l)
    ensures QuotedFollows(l, g, text)
    decreases text, 1
  {
    hide ReadDouble, DoubleFollows, Outside, Stays;
    OpensPlainly(l, g, Double, 0, 1);
    DoubleIsFollowed(Inside(l, g, Double, 0, 1), text);
  }

  lemma {:induction false} InnerInertIsFollowed(l: Lexer, g: Frame, kind: FrameKind, open: nat, text: InertText)
    requires Ready(l) && g.kind == Top(l).kind && FrameOk(g) && (kind == Parameter || kind == Arithmetic) && Plainly(l)
    requires l.index + open <= |l.src| && ReadInert(Inside(l, g, kind, 1, open), text).Some?
    ensures InnerInertFollows(l, g, kind, open, text)
    decreases text, 1
  {
    hide ReadInert, InertFollows;
    OpensPlainly(l, g, kind, 1, open);
    InertIsFollowed(Inside(l, g, kind, 1, open), text);
  }

  lemma {:induction false} ExpansionIsFollowed(l: Lexer, g: Frame, e: Expansion)
    requires Ready(l) && StartsExpansion(l) && g.kind == Top(l).kind && FrameOk(g) && ReadExpansion(l, g, e).Some?
    requires Plainly(l)
    ensures ExpansionFollows(l, g, e)
    decreases e, 0
  {
    hide Stays, ReadText, ReadInert, Inside, Outside, ClosesCommand, ClosesInert, InnerFollows, InnerInertFollows;
    match e {
      case CommandOf(code) => InnerIsFollowed(l, g, Command, 1, 2, code);
      case ArithmeticOf(text) => InnerInertIsFollowed(l, g, Arithmetic, 3, text);
      case ParameterOf(text) => InnerInertIsFollowed(l, g, Parameter, 2, text);
    }
  }

  lemma {:induction false} DoubleIsFollowed(l: Lexer, t: DoubleText)
    requires Sound(l) && Top(l).kind == Double && ReadDouble(l, t).Some? && Plainly(l)
    ensures DoubleFollows(l, t)
    decreases t, 0
  {
    hide Stays, ReadBackquoted, ReadExpansion, ReadPlain, InnerFollows, ExpansionFollows, IsDoublePlain;
    if !t.DoubleEnd? {
      match t {
        case DoublePlain(_, _) =>
        case DoubleBackquote(code, _) => BackquotedIsFollowed(l, Top(l), code);
        case DoubleExpansion(x, _) => ExpansionIsFollowed(l, Top(l), x);
      }
      var m := ReadDoublePart(l, t).value;
      StaysTops(l, m);
      StaysPlainly(l, m);
      DoubleIsFollowed(m, t.rest);
    }
  }

  lemma {:induction false} InertIsFollowed(l: Lexer, t: InertText)
    requires Sound(l) && Inert(Top(l)) && ReadInert(l, t).Some? && Plainly(l)
    ensures InertFollows(l, t)
    decreases t, 0
  {
    hide Stays, ReadQuoted, ReadExpansion, ReadPlain, QuotedFollows, ExpansionFollows, IsInertPlain, PlainSpan,
         EscapedSpan, Setting;
    if !t.InertEnd? {
      match t {
        case InertDouble(text, _) => QuotedIsFollowed(l, Top(l), text);
        case InertExpansion(x, _) => ExpansionIsFollowed(l, Top(l), x);
        case _ =>
      }
      var m := ReadInertPart(l, t).value;
      StaysTops(l, m);
      StaysPlainly(l, m);
      InertIsFollowed(m, t.rest);
    }
  }

  /**
   * In every source a tree spells, the comments reported are those of the tree, and they stand exactly where the text
   * before them allows one.
   */
  lemma CommentsFollowTheText(abc: Alphabet, src: string, t: ShellText)
    requires !abc.alpha('(') && !abc.alpha(')')
    requires ReadText(Start(abc, src), t).Some? && TextLength(t) == |src|
    ensures Scan(Start(abc, src)).comments == CommentsAt(src, TextNotes(t, 0))
    ensures TextFollows(Start(abc, src), t, true)
  {
    hide Scan, ReadText, TextFollows, TextNotes, CommentsAt;
    ExactlyTheCommentsAreReported(abc, src, t);
    TextIsFollowed(Start(abc, src), t);
  }
}
