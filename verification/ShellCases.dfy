/**
 * Words that steer the shell lexer: what each leaves of the nesting of `case` commands and of whether a command may
 * begin, and that a `case` command inside a substitution is crossed without its brackets closing anything.
 */
module ShellCases {
  import opened Prelude
  import Text
  import opened SourceLines
  import opened Spelling
  import opened ShellLexer
  import opened ShellProofs
  import opened ShellGrammar

  /** Letters and digits are none of the characters the shell gives a meaning. */
  ghost predicate Sensible(abc: Alphabet) {
    forall c :: abc.alpha(c) || abc.alnum(c) ==> c !in " \t\r\n'\"`\\$#()<>;|&{}!" && !Text.IsSpace(c)
  }

  predicate InWord(abc: Alphabet, c: char) {
    abc.alnum(c) || c == '_' || c == '-'
  }

  /** The whole of a word stands at `i`. */
  predicate WordStands(abc: Alphabet, src: string, i: nat, w: string) {
    && w != "" && StandsAt(src, i, w) && (abc.alpha(w[0]) || w[0] == '_')
    && (forall k :: 1 <= k < |w| ==> InWord(abc, w[k]))
    && !(i + |w| < |src| && InWord(abc, src[i + |w|]))
  }

  lemma {:induction false} WordEndsThere(abc: Alphabet, src: string, i: nat, w: string)
    requires StandsAt(src, i, w) && (forall c :: c in w ==> InWord(abc, c))
    requires !(i + |w| < |src| && InWord(abc, src[i + |w|]))
    ensures WordEnd(abc, src, i) == i + |w|
    decreases |w|
  {
    if w != "" {
      StandingCharacter(src, i, w, 0);
      assert w[0] in w;
      assert w == [w[0]] + w[1..];
      StandsInTwo(src, i, [w[0]], w[1..]);
      WordEndsThere(abc, src, i + 1, w[1..]);
    }
  }

  /** The lexer has gone on over `n` characters in the same frame, recording and queueing nothing. */
  ghost predicate Went(l: Lexer, r: Lexer, n: nat, states: seq<CaseState>, command: bool)
    requires Sound(l)
  {
    && Stays(l, r) && r.index == l.index + n && r.comments == l.comments && r.pending == l.pending && Reaches(l, r)
    && Top(r).caseStates == states && Top(r).commandPosition == command && Top(r).depth == Top(l).depth
  }

  lemma WentOn(l: Lexer, m: Lexer, r: Lexer, a: nat, b: nat, s: seq<CaseState>, c: bool, s': seq<CaseState>, c': bool)
    requires Sound(l) && Went(l, m, a, s, c) && Went(m, r, b, s', c')
    ensures Went(l, r, a + b, s', c')
  {
    hide Reaches;
    StaysOn(l, m, r);
    ReachesOn(l, m, r);
  }

  /** A frame in which commands are read. */
  predicate Commands(l: Lexer)
    requires Sound(l)
  {
    Top(l).kind == Code || Top(l).kind == Command || Top(l).kind == Backtick
  }

  lemma StepWent(l: Lexer, r: Lexer, f: Frame, n: nat)
    requires Ready(l) && l.index + n <= |l.src| && n > 0 && f.kind == Top(l).kind && f.depth == Top(l).depth && FrameOk(f)
    requires Step(l) == Setting(l, f, l.index + n) == r
    ensures Went(l, r, n, f.caseStates, f.commandPosition)
  {
    hide Step, Newlines;
    ReachesStep(l);
  }

  // ----- what each word leaves

  /** The last state, if any, of the `case` commands a frame is inside of. */
  predicate InsideCase(states: seq<CaseState>, state: CaseState) {
    states != [] && states[|states| - 1] == state
  }

  /** A command may go on being awaited after these words. */
  predicate KeepsAwaiting(w: string) {
    w == "do" || w == "elif" || w == "else" || w == "if" || w == "then" || w == "until" || w == "while"
  }

  /**
   * What a word makes of the states of the `case` commands around it: `case`, where a command may begin, opens one, its
   * subject first; `in` after the subject leads to the patterns; `esac`, where a command may begin, ends it; any other
   * word where a pattern may begin begins one.
   */
  function StatesAfter(states: seq<CaseState>, command: bool, w: string): seq<CaseState> {
    if w == "case" && command && (states == [] || InsideCase(states, Body)) then states + [Subject]
    else if w == "in" && InsideCase(states, Subject) then states[..|states| - 1] + [PatternStart]
    else if w == "esac" && command && (InsideCase(states, Body) || InsideCase(states, PatternStart)) then states[..|states| - 1]
    else if InsideCase(states, PatternStart) then states[..|states| - 1] + [Pattern]
    else states
  }

  /** A word is read whole, and leaves what is stated of it. */
  lemma WordGoes(l: Lexer, w: string) returns (r: Lexer)
    requires Ready(l) && Commands(l) && Sensible(l.abc) && WordStands(l.abc, l.src, l.index, w)
    ensures Went(l, r, |w|, StatesAfter(Top(l).caseStates, Top(l).commandPosition, w), Top(l).commandPosition && KeepsAwaiting(w))
  {
    hide Step, Newlines, Reaches, AfterWord;
    StandingCharacter(l.src, l.index, w, 0);
    assert w == [w[0]] + w[1..];
    StandsInTwo(l.src, l.index, [w[0]], w[1..]);
    WordEndsThere(l.abc, l.src, l.index + 1, w[1..]);
    WordSteps(l, w);
    AfterWordSays(Top(l), w);
    r := Step(l);
    StepWent(l, r, AfterWord(Top(l), w), |w|);
  }

  lemma AfterWordSays(f: Frame, w: string)
    requires w != ""
    ensures var g := AfterWord(f, w);
            g.caseStates == StatesAfter(f.caseStates, f.commandPosition, w)
            && g.commandPosition == (f.commandPosition && KeepsAwaiting(w)) && g.kind == f.kind && g.depth == f.depth
  {
  }

  lemma WordSteps(l: Lexer, w: string)
    requires Ready(l) && Commands(l) && Sensible(l.abc) && w != "" && l.src[l.index] == w[0]
    requires l.abc.alpha(w[0]) || w[0] == '_'
    requires WordEnd(l.abc, l.src, l.index + 1) == l.index + |w| && StandsAt(l.src, l.index, w)
    ensures Step(l) == Setting(l, AfterWord(Top(l), w), l.index + |w|)
  {
    hide AfterWord, Newlines, Setting, WordEnd, Text.IsSpace;
    var c := l.src[l.index];
    assert c !in "\n'\"`\\$#()<" by {
      if l.abc.alpha(c) {
        assert c !in " \t\r\n'\"`\\$#()<>;|&{}!";
      }
    }
    assert ParseHeredoc(l) == None by { NoOperator(l); }
    assert l.src[l.index..l.index + |w|] == w;
    LetterSteps(l);
  }

  lemma NoOperator(l: Lexer)
    requires Ready(l) && l.src[l.index] != '<'
    ensures ParseHeredoc(l) == None
  {
  }

  lemma LetterSteps(l: Lexer)
    requires Ready(l) && Commands(l) && ParseHeredoc(l) == None && l.src[l.index] !in "\n'\"`\\$#()<"
    requires l.abc.alpha(l.src[l.index]) || l.src[l.index] == '_'
    ensures Step(l) == ActiveWord(l)
  {
    hide ParseHeredoc, ActiveWord, Newlines;
  }

  lemma BlankGoes(l: Lexer) returns (r: Lexer)
    requires Ready(l) && Commands(l) && Sensible(l.abc) && l.src[l.index] == ' '
    ensures Went(l, r, 1, Top(l).caseStates, Top(l).commandPosition)
  {
    hide Newlines, Reaches;
    NoOperator(l);
    r := Step(l);
    StepWent(l, r, Top(l).(previous := Some(' ')), 1);
  }

  /** After these a command may begin. */
  predicate AwaitsCommand(c: char) {
    c == ';' || c == '|' || c == '&' || c == '!' || c == '(' || c == '{'
  }

  /** Outside of `case` commands, a character that is no part of a word leaves a command awaited exactly as stated. */
  lemma PlainLeaves(l: Lexer)
    requires Ready(l) && Commands(l) && IsFlat(l) && Top(l).caseStates == [] && !(Top(l).kind == Command && l.src[l.index] == ')')
    requires !l.abc.alpha(l.src[l.index]) && l.src[l.index] != '_'
    ensures var c, f, r := l.src[l.index], Top(l), Step(l);
            && r.index == l.index + 1 && |r.frames| >= 1 && Top(r).caseStates == []
            && Top(r).commandPosition == (if Text.IsSpace(c) then f.commandPosition else AwaitsCommand(c))
  {
    hide Newlines, ParseHeredoc, Step, StartsComment, IsFlat, ActivePlain, ActiveBracket, ActiveWord, RecordComment,
         AwaitsCommand;
    FlatLexeme(l);
    FlatIsNotComment(l);
    BracketLeaves(l);
  }

  lemma FlatIsNotComment(l: Lexer)
    requires Ready(l) && IsFlat(l) && Active(Top(l)) && Top(l).caseStates == []
    ensures !StartsComment(l) && ActivePlain(l) == ActiveBracket(l, Top(l))
    ensures StartsComment(l) <==> l.src[l.index] == '#' && (Top(l).previous == None || Top(l).previous.value in BOUNDARIES)
  {
    hide ParseHeredoc, ActiveBracket;
  }

  lemma BracketLeaves(l: Lexer)
    requires Ready(l) && Commands(l) && Top(l).caseStates == [] && !(Top(l).kind == Command && l.src[l.index] == ')')
    ensures var c, f, r := l.src[l.index], Top(l), ActiveBracket(l, Top(l));
            && r.index == l.index + 1 && |r.frames| >= 1 && Top(r).caseStates == []
            && Top(r).commandPosition == (if Text.IsSpace(c) then f.commandPosition else AwaitsCommand(c))
  {
    hide Newlines;
  }

  /** The bracket that ends a pattern closes nothing; a command may follow. */
  lemma PatternEnds(l: Lexer) returns (r: Lexer)
    requires Ready(l) && Commands(l) && Sensible(l.abc) && l.src[l.index] == ')' && InsideCase(Top(l).caseStates, Pattern)
    ensures Went(l, r, 1, Top(l).caseStates[..|Top(l).caseStates| - 1] + [Body], true)
  {
    hide Newlines, Reaches;
    NoOperator(l);
    var f := Top(l);
    r := Step(l);
    StepWent(l, r, SetCase(f, Body).(commandPosition := true, previous := Some(')')), 1);
  }

  /** One of the operators that end a clause, the longest that stands there. */
  predicate EndsClause(src: string, i: nat, mark: string) {
    && StandsAt(src, i, mark)
    && (mark == ";;&" || (mark == ";;" && !At(src, i + 2, '&')) || mark == ";&")
  }

  lemma EndMark(src: string, i: nat, mark: string)
    requires EndsClause(src, i, mark)
    ensures |mark| >= 2 && i + |mark| <= |src| && src[i] == ';' && CaseEnd(src, i) == |mark|
  {
    StandingCharacter(src, i, mark, 0);
    StandingCharacter(src, i, mark, 1);
    if mark == ";;&" {
      StandingCharacter(src, i, mark, 2);
    }
  }

  /** The operator that ends a clause is passed whole; a pattern or `esac` may follow. */
  lemma ClauseEnds(l: Lexer, mark: string) returns (r: Lexer)
    requires Ready(l) && Commands(l) && Sensible(l.abc) && InsideCase(Top(l).caseStates, Body)
    requires EndsClause(l.src, l.index, mark)
    ensures Went(l, r, |mark|, Top(l).caseStates[..|Top(l).caseStates| - 1] + [PatternStart], true)
  {
    hide Newlines, Reaches, EndsClause, CaseEnd, Step;
    EndMark(l.src, l.index, mark);
    NoOperator(l);
    var f := Top(l);
    r := Step(l);
    ClauseEndStep(l);
    StepWent(l, r, SetCase(f, PatternStart).(commandPosition := true, previous := Some(';')), |mark|);
  }

  lemma ClauseEndStep(l: Lexer)
    requires Ready(l) && Commands(l) && Sensible(l.abc) && InsideCase(Top(l).caseStates, Body)
    requires l.src[l.index] == ';' && CaseEnd(l.src, l.index) > 0 && ParseHeredoc(l) == None
    ensures Step(l) == Setting(l, SetCase(Top(l), PatternStart).(commandPosition := true, previous := Some(';')),
                               l.index + CaseEnd(l.src, l.index))
  {
    hide Newlines, CaseEnd, ParseHeredoc, Step, IsFlat, ActivePlain, ActiveWord, RecordComment, ArithmeticOperator,
         Setting;
    SemicolonIsFlat(l);
    FlatLexeme(l);
  }

  lemma SemicolonIsFlat(l: Lexer)
    requires Ready(l) && Sensible(l.abc) && l.src[l.index] == ';' && ParseHeredoc(l) == None
    ensures IsFlat(l) && !l.abc.alpha(';')
  {
    hide ParseHeredoc;
    assert l.abc.alpha(';') ==> ';' !in " \t\r\n'\"`\\$#()<>;|&{}!";
  }

  /** Where no clause ends, a semicolon inside a clause ends nothing. */
  lemma EndMarkIff(src: string, i: nat)
    requires i < |src|
    ensures CaseEnd(src, i) > 0 <==> exists mark :: EndsClause(src, i, mark)
  {
    hide CaseEnd;
    CaseEndStands(src, i);
    forall mark | EndsClause(src, i, mark)
      ensures CaseEnd(src, i) > 0
    {
      EndMark(src, i, mark);
    }
  }

  lemma CaseEndStands(src: string, i: nat)
    requires i < |src|
    ensures CaseEnd(src, i) > 0 ==> EndsClause(src, i, src[i..i + CaseEnd(src, i)])
  {
  }

  /** A new line leaves a command awaited, an escaped character leaves what was; neither changes the `case` commands. */
  lemma LineAndEscapeLeave(l: Lexer)
    requires Ready(l) && Commands(l) && (l.src[l.index] == '\n' || l.src[l.index] == '\\')
    ensures var f, r := Top(l), Step(l);
            && |r.frames| == |l.frames| && Top(r).caseStates == f.caseStates
            && Top(r).commandPosition == (l.src[l.index] == '\n' || f.commandPosition)
  {
    hide Newlines, SkipPending;
  }

  // ----- a whole case command

  datatype Clause = Clause(pattern: string, command: string)

  /** `pattern) command ;; ` and what follows. */
  function ClauseThen(c: Clause, next: string): string {
    c.pattern + (")" + (" " + (c.command + (" " + (";;" + (" " + next))))))
  }

  function ClausesThen(clauses: seq<Clause>, next: string): string {
    if clauses == [] then next else ClauseThen(clauses[0], ClausesThen(clauses[1..], next))
  }

  /** `case subject in`, the clauses, `esac`, and what follows. */
  function CaseThen(subject: string, clauses: seq<Clause>, next: string): string {
    "case" + (" " + (subject + (" " + ("in" + (" " + ClausesThen(clauses, "esac" + next))))))
  }

  predicate IsWord(abc: Alphabet, w: string) {
    w != "" && (abc.alpha(w[0]) || w[0] == '_') && forall k :: 1 <= k < |w| ==> InWord(abc, w[k])
  }

  predicate ProperClause(abc: Alphabet, c: Clause) {
    IsWord(abc, c.pattern) && IsWord(abc, c.command) && c.pattern != "esac" && c.command != "case" && c.command != "esac"
  }

  /** A word before a character that is in no word. */
  lemma WordGoesTo(l: Lexer, w: string, next: string) returns (r: Lexer)
    requires Ready(l) && Commands(l) && Sensible(l.abc) && IsWord(l.abc, w) && StandsAt(l.src, l.index, w + next)
    requires next != "" && !InWord(l.abc, next[0])
    ensures Went(l, r, |w|, StatesAfter(Top(l).caseStates, Top(l).commandPosition, w), Top(l).commandPosition && KeepsAwaiting(w))
    ensures r.src == l.src && r.abc == l.abc && Ready(r) && Commands(r) && StandsAt(r.src, r.index, next)
  {
    hide Stays, Reaches, StatesAfter, KeepsAwaiting, StandsAt;
    StandsInTwo(l.src, l.index, w, next);
    StandingCharacter(l.src, l.index + |w|, next, 0);
    assert WordStands(l.abc, l.src, l.index, w);
    r := WordGoes(l, w);
    StaysTops(l, r);
    SameAlphabet(l, r);
  }

  lemma SameAlphabet(l: Lexer, r: Lexer)
    requires Stays(l, r)
    ensures r.abc == l.abc && FramesOk(r.frames)
  {
  }

  /** A blank, and what follows it. */
  lemma BlankGoesTo(l: Lexer, next: string) returns (r: Lexer)
    requires Ready(l) && Commands(l) && Sensible(l.abc) && StandsAt(l.src, l.index, " " + next) && next != ""
    ensures Went(l, r, 1, Top(l).caseStates, Top(l).commandPosition)
    ensures r.src == l.src && r.abc == l.abc && Ready(r) && Commands(r) && StandsAt(r.src, r.index, next)
  {
    hide Stays, Reaches, StandsAt;
    StandingCharacter(l.src, l.index, " " + next, 0);
    StandsInTwo(l.src, l.index, " ", next);
    StandsInside(l.src, l.index + 1, next);
    r := BlankGoes(l);
    StaysTops(l, r);
    SameAlphabet(l, r);
  }

  lemma NoneInWord(abc: Alphabet, c: char)
    requires Sensible(abc) && c in " );"
    ensures !InWord(abc, c)
  {
    assert c in " \t\r\n'\"`\\$#()<>;|&{}!";
  }

  lemma PatternEndsTo(l: Lexer, next: string) returns (r: Lexer)
    requires Ready(l) && Commands(l) && Sensible(l.abc) && StandsAt(l.src, l.index, ")" + next) && next != ""
    requires InsideCase(Top(l).caseStates, Pattern)
    ensures Went(l, r, 1, Top(l).caseStates[..|Top(l).caseStates| - 1] + [Body], true)
    ensures r.src == l.src && r.abc == l.abc && Ready(r) && Commands(r) && StandsAt(r.src, r.index, next)
  {
    hide Stays, Reaches, StandsAt;
    StandingCharacter(l.src, l.index, ")" + next, 0);
    StandsInTwo(l.src, l.index, ")", next);
    StandsInside(l.src, l.index + 1, next);
    r := PatternEnds(l);
    StaysTops(l, r);
    SameAlphabet(l, r);
  }

  lemma ClauseEndsTo(l: Lexer, next: string) returns (r: Lexer)
    requires Ready(l) && Commands(l) && Sensible(l.abc) && StandsAt(l.src, l.index, ";;" + next) && next != ""
    requires next[0] != '&'
    requires InsideCase(Top(l).caseStates, Body)
    ensures Went(l, r, 2, Top(l).caseStates[..|Top(l).caseStates| - 1] + [PatternStart], true)
    ensures r.src == l.src && r.abc == l.abc && Ready(r) && Commands(r) && StandsAt(r.src, r.index, next)
  {
    hide Stays, Reaches, StandsAt;
    StandingCharacter(l.src, l.index, ";;" + next, 2);
    StandsInTwo(l.src, l.index, ";;", next);
    StandsInside(l.src, l.index + 2, next);
    r := ClauseEnds(l, ";;");
    StaysTops(l, r);
    SameAlphabet(l, r);
  }

  /** After going on, as known of where one stands. */
  lemma WentTop(l: Lexer, r: Lexer, n: nat, states: seq<CaseState>, command: bool)
    requires Sound(l) && Went(l, r, n, states, command)
    ensures Sound(r) && Top(r).caseStates == states && Top(r).commandPosition == command
  {
  }

  predicate MayBeginPattern(states: seq<CaseState>, outer: seq<CaseState>) {
    states == outer + [PatternStart] || states == outer + [Pattern]
  }

  /** One clause leads from where a pattern may begin, or has begun, to where the next may begin. */
  lemma ClauseGoes(l: Lexer, outer: seq<CaseState>, c: Clause, next: string) returns (r: Lexer)
    requires Ready(l) && Commands(l) && Sensible(l.abc) && ProperClause(l.abc, c) && next != ""
    requires StandsAt(l.src, l.index, ClauseThen(c, next)) && MayBeginPattern(Top(l).caseStates, outer)
    ensures Went(l, r, |ClauseThen(c, next)| - |next|, outer + [PatternStart], true)
    ensures r.src == l.src && r.abc == l.abc && Ready(r) && Commands(r) && StandsAt(r.src, r.index, next)
  {
    hide Went, StandsAt, InWord, Sensible, IsWord;
    NoneInWord(l.abc, ')');
    NoneInWord(l.abc, ' ');
    var t5 := ";;" + (" " + next);
    var t3 := c.command + (" " + t5);
    var t1 := ")" + (" " + t3);
    var before := Top(l).commandPosition && KeepsAwaiting(c.pattern);
    var after := KeepsAwaiting(c.command);
    var m := WordGoesTo(l, c.pattern, t1);
    PatternStates(Top(l).caseStates, outer, Top(l).commandPosition, c.pattern);
    WentTop(l, m, |c.pattern|, outer + [Pattern], before);
    var m1 := PatternEndsTo(m, " " + t3);
    WentTop(m, m1, 1, outer + [Body], true);
    WentOn(l, m, m1, |c.pattern|, 1, outer + [Pattern], before, outer + [Body], true);
    var m2 := BlankGoesTo(m1, t3);
    WentTop(m1, m2, 1, outer + [Body], true);
    WentOn(l, m1, m2, |c.pattern| + 1, 1, outer + [Body], true, outer + [Body], true);
    r := CommandGoes(m2, outer, c.command, next);
    WentOn(l, m2, r, |c.pattern| + 2, |c.command| + 4, outer + [Body], true, outer + [PatternStart], true);
  }

  lemma PatternStates(states: seq<CaseState>, outer: seq<CaseState>, command: bool, w: string)
    requires MayBeginPattern(states, outer) && w != "esac"
    ensures StatesAfter(states, command, w) == outer + [Pattern]
  {
  }

  /** A clause's command and the semicolons after it. */
  lemma CommandGoes(l: Lexer, outer: seq<CaseState>, w: string, next: string) returns (r: Lexer)
    requires Ready(l) && Commands(l) && Sensible(l.abc) && IsWord(l.abc, w) && w != "case" && w != "esac" && next != ""
    requires StandsAt(l.src, l.index, w + (" " + (";;" + (" " + next))))
    requires Top(l).caseStates == outer + [Body] && Top(l).commandPosition
    ensures Went(l, r, |w| + 4, outer + [PatternStart], true)
    ensures r.src == l.src && r.abc == l.abc && Ready(r) && Commands(r) && StandsAt(r.src, r.index, next)
  {
    hide Went, StandsAt, InWord, Sensible, IsWord;
    NoneInWord(l.abc, ' ');
    var after := KeepsAwaiting(w);
    var m := WordGoesTo(l, w, " " + (";;" + (" " + next)));
    WentTop(l, m, |w|, outer + [Body], after);
    var m1 := BlankGoesTo(m, ";;" + (" " + next));
    WentTop(m, m1, 1, outer + [Body], after);
    WentOn(l, m, m1, |w|, 1, outer + [Body], after, outer + [Body], after);
    var m2 := ClauseEndsTo(m1, " " + next);
    WentTop(m1, m2, 2, outer + [PatternStart], true);
    WentOn(l, m1, m2, |w| + 1, 2, outer + [Body], after, outer + [PatternStart], true);
    r := BlankGoesTo(m2, next);
    WentOn(l, m2, r, |w| + 3, 1, outer + [PatternStart], true, outer + [PatternStart], true);
  }

  lemma {:induction false} ClausesGo(l: Lexer, outer: seq<CaseState>, clauses: seq<Clause>, next: string) returns (r: Lexer)
    requires Ready(l) && Commands(l) && Sensible(l.abc) && (forall k :: 0 <= k < |clauses| ==> ProperClause(l.abc, clauses[k]))
    requires next != "" && StandsAt(l.src, l.index, ClausesThen(clauses, next)) && MayBeginPattern(Top(l).caseStates, outer)
    ensures |ClausesThen(clauses, next)| >= |next|
    ensures Went(l, r, |ClausesThen(clauses, next)| - |next|,
                 if clauses == [] then Top(l).caseStates else outer + [PatternStart], clauses != [] || Top(l).commandPosition)
    ensures r.src == l.src && r.abc == l.abc && Ready(r) && Commands(r) && StandsAt(r.src, r.index, next)
    decreases |clauses|
  {
    hide Went, StandsAt, ProperClause, Sensible, ClauseThen;
    ClausesLength(clauses, next);
    if clauses == [] {
      r := l;
      StaysPut(l);
    } else {
      var more := ClausesThen(clauses[1..], next);
      ClausesLength(clauses[1..], next);
      ClauseLength(clauses[0], more);
      var m := ClauseGoes(l, outer, clauses[0], more);
      var n := |ClausesThen(clauses, next)| - |more|;
      WentTop(l, m, n, outer + [PatternStart], true);
      r := ClausesGo(m, outer, clauses[1..], next);
      WentOn(l, m, r, n, |more| - |next|, outer + [PatternStart], true, outer + [PatternStart], true);
    }
  }

  lemma ClauseLength(c: Clause, next: string)
    ensures |ClauseThen(c, next)| >= |next|
  {
  }

  lemma {:induction false} ClausesLength(clauses: seq<Clause>, next: string)
    ensures |ClausesThen(clauses, next)| >= |next|
  {
    if clauses != [] {
      ClausesLength(clauses[1..], next);
    }
  }

  lemma StaysPut(l: Lexer)
    requires Sound(l)
    ensures Went(l, l, 0, Top(l).caseStates, Top(l).commandPosition)
  {
    ReachesItself(l);
  }

  lemma KeywordsAreWords(abc: Alphabet)
    requires forall c :: c in "caseinesac" ==> abc.alpha(c) && abc.alnum(c)
    ensures IsWord(abc, "case") && IsWord(abc, "in") && IsWord(abc, "esac")
  {
    forall w | w == "case" || w == "in" || w == "esac"
      ensures IsWord(abc, w)
    {
      forall k | 0 <= k < |w|
        ensures abc.alpha(w[k]) && abc.alnum(w[k])
      {
        assert w[k] in "caseinesac";
      }
    }
  }

  lemma CaseStates(outer: seq<CaseState>)
    requires outer == [] || InsideCase(outer, Body)
    ensures StatesAfter(outer, true, "case") == outer + [Subject] && !KeepsAwaiting("case")
  {
  }

  lemma CaseWordGoes(l: Lexer, subject: string, next: string) returns (r: Lexer)
    requires Ready(l) && Commands(l) && Sensible(l.abc) && IsWord(l.abc, subject) && IsWord(l.abc, "case")
    requires next != "" && !InWord(l.abc, next[0]) && StandsAt(l.src, l.index, "case" + (" " + (subject + next)))
    requires Top(l).commandPosition && (Top(l).caseStates == [] || InsideCase(Top(l).caseStates, Body))
    ensures Went(l, r, |subject| + 5, StatesAfter(Top(l).caseStates + [Subject], false, subject), false)
    ensures r.src == l.src && r.abc == l.abc && Ready(r) && Commands(r) && StandsAt(r.src, r.index, next)
  {
    hide Went, StandsAt, InWord, Sensible, IsWord, StatesAfter;
    NoneInWord(l.abc, ' ');
    var outer := Top(l).caseStates;
    CaseStates(outer);
    var m := WordGoesTo(l, "case", " " + (subject + next));
    WentTop(l, m, 4, outer + [Subject], false);
    var m1 := BlankGoesTo(m, subject + next);
    WentTop(m, m1, 1, outer + [Subject], false);
    WentOn(l, m, m1, 4, 1, outer + [Subject], false, outer + [Subject], false);
    r := WordGoesTo(m1, subject, next);
    WentOn(l, m1, r, 5, |subject|, outer + [Subject], false, StatesAfter(outer + [Subject], false, subject), false);
  }

  lemma InGoes(l: Lexer, next: string) returns (r: Lexer)
    requires Ready(l) && Commands(l) && Sensible(l.abc) && IsWord(l.abc, "in") && !Top(l).commandPosition
    requires next != "" && StandsAt(l.src, l.index, " " + ("in" + (" " + next)))
    ensures Went(l, r, 4, StatesAfter(Top(l).caseStates, false, "in"), false)
    ensures r.src == l.src && r.abc == l.abc && Ready(r) && Commands(r) && StandsAt(r.src, r.index, next)
  {
    hide Went, StandsAt, InWord, Sensible, IsWord, StatesAfter;
    NoneInWord(l.abc, ' ');
    var s := Top(l).caseStates;
    var m := BlankGoesTo(l, "in" + (" " + next));
    WentTop(l, m, 1, s, false);
    var m1 := WordGoesTo(m, "in", " " + next);
    var s' := StatesAfter(s, false, "in");
    WentTop(m, m1, 2, s', false);
    WentOn(l, m, m1, 1, 2, s, false, s', false);
    r := BlankGoesTo(m1, next);
    WentOn(l, m1, r, 3, 1, s', false, s', false);
  }

  /** `case`, the subject and `in` lead to where a pattern may begin. */
  lemma HeadGoes(l: Lexer, subject: string, next: string) returns (r: Lexer)
    requires Ready(l) && Commands(l) && Sensible(l.abc) && IsWord(l.abc, subject) && next != ""
    requires IsWord(l.abc, "case") && IsWord(l.abc, "in")
    requires StandsAt(l.src, l.index, "case" + (" " + (subject + (" " + ("in" + (" " + next))))))
    requires Top(l).commandPosition && (Top(l).caseStates == [] || InsideCase(Top(l).caseStates, Body))
    ensures Sound(r) && MayBeginPattern(Top(r).caseStates, Top(l).caseStates) && !Top(r).commandPosition
    ensures Went(l, r, |subject| + 9, Top(r).caseStates, false)
    ensures r.src == l.src && r.abc == l.abc && Ready(r) && Commands(r) && StandsAt(r.src, r.index, next)
  {
    hide Went, StandsAt, InWord, Sensible, IsWord, StatesAfter, MayBeginPattern;
    NoneInWord(l.abc, ' ');
    var s := StatesAfter(Top(l).caseStates + [Subject], false, subject);
    var m := CaseWordGoes(l, subject, " " + ("in" + (" " + next)));
    WentTop(l, m, |subject| + 5, s, false);
    r := InGoes(m, next);
    var s' := StatesAfter(s, false, "in");
    WentTop(m, r, 4, s', false);
    WentOn(l, m, r, |subject| + 5, 4, s, false, s', false);
    HeadStates(Top(l).caseStates, subject);
  }

  lemma HeadStates(outer: seq<CaseState>, subject: string)
    ensures MayBeginPattern(StatesAfter(StatesAfter(outer + [Subject], false, subject), false, "in"), outer)
  {
  }

  /**
   * A `case` command, where a command may begin, is crossed in its frame with nothing recorded, its brackets closing
   * nothing: the frame is then inside of the commands it was inside of before, and of no other, exactly when there is a
   * clause. An `esac` right after `in` is taken for a pattern, where section 2.9.4.3 of the POSIX.1-2017 Shell Command
   * Language has it end the command.
   */
  lemma CaseGoes(l: Lexer, subject: string, clauses: seq<Clause>, next: string) returns (r: Lexer)
    requires Ready(l) && Commands(l) && Sensible(l.abc) && IsWord(l.abc, subject)
    requires forall k :: 0 <= k < |clauses| ==> ProperClause(l.abc, clauses[k])
    requires forall c :: c in "caseinesac" ==> l.abc.alpha(c) && l.abc.alnum(c)
    requires next != "" && !InWord(l.abc, next[0]) && StandsAt(l.src, l.index, CaseThen(subject, clauses, next))
    requires Top(l).commandPosition && (Top(l).caseStates == [] || InsideCase(Top(l).caseStates, Body))
    ensures Reaches(l, r) && Stays(l, r) && r.index == l.index + |CaseThen(subject, clauses, next)| - |next|
    ensures r.comments == l.comments && r.pending == l.pending && Top(r).depth == Top(l).depth
    ensures Top(r).caseStates == Top(l).caseStates <==> clauses != []
    ensures clauses == [] ==> Top(r).caseStates == Top(l).caseStates + [Pattern]
  {
    hide StandsAt, InWord, Sensible, IsWord, ProperClause, Went, StatesAfter, KeepsAwaiting, MayBeginPattern, Reaches, Stays,
         ClausesThen, CaseThen;
    KeywordsAreWords(l.abc);
    CaseIsItsParts(subject, clauses, next);
    var outer := Top(l).caseStates;
    var body := ClausesThen(clauses, "esac" + next);
    ClausesLength(clauses, "esac" + next);
    var m := HeadGoes(l, subject, body);
    var m1 := ClausesGo(m, outer, clauses, "esac" + next);
    var s1 := if clauses == [] then Top(m).caseStates else outer + [PatternStart];
    var n := |subject| + 9 + (|body| - |"esac" + next|);
    WentTop(m, m1, |body| - |"esac" + next|, s1, clauses != []);
    WentOn(l, m, m1, |subject| + 9, |body| - |"esac" + next|, Top(m).caseStates, false, s1, clauses != []);
    r := WordGoesTo(m1, "esac", next);
    var s2 := StatesAfter(s1, clauses != [], "esac");
    EsacStates(outer, s1, clauses != []);
    WentOn(l, m1, r, n, 4, s1, clauses != [], s2, clauses != [] && KeepsAwaiting("esac"));
    WentSays(l, r, n + 4, s2, clauses != [] && KeepsAwaiting("esac"));
  }

  lemma CaseIsItsParts(subject: string, clauses: seq<Clause>, next: string)
    ensures var body := ClausesThen(clauses, "esac" + next);
            && CaseThen(subject, clauses, next) == "case" + (" " + (subject + (" " + ("in" + (" " + body)))))
            && |CaseThen(subject, clauses, next)| == 9 + |subject| + |body|
  {
  }

  lemma EsacStates(outer: seq<CaseState>, states: seq<CaseState>, command: bool)
    requires if command then states == outer + [PatternStart] else MayBeginPattern(states, outer)
    ensures StatesAfter(states, command, "esac") == if command then outer else outer + [Pattern]
    ensures outer + [Pattern] != outer
  {
  }

  lemma WentSays(l: Lexer, r: Lexer, n: nat, states: seq<CaseState>, command: bool)
    requires Sound(l) && Went(l, r, n, states, command)
    ensures Stays(l, r) && Reaches(l, r) && r.index == l.index + n && r.comments == l.comments && r.pending == l.pending
    ensures Top(r).caseStates == states && Top(r).depth == Top(l).depth
  {
  }
}
