/**
 * Whole here-documents: for exactly which delimiter words the operator queues the here-document that quote removal makes
 * of them, and that everything from the operator to the delimiter line reports nothing.
 */
module Heredocs {
  import opened Prelude
  import opened Text
  import opened SourceLines
  import opened Spelling
  import opened ShellLexer
  import opened ShellProofs
  import opened HeredocWords

  /** The operator at `i`, no part of `<<<`; after blanks, the delimiter word begins at `cursor` on the same line. */
  predicate IsOperator(src: string, i: nat, cursor: nat, stripTabs: bool) {
    && i + 2 <= cursor < |src| && src[i] == '<' && src[i + 1] == '<' && src[i + 2] != '<' && (i == 0 || src[i - 1] != '<')
    && (stripTabs <==> src[i + 2] == '-') && (stripTabs ==> i + 3 <= cursor)
    && (forall k :: (if stripTabs then i + 3 else i + 2) <= k < cursor ==> src[k] == ' ' || src[k] == '\t')
    && src[cursor] != ' ' && src[cursor] != '\t' && src[cursor] != '\r' && src[cursor] != '\n'
  }

  lemma {:induction false} BlanksEnd(src: string, i: nat, j: nat)
    requires i <= j < |src| && (forall k :: i <= k < j ==> src[k] == ' ' || src[k] == '\t')
    requires src[j] != ' ' && src[j] != '\t'
    ensures SkipBlanks(src, i) == j
    decreases j - i
  {
    if i < j {
      BlanksEnd(src, i + 1, j);
    }
  }

  lemma {:induction false} BlanksAreSkipped(src: string, i: nat)
    requires i <= |src|
    ensures var j := SkipBlanks(src, i);
            && (forall k :: i <= k < j ==> src[k] == ' ' || src[k] == '\t')
            && (j < |src| ==> src[j] != ' ' && src[j] != '\t')
    decreases |src| - i
  {
    if i < |src| && (src[i] == ' ' || src[i] == '\t') {
      BlanksAreSkipped(src, i + 1);
    }
  }

  /** A here-document is begun exactly where its operator and, on the same line, a word stand. */
  lemma BegunIff(src: string, i: nat, cursor: nat, stripTabs: bool)
    requires i < |src|
    ensures HeredocStart(src, i) == Some((cursor, stripTabs)) <==> IsOperator(src, i, cursor, stripTabs)
  {
    hide SkipBlanks;
    if At(src, i, '<') && At(src, i + 1, '<') {
      var from := if At(src, i + 2, '-') then i + 3 else i + 2;
      BlanksAreSkipped(src, from);
      if IsOperator(src, i, cursor, stripTabs) {
        BlanksEnd(src, from, cursor);
      }
    }
  }

  lemma {:induction false} TabsGo(tabs: string, t: string)
    requires (forall c :: c in tabs ==> c == '\t') && (t == "" || t[0] != '\t')
    ensures DropTabs(tabs + t) == t
    decreases |tabs|
  {
    if tabs == "" {
      assert tabs + t == t;
    } else {
      assert tabs[0] in tabs && (tabs + t)[1..] == tabs[1..] + t;
      assert forall c :: c in tabs[1..] ==> c in tabs;
      TabsGo(tabs[1..], t);
    }
  }

  /** A line is compared with the delimiter without the carriage return that ends it, and for `<<-` without its tabs. */
  lemma ComparedLine(src: string, i: nat, tabs: string, t: string, carriage: bool)
    requires StandsAt(src, i, tabs + t + (if carriage then "\r" else "")) && '\n' !in t
    requires (forall c :: c in tabs ==> c == '\t') && (t == "" || t[0] != '\t')
    requires !carriage ==> t == "" || t[|t| - 1] != '\r'
    requires var end := i + |tabs + t| + (if carriage then 1 else 0); end == |src| || At(src, end, '\n')
    ensures i <= |src| && CandidateLine(src, i, true) == t && CandidateLine(src, i, false) == tabs + t
  {
    var line := tabs + t + (if carriage then "\r" else "");
    var end := i + |line|;
    assert src[i..end] == line;
    forall k | i <= k < end
      ensures src[k] != '\n'
    {
      assert src[k] == line[k - i] && (k - i < |tabs| ==> tabs[k - i] in tabs);
    }
    assert LineEnd(src, i) == end;
    assert carriage ==> line[..|line| - 1] == tabs + t;
    if !carriage {
      assert line == tabs + t;
      assert t == "" && tabs != "" ==> tabs[|tabs| - 1] in tabs;
    }
    TabsGo(tabs, t);
  }

  /** A here-document operator at the lexer's position, its delimiter word made of `pieces`. */
  predicate Announces(l: Lexer, pieces: seq<Piece>) {
    && Ready(l) && Active(Top(l)) && Top(l).kind != ArithmeticCommand
    && HeredocStart(l.src, l.index).Some?
    && WellFormed(pieces) && pieces != []
    && var cursor := HeredocStart(l.src, l.index).value.0;
       StandsAt(l.src, cursor, WriteAll(pieces)) && WordEndsAt(l.src, cursor + |WriteAll(pieces)|)
  }

  /** The here-document the word names, by either rule. */
  function Named(rule: Rule, l: Lexer, pieces: seq<Piece>): Heredoc
    requires Announces(l, pieces)
  {
    Heredoc(SayAll(rule, l.abc.decode, pieces), HeredocStart(l.src, l.index).value.1)
  }

  /** The lexer past the word, with that here-document waiting; an empty delimiter is refused. */
  function Queued(rule: Rule, l: Lexer, pieces: seq<Piece>): Option<Lexer>
    requires Announces(l, pieces)
  {
    if Named(rule, l, pieces).delimiter == "" then None
    else
      var end := HeredocStart(l.src, l.index).value.0 + |WriteAll(pieces)|;
      Some(Move(SetTop(l, Top(l).(previous := Some('w'))), end).(pending := l.pending + [Named(rule, l, pieces)]))
  }

  lemma OperatorQueues(l: Lexer, pieces: seq<Piece>)
    requires Announces(l, pieces) && ClosedInTime(pieces)
    ensures ParseHeredoc(l) == Queued(AsLexed, l, pieces)
  {
    hide WriteAll, SayAll, ReadWord, WellFormed, HeredocStart, WordEndsAt, StandsAt;
    var cursor := HeredocStart(l.src, l.index).value.0;
    var said := SayAll(AsLexed, l.abc.decode, pieces);
    assert "" + said == said;
    WordSaysItsPieces(l.abc, l.src, cursor, "", pieces);
  }

  lemma QueuedTellsItsName(l: Lexer, pieces: seq<Piece>)
    requires Announces(l, pieces)
    ensures Queued(AsLexed, l, pieces) == Queued(AsPosix, l, pieces) <==>
            Named(AsLexed, l, pieces) == Named(AsPosix, l, pieces)
  {
    hide WriteAll, SayAll, HeredocStart, SourceLines.Newlines;
    var a, b := Named(AsLexed, l, pieces), Named(AsPosix, l, pieces);
    if a.delimiter != "" && b.delimiter != "" && a != b {
      assert Queued(AsLexed, l, pieces).value.pending[|l.pending|] == a;
      assert Queued(AsPosix, l, pieces).value.pending[|l.pending|] == b;
    }
  }

  /** Where no ANSI-C quote closes early, quote removal names the same here-document exactly when the word conforms. */
  lemma QueuedIffConforms(l: Lexer, pieces: seq<Piece>)
    requires Announces(l, pieces) && ClosedInTime(pieces)
    ensures ParseHeredoc(l) == Queued(AsPosix, l, pieces) <==> AllConform(pieces)
    ensures Named(AsLexed, l, pieces) == Named(AsPosix, l, pieces) <==> AllConform(pieces)
  {
    hide ParseHeredoc, Queued, SayAll, Announces;
    OperatorQueues(l, pieces);
    QueuedTellsItsName(l, pieces);
    SaysAsPosixIff(l.abc.decode, pieces);
  }

  function Decoding(l: Lexer, decode: string -> string): Lexer {
    l.(abc := l.abc.(decode := decode))
  }

  lemma DecodingAnnounces(l: Lexer, pieces: seq<Piece>, decode: string -> string)
    requires Announces(l, pieces)
    ensures Announces(Decoding(l, decode), pieces)
  {
    hide WriteAll, WellFormed, WordEndsAt, StandsAt, HeredocStart;
  }

  lemma ConformingCloseInTime(pieces: seq<Piece>)
    requires AllConform(pieces)
    ensures ClosedInTime(pieces)
  {
  }

  lemma EarlyCloseIsMisread(l: Lexer, pieces: seq<Piece>) returns (decode: string -> string)
    requires Announces(l, pieces) && !ClosedInTime(pieces)
    ensures Announces(Decoding(l, decode), pieces)
    ensures ParseHeredoc(Decoding(l, decode)) != Queued(AsPosix, Decoding(l, decode), pieces)
  {
    hide WriteAll, SayAll, ReadWord, ClosedInTime, WellFormed, WordEndsAt, StandsAt, HeredocStart;
    var cursor := HeredocStart(l.src, l.index).value.0;
    decode := EarlyCloseIsSeen(l.abc, l.src, cursor, pieces);
    DecodingAnnounces(l, pieces, decode);
    var m := Decoding(l, decode);
    var word := ReadWord(m.abc, m.src, Word(cursor, "", None, None));
    if ParseHeredoc(m).Some? {
      assert ParseHeredoc(m).value.pending[|l.pending|].delimiter == word.text;
      assert Queued(AsPosix, m, pieces).value.pending[|l.pending|].delimiter == SayAll(AsPosix, decode, pieces);
    }
  }

  /** Whatever the decoding, the operator queues what quote removal makes of the word. */
  ghost predicate AlwaysQueued(l: Lexer, pieces: seq<Piece>)
    requires Announces(l, pieces)
  {
    forall decode: string -> string ::
      Announces(Decoding(l, decode), pieces)
      && ParseHeredoc(Decoding(l, decode)) == Queued(AsPosix, Decoding(l, decode), pieces)
  }

  /**
   * For every delimiter word: however ANSI-C escapes are decoded, the operator queues the here-document that quote
   * removal makes of the word exactly when the word conforms: no backslash continues a line, none inside double quotes
   * stands before an ordinary character, and no ANSI-C quote holds an escaped quote.
   */
  lemma AlwaysQueuedIffConforms(l: Lexer, pieces: seq<Piece>)
    requires Announces(l, pieces)
    ensures AlwaysQueued(l, pieces) <==> AllConform(pieces)
  {
    hide ParseHeredoc, Queued, AllConform, ClosedInTime, WellFormed, StandsAt, WordEndsAt, HeredocStart;
    if AllConform(pieces) {
      ConformingCloseInTime(pieces);
      forall decode: string -> string
        ensures Announces(Decoding(l, decode), pieces)
        ensures ParseHeredoc(Decoding(l, decode)) == Queued(AsPosix, Decoding(l, decode), pieces)
      {
        DecodingAnnounces(l, pieces, decode);
        QueuedIffConforms(Decoding(l, decode), pieces);
      }
    } else if ClosedInTime(pieces) {
      assert Decoding(l, l.abc.decode) == l;
      QueuedIffConforms(l, pieces);
    } else {
      var decode := EarlyCloseIsMisread(l, pieces);
    }
  }

  /**
   * The lexer refuses exactly the empty delimiters, such as `<<''`, whose body the shell ends at the first empty line:
   * their bodies are left to be scanned as shell.
   */
  lemma RefusedIffEmpty(l: Lexer, pieces: seq<Piece>)
    requires Announces(l, pieces) && ClosedInTime(pieces)
    ensures ParseHeredoc(l) == None <==> Named(AsLexed, l, pieces).delimiter == ""
    ensures pieces == [SingleQuoted("")] ==> AllConform(pieces) && ParseHeredoc(l) == None
  {
    hide ParseHeredoc, Announces;
    OperatorQueues(l, pieces);
    if pieces == [SingleQuoted("")] {
      assert pieces[1..] == [];
      assert SayAll(AsLexed, l.abc.decode, pieces[1..]) == "";
      assert Conforms(pieces[0]);
    }
  }

  // ----- which bodies tell two delimiters apart

  /** Some line can read as the delimiter. */
  predicate Possible(h: Heredoc) {
    '\n' !in h.delimiter && (h.stripTabs && h.delimiter != "" ==> h.delimiter[0] != '\t')
  }

  lemma {:induction false} TabsAreDropped(s: string)
    ensures DropTabs(s) != "" ==> DropTabs(s)[0] != '\t'
    ensures forall c :: c in DropTabs(s) ==> c in s
    decreases |s|
  {
    if s != "" && s[0] == '\t' {
      TabsAreDropped(s[1..]);
    }
  }

  lemma CandidateIsPossible(src: string, i: nat, h: Heredoc)
    requires i <= |src| && CandidateLine(src, i, h.stripTabs) == h.delimiter
    ensures Possible(h)
  {
    var line := src[i..LineEnd(src, i)];
    assert '\n' !in line;
    var cut := if line != "" && line[|line| - 1] == '\r' then line[..|line| - 1] else line;
    assert forall c :: c in cut ==> c in line;
    TabsAreDropped(cut);
  }

  lemma {:induction false} ImpossibleNeverEnds(src: string, i: nat, h: Heredoc)
    requires i <= |src| && !Possible(h)
    ensures SkipOne(src, i, h) == |src|
    decreases |src| - i
  {
    hide CandidateLine, Possible;
    if i < |src| {
      if CandidateLine(src, i, h.stripTabs) == h.delimiter {
        CandidateIsPossible(src, i, h);
      }
      ImpossibleNeverEnds(src, AfterLine(src, i), h);
    }
  }

  /** The body of one line that reads as the delimiter, and a character after it. */
  function OwnBody(h: Heredoc): string {
    h.delimiter + "\r\nx"
  }

  lemma OwnLine(h: Heredoc)
    requires Possible(h)
    ensures CandidateLine(OwnBody(h), 0, h.stripTabs) == h.delimiter
    ensures AfterLine(OwnBody(h), 0) == |OwnBody(h)| - 1
  {
    var body, n := OwnBody(h), |h.delimiter|;
    assert forall k :: 0 <= k < n ==> body[k] == h.delimiter[k];
    assert body[n] == '\r' && body[n + 1] == '\n' && body[n + 2] == 'x';
    assert LineEnd(body, 0) == n + 1;
    assert body[0..n + 1] == h.delimiter + "\r";
    assert (h.delimiter + "\r")[..n] == h.delimiter;
  }

  lemma OwnBodyTellsApart(a: Heredoc, b: Heredoc)
    requires a.stripTabs == b.stripTabs && a != b && Possible(b)
    ensures SkipOne(OwnBody(b), 0, a) != SkipOne(OwnBody(b), 0, b)
  {
    hide CandidateLine;
    OwnLine(b);
    var body := OwnBody(b);
    assert body[|body| - 1] == 'x';
    assert AfterLine(body, |body| - 1) == |body|;
  }

  /** Two here-documents are skipped alike, whatever the body, exactly when they are the same or no line can end either. */
  lemma SkippedAlikeIff(a: Heredoc, b: Heredoc)
    requires a.stripTabs == b.stripTabs
    ensures (forall src: string, i: nat {:trigger SkipOne(src, i, a)} :: i <= |src| ==> SkipOne(src, i, a) == SkipOne(src, i, b))
            <==> a == b || (!Possible(a) && !Possible(b))
  {
    hide SkipOne, Possible;
    if !Possible(a) && !Possible(b) {
      forall src: string, i: nat | i <= |src|
        ensures SkipOne(src, i, a) == SkipOne(src, i, b)
      {
        ImpossibleNeverEnds(src, i, a);
        ImpossibleNeverEnds(src, i, b);
      }
    } else if a != b && Possible(b) {
      OwnBodyTellsApart(a, b);
    } else if a != b {
      OwnBodyTellsApart(b, a);
    }
  }

  /**
   * The body is skipped to the line quote removal asks for, whatever it holds, exactly when the word conforms, or when
   * by either rule no line can end it.
   */
  lemma BodySkippedAsPosixIff(l: Lexer, pieces: seq<Piece>)
    requires Announces(l, pieces) && ClosedInTime(pieces)
    ensures var a, b := Named(AsLexed, l, pieces), Named(AsPosix, l, pieces);
            (forall src: string, i: nat {:trigger SkipOne(src, i, a)} :: i <= |src| ==> SkipOne(src, i, a) == SkipOne(src, i, b))
            <==> AllConform(pieces) || (!Possible(a) && !Possible(b))
  {
    hide Announces, SkipOne, Possible, SayAll;
    QueuedIffConforms(l, pieces);
    SkippedAlikeIff(Named(AsLexed, l, pieces), Named(AsPosix, l, pieces));
  }

  // ----- from the operator to the delimiter line

  /** The word is one the lexer accepts, and ends its line. */
  predicate BeginsHeredoc(l: Lexer, pieces: seq<Piece>) {
    && Announces(l, pieces) && ClosedInTime(pieces)
    && Named(AsLexed, l, pieces).delimiter != ""
    && At(l.src, HeredocStart(l.src, l.index).value.0 + |WriteAll(pieces)|, '\n')
  }

  lemma OperatorIsParsed(l: Lexer)
    requires Ready(l) && Active(Top(l)) && Top(l).kind != ArithmeticCommand && ParseHeredoc(l).Some?
    ensures Some(Step(l)) == ParseHeredoc(l)
  {
    hide SourceLines.Newlines, ReadWord, SkipPending;
  }

  /** Where the line after the operator's begins. */
  function NextLine(l: Lexer, pieces: seq<Piece>): (i: nat)
    requires BeginsHeredoc(l, pieces)
    ensures i <= |l.src|
  {
    HeredocStart(l.src, l.index).value.0 + |WriteAll(pieces)| + 1
  }

  lemma TwoSteps(l: Lexer)
    requires Ready(l) && Ready(Step(l))
    ensures Run(l, 2) == Step(Step(l)) && Scan(Run(l, 2)) == Scan(l)
  {
    hide Step, Scan, Run;
    RunUnfolds(l, 1);
    RunUnfolds(Step(l), 0);
    RunStops(Step(Step(l)));
    ScanFromRun(l, 2);
  }

  /** The operator's line is left in two steps, past the bodies of what was waiting and of the new here-document. */
  lemma HeredocRuns(l: Lexer, pieces: seq<Piece>)
    requires BeginsHeredoc(l, pieces)
    ensures var r := Run(l, 2);
            && (r.index, r.pending) == SkipPending(l.src, NextLine(l, pieces), l.pending + [Named(AsLexed, l, pieces)])
            && r.comments == l.comments
            && r.frames == SetTop(l, Top(l).(previous := Some('\n'), commandPosition := true)).frames
            && Scan(r) == Scan(l)
  {
    hide Step, Scan, Run, WriteAll, SayAll, WellFormed, HeredocStart, SkipPending, SourceLines.Newlines, ParseHeredoc,
         StandsAt, WordEndsAt;
    OperatorQueues(l, pieces);
    OperatorIsParsed(l);
    HeredocBodiesReportNothing(Step(l));
    TwoSteps(l);
  }

  lemma {:induction false} SkipPendingThen(src: string, i: nat, pending: seq<Heredoc>, h: Heredoc)
    requires i <= |src|
    ensures var (from, left) := SkipPending(src, i, pending);
            SkipPending(src, i, pending + [h]) == if from == |src| then (from, left + [h]) else (SkipOne(src, from, h), [])
    decreases |pending|
  {
    hide SkipOne;
    if pending == [] {
      assert pending + [h] == [h] && [h][1..] == [];
    } else if i < |src| {
      assert (pending + [h])[1..] == pending[1..] + [h];
      SkipPendingThen(src, SkipOne(src, i, pending[0]), pending[1..], h);
    }
  }

  /**
   * A whole here-document is opaque: two steps after its operator the lexer stands in the same frame just past the
   * first line, after the bodies that were waiting, that reads as its delimiter word says, or at the end of the source
   * when none does, whatever lies between; nothing is recorded, and the scan goes on from there. The delimiter is the
   * one quote removal leaves exactly when the word conforms.
   */
  lemma HeredocIsOpaque(l: Lexer, pieces: seq<Piece>)
    requires BeginsHeredoc(l, pieces)
    ensures var (from, left) := SkipPending(l.src, NextLine(l, pieces), l.pending);
            var (h, r) := (Named(AsLexed, l, pieces), Run(l, 2));
            && (if from == |l.src| then r.index == |l.src| && r.pending == left + [h]
                else
                  && r.pending == []
                  && (|| (r.index == |l.src| && forall s: nat :: LineBegins(l.src, from, s) ==> !Ends(l.src, s, h))
                      || exists d: nat :: FirstEnd(l.src, from, d, h) && r.index == AfterLine(l.src, d)))
            && r.comments == l.comments
            && r.frames == SetTop(l, Top(l).(previous := Some('\n'), commandPosition := true)).frames
            && Scan(r) == Scan(l)
            && (h == Named(AsPosix, l, pieces) <==> AllConform(pieces))
  {
    hide Step, Scan, Run, BeginsHeredoc, NextLine, AfterLine, LineBegins, Ends, FirstEnd, Named, SkipPending;
    assert Announces(l, pieces) && ClosedInTime(pieces) by {
      BeginningAnnounces(l, pieces);
    }
    var h, next := Named(AsLexed, l, pieces), NextLine(l, pieces);
    var (from, _) := SkipPending(l.src, next, l.pending);
    HeredocRuns(l, pieces);
    SkipPendingThen(l.src, next, l.pending, h);
    SkipStopsAfterFirstDelimiter(l.src, from, h);
    QueuedIffConforms(l, pieces);
  }

  lemma BeginningAnnounces(l: Lexer, pieces: seq<Piece>)
    requires BeginsHeredoc(l, pieces)
    ensures Announces(l, pieces) && ClosedInTime(pieces)
  {
  }

  // ----- two words the lexer reads otherwise

  const BACKSLASHED := [DoubleQuoted(false, [Plain('a'), Escaped('b')])]

  /** A double-quoted `a\b` is read as `ab`, where quote removal leaves `a\b`. */
  lemma BackslashIsDropped(decode: string -> string)
    ensures WellFormed(BACKSLASHED) && WriteAll(BACKSLASHED) == "\"a\\b\""
    ensures SayAll(AsLexed, decode, BACKSLASHED) == "ab" && SayAll(AsPosix, decode, BACKSLASHED) == "a\\b"
  {
    var inner := [Plain('a'), Escaped('b')];
    assert inner[1..] == [Escaped('b')] && inner[1..][1..] == [] && BACKSLASHED[1..] == [];
    assert WriteInner(inner[1..]) == "\\b" + WriteInner([]);
    assert SayInner(AsLexed, inner[1..]) == "b" + SayInner(AsLexed, []);
    assert SayInner(AsPosix, inner[1..]) == "\\b" + SayInner(AsPosix, []);
  }

  const ESCAPED_QUOTE := [AnsiQuoted([Plain('a'), Escaped('\''), Plain('b')])]

  const OPEN_QUOTE := "<<$'a\\'b'\n# x\n"

  lemma EscapedQuoteIsWritten()
    ensures Write(ESCAPED_QUOTE[0]) == "$'a\\'b'" && WriteAll(ESCAPED_QUOTE) == "$'a\\'b'"
  {
    var inner := [Plain('a'), Escaped('\''), Plain('b')];
    assert inner[1..] == [Escaped('\''), Plain('b')] && inner[1..][1..] == [Plain('b')] && inner[1..][1..][1..] == [];
    assert WriteInner(inner[1..][1..]) == "b" + WriteInner([]);
    assert WriteInner(inner[1..]) == "\\'" + WriteInner(inner[1..][1..]);
    assert ESCAPED_QUOTE[1..] == [];
  }

  lemma OperatorStands()
    ensures HeredocStart(OPEN_QUOTE, 0) == Some((2, false)) && WordEndsAt(OPEN_QUOTE, 9)
    ensures StandsAt(OPEN_QUOTE, 2, "$'a\\'b'") && StandsAt(OPEN_QUOTE, 4, "a\\") && StandsAt(OPEN_QUOTE, 7, "b")
    ensures StandsAt(OPEN_QUOTE, 9, "\n# x\n") && OPEN_QUOTE[6] == OPEN_QUOTE[8] == '\'' && |OPEN_QUOTE| == 14
  {
    assert OPEN_QUOTE[2] == '$';
    assert SkipBlanks(OPEN_QUOTE, 2) == 2;
  }

  lemma EscapedQuoteAnnounces(abc: Alphabet)
    ensures Announces(Start(abc, OPEN_QUOTE), ESCAPED_QUOTE)
  {
    hide WriteAll, HeredocStart, StandsAt, WordEndsAt;
    EscapedQuoteIsWritten();
    OperatorStands();
  }

  lemma QuoteOpensAt(abc: Alphabet, src: string, i: nat, text: string)
    requires At(src, i, '\'')
    ensures ReadWord(abc, src, Word(i, text, None, None)) == ReadWord(abc, src, Word(i + 1, text, Some('\''), None))
  {
  }

  lemma QuoteRunsOut(abc: Alphabet, src: string, i: nat, text: string)
    requires i == |src|
    ensures ReadWord(abc, src, Word(i, text, Some('\''), None)) == Word(i, text, Some('\''), None)
  {
  }

  /**
   * The quote closes at the escaped one, and the one that should close it opens another, which nothing closes: the
   * here-document is not recognised, and its body is left to be scanned as shell.
   */
  lemma EscapedQuoteIsMisread(abc: Alphabet)
    ensures Announces(Start(abc, OPEN_QUOTE), ESCAPED_QUOTE) && ParseHeredoc(Start(abc, OPEN_QUOTE)) == None
  {
    hide ReadWord, WordStep, StandsAt, HeredocStart, WriteAll, Write, WordEndsAt;
    var src, decoded := OPEN_QUOTE, abc.decode("a\\");
    EscapedQuoteAnnounces(abc);
    EscapedQuoteIsWritten();
    OperatorStands();
    var opened' := Word(4, "", Some('\''), Some(0));
    PieceOpens(abc, src, 2, "", ESCAPED_QUOTE[0]);
    ReadOn(abc, src, Word(2, "", None, None), opened');
    SingleRead(abc, src, opened', "a\\");
    assert "" + "a\\" == "a\\" && "a\\"[..0] + abc.decode("a\\"[0..]) == decoded by {
      assert "a\\"[0..] == "a\\";
    }
    QuoteCloses(abc, src, Word(6, "a\\", Some('\''), Some(0)));
    LetterRead(abc, src, 7, decoded);
    QuoteOpensAt(abc, src, 8, decoded + "b");
    SingleRead(abc, src, Word(9, decoded + "b", Some('\''), None), "\n# x\n");
    QuoteRunsOut(abc, src, 14, decoded + "b" + "\n# x\n");
  }

  lemma LetterRead(abc: Alphabet, src: string, i: nat, text: string)
    requires StandsAt(src, i, "b")
    ensures ReadWord(abc, src, Word(i, text, None, None)) == ReadWord(abc, src, Word(i + 1, text + "b", None, None))
  {
    hide ReadWord, WordStep, StandsAt;
    PieceRead(abc, src, i, text, Bare('b'));
  }

  lemma LessThanStep(l: Lexer)
    requires Ready(l) && Top(l).kind == Code && Top(l).caseStates == []
    requires l.src[l.index] == '<' && ParseHeredoc(l) == None && !l.abc.alpha('<')
    ensures Step(l) == Move(SetTop(l, Top(l).(previous := Some('<'), commandPosition := false)), l.index + 1)
  {
    hide ParseHeredoc, SourceLines.Newlines;
  }

  lemma NewLineStep(l: Lexer)
    requires Ready(l) && Active(Top(l)) && l.src[l.index] == '\n' && l.pending == []
    ensures var r := Step(l);
            r.index == l.index + 1 && r.pending == [] && r.comments == l.comments
            && r.frames == SetTop(l, Top(l).(previous := Some('\n'), commandPosition := true)).frames
  {
    hide Step;
    HeredocBodiesReportNothing(l);
  }

  lemma SpanStands()
    ensures EscapedSpan(OPEN_QUOTE, 4, 8) && OPEN_QUOTE[9] == OPEN_QUOTE[13] == '\n'
    ensures LineEnd(OPEN_QUOTE, 11) == 13
  {
    assert EscapedSpan(OPEN_QUOTE, 7, 8) && EscapedSpan(OPEN_QUOTE, 5, 8);
  }

  lemma SecondOperatorFails(l: Lexer)
    requires l.index < |l.src| && FramesOk(l.frames) && l.index > 0 && l.src[l.index - 1] == '<'
    ensures ParseHeredoc(l) == None
  {
  }

  lemma {:induction false} RunKeepsReported(l: Lexer, n: nat)
    requires l.index <= |l.src| && FramesOk(l.frames) && Reported(l)
    ensures Reported(Run(l, n))
    decreases n
  {
    hide Step, Reported;
    if n > 0 && l.index < |l.src| {
      assert l.index < |l.src| && FramesOk(l.frames);
      StepKeepsReported(l);
      RunKeepsReported(Step(l), n - 1);
    }
  }

  /** A `#` where a word may begin is recorded with its true line. */
  lemma RecordedStep(l: Lexer)
    requires Reported(l) && Ready(l) && Active(Top(l)) && l.src[l.index] == '#' && Top(l).previous == Some('\n')
    requires Top(l).caseStates == [] && Top(l).kind == Code
    ensures var r := Step(l);
            && r.comments == l.comments + [CommentAt(l.src, l.index)] && r.index == LineEnd(l.src, l.index + 1)
            && r.frames == l.frames && r.pending == l.pending
  {
    hide ReadWord, SourceLines.Newlines;
    CommentLine(l.src, l.index);
  }

  lemma ScanEnds(l: Lexer)
    requires l.index == |l.src| && Reported(l)
    ensures FramesOk(l.frames) && Scan(l) == l
  {
  }

  /** A lexer of that source at the top, with nothing waiting. */
  ghost predicate AtTop(l: Lexer, i: nat, comments: seq<Comment>) {
    && l.src == OPEN_QUOTE && l.index == i <= |l.src| && l.pending == [] && l.comments == comments && Reported(l)
    && FramesOk(l.frames) && |l.frames| == 1 && Top(l).kind == Code && Top(l).caseStates == []
  }

  lemma OverLessThan(l: Lexer) returns (r: Lexer)
    requires l.index < |l.src| && l.src[l.index] == '<' && AtTop(l, l.index, [])
    requires ParseHeredoc(l) == None && !l.abc.alpha('<')
    ensures r.abc == l.abc && AtTop(r, l.index + 1, []) && Scan(r) == Scan(l)
  {
    hide Step, Scan, Reported, ParseHeredoc;
    assert Ready(l);
    LessThanStep(l);
    StepKeepsReported(l);
    ScanUnfolds(l);
    r := Step(l);
  }

  lemma OperatorBegins()
    ensures |OPEN_QUOTE| == 14 && OPEN_QUOTE[0] == OPEN_QUOTE[1] == '<'
  {
  }

  lemma StartsAtTop(abc: Alphabet)
    ensures AtTop(Start(abc, OPEN_QUOTE), 0, []) && Start(abc, OPEN_QUOTE).abc == abc
  {
  }

  lemma OverOperator(abc: Alphabet) returns (l: Lexer)
    requires !abc.alpha('<')
    ensures AtTop(l, 2, []) && Scan(l) == Scan(Start(abc, OPEN_QUOTE))
  {
    hide Scan, ParseHeredoc, Reported, FramesOk, Start, Announces, Top;
    OperatorBegins();
    EscapedQuoteIsMisread(abc);
    StartsAtTop(abc);
    l := OverLessThan(Start(abc, OPEN_QUOTE));
    SecondOperatorFails(l);
    l := OverLessThan(l);
  }

  lemma OverQuote(l: Lexer) returns (r: Lexer)
    requires AtTop(l, 2, [])
    ensures AtTop(r, 9, []) && Scan(r) == Scan(l)
  {
    hide Step, Scan, Run, EscapedSpan, SourceLines.Newlines, Reported;
    SpanStands();
    var n := AnsiSpansAreOpaque(l, 8);
    assert l.index <= |l.src| && FramesOk(l.frames);
    RunKeepsReported(l, n);
    ScanFromRun(l, n);
    r := Run(l, n);
  }

  lemma OverNewLine(l: Lexer, comments: seq<Comment>) returns (r: Lexer)
    requires l.index < |l.src| && l.src[l.index] == '\n' && AtTop(l, l.index, comments)
    ensures AtTop(r, l.index + 1, comments) && Top(r).previous == Some('\n') && Scan(r) == Scan(l)
  {
    hide Step, Scan, Reported;
    assert Ready(l);
    NewLineStep(l);
    StepKeepsReported(l);
    ScanUnfolds(l);
    r := Step(l);
  }

  lemma OverComment(l: Lexer) returns (r: Lexer)
    requires AtTop(l, 10, []) && Top(l).previous == Some('\n')
    ensures AtTop(r, 13, [CommentAt(OPEN_QUOTE, 10)]) && Scan(r) == Scan(l)
  {
    hide Step, Scan, Reported, CommentAt;
    assert Ready(l);
    SpanStands();
    RecordedStep(l);
    StepKeepsReported(l);
    ScanUnfolds(l);
    r := Step(l);
  }

  /** So a line of the body that looks like a comment is reported as one. */
  lemma EscapedQuoteBodyIsReported(abc: Alphabet)
    requires !abc.alpha('<')
    ensures Scan(Start(abc, OPEN_QUOTE)).comments == [CommentAt(OPEN_QUOTE, 10)]
  {
    hide Scan, Reported, CommentAt, Top;
    SpanStands();
    var l := OverOperator(abc);
    l := OverQuote(l);
    l := OverNewLine(l, []);
    l := OverComment(l);
    l := OverNewLine(l, [CommentAt(OPEN_QUOTE, 10)]);
    ScanEnds(l);
  }
}
