/** What the shell lexer guarantees of every run: true lines, real comments, opaque quotes and here-documents. */
module ShellProofs {
  import opened Prelude
  import opened SourceLines
  import opened ShellLexer
  import opened CommentUnits
  import Text

  /** `c` is the comment some `#` before `end` starts. */
  ghost predicate IsComment(src: string, c: Comment, end: nat)
    requires end <= |src|
  {
    exists p: nat :: p < end && src[p] == '#' && CommentAt(src, p) == c
  }

  ghost predicate AllReal(src: string, comments: seq<Comment>, end: nat)
    requires end <= |src|
  {
    forall i :: 0 <= i < |comments| ==> IsComment(src, comments[i], end)
  }

  predicate LinesIncrease(comments: seq<Comment>) {
    forall i, j :: 0 <= i < j < |comments| ==> comments[i].line < comments[j].line
  }

  /** The last comment lies on an earlier line, or ends this one. */
  predicate LastIsBehind(l: Lexer) {
    l.comments != [] && l.index <= |l.src| ==>
      var last := l.comments[|l.comments| - 1].line;
      last <= l.line && (last == l.line ==> l.index == |l.src| || l.src[l.index] == '\n')
  }

  /** What holds between any two steps: the line is the true line, and the comments are real, each on a later line. */
  ghost predicate Reported(l: Lexer) {
    && l.index <= |l.src| && FramesOk(l.frames)
    && l.line == LineOf(l.src, l.index)
    && AllReal(l.src, l.comments, l.index)
    && LinesIncrease(l.comments)
    && LastIsBehind(l)
  }

  lemma RealStaysReal(src: string, comments: seq<Comment>, end: nat, end': nat)
    requires end <= end' <= |src| && AllReal(src, comments, end)
    ensures AllReal(src, comments, end')
  {
    forall i | 0 <= i < |comments|
      ensures IsComment(src, comments[i], end')
    {
      assert IsComment(src, comments[i], end);
      var p: nat :| p < end && src[p] == '#' && CommentAt(src, p) == comments[i];
    }
  }

  lemma AppendedIsReal(src: string, comments: seq<Comment>, i: nat, end: nat)
    requires i < end <= |src| && src[i] == '#' && AllReal(src, comments, end)
    ensures AllReal(src, comments + [CommentAt(src, i)], end)
  {
    assert IsComment(src, CommentAt(src, i), end);
  }

  lemma CommentLine(src: string, i: nat)
    requires i < |src|
    ensures CommentAt(src, i).line == LineOf(src, i)
  {
  }

  lemma LinesKeepIncreasing(comments: seq<Comment>, c: Comment)
    requires LinesIncrease(comments) && (comments != [] ==> comments[|comments| - 1].line < c.line)
    ensures LinesIncrease(comments + [c])
  {
  }

  /** A step that records nothing. */
  lemma QuietStepKeepsReported(l: Lexer, r: Lexer)
    requires Reported(l) && l.index < |l.src| && Advances(l, r) && r.comments == l.comments
    ensures Reported(r)
  {
    LineMoves(l.src, l.index, r.index);
    RealStaysReal(l.src, l.comments, l.index, r.index);
    if l.src[l.index] == '\n' {
      PassedNewline(l.src, l.index, r.index);
    }
  }

  /** A step that records the comment it stands on, and stops at the end of its line. */
  lemma RecordingStepKeepsReported(l: Lexer, r: Lexer, c: Comment)
    requires Reported(l) && l.index < |l.src| && Advances(l, r)
    requires l.src[l.index] == '#' && r.index == LineEnd(l.src, l.index + 1)
    requires c == CommentAt(l.src, l.index) && r.comments == l.comments + [c]
    ensures Reported(r)
  {
    hide CommentAt, AllReal;
    CommentLine(l.src, l.index);
    LineMoves(l.src, l.index, r.index);
    NoNewlines(l.src, l.index, r.index);
    RealStaysReal(l.src, l.comments, l.index, r.index);
    AppendedIsReal(l.src, l.comments, l.index, r.index);
    LinesKeepIncreasing(l.comments, c);
  }

  lemma AdvancingKeepsReported(l: Lexer, r: Lexer)
    requires Reported(l) && l.index < |l.src| && Advances(l, r)
    ensures Reported(r)
  {
    if r.comments == l.comments {
      QuietStepKeepsReported(l, r);
    } else {
      RecordingStepKeepsReported(l, r, CommentAt(l.src, l.index));
    }
  }

  lemma StepKeepsReported(l: Lexer)
    requires Reported(l) && l.index < |l.src|
    ensures Reported(Step(l))
  {
    hide Step;
    AdvancingKeepsReported(l, Step(l));
  }

  lemma {:induction false} ScanKeepsReported(l: Lexer)
    requires Reported(l)
    ensures Reported(Scan(l))
    decreases |l.src| - l.index
  {
    hide Step;
    if l.index < |l.src| {
      StepKeepsReported(l);
      ScanKeepsReported(Step(l));
    }
  }

  /**
   * A scan consumes the whole source. Every comment it reports is what some `#` of the source starts, with that `#`'s
   * true line, and the comments come out on strictly increasing lines.
   */
  lemma ScanReportsTrueLines(abc: Alphabet, src: string)
    ensures var r := Scan(Start(abc, src));
            && r.index == |src| && r.line == LineOf(src, |src|)
            && AllReal(src, r.comments, |src|) && LinesIncrease(r.comments)
  {
    ScanKeepsReported(Start(abc, src));
  }

  lemma {:induction false} TrimmedIsSuffix(s: string)
    ensures |Text.TrimStart(s)| <= |s| && Text.TrimStart(s) == s[|s| - |Text.TrimStart(s)|..]
  {
    if s != "" && Text.IsSpace(s[0]) {
      TrimmedIsSuffix(s[1..]);
    }
  }

  /**
   * End to end: the lines of the reported units, each at its true place, are exactly the comments of the scan that say
   * something, and each of them is what a `#` on that source line starts.
   */
  lemma ReportedUnitsAreTrue(abc: Alphabet, src: string)
    ensures var comments := Scan(Start(abc, src)).comments;
            && AllLocated(Group(comments)) == Spoken(comments)
            && Starts(Group(comments)) == Openers(comments)
            && AllReal(src, comments, |src|)
  {
    hide Scan, UnitLines, Located, AllLocated, Group, Spoken, Openers, AllReal, Starts;
    ScanReportsTrueLines(abc, src);
    RealCommentsAreOneLine(src, Scan(Start(abc, src)).comments);
    GroupingKeepsLines(Scan(Start(abc, src)).comments);
  }

  lemma RealCommentsAreOneLine(src: string, comments: seq<Comment>)
    requires AllReal(src, comments, |src|)
    ensures forall i :: 0 <= i < |comments| ==> '\n' !in comments[i].text
  {
    forall i | 0 <= i < |comments|
      ensures '\n' !in comments[i].text
    {
      assert IsComment(src, comments[i], |src|);
      var p: nat :| p < |src| && src[p] == '#' && CommentAt(src, p) == comments[i];
      TrimmedIsSuffix(src[p + 1..LineEnd(src, p + 1)]);
    }
  }

  /** A comment is recorded exactly at a `#` that stands, in an active frame, where a word may begin. */
  lemma RecordedExactlyAtWordStart(l: Lexer)
    requires Ready(l)
    ensures Step(l).comments != l.comments <==>
            && l.src[l.index] == '#' && Active(Top(l))
            && (Top(l).previous == None || Top(l).previous.value in BOUNDARIES)
  {
    hide Newlines;
  }

  // ----- quoting

  /** At most `n` steps. */
  function Run(l: Lexer, n: nat): (r: Lexer)
    requires l.index <= |l.src| && FramesOk(l.frames)
    ensures r.src == l.src && l.index <= r.index <= |r.src| && FramesOk(r.frames)
    decreases n
  {
    if n == 0 || l.index == |l.src| then l else Run(Step(l), n - 1)
  }

  lemma ScanUnfolds(l: Lexer)
    requires Ready(l)
    ensures Scan(l) == Scan(Step(l))
  {
    hide Step;
  }

  lemma {:induction false} ScanFromRun(l: Lexer, n: nat)
    requires l.index <= |l.src| && FramesOk(l.frames)
    ensures Scan(Run(l, n)) == Scan(l)
    decreases n
  {
    hide Step;
    if n > 0 && l.index < |l.src| {
      RunUnfolds(l, n - 1);
      ScanFromRun(Step(l), n - 1);
      ScanUnfolds(l);
    }
  }

  lemma RunUnfolds(l: Lexer, n: nat)
    requires Ready(l)
    ensures Run(l, n + 1) == Run(Step(l), n)
  {
    hide Step;
  }

  lemma RunStops(l: Lexer)
    requires l.index <= |l.src| && FramesOk(l.frames)
    ensures Run(l, 0) == l
  {
  }

  lemma MoveTwice(l: Lexer, i: nat, j: nat)
    requires l.index <= i <= j <= |l.src|
    ensures Move(Move(l, i), j) == Move(l, j)
  {
    NewlinesAdd(l.src, l.index, i, j);
  }

  /** The characters that mean something to a quote of this kind, besides the one that closes it. */
  predicate Special(src: string, kind: FrameKind, k: nat)
    requires k < |src|
  {
    kind == Double && (src[k] == '\\' || src[k] == '`' || (src[k] == '$' && (At(src, k + 1, '(') || At(src, k + 1, '{'))))
  }

  /** A span with nothing special in it, up to the quote that closes it at `j`. */
  predicate PlainSpan(src: string, kind: FrameKind, i: nat, j: nat) {
    && i <= j < |src| && src[j] == (if kind == Single then '\'' else '"')
    && forall k :: i <= k < j ==> src[k] != src[j] && !Special(src, kind, k)
  }

  lemma QuotedStep(l: Lexer, j: nat)
    requires FramesOk(l.frames) && (Top(l).kind == Single || Top(l).kind == Double)
    requires PlainSpan(l.src, Top(l).kind, l.index, j)
    ensures Step(l) == if l.index < j then Move(l, l.index + 1) else CloseFrame(Move(l, j + 1), l.src[j])
  {
  }

  lemma {:induction false} QuotedSpanCloses(l: Lexer, j: nat)
    requires FramesOk(l.frames) && (Top(l).kind == Single || Top(l).kind == Double)
    requires PlainSpan(l.src, Top(l).kind, l.index, j)
    ensures Run(l, j - l.index + 1) == CloseFrame(Move(l, j + 1), l.src[j])
    decreases j - l.index
  {
    hide Step, Run, CloseFrame, Newlines;
    QuotedStep(l, j);
    RunUnfolds(l, j - l.index);
    RunStops(Step(l));
    if l.index < j {
      var l' := Move(l, l.index + 1);
      QuotedSpanCloses(l', j);
      MoveTwice(l, l.index + 1, j + 1);
    }
  }

  lemma QuoteOpens(l: Lexer)
    requires Ready(l) && Active(Top(l)) && (l.src[l.index] == '\'' || l.src[l.index] == '"')
    ensures var f := BeginPattern(Top(l)).(previous := Some(l.src[l.index]), commandPosition := false);
            Step(l) == Move(Push(SetTop(l, f), if l.src[l.index] == '\'' then Single else Double, 0), l.index + 1)
  {
  }

  lemma ClosingUndoesOpening(l: Lexer, f: Frame, kind: FrameKind, c: char, end: nat)
    requires Ready(l) && l.index < end <= |l.src| && f.previous == Some(c)
    ensures var inside := Move(Push(SetTop(l, f), kind, 0), l.index + 1);
            CloseFrame(Move(inside, end), c) == Move(SetTop(l, f), end)
  {
    var start := Push(SetTop(l, f), kind, 0);
    MoveTwice(start, l.index + 1, end);
    assert start.frames[..|l.frames|] == SetTop(l, f).frames;
    assert f.(previous := Some(c)) == f;
  }

  /**
   * From any active frame, whatever surrounds it, a single-quoted span with arbitrary contents, or a double-quoted one
   * free of escapes, backquotes and expansions, is crossed in one step a character: the lexer is back in the same
   * frame just after the closing quote, with no comment recorded and no here-document touched.
   */
  lemma QuotedSpansAreOpaque(l: Lexer, j: nat)
    requires Ready(l) && Active(Top(l)) && (l.src[l.index] == '\'' || l.src[l.index] == '"')
    requires PlainSpan(l.src, if l.src[l.index] == '\'' then Single else Double, l.index + 1, j)
    ensures Run(l, j - l.index + 1)
         == Move(SetTop(l, BeginPattern(Top(l)).(previous := Some(l.src[l.index]), commandPosition := false)), j + 1)
  {
    hide Step, Run, Newlines, BeginPattern, CloseFrame;
    var f := BeginPattern(Top(l)).(previous := Some(l.src[l.index]), commandPosition := false);
    var kind := if l.src[l.index] == '\'' then Single else Double;
    QuoteOpens(l);
    var inside := Move(Push(SetTop(l, f), kind, 0), l.index + 1);
    RunUnfolds(l, j - l.index);
    QuotedSpanCloses(inside, j);
    ClosingUndoesOpening(l, f, kind, l.src[j], j + 1);
  }

  /** The body of an ANSI-C quoted span, in which a backslash escapes whatever follows it, up to its closing quote at `j`. */
  predicate EscapedSpan(src: string, i: nat, j: nat)
    decreases j - i
  {
    i <= j < |src| &&
    if src[i] == '\'' then i == j
    else if src[i] == '\\' then EscapedSpan(src, i + 2, j)
    else EscapedSpan(src, i + 1, j)
  }

  lemma AnsiStep(l: Lexer, j: nat)
    requires FramesOk(l.frames) && Top(l).kind == AnsiSingle && EscapedSpan(l.src, l.index, j)
    ensures Step(l) == if l.index == j then CloseFrame(Move(l, j + 1), '\'')
                       else Move(l, l.index + if l.src[l.index] == '\\' then 2 else 1)
  {
  }

  lemma {:induction false} AnsiSpanCloses(l: Lexer, j: nat) returns (n: nat)
    requires FramesOk(l.frames) && Top(l).kind == AnsiSingle && EscapedSpan(l.src, l.index, j)
    ensures Run(l, n) == CloseFrame(Move(l, j + 1), '\'')
    decreases j - l.index
  {
    hide Step, Run;
    AnsiStep(l, j);
    if l.index == j {
      n := 1;
      RunUnfolds(l, 0);
      RunStops(Step(l));
    } else {
      var l' := Step(l);
      var m := AnsiSpanCloses(l', j);
      n := m + 1;
      RunUnfolds(l, m);
      MoveTwice(l, l'.index, j + 1);
    }
  }

  lemma AnsiOpens(l: Lexer)
    requires Ready(l) && Active(Top(l)) && l.src[l.index] == '$' && At(l.src, l.index + 1, '\'')
    ensures var f := BeginPattern(Top(l)).(previous := Some('w'), commandPosition := false);
            Step(l) == Move(Push(SetTop(l, f), AnsiSingle, 0), l.index + 2)
  {
  }

  /** An ANSI-C quoted span, escapes and all, is crossed back to the same frame, recording nothing. */
  lemma AnsiSpansAreOpaque(l: Lexer, j: nat) returns (n: nat)
    requires Ready(l) && Active(Top(l)) && l.src[l.index] == '$' && At(l.src, l.index + 1, '\'')
    requires EscapedSpan(l.src, l.index + 2, j)
    ensures Run(l, n)
         == Move(SetTop(l, BeginPattern(Top(l)).(previous := Some('\''), commandPosition := false)), j + 1)
  {
    hide Step, Run;
    var f := BeginPattern(Top(l)).(previous := Some('w'), commandPosition := false);
    AnsiOpens(l);
    var start := Push(SetTop(l, f), AnsiSingle, 0);
    var m := AnsiSpanCloses(Step(l), j);
    n := m + 1;
    RunUnfolds(l, m);
    MoveTwice(start, l.index + 2, j + 1);
    assert start.frames[..|l.frames|] == SetTop(l, f).frames;
  }

  /** A quoted span contributes nothing: the scan reports what it would from the closing quote on. */
  lemma QuotedSpansReportNothing(l: Lexer, j: nat)
    requires Ready(l) && Active(Top(l)) && (l.src[l.index] == '\'' || l.src[l.index] == '"')
    requires PlainSpan(l.src, if l.src[l.index] == '\'' then Single else Double, l.index + 1, j)
    ensures var after := Run(l, j - l.index + 1);
            after.index == j + 1 && after.comments == l.comments && after.pending == l.pending && Scan(after) == Scan(l)
  {
    hide Step, Scan;
    QuotedSpansAreOpaque(l, j);
    ScanFromRun(l, j - l.index + 1);
  }

  // ----- here-documents

  predicate LineBegins(src: string, from: nat, s: nat) {
    s < |src| && (s == from || (s > from && src[s - 1] == '\n'))
  }

  predicate Ends(src: string, s: nat, h: Heredoc)
    requires s <= |src|
  {
    CandidateLine(src, s, h.stripTabs) == h.delimiter
  }

  /** The line at `d` is the first, from `i` on, that is the delimiter. */
  ghost predicate FirstEnd(src: string, i: nat, d: nat, h: Heredoc) {
    LineBegins(src, i, d) && Ends(src, d, h) && forall s: nat :: LineBegins(src, i, s) && s < d ==> !Ends(src, s, h)
  }

  /**
   * Skipping one here-document stops just after the first line, counting from where its body begins, that is its
   * delimiter, or at the end of the source when no line is.
   */
  lemma {:induction false} SkipStopsAfterFirstDelimiter(src: string, i: nat, h: Heredoc)
    requires i <= |src|
    ensures var j := SkipOne(src, i, h);
            || (j == |src| && forall s: nat :: LineBegins(src, i, s) ==> !Ends(src, s, h))
            || exists d: nat :: FirstEnd(src, i, d, h) && j == AfterLine(src, d)
    decreases |src| - i
  {
    if i < |src| {
      if Ends(src, i, h) {
        assert FirstEnd(src, i, i, h);
      } else {
        var n := AfterLine(src, i);
        SkipStopsAfterFirstDelimiter(src, n, h);
        forall s: nat | LineBegins(src, i, s)
          ensures s == i || LineBegins(src, n, s)
        {
          if s > i {
            assert s - 1 >= LineEnd(src, i);
          }
        }
        if d: nat :| FirstEnd(src, n, d, h) && SkipOne(src, n, h) == AfterLine(src, d) {
          assert FirstEnd(src, i, d, h);
        }
      }
    }
  }

  /** Pending here-documents are skipped in order, each from where the one before it stopped. */
  lemma {:induction false} PendingAreSkippedInOrder(src: string, i: nat, pending: seq<Heredoc>) returns (stops: seq<nat>)
    requires i <= |src|
    ensures var (end, left) := SkipPending(src, i, pending);
            && 1 <= |stops| <= |pending| + 1 && stops[0] == i && stops[|stops| - 1] == end
            && (forall k :: 0 <= k < |stops| ==> stops[k] <= |src|)
            && (forall k :: 0 <= k < |stops| - 1 ==> stops[k + 1] == SkipOne(src, stops[k], pending[k]))
            && left == pending[|stops| - 1..]
            && (left == [] || end == |src|)
    decreases |pending|
  {
    if pending == [] || i == |src| {
      stops := [i];
    } else {
      var rest := PendingAreSkippedInOrder(src, SkipOne(src, i, pending[0]), pending[1..]);
      stops := [i] + rest;
    }
  }

  lemma NewlinesAreTaken(l: Lexer)
    requires Ready(l) && Active(Top(l)) && l.src[l.index] == '\n'
    ensures Step(l) == NewLine(l)
  {
    hide NewLine;
  }

  /** The newline that ends a line with here-documents waiting carries the lexer past their bodies, recording nothing. */
  lemma HeredocBodiesReportNothing(l: Lexer)
    requires Ready(l) && Active(Top(l)) && l.src[l.index] == '\n'
    ensures var r := Step(l);
            && (r.index, r.pending) == SkipPending(l.src, l.index + 1, l.pending)
            && r.comments == l.comments
            && r.frames == SetTop(l, Top(l).(previous := Some('\n'), commandPosition := true)).frames
  {
    hide Step, Newlines, SkipPending;
    NewlinesAreTaken(l);
  }
}
