/** The units the JavaScript lexer reports: grouped online, as comments are met, and what they would be grouped in a batch. */
module JsUnits {
  import opened Prelude
  import opened Text
  import opened SourceLines
  import opened Spelling
  import opened JsLexer
  import opened CommentUnits
  import ShellLexer

  type Comment = ShellLexer.Comment

  /** The line comment a mark stands for, on its true line. */
  function LineComment(src: string, m: Mark): Comment
    requires Genuine(src, m) && !m.block
  {
    ShellLexer.Comment(LineOf(src, m.start), Strip(src[m.start + 2..m.end]), Blank(src[LineStart(src, m.start)..m.start]))
  }

  /** What a line comment says: the rest of its line between the blanks around it. */
  lemma LineCommentSays(src: string, m: Mark, before: string, t: string, after: string)
    requires Genuine(src, m) && !m.block && StandsAt(src, m.start, "//" + before + t + after)
    requires '\n' !in before && '\n' !in t && '\n' !in after && Text.Blank(before) && Text.Blank(after)
    requires var end := m.start + 2 + |before| + |t| + |after|; end == |src| || At(src, end, '\n')
    requires t == "" || (!IsSpace(t[0]) && !IsSpace(t[|t| - 1]))
    ensures LineComment(src, m) == ShellLexer.Comment(LineOf(src, m.start), t, FirstOnLine(src, m.start))
  {
    hide LineOf, LineStart, IsSpace, Text.Blank, Strip;
    var body := before + t + after;
    var all := "//" + before + t + after;
    var end := m.start + 2 + |body|;
    assert all[2..] == body;
    assert src[m.start + 2..end] == body by {
      assert src[m.start..end][2..] == src[m.start + 2..end];
    }
    assert LineEnd(src, m.start + 2) == end by {
      assert forall k :: m.start + 2 <= k < end ==> src[k] == body[k - m.start - 2];
    }
    StripLaw(before, t, after);
    FirstOnLineIff(src, m.start);
  }

  function WithoutStar(line: string): string {
    var t := TrimStart(line);
    if t == "" || t[0] != '*' then line
    else if |t| > 1 && t[1] == ' ' then t[2..]
    else t[1..]
  }

  function WithoutStars(lines: seq<string>): seq<string> {
    seq(|lines|, i requires 0 <= i < |lines| => WithoutStar(lines[i]))
  }

  function BlockText(body: string): string {
    JoinLines(WithoutStars(SplitLines(body)))
  }

  function BlockUnit(src: string, m: Mark): TextUnit
    requires Genuine(src, m) && m.block
  {
    TextUnit(LineOf(src, m.start), BlockText(src[m.start + 2..BlockClose(src, m.start + 2)]))
  }

  ghost predicate AllGenuine(src: string, marks: seq<Mark>) {
    forall i :: 0 <= i < |marks| ==> Genuine(src, marks[i])
  }

  // ----- online

  /** The units so far, and the unit and line a comment on the next line would join. */
  datatype Online = Online(units: seq<TextUnit>, pure: Option<(nat, nat)>)

  predicate Consistent(o: Online) {
    o.pure.Some? ==> o.pure.value.0 + 1 == |o.units|
  }

  function TakeLine(o: Online, c: Comment): (r: Online)
    requires Consistent(o)
    ensures Consistent(r)
  {
    var n := |o.units|;
    var units :=
      if c.fullLine && c.text != "" && o.pure.Some? && o.pure.value.1 + 1 == c.line then
        o.units[n - 1 := TextUnit(o.units[n - 1].start, o.units[n - 1].text + "\n" + c.text)]
      else if c.text != "" then o.units + [TextUnit(c.line, c.text)]
      else o.units;
    Online(units, if c.fullLine && c.text != "" then Some((|units| - 1, c.line)) else None)
  }

  function TakeMark(src: string, o: Online, m: Mark): (r: Online)
    requires Consistent(o) && Genuine(src, m)
    ensures Consistent(r)
  {
    if m.block then Online(o.units + [BlockUnit(src, m)], None) else TakeLine(o, LineComment(src, m))
  }

  function TakeAll(src: string, marks: seq<Mark>): (r: Online)
    requires AllGenuine(src, marks)
    ensures Consistent(r)
  {
    if marks == [] then Online([], None)
    else TakeMark(src, TakeAll(src, marks[..|marks| - 1]), marks[|marks| - 1])
  }

  // ----- batch

  /** Where the last run of line comments begins: just after the last block comment. */
  function RunStart(marks: seq<Mark>): (s: nat)
    ensures s <= |marks|
    ensures s > 0 ==> marks[s - 1].block
    ensures forall i :: s <= i < |marks| ==> !marks[i].block
  {
    if marks == [] then 0 else if marks[|marks| - 1].block then |marks| else RunStart(marks[..|marks| - 1])
  }

  function LineComments(src: string, marks: seq<Mark>): seq<Comment>
    requires forall i :: 0 <= i < |marks| ==> Genuine(src, marks[i]) && !marks[i].block
  {
    seq(|marks|, i requires 0 <= i < |marks| => LineComment(src, marks[i]))
  }

  /** The units up to and including the last block comment. */
  function Settled(src: string, marks: seq<Mark>): seq<TextUnit>
    requires AllGenuine(src, marks)
    decreases |marks|, 0
  {
    var s := RunStart(marks);
    if s == 0 then [] else Batch(src, marks[..s - 1]) + [BlockUnit(src, marks[s - 1])]
  }

  /** Each run of line comments between block comments grouped by itself. */
  function Batch(src: string, marks: seq<Mark>): seq<TextUnit>
    requires AllGenuine(src, marks)
    decreases |marks|, 1
  {
    Settled(src, marks) + Group(LineComments(src, marks[RunStart(marks)..]))
  }

  /** The online state, from the batch grouping of the current run. */
  function FromRun(settled: seq<TextUnit>, g: Grouping): Online
    requires g.previousFullLine.Some? ==> g.units != []
  {
    Online(settled + g.units,
           if g.previousFullLine.Some? then Some((|settled| + |g.units| - 1, g.previousFullLine.value)) else None)
  }

  lemma LineExtendsRun(settled: seq<TextUnit>, g: Grouping, c: Comment)
    requires g.previousFullLine.Some? ==> g.units != []
    ensures TakeLine(FromRun(settled, g), c) == FromRun(settled, Take(g, c))
  {
    if c.fullLine && c.text != "" && g.previousFullLine.Some? && g.previousFullLine.value + 1 == c.line {
      var n := |g.units| - 1;
      var unit := TextUnit(g.units[n].start, g.units[n].text + "\n" + c.text);
      assert (settled + g.units)[|settled| + n := unit] == settled + g.units[n := unit];
    } else if c.text != "" {
      assert (settled + g.units) + [TextUnit(c.line, c.text)] == settled + (g.units + [TextUnit(c.line, c.text)]);
    }
  }

  lemma SuffixGrows<T>(s: seq<T>, i: nat)
    requires i < |s|
    ensures s[i..] == s[..|s| - 1][i..] + [s[|s| - 1]]
  {
  }

  lemma RunOf(marks: seq<Mark>)
    requires marks != [] && !marks[|marks| - 1].block
    ensures var n := |marks| - 1;
            && RunStart(marks) == RunStart(marks[..n]) <= n
            && marks[RunStart(marks)..] == marks[..n][RunStart(marks)..] + [marks[n]]
  {
    var i := RunStart(marks[..|marks| - 1]);
    assert RunStart(marks) == i;
    hide RunStart;
    SuffixGrows(marks, i);
  }

  lemma {:induction false} OnlineFollowsRuns(src: string, marks: seq<Mark>)
    requires AllGenuine(src, marks)
    ensures TakeAll(src, marks)
         == FromRun(Settled(src, marks),
                    GroupFrom(Grouping([], None), LineComments(src, marks[RunStart(marks)..])))
    decreases |marks|, 0
  {
    hide Genuine, LineComment, TakeLine, FromRun, BlockUnit;
    if marks == [] {
      EmptyRun([]);
    } else {
      var n := |marks| - 1;
      var before := marks[..n];
      OnlineFollowsRuns(src, before);
      if marks[n].block {
        OnlineIsBatch(src, before);
        assert marks[|marks|..] == [];
        EmptyRun(Settled(src, marks));
      } else {
        RunOf(marks);
        var s := RunStart(marks);
        var run := LineComments(src, before[s..]);
        assert LineComments(src, marks[s..]) == run + [LineComment(src, marks[n])];
        GroupSnoc(Grouping([], None), run, LineComment(src, marks[n]));
        SameSettled(src, marks);
        LineExtendsRun(Settled(src, before), GroupFrom(Grouping([], None), run), LineComment(src, marks[n]));
      }
    }
  }

  lemma EmptyRun(settled: seq<TextUnit>)
    ensures FromRun(settled, GroupFrom(Grouping([], None), [])) == Online(settled, None)
  {
    assert settled + [] == settled;
  }

  lemma SameSettled(src: string, marks: seq<Mark>)
    requires AllGenuine(src, marks) && marks != [] && !marks[|marks| - 1].block
    ensures Settled(src, marks) == Settled(src, marks[..|marks| - 1])
  {
    hide Batch, RunStart, BlockUnit, Genuine;
    RunOf(marks);
    var s := RunStart(marks);
    if s > 0 {
      assert marks[..|marks| - 1][..s - 1] == marks[..s - 1];
    }
  }

  /** Grouping line comments as they are met gives what grouping each run between block comments in a batch does. */
  lemma {:induction false} OnlineIsBatch(src: string, marks: seq<Mark>)
    requires AllGenuine(src, marks)
    ensures TakeAll(src, marks).units == Batch(src, marks)
    decreases |marks|, 1
  {
    OnlineFollowsRuns(src, marks);
  }

  lemma {:induction false} StrippedIsInside(s: string, c: char)
    requires c !in s
    ensures c !in TrimStart(s) && c !in TrimEnd(s)
    decreases |s|
  {
    if s != "" {
      assert s == [s[0]] + s[1..] && s == s[..|s| - 1] + [s[|s| - 1]];
      StrippedIsInside(s[1..], c);
      StrippedIsInside(s[..|s| - 1], c);
    }
  }

  /** Within a run, the k-th line of a unit is a line comment that opens on source line start + k. */
  lemma RunsKeepTheirLines(src: string, marks: seq<Mark>)
    requires forall i :: 0 <= i < |marks| ==> Genuine(src, marks[i]) && !marks[i].block
    ensures AllLocated(Group(LineComments(src, marks))) == Spoken(LineComments(src, marks))
    ensures Starts(Group(LineComments(src, marks))) == Openers(LineComments(src, marks))
  {
    hide UnitLines, Located, AllLocated, Group, Spoken, Openers, Starts;
    forall i | 0 <= i < |marks|
      ensures '\n' !in LineComment(src, marks[i]).text
    {
      var body := src[marks[i].start + 2..marks[i].end];
      StrippedIsInside(body, '\n');
      StrippedIsInside(TrimStart(body), '\n');
    }
    GroupingKeepsLines(LineComments(src, marks));
  }

  // ----- what a block comment says

  /** A line that begins, after blanks, with a star, and goes on with `t` after at most one space. */
  predicate Starred(line: string, blanks: string, space: bool, t: string) {
    && line == blanks + "*" + (if space then " " else "") + t
    && Text.Blank(blanks) && (!space ==> t == "" || t[0] != ' ')
  }

  lemma {:induction false} TrimmedParts(s: string) returns (blanks: string)
    ensures s == blanks + TrimStart(s) && Text.Blank(blanks)
    decreases |s|
  {
    hide IsSpace;
    if s != "" && IsSpace(s[0]) {
      blanks := TrimmedParts(s[1..]);
      assert s == [s[0]] + s[1..];
      blanks := [s[0]] + blanks;
    } else {
      blanks := "";
    }
  }

  /** A conventional star is dropped with the blanks before it and one space after it; any other line is kept whole. */
  lemma StarsAreDropped(line: string)
    ensures forall blanks, space, t :: Starred(line, blanks, space, t) ==> WithoutStar(line) == t
    ensures (forall blanks, space, t :: !Starred(line, blanks, space, t)) ==> WithoutStar(line) == line
  {
    forall blanks, space, t | Starred(line, blanks, space, t)
      ensures WithoutStar(line) == t
    {
      var rest := "*" + (if space then " " else "") + t;
      assert line == blanks + rest;
      TrimStartLaw(blanks, rest);
      assert rest[1..] == (if space then " " else "") + t;
      assert space ==> rest[2..] == t;
    }
    if WithoutStar(line) != line {
      var blanks := TrimmedParts(line);
      var rest := TrimStart(line);
      var space := |rest| > 1 && rest[1] == ' ';
      var t := if space then rest[2..] else rest[1..];
      assert rest == "*" + (if space then " " else "") + t;
      assert Starred(line, blanks, space, t);
    }
  }

  /** Where the lines of a stretch of the source stand. */
  function Bounds(src: string, from: nat, end: nat): (r: seq<(nat, nat)>)
    requires from <= end <= |src|
    ensures |r| >= 1
    decreases end
  {
    if from == end then [(from, from)]
    else
      var before := Bounds(src, from, end - 1);
      if src[end - 1] == '\n' then before + [(end, end)]
      else before[|before| - 1 := (before[|before| - 1].0, end)]
  }

  /** From the start of a line of the stretch, or of the stretch, to its end, on that line of the source. */
  predicate IsLine(src: string, from: nat, end: nat, a: nat, b: nat, line: nat) {
    && from <= a <= b <= end <= |src| && LineOf(src, a) == line
    && (a == from || src[a - 1] == '\n') && (b == end || src[b] == '\n') && '\n' !in src[a..b]
  }

  /** The lines found stand where the bounds say, and the last reaches the end of the stretch. */
  ghost predicate Standing(src: string, from: nat, end: nat, bounds: seq<(nat, nat)>, lines: seq<string>)
    requires from <= end <= |src|
  {
    && |lines| == |bounds| == 1 + Newlines(src, from, end) && bounds[|bounds| - 1].1 == end
    && forall k :: 0 <= k < |bounds| ==>
         && IsLine(src, from, end, bounds[k].0, bounds[k].1, LineOf(src, from) + k)
         && lines[k] == src[bounds[k].0..bounds[k].1]
  }

  lemma LineEndsThere(src: string, from: nat, end: nat, bounds: seq<(nat, nat)>, lines: seq<string>)
    requires from < end <= |src| && src[end - 1] == '\n' && Standing(src, from, end - 1, bounds, lines)
    ensures Standing(src, from, end, bounds + [(end, end)], lines + [""])
  {
    LineMoves(src, from, end);
    assert src[end..end] == "";
  }

  lemma LineGoesOn(src: string, from: nat, end: nat, bounds: seq<(nat, nat)>, lines: seq<string>)
    requires from < end <= |src| && src[end - 1] != '\n' && Standing(src, from, end - 1, bounds, lines)
    ensures var n := |bounds| - 1;
            Standing(src, from, end, bounds[n := (bounds[n].0, end)], lines[n := lines[n] + [src[end - 1]]])
  {
    var a := bounds[|bounds| - 1].0;
    assert src[a..end] == src[a..end - 1] + [src[end - 1]];
    forall k | 0 <= k < |bounds| - 1
      ensures bounds[k].1 < end - 1
    {
      if bounds[k].1 == end - 1 {
        LineMoves(src, bounds[k].0, end - 1);
        NoNewlines(src, bounds[k].0, end - 1);
        LineMoves(src, from, end - 1);
      }
    }
  }

  lemma {:induction false} LinesStand(src: string, from: nat, end: nat)
    requires from <= end <= |src|
    ensures Standing(src, from, end, Bounds(src, from, end), UnitLines(src[from..end]))
    decreases end
  {
    hide Standing;
    if from < end {
      LinesStand(src, from, end - 1);
      var text := src[from..end];
      assert text[..|text| - 1] == src[from..end - 1] && text[|text| - 1] == src[end - 1];
      var bounds, lines := Bounds(src, from, end - 1), UnitLines(src[from..end - 1]);
      if src[end - 1] == '\n' {
        LineEndsThere(src, from, end, bounds, lines);
      } else {
        assert |bounds| == |lines| by { StandingIsEven(src, from, end - 1, bounds, lines); }
        LineGoesOn(src, from, end, bounds, lines);
      }
    } else {
      OneLineStands(src, from);
    }
  }

  lemma StandingIsEven(src: string, from: nat, end: nat, bounds: seq<(nat, nat)>, lines: seq<string>)
    requires from <= end <= |src| && Standing(src, from, end, bounds, lines)
    ensures |bounds| == |lines|
  {
  }

  lemma OneLineStands(src: string, from: nat)
    requires from <= |src|
    ensures Standing(src, from, from, [(from, from)], UnitLines(src[from..from]))
  {
    assert src[from..from] == "";
  }

  /** The lines of a block's body, as the source has them. */
  function BodyLines(src: string, m: Mark): seq<string>
    requires Genuine(src, m) && m.block
  {
    SplitLines(src[m.start + 2..BlockClose(src, m.start + 2)])
  }

  /** What a block says: its lines without their stars, each at its own line of the source. */
  function BlockSaid(src: string, m: Mark): seq<(nat, string)>
    requires Genuine(src, m) && m.block
  {
    var lines := BodyLines(src, m);
    if lines == [] then [(LineOf(src, m.start), "")]
    else seq(|lines|, k requires 0 <= k < |lines| => (LineOf(src, m.start) + k, WithoutStar(lines[k])))
  }

  /** A block's body begins on the line the block does. */
  lemma BodyLine(src: string, m: Mark)
    requires Genuine(src, m) && m.block
    ensures LineOf(src, m.start + 2) == LineOf(src, m.start)
  {
    LineMoves(src, m.start, m.start + 2);
    NoNewlines(src, m.start, m.start + 2);
  }

  lemma BodyLinesStand(src: string, m: Mark)
    requires Genuine(src, m) && m.block
    ensures var from, close, lines := m.start + 2, BlockClose(src, m.start + 2), BodyLines(src, m);
            forall k :: 0 <= k < |lines| ==>
              exists a: nat, b: nat :: IsLine(src, from, close, a, b, LineOf(src, m.start) + k) && lines[k] == src[a..b]
  {
    hide LineOf, Newlines, UnitLines, BlockClose, Bounds;
    var from, close := m.start + 2, BlockClose(src, m.start + 2);
    LinesStand(src, from, close);
    BodyLine(src, m);
    var bounds := Bounds(src, from, close);
    forall k | 0 <= k < |BodyLines(src, m)|
      ensures exists a: nat, b: nat :: IsLine(src, from, close, a, b, LineOf(src, m.start) + k) && BodyLines(src, m)[k] == src[a..b]
    {
      assert IsLine(src, from, close, bounds[k].0, bounds[k].1, LineOf(src, m.start) + k);
    }
  }

  /** A unit's lines are those it was joined from. */
  lemma BlockIsLocated(src: string, m: Mark)
    requires Genuine(src, m) && m.block
    ensures Located(BlockUnit(src, m)) == BlockSaid(src, m)
  {
    hide UnitLines, LineOf, BlockClose, WithoutStar;
    var lines := BodyLines(src, m);
    BodyLinesStand(src, m);
    if lines != [] {
      forall k | 0 <= k < |lines|
        ensures '\n' !in WithoutStars(lines)[k]
      {
        StarlessIsInside(lines[k]);
      }
      SplitUndoesJoin(WithoutStars(lines));
    } else {
      OneLine("");
    }
  }

  lemma StarlessIsInside(line: string)
    requires '\n' !in line
    ensures '\n' !in WithoutStar(line)
  {
    StrippedIsInside(line, '\n');
  }

  /** What comments say, in order: a line comment its text, if it has one, a block its lines. */
  function Said(src: string, marks: seq<Mark>): seq<(nat, string)>
    requires AllGenuine(src, marks)
  {
    if marks == [] then []
    else
      var last := marks[|marks| - 1];
      Said(src, marks[..|marks| - 1]) +
      if last.block then BlockSaid(src, last)
      else
        var c := LineComment(src, last);
        if c.text != "" then [(c.line, c.text)] else []
  }

  lemma {:induction false} RunIsSaid(src: string, marks: seq<Mark>, s: nat)
    requires AllGenuine(src, marks) && s <= |marks| && forall i :: s <= i < |marks| ==> !marks[i].block
    ensures Said(src, marks) == Said(src, marks[..s]) + Spoken(LineComments(src, marks[s..]))
    decreases |marks|
  {
    hide Genuine, LineComment, BlockSaid, Said, Spoken, LineComments;
    if s == |marks| {
      assert marks[..s] == marks && marks[s..] == [];
      NothingIsSpoken(src);
    } else {
      var n := |marks| - 1;
      RunIsSaid(src, marks[..n], s);
      assert marks[..n][..s] == marks[..s];
      SuffixGrows(marks, s);
      var run := LineComments(src, marks[..n][s..]);
      OneMoreLine(src, marks[..n][s..], marks[n]);
      SpokenAppends(run, LineComment(src, marks[n]));
      LineIsSaid(src, marks);
    }
  }

  lemma NothingIsSpoken(src: string)
    ensures Spoken(LineComments(src, [])) == []
  {
  }

  lemma OneMoreLine(src: string, run: seq<Mark>, m: Mark)
    requires (forall i :: 0 <= i < |run| ==> Genuine(src, run[i]) && !run[i].block) && Genuine(src, m) && !m.block
    ensures forall i :: 0 <= i < |run + [m]| ==> Genuine(src, (run + [m])[i]) && !(run + [m])[i].block
    ensures LineComments(src, run + [m]) == LineComments(src, run) + [LineComment(src, m)]
  {
    hide Genuine, LineComment;
  }

  lemma SpokenAppends(run: seq<Comment>, c: Comment)
    ensures Spoken(run + [c]) == Spoken(run) + if c.text != "" then [(c.line, c.text)] else []
  {
    assert (run + [c])[..|run|] == run;
  }

  lemma LineIsSaid(src: string, marks: seq<Mark>)
    requires AllGenuine(src, marks) && marks != [] && !marks[|marks| - 1].block
    ensures var c := LineComment(src, marks[|marks| - 1]);
            Said(src, marks) == Said(src, marks[..|marks| - 1]) + if c.text != "" then [(c.line, c.text)] else []
  {
    hide Genuine, LineComment, BlockSaid;
  }

  lemma {:induction false} LocatedTogether(a: seq<TextUnit>, b: seq<TextUnit>)
    ensures AllLocated(a + b) == AllLocated(a) + AllLocated(b)
    decreases |b|
  {
    hide Located, AllLocated;
    if b == [] {
      assert a + b == a;
      NothingIsLocated();
    } else {
      var n := |b| - 1;
      LocatedTogether(a, b[..n]);
      assert b == b[..n] + [b[n]] && a + b == (a + b[..n]) + [b[n]];
      AllLocatedAppends(a + b[..n], b[n]);
      AllLocatedAppends(b[..n], b[n]);
    }
  }

  /**
   * Every line of every unit lies where it should, blocks included: the units of the comments met are located at exactly
   * what the comments say.
   */
  lemma {:induction false} UnitsSayTheComments(src: string, marks: seq<Mark>)
    requires AllGenuine(src, marks)
    ensures AllLocated(Batch(src, marks)) == Said(src, marks)
    decreases |marks|
  {
    hide Located, AllLocated, Genuine, LineComment, BlockUnit, BlockSaid, Group, Spoken;
    var s := RunStart(marks);
    var run := marks[s..];
    forall i | 0 <= i < |run|
      ensures Genuine(src, run[i]) && !run[i].block
    {
    }
    RunsKeepTheirLines(src, run);
    LocatedTogether(Settled(src, marks), Group(LineComments(src, run)));
    RunIsSaid(src, marks, s);
    if s > 0 {
      var before, block := marks[..s - 1], marks[s - 1];
      UnitsSayTheComments(src, before);
      BlockIsLocated(src, block);
      LocatedTogether(Batch(src, before), [BlockUnit(src, block)]);
      OneIsLocated(BlockUnit(src, block));
      assert marks[..s][..s - 1] == before && marks[..s][s - 1] == block;
    } else {
      NothingIsLocated();
    }
  }

  lemma OneIsLocated(unit: TextUnit)
    ensures AllLocated([unit]) == Located(unit)
  {
    assert AllLocated([]) == [];
    assert [unit][..0] == [];
  }

  lemma NothingIsLocated()
    ensures AllLocated([]) == []
  {
  }
}
