/** Joining adjacent comment lines into units, and locating a rule's violation inside one. */
module CommentUnits {
  import opened Prelude
  import opened Text
  import opened ShellLexer

  /** A unit: the line it starts on, and its text. */
  datatype TextUnit = TextUnit(start: nat, text: string)

  /** Units under construction, and the line the last full-line comment joined, if the next may join it. */
  datatype Grouping = Grouping(units: seq<TextUnit>, previousFullLine: Option<nat>)

  function Take(g: Grouping, c: Comment): Grouping
    requires g.previousFullLine.Some? ==> g.units != []
  {
    var units :=
      if c.fullLine && c.text != "" && g.previousFullLine.Some? && g.previousFullLine.value + 1 == c.line then
        var last := g.units[|g.units| - 1];
        g.units[|g.units| - 1 := TextUnit(last.start, last.text + "\n" + c.text)]
      else if c.text != "" then g.units + [TextUnit(c.line, c.text)]
      else g.units;
    Grouping(units, if c.fullLine && c.text != "" then Some(c.line) else None)
  }

  function GroupFrom(g: Grouping, comments: seq<Comment>): (r: Grouping)
    requires g.previousFullLine.Some? ==> g.units != []
    ensures r.previousFullLine.Some? ==> r.units != []
    decreases |comments|
  {
    if comments == [] then g else GroupFrom(Take(g, comments[0]), comments[1..])
  }

  function Group(comments: seq<Comment>): seq<TextUnit> {
    GroupFrom(Grouping([], None), comments).units
  }

  lemma GroupUnfolds(g: Grouping, comments: seq<Comment>, i: nat)
    requires i < |comments| && (g.previousFullLine.Some? ==> g.units != [])
    ensures GroupFrom(g, comments[i..]) == GroupFrom(Take(g, comments[i]), comments[i + 1..])
  {
    assert comments[i..][1..] == comments[i + 1..];
  }

  lemma GroupEnds(g: Grouping, comments: seq<Comment>)
    requires g.previousFullLine.Some? ==> g.units != []
    ensures GroupFrom(g, comments[|comments|..]) == g
  {
  }

  method GroupCommentLines(comments: seq<Comment>) returns (units: seq<TextUnit>)
    ensures units == Group(comments)
  {
    hide GroupFrom;
    assert GroupFrom(Grouping([], None), comments[0..]) == GroupFrom(Grouping([], None), comments) by {
      assert comments[0..] == comments;
    }
    units := [];
    var previousFullLine: Option<nat> := None;
    var previousGroup: Option<nat> := None;
    for i := 0 to |comments|
      invariant previousFullLine.Some? <==> previousGroup.Some?
      invariant previousGroup.Some? ==> previousGroup.value + 1 == |units|
      invariant GroupFrom(Grouping(units, previousFullLine), comments[i..]) == GroupFrom(Grouping([], None), comments)
    {
      var c := comments[i];
      GroupUnfolds(Grouping(units, previousFullLine), comments, i);
      if c.fullLine && c.text != "" && previousFullLine.Some? && previousFullLine.value + 1 == c.line {
        var group := previousGroup.value;
        units := units[group := TextUnit(units[group].start, units[group].text + "\n" + c.text)];
      } else if c.text != "" {
        units := units + [TextUnit(c.line, c.text)];
        previousGroup := Some(|units| - 1);
      }
      if c.fullLine && c.text != "" {
        previousFullLine := Some(c.line);
      } else {
        previousFullLine := None;
        previousGroup := None;
      }
    }
    GroupEnds(Grouping(units, previousFullLine), comments);
  }

  // ----- what grouping keeps

  /** The lines of a unit's text. */
  function UnitLines(text: string): (lines: seq<string>)
    ensures |lines| >= 1
  {
    if text == "" then [""]
    else
      var before := UnitLines(text[..|text| - 1]);
      var c := text[|text| - 1];
      if c == '\n' then before + [""] else before[|before| - 1 := before[|before| - 1] + [c]]
  }

  lemma {:induction false} AppendPlain(a: string, b: string)
    requires '\n' !in b
    ensures var before := UnitLines(a); UnitLines(a + b) == before[|before| - 1 := before[|before| - 1] + b]
  {
    if b == "" {
      assert a + b == a;
      assert UnitLines(a)[|UnitLines(a)| - 1] + b == UnitLines(a)[|UnitLines(a)| - 1];
    } else {
      var front := b[..|b| - 1];
      AppendPlain(a, front);
      assert (a + b)[..|a + b| - 1] == a + front;
      assert front + [b[|b| - 1]] == b;
      var x := UnitLines(a)[|UnitLines(a)| - 1];
      assert (x + front) + [b[|b| - 1]] == x + b;
    }
  }

  /** Joining a line to a text adds that one line. */
  lemma AppendLine(a: string, b: string)
    requires '\n' !in b
    ensures UnitLines(a + "\n" + b) == UnitLines(a) + [b]
  {
    var c := a + "\n";
    assert c[..|c| - 1] == a;
    AppendPlain(c, b);
    assert "" + b == b;
  }

  lemma OneLine(b: string)
    requires '\n' !in b
    ensures UnitLines(b) == [b]
  {
    AppendPlain("", b);
    assert "" + b == b;
  }

  /** The k-th line of a unit lies on source line `start + k`. */
  function Located(unit: TextUnit): seq<(nat, string)> {
    var lines := UnitLines(unit.text);
    seq(|lines|, k requires 0 <= k < |lines| => (unit.start + k, lines[k]))
  }

  function AllLocated(units: seq<TextUnit>): seq<(nat, string)> {
    if units == [] then [] else AllLocated(units[..|units| - 1]) + Located(units[|units| - 1])
  }

  /** The comments that say something, each on its own line. */
  function Spoken(comments: seq<Comment>): seq<(nat, string)> {
    if comments == [] then []
    else
      var last := comments[|comments| - 1];
      Spoken(comments[..|comments| - 1]) + if last.text != "" then [(last.line, last.text)] else []
  }

  predicate Joins(a: Comment, b: Comment) {
    a.fullLine && a.text != "" && b.fullLine && b.text != "" && a.line + 1 == b.line
  }

  /** The lines of the comments that say something and do not join the one before. */
  function Openers(comments: seq<Comment>): seq<nat> {
    if comments == [] then []
    else
      var n := |comments| - 1;
      Openers(comments[..n]) +
      if comments[n].text == "" || (n > 0 && Joins(comments[n - 1], comments[n])) then [] else [comments[n].line]
  }

  function Starts(units: seq<TextUnit>): seq<nat> {
    seq(|units|, i requires 0 <= i < |units| => units[i].start)
  }

  lemma {:induction false} GroupSnoc(g: Grouping, comments: seq<Comment>, c: Comment)
    requires g.previousFullLine.Some? ==> g.units != []
    ensures GroupFrom(g, comments + [c]) == Take(GroupFrom(g, comments), c)
    decreases |comments|
  {
    if comments == [] {
      assert ([] + [c])[0] == c && ([] + [c])[1..] == [];
    } else {
      assert (comments + [c])[0] == comments[0] && (comments + [c])[1..] == comments[1..] + [c];
      GroupSnoc(Take(g, comments[0]), comments[1..], c);
    }
  }

  /** The last unit ends on the line a full-line comment last joined. */
  ghost predicate EndsAt(g: Grouping) {
    g.previousFullLine.Some? ==>
      && g.units != []
      && var last := g.units[|g.units| - 1];
         last.start + |UnitLines(last.text)| - 1 == g.previousFullLine.value
  }

  lemma LocatedGrows(start: nat, a: string, b: string)
    requires '\n' !in b
    ensures Located(TextUnit(start, a + "\n" + b)) == Located(TextUnit(start, a)) + [(start + |UnitLines(a)|, b)]
    ensures |UnitLines(a + "\n" + b)| == |UnitLines(a)| + 1
    ensures Located(TextUnit(start, b)) == [(start, b)] && |UnitLines(b)| == 1
  {
    hide UnitLines;
    AppendLine(a, b);
    OneLine(b);
  }

  lemma AllLocatedAppends(units: seq<TextUnit>, unit: TextUnit)
    ensures AllLocated(units + [unit]) == AllLocated(units) + Located(unit)
  {
    assert (units + [unit])[..|units|] == units;
  }

  /** One more comment adds its line at its place, to the last unit exactly when it joins it. */
  lemma TakeLocates(g: Grouping, c: Comment)
    requires '\n' !in c.text && EndsAt(g)
    ensures var r := Take(g, c);
            EndsAt(r) && AllLocated(r.units) == AllLocated(g.units) + if c.text != "" then [(c.line, c.text)] else []
  {
    hide UnitLines, Located, AllLocated;
    if c.text == "" {
    } else if c.fullLine && g.previousFullLine.Some? && g.previousFullLine.value + 1 == c.line {
      var n := |g.units| - 1;
      var last, front := g.units[n], g.units[..n];
      LocatedGrows(last.start, last.text, c.text);
      assert g.units == front + [last];
      AllLocatedAppends(front, last);
      var longer := TextUnit(last.start, last.text + "\n" + c.text);
      assert Take(g, c).units == front + [longer];
      AllLocatedAppends(front, longer);
    } else {
      LocatedGrows(c.line, "", c.text);
      AllLocatedAppends(g.units, TextUnit(c.line, c.text));
    }
  }

  lemma {:induction false} GroupLocates(comments: seq<Comment>)
    requires forall i :: 0 <= i < |comments| ==> '\n' !in comments[i].text
    ensures EndsAt(GroupFrom(Grouping([], None), comments))
    ensures AllLocated(Group(comments)) == Spoken(comments)
  {
    hide UnitLines, Take;
    if comments != [] {
      var n := |comments| - 1;
      assert comments == comments[..n] + [comments[n]];
      GroupLocates(comments[..n]);
      GroupSnoc(Grouping([], None), comments[..n], comments[n]);
      TakeLocates(GroupFrom(Grouping([], None), comments[..n]), comments[n]);
    }
  }

  lemma {:induction false} GroupStarts(comments: seq<Comment>)
    ensures var g := GroupFrom(Grouping([], None), comments);
            && Starts(g.units) == Openers(comments)
            && g.previousFullLine ==
               if comments != [] && comments[|comments| - 1].fullLine && comments[|comments| - 1].text != ""
               then Some(comments[|comments| - 1].line) else None
  {
    if comments != [] {
      var n := |comments| - 1;
      assert comments == comments[..n] + [comments[n]];
      GroupStarts(comments[..n]);
      GroupSnoc(Grouping([], None), comments[..n], comments[n]);
      TakeStarts(GroupFrom(Grouping([], None), comments[..n]), comments[n]);
      assert n > 0 ==> comments[..n][n - 1] == comments[n - 1];
    }
  }

  lemma TakeStarts(g: Grouping, c: Comment)
    requires g.previousFullLine.Some? ==> g.units != []
    ensures var joins := c.fullLine && c.text != "" && g.previousFullLine.Some? && g.previousFullLine.value + 1 == c.line;
            Starts(Take(g, c).units) == Starts(g.units) + if c.text == "" || joins then [] else [c.line]
  {
  }

  /**
   * Grouping keeps every comment that says something, in order, the k-th line of a unit lying on source line start + k;
   * and a unit starts at exactly those comments that do not continue a full-line comment on the line before.
   */
  lemma GroupingKeepsLines(comments: seq<Comment>)
    requires forall i :: 0 <= i < |comments| ==> '\n' !in comments[i].text
    ensures AllLocated(Group(comments)) == Spoken(comments)
    ensures Starts(Group(comments)) == Openers(comments)
  {
    GroupLocates(comments);
    GroupStarts(comments);
  }

  // ----- locating a violation

  /** `text.splitlines()`, for newline-separated lines. */
  function SplitLines(text: string): seq<string> {
    var lines := UnitLines(text);
    if lines[|lines| - 1] == "" then lines[..|lines| - 1] else lines
  }

  function JoinLines(lines: seq<string>): string {
    if lines == [] then ""
    else if |lines| == 1 then lines[0]
    else JoinLines(lines[..|lines| - 1]) + "\n" + lines[|lines| - 1]
  }

  /** Splitting undoes joining, but for a last line that is empty and so leaves nothing after its newline. */
  lemma {:induction false} SplitUndoesJoin(lines: seq<string>)
    requires lines != [] && forall i :: 0 <= i < |lines| ==> '\n' !in lines[i]
    ensures UnitLines(JoinLines(lines)) == lines
    ensures SplitLines(JoinLines(lines) + "\n") == lines
    ensures SplitLines(JoinLines(lines)) == if lines[|lines| - 1] == "" then lines[..|lines| - 1] else lines
    decreases |lines|
  {
    hide UnitLines;
    var n := |lines| - 1;
    if n == 0 {
      OneLine(lines[0]);
    } else {
      SplitUndoesJoin(lines[..n]);
      AppendLine(JoinLines(lines[..n]), lines[n]);
      assert lines[..n] + [lines[n]] == lines;
    }
    AppendLine(JoinLines(lines), "");
    assert JoinLines(lines) + "\n" + "" == JoinLines(lines) + "\n";
    assert (lines + [""])[..|lines|] == lines;
  }

  function CollapseSpaces(s: string): string {
    if s == "" then ""
    else if !IsSpace(s[0]) then [s[0]] + CollapseSpaces(s[1..])
    else if |s| > 1 && IsSpace(s[1]) then CollapseSpaces(s[1..])
    else " " + CollapseSpaces(s[1..])
  }

  /** A run of blanks becomes one space; everything else stays. */
  lemma {:induction false} RunsCollapse(word: string, blanks: string, rest: string)
    requires (forall c :: c in word ==> !IsSpace(c)) && Blank(blanks) && (rest == "" || !IsSpace(rest[0]))
    ensures CollapseSpaces(word + blanks + rest) == word + (if blanks == "" then "" else " ") + CollapseSpaces(rest)
    decreases |word| + |blanks|
  {
    hide IsSpace;
    var s := word + blanks + rest;
    if word != "" {
      assert word[0] in word && s[1..] == word[1..] + blanks + rest;
      RunsCollapse(word[1..], blanks, rest);
      assert word == [word[0]] + word[1..];
    } else if |blanks| > 1 {
      assert s[0] == blanks[0] && s[1] == blanks[1] && s[1..] == "" + blanks[1..] + rest;
      RunsCollapse("", blanks[1..], rest);
    } else if |blanks| == 1 {
      assert s[0] == blanks[0] && s[1..] == rest;
    } else {
      assert s == rest;
    }
  }

  function Clip(s: string): string {
    if |s| <= 120 then s else s[..120]
  }

  datatype Location = Location(line: nat, excerpt: string)

  function Window(lines: seq<string>, offset: nat, width: nat): string
    requires offset + width <= |lines|
  {
    JoinLines(lines[offset..offset + width])
  }

  predicate HitAt(lines: seq<string>, hits: string -> bool, offset: nat, width: nat) {
    width >= 1 && offset + width <= |lines| && hits(Window(lines, offset, width))
  }

  /** No narrower window hits, and none as wide begins earlier. */
  ghost predicate LeastHit(lines: seq<string>, hits: string -> bool, offset: nat, width: nat) {
    && HitAt(lines, hits, offset, width)
    && (forall o: nat, w: nat :: HitAt(lines, hits, o, w) ==> width < w || (width == w && offset <= o))
  }

  function Excerpt(lines: seq<string>, offset: nat, width: nat): string
    requires offset + width <= |lines|
  {
    Clip(Strip(if width == 1 then Window(lines, offset, 1) else CollapseSpaces(Window(lines, offset, width))))
  }

  lemma OneLineWindow(lines: seq<string>, offset: nat)
    requires offset < |lines|
    ensures Window(lines, offset, 1) == lines[offset]
  {
    assert lines[offset..offset + 1] == [lines[offset]];
  }

  /** The narrowest window the rule hits, the earliest of its width; the whole unit's start when it hits none. */
  method ViolationLocation(lineno: nat, text: string, hits: string -> bool)
    returns (location: Location)
    ensures var lines := SplitLines(text);
            forall o: nat, w: nat :: LeastHit(lines, hits, o, w) ==>
              location == Location(lineno + o, Excerpt(lines, o, w))
    ensures var lines := SplitLines(text);
            || (exists o: nat, w: nat :: LeastHit(lines, hits, o, w))
            || (&& (forall o: nat, w: nat :: !HitAt(lines, hits, o, w))
                && location == Location(lineno, Clip(Strip(CollapseSpaces(text)))))
  {
    hide UnitLines, JoinLines, CollapseSpaces, Strip;
    var lines := SplitLines(text);
    for offset := 0 to |lines|
      invariant forall o: nat :: o < offset ==> !HitAt(lines, hits, o, 1)
    {
      OneLineWindow(lines, offset);
      if hits(lines[offset]) {
        assert LeastHit(lines, hits, offset, 1);
        return Location(lineno + offset, Clip(Strip(lines[offset])));
      }
    }
    var width := 2;
    while width <= |lines|
      invariant width >= 2
      invariant forall o: nat, w: nat :: w < width ==> !HitAt(lines, hits, o, w)
    {
      for offset := 0 to |lines| - width + 1
        invariant forall o: nat :: o < offset ==> !HitAt(lines, hits, o, width)
      {
        var excerpt := JoinLines(lines[offset..offset + width]);
        if hits(excerpt) {
          assert LeastHit(lines, hits, offset, width);
          return Location(lineno + offset, Clip(Strip(CollapseSpaces(excerpt))));
        }
      }
      width := width + 1;
    }
    return Location(lineno, Clip(Strip(CollapseSpaces(text))));
  }

  lemma SplitIsEmptyOnlyForEmpty(text: string)
    ensures SplitLines(text) == [] <==> text == ""
  {
  }

  /**
   * A rule that hits the unit's rejoined lines is always located in a window of them, so that the fallback is never
   * reached, exactly when the unit's text is not empty.
   */
  lemma LocatedIffNotEmpty(text: string)
    ensures text != "" <==>
            forall hits: string -> bool :: hits(JoinLines(SplitLines(text))) ==>
              exists o: nat, w: nat :: HitAt(SplitLines(text), hits, o, w)
  {
    hide UnitLines, JoinLines;
    var lines := SplitLines(text);
    SplitIsEmptyOnlyForEmpty(text);
    if text != "" {
      forall hits: string -> bool | hits(JoinLines(lines))
        ensures exists o: nat, w: nat :: HitAt(lines, hits, o, w)
      {
        assert lines[0..|lines|] == lines;
        assert HitAt(lines, hits, 0, |lines|);
      }
    } else {
      var hits := (s: string) => true;
      assert hits(JoinLines(lines));
      assert forall o: nat, w: nat :: !HitAt(lines, hits, o, w);
    }
  }
}
