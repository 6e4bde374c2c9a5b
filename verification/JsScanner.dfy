/** The JavaScript comment lexer as an object whose mutually recursive methods update its position and its units. */
module JsScanners {
  import opened Prelude
  import opened Text
  import opened SourceLines
  import opened JsLexer
  import opened JsUnits
  import opened CommentUnits

  class JavascriptCommentLexer {
    const d: Dialect
    const source: string
    var index: nat
    var line: nat
    var units: seq<TextUnit>
    var pure: Option<(nat, nat)>
    ghost var trace: seq<Mark>  // the comments met so far

    /** The line is the true line. */
    ghost predicate Positioned()
      reads this`index, this`line
    {
      index <= |source| && line == LineOf(source, index)
    }

    /** The units are those of the comments met. */
    ghost predicate Grouped()
      reads this`units, this`pure, this`trace
    {
      AllGenuine(source, trace) && Online(units, pure) == TakeAll(source, trace)
    }

    ghost predicate Valid()
      reads this
    {
      Positioned() && Grouped()
    }

    /** The lexer has gone where `r` ends, meeting the comments of `r`. */
    twostate predicate Went(r: Lexed)
      reads this
    {
      index == r.end && trace == old(trace) + r.marks
    }

    constructor (d: Dialect, source: string)
      ensures Valid() && index == 0 && trace == [] && this.d == d && this.source == source
    {
      this.d, this.source := d, source;
      index, line, units, pure, trace := 0, 1, [], None, [];
    }

    method MoveTo(end: nat)
      requires Positioned() && index <= end <= |source|
      modifies this`index, this`line
      ensures Positioned() && index == end
    {
      LineMoves(source, index, end);
      line := line + Newlines(source, index, end);
      index := end;
    }

    method TakeLineComment()
      requires Valid() && Opens(source, index, '/')
      modifies this
      ensures Valid() && Went(Lexed(LineEnd(source, old(index) + 2), [LineMark(source, old(index))]))
    {
      hide TakeAll, LineOf, Strip;
      ghost var mark := LineMark(source, index);
      var startLine := line;
      var end := LineEnd(source, index + 2);
      var pureLine := Blank(source[LineStart(source, index)..index]);
      var text := Strip(source[index + 2..end]);
      ghost var before := Online(units, pure);
      if pureLine && text != "" && pure.Some? && pure.value.0 + 1 == |units| && pure.value.1 + 1 == startLine {
        var n := pure.value.0;
        units := units[n := TextUnit(units[n].start, units[n].text + "\n" + text)];
      } else if text != "" {
        units := units + [TextUnit(startLine, text)];
      }
      if pureLine && text != "" {
        pure := Some((|units| - 1, startLine));
      } else {
        pure := None;
      }
      assert Online(units, pure) == TakeMark(source, before, mark);
      Record(mark, before);
      MoveTo(end);
    }

    ghost method Record(mark: Mark, before: Online)
      requires AllGenuine(source, trace) && Genuine(source, mark) && before == TakeAll(source, trace)
      modifies this`trace
      ensures trace == old(trace) + [mark] && AllGenuine(source, trace)
      ensures TakeAll(source, trace) == TakeMark(source, before, mark)
    {
      trace := trace + [mark];
      assert trace[..|trace| - 1] == old(trace);
    }

    method TakeBlockComment()
      requires Valid() && Opens(source, index, '*')
      modifies this
      ensures Valid() && Went(Lexed(BlockEnd(source, old(index) + 2), [BlockMark(source, old(index))]))
    {
      hide TakeAll, LineOf, BlockText, BlockClose;
      ghost var mark := BlockMark(source, index);
      ghost var before := Online(units, pure);
      pure := None;
      var startLine := line;
      var close := BlockClose(source, index + 2);
      units := units + [TextUnit(startLine, BlockText(source[index + 2..close]))];
      Record(mark, before);
      MoveTo(if close < |source| then close + 2 else |source|);
    }

    method QuotedString(quote: char)
      requires Positioned() && index < |source|
      modifies this`index, this`line
      ensures Positioned() && index == StringEnd(source, old(index) + 1, quote)
    {
      hide LineOf, Newlines, FlagsEnd;
      MoveTo(index + 1);
      ghost var start := index;
      while index < |source|
        invariant Positioned() && start <= index
        invariant StringEnd(source, start, quote) == StringEnd(source, index, quote)
        decreases |source| - index
      {
        var c := source[index];
        if c == '\\' {
          MoveTo(Min(index + 2, |source|));
        } else if c == quote {
          MoveTo(index + 1);
          return;
        } else if c == '\n' {
          MoveTo(index + 1);
          return;
        } else {
          MoveTo(index + 1);
        }
      }
    }

    method RegexLiteral()
      requires Positioned() && index < |source|
      modifies this`index, this`line
      ensures Positioned() && index == RegexEnd(d, source, old(index) + 1, false)
    {
      hide LineOf, Newlines;
      var inClass := false;
      MoveTo(index + 1);
      ghost var start := index;
      while index < |source|
        invariant Positioned() && start <= index
        invariant RegexEnd(d, source, start, false) == RegexEnd(d, source, index, inClass)
        decreases |source| - index
      {
        var c := source[index];
        if c == '\\' {
          MoveTo(Min(index + 2, |source|));
        } else if c == '\n' {
          return;
        } else if c == '[' {
          inClass := true;
          MoveTo(index + 1);
        } else if c == ']' {
          inClass := false;
          MoveTo(index + 1);
        } else if c == '/' && !inClass {
          MoveTo(index + 1);
          ghost var flags := index;
          while index < |source| && d.alpha(source[index])
            invariant Positioned() && flags <= index
            invariant FlagsEnd(d, source, flags) == FlagsEnd(d, source, index)
            decreases |source| - index
          {
            MoveTo(index + 1);
          }
          return;
        } else {
          MoveTo(index + 1);
        }
      }
    }

    method TemplateLiteral()
      requires Valid() && index < |source|
      modifies this
      ensures Valid() && Went(Template(d, source, old(index) + 1))
      decreases |source| - index, 2
    {
      hide Tag, Element, Children, CodeLexeme, Code, LineOf, Newlines, TakeAll, MarksIn, Genuine;
      MoveTo(index + 1);
      ghost var goal := Template(d, source, index);
      ghost var met := [];
      while index < |source|
        invariant Valid() && old(index) < index && trace == old(trace) + met
        invariant goal == Then(Lexed(index, met), Template(d, source, index))
        decreases |source| - index
      {
        if source[index] == '\\' {
          MoveTo(Min(index + 2, |source|));
        } else if source[index] == '`' {
          MoveTo(index + 1);
          return;
        } else if source[index] == '$' && At(source, index + 1, '{') {
          ghost var code := Code(d, source, index + 2, 0, true, true);
          ThenAssoc(Lexed(index, met), code, Template(d, source, code.end));
          MoveTo(index + 2);
          CodeUntil(true);
          met := met + code.marks;
        } else {
          MoveTo(index + 1);
        }
      }
    }

    method JsxTag() returns (closed: bool)
      requires Valid() && index < |source|
      modifies this
      ensures Valid()
      ensures Went(Tag(d, source, old(index) + 1).0) && closed == Tag(d, source, old(index) + 1).1
      decreases |source| - index, 0
    {
      hide Template, Element, Children, CodeLexeme, Code, LineOf, Newlines, TakeAll, MarksIn, Genuine;
      MoveTo(index + 1);
      ghost var goal := Tag(d, source, index);
      assert goal.0 == Then(Lexed(index, []), goal.0);
      ghost var met := [];
      while index < |source|
        invariant Valid() && old(index) < index && trace == old(trace) + met
        invariant goal == (Then(Lexed(index, met), Tag(d, source, index).0), Tag(d, source, index).1)
        decreases |source| - index
      {
        if source[index] == '/' && At(source, index + 1, '>') {
          MoveTo(index + 2);
          return true;
        }
        var c := source[index];
        if c == '"' || c == '\'' {
          QuotedString(c);
        } else if c == '{' {
          ghost var code := Code(d, source, index + 1, 0, true, true);
          ThenAssoc(Lexed(index, met), code, Tag(d, source, code.end).0);
          MoveTo(index + 1);
          CodeUntil(true);
          met := met + code.marks;
        } else if c == '>' {
          MoveTo(index + 1);
          return false;
        } else {
          MoveTo(index + 1);
        }
      }
      return false;
    }

    method JsxElement()
      requires Valid() && index < |source|
      modifies this
      ensures Valid() && Went(Element(d, source, old(index)))
      decreases |source| - index, 1
    {
      hide Template, Tag, CodeLexeme, Code, LineOf, Newlines, TakeAll, MarksIn, Genuine;
      ghost var tag := Tag(d, source, index + 1).0;
      var closed := JsxTag();
      if closed {
        return;
      }
      ghost var goal := Then(tag, Children(d, source, index));
      ghost var met := tag.marks;
      while index < |source|
        invariant Valid() && old(index) < index && trace == old(trace) + met
        invariant goal == Then(Lexed(index, met), Children(d, source, index))
        decreases |source| - index
      {
        if source[index] == '<' && At(source, index + 1, '/') {
          MoveTo(CloseTagEnd(source, index + 2));
          return;
        }
        if source[index] == '<' && LooksLikeJsx(d, source, index) {
          ghost var child := Element(d, source, index);
          ThenAssoc(Lexed(index, met), child, Children(d, source, child.end));
          JsxElement();
          met := met + child.marks;
        } else if source[index] == '{' {
          ghost var code := Code(d, source, index + 1, 0, true, true);
          ThenAssoc(Lexed(index, met), code, Children(d, source, code.end));
          MoveTo(index + 1);
          CodeUntil(true);
          met := met + code.marks;
        } else {
          MoveTo(index + 1);
        }
      }
    }

    method ConsumeWord()
      requires Positioned() && index < |source|
      modifies this`index, this`line
      ensures Positioned() && index == NameEnd(d, source, old(index) + 1)
    {
      hide LineOf, Newlines, FlagsEnd;
      MoveTo(index + 1);
      ghost var start := index;
      while index < |source| && (d.alnum(source[index]) || source[index] == '_' || source[index] == '$')
        invariant Positioned() && start <= index
        invariant NameEnd(d, source, start) == NameEnd(d, source, index)
        decreases |source| - index
      {
        MoveTo(index + 1);
      }
    }

    method ConsumeNumber()
      requires Positioned() && index < |source|
      modifies this`index, this`line
      ensures Positioned() && index == NumberEnd(d, source, old(index) + 1)
    {
      hide LineOf, Newlines, FlagsEnd;
      MoveTo(index + 1);
      ghost var start := index;
      while index < |source| && (d.alnum(source[index]) || source[index] == '_' || source[index] == '.')
        invariant Positioned() && start <= index
        invariant NumberEnd(d, source, start) == NumberEnd(d, source, index)
        decreases |source| - index
      {
        MoveTo(index + 1);
      }
    }

    /** One turn of the loop over code, on anything but a brace that ends it. */
    method Lex(depth: nat, allowed: bool) returns (depth': nat, allowed': bool)
      requires Valid() && index < |source|
      modifies this
      ensures Valid()
      ensures var x := CodeLexeme(d, source, old(index), depth, allowed);
              Went(x.lexed) && depth' == x.depth && allowed' == x.regexAllowed
      decreases |source| - index, 3
    {
      hide Template, Element, Code, TakeAll, LineOf, Newlines, StringEnd, LineEnd, BlockEnd;
      var c := source[index];
      depth', allowed' := depth, allowed;
      if IsSpace(c) {
        MoveTo(index + 1);
      } else if Opens(source, index, '/') {
        TakeLineComment();
      } else if Opens(source, index, '*') {
        TakeBlockComment();
      } else if c == '"' || c == '\'' {
        QuotedString(c);
        allowed' := false;
      } else if c == '`' {
        TemplateLiteral();
        allowed' := false;
      } else {
        depth', allowed' := LexOther(depth, allowed);
      }
    }

    method LexOther(depth: nat, allowed: bool) returns (depth': nat, allowed': bool)
      requires Valid() && index < |source| && !IsSpace(source[index])
      requires !Opens(source, index, '/') && !Opens(source, index, '*')
      requires source[index] != '"' && source[index] != '\'' && source[index] != '`'
      modifies this
      ensures Valid()
      ensures var x := CodeLexeme(d, source, old(index), depth, allowed);
              Went(x.lexed) && depth' == x.depth && allowed' == x.regexAllowed
      decreases |source| - index, 2
    {
      hide Template, Element, Code, TakeAll, LineOf, Newlines, NameEnd, NumberEnd, RegexEnd;
      var c := source[index];
      depth', allowed' := depth, allowed;
      if c == '{' {
        depth', allowed' := depth + 1, true;
        MoveTo(index + 1);
      } else if c == '}' {
        depth', allowed' := if depth == 0 then 0 else depth - 1, false;
        MoveTo(index + 1);
      } else if d.alpha(c) || c == '_' || c == '$' {
        var start := index;
        ConsumeWord();
        allowed' := source[start..index] in REGEX_PREFIX_KEYWORDS;
      } else if d.digit(c) {
        ConsumeNumber();
        allowed' := false;
      } else if (c == '+' && At(source, index + 1, '+')) || (c == '-' && At(source, index + 1, '-')) {
        MoveTo(index + 2);
      } else if d.jsx && allowed && c == '<' && LooksLikeJsx(d, source, index) && !(d.typescript && d.arrow(index)) {
        JsxElement();
        allowed' := false;
      } else if c == '/' && allowed {
        RegexLiteral();
        allowed' := false;
      } else {
        if c == ')' || c == ']' {
          allowed' := false;
        } else if c == '.' {
          allowed' := false;
        } else if c != '!' {
          allowed' := true;
        }
        MoveTo(index + 1);
      }
    }

    method CodeUntil(stop: bool)
      requires Valid()
      modifies this
      ensures Valid() && Went(Code(d, source, old(index), 0, true, stop))
      decreases |source| - index, 4
    {
      hide Template, Tag, Element, Children, CodeLexeme, LineOf, Newlines, TakeAll, MarksIn, Genuine;
      ghost var goal := Code(d, source, index, 0, true, stop);
      ghost var met := [];
      var depth, allowed := 0, true;
      while index < |source|
        invariant Valid() && old(index) <= index && trace == old(trace) + met
        invariant goal == Then(Lexed(index, met), Code(d, source, index, depth, allowed, stop))
        decreases |source| - index
      {
        if source[index] == '}' && stop && depth == 0 {
          MoveTo(index + 1);
          return;
        }
        ghost var x := CodeLexeme(d, source, index, depth, allowed);
        ThenAssoc(Lexed(index, met), x.lexed, Code(d, source, x.lexed.end, x.depth, x.regexAllowed, stop));
        depth, allowed := Lex(depth, allowed);
        met := met + x.lexed.marks;
      }
    }

    /**
     * The whole scan: it consumes the source, and reports each run of line comments between block comments grouped as a
     * batch would group it, every comment being a genuine one on its true line; the lines of the units, blocks included,
     * are exactly what the comments of the code say, each at its own line.
     */
    method ScanUnits() returns (result: seq<TextUnit>)
      requires Valid() && index == 0 && trace == []
      modifies this
      ensures Valid() && index == |source| && Went(Code(d, source, 0, 0, true, false))
      ensures AllGenuine(source, trace) && result == units == Batch(source, trace)
      ensures trace == Code(d, source, 0, 0, true, false).marks && AllLocated(result) == Said(source, trace)
    {
      CodeUntil(false);
      OnlineIsBatch(source, trace);
      UnitsSayTheComments(source, trace);
      result := units;
    }
  }

  lemma ThenAssoc(a: Lexed, b: Lexed, c: Lexed)
    ensures Then(a, Then(b, c)) == Then(Lexed(b.end, a.marks + b.marks), c)
  {
    assert a.marks + (b.marks + c.marks) == (a.marks + b.marks) + c.marks;
  }
}
