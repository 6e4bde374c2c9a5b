/** Blanking the comments of JavaScript source while every other character keeps its place. */
module Blanking {
  import opened Prelude
  import opened SourceLines
  import opened Spelling

  predicate IsQuote(c: char) {
    c == '\'' || c == '"' || c == '`'
  }

  predicate StartsLine(s: string) { |s| >= 2 && s[0] == '/' && s[1] == '/' }

  predicate StartsBlock(s: string) { |s| >= 2 && s[0] == '/' && s[1] == '*' }

  /** The length of the line comment `s` starts with, its newline left out. */
  function LineLength(s: string): (n: nat)
    ensures n <= |s|
    ensures forall k :: 0 <= k < n ==> s[k] != '\n'
    ensures n < |s| ==> s[n] == '\n'
  {
    if s == "" || s[0] == '\n' then 0 else 1 + LineLength(s[1..])
  }

  /** A `*` with a `/` right after it, at `k`. */
  predicate ClosesAt(s: string, k: nat) {
    k + 1 < |s| && s[k] == '*' && s[k + 1] == '/'
  }

  /** How far into `s` the first `*` `/` ends, or the length of `s`. */
  function CloseLength(s: string): (n: nat)
    ensures n <= |s|
  {
    if s == "" then 0
    else if |s| >= 2 && s[0] == '*' && s[1] == '/' then 2
    else 1 + CloseLength(s[1..])
  }

  function Spaces(n: nat): (r: string)
    ensures |r| == n && forall k :: 0 <= k < n ==> r[k] == ' '
  {
    seq(n, _ => ' ')
  }

  /** A stretch blanked, its newlines kept. */
  function Blank(s: string): (r: string)
    ensures |r| == |s|
    ensures forall k :: 0 <= k < |s| ==> r[k] == if s[k] == '\n' then '\n' else ' '
  {
    seq(|s|, k requires 0 <= k < |s| => if s[k] == '\n' then '\n' else ' ')
  }

  /** One lexeme: what it leaves, how much of the source it is, and the quote it leads into. */
  datatype Piece = Piece(out: string, length: nat, quote: Option<char>)

  predicate OpensComment(s: string, quote: Option<char>) {
    quote == None && (StartsLine(s) || StartsBlock(s))
  }

  function FirstPiece(s: string, quote: Option<char>): (p: Piece)
    requires s != ""
    ensures 0 < p.length <= |s| && |p.out| == p.length
    ensures !OpensComment(s, quote) ==> p.out == s[..p.length]
  {
    if quote.Some? then
      if s[0] == '\\' && |s| > 1 then Piece(s[..2], 2, quote)
      else Piece(s[..1], 1, if s[0] == quote.value then None else quote)
    else if IsQuote(s[0]) then Piece(s[..1], 1, Some(s[0]))
    else if StartsLine(s) then
      var n := LineLength(s);
      if n == |s| then Piece(Spaces(n), n, None) else Piece(Spaces(n) + "\n", n + 1, None)
    else if StartsBlock(s) then
      var n := 2 + CloseLength(s[2..]);
      Piece(Blank(s[..n]), n, None)
    else Piece(s[..1], 1, None)
  }

  /** What is left of `s`, read inside `quote` or outside any. */
  function Strip(s: string, quote: Option<char>): (r: string)
    ensures |r| == |s|
    decreases |s|
  {
    if s == "" then ""
    else
      var p := FirstPiece(s, quote);
      p.out + Strip(s[p.length..], p.quote)
  }

  /** Consuming one lexeme of the source, `before` being what the lexemes before it left. */
  lemma OneMorePiece(source: string, index: nat, quote: Option<char>, before: string)
    requires index < |source|
    ensures var p := FirstPiece(source[index..], quote);
            before + Strip(source[index..], quote)
            == (before + p.out) + Strip(source[index + p.length..], p.quote)
  {
    var p := FirstPiece(source[index..], quote);
    assert source[index..][p.length..] == source[index + p.length..];
    assert before + (p.out + Strip(source[index + p.length..], p.quote))
        == (before + p.out) + Strip(source[index + p.length..], p.quote);
  }

  method StripJavascriptComments(source: string) returns (output: string)
    ensures output == Strip(source, None)
  {
    hide Strip, LineLength, CloseLength, Blank, Spaces;
    output := "";
    var index := 0;
    var quote: Option<char> := None;
    assert source[0..] == source;
    while index < |source|
      invariant index <= |source|
      invariant output + Strip(source[index..], quote) == Strip(source, None)
    {
      var c, rest := source[index], source[index..];
      OneMorePiece(source, index, quote, output);
      assert rest[..1] == [c];
      if quote.Some? {
        if c == '\\' && index + 1 < |source| {
          assert rest[..2] == [c, source[index + 1]];
          output := output + [c, source[index + 1]];
          index := index + 2;
          continue;
        }
        output := output + [c];
        if c == quote.value {
          quote := None;
        }
        index := index + 1;
        continue;
      }
      if IsQuote(c) {
        quote := Some(c);
        output := output + [c];
        index := index + 1;
        continue;
      }
      if StartsLine(rest) {
        var n := LineLength(rest);
        if index + n == |source| {
          output := output + Spaces(n);
          index := |source|;
          break;
        }
        output := output + (Spaces(n) + "\n");
        index := index + n + 1;
        continue;
      }
      if StartsBlock(rest) {
        var n := 2 + CloseLength(rest[2..]);
        output := output + Blank(rest[..n]);
        index := index + n;
        continue;
      }
      output := output + [c];
      index := index + 1;
    }
    StripOfNothing(source, quote);
  }

  lemma StripOfNothing(source: string, quote: Option<char>)
    ensures Strip(source[|source|..], quote) == ""
  {
  }

  // ----- positions

  /** The character at a position is kept, or blanked if it is no newline. */
  predicate Kept(s: string, r: string) {
    |r| == |s| && forall k :: 0 <= k < |s| ==> (r[k] == s[k] || r[k] == ' ') && (r[k] == '\n' <==> s[k] == '\n')
  }

  lemma PieceIsKept(s: string, quote: Option<char>)
    requires s != ""
    ensures var p := FirstPiece(s, quote); Kept(s[..p.length], p.out)
  {
  }

  lemma KeptInTwo(a: string, a': string, b: string, b': string)
    requires Kept(a, a') && Kept(b, b')
    ensures Kept(a + b, a' + b')
  {
  }

  /** Newlines stay where they are, and every other character is unchanged or a space. */
  lemma {:induction false} PositionsAreKept(s: string, quote: Option<char>)
    ensures Kept(s, Strip(s, quote))
    decreases |s|
  {
    hide Kept, FirstPiece;
    if s == "" {
      NothingIsKept();
    } else {
      var p := FirstPiece(s, quote);
      PieceIsKept(s, quote);
      PositionsAreKept(s[p.length..], p.quote);
      KeptInTwo(s[..p.length], p.out, s[p.length..], Strip(s[p.length..], p.quote));
      assert s[..p.length] + s[p.length..] == s;
    }
  }

  lemma NothingIsKept()
    ensures Kept("", "")
  {
  }

  // ----- quotes

  /** The quoted text that ends with its closing quote at `j`. */
  predicate QuotedSpan(s: string, quote: char, i: nat, j: nat)
    decreases j - i
  {
    i <= j < |s| &&
    if s[i] == '\\' then QuotedSpan(s, quote, i + 2, j)
    else if s[i] == quote then i == j
    else QuotedSpan(s, quote, i + 1, j)
  }

  lemma QuotedPiece(s: string, quote: char, i: nat, j: nat)
    requires quote != '\\' && QuotedSpan(s, quote, i, j)
    ensures var p := FirstPiece(s[i..], Some(quote));
            && p.length == (if s[i] == '\\' then 2 else 1)
            && p.out == s[i..i + p.length]
            && p.quote == (if i == j then None else Some(quote))
  {
  }

  lemma SlicesJoin(s: string, a: nat, b: nat, c: nat, t: string)
    requires a <= b <= c <= |s|
    ensures s[a..b] + (s[b..c] + t) == s[a..c] + t
  {
  }

  lemma StripUnfolds(s: string, i: nat, quote: Option<char>)
    requires i < |s|
    ensures var p := FirstPiece(s[i..], quote); Strip(s[i..], quote) == p.out + Strip(s[i + p.length..], p.quote)
  {
    var p := FirstPiece(s[i..], quote);
    assert s[i..][p.length..] == s[i + p.length..];
  }

  lemma {:induction false} InsideQuotes(s: string, quote: char, i: nat, j: nat)
    requires quote != '\\' && QuotedSpan(s, quote, i, j)
    ensures Strip(s[i..], Some(quote)) == s[i..j + 1] + Strip(s[j + 1..], None)
    decreases j - i
  {
    hide FirstPiece, Strip;
    QuotedPiece(s, quote, i, j);
    StripUnfolds(s, i, Some(quote));
    if i < j {
      var n := if s[i] == '\\' then 2 else 1;
      InsideQuotes(s, quote, i + n, j);
      SlicesJoin(s, i, i + n, j + 1, Strip(s[j + 1..], None));
    }
  }

  /** Quoted text is kept verbatim, whatever comment openers it holds, and what follows it is read afresh. */
  lemma QuotesAreVerbatim(s: string, j: nat)
    requires s != "" && IsQuote(s[0]) && QuotedSpan(s, s[0], 1, j)
    ensures Strip(s, None) == s[..j + 1] + Strip(s[j + 1..], None)
  {
    hide Strip;
    assert s[0..] == s && s[0..j + 1] == s[..j + 1];
    StripUnfolds(s, 0, None);
    InsideQuotes(s, s[0], 1, j);
    SlicesJoin(s, 0, 1, j + 1, Strip(s[j + 1..], None));
  }

  // ----- comments

  /** Reading `s` meets no comment. */
  predicate Clean(s: string, quote: Option<char>)
    decreases |s|
  {
    s == "" ||
    var p := FirstPiece(s, quote);
    !OpensComment(s, quote) && Clean(s[p.length..], p.quote)
  }

  lemma OpenersAreBlanked(s: string, quote: Option<char>)
    requires s != "" && OpensComment(s, quote)
    ensures FirstPiece(s, quote).out[0] == ' ' && s[0] == '/'
  {
  }

  lemma {:induction false} UnchangedIffClean(s: string, quote: Option<char>)
    ensures Strip(s, quote) == s <==> Clean(s, quote)
    decreases |s|
  {
    hide FirstPiece;
    if s != "" {
      var p := FirstPiece(s, quote);
      UnchangedIffClean(s[p.length..], p.quote);
      if OpensComment(s, quote) {
        OpenersAreBlanked(s, quote);
      } else {
        assert s == s[..p.length] + s[p.length..];
        assert Strip(s, quote)[p.length..] == Strip(s[p.length..], p.quote);
      }
    }
  }

  lemma {:induction false} BlanksAreClean(blanks: string, s: string)
    requires forall k :: 0 <= k < |blanks| ==> blanks[k] == ' ' || blanks[k] == '\n'
    ensures Clean(blanks + s, None) == Clean(s, None)
    decreases |blanks|
  {
    if blanks == "" {
      assert blanks + s == s;
    } else {
      assert (blanks + s)[1..] == blanks[1..] + s;
      assert FirstPiece(blanks + s, None) == Piece((blanks + s)[..1], 1, None);
      BlanksAreClean(blanks[1..], s);
    }
  }

  lemma BlankedPiece(s: string, quote: Option<char>)
    requires s != "" && OpensComment(s, quote)
    ensures var p := FirstPiece(s, quote);
            p.quote == None && forall k :: 0 <= k < |p.out| ==> p.out[k] == ' ' || p.out[k] == '\n'
  {
  }

  /** Stripping keeps a first character, or blanks a slash. */
  lemma FirstCharacter(s: string, quote: Option<char>)
    requires s != ""
    ensures var c := Strip(s, quote)[0]; c == s[0] || (c == ' ' && s[0] == '/')
  {
  }

  /** What follows a lexeme that opens no comment cannot, once stripped, make it open one or read otherwise. */
  lemma SamePiece(s: string, quote: Option<char>)
    requires s != "" && !OpensComment(s, quote)
    ensures var p := FirstPiece(s, quote);
            var t := p.out + Strip(s[p.length..], p.quote);
            && !OpensComment(t, quote) && FirstPiece(t, quote) == p && t[p.length..] == Strip(s[p.length..], p.quote)
  {
    var p := FirstPiece(s, quote);
    var t := p.out + Strip(s[p.length..], p.quote);
    if p.length < |s| {
      FirstCharacter(s[p.length..], p.quote);
    }
    hide Strip;
    assert t[..p.length] == p.out;
    assert |t| == |s|;
  }

  /** What is left holds no comment: blanking never brings two characters together that open one. */
  lemma {:induction false} StrippedIsClean(s: string, quote: Option<char>)
    ensures Clean(Strip(s, quote), quote)
    decreases |s|
  {
    hide FirstPiece;
    if s != "" {
      var p := FirstPiece(s, quote);
      var rest := Strip(s[p.length..], p.quote);
      StrippedIsClean(s[p.length..], p.quote);
      if OpensComment(s, quote) {
        BlankedPiece(s, quote);
        BlanksAreClean(p.out, rest);
      } else {
        SamePiece(s, quote);
      }
    }
  }

  /** Stripping twice is stripping once. */
  lemma StrippingIsIdempotent(source: string)
    ensures Strip(Strip(source, None), None) == Strip(source, None)
  {
    StrippedIsClean(source, None);
    UnchangedIffClean(Strip(source, None), None);
  }

  // ----- which characters are blanked

  /** A stretch of source: a character, a quotation, or a comment, each closed or left open by the end of the source. */
  datatype Segment =
    | Other(c: char)
    | Quoted(quote: char, inner: seq<Inner>)
    | OpenQuoted(quote: char, inner: seq<Inner>, lone: bool)
    | Line(text: string)
    | OpenLine(text: string)
    | Block(text: string)
    | OpenBlock(text: string)

  function Write(x: Segment): string {
    match x
    case Other(c) => [c]
    case Quoted(quote, inner) => [quote] + WriteInner(inner) + [quote]
    case OpenQuoted(quote, inner, lone) => [quote] + WriteInner(inner) + if lone then "\\" else ""
    case Line(text) => "//" + text + "\n"
    case OpenLine(text) => "//" + text
    case Block(text) => "/*" + text + "*/"
    case OpenBlock(text) => "/*" + text
  }

  predicate IsComment(x: Segment) {
    x.Line? || x.OpenLine? || x.Block? || x.OpenBlock?
  }

  /** What is left of a stretch: a comment blanked, its newlines kept, and anything else as it is. */
  function Left(x: Segment): string {
    if IsComment(x) then Blank(Write(x)) else Write(x)
  }

  /** The stretch ends where it says it does, `rest` being what follows. */
  predicate Proper(x: Segment, rest: string) {
    match x
    case Other(c) => c !in "'\"`" && (c == '/' && rest != "" ==> rest[0] != '/' && rest[0] != '*')
    case Quoted(quote, inner) => quote in "'\"`" && Unbroken(inner, [quote, '\\'])
    case OpenQuoted(quote, inner, _) => quote in "'\"`" && Unbroken(inner, [quote, '\\']) && rest == ""
    case Line(text) => '\n' !in text
    case OpenLine(text) => '\n' !in text && rest == ""
    case Block(text) => forall k: nat :: k < |text| ==> !ClosesAt(text, k)
    case OpenBlock(text) => (forall k: nat :: k < |text| ==> !ClosesAt(text, k)) && rest == ""
  }

  /** The source is these stretches, one after the other. */
  predicate Spelled(s: string, xs: seq<Segment>)
    decreases |xs|
  {
    if xs == [] then s == ""
    else
      var n := |Write(xs[0])|;
      n <= |s| && s[..n] == Write(xs[0]) && Proper(xs[0], s[n..]) && Spelled(s[n..], xs[1..])
  }

  function AllLeft(xs: seq<Segment>): string {
    if xs == [] then "" else Left(xs[0]) + AllLeft(xs[1..])
  }

  lemma StripUnfoldsOnce(s: string, quote: Option<char>, p: Piece)
    requires s != "" && FirstPiece(s, quote) == p
    ensures Strip(s, quote) == p.out + Strip(s[p.length..], p.quote)
  {
  }

  /** Quoted text is kept, up to where the quotation ends or the source does. */
  lemma {:induction false} InnerIsKept(inner: seq<Inner>, quote: char, rest: string)
    requires IsQuote(quote) && Unbroken(inner, [quote, '\\'])
    ensures Strip(WriteInner(inner) + rest, Some(quote)) == WriteInner(inner) + Strip(rest, Some(quote))
    decreases |inner|
  {
    hide Strip, FirstPiece, WriteOne, Unbroken, IsQuote;
    if inner == [] {
      assert "" + rest == rest && "" + Strip(rest, Some(quote)) == Strip(rest, Some(quote));
    } else {
      var one, more := WriteOne(inner[0]), WriteInner(inner[1..]);
      var s := WriteInner(inner) + rest;
      UnbrokenParts(inner, [quote, '\\']);
      assert s == one + (more + rest) && s[|one|..] == more + rest && s[..|one|] == one;
      InnerPiece(s, quote, inner[0]);
      StripUnfoldsOnce(s, Some(quote), Piece(one, |one|, Some(quote)));
      InnerIsKept(inner[1..], quote, rest);
      assert one + (more + Strip(rest, Some(quote))) == WriteInner(inner) + Strip(rest, Some(quote));
    }
  }

  lemma InnerPiece(s: string, quote: char, x: Inner)
    requires |WriteOne(x)| <= |s| && s[..|WriteOne(x)|] == WriteOne(x)
    requires IsQuote(quote) && (x.Plain? ==> x.c !in [quote, '\\'])
    ensures FirstPiece(s, Some(quote)) == Piece(WriteOne(x), |WriteOne(x)|, Some(quote))
  {
    assert s[0] == WriteOne(x)[0];
  }

  lemma QuotationIsKept(x: Segment, rest: string)
    requires Proper(x, rest) && (x.Quoted? || x.OpenQuoted?)
    ensures Strip(Write(x) + rest, None) == Write(x) + Strip(rest, None)
  {
    hide Strip, FirstPiece;
    var q, text := x.quote, WriteInner(x.inner);
    var tail := if x.Quoted? then [q] else if x.lone then "\\" else "";
    var s := Write(x) + rest;
    assert s == [q] + (text + (tail + rest));
    assert s[1..] == text + (tail + rest) && s[..1] == [q];
    assert FirstPiece(s, None) == Piece([q], 1, Some(q)) by { QuotePiece(s); }
    StripUnfoldsOnce(s, None, Piece([q], 1, Some(q)));
    InnerIsKept(x.inner, q, tail + rest);
    TailIsKept(q, tail, rest, x.Quoted?);
    assert [q] + (text + (tail + Strip(rest, None))) == Write(x) + Strip(rest, None);
  }

  lemma QuotePiece(s: string)
    requires s != "" && IsQuote(s[0])
    ensures FirstPiece(s, None) == Piece(s[..1], 1, Some(s[0]))
  {
  }

  lemma TailIsKept(quote: char, tail: string, rest: string, closed: bool)
    requires IsQuote(quote) && (if closed then tail == [quote] else (tail == "" || tail == "\\") && rest == "")
    ensures Strip(tail + rest, Some(quote)) == tail + Strip(rest, None)
  {
    if tail != "" {
      assert (tail + rest)[1..] == rest && (tail + rest)[..1] == tail;
      assert FirstPiece(tail + rest, Some(quote)).length == 1;
    }
  }

  /** Where the comment that opens a source ends. */
  lemma CommentPiece(x: Segment, rest: string)
    requires IsComment(x) && Proper(x, rest)
    ensures FirstPiece(Write(x) + rest, None) == Piece(Blank(Write(x)), |Write(x)|, None)
  {
    hide Blank, Spaces, LineLength, CloseLength;
    var s, text := Write(x) + rest, x.text;
    if x.Line? || x.OpenLine? {
      LineEnds(x, rest);
    } else {
      BlockEnds(x, rest);
    }
  }

  lemma LineEnds(x: Segment, rest: string)
    requires (x.Line? || x.OpenLine?) && Proper(x, rest)
    ensures FirstPiece(Write(x) + rest, None) == Piece(Blank(Write(x)), |Write(x)|, None)
  {
    var s, n := Write(x) + rest, 2 + |x.text|;
    assert forall k :: 0 <= k < n ==> s[k] == ("//" + x.text)[k];
    assert forall k :: 0 <= k < n ==> s[k] != '\n';
    assert x.Line? ==> s[n] == '\n';
    assert LineLength(s) == n;
    assert Blank(Write(x)) == if x.Line? then Spaces(n) + "\n" else Spaces(n);
  }

  /** The first close that stands in `s` is the one found, and the whole of `s` is taken when none does. */
  lemma {:induction false} CloseIsFirst(s: string)
    ensures var n := CloseLength(s);
            && (forall k: nat :: k + 2 < n ==> !ClosesAt(s, k))
            && ((n >= 2 && ClosesAt(s, n - 2)) || (n == |s| && forall k: nat :: k < n ==> !ClosesAt(s, k)))
    decreases |s|
  {
    if s != "" && !ClosesAt(s, 0) {
      var t := s[1..];
      CloseIsFirst(t);
      forall k: nat | ClosesAt(s, k)
        ensures k > 0 && ClosesAt(t, k - 1)
      {
      }
      var n := CloseLength(t);
      assert n >= 2 && ClosesAt(t, n - 2) ==> ClosesAt(s, n - 1);
    }
  }

  lemma BlockEnds(x: Segment, rest: string)
    requires (x.Block? || x.OpenBlock?) && Proper(x, rest)
    ensures FirstPiece(Write(x) + rest, None) == Piece(Blank(Write(x)), |Write(x)|, None)
  {
    hide Blank, LineLength, CloseLength;
    var s := Write(x) + rest;
    BlockBodyEnds(x, rest);
    assert s[0] == '/' && s[1] == '*';
    assert s[..|Write(x)|] == Write(x);
  }

  lemma BlockBodyEnds(x: Segment, rest: string)
    requires (x.Block? || x.OpenBlock?) && Proper(x, rest)
    ensures 2 + CloseLength((Write(x) + rest)[2..]) == |Write(x)|
  {
    hide CloseLength;
    var text := x.text;
    var body := text + (if x.Block? then "*/" else "") + rest;
    assert (Write(x) + rest)[2..] == body;
    CloseIsFirst(body);
    assert forall k :: 0 <= k < |text| ==> body[k] == text[k];
    forall k: nat | k + 1 < |text|
      ensures ClosesAt(body, k) <==> ClosesAt(text, k)
    {
    }
    if x.Block? {
      assert body[|text|] == '*' && body[|text| + 1] == '/';
      assert ClosesAt(body, |text|);
      if text != "" {
        assert !ClosesAt(body, |text| - 1);
      }
    }
  }

  lemma SegmentIsLeft(x: Segment, rest: string)
    requires Proper(x, rest)
    ensures Strip(Write(x) + rest, None) == Left(x) + Strip(rest, None)
  {
    hide Strip, FirstPiece, Blank;
    var s := Write(x) + rest;
    assert s[|Write(x)|..] == rest;
    if IsComment(x) {
      CommentPiece(x, rest);
      StripUnfoldsOnce(s, None, Piece(Blank(Write(x)), |Write(x)|, None));
    } else if x.Other? {
      assert FirstPiece(s, None) == Piece(Write(x), 1, None) by { OtherPiece(x, rest); }
      StripUnfoldsOnce(s, None, Piece(Write(x), 1, None));
    } else {
      QuotationIsKept(x, rest);
    }
  }

  lemma OtherPiece(x: Segment, rest: string)
    requires x.Other? && Proper(x, rest)
    ensures FirstPiece(Write(x) + rest, None) == Piece(Write(x), 1, None)
  {
    var s := Write(x) + rest;
    assert s[..1] == Write(x);
    assert rest != "" ==> s[1] == rest[0];
  }

  /**
   * Which characters are blanked: those of comments, newlines excepted, and no others. A block comment ends with the
   * first delimiter that closes it, a line comment with its line, and either with the source.
   */
  lemma {:induction false} ExactlyTheCommentsAreBlanked(s: string, xs: seq<Segment>)
    requires Spelled(s, xs)
    ensures Strip(s, None) == AllLeft(xs)
    decreases |xs|
  {
    hide Strip, Write, Left, Proper;
    if xs == [] {
      StripOfNothing("", None);
    } else {
      var n := |Write(xs[0])|;
      assert s == Write(xs[0]) + s[n..];
      SegmentIsLeft(xs[0], s[n..]);
      ExactlyTheCommentsAreBlanked(s[n..], xs[1..]);
    }
  }

  // ----- every source is such stretches

  predicate IsQuotation(s: string, quote: char, inner: seq<Inner>, tail: string, rest: string) {
    && s == WriteInner(inner) + tail + rest && Unbroken(inner, [quote, '\\'])
    && (tail == [quote] || (rest == "" && (tail == "" || tail == "\\")))
  }

  lemma InnerIsMore(s: string, quote: char, x: Inner, t: string, inner: seq<Inner>, tail: string, rest: string)
    requires s == WriteOne(x) + t && (x.Plain? ==> x.c !in [quote, '\\']) && IsQuotation(t, quote, inner, tail, rest)
    ensures IsQuotation(s, quote, [x] + inner, tail, rest)
  {
    assert ([x] + inner)[1..] == inner;
    assert WriteOne(x) + (WriteInner(inner) + tail + rest) == WriteInner([x] + inner) + tail + rest;
  }

  /** A quotation from just after its opening quote: its text, what ends it, and what follows. */
  lemma {:induction false} QuotationExists(s: string, quote: char) returns (inner: seq<Inner>, tail: string, rest: string)
    requires IsQuote(quote)
    ensures IsQuotation(s, quote, inner, tail, rest)
    decreases |s|
  {
    hide IsQuotation;
    inner, tail, rest := [], "", "";
    if s == "" || s == "\\" {
      tail := s;
      QuotationEnds(s, quote, tail, rest);
    } else if s[0] == quote {
      tail, rest := [quote], s[1..];
      QuotationEnds(s, quote, tail, rest);
    } else {
      var x := if s[0] == '\\' then Escaped(s[1]) else Plain(s[0]);
      var t := s[|WriteOne(x)|..];
      assert s == WriteOne(x) + t;
      inner, tail, rest := QuotationExists(t, quote);
      InnerIsMore(s, quote, x, t, inner, tail, rest);
      inner := [x] + inner;
    }
  }

  lemma QuotationEnds(s: string, quote: char, tail: string, rest: string)
    requires s == tail + rest && (tail == [quote] || (rest == "" && (tail == "" || tail == "\\")))
    ensures IsQuotation(s, quote, [], tail, rest)
  {
  }

  /** The stretch a source begins with. */
  ghost predicate Begins(s: string, x: Segment) {
    0 < |Write(x)| <= |s| && s[..|Write(x)|] == Write(x) && Proper(x, s[|Write(x)|..])
  }

  lemma BeginsWith(s: string, x: Segment, rest: string)
    requires s == Write(x) + rest && Write(x) != "" && Proper(x, rest)
    ensures Begins(s, x)
  {
    hide Write, Proper;
    assert s[|Write(x)|..] == rest;
  }

  lemma QuotedBegins(s: string) returns (x: Segment)
    requires s != "" && IsQuote(s[0])
    ensures Begins(s, x)
  {
    hide Begins;
    var inner, tail, rest := QuotationExists(s[1..], s[0]);
    x := if tail == [s[0]] then Quoted(s[0], inner) else OpenQuoted(s[0], inner, tail == "\\");
    assert s == [s[0]] + s[1..];
    assert s == [s[0]] + WriteInner(inner) + tail + rest;
    BeginsWith(s, x, rest);
  }

  lemma LineBegins(s: string) returns (x: Segment)
    requires StartsLine(s)
    ensures Begins(s, x)
  {
    hide Begins, LineLength;
    var n := LineLength(s);
    assert n >= 2 by {
      assert s[0] != '\n' && s[1] != '\n';
    }
    assert s == "//" + s[2..n] + s[n..];
    if n == |s| {
      x := OpenLine(s[2..n]);
      BeginsWith(s, x, "");
    } else {
      x := Line(s[2..n]);
      assert s[n..] == "\n" + s[n + 1..];
      BeginsWith(s, x, s[n + 1..]);
    }
  }

  lemma BlockBegins(s: string) returns (x: Segment)
    requires StartsBlock(s)
    ensures Begins(s, x)
  {
    hide Begins, CloseLength;
    var body := s[2..];
    var n := CloseLength(body);
    CloseIsFirst(body);
    assert s == "/*" + body;
    if n >= 2 && ClosesAt(body, n - 2) {
      var text := body[..n - 2];
      assert body == text + "*/" + body[n..];
      forall k: nat | k < |text|
        ensures !ClosesAt(text, k)
      {
        assert ClosesAt(text, k) ==> ClosesAt(body, k);
      }
      x := Block(text);
      assert s == "/*" + text + "*/" + body[n..];
      BeginsWith(s, x, body[n..]);
    } else {
      x := OpenBlock(body);
      BeginsWith(s, x, "");
    }
  }

  /** Every source is such stretches. */
  lemma {:induction false} SegmentsExist(s: string) returns (xs: seq<Segment>)
    ensures Spelled(s, xs)
    decreases |s|
  {
    hide Write, Proper, Strip, FirstPiece;
    if s == "" {
      xs := [];
    } else {
      var x: Segment;
      if IsQuote(s[0]) {
        x := QuotedBegins(s);
      } else if StartsLine(s) {
        x := LineBegins(s);
      } else if StartsBlock(s) {
        x := BlockBegins(s);
      } else {
        x := Other(s[0]);
        OtherBegins(s);
      }
      var rest := SegmentsExist(s[|Write(x)|..]);
      xs := [x] + rest;
      assert xs[1..] == rest;
    }
  }

  lemma OtherBegins(s: string)
    requires s != "" && !IsQuote(s[0]) && !StartsLine(s) && !StartsBlock(s)
    ensures Begins(s, Other(s[0]))
  {
  }
}
