/**
 * What a here-document's delimiter word says, as the lexer reads it and as quote removal does (section 2.2 of the
 * POSIX.1-2017 Shell Command Language): for exactly which words the two agree, and that the whole document, from its
 * operator to its delimiter line, reports nothing.
 */
module HeredocWords {
  import opened Prelude
  import opened Text
  import opened SourceLines
  import opened Spelling
  import opened ShellLexer
  import opened ShellProofs

  /** A piece of a delimiter word. */
  datatype Piece =
    | Bare(c: char)
    | Escape(c: char)
    | SingleQuoted(s: string)
    | DoubleQuoted(dollar: bool, inner: seq<Inner>)
    | AnsiQuoted(inner: seq<Inner>)

  predicate Terminates(c: char) {
    IsSpace(c) || c in ";|&()<>"
  }

  /** How a word is understood: by this lexer, or by quote removal. */
  datatype Rule = AsLexed | AsPosix

  /** The characters before which a backslash inside double quotes escapes. */
  const ESCAPABLE := "$`\"\\"

  /**
   * Inside double quotes the lexer drops every backslash; quote removal keeps one before an ordinary character, and
   * drops a backslash and the newline after it together.
   */
  function InnerText(rule: Rule, x: Inner): string {
    if x.Plain? || rule.AsLexed? || x.c in ESCAPABLE then [x.c] else if x.c == '\n' then "" else ['\\', x.c]
  }

  function SayInner(rule: Rule, inner: seq<Inner>): string {
    if inner == [] then "" else InnerText(rule, inner[0]) + SayInner(rule, inner[1..])
  }

  /** The piece as the source spells it. */
  function Write(p: Piece): string {
    match p
    case Bare(c) => [c]
    case Escape(c) => ['\\', c]
    case SingleQuoted(s) => ['\''] + s + ['\'']
    case DoubleQuoted(dollar, inner) => (if dollar then ['$', '"'] else ['"']) + WriteInner(inner) + ['"']
    case AnsiQuoted(inner) => ['$', '\''] + WriteInner(inner) + ['\'']
  }

  /** What the piece stands for once its quotes are removed; outside quotes, too, a backslash and a newline continue the line. */
  function Say(rule: Rule, decode: string -> string, p: Piece): string {
    match p
    case Bare(c) => [c]
    case Escape(c) => if rule.AsPosix? && c == '\n' then "" else [c]
    case SingleQuoted(s) => s
    case DoubleQuoted(_, inner) => SayInner(rule, inner)
    case AnsiQuoted(inner) => decode(WriteInner(inner))
  }

  function WriteAll(pieces: seq<Piece>): string {
    if pieces == [] then "" else Write(pieces[0]) + WriteAll(pieces[1..])
  }

  function SayAll(rule: Rule, decode: string -> string, pieces: seq<Piece>): string {
    if pieces == [] then "" else Say(rule, decode, pieces[0]) + SayAll(rule, decode, pieces[1..])
  }

  /** The piece is what it says it is: nothing in it closes it early. */
  predicate Proper(p: Piece) {
    match p
    case Bare(c) => !Terminates(c) && c !in ['\'', '"', '\\']
    case Escape(_) => true
    case SingleQuoted(s) => '\'' !in s
    case DoubleQuoted(_, inner) => Unbroken(inner, "\"\\")
    case AnsiQuoted(inner) => Unbroken(inner, "'\\")
  }

  /** Proper pieces, of which no bare `$` runs into a quote. */
  predicate WellFormed(pieces: seq<Piece>) {
    && (forall k :: 0 <= k < |pieces| ==> Proper(pieces[k]))
    && (forall k :: 0 <= k < |pieces| - 1 && pieces[k] == Bare('$') ==>
          !pieces[k + 1].SingleQuoted? && (pieces[k + 1].DoubleQuoted? ==> pieces[k + 1].dollar))
  }

  /** An ANSI-C quote with a quote behind a backslash inside; the lexer takes that one for the end. */
  predicate ClosedEarly(p: Piece) {
    p.AnsiQuoted? && Escaped('\'') in p.inner
  }

  predicate ClosedInTime(pieces: seq<Piece>) {
    forall k :: 0 <= k < |pieces| ==> !ClosedEarly(pieces[k])
  }

  /** Where a quote that began in the word did. */
  predicate Placed(src: string, w: Word) {
    w.cursor <= |src| && (w.ansiStart.Some? ==> w.ansiStart.value <= |w.text|)
  }

  lemma ReadOn(abc: Alphabet, src: string, w: Word, next: Word)
    requires Placed(src, w) && WordStep(abc, src, w) == Some(next)
    ensures ReadWord(abc, src, w) == ReadWord(abc, src, next)
  {
  }

  lemma WordStops(abc: Alphabet, src: string, w: Word)
    requires Placed(src, w) && WordStep(abc, src, w) == None
    ensures ReadWord(abc, src, w) == w
  {
  }

  lemma Quoted(abc: Alphabet, src: string, w: Word)
    requires Placed(src, w) && w.cursor < |src| && w.quote.Some? && src[w.cursor] != w.quote.value
    requires w.quote.value == '"' ==> src[w.cursor] != '\\'
    ensures WordStep(abc, src, w) == Some(w.(cursor := w.cursor + 1, text := w.text + [src[w.cursor]]))
  {
  }

  /** A character inside double quotes, or one behind a backslash there. */
  lemma InnerRead(abc: Alphabet, src: string, w: Word, x: Inner)
    requires Placed(src, w) && w.quote == Some('"')
    requires StandsAt(src, w.cursor, WriteOne(x)) && (x.Plain? ==> x.c !in "\"\\")
    ensures WordStep(abc, src, w) == Some(w.(cursor := w.cursor + |WriteOne(x)|, text := w.text + [x.c]))
  {
    StandingCharacter(src, w.cursor, WriteOne(x), 0);
    if x.Escaped? {
      StandingCharacter(src, w.cursor, WriteOne(x), 1);
    }
  }

  /** Text that does not close its single quotes is taken as it is. */
  lemma {:induction false} SingleRead(abc: Alphabet, src: string, w: Word, s: string)
    requires Placed(src, w) && w.quote == Some('\'')
    requires StandsAt(src, w.cursor, s) && '\'' !in s
    ensures ReadWord(abc, src, w) == ReadWord(abc, src, w.(cursor := w.cursor + |s|, text := w.text + s))
    decreases |s|
  {
    hide WordStep, ReadWord;
    if s == "" {
      assert w.text + s == w.text;
    } else {
      StandingCharacter(src, w.cursor, s, 0);
      assert s == [s[0]] + s[1..];
      StandsInTwo(src, w.cursor, [s[0]], s[1..]);
      var next := w.(cursor := w.cursor + 1, text := w.text + [s[0]]);
      Quoted(abc, src, w);
      ReadOn(abc, src, w, next);
      SingleRead(abc, src, next, s[1..]);
      assert next.text + s[1..] == w.text + s;
    }
  }

  lemma {:induction false} DoubleRead(abc: Alphabet, src: string, i: nat, text: string, inner: seq<Inner>)
    requires StandsAt(src, i, WriteInner(inner)) && Unbroken(inner, "\"\\")
    ensures i + |WriteInner(inner)| <= |src|
    ensures ReadWord(abc, src, Word(i, text, Some('"'), None))
         == ReadWord(abc, src, Word(i + |WriteInner(inner)|, text + SayInner(AsLexed, inner), Some('"'), None))
    decreases |inner|
  {
    hide WordStep, ReadWord, StandsAt, WriteOne, WriteInner, SayInner, Unbroken;
    StandsInside(src, i, WriteInner(inner));
    InnerUnfolds(inner);
    if inner == [] {
      assert text + "" == text;
    } else {
      var x, rest := inner[0], inner[1..];
      var w, next := Word(i, text, Some('"'), None), Word(i + |WriteOne(x)|, text + [x.c], Some('"'), None);
      UnbrokenParts(inner, "\"\\");
      StandsInTwo(src, i, WriteOne(x), WriteInner(rest));
      StandsInside(src, i, WriteOne(x));
      InnerRead(abc, src, w, x);
      ReadOn(abc, src, w, next);
      DoubleRead(abc, src, next.cursor, next.text, rest);
      assert text + [x.c] + SayInner(AsLexed, rest) == text + ([x.c] + SayInner(AsLexed, rest));
    }
  }

  lemma InnerUnfolds(inner: seq<Inner>)
    ensures inner == [] ==> WriteInner(inner) == "" && SayInner(AsLexed, inner) == ""
    ensures inner != [] ==> WriteInner(inner) == WriteOne(inner[0]) + WriteInner(inner[1..])
                            && SayInner(AsLexed, inner) == [inner[0].c] + SayInner(AsLexed, inner[1..])
  {
  }

  lemma QuoteCloses(abc: Alphabet, src: string, w: Word)
    requires Placed(src, w) && w.cursor < |src| && w.quote == Some(src[w.cursor])
    ensures ReadWord(abc, src, w) ==
            ReadWord(abc, src, Word(w.cursor + 1,
              if w.ansiStart.Some? then w.text[..w.ansiStart.value] + abc.decode(w.text[w.ansiStart.value..]) else w.text,
              None, None))
  {
  }

  /** What one turn does outside quotes with each way a piece begins. */
  lemma PieceOpens(abc: Alphabet, src: string, i: nat, text: string, p: Piece)
    requires StandsAt(src, i, Write(p)) && Proper(p)
    requires p == Bare('$') ==> !At(src, i + 1, '\'') && !At(src, i + 1, '"')
    ensures WordStep(abc, src, Word(i, text, None, None)) ==
            match p
            case Bare(c) => Some(Word(i + 1, text + [c], None, None))
            case Escape(c) => Some(Word(i + 2, text + [c], None, None))
            case SingleQuoted(_) => Some(Word(i + 1, text, Some('\''), None))
            case DoubleQuoted(dollar, _) => Some(Word(if dollar then i + 2 else i + 1, text, Some('"'), None))
            case AnsiQuoted(_) => Some(Word(i + 2, text, Some('\''), Some(|text|)))
  {
    hide IsSpace, WriteInner;
    StandingCharacter(src, i, Write(p), 0);
    if |Write(p)| > 1 {
      StandingCharacter(src, i, Write(p), 1);
    }
  }

  /** A quoted piece whose text, without the quote that closes it, has been read to `read`. */
  lemma PieceCloses(abc: Alphabet, src: string, i: nat, text: string, p: Piece, open: string, body: string, read: Word)
    requires StandsAt(src, i, Write(p)) && Proper(p) && (p.SingleQuoted? || p.DoubleQuoted? || p.AnsiQuoted?)
    requires read.quote.Some? && Write(p) == open + body + [read.quote.value] && read.cursor == i + |open| + |body|
    requires read.ansiStart.Some? ==> read.ansiStart.value <= |read.text|
    requires var first := WordStep(abc, src, Word(i, text, None, None));
             first.Some? && ReadWord(abc, src, first.value) == ReadWord(abc, src, read)
    requires text + Say(AsLexed, abc.decode, p) ==
             if read.ansiStart.Some? then read.text[..read.ansiStart.value] + abc.decode(read.text[read.ansiStart.value..])
             else read.text
    ensures ReadWord(abc, src, Word(i, text, None, None))
         == ReadWord(abc, src, Word(i + |Write(p)|, text + Say(AsLexed, abc.decode, p), None, None))
  {
    hide ReadWord, WordStep, StandsAt, Say, Proper;
    StandsInside(src, i, Write(p));
    PieceOpens(abc, src, i, text, p);
    var w := Word(i, text, None, None);
    ReadOn(abc, src, w, WordStep(abc, src, w).value);
    QuotedTextStands(src, i, open, body, [read.quote.value]);
    QuoteCloses(abc, src, read);
  }

  lemma BareRead(abc: Alphabet, src: string, i: nat, text: string, p: Piece)
    requires StandsAt(src, i, Write(p)) && Proper(p) && (p.Bare? || p.Escape?)
    requires p == Bare('$') ==> !At(src, i + 1, '\'') && !At(src, i + 1, '"')
    ensures ReadWord(abc, src, Word(i, text, None, None))
         == ReadWord(abc, src, Word(i + |Write(p)|, text + Say(AsLexed, abc.decode, p), None, None))
  {
    hide ReadWord, WordStep, StandsAt;
    StandsInside(src, i, Write(p));
    PieceOpens(abc, src, i, text, p);
    ReadOn(abc, src, Word(i, text, None, None), WordStep(abc, src, Word(i, text, None, None)).value);
  }

  lemma SingleQuotedRead(abc: Alphabet, src: string, i: nat, text: string, s: string)
    requires StandsAt(src, i, Write(SingleQuoted(s))) && Proper(SingleQuoted(s))
    ensures ReadWord(abc, src, Word(i, text, None, None))
         == ReadWord(abc, src, Word(i + |Write(SingleQuoted(s))|, text + s, None, None))
  {
    hide ReadWord, WordStep, StandsAt;
    PieceOpens(abc, src, i, text, SingleQuoted(s));
    QuotedTextStands(src, i, ['\''], s, ['\'']);
    SingleRead(abc, src, Word(i + 1, text, Some('\''), None), s);
    PieceCloses(abc, src, i, text, SingleQuoted(s), ['\''], s, Word(i + 1 + |s|, text + s, Some('\''), None));
  }

  lemma DoubleQuotedRead(abc: Alphabet, src: string, i: nat, text: string, p: Piece)
    requires StandsAt(src, i, Write(p)) && Proper(p) && p.DoubleQuoted?
    ensures ReadWord(abc, src, Word(i, text, None, None))
         == ReadWord(abc, src, Word(i + |Write(p)|, text + SayInner(AsLexed, p.inner), None, None))
  {
    hide ReadWord, WordStep, StandsAt, WriteInner, SayInner;
    var open := if p.dollar then ['$', '"'] else ['"'];
    PieceOpens(abc, src, i, text, p);
    QuotedTextStands(src, i, open, WriteInner(p.inner), ['"']);
    DoubleRead(abc, src, i + |open|, text, p.inner);
    PieceCloses(abc, src, i, text, p, open, WriteInner(p.inner),
                Word(i + |open| + |WriteInner(p.inner)|, text + SayInner(AsLexed, p.inner), Some('"'), None));
  }

  lemma {:induction false} NoQuoteIsWritten(inner: seq<Inner>)
    requires Unbroken(inner, "'\\") && Escaped('\'') !in inner
    ensures '\'' !in WriteInner(inner)
    decreases |inner|
  {
    if inner != [] {
      assert inner[0] in inner;
      NoQuoteIsWritten(inner[1..]);
    }
  }

  lemma AnsiQuotedRead(abc: Alphabet, src: string, i: nat, text: string, p: Piece)
    requires StandsAt(src, i, Write(p)) && Proper(p) && p.AnsiQuoted? && !ClosedEarly(p)
    ensures ReadWord(abc, src, Word(i, text, None, None))
         == ReadWord(abc, src, Word(i + |Write(p)|, text + abc.decode(WriteInner(p.inner)), None, None))
  {
    hide ReadWord, WordStep, StandsAt, WriteInner;
    var raw := WriteInner(p.inner);
    PieceOpens(abc, src, i, text, p);
    QuotedTextStands(src, i, ['$', '\''], raw, ['\'']);
    NoQuoteIsWritten(p.inner);
    SingleRead(abc, src, Word(i + 2, text, Some('\''), Some(|text|)), raw);
    assert (text + raw)[..|text|] == text && (text + raw)[|text|..] == raw;
    PieceCloses(abc, src, i, text, p, ['$', '\''], raw, Word(i + 2 + |raw|, text + raw, Some('\''), Some(|text|)));
  }

  /** A piece is read past, and adds what it stands for. */
  lemma PieceRead(abc: Alphabet, src: string, i: nat, text: string, p: Piece)
    requires StandsAt(src, i, Write(p)) && Proper(p) && !ClosedEarly(p)
    requires p == Bare('$') ==> !At(src, i + 1, '\'') && !At(src, i + 1, '"')
    ensures ReadWord(abc, src, Word(i, text, None, None))
         == ReadWord(abc, src, Word(i + |Write(p)|, text + Say(AsLexed, abc.decode, p), None, None))
  {
    hide ReadWord, StandsAt, Write, Proper, ClosedEarly;
    match p {
      case SingleQuoted(s) => SingleQuotedRead(abc, src, i, text, s);
      case DoubleQuoted(_, _) => DoubleQuotedRead(abc, src, i, text, p);
      case AnsiQuoted(_) => AnsiQuotedRead(abc, src, i, text, p);
      case _ => BareRead(abc, src, i, text, p);
    }
  }

  /** The word ends at `i`: the source does, or a blank or an operator follows. */
  predicate WordEndsAt(src: string, i: nat) {
    i == |src| || (i < |src| && Terminates(src[i]))
  }

  /**
   * Whatever bare, escaped and quoted pieces a delimiter word is made of, so long as no ANSI-C quote closes early:
   * reading it stops just after them, outside any quote, having added what the lexer takes them to say.
   */
  lemma {:induction false} WordSaysItsPieces(abc: Alphabet, src: string, i: nat, text: string, pieces: seq<Piece>)
    requires WellFormed(pieces) && ClosedInTime(pieces)
    requires StandsAt(src, i, WriteAll(pieces)) && WordEndsAt(src, i + |WriteAll(pieces)|)
    ensures ReadWord(abc, src, Word(i, text, None, None))
         == Word(i + |WriteAll(pieces)|, text + SayAll(AsLexed, abc.decode, pieces), None, None)
    decreases |pieces|
  {
    hide Write, Say, Proper, ClosedEarly, WordStep, ReadWord, StandsAt, IsSpace, WordEndsAt;
    StandsInside(src, i, WriteAll(pieces));
    if pieces == [] {
      assert text + "" == text;
      WordEnds(abc, src, i, text);
    } else {
      var p, rest := pieces[0], pieces[1..];
      StandsInTwo(src, i, Write(p), WriteAll(rest));
      if p == Bare('$') {
        NextIsNoQuote(src, i + |Write(p)|, rest);
        BareIsOne('$');
      }
      PieceRead(abc, src, i, text, p);
      var said := Say(AsLexed, abc.decode, p);
      WordSaysItsPieces(abc, src, i + |Write(p)|, text + said, rest);
      assert text + said + SayAll(AsLexed, abc.decode, rest) == text + SayAll(AsLexed, abc.decode, pieces);
    }
  }

  lemma WordEnds(abc: Alphabet, src: string, i: nat, text: string)
    requires WordEndsAt(src, i)
    ensures ReadWord(abc, src, Word(i, text, None, None)) == Word(i, text, None, None)
  {
  }

  lemma BareIsOne(c: char)
    ensures |Write(Bare(c))| == 1
  {
  }

  lemma NextIsNoQuote(src: string, i: nat, rest: seq<Piece>)
    requires StandsAt(src, i, WriteAll(rest)) && WordEndsAt(src, i + |WriteAll(rest)|)
    requires rest != [] ==> Proper(rest[0]) && !rest[0].SingleQuoted? && (rest[0].DoubleQuoted? ==> rest[0].dollar)
    ensures !At(src, i, '\'') && !At(src, i, '"')
  {
    if rest != [] {
      StandsInTwo(src, i, Write(rest[0]), WriteAll(rest[1..]));
      StandingCharacter(src, i, Write(rest[0]), 0);
    }
  }

  // ----- for which words the lexer reads what quote removal leaves

  /** Inside double quotes, backslashes stand only before what they escape. */
  predicate InnerConforms(inner: seq<Inner>) {
    forall x :: x in inner && x.Escaped? ==> x.c in ESCAPABLE
  }

  /** Nothing in the piece is taken otherwise than quote removal does. */
  predicate Conforms(p: Piece) {
    match p
    case Escape(c) => c != '\n'
    case DoubleQuoted(_, inner) => InnerConforms(inner)
    case AnsiQuoted(_) => !ClosedEarly(p)
    case _ => true
  }

  predicate AllConform(pieces: seq<Piece>) {
    forall k :: 0 <= k < |pieces| ==> Conforms(pieces[k])
  }

  function NewlinesIn(s: string): nat {
    multiset(s)['\n']
  }

  /**
   * How far the lexer's text is from what quote removal leaves: it has a newline more for each line continuation, and
   * when there is none, a character less for each backslash it should have kept.
   */
  predicate Apart(lexed: string, posix: string, conforms: bool) {
    && NewlinesIn(lexed) >= NewlinesIn(posix)
    && (NewlinesIn(lexed) == NewlinesIn(posix) ==> |lexed| <= |posix|)
    && (conforms <==> NewlinesIn(lexed) == NewlinesIn(posix) && |lexed| == |posix|)
    && (conforms ==> lexed == posix)
  }

  lemma ApartTogether(a: string, a': string, c: bool, b: string, b': string, e: bool)
    requires Apart(a, a', c) && Apart(b, b', e)
    ensures Apart(a + b, a' + b', c && e)
  {
  }

  lemma OneApart(x: Inner)
    ensures Apart(InnerText(AsLexed, x), InnerText(AsPosix, x), x.Escaped? ==> x.c in ESCAPABLE)
  {
  }

  lemma {:induction false} InnerApart(inner: seq<Inner>)
    ensures Apart(SayInner(AsLexed, inner), SayInner(AsPosix, inner), InnerConforms(inner))
    decreases |inner|
  {
    hide Apart, InnerText;
    if inner == [] {
      NothingApart();
    } else {
      var x, rest := inner[0], inner[1..];
      OneApart(x);
      InnerApart(rest);
      ApartTogether(InnerText(AsLexed, x), InnerText(AsPosix, x), x.Escaped? ==> x.c in ESCAPABLE,
                    SayInner(AsLexed, rest), SayInner(AsPosix, rest), InnerConforms(rest));
      assert inner == [x] + rest;
    }
  }

  lemma PieceApart(decode: string -> string, p: Piece)
    requires !ClosedEarly(p)
    ensures Apart(Say(AsLexed, decode, p), Say(AsPosix, decode, p), Conforms(p))
  {
    if p.DoubleQuoted? {
      InnerApart(p.inner);
    }
  }

  lemma {:induction false} AllApart(decode: string -> string, pieces: seq<Piece>)
    requires ClosedInTime(pieces)
    ensures Apart(SayAll(AsLexed, decode, pieces), SayAll(AsPosix, decode, pieces), AllConform(pieces))
    decreases |pieces|
  {
    hide Say, Conforms, Apart, ClosedEarly;
    if pieces == [] {
      assert Apart("", "", true) by {
        NothingApart();
      }
    } else {
      var p, rest := pieces[0], pieces[1..];
      PieceApart(decode, p);
      AllApart(decode, rest);
      ApartTogether(Say(AsLexed, decode, p), Say(AsPosix, decode, p), Conforms(p),
                    SayAll(AsLexed, decode, rest), SayAll(AsPosix, decode, rest), AllConform(rest));
      assert AllConform(pieces) <==> Conforms(p) && AllConform(rest);
    }
  }

  lemma NothingApart()
    ensures Apart("", "", true)
  {
  }

  /**
   * A word none of whose ANSI-C quotes closes early says to the lexer what quote removal leaves exactly when no
   * backslash continues a line, and none inside double quotes stands before an ordinary character.
   */
  lemma SaysAsPosixIff(decode: string -> string, pieces: seq<Piece>)
    requires ClosedInTime(pieces)
    ensures SayAll(AsLexed, decode, pieces) == SayAll(AsPosix, decode, pieces) <==> AllConform(pieces)
  {
    AllApart(decode, pieces);
  }

  // ----- quotes that close early

  /** An ANSI-C quote being read began in it, and nothing since has closed it. */
  predicate Sound(w: Word) {
    w.ansiStart.Some? ==> w.quote == Some('\'') && w.ansiStart.value <= |w.text| && '\'' !in w.text[w.ansiStart.value..]
  }

  /** Decoding leaves nothing of text without quotes. */
  ghost predicate Drops(decode: string -> string) {
    forall s :: '\'' !in s ==> decode(s) == ""
  }

  lemma StepIsBounded(abc: Alphabet, src: string, w: Word)
    requires w.cursor <= |src| && Sound(w) && Drops(abc.decode) && WordStep(abc, src, w).Some?
    ensures var w' := WordStep(abc, src, w).value;
            w'.cursor <= |src| && Sound(w') && |w'.text| + w.cursor <= |w.text| + w'.cursor
  {
  }

  /** Nothing longer than the source is read. */
  lemma {:induction false} WordIsBounded(abc: Alphabet, src: string, w: Word)
    requires w.cursor <= |src| && Sound(w) && Drops(abc.decode)
    ensures |ReadWord(abc, src, w).text| <= |w.text| + |src| - w.cursor
    decreases |src| - w.cursor
  {
    hide WordStep;
    if WordStep(abc, src, w).Some? {
      StepIsBounded(abc, src, w);
      WordIsBounded(abc, src, WordStep(abc, src, w).value);
    }
  }

  lemma {:induction false} QuoteIsWritten(inner: seq<Inner>)
    requires Escaped('\'') in inner
    ensures '\'' in WriteInner(inner)
    decreases |inner|
  {
    if inner[0] != Escaped('\'') {
      QuoteIsWritten(inner[1..]);
    }
  }

  lemma {:induction false} PieceIsSaid(decode: string -> string, pieces: seq<Piece>, k: nat)
    requires k < |pieces|
    ensures |SayAll(AsPosix, decode, pieces)| >= |Say(AsPosix, decode, pieces[k])|
    decreases k
  {
    if k > 0 {
      PieceIsSaid(decode, pieces[1..], k - 1);
    }
  }

  /** A decoding under which an ANSI-C quote that is closed early is not read as it should be. */
  lemma EarlyCloseIsSeen(abc: Alphabet, src: string, i: nat, pieces: seq<Piece>) returns (decode: string -> string)
    requires i <= |src| && !ClosedInTime(pieces)
    ensures |SayAll(AsPosix, decode, pieces)| > |ReadWord(abc.(decode := decode), src, Word(i, "", None, None)).text|
  {
    hide ReadWord, WriteInner;
    var k :| 0 <= k < |pieces| && ClosedEarly(pieces[k]);
    var long := seq(|src| + 1, _ => 'x');
    decode := (s: string) => if '\'' in s then long else "";
    QuoteIsWritten(pieces[k].inner);
    PieceIsSaid(decode, pieces, k);
    WordIsBounded(abc.(decode := decode), src, Word(i, "", None, None));
  }
}
