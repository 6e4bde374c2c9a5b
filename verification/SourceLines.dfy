/** Positions and lines of a source text. */
module SourceLines {
  import opened Text

  /** `source.count("\n", from, end)` */
  function Newlines(src: string, from: nat, end: nat): (n: nat)
    requires from <= end <= |src|
  {
    if from == end then 0 else Newlines(src, from, end - 1) + if src[end - 1] == '\n' then 1 else 0
  }

  /** The line a position lies on: one plus the newlines before it. */
  function LineOf(src: string, i: nat): nat
    requires i <= |src|
  {
    1 + Newlines(src, 0, i)
  }

  lemma {:induction false} NewlinesAdd(src: string, a: nat, b: nat, c: nat)
    requires a <= b <= c <= |src|
    ensures Newlines(src, a, c) == Newlines(src, a, b) + Newlines(src, b, c)
  {
    if b < c {
      NewlinesAdd(src, a, b, c - 1);
    }
  }

  lemma LineMoves(src: string, i: nat, j: nat)
    requires i <= j <= |src|
    ensures LineOf(src, j) == LineOf(src, i) + Newlines(src, i, j)
  {
    NewlinesAdd(src, 0, i, j);
  }

  /** A newline that is passed is counted. */
  lemma {:induction false} PassedNewline(src: string, i: nat, j: nat)
    requires i < j <= |src| && src[i] == '\n'
    ensures Newlines(src, i, j) >= 1
  {
    if j > i + 1 {
      PassedNewline(src, i, j - 1);
    }
  }

  /** `source.find("\n", i)`, with the length standing for not found. */
  function LineEnd(src: string, i: nat): (j: nat)
    requires i <= |src|
    ensures i <= j <= |src|
    ensures forall k :: i <= k < j ==> src[k] != '\n'
    ensures j < |src| ==> src[j] == '\n'
    decreases |src| - i
  {
    if i == |src| || src[i] == '\n' then i else LineEnd(src, i + 1)
  }

  /** `source.rfind("\n", 0, i) + 1` */
  function LineStart(src: string, i: nat): (j: nat)
    requires i <= |src|
    ensures j <= i
    ensures forall k :: j <= k < i ==> src[k] != '\n'
    ensures j == 0 || src[j - 1] == '\n'
  {
    if i == 0 || src[i - 1] == '\n' then i else LineStart(src, i - 1)
  }

  lemma NoNewlines(src: string, i: nat, j: nat)
    requires i <= j <= |src| && forall k :: i <= k < j ==> src[k] != '\n'
    ensures Newlines(src, i, j) == 0
  {
  }

  function AfterLine(src: string, i: nat): (j: nat)
    requires i <= |src|
    ensures i <= j <= |src| && (i < |src| ==> i < j)
  {
    var end := LineEnd(src, i);
    if end < |src| then end + 1 else end
  }

  /** Nothing but blanks stands before the position on its line. */
  predicate FirstOnLine(src: string, i: nat)
    requires i <= |src|
  {
    forall k :: 0 <= k < i && '\n' !in src[k..i] ==> IsSpace(src[k])
  }

  lemma FirstOnLineIff(src: string, i: nat)
    requires i <= |src|
    ensures Blank(src[LineStart(src, i)..i]) <==> FirstOnLine(src, i)
  {
    hide IsSpace, LineStart;
    var a := LineStart(src, i);
    forall k | 0 <= k < i
      ensures '\n' !in src[k..i] <==> a <= k
    {
      if k < a {
        assert src[k..i][a - 1 - k] == '\n';
      }
    }
    assert forall k :: a <= k < i ==> src[a..i][k - a] == src[k];
  }

  predicate At(src: string, i: nat, c: char) {
    i < |src| && src[i] == c
  }
}
