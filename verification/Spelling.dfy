/** How quoted text is spelled, and text that stands at a position of a source. */
module Spelling {

  /** A character inside quotes: itself, or whatever a backslash stands before. */
  datatype Inner = Plain(c: char) | Escaped(c: char)

  function WriteOne(x: Inner): string {
    match x
    case Plain(c) => [c]
    case Escaped(c) => ['\\', c]
  }

  function WriteInner(inner: seq<Inner>): string {
    if inner == [] then ""
    else WriteOne(inner[0]) + WriteInner(inner[1..])
  }

  /** None of the characters that would end the quoted text stands in it by itself. */
  predicate Unbroken(inner: seq<Inner>, stops: string) {
    forall x :: x in inner && x.Plain? ==> x.c !in stops
  }

  lemma UnbrokenParts(inner: seq<Inner>, stops: string)
    requires inner != [] && Unbroken(inner, stops)
    ensures Unbroken(inner[1..], stops) && (inner[0].Plain? ==> inner[0].c !in stops)
  {
  }

  /** The text stands in the source at `i`. */
  predicate StandsAt(src: string, i: nat, text: string) {
    i + |text| <= |src| && src[i..i + |text|] == text
  }

  lemma StandsInTwo(src: string, i: nat, a: string, b: string)
    requires StandsAt(src, i, a + b)
    ensures StandsAt(src, i, a) && StandsAt(src, i + |a|, b)
  {
    assert (a + b)[..|a|] == a && (a + b)[|a|..] == b;
    assert src[i..i + |a + b|][..|a|] == src[i..i + |a|];
    assert src[i..i + |a + b|][|a|..] == src[i + |a|..i + |a| + |b|];
  }

  lemma StandingCharacter(src: string, i: nat, text: string, k: nat)
    requires StandsAt(src, i, text) && k < |text|
    ensures src[i + k] == text[k]
  {
    assert src[i..i + |text|][k] == src[i + k];
  }

  lemma StandsInside(src: string, i: nat, text: string)
    requires StandsAt(src, i, text)
    ensures i + |text| <= |src|
  {
  }

  lemma QuotedTextStands(src: string, i: nat, open: string, s: string, close: string)
    requires StandsAt(src, i, open + s + close)
    ensures StandsAt(src, i, open) && StandsAt(src, i + |open|, s) && StandsAt(src, i + |open| + |s|, close)
    ensures i + |open| + |s| + |close| <= |src|
    ensures |close| == 1 ==> src[i + |open| + |s|] == close[0]
  {
    StandsInTwo(src, i, open + s, close);
    StandsInTwo(src, i, open, s);
    if |close| == 1 {
      StandingCharacter(src, i + |open| + |s|, close, 0);
    }
  }
}
