/** Outcomes shared by every component: an optional value, and a value or an error. */
module Prelude {
  datatype Option<+T> = None | Some(value: T)

  datatype Result<+T, +E> = Ok(value: T) | Err(error: E)
}

/** The text helpers the Python sources lean on: white space, stripping, lines. */
module Text {

  /** `str.isspace` on the characters below U+0100. */
  predicate IsSpace(c: char) {
    c == ' ' || '\t' <= c <= '\r' || 0x1c <= c as int <= 0x1f
    || c as int == 0x85 || c as int == 0xa0
  }

  predicate Blank(s: string) {
    forall i :: 0 <= i < |s| ==> IsSpace(s[i])
  }

  function TrimStart(s: string): string {
    if s != "" && IsSpace(s[0]) then TrimStart(s[1..]) else s
  }

  function TrimEnd(s: string): string {
    if s != "" && IsSpace(s[|s| - 1]) then TrimEnd(s[..|s| - 1]) else s
  }

  function Strip(s: string): string {
    TrimEnd(TrimStart(s))
  }

  lemma TrimmedEnds(s: string)
    ensures var t := TrimStart(s); t == "" || !IsSpace(t[0])
    ensures var t := TrimEnd(s); t == "" || !IsSpace(t[|t| - 1])
    ensures var t := TrimEnd(s); t <= s
  {
  }

  lemma StripIsStable(s: string)
    ensures Strip(Strip(s)) == Strip(s)
  {
    TrimmedEnds(s);
    TrimmedEnds(TrimStart(s));
  }

  lemma {:induction false} TrimStartLaw(blanks: string, t: string)
    requires Blank(blanks) && (t == "" || !IsSpace(t[0]))
    ensures TrimStart(blanks + t) == t
    decreases |blanks|
  {
    if blanks == "" {
      assert blanks + t == t;
    } else {
      assert (blanks + t)[1..] == blanks[1..] + t;
      TrimStartLaw(blanks[1..], t);
    }
  }

  lemma {:induction false} TrimEndLaw(t: string, blanks: string)
    requires Blank(blanks) && (t == "" || !IsSpace(t[|t| - 1]))
    ensures TrimEnd(t + blanks) == t
    decreases |blanks|
  {
    if blanks == "" {
      assert t + blanks == t;
    } else {
      var front := blanks[..|blanks| - 1];
      assert (t + blanks)[..|t + blanks| - 1] == t + front;
      TrimEndLaw(t, front);
    }
  }

  /** Stripping leaves what stands between blanks. */
  lemma StripLaw(before: string, t: string, after: string)
    requires Blank(before) && Blank(after) && (t == "" || (!IsSpace(t[0]) && !IsSpace(t[|t| - 1])))
    ensures Strip(before + t + after) == t
  {
    hide IsSpace;
    if t == "" {
      var all := before + after;
      assert before + t + after == all + "";
      assert Blank(all) by {
        assert forall i :: 0 <= i < |all| ==> all[i] == if i < |before| then before[i] else after[i - |before|];
      }
      TrimStartLaw(all, "");
      assert TrimEnd("") == "";
    } else {
      assert before + t + after == before + (t + after);
      TrimStartLaw(before, t + after);
      TrimEndLaw(t, after);
    }
  }
}
