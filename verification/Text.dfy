/** Python string operations that several components share. */
module Text {

  /** `s.replace(what, with)`: left to right, non-overlapping, and never looking again at what
      was put in. */
  function ReplaceAll(s: string, what: string, with: string): string
    requires what != ""
    decreases |s|
  {
    if |s| < |what| then s
    else if s[..|what|] == what then with + ReplaceAll(s[|what|..], what, with)
    else [s[0]] + ReplaceAll(s[1..], what, with)
  }

  /** A position where `what` does not start is copied. */
  lemma ReplaceSkip(s: string, what: string, with: string)
    requires what != "" && s != "" && !(what <= s)
    ensures ReplaceAll(s, what, with) == [s[0]] + ReplaceAll(s[1..], what, with)
  {
    if |s| < |what| { assert s == [s[0]] + s[1..]; }
  }

  lemma ReplaceHit(what: string, rest: string, with: string)
    requires what != ""
    ensures ReplaceAll(what + rest, what, with) == with + ReplaceAll(rest, what, with)
  {
    assert (what + rest)[..|what|] == what && (what + rest)[|what|..] == rest;
  }

  predicate Contains(s: string, part: string) {
    part <= s || (s != "" && Contains(s[1..], part))
  }

  lemma {:induction false} ReplaceAbsent(s: string, what: string, with: string)
    requires what != "" && !Contains(s, what)
    ensures ReplaceAll(s, what, with) == s
    decreases |s|
  {
    if |s| >= |what| {
      ReplaceAbsent(s[1..], what, with);
    }
  }

  /** `n` copies of one character. */
  function Repeat(c: char, n: nat): string {
    seq(n, _ => c)
  }
}
