/** The text half of `escape_message` in
    neuro_san/internals/chat/chat_history_message_processor.py: four replacements in a row that
    leave every brace escaped, whether or not it already was. */
module BraceEscaping {
  import opened Text
  import opened Wrappers

  /** First halve the braces that are already doubled. */
  function Undouble(text: string): string {
    ReplaceAll(ReplaceAll(text, "{{", "{"), "}}", "}")
  }

  /** Then double every brace that is left. */
  function EscapeText(text: string): string {
    ReplaceAll(ReplaceAll(Undouble(text), "{", "{{"), "}", "}}")
  }

  predicate IsBrace(c: char) {
    c == '{' || c == '}'
  }

  // ---------- Maximal runs of equal characters ----------

  function RunLength(s: string): (n: nat)
    ensures n <= |s| && (s != "" ==> n > 0)
    ensures forall i :: 0 <= i < n ==> s[i] == s[0]
    ensures n < |s| ==> s[n] != s[0]
  {
    if s == "" then 0
    else if |s| > 1 && s[1] == s[0] then 1 + RunLength(s[1..])
    else 1
  }

  /** `s` with the length `n` of every maximal run of a character `c` changed to `f(c, n)`. */
  function MapRuns(s: string, f: (char, nat) -> nat): string
    decreases |s|
  {
    if s == "" then ""
    else Repeat(s[0], f(s[0], RunLength(s))) + MapRuns(s[RunLength(s)..], f)
  }

  ghost predicate KeepsRuns(f: (char, nat) -> nat) {
    forall c, n :: n > 0 ==> f(c, n) > 0
  }

  ghost predicate SameOnRuns(f: (char, nat) -> nat, g: (char, nat) -> nat) {
    forall c, n :: n > 0 ==> f(c, n) == g(c, n)
  }

  lemma {:induction false} SplitRun(s: string)
    requires s != ""
    ensures s == Repeat(s[0], RunLength(s)) + s[RunLength(s)..]
    ensures s[RunLength(s)..] == "" || s[RunLength(s)..][0] != s[0]
  {
  }

  lemma RunOfRepeat(c: char, n: nat, rest: string)
    requires n > 0 && (rest == "" || rest[0] != c)
    ensures RunLength(Repeat(c, n) + rest) == n
    ensures (Repeat(c, n) + rest)[0] == c && (Repeat(c, n) + rest)[n..] == rest
  {
    var s := Repeat(c, n) + rest;
    var k := RunLength(s);
    assert forall j :: 0 <= j < n ==> s[j] == c;
    assert n < |s| ==> s[n] != c;
  }

  /** The changed text has a run for every run of the original, in the same order. */
  lemma MapRunsHead(s: string, f: (char, nat) -> nat)
    requires s != "" && KeepsRuns(f)
    ensures var r := MapRuns(s, f); var n := RunLength(s);
            r != "" && r[0] == s[0] && RunLength(r) == f(s[0], n) && r[RunLength(r)..] == MapRuns(s[n..], f)
    decreases |s|
  {
    var n := RunLength(s);
    SplitRun(s);
    if s[n..] != "" { MapRunsHead(s[n..], f); }
    RunOfRepeat(s[0], f(s[0], n), MapRuns(s[n..], f));
  }

  lemma {:induction false} MapRunsCompose(s: string, f: (char, nat) -> nat, g: (char, nat) -> nat,
      h: (char, nat) -> nat)
    requires KeepsRuns(f) && forall c, n :: n > 0 ==> h(c, n) == g(c, f(c, n))
    ensures MapRuns(MapRuns(s, f), g) == MapRuns(s, h)
    decreases |s|
  {
    if s == "" {
    } else {
      MapRunsHead(s, f);
      MapRunsCompose(s[RunLength(s)..], f, g, h);
    }
  }

  lemma {:induction false} MapRunsSame(s: string, f: (char, nat) -> nat, g: (char, nat) -> nat)
    requires SameOnRuns(f, g)
    ensures MapRuns(s, f) == MapRuns(s, g)
    decreases |s|
  {
    if s == "" {
    } else {
      MapRunsSame(s[RunLength(s)..], f, g);
    }
  }

  /** No brace stands next to an equal one. */
  predicate NoDoubledBrace(s: string) {
    forall i :: 0 < i < |s| && IsBrace(s[i]) ==> s[i - 1] != s[i]
  }

  // ---------- The four replacements as changes of run lengths ----------

  function Halve(c: char): (char, nat) -> nat {
    (d, n) => if d == c then (n + 1) / 2 else n
  }

  function Double(c: char): (char, nat) -> nat {
    (d, n) => if d == c then 2 * n else n
  }

  function HalveBraces(c: char, n: nat): nat {
    if IsBrace(c) then (n + 1) / 2 else n
  }

  function EvenBraces(c: char, n: nat): nat {
    if IsBrace(c) then 2 * ((n + 1) / 2) else n
  }

  lemma {:induction false} ReplaceInRun(c: char, n: nat, rest: string, what: string, with: string)
    requires what != "" && what[0] != c
    ensures ReplaceAll(Repeat(c, n) + rest, what, with) == Repeat(c, n) + ReplaceAll(rest, what, with)
  {
    var s := Repeat(c, n) + rest;
    if n == 0 {
      assert s == rest;
    } else {
      assert s[1..] == Repeat(c, n - 1) + rest;
      ReplaceSkip(s, what, with);
      ReplaceInRun(c, n - 1, rest, what, with);
      assert [c] + (Repeat(c, n - 1) + ReplaceAll(rest, what, with)) == Repeat(c, n) + ReplaceAll(rest, what, with);
    }
  }

  lemma RepeatMore(c: char, n: nat, rest: string)
    ensures Repeat(c, n + 1) + rest == [c] + (Repeat(c, n) + rest)
  {
  }

  lemma HalvePair(c: char, n: nat, rest: string)
    requires n >= 2
    ensures ReplaceAll(Repeat(c, n) + rest, [c, c], [c]) == [c] + ReplaceAll(Repeat(c, n - 2) + rest, [c, c], [c])
  {
    var tail := Repeat(c, n - 2) + rest;
    RepeatMore(c, n - 1, rest);
    RepeatMore(c, n - 2, rest);
    assert [c] + ([c] + tail) == [c, c] + tail;
    ReplaceHit([c, c], tail, [c]);
  }

  lemma HalveSingle(c: char, rest: string)
    requires rest == "" || rest[0] != c
    ensures ReplaceAll([c] + rest, [c, c], [c]) == [c] + ReplaceAll(rest, [c, c], [c])
  {
    var s := [c] + rest;
    assert s[1..] == rest && s[0] == c;
    if |rest| > 0 { assert s[1] == rest[0] && [c, c][1] == c; }
    ReplaceSkip(s, [c, c], [c]);
  }

  lemma {:induction false} HalveOneRun(c: char, n: nat, rest: string)
    requires rest == "" || rest[0] != c
    ensures ReplaceAll(Repeat(c, n) + rest, [c, c], [c]) == Repeat(c, (n + 1) / 2) + ReplaceAll(rest, [c, c], [c])
  {
    var halved := ReplaceAll(rest, [c, c], [c]);
    if n == 0 {
      assert Repeat(c, 0) + rest == rest && Repeat(c, 0) + halved == halved;
    } else if n == 1 {
      assert Repeat(c, 1) == [c];
      HalveSingle(c, rest);
    } else {
      HalvePair(c, n, rest);
      HalveOneRun(c, n - 2, rest);
      RepeatMore(c, (n - 1) / 2, halved);
      assert (n - 1) / 2 + 1 == (n + 1) / 2;
    }
  }

  lemma {:induction false} DoubleOneRun(c: char, n: nat, rest: string)
    ensures ReplaceAll(Repeat(c, n) + rest, [c], [c, c]) == Repeat(c, 2 * n) + ReplaceAll(rest, [c], [c, c])
  {
    var s := Repeat(c, n) + rest;
    if n == 0 {
      assert s == rest;
    } else {
      assert s[..1] == [c] && s[1..] == Repeat(c, n - 1) + rest;
      DoubleOneRun(c, n - 1, rest);
      assert [c, c] + Repeat(c, 2 * (n - 1)) == Repeat(c, 2 * n);
    }
  }

  lemma {:induction false} HalvingIsMapRuns(s: string, c: char)
    ensures ReplaceAll(s, [c, c], [c]) == MapRuns(s, Halve(c))
    decreases |s|
  {
    if s == "" {
    } else {
      var n := RunLength(s);
      SplitRun(s);
      HalvingIsMapRuns(s[n..], c);
      if s[0] == c { HalveOneRun(c, n, s[n..]); } else { ReplaceInRun(s[0], n, s[n..], [c, c], [c]); }
    }
  }

  lemma {:induction false} DoublingIsMapRuns(s: string, c: char)
    ensures ReplaceAll(s, [c], [c, c]) == MapRuns(s, Double(c))
    decreases |s|
  {
    if s == "" {
    } else {
      var n := RunLength(s);
      SplitRun(s);
      DoublingIsMapRuns(s[n..], c);
      if s[0] == c { DoubleOneRun(c, n, s[n..]); } else { ReplaceInRun(s[0], n, s[n..], [c], [c, c]); }
    }
  }

  // ---------- What escaping does ----------

  /** Undoubling halves every run of equal braces, rounding up, and touches nothing else. */
  lemma UndoubleHalvesRuns(s: string)
    ensures Undouble(s) == MapRuns(s, HalveBraces)
  {
    HalvingIsMapRuns(s, '{');
    HalvingIsMapRuns(MapRuns(s, Halve('{')), '}');
    MapRunsCompose(s, Halve('{'), Halve('}'), HalveBraces);
  }

  /** Escaping turns a run of n equal braces into the next even number of them and leaves all
      other characters where they are. */
  lemma EscapeEvensRuns(s: string)
    ensures EscapeText(s) == MapRuns(s, EvenBraces)
  {
    UndoubleHalvesRuns(s);
    var halved := MapRuns(s, HalveBraces);
    DoublingIsMapRuns(halved, '{');
    DoublingIsMapRuns(MapRuns(halved, Double('{')), '}');
    var both := (c: char, n: nat) => if IsBrace(c) then 2 * n else n;
    MapRunsCompose(halved, Double('{'), Double('}'), both);
    MapRunsCompose(s, HalveBraces, both, EvenBraces);
  }

  lemma EscapeIsIdempotent(s: string)
    ensures EscapeText(EscapeText(s)) == EscapeText(s)
  {
    EscapeEvensRuns(s);
    EscapeEvensRuns(EscapeText(s));
    MapRunsCompose(s, EvenBraces, EvenBraces, EvenBraces);
  }

  lemma UndoubleAfterEscape(s: string)
    ensures Undouble(EscapeText(s)) == Undouble(s)
  {
    EscapeEvensRuns(s);
    UndoubleHalvesRuns(s);
    UndoubleHalvesRuns(EscapeText(s));
    MapRunsCompose(s, EvenBraces, HalveBraces, HalveBraces);
  }

  /** Doubled braces can be looked for run by run. */
  lemma NoDoubledByRuns(s: string)
    requires s != ""
    ensures NoDoubledBrace(s) <==> (IsBrace(s[0]) ==> RunLength(s) == 1) && NoDoubledBrace(s[RunLength(s)..])
  {
    var n := RunLength(s);
    var rest := s[n..];
    assert forall i :: 0 <= i < |rest| ==> rest[i] == s[n + i];
    if NoDoubledBrace(s) {
      assert n > 1 ==> s[1] == s[0];
    }
  }

  lemma SameRuns(s: string, t: string)
    requires s != "" && t != ""
    ensures s == t <==> s[0] == t[0] && RunLength(s) == RunLength(t) && s[RunLength(s)..] == t[RunLength(t)..]
  {
    SplitRun(s);
    SplitRun(t);
  }

  lemma {:induction false} HalvingFixes(s: string)
    ensures MapRuns(s, HalveBraces) == s <==> NoDoubledBrace(s)
    decreases |s|
  {
    if s == "" {
    } else {
      HalvingFixes(s[RunLength(s)..]);
      MapRunsHead(s, HalveBraces);
      NoDoubledByRuns(s);
      SameRuns(MapRuns(s, HalveBraces), s);
    }
  }

  /** Escaping can be undone exactly on the texts that had no doubled brace. */
  lemma EscapeIsReversible(s: string)
    ensures Undouble(EscapeText(s)) == s <==> NoDoubledBrace(s)
  {
    UndoubleAfterEscape(s);
    UndoubleHalvesRuns(s);
    HalvingFixes(s);
  }

  /** Two texts are escaped alike exactly when they are the same text up to earlier escaping. */
  lemma EscapeIdentifies(s: string, t: string)
    ensures EscapeText(s) == EscapeText(t) <==> Undouble(s) == Undouble(t)
  {
    UndoubleAfterEscape(s);
    UndoubleAfterEscape(t);
  }

  /** How a brace-style format string with no fields is read: a doubled brace is a brace, and a
      brace that is not doubled is not plain text (None). */
  function ReadFormat(s: string): Option<string> {
    if s == "" then Some("")
    else if !IsBrace(s[0]) then
      var rest := ReadFormat(s[1..]);
      if rest.None? then None else Some([s[0]] + rest.value)
    else if |s| > 1 && s[1] == s[0] then
      var rest := ReadFormat(s[2..]);
      if rest.None? then None else Some([s[0]] + rest.value)
    else None
  }

  lemma ReadPlainChar(c: char, rest: string)
    requires !IsBrace(c) && ReadFormat(rest).Some?
    ensures ReadFormat([c] + rest) == Some([c] + ReadFormat(rest).value)
  {
    assert ([c] + rest)[1..] == rest;
  }

  lemma ReadDoubledBrace(c: char, rest: string)
    requires IsBrace(c) && ReadFormat(rest).Some?
    ensures ReadFormat([c] + ([c] + rest)) == Some([c] + ReadFormat(rest).value)
  {
    var s := [c] + ([c] + rest);
    assert |s| == |rest| + 2 && s[0] == c && s[1] == c;
    assert s[2..] == rest;
  }

  lemma {:induction false} ReadRun(c: char, n: nat, rest: string)
    requires IsBrace(c) ==> n % 2 == 0
    requires ReadFormat(rest).Some?
    ensures ReadFormat(Repeat(c, n) + rest) == Some(Repeat(c, if IsBrace(c) then n / 2 else n) + ReadFormat(rest).value)
  {
    var read := ReadFormat(rest).value;
    if n == 0 {
      assert Repeat(c, 0) + rest == rest && Repeat(c, 0) + read == read;
    } else if IsBrace(c) {
      ReadRun(c, n - 2, rest);
      RepeatMore(c, n - 1, rest);
      RepeatMore(c, n - 2, rest);
      ReadDoubledBrace(c, Repeat(c, n - 2) + rest);
      RepeatMore(c, n / 2 - 1, read);
    } else {
      ReadRun(c, n - 1, rest);
      RepeatMore(c, n - 1, rest);
      ReadPlainChar(c, Repeat(c, n - 1) + rest);
      RepeatMore(c, n - 1, read);
    }
  }

  lemma EvenIsTwiceHalf(c: char, n: nat)
    ensures IsBrace(c) ==> EvenBraces(c, n) % 2 == 0
    ensures HalveBraces(c, n) == if IsBrace(c) then EvenBraces(c, n) / 2 else EvenBraces(c, n)
  {
  }

  lemma {:induction false} ReadEvenRuns(s: string)
    ensures ReadFormat(MapRuns(s, EvenBraces)) == Some(MapRuns(s, HalveBraces))
    decreases |s|
  {
    if s == "" {
    } else {
      var c, n := s[0], RunLength(s);
      var rest := MapRuns(s[n..], EvenBraces);
      ReadEvenRuns(s[n..]);
      EvenIsTwiceHalf(c, n);
      ReadRun(c, EvenBraces(c, n), rest);
      assert MapRuns(s, EvenBraces) == Repeat(c, EvenBraces(c, n)) + rest;
      assert MapRuns(s, HalveBraces) == Repeat(c, HalveBraces(c, n)) + MapRuns(s[n..], HalveBraces);
    }
  }

  /** The point of escaping: read back as a format string, the text has no field and no stray
      brace, and gives the undoubled text. */
  lemma EscapedTextReadsBack(s: string)
    ensures ReadFormat(EscapeText(s)) == Some(Undouble(s))
  {
    EscapeEvensRuns(s);
    UndoubleHalvesRuns(s);
    ReadEvenRuns(s);
  }
}
