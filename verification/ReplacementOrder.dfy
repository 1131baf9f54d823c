/** The replacement loop of neuro_san/internals/graph/filters/string_common_defs_config_filter.py on
    arbitrary texts, with braces anywhere: when the order of the definitions matters. Keys and
    definitions have no braces here; definitions with holes are the subject of StringReplacement. */
module ReplacementOrder {
  import opened Wrappers
  import opened Text
  import opened ConfigTree
  import opened StringReplacement

  ghost predicate PlainDefs(reps: seq<Entry>) {
    forall e :: e in reps && Usable(e) ==> BraceFree(e.key) && BraceFree(e.value.s)
  }

  /** The text of one definition occurs in the key of another. */
  predicate Clash(e: Entry, d: Entry) {
    Usable(e) && Usable(d) && e.key != d.key && Contains(d.key, e.value.s)
  }

  ghost predicate NoClash(reps: seq<Entry>) {
    forall e, d :: e in reps && d in reps ==> !Clash(e, d)
  }

  /** Every order of the entries gives every text, template or not, the same result. */
  ghost predicate AnyOrderSame(reps: seq<Entry>) {
    forall p, s :: SameResult(reps, p, s)
  }

  predicate SameResult(reps: seq<Entry>, p: seq<Entry>, s: string) {
    Reorders(p, reps) ==> InSequence(s, p) == InSequence(s, reps)
  }

  // ---------- Two definitions that do not clash commute ----------

  lemma StepIsReplace(s: string, e: Entry)
    requires Usable(e)
    ensures Step(s, e) == ReplaceAll(s, Braced(e.key), e.value.s)
  {
    if !Contains(s, e.key) {
      if Contains(s, Braced(e.key)) { ContainsBraced(s, e.key); }
      ReplaceAbsent(s, Braced(e.key), e.value.s);
    }
  }

  lemma {:induction false} ContainsInside(before: string, part: string, after: string)
    ensures Contains(before + part + after, part)
    decreases |before|
  {
    var s := before + part + after;
    if before == "" {
      assert s[..|part|] == part;
    } else {
      assert s[1..] == before[1..] + part + after;
      ContainsInside(before[1..], part, after);
    }
  }

  lemma {:induction false} ContainsSplits(s: string, part: string) returns (before: string, after: string)
    requires Contains(s, part)
    ensures s == before + part + after
  {
    if part <= s {
      before, after := "", s[|part|..];
    } else {
      before, after := ContainsSplits(s[1..], part);
      before := [s[0]] + before;
    }
  }

  /** A brace-free text that is put in front cannot reach beyond a closing brace. */
  lemma FrontIsInside(x: string, with: string, rest: string)
    requires BraceFree(x) && BraceFree(with) && x + "}" <= with + rest
    ensures Contains(x, with)
  {
    var s := with + rest;
    assert s[|x|] == (x + "}")[|x|] == '}';
    assert forall i :: 0 <= i < |with| ==> s[i] == with[i] && with[i] in with;
    assert x[..|with|] == with by {
      assert forall i :: 0 <= i < |with| ==> x[i] == (x + "}")[i] == s[i] == with[i];
    }
  }

  /** What closes a hole after a replacement closed it before, unless the text that was put in is
      part of it. */
  lemma {:induction false} ClosedBefore(t: string, key: string, with: string, x: string)
    requires BraceFree(key) && BraceFree(with) && BraceFree(x)
    requires x + "}" <= ReplaceAll(t, Braced(key), with)
    ensures x + "}" <= t || Contains(x, with)
    decreases |t|
  {
    var what := Braced(key);
    if what <= t {
      var rest := t[|what|..];
      assert t == what + rest;
      ReplaceHit(what, rest, with);
      FrontIsInside(x, with, ReplaceAll(rest, what, with));
    } else if t != "" {
      ReplaceSkip(t, what, with);
      if x == "" {
        FirstIs("}", t[0], ReplaceAll(t[1..], what, with));
        assert "" + "}" == "}" && t == [t[0]] + t[1..];
      } else {
        var tail := ReplaceAll(t[1..], what, with);
        DropFirst(x, t[0], tail);
        assert BraceFree(x[1..]) by { assert forall c :: c in x[1..] ==> c in x; }
        ClosedBefore(t[1..], key, with, x[1..]);
        if x[1..] + "}" <= t[1..] {
          assert t == [t[0]] + t[1..] && x + "}" == [x[0]] + (x[1..] + "}");
        }
      }
    }
  }

  lemma DropFirst(x: string, c: char, tail: string)
    requires x != "" && x + "}" <= [c] + tail
    ensures x[0] == c && x[1..] + "}" <= tail
  {
    var s := [c] + tail;
    assert (x + "}")[0] == x[0] && s[0] == c;
    assert (x + "}")[1..] == x[1..] + "}" && s[1..] == tail;
    assert s[..|x| + 1] == x + "}";
    assert tail[..|x|] == s[1..|x| + 1] == (x + "}")[1..];
  }

  lemma FirstIs(s: string, c: char, tail: string)
    requires s != "" && s <= [c] + tail
    ensures s[0] == c
  {
    assert s[0] == ([c] + tail)[0];
  }

  lemma HoleOpens(c: char, name: string, t: string)
    ensures Braced(name) <= [c] + t <==> c == '{' && name + "}" <= t
  {
    var what, s := Braced(name), [c] + t;
    assert what == ['{'] + (name + "}") && what[1..] == name + "}" && s[1..] == t;
    if what <= s {
      FirstIs(what, c, t);
      assert s[..|what|] == what;
      assert t[..|name| + 1] == s[1..|name| + 2] == what[1..];
    }
    if c == '{' && name + "}" <= t {
      assert t == name + "}" + t[|name| + 1..];
      assert s == what + t[|name| + 1..];
    }
  }

  /** Replacing one key opens no hole for the other. */
  lemma NoNewHole(c: char, t: string, key: string, with: string, other: string)
    requires BraceFree(key) && BraceFree(with) && BraceFree(other) && !Contains(other, with)
    requires !(Braced(other) <= [c] + t)
    ensures !(Braced(other) <= [c] + ReplaceAll(t, Braced(key), with))
  {
    var tail := ReplaceAll(t, Braced(key), with);
    HoleOpens(c, other, tail);
    HoleOpens(c, other, t);
    if other + "}" <= tail { ClosedBefore(t, key, with, other); }
  }

  /** The hole of the first of two definitions at the front of a text. */
  lemma HoleInFront(rest: string, e: Entry, d: Entry)
    requires Usable(e) && Usable(d) && e.key != d.key && BraceFree(e.key) && BraceFree(d.key) && BraceFree(e.value.s)
    ensures var s := Braced(e.key) + rest;
            && Step(Step(s, e), d) == e.value.s + Step(Step(rest, e), d)
            && Step(Step(s, d), e) == e.value.s + Step(Step(rest, d), e)
  {
    var s := Braced(e.key) + rest;
    StepIsReplace(s, e);
    StepIsReplace(rest, e);
    ReplaceHit(Braced(e.key), rest, e.value.s);
    StepIsReplace(e.value.s + Step(rest, e), d);
    StepIsReplace(Step(rest, e), d);
    ReplacePlain(e.value.s, Step(rest, e), Braced(d.key), d.value.s);

    StepIsReplace(s, d);
    StepIsReplace(rest, d);
    ReplaceOtherHole(e.key, rest, d.key, d.value.s);
    StepIsReplace(Braced(e.key) + Step(rest, d), e);
    StepIsReplace(Step(rest, d), e);
    ReplaceHit(Braced(e.key), Step(rest, d), e.value.s);
  }

  /** A character that starts neither hole. */
  lemma PlainInFront(c: char, t: string, e: Entry, d: Entry)
    requires Usable(e) && Usable(d) && BraceFree(e.key) && BraceFree(d.key) && BraceFree(e.value.s)
    requires !Contains(d.key, e.value.s)
    requires !(Braced(e.key) <= [c] + t) && !(Braced(d.key) <= [c] + t)
    ensures Step(Step([c] + t, e), d) == [c] + Step(Step(t, e), d)
  {
    var s := [c] + t;
    assert s[1..] == t;
    StepIsReplace(s, e);
    StepIsReplace(t, e);
    ReplaceSkip(s, Braced(e.key), e.value.s);
    var s' := [c] + Step(t, e);
    assert s'[1..] == Step(t, e);
    NoNewHole(c, t, e.key, e.value.s, d.key);
    StepIsReplace(s', d);
    StepIsReplace(Step(t, e), d);
    ReplaceSkip(s', Braced(d.key), d.value.s);
  }

  lemma {:induction false} StepsCommute(s: string, e: Entry, d: Entry)
    requires Usable(e) && Usable(d) && e.key != d.key && !Clash(e, d) && !Clash(d, e)
    requires BraceFree(e.key) && BraceFree(d.key) && BraceFree(e.value.s) && BraceFree(d.value.s)
    ensures Step(Step(s, e), d) == Step(Step(s, d), e)
    decreases |s|
  {
    if s == "" {
      StepIsReplace(s, e);
      StepIsReplace(s, d);
    } else if Braced(e.key) <= s {
      var rest := s[|Braced(e.key)|..];
      assert s == Braced(e.key) + rest;
      HoleInFront(rest, e, d);
      StepsCommute(rest, e, d);
    } else if Braced(d.key) <= s {
      var rest := s[|Braced(d.key)|..];
      assert s == Braced(d.key) + rest;
      HoleInFront(rest, d, e);
      StepsCommute(rest, e, d);
    } else {
      assert s == [s[0]] + s[1..];
      PlainInFront(s[0], s[1..], e, d);
      PlainInFront(s[0], s[1..], d, e);
      StepsCommute(s[1..], e, d);
    }
  }

  // ---------- Then every order gives the same ----------

  lemma EntriesCommute(reps: seq<Entry>, s: string, e: Entry, d: Entry)
    requires PlainDefs(reps) && NoClash(reps) && e in reps && d in reps && (e == d || e.key != d.key)
    ensures Step(Step(s, e), d) == Step(Step(s, d), e)
  {
    if Usable(e) && Usable(d) && e != d {
      assert !Clash(e, d) && !Clash(d, e);
      StepsCommute(s, e, d);
    }
  }

  lemma InSequenceCons(s: string, e: Entry, rest: seq<Entry>)
    ensures InSequence(s, [e] + rest) == InSequence(Step(s, e), rest)
  {
    assert ([e] + rest)[1..] == rest;
  }

  /** An entry can be moved to the front. */
  lemma {:induction false} MoveToFront(reps: seq<Entry>, s: string, before: seq<Entry>, e: Entry, after: seq<Entry>)
    requires PlainDefs(reps) && NoClash(reps) && e in reps && forall d :: d in before ==> d in reps && d.key != e.key
    ensures InSequence(s, before + [e] + after) == InSequence(Step(s, e), before + after)
    decreases |before|
  {
    if before == [] {
      assert before + [e] + after == [e] + after && before + after == after;
      InSequenceCons(s, e, after);
    } else {
      var d, rest := before[0], before[1..];
      assert d in before && forall x :: x in rest ==> x in before;
      assert before + [e] + after == [d] + (rest + [e] + after) && before + after == [d] + (rest + after);
      InSequenceCons(s, d, rest + [e] + after);
      MoveToFront(reps, Step(s, d), rest, e, after);
      EntriesCommute(reps, s, e, d);
      InSequenceCons(Step(s, e), d, rest + after);
    }
  }

  lemma SubsetOf(part: seq<Entry>, reps: seq<Entry>)
    requires forall e :: e in part ==> e in reps
    ensures PlainDefs(reps) ==> PlainDefs(part)
    ensures NoClash(reps) ==> NoClash(part)
  {
  }

  lemma CountsWithout(before: seq<Entry>, e: Entry, after: seq<Entry>, rest: seq<Entry>)
    requires multiset(before + [e] + after) == multiset([e] + rest)
    ensures multiset(before + after) == multiset(rest)
  {
    CountsAdd(before + [e], after);
    CountsAdd(before, [e]);
    CountsAdd(before, after);
    CountsAdd([e], rest);
    forall x ensures multiset(before + after)[x] == multiset(rest)[x] {
      assert multiset(before + [e] + after)[x] == multiset(before)[x] + multiset([e])[x] + multiset(after)[x];
      assert multiset([e] + rest)[x] == multiset([e])[x] + multiset(rest)[x];
    }
  }

  lemma KeysWithout(reps: seq<Entry>, i: nat)
    requires i < |reps| && DistinctKeys(reps)
    ensures DistinctKeys(reps[..i] + reps[i + 1..])
    ensures forall d :: d in reps[..i] + reps[i + 1..] ==> d in reps && d.key != reps[i].key
  {
    var rest := reps[..i] + reps[i + 1..];
    assert forall k :: 0 <= k < |rest| ==> rest[k] == reps[if k < i then k else k + 1];
  }

  /** Taking the first entry of one order out of another. */
  lemma TakeOut(e: Entry, rest: seq<Entry>, reps: seq<Entry>) returns (i: nat)
    requires Reorders([e] + rest, reps) && DistinctKeys(reps)
    ensures i < |reps| && reps[i] == e && Reorders(rest, reps[..i] + reps[i + 1..])
  {
    assert ([e] + rest)[0] == e;
    assert e in multiset([e] + rest) && e in multiset(reps);
    i :| 0 <= i < |reps| && reps[i] == e;
    assert reps == reps[..i] + [e] + reps[i + 1..];
    CountsWithout(reps[..i], e, reps[i + 1..], rest);
  }

  lemma {:induction false} NoClashAnyOrder(reps: seq<Entry>, p: seq<Entry>, s: string)
    requires DistinctKeys(reps) && PlainDefs(reps) && NoClash(reps) && Reorders(p, reps)
    ensures InSequence(s, p) == InSequence(s, reps)
    decreases |p|
  {
    if p == [] {
      assert |multiset(reps)| == |reps|;
    } else {
      var e := p[0];
      assert p == [e] + p[1..];
      var i := TakeOut(e, p[1..], reps);
      var before, after := reps[..i], reps[i + 1..];
      KeysWithout(reps, i);
      assert reps == before + [e] + after;
      assert forall d :: d in before ==> d in before + after;
      InSequenceCons(s, e, p[1..]);
      MoveToFront(reps, s, before, e, after);
      SubsetOf(before + after, reps);
      NoClashAnyOrder(before + after, p[1..], Step(s, e));
    }
  }

  // ---------- And a clash shows in some text ----------

  /** The hole of `key` inside another pair of braces: "{before{key}after}". */
  function NestedHole(before: string, key: string, after: string): string {
    "{" + (before + (Braced(key) + (after + "}")))
  }

  /** Only the inner hole of such a text can be filled. */
  lemma FillNested(before: string, key: string, after: string, name: string, with: string)
    requires BraceFree(before) && BraceFree(key) && BraceFree(after) && BraceFree(name)
    ensures ReplaceAll(NestedHole(before, key, after), Braced(name), with)
         == if name == key then "{" + (before + (with + (after + "}"))) else NestedHole(before, key, after)
  {
    var what, tail := Braced(name), after + "}";
    var inner := Braced(key) + tail;
    var s := before + inner;
    NotInFront(before, inner, name);
    ReplaceSkip("{" + s, what, with);
    assert ("{" + s)[1..] == s;
    ReplacePlain(before, inner, what, with);
    ReplacePlain(after, "}", what, with);
    ReplaceAbsentClosing(name, with);
    if name == key {
      ReplaceHit(what, tail, with);
    } else {
      ReplaceOtherHole(key, tail, name, with);
    }
  }

  lemma ReplaceAbsentClosing(name: string, with: string)
    ensures ReplaceAll("}", Braced(name), with) == "}"
  {
  }

  /** A hole in front is closed before any other brace. */
  lemma HoleIsClosed(name: string, s: string)
    requires BraceFree(name)
    ensures Braced(name) <= s ==>
              |name| + 1 < |s| && s[|name| + 1] == '}' && forall i :: 0 < i <= |name| ==> s[i] != '{' && s[i] != '}'
  {
    if Braced(name) <= s {
      var what := Braced(name);
      assert forall i :: 0 <= i < |name| ==> s[i + 1] == what[i + 1] == name[i] && name[i] in name;
      assert s[|name| + 1] == what[|name| + 1] == '}';
    }
  }

  lemma NotInFront(before: string, inner: string, name: string)
    requires BraceFree(before) && BraceFree(name) && inner != "" && inner[0] == '{'
    ensures !(Braced(name) <= "{" + (before + inner))
  {
    var s := "{" + (before + inner);
    HoleIsClosed(name, s);
    assert s[|before| + 1] == '{';
    assert forall i :: 0 < i <= |before| ==> s[i] == before[i - 1] && before[i - 1] in before;
  }

  lemma StepNested(before: string, e: Entry, after: string, d: Entry)
    requires Usable(d) && BraceFree(before) && BraceFree(e.key) && BraceFree(after) && BraceFree(d.key)
    ensures Step(NestedHole(before, e.key, after), d)
         == if d.key == e.key then "{" + (before + (d.value.s + (after + "}"))) else NestedHole(before, e.key, after)
  {
    StepIsReplace(NestedHole(before, e.key, after), d);
    FillNested(before, e.key, after, d.key, d.value.s);
  }

  lemma NestedBecomesHole(before: string, middle: string, after: string)
    ensures "{" + (before + (middle + (after + "}"))) == Braced(before + middle + after)
  {
  }

  /** Where the text of one definition is part of the key of another, filling the inner hole makes
      the outer one: it is filled when the other definition comes later, and left when it came
      before. */
  lemma OrderMattersOutsideTemplates(others: seq<Entry>, e: Entry, before: string, after: string, d: Entry)
    requires Usable(e) && Usable(d) && d.key == before + e.value.s + after && e.key != d.key
    requires BraceFree(e.key) && BraceFree(d.key) && BraceFree(d.value.s)
    requires forall x :: x in others ==> x.key != e.key && (Usable(x) ==> BraceFree(x.key))
    ensures var s := NestedHole(before, e.key, after);
            && InSequence(s, others + [e, d]) == d.value.s
            && InSequence(s, others + [d, e]) == Braced(d.key) != d.value.s
  {
    var s := NestedHole(before, e.key, after);
    assert BraceFree(before) && BraceFree(after) by {
      assert forall c :: c in before || c in after ==> c in d.key;
    }
    forall x | x in others ensures Step(s, x) == s {
      if Usable(x) { StepNested(before, e, after, x); }
    }
    Unmoved(s, others);
    InSequenceAppend(s, others, [e, d]);
    InSequenceAppend(s, others, [d, e]);
    InSequenceOfTwo(s, e, d);
    InSequenceOfTwo(s, d, e);
    StepNested(before, e, after, d);
    StepNested(before, e, after, e);
    NestedBecomesHole(before, e.value.s, after);
    StepOnHole(d.key, d);
    assert Braced(d.key)[0] == '{';
  }

  lemma {:induction false} InSequenceAppend(s: string, a: seq<Entry>, b: seq<Entry>)
    ensures InSequence(s, a + b) == InSequence(InSequence(s, a), b)
    decreases |a|
  {
    if a == [] {
      assert a + b == b;
    } else {
      assert a == [a[0]] + a[1..] && a + b == [a[0]] + (a[1..] + b);
      InSequenceCons(s, a[0], a[1..] + b);
      InSequenceCons(s, a[0], a[1..]);
      InSequenceAppend(Step(s, a[0]), a[1..], b);
    }
  }

  lemma ClashShows(reps: seq<Entry>, i: nat, j: nat)
    requires DistinctKeys(reps) && PlainDefs(reps) && i < |reps| && j < |reps| && Clash(reps[i], reps[j])
    ensures !AnyOrderSame(reps)
  {
    var e, d := reps[i], reps[j];
    assert e in reps && d in reps;
    var others := PutLast(reps, i, j);
    var p, q := others + [e, d], others + [d, e];
    ReorderingKeeps(p, reps);
    OthersDiffer(others, e, d);
    forall x | x in others ensures x.key != e.key && (Usable(x) ==> BraceFree(x.key)) {
      assert x in p;
    }
    var before, after := ContainsSplits(d.key, e.value.s);
    OrderMattersOutsideTemplates(others, e, before, after, d);
    var s := NestedHole(before, e.key, after);
    assert !(SameResult(reps, p, s) && SameResult(reps, q, s));
  }

  lemma OthersDiffer(others: seq<Entry>, e: Entry, d: Entry)
    requires DistinctKeys(others + [e, d])
    ensures forall x :: x in others ==> x.key != e.key
  {
    var p := others + [e, d];
    forall x | x in others ensures x.key != e.key {
      var k :| 0 <= k < |others| && others[k] == x;
      assert p[k] == x && p[|others|] == e;
    }
  }

  /** With brace-free keys and definitions the order of the dictionary matters for no text at all
      exactly when no definition's text occurs in the key of another one. */
  lemma AnyOrderSameIff(reps: seq<Entry>)
    requires DistinctKeys(reps) && PlainDefs(reps)
    ensures AnyOrderSame(reps) <==> NoClash(reps)
  {
    if NoClash(reps) {
      forall p, s ensures SameResult(reps, p, s) {
        if Reorders(p, reps) { NoClashAnyOrder(reps, p, s); }
      }
    } else {
      var e, d :| e in reps && d in reps && Clash(e, d);
      var i :| 0 <= i < |reps| && reps[i] == e;
      var j :| 0 <= j < |reps| && reps[j] == d;
      ClashShows(reps, i, j);
    }
  }
}
