/** neuro_san/internals/graph/filters/string_common_defs_config_filter.py

    Replacing "{key}" by its definition inside a text, one dictionary entry after another. */
module StringReplacement {
  import opened Wrappers
  import opened ConfigTree
  import opened Text

  /** An entry the loop acts on: a non-empty string. The others are skipped. */
  predicate Usable(e: Entry) {
    e.value.Str? && e.value.s != ""
  }

  function Braced(name: string): string {
    "{" + name + "}"
  }

  /** One turn of the loop. */
  function Step(text: string, e: Entry): string {
    if Usable(e) && Contains(text, e.key) then ReplaceAll(text, Braced(e.key), e.value.s) else text
  }

  function InSequence(text: string, reps: seq<Entry>): string
    decreases |reps|
  {
    if reps == [] then text else InSequence(Step(text, reps[0]), reps[1..])
  }

  lemma {:induction false} InSequenceLast(text: string, reps: seq<Entry>)
    requires reps != []
    ensures InSequence(text, reps) == Step(InSequence(text, reps[..|reps| - 1]), reps[|reps| - 1])
    decreases |reps|
  {
    if |reps| > 1 {
      InSequenceLast(Step(text, reps[0]), reps[1..]);
      assert reps[1..][..|reps| - 2] == reps[..|reps| - 1][1..];
    }
  }

  lemma InSequencePrefix(text: string, reps: seq<Entry>, i: nat)
    requires i < |reps|
    ensures InSequence(text, reps[..i + 1]) == Step(InSequence(text, reps[..i]), reps[i])
  {
    assert reps[..i + 1][..i] == reps[..i];
    InSequenceLast(text, reps[..i + 1]);
  }

  /** The loop of `make_replacements` for a text. `len()` of a number raises. */
  method ReplaceInText(text: string, reps: seq<Entry>) returns (r: Option<string>)
    ensures r == if exists i :: 0 <= i < |reps| && reps[i].value.Number? then None else Some(InSequence(text, reps))
  {
    var current := text;
    for i := 0 to |reps|
      invariant forall j :: 0 <= j < i ==> !reps[j].value.Number?
      invariant current == InSequence(text, reps[..i])
    {
      InSequencePrefix(text, reps, i);
      var search, replace := reps[i].key, reps[i].value;
      if replace.Number? {
        return None;
      }
      if replace.Str? && replace.s != "" && Contains(current, search) {
        current := ReplaceAll(current, "{" + search + "}", replace.s);
      }
    }
    assert reps[..|reps|] == reps;
    r := Some(current);
  }

  // ---------- Templates: texts whose braces all belong to holes ----------

  /** How much of the start of `s` is free of braces. */
  function PlainLength(s: string): (n: nat)
    ensures n <= |s|
    ensures BraceFree(s[..n])
    ensures n < |s| ==> s[n] == '{' || s[n] == '}'
  {
    if s == "" || s[0] == '{' || s[0] == '}' then 0 else 1 + PlainLength(s[1..])
  }

  predicate BraceFree(s: string) {
    '{' !in s && '}' !in s
  }

  /** `s` starts with a hole, "{name}". */
  predicate StartsWithHole(s: string) {
    s != "" && s[0] == '{' && 1 + PlainLength(s[1..]) < |s| && s[1 + PlainLength(s[1..])] == '}'
  }

  function HoleName(s: string): string
    requires StartsWithHole(s)
  {
    s[1..][..PlainLength(s[1..])]
  }

  function AfterHole(s: string): string
    requires StartsWithHole(s)
  {
    s[PlainLength(s[1..]) + 2..]
  }

  predicate Template(s: string)
    decreases |s|
  {
    s == ""
    || (StartsWithHole(s) && Template(AfterHole(s)))
    || (s[0] != '{' && s[0] != '}' && Template(s[1..]))
  }

  predicate HasHole(s: string, name: string)
    requires Template(s)
    decreases |s|
  {
    s != "" &&
    if StartsWithHole(s) then HoleName(s) == name || HasHole(AfterHole(s), name) else HasHole(s[1..], name)
  }

  /** Fill all holes at once. */
  function Expand(s: string, fill: string -> string): string
    requires Template(s)
    decreases |s|
  {
    if s == "" then ""
    else if StartsWithHole(s) then fill(HoleName(s)) + Expand(AfterHole(s), fill)
    else [s[0]] + Expand(s[1..], fill)
  }

  lemma PlainLengthUnique(s: string, n: nat)
    requires n < |s| && BraceFree(s[..n]) && (s[n] == '{' || s[n] == '}')
    ensures PlainLength(s) == n
  {
    var k := PlainLength(s);
    assert forall i :: 0 <= i < n ==> s[i] == s[..n][i];
    assert forall i :: 0 <= i < k ==> s[i] == s[..k][i];
    assert n <= k && (k < |s| ==> k <= n);
  }

  /** What starts with a hole still does when more text follows. */
  lemma HoleAppend(s: string, t: string)
    requires StartsWithHole(s)
    ensures StartsWithHole(s + t) && HoleName(s + t) == HoleName(s) && AfterHole(s + t) == AfterHole(s) + t
  {
    var n, st := PlainLength(s[1..]), s + t;
    assert st[1..] == s[1..] + t;
    assert st[1..][..n] == s[1..][..n];
    PlainLengthUnique(st[1..], n);
  }

  lemma PlainAppend(s: string, t: string)
    requires s != "" && !StartsWithHole(s) && Template(s)
    ensures s + t != "" && !StartsWithHole(s + t) && (s + t)[0] == s[0] && (s + t)[1..] == s[1..] + t
  {
  }

  lemma {:induction false} TemplateAppend(s: string, t: string)
    requires Template(s) && Template(t)
    ensures Template(s + t) && forall n :: HasHole(s + t, n) <==> HasHole(s, n) || HasHole(t, n)
    decreases |s|
  {
    if s == "" {
      assert s + t == t;
    } else if StartsWithHole(s) {
      HoleAppend(s, t);
      TemplateAppend(AfterHole(s), t);
    } else {
      assert (s + t)[1..] == s[1..] + t;
      TemplateAppend(s[1..], t);
    }
  }

  lemma {:induction false} ExpandAppend(s: string, t: string, f: string -> string)
    requires Template(s) && Template(t) && Template(s + t)
    ensures Expand(s + t, f) == Expand(s, f) + Expand(t, f)
    decreases |s|
  {
    if s == "" {
      assert s + t == t;
    } else if StartsWithHole(s) {
      HoleAppend(s, t);
      ExpandAppend(AfterHole(s), t, f);
      Assoc(f(HoleName(s)), Expand(AfterHole(s), f), Expand(t, f));
    } else {
      PlainAppend(s, t);
      ExpandAppend(s[1..], t, f);
      Assoc([s[0]], Expand(s[1..], f), Expand(t, f));
    }
  }

  lemma BracedIsTemplate(name: string)
    requires BraceFree(name)
    ensures Template(Braced(name)) && StartsWithHole(Braced(name)) && HoleName(Braced(name)) == name &&
        AfterHole(Braced(name)) == ""
    ensures forall n :: HasHole(Braced(name), n) <==> n == name
    ensures forall f: string -> string :: Expand(Braced(name), f) == f(name)
  {
    var b := Braced(name);
    assert b[1..] == name + "}" && b[1..][..|name|] == name;
    PlainLengthUnique(b[1..], |name|);
    assert AfterHole(b) == "";
    assert forall f: string -> string :: f(name) + "" == f(name);
  }

  lemma {:induction false} BraceFreeIsTemplate(s: string)
    requires BraceFree(s)
    ensures Template(s) && forall n :: !HasHole(s, n)
  {
    if s == "" {
    } else {
      assert s[0] in s;
      assert forall c :: c in s[1..] ==> c in s;
      BraceFreeIsTemplate(s[1..]);
    }
  }

  ghost predicate FillsHoles(s: string, fill: string -> string)
    requires Template(s)
  {
    forall n :: HasHole(s, n) ==> Template(fill(n))
  }

  /** Expanding with templates gives a template, whose holes are those of the fillings, and
      expanding it again is one expansion with expanded fillings. */
  lemma {:induction false} ExpandCompose(s: string, f: string -> string, g: string -> string, h: string -> string)
    requires Template(s) && FillsHoles(s, f)
    requires forall n :: HasHole(s, n) ==> h(n) == Expand(f(n), g)
    ensures Template(Expand(s, f)) && Expand(Expand(s, f), g) == Expand(s, h)
    decreases |s|
  {
    if s == "" {
    } else if StartsWithHole(s) {
      var n, rest := HoleName(s), AfterHole(s);
      assert HasHole(s, n);
      ExpandCompose(rest, f, g, h);
      TemplateAppend(f(n), Expand(rest, f));
      ExpandAppend(f(n), Expand(rest, f), g);
    } else {
      ExpandCompose(s[1..], f, g, h);
      var r := [s[0]] + Expand(s[1..], f);
      assert r[1..] == Expand(s[1..], f);
      assert !StartsWithHole(r);
    }
  }

  lemma {:induction false} HolesAfterExpand(s: string, f: string -> string, name: string)
    requires Template(s) && FillsHoles(s, f)
    ensures Template(Expand(s, f))
    ensures HasHole(Expand(s, f), name) <==> exists n :: HasHole(s, n) && HasHole(f(n), name)
    decreases |s|
  {
    if s == "" {
    } else if StartsWithHole(s) {
      var n, rest := HoleName(s), AfterHole(s);
      assert HasHole(s, n);
      HolesAfterExpand(rest, f, name);
      TemplateAppend(f(n), Expand(rest, f));
      assert forall m :: HasHole(s, m) <==> m == n || HasHole(rest, m);
    } else {
      HolesAfterExpand(s[1..], f, name);
      var r := [s[0]] + Expand(s[1..], f);
      assert r[1..] == Expand(s[1..], f);
      assert !StartsWithHole(r);
      assert forall m :: HasHole(s, m) <==> HasHole(s[1..], m);
    }
  }

  lemma {:induction false} ExpandSame(s: string, f: string -> string, g: string -> string)
    requires Template(s) && forall n :: HasHole(s, n) ==> f(n) == g(n)
    ensures Expand(s, f) == Expand(s, g)
    decreases |s|
  {
    if s == "" {
    } else if StartsWithHole(s) {
      assert HasHole(s, HoleName(s));
      ExpandSame(AfterHole(s), f, g);
    } else {
      ExpandSame(s[1..], f, g);
    }
  }

  lemma {:induction false} ExpandNothing(s: string, f: string -> string)
    requires Template(s) && forall n :: HasHole(s, n) ==> f(n) == Braced(n)
    ensures Expand(s, f) == s
    decreases |s|
  {
    if s == "" {
    } else if StartsWithHole(s) {
      assert HasHole(s, HoleName(s));
      ExpandNothing(AfterHole(s), f);
      HoleShape(s);
    } else {
      ExpandNothing(s[1..], f);
    }
  }

  // ---------- One replacement is filling one hole ----------

  function Only(key: string, with: string): string -> string {
    n => if n == key then with else Braced(n)
  }

  lemma {:induction false} ReplacePlain(plain: string, rest: string, what: string, with: string)
    requires what != "" && what[0] == '{' && BraceFree(plain)
    ensures ReplaceAll(plain + rest, what, with) == plain + ReplaceAll(rest, what, with)
    decreases |plain|
  {
    if plain == "" {
      assert plain + rest == rest;
      assert plain + ReplaceAll(rest, what, with) == ReplaceAll(rest, what, with);
    } else {
      var c, tail := plain[0], plain[1..];
      assert plain == [c] + tail && c in plain && forall x :: x in tail ==> x in plain;
      Assoc([c], tail, rest);
      assert (plain + rest)[1..] == tail + rest && (plain + rest)[0] == c;
      ReplaceSkip(plain + rest, what, with);
      ReplacePlain(tail, rest, what, with);
      Assoc([c], tail, ReplaceAll(rest, what, with));
    }
  }

  /** A text that starts with a hole is that hole and the rest. */
  lemma HoleShape(s: string)
    requires StartsWithHole(s)
    ensures s == Braced(HoleName(s)) + AfterHole(s) && BraceFree(HoleName(s)) && |AfterHole(s)| < |s|
  {
  }

  lemma BracedTail(name: string, rest: string)
    ensures (Braced(name) + rest)[0] == '{' && (Braced(name) + rest)[1..] == name + ("}" + rest)
    ensures Braced(name) + rest == "{" + (name + ("}" + rest))
    ensures ("}" + rest)[1..] == rest
  {
  }

  lemma HoleIsKey(name: string, rest: string, key: string)
    requires BraceFree(name) && BraceFree(key) && Braced(key) <= Braced(name) + rest
    ensures key == name
  {
    var s, what := Braced(name) + rest, Braced(key);
    assert forall i :: 0 <= i < |key| ==> key[i] == what[i + 1] == s[i + 1];
    assert what[|key| + 1] == '}' == s[|key| + 1];
    assert s[|name| + 1] == '}' && forall i :: 0 <= i < |name| ==> name[i] == s[i + 1];
    assert |key| == |name|;
  }

  /** A hole with another name is passed over whole. */
  lemma ReplaceOtherHole(name: string, rest: string, key: string, with: string)
    requires BraceFree(name) && BraceFree(key) && name != key
    ensures ReplaceAll(Braced(name) + rest, Braced(key), with) == Braced(name) + ReplaceAll(rest, Braced(key), with)
  {
    var what := Braced(key);
    if what <= Braced(name) + rest { HoleIsKey(name, rest, key); }
    ReplaceSkip(Braced(name) + rest, what, with);
    BracedTail(name, rest);
    ReplacePlain(name, "}" + rest, what, with);
    ReplaceSkip("}" + rest, what, with);
    BracedTail(name, ReplaceAll(rest, what, with));
  }

  lemma {:induction false} ReplaceIsExpand(s: string, key: string, with: string)
    requires Template(s) && BraceFree(key)
    ensures ReplaceAll(s, Braced(key), with) == Expand(s, Only(key, with))
    decreases |s|
  {
    if s == "" {
    } else if StartsWithHole(s) {
      ReplaceHole(s, key, with);
      ReplaceIsExpand(AfterHole(s), key, with);
    } else {
      ReplaceSkip(s, Braced(key), with);
      ReplaceIsExpand(s[1..], key, with);
    }
  }

  lemma ReplaceHole(s: string, key: string, with: string)
    requires StartsWithHole(s) && BraceFree(key)
    ensures ReplaceAll(s, Braced(key), with) == Only(key, with)(HoleName(s))
        + ReplaceAll(AfterHole(s), Braced(key), with)
  {
    HoleShape(s);
    if HoleName(s) == key {
      ReplaceHit(Braced(key), AfterHole(s), with);
    } else {
      ReplaceOtherHole(HoleName(s), AfterHole(s), key, with);
    }
  }

  lemma {:induction false} ContainsBraced(s: string, key: string)
    requires Contains(s, Braced(key))
    ensures Contains(s, key)
  {
    if Braced(key) <= s {
      assert s[1..][..|key|] == Braced(key)[1..][..|key|] == key;
    } else {
      ContainsBraced(s[1..], key);
    }
  }

  /** The guard that looks for the bare key never changes the outcome. */
  lemma StepIsExpand(s: string, e: Entry)
    requires Template(s) && BraceFree(e.key)
    ensures Step(s, e) == if Usable(e) then Expand(s, Only(e.key, e.value.s)) else s
  {
    if Usable(e) {
      ReplaceIsExpand(s, e.key, e.value.s);
      if !Contains(s, e.key) {
        if Contains(s, Braced(e.key)) { ContainsBraced(s, e.key); }
        ReplaceAbsent(s, Braced(e.key), e.value.s);
      }
    }
  }

  // ---------- The whole loop ----------

  /** Keys have no braces, definitions are templates. */
  ghost predicate TemplateDefs(reps: seq<Entry>) {
    forall e :: e in reps && Usable(e) ==> BraceFree(e.key) && Template(e.value.s)
  }

  /** What the loop makes of one hole: the first usable definition of its name, run through the
      entries that follow that definition. */
  function Chase(reps: seq<Entry>): string -> string {
    n => ChaseHole(reps, n)
  }

  function ChaseHole(reps: seq<Entry>, name: string): string {
    if reps == [] then Braced(name)
    else if Usable(reps[0]) && reps[0].key == name then InSequence(reps[0].value.s, reps[1..])
    else ChaseHole(reps[1..], name)
  }

  lemma {:induction false} HolesAreBraceFree(s: string, n: string)
    requires Template(s) && HasHole(s, n)
    ensures BraceFree(n)
    decreases |s|
  {
    if StartsWithHole(s) {
      if HoleName(s) != n { HolesAreBraceFree(AfterHole(s), n); }
    } else {
      HolesAreBraceFree(s[1..], n);
    }
  }

  lemma OnlyFillsHoles(s: string, key: string, with: string)
    requires Template(s) && Template(with)
    ensures FillsHoles(s, Only(key, with))
  {
    forall n | HasHole(s, n) ensures Template(Only(key, with)(n)) {
      HolesAreBraceFree(s, n);
      BracedIsTemplate(n);
    }
  }

  lemma ChaseOneStep(reps: seq<Entry>, name: string)
    requires reps != [] && Usable(reps[0]) && BraceFree(name) && Template(reps[0].value.s)
    requires name == reps[0].key ==> InSequence(reps[0].value.s, reps[1..]) == Expand(reps[0].value.s, Chase(reps[1..]))
    ensures Template(Only(reps[0].key, reps[0].value.s)(name))
    ensures Chase(reps)(name) == Expand(Only(reps[0].key, reps[0].value.s)(name), Chase(reps[1..]))
  {
    BracedIsTemplate(name);
  }

  /** On templates the loop fills every hole independently of where it stands. */
  lemma {:induction false} InSequenceIsExpand(s: string, reps: seq<Entry>)
    requires Template(s) && TemplateDefs(reps)
    ensures InSequence(s, reps) == Expand(s, Chase(reps)) && Template(InSequence(s, reps))
    decreases |reps|
  {
    if reps == [] {
      ExpandNothing(s, Chase(reps));
    } else {
      var e, rest := reps[0], reps[1..];
      assert e in reps;
      if Usable(e) {
        var f := Only(e.key, e.value.s);
        StepIsExpand(s, e);
        OnlyFillsHoles(s, e.key, e.value.s);
        InSequenceIsExpand(e.value.s, rest);
        forall n | HasHole(s, n) ensures Chase(reps)(n) == Expand(f(n), Chase(rest)) {
          HolesAreBraceFree(s, n);
          ChaseOneStep(reps, n);
        }
        ExpandCompose(s, f, Chase(rest), Chase(reps));
        InSequenceIsExpand(Expand(s, f), rest);
      } else {
        InSequenceIsExpand(s, rest);
        ExpandSame(s, Chase(rest), Chase(reps));
      }
    }
  }

  /** The simultaneous expansion: the usable definition of a name as it stands in the
      dictionary, and the hole itself when there is none. */
  function Define(reps: seq<Entry>): string -> string {
    n => DefineHole(reps, n)
  }

  function DefineHole(reps: seq<Entry>, name: string): string {
    if reps == [] then Braced(name)
    else if Usable(reps[0]) && reps[0].key == name then reps[0].value.s
    else DefineHole(reps[1..], name)
  }

  predicate Defined(reps: seq<Entry>, name: string) {
    exists e :: e in reps && Usable(e) && e.key == name
  }

  lemma {:induction false} UndefinedHole(reps: seq<Entry>, name: string)
    requires !Defined(reps, name)
    ensures DefineHole(reps, name) == Braced(name) == ChaseHole(reps, name)
  {
    if reps == [] {
    } else {
      UndefinedHole(reps[1..], name);
    }
  }

  /** A template that names nothing defined goes through the loop unchanged. */
  lemma InertText(s: string, reps: seq<Entry>)
    requires Template(s) && TemplateDefs(reps) && forall n :: HasHole(s, n) ==> !Defined(reps, n)
    ensures InSequence(s, reps) == s
  {
    InSequenceIsExpand(s, reps);
    forall n | HasHole(s, n) ensures Chase(reps)(n) == Braced(n) { UndefinedHole(reps, n); }
    ExpandNothing(s, Chase(reps));
  }

  /** No definition uses a name that is itself defined. */
  ghost predicate FlatDefs(reps: seq<Entry>) {
    TemplateDefs(reps) && forall e, n :: e in reps && Usable(e) && HasHole(e.value.s, n) ==> !Defined(reps, n)
  }

  lemma {:induction false} ChaseFindsDefinition(reps: seq<Entry>, name: string)
    requires TemplateDefs(reps)
    requires forall e, n :: e in reps && Usable(e) && e.key == name && HasHole(e.value.s, n) ==> !Defined(reps, n)
    ensures ChaseHole(reps, name) == DefineHole(reps, name)
  {
    if reps == [] {
    } else {
      assert forall n :: Defined(reps[1..], n) ==> Defined(reps, n);
      if Usable(reps[0]) && reps[0].key == name {
        assert reps[0] in reps;
        InertText(reps[0].value.s, reps[1..]);
      } else {
        ChaseFindsDefinition(reps[1..], name);
      }
    }
  }

  /** With flat definitions - brace-free ones in particular - the loop is one simultaneous
      expansion of the template. */
  lemma SequentialIsSimultaneous(s: string, reps: seq<Entry>)
    requires Template(s) && FlatDefs(reps)
    ensures InSequence(s, reps) == Expand(s, Define(reps))
  {
    InSequenceIsExpand(s, reps);
    forall n | HasHole(s, n) ensures Chase(reps)(n) == Define(reps)(n) {
      ChaseFindsDefinition(reps, n);
    }
    ExpandSame(s, Chase(reps), Define(reps));
  }

  /** Definitions without braces are flat. */
  lemma BraceFreeDefsAreFlat(reps: seq<Entry>)
    requires forall e :: e in reps && Usable(e) ==> BraceFree(e.key) && BraceFree(e.value.s)
    ensures FlatDefs(reps)
  {
    forall e | e in reps && Usable(e) ensures Template(e.value.s) && forall n :: !HasHole(e.value.s, n) {
      BraceFreeIsTemplate(e.value.s);
    }
  }

  /** So the order of the dictionary does not matter: only what it defines does. */
  lemma OrderDoesNotMatter(s: string, reps: seq<Entry>, reps': seq<Entry>)
    requires Template(s) && FlatDefs(reps) && FlatDefs(reps')
    requires forall n :: DefineHole(reps, n) == DefineHole(reps', n)
    ensures InSequence(s, reps) == InSequence(s, reps')
  {
    SequentialIsSimultaneous(s, reps);
    SequentialIsSimultaneous(s, reps');
    ExpandSame(s, Define(reps), Define(reps'));
  }

  /** A Python dictionary has each key once. */
  predicate DistinctKeys(reps: seq<Entry>) {
    forall i, j :: 0 <= i < j < |reps| ==> reps[i].key != reps[j].key
  }

  /** No definition is changed by the entries that follow it. */
  ghost predicate Settled(reps: seq<Entry>) {
    forall i :: 0 <= i < |reps| && Usable(reps[i]) ==> InSequence(reps[i].value.s, reps[i + 1..]) == reps[i].value.s
  }

  ghost predicate Simultaneous(s: string, reps: seq<Entry>) {
    Template(s) ==> InSequence(s, reps) == Expand(s, Define(reps))
  }

  /** The exact condition, over all templates. */
  lemma SequentialIsSimultaneousIff(reps: seq<Entry>)
    requires TemplateDefs(reps) && DistinctKeys(reps)
    ensures (forall s :: Simultaneous(s, reps)) <==> Settled(reps)
  {
    if forall s :: Simultaneous(s, reps) {
      forall i | 0 <= i < |reps| && Usable(reps[i])
          ensures InSequence(reps[i].value.s, reps[i + 1..]) == reps[i].value.s {
        assert reps[i] in reps;
        BracedIsTemplate(reps[i].key);
        assert Simultaneous(Braced(reps[i].key), reps);
        SimultaneousIsSettled(reps, i);
      }
    }
    if Settled(reps) {
      forall s ensures Simultaneous(s, reps) {
        if Template(s) { SettledIsSimultaneous(s, reps); }
      }
    }
  }

  lemma SimultaneousIsSettled(reps: seq<Entry>, i: nat)
    requires TemplateDefs(reps) && DistinctKeys(reps)
    requires i < |reps| && Usable(reps[i]) && BraceFree(reps[i].key) && Template(Braced(reps[i].key))
    requires InSequence(Braced(reps[i].key), reps) == Expand(Braced(reps[i].key), Define(reps))
    ensures InSequence(reps[i].value.s, reps[i + 1..]) == reps[i].value.s
  {
    var key := reps[i].key;
    FindsOwnEntry(reps, i);
    BracedIsTemplate(key);
    InSequenceIsExpand(Braced(key), reps);
    assert Expand(Braced(key), Chase(reps)) == Chase(reps)(key);
    assert Expand(Braced(key), Define(reps)) == Define(reps)(key);
  }

  lemma SettledIsSimultaneous(s: string, reps: seq<Entry>)
    requires TemplateDefs(reps) && DistinctKeys(reps)
    requires Settled(reps) && Template(s)
    ensures InSequence(s, reps) == Expand(s, Define(reps))
  {
    InSequenceIsExpand(s, reps);
    forall n | HasHole(s, n) ensures Chase(reps)(n) == Define(reps)(n) {
      if Defined(reps, n) {
        var e :| e in reps && Usable(e) && e.key == n;
        var i :| 0 <= i < |reps| && reps[i] == e;
        FindsOwnEntry(reps, i);
      } else {
        UndefinedHole(reps, n);
      }
    }
    ExpandSame(s, Chase(reps), Define(reps));
  }

  lemma {:induction false} FindsOwnEntry(reps: seq<Entry>, i: nat)
    requires i < |reps| && Usable(reps[i]) && DistinctKeys(reps)
    ensures ChaseHole(reps, reps[i].key) == InSequence(reps[i].value.s, reps[i + 1..])
    ensures DefineHole(reps, reps[i].key) == reps[i].value.s
    decreases i
  {
    if i == 0 {
    } else {
      FindsOwnEntry(reps[1..], i - 1);
      assert reps[1..][i..] == reps[i + 1..];
    }
  }

  // ---------- When the order of the dictionary does not matter ----------

  predicate Reorders(p: seq<Entry>, reps: seq<Entry>) {
    multiset(p) == multiset(reps)
  }

  /** Every order of the entries gives every template the same text. */
  ghost predicate OrderIndependent(reps: seq<Entry>) {
    forall p, s :: SameText(reps, p, s)
  }

  predicate SameText(reps: seq<Entry>, p: seq<Entry>, s: string) {
    Reorders(p, reps) && Template(s) ==> InSequence(s, p) == InSequence(s, reps)
  }

  /** No definition is changed by another one. */
  predicate Independent(reps: seq<Entry>) {
    forall i, j :: 0 <= i < |reps| && 0 <= j < |reps| && i != j && Usable(reps[i]) && Usable(reps[j]) ==>
      !HasHoleOf(reps[i].value.s, reps[j].key) || reps[j].value.s == Braced(reps[j].key)
  }

  predicate HasHoleOf(s: string, name: string) {
    Template(s) && HasHole(s, name)
  }

  /** Filling a hole with a longer text makes the whole longer, with a shorter one shorter. */
  lemma {:induction false} FilledLength(s: string, name: string, with: string)
    requires Template(s)
    ensures var filled, hole := |Expand(s, Only(name, with))|, |Braced(name)|;
            && (|with| >= hole ==> filled >= |s|) && (|with| <= hole ==> filled <= |s|)
            && (HasHole(s, name) && |with| != hole ==> filled != |s|)
    decreases |s|
  {
    if s == "" {
    } else if StartsWithHole(s) {
      HoleShape(s);
      FilledLength(AfterHole(s), name, with);
    } else {
      FilledLength(s[1..], name, with);
    }
  }

  lemma {:induction false} FirstHoleIsFilled(s: string, name: string, with: string)
    requires Template(s) && HasHole(s, name) && |with| == |Braced(name)| && Expand(s, Only(name, with)) == s
    ensures with == Braced(name)
    decreases |s|
  {
    var f := Only(name, with);
    if StartsWithHole(s) {
      HoleShape(s);
      var hole, rest := Braced(HoleName(s)), AfterHole(s);
      assert |f(HoleName(s))| == |hole|;
      SameFront(f(HoleName(s)), Expand(rest, f), hole, rest);
      if HoleName(s) != name {
        FirstHoleIsFilled(rest, name, with);
      }
    } else {
      SameFront([s[0]], Expand(s[1..], f), [s[0]], s[1..]);
      FirstHoleIsFilled(s[1..], name, with);
    }
  }

  lemma SameFront(a: string, b: string, c: string, d: string)
    requires |a| == |c| && a + b == c + d
    ensures a == c && b == d
  {
    assert (a + b)[..|a|] == a && (c + d)[..|c|] == c;
    assert (a + b)[|a|..] == b && (c + d)[|c|..] == d;
  }

  /** A definition leaves a template alone exactly when the template has no hole for it, or when
      the definition stands for its own hole. */
  lemma StepChangesNothingIff(s: string, e: Entry)
    requires Template(s) && BraceFree(e.key) && Usable(e)
    ensures Step(s, e) == s <==> !HasHole(s, e.key) || e.value.s == Braced(e.key)
  {
    var key, with := e.key, e.value.s;
    StepIsExpand(s, e);
    if !HasHole(s, key) || with == Braced(key) {
      ExpandNothing(s, Only(key, with));
    } else if Expand(s, Only(key, with)) == s {
      FilledLength(s, key, with);
      FirstHoleIsFilled(s, key, with);
    }
  }

  lemma OccursOnce(reps: seq<Entry>, i: nat)
    requires DistinctKeys(reps) && i < |reps|
    ensures multiset(reps)[reps[i]] == 1
  {
    assert reps == reps[..i] + [reps[i]] + reps[i + 1..];
    assert reps[i] !in reps[..i] && reps[i] !in reps[i + 1..];
  }

  lemma OccursTwice(reps: seq<Entry>, i: nat, j: nat)
    requires i < j < |reps| && reps[i] == reps[j]
    ensures multiset(reps)[reps[i]] >= 2
  {
    assert reps == reps[..j] + reps[j..];
    assert reps[..j][i] == reps[i] && reps[j..][0] == reps[j];
    assert reps[i] in reps[..j] && reps[j] in reps[j..];
  }

  /** Another order has the same entries, and still each key once. */
  lemma ReorderingKeeps(p: seq<Entry>, reps: seq<Entry>)
    requires Reorders(p, reps) && DistinctKeys(reps)
    ensures DistinctKeys(p) && forall e :: e in p <==> e in reps
  {
    forall e ensures e in p <==> e in reps {
      assert e in p <==> e in multiset(p);
      assert e in reps <==> e in multiset(reps);
    }
    forall j, k | 0 <= j < k < |p| ensures p[j].key != p[k].key {
      assert p[j] in p && p[k] in p;
      var a :| 0 <= a < |reps| && reps[a] == p[j];
      var b :| 0 <= b < |reps| && reps[b] == p[k];
      if p[j] == p[k] {
        OccursTwice(p, j, k);
        OccursOnce(reps, a);
      }
    }
  }

  lemma {:induction false} Unmoved(s: string, reps: seq<Entry>)
    requires forall e :: e in reps ==> Step(s, e) == s
    ensures InSequence(s, reps) == s
    decreases |reps|
  {
    if reps == [] {
    } else {
      assert reps[0] in reps && forall e :: e in reps[1..] ==> e in reps;
      Unmoved(s, reps[1..]);
    }
  }

  lemma IndependentStep(reps: seq<Entry>, e: Entry, d: Entry)
    requires TemplateDefs(reps) && Independent(reps) && e in reps && d in reps && e != d && Usable(e)
    ensures Step(e.value.s, d) == e.value.s
  {
    if Usable(d) {
      var i :| 0 <= i < |reps| && reps[i] == e;
      var j :| 0 <= j < |reps| && reps[j] == d;
      StepChangesNothingIff(e.value.s, d);
    }
  }

  lemma IndependentIsSettled(p: seq<Entry>, reps: seq<Entry>)
    requires TemplateDefs(reps) && Independent(reps) && DistinctKeys(reps) && Reorders(p, reps)
    ensures Settled(p) && TemplateDefs(p) && DistinctKeys(p)
  {
    ReorderingKeeps(p, reps);
    forall i | 0 <= i < |p| && Usable(p[i]) ensures InSequence(p[i].value.s, p[i + 1..]) == p[i].value.s {
      forall d | d in p[i + 1..] ensures Step(p[i].value.s, d) == p[i].value.s {
        assert p[i] in p && d in p && d.key != p[i].key;
        IndependentStep(reps, p[i], d);
      }
      Unmoved(p[i].value.s, p[i + 1..]);
    }
  }

  /** Entries in another order define the same. */
  lemma SameDefinitions(p: seq<Entry>, reps: seq<Entry>, n: string)
    requires DistinctKeys(p) && DistinctKeys(reps) && forall e :: e in p <==> e in reps
    ensures DefineHole(p, n) == DefineHole(reps, n)
  {
    if Defined(reps, n) {
      var e :| e in reps && Usable(e) && e.key == n;
      var i :| 0 <= i < |reps| && reps[i] == e;
      var j :| 0 <= j < |p| && p[j] == e;
      FindsOwnEntry(reps, i);
      FindsOwnEntry(p, j);
    } else {
      UndefinedHole(reps, n);
      UndefinedHole(p, n);
    }
  }

  lemma IndependentOrder(p: seq<Entry>, reps: seq<Entry>, s: string)
    requires TemplateDefs(reps) && Independent(reps) && DistinctKeys(reps) && Reorders(p, reps) && Template(s)
    ensures InSequence(s, p) == InSequence(s, reps)
  {
    IndependentIsSettled(p, reps);
    IndependentIsSettled(reps, reps);
    SettledIsSimultaneous(s, p);
    SettledIsSimultaneous(s, reps);
    ReorderingKeeps(p, reps);
    forall n | HasHole(s, n) ensures Define(p)(n) == Define(reps)(n) { SameDefinitions(p, reps, n); }
    ExpandSame(s, Define(p), Define(reps));
  }

  /** What the loop makes of the hole of one of its entries. */
  lemma OwnHole(reps: seq<Entry>, i: nat)
    requires TemplateDefs(reps) && DistinctKeys(reps) && i < |reps| && Usable(reps[i])
    ensures Template(Braced(reps[i].key))
    ensures InSequence(Braced(reps[i].key), reps) == InSequence(reps[i].value.s, reps[i + 1..])
  {
    assert reps[i] in reps;
    var key := reps[i].key;
    BracedIsTemplate(key);
    InSequenceIsExpand(Braced(key), reps);
    assert Expand(Braced(key), Chase(reps)) == Chase(reps)(key);
    FindsOwnEntry(reps, i);
  }

  lemma CountsAdd(a: seq<Entry>, b: seq<Entry>)
    ensures multiset(a + b) == multiset(a) + multiset(b)
  {
  }

  lemma CountsOfFive(a: seq<Entry>, x: Entry, b: seq<Entry>, y: Entry, c: seq<Entry>)
    ensures multiset(a + [x] + b + [y] + c) == multiset(a + b + c) + multiset([x]) + multiset([y])
  {
    CountsAdd(a + [x] + b + [y], c);
    CountsAdd(a + [x] + b, [y]);
    CountsAdd(a + [x], b);
    CountsAdd(a, [x]);
    CountsAdd(a + b, c);
    CountsAdd(a, b);
  }

  lemma CountsOfLastTwo(others: seq<Entry>, x: Entry, y: Entry)
    ensures multiset(others + [x, y]) == multiset(others) + multiset([x]) + multiset([y]) == multiset(others + [y, x])
  {
    CountsAdd(others, [x, y]);
    CountsAdd([x], [y]);
    CountsAdd(others, [y, x]);
    CountsAdd([y], [x]);
    assert [x] + [y] == [x, y] && [y] + [x] == [y, x];
  }

  lemma CutInFive(reps: seq<Entry>, i: nat, j: nat)
    requires i < j < |reps|
    ensures reps == reps[..i] + [reps[i]] + reps[i + 1..j] + [reps[j]] + reps[j + 1..]
  {
  }

  /** Two entries can be put last, in either order. */
  lemma PutLast(reps: seq<Entry>, i: nat, j: nat) returns (others: seq<Entry>)
    requires i < |reps| && j < |reps| && i != j
    ensures Reorders(others + [reps[i], reps[j]], reps) && Reorders(others + [reps[j], reps[i]], reps)
    decreases i > j
  {
    if i < j {
      others := reps[..i] + reps[i + 1..j] + reps[j + 1..];
      CutInFive(reps, i, j);
      CountsOfFive(reps[..i], reps[i], reps[i + 1..j], reps[j], reps[j + 1..]);
      CountsOfLastTwo(others, reps[i], reps[j]);
    } else {
      others := PutLast(reps, j, i);
    }
  }

  lemma EndOf(others: seq<Entry>, e: Entry, d: Entry)
    ensures var p, k := others + [e, d], |others|; p[k] == e && p[k + 1] == d && p[k + 1..] == [d] && p[k + 2..] == []
  {
    var p, k := others + [e, d], |others|;
    assert |p| == k + 2 && p[k + 1..][0] == p[k + 1] == d;
  }

  lemma InSequenceOfOne(s: string, d: Entry)
    ensures InSequence(s, [d]) == Step(s, d)
  {
    assert [d][1..] == [] && InSequence(Step(s, d), []) == Step(s, d);
  }

  /** What the loop makes of the hole of the last entry but one, and of the last entry. */
  lemma LastTwo(others: seq<Entry>, e: Entry, d: Entry)
    requires TemplateDefs(others + [e, d]) && DistinctKeys(others + [e, d])
    ensures Usable(e) ==> InSequence(Braced(e.key), others + [e, d]) == Step(e.value.s, d)
    ensures Usable(d) ==> InSequence(Braced(d.key), others + [e, d]) == d.value.s
  {
    var p, k := others + [e, d], |others|;
    EndOf(others, e, d);
    if Usable(e) {
      InSequenceOfOne(e.value.s, d);
      OwnHole(p, k);
    }
    if Usable(d) { OwnHole(p, k + 1); }
  }

  lemma SameInBothOrders(reps: seq<Entry>, p: seq<Entry>, q: seq<Entry>, s: string)
    requires OrderIndependent(reps) && Reorders(p, reps) && Reorders(q, reps) && Template(s)
    ensures InSequence(s, p) == InSequence(s, q)
  {
    assert SameText(reps, p, s) && SameText(reps, q, s);
  }

  /** Put right before another entry at the end, a definition shows whether that one changes it. */
  lemma LastTwoShow(reps: seq<Entry>, others: seq<Entry>, e: Entry, d: Entry)
    requires OrderIndependent(reps) && TemplateDefs(reps) && DistinctKeys(reps) && e in reps && Usable(e)
    requires Reorders(others + [e, d], reps) && Reorders(others + [d, e], reps)
    ensures Step(e.value.s, d) == e.value.s
  {
    BracedIsTemplate(e.key);
    SameInBothOrders(reps, others + [e, d], others + [d, e], Braced(e.key));
    ReorderingKeeps(others + [e, d], reps);
    ReorderingKeeps(others + [d, e], reps);
    LastTwo(others, e, d);
    LastTwo(others, d, e);
  }

  /** The order of the dictionary does not matter, for any template, exactly when no definition has
      a hole for another one (one that stands for its own hole aside). */
  lemma OrderDoesNotMatterIff(reps: seq<Entry>)
    requires TemplateDefs(reps) && DistinctKeys(reps)
    ensures OrderIndependent(reps) <==> Independent(reps)
  {
    if Independent(reps) {
      forall p, s ensures SameText(reps, p, s) {
        if Reorders(p, reps) && Template(s) { IndependentOrder(p, reps, s); }
      }
    }
    if OrderIndependent(reps) {
      forall i, j | 0 <= i < |reps| && 0 <= j < |reps| && i != j && Usable(reps[i]) && Usable(reps[j])
        ensures !HasHoleOf(reps[i].value.s, reps[j].key) || reps[j].value.s == Braced(reps[j].key)
      {
        assert reps[i] in reps && reps[j] in reps;
        var others := PutLast(reps, i, j);
        LastTwoShow(reps, others, reps[i], reps[j]);
        StepChangesNothingIff(reps[i].value.s, reps[j]);
      }
    }
  }

  lemma StepOnHole(name: string, e: Entry)
    requires BraceFree(name) && BraceFree(e.key) && Usable(e)
    ensures Step(Braced(name), e) == if name == e.key then e.value.s else Braced(name)
  {
    BracedIsTemplate(name);
    StepIsExpand(Braced(name), e);
  }

  lemma InSequenceOfTwo(s: string, first: Entry, second: Entry)
    ensures InSequence(s, [first, second]) == Step(Step(s, first), second)
  {
    assert [first, second][1..] == [second] && [second][1..] == [];
    assert InSequence(Step(s, first), [second]) == InSequence(Step(Step(s, first), second), []);
  }

  /** Definitions that use each other: "a" stands for "{b}" and "b" for a text. The same two
      entries in the other order give another result. */
  lemma OrderMattersForNestedDefinitions(a: string, b: string, x: string)
    requires BraceFree(a) && BraceFree(b) && BraceFree(x) && a != b && x != ""
    ensures var first, second := Entry(a, Str(Braced(b))), Entry(b, Str(x));
            InSequence(Braced(a), [first, second]) == x && InSequence(Braced(a), [second, first]) == Braced(b) != x
  {
    var first, second := Entry(a, Str(Braced(b))), Entry(b, Str(x));
    StepOnHole(a, first);
    StepOnHole(b, second);
    StepOnHole(a, second);
    InSequenceOfTwo(Braced(a), first, second);
    InSequenceOfTwo(Braced(a), second, first);
    assert Braced(b)[0] == '{';
  }
}
