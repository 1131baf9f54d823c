/** neuro_san/internals/graph/filters/abstract_common_defs_config_filter.py, with the two
    `make_replacements` of its subclasses (dictionary_ and string_common_defs_config_filter.py).

    Definitions found in a config are first resolved among themselves, once, and then put into
    the "tools" of the config. */
module CommonDefsFilter {
  import opened Wrappers
  import opened ConfigTree
  import opened StringReplacement
  import opened Text

  /** Whole string leaves replaced by values, or holes inside strings replaced by texts. */
  datatype Kind = DictionaryDefs | StringDefs

  datatype Error = BadReplacement | BadCommonDefs | ToolsNotIterable

  function SectionKey(kind: Kind): string {
    if kind.DictionaryDefs? then "replacement_values" else "replacement_strings"
  }

  function ReplaceLeaf(kind: Kind, reps: seq<Entry>, s: string): Value {
    match kind
    case StringDefs => Str(InSequence(s, reps))
    case DictionaryDefs =>
      var found := Lookup(reps, s);
      if found.None? || found.value.Null? then Str(s) else found.value
  }

  function Leaf(kind: Kind, reps: seq<Entry>): string -> Value {
    s => ReplaceLeaf(kind, reps, s)
  }

  predicate HasText(v: Value) {
    match v
    case Str(_) => true
    case Dict(entries) => exists e :: e in entries && HasText(e.value)
    case List(items) => exists x :: x in items && HasText(x)
    case _ => false
  }

  /** A number among the string definitions makes every replacement in a text raise. */
  predicate Raises(kind: Kind, reps: seq<Entry>) {
    kind.StringDefs? && exists i :: 0 <= i < |reps| && reps[i].value.Number?
  }

  // ---------- The loops over a config ----------

  method MakeReplacements(kind: Kind, source: Value, reps: seq<Entry>) returns (r: Result<Value, Error>)
    ensures r == if Raises(kind, reps) && source.Str? then Failure(BadReplacement)
                 else if source.Str? then Success(ReplaceLeaf(kind, reps, source.s)) else Success(source)
  {
    if !source.Str? {
      return Success(source);
    }
    match kind
    case DictionaryDefs =>
      var found := Lookup(reps, source.s);
      if found.None? || found.value.Null? {
        return Success(source);
      }
      r := Success(found.value);
    case StringDefs =>
      var text := ReplaceInText(source.s, reps);
      if text.None? {
        return Failure(BadReplacement);
      }
      r := Success(Str(text.value));
  }

  method FilterValue(kind: Kind, v: Value, reps: seq<Entry>) returns (r: Result<Value, Error>)
    ensures r == if Raises(kind, reps) && HasText(v) then Failure(BadReplacement)
        else Success(MapLeaves(v, Leaf(kind, reps)))
    decreases v, 1
  {
    match v
    case Dict(entries) =>
      var d := FilterOneDict(kind, entries, reps);
      r := if d.Failure? then Failure(d.error) else Success(Dict(d.value));
    case List(items) =>
      var xs := FilterOneList(kind, items, reps);
      r := if xs.Failure? then Failure(xs.error) else Success(List(xs.value));
    case _ =>
      r := MakeReplacements(kind, v, reps);
  }

  method FilterOneDict(kind: Kind, source: seq<Entry>, reps: seq<Entry>) returns (r: Result<seq<Entry>, Error>)
    ensures r == if Raises(kind, reps) && HasText(Dict(source)) then Failure(BadReplacement)
                 else Success(MapEntries(source, Leaf(kind, reps)))
    decreases source, 0
  {
    ghost var target := MapEntries(source, Leaf(kind, reps));
    var newDict := source;
    for i := 0 to |source|
      invariant |newDict| == |source|
      invariant forall j :: 0 <= j < i ==> newDict[j] == target[j]
      invariant forall j :: i <= j < |source| ==> newDict[j] == source[j]
      invariant Raises(kind, reps) ==> forall j :: 0 <= j < i ==> !HasText(source[j].value)
    {
      assert source[i] in source;
      var replacement := FilterValue(kind, source[i].value, reps);
      if replacement.Failure? {
        DictHasText(source, i);
        return Failure(replacement.error);
      }
      if !replacement.value.Null? {
        newDict := newDict[i := Entry(source[i].key, replacement.value)];
      } else {
        NothingBecomesNull(kind, source[i].value, reps);
      }
    }
    assert newDict == target;
    r := Success(newDict);
    if Raises(kind, reps) { DictHasText(source, |source|); }
  }

  method FilterOneList(kind: Kind, source: seq<Value>, reps: seq<Entry>) returns (r: Result<seq<Value>, Error>)
    ensures r == if Raises(kind, reps) && HasText(List(source)) then Failure(BadReplacement)
                 else Success(MapItems(source, Leaf(kind, reps)))
    decreases source, 0
  {
    ghost var f := Leaf(kind, reps);
    var newList := [];
    for i := 0 to |source|
      invariant |newList| == i && forall j :: 0 <= j < i ==> newList[j] == MapLeaves(source[j], f)
      invariant Raises(kind, reps) ==> forall j :: 0 <= j < i ==> !HasText(source[j])
    {
      assert source[i] in source;
      var replacement := FilterValue(kind, source[i], reps);
      if replacement.Failure? {
        ListHasText(source, i);
        return Failure(replacement.error);
      }
      newList := newList + [replacement.value];
    }
    AllMapped(source, f, newList);
    r := Success(newList);
    if Raises(kind, reps) { ListHasText(source, |source|); }
  }

  lemma AllMapped(source: seq<Value>, f: string -> Value, mapped: seq<Value>)
    requires |mapped| == |source| && forall j :: 0 <= j < |source| ==> mapped[j] == MapLeaves(source[j], f)
    ensures mapped == MapItems(source, f)
  {
  }

  lemma ListHasText(source: seq<Value>, i: nat)
    requires i <= |source| && forall j :: 0 <= j < i ==> !HasText(source[j])
    ensures i < |source| && HasText(source[i]) ==> HasText(List(source))
    ensures i == |source| ==> !HasText(List(source))
  {
    if i < |source| { assert source[i] in source; }
  }

  lemma DictHasText(source: seq<Entry>, i: nat)
    requires i <= |source| && forall j :: 0 <= j < i ==> !HasText(source[j].value)
    ensures i < |source| && HasText(source[i].value) ==> HasText(Dict(source))
    ensures i == |source| ==> !HasText(Dict(source))
  {
    if i < |source| { assert source[i] in source; }
  }

  /** The guard that keeps a value when its replacement is None never drops a replacement. */
  lemma NothingBecomesNull(kind: Kind, v: Value, reps: seq<Entry>)
    ensures MapLeaves(v, Leaf(kind, reps)).Null? <==> v.Null?
  {
  }

  // ---------- One whole config ----------

  predicate Falsy(v: Value) {
    v in {Null, Number(0), Str(""), Dict([]), List([])}
  }

  /** What a Python for-loop over the value visits. */
  function Iterate(v: Option<Value>): Option<seq<Value>> {
    match v
    case Some(List(items)) => Some(items)
    case Some(Dict(entries)) => Some(seq(|entries|, i requires 0 <= i < |entries| => Str(entries[i].key)))
    case Some(Str(s)) => Some(seq(|s|, i requires 0 <= i < |s| => Str([s[i]])))
    case _ => None
  }

  function Gather(kind: Kind, starting: seq<Entry>, basis: seq<Entry>): Result<seq<Entry>, Error> {
    match Lookup(basis, "commondefs")
    case None => Success(starting)
    case Some(defs) =>
      if Falsy(defs) then Success(starting)
      else if !defs.Dict? then Failure(BadCommonDefs)
      else match Lookup(defs.entries, SectionKey(kind))
           case None => Success(starting)
           case Some(Dict(more)) => Success(Update(starting, more))
           case Some(other) => if other in {Str(""), List([])} then Success(starting) else Failure(BadCommonDefs)
  }

  /** The definitions after replacing among themselves. */
  function Resolve(kind: Kind, reps: seq<Entry>): seq<Entry> {
    MapEntries(reps, Leaf(kind, reps))
  }

  function Filtered(kind: Kind, starting: seq<Entry>, basis: seq<Entry>): Result<seq<Entry>, Error> {
    if basis == [] then Success(basis)
    else
      var gathered := Gather(kind, starting, basis);
      if gathered.Failure? || gathered.value == [] then
        if gathered.Failure? then gathered else Success(basis)
      else
        var reps := gathered.value;
        var tools := Iterate(Lookup(basis, "tools"));
        if Raises(kind, reps) && HasText(Dict(reps)) then Failure(BadReplacement)
        else if tools.None? then Failure(ToolsNotIterable)
        else if Raises(kind, Resolve(kind, reps)) && HasText(List(tools.value)) then Failure(BadReplacement)
        else Success(Put(basis, "tools", List(MapItems(tools.value, Leaf(kind, Resolve(kind, reps))))))
  }

  // ---------- What the returned config holds ----------

  /** One section of the common definitions of a config; empty when there is none. */
  function Section(basis: seq<Entry>, key: string): seq<Entry> {
    match Lookup(basis, "commondefs")
    case Some(Dict(defs)) =>
      (match Lookup(defs, key)
       case Some(Dict(more)) => more
       case _ => [])
    case _ => []
  }

  /** What a text stands for: its definition in the config, else the one to start with, else itself.
      A definition of None is no definition. */
  function StandsFor(more: seq<Entry>, starting: seq<Entry>): string -> Value {
    s => match Lookup(more, s)
         case Some(v) => if v.Null? then Str(s) else v
         case None => match Lookup(starting, s)
                      case Some(v) => if v.Null? then Str(s) else v
                      case None => Str(s)
  }

  /** What a hole of a name is filled with, likewise. Only texts that are not empty fill holes. */
  function TextFor(more: seq<Entry>, starting: seq<Entry>): string -> string {
    n => match Lookup(more, n)
         case Some(Str(t)) => if t != "" then t else "{" + n + "}"
         case Some(_) => "{" + n + "}"
         case None => match Lookup(starting, n)
                      case Some(Str(t)) => if t != "" then t else "{" + n + "}"
                      case _ => "{" + n + "}"
  }

  /** What a loop over the tools visits: the elements of a list, the keys of a dictionary, the
      characters of a text. */
  predicate Visits(tools: Value, items: seq<Value>) {
    match tools
    case List(xs) => items == xs
    case Dict(entries) => |items| == |entries| && forall i :: 0 <= i < |items| ==> items[i] == Str(entries[i].key)
    case Str(text) => |items| == |text| && forall i :: 0 <= i < |items| ==> items[i] == Str([text[i]])
    case _ => false
  }

  /** `items` are the tools of a config that has something to replace, or a list of tools. */
  predicate ToolsOf(basis: seq<Entry>, defs: seq<Entry>, items: seq<Value>) {
    match Lookup(basis, "tools")
    case Some(tools) => Visits(tools, items) && (tools.List? || (defs != [] && basis != []))
    case None => false
  }

  /** Every key but "tools" keeps its value; every text in the tools, and then every text of what
      was put in, is replaced by what the "replacement_values" of the config say. */
  ghost predicate ValuesPutIn(starting: seq<Entry>, basis: seq<Entry>, config: seq<Entry>) {
    var more := Section(basis, "replacement_values");
    var f := StandsFor(more, starting);
    && (forall k :: k != "tools" ==> Lookup(config, k) == Lookup(basis, k))
    && forall items :: ToolsOf(basis, Update(starting, more), items) ==>
         Lookup(config, "tools") == Some(MapLeaves(MapLeaves(List(items), f), f))
  }

  /** All definitions put into a text, one after the other. */
  function InTurn(defs: seq<Entry>): string -> Value {
    s => Str(InSequence(s, defs))
  }

  /** The same with the "replacement_strings" and the holes of texts: definitions are put into each
      other once, and then into the tools. For templates in two layers that fills all holes, and
      the holes of what was filled in. */
  ghost predicate StringsPutIn(starting: seq<Entry>, basis: seq<Entry>, config: seq<Entry>) {
    var more := Section(basis, "replacement_strings");
    var defs := Update(starting, more);
    && (forall k :: k != "tools" ==> Lookup(config, k) == Lookup(basis, k))
    && (forall items :: ToolsOf(basis, defs, items) ==>
          Lookup(config, "tools") == Some(MapLeaves(List(items), InTurn(MapEntries(defs, InTurn(defs))))))
    && (DistinctKeys(starting) && DistinctKeys(more) && TwoTemplateLayers(defs) ==>
          forall items :: ToolsOf(basis, defs, items) && AllTemplates(items) ==>
            Lookup(config, "tools") == Some(MapLeaves(List(items), ExpandedTwice(TextFor(more, starting)))))
  }

  ghost predicate AllTemplates(items: seq<Value>) {
    forall s :: Mentions(List(items), s) ==> Template(s)
  }

  /** All holes filled, and the holes of what was filled in filled again. */
  ghost function ExpandedTwice(f: string -> string): string -> Value {
    s => Str(if Template(s) && Template(Expand(s, f)) then Expand(Expand(s, f), f) else s)
  }

  lemma {:induction false} LookupUpdate(d: seq<Entry>, more: seq<Entry>, k: string)
    requires DistinctKeys(more)
    ensures Lookup(Update(d, more), k) == if Lookup(more, k).Some? then Lookup(more, k) else Lookup(d, k)
    decreases |more|
  {
    if more == [] {
    } else {
      LookupUpdate(Put(d, more[0].key, more[0].value), more[1..], k);
      LookupPut(d, more[0].key, more[0].value, k);
      if k == more[0].key { NotLookedUp(more[1..], k); }
    }
  }

  lemma {:induction false} NotLookedUp(d: seq<Entry>, k: string)
    requires forall e :: e in d ==> e.key != k
    ensures Lookup(d, k) == None
  {
    if d == [] {
    } else {
      assert d[0] in d;
      NotLookedUp(d[1..], k);
    }
  }

  lemma GatheredSection(kind: Kind, starting: seq<Entry>, basis: seq<Entry>)
    requires Gather(kind, starting, basis).Success?
    ensures var key := if kind.DictionaryDefs? then "replacement_values" else "replacement_strings";
            Gather(kind, starting, basis).value == Update(starting, Section(basis, key))
  {
  }

  lemma StandsForDefinition(more: seq<Entry>, starting: seq<Entry>, s: string)
    requires DistinctKeys(more)
    ensures ReplaceLeaf(DictionaryDefs, Update(starting, more), s) == StandsFor(more, starting)(s)
  {
    LookupUpdate(starting, more, s);
  }

  lemma {:induction false} DefinedByLookup(d: seq<Entry>, n: string)
    requires DistinctKeys(d)
    ensures DefineHole(d, n) == match Lookup(d, n)
                                case Some(Str(t)) => if t != "" then t else Braced(n)
                                case _ => Braced(n)
  {
    if d == [] {
    } else if d[0].key == n {
      forall e | e in d[1..] ensures e.key != n {}
      NotLookedUp(d[1..], n);
      if !Usable(d[0]) {
        DefinedByLookup(d[1..], n);
      }
    } else {
      DefinedByLookup(d[1..], n);
    }
  }

  lemma {:induction false} PutKeepsKeys(d: seq<Entry>, key: string, value: Value)
    requires DistinctKeys(d)
    ensures DistinctKeys(Put(d, key, value))
    ensures forall e :: e in Put(d, key, value) ==> e.key == key || exists x :: x in d && x.key == e.key
  {
    if d == [] {
    } else if d[0].key == key {
      assert d == [d[0]] + d[1..];
      assert forall e :: e in d[1..] ==> e in d;
    } else {
      PutKeepsKeys(d[1..], key, value);
      var rest := Put(d[1..], key, value);
      forall e | e in rest ensures e.key != d[0].key && (e.key == key || exists x :: x in d && x.key == e.key) {
        if e.key != key {
          var x :| x in d[1..] && x.key == e.key;
          assert x in d;
        }
      }
      assert d[0] in d;
      DistinctCons(d[0], rest);
    }
  }

  lemma DistinctCons(e: Entry, rest: seq<Entry>)
    requires DistinctKeys(rest) && forall x :: x in rest ==> x.key != e.key
    ensures DistinctKeys([e] + rest)
  {
    var d := [e] + rest;
    forall i, j | 0 <= i < j < |d| ensures d[i].key != d[j].key {
      assert d[j] == rest[j - 1] && d[j] in rest;
    }
  }

  lemma {:induction false} UpdateKeepsKeys(d: seq<Entry>, more: seq<Entry>)
    requires DistinctKeys(d)
    ensures DistinctKeys(Update(d, more))
    decreases |more|
  {
    if more == [] {
    } else {
      PutKeepsKeys(d, more[0].key, more[0].value);
      UpdateKeepsKeys(Put(d, more[0].key, more[0].value), more[1..]);
    }
  }

  lemma TextForDefinition(more: seq<Entry>, starting: seq<Entry>, n: string)
    requires DistinctKeys(more) && DistinctKeys(starting)
    ensures Define(Update(starting, more))(n) == TextFor(more, starting)(n)
  {
    UpdateKeepsKeys(starting, more);
    DefinedByLookup(Update(starting, more), n);
    LookupUpdate(starting, more, n);
  }

  lemma FilteredTools(kind: Kind, starting: seq<Entry>, basis: seq<Entry>, items: seq<Value>)
    requires Filtered(kind, starting, basis).Success? && Gather(kind, starting, basis).Success?
    requires ToolsOf(basis, Gather(kind, starting, basis).value, items)
    ensures var config := Filtered(kind, starting, basis).value;
            var reps := Gather(kind, starting, basis).value;
            Lookup(config, "tools") == Some(MapLeaves(List(items), Leaf(kind, Resolve(kind, reps))))
  {
    var reps := Gather(kind, starting, basis).value;
    var f := Leaf(kind, Resolve(kind, reps));
    if reps == [] {
      assert Resolve(kind, reps) == [];
      forall s | Mentions(List(items), s) ensures f(s) == Str(s) {}
      MapLeavesFixes(List(items), f);
    } else {
      assert Iterate(Lookup(basis, "tools")).value == items;
      LookupPut(basis, "tools", List(MapItems(items, f)), "tools");
    }
  }

  lemma OtherKeysStay(kind: Kind, starting: seq<Entry>, basis: seq<Entry>, k: string)
    requires Filtered(kind, starting, basis).Success? && k != "tools"
    ensures Lookup(Filtered(kind, starting, basis).value, k) == Lookup(basis, k)
  {
    if basis != [] && Gather(kind, starting, basis).Success? && Gather(kind, starting, basis).value != [] {
      var items := Iterate(Lookup(basis, "tools")).value;
      var reps := Gather(kind, starting, basis).value;
      LookupPut(basis, "tools", List(MapItems(items, Leaf(kind, Resolve(kind, reps)))), k);
    }
  }

  lemma SameLeaves(v: Value, f: string -> Value, g: string -> Value)
    requires forall s :: Mentions(v, s) ==> f(s) == g(s)
    ensures MapLeaves(v, f) == MapLeaves(v, g)
  {
    var same := (s: string) => Str(s);
    forall s | Mentions(v, s) ensures g(s) == MapLeaves(f(s), same) { MapLeavesFixes(f(s), same); }
    MapLeavesCompose(v, f, same, g);
    MapLeavesFixes(MapLeaves(v, f), same);
  }

  lemma ValuesArePutIn(starting: seq<Entry>, basis: seq<Entry>)
    requires Filtered(DictionaryDefs, starting, basis).Success? && Gather(DictionaryDefs, starting, basis).Success?
    requires DistinctKeys(Section(basis, "replacement_values"))
    ensures ValuesPutIn(starting, basis, Filtered(DictionaryDefs, starting, basis).value)
  {
    var config := Filtered(DictionaryDefs, starting, basis).value;
    var more := Section(basis, "replacement_values");
    var f := StandsFor(more, starting);
    forall k | k != "tools" ensures Lookup(config, k) == Lookup(basis, k) {
      OtherKeysStay(DictionaryDefs, starting, basis, k);
    }
    GatheredSection(DictionaryDefs, starting, basis);
    forall items | ToolsOf(basis, Update(starting, more), items)
      ensures Lookup(config, "tools") == Some(MapLeaves(MapLeaves(List(items), f), f))
    {
      FilteredTools(DictionaryDefs, starting, basis, items);
      var reps := Update(starting, more);
      ResolvedFiltersTwice(List(items), reps);
      forall s ensures Leaf(DictionaryDefs, reps)(s) == f(s) { StandsForDefinition(more, starting, s); }
      SameLeaves(List(items), Leaf(DictionaryDefs, reps), f);
      SameLeaves(MapLeaves(List(items), f), Leaf(DictionaryDefs, reps), f);
    }
  }

  lemma StringsArePutIn(starting: seq<Entry>, basis: seq<Entry>)
    requires Filtered(StringDefs, starting, basis).Success? && Gather(StringDefs, starting, basis).Success?
    ensures StringsPutIn(starting, basis, Filtered(StringDefs, starting, basis).value)
  {
    var config := Filtered(StringDefs, starting, basis).value;
    var more := Section(basis, "replacement_strings");
    var defs := Update(starting, more);
    GatheredSection(StringDefs, starting, basis);
    forall k | k != "tools" ensures Lookup(config, k) == Lookup(basis, k) {
      OtherKeysStay(StringDefs, starting, basis, k);
    }
    forall items | ToolsOf(basis, defs, items)
      ensures Lookup(config, "tools") == Some(MapLeaves(List(items), InTurn(MapEntries(defs, InTurn(defs)))))
      ensures DistinctKeys(starting) && DistinctKeys(more) && TwoTemplateLayers(defs) && AllTemplates(items) ==>
          Lookup(config, "tools") == Some(MapLeaves(List(items), ExpandedTwice(TextFor(more, starting))))
    {
      FilteredTools(StringDefs, starting, basis, items);
      ResolvedInTurn(defs);
      SameLeaves(List(items), Leaf(StringDefs, Resolve(StringDefs, defs)), InTurn(MapEntries(defs, InTurn(defs))));
      if DistinctKeys(starting) && DistinctKeys(more) && TwoTemplateLayers(defs) && AllTemplates(items) {
        TemplatesAreFilled(items, more, starting);
      }
    }
  }

  lemma ResolvedInTurn(defs: seq<Entry>)
    ensures Resolve(StringDefs, defs) == MapEntries(defs, InTurn(defs))
  {
    forall i | 0 <= i < |defs|
      ensures MapLeaves(defs[i].value, Leaf(StringDefs, defs)) == MapLeaves(defs[i].value, InTurn(defs))
    {
      SameLeaves(defs[i].value, Leaf(StringDefs, defs), InTurn(defs));
    }
  }

  lemma TemplatesAreFilled(items: seq<Value>, more: seq<Entry>, starting: seq<Entry>)
    requires AllTemplates(items) && TwoTemplateLayers(Update(starting, more))
    requires DistinctKeys(starting) && DistinctKeys(more)
    ensures MapLeaves(List(items), Leaf(StringDefs, Resolve(StringDefs, Update(starting, more))))
         == MapLeaves(List(items), ExpandedTwice(TextFor(more, starting)))
  {
    var defs := Update(starting, more);
    forall s | Mentions(List(items), s)
      ensures Leaf(StringDefs, Resolve(StringDefs, defs))(s) == ExpandedTwice(TextFor(more, starting))(s)
    {
      StringDefsExpandTwice(s, defs);
      ExpandsAlike(s, more, starting);
      ExpandsAlike(Expand(s, Define(defs)), more, starting);
    }
    SameLeaves(List(items), Leaf(StringDefs, Resolve(StringDefs, defs)), ExpandedTwice(TextFor(more, starting)));
  }

  lemma ExpandsAlike(s: string, more: seq<Entry>, starting: seq<Entry>)
    requires Template(s) && DistinctKeys(more) && DistinctKeys(starting)
    ensures Expand(s, Define(Update(starting, more))) == Expand(s, TextFor(more, starting))
  {
    forall n | HasHole(s, n) ensures Define(Update(starting, more))(n) == TextFor(more, starting)(n) {
      TextForDefinition(more, starting, n);
    }
    ExpandSame(s, Define(Update(starting, more)), TextFor(more, starting));
  }

  /** A text with a definition that uses no defined text becomes its definition. */
  lemma DefinitionIsPutIn(more: seq<Entry>, starting: seq<Entry>, s: string, v: Value)
    requires Lookup(more, s) == Some(v) && !v.Null?
    requires forall l :: Mentions(v, l) ==> Lookup(more, l) == None && Lookup(starting, l) == None
    ensures var f := StandsFor(more, starting); MapLeaves(MapLeaves(Str(s), f), f) == v
  {
    MapLeavesFixes(v, StandsFor(more, starting));
  }

  /** The common definitions, and the section of them under `key`, are missing, or false to Python,
      or dictionaries. A section that is false can only be merged when it is an empty container. */
  predicate Mergeable(basis: seq<Entry>, key: string) {
    match Lookup(basis, "commondefs")
    case None => true
    case Some(Dict(defs)) =>
      (match Lookup(defs, key)
       case None => true
       case Some(v) => v.Dict? || v == Str("") || v == List([]))
    case Some(v) => v in {Null, Number(0), Str(""), List([])}
  }

  /** When filtering with value definitions raises: common definitions that cannot be merged, or
      tools that cannot be walked, when there is anything to replace. */
  predicate FilterableValues(starting: seq<Entry>, basis: seq<Entry>) {
    && Mergeable(basis, "replacement_values")
    && (Update(starting, Section(basis, "replacement_values")) != [] ==>
          match Lookup(basis, "tools")
          case Some(v) => v.List? || v.Dict? || v.Str?
          case None => false)
  }

  /** The same for string definitions; these also raise when one of them is a number and there is a
      text to put it into, in a definition or in the tools. */
  ghost predicate FilterableStrings(starting: seq<Entry>, basis: seq<Entry>) {
    var defs := Update(starting, Section(basis, "replacement_strings"));
    && Mergeable(basis, "replacement_strings")
    && (defs != [] ==>
          exists items :: ToolsOf(basis, defs, items) && NoNumberMeetsText(defs, items))
  }

  ghost predicate NoText(v: Value) {
    forall s :: !Mentions(v, s)
  }

  ghost predicate NoNumberMeetsText(defs: seq<Entry>, items: seq<Value>) {
    (exists e :: e in defs && e.value.Number?) ==>
      NoText(Dict(defs)) && NoText(List(items))
  }

  lemma NoNumberIff(defs: seq<Entry>, items: seq<Value>)
    ensures NoNumberMeetsText(defs, items) <==>
            !Raises(StringDefs, defs) || (!HasText(Dict(defs)) && !HasText(List(items)))
    ensures Raises(StringDefs, Resolve(StringDefs, defs)) <==> Raises(StringDefs, defs)
  {
    ResolvedRaisesIff(defs);
    HasTextIff(Dict(defs));
    HasTextIff(List(items));
  }

  lemma {:induction false} TextIsMentioned(v: Value) returns (s: string)
    requires HasText(v)
    ensures Mentions(v, s)
  {
    match v
    case Str(text) => s := text;
    case Dict(entries) =>
      var i :| 0 <= i < |entries| && HasText(entries[i].value);
      s := TextIsMentioned(entries[i].value);
    case List(items) =>
      var i :| 0 <= i < |items| && HasText(items[i]);
      s := TextIsMentioned(items[i]);
  }

  lemma {:induction false} MentionedIsText(v: Value, s: string)
    requires Mentions(v, s)
    ensures HasText(v)
  {
    match v
    case Str(_) =>
    case Dict(entries) =>
      var i :| 0 <= i < |entries| && Mentions(entries[i].value, s);
      MentionedIsText(entries[i].value, s);
      assert entries[i] in entries;
    case List(items) =>
      var i :| 0 <= i < |items| && Mentions(items[i], s);
      MentionedIsText(items[i], s);
      assert items[i] in items;
  }

  lemma HasTextIff(v: Value)
    ensures HasText(v) <==> !NoText(v)
  {
    if HasText(v) {
      var s := TextIsMentioned(v);
    } else {
      forall s ensures !Mentions(v, s) {
        if Mentions(v, s) { MentionedIsText(v, s); }
      }
    }
  }

  lemma ResolvedRaisesIff(defs: seq<Entry>)
    ensures Raises(StringDefs, Resolve(StringDefs, defs)) <==> Raises(StringDefs, defs)
    ensures Raises(StringDefs, defs) <==> exists e :: e in defs && e.value.Number?
  {
    var resolved := Resolve(StringDefs, defs);
    forall i | 0 <= i < |defs| ensures resolved[i].value.Number? <==> defs[i].value.Number? {}
    if i :| 0 <= i < |defs| && defs[i].value.Number? { assert resolved[i].value.Number? && defs[i] in defs; }
  }

  lemma ValuesFilterIff(starting: seq<Entry>, basis: seq<Entry>)
    ensures Filtered(DictionaryDefs, starting, basis).Success? <==> basis == [] || FilterableValues(starting, basis)
  {
  }

  lemma VisitsIff(tools: Value, items: seq<Value>)
    ensures Visits(tools, items) <==> Iterate(Some(tools)) == Some(items)
  {
    match tools
    case Dict(entries) =>
      var visited := Iterate(Some(tools)).value;
      assert Visits(tools, items) ==> visited == items;
    case Str(text) =>
      var visited := Iterate(Some(tools)).value;
      assert Visits(tools, items) ==> visited == items;
    case _ =>
  }

  lemma ToolsOfIff(basis: seq<Entry>, defs: seq<Entry>, items: seq<Value>)
    requires basis != [] && defs != []
    ensures ToolsOf(basis, defs, items) <==> Iterate(Lookup(basis, "tools")) == Some(items)
  {
    if Lookup(basis, "tools").Some? { VisitsIff(Lookup(basis, "tools").value, items); }
  }

  lemma StringsFilterIff(starting: seq<Entry>, basis: seq<Entry>)
    ensures Filtered(StringDefs, starting, basis).Success? <==> basis == [] || FilterableStrings(starting, basis)
  {
    var defs := Update(starting, Section(basis, "replacement_strings"));
    if basis != [] && defs != [] && Mergeable(basis, "replacement_strings") {
      MergeableIff(starting, basis);
      var tools := Iterate(Lookup(basis, "tools"));
      if tools.Some? { NoNumberIff(defs, tools.value); }
      forall items ensures ToolsOf(basis, defs, items) <==> tools == Some(items) { ToolsOfIff(basis, defs, items); }
      assert tools.Some? ==> ToolsOf(basis, defs, tools.value);
    } else if basis != [] {
      MergeableIff(starting, basis);
    }
  }

  lemma MergeableIff(starting: seq<Entry>, basis: seq<Entry>)
    ensures Mergeable(basis, "replacement_strings") <==> Gather(StringDefs, starting, basis).Success?
    ensures Mergeable(basis, "replacement_strings") ==>
        Gather(StringDefs, starting, basis).value == Update(starting, Section(basis, "replacement_strings"))
  {
  }

  lemma NothingGathered(kind: Kind, starting: seq<Entry>)
    ensures Gather(kind, starting, []) == Success(starting)
  {
  }

  lemma FilterIsDescribed(starting: seq<Entry>, basis: seq<Entry>)
    ensures Filtered(DictionaryDefs, starting, basis).Success? <==> basis == [] || FilterableValues(starting, basis)
    ensures Filtered(StringDefs, starting, basis).Success? <==> basis == [] || FilterableStrings(starting, basis)
    ensures Filtered(DictionaryDefs, starting, basis).Success? && DistinctKeys(Section(basis, "replacement_values")) ==>
              ValuesPutIn(starting, basis, Filtered(DictionaryDefs, starting, basis).value)
    ensures Filtered(StringDefs, starting, basis).Success? ==>
              StringsPutIn(starting, basis, Filtered(StringDefs, starting, basis).value)
  {
    ValuesFilterIff(starting, basis);
    StringsFilterIff(starting, basis);
    NothingGathered(DictionaryDefs, starting);
    NothingGathered(StringDefs, starting);
    if Filtered(DictionaryDefs, starting, basis).Success? && DistinctKeys(Section(basis, "replacement_values")) {
      ValuesArePutIn(starting, basis);
    }
    if Filtered(StringDefs, starting, basis).Success? {
      StringsArePutIn(starting, basis);
    }
  }

  /** The definitions of a config, merged into those to start with. */
  method GatherDefinitions(kind: Kind, starting: seq<Entry>, basis: seq<Entry>) returns (r: Result<seq<Entry>, Error>)
    ensures r == Gather(kind, starting, basis)
  {
    var replacements := starting;
    var commondefs := Lookup(basis, "commondefs");
    if commondefs.Some? && !Falsy(commondefs.value) {
      if !commondefs.value.Dict? {
        return Failure(BadCommonDefs);
      }
      var section := Lookup(commondefs.value.entries, SectionKey(kind));
      if section.Some? {
        if section.value.Dict? {
          replacements := Update(replacements, section.value.entries);
        } else if section.value != Str("") && section.value != List([]) {
          return Failure(BadCommonDefs);
        }
      }
    }
    r := Success(replacements);
  }

  /** Filtering a config that is there. */
  method FilterBasis(kind: Kind, starting: seq<Entry>, basis: seq<Entry>) returns (r: Result<seq<Entry>, Error>)
    ensures r == Filtered(kind, starting, basis)
  {
    if basis == [] {
      return Success(basis);
    }
    var gathered := GatherDefinitions(kind, starting, basis);
    if gathered.Failure? || gathered.value == [] {
      return if gathered.Failure? then gathered else Success(basis);
    }
    var replacements := gathered.value;
    var resolved := FilterOneDict(kind, replacements, replacements);
    if resolved.Failure? {
      return Failure(resolved.error);
    }
    var tools := Iterate(Lookup(basis, "tools"));
    if tools.None? {
      return Failure(ToolsNotIterable);
    }
    var newTools := FilterOneList(kind, tools.value, resolved.value);
    if newTools.Failure? {
      return Failure(newTools.error);
    }
    r := Success(Put(basis, "tools", List(newTools.value)));
  }

  method FilterConfig(kind: Kind, starting: seq<Entry>, basis: Option<seq<Entry>>)
      returns (r: Result<Option<seq<Entry>>, Error>)
    ensures basis.None? ==> r == Success(None)
    ensures basis.Some? ==> r == match Filtered(kind, starting, basis.value)
                                 case Failure(e) => Failure(e)
                                 case Success(config) => Success(Some(config))
    ensures kind.DictionaryDefs? && basis.Some? ==>
              (r.Success? <==> basis.value == [] || FilterableValues(starting, basis.value))
    ensures kind.DictionaryDefs? && basis.Some? && r.Success?
            && DistinctKeys(Section(basis.value, "replacement_values")) ==>
              r.value.Some? && ValuesPutIn(starting, basis.value, r.value.value)
    ensures kind.StringDefs? && basis.Some? ==>
              (r.Success? <==> basis.value == [] || FilterableStrings(starting, basis.value))
    ensures kind.StringDefs? && basis.Some? && r.Success? ==>
              r.value.Some? && StringsPutIn(starting, basis.value, r.value.value)
  {
    if basis.None? {
      return Success(None);
    }
    FilterIsDescribed(starting, basis.value);
    var config := FilterBasis(kind, starting, basis.value);
    r := if config.Failure? then Failure(config.error) else Success(Some(config.value));
  }

  // ---------- Whole-value definitions: resolving once is substituting twice ----------

  lemma ResolvedLeaf(reps: seq<Entry>, s: string)
    ensures ReplaceLeaf(DictionaryDefs, Resolve(DictionaryDefs, reps), s)
         == MapLeaves(ReplaceLeaf(DictionaryDefs, reps, s), Leaf(DictionaryDefs, reps))
  {
    LookupMapped(reps, Leaf(DictionaryDefs, reps), s);
    if Lookup(reps, s).Some? {
      NothingBecomesNull(DictionaryDefs, Lookup(reps, s).value, reps);
    }
  }

  /** Filtering with the self-resolved definitions is filtering twice with the original ones. */
  lemma ResolvedFiltersTwice(v: Value, reps: seq<Entry>)
    ensures MapLeaves(v, Leaf(DictionaryDefs, Resolve(DictionaryDefs, reps)))
         == MapLeaves(MapLeaves(v, Leaf(DictionaryDefs, reps)), Leaf(DictionaryDefs, reps))
  {
    forall s ensures ReplaceLeaf(DictionaryDefs, Resolve(DictionaryDefs, reps), s)
                  == MapLeaves(ReplaceLeaf(DictionaryDefs, reps, s), Leaf(DictionaryDefs, reps))
    {
      ResolvedLeaf(reps, s);
    }
    MapLeavesCompose(v, Leaf(DictionaryDefs, reps), Leaf(DictionaryDefs, reps),
        Leaf(DictionaryDefs, Resolve(DictionaryDefs, reps)));
  }

  /** A text that the dictionary filter would still replace. */
  predicate Replaceable(reps: seq<Entry>, s: string) {
    Lookup(reps, s).Some? && !Lookup(reps, s).value.Null?
  }

  ghost predicate Normal(reps: seq<Entry>, v: Value) {
    forall l :: Mentions(v, l) ==> !Replaceable(reps, l)
  }

  /** Definitions used by a definition use no further definition. */
  ghost predicate TwoLayers(reps: seq<Entry>) {
    forall k, l :: Replaceable(reps, k) && Replaceable(reps, l) && Mentions(Lookup(reps, k).value, l)
      ==> Normal(reps, Lookup(reps, l).value)
  }

  ghost predicate EndsNormal(reps: seq<Entry>, v: Value) {
    Normal(reps, MapLeaves(v, Leaf(DictionaryDefs, Resolve(DictionaryDefs, reps))))
  }

  lemma TwoLayersNormalizeLeaf(reps: seq<Entry>, s: string)
    requires TwoLayers(reps)
    ensures Normal(reps, ReplaceLeaf(DictionaryDefs, Resolve(DictionaryDefs, reps), s))
  {
    ResolvedLeaf(reps, s);
    var f := Leaf(DictionaryDefs, reps);
    var once := ReplaceLeaf(DictionaryDefs, reps, s);
    forall l | Mentions(MapLeaves(once, f), l) ensures !Replaceable(reps, l) {
      LeavesAfterMap(once, f, l);
      var m :| Mentions(once, m) && Mentions(f(m), l);
      if Replaceable(reps, s) && Replaceable(reps, m) {
        assert Normal(reps, Lookup(reps, m).value);
      }
    }
  }

  /** No replaceable text is left, whatever the tools are, exactly when the definitions have at
      most two layers. */
  lemma NormalFormIff(reps: seq<Entry>)
    ensures (forall v :: EndsNormal(reps, v)) <==> TwoLayers(reps)
  {
    var f, g := Leaf(DictionaryDefs, reps), Leaf(DictionaryDefs, Resolve(DictionaryDefs, reps));
    if TwoLayers(reps) {
      forall v ensures EndsNormal(reps, v) {
        forall l | Mentions(MapLeaves(v, g), l) ensures !Replaceable(reps, l) {
          LeavesAfterMap(v, g, l);
          var s :| Mentions(v, s) && Mentions(g(s), l);
          TwoLayersNormalizeLeaf(reps, s);
        }
      }
    }
    if forall v :: EndsNormal(reps, v) {
      forall k, l | Replaceable(reps, k) && Replaceable(reps, l) && Mentions(Lookup(reps, k).value, l)
        ensures Normal(reps, Lookup(reps, l).value)
      {
        assert EndsNormal(reps, Str(k));
        ResolvedLeaf(reps, k);
        forall m | Mentions(Lookup(reps, l).value, m) ensures !Replaceable(reps, m) {
          LeavesAfterMap(Lookup(reps, k).value, f, m);
          assert Mentions(f(l), m);
        }
      }
    }
  }

  lemma NormalIsUntouched(reps: seq<Entry>, v: Value)
    requires Normal(reps, v)
    ensures MapLeaves(v, Leaf(DictionaryDefs, Resolve(DictionaryDefs, reps))) == v
  {
    forall s | Mentions(v, s) ensures Leaf(DictionaryDefs, Resolve(DictionaryDefs, reps))(s) == Str(s) {
      ResolvedLeaf(reps, s);
    }
    MapLeavesFixes(v, Leaf(DictionaryDefs, Resolve(DictionaryDefs, reps)));
  }

  lemma PutKeepsGather(kind: Kind, starting: seq<Entry>, basis: seq<Entry>, tools: Value)
    ensures Gather(kind, starting, Put(basis, "tools", tools)) == Gather(kind, starting, basis)
    ensures Lookup(Put(basis, "tools", tools), "tools") == Some(tools)
  {
    LookupPut(basis, "tools", tools, "commondefs");
    LookupPut(basis, "tools", tools, "tools");
  }

  lemma MoreTextInItems(xs: seq<Value>, ys: seq<Value>)
    requires |xs| == |ys| && forall i :: 0 <= i < |xs| && HasText(xs[i]) ==> HasText(ys[i])
    ensures HasText(List(xs)) ==> HasText(List(ys))
  {
    if x :| x in xs && HasText(x) {
      var i :| 0 <= i < |xs| && xs[i] == x;
      assert ys[i] in ys;
    }
  }

  lemma MoreTextInEntries(xs: seq<Entry>, ys: seq<Entry>)
    requires |xs| == |ys| && forall i :: 0 <= i < |xs| && HasText(xs[i].value) ==> HasText(ys[i].value)
    ensures HasText(Dict(xs)) ==> HasText(Dict(ys))
  {
    if e :| e in xs && HasText(e.value) {
      var i :| 0 <= i < |xs| && xs[i] == e;
      assert ys[i] in ys;
    }
  }

  /** Filling holes leaves texts texts. */
  lemma {:induction false} TextStaysText(v: Value, reps: seq<Entry>)
    ensures HasText(MapLeaves(v, Leaf(StringDefs, reps))) <==> HasText(v)
  {
    var f := Leaf(StringDefs, reps);
    match v
    case Dict(entries) =>
      var r := MapEntries(entries, f);
      forall i | 0 <= i < |entries| ensures HasText(r[i].value) <==> HasText(entries[i].value) {
        TextStaysText(entries[i].value, reps);
      }
      MoreTextInEntries(entries, r);
      MoreTextInEntries(r, entries);
    case List(items) =>
      var r := MapItems(items, f);
      forall i | 0 <= i < |items| ensures HasText(r[i]) <==> HasText(items[i]) { TextStaysText(items[i], reps); }
      MoreTextInItems(items, r);
      MoreTextInItems(r, items);
    case _ =>
  }

  /** The "tools" that a filter run produced, and a second run over its result. */
  lemma SecondRun(kind: Kind, starting: seq<Entry>, basis: seq<Entry>)
    requires basis != [] && Gather(kind, starting, basis).Success? && Gather(kind, starting, basis).value != []
    requires Filtered(kind, starting, basis).Success?
    ensures var reps := Gather(kind, starting, basis).value;
            var resolved := Leaf(kind, Resolve(kind, reps));
            var config := Filtered(kind, starting, basis).value;
            && Lookup(config, "tools").Some? && Lookup(config, "tools").value.List?
            && Filtered(kind, starting, config)
                == Success(Put(config, "tools", MapLeaves(Lookup(config, "tools").value, resolved)))
  {
    var reps := Gather(kind, starting, basis).value;
    var items := Iterate(Lookup(basis, "tools")).value;
    var tools := List(MapItems(items, Leaf(kind, Resolve(kind, reps))));
    PutKeepsGather(kind, starting, basis, tools);
    if kind.StringDefs? { TextStaysText(List(items), Resolve(kind, reps)); }
  }

  /** A second run changes nothing exactly when every text left in the tools stands for itself. */
  lemma SecondRunChangesNothingIff(kind: Kind, starting: seq<Entry>, basis: seq<Entry>)
    requires basis != [] && Gather(kind, starting, basis).Success? && Gather(kind, starting, basis).value != []
    requires Filtered(kind, starting, basis).Success?
    ensures var reps := Gather(kind, starting, basis).value;
            var config := Filtered(kind, starting, basis).value;
            Filtered(kind, starting, config) == Success(config) <==>
            Lookup(config, "tools").Some? && forall l :: Mentions(Lookup(config, "tools").value, l) ==>
              ReplaceLeaf(kind, Resolve(kind, reps), l) == Str(l)
  {
    var reps := Gather(kind, starting, basis).value;
    var resolved := Leaf(kind, Resolve(kind, reps));
    var config := Filtered(kind, starting, basis).value;
    SecondRun(kind, starting, basis);
    var tools := Lookup(config, "tools").value;
    var again := MapLeaves(tools, resolved);
    MapLeavesFixes(tools, resolved);
    LookupPut(config, "tools", again, "tools");
    if again == tools {
      PutSame(config, "tools", tools);
    }
  }

  /** With two layers of definitions the filter is idempotent. */
  lemma TwoLayersFilterIsIdempotent(starting: seq<Entry>, basis: seq<Entry>)
    requires Filtered(DictionaryDefs, starting, basis).Success?
    requires Gather(DictionaryDefs, starting, basis).Success? ==>
        TwoLayers(Gather(DictionaryDefs, starting, basis).value)
    ensures Filtered(DictionaryDefs, starting, Filtered(DictionaryDefs, starting, basis).value)
        == Filtered(DictionaryDefs, starting, basis)
  {
    if basis != [] && Gather(DictionaryDefs, starting, basis).value != [] {
      var reps := Gather(DictionaryDefs, starting, basis).value;
      var resolved := Leaf(DictionaryDefs, Resolve(DictionaryDefs, reps));
      var config := Filtered(DictionaryDefs, starting, basis).value;
      SecondRun(DictionaryDefs, starting, basis);
      var items := Iterate(Lookup(basis, "tools")).value;
      LookupPut(basis, "tools", MapLeaves(List(items), resolved), "tools");
      NormalFormIff(reps);
      assert EndsNormal(reps, List(items));
      NormalIsUntouched(reps, Lookup(config, "tools").value);
      PutSame(config, "tools", Lookup(config, "tools").value);
    }
  }

  /** Three layers are one too many: "a" is left standing for "c", which is still defined. */
  lemma ThreeLayersAreNotResolved(x: string)
    requires x !in {"a", "b", "c"}
    ensures var reps := [Entry("a", Str("b")), Entry("b", Str("c")), Entry("c", Str(x))];
            !TwoLayers(reps) && MapLeaves(Str("a"), Leaf(DictionaryDefs, Resolve(DictionaryDefs, reps))) == Str("c") &&
                Replaceable(reps, "c")
  {
    var reps := [Entry("a", Str("b")), Entry("b", Str("c")), Entry("c", Str(x))];
    assert reps[1..] == [Entry("b", Str("c")), Entry("c", Str(x))] && reps[1..][1..] == [Entry("c", Str(x))];
    assert Lookup(reps[1..], "b") == Some(Str("c"));
    assert Lookup(reps[1..], "c") == Lookup(reps[1..][1..], "c") == Some(Str(x));
    assert Lookup(reps, "a") == Some(Str("b")) && Lookup(reps, "b") == Some(Str("c")) &&
        Lookup(reps, "c") == Some(Str(x));
    ResolvedLeaf(reps, "a");
    assert Mentions(Lookup(reps, "a").value, "b") && Mentions(Lookup(reps, "b").value, "c");
  }

  // ---------- String definitions: two layers of templates ----------

  /** Definitions are templates, and those that a definition uses use no definition. */
  ghost predicate TwoTemplateLayers(reps: seq<Entry>) {
    && TemplateDefs(reps)
    && forall e, n, d, m ::
         (e in reps && Usable(e) && HasHole(e.value.s, n) && d in reps && Usable(d) && d.key == n &&
             HasHole(d.value.s, m))
         ==> !Defined(reps, m)
  }

  lemma {:induction false} DefinitionIsAnEntry(reps: seq<Entry>, name: string) returns (d: Entry)
    requires Defined(reps, name)
    ensures d in reps && Usable(d) && d.key == name && DefineHole(reps, name) == d.value.s
  {
    if Usable(reps[0]) && reps[0].key == name {
      d := reps[0];
    } else {
      d := DefinitionIsAnEntry(reps[1..], name);
    }
  }

  lemma ResolvesDefinition(reps: seq<Entry>, e: Entry)
    requires TwoTemplateLayers(reps) && e in reps && Usable(e)
    ensures InSequence(e.value.s, reps) == Expand(e.value.s, Define(reps))
    ensures Template(InSequence(e.value.s, reps))
  {
    InSequenceIsExpand(e.value.s, reps);
    forall n | HasHole(e.value.s, n) ensures Chase(reps)(n) == Define(reps)(n) {
      ChaseFindsDefinition(reps, n);
    }
    ExpandSame(e.value.s, Chase(reps), Define(reps));
  }

  lemma DefineFillsHoles(s: string, reps: seq<Entry>)
    requires Template(s) && TemplateDefs(reps)
    ensures FillsHoles(s, Define(reps))
  {
    forall n | HasHole(s, n) ensures Template(Define(reps)(n)) {
      if Defined(reps, n) {
        var d := DefinitionIsAnEntry(reps, n);
      } else {
        UndefinedHole(reps, n);
        HolesAreBraceFree(s, n);
        BracedIsTemplate(n);
      }
    }
  }

  lemma {:induction false} ExpandIsNotEmpty(s: string, reps: seq<Entry>)
    requires Template(s) && s != ""
    ensures Expand(s, Define(reps)) != ""
  {
    if StartsWithHole(s) {
      var n := HoleName(s);
      if Defined(reps, n) {
        var d := DefinitionIsAnEntry(reps, n);
      } else {
        UndefinedHole(reps, n);
      }
    }
  }

  /** A resolved definition uses nothing that is defined. */
  lemma ResolvedIsFlat(reps: seq<Entry>, e: Entry)
    requires TwoTemplateLayers(reps) && e in reps && Usable(e)
    ensures Template(Expand(e.value.s, Define(reps)))
    ensures forall m :: HasHole(Expand(e.value.s, Define(reps)), m) ==> !Defined(reps, m)
  {
    var s := e.value.s;
    DefineFillsHoles(s, reps);
    HolesAfterExpand(s, Define(reps), "");
    forall m | HasHole(Expand(s, Define(reps)), m) ensures !Defined(reps, m) {
      HolesAfterExpand(s, Define(reps), m);
      var n :| HasHole(s, n) && HasHole(Define(reps)(n), m);
      if Defined(reps, n) {
        var d := DefinitionIsAnEntry(reps, n);
      } else {
        UndefinedHole(reps, n);
        HolesAreBraceFree(s, n);
        BracedIsTemplate(n);
      }
    }
  }

  /** Entry by entry, the resolved definitions are the expanded ones. */
  lemma ResolvedEntry(reps: seq<Entry>, i: nat)
    requires TwoTemplateLayers(reps) && i < |reps|
    ensures var r := Resolve(StringDefs, reps)[i];
            && r.key == reps[i].key && (Usable(r) <==> Usable(reps[i]))
            && (Usable(reps[i]) ==> r.value.s == Expand(reps[i].value.s, Define(reps)))
  {
    var e := reps[i];
    assert e in reps;
    if Usable(e) {
      ResolvesDefinition(reps, e);
      ExpandIsNotEmpty(e.value.s, reps);
    } else if e.value.Str? {
      EmptyStaysEmpty(reps);
    }
  }

  lemma {:induction false} EmptyStaysEmpty(reps: seq<Entry>)
    requires TemplateDefs(reps)
    ensures InSequence("", reps) == ""
  {
    InSequenceIsExpand("", reps);
  }

  lemma ResolvedDefines(reps: seq<Entry>, n: string)
    requires TwoTemplateLayers(reps)
    ensures Defined(Resolve(StringDefs, reps), n) <==> Defined(reps, n)
  {
    var resolved := Resolve(StringDefs, reps);
    forall i | 0 <= i < |reps| ensures resolved[i].key == reps[i].key && (Usable(resolved[i]) <==> Usable(reps[i])) {
      ResolvedEntry(reps, i);
    }
    SameDefined(reps, resolved, n);
    SameDefined(resolved, reps, n);
  }

  lemma SameDefined(a: seq<Entry>, b: seq<Entry>, n: string)
    requires |a| == |b| && forall i :: 0 <= i < |a| ==> b[i].key == a[i].key && (Usable(b[i]) <==> Usable(a[i]))
    ensures Defined(a, n) ==> Defined(b, n)
  {
    if Defined(a, n) {
      var e :| e in a && Usable(e) && e.key == n;
      var i :| 0 <= i < |a| && a[i] == e;
      assert b[i] in b;
    }
  }

  lemma ResolvedDefsAreFlat(reps: seq<Entry>)
    requires TwoTemplateLayers(reps)
    ensures FlatDefs(Resolve(StringDefs, reps))
  {
    var resolved := Resolve(StringDefs, reps);
    forall e | e in resolved && Usable(e)
      ensures BraceFree(e.key) && Template(e.value.s) && forall m :: HasHole(e.value.s, m) ==> !Defined(resolved, m)
    {
      var i :| 0 <= i < |resolved| && resolved[i] == e;
      ResolvedEntry(reps, i);
      assert reps[i] in reps;
      ResolvedIsFlat(reps, reps[i]);
      forall m | HasHole(e.value.s, m) ensures !Defined(resolved, m) { ResolvedDefines(reps, m); }
    }
  }

  lemma {:induction false} DefinePointwise(a: seq<Entry>, b: seq<Entry>, f: string -> string, name: string)
    requires |a| == |b|
    requires forall i :: 0 <= i < |a| ==> b[i].key == a[i].key && (Usable(b[i]) <==> Usable(a[i]))
    requires forall i :: 0 <= i < |a| && Usable(a[i]) ==> b[i].value == Str(f(a[i].value.s))
    requires Defined(a, name)
    ensures DefineHole(b, name) == f(DefineHole(a, name))
  {
    if !(Usable(a[0]) && a[0].key == name) {
      DefinePointwise(a[1..], b[1..], f, name);
    }
  }

  /** Expansion as a total function on texts. */
  function ExpandWith(reps: seq<Entry>): string -> string {
    s => if Template(s) then Expand(s, Define(reps)) else s
  }

  lemma ResolvedDefinition(reps: seq<Entry>, name: string)
    requires TwoTemplateLayers(reps) && BraceFree(name)
    ensures Template(Define(reps)(name))
    ensures Define(Resolve(StringDefs, reps))(name) == Expand(Define(reps)(name), Define(reps))
  {
    var resolved := Resolve(StringDefs, reps);
    BracedIsTemplate(name);
    if Defined(reps, name) {
      var d := DefinitionIsAnEntry(reps, name);
      forall i | 0 <= i < |reps|
        ensures resolved[i].key == reps[i].key && (Usable(resolved[i]) <==> Usable(reps[i]))
        ensures Usable(reps[i]) ==> resolved[i].value == Str(ExpandWith(reps)(reps[i].value.s))
      {
        ResolvedEntry(reps, i);
        assert reps[i] in reps;
      }
      DefinePointwise(reps, resolved, ExpandWith(reps), name);
    } else {
      ResolvedDefines(reps, name);
      UndefinedHole(reps, name);
      UndefinedHole(resolved, name);
    }
  }

  /** Self-resolution followed by the loop over a text, both in dictionary order, is two
      simultaneous expansions: definitions may use definitions, in any order. */
  lemma StringDefsExpandTwice(s: string, reps: seq<Entry>)
    requires Template(s) && TwoTemplateLayers(reps)
    ensures Template(Expand(s, Define(reps)))
    ensures ReplaceLeaf(StringDefs, Resolve(StringDefs, reps), s) == Str(Expand(Expand(s, Define(reps)), Define(reps)))
  {
    var resolved := Resolve(StringDefs, reps);
    ResolvedDefsAreFlat(reps);
    SequentialIsSimultaneous(s, resolved);
    DefineFillsHoles(s, reps);
    forall n | HasHole(s, n) ensures Define(resolved)(n) == Expand(Define(reps)(n), Define(reps)) {
      HolesAreBraceFree(s, n);
      ResolvedDefinition(reps, n);
    }
    ExpandCompose(s, Define(reps), Define(reps), Define(resolved));
  }

  /** No defined hole is left in a filtered text, so filtering it again changes nothing. */
  lemma StringDefsReachNormalForm(s: string, reps: seq<Entry>)
    requires Template(s) && TwoTemplateLayers(reps)
    ensures var r := InSequence(s, Resolve(StringDefs, reps));
            Template(r) && (forall m :: HasHole(r, m) ==> !Defined(reps, m)) &&
                InSequence(r, Resolve(StringDefs, reps)) == r
  {
    var resolved := Resolve(StringDefs, reps);
    ResolvedDefsAreFlat(reps);
    SequentialIsSimultaneous(s, resolved);
    InSequenceIsExpand(s, resolved);
    var r := InSequence(s, resolved);
    DefineFillsHoles(s, resolved);
    forall m | HasHole(r, m) ensures !Defined(reps, m) && !Defined(resolved, m) {
      ResolvedDefines(reps, m);
      HolesAfterExpand(s, Define(resolved), m);
      var n :| HasHole(s, n) && HasHole(Define(resolved)(n), m);
      if Defined(resolved, n) {
        var d := DefinitionIsAnEntry(resolved, n);
      } else {
        UndefinedHole(resolved, n);
        HolesAreBraceFree(s, n);
        BracedIsTemplate(n);
      }
    }
    InertText(r, resolved);
  }

  // ---------- String definitions: exactly how far they are followed ----------

  lemma {:induction false} ReplaceKeepsText(s: string, what: string, with: string)
    requires what != "" && with != ""
    ensures ReplaceAll(s, what, with) == "" <==> s == ""
  {
  }

  /** Filling holes with texts that are not empty makes nothing empty. */
  lemma {:induction false} LoopKeepsText(s: string, reps: seq<Entry>)
    ensures InSequence(s, reps) == "" <==> s == ""
    decreases |reps|
  {
    if reps == [] {
    } else {
      var e := reps[0];
      if Usable(e) { ReplaceKeepsText(s, Braced(e.key), e.value.s); }
      LoopKeepsText(Step(s, e), reps[1..]);
    }
  }

  lemma LeafStaysLeaf(v: Value, reps: seq<Entry>)
    ensures MapLeaves(v, Leaf(StringDefs, reps)).Str? <==> v.Str?
    ensures v.Str? ==> MapLeaves(v, Leaf(StringDefs, reps)) == Str(InSequence(v.s, reps))
  {
  }

  lemma ResolvedIsUsableIff(reps: seq<Entry>, i: nat)
    requires i < |reps|
    ensures Resolve(StringDefs, reps)[i].key == reps[i].key
    ensures Usable(Resolve(StringDefs, reps)[i]) <==> Usable(reps[i])
    ensures Usable(reps[i]) ==> Resolve(StringDefs, reps)[i].value == Str(InSequence(reps[i].value.s, reps))
  {
    var f, v := Leaf(StringDefs, reps), reps[i].value;
    assert Resolve(StringDefs, reps)[i] == Entry(reps[i].key, MapLeaves(v, f));
    LeafStaysLeaf(v, reps);
    if v.Str? { LoopKeepsText(v.s, reps); }
  }

  /** Resolving keeps keys, what is defined, and templates. */
  lemma ResolvedKeepsTemplates(reps: seq<Entry>)
    requires TemplateDefs(reps) && DistinctKeys(reps)
    ensures TemplateDefs(Resolve(StringDefs, reps)) && DistinctKeys(Resolve(StringDefs, reps))
    ensures forall n :: Defined(Resolve(StringDefs, reps), n) <==> Defined(reps, n)
  {
    var resolved := Resolve(StringDefs, reps);
    forall i | 0 <= i < |reps|
      ensures resolved[i].key == reps[i].key && (Usable(resolved[i]) <==> Usable(reps[i]))
      ensures Usable(reps[i]) ==> BraceFree(resolved[i].key) && Template(resolved[i].value.s)
    {
      ResolvedIsUsableIff(reps, i);
      if Usable(reps[i]) {
        assert reps[i] in reps;
        InSequenceIsExpand(reps[i].value.s, reps);
      }
    }
    forall e | e in resolved && Usable(e) ensures BraceFree(e.key) && Template(e.value.s) {
      var i :| 0 <= i < |resolved| && resolved[i] == e;
    }
    forall n ensures Defined(resolved, n) <==> Defined(reps, n) {
      SameDefined(reps, resolved, n);
      SameDefined(resolved, reps, n);
    }
  }

  /** A template in which no defined hole is left. */
  ghost predicate Filled(reps: seq<Entry>, s: string) {
    Template(s) && forall m :: HasHole(s, m) ==> !Defined(reps, m)
  }

  ghost predicate EndsFilled(reps: seq<Entry>, s: string) {
    Template(s) ==> Filled(reps, InSequence(s, Resolve(StringDefs, reps)))
  }

  /** What becomes of the i-th definition: resolved, and then run through the resolved definitions
      that follow it. */
  function Settles(reps: seq<Entry>, i: nat): string
    requires i < |reps| && Usable(reps[i])
  {
    InSequence(InSequence(reps[i].value.s, reps), Resolve(StringDefs, reps)[i + 1..])
  }

  lemma HoleSettles(reps: seq<Entry>, i: nat)
    requires TemplateDefs(reps) && DistinctKeys(reps) && i < |reps| && Usable(reps[i])
    ensures Template(Braced(reps[i].key))
    ensures InSequence(Braced(reps[i].key), Resolve(StringDefs, reps)) == Settles(reps, i)
    ensures ChaseHole(Resolve(StringDefs, reps), reps[i].key) == Settles(reps, i)
  {
    ResolvedIsUsableIff(reps, i);
    ResolvedKeepsTemplates(reps);
    OwnHole(Resolve(StringDefs, reps), i);
    FindsOwnEntry(Resolve(StringDefs, reps), i);
  }

  lemma ChasedIsFilled(reps: seq<Entry>, n: string)
    requires TemplateDefs(reps) && DistinctKeys(reps) && BraceFree(n)
    requires forall i :: 0 <= i < |reps| && Usable(reps[i]) ==> Filled(reps, Settles(reps, i))
    ensures Filled(reps, ChaseHole(Resolve(StringDefs, reps), n))
  {
    var resolved := Resolve(StringDefs, reps);
    if Defined(reps, n) {
      var e :| e in reps && Usable(e) && e.key == n;
      var i :| 0 <= i < |reps| && reps[i] == e;
      HoleSettles(reps, i);
    } else {
      ResolvedKeepsTemplates(reps);
      UndefinedHole(resolved, n);
      BracedIsTemplate(n);
    }
  }

  lemma TextEndsFilled(reps: seq<Entry>, s: string)
    requires TemplateDefs(reps) && DistinctKeys(reps) && Template(s)
    requires forall i :: 0 <= i < |reps| && Usable(reps[i]) ==> Filled(reps, Settles(reps, i))
    ensures Filled(reps, InSequence(s, Resolve(StringDefs, reps)))
  {
    var resolved := Resolve(StringDefs, reps);
    ResolvedKeepsTemplates(reps);
    InSequenceIsExpand(s, resolved);
    forall n | HasHole(s, n) ensures Filled(reps, Chase(resolved)(n)) {
      HolesAreBraceFree(s, n);
      ChasedIsFilled(reps, n);
    }
    forall m | HasHole(InSequence(s, resolved), m) ensures !Defined(reps, m) {
      HolesAfterExpand(s, Chase(resolved), m);
      var n :| HasHole(s, n) && HasHole(Chase(resolved)(n), m);
      assert Filled(reps, Chase(resolved)(n));
    }
  }

  /** No template keeps a defined hole exactly when no definition does: each of them, resolved and
      run through the resolved definitions after it, has no defined hole left. Two layers are always
      enough for that; in a suitable order more are. */
  lemma StringNormalFormIff(reps: seq<Entry>)
    requires TemplateDefs(reps) && DistinctKeys(reps)
    ensures (forall s :: EndsFilled(reps, s)) <==>
            forall i :: 0 <= i < |reps| && Usable(reps[i]) ==> Filled(reps, Settles(reps, i))
  {
    if forall i :: 0 <= i < |reps| && Usable(reps[i]) ==> Filled(reps, Settles(reps, i)) {
      forall s ensures EndsFilled(reps, s) {
        if Template(s) { TextEndsFilled(reps, s); }
      }
    }
    if forall s :: EndsFilled(reps, s) {
      forall i | 0 <= i < |reps| && Usable(reps[i]) ensures Filled(reps, Settles(reps, i)) {
        HoleSettles(reps, i);
        assert EndsFilled(reps, Braced(reps[i].key));
      }
    }
  }

  /** With two layers of template definitions and templates in the tools, the filter is idempotent
      for string definitions, too. */
  lemma TwoTemplateLayersFilterIsIdempotent(starting: seq<Entry>, basis: seq<Entry>)
    requires Filtered(StringDefs, starting, basis).Success?
    requires Gather(StringDefs, starting, basis).Success? ==>
        TwoTemplateLayers(Gather(StringDefs, starting, basis).value)
    requires var tools := Iterate(Lookup(basis, "tools"));
             tools.Some? ==> forall s :: Mentions(List(tools.value), s) ==> Template(s)
    ensures Filtered(StringDefs, starting, Filtered(StringDefs, starting, basis).value)
        == Filtered(StringDefs, starting, basis)
  {
    if basis != [] && Gather(StringDefs, starting, basis).value != [] {
      var reps := Gather(StringDefs, starting, basis).value;
      var filled := Leaf(StringDefs, Resolve(StringDefs, reps));
      var items := Iterate(Lookup(basis, "tools")).value;
      SecondRunChangesNothingIff(StringDefs, starting, basis);
      LookupPut(basis, "tools", MapLeaves(List(items), filled), "tools");
      forall l | Mentions(MapLeaves(List(items), filled), l) ensures filled(l) == Str(l) {
        LeavesAfterMap(List(items), filled, l);
        var s :| Mentions(List(items), s) && Mentions(filled(s), l);
        StringDefsReachNormalForm(s, reps);
      }
    }
  }

  /** The same for a whole config tree whose texts are templates. */
  lemma StringDefsFilterTree(v: Value, reps: seq<Entry>)
    requires TwoTemplateLayers(reps) && forall s :: Mentions(v, s) ==> Template(s)
    ensures var twice := (s: string) => Str(ExpandWith(reps)(ExpandWith(reps)(s)));
            MapLeaves(v, Leaf(StringDefs, Resolve(StringDefs, reps))) == MapLeaves(v, twice)
  {
    var twice := (s: string) => Str(ExpandWith(reps)(ExpandWith(reps)(s)));
    var same := (s: string) => Str(s);
    forall s | Mentions(v, s)
        ensures twice(s) == MapLeaves(ReplaceLeaf(StringDefs, Resolve(StringDefs, reps), s), same) {
      StringDefsExpandTwice(s, reps);
      var once := Expand(s, Define(reps));
      assert ExpandWith(reps)(s) == once && ExpandWith(reps)(once) == Expand(once, Define(reps));
      assert MapLeaves(Str(Expand(once, Define(reps))), same) == Str(Expand(once, Define(reps)));
    }
    MapLeavesCompose(v, Leaf(StringDefs, Resolve(StringDefs, reps)), same, twice);
    MapLeavesFixes(MapLeaves(v, Leaf(StringDefs, Resolve(StringDefs, reps))), same);
  }
}
